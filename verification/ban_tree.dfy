/** The search tree over ban nodes: linked nodes, with a ghost shape that describes them.

    nginx's red-black rotations are not part of this repository. Any restructuring that
    keeps the in-order sequence stands for them: `Build` relinks the nodes in whatever
    shape an arbitrary skeleton prescribes. */
module BanTree {
  import opened BanSpec
  import opened BanOrder

  /** A slab block: the tree links, the queue links, and what is recorded. */
  class Node {
    const key: Key
    var left: Node?
    var right: Node?
    var prev: Node?
    var next: Node?
    var windowStart: Time
    var bannedUntil: Time
    var hits: nat

    constructor (k: Key, now: Time)
      ensures key == k && windowStart == now && bannedUntil == 0 && hits == 0
      ensures left == null && right == null
    {
      key := k;
      left, right, prev, next := null, null, null, null;
      windowStart, bannedUntil, hits := now, 0, 0;
    }

    /** What the node records. */
    ghost function Content(): Rec
      reads this`windowStart, this`bannedUntil, this`hits
    {
      Rec(key, windowStart, bannedUntil, hits)
    }

    /** Rolls the window, counts the hit and, at `count` of them, arms the ban. */
    method Hit(now: Time, p: Policy) returns (armed: bool)
      modifies this`windowStart, this`bannedUntil, this`hits
      ensures Content() == Touch(old(Content()), now, p) && armed == Arms(old(Content()), now, p)
    {
      if bannedUntil != 0 && bannedUntil <= now {
        bannedUntil := 0;
      }
      if now < windowStart || now - windowStart >= p.window {
        windowStart := now;
        hits := 0;
      }
      hits := hits + 1;
      armed := hits >= p.count;
      if armed {
        bannedUntil := AddClamp(now, p.banTime);
        hits := 0;
        windowStart := now;
      }
    }
  }

  datatype Shape = Leaf | Bin(left: Shape, node: Node, right: Shape)

  function InOrder(s: Shape): seq<Node> {
    match s
    case Leaf => []
    case Bin(l, n, r) => InOrder(l) + [n] + InOrder(r)
  }

  ghost function NodeSet(ns: seq<Node>): set<Node> {
    set n | n in ns
  }

  ghost function Elems(s: Shape): set<Node> {
    NodeSet(InOrder(s))
  }

  /** The linked nodes under `root` have shape `s`. */
  ghost predicate Shaped(s: Shape, root: Node?)
    reads Elems(s)`left, Elems(s)`right
  {
    match s
    case Leaf => root == null
    case Bin(l, n, r) => root == n && Shaped(l, n.left) && Shaped(r, n.right)
  }

  lemma NodeSetAround(l: seq<Node>, n: Node, r: seq<Node>)
    ensures NodeSet(l + [n] + r) == NodeSet(l) + {n} + NodeSet(r)
  {
  }

  ghost predicate AllBelow(ns: seq<Node>, k: Key) {
    forall i :: 0 <= i < |ns| ==> Less(ns[i].key, k)
  }

  ghost predicate AllAbove(ns: seq<Node>, k: Key) {
    forall i :: 0 <= i < |ns| ==> Less(k, ns[i].key)
  }

  /** Every node of the left subtree is less, and of the right one greater. */
  ghost predicate Searchable(s: Shape) {
    match s
    case Leaf => true
    case Bin(l, n, r) =>
      Searchable(l) && Searchable(r) && AllBelow(InOrder(l), n.key) && AllAbove(InOrder(r), n.key)
  }

  ghost predicate Ascending(ns: seq<Node>) {
    forall i, j :: 0 <= i < j < |ns| ==> Less(ns[i].key, ns[j].key)
  }

  lemma AscendingAround(l: seq<Node>, n: Node, r: seq<Node>)
    ensures Ascending(l + [n] + r) <==> Ascending(l) && Ascending(r) && AllBelow(l, n.key) && AllAbove(r, n.key)
  {
    var q := l + [n] + r;
    assert forall i :: 0 <= i < |l| ==> q[i] == l[i];
    assert q[|l|] == n;
    assert forall i {:trigger r[i]} :: 0 <= i < |r| ==> q[|l| + 1 + i] == r[i];
    if Ascending(l) && Ascending(r) && AllBelow(l, n.key) && AllAbove(r, n.key) {
      forall i, j | 0 <= i < j < |q|
        ensures Less(q[i].key, q[j].key)
      {
        if i < |l| < j {
          Transitive(q[i].key, n.key, q[j].key);
        } else if i > |l| {
          assert q[i] == r[i - |l| - 1] && q[j] == r[j - |l| - 1];
        }
      }
    }
  }

  /** The search order depends on the in-order sequence alone. */
  lemma {:induction false} SearchableIffAscending(s: Shape)
    ensures Searchable(s) <==> Ascending(InOrder(s))
  {
    if s.Bin? {
      SearchableIffAscending(s.left);
      SearchableIffAscending(s.right);
      hide Ascending, AllBelow, AllAbove;
      AscendingAround(InOrder(s.left), s.node, InOrder(s.right));
    }
  }

  // ---- lookup -------------------------------------------------------------

  function Keys(ns: seq<Node>): set<Key> {
    set i | 0 <= i < |ns| :: ns[i].key
  }

  lemma KeysAround(l: seq<Node>, n: Node, r: seq<Node>)
    ensures Keys(l + [n] + r) == Keys(l) + {n.key} + Keys(r)
  {
    var q := l + [n] + r;
    assert forall i :: 0 <= i < |l| ==> q[i] == l[i];
    assert q[|l|] == n;
    assert forall i {:trigger r[i]} :: 0 <= i < |r| ==> q[|l| + 1 + i] == r[i];
  }

  /** An address lies on the side of a node that the order says. */
  lemma SideOf(s: Shape, k: Key)
    requires s.Bin? && Searchable(s) && k in Keys(InOrder(s))
    ensures Less(k, s.node.key) ==> k in Keys(InOrder(s.left))
    ensures Less(s.node.key, k) ==> k in Keys(InOrder(s.right))
  {
    KeysAround(InOrder(s.left), s.node, InOrder(s.right));
    Strict(k, s.node.key);
  }

  /** The descent of the lookup: it finds the node of `k` exactly when there is one. */
  method Find(root: Node?, k: Key, ghost s: Shape) returns (n: Node?)
    requires Shaped(s, root) && Searchable(s)
    ensures n != null ==> n in Elems(s) && n.key == k
    ensures n == null ==> k !in Keys(InOrder(s))
  {
    n := root;
    ghost var t := s;
    while n != null
      invariant Shaped(t, n) && Searchable(t) && Elems(t) <= Elems(s)
      invariant k in Keys(InOrder(s)) ==> k in Keys(InOrder(t))
      decreases t
    {
      OneTotalOrder(k, n.key, k);
      NodeSetAround(InOrder(t.left), n, InOrder(t.right));
      if k in Keys(InOrder(t)) {
        SideOf(t, k);
      }
      if k.hash < n.key.hash {
        n, t := n.left, t.left;
      } else if k.hash > n.key.hash {
        n, t := n.right, t.right;
      } else {
        var rc := Rc(k, n.key);
        if rc == 0 {
          return;
        }
        if rc < 0 {
          n, t := n.left, t.left;
        } else {
          n, t := n.right, t.right;
        }
      }
    }
  }

  // ---- insertion ----------------------------------------------------------

  function Insert(s: Shape, n: Node): Shape {
    match s
    case Leaf => Bin(Leaf, n, Leaf)
    case Bin(l, m, r) => if TurnsLeft(n.key, m.key) then Bin(Insert(l, n), m, r) else Bin(l, m, Insert(r, n))
  }

  /** Where the insert helper stops: the last node on the path of `k`. */
  function LastOnPath(s: Shape, k: Key): Node
    requires s.Bin?
  {
    var next := if TurnsLeft(k, s.node.key) then s.left else s.right;
    if next.Leaf? then s.node else LastOnPath(next, k)
  }

  lemma {:induction false} InsertElems(s: Shape, n: Node)
    ensures Elems(Insert(s, n)) == Elems(s) + {n}
  {
    if s.Bin? {
      InsertElems(s.left, n);
      InsertElems(s.right, n);
      NodeSetAround(InOrder(s.left), s.node, InOrder(s.right));
      NodeSetAround(InOrder(Insert(s, n).left), s.node, InOrder(Insert(s, n).right));
    }
  }

  lemma BoundsAround(l: seq<Node>, n: Node, r: seq<Node>, k: Key)
    ensures AllBelow(l + [n] + r, k) <==> AllBelow(l, k) && Less(n.key, k) && AllBelow(r, k)
    ensures AllAbove(l + [n] + r, k) <==> AllAbove(l, k) && Less(k, n.key) && AllAbove(r, k)
  {
    var q := l + [n] + r;
    assert forall i :: 0 <= i < |l| ==> q[i] == l[i];
    assert q[|l|] == n;
    assert forall i {:trigger r[i]} :: 0 <= i < |r| ==> q[|l| + 1 + i] == r[i];
  }

  lemma {:induction false} InsertKeepsBounds(s: Shape, n: Node, k: Key)
    ensures AllBelow(InOrder(Insert(s, n)), k) <==> AllBelow(InOrder(s), k) && Less(n.key, k)
    ensures AllAbove(InOrder(Insert(s, n)), k) <==> AllAbove(InOrder(s), k) && Less(k, n.key)
  {
    if s.Leaf? {
      BoundsAround([], n, [], k);
    } else {
      InsertKeepsBounds(s.left, n, k);
      InsertKeepsBounds(s.right, n, k);
      hide AllBelow, AllAbove;
      BoundsAround(InOrder(s.left), s.node, InOrder(s.right), k);
      BoundsAround(InOrder(Insert(s, n).left), s.node, InOrder(Insert(s, n).right), k);
    }
  }

  /** Inserting a key that is not there keeps the search order. */
  lemma {:induction false} InsertKeepsOrder(s: Shape, n: Node)
    requires Searchable(s) && n.key !in Keys(InOrder(s))
    ensures Searchable(Insert(s, n))
  {
    if s.Bin? {
      KeysAround(InOrder(s.left), s.node, InOrder(s.right));
      TurnIsLess(n.key, s.node.key);
      Strict(n.key, s.node.key);
      hide Less, TurnsLeft, AllBelow, AllAbove;
      if TurnsLeft(n.key, s.node.key) {
        InsertKeepsOrder(s.left, n);
        InsertKeepsBounds(s.left, n, s.node.key);
      } else {
        InsertKeepsOrder(s.right, n);
        InsertKeepsBounds(s.right, n, s.node.key);
      }
    }
  }

  lemma {:induction false} LastOnPathIn(s: Shape, k: Key)
    requires s.Bin?
    ensures LastOnPath(s, k) in Elems(s)
  {
    var next := if TurnsLeft(k, s.node.key) then s.left else s.right;
    NodeSetAround(InOrder(s.left), s.node, InOrder(s.right));
    if next.Bin? {
      LastOnPathIn(next, k);
    }
  }

  /** The links of some nodes, as a value. */
  datatype Links = Links(left: Node?, right: Node?)

  ghost function LinksOf(nodes: set<Node>): (m: map<Node, Links>)
    reads nodes`left, nodes`right
  {
    map n | n in nodes :: Links(n.left, n.right)
  }

  ghost predicate ShapedBy(s: Shape, root: Node?, m: map<Node, Links>) {
    match s
    case Leaf => root == null
    case Bin(l, n, r) => root == n && n in m && ShapedBy(l, m[n].left, m) && ShapedBy(r, m[n].right, m)
  }

  /** `m` records the links as they are now. */
  ghost predicate Current(ns: seq<Node>, m: map<Node, Links>)
    reads ns`left, ns`right
  {
    forall i :: 0 <= i < |ns| && ns[i] in m ==> m[ns[i]] == Links(ns[i].left, ns[i].right)
  }

  lemma CurrentAround(l: seq<Node>, n: Node, r: seq<Node>, m: map<Node, Links>)
    requires Current(l + [n] + r, m)
    ensures Current(l, m) && Current(r, m) && (n in m ==> m[n] == Links(n.left, n.right))
  {
    var q := l + [n] + r;
    assert forall i :: 0 <= i < |l| ==> q[i] == l[i];
    assert q[|l|] == n;
    assert forall i {:trigger r[i]} :: 0 <= i < |r| ==> q[|l| + 1 + i] == r[i];
  }

  lemma {:induction false} ShapedIsShapedBy(s: Shape, root: Node?, m: map<Node, Links>)
    requires Elems(s) <= m.Keys && Current(InOrder(s), m)
    ensures Shaped(s, root) <==> ShapedBy(s, root, m)
  {
    if s.Bin? {
      NodeSetAround(InOrder(s.left), s.node, InOrder(s.right));
      CurrentAround(InOrder(s.left), s.node, InOrder(s.right), m);
      ShapedIsShapedBy(s.left, s.node.left, m);
      ShapedIsShapedBy(s.right, s.node.right, m);
    }
  }

  /** Two records of the links agree on these nodes. */
  ghost predicate Same(ns: seq<Node>, m: map<Node, Links>, m': map<Node, Links>) {
    forall i :: 0 <= i < |ns| && ns[i] in m ==> ns[i] in m' && m'[ns[i]] == m[ns[i]]
  }

  lemma SameAround(l: seq<Node>, n: Node, r: seq<Node>, m: map<Node, Links>, m': map<Node, Links>)
    requires Same(l + [n] + r, m, m')
    ensures Same(l, m, m') && Same(r, m, m') && (n in m ==> n in m' && m'[n] == m[n])
  {
    var q := l + [n] + r;
    assert forall i :: 0 <= i < |l| ==> q[i] == l[i];
    assert q[|l|] == n;
    assert forall i {:trigger r[i]} :: 0 <= i < |r| ==> q[|l| + 1 + i] == r[i];
  }

  /** Links outside a subtree do not matter to its shape. */
  lemma {:induction false} ShapeFramed(s: Shape, root: Node?, m: map<Node, Links>, m': map<Node, Links>)
    requires ShapedBy(s, root, m)
    requires Same(InOrder(s), m, m')
    ensures ShapedBy(s, root, m')
  {
    if s.Bin? {
      SameAround(InOrder(s.left), s.node, InOrder(s.right), m, m');
      ShapeFramed(s.left, m[s.node].left, m, m');
      ShapeFramed(s.right, m[s.node].right, m, m');
    }
  }

  /** Hanging a childless node under the last node of its path is insertion. */
  lemma {:induction false} AttachIsInsert(s: Shape, root: Node?, temp: Node, n: Node,
                                          m: map<Node, Links>, m': map<Node, Links>)
    requires s.Bin? && ShapedBy(s, root, m) && Searchable(s) && n !in Elems(s)
    requires temp == LastOnPath(s, n.key) && temp in m && temp in m'
    requires n in m' && m'[n] == Links(null, null)
    requires m' == m[temp := m'[temp]][n := m'[n]]
    requires m'[temp] == if TurnsLeft(n.key, temp.key) then m[temp].(left := n) else m[temp].(right := n)
    ensures ShapedBy(Insert(s, n), root, m')
  {
    var here := s.node;
    var toLeft := TurnsLeft(n.key, here.key);
    var next, other := if toLeft then s.left else s.right, if toLeft then s.right else s.left;
    NodeSetAround(InOrder(s.left), here, InOrder(s.right));
    OneSideOnly(s, temp);
    if next.Bin? {
      LastOnPathIn(next, n.key);
      AttachIsInsert(next, if toLeft then m[here].left else m[here].right, temp, n, m, m');
    }
    assert forall i :: 0 <= i < |InOrder(other)| ==> InOrder(other)[i] in Elems(other);
    ShapeFramed(other, if toLeft then m[here].right else m[here].left, m, m');
  }

  lemma OneSideOnly(s: Shape, m: Node)
    requires s.Bin? && Searchable(s)
    ensures m in Elems(s.left) ==> m !in Elems(s.right) && m != s.node
    ensures m in Elems(s.right) ==> m != s.node
  {
    Strict(m.key, s.node.key);
  }

  /** The descent of the insert helper, to the node whose side on the path is empty. */
  method Descend(root: Node, k: Key, ghost s: Shape) returns (temp: Node, toLeft: bool)
    requires s.Bin? && Shaped(s, root)
    ensures temp in Elems(s) && temp == LastOnPath(s, k) && toLeft == TurnsLeft(k, temp.key)
  {
    temp := root;
    ghost var t := s;
    while true
      invariant t.Bin? && Shaped(t, temp) && Elems(t) <= Elems(s)
      invariant LastOnPath(t, k) == LastOnPath(s, k)
      decreases t
    {
      NodeSetAround(InOrder(t.left), temp, InOrder(t.right));
      toLeft := TurnsLeft(k, temp.key);
      var p := if toLeft then temp.left else temp.right;
      if p == null {
        return;
      }
      t := if toLeft then t.left else t.right;
      temp := p;
    }
  }

  /** Hangs a childless node on one side of another; no other link changes. */
  method Hang(temp: Node, node: Node, toLeft: bool, ghost nodes: set<Node>)
    requires temp in nodes && node !in nodes
    modifies temp`left, temp`right, node`left, node`right
    ensures var m := old(LinksOf(nodes));
            LinksOf(nodes + {node})
            == m[temp := if toLeft then m[temp].(left := node) else m[temp].(right := node)][node := Links(null, null)]
  {
    if toLeft {
      temp.left := node;
    } else {
      temp.right := node;
    }
    node.left, node.right := null, null;
  }

  /** The insert helper: descend from `root` and hang `node` where the path ends. */
  method InsertBelow(root: Node, node: Node, ghost s: Shape)
    requires s.Bin? && Shaped(s, root) && Searchable(s) && node !in Elems(s)
    modifies Elems(s)`left, Elems(s)`right, node`left, node`right
    ensures Shaped(Insert(s, node), root)
  {
    ghost var before: map<Node, Links> := LinksOf(Elems(s));
    ShapedIsShapedBy(s, root, before);
    var temp, toLeft := Descend(root, node.key, s);
    Hang(temp, node, toLeft, Elems(s));
    InsertElems(s, node);
    ghost var after: map<Node, Links> := LinksOf(Elems(s) + {node});
    assert temp in before && temp != node && after == before[temp := after[temp]][node := Links(null, null)];
    assert Current(InOrder(Insert(s, node)), after);
    hide LinksOf, Current;
    AttachIsInsert(s, root, temp, node, before, after);
    ShapedIsShapedBy(Insert(s, node), root, after);
  }

  // ---- restructuring ------------------------------------------------------

  /** The bare form of a binary tree. */
  datatype Skeleton = Tip | Fork(left: Skeleton, right: Skeleton)

  function Size(k: Skeleton): nat {
    match k
    case Tip => 0
    case Fork(l, r) => Size(l) + 1 + Size(r)
  }

  function Spine(n: nat): (k: Skeleton)
    ensures Size(k) == n
  {
    if n == 0 then Tip else Fork(Tip, Spine(n - 1))
  }

  /** `k` where it fits `n` nodes; every form of `n` nodes is reached by some `k`. */
  function Fitted(k: Skeleton, n: nat): (r: Skeleton)
    ensures Size(r) == n
    ensures Size(k) == n ==> r == k
  {
    if Size(k) == n then k else Spine(n)
  }

  ghost predicate DistinctNodes(ns: seq<Node>) {
    forall i, j :: 0 <= i < j < |ns| ==> ns[i] != ns[j]
  }

  /** The nodes of a tree in search order. */
  function Flatten(root: Node?, ghost s: Shape): (ns: seq<Node>)
    requires Shaped(s, root)
    reads Elems(s)`left, Elems(s)`right
    ensures ns == InOrder(s)
    decreases s
  {
    if root == null then [] else Flatten(root.left, s.left) + [root] + Flatten(root.right, s.right)
  }

  /** Relinks the nodes in the given form, in the same order. */
  method Build(k: Skeleton, ns: seq<Node>) returns (root: Node?, ghost s: Shape)
    requires Size(k) == |ns| && DistinctNodes(ns)
    modifies ns`left, ns`right
    ensures Shaped(s, root) && InOrder(s) == ns
    decreases k, 2
  {
    if k.Tip? {
      root, s := null, Leaf;
    } else {
      root, s := BuildFork(k, ns);
    }
  }

  /** ... the two sides of the node in the middle first. */
  method BuildFork(k: Skeleton, ns: seq<Node>) returns (root: Node, ghost s: Shape)
    requires k.Fork? && Size(k) == |ns| && DistinctNodes(ns)
    modifies ns`left, ns`right
    ensures Shaped(s, root) && InOrder(s) == ns
    decreases k, 1
  {
    var i := Size(k.left);
    var before, behind := ns[..i], ns[i + 1..];
    root := ns[i];
    assert ns == before + [root] + behind;
    Apart(before, root, behind);
    assert |before| == Size(k.left) && |behind| == Size(k.right);
    hide Size, Shaped, DistinctNodes;
    var l, sl, r, sr := BuildSides(k, before, behind);
    Join(root, l, sl, r, sr);
    s := Bin(sl, root, sr);
  }

  /** Hangs two trees under a node that is in neither. */
  method Join(n: Node, l: Node?, ghost sl: Shape, r: Node?, ghost sr: Shape)
    requires Shaped(sl, l) && Shaped(sr, r) && n !in Elems(sl) && n !in Elems(sr)
    modifies n`left, n`right
    ensures Shaped(Bin(sl, n, sr), n)
  {
    ghost var m := LinksOf(Elems(sl) + Elems(sr));
    ShapedIsShapedBy(sl, l, m);
    ShapedIsShapedBy(sr, r, m);
    n.left, n.right := l, r;
    ShapedIsShapedBy(sl, l, m);
    ShapedIsShapedBy(sr, r, m);
  }

  /** The second tree is built without disturbing the first. */
  method BuildSides(k: Skeleton, before: seq<Node>, behind: seq<Node>)
    returns (l: Node?, ghost sl: Shape, r: Node?, ghost sr: Shape)
    requires k.Fork? && Size(k.left) == |before| && Size(k.right) == |behind|
    requires DistinctNodes(before) && DistinctNodes(behind) && forall n :: n in before ==> n !in behind
    modifies before`left, before`right, behind`left, behind`right
    ensures Shaped(sl, l) && InOrder(sl) == before && forall n :: n in Elems(sl) ==> n in before
    ensures Shaped(sr, r) && InOrder(sr) == behind && forall n :: n in Elems(sr) ==> n in behind
    decreases k, 0
  {
    l, sl := Build(k.left, before);
    ghost var m := LinksOf(Elems(sl));
    ShapedIsShapedBy(sl, l, m);
    r, sr := Build(k.right, behind);
    ShapedIsShapedBy(sl, l, m);
  }

  lemma Apart(l: seq<Node>, n: Node, r: seq<Node>)
    requires DistinctNodes(l + [n] + r)
    ensures DistinctNodes(l) && DistinctNodes(r) && n !in l && n !in r
    ensures forall m :: m in l ==> m !in r
    ensures forall m :: m in l || m == n || m in r <==> m in l + [n] + r
  {
    var q := l + [n] + r;
    assert forall i :: 0 <= i < |l| ==> q[i] == l[i];
    assert q[|l|] == n;
    assert forall i {:trigger r[i]} :: 0 <= i < |r| ==> q[|l| + 1 + i] == r[i];
  }

  lemma AscendingDistinct(ns: seq<Node>)
    requires Ascending(ns)
    ensures DistinctNodes(ns)
    ensures forall i, j :: 0 <= i < j < |ns| ==> ns[i].key != ns[j].key
  {
    forall i, j | 0 <= i < j < |ns|
      ensures ns[i] != ns[j] && ns[i].key != ns[j].key
    {
      Strict(ns[i].key, ns[j].key);
    }
  }

  /** Any restructuring that keeps the search order. */
  method Relink(ns: seq<Node>, k: Skeleton) returns (root: Node?, ghost s: Shape)
    requires Ascending(ns)
    modifies ns`left, ns`right
    ensures Shaped(s, root) && Searchable(s) && InOrder(s) == ns
  {
    AscendingDistinct(ns);
    root, s := Build(Fitted(k, |ns|), ns);
    SearchableIffAscending(s);
  }

  /** `ngx_rbtree_insert`: the helper's descent, then any restructuring. */
  method Insertion(root: Node?, node: Node, k: Skeleton, ghost s: Shape) returns (root': Node?, ghost s': Shape)
    requires Shaped(s, root) && Searchable(s) && node !in Elems(s)
    requires node.key !in Keys(InOrder(s))
    modifies Elems(s)`left, Elems(s)`right, node`left, node`right
    ensures Shaped(s', root') && Searchable(s') && Elems(s') == Elems(s) + {node}
  {
    ghost var t := Insert(s, node);
    var top := node;
    if root == null {
      node.left, node.right := null, null;
    } else {
      InsertBelow(root, node, s);
      top := root;
    }
    InsertKeepsOrder(s, node);
    InsertElems(s, node);
    SearchableIffAscending(t);
    var ns := Flatten(top, t);
    root', s' := Relink(ns, k);
  }

  /** `ngx_rbtree_delete`: the node leaves the search order, then any restructuring. */
  method Deletion(root: Node?, x: Node, k: Skeleton, ghost s: Shape) returns (root': Node?, ghost s': Shape)
    requires Shaped(s, root) && Searchable(s) && x in Elems(s)
    modifies Elems(s)`left, Elems(s)`right
    ensures Shaped(s', root') && Searchable(s') && Elems(s') == Elems(s) - {x}
  {
    var ns := Flatten(root, s);
    SearchableIffAscending(s);
    var rest := DropNode(ns, x);
    assert forall i :: 0 <= i < |rest| ==> rest[i] in NodeSet(rest);
    root', s' := Relink(rest, k);
  }

  method DropNode(ns: seq<Node>, x: Node) returns (rest: seq<Node>)
    requires Ascending(ns) && x in NodeSet(ns)
    ensures Ascending(rest) && NodeSet(rest) == NodeSet(ns) - {x}
  {
    var i := 0;
    while ns[i] != x
      invariant 0 <= i < |ns| && x in ns[i..]
      decreases |ns| - i
    {
      i := i + 1;
    }
    rest := ns[..i] + ns[i + 1..];
    DropAt(ns, i);
  }

  lemma DropAt(ns: seq<Node>, i: nat)
    requires Ascending(ns) && i < |ns|
    ensures Ascending(ns[..i] + ns[i + 1..]) && NodeSet(ns[..i] + ns[i + 1..]) == NodeSet(ns) - {ns[i]}
  {
    var rest := ns[..i] + ns[i + 1..];
    AscendingDistinct(ns);
    assert forall a :: 0 <= a < |rest| ==> rest[a] == ns[if a < i then a else a + 1];
    assert forall a :: 0 <= a < |ns| && a != i ==> ns[a] == rest[if a < i then a else a - 1];
  }

  // ---- the tree of a set of nodes -----------------------------------------

  /** The tree under `root` is a search tree over exactly these nodes. */
  ghost predicate Tree(root: Node?, s: Shape, nodes: set<Node>)
    reads nodes`left, nodes`right
  {
    Elems(s) == nodes && Shaped(s, root) && Searchable(s)
  }

  ghost function KeysOf(nodes: set<Node>): set<Key> {
    set n | n in nodes :: n.key
  }

  lemma KeysOfShape(s: Shape)
    ensures Keys(InOrder(s)) == KeysOf(Elems(s))
  {
  }

  /** No two nodes of a search tree hold one address. */
  lemma OneNodePerKey(root: Node?, s: Shape, nodes: set<Node>, m: Node, n: Node)
    requires Tree(root, s, nodes) && m in nodes && n in nodes && m.key == n.key
    ensures m == n
  {
    SearchableIffAscending(s);
    AscendingDistinct(InOrder(s));
    var i :| 0 <= i < |InOrder(s)| && InOrder(s)[i] == m;
    var j :| 0 <= j < |InOrder(s)| && InOrder(s)[j] == n;
  }

  /** Lookup finds the node of an address exactly when the tree holds one. */
  method FindNode(root: Node?, k: Key, ghost s: Shape, ghost nodes: set<Node>) returns (n: Node?)
    requires Tree(root, s, nodes)
    ensures n != null ==> n in nodes && n.key == k
    ensures n == null <==> k !in KeysOf(nodes)
  {
    KeysOfShape(s);
    n := Find(root, k, s);
  }

  method InsertNode(root: Node?, node: Node, k: Skeleton, ghost s: Shape, ghost nodes: set<Node>)
    returns (root': Node?, ghost s': Shape)
    requires Tree(root, s, nodes) && node !in nodes && node.key !in KeysOf(nodes)
    modifies nodes`left, nodes`right, node`left, node`right
    ensures Tree(root', s', nodes + {node})
  {
    KeysOfShape(s);
    root', s' := Insertion(root, node, k, s);
  }

  method DeleteNode(root: Node?, x: Node, k: Skeleton, ghost s: Shape, ghost nodes: set<Node>)
    returns (root': Node?, ghost s': Shape)
    requires Tree(root, s, nodes) && x in nodes
    modifies nodes`left, nodes`right
    ensures Tree(root', s', nodes - {x})
  {
    root', s' := Deletion(root, x, k, s);
  }
}
