/** The shared-memory zone: one set of nodes in a search tree, in the queue, and under
    the eviction cursor. Every method computes the function of BanSpec of the same name. */
module BanZone {
  import opened Options
  import BanSpec
  import opened BanTree
  import opened BanQueue

  type Key = BanSpec.Key
  type Time = BanSpec.Time

  /** What the queued nodes record. Relinking them does not change it. */
  ghost function Contents(order: seq<Node>): (q: seq<BanSpec.Rec>)
    reads order`windowStart, order`bannedUntil, order`hits
    ensures |q| == |order|
  {
    if order == [] then [] else [order[0].Content()] + Contents(order[1..])
  }

  lemma {:induction false} ContentsAt(order: seq<Node>, i: nat)
    requires i < |order|
    ensures Contents(order)[i] == order[i].Content()
  {
    if i > 0 {
      ContentsAt(order[1..], i - 1);
    }
  }

  lemma ContentsWithoutAt(order: seq<Node>, i: nat, j: nat)
    requires i < |order| && j < |order| - 1
    ensures Contents(Without(order, i))[j] == BanSpec.RemoveAt(Contents(order), i)[j]
  {
    hide Contents;
    var from := if j < i then j else j + 1;
    assert Without(order, i)[j] == order[from];
    ContentsAt(order, from);
    ContentsAt(Without(order, i), j);
    assert BanSpec.RemoveAt(Contents(order), i)[j] == Contents(order)[from];
  }

  lemma ContentsWithout(order: seq<Node>, i: nat)
    requires i < |order|
    ensures Contents(Without(order, i)) == BanSpec.RemoveAt(Contents(order), i)
  {
    hide Contents;
    var got, want := Contents(Without(order, i)), BanSpec.RemoveAt(Contents(order), i);
    assert |got| == |want| == |order| - 1;
    hide Without, BanSpec.RemoveAt;
    forall j | 0 <= j < |order| - 1
      ensures got[j] == want[j]
    {
      ContentsWithoutAt(order, i, j);
    }
  }

  lemma ContentsAfter(n: Node, order: seq<Node>)
    ensures Contents([n] + order) == [n.Content()] + Contents(order)
  {
  }

  /** A hit on the head of a list of nodes changes the record at its head alone. */
  method HitHead(n: Node, ghost rest: seq<Node>, now: Time, p: BanSpec.Policy) returns (armed: bool)
    requires n !in rest
    modifies n`windowStart, n`bannedUntil, n`hits
    ensures var q := old(Contents([n] + rest));
            Contents([n] + rest) == q[0 := BanSpec.Touch(q[0], now, p)] && armed == BanSpec.Arms(q[0], now, p)
  {
    ContentsAfter(n, rest);
    hide Contents, BanSpec.Touch, BanSpec.Arms;
    armed := n.Hit(now, p);
    ContentsAfter(n, rest);
  }

  /** A node that is no longer there has been judged. */
  ghost predicate KeptOrJudged(was: set<Node>, left: set<Node>, judged: seq<Node>) {
    forall n :: n in was ==> n in left || n in judged
  }

  lemma AllKept(was: set<Node>)
    ensures KeptOrJudged(was, was, [])
  {
  }

  lemma JudgeOne(was: set<Node>, left: set<Node>, left': set<Node>, judged: seq<Node>, q: Node)
    requires KeptOrJudged(was, left, judged) && left - {q} <= left'
    ensures KeptOrJudged(was, left', judged + [q])
  {
    assert q in judged + [q];
  }

  class Zone {
    const sentinel: Node
    const reshape: nat -> Skeleton
    var root: Node?
    var cursor: Node
    var bans: nat
    var steps: nat
    ghost var order: seq<Node>
    ghost var shape: Shape
    ghost var blocks: set<Node>

    /** The tree, the queue and the slab hold the same nodes. */
    ghost predicate Consistent()
      reads this, sentinel, blocks
    {
      Queue(sentinel, order, blocks) && Tree(root, shape, blocks)
    }

    /** ... and the cursor is the sentinel or a queued node, never a freed one. */
    ghost predicate Valid()
      reads this, sentinel, blocks
    {
      Consistent() && (cursor == sentinel || cursor in blocks)
    }

    /** The zone as a value. */
    ghost function Value(): BanSpec.Zone
      requires Valid()
      reads this, sentinel, blocks
    {
      BanSpec.Zone(Contents(order), if cursor == sentinel then None else Some(cursor.key), bans)
    }

    /** A fresh segment; `reshape` stands for the tree's rebalancing at each step. */
    constructor (reshape: nat -> Skeleton)
      ensures Valid() && fresh(this) && fresh(sentinel) && Value() == BanSpec.EmptyZone()
      ensures blocks == {}
    {
      this.reshape := reshape;
      sentinel := new Node(BanSpec.Key(0, []), 0);
      cursor := sentinel;
      root, bans, steps := null, 0, 0;
      order, shape, blocks := [], Leaf, {};
      new;
      cursor := sentinel;
      Init(sentinel);
    }

    /** No address appears twice. */
    lemma KeysAreDistinct()
      requires Consistent()
      ensures BanSpec.DistinctKeys(Contents(order))
    {
      forall i, j | 0 <= i < j < |order|
        ensures Contents(order)[i].key != Contents(order)[j].key
      {
        ContentsAt(order, i);
        ContentsAt(order, j);
        if order[i].key == order[j].key {
          OneNodePerKey(root, shape, blocks, order[i], order[j]);
        }
      }
    }

    /** An address has a node exactly when it is queued, and there only once. */
    lemma SameAddresses(k: Key)
      requires Consistent()
      ensures k in KeysOf(blocks) <==> BanSpec.Has(Contents(order), k)
      ensures forall i :: 0 <= i < |order| && order[i].key == k ==> i == BanSpec.IndexOf(Contents(order), k)
    {
      KeysAreDistinct();
      var q, found := Contents(order), BanSpec.IndexOf(Contents(order), k);
      forall i | 0 <= i < |order|
        ensures q[i].key == order[i].key
      {
        ContentsAt(order, i);
      }
      hide Contents, Tree;
      if k in KeysOf(blocks) {
        var n :| n in blocks && n.key == k;
        var j :| 0 <= j < |order| && order[j] == n;
        assert q[j].key == k;
      }
      if found < |q| {
        assert order[found] in blocks && order[found].key == k;
      }
    }

    // ---- lookup -----------------------------------------------------------

    /** `ngx_queue_remove` then `ngx_queue_insert_head`. */
    method ToHead(n: Node, ghost i: nat)
      requires Consistent() && i < |order| && order[i] == n
      modifies this`order, sentinel`prev, sentinel`next, blocks`prev, blocks`next
      ensures Consistent()
      ensures order == [n] + Without(old(order), i)
    {
      ghost var rest := Without(order, i);
      assert n != sentinel && blocks - {n} + {n} == blocks;
      hide Queue, Tree, Without;
      Unlink(n, sentinel, order, blocks, i);
      PushHead(sentinel, n, rest, blocks - {n});
      order := [n] + rest;
    }

    method Rehead(n: Node, ghost i: nat)
      requires Consistent() && i < |order| && order[i] == n
      modifies this`order, sentinel`prev, sentinel`next, blocks`prev, blocks`next
      ensures Consistent() && order == [n] + Without(old(order), i)
      ensures Contents(order) == [old(Contents(order))[i]] + BanSpec.RemoveAt(old(Contents(order)), i)
    {
      ContentsAt(order, i);
      ContentsWithout(order, i);
      ContentsAfter(n, Without(order, i));
      assert Contents([n] + Without(order, i)) == [Contents(order)[i]] + BanSpec.RemoveAt(Contents(order), i);
      hide Consistent, Contents, Without, BanSpec.RemoveAt;
      ToHead(n, i);
    }

    /** Finds the node of an address, and moves it to the head of the queue. */
    method Lookup(k: Key) returns (n: Node?)
      requires Valid()
      modifies this`order, sentinel`prev, sentinel`next, blocks`prev, blocks`next
      ensures Valid() && Value() == BanSpec.Lookup(old(Value()), k)
      ensures n == null <==> !BanSpec.Has(old(Value()).queue, k)
      ensures n != null ==> n in blocks && n.key == k && order != [] && order[0] == n
    {
      n := FindNode(root, k, shape, blocks);
      SameAddresses(k);
      if n != null {
        ghost var i := BanSpec.IndexOf(Contents(order), k);
        assert n in order;
        Rehead(n, i);
      }
    }

    // ---- eviction ---------------------------------------------------------

    /** Takes a node out of the queue and the tree, and gives its block back. */
    method Free(x: Node, ghost i: nat)
      requires Consistent() && i < |order| && order[i] == x
      modifies this`order, this`shape, this`root, this`blocks, this`steps
      modifies sentinel`prev, sentinel`next, blocks`prev, blocks`next, blocks`left, blocks`right
      ensures Consistent()
      ensures order == Without(old(order), i) && blocks == old(blocks) - {x}
    {
      ghost var rest := Without(order, i);
      assert x in blocks;
      hide Queue, Tree, Without;
      Unlink(x, sentinel, order, blocks, i);
      root, shape := DeleteNode(root, x, reshape(steps), shape, blocks);
      steps := steps + 1;
      order, blocks := rest, blocks - {x};
    }

    /** ... which drops its record and no other. The cursor is not looked at. */
    method Evict(x: Node, ghost i: nat)
      requires Consistent() && i < |order| && order[i] == x
      modifies this`order, this`shape, this`root, this`blocks, this`steps
      modifies sentinel`prev, sentinel`next, blocks`prev, blocks`next, blocks`left, blocks`right
      ensures Consistent()
      ensures order == Without(old(order), i) && blocks == old(blocks) - {x}
      ensures Contents(order) == BanSpec.RemoveAt(old(Contents(order)), i)
    {
      ContentsWithout(order, i);
      ghost var rest := Without(order, i);
      assert Contents(rest) == BanSpec.RemoveAt(Contents(order), i);
      hide Consistent, Contents, Without, BanSpec.RemoveAt;
      Free(x, i);
      assert order == rest;
    }

    /** Where an eviction walk stands: position `pos` of the queue, -1 being the sentinel. */
    ghost predicate At(q: Node, pos: int)
      reads this
    {
      && -1 <= pos < |order|
      && if pos == -1 then q == sentinel else q == order[pos] && q in blocks && q != sentinel
    }

    /** Leaves the cursor where the walk stopped. */
    method ParkAt(q: Node, ghost pos: int)
      requires Consistent() && At(q, pos)
      modifies this`cursor
      ensures Valid() && Value() == BanSpec.Park(BanSpec.Walked(Contents(order), pos), bans)
    {
      if pos >= 0 {
        ContentsAt(order, pos);
      }
      hide Queue, Tree, Contents;
      cursor := q;
    }

    /** `ngx_queue_last` is the tail, or the sentinel of an empty queue. */
    lemma TailIsLast()
      requires Consistent()
      ensures sentinel.prev != null && At(sentinel.prev, |order| - 1)
    {
      Ends(sentinel, order);
    }

    /** A walk starts at the cursor's node, or at the tail. */
    lemma StartsAtCursor(now: Time, window: nat) returns (pos: int)
      requires Valid()
      ensures cursor != sentinel ==> At(cursor, pos)
      ensures cursor == sentinel ==> pos == |order| - 1
      ensures -1 <= pos < |order|
      ensures BanSpec.Expire(Value(), now, window) == BanSpec.Park(Walks(pos, 0, 0, cursor == sentinel, now, window), bans)
    {
      if cursor == sentinel {
        pos := |order| - 1;
      } else {
        SameAddresses(cursor.key);
        assert cursor in order;
        pos :| 0 <= pos < |order| && order[pos] == cursor;
      }
    }

    /** What is left of an eviction walk. */
    ghost function Walks(pos: int, scanned: nat, evicted: nat, wrapped: bool, now: Time, window: nat): (w: BanSpec.Walked)
      requires -1 <= pos < |order|
      reads this, order
      ensures -1 <= w.pos < |w.queue|
    {
      BanSpec.Walk(Contents(order), pos, scanned, evicted, wrapped, now, window)
    }

    /** Where a walk goes from a queued node. */
    lemma GoesOn(q: Node, scanned: nat, evicted: nat, wrapped: bool, now: Time, window: nat, pos: nat)
      requires Consistent() && q != sentinel && At(q, pos) && scanned < BanSpec.SCAN && evicted < BanSpec.EVICT
      ensures q.prev != null && At(q.prev, pos - 1) && q.prev != q && q in blocks && pos < |order|
      ensures Walks(pos, scanned, evicted, wrapped, now, window)
           == if BanSpec.Live(q.Content(), now, window) then Walks(pos - 1, scanned + 1, evicted, wrapped, now, window)
              else BanSpec.Walk(BanSpec.RemoveAt(Contents(order), pos), pos - 1, scanned + 1, evicted + 1, wrapped, now, window)
    {
      ContentsAt(order, pos);
      NextAt(sentinel, order, pos);
      BanSpec.WalkStep(Contents(order), pos, scanned, evicted, wrapped, now, window);
      hide Contents, BanSpec.Walk, BanSpec.Live, BanSpec.RemoveAt;
    }

    /** Judges one node, and steps to `prev` before freeing it. */
    method Judge(q: Node, scanned: nat, evicted: nat, ghost wrapped: bool, now: Time, window: nat, ghost pos: nat)
      returns (prev: Node, scanned': nat, evicted': nat)
      requires Consistent() && q != sentinel && At(q, pos) && scanned < BanSpec.SCAN && evicted < BanSpec.EVICT
      modifies this`order, this`shape, this`root, this`blocks, this`steps
      modifies sentinel`prev, sentinel`next, blocks`prev, blocks`next, blocks`left, blocks`right
      ensures Consistent() && old(blocks) - {q} <= blocks <= old(blocks) && scanned' == scanned + 1
      ensures At(prev, pos - 1) && pos <= |order|
      ensures q in blocks <==> BanSpec.Live(q.Content(), now, window)
      ensures evicted' == evicted + if q in blocks then 0 else 1
      ensures Walks(pos - 1, scanned', evicted', wrapped, now, window)
           == old(Walks(pos, scanned, evicted, wrapped, now, window))
    {
      hide Consistent, Contents, BanSpec.Walk, BanSpec.RemoveAt;
      GoesOn(q, scanned, evicted, wrapped, now, window, pos);
      scanned', evicted' := scanned + 1, evicted;
      prev := q.prev;
      if q.bannedUntil > now
        || (q.bannedUntil == 0 && now >= q.windowStart && BanSpec.AddClamp(q.windowStart, window) > now)
      {
        return;
      }
      Evict(q, pos);
      evicted' := evicted + 1;
    }

    /** At the sentinel a walk stops if it has wrapped, and goes on at the tail if not. */
    lemma WrapsOnce(q: Node, pos: int, scanned: nat, evicted: nat, wrapped: bool, now: Time, window: nat)
      requires Consistent() && At(q, pos) && q == sentinel && scanned < BanSpec.SCAN && evicted < BanSpec.EVICT
      ensures sentinel.prev != null && At(sentinel.prev, |order| - 1) && -1 <= pos < |order|
      ensures Walks(pos, scanned, evicted, wrapped, now, window)
           == if wrapped then BanSpec.Walked(Contents(order), pos)
              else Walks(|order| - 1, scanned, evicted, true, now, window)
    {
      TailIsLast();
      BanSpec.WalkStep(Contents(order), pos, scanned, evicted, wrapped, now, window);
    }

    lemma Stops(q: Node, pos: int, scanned: nat, evicted: nat, wrapped: bool, now: Time, window: nat)
      requires At(q, pos) && (scanned >= BanSpec.SCAN || evicted >= BanSpec.EVICT || (q == sentinel && wrapped))
      ensures Walks(pos, scanned, evicted, wrapped, now, window) == BanSpec.Walked(Contents(order), pos)
    {
    }

    /** The eviction walk from `start`: as far as its two budgets allow, wrapping at most
        once. `judged` lists the nodes it visits, one entry a visit. */
    method WalkFrom(start: Node, alreadyWrapped: bool, now: Time, window: nat, ghost from: int,
                    ghost goal: BanSpec.Walked)
      returns (q: Node, ghost pos: int, ghost judged: seq<Node>)
      requires Consistent() && At(start, from) && goal == Walks(from, 0, 0, alreadyWrapped, now, window)
      modifies this`order, this`shape, this`root, this`blocks, this`steps
      modifies sentinel`prev, sentinel`next, blocks`prev, blocks`next, blocks`left, blocks`right
      ensures Consistent() && blocks <= old(blocks) && At(q, pos)
      ensures goal == BanSpec.Walked(Contents(order), pos)
      ensures |judged| <= 32 && KeptOrJudged(old(blocks), blocks, judged)
    {
      hide Consistent, KeptOrJudged, Contents, Walks;
      var wrapped, scanned: nat, evicted: nat := alreadyWrapped, 0, 0;
      ghost var was := blocks;
      q, pos, judged := start, from, [];
      AllKept(blocks);
      while scanned < BanSpec.SCAN && evicted < BanSpec.EVICT
        invariant Consistent() && blocks <= old(blocks) && At(q, pos)
        invariant Walks(pos, scanned, evicted, wrapped, now, window) == goal
        invariant |judged| == scanned <= BanSpec.SCAN && KeptOrJudged(was, blocks, judged)
        decreases BanSpec.SCAN - scanned, if wrapped then 0 else 1
      {
        if q == sentinel {
          WrapsOnce(q, pos, scanned, evicted, wrapped, now, window);
          if wrapped {
            break;
          }
          wrapped := true;
          q, pos := sentinel.prev, |order| - 1;
        } else {
          ghost var left, visited := blocks, q;
          q, scanned, evicted := Judge(q, scanned, evicted, wrapped, now, window, pos);
          JudgeOne(was, left, blocks, judged, visited);
          pos, judged := pos - 1, judged + [visited];
        }
      }
      Stops(q, pos, scanned, evicted, wrapped, now, window);
    }

    /** Where a walk starts: at the cursor, or at the tail, which counts as its one wrap. */
    method Begin(now: Time, window: nat) returns (q: Node, wrapped: bool, ghost pos: int)
      requires Valid()
      ensures At(q, pos) && -1 <= pos < |order|
      ensures BanSpec.Expire(Value(), now, window) == BanSpec.Park(Walks(pos, 0, 0, wrapped, now, window), bans)
    {
      pos := StartsAtCursor(now, window);
      hide BanSpec.Park, BanSpec.Expire, Walks, Contents, Queue, Tree;
      q, wrapped := cursor, false;
      if q == sentinel {
        TailIsLast();
        q, wrapped := sentinel.prev, true;
      }
    }

    /** Reclaims stale nodes, and parks the cursor where the walk stopped. */
    method Expire(now: Time, window: nat)
      requires Valid()
      modifies this`order, this`shape, this`root, this`blocks, this`steps, this`cursor
      modifies sentinel`prev, sentinel`next, blocks`prev, blocks`next, blocks`left, blocks`right
      ensures Valid() && blocks <= old(blocks)
      ensures Value() == BanSpec.Expire(old(Value()), now, window)
    {
      hide BanSpec.Park, BanSpec.Expire, Walks, Contents, Consistent, Value, At;
      var q, wrapped; ghost var pos, judged;
      q, wrapped, pos := Begin(now, window);
      q, pos, judged := WalkFrom(q, wrapped, now, window, pos, Walks(pos, 0, 0, wrapped, now, window));
      ParkAt(q, pos);
    }

    // ---- the calls --------------------------------------------------------

    method IsBanned(k: Key, now: Time) returns (banned: bool)
      requires Valid()
      modifies this`order, sentinel`prev, sentinel`next, blocks`prev, blocks`next
      ensures Valid()
      ensures BanSpec.Step(Value(), BanSpec.Banned(banned)) == BanSpec.IsBanned(old(Value()), k, now)
    {
      var n := Lookup(k);
      if n != null {
        ContentsAt(order, 0);
      }
      banned := n != null && n.bannedUntil > now;
    }

    /** `ngx_rbtree_insert` and `ngx_queue_insert_head` of a new node. */
    method Attach(n: Node)
      requires Consistent() && n !in blocks && n != sentinel && n.key !in KeysOf(blocks)
      modifies this`order, this`shape, this`root, this`blocks, this`steps
      modifies sentinel`prev, sentinel`next, blocks`prev, blocks`next, blocks`left, blocks`right
      modifies n`left, n`right, n`prev, n`next
      ensures Consistent() && order == [n] + old(order) && blocks == old(blocks) + {n}
    {
      hide Queue, Tree, KeysOf;
      root, shape := InsertNode(root, n, reshape(steps), shape, blocks);
      steps := steps + 1;
      PushHead(sentinel, n, order, blocks);
      order, blocks := [n] + order, blocks + {n};
    }

    /** A node for an address, not yet in the zone. */
    method NewNode(k: Key, now: Time) returns (n: Node)
      requires Consistent()
      ensures Consistent() && fresh(n) && n.key == k
      ensures Contents([n] + order) == [BanSpec.Fresh(k, now)] + old(Contents(order))
    {
      n := new Node(k, now);
      ContentsAfter(n, order);
    }

    /** A new node for an address that has none. */
    method Add(k: Key, now: Time) returns (n: Node)
      requires Valid() && k !in KeysOf(blocks)
      modifies this`order, this`shape, this`root, this`blocks, this`steps
      modifies sentinel`prev, sentinel`next, blocks`prev, blocks`next, blocks`left, blocks`right
      ensures Valid() && fresh(n) && blocks == old(blocks) + {n}
      ensures order == [n] + old(order) && Contents(order) == [BanSpec.Fresh(k, now)] + old(Contents(order))
    {
      hide Consistent, Contents, KeysOf;
      n := NewNode(k, now);
      Attach(n);
    }

    /** Makes room, then a node if there is a block for it. */
    method Create(k: Key, now: Time, window: nat, memory: bool) returns (n: Node?)
      requires Valid() && !BanSpec.Has(Value().queue, k)
      modifies this, sentinel, blocks
      ensures Valid() && fresh(blocks - old(blocks)) && (n != null <==> memory)
      ensures Value() == var e := BanSpec.Expire(old(Value()), now, window);
                         if memory then e.(queue := [BanSpec.Fresh(k, now)] + e.queue) else e
      ensures n != null ==> n in blocks && order != [] && order[0] == n
    {
      SameAddresses(k);
      assert k !in KeysOf(blocks);
      hide Consistent, Contents, BanSpec.Expire, BanSpec.Has;
      Expire(now, window);
      if !memory {
        return null;
      }
      n := Add(k, now);
    }

    /** Finds or creates the node of an address, at the head. */
    method Prepare(k: Key, now: Time, window: nat, memory: bool) returns (n: Node?)
      requires Valid()
      modifies this, sentinel, blocks
      ensures Valid() && fresh(blocks - old(blocks))
      ensures n == null <==> BanSpec.Prepare(old(Value()), k, now, window, memory).None?
      ensures n == null ==> Value() == BanSpec.Expire(old(Value()), now, window)
      ensures n != null ==> n in blocks && order != [] && order[0] == n
      ensures n != null ==> Value() == BanSpec.Prepare(old(Value()), k, now, window, memory).value
    {
      n := Lookup(k);
      if n == null {
        n := Create(k, now, window, memory);
      }
    }

    /** Records a hit on the node at the head, and counts the ban it arms. */
    method Settle(n: Node, now: Time, p: BanSpec.Policy)
      requires Valid() && order != [] && order[0] == n && n in blocks
      modifies n`windowStart, n`bannedUntil, n`hits, this`bans
      ensures Valid()
      ensures var q := old(Contents(order));
              && Contents(order) == q[0 := BanSpec.Touch(q[0], now, p)]
              && bans == old(bans) + if BanSpec.Arms(q[0], now, p) then 1 else 0
    {
      ghost var rest := order[1..];
      assert order == [n] + rest;
      assert n !in rest;
      hide Queue, Tree, Contents, BanSpec.Touch, BanSpec.Arms;
      var armed := HitHead(n, rest, now, p);
      if armed {
        bans := bans + 1;
      }
    }

    method Record(k: Key, now: Time, p: BanSpec.Policy, memory: bool) returns (ok: bool)
      requires Valid()
      modifies this, sentinel, blocks
      ensures Valid() && fresh(blocks - old(blocks))
      ensures BanSpec.Step(Value(), BanSpec.Recorded(ok)) == BanSpec.Record(old(Value()), k, now, p, memory)
    {
      hide Queue, Tree, Contents, BanSpec.Prepare, BanSpec.Expire, BanSpec.Touch, BanSpec.Arms;
      var n := Prepare(k, now, p.window, memory);
      if n == null {
        return false;
      }
      Settle(n, now, p);
      return true;
    }
  }
}
