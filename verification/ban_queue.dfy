/** The circular, doubly linked queue of ban nodes around its sentinel. */
module BanQueue {
  import opened BanTree

  /** The queue written out, from the sentinel through head and tail back to it. */
  function Ring(sentinel: Node, order: seq<Node>): seq<Node> {
    [sentinel] + order + [sentinel]
  }

  ghost predicate Linked(sentinel: Node, order: seq<Node>)
    reads sentinel`prev, sentinel`next, order`prev, order`next
  {
    && sentinel !in order && DistinctNodes(order)
    && (forall i {:trigger Ring(sentinel, order)[i]} :: 0 <= i <= |order| ==>
          Ring(sentinel, order)[i].next == Ring(sentinel, order)[i + 1]
          && Ring(sentinel, order)[i + 1].prev == Ring(sentinel, order)[i])
  }

  function Without(order: seq<Node>, i: nat): seq<Node>
    requires i < |order|
  {
    order[..i] + order[i + 1..]
  }

  lemma NextAt(sentinel: Node, order: seq<Node>, i: nat)
    requires Linked(sentinel, order) && i < |order|
    ensures order[i].prev == Ring(sentinel, order)[i] && order[i].next == Ring(sentinel, order)[i + 2]
    ensures Ring(sentinel, order)[i + 1] == order[i]
  {
  }

  lemma Ends(sentinel: Node, order: seq<Node>)
    requires Linked(sentinel, order)
    ensures sentinel.next == if order == [] then sentinel else order[0]
    ensures sentinel.prev == if order == [] then sentinel else order[|order| - 1]
  {
    assert Ring(sentinel, order)[0].next == Ring(sentinel, order)[1];
    assert Ring(sentinel, order)[|order|].next == Ring(sentinel, order)[|order| + 1];
  }

  /** `ngx_queue_init` */
  method Init(sentinel: Node)
    modifies sentinel`prev, sentinel`next
    ensures Linked(sentinel, [])
  {
    sentinel.prev, sentinel.next := sentinel, sentinel;
  }

  /** Only the sentinel appears twice in its ring. */
  lemma RingDistinct(sentinel: Node, order: seq<Node>)
    requires sentinel !in order && DistinctNodes(order)
    ensures var ring := Ring(sentinel, order);
            forall a, b :: 0 <= a < b < |ring| && ring[a] == ring[b] ==> a == 0 && b == |order| + 1
  {
  }

  lemma WithoutDistinct(sentinel: Node, order: seq<Node>, i: nat)
    requires sentinel !in order && DistinctNodes(order) && i < |order|
    ensures sentinel !in Without(order, i) && DistinctNodes(Without(order, i)) && order[i] !in Without(order, i)
  {
  }

  /** `a` and `b` are neighbours. */
  ghost predicate Joined(a: Node, b: Node)
    reads a`next, b`prev
  {
    a.next == b && b.prev == a
  }

  /** The ring without position `i`, entry by entry. */
  lemma RingWithout(sentinel: Node, order: seq<Node>, i: nat, j: nat)
    requires i < |order| && j <= |order|
    ensures Ring(sentinel, Without(order, i))[j] == Ring(sentinel, order)[if j <= i then j else j + 1]
  {
  }

  /** A ring with the links around position `i` joined is the ring without it. */
  lemma SplicedIsLinked(sentinel: Node, order: seq<Node>, i: nat)
    requires sentinel !in order && DistinctNodes(order) && i < |order|
    requires var ring := Ring(sentinel, order);
             && Joined(ring[i], ring[i + 2])
             && forall j {:trigger ring[j]} :: 0 <= j <= |order| && j != i && j != i + 1 ==> Joined(ring[j], ring[j + 1])
    ensures Linked(sentinel, Without(order, i))
  {
    WithoutDistinct(sentinel, order, i);
    var ring, ring' := Ring(sentinel, order), Ring(sentinel, Without(order, i));
    assert |ring| == |order| + 2 && |ring'| == |order| + 1 == |Without(order, i)| + 2;
    hide DistinctNodes, Ring, Without;
    forall j {:trigger ring'[j]} | 0 <= j <= |order| - 1
      ensures ring'[j].next == ring'[j + 1] && ring'[j + 1].prev == ring'[j]
    {
      RingWithout(sentinel, order, i, j);
      RingWithout(sentinel, order, i, j + 1);
      if j < i {
        assert Joined(ring[j], ring[j + 1]);
      } else if j > i {
        assert Joined(ring[j + 1], ring[j + 2]);
      }
    }
  }

  /** `ngx_queue_remove` */
  method Remove(x: Node, ghost sentinel: Node, ghost order: seq<Node>, ghost i: nat)
    requires Linked(sentinel, order) && i < |order| && order[i] == x
    modifies sentinel`prev, sentinel`next, order`prev, order`next
    ensures Linked(sentinel, Without(order, i))
  {
    NextAt(sentinel, order, i);
    RingDistinct(sentinel, order);
    ghost var ring := Ring(sentinel, order);
    assert forall j {:trigger ring[j]} :: 0 <= j <= |order| ==> Joined(ring[j], ring[j + 1]);
    assert ring[i] in [sentinel] + order && ring[i + 2] in [sentinel] + order && |ring| == |order| + 2;
    assert x.prev == ring[i] && x.next == ring[i + 2];
    hide DistinctNodes, Ring, Without;
    x.next.prev := x.prev;
    x.prev.next := x.next;
    SplicedIsLinked(sentinel, order, i);
  }

  /** `ngx_queue_insert_head` */
  method InsertHead(sentinel: Node, x: Node, ghost order: seq<Node>)
    requires Linked(sentinel, order) && x != sentinel && x !in order
    modifies sentinel`prev, sentinel`next, order`prev, order`next, x`prev, x`next
    ensures Linked(sentinel, [x] + order)
  {
    Ends(sentinel, order);
    ghost var ring, ring' := Ring(sentinel, order), Ring(sentinel, [x] + order);
    assert forall j :: 2 <= j < |ring'| ==> ring'[j] == ring[j - 1];
    x.next := sentinel.next;
    x.next.prev := x;
    x.prev := sentinel;
    sentinel.next := x;
  }

  // ---- the queue of a set of nodes ----------------------------------------

  /** The queue links exactly these nodes around the sentinel. */
  ghost predicate Queue(sentinel: Node, order: seq<Node>, nodes: set<Node>)
    reads sentinel`prev, sentinel`next, nodes`prev, nodes`next
  {
    && sentinel !in nodes
    && (forall i :: 0 <= i < |order| ==> order[i] in nodes)
    && Covers(order, nodes)
    && Linked(sentinel, order)
  }

  /** Every node is queued. */
  ghost predicate Covers(order: seq<Node>, nodes: set<Node>) {
    forall n :: n in nodes ==> n in order
  }

  lemma WithoutCovers(order: seq<Node>, i: nat, nodes: set<Node>)
    requires Covers(order, nodes) && i < |order|
    requires DistinctNodes(order) && forall j :: 0 <= j < |order| ==> order[j] in nodes
    ensures Covers(Without(order, i), nodes - {order[i]})
    ensures forall j :: 0 <= j < |Without(order, i)| ==> Without(order, i)[j] in nodes - {order[i]}
  {
  }

  method Unlink(x: Node, ghost sentinel: Node, ghost order: seq<Node>, ghost nodes: set<Node>, ghost i: nat)
    requires Queue(sentinel, order, nodes) && i < |order| && order[i] == x
    modifies sentinel`prev, sentinel`next, nodes`prev, nodes`next
    ensures Queue(sentinel, Without(order, i), nodes - {x})
  {
    WithoutCovers(order, i, nodes);
    hide Covers, Linked, Without;
    Remove(x, sentinel, order, i);
  }

  method PushHead(sentinel: Node, x: Node, ghost order: seq<Node>, ghost nodes: set<Node>)
    requires Queue(sentinel, order, nodes) && x != sentinel && x !in nodes
    modifies sentinel`prev, sentinel`next, nodes`prev, nodes`next, x`prev, x`next
    ensures Queue(sentinel, [x] + order, nodes + {x})
  {
    assert forall j :: 0 <= j < |order| ==> order[j] == ([x] + order)[j + 1];
    assert Covers([x] + order, nodes + {x});
    assert x !in order;
    hide Covers, Linked;
    InsertHead(sentinel, x, order);
  }
}
