/** The order of the search tree: hash, then length, then unsigned address bytes. */
module BanOrder {
  import opened Words
  import opened BanSpec

  /** `memcmp` of two strings of one length. */
  function MemCmp(a: seq<Byte>, b: seq<Byte>): int
    requires |a| == |b|
  {
    if a == [] then 0 else if a[0] != b[0] then a[0] - b[0] else MemCmp(a[1..], b[1..])
  }

  /** How the lookup compares an address with a node of the same hash. */
  function Rc(k: Key, n: Key): int {
    if |k.addr| != |n.addr| then |k.addr| - |n.addr| else MemCmp(k.addr, n.addr)
  }

  /** Which way the insert helper turns at a node. */
  predicate TurnsLeft(k: Key, n: Key) {
    if k.hash < n.hash then true
    else if k.hash > n.hash then false
    else |k.addr| < |n.addr| || (|k.addr| == |n.addr| && MemCmp(k.addr, n.addr) < 0)
  }

  predicate Less(a: Key, b: Key) {
    a.hash < b.hash || (a.hash == b.hash && Rc(a, b) < 0)
  }

  lemma {:induction false} MemCmpZero(a: seq<Byte>, b: seq<Byte>)
    requires |a| == |b|
    ensures MemCmp(a, b) == 0 <==> a == b
  {
    if a != [] && a[0] == b[0] {
      MemCmpZero(a[1..], b[1..]);
      assert a == [a[0]] + a[1..] && b == [b[0]] + b[1..];
    }
  }

  lemma {:induction false} MemCmpFlips(a: seq<Byte>, b: seq<Byte>)
    requires |a| == |b|
    ensures MemCmp(b, a) == -MemCmp(a, b)
  {
    if a != [] && a[0] == b[0] {
      MemCmpFlips(a[1..], b[1..]);
    }
  }

  lemma {:induction false} MemCmpTransitive(a: seq<Byte>, b: seq<Byte>, c: seq<Byte>)
    requires |a| == |b| == |c| && MemCmp(a, b) < 0 && MemCmp(b, c) < 0
    ensures MemCmp(a, c) < 0
  {
    if a != [] && a[0] == b[0] == c[0] {
      MemCmpTransitive(a[1..], b[1..], c[1..]);
    }
  }

  /** Lookup and insertion follow one and the same order, and it is a strict total one,
      whatever hashes collide. */
  lemma OneTotalOrder(a: Key, b: Key, c: Key)
    ensures TurnsLeft(a, b) <==> Less(a, b)
    ensures !Less(a, a)
    ensures a == b || Less(a, b) || Less(b, a)
    ensures !(Less(a, b) && Less(b, a))
    ensures Less(a, b) && Less(b, c) ==> Less(a, c)
    ensures a.hash == b.hash ==> (Rc(a, b) == 0 <==> a == b)
  {
    MemCmpZero(a.addr, a.addr);
    if |a.addr| == |b.addr| {
      MemCmpZero(a.addr, b.addr);
      MemCmpFlips(a.addr, b.addr);
      if |b.addr| == |c.addr| && Less(a, b) && Less(b, c) && a.hash == b.hash == c.hash {
        MemCmpTransitive(a.addr, b.addr, c.addr);
      }
    }
  }

  /** The laws alone, for use where the comparison itself does not matter. */
  lemma Strict(a: Key, b: Key)
    ensures !(Less(a, b) && Less(b, a)) && !Less(a, a)
    ensures a == b || Less(a, b) || Less(b, a)
  {
    OneTotalOrder(a, b, a);
  }

  lemma Transitive(a: Key, b: Key, c: Key)
    requires Less(a, b) && Less(b, c)
    ensures Less(a, c)
  {
    OneTotalOrder(a, b, c);
  }

  lemma TurnIsLess(k: Key, n: Key)
    ensures TurnsLeft(k, n) <==> Less(k, n)
  {
  }
}
