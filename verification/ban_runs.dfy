/** What every call of the ban engine keeps, address by address. */
module BanRuns {
  import opened Options
  import opened BanSpec

  ghost predicate Sound(z: Zone) {
    && DistinctKeys(z.queue)
    && (z.cursor.Some? ==> Has(z.queue, z.cursor.value))
  }

  // ---- the queue as a finite map ------------------------------------------

  lemma IndexIsUnique(q: seq<Rec>, i: nat)
    requires DistinctKeys(q) && i < |q|
    ensures IndexOf(q, q[i].key) == i && Get(q, q[i].key) == Some(q[i])
  {
  }

  lemma RemoveAtGet(q: seq<Rec>, i: nat, k: Key)
    requires DistinctKeys(q) && i < |q|
    ensures DistinctKeys(RemoveAt(q, i))
    ensures Get(RemoveAt(q, i), k) == if k == q[i].key then None else Get(q, k)
  {
    var r := RemoveAt(q, i);
    assert forall j :: 0 <= j < |r| ==> r[j] == q[if j < i then j else j + 1];
    if Has(q, k) && k != q[i].key {
      var j := IndexOf(q, k);
      assert r[if j < i then j else j - 1] == q[j];
    }
  }

  lemma PushGet(q: seq<Rec>, r: Rec, k: Key)
    requires DistinctKeys(q) && !Has(q, r.key)
    ensures DistinctKeys([r] + q)
    ensures Get([r] + q, k) == if k == r.key then Some(r) else Get(q, k)
  {
  }

  lemma ReheadGet(q: seq<Rec>, k: Key, j: Key)
    requires DistinctKeys(q)
    ensures DistinctKeys(Rehead(q, k))
    ensures Get(Rehead(q, k), j) == Get(q, j)
  {
    if Has(q, k) {
      var i := IndexOf(q, k);
      RemoveAtGet(q, i, j);
      RemoveAtGet(q, i, k);
      PushGet(RemoveAt(q, i), q[i], j);
    }
  }

  lemma UpdateHeadGet(q: seq<Rec>, r: Rec, k: Key)
    requires DistinctKeys(q) && q != [] && q[0].key == r.key
    ensures DistinctKeys(q[0 := r])
    ensures Get(q[0 := r], k) == if k == r.key then Some(r) else Get(q, k)
  {
  }

  // ---- eviction -----------------------------------------------------------

  /** The walk frees stale records only, and keeps every other as it was. */
  lemma {:induction false} WalkFreesStaleOnly(q: seq<Rec>, pos: int, scanned: nat, evicted: nat, wrapped: bool,
                                              now: Time, window: nat, k: Key)
    requires -1 <= pos < |q| && DistinctKeys(q)
    ensures var r := Walk(q, pos, scanned, evicted, wrapped, now, window);
            && DistinctKeys(r.queue)
            && (Get(r.queue, k) == Get(q, k)
                || (Get(r.queue, k).None? && Get(q, k).Some? && !Live(Get(q, k).value, now, window)))
    decreases SCAN - scanned, if wrapped then 0 else 1
  {
    hide Get, DistinctKeys, Live, IndexOf;
    if scanned >= SCAN || evicted >= EVICT {
    } else if pos == -1 {
      if !wrapped {
        WalkFreesStaleOnly(q, |q| - 1, scanned, evicted, true, now, window, k);
      }
    } else if Live(q[pos], now, window) {
      WalkFreesStaleOnly(q, pos - 1, scanned + 1, evicted, wrapped, now, window, k);
    } else {
      IndexIsUnique(q, pos);
      RemoveAtGet(q, pos, k);
      WalkFreesStaleOnly(RemoveAt(q, pos), pos - 1, scanned + 1, evicted + 1, wrapped, now, window, k);
    }
  }

  /** Address `a` is queued, and `b` behind it. */
  ghost predicate Before(q: seq<Rec>, a: Key, b: Key) {
    IndexOf(q, a) < IndexOf(q, b) < |q|
  }

  lemma PlaceAfterRemove(q: seq<Rec>, i: nat, k: Key)
    requires DistinctKeys(q) && i < |q| && Has(RemoveAt(q, i), k)
    ensures IndexOf(q, k) == (var j := IndexOf(RemoveAt(q, i), k); if j < i then j else j + 1)
  {
  }

  lemma BeforeRemoval(q: seq<Rec>, i: nat, a: Key, b: Key)
    requires DistinctKeys(q) && i < |q| && Before(RemoveAt(q, i), a, b)
    ensures Before(q, a, b)
  {
    hide RemoveAt, IndexOf, DistinctKeys;
    PlaceAfterRemove(q, i, a);
    PlaceAfterRemove(q, i, b);
  }

  lemma QueuedBefore(q: seq<Rec>, i: nat, j: nat)
    requires DistinctKeys(q) && i < j < |q|
    ensures Before(q, q[i].key, q[j].key)
  {
  }

  /** A call frees at most EVICT records. */
  lemma {:induction false} WalkWithinBudget(q: seq<Rec>, pos: int, scanned: nat, evicted: nat, wrapped: bool,
                                            now: Time, window: nat)
    requires -1 <= pos < |q| && evicted <= EVICT
    ensures |q| - (EVICT - evicted) <= |Walk(q, pos, scanned, evicted, wrapped, now, window).queue| <= |q|
    decreases SCAN - scanned, if wrapped then 0 else 1
  {
    WalkStep(q, pos, scanned, evicted, wrapped, now, window);
    hide Walk, Live, RemoveAt;
    if scanned >= SCAN || evicted >= EVICT || (pos == -1 && wrapped) {
    } else if pos == -1 {
      WalkWithinBudget(q, |q| - 1, scanned, evicted, true, now, window);
    } else if Live(q[pos], now, window) {
      WalkWithinBudget(q, pos - 1, scanned + 1, evicted, wrapped, now, window);
    } else {
      WalkWithinBudget(RemoveAt(q, pos), pos - 1, scanned + 1, evicted + 1, wrapped, now, window);
    }
  }

  /** The survivors keep their order. */
  lemma {:induction false} WalkKeepsOrder(q: seq<Rec>, pos: int, scanned: nat, evicted: nat, wrapped: bool,
                                          now: Time, window: nat, i: nat, j: nat)
    requires -1 <= pos < |q| && DistinctKeys(q)
    requires i < j < |Walk(q, pos, scanned, evicted, wrapped, now, window).queue|
    ensures var r := Walk(q, pos, scanned, evicted, wrapped, now, window).queue;
            Before(q, r[i].key, r[j].key)
    decreases SCAN - scanned, if wrapped then 0 else 1
  {
    hide Walk, DistinctKeys, Live, IndexOf, Get, RemoveAt, Before;
    WalkStep(q, pos, scanned, evicted, wrapped, now, window);
    var r := Walk(q, pos, scanned, evicted, wrapped, now, window).queue;
    if scanned >= SCAN || evicted >= EVICT || (pos == -1 && wrapped) {
      QueuedBefore(q, i, j);
    } else if pos == -1 {
      WalkKeepsOrder(q, |q| - 1, scanned, evicted, true, now, window, i, j);
    } else if Live(q[pos], now, window) {
      WalkKeepsOrder(q, pos - 1, scanned + 1, evicted, wrapped, now, window, i, j);
    } else {
      RemoveAtGet(q, pos, r[i].key);
      WalkKeepsOrder(RemoveAt(q, pos), pos - 1, scanned + 1, evicted + 1, wrapped, now, window, i, j);
      BeforeRemoval(q, pos, r[i].key, r[j].key);
    }
  }

  lemma ExpireFreesStaleOnly(z: Zone, now: Time, window: nat, k: Key)
    requires Sound(z)
    ensures var e := Expire(z, now, window);
            && Sound(e) && e.bans == z.bans
            && |z.queue| - EVICT <= |e.queue| <= |z.queue|
            && (Get(e.queue, k) == Get(z.queue, k)
                || (Get(e.queue, k).None? && Get(z.queue, k).Some? && !Live(Get(z.queue, k).value, now, window)))
  {
    var w := Walk(z.queue, StartPos(z), 0, 0, z.cursor.None?, now, window);
    WalkFreesStaleOnly(z.queue, StartPos(z), 0, 0, z.cursor.None?, now, window, k);
    WalkWithinBudget(z.queue, StartPos(z), 0, 0, z.cursor.None?, now, window);
    if w.pos != -1 {
      IndexIsUnique(w.queue, w.pos);
    }
  }

  // ---- every call ---------------------------------------------------------

  /** The record an address will be counted on: its own, or a fresh one. */
  function Counted(q: seq<Rec>, k: Key, now: Time): Rec {
    if Has(q, k) then q[IndexOf(q, k)] else Fresh(k, now)
  }

  lemma LookupOnKey(z: Zone, k: Key, j: Key)
    requires Sound(z)
    ensures Sound(Lookup(z, k)) && Get(Lookup(z, k).queue, j) == Get(z.queue, j)
  {
    ReheadGet(z.queue, k, j);
    if z.cursor.Some? {
      ReheadGet(z.queue, k, z.cursor.value);
    }
    hide Rehead, IndexOf, DistinctKeys;
  }

  /** The record a hit is counted on is at the head; nothing live is lost for it. */
  lemma PrepareOnKey(z: Zone, k: Key, now: Time, window: nat, memory: bool, j: Key)
    requires Sound(z)
    ensures var at := Prepare(z, k, now, window, memory);
            var to := if at.Some? then at.value else Expire(z, now, window);
            var before, after := Get(z.queue, j), Get(to.queue, j);
            && (at.None? <==> !Has(z.queue, k) && !memory)
            && Sound(to) && to.bans == z.bans
            && (at.Some? ==> to.queue[0] == Counted(z.queue, k, now))
            && (if at.Some? && j == k then after == Some(Counted(z.queue, k, now))
                else after == before || (after.None? && before.Some? && !Live(before.value, now, window)))
  {
    if Has(z.queue, k) {
      LookupOnKey(z, k, j);
    } else {
      ExpireFreesStaleOnly(z, now, window, j);
      ExpireFreesStaleOnly(z, now, window, k);
      var e := Expire(z, now, window);
      PushGet(e.queue, Fresh(k, now), j);
      if e.cursor.Some? {
        PushGet(e.queue, Fresh(k, now), e.cursor.value);
      }
    }
    hide Expire, Live, IndexOf, DistinctKeys;
  }

  lemma HeadTouched(z: Zone, now: Time, p: Policy, j: Key)
    requires Sound(z) && z.queue != []
    ensures var q, r := z.queue, Touch(z.queue[0], now, p);
            && Sound(z.(queue := q[0 := r])) && Sound(z.(queue := q[0 := r], bans := z.bans + 1))
            && Get(q[0 := r], j) == if j == q[0].key then Some(r) else Get(q, j)
  {
    var q, r := z.queue, Touch(z.queue[0], now, p);
    UpdateHeadGet(q, r, j);
    if z.cursor.Some? {
      UpdateHeadGet(q, r, z.cursor.value);
    }
  }

  /** One call, seen by address `j`: a hit on `j` touches its record; nothing else
      changes it, except that a stale record may be freed. */
  lemma ApplyOnKey(z: Zone, op: Op, p: Policy, j: Key)
    requires Sound(z)
    ensures var s := Apply(z, op, p);
            var before, after := Get(z.queue, j), Get(s.zone.queue, j);
            && Sound(s.zone)
            && (op.Hit? ==> s.answer == Recorded(Has(z.queue, op.key) || op.memory))
            && (op.Hit? && op.key == j ==>
                  if s.answer.ok then after == Some(Touch(Counted(z.queue, j, op.now), op.now, p))
                  else after == before == None)
            && (op.Check? || op.key != j ==>
                  after == before
                  || (after.None? && before.Some? && op.Hit? && !Live(before.value, op.now, p.window)))
            && s.zone.bans
               == z.bans + if op.Hit? && s.answer.ok && Arms(Counted(z.queue, op.key, op.now), op.now, p) then 1 else 0
  {
    hide Prepare, Expire, Sound, DistinctKeys, IndexOf, Live, Arms, Touch, Counted;
    match op
    case Check(k, now) =>
      LookupOnKey(z, k, j);
    case Hit(k, now, memory) =>
      PrepareOnKey(z, k, now, p.window, memory, j);
      PrepareOnKey(z, k, now, p.window, memory, k);
      var at := Prepare(z, k, now, p.window, memory);
      if at.Some? {
        HeadTouched(at.value, now, p, j);
      }
  }

  lemma {:induction false} RunJoined(z: Zone, a: seq<Op>, b: seq<Op>, p: Policy)
    ensures Run(z, a + b, p) == Run(Run(z, a, p), b, p)
  {
    hide Apply;
    if b == [] {
      assert a + b == a;
    } else {
      RunJoined(z, a, b[..|b| - 1], p);
      assert (a + b)[..|a + b| - 1] == a + b[..|b| - 1];
    }
  }

  lemma {:induction false} RunIsSound(z: Zone, ops: seq<Op>, p: Policy)
    requires Sound(z)
    ensures Sound(Run(z, ops, p))
  {
    hide Sound, Apply;
    if ops != [] {
      RunIsSound(z, ops[..|ops| - 1], p);
      var op := ops[|ops| - 1];
      ApplyOnKey(Run(z, ops[..|ops| - 1], p), op, p, op.key);
    }
  }
}
