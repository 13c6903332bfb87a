/** How fast the resumable cursor reclaims while only stale records are looked up. */
module BanProgress {
  import opened BanSpec
  import opened BanRuns

  /** Live records among the first `n` of the queue. */
  function LiveAmong(q: seq<Rec>, n: nat, now: Time, window: nat): nat
    requires n <= |q|
  {
    if n == 0 then 0 else LiveAmong(q, n - 1, now, window) + if Live(q[n - 1], now, window) then 1 else 0
  }

  function LiveCount(q: seq<Rec>, now: Time, window: nat): nat {
    LiveAmong(q, |q|, now, window)
  }

  ghost predicate IsStale(q: seq<Rec>, s: Key, now: Time, window: nat) {
    Has(q, s) && !Live(q[IndexOf(q, s)], now, window)
  }

  /** Live records a walk from `pos` visits before it must meet the stale record `s`. */
  function Ahead(q: seq<Rec>, pos: int, s: Key, now: Time, window: nat): nat
    requires -1 <= pos < |q|
  {
    LiveAmong(q, pos + 1, now, window) + if IndexOf(q, s) <= pos then 0 else LiveCount(q, now, window)
  }

  /** The same for a parked zone: nothing if the cursor rests on a stale record. */
  function Distance(z: Zone, s: Key, now: Time, window: nat): nat {
    if z.cursor.None? then LiveCount(z.queue, now, window)
    else
      var pos := StartPos(z);
      if pos == -1 || !Live(z.queue[pos], now, window) then 0 else Ahead(z.queue, pos, s, now, window)
  }

  lemma {:induction false} LiveAmongMonotonic(q: seq<Rec>, m: nat, n: nat, now: Time, window: nat)
    requires m <= n <= |q|
    ensures LiveAmong(q, m, now, window) <= LiveAmong(q, n, now, window)
  {
    if m < n {
      LiveAmongMonotonic(q, m, n - 1, now, window);
    }
  }

  lemma DistanceBound(z: Zone, s: Key, now: Time, window: nat)
    ensures Distance(z, s, now, window) <= 2 * LiveCount(z.queue, now, window)
  {
    LiveAmongMonotonic(z.queue, StartPos(z) + 1, |z.queue|, now, window);
  }

  // ---- one call -----------------------------------------------------------

  /** Passing a live record brings the walk one live record nearer; wrapping costs nothing. */
  lemma AheadStep(q: seq<Rec>, pos: int, s: Key, now: Time, window: nat)
    requires -1 <= pos < |q| && IsStale(q, s, now, window)
    ensures pos >= 0 && Live(q[pos], now, window) ==>
              Ahead(q, pos - 1, s, now, window) + 1 == Ahead(q, pos, s, now, window)
              && (IndexOf(q, s) <= pos ==> IndexOf(q, s) <= pos - 1)
    ensures pos == -1 ==> Ahead(q, |q| - 1, s, now, window) == Ahead(q, pos, s, now, window) && IndexOf(q, s) <= |q| - 1
  {
    hide Live, IndexOf;
  }

  lemma StaleAtCursorIsFreed(q: seq<Rec>, pos: int, scanned: nat, wrapped: bool, now: Time, window: nat)
    requires 0 <= pos < |q| && !Live(q[pos], now, window) && scanned < SCAN
    ensures |Walk(q, pos, scanned, 0, wrapped, now, window).queue| < |q|
  {
    WalkWithinBudget(RemoveAt(q, pos), pos - 1, scanned + 1, 1, wrapped, now, window);
  }

  /** A walk that frees nothing spends its whole scan budget on live records. */
  lemma {:induction false} FruitlessWalk(q: seq<Rec>, pos: int, scanned: nat, wrapped: bool, s: Key, now: Time, window: nat)
    requires -1 <= pos < |q| && scanned <= SCAN
    requires IsStale(q, s, now, window) && (wrapped ==> IndexOf(q, s) <= pos)
    requires |Walk(q, pos, scanned, 0, wrapped, now, window).queue| == |q|
    ensures var r := Walk(q, pos, scanned, 0, wrapped, now, window);
            && r.queue == q
            && Ahead(q, r.pos, s, now, window) + (SCAN - scanned) == Ahead(q, pos, s, now, window)
    decreases SCAN - scanned, if wrapped then 0 else 1
  {
    hide Walk, IndexOf, Live, Ahead, RemoveAt, IsStale;
    AheadStep(q, pos, s, now, window);
    WalkStep(q, pos, scanned, 0, wrapped, now, window);
    if scanned >= SCAN {
    } else if pos == -1 {
      FruitlessWalk(q, |q| - 1, scanned, true, s, now, window);
    } else if Live(q[pos], now, window) {
      FruitlessWalk(q, pos - 1, scanned + 1, wrapped, s, now, window);
    } else {
      StaleAtCursorIsFreed(q, pos, scanned, wrapped, now, window);
    }
  }

  /** A call that frees nothing brings the cursor SCAN live records nearer. */
  lemma FruitlessCallAdvances(z: Zone, s: Key, now: Time, window: nat)
    requires Sound(z) && IsStale(z.queue, s, now, window)
    requires |Expire(z, now, window).queue| == |z.queue|
    ensures Expire(z, now, window).queue == z.queue
    ensures Distance(Expire(z, now, window), s, now, window) + SCAN <= Distance(z, s, now, window)
  {
    var pos := StartPos(z);
    if !Live(z.queue[pos], now, window) {
      StaleAtCursorIsFreed(z.queue, pos, 0, z.cursor.None?, now, window);
    }
    FruitlessWalk(z.queue, pos, 0, z.cursor.None?, s, now, window);
    var r := Walk(z.queue, pos, 0, 0, z.cursor.None?, now, window);
    if r.pos != -1 {
      IndexIsUnique(z.queue, r.pos);
    }
  }

  // ---- between calls ------------------------------------------------------

  /** Moving a stale record to the head changes no count of live records, except that
      positions before it shift by one. */
  lemma {:induction false} LiveAmongReheaded(q: seq<Rec>, i: nat, n: nat, now: Time, window: nat)
    requires i < |q| && n <= |q| && !Live(q[i], now, window)
    ensures var q' := [q[i]] + RemoveAt(q, i);
            && |q'| == |q|
            && (n <= i ==> LiveAmong(q', n + 1, now, window) == LiveAmong(q, n, now, window))
            && (n > i ==> LiveAmong(q', n, now, window) == LiveAmong(q, n, now, window))
  {
    var q' := [q[i]] + RemoveAt(q, i);
    assert q'[0] == q[i];
    assert forall j :: 0 < j <= i ==> q'[j] == q[j - 1];
    assert forall j :: i < j < |q| ==> q'[j] == q[j];
    if n > 0 {
      LiveAmongReheaded(q, i, n - 1, now, window);
    }
  }

  lemma ReheadPlaces(q: seq<Rec>, i: nat, k: Key)
    requires DistinctKeys(q) && i < |q| && Has(q, k)
    ensures var q' := [q[i]] + RemoveAt(q, i);
            var j := IndexOf(q, k);
            IndexOf(q', k) == if j == i then 0 else if j < i then j + 1 else j
  {
    var q' := [q[i]] + RemoveAt(q, i);
    var j := IndexOf(q, k);
    var j' := if j == i then 0 else if j < i then j + 1 else j;
    ReheadGet(q, q[i].key, k);
    IndexIsUnique(q, i);
    assert q'[j'] == q[j];
    IndexIsUnique(q', j');
  }

  /** Touching a record leaves every record what it was. */
  lemma TouchKeeps(q: seq<Rec>, i: nat, k: Key)
    requires DistinctKeys(q) && i < |q| && Has(q, k)
    ensures var q' := [q[i]] + RemoveAt(q, i);
            DistinctKeys(q') && Has(q', k) && q'[IndexOf(q', k)] == q[IndexOf(q, k)]
  {
    IndexIsUnique(q, i);
    ReheadGet(q, q[i].key, k);
    assert Rehead(q, q[i].key) == [q[i]] + RemoveAt(q, i);
    hide IndexOf, RemoveAt, DistinctKeys;
  }

  /** The live record `c` is no further from `s` when the stale record at `i` is moved to
      the head. */
  lemma AheadAfterTouch(q: seq<Rec>, i: nat, c: Key, s: Key, now: Time, window: nat)
    requires DistinctKeys(q) && i < |q| && !Live(q[i], now, window)
    requires Has(q, c) && Has(q, s) && Live(q[IndexOf(q, c)], now, window)
    ensures var q' := [q[i]] + RemoveAt(q, i);
            Has(q', c) && Ahead(q', IndexOf(q', c), s, now, window) <= Ahead(q, IndexOf(q, c), s, now, window)
  {
    hide DistinctKeys, Live, LiveAmong, IndexOf, RemoveAt, Ahead;
    var q', pos := [q[i]] + RemoveAt(q, i), IndexOf(q, c);
    ReheadPlaces(q, i, c);
    ReheadPlaces(q, i, s);
    TouchKeeps(q, i, c);
    LiveAmongReheaded(q, i, |q|, now, window);
    LiveAmongReheaded(q, i, pos + 1, now, window);
    NoFurther(q, pos, q', IndexOf(q', c), s, now, window);
  }

  lemma NoFurther(q: seq<Rec>, pos: int, q': seq<Rec>, pos': int, s: Key, now: Time, window: nat)
    requires -1 <= pos < |q| && -1 <= pos' < |q'|
    requires LiveAmong(q', pos' + 1, now, window) == LiveAmong(q, pos + 1, now, window)
    requires LiveCount(q', now, window) == LiveCount(q, now, window)
    requires IndexOf(q, s) <= pos ==> IndexOf(q', s) <= pos'
    ensures Ahead(q', pos', s, now, window) <= Ahead(q, pos, s, now, window)
  {
  }

  /** Touching a stale record takes the cursor no further from `s`. */
  lemma StaleTouchIsHarmless(z: Zone, k: Key, s: Key, now: Time, window: nat)
    requires Sound(z) && IsStale(z.queue, s, now, window)
    requires Has(z.queue, k) ==> !Live(z.queue[IndexOf(z.queue, k)], now, window)
    ensures var z' := Lookup(z, k);
            && Sound(z') && IsStale(z'.queue, s, now, window) && |z'.queue| == |z.queue|
            && Distance(z', s, now, window) <= Distance(z, s, now, window)
  {
    if Has(z.queue, k) {
      var q, i := z.queue, IndexOf(z.queue, k);
      ReheadGet(q, k, s);
      LiveAmongReheaded(q, i, |q|, now, window);
      if z.cursor.Some? {
        var c := z.cursor.value;
        ReheadGet(q, k, c);
        if Live(q[IndexOf(q, c)], now, window) {
          TouchKeeps(q, i, c);
          TouchKeeps(q, i, s);
          AheadAfterTouch(q, i, c, s, now, window);
        }
      }
    }
  }

  /** No counting window starts in the future. */
  ghost predicate Started(q: seq<Rec>, now: Time) {
    forall i :: 0 <= i < |q| ==> q[i].windowStart <= now
  }

  lemma {:induction false} LiveAmongLater(q: seq<Rec>, n: nat, now: Time, later: Time, window: nat)
    requires n <= |q| && now <= later && forall i :: 0 <= i < |q| ==> q[i].windowStart <= now
    ensures LiveAmong(q, n, later, window) <= LiveAmong(q, n, now, window)
  {
    if n > 0 {
      LiveAmongLater(q, n - 1, now, later, window);
    }
  }

  /** The clock going forward only makes records stale. */
  lemma TimeIsHarmless(z: Zone, s: Key, now: Time, later: Time, window: nat)
    requires now <= later && Started(z.queue, now)
    requires IsStale(z.queue, s, now, window)
    ensures IsStale(z.queue, s, later, window)
    ensures Distance(z, s, later, window) <= Distance(z, s, now, window)
  {
    LiveAmongLater(z.queue, |z.queue|, now, later, window);
    if z.cursor.Some? {
      LiveAmongLater(z.queue, StartPos(z) + 1, now, later, window);
    }
  }

  // ---- many calls ---------------------------------------------------------

  /** Some addresses are looked up, then an eviction call is made. */
  datatype Round = Round(touched: seq<Key>, now: Time)

  function TouchAll(z: Zone, keys: seq<Key>): Zone {
    if keys == [] then z else Lookup(TouchAll(z, keys[..|keys| - 1]), keys[|keys| - 1])
  }

  function Rounds(z: Zone, rs: seq<Round>, window: nat): Zone
    decreases rs
  {
    if rs == [] then z else Rounds(Expire(TouchAll(z, rs[0].touched), rs[0].now, window), rs[1..], window)
  }

  /** The clock does not go back, and between eviction calls no live record is touched. */
  ghost predicate TouchesStaleOnly(q: seq<Rec>, rs: seq<Round>, window: nat) {
    && (forall i, j :: 0 <= i < j < |rs| ==> rs[i].now <= rs[j].now)
    && (forall i, k :: 0 <= i < |rs| && k in rs[i].touched && Get(q, k).Some? ==> !Live(Get(q, k).value, rs[i].now, window))
  }

  lemma {:induction false} TouchAllIsHarmless(z: Zone, keys: seq<Key>, s: Key, now: Time, window: nat)
    requires Sound(z) && IsStale(z.queue, s, now, window) && Started(z.queue, now)
    requires forall k :: k in keys && Get(z.queue, k).Some? ==> !Live(Get(z.queue, k).value, now, window)
    ensures var z' := TouchAll(z, keys);
            && Sound(z') && IsStale(z'.queue, s, now, window) && Started(z'.queue, now)
            && |z'.queue| == |z.queue| && (forall k :: Get(z'.queue, k) == Get(z.queue, k))
            && Distance(z', s, now, window) <= Distance(z, s, now, window)
  {
    if keys != [] {
      var front, k := keys[..|keys| - 1], keys[|keys| - 1];
      TouchAllIsHarmless(z, front, s, now, window);
      var y := TouchAll(z, front);
      assert Get(y.queue, k) == Get(z.queue, k);
      StaleTouchIsHarmless(y, k, s, now, window);
      TouchKeepsRecords(y.queue, k, now);
      hide Distance, IsStale, Live, Get, Sound, Started, Rehead;
    }
  }

  lemma TouchKeepsRecords(q: seq<Rec>, k: Key, now: Time)
    requires DistinctKeys(q)
    ensures forall j :: Get(Rehead(q, k), j) == Get(q, j)
    ensures Started(q, now) ==> Started(Rehead(q, k), now)
  {
    forall j
      ensures Get(Rehead(q, k), j) == Get(q, j)
    {
      ReheadGet(q, k, j);
    }
    assert forall i :: 0 <= i < |Rehead(q, k)| ==> Rehead(q, k)[i] in q;
  }

  lemma {:induction false} RoundsNeverGrow(z: Zone, rs: seq<Round>, window: nat)
    requires Sound(z)
    ensures |Rounds(z, rs, window).queue| <= |z.queue|
    decreases rs
  {
    if rs != [] {
      var y := TouchAll(z, rs[0].touched);
      TouchAllIsSound(z, rs[0].touched);
      ExpireFreesStaleOnly(y, rs[0].now, window, Key(0, []));
      RoundsNeverGrow(Expire(y, rs[0].now, window), rs[1..], window);
    }
  }

  lemma {:induction false} TouchAllIsSound(z: Zone, keys: seq<Key>)
    requires Sound(z)
    ensures Sound(TouchAll(z, keys)) && |TouchAll(z, keys).queue| == |z.queue|
  {
    if keys != [] {
      var k := keys[|keys| - 1];
      TouchAllIsSound(z, keys[..|keys| - 1]);
      var y := TouchAll(z, keys[..|keys| - 1]);
      ReheadGet(y.queue, k, if y.cursor.Some? then y.cursor.value else k);
    }
  }

  lemma StartedLater(q: seq<Rec>, now: Time, later: Time)
    requires Started(q, now) && now <= later
    ensures Started(q, later)
  {
  }

  lemma {:induction false} ReclaimWithinDistance(z: Zone, s: Key, rs: seq<Round>, window: nat)
    requires Sound(z) && rs != [] && IsStale(z.queue, s, rs[0].now, window) && Started(z.queue, rs[0].now)
    requires TouchesStaleOnly(z.queue, rs, window)
    requires Distance(z, s, rs[0].now, window) < SCAN * |rs|
    ensures |Rounds(z, rs, window).queue| < |z.queue|
    decreases rs
  {
    var now := rs[0].now;
    var y := TouchAll(z, rs[0].touched);
    TouchAllIsHarmless(z, rs[0].touched, s, now, window);
    var x := Expire(y, now, window);
    ExpireFreesStaleOnly(y, now, window, s);
    if |x.queue| < |y.queue| {
      RoundsNeverGrow(x, rs[1..], window);
    } else {
      FruitlessCallAdvances(y, s, now, window);
      hide Distance, IsStale, Sound, Get, Live, Started, Expire, TouchAll;
      if |rs| > 1 {
        TimeIsHarmless(x, s, now, rs[1].now, window);
        StartedLater(x.queue, now, rs[1].now);
        assert rs[1..][0] == rs[1];
        assert forall i :: 0 <= i < |rs[1..]| ==> rs[1..][i] == rs[i + 1];
        ReclaimWithinDistance(x, s, rs[1..], window);
      }
    }
  }

  /** With L live records and one stale one, some record is freed within 2L/32 + 1 calls,
      wherever the cursor starts, if only stale records are touched in between. */
  lemma StaleRecordIsReclaimed(z: Zone, s: Key, rs: seq<Round>, window: nat)
    requires Sound(z) && rs != [] && IsStale(z.queue, s, rs[0].now, window) && Started(z.queue, rs[0].now)
    requires TouchesStaleOnly(z.queue, rs, window)
    requires |rs| >= 2 * LiveCount(z.queue, rs[0].now, window) / SCAN + 1
    ensures |Rounds(z, rs, window).queue| < |z.queue|
  {
    DistanceBound(z, s, rs[0].now, window);
    ReclaimWithinDistance(z, s, rs, window);
  }

  /** What is freed was stale, whatever is touched in between. */
  lemma {:induction false} RoundsFreeStaleOnly(z: Zone, rs: seq<Round>, window: nat, k: Key)
    requires Sound(z)
    ensures var after := Get(Rounds(z, rs, window).queue, k);
            after == Get(z.queue, k)
            || (after.None? && Get(z.queue, k).Some?
                && exists i :: 0 <= i < |rs| && !Live(Get(z.queue, k).value, rs[i].now, window))
    decreases rs
  {
    if rs != [] {
      hide Get, Live, Sound;
      var y := TouchAll(z, rs[0].touched);
      TouchAllIsSound(z, rs[0].touched);
      TouchAllKeepsRecord(z, rs[0].touched, k);
      ExpireFreesStaleOnly(y, rs[0].now, window, k);
      RoundsFreeStaleOnly(Expire(y, rs[0].now, window), rs[1..], window, k);
      if Get(Expire(y, rs[0].now, window).queue, k) == Get(z.queue, k) {
        if i :| 0 <= i < |rs[1..]| && Get(z.queue, k).Some? && !Live(Get(z.queue, k).value, rs[1..][i].now, window) {
          assert rs[1..][i] == rs[i + 1];
        }
      }
    }
  }

  lemma {:induction false} TouchAllKeepsRecord(z: Zone, keys: seq<Key>, k: Key)
    requires Sound(z)
    ensures Get(TouchAll(z, keys).queue, k) == Get(z.queue, k)
  {
    if keys != [] {
      TouchAllIsSound(z, keys[..|keys| - 1]);
      TouchAllKeepsRecord(z, keys[..|keys| - 1], k);
      ReheadGet(TouchAll(z, keys[..|keys| - 1]).queue, keys[|keys| - 1], k);
    }
  }
}
