/** Whether lookups can starve the eviction: exactly when more records are live than one
    call scans. */
module BanStarvation {
  import opened Options
  import opened BanSpec
  import opened BanRuns
  import opened BanProgress

  /** The cursor rests on a stale record. */
  predicate OnStale(z: Zone, now: Time, window: nat) {
    && z.cursor.Some? && Has(z.queue, z.cursor.value)
    && !Live(z.queue[IndexOf(z.queue, z.cursor.value)], now, window)
  }

  /** The clock is at `from` or later, and does not go back. */
  ghost predicate Clocked(rs: seq<Round>, from: Time) {
    && (forall i :: 0 <= i < |rs| ==> from <= rs[i].now)
    && (forall i, j :: 0 <= i < j < |rs| ==> rs[i].now <= rs[j].now)
  }

  // ---- live records under lookups -----------------------------------------

  function One(r: Rec, now: Time, window: nat): nat {
    if Live(r, now, window) then 1 else 0
  }

  lemma {:induction false} LiveAmongAppended(q: seq<Rec>, more: seq<Rec>, n: nat, now: Time, window: nat)
    requires n <= |q|
    ensures LiveAmong(q + more, n, now, window) == LiveAmong(q, n, now, window)
  {
    if n > 0 {
      LiveAmongAppended(q, more, n - 1, now, window);
    }
  }

  lemma {:induction false} LiveCountJoined(a: seq<Rec>, b: seq<Rec>, now: Time, window: nat)
    ensures LiveCount(a + b, now, window) == LiveCount(a, now, window) + LiveCount(b, now, window)
  {
    if b == [] {
      assert a + b == a;
    } else {
      var front, last := b[..|b| - 1], b[|b| - 1];
      LiveCountJoined(a, front, now, window);
      assert a + b == (a + front) + [last] && b == front + [last];
      LiveAmongAppended(a + front, [last], |a + front|, now, window);
      LiveAmongAppended(front, [last], |front|, now, window);
    }
  }

  lemma LiveCountRemoved(q: seq<Rec>, i: nat, now: Time, window: nat)
    requires i < |q|
    ensures LiveCount(RemoveAt(q, i), now, window) + One(q[i], now, window) == LiveCount(q, now, window)
    ensures LiveCount([q[i]] + RemoveAt(q, i), now, window) == LiveCount(q, now, window)
  {
    assert q == q[..i] + ([q[i]] + q[i + 1..]);
    LiveCountJoined(q[..i], q[i + 1..], now, window);
    LiveCountJoined(q[..i], [q[i]] + q[i + 1..], now, window);
    LiveCountJoined([q[i]], q[i + 1..], now, window);
    LiveCountJoined([q[i]], RemoveAt(q, i), now, window);
    assert LiveAmong([q[i]], 0, now, window) == 0;
    assert LiveCount([q[i]], now, window) == One(q[i], now, window);
  }

  /** Lookups change the order alone. */
  lemma {:induction false} TouchAllOnlyReorders(z: Zone, keys: seq<Key>, now: Time, window: nat)
    requires Sound(z)
    ensures var y := TouchAll(z, keys);
            && Sound(y) && |y.queue| == |z.queue| && y.cursor == z.cursor && y.bans == z.bans
            && (forall k :: Get(y.queue, k) == Get(z.queue, k))
            && (Started(z.queue, now) ==> Started(y.queue, now))
            && LiveCount(y.queue, now, window) == LiveCount(z.queue, now, window)
  {
    TouchAllIsSound(z, keys);
    if keys != [] {
      var front, k := keys[..|keys| - 1], keys[|keys| - 1];
      TouchAllOnlyReorders(z, front, now, window);
      var y := TouchAll(z, front);
      TouchKeepsRecords(y.queue, k, now);
      if Has(y.queue, k) {
        LiveCountRemoved(y.queue, IndexOf(y.queue, k), now, window);
      }
      hide LiveCount, Started, Get, Live;
    }
  }

  lemma SameStale(q: seq<Rec>, q': seq<Rec>, k: Key, now: Time, window: nat)
    requires Get(q', k) == Get(q, k)
    ensures Has(q', k) <==> Has(q, k)
    ensures IsStale(q', k, now, window) <==> IsStale(q, k, now, window)
  {
  }

  // ---- few live records ---------------------------------------------------

  /** Live records that a walk from `pos` judges before it judges the stale record `s`. */
  function Between(q: seq<Rec>, pos: int, s: Key, now: Time, window: nat): int
    requires -1 <= pos < |q|
  {
    LiveAmong(q, pos + 1, now, window) - LiveAmong(q, IndexOf(q, s), now, window)
    + if IndexOf(q, s) <= pos then 0 else LiveCount(q, now, window)
  }

  lemma BetweenBounds(q: seq<Rec>, pos: int, s: Key, now: Time, window: nat)
    requires -1 <= pos < |q| && IsStale(q, s, now, window)
    ensures 0 <= Between(q, pos, s, now, window) <= LiveCount(q, now, window)
    ensures pos >= 0 && Live(q[pos], now, window) ==> Between(q, pos, s, now, window) > 0
  {
    var i := IndexOf(q, s);
    if i <= pos {
      LiveAmongMonotonic(q, i, pos, now, window);
      LiveAmongMonotonic(q, pos + 1, |q|, now, window);
    } else {
      LiveAmongMonotonic(q, pos + 1, i, now, window);
    }
    LiveAmongMonotonic(q, i, |q|, now, window);
    hide IndexOf, Live;
  }

  lemma BetweenStep(q: seq<Rec>, pos: int, s: Key, now: Time, window: nat)
    requires -1 <= pos < |q| && IsStale(q, s, now, window)
    ensures pos >= 0 && Live(q[pos], now, window) ==>
              Between(q, pos - 1, s, now, window) + 1 == Between(q, pos, s, now, window)
              && (IndexOf(q, s) <= pos ==> IndexOf(q, s) <= pos - 1)
    ensures pos == -1 ==>
              Between(q, |q| - 1, s, now, window) == Between(q, pos, s, now, window) && IndexOf(q, s) <= |q| - 1
  {
    hide Live, IndexOf;
  }

  /** A walk that frees nothing judges live records only, as many as its budget. */
  lemma {:induction false} FruitlessWalkIsExact(q: seq<Rec>, pos: int, scanned: nat, wrapped: bool, s: Key,
                                                now: Time, window: nat)
    requires -1 <= pos < |q| && scanned <= SCAN
    requires IsStale(q, s, now, window) && (wrapped ==> IndexOf(q, s) <= pos)
    requires |Walk(q, pos, scanned, 0, wrapped, now, window).queue| == |q|
    ensures var r := Walk(q, pos, scanned, 0, wrapped, now, window);
            && r.queue == q && (wrapped ==> IndexOf(q, s) <= r.pos)
            && Between(q, r.pos, s, now, window) + (SCAN - scanned) == Between(q, pos, s, now, window)
    decreases SCAN - scanned, if wrapped then 0 else 1
  {
    hide Walk, IndexOf, Live, Between, RemoveAt, IsStale;
    BetweenStep(q, pos, s, now, window);
    WalkStep(q, pos, scanned, 0, wrapped, now, window);
    if scanned >= SCAN {
    } else if pos == -1 {
      FruitlessWalkIsExact(q, |q| - 1, scanned, true, s, now, window);
    } else if Live(q[pos], now, window) {
      FruitlessWalkIsExact(q, pos - 1, scanned + 1, wrapped, s, now, window);
    } else {
      StaleAtCursorIsFreed(q, pos, scanned, wrapped, now, window);
    }
  }

  /** How far from a freeing call the cursor can be: none on a stale record, one at the
      sentinel, two on a live record. */
  function Phase(z: Zone, now: Time, window: nat): nat {
    if OnStale(z, now, window) then 0 else if z.cursor.None? then 1 else 2
  }

  /** With no more live records than one call scans, a call that frees nothing has judged
      them all, and leaves the cursor nearer. */
  lemma FruitlessCallLowersPhase(z: Zone, s: Key, now: Time, window: nat)
    requires Sound(z) && IsStale(z.queue, s, now, window)
    requires LiveCount(z.queue, now, window) <= SCAN
    requires |Expire(z, now, window).queue| == |z.queue|
    ensures Expire(z, now, window).queue == z.queue
    ensures Phase(Expire(z, now, window), now, window) < Phase(z, now, window)
  {
    var q, pos := z.queue, StartPos(z);
    if !Live(q[pos], now, window) {
      StaleAtCursorIsFreed(q, pos, 0, z.cursor.None?, now, window);
    }
    FruitlessWalkIsExact(q, pos, 0, z.cursor.None?, s, now, window);
    var r := Walk(q, pos, 0, 0, z.cursor.None?, now, window);
    BetweenBounds(q, pos, s, now, window);
    BetweenBounds(q, r.pos, s, now, window);
    if r.pos != -1 {
      IndexIsUnique(q, r.pos);
    }
    hide Walk, Live, Between, LiveCount;
  }

  lemma PhaseKept(z: Zone, z': Zone, now: Time, window: nat)
    requires z'.cursor == z.cursor && forall k :: Get(z'.queue, k) == Get(z.queue, k)
    ensures Phase(z', now, window) == Phase(z, now, window)
  {
    if z.cursor.Some? {
      assert Get(z'.queue, z.cursor.value) == Get(z.queue, z.cursor.value);
    }
    hide Live;
  }

  /** Time only makes records stale. */
  lemma PhaseLater(z: Zone, s: Key, now: Time, later: Time, window: nat)
    requires Started(z.queue, now) && now <= later && IsStale(z.queue, s, now, window)
    ensures Started(z.queue, later) && IsStale(z.queue, s, later, window)
    ensures Phase(z, later, window) <= Phase(z, now, window)
    ensures LiveCount(z.queue, later, window) <= LiveCount(z.queue, now, window)
  {
    LiveAmongLater(z.queue, |z.queue|, now, later, window);
  }

  lemma {:induction false} ReclaimWithinPhase(z: Zone, s: Key, rs: seq<Round>, now: Time, window: nat)
    requires Sound(z) && Started(z.queue, now) && IsStale(z.queue, s, now, window)
    requires Clocked(rs, now) && |rs| > Phase(z, now, window)
    requires LiveCount(z.queue, now, window) <= SCAN || OnStale(z, now, window)
    ensures |Rounds(z, rs, window).queue| < |z.queue|
    decreases rs
  {
    var later := rs[0].now;
    var y := TouchAll(z, rs[0].touched);
    PhaseLater(z, s, now, later, window);
    TouchAllOnlyReorders(z, rs[0].touched, later, window);
    PhaseKept(z, y, later, window);
    SameStale(z.queue, y.queue, s, later, window);
    var x := Expire(y, later, window);
    ExpireFreesStaleOnly(y, later, window, s);
    if |x.queue| < |y.queue| {
      RoundsNeverGrow(x, rs[1..], window);
    } else {
      if OnStale(y, later, window) {
        OnStaleFrees(y, later, window);
      }
      FruitlessCallLowersPhase(y, s, later, window);
      assert forall i :: 0 <= i < |rs[1..]| ==> rs[1..][i] == rs[i + 1];
      hide Phase, IsStale, Sound, Get, Live, Started, Expire, TouchAll, LiveCount;
      ReclaimWithinPhase(x, s, rs[1..], later, window);
    }
  }

  lemma OnStaleFrees(z: Zone, now: Time, window: nat)
    requires OnStale(z, now, window)
    ensures |Expire(z, now, window).queue| < |z.queue|
  {
    StaleAtCursorIsFreed(z.queue, StartPos(z), 0, false, now, window);
  }

  // ---- many live records --------------------------------------------------

  /** The same records in another order. */
  ghost predicate SameRecords(q: seq<Rec>, q': seq<Rec>) {
    DistinctKeys(q) && DistinctKeys(q') && |q'| == |q| && forall k :: Get(q', k) == Get(q, k)
  }

  lemma AppendGet(q: seq<Rec>, r: Rec, k: Key)
    requires DistinctKeys(q) && !Has(q, r.key)
    ensures DistinctKeys(q + [r])
    ensures Get(q + [r], k) == if k == r.key then Some(r) else Get(q, k)
  {
    var q' := q + [r];
    assert forall i :: 0 <= i < |q| ==> q'[i] == q[i];
    assert q'[|q|] == r;
    if Has(q, k) {
      IndexIsUnique(q', IndexOf(q, k));
    } else if k == r.key {
      IndexIsUnique(q', |q|);
    }
  }

  /** A record can be put last. */
  lemma PutLast(q: seq<Rec>, i: nat, q': seq<Rec>)
    requires DistinctKeys(q) && i < |q| && SameRecords(RemoveAt(q, i), q')
    ensures SameRecords(q, q' + [q[i]])
  {
    RemoveAtGet(q, i, q[i].key);
    assert Get(q', q[i].key) == None;
    forall k
      ensures Get(q' + [q[i]], k) == Get(q, k)
    {
      RemoveAtGet(q, i, k);
      AppendGet(q', q[i], k);
      IndexIsUnique(q, i);
    }
    AppendGet(q', q[i], q[i].key);
    hide Get, RemoveAt;
  }

  lemma {:induction false} SomeLive(q: seq<Rec>, n: nat, now: Time, window: nat) returns (i: nat)
    requires n <= |q| && LiveAmong(q, n, now, window) > 0
    ensures i < n && Live(q[i], now, window)
  {
    i := n - 1;
    if !Live(q[i], now, window) {
      i := SomeLive(q, n - 1, now, window);
    }
  }

  /** The last `n` records are live. */
  predicate LiveTail(q: seq<Rec>, n: nat, now: Time, window: nat) {
    n <= |q| && forall i :: |q| - n <= i < |q| ==> Live(q[i], now, window)
  }

  /** Live records can be gathered at the tail. */
  lemma {:induction false} Gather(q: seq<Rec>, n: nat, now: Time, window: nat) returns (t: seq<Rec>)
    requires DistinctKeys(q) && n <= LiveCount(q, now, window)
    ensures SameRecords(q, t) && LiveTail(t, n, now, window)
    decreases n, 1
  {
    t := q;
    if n > 0 {
      var i := SomeLive(q, |q|, now, window);
      t := GatherLast(q, i, n, now, window);
    }
  }

  /** ... with a given one of them last. */
  lemma {:induction false} GatherLast(q: seq<Rec>, i: nat, n: nat, now: Time, window: nat) returns (t: seq<Rec>)
    requires DistinctKeys(q) && 0 < n <= LiveCount(q, now, window) && i < |q| && Live(q[i], now, window)
    ensures SameRecords(q, t) && LiveTail(t, n, now, window) && t[|t| - 1] == q[i]
    decreases n, 0
  {
    LiveCountRemoved(q, i, now, window);
    RemoveAtGet(q, i, q[i].key);
    var rest := Gather(RemoveAt(q, i), n - 1, now, window);
    PutLast(q, i, rest);
    t := rest + [q[i]];
    hide SameRecords, LiveCount;
    assert forall j :: 0 <= j < |rest| ==> t[j] == rest[j];
  }

  /** The keys of `t[m..]`, last first. */
  function Backwards(t: seq<Rec>, m: nat): (keys: seq<Key>)
    requires m <= |t|
    ensures |keys| == |t| - m
    decreases |t| - m
  {
    if m == |t| then [] else Backwards(t, m + 1) + [t[m].key]
  }

  lemma BehindFront(q: seq<Rec>, t: seq<Rec>, m: nat)
    requires SameRecords(q, t) && m < |t| && t[m + 1..] <= q
    ensures Has(q, t[m].key) && q[IndexOf(q, t[m].key)] == t[m] && IndexOf(q, t[m].key) >= |t| - m - 1
  {
    IndexIsUnique(t, m);
    assert Get(q, t[m].key) == Some(t[m]);
    hide IndexOf, SameRecords;
    assert forall i :: 0 <= i < |t| - m - 1 ==> q[i] == t[m + 1 + i];
  }

  lemma ReheadFronts(q: seq<Rec>, t: seq<Rec>, m: nat)
    requires SameRecords(q, t) && m < |t| && t[m + 1..] <= q
    ensures t[m..] <= Rehead(q, t[m].key)
  {
    BehindFront(q, t, m);
    var i, front := IndexOf(q, t[m].key), t[m + 1..];
    hide IndexOf, SameRecords;
    assert q[..i][..|front|] == front;
    assert Rehead(q, t[m].key) == [t[m]] + (q[..i] + q[i + 1..]);
    assert t[m..] == [t[m]] + front;
  }

  /** Lookups can bring about any order. */
  lemma {:induction false} LookupsArrange(z: Zone, t: seq<Rec>, m: nat, now: Time, window: nat)
    requires Sound(z) && SameRecords(z.queue, t) && m <= |t|
    ensures t[m..] <= TouchAll(z, Backwards(t, m)).queue
    ensures |TouchAll(z, Backwards(t, m)).queue| == |t|
    decreases |t| - m
  {
    TouchAllOnlyReorders(z, Backwards(t, m), now, window);
    if m < |t| {
      var keys := Backwards(t, m + 1);
      LookupsArrange(z, t, m + 1, now, window);
      TouchAllOnlyReorders(z, keys, now, window);
      ReheadFronts(TouchAll(z, keys).queue, t, m);
      assert (keys + [t[m].key])[..|keys|] == keys;
    }
  }

  /** A walk over live records alone. */
  lemma {:induction false} WalkOverLive(q: seq<Rec>, pos: int, scanned: nat, wrapped: bool, now: Time, window: nat)
    requires -1 <= pos < |q| && scanned <= SCAN && (wrapped || pos >= SCAN - scanned)
    requires forall i :: 0 <= i <= pos && i > pos - (SCAN - scanned) ==> Live(q[i], now, window)
    ensures Walk(q, pos, scanned, 0, wrapped, now, window)
         == Walked(q, if pos >= SCAN - scanned then pos - (SCAN - scanned) else -1)
    decreases SCAN - scanned
  {
    if scanned < SCAN && pos >= 0 {
      WalkOverLive(q, pos - 1, scanned + 1, wrapped, now, window);
    }
  }

  /** Nothing stale under the cursor, and more live records than one call scans. */
  ghost predicate CanStarve(z: Zone, now: Time, window: nat) {
    Sound(z) && LiveCount(z.queue, now, window) > SCAN && !OnStale(z, now, window)
  }

  /** The order in which the next call finds only live records: the record of the cursor,
      if there is one, comes last. */
  lemma StarvingOrder(z: Zone, now: Time, window: nat) returns (t: seq<Rec>)
    requires CanStarve(z, now, window)
    ensures SameRecords(z.queue, t) && LiveTail(t, SCAN + 1, now, window)
    ensures z.cursor.Some? ==> z.cursor.value == t[|t| - 1].key
  {
    if z.cursor.Some? {
      t := GatherLast(z.queue, IndexOf(z.queue, z.cursor.value), SCAN + 1, now, window);
    } else {
      t := Gather(z.queue, SCAN + 1, now, window);
    }
  }

  lemma CallOnLiveTail(z: Zone, now: Time, window: nat)
    requires Sound(z) && LiveTail(z.queue, SCAN + 1, now, window)
    requires z.cursor.Some? ==> z.cursor.value == z.queue[|z.queue| - 1].key
    ensures Expire(z, now, window).queue == z.queue && !OnStale(Expire(z, now, window), now, window)
  {
    var q := z.queue;
    IndexIsUnique(q, |q| - 1);
    WalkOverLive(q, |q| - 1, 0, z.cursor.None?, now, window);
    IndexIsUnique(q, |q| - 1 - SCAN);
  }

  /** One round of lookups after which the call frees nothing, and the same can be done
      again. */
  lemma StarvingRound(z: Zone, now: Time, window: nat) returns (r: Round)
    requires CanStarve(z, now, window)
    ensures r.now == now
    ensures var x := Expire(TouchAll(z, r.touched), now, window);
            CanStarve(x, now, window) && SameRecords(z.queue, x.queue) && x.bans == z.bans
  {
    var t := StarvingOrder(z, now, window);
    r := Round(Backwards(t, 0), now);
    LookupsArrange(z, t, 0, now, window);
    TouchAllOnlyReorders(z, r.touched, now, window);
    var y := TouchAll(z, r.touched);
    assert y.queue == t;
    CallOnLiveTail(y, now, window);
    ExpireFreesStaleOnly(y, now, window, Key(0, []));
    hide TouchAll, Expire, LiveTail, LiveCount, Live, OnStale;
  }

  /** However many calls are made, lookups in between can keep all of them from freeing
      anything. */
  lemma {:induction false} LookupsStarve(z: Zone, now: Time, window: nat, n: nat) returns (rs: seq<Round>)
    requires CanStarve(z, now, window)
    ensures |rs| == n && (forall i :: 0 <= i < n ==> rs[i].now == now)
    ensures var x := Rounds(z, rs, window);
            CanStarve(x, now, window) && SameRecords(z.queue, x.queue) && x.bans == z.bans
    decreases n
  {
    rs := [];
    if n > 0 {
      var r := StarvingRound(z, now, window);
      var x := Expire(TouchAll(z, r.touched), now, window);
      hide CanStarve, TouchAll, Expire, Get, DistinctKeys;
      var more := LookupsStarve(x, now, window, n - 1);
      rs := [r] + more;
      assert rs[1..] == more;
    }
  }

  /** The exact condition. While some record is stale, three calls free a record whatever
      is looked up in between, if and only if no more records are live than one call
      scans, or the cursor rests on a stale one. */
  lemma ReclaimIsSureIffFewAreLive(z: Zone, s: Key, now: Time, window: nat)
    requires Sound(z) && Started(z.queue, now) && IsStale(z.queue, s, now, window)
    ensures (LiveCount(z.queue, now, window) <= SCAN || OnStale(z, now, window))
            <==> forall rs :: |rs| == 3 && Clocked(rs, now) ==> |Rounds(z, rs, window).queue| < |z.queue|
  {
    if LiveCount(z.queue, now, window) <= SCAN || OnStale(z, now, window) {
      forall rs | |rs| == 3 && Clocked(rs, now)
        ensures |Rounds(z, rs, window).queue| < |z.queue|
      {
        ReclaimWithinPhase(z, s, rs, now, window);
      }
    } else {
      var rs := LookupsStarve(z, now, window, 3);
      hide CanStarve, Rounds, IsStale;
      assert Clocked(rs, now);
    }
  }

  // ---- a run that starves -------------------------------------------------

  /** The checks of one round, and one hit of a new address that finds no block. */
  function RoundOps(r: Round, x: Key): seq<Op> {
    ChecksOf(r.touched, r.now) + [Hit(x, r.now, false)]
  }

  function ChecksOf(keys: seq<Key>, now: Time): (ops: seq<Op>)
    ensures |ops| == |keys| && forall i :: 0 <= i < |ops| ==> ops[i] == Check(keys[i], now)
  {
    seq(|keys|, i requires 0 <= i < |keys| => Check(keys[i], now))
  }

  function AllRoundOps(rs: seq<Round>, x: Key): seq<Op> {
    if rs == [] then [] else RoundOps(rs[0], x) + AllRoundOps(rs[1..], x)
  }

  lemma {:induction false} ChecksTouch(z: Zone, keys: seq<Key>, now: Time, p: Policy)
    ensures Run(z, ChecksOf(keys, now), p) == TouchAll(z, keys)
  {
    if keys != [] {
      ChecksTouch(z, keys[..|keys| - 1], now, p);
      assert ChecksOf(keys, now)[..|keys| - 1] == ChecksOf(keys[..|keys| - 1], now);
    }
  }

  /** A round is a run of calls: the new hit is dropped, after the eviction it asked for. */
  lemma RoundIsRun(z: Zone, r: Round, x: Key, p: Policy)
    requires Sound(z) && !Has(z.queue, x)
    ensures Run(z, RoundOps(r, x), p) == Expire(TouchAll(z, r.touched), r.now, p.window)
    ensures Apply(TouchAll(z, r.touched), Hit(x, r.now, false), p).answer == Recorded(false)
  {
    var y, hit := TouchAll(z, r.touched), [Hit(x, r.now, false)];
    ChecksTouch(z, r.touched, r.now, p);
    RunJoined(z, ChecksOf(r.touched, r.now), hit, p);
    TouchAllOnlyReorders(z, r.touched, r.now, p.window);
    assert Get(y.queue, x) == Get(z.queue, x);
    assert hit[..0] == [];
    hide TouchAll, Expire;
  }

  lemma {:induction false} RoundsAreRun(z: Zone, rs: seq<Round>, x: Key, p: Policy)
    requires Sound(z) && !Has(z.queue, x)
    ensures Run(z, AllRoundOps(rs, x), p) == Rounds(z, rs, p.window)
    decreases rs
  {
    if rs != [] {
      var y := Expire(TouchAll(z, rs[0].touched), rs[0].now, p.window);
      RoundIsRun(z, rs[0], x, p);
      TouchAllOnlyReorders(z, rs[0].touched, rs[0].now, p.window);
      ExpireFreesStaleOnly(TouchAll(z, rs[0].touched), rs[0].now, p.window, x);
      RoundsAreRun(y, rs[1..], x, p);
      hide TouchAll, Expire, Get, Sound;
      RunJoined(z, RoundOps(rs[0], x), AllRoundOps(rs[1..], x), p);
    }
  }

  /** One client banned first, then SCAN + 1 others a second later. */
  predicate Clients(keys: seq<Key>) {
    |keys| == SCAN + 2 && forall i, j :: 0 <= i < j < |keys| ==> keys[i] != keys[j]
  }

  function BanAll(keys: seq<Key>, n: nat): seq<Op>
    requires n <= |keys|
  {
    if n == 0 then [] else BanAll(keys, n - 1) + [Hit(keys[n - 1], if n == 1 then 0 else 1, true)]
  }

  function BannedAt(k: Key, now: Time, p: Policy): Rec
    requires now + p.banTime <= TIME_MAX
  {
    Rec(k, now, now + p.banTime, 0)
  }

  /** The first `n` clients banned, last first. */
  function BannedClients(keys: seq<Key>, n: nat, p: Policy): (q: seq<Rec>)
    requires n <= |keys| && 1 + p.banTime <= TIME_MAX
    ensures |q| == n && forall i :: 0 <= i < n ==> q[i].key == keys[n - 1 - i]
    ensures forall i :: 0 <= i < n ==> q[i] == BannedAt(keys[n - 1 - i], if i == n - 1 then 0 else 1, p)
  {
    if n == 0 then [] else [BannedAt(keys[n - 1], if n == 1 then 0 else 1, p)] + BannedClients(keys, n - 1, p)
  }

  /** A policy that bans at the first hit, for long enough. */
  predicate BansAtOnce(p: Policy) {
    p.count == 1 && 2 <= p.banTime && 1 + p.banTime <= TIME_MAX
  }

  /** All clients so far are live, so a call frees none of them. */
  lemma BannedClientsStay(keys: seq<Key>, n: nat, p: Policy, now: Time)
    requires Clients(keys) && BansAtOnce(p) && n <= |keys| && now <= 1
    ensures Expire(Zone(BannedClients(keys, n, p), None, n), now, p.window)
         == Zone(BannedClients(keys, n, p), if n <= SCAN then None else Some(keys[SCAN]), n)
  {
    var q := BannedClients(keys, n, p);
    WalkOverLive(q, n - 1, 0, true, now, p.window);
    hide Walk, Live;
  }

  /** The hit that bans a client at once. */
  lemma FirstHitBans(k: Key, now: Time, p: Policy)
    requires BansAtOnce(p) && now <= 1
    ensures Touch(Fresh(k, now), now, p) == BannedAt(k, now, p) && Arms(Fresh(k, now), now, p)
  {
  }

  /** A hit of a new client while there is memory. */
  lemma NewClient(z: Zone, k: Key, now: Time, p: Policy)
    requires !Has(z.queue, k)
    ensures var e, x := Expire(z, now, p.window), Record(z, k, now, p, true).zone;
            && x.queue == [Touch(Fresh(k, now), now, p)] + e.queue && x.cursor == e.cursor
            && x.bans == e.bans + if Arms(Fresh(k, now), now, p) then 1 else 0
  {
    hide Expire, Touch, Arms, Has;
    var q := [Fresh(k, now)] + Expire(z, now, p.window).queue;
    assert q[0 := Touch(q[0], now, p)] == [Touch(q[0], now, p)] + Expire(z, now, p.window).queue;
  }

  lemma NextBan(keys: seq<Key>, n: nat, p: Policy)
    requires Clients(keys) && BansAtOnce(p) && n < |keys|
    ensures var z := Zone(BannedClients(keys, n, p), None, n);
            var x := Record(z, keys[n], if n == 0 then 0 else 1, p, true).zone;
            && x.queue == BannedClients(keys, n + 1, p) && x.bans == n + 1
            && x.cursor == if n <= SCAN then None else Some(keys[SCAN])
  {
    var z, now: Time := Zone(BannedClients(keys, n, p), None, n), if n == 0 then 0 else 1;
    assert !Has(z.queue, keys[n]);
    hide Record, Expire, Touch, Arms, Fresh, Has, BansAtOnce;
    BannedClientsStay(keys, n, p, now);
    FirstHitBans(keys[n], now, p);
    NewClient(z, keys[n], now, p);
  }

  lemma RunThen(z: Zone, ops: seq<Op>, op: Op, p: Policy)
    ensures Run(z, ops + [op], p) == Apply(Run(z, ops, p), op, p).zone
  {
    assert (ops + [op])[..|ops|] == ops;
    hide Apply;
  }

  lemma {:induction false} AllBanned(keys: seq<Key>, n: nat, p: Policy)
    requires Clients(keys) && BansAtOnce(p) && n <= |keys|
    ensures Run(EmptyZone(), BanAll(keys, n), p)
         == Zone(BannedClients(keys, n, p), if n <= SCAN + 1 then None else Some(keys[SCAN]), n)
  {
    hide Run, Record, BannedClients, Clients, BansAtOnce, BanAll;
    if n == 0 {
      NoneBanned(keys, p);
    } else {
      AllBanned(keys, n - 1, p);
      NextBan(keys, n - 1, p);
      var front, op := BanAll(keys, n - 1), Hit(keys[n - 1], if n == 1 then 0 else 1, true);
      BanAllThen(keys, n);
      RunThen(EmptyZone(), front, op, p);
    }
  }

  lemma NoneBanned(keys: seq<Key>, p: Policy)
    requires BansAtOnce(p)
    ensures Run(EmptyZone(), BanAll(keys, 0), p) == Zone(BannedClients(keys, 0, p), None, 0)
  {
  }

  lemma BanAllThen(keys: seq<Key>, n: nat)
    requires Clients(keys) && 0 < n <= |keys|
    ensures |keys| == SCAN + 2
    ensures BanAll(keys, n) == BanAll(keys, n - 1) + [Hit(keys[n - 1], if n == 1 then 0 else 1, true)]
  {
  }

  lemma {:induction false} OthersAreLive(keys: seq<Key>, p: Policy, n: nat)
    requires Clients(keys) && BansAtOnce(p) && n <= SCAN + 1
    ensures LiveAmong(BannedClients(keys, SCAN + 2, p), n, p.banTime, p.window) == n
  {
    if n > 0 {
      OthersAreLive(keys, p, n - 1);
    }
  }

  /** When the first ban lapses, the zone can starve. */
  lemma LapsedCanStarve(keys: seq<Key>, p: Policy)
    requires Clients(keys) && BansAtOnce(p)
    ensures var z := Zone(BannedClients(keys, SCAN + 2, p), Some(keys[SCAN]), SCAN + 2);
            CanStarve(z, p.banTime, p.window) && IsStale(z.queue, keys[0], p.banTime, p.window)
  {
    var q := BannedClients(keys, SCAN + 2, p);
    assert q[SCAN + 1] == BannedAt(keys[0], 0, p) && q[1] == BannedAt(keys[SCAN], 1, p);
    assert DistinctKeys(q);
    IndexIsUnique(q, SCAN + 1);
    IndexIsUnique(q, 1);
    OthersAreLive(keys, p, SCAN + 1);
    hide BannedClients, DistinctKeys, LiveAmong, IndexOf, Clients;
    LiveAmongMonotonic(q, SCAN + 1, |q|, p.banTime, p.window);
  }

  /** Such a run, for any addresses and any ban time: SCAN + 2 clients are banned, the
      first ban lapses, and then checks of known clients keep every further call from
      freeing its record. The hits of a new client are dropped as often as one likes. */
  lemma BannedClientsStarve(keys: seq<Key>, x: Key, p: Policy, n: nat) returns (rs: seq<Round>)
    requires Clients(keys) && x !in keys && BansAtOnce(p)
    ensures |rs| == n && forall i :: 0 <= i < n ==> rs[i].now == p.banTime
    ensures var before := Run(EmptyZone(), BanAll(keys, SCAN + 2), p);
            var after := Run(EmptyZone(), BanAll(keys, SCAN + 2) + AllRoundOps(rs, x), p);
            && SameRecords(before.queue, after.queue) && !Has(after.queue, x)
            && IsStale(after.queue, keys[0], p.banTime, p.window)
  {
    var z := Run(EmptyZone(), BanAll(keys, SCAN + 2), p);
    AllBanned(keys, SCAN + 2, p);
    LapsedCanStarve(keys, p);
    rs := LookupsStarve(z, p.banTime, p.window, n);
    assert !Has(z.queue, x);
    RoundsAreRun(z, rs, x, p);
    RunJoined(EmptyZone(), BanAll(keys, SCAN + 2), AllRoundOps(rs, x), p);
    SameStale(z.queue, Rounds(z, rs, p.window).queue, keys[0], p.banTime, p.window);
    SameStale(z.queue, Rounds(z, rs, p.window).queue, x, p.banTime, p.window);
  }
}
