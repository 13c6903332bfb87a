/** What eviction reclaims: every record that has nothing left to say. */
module BanSweep {
  import opened BanSpec
  import opened BanRuns

  /** A record whose loss no hit at `now` could notice: it bans nobody, it holds a hit or a
      lapsed ban, and the next hit would leave what it leaves on a new record. */
  predicate Useless(r: Rec, now: Time, p: Policy) {
    && r.bannedUntil <= now && (r.hits > 0 || r.bannedUntil != 0)
    && Touch(r, now, p) == Touch(Fresh(r.key, now), now, p)
  }

  /** The window of an unarmed record is over, or lies in the future. */
  predicate WindowOver(r: Rec, now: Time, window: nat) {
    r.bannedUntil == 0 && (now < r.windowStart || r.windowStart + window <= now)
  }

  lemma UselessIsStale(r: Rec, now: Time, p: Policy)
    requires 1 < p.count && Useless(r, now, p)
    ensures !Live(r, now, p.window)
  {
  }

  /** A record that a call should take: its ban has lapsed, its window is over, or it is
      useless. */
  predicate Reclaimable(r: Rec, now: Time, p: Policy) {
    0 < r.bannedUntil <= now || WindowOver(r, now, p.window) || (1 < p.count && Useless(r, now, p))
  }

  lemma ReclaimableIsStale(r: Rec, now: Time, p: Policy)
    requires Reclaimable(r, now, p)
    ensures !Live(r, now, p.window)
  {
    if 1 < p.count && Useless(r, now, p) {
      UselessIsStale(r, now, p);
    }
  }

  // ---- one call -----------------------------------------------------------

  /** The records live in a stretch of the queue. */
  ghost predicate LiveIn(q: seq<Rec>, from: int, to: int, now: Time, window: nat) {
    forall i :: 0 <= i < |q| && from <= i < to ==> Live(q[i], now, window)
  }

  lemma LiveDown(q: seq<Rec>, pos: nat, to: int, now: Time, window: nat)
    requires pos < |q| && LiveIn(q, pos + 1, to, now, window) && Live(q[pos], now, window)
    ensures LiveIn(q, pos, to, now, window)
  {
    hide Live;
  }

  /** Removing record `pos` moves what is above it down by one. */
  lemma LiveWithout(q: seq<Rec>, pos: nat, c: nat, to: int, now: Time, window: nat)
    requires c <= pos < |q| && LiveIn(q, 0, c, now, window) && LiveIn(q, pos + 1, to, now, window)
    ensures LiveIn(RemoveAt(q, pos), 0, c, now, window) && LiveIn(RemoveAt(q, pos), pos, to - 1, now, window)
  {
    hide Live;
    var r := RemoveAt(q, pos);
    assert forall i :: 0 <= i < |r| ==> r[i] == q[if i < pos then i else i + 1];
  }

  lemma LiveThroughout(q: seq<Rec>, c: int, pos: int, now: Time, window: nat)
    requires pos < c && LiveIn(q, 0, c, now, window) && LiveIn(q, pos + 1, |q|, now, window)
    ensures LiveIn(q, 0, |q|, now, window)
  {
    hide Live;
  }

  /** The walk has wrapped: the first `c` records were judged before, and all above `pos`. */
  lemma {:induction false} SweepsTheTail(q: seq<Rec>, pos: int, scanned: nat, evicted: nat, c: nat, now: Time, window: nat)
    requires -1 <= pos < |q| && scanned <= SCAN && evicted <= EVICT && c <= pos + 1 <= SCAN - scanned + c
    requires LiveIn(q, 0, c, now, window) && LiveIn(q, pos + 1, |q|, now, window)
    ensures var r := Walk(q, pos, scanned, evicted, true, now, window).queue;
            |r| == |q| - (EVICT - evicted) || LiveIn(r, 0, |r|, now, window)
    decreases pos + 1
  {
    hide Walk, Live, LiveIn, RemoveAt;
    WalkStep(q, pos, scanned, evicted, true, now, window);
    if evicted >= EVICT {
    } else if scanned >= SCAN || pos == -1 {
      LiveThroughout(q, c, pos, now, window);
    } else if Live(q[pos], now, window) {
      LiveDown(q, pos, |q|, now, window);
      LivePrefix(q, c, pos, now, window);
      SweepsTheTail(q, pos - 1, scanned + 1, evicted, if c <= pos then c else pos, now, window);
    } else {
      StaleIsNotBefore(q, c, pos, now, window);
      LiveWithout(q, pos, c, |q|, now, window);
      SweepsTheTail(RemoveAt(q, pos), pos - 1, scanned + 1, evicted + 1, c, now, window);
    }
  }

  lemma LivePrefix(q: seq<Rec>, c: nat, pos: nat, now: Time, window: nat)
    requires LiveIn(q, 0, c, now, window)
    ensures LiveIn(q, 0, if c <= pos then c else pos, now, window)
  {
    hide Live;
  }

  lemma StaleIsNotBefore(q: seq<Rec>, c: nat, pos: nat, now: Time, window: nat)
    requires pos < |q| && LiveIn(q, 0, c, now, window) && !Live(q[pos], now, window)
    ensures c <= pos
  {
    hide Live;
  }

  /** The walk has not wrapped: the `m` records above `pos` were judged. */
  lemma {:induction false} SweepsTheHead(q: seq<Rec>, pos: int, scanned: nat, evicted: nat, m: nat, now: Time, window: nat)
    requires -1 <= pos && pos + m < |q| <= SCAN - scanned + m && scanned <= SCAN && evicted <= EVICT
    requires LiveIn(q, pos + 1, pos + m + 1, now, window)
    ensures var r := Walk(q, pos, scanned, evicted, false, now, window).queue;
            |r| == |q| - (EVICT - evicted) || LiveIn(r, 0, |r|, now, window)
    decreases pos + 1
  {
    hide Walk, Live, LiveIn, RemoveAt;
    WalkStep(q, pos, scanned, evicted, false, now, window);
    if evicted >= EVICT {
    } else if pos == -1 || scanned >= SCAN {
      NothingBeyond(q, now, window);
      AllJudged(q, pos, m, now, window);
      if scanned < SCAN {
        SweepsTheTail(q, |q| - 1, scanned, evicted, m, now, window);
      }
    } else if Live(q[pos], now, window) {
      LiveDown(q, pos, pos + m + 1, now, window);
      SweepsTheHead(q, pos - 1, scanned + 1, evicted, m + 1, now, window);
    } else {
      NothingBefore(q, now, window);
      LiveWithout(q, pos, 0, pos + m + 1, now, window);
      SweepsTheHead(RemoveAt(q, pos), pos - 1, scanned + 1, evicted + 1, m, now, window);
    }
  }

  lemma NothingBeyond(q: seq<Rec>, now: Time, window: nat)
    ensures LiveIn(q, |q|, |q|, now, window)
  {
  }

  lemma NothingBefore(q: seq<Rec>, now: Time, window: nat)
    ensures LiveIn(q, 0, 0, now, window)
  {
  }

  lemma AllJudged(q: seq<Rec>, pos: int, m: nat, now: Time, window: nat)
    requires -1 <= pos && LiveIn(q, pos + 1, pos + m + 1, now, window)
    ensures m >= |q| && pos == -1 ==> LiveIn(q, 0, |q|, now, window)
  {
    hide Live;
  }

  /** A stale record within reach of the walk is freed, unless the budget of frees is spent
      before. */
  lemma {:induction false} JudgedIsFreed(q: seq<Rec>, pos: int, scanned: nat, evicted: nat, wrapped: bool,
                                         now: Time, window: nat, k: Key)
    requires -1 <= pos < |q| && DistinctKeys(q) && evicted <= EVICT
    requires Has(q, k) && IndexOf(q, k) <= pos < IndexOf(q, k) + SCAN - scanned && !Live(q[IndexOf(q, k)], now, window)
    ensures var r := Walk(q, pos, scanned, evicted, wrapped, now, window).queue;
            |r| == |q| - (EVICT - evicted) || !Has(r, k)
    decreases pos + 1
  {
    var j := IndexOf(q, k);
    hide Walk, Live, DistinctKeys;
    WalkStep(q, pos, scanned, evicted, wrapped, now, window);
    if evicted >= EVICT {
    } else if Live(q[pos], now, window) {
      JudgedIsFreed(q, pos - 1, scanned + 1, evicted, wrapped, now, window, k);
    } else {
      RemoveAtGet(q, pos, k);
      if j == pos {
        WalkFreesStaleOnly(RemoveAt(q, pos), pos - 1, scanned + 1, evicted + 1, wrapped, now, window, k);
      } else {
        StaysBefore(q, pos, k);
        JudgedIsFreed(RemoveAt(q, pos), pos - 1, scanned + 1, evicted + 1, wrapped, now, window, k);
      }
    }
  }

  lemma StaysBefore(q: seq<Rec>, i: nat, k: Key)
    requires Has(q, k) && IndexOf(q, k) < i < |q|
    ensures Has(RemoveAt(q, i), k) && IndexOf(RemoveAt(q, i), k) == IndexOf(q, k)
    ensures RemoveAt(q, i)[IndexOf(q, k)] == q[IndexOf(q, k)]
  {
    var r, j := RemoveAt(q, i), IndexOf(q, k);
    assert forall n :: 0 <= n < i ==> r[n] == q[n];
    assert r[j].key == k;
  }

  /** A reclaimable record among the 32 at which a call starts to look is gone after it, or
      the call has freed four others. */
  lemma ReclaimableIsFreed(z: Zone, k: Key, now: Time, p: Policy)
    requires Sound(z) && Has(z.queue, k) && Reclaimable(z.queue[IndexOf(z.queue, k)], now, p)
    requires IndexOf(z.queue, k) <= StartPos(z) < IndexOf(z.queue, k) + 32
    ensures var e := Expire(z, now, p.window);
            |e.queue| == |z.queue| - 4 || !Has(e.queue, k)
  {
    ReclaimableIsStale(z.queue[IndexOf(z.queue, k)], now, p);
    JudgedIsFreed(z.queue, StartPos(z), 0, 0, z.cursor.None?, now, p.window, k);
    hide Walk, Live, Reclaimable;
  }

  /** With at most 32 records a call leaves nothing reclaimable, or has freed four. */
  lemma SmallZoneIsSwept(z: Zone, now: Time, p: Policy)
    requires |z.queue| <= 32
    ensures var e := Expire(z, now, p.window);
            |e.queue| == |z.queue| - 4 || forall i :: 0 <= i < |e.queue| ==> !Reclaimable(e.queue[i], now, p)
  {
    var q, pos := z.queue, StartPos(z);
    NothingBeyond(q, now, p.window);
    NothingBefore(q, now, p.window);
    assert LiveIn(q, pos + 1, pos + 1, now, p.window);
    hide Walk, Live, Reclaimable;
    if z.cursor.None? {
      SweepsTheTail(q, pos, 0, 0, 0, now, p.window);
    } else {
      SweepsTheHead(q, pos, 0, 0, 0, now, p.window);
    }
    var e := Expire(z, now, p.window);
    forall i | 0 <= i < |e.queue| && Live(e.queue[i], now, p.window)
      ensures !Reclaimable(e.queue[i], now, p)
    {
      if Reclaimable(e.queue[i], now, p) {
        ReclaimableIsStale(e.queue[i], now, p);
      }
    }
  }

  // ---- a run --------------------------------------------------------------

  /** A window starts no later than the hit that is counted in it. */
  lemma WindowStartsByTheHit(r: Rec, now: Time, p: Policy)
    ensures Touch(r, now, p).windowStart <= now && Touch(r, now, p).key == r.key
  {
  }

  /** One call of a new address sweeps a small zone. */
  lemma NewAddressSweeps(y: Zone, k: Key, x: Key, now: Time, memory: bool, p: Policy)
    requires Sound(y) && |y.queue| <= 32 && !Has(y.queue, x)
    requires Has(y.queue, k) && Reclaimable(y.queue[IndexOf(y.queue, k)], now, p)
    ensures var z := Apply(y, Hit(x, now, memory), p).zone;
            !Has(z.queue, k) || |Expire(y, now, p.window).queue| == |y.queue| - 4
  {
    SmallZoneIsSwept(y, now, p);
    ExpireFreesStaleOnly(y, now, p.window, k);
    ExpireFreesStaleOnly(y, now, p.window, x);
    var e := Expire(y, now, p.window);
    hide Expire, Reclaimable, Live, Touch, Arms;
    PushGet(e.queue, Fresh(x, now), k);
    WindowStartsByTheHit(Fresh(x, now), now, p);
    UpdateHeadGet([Fresh(x, now)] + e.queue, Touch(Fresh(x, now), now, p), k);
  }

  /** On every run: an unarmed address last hit at `t` is gone, if at most four addresses
      are stored, after a hit of a new one once a window has passed since `t`, or once the
      clock stands before the start of its window. With no more than 32 stored it is gone
      or four others are. */
  lemma IdleAddressIsForgotten(ops: seq<Op>, k: Key, t: Time, x: Key, now: Time, memory: bool, p: Policy)
    requires var y := Run(EmptyZone(), ops + [Hit(k, t, true)], p);
             && |y.queue| <= 32 && !Has(y.queue, x)
             && Has(y.queue, k) && var r := y.queue[IndexOf(y.queue, k)];
                r.bannedUntil == 0 && (t + p.window <= now || now < r.windowStart)
    ensures var y := Run(EmptyZone(), ops + [Hit(k, t, true)], p);
            var z := Run(EmptyZone(), ops + [Hit(k, t, true), Hit(x, now, memory)], p);
            && (!Has(z.queue, k) || |Expire(y, now, p.window).queue| == |y.queue| - 4)
            && (|y.queue| <= 4 ==> !Has(z.queue, k))
  {
    var before, hit, new' := Run(EmptyZone(), ops, p), Hit(k, t, true), Hit(x, now, memory);
    var y := Run(EmptyZone(), ops + [hit], p);
    assert (ops + [hit])[..|ops|] == ops && ops + [hit, new'] == ops + [hit] + [new'];
    assert (ops + [hit] + [new'])[..|ops + [hit]|] == ops + [hit];
    RunIsSound(EmptyZone(), ops, p);
    RunIsSound(EmptyZone(), ops + [hit], p);
    ApplyOnKey(before, hit, p, k);
    WindowStartsByTheHit(Counted(before.queue, k, t), t, p);
    NewAddressSweeps(y, k, x, now, memory, p);
  }
}
