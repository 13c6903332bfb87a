/** Against an engine that never evicts: one counter per address, for ever. Eviction is
    unobservable exactly under the policies characterised here. */
module BanRefinement {
  import opened Options
  import opened Words
  import opened BanSpec
  import opened BanRuns

  /** The eviction-free engine. */
  datatype Ledger = Ledger(counters: map<Key, Rec>, bans: nat)

  function EmptyLedger(): Ledger {
    Ledger(map[], 0)
  }

  function CountedIn(m: Ledger, k: Key, now: Time): Rec {
    if k in m.counters then m.counters[k] else Fresh(k, now)
  }

  predicate BannedIn(m: Ledger, k: Key, now: Time) {
    k in m.counters && m.counters[k].bannedUntil > now
  }

  function ApplyTo(m: Ledger, op: Op, p: Policy): Ledger {
    match op
    case Check(_, _) => m
    case Hit(k, now, _) =>
      var r := CountedIn(m, k, now);
      Ledger(m.counters[k := Touch(r, now, p)], m.bans + if Arms(r, now, p) then 1 else 0)
  }

  function AnswerOf(m: Ledger, op: Op): Answer {
    match op
    case Check(k, now) => Banned(BannedIn(m, k, now))
    case Hit(_, _, _) => Recorded(true)
  }

  function RunOn(m: Ledger, ops: seq<Op>, p: Policy): Ledger {
    if ops == [] then m else ApplyTo(RunOn(m, ops[..|ops| - 1], p), ops[|ops| - 1], p)
  }

  function AnswersOf(m: Ledger, ops: seq<Op>, p: Policy): seq<Answer> {
    if ops == [] then []
    else AnswersOf(m, ops[..|ops| - 1], p) + [AnswerOf(RunOn(m, ops[..|ops| - 1], p), ops[|ops| - 1])]
  }

  /** A call the request handler makes: the clock has not gone back past `since`, no
      deadline saturates, the slab has room, and a banned client is never recorded. */
  predicate Proper(m: Ledger, op: Op, p: Policy, since: Time) {
    && since <= op.now
    && op.now + p.window <= TIME_MAX && op.now + p.banTime <= TIME_MAX
    && (op.Hit? ==> op.memory && !BannedIn(m, op.key, op.now))
  }

  function LastTime(ops: seq<Op>): Time {
    if ops == [] then 0 else ops[|ops| - 1].now
  }

  ghost predicate Legal(ops: seq<Op>, p: Policy) {
    forall i :: 0 <= i < |ops| ==> Proper(RunOn(EmptyLedger(), ops[..i], p), ops[i], p, LastTime(ops[..i]))
  }

  /** Eviction shows in neither an answer nor the number of bans. */
  ghost predicate Unobservable(ops: seq<Op>, p: Policy) {
    && Answers(EmptyZone(), ops, p) == AnswersOf(EmptyLedger(), ops, p)
    && Run(EmptyZone(), ops, p).bans == RunOn(EmptyLedger(), ops, p).bans
  }

  /** A window longer than half the clock's range: it cannot end within a legal run. */
  predicate Endless(p: Policy) {
    2 * p.window > TIME_MAX
  }

  /** What a caller can check on the configuration alone. */
  predicate Safe(p: Policy) {
    p.window <= p.banTime || p.window <= 1 || p.count <= 1 || Endless(p)
  }

  // ---- safe policies ------------------------------------------------------

  /** An armed record was armed with its window; an unarmed window does not saturate. */
  predicate Regular(r: Rec, t: Time, p: Policy) {
    && r.windowStart <= t && r.windowStart + p.window <= TIME_MAX
    && (r.bannedUntil != 0 ==> r.bannedUntil == r.windowStart + p.banTime && r.hits == 0)
  }

  /** The same record; or, where no window ever ends, the same but for its start. */
  predicate Alike(r: Rec, r': Rec, p: Policy) {
    r' == r || (Endless(p) && r'.(windowStart := r.windowStart) == r)
  }

  /** Counting on a record stale since `t` is counting on a fresh one. */
  lemma StaleCountsAsFresh(r: Rec, t: Time, now: Time, p: Policy)
    requires Safe(p) && Regular(r, t, p) && t <= now && now + p.window <= TIME_MAX
    requires !Live(r, t, p.window) && r.bannedUntil <= now
    ensures Alike(Touch(r, now, p), Touch(Fresh(r.key, now), now, p), p)
    ensures Arms(r, now, p) == Arms(Fresh(r.key, now), now, p)
  {
  }

  /** Alike records stay alike. */
  lemma TouchedAlike(r: Rec, r': Rec, now: Time, p: Policy)
    requires Alike(r, r', p) && Regular(r, now, p) && Regular(r', now, p) && now + p.window <= TIME_MAX
    ensures Alike(Touch(r, now, p), Touch(r', now, p), p) && Arms(r, now, p) == Arms(r', now, p)
  {
  }

  /** Where no window ends, only an armed record is ever stale, and it is one and the same. */
  lemma StaleIsSame(r: Rec, r': Rec, now: Time, p: Policy)
    requires Alike(r, r', p) && Regular(r, now, p) && Regular(r', now, p) && now + p.window <= TIME_MAX
    requires !Live(r', now, p.window)
    ensures r == r'
  {
  }

  lemma TouchIsRegular(r: Rec, now: Time, p: Policy)
    requires Regular(r, now, p) && r.bannedUntil <= now
    requires now + p.window <= TIME_MAX && now + p.banTime <= TIME_MAX
    ensures Regular(Touch(r, now, p), now, p)
  {
  }

  lemma RegularLater(r: Rec, t: Time, now: Time, p: Policy)
    requires Regular(r, t, p) && t <= now
    ensures Regular(r, now, p)
  {
  }

  lemma StaleStaysStale(r: Rec, t: Time, now: Time, p: Policy)
    requires Regular(r, t, p) && t <= now && !Live(r, t, p.window)
    ensures !Live(r, now, p.window)
  {
  }

  /** Every address either has alike records on both sides, or has a ledger record that is
      stale and was evicted, or was never seen. */
  ghost predicate Agrees(q: seq<Rec>, m: Ledger, t: Time, p: Policy, k: Key) {
    && (k in m.counters ==> m.counters[k].key == k && Regular(m.counters[k], t, p))
    && match Get(q, k)
       case Some(r) => k in m.counters && Alike(m.counters[k], r, p) && Regular(r, t, p)
       case None => k in m.counters ==> !Live(m.counters[k], t, p.window)
  }

  ghost predicate Simulates(z: Zone, m: Ledger, t: Time, p: Policy) {
    Sound(z) && z.bans == m.bans && forall k :: Agrees(z.queue, m, t, p, k)
  }

  /** A call on another address, or a check: the record stays, or is freed once stale. */
  lemma OtherAgrees(z: Zone, m: Ledger, t: Time, p: Policy, op: Op, k: Key)
    requires Safe(p) && Sound(z) && Agrees(z.queue, m, t, p, k) && t <= op.now && op.now + p.window <= TIME_MAX
    requires op.Check? || op.key != k
    ensures Agrees(Apply(z, op, p).zone.queue, ApplyTo(m, op, p), op.now, p, k)
  {
    ApplyOnKey(z, op, p, k);
    hide Apply, Touch, Arms, Live, Get, Has, Sound, Regular, Alike;
    if k in m.counters {
      var r := m.counters[k];
      RegularLater(r, t, op.now, p);
      if Get(z.queue, k).Some? {
        var r' := Get(z.queue, k).value;
        RegularLater(r', t, op.now, p);
        if !Live(r', op.now, p.window) {
          StaleIsSame(r, r', op.now, p);
        }
      } else {
        StaleStaysStale(r, t, op.now, p);
      }
    }
  }

  /** A hit on the address itself: touching an evicted record afresh makes no difference. */
  lemma OwnAgrees(z: Zone, m: Ledger, t: Time, p: Policy, op: Op)
    requires Safe(p) && Sound(z) && Agrees(z.queue, m, t, p, op.key) && Proper(m, op, p, t) && op.Hit?
    ensures Apply(z, op, p).answer.ok
    ensures Agrees(Apply(z, op, p).zone.queue, ApplyTo(m, op, p), op.now, p, op.key)
    ensures Arms(Counted(z.queue, op.key, op.now), op.now, p) == Arms(CountedIn(m, op.key, op.now), op.now, p)
  {
    ApplyOnKey(z, op, p, op.key);
    var r, r' := CountedIn(m, op.key, op.now), Counted(z.queue, op.key, op.now);
    CountedAgree(z, m, t, p, op);
    hide Apply, Touch, Arms, Live, Sound, Regular, Alike, CountedIn, Counted, Get, Has;
    TouchIsRegular(r, op.now, p);
    TouchIsRegular(r', op.now, p);
    TouchKey(r, op.now, p);
  }

  lemma TouchKey(r: Rec, now: Time, p: Policy)
    ensures Touch(r, now, p).key == r.key
  {
  }

  /** The records that the two engines count a hit on. */
  lemma CountedAgree(z: Zone, m: Ledger, t: Time, p: Policy, op: Op)
    requires Safe(p) && Agrees(z.queue, m, t, p, op.key) && Proper(m, op, p, t) && op.Hit?
    ensures var r, r' := CountedIn(m, op.key, op.now), Counted(z.queue, op.key, op.now);
            && r.key == op.key && Regular(r, op.now, p) && Regular(r', op.now, p)
            && r.bannedUntil <= op.now && r'.bannedUntil <= op.now
            && Alike(Touch(r, op.now, p), Touch(r', op.now, p), p) && Arms(r, op.now, p) == Arms(r', op.now, p)
  {
    var r, r' := CountedIn(m, op.key, op.now), Counted(z.queue, op.key, op.now);
    assert Regular(Fresh(op.key, op.now), op.now, p);
    assert Get(z.queue, op.key) == if Has(z.queue, op.key) then Some(r') else None;
    hide Touch, Arms, Live, Regular, Has;
    if op.key in m.counters {
      RegularLater(r, t, op.now, p);
      if Get(z.queue, op.key).Some? {
        RegularLater(r', t, op.now, p);
        TouchedAlike(r, r', op.now, p);
      } else {
        StaleCountsAsFresh(r, t, op.now, p);
      }
    }
  }

  lemma StepSimulates(z: Zone, m: Ledger, t: Time, p: Policy, op: Op)
    requires Safe(p) && Simulates(z, m, t, p) && Proper(m, op, p, t)
    ensures Simulates(Apply(z, op, p).zone, ApplyTo(m, op, p), op.now, p)
    ensures Apply(z, op, p).answer == AnswerOf(m, op)
  {
    assert Agrees(z.queue, m, t, p, op.key);
    ApplyOnKey(z, op, p, op.key);
    forall k
      ensures Agrees(Apply(z, op, p).zone.queue, ApplyTo(m, op, p), op.now, p, k)
    {
      assert Agrees(z.queue, m, t, p, k);
      if op.Hit? && op.key == k {
        OwnAgrees(z, m, t, p, op);
      } else {
        OtherAgrees(z, m, t, p, op, k);
      }
    }
    if op.Hit? {
      OwnAgrees(z, m, t, p, op);
    }
  }

  /** Under a safe policy every legal run, over any interleaving of addresses, answers
      and counts as the eviction-free engine does. */
  lemma {:induction false} SafePoliciesHideEviction(ops: seq<Op>, p: Policy)
    requires Safe(p) && Legal(ops, p)
    ensures Unobservable(ops, p)
    ensures Simulates(Run(EmptyZone(), ops, p), RunOn(EmptyLedger(), ops, p), LastTime(ops), p)
  {
    if ops != [] {
      var front, op := ops[..|ops| - 1], ops[|ops| - 1];
      assert forall i :: 0 <= i < |front| ==> front[..i] == ops[..i];
      SafePoliciesHideEviction(front, p);
      hide Simulates, Sound;
      StepSimulates(Run(EmptyZone(), front, p), RunOn(EmptyLedger(), front, p), LastTime(front), p, op);
    }
  }

  // ---- unsafe policies ----------------------------------------------------

  /** `ops` then `n` times `op`, as one run. */
  function Then(ops: seq<Op>, op: Op, n: nat): (r: seq<Op>)
    ensures n == 0 ==> r == ops
    ensures |r| == |ops| + n
  {
    if n == 0 then ops else Then(ops, op, n - 1) + [op]
  }

  function LaterOf(p: Policy): nat {
    1 + if p.banTime == 0 then 1 else p.banTime
  }

  /** The client is banned; once the ban has lapsed, but before its window would have,
      another client's first hit evicts it; it then hits again across the old window. */
  function BanRun(p: Policy, c: Key): seq<Op> {
    Then([], Hit(c, 1, true), p.count)
  }

  function EvictRun(p: Policy, c: Key, d: Key): seq<Op>
    requires LaterOf(p) <= TIME_MAX
  {
    BanRun(p, c) + [Hit(d, LaterOf(p), true)]
  }

  function ReturnRun(p: Policy, c: Key, d: Key): seq<Op>
    requires LaterOf(p) <= TIME_MAX && 1 + p.window <= TIME_MAX && p.count > 0
  {
    Then(EvictRun(p, c, d), Hit(c, LaterOf(p), true), p.count - 1) + [Hit(c, 1 + p.window, true)]
  }

  predicate Unsafe(p: Policy) {
    p.banTime < p.window && 1 < p.window && 1 < p.count && 1 + 2 * p.window <= TIME_MAX
  }

  /** A hit on the record at the head. */
  lemma HitAtHead(r: Rec, rest: seq<Rec>, now: Time, p: Policy, bans: nat)
    ensures Record(Zone([r] + rest, None, bans), r.key, now, p, true).zone
            == Zone([Touch(r, now, p)] + rest, None, bans + if Arms(r, now, p) then 1 else 0)
  {
    var q := [r] + rest;
    assert Rehead(q, r.key) == q;
    assert q[0 := Touch(r, now, p)] == [Touch(r, now, p)] + rest;
  }

  /** A first hit into a zone holding at most one other record, which goes if stale. */
  lemma FirstHit(q: seq<Rec>, k: Key, now: Time, p: Policy, bans: nat)
    requires |q| <= 1 && (q != [] ==> q[0].key != k)
    ensures var f := Fresh(k, now);
            var kept := if q != [] && Live(q[0], now, p.window) then q else [];
            Record(Zone(q, None, bans), k, now, p, true).zone
            == Zone([Touch(f, now, p)] + kept, None, bans + if Arms(f, now, p) then 1 else 0)
  {
  }

  /** What both engines hold after some run: the client's two records, and the bans. */
  ghost predicate Reached(ops: seq<Op>, p: Policy, last: Time, q: seq<Rec>, m: map<Key, Rec>, bans: nat) {
    && Legal(ops, p) && LastTime(ops) == last
    && Run(EmptyZone(), ops, p) == Zone(q, None, bans)
    && RunOn(EmptyLedger(), ops, p) == Ledger(m, bans)
  }

  lemma Extend(ops: seq<Op>, op: Op, p: Policy, last: Time, q: seq<Rec>, m: map<Key, Rec>, bans: nat)
    requires Reached(ops, p, last, q, m, bans) && Proper(Ledger(m, bans), op, p, last)
    ensures Legal(ops + [op], p) && LastTime(ops + [op]) == op.now
    ensures Run(EmptyZone(), ops + [op], p) == Apply(Zone(q, None, bans), op, p).zone
    ensures RunOn(EmptyLedger(), ops + [op], p) == ApplyTo(Ledger(m, bans), op, p)
  {
    assert (ops + [op])[..|ops|] == ops;
    assert forall i :: 0 <= i < |ops| ==> (ops + [op])[..i] == ops[..i];
  }

  /** Both engines touch the record they hold, and agree on whether that arms it. */
  lemma HitReached(ops: seq<Op>, now: Time, p: Policy, last: Time, r: Rec, rest: seq<Rec>, m: map<Key, Rec>, bans: nat)
    requires Reached(ops, p, last, [r] + rest, m, bans) && r.key in m
    requires Proper(Ledger(m, bans), Hit(r.key, now, true), p, last)
    requires Arms(r, now, p) == Arms(m[r.key], now, p)
    ensures Reached(ops + [Hit(r.key, now, true)], p, now, [Touch(r, now, p)] + rest,
                    m[r.key := Touch(m[r.key], now, p)], bans + if Arms(r, now, p) then 1 else 0)
  {
    hide Legal, Run, RunOn, Touch, Arms, Record, Proper;
    Extend(ops, Hit(r.key, now, true), p, last, [r] + rest, m, bans);
    HitAtHead(r, rest, now, p, bans);
  }

  lemma FirstHitReached(ops: seq<Op>, k: Key, now: Time, p: Policy, last: Time, q: seq<Rec>, m: map<Key, Rec>, bans: nat)
    requires Reached(ops, p, last, q, m, bans)
    requires |q| <= 1 && (q != [] ==> q[0].key != k)
    requires Proper(Ledger(m, bans), Hit(k, now, true), p, last)
    requires Arms(Fresh(k, now), now, p) == Arms(CountedIn(Ledger(m, bans), k, now), now, p)
    ensures var f := Fresh(k, now);
            var kept := if q != [] && Live(q[0], now, p.window) then q else [];
            Reached(ops + [Hit(k, now, true)], p, now, [Touch(f, now, p)] + kept,
                    m[k := Touch(CountedIn(Ledger(m, bans), k, now), now, p)], bans + if Arms(f, now, p) then 1 else 0)
  {
    hide Legal, Run, RunOn, Touch, Arms, Record, Proper, Live;
    Extend(ops, Hit(k, now, true), p, last, q, m, bans);
    FirstHit(q, k, now, p, bans);
  }

  /** The client's hits before the ban. */
  lemma {:induction false} CountingUp(p: Policy, c: Key, n: nat)
    requires Unsafe(p) && 0 < n < p.count
    ensures var r := Rec(c, 1, 0, n);
            Reached(Then([], Hit(c, 1, true), n), p, 1, [r], map[c := r], 0)
  {
    hide Reached;
    if n == 1 {
      NothingReached(p);
      FirstHitReached([], c, 1, p, 0, [], map[], 0);
      assert [Rec(c, 1, 0, 1)] + [] == [Rec(c, 1, 0, 1)];
      assert map[][c := Rec(c, 1, 0, 1)] == map[c := Rec(c, 1, 0, 1)];
    } else {
      CountingUp(p, c, n - 1);
      var r := Rec(c, 1, 0, n - 1);
      SingletonStep(r, Touch(r, 1, p));
      HitReached(Then([], Hit(c, 1, true), n - 1), 1, p, 1, r, [], map[c := r], 0);
    }
  }

  lemma SingletonStep(r: Rec, r': Rec)
    requires r'.key == r.key
    ensures [r] + [] == [r] && [r'] + [] == [r']
    ensures map[r.key := r][r.key := r'] == map[r.key := r']
  {
  }

  lemma PairStep(r: Rec, r': Rec, o: Rec)
    requires r.key == r'.key != o.key
    ensures [r] + [o] == [r, o]
    ensures map[r.key := r][o.key := o] == map[r.key := r, o.key := o]
    ensures map[r.key := r, o.key := o][r.key := r'] == map[r.key := r', o.key := o]
  {
  }

  lemma NothingReached(p: Policy)
    ensures Reached([], p, 0, [], map[], 0)
  {
  }

  /** The ban. */
  lemma Arming(p: Policy, c: Key)
    requires Unsafe(p)
    ensures var r := Rec(c, 1, 1 + p.banTime, 0);
            Reached(BanRun(p, c), p, 1, [r], map[c := r], 1)
  {
    hide Reached;
    CountingUp(p, c, p.count - 1);
    var r := Rec(c, 1, 0, p.count - 1);
    SingletonStep(r, Touch(r, 1, p));
    HitReached(Then([], Hit(c, 1, true), p.count - 1), 1, p, 1, r, [], map[c := r], 0);
  }

  /** The eviction: only the zone forgets the client. */
  lemma Evicting(p: Policy, c: Key, d: Key)
    requires Unsafe(p) && c != d
    ensures var t := LaterOf(p);
            var o := Rec(d, t, 0, 1);
            && t <= p.window
            && Reached(EvictRun(p, c, d), p, t, [o], map[c := Rec(c, 1, 1 + p.banTime, 0), d := o], 1)
  {
    hide Reached;
    Arming(p, c);
    var r := Rec(c, 1, 1 + p.banTime, 0);
    var o := Rec(d, LaterOf(p), 0, 1);
    PairStep(r, r, o);
    assert [o] + [] == [o];
    FirstHitReached(BanRun(p, c), d, LaterOf(p), p, 1, [r], map[c := r], 1);
  }

  /** The client counts up again, in the zone from now, in the ledger from time 1. */
  lemma {:induction false} Returning(p: Policy, c: Key, d: Key, n: nat)
    requires Unsafe(p) && c != d && 0 < n < p.count
    ensures var t := LaterOf(p);
            var o := Rec(d, t, 0, 1);
            && t <= p.window
            && Reached(Then(EvictRun(p, c, d), Hit(c, t, true), n), p, t, [Rec(c, t, 0, n), o],
                       map[c := Rec(c, 1, 0, n), d := o], 1)
  {
    hide Reached;
    var t := LaterOf(p);
    var o := Rec(d, t, 0, 1);
    if n == 1 {
      Evicting(p, c, d);
      PairStep(Rec(c, 1, 1 + p.banTime, 0), Rec(c, 1, 0, 1), o);
      PairStep(Rec(c, t, 0, 1), Rec(c, t, 0, 1), o);
      FirstHitReached(EvictRun(p, c, d), c, t, p, t, [o], map[c := Rec(c, 1, 1 + p.banTime, 0), d := o], 1);
    } else {
      Returning(p, c, d, n - 1);
      var r := Rec(c, t, 0, n - 1);
      PairStep(r, Rec(c, t, 0, n), o);
      PairStep(Rec(c, t, 0, n), r, o);
      PairStep(Rec(c, 1, 0, n - 1), Rec(c, 1, 0, n), o);
      HitReached(Then(EvictRun(p, c, d), Hit(c, t, true), n - 1), t, p, t, r, [o],
                 map[c := Rec(c, 1, 0, n - 1), d := o], 1);
    }
  }

  /** A hit that arms in one engine and not in the other. */
  lemma Part(ops: seq<Op>, now: Time, p: Policy, last: Time, c: Key, d: Key, r: Rec, r': Rec, o: Rec)
    requires c != d && r.key == c && r'.key == c && o.key == d
    requires Reached(ops, p, last, [r] + [o], map[c := r', d := o], 1)
    requires Proper(Ledger(map[c := r', d := o], 1), Hit(c, now, true), p, last)
    requires Arms(r, now, p) && !Arms(r', now, p)
    ensures Legal(ops + [Hit(c, now, true)], p)
    ensures Run(EmptyZone(), ops + [Hit(c, now, true)], p).bans == 2
    ensures RunOn(EmptyLedger(), ops + [Hit(c, now, true)], p).bans == 1
  {
    hide Legal, Run, RunOn, Touch, Arms, Record, Proper;
    Extend(ops, Hit(c, now, true), p, last, [r] + [o], map[c := r', d := o], 1);
    HitAtHead(r, [o], now, p, 1);
  }

  /** The last hit falls outside the old window but inside the new one: the zone bans
      the client a second time, the ledger does not. */
  lemma UnsafePoliciesShowEviction(p: Policy, c: Key, d: Key)
    requires Unsafe(p) && c != d
    ensures Legal(ReturnRun(p, c, d), p) && !Unobservable(ReturnRun(p, c, d), p)
  {
    hide Reached, Legal, Run, RunOn, Answers, AnswersOf, Then;
    var t := LaterOf(p);
    var r, r', o := Rec(c, t, 0, p.count - 1), Rec(c, 1, 0, p.count - 1), Rec(d, t, 0, 1);
    Returning(p, c, d, p.count - 1);
    PairStep(r, r, o);
    Part(Then(EvictRun(p, c, d), Hit(c, t, true), p.count - 1), 1 + p.window, p, t, c, d, r, r', o);
  }

  /** The addresses of a run are stored ones, of 4 or 16 bytes, each under its hash. */
  ghost predicate Stored(ops: seq<Op>, hash: seq<Byte> -> nat) {
    forall i :: 0 <= i < |ops| ==> (|ops[i].key.addr| == 4 || |ops[i].key.addr| == 16)
                                   && ops[i].key.hash == hash(ops[i].key.addr)
  }

  lemma {:induction false} ThenAbout(ops: seq<Op>, op: Op, n: nat, c: Key, d: Key)
    requires forall i :: 0 <= i < |ops| ==> ops[i].key == c || ops[i].key == d
    requires op.key == c || op.key == d
    ensures forall i :: 0 <= i < |Then(ops, op, n)| ==> Then(ops, op, n)[i].key == c || Then(ops, op, n)[i].key == d
  {
    if n > 0 {
      ThenAbout(ops, op, n - 1, c, d);
    }
  }

  lemma ReturnRunAbout(p: Policy, c: Key, d: Key)
    requires Unsafe(p)
    ensures forall i :: 0 <= i < |ReturnRun(p, c, d)| ==> ReturnRun(p, c, d)[i].key == c || ReturnRun(p, c, d)[i].key == d
  {
    ThenAbout([], Hit(c, 1, true), p.count, c, d);
    ThenAbout(EvictRun(p, c, d), Hit(c, LaterOf(p), true), p.count - 1, c, d);
    hide Then;
  }

  lemma UnsafeIsSeen(p: Policy, hash: seq<Byte> -> nat) returns (ops: seq<Op>)
    requires !Safe(p)
    ensures Stored(ops, hash) && Legal(ops, p) && !Unobservable(ops, p)
  {
    var a, b: seq<Byte> := [10, 0, 0, 1], [10, 0, 0, 2];
    assert a[3] != b[3];
    var c, d := Key(hash(a), a), Key(hash(b), b);
    UnsafePoliciesShowEviction(p, c, d);
    ReturnRunAbout(p, c, d);
    ops := ReturnRun(p, c, d);
    hide ReturnRun, Legal, Unobservable;
  }

  /** Over all policies, and for any hash of the addresses: eviction is unobservable on
      every legal run if and only if the policy is safe. */
  lemma EvictionIsHiddenIffSafe(p: Policy, hash: seq<Byte> -> nat)
    ensures Safe(p) <==> forall ops :: Stored(ops, hash) && Legal(ops, p) ==> Unobservable(ops, p)
  {
    hide Safe, Stored, Legal, Unobservable;
    if Safe(p) {
      forall ops | Stored(ops, hash) && Legal(ops, p)
        ensures Unobservable(ops, p)
      {
        SafePoliciesHideEviction(ops, p);
      }
    } else {
      var ops := UnsafeIsSeen(p, hash);
    }
  }
}
