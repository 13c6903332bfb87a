/** What the engine promises one address, whatever the others do. */
module BanGuarantees {
  import opened Options
  import opened BanSpec
  import opened BanRuns

  /** The clock reads at least `from` and does not go back. */
  ghost predicate Forward(ops: seq<Op>, from: Time) {
    && (forall i :: 0 <= i < |ops| ==> from <= ops[i].now)
    && (forall i, j :: 0 <= i < j < |ops| ==> ops[i].now <= ops[j].now)
  }

  function HitsOn(ops: seq<Op>, k: Key): nat {
    if ops == [] then 0
    else HitsOn(ops[..|ops| - 1], k) + if ops[|ops| - 1].Hit? && ops[|ops| - 1].key == k then 1 else 0
  }

  // ---- live records are safe ----------------------------------------------

  /** Calls on other addresses neither free nor alter a record that is live when they
      are made; nor do checks of the address itself. */
  lemma {:induction false} LiveRecordIsUntouched(z: Zone, ops: seq<Op>, p: Policy, k: Key, r: Rec)
    requires Sound(z) && Get(z.queue, k) == Some(r)
    requires forall i :: 0 <= i < |ops| ==>
               (ops[i].Hit? ==> ops[i].key != k) && Live(r, ops[i].now, p.window)
    ensures Get(Run(z, ops, p).queue, k) == Some(r)
  {
    if ops != [] {
      var front := ops[..|ops| - 1];
      LiveRecordIsUntouched(z, front, p, k, r);
      RunIsSound(z, front, p);
      ApplyOnKey(Run(z, front, p), ops[|ops| - 1], p, k);
    }
  }

  // ---- enough hits ban ----------------------------------------------------

  /** The record a hit at `now` is counted on, before it is: fresh, or with its lapsed ban
      retired and its window rolled if that is over. Its window may have been opened by a
      first hit, by a roll, or by an arming whose ban has lapsed inside it. */
  function Basis(q: seq<Rec>, k: Key, now: Time, p: Policy): Rec {
    Roll(Retire(Counted(q, k, now), now), now, p.window)
  }

  /** The address is not banned. */
  predicate Unbanned(q: seq<Rec>, k: Key, now: Time) {
    Has(q, k) ==> q[IndexOf(q, k)].bannedUntil <= now
  }

  /** Calls inside one window of `k`, the first of them a hit that finds a record or a block. */
  ghost predicate InWindow(z: Zone, ops: seq<Op>, p: Policy, k: Key) {
    && Sound(z) && ops != [] && ops[0].Hit? && ops[0].key == k && (Has(z.queue, k) || ops[0].memory)
    && Unbanned(z.queue, k, ops[0].now)
    && Forward(ops, ops[0].now)
    && forall i :: 0 <= i < |ops| ==> ops[i].now < AddClamp(Basis(z.queue, k, ops[0].now, p).windowStart, p.window)
  }

  /** Hits of the window, those of the record included. */
  function Total(z: Zone, ops: seq<Op>, p: Policy, k: Key): nat
    requires ops != []
  {
    Basis(z.queue, k, ops[0].now, p).hits + HitsOn(ops, k)
  }

  lemma OpeningTouch(q: seq<Rec>, k: Key, now: Time, p: Policy)
    requires Unbanned(q, k, now) && Basis(q, k, now, p).hits + 1 < p.count
    ensures var b := Basis(q, k, now, p);
            b.windowStart <= now && Touch(Counted(q, k, now), now, p) == Rec(k, b.windowStart, 0, b.hits + 1)
  {
  }

  lemma CountingTouch(r: Rec, now: Time, p: Policy)
    requires r.bannedUntil == 0 && r.windowStart <= now < AddClamp(r.windowStart, p.window)
    ensures Live(r, now, p.window)
    ensures r.hits + 1 < p.count ==> Touch(r, now, p) == r.(hits := r.hits + 1)
  {
  }

  lemma InWindowPrefix(z: Zone, ops: seq<Op>, p: Policy, k: Key)
    requires InWindow(z, ops, p, k) && |ops| > 1
    ensures InWindow(z, ops[..|ops| - 1], p, k)
  {
  }

  /** Before the threshold every hit is counted, in spite of evictions. */
  lemma {:induction false} HitsAreCounted(z: Zone, ops: seq<Op>, p: Policy, k: Key)
    requires InWindow(z, ops, p, k) && Total(z, ops, p, k) < p.count
    ensures Basis(z.queue, k, ops[0].now, p).windowStart <= ops[0].now
    ensures Get(Run(z, ops, p).queue, k)
         == Some(Rec(k, Basis(z.queue, k, ops[0].now, p).windowStart, 0, Total(z, ops, p, k)))
  {
    hide Apply, Get, Sound, AddClamp, IndexOf, DistinctKeys, Live, Touch, Arms, Basis, Unbanned;
    var first, rest := ops[0], ops[1..];
    assert ops == [first] + rest && [first][..0] == [];
    HitsJoined([first], rest, k);
    assert HitsOn([first], k) == 1;
    FirstIsCounted(z, first, p, k);
    var b := Basis(z.queue, k, first.now, p);
    RunJoined(z, [first], rest, p);
    assert Run(z, [first], p) == Apply(z, first, p).zone;
    RunIsSound(z, [first], p);
    hide Run, HitsOn;
    CountingRun(Apply(z, first, p).zone, rest, p, k, b.windowStart, b.hits + 1);
  }

  lemma {:induction false} HitsJoined(a: seq<Op>, b: seq<Op>, k: Key)
    ensures HitsOn(a + b, k) == HitsOn(a, k) + HitsOn(b, k)
  {
    if b == [] {
      assert a + b == a;
    } else {
      HitsJoined(a, b[..|b| - 1], k);
      assert (a + b)[..|a + b| - 1] == a + b[..|b| - 1];
    }
  }

  lemma {:induction false} CountingRun(y: Zone, ops: seq<Op>, p: Policy, k: Key, start: Time, n: nat)
    requires Sound(y) && Get(y.queue, k) == Some(Rec(k, start, 0, n)) && n + HitsOn(ops, k) < p.count
    requires forall i :: 0 <= i < |ops| ==> start <= ops[i].now < AddClamp(start, p.window)
    ensures Get(Run(y, ops, p).queue, k) == Some(Rec(k, start, 0, n + HitsOn(ops, k)))
  {
    hide Apply, Get, Sound, AddClamp, IndexOf, DistinctKeys, Live, Touch, Arms;
    if ops != [] {
      var front, op := ops[..|ops| - 1], ops[|ops| - 1];
      CountingRun(y, front, p, k, start, n);
      RunIsSound(y, front, p);
      assert Run(y, ops, p) == Apply(Run(y, front, p), op, p).zone;
      assert HitsOn(ops, k) == HitsOn(front, k) + if op.Hit? && op.key == k then 1 else 0;
      hide Run, HitsOn;
      CountingStep(Run(y, front, p), op, p, k, start, n + HitsOn(front, k));
    }
  }

  lemma FirstIsCounted(z: Zone, op: Op, p: Policy, k: Key)
    requires Sound(z) && op.Hit? && op.key == k && (Has(z.queue, k) || op.memory) && Unbanned(z.queue, k, op.now)
    requires Basis(z.queue, k, op.now, p).hits + 1 < p.count
    ensures var b := Basis(z.queue, k, op.now, p);
            && b.windowStart <= op.now
            && Get(Apply(z, op, p).zone.queue, k) == Some(Rec(k, b.windowStart, 0, b.hits + 1))
  {
    ApplyOnKey(z, op, p, k);
    OpeningTouch(z.queue, k, op.now, p);
    hide Touch, Live, Arms, Apply, Sound, Basis, Unbanned;
  }

  lemma CountingStep(y: Zone, op: Op, p: Policy, k: Key, start: Time, n: nat)
    requires Sound(y) && Get(y.queue, k) == Some(Rec(k, start, 0, n)) && start <= op.now < AddClamp(start, p.window)
    requires op.Hit? && op.key == k ==> n + 1 < p.count
    ensures Get(Apply(y, op, p).zone.queue, k) == Some(Rec(k, start, 0, if op.Hit? && op.key == k then n + 1 else n))
  {
    ApplyOnKey(y, op, p, k);
    CountingTouch(Rec(k, start, 0, n), op.now, p);
    hide Touch, Live, Arms, Apply, Sound;
  }

  lemma ArmingTouch(r: Rec, now: Time, p: Policy)
    requires Arms(r, now, p)
    ensures Touch(r, now, p) == Rec(r.key, now, AddClamp(now, p.banTime), 0)
  {
  }

  lemma CountingArms(r: Rec, now: Time, p: Policy)
    requires r.bannedUntil == 0 && r.windowStart <= now < AddClamp(r.windowStart, p.window) && r.hits + 1 >= p.count
    ensures Arms(r, now, p)
  {
  }

  lemma LastHitArms(z: Zone, ops: seq<Op>, p: Policy, k: Key)
    requires InWindow(z, ops, p, k) && Total(z, ops, p, k) == p.count
    requires ops[|ops| - 1].Hit? && ops[|ops| - 1].key == k
    ensures var now := ops[|ops| - 1].now;
            var q := Run(z, ops[..|ops| - 1], p).queue;
            Arms(Counted(q, k, now), now, p) && (Has(q, k) || ops[|ops| - 1].memory)
  {
    hide Get, Sound, AddClamp, IndexOf, DistinctKeys, Live, Touch, Apply;
    var front, op := ops[..|ops| - 1], ops[|ops| - 1];
    assert HitsOn(ops, k) == HitsOn(front, k) + 1;
    if front == [] {
      assert ops[0] == op && Run(z, front, p) == z && HitsOn(front, k) == 0;
    } else {
      InWindowPrefix(z, ops, p, k);
      HitsAreCounted(z, front, p, k);
      CountedOf(Run(z, front, p).queue, k, op.now);
      CountingArms(Counted(Run(z, front, p).queue, k, op.now), op.now, p);
    }
  }

  lemma CountedOf(q: seq<Rec>, k: Key, now: Time)
    requires Get(q, k).Some?
    ensures Counted(q, k, now) == Get(q, k).value && Has(q, k)
  {
  }

  /** The `count`-th hit inside one window bans the address until its time plus the ban
      time, saturated. */
  lemma EnoughHitsBan(z: Zone, ops: seq<Op>, p: Policy, k: Key)
    requires InWindow(z, ops, p, k) && Total(z, ops, p, k) == p.count
    requires ops[|ops| - 1].Hit? && ops[|ops| - 1].key == k
    ensures var now := ops[|ops| - 1].now;
            Get(Run(z, ops, p).queue, k) == Some(Rec(k, now, AddClamp(now, p.banTime), 0))
  {
    var front, op := ops[..|ops| - 1], ops[|ops| - 1];
    var y := Run(z, front, p);
    RunIsSound(z, front, p);
    ApplyOnKey(y, op, p, k);
    LastHitArms(z, ops, p, k);
    ArmingTouch(Counted(y.queue, k, op.now), op.now, p);
  }

  /** A ban armed at `since` holds at every later time before its deadline, whatever
      calls come in between, on this address or on others. */
  lemma {:induction false} BanHolds(z: Zone, ops: seq<Op>, p: Policy, k: Key, since: Time)
    requires Sound(z) && Forward(ops, since)
    requires Get(z.queue, k).Some? && Get(z.queue, k).value.bannedUntil >= AddClamp(since, p.banTime)
    requires forall i :: 0 <= i < |ops| ==> ops[i].now < AddClamp(since, p.banTime)
    ensures var r := Get(Run(z, ops, p).queue, k);
            r.Some? && r.value.bannedUntil >= AddClamp(since, p.banTime)
  {
    if ops != [] {
      var front, op := ops[..|ops| - 1], ops[|ops| - 1];
      BanHolds(z, front, p, k, since);
      RunIsSound(z, front, p);
      ApplyOnKey(Run(z, front, p), op, p, k);
    }
  }

  /** So an address that reaches the threshold is refused at every time before the
      deadline. */
  lemma OffenderIsRefused(z: Zone, ops: seq<Op>, later: seq<Op>, p: Policy, k: Key, now: Time)
    requires InWindow(z, ops, p, k) && Total(z, ops, p, k) == p.count
    requires ops[|ops| - 1].Hit? && ops[|ops| - 1].key == k
    requires Forward(later + [Check(k, now)], ops[|ops| - 1].now)
    requires now < AddClamp(ops[|ops| - 1].now, p.banTime)
    ensures IsBanned(Run(Run(z, ops, p), later, p), k, now).answer == Banned(true)
  {
    var since := ops[|ops| - 1].now;
    var all := later + [Check(k, now)];
    assert forall i :: 0 <= i < |later| ==> later[i] == all[i];
    assert all[|later|] == Check(k, now);
    EnoughHitsBan(z, ops, p, k);
    RunIsSound(z, ops, p);
    BanHolds(Run(z, ops, p), later, p, k, since);
  }

  // ---- a ban needs enough hits --------------------------------------------

  predicate Rolls(r: Rec, now: Time, window: nat) {
    now < r.windowStart || now - r.windowStart >= window
  }

  /** The zone after the first `n` calls of a run from the empty zone. */
  function After(ops: seq<Op>, p: Policy, n: nat): Zone
    requires n <= |ops|
  {
    Run(EmptyZone(), ops[..n], p)
  }

  lemma AfterNext(ops: seq<Op>, p: Policy, n: nat)
    requires n < |ops|
    ensures After(ops, p, n + 1) == Apply(After(ops, p, n), ops[n], p).zone
    ensures Sound(After(ops, p, n))
  {
    assert ops[..n + 1][..n] == ops[..n];
    RunIsSound(EmptyZone(), ops[..n], p);
  }

  /** Call `n` recorded a hit on `k`. */
  predicate RecordsAt(ops: seq<Op>, p: Policy, k: Key, n: nat) {
    && n < |ops| && ops[n].Hit? && ops[n].key == k
    && Apply(After(ops, p, n), ops[n], p).answer == Recorded(true)
  }

  /** ... and armed a ban. */
  predicate ArmsAt(ops: seq<Op>, p: Policy, k: Key, n: nat) {
    RecordsAt(ops, p, k, n) && Arms(Counted(After(ops, p, n).queue, k, ops[n].now), ops[n].now, p)
  }

  /** The calls whose hits the record of `k` holds after `n` calls: those recorded since
      it was created, last armed, or its window last rolled. */
  function Held(ops: seq<Op>, p: Policy, k: Key, n: nat): seq<nat>
    requires n <= |ops|
    decreases n, 1
  {
    if n == 0 then []
    else if RecordsAt(ops, p, k, n - 1) then
      if ArmsAt(ops, p, k, n - 1) then [] else Adding(ops, p, k, n - 1)
    else if Has(After(ops, p, n).queue, k) then Held(ops, p, k, n - 1)
    else []
  }

  /** What call `n`, a recorded hit, counts up to. */
  function Adding(ops: seq<Op>, p: Policy, k: Key, n: nat): seq<nat>
    requires n < |ops|
    decreases n, 2
  {
    var q := After(ops, p, n).queue;
    if !Has(q, k) || Rolls(q[IndexOf(q, k)], ops[n].now, p.window) then [n] else Held(ops, p, k, n) + [n]
  }

  /** Distinct recorded hits on `k`, in order, all in the window from `start`, and no
      ban armed from the first of them until call `n`. */
  ghost predicate Evidence(ops: seq<Op>, p: Policy, k: Key, hits: seq<nat>, start: Time, n: nat) {
    && (forall i :: 0 <= i < |hits| ==> RecordsAt(ops, p, k, hits[i]) && InWindowFrom(start, ops[hits[i]].now, p))
    && (forall i, j :: 0 <= i < j < |hits| ==> hits[i] < hits[j])
    && (forall i, a :: 0 <= i < |hits| && hits[i] <= a < n ==> !ArmsAt(ops, p, k, a))
  }

  predicate InWindowFrom(start: Time, t: Time, p: Policy) {
    start <= t && (t < start + p.window || t == start)
  }

  /** The record holds as many hits as the calls it stands for, fewer than the
      threshold. */
  ghost predicate HoldsEvidence(ops: seq<Op>, p: Policy, k: Key, n: nat)
    requires n <= |ops|
  {
    var r := Get(After(ops, p, n).queue, k);
    && (r.Some? ==> |Held(ops, p, k, n)| == r.value.hits < p.count)
    && (r.Some? ==> Evidence(ops, p, k, Held(ops, p, k, n), r.value.windowStart, n))
    && (forall i :: 0 <= i < |Held(ops, p, k, n)| ==> Held(ops, p, k, n)[i] < n)
  }

  /** The window a hit at `now` is counted in. */
  function WindowOf(q: seq<Rec>, k: Key, now: Time, p: Policy): Time {
    Basis(q, k, now, p).windowStart
  }

  lemma AddingIsEvidence(ops: seq<Op>, p: Policy, k: Key, n: nat)
    requires n < |ops| && RecordsAt(ops, p, k, n) && HoldsEvidence(ops, p, k, n)
    ensures var q, now := After(ops, p, n).queue, ops[n].now;
            && Evidence(ops, p, k, Adding(ops, p, k, n), WindowOf(q, k, now, p), n)
            && |Adding(ops, p, k, n)| == Bump(Roll(Retire(Counted(q, k, now), now), now, p.window)).hits
            && (forall i :: 0 <= i < |Adding(ops, p, k, n)| ==> Adding(ops, p, k, n)[i] <= n)
  {
    hide RecordsAt, ArmsAt, Held, After;
  }

  lemma HitOutcome(ops: seq<Op>, p: Policy, k: Key, n: nat)
    requires RecordsAt(ops, p, k, n)
    ensures Get(After(ops, p, n + 1).queue, k) == Some(Touch(Counted(After(ops, p, n).queue, k, ops[n].now), ops[n].now, p))
  {
    AfterNext(ops, p, n);
    ApplyOnKey(After(ops, p, n), ops[n], p, k);
  }

  /** A recorded hit: its record now stands for the calls it was added to. */
  lemma HitKeepsEvidence(ops: seq<Op>, p: Policy, k: Key, n: nat)
    requires 0 < p.count && n < |ops| && HoldsEvidence(ops, p, k, n) && RecordsAt(ops, p, k, n)
    ensures HoldsEvidence(ops, p, k, n + 1)
  {
    HitOutcome(ops, p, k, n);
    AddingIsEvidence(ops, p, k, n);
    var q, now := After(ops, p, n).queue, ops[n].now;
    var r := Counted(q, k, now);
    assert Held(ops, p, k, n + 1) == if ArmsAt(ops, p, k, n) then [] else Adding(ops, p, k, n);
    if ArmsAt(ops, p, k, n) {
      ArmingTouch(r, now, p);
      assert Evidence(ops, p, k, [], now, n + 1);
    } else {
      EvidenceExtends(ops, p, k, Adding(ops, p, k, n), WindowOf(q, k, now, p), n);
      TouchedWindow(q, k, now, p);
    }
    hide After, Apply, Evidence, WindowOf, Adding, Counted, RecordsAt, Get, ArmsAt;
  }

  lemma TouchedWindow(q: seq<Rec>, k: Key, now: Time, p: Policy)
    requires !Arms(Counted(q, k, now), now, p)
    ensures Touch(Counted(q, k, now), now, p).windowStart == WindowOf(q, k, now, p)
    ensures Touch(Counted(q, k, now), now, p).hits == Basis(q, k, now, p).hits + 1 < p.count
  {
  }

  lemma EvidenceExtends(ops: seq<Op>, p: Policy, k: Key, hits: seq<nat>, start: Time, n: nat)
    requires Evidence(ops, p, k, hits, start, n) && !ArmsAt(ops, p, k, n)
    ensures Evidence(ops, p, k, hits, start, n + 1)
  {
  }

  /** Any other call: the record is as it was, or is gone. */
  lemma OtherKeepsEvidence(ops: seq<Op>, p: Policy, k: Key, n: nat)
    requires n < |ops| && HoldsEvidence(ops, p, k, n) && !RecordsAt(ops, p, k, n)
    ensures HoldsEvidence(ops, p, k, n + 1)
  {
    AfterNext(ops, p, n);
    ApplyOnKey(After(ops, p, n), ops[n], p, k);
    hide Apply, IndexOf, Sound, Evidence, After;
    var r := Get(After(ops, p, n).queue, k);
    if r.Some? {
      EvidenceExtends(ops, p, k, Held(ops, p, k, n), r.value.windowStart, n);
    }
  }

  lemma NothingHeld(ops: seq<Op>, p: Policy, k: Key)
    ensures HoldsEvidence(ops, p, k, 0)
  {
    assert After(ops, p, 0) == EmptyZone();
  }

  lemma {:induction false} HitsAreBackedByCalls(ops: seq<Op>, p: Policy, k: Key, n: nat)
    requires 0 < p.count && n <= |ops|
    ensures HoldsEvidence(ops, p, k, n)
  {
    hide HoldsEvidence, RecordsAt;
    if n == 0 {
      NothingHeld(ops, p, k);
    } else {
      HitsAreBackedByCalls(ops, p, k, n - 1);
      if RecordsAt(ops, p, k, n - 1) {
        HitKeepsEvidence(ops, p, k, n - 1);
      } else {
        OtherKeepsEvidence(ops, p, k, n - 1);
      }
    }
  }

  /** Whenever a call arms a ban, `count` recorded hits on that address, ending with
      that call and with no ban armed among them, lie in one window: on every run,
      with the clock moving either way and records evicted in between. */
  lemma ArmingNeedsCountHits(ops: seq<Op>, p: Policy, k: Key, n: nat)
    requires 0 < p.count && ArmsAt(ops, p, k, n)
    ensures var hits := Adding(ops, p, k, n);
            && |hits| == p.count && hits[|hits| - 1] == n
            && Evidence(ops, p, k, hits, WindowOf(After(ops, p, n).queue, k, ops[n].now, p), n)
  {
    HitsAreBackedByCalls(ops, p, k, n);
    AddingIsEvidence(ops, p, k, n);
  }

  // ---- only a recent arming refuses ---------------------------------------

  /** Call `a` armed a ban until `until`, and no call armed one after it, among the first
      `n` calls. */
  ghost predicate ArmedBy(ops: seq<Op>, p: Policy, k: Key, a: nat, n: nat, until: Time) {
    && a < n <= |ops| && ArmsAt(ops, p, k, a) && until == AddClamp(ops[a].now, p.banTime)
    && forall b :: a < b < n ==> !ArmsAt(ops, p, k, b)
  }

  ghost predicate Armed(ops: seq<Op>, p: Policy, k: Key, n: nat, until: Time) {
    exists a: nat :: ArmedBy(ops, p, k, a, n, until)
  }

  lemma ArmedNow(ops: seq<Op>, p: Policy, k: Key, n: nat)
    requires n < |ops| && ArmsAt(ops, p, k, n)
    ensures Armed(ops, p, k, n + 1, AddClamp(ops[n].now, p.banTime))
  {
    hide ArmsAt;
    assert ArmedBy(ops, p, k, n, n + 1, AddClamp(ops[n].now, p.banTime));
  }

  lemma ArmedStill(ops: seq<Op>, p: Policy, k: Key, n: nat, until: Time)
    requires n < |ops| && !ArmsAt(ops, p, k, n) && Armed(ops, p, k, n, until)
    ensures Armed(ops, p, k, n + 1, until)
  {
    hide ArmsAt;
    var a: nat :| ArmedBy(ops, p, k, a, n, until);
    assert ArmedBy(ops, p, k, a, n + 1, until);
  }

  ghost predicate BanIsBacked(ops: seq<Op>, p: Policy, k: Key, n: nat)
    requires n <= |ops|
  {
    var r := Get(After(ops, p, n).queue, k);
    r.Some? && r.value.bannedUntil != 0 ==> Armed(ops, p, k, n, r.value.bannedUntil)
  }

  lemma TouchedBan(r: Rec, now: Time, p: Policy)
    ensures Touch(r, now, p).bannedUntil
         == if Arms(r, now, p) then AddClamp(now, p.banTime) else if r.bannedUntil <= now then 0 else r.bannedUntil
  {
  }

  lemma CountedBan(q: seq<Rec>, k: Key, now: Time)
    ensures Counted(q, k, now).bannedUntil != 0 ==> Get(q, k) == Some(Counted(q, k, now))
  {
  }

  lemma HitKeepsBacking(ops: seq<Op>, p: Policy, k: Key, n: nat)
    requires n < |ops| && BanIsBacked(ops, p, k, n) && RecordsAt(ops, p, k, n)
    ensures BanIsBacked(ops, p, k, n + 1)
  {
    hide After, RecordsAt, Touch, Arms, Get, Counted, AddClamp, Armed;
    HitOutcome(ops, p, k, n);
    var q := After(ops, p, n).queue;
    var r := Counted(q, k, ops[n].now);
    CountedBan(q, k, ops[n].now);
    TouchedBan(r, ops[n].now, p);
    if ArmsAt(ops, p, k, n) {
      ArmedNow(ops, p, k, n);
    } else if r.bannedUntil > ops[n].now {
      ArmedStill(ops, p, k, n, r.bannedUntil);
    }
  }

  lemma OtherKeepsBacking(ops: seq<Op>, p: Policy, k: Key, n: nat)
    requires n < |ops| && BanIsBacked(ops, p, k, n) && !RecordsAt(ops, p, k, n)
    ensures BanIsBacked(ops, p, k, n + 1)
  {
    hide After, Apply, Arms, Get, Sound, AddClamp, Touch, Live, Armed, IndexOf, DistinctKeys;
    AfterNext(ops, p, n);
    ApplyOnKey(After(ops, p, n), ops[n], p, k);
    var r := Get(After(ops, p, n).queue, k);
    if r.Some? && r.value.bannedUntil != 0 {
      ArmedStill(ops, p, k, n, r.value.bannedUntil);
    }
  }

  lemma NothingArmed(ops: seq<Op>, p: Policy, k: Key)
    ensures BanIsBacked(ops, p, k, 0)
  {
    assert After(ops, p, 0) == EmptyZone();
  }

  lemma {:induction false} BansAreBacked(ops: seq<Op>, p: Policy, k: Key, n: nat)
    requires n <= |ops|
    ensures BanIsBacked(ops, p, k, n)
  {
    hide BanIsBacked, RecordsAt;
    if n == 0 {
      NothingArmed(ops, p, k);
    } else {
      BansAreBacked(ops, p, k, n - 1);
      if RecordsAt(ops, p, k, n - 1) {
        HitKeepsBacking(ops, p, k, n - 1);
      } else {
        OtherKeepsBacking(ops, p, k, n - 1);
      }
    }
  }

  /** Whenever a check refuses an address, its last arming is less than one ban time old:
      on every run, with the clock moving either way. */
  lemma RefusalNeedsRecentArming(ops: seq<Op>, p: Policy, k: Key, n: nat) returns (a: nat)
    requires n < |ops| && ops[n].Check? && ops[n].key == k
    requires Apply(After(ops, p, n), ops[n], p).answer == Banned(true)
    ensures a < n && ArmsAt(ops, p, k, a) && ops[n].now < ops[a].now + p.banTime
    ensures forall b :: a < b < n ==> !ArmsAt(ops, p, k, b)
  {
    BansAreBacked(ops, p, k, n);
    var until := RefusedUntil(After(ops, p, n), k, ops[n].now);
    hide After, Apply, ArmsAt;
    a :| ArmedBy(ops, p, k, a, n, until);
  }

  lemma RefusedUntil(z: Zone, k: Key, now: Time) returns (until: Time)
    requires IsBanned(z, k, now).answer == Banned(true)
    ensures now < until && Get(z.queue, k).Some? && Get(z.queue, k).value.bannedUntil == until
  {
    until := Get(z.queue, k).value.bannedUntil;
  }
}
