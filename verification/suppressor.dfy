/** The reporter's local quota: a window per address, a cap per UTC day, both persisted. */
module Suppression {
  import opened Options

  type Ip = string

  const DAY: real := 86400.0

  /** The UTC day of a time, counted from the epoch. */
  function DayOf(t: real): int {
    (t / DAY).Floor
  }

  function DayStart(d: int): real {
    d as real * DAY
  }

  lemma DayBounds(t: real)
    ensures DayStart(DayOf(t)) <= t < DayStart(DayOf(t) + 1)
  {
  }

  lemma LaterDay(s: real, t: real)
    requires s <= t
    ensures DayOf(s) <= DayOf(t)
  {
  }

  datatype Limits = Limits(window: int, cap: int)

  datatype State = State(day: Option<int>, count: int, last: map<Ip, real>)

  datatype Answer = Allowed | DailyCap | Deduped

  function Fresh(): State {
    State(None, 0, map[])
  }

  function Rolled(s: State, now: real): State {
    if s.day == Some(DayOf(now)) then s else State(Some(DayOf(now)), 0, map[])
  }

  function Pruned(last: map<Ip, real>, now: real, limits: Limits): map<Ip, real> {
    map ip | ip in last && last[ip] >= now - limits.window as real :: last[ip]
  }

  function Ask(s: State, ip: Ip, now: real, limits: Limits): Answer {
    var r := Rolled(s, now);
    if r.count >= limits.cap then DailyCap
    else if ip in r.last && now - r.last[ip] < limits.window as real then Deduped
    else Allowed
  }

  function Note(s: State, ip: Ip, now: real, limits: Limits): State {
    var r := Rolled(s, now);
    State(r.day, r.count + 1, Pruned(r.last[ip := now], now, limits))
  }

  class Suppressor {
    const limits: Limits
    var day: Option<int>
    var count: int
    var last: map<Ip, real>
    /** The state file; None while there is none that can be read. */
    var file: Option<State>

    function Value(): State
      reads this
    {
      State(day, count, last)
    }

    constructor (limits: Limits, file: Option<State>)
      ensures this.limits == limits && this.file == file
      ensures Value() == if file.Some? then file.value else Fresh()
    {
      this.limits := limits;
      this.file := file;
      var s := if file.Some? then file.value else Fresh();
      day, count, last := s.day, s.count, s.last;
    }

    method RollDay(now: real)
      modifies this
      ensures Value() == Rolled(old(Value()), now) && file == old(file)
    {
      if Some(DayOf(now)) != day {
        day := Some(DayOf(now));
        count := 0;
        last := map[];
      }
    }

    method Prune(now: real)
      modifies this`last
      ensures last == Pruned(old(last), now, limits)
    {
      var cutoff := now - limits.window as real;
      last := map ip | ip in last && last[ip] >= cutoff :: last[ip];
    }

    method Allow(ip: Ip, now: real) returns (a: Answer)
      modifies this
      ensures a == Ask(old(Value()), ip, now, limits)
      ensures Value() == Rolled(old(Value()), now) && file == old(file)
    {
      RollDay(now);
      if count >= limits.cap {
        return DailyCap;
      }
      if ip in last && now - last[ip] < limits.window as real {
        return Deduped;
      }
      return Allowed;
    }

    /** `saves` says whether the state file could be replaced. */
    method Record(ip: Ip, now: real, saves: bool)
      modifies this
      ensures Value() == Note(old(Value()), ip, now, limits)
      ensures file == if saves then Some(Value()) else old(file)
    {
      RollDay(now);
      last := last[ip := now];
      count := count + 1;
      Prune(now);
      if saves {
        file := Some(Value());
      }
    }
  }

  // ---- the unpruned history -----------------------------------------------

  datatype Report = Report(ip: Ip, at: real)

  /** How many reports fall on a day. */
  function DayCount(h: seq<Report>, d: int): nat {
    if h == [] then 0
    else DayCount(h[..|h| - 1], d) + if DayOf(h[|h| - 1].at) == d then 1 else 0
  }

  /** When an address was last reported on a day. */
  function LastOn(h: seq<Report>, ip: Ip, d: int): Option<real> {
    if h == [] then None
    else
      var r := h[|h| - 1];
      if r.ip == ip && DayOf(r.at) == d then Some(r.at) else LastOn(h[..|h| - 1], ip, d)
  }

  /** What one answers who forgets nothing. */
  function Ideal(h: seq<Report>, ip: Ip, now: real, limits: Limits): Answer {
    var prev := LastOn(h, ip, DayOf(now));
    if DayCount(h, DayOf(now)) >= limits.cap then DailyCap
    else if prev.Some? && now - prev.value < limits.window as real then Deduped
    else Allowed
  }

  lemma {:induction false} LastOnFound(h: seq<Report>, ip: Ip, d: int) returns (i: nat)
    requires LastOn(h, ip, d).Some?
    ensures i < |h| && h[i] == Report(ip, LastOn(h, ip, d).value) && DayOf(h[i].at) == d
    ensures forall j :: i < j < |h| && h[j].ip == ip ==> DayOf(h[j].at) != d
  {
    i := |h| - 1;
    if !(h[i].ip == ip && DayOf(h[i].at) == d) {
      i := LastOnFound(h[..|h| - 1], ip, d);
    }
  }

  lemma {:induction false} LastOnMissing(h: seq<Report>, ip: Ip, d: int)
    requires LastOn(h, ip, d).None?
    ensures forall j :: 0 <= j < |h| && h[j].ip == ip ==> DayOf(h[j].at) != d
  {
    if h != [] {
      LastOnMissing(h[..|h| - 1], ip, d);
    }
  }

  lemma {:induction false} NothingOnADay(h: seq<Report>, d: int)
    requires forall i :: 0 <= i < |h| ==> DayOf(h[i].at) != d
    ensures DayCount(h, d) == 0 && forall ip :: LastOn(h, ip, d) == None
  {
    if h != [] {
      NothingOnADay(h[..|h| - 1], d);
    }
  }

  // ---- runs of the daemon -------------------------------------------------

  /** Calls, in the order they are made, and restarts of the process at any point. */
  datatype Op = Asked(ip: Ip, now: real) | Noted(ip: Ip, now: real, saved: bool) | Restart

  datatype Daemon = Daemon(memory: State, file: Option<State>)

  function Load(file: Option<State>): State {
    if file.Some? then file.value else Fresh()
  }

  function Step(d: Daemon, op: Op, limits: Limits): Daemon {
    match op
    case Asked(ip, now) => d.(memory := Rolled(d.memory, now))
    case Noted(ip, now, saved) =>
      var m := Note(d.memory, ip, now, limits);
      Daemon(m, if saved then Some(m) else d.file)
    case Restart => d.(memory := Load(d.file))
  }

  function Run(ops: seq<Op>, limits: Limits): Daemon {
    if ops == [] then Daemon(Fresh(), None) else Step(Run(ops[..|ops| - 1], limits), ops[|ops| - 1], limits)
  }

  function History(ops: seq<Op>): seq<Report> {
    if ops == [] then []
    else
      var op := ops[|ops| - 1];
      History(ops[..|ops| - 1]) + if op.Noted? then [Report(op.ip, op.now)] else []
  }

  /** The clock after a run that started at `from`. */
  function Clock(ops: seq<Op>, from: real): real {
    if ops == [] then from
    else if ops[|ops| - 1].Restart? then Clock(ops[..|ops| - 1], from)
    else ops[|ops| - 1].now
  }

  /** The clock never runs backwards. */
  predicate Timely(ops: seq<Op>, from: real) {
    ops == [] || (Timely(ops[..|ops| - 1], from)
                  && (ops[|ops| - 1].Restart? || ops[|ops| - 1].now >= Clock(ops[..|ops| - 1], from)))
  }

  /** The last record made it to the state file. */
  predicate InSync(ops: seq<Op>) {
    ops == [] || match ops[|ops| - 1]
                 case Asked(_, _) => InSync(ops[..|ops| - 1])
                 case Noted(_, _, saved) => saved
                 case Restart => true
  }

  /** No restart loses a record. */
  predicate SavedBeforeRestarts(ops: seq<Op>) {
    ops == [] || (SavedBeforeRestarts(ops[..|ops| - 1]) && (ops[|ops| - 1].Restart? ==> InSync(ops[..|ops| - 1])))
  }

  /** A state answers for a history up to clock `c`: it may be days behind, and it may
      have forgotten addresses whose window is over. */
  ghost predicate Tracks(s: State, h: seq<Report>, c: real, limits: Limits) {
    if s.day.None? then s == Fresh() && h == []
    else
      var d := s.day.value;
      && d <= DayOf(c) && (forall i :: 0 <= i < |h| ==> DayOf(h[i].at) <= d)
      && s.count == DayCount(h, d)
      && forall ip {:trigger LastOn(h, ip, d)} :: Remembers(s.last, ip, LastOn(h, ip, d), c, limits)
  }

  ghost predicate Remembers(last: map<Ip, real>, ip: Ip, at: Option<real>, c: real, limits: Limits) {
    if ip in last then at == Some(last[ip]) else at.None? || at.value < c - limits.window as real
  }

  lemma TracksLater(s: State, h: seq<Report>, c: real, c': real, limits: Limits)
    requires Tracks(s, h, c, limits) && c <= c'
    ensures Tracks(s, h, c', limits)
  {
  }

  lemma RolledTracks(s: State, h: seq<Report>, now: real, limits: Limits)
    requires Tracks(s, h, now, limits)
    ensures Tracks(Rolled(s, now), h, now, limits) && Rolled(s, now).day == Some(DayOf(now))
  {
    if s.day != Some(DayOf(now)) {
      NothingOnADay(h, DayOf(now));
    }
  }

  lemma NoteTracks(s: State, h: seq<Report>, ip: Ip, now: real, limits: Limits)
    requires Tracks(s, h, now, limits)
    ensures Tracks(Note(s, ip, now, limits), h + [Report(ip, now)], now, limits)
  {
    RolledTracks(s, h, now, limits);
    var r, h', d := Rolled(s, now), h + [Report(ip, now)], DayOf(now);
    assert h'[..|h'| - 1] == h;
    forall a {:trigger LastOn(h', a, d)}
      ensures Remembers(Note(s, ip, now, limits).last, a, LastOn(h', a, d), now, limits)
    {
      assert Remembers(r.last, a, LastOn(h, a, d), now, limits);
    }
  }

  lemma {:induction false} RunTracks(ops: seq<Op>, from: real, limits: Limits)
    requires Timely(ops, from) && SavedBeforeRestarts(ops)
    ensures Tracks(Run(ops, limits).memory, History(ops), Clock(ops, from), limits)
    ensures InSync(ops) ==> Tracks(Load(Run(ops, limits).file), History(ops), Clock(ops, from), limits)
  {
    if ops != [] {
      var front, op := ops[..|ops| - 1], ops[|ops| - 1];
      RunTracks(front, from, limits);
      var d, h, c := Run(front, limits), History(front), Clock(front, from);
      assert h + [] == h;
      hide Tracks, Rolled, Note;
      if !op.Restart? {
        TracksLater(d.memory, h, c, op.now, limits);
        if InSync(front) {
          TracksLater(Load(d.file), h, c, op.now, limits);
        }
      }
      if op.Asked? {
        RolledTracks(d.memory, h, op.now, limits);
      } else if op.Noted? {
        NoteTracks(d.memory, h, op.ip, op.now, limits);
      }
    }
  }

  /** The main law: pruned, rolled, persisted and reloaded at any point, the suppressor
      answers like one that forgets nothing. */
  lemma AnswersLikeFullHistory(ops: seq<Op>, from: real, ip: Ip, now: real, limits: Limits)
    requires Timely(ops, from) && SavedBeforeRestarts(ops) && now >= Clock(ops, from)
    ensures Ask(Run(ops, limits).memory, ip, now, limits) == Ideal(History(ops), ip, now, limits)
  {
    var s, h := Run(ops, limits).memory, History(ops);
    RunTracks(ops, from, limits);
    TracksLater(s, h, Clock(ops, from), now, limits);
    RolledTracks(s, h, now, limits);
    assert Remembers(Rolled(s, now).last, ip, LastOn(h, ip, DayOf(now)), now, limits);
  }

  /** A failed save goes unnoticed. If the process then restarts, the record is lost, and
      the address is allowed again: that differs from the full history unless there is
      no window to respect and the cap leaves room. */
  lemma UnsavedRecordIsForgotten(ip: Ip, now: real, limits: Limits)
    requires limits.cap > 0
    ensures var ops := [Noted(ip, now, false), Restart];
            && Timely(ops, now) && !SavedBeforeRestarts(ops)
            && Ask(Run(ops, limits).memory, ip, now, limits) == Allowed
            && (Ideal(History(ops), ip, now, limits) == Allowed <==> limits.window <= 0 && limits.cap > 1)
  {
    var noted := Noted(ip, now, false);
    var ops := [noted, Restart];
    assert ops[..1] == [noted] && [noted][..0] == [];
    ForgottenState(noted, limits);
    OneReport(ip, now, limits);
    hide Run, DayOf, Ideal;
    assert Timely([noted], now) && !InSync([noted]);
    assert History([noted]) == [Report(ip, now)];
    assert History(ops) == [Report(ip, now)];
  }

  lemma OneReport(ip: Ip, now: real, limits: Limits)
    ensures Ideal([Report(ip, now)], ip, now, limits) == Allowed <==> limits.window <= 0 && limits.cap > 1
  {
    hide DayOf;
    var h := [Report(ip, now)];
    assert h[..0] == [];
    assert DayCount(h, DayOf(now)) == 1 && LastOn(h, ip, DayOf(now)) == Some(now);
  }

  lemma ForgottenState(noted: Op, limits: Limits)
    requires noted.Noted? && !noted.saved
    ensures Run([noted, Restart], limits).memory == Fresh()
  {
    assert [noted, Restart][..1] == [noted] && [noted][..0] == [];
    hide Note;
    assert Run([], limits) == Daemon(Fresh(), None);
    assert Run([noted], limits) == Step(Run([], limits), noted, limits);
  }

  // ---- what a restart loses -----------------------------------------------

  /** Neither state is ahead of the clock. */
  predicate NotAhead(s: State, c: real) {
    s.day.Some? ==> s.day.value <= DayOf(c)
  }

  /** What memory and file say of the day of the clock: the file is behind in its count,
      or says the same in everything. */
  predicate FileLags(d: Daemon, c: real) {
    var f, m := Rolled(Load(d.file), c), Rolled(d.memory, c);
    && NotAhead(Load(d.file), c) && NotAhead(d.memory, c)
    && f.count <= m.count && (f.count == m.count ==> f == m)
  }

  lemma RolledLater(s: State, c: real, c': real)
    requires NotAhead(s, c) && c <= c'
    ensures NotAhead(s, c')
    ensures Rolled(s, c') == if DayOf(c) == DayOf(c') then Rolled(s, c) else State(Some(DayOf(c')), 0, map[])
  {
    LaterDay(c, c');
    hide DayOf;
  }

  lemma LagsLater(d: Daemon, c: real, c': real)
    requires FileLags(d, c) && c <= c'
    ensures FileLags(d, c')
  {
    RolledLater(Load(d.file), c, c');
    RolledLater(d.memory, c, c');
    hide Rolled, DayOf;
  }

  /** On every run, whatever is saved and wherever it is restarted. */
  lemma {:induction false} FileAlwaysLags(ops: seq<Op>, from: real, limits: Limits)
    requires Timely(ops, from)
    ensures FileLags(Run(ops, limits), Clock(ops, from))
  {
    if ops != [] {
      var front, op := ops[..|ops| - 1], ops[|ops| - 1];
      FileAlwaysLags(front, from, limits);
      if !op.Restart? {
        LagsLater(Run(front, limits), Clock(front, from), op.now);
      }
    }
  }

  /** Two states that cannot be told apart from now on: they say the same of today, or
      both are at the cap. */
  predicate Matches(s: State, s': State, c: real, limits: Limits) {
    && NotAhead(s, c) && NotAhead(s', c)
    && (Rolled(s, c) == Rolled(s', c)
        || (Rolled(s, c).count >= limits.cap && Rolled(s', c).count >= limits.cap))
  }

  lemma MatchesLater(s: State, s': State, c: real, c': real, limits: Limits)
    requires Matches(s, s', c, limits) && c <= c'
    ensures Matches(s, s', c', limits)
  {
    RolledLater(s, c, c');
    RolledLater(s', c, c');
    hide Rolled, DayOf;
  }

  /** Asking and recording keep two such states so. */
  lemma MatchesAfter(s: State, s': State, ip: Ip, now: real, limits: Limits)
    requires Matches(s, s', now, limits)
    ensures Ask(s, ip, now, limits) == Ask(s', ip, now, limits)
    ensures Matches(Rolled(s, now), Rolled(s', now), now, limits)
    ensures Matches(Note(s, ip, now, limits), Note(s', ip, now, limits), now, limits)
  {
    hide DayOf, Pruned;
  }

  /** One more call. */
  lemma Then(ops: seq<Op>, op: Op, from: real, limits: Limits)
    ensures Run(ops + [op], limits) == Step(Run(ops, limits), op, limits)
    ensures Clock(ops + [op], from) == if op.Restart? then Clock(ops, from) else op.now
    ensures Timely(ops + [op], from) <==> Timely(ops, from) && (op.Restart? || op.now >= Clock(ops, from))
    ensures SavedBeforeRestarts(ops + [op]) <==> SavedBeforeRestarts(ops) && (op.Restart? ==> InSync(ops))
  {
    hide Step, InSync;
    assert (ops + [op])[..|ops|] == ops;
  }

  /** The same calls keep two daemons so, memory and file. */
  lemma {:induction false} RunsMatch(a: seq<Op>, b: seq<Op>, more: seq<Op>, from: real, limits: Limits)
    requires Timely(a + more, from) && Clock(a, from) == Clock(b, from)
    requires Matches(Run(a, limits).memory, Run(b, limits).memory, Clock(a, from), limits)
    requires Matches(Load(Run(a, limits).file), Load(Run(b, limits).file), Clock(a, from), limits)
    ensures Clock(a + more, from) == Clock(b + more, from)
    ensures Matches(Run(a + more, limits).memory, Run(b + more, limits).memory, Clock(a + more, from), limits)
    ensures Matches(Load(Run(a + more, limits).file), Load(Run(b + more, limits).file), Clock(a + more, from), limits)
  {
    hide Matches, Rolled, Note, Run, Clock, Timely;
    if more == [] {
      assert a + more == a && b + more == b;
    } else {
      var front, op := more[..|more| - 1], more[|more| - 1];
      assert a + more == a + front + [op] && b + more == b + front + [op];
      Then(a + front, op, from, limits);
      Then(b + front, op, from, limits);
      RunsMatch(a, b, front, from, limits);
      var d, d', c := Run(a + front, limits), Run(b + front, limits), Clock(a + front, from);
      if !op.Restart? {
        MatchesLater(d.memory, d'.memory, c, op.now, limits);
        MatchesLater(Load(d.file), Load(d'.file), c, op.now, limits);
        MatchesAfter(d.memory, d'.memory, op.ip, op.now, limits);
      }
    }
  }

  /** The file holds as many of today's records as the memory, or is at the cap itself. */
  predicate FileSuffices(ops: seq<Op>, from: real, limits: Limits) {
    var d, c := Run(ops, limits), Clock(ops, from);
    || Rolled(Load(d.file), c).count == Rolled(d.memory, c).count
    || Rolled(Load(d.file), c).count >= limits.cap
  }

  /** A restart after `ops` changes no answer after `more`. */
  ghost predicate RestartUnseen(ops: seq<Op>, more: seq<Op>, from: real, limits: Limits) {
    forall ip, now :: now >= Clock(ops + more, from) ==>
      Ask(Run(ops + [Restart] + more, limits).memory, ip, now, limits)
      == Ask(Run(ops + more, limits).memory, ip, now, limits)
  }

  lemma OneRestart(ops: seq<Op>, from: real, limits: Limits)
    ensures Run(ops + [Restart], limits) == Run(ops, limits).(memory := Load(Run(ops, limits).file))
    ensures Clock(ops + [Restart], from) == Clock(ops, from)
  {
    Then(ops, Restart, from, limits);
  }

  lemma SufficientFileHidesRestart(ops: seq<Op>, more: seq<Op>, from: real, limits: Limits)
    requires Timely(ops, from) && Timely(ops + more, from) && FileSuffices(ops, from, limits)
    ensures RestartUnseen(ops, more, from, limits)
  {
    var d, c := Run(ops, limits), Clock(ops, from);
    FileAlwaysLags(ops, from, limits);
    OneRestart(ops, from, limits);
    assert Matches(d.memory, Load(d.file), c, limits) && Matches(Load(d.file), Load(d.file), c, limits);
    hide Run, Clock, Timely, Matches, FileLags, FileSuffices;
    RunsMatch(ops, ops + [Restart], more, from, limits);
    var s, s' := Run(ops + more, limits).memory, Run(ops + [Restart] + more, limits).memory;
    forall ip, now | now >= Clock(ops + more, from)
      ensures Ask(s', ip, now, limits) == Ask(s, ip, now, limits)
    {
      MatchesLater(s, s', Clock(ops + more, from), now, limits);
      MatchesAfter(s, s', ip, now, limits);
    }
  }

  /** `n` saved records of one address at one time. */
  function Burst(n: nat, now: real): seq<Op> {
    if n == 0 then [] else Burst(n - 1, now) + [Noted("192.0.2.1", now, true)]
  }

  lemma {:induction false} BurstCounts(ops: seq<Op>, n: nat, from: real, now: real, limits: Limits)
    requires Timely(ops, from) && now >= Clock(ops, from)
    ensures Timely(ops + Burst(n, now), from) && now >= Clock(ops + Burst(n, now), from)
    ensures SavedBeforeRestarts(ops) ==> SavedBeforeRestarts(ops + Burst(n, now))
    ensures Rolled(Run(ops + Burst(n, now), limits).memory, now).count == Rolled(Run(ops, limits).memory, now).count + n
  {
    hide DayOf, Pruned, Run, Clock, Timely, SavedBeforeRestarts;
    if n == 0 {
      assert ops + Burst(0, now) == ops;
    } else {
      BurstCounts(ops, n - 1, from, now, limits);
      var front, op := ops + Burst(n - 1, now), Noted("192.0.2.1", now, true);
      assert ops + Burst(n, now) == front + [op];
      Then(front, op, from, limits);
    }
  }

  /** If the file lacks some of today's records and is below the cap, saved records that
      fill the day for the one do not fill it for the other. */
  lemma LaggingFileShowsRestart(ops: seq<Op>, from: real, limits: Limits) returns (more: seq<Op>)
    requires Timely(ops, from) && !FileSuffices(ops, from, limits)
    ensures Timely(ops + more, from) && !RestartUnseen(ops, more, from, limits)
    ensures SavedBeforeRestarts(ops) ==> SavedBeforeRestarts(ops + more)
  {
    var d, c := Run(ops, limits), Clock(ops, from);
    FileAlwaysLags(ops, from, limits);
    OneRestart(ops, from, limits);
    var room := limits.cap - Rolled(d.memory, c).count;
    var n: nat := if room > 0 then room else 0;
    more := Burst(n, c);
    BurstCounts(ops, n, from, c, limits);
    BurstCounts(ops + [Restart], n, from, c, limits);
    hide Run, Clock, Timely, Rolled, Burst;
    var s, s' := Run(ops + more, limits).memory, Run(ops + [Restart] + more, limits).memory;
    assert Ask(s, "192.0.2.1", c, limits) == DailyCap && Ask(s', "192.0.2.1", c, limits) != DailyCap;
  }

  /** Exactly when a restart resets nothing: no later calls, restarted again or not, are
      answered otherwise than without it, if and only if the state file holds as many of
      the day's records as the memory, or is at the cap. */
  lemma RestartIsUnseenIffFileSuffices(ops: seq<Op>, from: real, limits: Limits)
    requires Timely(ops, from)
    ensures FileSuffices(ops, from, limits)
            <==> forall more :: Timely(ops + more, from) ==> RestartUnseen(ops, more, from, limits)
  {
    hide FileSuffices, RestartUnseen, Timely, Clock;
    if FileSuffices(ops, from, limits) {
      forall more | Timely(ops + more, from)
        ensures RestartUnseen(ops, more, from, limits)
      {
        SufficientFileHidesRestart(ops, more, from, limits);
      }
    } else {
      var more := LaggingFileShowsRestart(ops, from, limits);
    }
  }

  /** After a restart the daemon still answers from everything it ever recorded. */
  ghost predicate RestartForgetsNothing(ops: seq<Op>, more: seq<Op>, from: real, limits: Limits) {
    forall ip, now :: now >= Clock(ops + more, from) ==>
      Ask(Run(ops + [Restart] + more, limits).memory, ip, now, limits) == Ideal(History(ops + more), ip, now, limits)
  }

  lemma ForgetsNothingIffUnseen(ops: seq<Op>, more: seq<Op>, from: real, limits: Limits)
    requires Timely(ops + more, from) && SavedBeforeRestarts(ops + more)
    ensures RestartForgetsNothing(ops, more, from, limits) <==> RestartUnseen(ops, more, from, limits)
  {
    hide Run, Clock, Timely, SavedBeforeRestarts, History, Ideal, Ask;
    forall ip, now | now >= Clock(ops + more, from)
      ensures Ask(Run(ops + more, limits).memory, ip, now, limits) == Ideal(History(ops + more), ip, now, limits)
    {
      AnswersLikeFullHistory(ops + more, from, ip, now, limits);
    }
  }

  /** The same condition for the full history, where no other restart loses a record. */
  lemma HistorySurvivesRestartIffFileSuffices(ops: seq<Op>, from: real, limits: Limits)
    requires Timely(ops, from) && SavedBeforeRestarts(ops)
    ensures FileSuffices(ops, from, limits)
            <==> forall more :: Timely(ops + more, from) && SavedBeforeRestarts(ops + more) ==>
                   RestartForgetsNothing(ops, more, from, limits)
  {
    hide FileSuffices, RestartUnseen, RestartForgetsNothing, Timely, SavedBeforeRestarts, Clock;
    if FileSuffices(ops, from, limits) {
      forall more | Timely(ops + more, from) && SavedBeforeRestarts(ops + more)
        ensures RestartForgetsNothing(ops, more, from, limits)
      {
        SufficientFileHidesRestart(ops, more, from, limits);
        ForgetsNothingIffUnseen(ops, more, from, limits);
      }
    } else {
      var more := LaggingFileShowsRestart(ops, from, limits);
      ForgetsNothingIffUnseen(ops, more, from, limits);
    }
  }

  // ---- what the reporter's discipline gives -------------------------------

  /** Every record follows a call that allowed it, at the same time. */
  predicate Gated(ops: seq<Op>, limits: Limits) {
    ops == [] || (Gated(ops[..|ops| - 1], limits)
                  && var op := ops[|ops| - 1];
                     op.Noted? ==> Ask(Run(ops[..|ops| - 1], limits).memory, op.ip, op.now, limits) == Allowed)
  }

  /** Times are in order, and none is later than `c`. */
  ghost predicate Chronological(h: seq<Report>, c: real) {
    && (forall i :: 0 <= i < |h| ==> h[i].at <= c)
    && (forall i, j :: 0 <= i < j < |h| ==> h[i].at <= h[j].at)
  }

  /** Two reports of one address on one day are a window apart. */
  ghost predicate SpacedWithinDays(h: seq<Report>, limits: Limits) {
    forall i, j :: 0 <= i < j < |h| && h[i].ip == h[j].ip && DayOf(h[i].at) == DayOf(h[j].at) ==>
      h[j].at - h[i].at >= limits.window as real
  }

  ghost predicate WithinCap(h: seq<Report>, limits: Limits) {
    forall d :: DayCount(h, d) <= if limits.cap >= 0 then limits.cap else 0
  }

  lemma {:induction false} HistoryIsChronological(ops: seq<Op>, from: real)
    requires Timely(ops, from)
    ensures Chronological(History(ops), Clock(ops, from))
  {
    if ops != [] {
      HistoryIsChronological(ops[..|ops| - 1], from);
    }
  }

  /** One more allowed report keeps both quotas. */
  lemma AllowedKeepsQuotas(h: seq<Report>, ip: Ip, now: real, limits: Limits)
    requires Chronological(h, now) && SpacedWithinDays(h, limits) && WithinCap(h, limits)
    requires Ideal(h, ip, now, limits) == Allowed
    ensures SpacedWithinDays(h + [Report(ip, now)], limits) && WithinCap(h + [Report(ip, now)], limits)
  {
    var h', d := h + [Report(ip, now)], DayOf(now);
    assert h'[..|h'| - 1] == h;
    if LastOn(h, ip, d).Some? {
      var i := LastOnFound(h, ip, d);
    } else {
      LastOnMissing(h, ip, d);
    }
  }

  /** A day never sees more reports than the cap, and never two of one address closer
      than the window, through any restarts. */
  lemma {:induction false} QuotasHold(ops: seq<Op>, from: real, limits: Limits)
    requires Timely(ops, from) && SavedBeforeRestarts(ops) && Gated(ops, limits)
    ensures WithinCap(History(ops), limits) && SpacedWithinDays(History(ops), limits)
  {
    if ops != [] {
      var front, op := ops[..|ops| - 1], ops[|ops| - 1];
      QuotasHold(front, from, limits);
      if op.Noted? {
        AnswersLikeFullHistory(front, from, op.ip, op.now, limits);
        HistoryIsChronological(front, from);
        AllowedKeepsQuotas(History(front), op.ip, op.now, limits);
      } else {
        assert History(ops) == History(front);
      }
    }
  }

  // ---- the quotas, spelled out --------------------------------------------

  /** A day is 86400 seconds of UTC. */
  lemma DaysHaveTheirSeconds(t: real, d: int)
    ensures DayOf(t) == d <==> d as real * 86400.0 <= t < (d + 1) as real * 86400.0
  {
  }

  /** Fewer reports than the cap on the day of `now`, and on that day none of the address
      less than a window ago. */
  ghost predicate QuotasPermit(h: seq<Report>, ip: Ip, now: real, limits: Limits) {
    && DayCount(h, DayOf(now)) < limits.cap
    && forall i :: 0 <= i < |h| && h[i].ip == ip && DayOf(h[i].at) == DayOf(now) ==>
         now - h[i].at >= limits.window as real
  }

  lemma AllowedIffQuotasPermit(h: seq<Report>, ip: Ip, now: real, limits: Limits)
    requires Chronological(h, now)
    ensures Ideal(h, ip, now, limits) == Allowed <==> QuotasPermit(h, ip, now, limits)
  {
    hide DayOf;
    var d := DayOf(now);
    if LastOn(h, ip, d).Some? {
      var i := LastOnFound(h, ip, d);
    } else {
      LastOnMissing(h, ip, d);
    }
  }

  // ---- midnight -----------------------------------------------------------

  /** A report of the address is closer than the window, whatever the day. */
  ghost predicate Recent(h: seq<Report>, ip: Ip, now: real, limits: Limits) {
    exists i :: 0 <= i < |h| && h[i].ip == ip && now - h[i].at < limits.window as real
  }

  /** The window as documented: it takes no notice of midnight. */
  ghost function Rolling(h: seq<Report>, ip: Ip, now: real, limits: Limits): Answer {
    if DayCount(h, DayOf(now)) >= limits.cap then DailyCap
    else if Recent(h, ip, now, limits) then Deduped
    else Allowed
  }

  /** The window does not reach back past the start of the UTC day. */
  predicate WindowWithinDay(now: real, limits: Limits) {
    limits.window <= 0 || limits.cap <= 0 || now - DayStart(DayOf(now)) >= limits.window as real
  }

  lemma AgreesWithinDay(h: seq<Report>, ip: Ip, now: real, limits: Limits)
    requires WindowWithinDay(now, limits) && Chronological(h, now)
    ensures Ideal(h, ip, now, limits) == Rolling(h, ip, now, limits)
  {
    var d := DayOf(now);
    if LastOn(h, ip, d).Some? {
      var i := LastOnFound(h, ip, d);
    } else {
      LastOnMissing(h, ip, d);
    }
    if Recent(h, ip, now, limits) && limits.cap > 0 {
      var i :| 0 <= i < |h| && h[i].ip == ip && now - h[i].at < limits.window as real;
      DayBounds(h[i].at);
      DayBounds(now);
      LaterDay(h[i].at, now);
      assert DayOf(h[i].at) == d;
    }
  }

  /** Any address reported just before midnight, and asked about just after. */
  lemma PartsAcrossMidnight(now: real, ip: Ip, limits: Limits) returns (h: seq<Report>)
    requires !WindowWithinDay(now, limits)
    ensures Chronological(h, now) && Ideal(h, ip, now, limits) == Allowed && Rolling(h, ip, now, limits) == Deduped
  {
    var midnight := DayStart(DayOf(now));
    DayBounds(now);
    var at := (now - limits.window as real + midnight) / 2.0;
    h := [Report(ip, at)];
    DayBounds(at);
    assert DayOf(at) != DayOf(now);
    NothingOnADay(h, DayOf(now));
    assert h[0].ip == ip && now - h[0].at < limits.window as real;
  }

  /** The day roll forgets the addresses too. So the code keeps the documented window
      exactly when that window does not reach back past midnight, for every address. */
  lemma WindowIsKeptIffWithinDay(now: real, ip: Ip, limits: Limits)
    ensures WindowWithinDay(now, limits) <==>
            forall h :: Chronological(h, now) ==> Ideal(h, ip, now, limits) == Rolling(h, ip, now, limits)
  {
    if WindowWithinDay(now, limits) {
      forall h | Chronological(h, now)
        ensures Ideal(h, ip, now, limits) == Rolling(h, ip, now, limits)
      {
        AgreesWithinDay(h, ip, now, limits);
      }
    } else {
      var h := PartsAcrossMidnight(now, ip, limits);
    }
  }
}
