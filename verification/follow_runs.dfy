/** Whole runs of the daemon: nginx appends, logrotate renames, the process polls, is
    stopped and started again, in any order. */
module FollowRuns {
  import opened Options
  import opened Suppression
  import opened Sending
  import opened Following

  /** `Name` is what the path is made to name, a new empty file if there was none.
      `Stop` ends the process, with or without its last save, and starts the next one. */
  datatype Event =
    | Append(inode: Inode, lines: seq<Line>)
    | Name(path: Option<Inode>)
    | Truncate(inode: Inode)
    | Poll(inputs: Inputs)
    | Stop(graceful: bool)

  /** A report that was sent, when, and what came back. */
  datatype Attempt = Attempt(ip: Ip, at: real, reply: Reply)

  /** A line handed to the line processor: by which process and which opening of a file,
      whether the process stepped past it, when, until when it then stays silent, and the
      report that was sent for the line, if any. */
  datatype Call = Call(life: nat, session: nat, inode: Inode, index: nat, done: bool, at: real, until: real,
                       report: Option<Attempt>)

  /** The world and the process, and what has happened so far. */
  datatype System = System(world: World, process: Process, life: nat, session: nat,
                           calls: seq<Call>, ops: seq<Op>, cut: set<Inode>)

  function Start(): System {
    System(World(map[], None), Process(Begin(None), Desk(Daemon(Fresh(), None), Cooldown(0.0, 0))), 0, 0, [], [], {})
  }

  function Opening(s: System): nat {
    if s.process.tail.file.None? && s.world.path.Some? then s.session + 1 else s.session
  }

  function Tried(k: Desk, line: Line, x: Inputs, limits: Limits): Option<Attempt> {
    if Sends(k, line, x.sentAt, limits) then Some(Attempt(line.value, x.sentAt, x.reply)) else None
  }

  function Polled(s: System, x: Inputs, limits: Limits): System {
    var seen := Sees(s.process, s.world, x.now);
    var next := Turn(s.process, s.world, x, limits);
    var desk, line := s.process.desk, LineAt(s.world, seen);
    var r := s.(process := next, session := Opening(s));
    if seen.SawLine? then
      var done := Settles(desk, line, x.sentAt, x.reply, limits);
      r.(calls := s.calls + [Call(s.life, r.session, seen.inode, seen.index, done, x.now, next.desk.cool.until,
                                  Tried(desk, line, x, limits))],
         ops := s.ops + Calls(desk, line, x.sentAt, x.reply, x.saves, limits))
    else r
  }

  function Stopped(s: System, graceful: bool): System {
    var t, sup := s.process.tail, s.process.desk.sup;
    var place := if graceful && t.file.Some? then Saved(t).place else t.place;
    s.(process := Process(Begin(place), Desk(Daemon(Load(sup.file), sup.file), Cooldown(0.0, 0))),
       life := s.life + 1, ops := s.ops + [Restart])
  }

  function Step(s: System, e: Event, limits: Limits): System {
    match e
    case Append(i, lines) =>
      if i in s.world.files then s.(world := s.world.(files := s.world.files[i := s.world.files[i] + lines])) else s
    case Name(None) => s.(world := s.world.(path := None))
    case Name(Some(i)) => s.(world := World(s.world.files[i := Content(s.world, i)], Some(i)))
    case Truncate(i) => s.(world := s.world.(files := s.world.files[i := []]), cut := s.cut + {i})
    case Poll(x) => Polled(s, x, limits)
    case Stop(graceful) => Stopped(s, graceful)
  }

  function Run(events: seq<Event>, limits: Limits): System {
    if events == [] then Start() else Step(Run(events[..|events| - 1], limits), events[|events| - 1], limits)
  }

  // ---- order --------------------------------------------------------------

  /** `d` may follow `c`: within one opening, the next line if `c` is settled, else the
      same line again; within one process, not before the cooldown that `c` left. */
  predicate Follows(c: Call, d: Call) {
    && (c.session == d.session ==> d.inode == c.inode && d.index == c.index + if c.done then 1 else 0)
    && (c.life == d.life ==> d.at >= c.until)
    && c.session <= d.session && c.life <= d.life
  }

  ghost predicate InOrder(calls: seq<Call>) {
    forall j :: 0 <= j < |calls| - 1 ==> Follows(calls[j], calls[j + 1])
  }

  /** The process stands where its last call left it. */
  ghost predicate StandsAfter(s: System) {
    s.calls != [] ==>
      var c, p := s.calls[|s.calls| - 1], s.process;
      && c.session <= s.session && c.life <= s.life
      && (c.session == s.session && p.tail.file.Some? ==>
            p.tail.file == Some(c.inode) && p.tail.pos == c.index + if c.done then 1 else 0)
      && (c.life == s.life ==> p.desk.cool.until == c.until)
  }

  lemma PollKeepsOrder(s: System, x: Inputs, limits: Limits)
    requires InOrder(s.calls) && StandsAfter(s)
    ensures InOrder(Polled(s, x, limits).calls) && StandsAfter(Polled(s, x, limits))
  {
    hide Settles, AfterLine, Calls;
  }

  /** Lines of one opening are handed on in order, each again until it is settled, and
      never while a cooldown lasts. */
  lemma {:induction false} LinesInOrder(events: seq<Event>, limits: Limits)
    ensures InOrder(Run(events, limits).calls) && StandsAfter(Run(events, limits))
  {
    if events != [] {
      var front, e := events[..|events| - 1], events[|events| - 1];
      LinesInOrder(front, limits);
      if e.Poll? {
        PollKeepsOrder(Run(front, limits), e.inputs, limits);
      }
    }
  }

  // ---- settling -----------------------------------------------------------

  ghost predicate Settled(calls: seq<Call>, i: Inode, k: nat) {
    exists j :: 0 <= j < |calls| && calls[j].inode == i && calls[j].index == k && calls[j].done
  }

  ghost predicate SettledTo(calls: seq<Call>, i: Inode, n: nat) {
    forall k :: 0 <= k < n ==> Settled(calls, i, k)
  }

  /** A place in an append-only file has settled lines alone behind it. */
  ghost predicate Safe(s: System, i: Inode, n: nat) {
    i !in s.cut ==> i in s.world.files && n <= |s.world.files[i]| && SettledTo(s.calls, i, n)
  }

  ghost predicate Behind(s: System) {
    var t := s.process.tail;
    && (s.world.path.Some? ==> s.world.path.value in s.world.files)
    && (t.file.Some? ==> t.saved == t.file && t.pos == t.offset)
    && (t.saved.Some? ==> Safe(s, t.saved.value, t.offset))
    && (t.place.Some? ==> Safe(s, t.place.value.inode, t.place.value.offset))
  }

  lemma SettledStays(calls: seq<Call>, more: seq<Call>, i: Inode, n: nat)
    requires SettledTo(calls, i, n)
    ensures SettledTo(calls + more, i, n)
  {
    forall k | 0 <= k < n
      ensures Settled(calls + more, i, k)
    {
      assert Settled(calls, i, k);
      var j :| 0 <= j < |calls| && calls[j].inode == i && calls[j].index == k && calls[j].done;
      assert (calls + more)[j] == calls[j];
    }
  }

  lemma OneMoreSettled(calls: seq<Call>, c: Call)
    requires SettledTo(calls, c.inode, c.index) && c.done
    ensures SettledTo(calls + [c], c.inode, c.index + 1)
  {
    SettledStays(calls, [c], c.inode, c.index);
    assert (calls + [c])[|calls|] == c;
  }

  lemma SafeStays(s: System, s': System, i: Inode, n: nat)
    requires Safe(s, i, n) && s'.world == s.world && s'.cut == s.cut
    requires s.calls <= s'.calls
    ensures Safe(s', i, n)
  {
    assert s'.calls == s.calls + s'.calls[|s.calls|..];
    if i !in s.cut {
      SettledStays(s.calls, s'.calls[|s.calls|..], i, n);
    }
  }

  lemma SafeInWorld(s: System, s': System, i: Inode, n: nat)
    requires Safe(s, i, n) && s'.calls == s.calls && s.cut <= s'.cut
    requires forall j :: j in s.world.files && j !in s'.cut ==> j in s'.world.files && s.world.files[j] <= s'.world.files[j]
    ensures Safe(s', i, n)
  {
  }

  lemma OpenedIsBehind(s: System)
    requires Behind(s)
    ensures var t := Opened(s.process.tail, s.world);
            && t.place == s.process.tail.place && t.eofs == s.process.tail.eofs
            && (t.file.None? ==> t == s.process.tail)
            && (t.file.Some? ==> t.saved == t.file && t.pos == t.offset && Safe(s, t.file.value, t.offset))
  {
  }

  /** A poll that reads a line: settled, it is behind the new place. */
  lemma LineKeepsBehind(s: System, x: Inputs, limits: Limits)
    requires Behind(s) && Sees(s.process, s.world, x.now).SawLine?
    ensures Behind(Polled(s, x, limits))
  {
    OpenedIsBehind(s);
    var t, s' := Opened(s.process.tail, s.world), Polled(s, x, limits);
    var c := s'.calls[|s.calls|];
    hide Settles, AfterLine, Calls, Opened, SettledTo;
    SafeStays(s, s', c.inode, c.index);
    if t.place.Some? {
      SafeStays(s, s', t.place.value.inode, t.place.value.offset);
    }
    if c.done && c.inode !in s.cut {
      OneMoreSettled(s.calls, c);
    }
  }

  lemma PollKeepsBehind(s: System, x: Inputs, limits: Limits)
    requires Behind(s)
    ensures Behind(Polled(s, x, limits))
  {
    if Sees(s.process, s.world, x.now).SawLine? {
      LineKeepsBehind(s, x, limits);
    } else {
      OpenedIsBehind(s);
      var t, s' := Opened(s.process.tail, s.world), Polled(s, x, limits);
      hide Opened, SettledTo;
      if t.place.Some? {
        SafeStays(s, s', t.place.value.inode, t.place.value.offset);
      }
      if t.file.Some? {
        SafeStays(s, s', t.file.value, t.offset);
      } else if t.saved.Some? {
        SafeStays(s, s', t.saved.value, t.offset);
      }
    }
  }

  lemma StepKeepsBehind(s: System, e: Event, limits: Limits)
    requires Behind(s)
    ensures Behind(Step(s, e, limits))
  {
    var t, s' := s.process.tail, Step(s, e, limits);
    if e.Poll? {
      PollKeepsBehind(s, e.inputs, limits);
    } else {
      hide SettledTo;
      if t.saved.Some? {
        SafeInWorld(s, s', t.saved.value, t.offset);
      }
      if t.place.Some? {
        SafeInWorld(s, s', t.place.value.inode, t.place.value.offset);
      }
    }
  }

  /** On every run: what is behind the current place, or behind the saved one, in a file
      that is never truncated, has been settled. A crash repeats lines but skips none. */
  lemma {:induction false} PlacesAreBehindSettledLines(events: seq<Event>, limits: Limits)
    ensures Behind(Run(events, limits))
  {
    if events != [] {
      PlacesAreBehindSettledLines(events[..|events| - 1], limits);
      StepKeepsBehind(Run(events[..|events| - 1], limits), events[|events| - 1], limits);
    }
  }

  // ---- checkpoints and restarts -------------------------------------------

  /** After a poll that settled a line, or found none, the saved place is the current one
      or was saved less than two seconds ago. */
  lemma PlaceIsRecent(s: System, x: Inputs, limits: Limits)
    requires Sees(s.process, s.world, x.now).SawLine? ==>
               Settles(s.process.desk, LineAt(s.world, Sees(s.process, s.world, x.now)), x.sentAt, x.reply, limits)
    ensures var t := Polled(s, x, limits).process.tail;
            t.file.Some? && !Sees(s.process, s.world, x.now).Nothing? ==>
              t.place == Some(Place(t.offset, t.file.value)) || x.savedAt - t.lastSave < 2.0
  {
    hide Settles, AfterLine, Calls;
  }

  /** Where the next process takes up a file that the path still names: behind settled
      lines, and exactly where this one stood if and only if it was stopped gracefully, or
      had just saved its place, or stood at the top of a file with no place saved. */
  lemma RestartResumesInPlaceIffSaved(s: System, graceful: bool, i: Inode)
    requires Behind(s) && s.process.tail.file == Some(i) == s.world.path && i !in s.cut
    ensures var t, s' := s.process.tail, Stopped(s, graceful);
            var pos := Opened(s'.process.tail, s'.world).pos;
            && Safe(s', i, pos)
            && (pos == t.pos <==> graceful || t.place == Some(Place(t.pos, i))
                                  || (t.pos == 0 && (t.place.None? || t.place.value.inode != i)))
  {
  }

  // ---- rotation -----------------------------------------------------------

  /** What the `k`-th event of a run saw. */
  function SightAt(events: seq<Event>, k: nat, limits: Limits): Sight
    requires k < |events|
  {
    var s := Run(events[..k], limits);
    if events[k].Poll? then Sees(s.process, s.world, events[k].inputs.now) else Nothing
  }

  /** The `a`-th event was an empty read of a file the path no longer named, and no line
      has been read since. */
  ghost predicate QuietSince(events: seq<Event>, a: nat, limits: Limits) {
    && a < |events| && SightAt(events, a, limits).EmptyAway?
    && forall k :: a < k < |events| ==> !SightAt(events, k, limits).SawLine?
  }

  lemma QuietStill(events: seq<Event>, e: Event, a: nat, limits: Limits)
    requires QuietSince(events, a, limits) && !SightAt(events + [e], |events|, limits).SawLine?
    ensures QuietSince(events + [e], a, limits)
    ensures SightAt(events + [e], a, limits) == SightAt(events, a, limits)
  {
    forall k | 0 <= k < |events|
      ensures SightAt(events + [e], k, limits) == SightAt(events, k, limits)
    {
      assert (events + [e])[..k] == events[..k];
    }
  }

  /** What the count of empty reads stands for. */
  ghost predicate Counts(events: seq<Event>, limits: Limits) {
    var s := Run(events, limits);
    var t := s.process.tail;
    && t.eofs <= 1
    && (t.eofs == 1 ==> exists a :: QuietSince(events, a, limits)
                                    && (s.cut == {} ==> t.file == Some(SightAt(events, a, limits).inode)))
  }

  /** How one event moves the count. */
  lemma CountMoves(s: System, e: Event, limits: Limits)
    requires Behind(s) && s.process.tail.eofs <= 1
    ensures var t, t' := s.process.tail, Step(s, e, limits).process.tail;
            var seen := if e.Poll? then Sees(s.process, s.world, e.inputs.now) else Nothing;
            && t'.eofs <= 1
            && (t'.eofs == 1 && t.eofs == 0 ==> seen.EmptyAway? && t'.file == Some(seen.inode))
            && (t'.eofs == 1 && t.eofs == 1 ==> !seen.SawLine?)
            && (t'.eofs == 1 && t.eofs == 1 && s.cut == {} && t.file.Some? ==> t'.file == t.file)
  {
  }

  lemma {:induction false} EmptyReadsAreCounted(events: seq<Event>, limits: Limits)
    ensures Counts(events, limits)
  {
    if events != [] {
      var front, e := events[..|events| - 1], events[|events| - 1];
      EmptyReadsAreCounted(front, limits);
      PlacesAreBehindSettledLines(front, limits);
      var s := Run(front, limits);
      CountMoves(s, e, limits);
      assert events == front + [e] && events[..|front|] == front;
      assert s.cut <= Run(events, limits).cut;
      hide Run, Step, Sees;
      if Step(s, e, limits).process.tail.eofs == 1 {
        if s.process.tail.eofs == 1 {
          var a :| QuietSince(front, a, limits)
                   && (s.cut == {} ==> s.process.tail.file == Some(SightAt(front, a, limits).inode));
          QuietStill(front, e, a, limits);
          assert QuietSince(events, a, limits);
        } else {
          assert QuietSince(events, |front|, limits);
        }
      }
    }
  }

  // ---- quotas -------------------------------------------------------------

  lemma OneMoreOp(ops: seq<Op>, op: Op, limits: Limits)
    ensures Suppression.Run(ops + [op], limits) == Suppression.Step(Suppression.Run(ops, limits), op, limits)
    ensures Gated(ops + [op], limits)
        <==> Gated(ops, limits)
             && (op.Noted? ==> Ask(Suppression.Run(ops, limits).memory, op.ip, op.now, limits) == Allowed)
  {
  }

  /** One line makes gated calls, and leaves the suppressor where they lead. */
  lemma LineIsGated(k: Desk, ops: seq<Op>, line: Line, now: real, reply: Reply, saves: bool, limits: Limits)
    requires k.sup == Suppression.Run(ops, limits) && Gated(ops, limits)
    ensures AfterLine(k, line, now, reply, saves, limits).sup
         == Suppression.Run(ops + Calls(k, line, now, reply, saves, limits), limits)
    ensures Gated(ops + Calls(k, line, now, reply, saves, limits), limits)
  {
    if line.None? {
      assert ops + [] == ops;
    } else {
      var asked, noted := Asked(line.value, now), Noted(line.value, now, saves);
      OneMoreOp(ops, asked, limits);
      OneMoreOp(ops + [asked], noted, limits);
      hide Gated, Suppression.Run;
      if Sends(k, line, now, limits) && reply.Accepted? {
        assert Calls(k, line, now, reply, saves, limits) == [asked, noted];
        assert ops + [asked, noted] == ops + [asked] + [noted];
      } else {
        assert Calls(k, line, now, reply, saves, limits) == [asked];
      }
    }
  }

  lemma PollIsGated(s: System, x: Inputs, limits: Limits)
    requires s.process.desk.sup == Suppression.Run(s.ops, limits) && Gated(s.ops, limits)
    ensures var s' := Polled(s, x, limits);
            s'.process.desk.sup == Suppression.Run(s'.ops, limits) && Gated(s'.ops, limits)
  {
    LineIsGated(s.process.desk, s.ops, LineAt(s.world, Sees(s.process, s.world, x.now)), x.sentAt, x.reply, x.saves, limits);
    hide Gated, Suppression.Run, AfterLine, Calls, Settles;
  }

  lemma {:induction false} CallsAreGated(events: seq<Event>, limits: Limits)
    ensures var s := Run(events, limits);
            s.process.desk.sup == Suppression.Run(s.ops, limits) && Gated(s.ops, limits)
  {
    assert Gated([], limits) && Suppression.Run([], limits) == Daemon(Fresh(), None);
    hide Gated, Suppression.Run, Sees, Turn, Calls, Settles;
    if events != [] {
      var front, e := events[..|events| - 1], events[|events| - 1];
      CallsAreGated(front, limits);
      var s := Run(front, limits);
      if e.Poll? {
        PollIsGated(s, e.inputs, limits);
      } else if e.Stop? {
        OneMoreOp(s.ops, Restart, limits);
      }
    }
  }

  /** Rotations, retries, stops and restarts change nothing in it: the accepted reports of
      any run keep the daily cap, and on any one day the window. */
  lemma AcceptedReportsKeepQuotas(events: seq<Event>, from: real, limits: Limits)
    requires Timely(Run(events, limits).ops, from) && SavedBeforeRestarts(Run(events, limits).ops)
    ensures WithinCap(History(Run(events, limits).ops), limits)
    ensures SpacedWithinDays(History(Run(events, limits).ops), limits)
  {
    CallsAreGated(events, limits);
    QuotasHold(Run(events, limits).ops, from, limits);
  }

  // ---- truncation ---------------------------------------------------------

  lemma CutAndWritten(s: System, i: Inode, lines: seq<Line>, limits: Limits)
    ensures var s' := Step(Step(s, Truncate(i), limits), Append(i, lines), limits);
            Content(s'.world, i) == lines && s'.process == s.process && s'.world.path == s.world.path
  {
    assert [] + lines == lines;
  }

  /** A pass over the file that the path names closes it exactly when it has shrunk. */
  lemma ClosedIffShrunk(s: System, i: Inode, x: Inputs, limits: Limits)
    requires s.process.tail.file == Some(i) == s.world.path
    ensures var t := Polled(s, x, limits).process.tail;
            && (Sees(s.process, s.world, x.now).Shrunk? <==> t.file == None)
            && (t.file == None ==> t.saved == None && t.offset == 0)
  {
    hide Settles, AfterLine, Calls;
  }

  /** A truncated file is read again from its top exactly when it is still shorter than the
      place at the next poll. Written up to that place or past it, the cut goes unnoticed,
      and as many of the new lines as lie before the place are skipped. */
  lemma CutIsNoticedIffStillShorter(s: System, i: Inode, lines: seq<Line>, x: Inputs, limits: Limits)
    requires Behind(s) && s.process.tail.file == Some(i) == s.world.path && s.process.desk.cool.until <= x.now
    ensures var n, s' := s.process.tail.offset, Step(Step(s, Truncate(i), limits), Append(i, lines), limits);
            && Content(s'.world, i) == lines
            && Sees(s'.process, s'.world, x.now)
               == (if |lines| < n then Shrunk else if |lines| == n then EmptyHere else SawLine(i, n))
            && (|lines| < n <==> Polled(s', x, limits).process.tail.file == None)
            && (|lines| < n ==> Polled(s', x, limits).process.tail.saved == None)
  {
    hide Step, Polled, Content, Safe;
    CutAndWritten(s, i, lines, limits);
    ClosedIffShrunk(Step(Step(s, Truncate(i), limits), Append(i, lines), limits), i, x, limits);
  }

  // ---- the second look ----------------------------------------------------

  /** The `k`-th event opened no file, read no line, counted no empty read and ended no
      process. */
  predicate Idle(events: seq<Event>, k: nat, limits: Limits)
    requires k < |events|
  {
    !events[k].Stop? && !SightAt(events, k, limits).SawLine? && !SightAt(events, k, limits).EmptyAway?
  }

  /** The `k`-th event was an empty read of the file now open, in this opening of it, with
      the path elsewhere. */
  predicate LooksAt(events: seq<Event>, k: nat, limits: Limits)
    requires k < |events|
  {
    var file := Run(events, limits).process.tail.file;
    && file.Some? && SightAt(events, k, limits) == EmptyAway(file.value)
    && Run(events[..k + 1], limits).session == Run(events, limits).session
  }

  /** There was such a read, at any time ... */
  ghost predicate EverLooked(events: seq<Event>, limits: Limits) {
    exists k :: 0 <= k < |events| && LooksAt(events, k, limits)
  }

  /** ... or one after which no line was read. */
  ghost predicate Looked(events: seq<Event>, limits: Limits) {
    exists k :: 0 <= k < |events| && LooksAt(events, k, limits) && QuietSince(events, k, limits)
  }

  /** The `b`-th event noticed a cut while one empty read was already counted. */
  predicate CutsAt(events: seq<Event>, b: nat, limits: Limits)
    requires b < |events|
  {
    SightAt(events, b, limits).Shrunk? && Run(events[..b], limits).process.tail.eofs == 1
  }

  /** A cut was noticed with one empty read counted, and nothing has cleared or used the
      count since. */
  ghost predicate StaleCount(events: seq<Event>, limits: Limits) {
    exists b {:trigger CutsAt(events, b, limits)} :: 0 <= b < |events| && CutsAt(events, b, limits)
      && forall k :: b < k < |events| ==> Idle(events, k, limits)
  }

  lemma SightKept(events: seq<Event>, e: Event, k: nat, limits: Limits)
    requires k < |events|
    ensures (events + [e])[..k] == events[..k] && (events + [e])[..k + 1] == events[..k + 1]
    ensures SightAt(events + [e], k, limits) == SightAt(events, k, limits)
    ensures Idle(events + [e], k, limits) <==> Idle(events, k, limits)
    ensures CutsAt(events + [e], k, limits) <==> CutsAt(events, k, limits)
  {
    assert (events + [e])[..k] == events[..k] && (events + [e])[..k + 1] == events[..k + 1];
    hide Run, Sees;
  }

  /** An idle event makes no count stale, unless it is the cut itself. */
  lemma StaleStays(events: seq<Event>, e: Event, limits: Limits)
    requires Idle(events + [e], |events|, limits) && !CutsAt(events + [e], |events|, limits)
    ensures StaleCount(events + [e], limits) <==> StaleCount(events, limits)
  {
    hide Idle, CutsAt, Run, SightAt;
    forall k | 0 <= k < |events|
      ensures Idle(events + [e], k, limits) <==> Idle(events, k, limits)
      ensures CutsAt(events + [e], k, limits) <==> CutsAt(events, k, limits)
    {
      SightKept(events, e, k, limits);
    }
    if StaleCount(events, limits) {
      var b :| 0 <= b < |events| && CutsAt(events, b, limits) && forall k :: b < k < |events| ==> Idle(events, k, limits);
      assert CutsAt(events + [e], b, limits);
    }
    if StaleCount(events + [e], limits) {
      var b :| 0 <= b < |events + [e]| && CutsAt(events + [e], b, limits)
               && forall k :: b < k < |events + [e]| ==> Idle(events + [e], k, limits);
      assert CutsAt(events, b, limits);
    }
  }

  lemma {:induction false} SessionsGrow(events: seq<Event>, k: nat, limits: Limits)
    requires k <= |events|
    ensures Run(events[..k], limits).session <= Run(events, limits).session
  {
    if k < |events| {
      SessionsGrow(events[..|events| - 1], k, limits);
      assert events[..|events| - 1][..k] == events[..k];
    } else {
      assert events[..k] == events;
    }
  }

  /** An event that keeps the file open, and is no empty read of it, adds no look. */
  lemma LookedStays(events: seq<Event>, e: Event, limits: Limits)
    requires Run(events + [e], limits).process.tail.file == Run(events, limits).process.tail.file
    requires Run(events + [e], limits).session == Run(events, limits).session
    requires Idle(events + [e], |events|, limits)
    ensures EverLooked(events + [e], limits) ==> EverLooked(events, limits)
    ensures Looked(events, limits) ==> Looked(events + [e], limits)
  {
    forall k | 0 <= k < |events|
      ensures LooksAt(events + [e], k, limits) <==> LooksAt(events, k, limits)
    {
      SightKept(events, e, k, limits);
    }
    assert !LooksAt(events + [e], |events|, limits);
    hide LooksAt;
    if Looked(events, limits) {
      var k :| 0 <= k < |events| && LooksAt(events, k, limits) && QuietSince(events, k, limits);
      QuietStill(events, e, k, limits);
      assert LooksAt(events + [e], k, limits);
    }
  }

  /** A new opening has not been looked at. */
  lemma NewOpening(events: seq<Event>, e: Event, limits: Limits)
    requires Run(events + [e], limits).session > Run(events, limits).session
    requires !SightAt(events + [e], |events|, limits).EmptyAway?
    ensures !EverLooked(events + [e], limits)
  {
    forall k | 0 <= k < |events|
      ensures !LooksAt(events + [e], k, limits)
    {
      SightKept(events, e, k, limits);
      SessionsGrow(events, k + 1, limits);
      hide Run;
    }
  }

  /** One empty read is counted: it was a read of the file now open, or the count is stale. */
  ghost predicate LookedOrStale(events: seq<Event>, limits: Limits) {
    Run(events, limits).process.tail.eofs == 1 ==>
      if StaleCount(events, limits) then !EverLooked(events, limits) else Looked(events, limits)
  }

  /** How one event moves the open file while an empty read stays counted. */
  lemma FileMoves(s: System, e: Event, limits: Limits)
    requires Behind(s) && s.process.tail.eofs <= 1 && Step(s, e, limits).process.tail.eofs == 1
    ensures var t, s' := s.process.tail, Step(s, e, limits);
            var t', seen := s'.process.tail, if e.Poll? then Sees(s.process, s.world, e.inputs.now) else Nothing;
            && !e.Stop? && !seen.SawLine?
            && (t.eofs == 1 ==> !seen.EmptyAway?)
            && (t.eofs == 0 ==> seen.EmptyAway? && t'.file == Some(seen.inode))
            && (seen.Shrunk? ==> t'.file.None?)
            && (!seen.Shrunk? && t.file.Some? ==> t'.file == t.file && s'.session == s.session)
            && (!seen.Shrunk? && t.file.None? ==> (t'.file.None? && s'.session == s.session) || s'.session > s.session)
  {
    hide AfterLine, Settles, Calls;
  }

  lemma FirstLook(front: seq<Event>, e: Event, limits: Limits)
    requires SightAt(front + [e], |front|, limits).EmptyAway?
    requires Run(front + [e], limits).process.tail.file == Some(SightAt(front + [e], |front|, limits).inode)
    ensures Looked(front + [e], limits) && !StaleCount(front + [e], limits)
  {
    var events := front + [e];
    assert events[..|front| + 1] == events;
    hide Run, SightAt;
    assert LooksAt(events, |front|, limits);
    assert !Idle(events, |front|, limits);
  }

  lemma StaleByCut(front: seq<Event>, e: Event, limits: Limits)
    requires CutsAt(front + [e], |front|, limits) && Run(front + [e], limits).process.tail.file.None?
    ensures !EverLooked(front + [e], limits) && StaleCount(front + [e], limits)
  {
    hide CutsAt, Run, SightAt;
  }

  lemma {:induction false} CountIsLookOrStale(events: seq<Event>, limits: Limits)
    ensures LookedOrStale(events, limits)
    ensures Run(events, limits).process.tail.eofs == 1 && Run(events, limits).process.tail.file.None? ==>
              StaleCount(events, limits)
  {
    if events != [] {
      var front, e := events[..|events| - 1], events[|events| - 1];
      CountIsLookOrStale(front, limits);
      PlacesAreBehindSettledLines(front, limits);
      EmptyReadsAreCounted(front, limits);
      assert events == front + [e] && events[..|front|] == front;
      var s, s' := Run(front, limits), Run(events, limits);
      if s'.process.tail.eofs == 1 {
        FileMoves(s, e, limits);
        assert SightAt(events, |front|, limits) == if e.Poll? then Sees(s.process, s.world, e.inputs.now) else Nothing;
        hide Run, Step, Sees, SightAt, Looked, EverLooked, StaleCount, Behind;
        if s.process.tail.eofs == 0 {
          FirstLook(front, e, limits);
        } else if SightAt(events, |front|, limits).Shrunk? {
          StaleByCut(front, e, limits);
        } else {
          StaleStays(front, e, limits);
          if s'.session > s.session {
            NewOpening(front, e, limits);
          } else {
            LookedStays(front, e, limits);
          }
        }
      }
    }
  }

  /** Exactly when a rotated file is given up at the first empty read of its opening: if
      the count is left over from before a cut. Otherwise there was an earlier one in the
      same opening, with no line read in between. */
  lemma SecondLookIffCountIsFresh(events: seq<Event>, x: Inputs, i: Inode, limits: Limits)
    requires var s := Run(events, limits);
             Sees(s.process, s.world, x.now) == EmptyAway(i) && Polled(s, x, limits).process.tail.file != Some(i)
    ensures Run(events, limits).process.tail.file == Some(i)
    ensures if StaleCount(events, limits) then !EverLooked(events, limits) else Looked(events, limits)
  {
    EmptyReadsAreCounted(events, limits);
    CountIsLookOrStale(events, limits);
    var s := Run(events, limits);
    hide Run, Looked, EverLooked, StaleCount, Settles, AfterLine, Calls;
    assert s.process.tail.eofs == 1;
  }

  lemma {:induction false} NoCutsNoStaleCount(events: seq<Event>, limits: Limits)
    requires Run(events, limits).cut == {}
    ensures !StaleCount(events, limits)
  {
    forall b | 0 <= b < |events|
      ensures !CutsAt(events, b, limits)
    {
      CutsGrow(events, b, limits);
      PlacesAreBehindSettledLines(events[..b], limits);
      NothingShrinks(Run(events[..b], limits), events[b], limits);
    }
  }

  lemma {:induction false} CutsGrow(events: seq<Event>, k: nat, limits: Limits)
    requires k <= |events|
    ensures Run(events[..k], limits).cut <= Run(events, limits).cut
  {
    if k < |events| {
      CutsGrow(events[..|events| - 1], k, limits);
      assert events[..|events| - 1][..k] == events[..k];
    } else {
      assert events[..k] == events;
    }
  }

  lemma NothingShrinks(s: System, e: Event, limits: Limits)
    requires Behind(s) && s.cut == {}
    ensures e.Poll? ==> !Sees(s.process, s.world, e.inputs.now).Shrunk?
  {
  }

  /** The main law of rotation. When a poll gives up a file that was never truncated,
      every line in it is settled, and the path named another file at this empty read and
      at an earlier one with no line read in between. The earlier one was of this file, in
      this opening of it, unless a cut had left the count stale; if no file was ever cut
      it always was. */
  lemma RotatedFilesAreDrained(events: seq<Event>, x: Inputs, i: Inode, limits: Limits)
    requires Run(events, limits).process.tail.file == Some(i) && i !in Run(events, limits).cut
    requires Polled(Run(events, limits), x, limits).process.tail.file != Some(i)
    ensures i in Run(events, limits).world.files
    ensures SettledTo(Run(events, limits).calls, i, |Run(events, limits).world.files[i]|)
    ensures SightAt(events + [Poll(x)], |events|, limits) == EmptyAway(i)
    ensures exists a :: QuietSince(events, a, limits)
                        && (Run(events, limits).cut == {} ==> SightAt(events, a, limits) == EmptyAway(i))
    ensures if StaleCount(events, limits) then !EverLooked(events, limits) else Looked(events, limits)
    ensures Run(events, limits).cut == {} ==> Looked(events, limits)
  {
    var s := Run(events, limits);
    PlacesAreBehindSettledLines(events, limits);
    EmptyReadsAreCounted(events, limits);
    assert (events + [Poll(x)])[..|events|] == events;
    assert s.process.tail.eofs == 1;
    var a :| QuietSince(events, a, limits)
             && (s.cut == {} ==> s.process.tail.file == Some(SightAt(events, a, limits).inode));
    assert SightAt(events, a, limits).EmptyAway?;
    CountIsLookOrStale(events, limits);
    if s.cut == {} {
      NoCutsNoStaleCount(events, limits);
    }
    hide StaleCount, Looked, EverLooked;
  }

  // ---- such a run ---------------------------------------------------------

  const QUICK := Inputs(0.0, 0.0, 0.0, Accepted, true)

  predicate Stands(s: System, world: World, tail: Tail, session: nat, cut: set<Inode>) {
    s.world == world && s.process.tail == tail && s.process.desk.cool.until == 0.0 && s.session == session && s.cut == cut
  }

  const ONE_LINE: seq<Line> := [None]
  const NO_LINE: seq<Line> := []

  /** A file with one line is read, and found empty once while the path is gone. It comes
      back cut, the cut is noticed, and a second file is opened and rotated. */
  const CUT_RUN: seq<Event> := [
    Name(Some(1)), Append(1, ONE_LINE), Poll(QUICK), Name(None), Poll(QUICK),
    Name(Some(1)), Truncate(1), Poll(QUICK), Name(Some(2)), Poll(QUICK), Name(Some(3))
  ]

  lemma ReadsTheLine(s: System, limits: Limits)
    requires s == Start()
    ensures var s' := Step(Step(Step(s, Name(Some(1)), limits), Append(1, ONE_LINE), limits), Poll(QUICK), limits);
            Stands(s', World(map[1 := ONE_LINE], Some(1)), Tail(Some(1), 1, 1, Some(1), 0, 0.0, None), 1, {})
  {
    var named := Step(s, Name(Some(1)), limits);
    assert NO_LINE + ONE_LINE == ONE_LINE;
    var written := Step(named, Append(1, ONE_LINE), limits);
    assert named.world == World(map[1 := NO_LINE], Some(1));
    assert Stands(written, World(map[1 := ONE_LINE], Some(1)), Begin(None), 0, {});
  }

  lemma CountsAnEmptyRead(s: System, limits: Limits)
    requires Stands(s, World(map[1 := ONE_LINE], Some(1)), Tail(Some(1), 1, 1, Some(1), 0, 0.0, None), 1, {})
    ensures var s' := Step(Step(s, Name(None), limits), Poll(QUICK), limits);
            Stands(s', World(map[1 := ONE_LINE], None), Tail(Some(1), 1, 1, Some(1), 1, 0.0, None), 1, {})
  {
  }

  lemma NoticesTheCut(s: System, limits: Limits)
    requires Stands(s, World(map[1 := ONE_LINE], None), Tail(Some(1), 1, 1, Some(1), 1, 0.0, None), 1, {})
    ensures var cut := Step(Step(s, Name(Some(1)), limits), Truncate(1), limits);
            && Stands(cut, World(map[1 := NO_LINE], Some(1)), s.process.tail, 1, {1})
            && Sees(cut.process, cut.world, 0.0) == Shrunk
            && Stands(Step(cut, Poll(QUICK), limits), cut.world, Tail(None, 1, 0, None, 1, 0.0, None), 1, {1})
  {
  }

  lemma OpensTheNext(s: System, limits: Limits)
    requires Stands(s, World(map[1 := NO_LINE], Some(1)), Tail(None, 1, 0, None, 1, 0.0, None), 1, {1})
    ensures var named := Step(s, Name(Some(2)), limits);
            && Sees(named.process, named.world, 0.0) == EmptyHere
            && Stands(Step(named, Poll(QUICK), limits), World(map[1 := NO_LINE, 2 := NO_LINE], Some(2)),
                      Tail(Some(2), 0, 0, Some(2), 1, 0.0, None), 2, {1})
  {
  }

  lemma GivesUpTheNext(s: System, limits: Limits)
    requires Stands(s, World(map[1 := NO_LINE, 2 := NO_LINE], Some(2)), Tail(Some(2), 0, 0, Some(2), 1, 0.0, None), 2, {1})
    ensures var s' := Step(s, Name(Some(3)), limits);
            && s'.process.tail.file == Some(2) && s'.cut == {1}
            && Sees(s'.process, s'.world, 0.0) == EmptyAway(2)
            && Polled(s', QUICK, limits).process.tail.file == None
  {
  }

  lemma PrefixRuns(events: seq<Event>, limits: Limits)
    ensures forall k :: 0 <= k < |events| ==> Run(events[..k + 1], limits) == Step(Run(events[..k], limits), events[k], limits)
  {
    forall k | 0 <= k < |events|
      ensures Run(events[..k + 1], limits) == Step(Run(events[..k], limits), events[k], limits)
    {
      assert events[..k + 1][..k] == events[..k];
    }
  }

  /** What happens along that run. */
  lemma CutRunIsAsTold(limits: Limits)
    ensures SightAt(CUT_RUN, 7, limits) == Shrunk && Run(CUT_RUN[..7], limits).process.tail.eofs == 1
    ensures SightAt(CUT_RUN, 9, limits) == EmptyHere
    ensures var s := Run(CUT_RUN, limits);
            && s.process.tail.file == Some(2) && s.cut == {1} && Sees(s.process, s.world, 0.0) == EmptyAway(2)
            && Polled(s, QUICK, limits).process.tail.file == None
  {
    var e := CUT_RUN;
    assert e[..0] == [] && e[..11] == e && Run([], limits) == Start();
    hide Run, Step, Sees, Polled;
    PrefixRuns(e, limits);
    assert Run(e[..1], limits) == Step(Run(e[..0], limits), e[0], limits);
    assert Run(e[..2], limits) == Step(Run(e[..1], limits), e[1], limits);
    assert Run(e[..3], limits) == Step(Run(e[..2], limits), e[2], limits);
    ReadsTheLine(Run(e[..0], limits), limits);
    assert Run(e[..4], limits) == Step(Run(e[..3], limits), e[3], limits);
    assert Run(e[..5], limits) == Step(Run(e[..4], limits), e[4], limits);
    CountsAnEmptyRead(Run(e[..3], limits), limits);
    assert Run(e[..6], limits) == Step(Run(e[..5], limits), e[5], limits);
    assert Run(e[..7], limits) == Step(Run(e[..6], limits), e[6], limits);
    assert Run(e[..8], limits) == Step(Run(e[..7], limits), e[7], limits);
    NoticesTheCut(Run(e[..5], limits), limits);
    assert Run(e[..9], limits) == Step(Run(e[..8], limits), e[8], limits);
    assert Run(e[..10], limits) == Step(Run(e[..9], limits), e[9], limits);
    OpensTheNext(Run(e[..8], limits), limits);
    GivesUpTheNext(Run(e[..10], limits), limits);
  }

  lemma CutRunStaysStale(limits: Limits)
    ensures StaleCount(CUT_RUN, limits)
  {
    hide Run, Sees, Polled;
    CutRunIsAsTold(limits);
    assert CutsAt(CUT_RUN, 7, limits);
    assert Idle(CUT_RUN, 8, limits) && Idle(CUT_RUN, 9, limits) && Idle(CUT_RUN, 10, limits);
  }

  /** Such a run: noticing a cut does not clear the count, and the next file, never cut
      itself, is given up at its first empty read after rotation. */
  lemma CutLeavesTheCountStale(limits: Limits)
    ensures var s := Run(CUT_RUN, limits);
            && s.process.tail.file == Some(2) && 2 !in s.cut && Sees(s.process, s.world, 0.0) == EmptyAway(2)
            && Polled(s, QUICK, limits).process.tail.file == None
    ensures StaleCount(CUT_RUN, limits) && !EverLooked(CUT_RUN, limits)
  {
    hide Run, Sees, Polled, SightAt, Idle, CutsAt, Looked, EverLooked, StaleCount;
    CutRunIsAsTold(limits);
    CutRunStaysStale(limits);
    SecondLookIffCountIsFresh(CUT_RUN, QUICK, 2, limits);
  }
}
