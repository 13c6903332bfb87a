/** At-least-once delivery: which lines are sent, which replies let the process step past a
    line, and how long the others silence it. */
module FollowDelivery {
  import opened Options
  import opened Suppression
  import opened Sending
  import opened Following
  import F = FollowRuns

  // ---- replies ------------------------------------------------------------

  /** The remote side took the report, or will never take it. */
  predicate Final(r: Reply) {
    r.Accepted? || r.Refused?
  }

  /** It may take it later: too many requests, a server error, or nobody there. */
  predicate Transient(r: Reply) {
    r.TooMany? || r.ServerError? || r.Unreachable?
  }

  /** A line is done with when no report was to be sent for it, or the reply was final. */
  predicate DoneRightly(c: F.Call) {
    if c.done then c.report.None? || Final(c.report.value.reply)
    else c.report.Some? && Transient(c.report.value.reply)
  }

  lemma PollIsRight(s: F.System, x: Inputs, limits: Limits)
    requires forall c :: c in s.calls ==> DoneRightly(c)
    ensures forall c :: c in F.Polled(s, x, limits).calls ==> DoneRightly(c)
  {
    hide AfterLine, Calls, Turn, Sees, Ask;
  }

  /** On every run, and by the replies alone: a line whose address was allowed is left
      behind only once its report was accepted or refused. */
  lemma {:induction false} DoneMeansDelivered(events: seq<F.Event>, limits: Limits)
    ensures forall c :: c in F.Run(events, limits).calls ==> DoneRightly(c)
  {
    if events != [] {
      var front, e := events[..|events| - 1], events[|events| - 1];
      DoneMeansDelivered(front, limits);
      if e.Poll? {
        hide DoneRightly;
        PollIsRight(F.Run(front, limits), e.inputs, limits);
      }
    }
  }

  /** After a transient reply the next call of that opening is the same line again; after
      any other it is the next line. */
  lemma TransientRepliesAreRetried(events: seq<F.Event>, j: nat, limits: Limits)
    requires j + 1 < |F.Run(events, limits).calls|
    requires var calls := F.Run(events, limits).calls; calls[j].session == calls[j + 1].session
    ensures var c, d := F.Run(events, limits).calls[j], F.Run(events, limits).calls[j + 1];
            && d.inode == c.inode
            && d.index == if c.report.Some? && Transient(c.report.value.reply) then c.index else c.index + 1
  {
    F.LinesInOrder(events, limits);
    DoneMeansDelivered(events, limits);
    var calls := F.Run(events, limits).calls;
    hide F.Run;
    assert F.Follows(calls[j], calls[j + 1]) && calls[j] in calls;
  }

  /** Line `k` of file `i` was handed on and needed no report, or had a final reply. */
  ghost predicate Delivered(calls: seq<F.Call>, i: Inode, k: nat) {
    exists c :: c in calls && c.inode == i && c.index == k && (c.report.None? || Final(c.report.value.reply))
  }

  lemma SettledIsDelivered(calls: seq<F.Call>, i: Inode, k: nat)
    requires F.Settled(calls, i, k) && forall c :: c in calls ==> DoneRightly(c)
    ensures Delivered(calls, i, k)
  {
    var j :| 0 <= j < |calls| && calls[j].inode == i && calls[j].index == k && calls[j].done;
    assert calls[j] in calls;
  }

  /** At-least-once delivery: on every run, everything behind the place of the open file,
      and behind the saved place, in a file that was never truncated. */
  lemma PlacesAreBehindDeliveredLines(events: seq<F.Event>, k: nat, limits: Limits)
    ensures var s := F.Run(events, limits);
            var t := s.process.tail;
            && (t.file.Some? && t.file.value !in s.cut && k < t.pos ==> Delivered(s.calls, t.file.value, k))
            && (t.place.Some? && t.place.value.inode !in s.cut && k < t.place.value.offset ==>
                  Delivered(s.calls, t.place.value.inode, k))
  {
    F.PlacesAreBehindSettledLines(events, limits);
    DoneMeansDelivered(events, limits);
    var s := F.Run(events, limits);
    var t := s.process.tail;
    hide F.Run, F.Settled, DoneRightly, Delivered;
    if t.file.Some? && t.file.value !in s.cut && k < t.pos {
      SettledIsDelivered(s.calls, t.file.value, k);
    }
    if t.place.Some? && t.place.value.inode !in s.cut && k < t.place.value.offset {
      SettledIsDelivered(s.calls, t.place.value.inode, k);
    }
  }

  // ---- what is sent -------------------------------------------------------

  /** The reports that were accepted, in order. */
  function Accepted(calls: seq<F.Call>): seq<Report> {
    if calls == [] then []
    else
      var c := calls[|calls| - 1];
      Accepted(calls[..|calls| - 1])
      + if c.report.Some? && c.report.value.reply.Accepted? then [Report(c.report.value.ip, c.report.value.at)] else []
  }

  lemma HistoryThen(ops: seq<Op>, op: Op)
    ensures History(ops + [op]) == History(ops) + if op.Noted? then [Report(op.ip, op.now)] else []
  {
    assert (ops + [op])[..|ops|] == ops;
  }

  lemma LineIsAccepted(k: Desk, ops: seq<Op>, line: Line, x: Inputs, limits: Limits)
    ensures History(ops + Calls(k, line, x.sentAt, x.reply, x.saves, limits))
         == History(ops) + var a := F.Tried(k, line, x, limits);
                           if a.Some? && a.value.reply.Accepted? then [Report(a.value.ip, a.value.at)] else []
  {
    var calls := Calls(k, line, x.sentAt, x.reply, x.saves, limits);
    if line.None? {
      assert ops + calls == ops;
    } else {
      var asked, noted := Asked(line.value, x.sentAt), Noted(line.value, x.sentAt, x.saves);
      HistoryThen(ops, asked);
      HistoryThen(ops + [asked], noted);
      hide History, Ask;
      if Sends(k, line, x.sentAt, limits) && x.reply.Accepted? {
        assert ops + calls == ops + [asked] + [noted];
      } else {
        assert ops + calls == ops + [asked];
      }
    }
  }

  /** On every run the suppressor's history is exactly the accepted reports. */
  lemma {:induction false} HistoryIsWhatWasAccepted(events: seq<F.Event>, limits: Limits)
    ensures History(F.Run(events, limits).ops) == Accepted(F.Run(events, limits).calls)
  {
    if events != [] {
      var front, e := events[..|events| - 1], events[|events| - 1];
      HistoryIsWhatWasAccepted(front, limits);
      StepKeepsHistory(F.Run(front, limits), e, limits);
    }
  }

  lemma AcceptedThen(calls: seq<F.Call>, c: F.Call)
    ensures Accepted(calls + [c])
         == Accepted(calls)
            + if c.report.Some? && c.report.value.reply.Accepted? then [Report(c.report.value.ip, c.report.value.at)] else []
  {
    assert (calls + [c])[..|calls|] == calls;
  }

  lemma PollKeepsHistory(s: F.System, x: Inputs, limits: Limits)
    requires History(s.ops) == Accepted(s.calls)
    ensures var s' := F.Polled(s, x, limits); History(s'.ops) == Accepted(s'.calls)
  {
    hide History, Accepted, Turn, Sees, Calls, Settles, AfterLine, Ask, F.Tried;
    var seen, s' := Sees(s.process, s.world, x.now), F.Polled(s, x, limits);
    LineIsAccepted(s.process.desk, s.ops, LineAt(s.world, seen), x, limits);
    if seen.SawLine? {
      AcceptedThen(s.calls, s'.calls[|s.calls|]);
    }
  }

  lemma StepKeepsHistory(s: F.System, e: F.Event, limits: Limits)
    requires History(s.ops) == Accepted(s.calls)
    ensures History(F.Step(s, e, limits).ops) == Accepted(F.Step(s, e, limits).calls)
  {
    hide History, Accepted, F.Polled;
    if e.Poll? {
      PollKeepsHistory(s, e.inputs, limits);
    } else {
      HistoryThen(s.ops, Restart);
    }
  }

  /** On a run whose clock does not go back and whose restarts follow a save: the line read
      by a poll is sent if and only if it names an address, fewer reports than the cap were
      accepted that day, and none of that address within the window that day. */
  lemma LineIsSentIffQuotasPermit(events: seq<F.Event>, from: real, x: Inputs, limits: Limits)
    requires var s := F.Run(events, limits);
             && Timely(s.ops, from) && SavedBeforeRestarts(s.ops) && x.sentAt >= Clock(s.ops, from)
             && Sees(s.process, s.world, x.now).SawLine?
    ensures var s, s' := F.Run(events, limits), F.Polled(F.Run(events, limits), x, limits);
            var line := LineAt(s.world, Sees(s.process, s.world, x.now));
            && |s'.calls| == |s.calls| + 1
            && s'.calls[|s.calls|].report
               == if line.Some? && QuotasPermit(Accepted(s.calls), line.value, x.sentAt, limits)
                  then Some(F.Attempt(line.value, x.sentAt, x.reply)) else None
  {
    F.CallsAreGated(events, limits);
    HistoryIsWhatWasAccepted(events, limits);
    var s := F.Run(events, limits);
    var line := LineAt(s.world, Sees(s.process, s.world, x.now));
    hide F.Run, QuotasPermit, Settles, Calls, AfterLine, Turn, Gated, Suppression.Run, Accepted;
    if line.Some? {
      AnswersLikeFullHistory(s.ops, from, line.value, x.sentAt, limits);
      HistoryIsChronological(s.ops, from);
      AllowedIffQuotasPermit(History(s.ops), line.value, x.sentAt, limits);
    }
  }

  // ---- silence ------------------------------------------------------------

  /** The transient replies in a row, as one process has had them since the last accepted
      report. */
  function Streak(calls: seq<F.Call>, life: nat): nat {
    if calls == [] || calls[|calls| - 1].life != life then 0
    else
      var c, before := calls[|calls| - 1], Streak(calls[..|calls| - 1], life);
      if c.report.None? || c.report.value.reply.Refused? then before
      else if c.report.value.reply.Accepted? then 0
      else before + 1
  }

  /** How long the `n`-th transient reply in a row silences the process, in seconds. */
  function Silence(n: nat, r: Reply): real
    requires n >= 1
  {
    if r.TooMany? && r.retryAfter.Some? then
      if r.retryAfter.value < 0.0 then 0.0 else if r.retryAfter.value > 3600.0 then 3600.0 else r.retryAfter.value
    else if n >= 7 then 300.0
    else [5.0, 10.0, 20.0, 40.0, 80.0, 160.0][n - 1]
  }

  /** What the last call of a process says of its silence. */
  ghost predicate SilentUntil(calls: seq<F.Call>, j: nat)
    requires j < |calls|
  {
    var c := calls[j];
    c.report.Some? ==>
      var a := c.report.value;
      && (a.reply.Accepted? ==> c.until == 0.0)
      && (Transient(a.reply) ==> Streak(calls[..j + 1], c.life) >= 1
                                 && c.until == a.at + Silence(Streak(calls[..j + 1], c.life), a.reply))
  }

  lemma DelayIsSilence(n: nat, r: Reply)
    requires n >= 1 && Transient(r)
    ensures Delay(n, if r.TooMany? then r.retryAfter else None) == Silence(n, r)
  {
    DelayLaw(n, None);
    assert Pow2(2) == 4 && Pow2(4) == 16 && Pow2(5) == 32;
  }

  /** A call that is added leaves the earlier ones as they were. */
  lemma EarlierCallsStay(calls: seq<F.Call>, c: F.Call)
    requires forall j :: 0 <= j < |calls| ==> SilentUntil(calls, j)
    ensures forall j :: 0 <= j < |calls| ==> SilentUntil(calls + [c], j)
  {
    forall j | 0 <= j < |calls|
      ensures SilentUntil(calls + [c], j)
    {
      assert SilentUntil(calls, j) && (calls + [c])[..j + 1] == calls[..j + 1];
      hide Streak, Silence;
    }
  }

  lemma StreakThen(calls: seq<F.Call>, c: F.Call)
    ensures Streak(calls + [c], c.life)
         == if c.report.None? || c.report.value.reply.Refused? then Streak(calls, c.life)
            else if c.report.value.reply.Accepted? then 0 else Streak(calls, c.life) + 1
  {
    assert (calls + [c])[..|calls|] == calls;
  }

  /** The process counts its transient replies, and is silent accordingly. */
  ghost predicate KeepsSilence(s: F.System) {
    && s.process.desk.cool.streak == Streak(s.calls, s.life)
    && forall j :: 0 <= j < |s.calls| ==> SilentUntil(s.calls, j)
  }

  lemma LineMovesCooldown(k: Desk, line: Line, x: Inputs, limits: Limits)
    ensures var a, c, c' := F.Tried(k, line, x, limits), k.cool,
                            AfterLine(k, line, x.sentAt, x.reply, x.saves, limits).cool;
            if a.None? || a.value.reply.Refused? then c' == c
            else if a.value.reply.Accepted? then c' == Cooldown(0.0, 0)
            else a == Some(F.Attempt(line.value, x.sentAt, x.reply)) && c'.streak == c.streak + 1
                 && c'.until == x.sentAt + Silence(c'.streak, x.reply)
  {
    if Transient(x.reply) {
      DelayIsSilence(k.cool.streak + 1, x.reply);
    }
    hide Delay, Silence, Ask, Note, Rolled;
  }

  lemma LineIsThere(p: Process, w: World, now: real)
    requires Sees(p, w, now).SawLine?
    ensures Sees(p, w, now).index < |Content(w, Sees(p, w, now).inode)|
  {
  }

  lemma PollKeepsSilence(s: F.System, x: Inputs, limits: Limits)
    requires KeepsSilence(s)
    ensures KeepsSilence(F.Polled(s, x, limits))
  {
    hide Sees, Calls, Settles, AfterLine, Ask, F.Tried, Streak, Silence;
    var seen, s' := Sees(s.process, s.world, x.now), F.Polled(s, x, limits);
    if seen.SawLine? {
      var c := s'.calls[|s.calls|];
      LineIsThere(s.process, s.world, x.now);
      LineMovesCooldown(s.process.desk, LineAt(s.world, seen), x, limits);
      EarlierCallsStay(s.calls, c);
      StreakThen(s.calls, c);
      assert s'.calls == s.calls + [c] && s'.calls[..|s.calls| + 1] == s'.calls;
    }
  }

  lemma NewLifeIsNotSilent(calls: seq<F.Call>, life: nat)
    requires calls != [] ==> calls[|calls| - 1].life < life
    ensures Streak(calls, life) == 0
  {
  }

  /** The backoff on every run: each transient reply silences its process from the time of
      the report, for what the remote side asked up to an hour, or for five seconds that
      double with every transient reply since the last accepted report, up to five
      minutes. */
  lemma {:induction false} RepliesSetTheSilence(events: seq<F.Event>, limits: Limits)
    ensures KeepsSilence(F.Run(events, limits))
  {
    if events != [] {
      var front, e := events[..|events| - 1], events[|events| - 1];
      RepliesSetTheSilence(front, limits);
      F.LinesInOrder(front, limits);
      var s := F.Run(front, limits);
      if e.Poll? {
        PollKeepsSilence(s, e.inputs, limits);
      } else if e.Stop? {
        NewLifeIsNotSilent(s.calls, s.life + 1);
      }
    }
  }
}
