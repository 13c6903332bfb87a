/** The tail loop gets on: unread lines are read wherever the path points, and a rotated file
    is then left for the file that the path names. */
module FollowProgress {
  import opened Options
  import opened Suppression
  import opened Sending
  import opened Following
  import F = FollowRuns

  /** A poll past the cooldown reads the next unread line of the open file, whatever the
      path names, and hands it on. */
  lemma PollReadsTheNextLine(s: F.System, x: Inputs, i: Inode, limits: Limits)
    requires s.process.tail.file == Some(i) && s.process.desk.cool.until <= x.now
    requires s.process.tail.pos < |Content(s.world, i)|
    ensures var s', n := F.Polled(s, x, limits), |s.calls|;
            && |s'.calls| == n + 1 && s'.calls[..n] == s.calls && s'.world == s.world && s'.session == s.session
            && s'.calls[n].inode == i && s'.calls[n].index == s.process.tail.pos && s'.calls[n].at == x.now
            && s'.calls[n].session == s.session && s'.calls[n].life == s.life && s'.life == s.life
            && s'.process.tail.file == Some(i) && s'.process.tail.eofs == 0
            && s'.process.tail.pos == s.process.tail.pos + if s'.calls[n].done then 1 else 0
  {
    hide Settles, AfterLine, Calls, Ask;
  }

  /** A poll with the clock past 0, answered finally if a report is sent. */
  predicate Easy(x: Inputs, until: real) {
    until <= x.now && 0.0 <= x.now && (x.reply.Accepted? || x.reply.Refused?)
  }

  lemma EasyPollSettles(s: F.System, x: Inputs, limits: Limits)
    requires Easy(x, s.process.desk.cool.until) && Sees(s.process, s.world, x.now).SawLine?
    ensures var s' := F.Polled(s, x, limits);
            && (|s'.calls| > 0 ==> s'.calls[|s'.calls| - 1].done)
            && (s'.process.desk.cool.until == s.process.desk.cool.until || s'.process.desk.cool.until == 0.0)
  {
    hide Ask, Note;
  }

  function Polls(xs: seq<Inputs>): seq<F.Event> {
    if xs == [] then [] else Polls(xs[..|xs| - 1]) + [F.Poll(xs[|xs| - 1])]
  }

  /** Poll `x` handed on the `j`-th line of file `i` that was unread in `s`, and is done with
      it. */
  predicate ReadBy(c: F.Call, s: F.System, i: Inode, j: nat, x: Inputs) {
    c.inode == i && c.index == s.process.tail.pos + j && c.done && c.at == x.now && c.session == s.session
  }

  /** Where the polls `xs` have brought the reading of file `i`. */
  ghost predicate Drained(s: F.System, s': F.System, xs: seq<Inputs>, i: Inode) {
    var n := |s.calls|;
    && s'.world == s.world && s'.session == s.session && s'.life == s.life
    && s'.process.tail.file == Some(i) && s'.process.tail.pos == s.process.tail.pos + |xs|
    && s'.process.tail.eofs == (if xs == [] then s.process.tail.eofs else 0)
    && (s'.process.desk.cool.until == s.process.desk.cool.until || s'.process.desk.cool.until == 0.0)
    && |s'.calls| == n + |xs| && s'.calls[..n] == s.calls
    && forall j {:trigger xs[j]} :: 0 <= j < |xs| ==> ReadBy(s'.calls[n + j], s, i, j, xs[j])
  }

  lemma RunThen(events: seq<F.Event>, e: F.Event, limits: Limits)
    ensures F.Run(events + [e], limits) == F.Step(F.Run(events, limits), e, limits)
  {
    assert (events + [e])[..|events|] == events;
    hide F.Step;
  }

  lemma OneMoreDrained(s: F.System, m: F.System, xs: seq<Inputs>, x: Inputs, i: Inode, limits: Limits)
    requires Drained(s, m, xs, i) && Easy(x, s.process.desk.cool.until) && m.process.tail.pos < |Content(m.world, i)|
    ensures Drained(s, F.Polled(m, x, limits), xs + [x], i)
  {
    hide F.Polled, Sees;
    PollReadsTheNextLine(m, x, i, limits);
    UnreadIsSeen(m, x, i);
    EasyPollSettles(m, x, limits);
    var s', n := F.Polled(m, x, limits), |s.calls|;
    assert s'.calls == m.calls + [s'.calls[|m.calls|]];
    assert s'.calls[..n] == m.calls[..n];
    var all := xs + [x];
    forall j {:trigger all[j]} | 0 <= j < |all|
      ensures ReadBy(s'.calls[n + j], s, i, j, all[j])
    {
      if j < |xs| {
        assert all[j] == xs[j] && s'.calls[n + j] == m.calls[n + j];
      }
    }
  }

  lemma UnreadIsSeen(s: F.System, x: Inputs, i: Inode)
    requires s.process.tail.file == Some(i) && s.process.desk.cool.until <= x.now
    requires s.process.tail.pos < |Content(s.world, i)|
    ensures Sees(s.process, s.world, x.now).SawLine?
  {
  }

  /** Polls hand on the unread lines of the open file, one each and in order, wherever the
      path points. */
  lemma {:induction false} PollsDrain(events: seq<F.Event>, xs: seq<Inputs>, i: Inode, limits: Limits)
    requires var s := F.Run(events, limits);
             && s.process.tail.file == Some(i) && s.process.tail.pos + |xs| <= |Content(s.world, i)|
             && forall x :: x in xs ==> Easy(x, s.process.desk.cool.until)
    ensures Drained(F.Run(events, limits), F.Run(events + Polls(xs), limits), xs, i)
  {
    hide F.Run, F.Step, Easy;
    if xs == [] {
      assert events + Polls(xs) == events;
    } else {
      var front, x := xs[..|xs| - 1], xs[|xs| - 1];
      assert front + [x] == xs && events + Polls(xs) == events + Polls(front) + [F.Poll(x)];
      PollsDrain(events, front, i, limits);
      RunThen(events + Polls(front), F.Poll(x), limits);
      StepIsPolled(F.Run(events + Polls(front), limits), x, limits);
      OneMoreDrained(F.Run(events, limits), F.Run(events + Polls(front), limits), front, x, i, limits);
    }
  }

  lemma StepIsPolled(s: F.System, x: Inputs, limits: Limits)
    ensures F.Step(s, F.Poll(x), limits) == F.Polled(s, x, limits)
  {
    hide F.Polled;
  }

  // ---- leaving a rotated file ---------------------------------------------

  /** An empty read of a file that the path no longer names: the second in a row gives it
      up, and keeps nothing of it open. */
  lemma EmptyPollAway(s: F.System, x: Inputs, i: Inode, limits: Limits)
    requires s.process.tail.file == Some(i) && s.process.desk.cool.until <= x.now && s.world.path != Some(i)
    requires s.process.tail.pos >= |Content(s.world, i)| && s.process.tail.eofs <= 1
    ensures var s', t := F.Polled(s, x, limits), s.process.tail;
            && s'.world == s.world && s'.calls == s.calls && s'.session == s.session && s'.process.desk == s.process.desk
            && if t.eofs == 0 then
                 s'.process.tail.file == Some(i) && s'.process.tail.pos == t.pos && s'.process.tail.eofs == 1
               else
                 s'.process.tail.file == None && s'.process.tail.saved == None && s'.process.tail.eofs == 0
                 && s'.process.tail.place == Some(Place(t.offset, i))
  {
  }

  /** With no file open, a poll opens the one that the path names, at its top if no place in
      it is known, and reads its first line. */
  lemma PollOpensThePath(s: F.System, x: Inputs, j: Inode, limits: Limits)
    requires s.process.tail.file == None && s.process.tail.saved == None && s.world.path == Some(j)
    requires s.process.desk.cool.until <= x.now
    ensures var s', n := F.Polled(s, x, limits), |s.calls|;
            && s'.process.tail.file == Some(j) && s'.world == s.world && s'.session == s.session + 1
            && (if Content(s.world, j) == [] then s'.calls == s.calls
                else |s'.calls| == n + 1 && s'.calls[..n] == s.calls
                     && s'.calls[n].inode == j && s'.calls[n].index == 0 && s'.calls[n].session == s.session + 1)
  {
    hide Settles, AfterLine, Calls, Ask;
  }

  lemma OnePoll(x: Inputs)
    ensures Polls([x]) == [F.Poll(x)]
  {
  }

  lemma TwoPolls(x: Inputs, y: Inputs)
    ensures Polls([x, y]) == [F.Poll(x), F.Poll(y)]
  {
    OnePoll(x);
    assert [x, y][..1] == [x];
  }

  /** The empty reads that give a file up: two, or one if one is counted already. */
  lemma PollsGiveUp(events: seq<F.Event>, ys: seq<Inputs>, i: Inode, limits: Limits)
    requires var s := F.Run(events, limits);
             && s.process.tail.file == Some(i) && s.world.path != Some(i) && s.process.tail.eofs <= 1
             && s.process.tail.pos >= |Content(s.world, i)| && |ys| == 2 - s.process.tail.eofs
             && forall y :: y in ys ==> s.process.desk.cool.until <= y.now
    ensures var s, s' := F.Run(events, limits), F.Run(events + Polls(ys), limits);
            && s'.process.tail.file == None && s'.process.tail.saved == None
            && s'.world == s.world && s'.calls == s.calls && s'.session == s.session && s'.process.desk == s.process.desk
  {
    hide F.Run, F.Polled, F.Step, Polls;
    var s := F.Run(events, limits);
    RunThen(events, F.Poll(ys[0]), limits);
    StepIsPolled(s, ys[0], limits);
    EmptyPollAway(s, ys[0], i, limits);
    if |ys| == 1 {
      OnePoll(ys[0]);
      assert ys == [ys[0]];
    } else {
      TwoPolls(ys[0], ys[1]);
      assert ys == [ys[0], ys[1]];
      assert events + Polls(ys) == events + [F.Poll(ys[0])] + [F.Poll(ys[1])];
      RunThen(events + [F.Poll(ys[0])], F.Poll(ys[1]), limits);
      StepIsPolled(F.Run(events + [F.Poll(ys[0])], limits), ys[1], limits);
      EmptyPollAway(F.Run(events + [F.Poll(ys[0])], limits), ys[1], i, limits);
    }
  }

  /** Progress through a rotation, on every run. File `i` is open with some lines unread,
      the path names file `j`, and the polls to come meet no cooldown and final replies.
      Then one poll for each unread line hands them on in order; two more, or one where an
      empty read is counted and nothing was left to read, give the file up; and the next
      opens file `j` and reads its first line. */
  lemma RotatedFileIsDrainedAndLeft(events: seq<F.Event>, xs: seq<Inputs>, ys: seq<Inputs>, z: Inputs,
                                    i: Inode, j: Inode, limits: Limits)
    requires var s := F.Run(events, limits);
             && s.process.tail.file == Some(i) && s.world.path == Some(j) && j != i
             && s.process.tail.pos + |xs| == |Content(s.world, i)|
             && |ys| == (if xs == [] then 2 - s.process.tail.eofs else 2)
             && (forall x :: x in xs ==> Easy(x, s.process.desk.cool.until))
             && (forall y :: y in ys ==> Easy(y, s.process.desk.cool.until)) && Easy(z, s.process.desk.cool.until)
    ensures var s, m := F.Run(events, limits), F.Run(events + Polls(xs), limits);
            var g := F.Run(events + Polls(xs) + Polls(ys), limits);
            var e := F.Run(events + Polls(xs) + Polls(ys) + [F.Poll(z)], limits);
            && Drained(s, m, xs, i)
            && g.process.tail.file == None && g.calls == m.calls
            && e.process.tail.file == Some(j)
            && (Content(s.world, j) != [] ==>
                  |e.calls| == |m.calls| + 1 && e.calls[|m.calls|].inode == j && e.calls[|m.calls|].index == 0)
  {
    hide F.Run, F.Polled, F.Step, Sees;
    F.EmptyReadsAreCounted(events, limits);
    PollsDrain(events, xs, i, limits);
    var m := F.Run(events + Polls(xs), limits);
    PollsGiveUp(events + Polls(xs), ys, i, limits);
    var before := events + Polls(xs) + Polls(ys);
    RunThen(before, F.Poll(z), limits);
    StepIsPolled(F.Run(before, limits), z, limits);
    PollOpensThePath(F.Run(before, limits), z, j, limits);
  }
}
