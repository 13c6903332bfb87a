/** What a rotated file still gets: its second look, and what a restart leaves of it. */
module FollowRotation {
  import opened Options
  import Suppression
  import opened Sending
  import opened Following
  import opened FollowRuns

  type Limits = Suppression.Limits

  // ---- the last moment the path named a file ------------------------------

  /** How many events had passed when the path last named `i`; 0 if it never did. */
  function LastNamed(events: seq<Event>, i: Inode, limits: Limits): (n: nat)
    ensures n <= |events|
  {
    if events == [] || Run(events, limits).world.path == Some(i) then |events|
    else LastNamed(events[..|events| - 1], i, limits)
  }

  lemma {:induction false} NotNamedSince(events: seq<Event>, i: Inode, k: nat, limits: Limits)
    requires LastNamed(events, i, limits) < k <= |events|
    ensures Run(events[..k], limits).world.path != Some(i)
  {
    if k == |events| {
      assert events[..k] == events;
    } else {
      NotNamedSince(events[..|events| - 1], i, k, limits);
      assert events[..|events| - 1][..k] == events[..k];
    }
  }

  /** From event `n` on there was an empty read of file `i` with the path elsewhere ... */
  ghost predicate LookedSince(events: seq<Event>, n: nat, i: Inode, limits: Limits) {
    exists a :: n <= a < |events| && SightAt(events, a, limits) == EmptyAway(i)
  }

  /** ... or one with no line read after it; or some line was read. */
  ghost predicate LookedLastSince(events: seq<Event>, n: nat, i: Inode, limits: Limits) {
    exists a :: n <= a < |events| && SightAt(events, a, limits) == EmptyAway(i)
                && forall k :: a < k < |events| ==> !SightAt(events, k, limits).SawLine?
  }

  ghost predicate ReadSince(events: seq<Event>, n: nat, limits: Limits) {
    exists a :: n <= a < |events| && SightAt(events, a, limits).SawLine?
  }

  /** What the count of empty reads says of the open file: an empty read since the path
      left it, or a count that was there already and that no line has cleared. */
  ghost predicate CountSays(events: seq<Event>, i: Inode, limits: Limits) {
    var t, n := Run(events, limits).process.tail, LastNamed(events, i, limits);
    var was := Run(events[..n], limits);
    var kept := was.process.tail.eofs == 1 && !ReadSince(events, n, limits);
    && was.world.path == was.process.tail.file == Some(i) && was.process.tail.eofs <= 1 && t.eofs <= 1
    && (t.eofs == 1 <==> kept || LookedLastSince(events, n, i, limits))
    && (kept ==> !LookedSince(events, n, i, limits))
  }

  lemma EmptySince(events: seq<Event>, i: Inode, limits: Limits)
    ensures !LookedSince(events, |events|, i, limits) && !LookedLastSince(events, |events|, i, limits)
    ensures !ReadSince(events, |events|, limits)
  {
    hide SightAt;
  }

  /** One more event, seen from `n`. */
  lemma SinceThen(events: seq<Event>, e: Event, n: nat, i: Inode, limits: Limits)
    requires n <= |events|
    ensures var seen := SightAt(events + [e], |events|, limits);
            && (LookedSince(events + [e], n, i, limits) <==> LookedSince(events, n, i, limits) || seen == EmptyAway(i))
            && (LookedLastSince(events + [e], n, i, limits)
                <==> seen == EmptyAway(i) || (LookedLastSince(events, n, i, limits) && !seen.SawLine?))
            && (ReadSince(events + [e], n, limits) <==> ReadSince(events, n, limits) || seen.SawLine?)
  {
    hide SightAt, Run;
    var more := events + [e];
    forall k | 0 <= k < |events|
      ensures SightAt(more, k, limits) == SightAt(events, k, limits)
    {
      SightKept(events, e, k, limits);
    }
    if LookedSince(events, n, i, limits) {
      var a :| n <= a < |events| && SightAt(events, a, limits) == EmptyAway(i);
      assert SightAt(more, a, limits) == EmptyAway(i);
    }
    if LookedLastSince(events, n, i, limits) && !SightAt(more, |events|, limits).SawLine? {
      var a :| n <= a < |events| && SightAt(events, a, limits) == EmptyAway(i)
               && forall k :: a < k < |events| ==> !SightAt(events, k, limits).SawLine?;
      assert SightAt(more, a, limits) == EmptyAway(i);
    }
    if ReadSince(events, n, limits) {
      var a :| n <= a < |events| && SightAt(events, a, limits).SawLine?;
      assert SightAt(more, a, limits).SawLine?;
    }
  }

  /** How one event moves the count while the path is away from the open file. */
  lemma CountMovesAway(s: System, e: Event, i: Inode, limits: Limits)
    requires s.process.tail.eofs <= 1
    requires Step(s, e, limits).process.tail.file == Some(i) && Step(s, e, limits).world.path != Some(i)
    ensures s.process.tail.file == Some(i)
    ensures var seen := if e.Poll? then Sees(s.process, s.world, e.inputs.now) else Nothing;
            && Step(s, e, limits).process.tail.eofs
               == (if seen.SawLine? then 0 else if seen == EmptyAway(i) then 1 else s.process.tail.eofs)
            && (seen == EmptyAway(i) ==> s.process.tail.eofs == 0) && (seen.EmptyAway? ==> seen == EmptyAway(i))
  {
    hide Settles, AfterLine, Calls;
  }

  lemma {:induction false} CountsAreTrue(events: seq<Event>, i: Inode, limits: Limits)
    requires Run(events, limits).process.tail.file == Some(i)
    ensures CountSays(events, i, limits)
    decreases |events|, 1
  {
    EmptyReadsAreCounted(events, limits);
    if Run(events, limits).world.path == Some(i) {
      assert events[..|events|] == events;
      EmptySince(events, i, limits);
      hide LookedSince, LookedLastSince, ReadSince;
    } else {
      CountStaysTrue(events, i, limits);
    }
  }

  lemma CountStaysTrue(events: seq<Event>, i: Inode, limits: Limits)
    requires Run(events, limits).process.tail.file == Some(i) && Run(events, limits).world.path != Some(i)
    ensures CountSays(events, i, limits)
    decreases |events|, 0
  {
    assert events != [];
    var front, e := events[..|events| - 1], events[|events| - 1];
    LastNamedThen(front, e, i, limits);
    assert events == front + [e];
    hide Run, Step, Sees, SightAt, LastNamed, LookedSince, LookedLastSince, ReadSince, QuietSince;
    EmptyReadsAreCounted(front, limits);
    CountMovesAway(Run(front, limits), e, i, limits);
    CountsAreTrue(front, i, limits);
    SinceThen(front, e, LastNamed(front, i, limits), i, limits);
  }

  lemma LastNamedThen(front: seq<Event>, e: Event, i: Inode, limits: Limits)
    requires Run(front + [e], limits).world.path != Some(i)
    ensures var n := LastNamed(front, i, limits);
            LastNamed(front + [e], i, limits) == n && (front + [e])[..n] == front[..n]
    ensures Run(front + [e], limits) == Step(Run(front, limits), e, limits)
    ensures SightAt(front + [e], |front|, limits)
         == if e.Poll? then Sees(Run(front, limits).process, Run(front, limits).world, e.inputs.now) else Nothing
  {
    assert (front + [e])[..|front|] == front;
    hide Step, Sees;
  }

  lemma GivenUpAtTheSecond(s: System, x: Inputs, i: Inode, limits: Limits)
    requires s.process.tail.eofs <= 1
    requires Sees(s.process, s.world, x.now) == EmptyAway(i) && Polled(s, x, limits).process.tail.file != Some(i)
    ensures s.process.tail.file == Some(i) && s.process.tail.eofs == 1
  {
    hide Settles, AfterLine, Calls;
  }

  lemma LastLookIsALook(events: seq<Event>, n: nat, i: Inode, limits: Limits)
    ensures LookedLastSince(events, n, i, limits) ==> LookedSince(events, n, i, limits)
  {
    hide SightAt;
  }

  /** The exact law of the second look. When a rotated file is given up, there was an
      earlier empty read of it since the path last named it, and one with no line read in
      between, if and only if no empty read was counted at that moment or a line has been
      read since. A count from before a cut, or from an earlier absence of the path, is
      what makes the first look the last. */
  lemma SecondLookIffCountWasClear(events: seq<Event>, x: Inputs, i: Inode, limits: Limits)
    requires var s := Run(events, limits);
             Sees(s.process, s.world, x.now) == EmptyAway(i) && Polled(s, x, limits).process.tail.file != Some(i)
    ensures var n := LastNamed(events, i, limits);
            var was := Run(events[..n], limits);
            && was.world.path == was.process.tail.file == Some(i)
            && (forall k :: n < k <= |events| ==> Run(events[..k], limits).world.path != Some(i))
            && (LookedSince(events, n, i, limits) <==> was.process.tail.eofs == 0 || ReadSince(events, n, limits))
            && (LookedSince(events, n, i, limits) ==> LookedLastSince(events, n, i, limits))
  {
    hide Run, SightAt, LastNamed, Polled, Sees, ReadSince, LookedSince, LookedLastSince, QuietSince;
    EmptyReadsAreCounted(events, limits);
    GivenUpAtTheSecond(Run(events, limits), x, i, limits);
    CountsAreTrue(events, i, limits);
    LastLookIsALook(events, LastNamed(events, i, limits), i, limits);
    forall k | LastNamed(events, i, limits) < k <= |events|
      ensures Run(events[..k], limits).world.path != Some(i)
    {
      NotNamedSince(events, i, k, limits);
    }
  }

  // ---- a path that comes back ---------------------------------------------

  /** A file is found empty once while the path is away. The path comes back, the file is
      read again, and only then is it rotated. */
  const RETURN_RUN: seq<Event> := [
    Name(Some(1)), Poll(QUICK), Name(None), Poll(QUICK), Name(Some(1)), Poll(QUICK), Name(Some(2))
  ]

  lemma OpensTheFile(s: System, limits: Limits)
    requires s == Start()
    ensures var s' := Step(Step(s, Name(Some(1)), limits), Poll(QUICK), limits);
            Stands(s', World(map[1 := NO_LINE], Some(1)), Tail(Some(1), 0, 0, Some(1), 0, 0.0, None), 1, {})
  {
  }

  lemma LooksOnce(s: System, limits: Limits)
    requires Stands(s, World(map[1 := NO_LINE], Some(1)), Tail(Some(1), 0, 0, Some(1), 0, 0.0, None), 1, {})
    ensures var s' := Step(Step(s, Name(None), limits), Poll(QUICK), limits);
            Stands(s', World(map[1 := NO_LINE], None), Tail(Some(1), 0, 0, Some(1), 1, 0.0, None), 1, {})
  {
  }

  lemma ReadsItAgain(s: System, limits: Limits)
    requires Stands(s, World(map[1 := NO_LINE], None), Tail(Some(1), 0, 0, Some(1), 1, 0.0, None), 1, {})
    ensures var s' := Step(Step(s, Name(Some(1)), limits), Poll(QUICK), limits);
            Stands(s', World(map[1 := NO_LINE], Some(1)), Tail(Some(1), 0, 0, Some(1), 1, 0.0, None), 1, {})
  {
  }

  lemma GivesItUp(s: System, limits: Limits)
    requires Stands(s, World(map[1 := NO_LINE], Some(1)), Tail(Some(1), 0, 0, Some(1), 1, 0.0, None), 1, {})
    ensures var s' := Step(s, Name(Some(2)), limits);
            && s'.cut == {} && s'.world.path == Some(2) && Sees(s'.process, s'.world, 0.0) == EmptyAway(1)
            && Polled(s', QUICK, limits).process.tail.file == None
  {
  }

  /** No file was cut. Yet file 1 is given up at its first empty read since it was rotated:
      the count is left over from the earlier absence of the path. */
  lemma ReturningPathLeavesTheCount(limits: Limits)
    ensures var s := Run(RETURN_RUN, limits);
            && s.cut == {} && Sees(s.process, s.world, 0.0) == EmptyAway(1)
            && Polled(s, QUICK, limits).process.tail.file == None
    ensures LastNamed(RETURN_RUN, 1, limits) == 6 && !LookedSince(RETURN_RUN, 6, 1, limits)
  {
    var e := RETURN_RUN;
    assert e[..0] == [] && e[..7] == e && e[..|e| - 1] == e[..6] && Run([], limits) == Start();
    assert !ReadSince(e, 6, limits) by {
      hide Run, Sees;
    }
    assert Run(e[..6], limits).world.path == Some(1) ==> LastNamed(e[..6], 1, limits) == 6;
    hide Run, Step, Sees, Polled, ReadSince, LookedSince, LookedLastSince;
    PrefixRuns(e, limits);
    assert Run(e[..1], limits) == Step(Run(e[..0], limits), e[0], limits);
    assert Run(e[..2], limits) == Step(Run(e[..1], limits), e[1], limits);
    OpensTheFile(Run(e[..0], limits), limits);
    assert Run(e[..3], limits) == Step(Run(e[..2], limits), e[2], limits);
    assert Run(e[..4], limits) == Step(Run(e[..3], limits), e[3], limits);
    LooksOnce(Run(e[..2], limits), limits);
    assert Run(e[..5], limits) == Step(Run(e[..4], limits), e[4], limits);
    assert Run(e[..6], limits) == Step(Run(e[..5], limits), e[5], limits);
    ReadsItAgain(Run(e[..4], limits), limits);
    assert Run(e[..7], limits) == Step(Run(e[..6], limits), e[6], limits);
    GivesItUp(Run(e[..6], limits), limits);
    SecondLookIffCountWasClear(e, QUICK, 1, limits);
  }

  lemma RunThen(events: seq<Event>, e: Event, limits: Limits)
    ensures Run(events + [e], limits) == Step(Run(events, limits), e, limits)
  {
    assert (events + [e])[..|events|] == events;
    hide Step;
  }

  // ---- what a restart leaves ----------------------------------------------

  /** The path is not given back to `i`. */
  predicate NeverNamed(more: seq<Event>, i: Inode) {
    forall k :: 0 <= k < |more| ==> more[k] != Name(Some(i))
  }

  /** Nothing of file `i` is read after the first `n` calls. */
  ghost predicate NoneRead(calls: seq<Call>, n: nat, i: Inode) {
    forall j :: n <= j < |calls| ==> calls[j].inode != i
  }

  lemma AbandonedStep(s: System, e: Event, i: Inode, limits: Limits)
    requires s.process.tail.file != Some(i) && s.world.path != Some(i) && e != Name(Some(i))
    ensures var s' := Step(s, e, limits);
            && s'.process.tail.file != Some(i) && s'.world.path != Some(i)
            && s.calls <= s'.calls && NoneRead(s'.calls, |s.calls|, i)
  {
    hide Settles, AfterLine, Calls;
  }

  lemma {:induction false} AbandonedStaysUnread(events: seq<Event>, more: seq<Event>, i: Inode, limits: Limits)
    requires Run(events, limits).process.tail.file != Some(i) && Run(events, limits).world.path != Some(i)
    requires NeverNamed(more, i)
    ensures var s, s' := Run(events, limits), Run(events + more, limits);
            && s'.process.tail.file != Some(i) && s'.world.path != Some(i)
            && s.calls <= s'.calls && NoneRead(s'.calls, |s.calls|, i)
  {
    if more == [] {
      assert events + more == events;
    } else {
      var front, e := more[..|more| - 1], more[|more| - 1];
      assert events + more == events + front + [e];
      hide Run, Step;
      RunThen(events + front, e, limits);
      AbandonedStaysUnread(events, front, i, limits);
      AbandonedStep(Run(events + front, limits), e, i, limits);
    }
  }

  /** A file the path still names is taken up again, and its lines are read. */
  lemma NamedIsReadAgain(s: System, i: Inode, limits: Limits)
    requires Behind(s) && s.process.tail.file == None && s.process.desk.cool.until == 0.0 && s.world.path == Some(i)
    ensures var s' := Step(Step(s, Append(i, seq(s.process.tail.offset + 1, _ => None)), limits), Poll(QUICK), limits);
            !NoneRead(s'.calls, |s.calls|, i)
  {
    var lines: seq<Line> := seq(s.process.tail.offset + 1, _ => None);
    var grown := Step(s, Append(i, lines), limits);
    assert |Content(grown.world, i)| > s.process.tail.offset;
    var s' := Step(grown, Poll(QUICK), limits);
    hide Settles, AfterLine, Calls;
    assert s'.calls[|s.calls|].inode == i;
  }

  lemma NamedCanBeRead(events: seq<Event>, i: Inode, limits: Limits) returns (more: seq<Event>)
    requires var s := Run(events, limits);
             Behind(s) && s.process.tail.file == None && s.process.desk.cool.until == 0.0 && s.world.path == Some(i)
    ensures NeverNamed(more, i) && !NoneRead(Run(events + more, limits).calls, |Run(events, limits).calls|, i)
  {
    hide Run, Step, Behind, NoneRead, NeverNamed;
    var append := Append(i, seq(Run(events, limits).process.tail.offset + 1, _ => None));
    more := [append, Poll(QUICK)];
    var front := events + [append];
    assert events + more == front + [Poll(QUICK)];
    RunThen(events, append, limits);
    RunThen(front, Poll(QUICK), limits);
    NamedIsReadAgain(Run(events, limits), i, limits);
    NotNaming(append, Poll(QUICK), i);
  }

  lemma NotNaming(e: Event, e': Event, i: Inode)
    requires e != Name(Some(i)) && e' != Name(Some(i))
    ensures NeverNamed([e, e'], i)
  {
  }

  /** When a restart loses the rest of an open file, from its place to its end: exactly
      when the path names it no longer. Then nothing of it is read unless the path is
      given back to it; otherwise it can be read on. */
  lemma RestartLosesRestIffPathElsewhere(events: seq<Event>, graceful: bool, i: Inode, limits: Limits)
    requires Run(events, limits).process.tail.file == Some(i)
    ensures Run(events, limits).world.path != Some(i)
            <==> forall more :: NeverNamed(more, i) ==>
                   NoneRead(Run(events + [Stop(graceful)] + more, limits).calls, |Run(events, limits).calls|, i)
  {
    var s, stopped := Run(events, limits), events + [Stop(graceful)];
    RunThen(events, Stop(graceful), limits);
    PlacesAreBehindSettledLines(stopped, limits);
    if s.world.path != Some(i) {
      hide Run, NoneRead, NeverNamed, Behind;
      forall more | NeverNamed(more, i)
        ensures NoneRead(Run(stopped + more, limits).calls, |s.calls|, i)
      {
        AbandonedStaysUnread(stopped, more, i, limits);
      }
    } else {
      var more := NamedCanBeRead(stopped, i, limits);
    }
  }
}
