/** How much a crash repeats: only lines settled within two seconds of the last save. */
module FollowCrashes {
  import opened Options
  import Suppression
  import opened Sending
  import opened Following
  import opened FollowRuns

  type Limits = Suppression.Limits

  /** The last reading of the clock, zero before the first. */
  function LastReading(events: seq<Event>): real {
    if events == [] then 0.0
    else
      var e := events[|events| - 1];
      if e.Poll? then e.inputs.savedAt else LastReading(events[..|events| - 1])
  }

  /** The clock does not go back, from poll to poll and within one. */
  predicate Steady(events: seq<Event>) {
    events == [] ||
    (var front, e := events[..|events| - 1], events[|events| - 1];
     Steady(front) && (e.Poll? ==> LastReading(front) <= e.inputs.now <= e.inputs.savedAt))
  }

  /** Where a crash would take the open file up again. */
  function Resume(t: Tail): nat
    requires t.file.Some?
  {
    if t.place.Some? && t.place.value.inode == t.file.value then t.place.value.offset else 0
  }

  /** Line `k` was settled in this opening of the file, within two seconds of the last
      save. */
  ghost predicate JustSettled(s: System, k: nat) {
    exists j :: 0 <= j < |s.calls|
      && var c, t := s.calls[j], s.process.tail;
         && c.life == s.life && c.session == s.session && t.file == Some(c.inode) && c.index == k && c.done
         && t.lastSave <= c.at < t.lastSave + 2.0
  }

  /** What is not yet saved has just been settled. */
  ghost predicate UnsavedIsRecent(s: System, clock: real) {
    var t := s.process.tail;
    && t.lastSave <= clock
    && (t.file.None? && t.saved.Some? ==> t.place == Some(Place(t.offset, t.saved.value)))
    && (t.file.Some? && t.file.value !in s.cut ==> forall k :: Resume(t) <= k < t.pos ==> JustSettled(s, k))
  }

  lemma JustSettledStays(s: System, s': System, k: nat)
    requires JustSettled(s, k) && s.calls <= s'.calls && s'.life == s.life && s'.session == s.session
    requires s'.process.tail.file == s.process.tail.file && s'.process.tail.lastSave == s.process.tail.lastSave
    ensures JustSettled(s', k)
  {
    var j :| 0 <= j < |s.calls|
      && var c, t := s.calls[j], s.process.tail;
         && c.life == s.life && c.session == s.session && t.file == Some(c.inode) && c.index == k && c.done
         && t.lastSave <= c.at < t.lastSave + 2.0;
    assert s'.calls[j] == s.calls[j];
  }

  /** Opening a file leaves nothing unsaved. */
  lemma OpenedIsSaved(s: System, clock: real)
    requires Behind(s) && UnsavedIsRecent(s, clock) && s.process.tail.file.None?
    ensures var t := Opened(s.process.tail, s.world);
            && t.lastSave == s.process.tail.lastSave
            && (t.file.Some? && t.file.value !in s.cut ==> t.pos <= Resume(t))
  {
  }

  /** What a poll that keeps its file does to the tail and the calls. */
  lemma PollMoves(s: System, x: Inputs, limits: Limits)
    requires Polled(s, x, limits).process.tail.file.Some?
    ensures var t, t', s' := Opened(s.process.tail, s.world), Polled(s, x, limits).process.tail, Polled(s, x, limits);
            && t.file == t'.file && s.calls <= s'.calls && s'.life == s.life && s'.cut == s.cut
            && s'.session == Opening(s) && t.pos <= t'.pos <= t.pos + 1
            && ((t'.place == t.place && t'.lastSave == t.lastSave)
                || (t'.place == Some(Place(t'.offset, t'.file.value)) && t'.lastSave == x.savedAt))
            && (t'.pos == t.pos + 1 && t'.place == t.place && t'.lastSave == t.lastSave ==>
                  t'.offset == t'.pos && x.savedAt - t.lastSave < 2.0
                  && |s'.calls| == |s.calls| + 1
                  && var c := s'.calls[|s.calls|];
                     c.life == s.life && c.session == s'.session && c.inode == t.file.value && c.index == t.pos && c.done
                     && c.at == x.now)
  {
    hide Settles, AfterLine, Calls;
  }

  /** Between rotations the place is saved at most every two seconds. */
  lemma SavesAreTwoSecondsApart(s: System, x: Inputs, limits: Limits)
    ensures var t, t' := s.process.tail, Polled(s, x, limits).process.tail;
            && (t'.lastSave == t.lastSave || (t'.lastSave == x.savedAt && x.savedAt - t.lastSave >= 2.0))
            && (t'.file.Some? && t'.place != t.place ==> t'.lastSave == x.savedAt)
  {
    hide Settles, AfterLine, Calls;
  }

  lemma PollKeepsRecent(s: System, x: Inputs, clock: real, limits: Limits)
    requires Behind(s) && UnsavedIsRecent(s, clock) && clock <= x.now <= x.savedAt
    requires Polled(s, x, limits).process.tail.file.Some?
    ensures UnsavedIsRecent(Polled(s, x, limits), x.savedAt)
  {
    hide JustSettled, Opened, Polled;
    PollKeepsBehind(s, x, limits);
    PollMoves(s, x, limits);
    var t, s' := Opened(s.process.tail, s.world), Polled(s, x, limits);
    var t' := s'.process.tail;
    if s.process.tail.file.None? {
      OpenedIsSaved(s, clock);
    } else {
      OpenStaysOpen(s);
    }
    if t'.file.value !in s'.cut {
      forall k | Resume(t') <= k < t'.pos
        ensures JustSettled(s', k)
      {
        if k == t.pos {
          LastCallIsRecent(s', k);
        } else {
          JustSettledStays(s, s', k);
        }
      }
    }
  }

  lemma OpenStaysOpen(s: System)
    requires s.process.tail.file.Some?
    ensures Opened(s.process.tail, s.world) == s.process.tail && Opening(s) == s.session
  {
  }

  lemma LastCallIsRecent(s: System, k: nat)
    requires s.calls != []
    requires var c, t := s.calls[|s.calls| - 1], s.process.tail;
             && c.life == s.life && c.session == s.session && t.file == Some(c.inode) && c.index == k && c.done
             && t.lastSave <= c.at < t.lastSave + 2.0
    ensures JustSettled(s, k)
  {
  }

  /** A file that is closed leaves no place, and a clock that is not behind. */
  lemma ClosingKeepsRecent(s: System, x: Inputs, clock: real, limits: Limits)
    requires UnsavedIsRecent(s, clock) && clock <= x.now <= x.savedAt
    requires Polled(s, x, limits).process.tail.file.None?
    ensures UnsavedIsRecent(Polled(s, x, limits), x.savedAt)
  {
    hide JustSettled, Settles, AfterLine, Calls;
  }

  /** Anything but a poll. */
  lemma WorldKeepsRecent(s: System, e: Event, clock: real, limits: Limits)
    requires Behind(s) && UnsavedIsRecent(s, clock) && !e.Poll? && 0.0 <= clock
    ensures UnsavedIsRecent(Step(s, e, limits), clock)
  {
    var s' := Step(s, e, limits);
    if s'.process.tail.file.Some? && s'.process.tail.file.value !in s'.cut {
      forall k | Resume(s'.process.tail) <= k < s'.process.tail.pos
        ensures JustSettled(s', k)
      {
        JustSettledStays(s, s', k);
      }
    }
    hide JustSettled;
  }

  lemma {:induction false} UnsavedIsAlwaysRecent(events: seq<Event>, limits: Limits)
    requires Steady(events)
    ensures UnsavedIsRecent(Run(events, limits), LastReading(events)) && 0.0 <= LastReading(events)
  {
    hide UnsavedIsRecent, Behind, Step, Polled;
    if events == [] {
      StartIsRecent();
    } else {
      var front, e := events[..|events| - 1], events[|events| - 1];
      UnsavedIsAlwaysRecent(front, limits);
      PlacesAreBehindSettledLines(front, limits);
      StepKeepsRecent(Run(front, limits), e, LastReading(front), limits);
    }
  }

  lemma StartIsRecent()
    ensures UnsavedIsRecent(Start(), 0.0)
  {
  }

  lemma StepKeepsRecent(s: System, e: Event, clock: real, limits: Limits)
    requires Behind(s) && UnsavedIsRecent(s, clock) && 0.0 <= clock
    requires e.Poll? ==> clock <= e.inputs.now <= e.inputs.savedAt
    ensures UnsavedIsRecent(Step(s, e, limits), if e.Poll? then e.inputs.savedAt else clock)
  {
    hide UnsavedIsRecent, Behind, Polled;
    if !e.Poll? {
      WorldKeepsRecent(s, e, clock, limits);
    } else if Polled(s, e.inputs, limits).process.tail.file.Some? {
      PollKeepsRecent(s, e.inputs, clock, limits);
    } else {
      ClosingKeepsRecent(s, e.inputs, clock, limits);
    }
  }

  /** On every run with a steady clock: what a crash repeats of an append-only file that
      the path still names was settled in this very opening, in the two seconds after the
      last save. */
  lemma CrashRepeatsTwoSeconds(events: seq<Event>, i: Inode, limits: Limits)
    requires Steady(events)
    requires var s := Run(events, limits); s.process.tail.file == Some(i) == s.world.path && i !in s.cut
    ensures var s, s' := Run(events, limits), Stopped(Run(events, limits), false);
            forall k :: Opened(s'.process.tail, s'.world).pos <= k < s.process.tail.pos ==> JustSettled(s, k)
  {
    UnsavedIsAlwaysRecent(events, limits);
    PlacesAreBehindSettledLines(events, limits);
    hide Run, JustSettled, SettledTo;
  }

  /** Right after a poll that settled a line or found none, these are lines of the last two
      seconds. */
  lemma CrashRepeatsLastTwoSeconds(events: seq<Event>, x: Inputs, i: Inode, k: nat, limits: Limits)
    requires Steady(events + [Poll(x)])
    requires var s := Run(events, limits);
             var seen := Sees(s.process, s.world, x.now);
             && !seen.Nothing?
             && (seen.SawLine? ==> Settles(s.process.desk, LineAt(s.world, seen), x.sentAt, x.reply, limits))
    requires var s := Run(events + [Poll(x)], limits);
             && s.process.tail.file == Some(i) == s.world.path && i !in s.cut
             && Opened(Stopped(s, false).process.tail, s.world).pos <= k < s.process.tail.pos
    ensures exists c :: c in Run(events + [Poll(x)], limits).calls
                        && c.inode == i && c.index == k && c.done && x.savedAt - 2.0 < c.at
  {
    var s, s' := Run(events, limits), Run(events + [Poll(x)], limits);
    assert (events + [Poll(x)])[..|events|] == events && s' == Polled(s, x, limits);
    hide Run, Polled, Sees, Settles, Opened, Steady, Safe;
    CrashRepeatsTwoSeconds(events + [Poll(x)], i, limits);
    PlaceIsRecent(s, x, limits);
    PlacesAreBehindSettledLines(events + [Poll(x)], limits);
    RestartResumesInPlaceIffSaved(s', false, i);
    assert JustSettled(s', k);
    var j :| 0 <= j < |s'.calls|
      && var c, t := s'.calls[j], s'.process.tail;
         && c.life == s'.life && c.session == s'.session && t.file == Some(c.inode) && c.index == k && c.done
         && t.lastSave <= c.at < t.lastSave + 2.0;
    assert s'.calls[j] in s'.calls;
  }
}
