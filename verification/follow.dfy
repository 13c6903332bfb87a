/** Following the log file: reading, retrying, rotating and resuming, one pass of the
    daemon's loop at a time. nginx appends whole lines, so places are line numbers. */
module Following {
  import opened Options
  import opened Suppression
  import opened Sending

  const GRACE := 2
  const SAVE_EVERY: real := 2.0

  type Inode = nat

  /** What the path names, and every file that it names or some process still has open. */
  datatype World = World(files: map<Inode, seq<Line>>, path: Option<Inode>)

  function Content(w: World, i: Inode): seq<Line> {
    if i in w.files then w.files[i] else []
  }

  datatype Place = Place(offset: nat, inode: Inode)

  /** `file` is the open file; `place` the state file, read only when a process starts. */
  datatype Tail = Tail(file: Option<Inode>, pos: nat, offset: nat, saved: Option<Inode>,
                       eofs: nat, lastSave: real, place: Option<Place>)

  datatype Process = Process(tail: Tail, desk: Desk)

  /** What one pass finds outside: three clock readings, the answer to a report if one is
      sent, and whether the suppression state could be saved. */
  datatype Inputs = Inputs(now: real, sentAt: real, savedAt: real, reply: Reply, saves: bool)

  // ---- one pass -----------------------------------------------------------

  function Begin(place: Option<Place>): Tail {
    if place.Some? then Tail(None, 0, place.value.offset, Some(place.value.inode), 0, 0.0, place)
    else Tail(None, 0, 0, None, 0, 0.0, None)
  }

  /** Opens the path: where a file was left off if this is that file, else at its top. */
  function Opened(t: Tail, w: World): Tail {
    if t.file.Some? || w.path.None? then t
    else
      var i := w.path.value;
      var from := if t.saved == Some(i) && t.offset <= |Content(w, i)| then t.offset else 0;
      t.(file := Some(i), pos := from, offset := from, saved := Some(i))
  }

  function Saved(t: Tail): Tail
    requires t.file.Some?
  {
    t.(place := Some(Place(t.offset, t.file.value)))
  }

  function Checkpoint(t: Tail, now: real): Tail
    requires t.file.Some?
  {
    if now - t.lastSave >= SAVE_EVERY then Saved(t).(lastSave := now) else t
  }

  function Closed(t: Tail): Tail {
    t.(file := None, offset := 0, saved := None)
  }

  /** What a pass sees, once the file is open and no cooldown holds. */
  datatype Sight = Nothing | SawLine(inode: Inode, index: nat) | EmptyHere | EmptyAway(inode: Inode) | Shrunk

  function Sees(s: Process, w: World, now: real): Sight {
    var t := Opened(s.tail, w);
    if t.file.None? || now < s.desk.cool.until then Nothing
    else
      var i := t.file.value;
      if t.pos < |Content(w, i)| then SawLine(i, t.pos)
      else if w.path != t.file then EmptyAway(i)
      else if |Content(w, i)| < t.offset then Shrunk
      else EmptyHere
  }

  function LineAt(w: World, s: Sight): Line {
    if s.SawLine? && s.index < |Content(w, s.inode)| then Content(w, s.inode)[s.index] else None
  }

  function Turn(s: Process, w: World, x: Inputs, limits: Limits): Process {
    var t := Opened(s.tail, w);
    match Sees(s, w, x.now)
    case Nothing => s.(tail := t)
    case SawLine(i, n) =>
      var line := Content(w, i)[n];
      var t' := t.(eofs := 0);
      Process(if Settles(s.desk, line, x.sentAt, x.reply, limits)
            then Checkpoint(t'.(pos := n + 1, offset := n + 1), x.savedAt) else t',
            AfterLine(s.desk, line, x.sentAt, x.reply, x.saves, limits))
    case EmptyHere => s.(tail := Checkpoint(t, x.savedAt))
    case Shrunk => s.(tail := Closed(Checkpoint(t, x.savedAt)))
    case EmptyAway(_) =>
      var c := Checkpoint(t, x.savedAt).(eofs := t.eofs + 1);
      s.(tail := if c.eofs < GRACE then c else Closed(Saved(c)).(eofs := 0))
  }

  class Follower {
    const sup: Suppressor
    const reporter: Reporter
    var file: Option<Inode>
    var pos: nat
    var offset: nat
    var saved: Option<Inode>
    var eofs: nat
    var lastSave: real
    var place: Option<Place>

    function Value(): Process
      reads this, sup, reporter
    {
      Process(Tail(file, pos, offset, saved, eofs, lastSave, place),
            Desk(Daemon(sup.Value(), sup.file), reporter.Value()))
    }

    /** A process starts from what its predecessors left on disk. */
    constructor (limits: Limits, place: Option<Place>, supFile: Option<State>)
      ensures fresh(sup) && fresh(reporter) && sup.limits == limits
      ensures Value() == Process(Begin(place), Desk(Daemon(Load(supFile), supFile), Cooldown(0.0, 0)))
    {
      sup := new Suppressor(limits, supFile);
      reporter := new Reporter();
      file, pos, eofs, lastSave := None, 0, 0, 0.0;
      this.place := place;
      offset := if place.Some? then place.value.offset else 0;
      saved := if place.Some? then Some(place.value.inode) else None;
    }

    method SaveOffset()
      requires file.Some?
      modifies this`place
      ensures place == Some(Place(offset, file.value))
    {
      place := Some(Place(offset, file.value));
    }

    method SaveNowAndThen(now: real)
      requires file.Some?
      modifies this`place, this`lastSave
      ensures Value().tail == Checkpoint(old(Value()).tail, now)
    {
      if now - lastSave >= SAVE_EVERY {
        SaveOffset();
        lastSave := now;
      }
    }

    /** Opens the path if no file is open: where that file was left off, or at its top. */
    method OpenPath(w: World)
      modifies this`file, this`pos, this`offset, this`saved
      ensures Value() == old(Value()).(tail := Opened(old(Value()).tail, w))
    {
      if file.None? && w.path.Some? {
        file := w.path;
        if file == saved && offset <= |Content(w, file.value)| {
          pos := offset;
        } else {
          pos := 0;
          offset := 0;
        }
        saved := file;
      }
    }

    /** Nothing to read: the file is up to date, was cut, or is no longer the path's. */
    method AtEnd(w: World, x: Inputs)
      requires file.Some?
      modifies this
      ensures var t, i := old(Value()).tail, old(file).value;
              var c := Checkpoint(t, x.savedAt);
              var away := c.(eofs := t.eofs + 1);
              Value() == old(Value()).(tail :=
                if w.path == Some(i) then (if |Content(w, i)| < t.offset then Closed(c) else c)
                else if away.eofs < GRACE then away else Closed(Saved(away)).(eofs := 0))
    {
      SaveNowAndThen(x.savedAt);
      if w.path == file {
        if |Content(w, file.value)| < offset {
          file, offset, saved := None, 0, None;
        }
      } else {
        eofs := eofs + 1;
        if eofs >= GRACE {
          SaveOffset();
          file, offset, saved, eofs := None, 0, None, 0;
        }
      }
    }

    /** One pass of the loop. */
    method Pass(w: World, x: Inputs)
      modifies this, sup, reporter
      ensures Value() == Turn(old(Value()), w, x, sup.limits)
    {
      OpenPath(w);
      if file.None? || reporter.InCooldown(x.now) > 0.0 {
        return;
      }
      var content := Content(w, file.value);
      if pos < |content| {
        eofs := 0;
        var done := ProcessLine(content[pos], sup, reporter, x.sentAt, x.reply, x.saves);
        if done {
          pos := pos + 1;
          offset := pos;
          SaveNowAndThen(x.savedAt);
        }
      } else {
        AtEnd(w, x);
      }
    }
  }
}
