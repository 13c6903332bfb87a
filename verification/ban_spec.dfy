/** The ban engine on values: what each call does to the queue of address records.
    The heap version in BanZone is proved to compute exactly these functions. */
module BanSpec {
  import opened Options
  import opened Words

  const SCAN := 32
  const EVICT := 4
  const TIME_MAX: int := 0x7FFF_FFFF_FFFF_FFFF

  /** `time_t`, from the epoch on. */
  type Time = t: int | 0 <= t <= TIME_MAX

  /** `now + delta`, saturating instead of overflowing. */
  function AddClamp(now: Time, delta: nat): (r: Time)
    ensures now <= r
    ensures r == if now + delta <= 9223372036854775807 then now + delta else 9223372036854775807
  {
    if delta > TIME_MAX - now then TIME_MAX else now + delta
  }

  /** An address as stored: the hash of its bytes, and the bytes. */
  datatype Key = Key(hash: nat, addr: seq<Byte>)

  datatype Rec = Rec(key: Key, windowStart: Time, bannedUntil: Time, hits: nat)

  /** The queue runs from the most recently touched record to the least; the cursor is
      where the next eviction walk starts, None being the sentinel. */
  datatype Zone = Zone(queue: seq<Rec>, cursor: Option<Key>, bans: nat)

  datatype Policy = Policy(count: nat, window: nat, banTime: nat)

  function EmptyZone(): Zone {
    Zone([], None, 0)
  }

  // ---- the queue ----------------------------------------------------------

  function IndexOf(q: seq<Rec>, k: Key): (i: nat)
    ensures i <= |q|
    ensures i < |q| ==> q[i].key == k
    ensures forall j :: 0 <= j < i ==> q[j].key != k
  {
    if q == [] then 0
    else if q[0].key == k then 0
    else
      assert forall j :: 1 <= j < |q| ==> q[1..][j - 1] == q[j];
      1 + IndexOf(q[1..], k)
  }

  predicate Has(q: seq<Rec>, k: Key) {
    IndexOf(q, k) < |q|
  }

  function Get(q: seq<Rec>, k: Key): Option<Rec> {
    if Has(q, k) then Some(q[IndexOf(q, k)]) else None
  }

  function RemoveAt(q: seq<Rec>, i: nat): (r: seq<Rec>)
    requires i < |q|
    ensures |r| == |q| - 1
  {
    q[..i] + q[i + 1..]
  }

  /** A lookup moves the record it finds to the head. */
  function Rehead(q: seq<Rec>, k: Key): seq<Rec> {
    if Has(q, k) then [q[IndexOf(q, k)]] + RemoveAt(q, IndexOf(q, k)) else q
  }

  ghost predicate DistinctKeys(q: seq<Rec>) {
    forall i, j :: 0 <= i < j < |q| ==> q[i].key != q[j].key
  }

  // ---- eviction -----------------------------------------------------------

  /** Governed by one clock only: an armed record by its ban, an unarmed one by its
      counting window. */
  predicate Live(r: Rec, now: Time, window: nat) {
    || r.bannedUntil > now
    || (r.bannedUntil == 0 && r.windowStart <= now && AddClamp(r.windowStart, window) > now)
  }

  datatype Walked = Walked(queue: seq<Rec>, pos: int)

  /** The walk from position `pos` towards the head; -1 is the sentinel. It judges at
      most SCAN records, frees at most EVICT, and wraps to the tail at most once. */
  function Walk(q: seq<Rec>, pos: int, scanned: nat, evicted: nat, wrapped: bool, now: Time, window: nat): (r: Walked)
    requires -1 <= pos < |q|
    ensures -1 <= r.pos < |r.queue|
    decreases SCAN - scanned, if wrapped then 0 else 1
  {
    if scanned >= SCAN || evicted >= EVICT then Walked(q, pos)
    else if pos == -1 then
      if wrapped then Walked(q, pos) else Walk(q, |q| - 1, scanned, evicted, true, now, window)
    else if Live(q[pos], now, window) then Walk(q, pos - 1, scanned + 1, evicted, wrapped, now, window)
    else Walk(RemoveAt(q, pos), pos - 1, scanned + 1, evicted + 1, wrapped, now, window)
  }

  /** One step of the eviction walk. */
  lemma WalkStep(q: seq<Rec>, pos: int, scanned: nat, evicted: nat, wrapped: bool, now: Time, window: nat)
    requires -1 <= pos < |q|
    ensures var w := Walk(q, pos, scanned, evicted, wrapped, now, window);
            if scanned >= SCAN || evicted >= EVICT || (pos == -1 && wrapped) then
              w == Walked(q, pos)
            else if pos == -1 then w == Walk(q, |q| - 1, scanned, evicted, true, now, window)
            else if Live(q[pos], now, window) then
              w == Walk(q, pos - 1, scanned + 1, evicted, wrapped, now, window)
            else
              w == Walk(RemoveAt(q, pos), pos - 1, scanned + 1, evicted + 1, wrapped, now, window)
  {
  }

  /** Where a call resumes: at the cursor's record, or at the tail. */
  function StartPos(z: Zone): (pos: int)
    ensures -1 <= pos < |z.queue|
  {
    if z.cursor.Some? && Has(z.queue, z.cursor.value) then IndexOf(z.queue, z.cursor.value) else |z.queue| - 1
  }

  function Park(w: Walked, bans: nat): Zone
    requires -1 <= w.pos < |w.queue|
  {
    Zone(w.queue, if w.pos == -1 then None else Some(w.queue[w.pos].key), bans)
  }

  function Expire(z: Zone, now: Time, window: nat): Zone {
    Park(Walk(z.queue, StartPos(z), 0, 0, z.cursor.None?, now, window), z.bans)
  }

  // ---- recording ----------------------------------------------------------

  /** A lapsed ban is retired, whether or not the window rolls. */
  function Retire(r: Rec, now: Time): Rec {
    if r.bannedUntil != 0 && r.bannedUntil <= now then r.(bannedUntil := 0) else r
  }

  /** A window that has elapsed, or lies in the future, starts afresh. */
  function Roll(r: Rec, now: Time, window: nat): Rec {
    if now < r.windowStart || now - r.windowStart >= window then r.(windowStart := now, hits := 0) else r
  }

  function Bump(r: Rec): Rec {
    r.(hits := r.hits + 1)
  }

  predicate Arms(r: Rec, now: Time, p: Policy) {
    Bump(Roll(Retire(r, now), now, p.window)).hits >= p.count
  }

  function Touch(r: Rec, now: Time, p: Policy): Rec {
    var b := Bump(Roll(Retire(r, now), now, p.window));
    if Arms(r, now, p) then b.(bannedUntil := AddClamp(now, p.banTime), hits := 0, windowStart := now) else b
  }

  function Fresh(k: Key, now: Time): Rec {
    Rec(k, now, 0, 0)
  }

  function Lookup(z: Zone, k: Key): Zone {
    z.(queue := Rehead(z.queue, k))
  }

  datatype Answer = Banned(yes: bool) | Recorded(ok: bool)

  datatype Step = Step(zone: Zone, answer: Answer)

  function IsBanned(z: Zone, k: Key, now: Time): Step {
    var r := Get(z.queue, k);
    Step(Lookup(z, k), Banned(r.Some? && r.value.bannedUntil > now))
  }

  /** Find or create the record at the head; `memory` says whether the slab has a block. */
  function Prepare(z: Zone, k: Key, now: Time, window: nat, memory: bool): (r: Option<Zone>)
    ensures r.Some? ==> r.value.queue != [] && r.value.queue[0].key == k
  {
    if Has(z.queue, k) then Some(Lookup(z, k))
    else if !memory then None
    else var e := Expire(z, now, window); Some(e.(queue := [Fresh(k, now)] + e.queue))
  }

  function Record(z: Zone, k: Key, now: Time, p: Policy, memory: bool): Step {
    var at := Prepare(z, k, now, p.window, memory);
    if at.None? then Step(Expire(z, now, p.window), Recorded(false))
    else
      var q := at.value.queue;
      var bans := at.value.bans + if Arms(q[0], now, p) then 1 else 0;
      Step(at.value.(queue := q[0 := Touch(q[0], now, p)], bans := bans), Recorded(true))
  }

  // ---- runs ---------------------------------------------------------------

  /** One call into the engine. */
  datatype Op = Check(key: Key, now: Time) | Hit(key: Key, now: Time, memory: bool)

  function Apply(z: Zone, op: Op, p: Policy): Step {
    match op
    case Check(k, now) => IsBanned(z, k, now)
    case Hit(k, now, memory) => Record(z, k, now, p, memory)
  }

  function Run(z: Zone, ops: seq<Op>, p: Policy): Zone {
    if ops == [] then z else Apply(Run(z, ops[..|ops| - 1], p), ops[|ops| - 1], p).zone
  }

  function Answers(z: Zone, ops: seq<Op>, p: Policy): (r: seq<Answer>)
    ensures |r| == |ops|
  {
    if ops == [] then []
    else
      var front := ops[..|ops| - 1];
      Answers(z, front, p) + [Apply(Run(z, front, p), ops[|ops| - 1], p).answer]
  }
}
