/** The record writer: one JSON object per hit, in which the request line is the only
    field an outsider controls. */
module LogRecord {
  import opened Words

  const MAX_REQUEST := 600
  const UINT_LIMIT: nat := 0x1_0000_0000_0000_0000

  /** The bytes of an ASCII text. */
  function Ascii(s: string): (w: Word)
    requires forall i :: 0 <= i < |s| ==> s[i] < 128 as char
    ensures |w| == |s|
  {
    seq(|s|, i requires 0 <= i < |s| => s[i] as int)
  }

  // ---- escaping -----------------------------------------------------------

  function HexDigit(d: nat): Byte
    requires d < 16
  {
    if d < 10 then '0' as int + d else 'a' as int + d - 10
  }

  /** `%04xd` of a number below 2^16. */
  function Hex4(n: nat): (w: Word)
    requires n < 0x1_0000
    ensures |w| == 4
  {
    [HexDigit(n / 0x1000), HexDigit(n / 0x100 % 0x10), HexDigit(n / 0x10 % 0x10), HexDigit(n % 0x10)]
  }

  function Escape(c: Byte): (w: Word)
    ensures 1 <= |w| <= 6
  {
    if c == '"' as int || c == '\\' as int then ['\\' as int, c]
    else if c == '\n' as int then ['\\' as int, 'n' as int]
    else if c == '\r' as int then ['\\' as int, 'r' as int]
    else if c == '\t' as int then ['\\' as int, 't' as int]
    else if c < 0x20 || c >= 0x80 then ['\\' as int, 'u' as int] + Hex4(c)
    else [c]
  }

  function EscapeAll(w: Word): (e: Word)
    ensures |e| <= 6 * |w|
  {
    if w == [] then [] else EscapeAll(Parent(w)) + Escape(w[|w| - 1])
  }

  // ---- reading a string back ----------------------------------------------

  /** What a JSON reader makes of the bytes after an opening quote. */
  datatype Reading = Reading(points: seq<nat>, rest: Word) | Malformed

  function HexValue(b: Byte): (d: int)
    ensures d < 16
  {
    if '0' as int <= b <= '9' as int then b - '0' as int
    else if 'a' as int <= b <= 'f' as int then b - 'a' as int + 10
    else if 'A' as int <= b <= 'F' as int then b - 'A' as int + 10
    else -1
  }

  function Put(point: nat, r: Reading): Reading {
    if r.Malformed? then r else Reading([point] + r.points, r.rest)
  }

  /** A string by section 7 of RFC 8259, up to its closing quote. Raw control bytes are
      malformed there; raw high bytes, whose meaning depends on an encoding, are here. */
  function ReadString(w: Word): Reading {
    if w == [] || w[0] < 0x20 || w[0] >= 0x80 then Malformed
    else if w[0] == '"' as int then Reading([], w[1..])
    else if w[0] != '\\' as int then Put(w[0], ReadString(w[1..]))
    else if |w| < 2 then Malformed
    else if w[1] == '"' as int || w[1] == '\\' as int || w[1] == '/' as int then Put(w[1], ReadString(w[2..]))
    else if w[1] == 'b' as int then Put(8, ReadString(w[2..]))
    else if w[1] == 'f' as int then Put(12, ReadString(w[2..]))
    else if w[1] == 'n' as int then Put(10, ReadString(w[2..]))
    else if w[1] == 'r' as int then Put(13, ReadString(w[2..]))
    else if w[1] == 't' as int then Put(9, ReadString(w[2..]))
    else if w[1] != 'u' as int || |w| < 6 then Malformed
    else
      var a, b, c, d := HexValue(w[2]), HexValue(w[3]), HexValue(w[4]), HexValue(w[5]);
      if a < 0 || b < 0 || c < 0 || d < 0 then Malformed
      else Put(((a * 16 + b) * 16 + c) * 16 + d, ReadString(w[6..]))
  }

  /** The bytes of a text, each as the code point of its value. */
  function Points(w: Word): (p: seq<nat>)
    ensures |p| == |w|
  {
    seq(|w|, i requires 0 <= i < |w| => w[i])
  }

  lemma HexRoundTrip(c: Byte)
    ensures var h := Hex4(c);
            && HexValue(h[0]) == 0 && HexValue(h[1]) == 0
            && HexValue(h[2]) == c / 16 && HexValue(h[3]) == c % 16
  {
  }

  /** One escaped byte reads back as its code point. */
  lemma EscapeReadsBack(c: Byte, rest: Word)
    ensures ReadString(Escape(c) + rest) == Put(c, ReadString(rest))
  {
    var w := Escape(c) + rest;
    if |Escape(c)| == 6 {
      HexRoundTrip(c);
      assert w[6..] == rest;
      assert w[2] == Hex4(c)[0] && w[3] == Hex4(c)[1] && w[4] == Hex4(c)[2] && w[5] == Hex4(c)[3];
      assert c == c / 16 * 16 + c % 16;
    } else if |Escape(c)| == 2 {
      assert w[2..] == rest;
    } else {
      assert w[1..] == rest;
    }
  }

  function PutAll(points: seq<nat>, r: Reading): Reading {
    if r.Malformed? then r else Reading(points + r.points, r.rest)
  }

  lemma PutAllSnoc(points: seq<nat>, c: nat, r: Reading)
    ensures PutAll(points, Put(c, r)) == PutAll(points + [c], r)
  {
  }

  lemma EscapeSplits(w: Word, rest: Word)
    requires w != []
    ensures EscapeAll(w) + rest == EscapeAll(Parent(w)) + (Escape(w[|w| - 1]) + rest)
  {
  }

  lemma {:induction false} EscapedReadsBack(w: Word, rest: Word)
    ensures ReadString(EscapeAll(w) + rest) == PutAll(Points(w), ReadString(rest))
  {
    if w == [] {
      assert EscapeAll(w) + rest == rest;
    } else {
      var c := w[|w| - 1];
      assert Points(w) == Points(Parent(w)) + [c];
      hide Points, Escape, EscapeAll, ReadString, PutAll, Put;
      EscapeSplits(w, rest);
      EscapedReadsBack(Parent(w), Escape(c) + rest);
      EscapeReadsBack(c, rest);
      PutAllSnoc(Points(Parent(w)), c, ReadString(rest));
    }
  }

  /** A raw byte that could break a line, or the text, out of its record. */
  predicate Printable(w: Word) {
    forall i :: 0 <= i < |w| ==> 0x20 <= w[i] < 0x80
  }

  lemma Appended(a: Word, b: Word)
    ensures Printable(a + b) <==> Printable(a) && Printable(b)
  {
    assert forall i :: 0 <= i < |a| ==> (a + b)[i] == a[i];
    assert forall i :: 0 <= i < |b| ==> (a + b)[|a| + i] == b[i];
  }

  lemma EscapeIsPrintable(c: Byte)
    ensures Printable(Escape(c))
  {
  }

  lemma {:induction false} EscapedIsPrintable(w: Word)
    ensures Printable(EscapeAll(w))
  {
    if w != [] {
      EscapedIsPrintable(Parent(w));
      EscapeIsPrintable(w[|w| - 1]);
      hide Printable, Escape;
      Appended(EscapeAll(Parent(w)), Escape(w[|w| - 1]));
    }
  }

  // ---- the record ---------------------------------------------------------

  function Pow10(k: nat): (r: nat)
    ensures r >= 1
  {
    if k == 0 then 1 else 10 * Pow10(k - 1)
  }

  /** `%ui` */
  function Decimal(n: nat): (w: Word)
    ensures Printable(w)
  {
    if n < 10 then ['0' as int + n] else Decimal(n / 10) + ['0' as int + n % 10]
  }

  lemma {:induction false} DecimalLength(n: nat, k: nat)
    requires k >= 1 && n < Pow10(k)
    ensures |Decimal(n)| <= k
  {
    if n >= 10 {
      DecimalLength(n / 10, k - 1);
    }
  }

  datatype Trusted = Trusted(time: Word, ip: Word, category: Word, source: Word, block: bool, status: nat)

  /** A member name and the value after it. */
  function Field(name: string, value: Word): Word
    requires forall i :: 0 <= i < |name| ==> name[i] < 128 as char
  {
    Ascii(name) + value
  }

  /** Everything before the request line's text. */
  function Opening(t: Trusted): Word {
    Field("{\"ts\":\"", t.time) + Field("\",\"ip\":\"", t.ip) + Field("\",\"cat\":\"", t.category)
    + Field("\",\"src\":\"", t.source)
    + Field("\",\"mode\":\"", if t.block then Ascii("block") else Ascii("detect"))
    + Field("\",\"status\":", Decimal(if t.block then t.status else 0))
    + Field(",\"req\":\"", [])
  }

  /** The first 600 bytes. */
  function Bounded(request: Word): (r: Word)
    ensures |r| <= MAX_REQUEST && |r| <= |request|
  {
    if |request| > MAX_REQUEST then request[..MAX_REQUEST] else request
  }

  function Record(t: Trusted, request: Word): Word {
    Opening(t) + EscapeAll(Bounded(request)) + Ascii("\"}")
  }

  function Capacity(t: Trusted, request: Word): nat {
    |t.time| + |t.ip| + |t.category| + |t.source| + |Bounded(request)| * 6 + 160
  }

  /** The fixed text and the status leave 72 of the 160 spare bytes. */
  lemma OpeningFits(t: Trusted, request: Word)
    requires t.status < UINT_LIMIT
    ensures |Opening(t)| + 6 * |Bounded(request)| + 72 <= Capacity(t, request)
  {
    assert Pow10(20) == 100000000000000000000 by {
      assert Pow10(10) == 10000000000;
    }
    DecimalLength(t.status, 20);
  }

  /** The main law of the record: a JSON reader that reaches the text of the request line
      gets back exactly its first 600 bytes and stops at the record's own closing quote. */
  lemma RequestReadsBack(t: Trusted, request: Word)
    ensures Opening(t) <= Record(t, request)
    ensures ReadString(Record(t, request)[|Opening(t)|..]) == Reading(Points(Bounded(request)), ['}' as int])
  {
    hide Opening;
    var w := EscapeAll(Bounded(request));
    var tail := Ascii("\"}");
    assert Record(t, request)[|Opening(t)|..] == w + tail;
    EscapedReadsBack(Bounded(request), tail);
    assert tail[1..] == ['}' as int];
    assert ReadString(tail) == Reading([], ['}' as int]);
  }

  ghost predicate TrustedPrintable(t: Trusted) {
    Printable(t.time) && Printable(t.ip) && Printable(t.category) && Printable(t.source)
  }

  lemma FieldIsPrintable(name: string, value: Word)
    requires forall i :: 0 <= i < |name| ==> 32 as char <= name[i] < 128 as char
    requires Printable(value)
    ensures Printable(Field(name, value))
  {
  }

  lemma Joined(a: Word, b: Word, c: Word, d: Word, e: Word, f: Word, g: Word)
    requires Printable(a) && Printable(b) && Printable(c) && Printable(d) && Printable(e) && Printable(f) && Printable(g)
    ensures Printable(a + b + c + d + e + f + g)
  {
    hide Printable;
    Appended(a, b);
    Appended(a + b, c);
    Appended(a + b + c, d);
    Appended(a + b + c + d, e);
    Appended(a + b + c + d + e, f);
    Appended(a + b + c + d + e + f, g);
  }

  /** The mode, the status and the start of the request. */
  lemma ClosingFieldsArePrintable(t: Trusted)
    ensures Printable(Field("\",\"mode\":\"", if t.block then Ascii("block") else Ascii("detect")))
    ensures Printable(Field("\",\"status\":", Decimal(if t.block then t.status else 0)))
    ensures Printable(Field(",\"req\":\"", []))
  {
    FieldIsPrintable("\",\"mode\":\"", if t.block then Ascii("block") else Ascii("detect"));
    FieldIsPrintable("\",\"status\":", Decimal(if t.block then t.status else 0));
    FieldIsPrintable(",\"req\":\"", []);
  }

  lemma OpeningIsPrintable(t: Trusted)
    requires TrustedPrintable(t)
    ensures Printable(Opening(t))
  {
    hide Printable, Field, Ascii, Decimal;
    FieldIsPrintable("{\"ts\":\"", t.time);
    FieldIsPrintable("\",\"ip\":\"", t.ip);
    FieldIsPrintable("\",\"cat\":\"", t.category);
    FieldIsPrintable("\",\"src\":\"", t.source);
    ClosingFieldsArePrintable(t);
    Joined(Field("{\"ts\":\"", t.time), Field("\",\"ip\":\"", t.ip), Field("\",\"cat\":\"", t.category),
           Field("\",\"src\":\"", t.source),
           Field("\",\"mode\":\"", if t.block then Ascii("block") else Ascii("detect")),
           Field("\",\"status\":", Decimal(if t.block then t.status else 0)), Field(",\"req\":\"", []));
  }

  /** No raw control or high byte reaches the sink, whatever was requested. */
  lemma RecordIsPrintable(t: Trusted, request: Word)
    requires TrustedPrintable(t)
    ensures Printable(Record(t, request))
  {
    EscapedIsPrintable(Bounded(request));
    OpeningIsPrintable(t);
    assert Printable(Ascii("\"}"));
    hide Opening, EscapeAll, Ascii, Printable;
    Appended(Opening(t), EscapeAll(Bounded(request)));
    Appended(Opening(t) + EscapeAll(Bounded(request)), Ascii("\"}"));
  }

  /** Two requests leave the same record only if their first 600 bytes agree. */
  lemma RecordsTellRequestsApart(t: Trusted, a: Word, b: Word)
    ensures Record(t, a) == Record(t, b) <==> Bounded(a) == Bounded(b)
  {
    RequestReadsBack(t, a);
    RequestReadsBack(t, b);
    hide Opening, Bounded;
    if Record(t, a) == Record(t, b) {
      var x, y := Bounded(a), Bounded(b);
      assert Points(x) == Points(y);
      assert forall i :: 0 <= i < |x| ==> x[i] == Points(x)[i] && y[i] == Points(y)[i];
    }
  }

  // ---- writing it ---------------------------------------------------------

  /** `ngx_slprintf` of a finished text: copies it, but never past the end of the buffer. */
  method Print(line: array<Byte>, from: nat, text: Word) returns (p: nat)
    requires from <= line.Length
    modifies line
    ensures p == if from + |text| <= line.Length then from + |text| else line.Length
    ensures line[..p] == old(line[..from]) + text[..p - from]
    ensures from + |text| <= line.Length ==> line[..p] == old(line[..from]) + text
  {
    p := from;
    while p < line.Length && p - from < |text|
      invariant from <= p <= line.Length && p - from <= |text|
      invariant line[..p] == old(line[..from]) + text[..p - from]
    {
      line[p] := text[p - from];
      p := p + 1;
    }
  }

  /** One turn of the escape loop. */
  method PutEscaped(line: array<Byte>, at: nat, c: Byte) returns (p: nat)
    requires at + 6 < line.Length
    modifies line
    ensures p == at + |Escape(c)| && line[..p] == old(line[..at]) + Escape(c)
  {
    if c == '"' as int || c == '\\' as int {
      line[at], line[at + 1] := '\\' as int, c;
      p := at + 2;
    } else if c == '\n' as int {
      line[at], line[at + 1] := '\\' as int, 'n' as int;
      p := at + 2;
    } else if c == '\r' as int {
      line[at], line[at + 1] := '\\' as int, 'r' as int;
      p := at + 2;
    } else if c == '\t' as int {
      line[at], line[at + 1] := '\\' as int, 't' as int;
      p := at + 2;
    } else if c < 0x20 || c >= 0x80 {
      p := Print(line, at, ['\\' as int, 'u' as int] + Hex4(c));
    } else {
      line[at] := c;
      p := at + 1;
    }
  }

  /** The escape loop. With room for the worst case, its guard on the end of the buffer
      never stops it before the last byte. */
  method EscapeInto(line: array<Byte>, at: nat, req: Word) returns (p: nat)
    requires at + 6 * |req| + 6 < line.Length
    modifies line
    ensures p <= at + 6 * |req| && line[..p] == old(line[..at]) + EscapeAll(req)
  {
    hide Escape;
    p := at;
    var i := 0;
    while i < |req| && p < line.Length - 6
      invariant 0 <= i <= |req| && p + 6 * (|req| - i) <= at + 6 * |req|
      invariant line[..p] == old(line[..at]) + EscapeAll(req[..i])
    {
      assert Parent(req[..i + 1]) == req[..i];
      assert EscapeAll(req[..i + 1]) == EscapeAll(req[..i]) + Escape(req[i]);
      p := PutEscaped(line, p, req[i]);
      i := i + 1;
    }
    assert req[..i] == req;
  }

  method Close(line: array<Byte>, p: nat) returns (len: nat)
    requires p + 2 < line.Length
    modifies line
    ensures len == p + 2 && line[..len] == old(line[..p]) + Ascii("\"}") && line[len] == '\n' as int
  {
    line[p], line[p + 1] := '"' as int, '}' as int;
    len := p + 2;
    line[len] := '\n' as int;
    assert Ascii("\"}") == ['"' as int, '}' as int];
  }

  /** The record and the newline after it. Buffer accesses are in bounds, and the loop's
      own guard never ends it early: the whole record is there. */
  method Write(t: Trusted, requestLine: Word) returns (line: array<Byte>, len: nat)
    requires t.status < UINT_LIMIT
    ensures fresh(line) && line.Length == Capacity(t, requestLine) && len + 1 <= line.Length
    ensures line[..len] == Record(t, requestLine) && line[len] == '\n' as int
  {
    var req := Bounded(requestLine);
    OpeningFits(t, requestLine);
    hide Opening, EscapeAll, Ascii, Bounded, Capacity;
    line := new Byte[Capacity(t, requestLine)];
    var p: nat := Print(line, 0, Opening(t));
    assert p == |Opening(t)| && line[..p] == Opening(t);
    p := EscapeInto(line, p, req);
    len := Close(line, p);
  }
}
