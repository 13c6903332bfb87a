/** Reading a whole record back, with a reader of compact JSON objects that knows nothing of
    the writer. */
module LogReading {
  import opened Words
  import opened LogRecord

  datatype Value = Text(points: seq<nat>) | Number(value: nat)

  datatype Member = Member(name: seq<nat>, value: Value)

  datatype ValueRead = ValueRead(value: Value, rest: Word) | NoValue

  datatype MemberRead = MemberRead(member: Member, rest: Word) | NoMember

  datatype Members = Members(list: seq<Member>, rest: Word) | NoMembers

  predicate Digit(b: Byte) {
    '0' as int <= b <= '9' as int
  }

  /** The digits at the start of `w`, after a number that read as `n` so far. */
  function ReadDigits(w: Word, n: nat): (r: ValueRead)
    ensures r.ValueRead? && |r.rest| <= |w|
  {
    if w != [] && Digit(w[0]) then ReadDigits(w[1..], n * 10 + (w[0] - '0' as int)) else ValueRead(Number(n), w)
  }

  /** A string, or an unsigned number without leading zeros. */
  function ReadValue(w: Word): (r: ValueRead)
    ensures r.ValueRead? ==> |r.rest| <= |w|
  {
    if w == [] then NoValue
    else if w[0] == '"' as int then
      ReadStringShrinks(w[1..]);
      var s := ReadString(w[1..]);
      if s.Malformed? then NoValue else ValueRead(Text(s.points), s.rest)
    else if w[0] == '0' as int then ValueRead(Number(0), w[1..])
    else if Digit(w[0]) then ReadDigits(w, 0)
    else NoValue
  }

  /** A name, a colon and a value. */
  function ReadMember(w: Word): (r: MemberRead)
    ensures r.MemberRead? ==> |r.rest| < |w|
  {
    if w == [] || w[0] != '"' as int then NoMember
    else
      ReadStringShrinks(w[1..]);
      var s := ReadString(w[1..]);
      if s.Malformed? || s.rest == [] || s.rest[0] != ':' as int then NoMember
      else
        var v := ReadValue(s.rest[1..]);
        if v.NoValue? then NoMember else MemberRead(Member(s.points, v.value), v.rest)
  }

  /** Members between commas, up to the closing brace. */
  function ReadMembers(w: Word): Members
    decreases |w|
  {
    var m := ReadMember(w);
    if m.NoMember? || m.rest == [] then NoMembers
    else if m.rest[0] == '}' as int then Members([m.member], m.rest[1..])
    else if m.rest[0] != ',' as int then NoMembers
    else
      var more := ReadMembers(m.rest[1..]);
      if more.NoMembers? then NoMembers else Members([m.member] + more.list, more.rest)
  }

  function ReadObject(w: Word): Members {
    if w == [] || w[0] != '{' as int then NoMembers else ReadMembers(w[1..])
  }

  lemma {:induction false} ReadStringShrinks(w: Word)
    ensures ReadString(w).Reading? ==> |ReadString(w).rest| < |w|
    decreases |w|
  {
    if w != [] {
      ReadStringShrinks(w[1..]);
      if |w| >= 2 {
        ReadStringShrinks(w[2..]);
      }
      if |w| >= 6 {
        ReadStringShrinks(w[6..]);
      }
    }
  }

  // ---- numbers ------------------------------------------------------------

  lemma OneDigit(d: nat, n: nat, rest: Word)
    requires d < 10
    ensures ReadDigits(['0' as int + d] + rest, n) == ReadDigits(rest, n * 10 + d)
  {
    assert (['0' as int + d] + rest)[1..] == rest;
  }

  lemma {:induction false} DecimalReadsBack(n: nat, rest: Word)
    ensures ReadDigits(Decimal(n) + rest, 0) == ReadDigits(rest, n)
  {
    var digit := ['0' as int + n % 10];
    OneDigit(n % 10, n / 10, rest);
    if n < 10 {
      assert Decimal(n) == digit;
    } else {
      assert Decimal(n) == Decimal(n / 10) + digit;
      assert Decimal(n) + rest == Decimal(n / 10) + (digit + rest);
      hide Decimal, ReadDigits;
      DecimalReadsBack(n / 10, digit + rest);
      assert n / 10 * 10 + n % 10 == n;
    }
  }

  lemma {:induction false} DecimalStarts(n: nat)
    ensures Decimal(n) != [] && Digit(Decimal(n)[0]) && (Decimal(n)[0] == '0' as int <==> n == 0)
  {
    if n >= 10 {
      DecimalStarts(n / 10);
    }
  }

  lemma NumberReadsBack(n: nat, rest: Word)
    requires rest != [] && !Digit(rest[0])
    ensures ReadValue(Decimal(n) + rest) == ValueRead(Number(n), rest)
  {
    DecimalStarts(n);
    DecimalReadsBack(n, rest);
    if n == 0 {
      assert Decimal(0) + rest == ['0' as int] + rest;
      assert (['0' as int] + rest)[1..] == rest;
    } else {
      assert (Decimal(n) + rest)[0] == Decimal(n)[0];
      hide Decimal;
    }
  }

  // ---- strings ------------------------------------------------------------

  /** Text that needs no escape. */
  ghost predicate Plain(w: Word) {
    forall i :: 0 <= i < |w| ==> 0x20 <= w[i] < 0x80 && w[i] != '"' as int && w[i] != '\\' as int
  }

  lemma {:induction false} PlainReadsBack(w: Word, rest: Word)
    requires Plain(w)
    ensures ReadString(w + (['"' as int] + rest)) == Reading(Points(w), rest)
  {
    var all := w + (['"' as int] + rest);
    if w == [] {
      assert all == ['"' as int] + rest && all[1..] == rest;
    } else {
      PlainReadsBack(w[1..], rest);
      assert all[0] == w[0] && all[1..] == w[1..] + (['"' as int] + rest);
      assert Points(w) == [w[0]] + Points(w[1..]);
    }
  }

  const QUOTE: Word := ['"' as int]
  const COLON: Word := [':' as int]
  const COMMA: Word := [',' as int]

  /** A quoted name and a colon before `rest`. */
  function Named(name: Word, rest: Word): Word {
    QUOTE + (name + (QUOTE + (COLON + rest)))
  }

  /** A quoted text before `rest`. */
  function Quoted(text: Word, rest: Word): Word {
    QUOTE + (text + (QUOTE + rest))
  }

  lemma NameReadsBack(name: Word, value: Value, text: Word, rest: Word)
    requires Plain(name) && ReadValue(text) == ValueRead(value, rest)
    ensures ReadMember(Named(name, text)) == MemberRead(Member(Points(name), value), rest)
  {
    var after := name + (QUOTE + (COLON + text));
    assert Named(name, text) != [] && Named(name, text)[0] == '"' as int && Named(name, text)[1..] == after;
    PlainReadsBack(name, COLON + text);
    assert COLON + text != [] && (COLON + text)[0] == ':' as int && (COLON + text)[1..] == text;
    hide ReadString, ReadValue, Points, Named;
  }

  lemma TextReadsBack(text: Word, rest: Word)
    requires Plain(text)
    ensures ReadValue(Quoted(text, rest)) == ValueRead(Text(Points(text)), rest)
  {
    assert Quoted(text, rest) != [] && Quoted(text, rest)[0] == '"' as int && Quoted(text, rest)[1..] == text + (QUOTE + rest);
    PlainReadsBack(text, rest);
    hide ReadString, Points, Quoted;
  }

  lemma EscapedTextReadsBack(text: Word, rest: Word)
    ensures ReadValue(Quoted(EscapeAll(text), rest)) == ValueRead(Text(Points(text)), rest)
  {
    var w := EscapeAll(text);
    assert Quoted(w, rest) != [] && Quoted(w, rest)[0] == '"' as int && Quoted(w, rest)[1..] == w + (QUOTE + rest);
    EscapedReadsBack(text, QUOTE + rest);
    assert (QUOTE + rest)[0] == '"' as int && (QUOTE + rest)[1..] == rest;
    assert ReadString(QUOTE + rest) == Reading([], rest) && Points(text) + [] == Points(text);
    hide ReadString, EscapeAll, Points, Quoted;
  }

  lemma OneMoreMember(w: Word, m: Member, more: Word, list: seq<Member>, rest: Word)
    requires ReadMember(w) == MemberRead(m, COMMA + more) && ReadMembers(more) == Members(list, rest)
    ensures ReadMembers(w) == Members([m] + list, rest)
  {
    assert (COMMA + more)[0] == ',' as int && (COMMA + more)[1..] == more;
    hide ReadMember;
  }

  lemma TextMember(name: Word, text: Word, more: Word, list: seq<Member>, rest: Word)
    requires Plain(name) && Plain(text) && ReadMembers(more) == Members(list, rest)
    ensures ReadMembers(Named(name, Quoted(text, COMMA + more)))
         == Members([Member(Points(name), Text(Points(text)))] + list, rest)
  {
    hide Named, Quoted, Plain, Points, ReadMember, ReadMembers, ReadValue;
    TextReadsBack(text, COMMA + more);
    NameReadsBack(name, Text(Points(text)), Quoted(text, COMMA + more), COMMA + more);
    OneMoreMember(Named(name, Quoted(text, COMMA + more)), Member(Points(name), Text(Points(text))), more, list, rest);
  }

  lemma NumberMember(name: Word, n: nat, more: Word, list: seq<Member>, rest: Word)
    requires Plain(name) && ReadMembers(more) == Members(list, rest)
    ensures ReadMembers(Named(name, Decimal(n) + (COMMA + more)))
         == Members([Member(Points(name), Number(n))] + list, rest)
  {
    hide Named, Plain, Points, ReadMember, ReadMembers, ReadValue, Decimal;
    assert (COMMA + more)[0] == ',' as int;
    NumberReadsBack(n, COMMA + more);
    NameReadsBack(name, Number(n), Decimal(n) + (COMMA + more), COMMA + more);
    OneMoreMember(Named(name, Decimal(n) + (COMMA + more)), Member(Points(name), Number(n)), more, list, rest);
  }

  lemma LastMember(name: Word, text: Word)
    requires Plain(name)
    ensures ReadMembers(Named(name, Quoted(EscapeAll(text), ['}' as int])))
         == Members([Member(Points(name), Text(Points(text)))], [])
  {
    hide Named, Quoted, Plain, Points, ReadMember, ReadValue;
    EscapedTextReadsBack(text, ['}' as int]);
    NameReadsBack(name, Text(Points(text)), Quoted(EscapeAll(text), ['}' as int]), ['}' as int]);
  }

  // ---- the record ---------------------------------------------------------

  const TS: Word := ['t' as int, 's' as int]
  const IP: Word := ['i' as int, 'p' as int]
  const CAT: Word := ['c' as int, 'a' as int, 't' as int]
  const SRC: Word := ['s' as int, 'r' as int, 'c' as int]
  const MODE: Word := ['m' as int, 'o' as int, 'd' as int, 'e' as int]
  const STATUS: Word := ['s' as int, 't' as int, 'a' as int, 't' as int, 'u' as int, 's' as int]
  const REQ: Word := ['r' as int, 'e' as int, 'q' as int]
  const BLOCK: Word := ['b' as int, 'l' as int, 'o' as int, 'c' as int, 'k' as int]
  const DETECT: Word := ['d' as int, 'e' as int, 't' as int, 'e' as int, 'c' as int, 't' as int]

  ghost predicate TrustedPlain(t: Trusted) {
    Plain(t.time) && Plain(t.ip) && Plain(t.category) && Plain(t.source)
  }

  /** The record as nested members. */
  function Nested(t: Trusted, request: Word): Word {
    var req := Named(REQ, Quoted(EscapeAll(Bounded(request)), ['}' as int]));
    var status := Named(STATUS, Decimal(if t.block then t.status else 0) + (COMMA + req));
    var mode := Named(MODE, Quoted(if t.block then BLOCK else DETECT, COMMA + status));
    var src := Named(SRC, Quoted(t.source, COMMA + mode));
    var cat := Named(CAT, Quoted(t.category, COMMA + src));
    var ip := Named(IP, Quoted(t.ip, COMMA + cat));
    Named(TS, Quoted(t.time, COMMA + ip))
  }

  /** The fixed texts of the record, byte by byte. */
  lemma FixedTexts()
    ensures Ascii("{\"ts\":\"") == ['{' as int] + QUOTE + TS + QUOTE + COLON + QUOTE
    ensures Ascii("\",\"ip\":\"") == QUOTE + COMMA + QUOTE + IP + QUOTE + COLON + QUOTE
    ensures Ascii("\",\"cat\":\"") == QUOTE + COMMA + QUOTE + CAT + QUOTE + COLON + QUOTE
    ensures Ascii("\",\"src\":\"") == QUOTE + COMMA + QUOTE + SRC + QUOTE + COLON + QUOTE
    ensures Ascii("\",\"mode\":\"") == QUOTE + COMMA + QUOTE + MODE + QUOTE + COLON + QUOTE
    ensures Ascii("\",\"status\":") == QUOTE + COMMA + QUOTE + STATUS + QUOTE + COLON
    ensures Ascii(",\"req\":\"") == COMMA + QUOTE + REQ + QUOTE + COLON + QUOTE
    ensures Ascii("block") == BLOCK && Ascii("detect") == DETECT && Ascii("\"}") == QUOTE + ['}' as int]
  {
  }

  /** A field closes the text before it and opens its own. */
  lemma TextField(name: Word, value: Word, rest: Word)
    ensures (QUOTE + COMMA + QUOTE + name + QUOTE + COLON + QUOTE + value) + (QUOTE + rest)
         == QUOTE + (COMMA + Named(name, Quoted(value, rest)))
  {
  }

  lemma FirstField(value: Word, rest: Word)
    ensures (['{' as int] + QUOTE + TS + QUOTE + COLON + QUOTE + value) + (QUOTE + rest)
         == ['{' as int] + Named(TS, Quoted(value, rest))
  {
  }

  lemma NumberField(value: Word, rest: Word)
    ensures (QUOTE + COMMA + QUOTE + STATUS + QUOTE + COLON + value) + rest == QUOTE + (COMMA + Named(STATUS, value + rest))
  {
  }

  lemma LastField(value: Word)
    ensures (COMMA + QUOTE + REQ + QUOTE + COLON + QUOTE + []) + (value + (QUOTE + ['}' as int]))
         == COMMA + Named(REQ, Quoted(value, ['}' as int]))
  {
  }

  lemma Regrouped(a: Word, b: Word, c: Word, d: Word, e: Word, f: Word, g: Word, h: Word, i: Word)
    ensures a + b + c + d + e + f + g + h + i == a + (b + (c + (d + (e + (f + (g + (h + i)))))))
  {
  }

  lemma RecordIsNested(t: Trusted, request: Word)
    ensures Record(t, request) == ['{' as int] + Nested(t, request)
  {
    FixedTexts();
    var value, mode := EscapeAll(Bounded(request)), if t.block then BLOCK else DETECT;
    var digits := Decimal(if t.block then t.status else 0);
    hide Ascii, EscapeAll, Bounded, Decimal;
    Regrouped(Field("{\"ts\":\"", t.time), Field("\",\"ip\":\"", t.ip), Field("\",\"cat\":\"", t.category),
              Field("\",\"src\":\"", t.source),
              Field("\",\"mode\":\"", if t.block then Ascii("block") else Ascii("detect")),
              Field("\",\"status\":", digits), Field(",\"req\":\"", []), value, Ascii("\"}"));
    LastField(value);
    var req := Named(REQ, Quoted(value, ['}' as int]));
    NumberField(digits, COMMA + req);
    var status := Named(STATUS, digits + (COMMA + req));
    TextField(MODE, mode, COMMA + status);
    var modes := Named(MODE, Quoted(mode, COMMA + status));
    TextField(SRC, t.source, COMMA + modes);
    var src := Named(SRC, Quoted(t.source, COMMA + modes));
    TextField(CAT, t.category, COMMA + src);
    var cat := Named(CAT, Quoted(t.category, COMMA + src));
    TextField(IP, t.ip, COMMA + cat);
    FirstField(t.time, COMMA + Named(IP, Quoted(t.ip, COMMA + cat)));
  }

  function TextOf(name: Word, text: Word): Member {
    Member(Points(name), Text(Points(text)))
  }

  lemma NamesArePlain()
    ensures Plain(TS) && Plain(IP) && Plain(CAT) && Plain(SRC) && Plain(MODE) && Plain(STATUS) && Plain(REQ)
    ensures Plain(BLOCK) && Plain(DETECT)
  {
  }

  lemma Listed(a: Member, b: Member, c: Member, d: Member, e: Member, f: Member, g: Member)
    ensures [a] + ([b] + ([c] + ([d] + ([e] + ([f] + [g]))))) == [a, b, c, d, e, f, g]
  {
  }

  lemma NestedReadsBack(t: Trusted, request: Word)
    requires TrustedPlain(t)
    ensures ReadMembers(Nested(t, request)) == Members([
              TextOf(TS, t.time), TextOf(IP, t.ip), TextOf(CAT, t.category), TextOf(SRC, t.source),
              TextOf(MODE, if t.block then BLOCK else DETECT),
              Member(Points(STATUS), Number(if t.block then t.status else 0)), TextOf(REQ, Bounded(request))], [])
  {
    hide Plain, Named, Quoted, ReadMembers, Points, EscapeAll, Decimal, Bounded;
    NamesArePlain();
    var mode, n := if t.block then BLOCK else DETECT, if t.block then t.status else 0;
    var req := Named(REQ, Quoted(EscapeAll(Bounded(request)), ['}' as int]));
    LastMember(REQ, Bounded(request));
    var l1 := [TextOf(REQ, Bounded(request))];
    NumberMember(STATUS, n, req, l1, []);
    var status := Named(STATUS, Decimal(n) + (COMMA + req));
    var l2 := [Member(Points(STATUS), Number(n))] + l1;
    TextMember(MODE, mode, status, l2, []);
    var modes := Named(MODE, Quoted(mode, COMMA + status));
    var l3 := [TextOf(MODE, mode)] + l2;
    TextMember(SRC, t.source, modes, l3, []);
    var src := Named(SRC, Quoted(t.source, COMMA + modes));
    var l4 := [TextOf(SRC, t.source)] + l3;
    TextMember(CAT, t.category, src, l4, []);
    var cat := Named(CAT, Quoted(t.category, COMMA + src));
    var l5 := [TextOf(CAT, t.category)] + l4;
    TextMember(IP, t.ip, cat, l5, []);
    TextMember(TS, t.time, Named(IP, Quoted(t.ip, COMMA + cat)), [TextOf(IP, t.ip)] + l5, []);
    Listed(TextOf(TS, t.time), TextOf(IP, t.ip), TextOf(CAT, t.category), TextOf(SRC, t.source), TextOf(MODE, mode),
           Member(Points(STATUS), Number(n)), TextOf(REQ, Bounded(request)));
  }

  /** The main law of the log: a JSON reader gets back the seven members of the record, in
      order and each with its own value, and nothing is left over. */
  lemma RecordReadsBack(t: Trusted, request: Word)
    requires TrustedPlain(t)
    ensures ReadObject(Record(t, request)) == Members([
              TextOf(TS, t.time), TextOf(IP, t.ip), TextOf(CAT, t.category), TextOf(SRC, t.source),
              TextOf(MODE, if t.block then BLOCK else DETECT),
              Member(Points(STATUS), Number(if t.block then t.status else 0)),
              TextOf(REQ, if |request| > 600 then request[..600] else request)], [])
  {
    RecordIsNested(t, request);
    NestedReadsBack(t, request);
    var w := ['{' as int] + Nested(t, request);
    assert w != [] && w[0] == '{' as int && w[1..] == Nested(t, request);
    hide Record, Nested, ReadMembers, TextOf, Points;
  }
}
