/** Normalisation of one input buffer, and the scan of its two copies. */
module Scanner {
  import opened Options
  import opened Words
  import opened Tables
  import opened Verdicts
  import opened Automata

  function LowerByte(b: Byte): Byte {
    if 'A' as int <= b <= 'Z' as int then b + 32 else b
  }

  function PlusByte(b: Byte): Byte {
    if b == '+' as int then ' ' as int else b
  }

  function Lower(w: Word): Word {
    seq(|w|, i requires 0 <= i < |w| => LowerByte(w[i]))
  }

  function PlusToSpace(w: Word): Word {
    seq(|w|, i requires 0 <= i < |w| => PlusByte(w[i]))
  }

  /** The decoded copy. `+` is replaced after decoding, so an encoded plus sign
      becomes a space as well. */
  function DecodedCopy(unescape: Word -> Word, data: Word): Word {
    Lower(PlusToSpace(unescape(data)))
  }

  datatype Hit = Hit(category: string, cat: Bit, source: string)

  function HitOf(t: Tables, row: Option<nat>, source: string): Option<Hit>
    requires row.Some? ==> row.value < |t.categories|
  {
    if row.None? then None
    else Some(Hit(t.categories[row.value].name, t.categories[row.value].cat, source))
  }

  /** What a scan of one input reports: the raw copy's verdict, else the decoded copy's. */
  ghost predicate Reports(t: Tables, skip: Mask, unescape: Word -> Word, data: Word, source: string, hit: Option<Hit>) {
    if data == [] then hit == None
    else exists raw: Option<nat> ::
        && Verdict(t, Flag.Raw, skip, Lower(data), raw)
        && if raw.Some? then raw.value < |t.categories| && hit == HitOf(t, raw, source)
           else DecodedReports(t, skip, DecodedCopy(unescape, data), source, hit)
  }

  ghost predicate DecodedReports(t: Tables, skip: Mask, dec: Word, source: string, hit: Option<Hit>) {
    exists row: Option<nat> ::
      && Verdict(t, Flag.Decoded, skip, dec, row)
      && (row.Some? ==> row.value < |t.categories|) && hit == HitOf(t, row, source)
  }

  /** An enabled signature or rule matches one of the two copies of the input. */
  ghost predicate InputMatches(t: Tables, skip: Mask, unescape: Word -> Word, data: Word) {
    && data != []
    && (Matches(t, Flag.Raw, skip, Lower(data)) || Matches(t, Flag.Decoded, skip, DecodedCopy(unescape, data)))
  }

  lemma ReportsIffMatches(t: Tables, skip: Mask, unescape: Word -> Word, data: Word, source: string, hit: Option<Hit>)
    requires Reports(t, skip, unescape, data, source, hit)
    ensures hit.Some? <==> InputMatches(t, skip, unescape, data)
  {
    if data != [] {
      var raw: Option<nat> :|
        && Verdict(t, Flag.Raw, skip, Lower(data), raw)
        && if raw.Some? then raw.value < |t.categories| && hit == HitOf(t, raw, source)
           else DecodedReports(t, skip, DecodedCopy(unescape, data), source, hit);
      HitIffMatches(t, Flag.Raw, skip, Lower(data), raw);
      if raw.None? {
        var row: Option<nat> :|
          && Verdict(t, Flag.Decoded, skip, DecodedCopy(unescape, data), row)
          && (row.Some? ==> row.value < |t.categories|) && hit == HitOf(t, row, source);
        HitIffMatches(t, Flag.Decoded, skip, DecodedCopy(unescape, data), row);
      }
    }
  }

  lemma VerdictRowInRange(t: Tables, flavour: Flag, skip: Mask, data: Word, res: Option<nat>)
    requires Verdict(t, flavour, skip, data, res)
    ensures res.Some? ==> res.value < |t.categories|
  {
  }

  /** `ngx_strlow(dst, src, n)` */
  method StrLow(dst: array<Byte>, src: Word)
    requires |src| <= dst.Length
    modifies dst
    ensures dst[..|src|] == Lower(src)
  {
    for i := 0 to |src|
      invariant dst[..i] == Lower(src)[..i]
    {
      dst[i] := LowerByte(src[i]);
      assert dst[..i + 1] == dst[..i] + [dst[i]];
    }
  }

  /** Decoding into the caller's scratch buffer, which it never outgrows. */
  method DecodeInto(dec: array<Byte>, unescape: Word -> Word, data: Word) returns (dlen: nat)
    requires |unescape(data)| <= |data| <= dec.Length
    modifies dec
    ensures dlen <= |data| && dec[..dlen] == DecodedCopy(unescape, data)
  {
    var u := unescape(data);
    dlen := |u|;
    for i := 0 to dlen
      invariant dec[..i] == u[..i]
    {
      dec[i] := u[i];
      assert dec[..i + 1] == dec[..i] + [dec[i]];
    }
    for i := 0 to dlen
      invariant dec[..i] == PlusToSpace(u)[..i]
      invariant forall k :: i <= k < dlen ==> dec[k] == u[k]
    {
      if dec[i] == '+' as int {
        dec[i] := ' ' as int;
      }
      assert dec[..i + 1] == dec[..i] + [dec[i]];
    }
    StrLow(dec, dec[..dlen]);
  }

  /** Builds the two copies in the caller's scratch buffers and scans each with the
      automaton of its flavour. */
  method ScanInput(t: Tables, raw: Automaton, decoded: Automaton, unescape: Word -> Word, data: Word,
                   lc: array<Byte>, dec: array<Byte>, source: string, skip: Mask)
    returns (hit: Option<Hit>)
    requires raw.Built(t, Flag.Raw) && decoded.Built(t, Flag.Decoded)
    requires |data| <= lc.Length && |unescape(data)| <= |data| <= dec.Length && lc != dec
    modifies lc, dec
    ensures Reports(t, skip, unescape, data, source, hit)
    ensures hit.Some? <==> InputMatches(t, skip, unescape, data)
  {
    if data == [] {
      return None;
    }
    StrLow(lc, data);
    var dlen := DecodeInto(dec, unescape, data);
    assert lc[..|data|] == Lower(data) && dec[..dlen] == DecodedCopy(unescape, data);
    assert raw.nstates != 0 && decoded.nstates != 0;
    hide Verdict, Lower, DecodedCopy, InputMatches, Automaton.Built;
    var row := raw.Scan(t, Flag.Raw, lc[..|data|], skip);
    VerdictRowInRange(t, Flag.Raw, skip, Lower(data), row);
    if row.None? {
      row := decoded.Scan(t, Flag.Decoded, dec[..dlen], skip);
      VerdictRowInRange(t, Flag.Decoded, skip, DecodedCopy(unescape, data), row);
      assert DecodedReports(t, skip, DecodedCopy(unescape, data), source, HitOf(t, row, source));
    }
    hit := HitOf(t, row, source);
    ReportsIffMatches(t, skip, unescape, data, source, hit);
  }
}
