/** What normalisation does for a scan, in byte codes: letter case never matters, and in the
    decoded copy neither does a plus sign in place of a space. */
module Folding {
  import opened Options
  import opened Words
  import opened Tables
  import opened Verdicts
  import opened Scanner

  /** The two bytes are one, or one is a capital letter and the other its small letter. */
  predicate SameLetter(a: Byte, b: Byte) {
    a == b || (65 <= a <= 90 && b == a + 32) || (65 <= b <= 90 && a == b + 32)
  }

  /** ... or each is a space or a plus sign. */
  predicate SameSpace(a: Byte, b: Byte) {
    SameLetter(a, b) || ((a == 32 || a == 43) && (b == 32 || b == 43))
  }

  ghost predicate DifferInCase(u: Word, v: Word) {
    |u| == |v| && forall i :: 0 <= i < |u| ==> SameLetter(u[i], v[i])
  }

  ghost predicate DifferInCaseOrPlus(u: Word, v: Word) {
    |u| == |v| && forall i :: 0 <= i < |u| ==> SameSpace(u[i], v[i])
  }

  predicate Capital(b: Byte) {
    65 <= b <= 90
  }

  /** What the raw copy holds: a small letter for each capital, all else as it came. */
  lemma RawCopyIsLowered(data: Word)
    ensures var lc := Lower(data);
            && |lc| == |data|
            && (forall i :: 0 <= i < |data| ==> lc[i] == if Capital(data[i]) then data[i] + 32 else data[i])
            && (forall i :: 0 <= i < |data| ==> !Capital(lc[i]))
  {
  }

  /** The decoded copy: the unescaped text, with spaces for plus signs as well. */
  lemma DecodedCopyIsLowered(unescape: Word -> Word, data: Word)
    ensures var u, dec := unescape(data), DecodedCopy(unescape, data);
            && |dec| == |u|
            && (forall i :: 0 <= i < |u| ==>
                  dec[i] == if u[i] == 43 then 32 else if Capital(u[i]) then u[i] + 32 else u[i])
            && (forall i :: 0 <= i < |u| ==> !Capital(dec[i]) && dec[i] != 43)
  {
    var u := unescape(data);
    assert forall i :: 0 <= i < |u| ==> PlusToSpace(u)[i] == PlusByte(u[i]);
    RawCopyIsLowered(PlusToSpace(u));
  }

  lemma SameRawCopy(u: Word, v: Word)
    requires DifferInCase(u, v)
    ensures Lower(u) == Lower(v)
  {
    RawCopyIsLowered(u);
    RawCopyIsLowered(v);
    hide Lower;
  }

  lemma SameDecodedCopy(unescape: Word -> Word, u: Word, v: Word)
    requires DifferInCaseOrPlus(unescape(u), unescape(v))
    ensures DecodedCopy(unescape, u) == DecodedCopy(unescape, v)
  {
    DecodedCopyIsLowered(unescape, u);
    DecodedCopyIsLowered(unescape, v);
    hide DecodedCopy;
  }

  /** Inputs that differ only in letter case, and in plus against space once decoded, are
      reported alike. */
  lemma CaseAndPlusAreInvisible(t: Tables, skip: Mask, unescape: Word -> Word, data: Word, data': Word,
                                source: string, hit: Option<Hit>)
    requires DifferInCase(data, data') && DifferInCaseOrPlus(unescape(data), unescape(data'))
    ensures Reports(t, skip, unescape, data, source, hit) <==> Reports(t, skip, unescape, data', source, hit)
    ensures InputMatches(t, skip, unescape, data) <==> InputMatches(t, skip, unescape, data')
  {
    hide Lower, DecodedCopy, Verdict, DecodedReports, Matches, HitOf;
    SameRawCopy(data, data');
    SameDecodedCopy(unescape, data, data');
  }

  /** `x` stands somewhere in `w`. */
  ghost predicate Inside(x: Word, w: Word) {
    exists k: nat :: StandsAt(x, w, k)
  }

  predicate StandsAt(x: Word, w: Word, k: nat) {
    k + |x| <= |w| && w[k..k + |x|] == x
  }

  lemma InsideIffOccurs(x: Word, w: Word)
    ensures Inside(x, w) <==> Occurs(x, w)
  {
    if k: nat :| StandsAt(x, w, k) {
      assert Suffix(x, w[..k + |x|]);
    }
    if e :| 0 <= e <= |w| && Suffix(x, w[..e]) {
      assert w[..e][e - |x|..] == w[e - |x|..e];
      assert StandsAt(x, w, e - |x|);
    }
  }

  /** An enabled signature that sits in a copy matches it. */
  lemma SignatureInside(t: Tables, flavour: Flag, skip: Mask, copy: Word, r: nat, sig: Word, k: nat)
    requires r < |t.categories| && flavour in t.categories[r].flags && t.categories[r].cat !in skip
    requires sig in t.categories[r].sigs && StandsAt(sig, copy, k)
    ensures Matches(t, flavour, skip, copy)
  {
    var w := copy[..k + |sig|];
    assert Suffix(sig, w);
    assert RowEnds(t, flavour, skip, w, r);
    assert SomeRowEnds(t, flavour, skip, copy[..k + |sig|]);
  }

  /** ... and so does an enabled rule, all of whose terms sit in it, for a category with a
      table row. */
  lemma RuleInside(t: Tables, flavour: Flag, skip: Mask, copy: Word, i: nat, r: nat)
    requires i < |t.rules| && flavour in t.rules[i].flags && t.rules[i].cat !in skip && t.rules[i].terms != []
    requires r < |t.categories| && t.categories[r].cat == t.rules[i].cat
    requires forall j :: 0 <= j < |t.rules[i].terms| ==> Inside(t.rules[i].terms[j], copy)
    ensures Matches(t, flavour, skip, copy)
  {
    forall j | 0 <= j < |t.rules[i].terms|
      ensures Occurs(t.rules[i].terms[j], copy)
    {
      InsideIffOccurs(t.rules[i].terms[j], copy);
    }
    hide Inside, Occurs;
    assert RuleFires(t, flavour, skip, copy, i);
  }

  /** A raw signature is found wherever it stands in the input, in whatever case. */
  lemma RawSignatureIsFound(t: Tables, skip: Mask, unescape: Word -> Word, data: Word, r: nat, sig: Word, k: nat)
    requires r < |t.categories| && Flag.Raw in t.categories[r].flags && t.categories[r].cat !in skip
    requires sig in t.categories[r].sigs && forall i :: 0 <= i < |sig| ==> !Capital(sig[i])
    requires data != [] && k + |sig| <= |data| && DifferInCase(sig, data[k..k + |sig|])
    ensures InputMatches(t, skip, unescape, data)
  {
    RawCopyIsLowered(data);
    hide Lower, DecodedCopy, Matches;
    var lc := Lower(data);
    var part, found := data[k..k + |sig|], lc[k..k + |sig|];
    assert forall i :: 0 <= i < |sig| ==> part[i] == data[k + i] && found[i] == lc[k + i];
    assert found == sig;
    SignatureInside(t, Flag.Raw, skip, lc, r, sig, k);
  }

  /** A decoded signature likewise, in the unescaped text, with a plus sign or a space for
      each of its spaces. */
  lemma DecodedSignatureIsFound(t: Tables, skip: Mask, unescape: Word -> Word, data: Word, r: nat, sig: Word, k: nat)
    requires r < |t.categories| && Flag.Decoded in t.categories[r].flags && t.categories[r].cat !in skip
    requires sig in t.categories[r].sigs && forall i :: 0 <= i < |sig| ==> !Capital(sig[i]) && sig[i] != 43
    requires data != [] && k + |sig| <= |unescape(data)|
    requires DifferInCaseOrPlus(sig, unescape(data)[k..k + |sig|])
    ensures InputMatches(t, skip, unescape, data)
  {
    DecodedCopyIsLowered(unescape, data);
    hide Lower, DecodedCopy, Matches;
    var u, dec := unescape(data), DecodedCopy(unescape, data);
    var part, found := u[k..k + |sig|], dec[k..k + |sig|];
    assert forall i :: 0 <= i < |sig| ==> part[i] == u[k + i] && found[i] == dec[k + i];
    assert found == sig;
    SignatureInside(t, Flag.Decoded, skip, dec, r, sig, k);
  }

  // ---- the hit ------------------------------------------------------------

  /** A signature of row `r` that is meant for this copy stands in it, or all terms of a
      rule for the category of that row do. */
  ghost predicate Justifies(t: Tables, flavour: Flag, copy: Word, r: nat) {
    && r < |t.categories|
    && ((flavour in t.categories[r].flags && exists sig :: sig in t.categories[r].sigs && Inside(sig, copy))
        || (exists i :: 0 <= i < |t.rules| && flavour in t.rules[i].flags && t.rules[i].cat == t.categories[r].cat
                        && t.rules[i].terms != []
                        && forall j :: 0 <= j < |t.rules[i].terms| ==> Inside(t.rules[i].terms[j], copy)))
  }

  lemma VerdictIsJustified(t: Tables, flavour: Flag, skip: Mask, copy: Word, r: nat)
    requires Verdict(t, flavour, skip, copy, Some(r))
    ensures r < |t.categories| && t.categories[r].cat !in skip && Justifies(t, flavour, copy, r)
  {
    hide Inside, Occurs, Quiet;
    if e: nat :| WinsAt(t, flavour, skip, copy, e, r) {
      EndIsInside(t, flavour, skip, copy, e, r);
    } else {
      var i: nat :| FirstRule(t, flavour, skip, copy, i) && r == RowOf(t.categories, t.rules[i].cat);
      forall j | 0 <= j < |t.rules[i].terms|
        ensures Inside(t.rules[i].terms[j], copy)
      {
        InsideIffOccurs(t.rules[i].terms[j], copy);
      }
    }
  }

  lemma EndIsInside(t: Tables, flavour: Flag, skip: Mask, copy: Word, e: nat, r: nat)
    requires e <= |copy| && RowEnds(t, flavour, skip, copy[..e], r)
    ensures exists sig :: sig in t.categories[r].sigs && Inside(sig, copy)
  {
    var sig :| sig in t.categories[r].sigs && Suffix(sig, copy[..e]);
    assert Occurs(sig, copy);
    InsideIffOccurs(sig, copy);
  }

  /** A hit names a table row and its category, which is not skipped, and that row is
      justified by the raw copy if that matches at all, else by the decoded copy. */
  lemma HitNamesItsRow(t: Tables, skip: Mask, unescape: Word -> Word, data: Word, source: string, hit: Hit)
    requires Reports(t, skip, unescape, data, source, Some(hit))
    ensures hit.source == source && hit.cat !in skip
    ensures exists r: nat :: r < |t.categories| && t.categories[r].cat == hit.cat && t.categories[r].name == hit.category
              && if Matches(t, Flag.Raw, skip, Lower(data)) then Justifies(t, Flag.Raw, Lower(data), r)
                 else Justifies(t, Flag.Decoded, DecodedCopy(unescape, data), r)
  {
    var raw: Option<nat> :|
      && Verdict(t, Flag.Raw, skip, Lower(data), raw)
      && if raw.Some? then raw.value < |t.categories| && Some(hit) == HitOf(t, raw, source)
         else DecodedReports(t, skip, DecodedCopy(unescape, data), source, Some(hit));
    hide Lower, DecodedCopy, Verdict, Justifies, Matches;
    HitIffMatches(t, Flag.Raw, skip, Lower(data), raw);
    if raw.Some? {
      VerdictIsJustified(t, Flag.Raw, skip, Lower(data), raw.value);
    } else {
      var row: Option<nat> :|
        && Verdict(t, Flag.Decoded, skip, DecodedCopy(unescape, data), row)
        && (row.Some? ==> row.value < |t.categories|) && Some(hit) == HitOf(t, row, source);
      VerdictIsJustified(t, Flag.Decoded, skip, DecodedCopy(unescape, data), row.value);
    }
  }
}
