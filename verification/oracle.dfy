/** The naive per-signature engine, and its agreement with the automaton. */
module Oracle {
  import opened Words
  import opened Tables
  import opened Verdicts
  import opened Scanner

  /** `x` is found in `w` by the naive search, which rejects an empty needle. */
  ghost predicate Found(x: Word, w: Word) {
    x != [] && Occurs(x, w)
  }

  /** Substring search at every start position. */
  method Memmem(hay: Word, needle: Word) returns (found: bool)
    ensures found <==> Found(needle, hay)
  {
    if needle == [] || |hay| < |needle| {
      return false;
    }
    var last := |hay| - |needle|;
    var p := 0;
    while p <= last
      invariant 0 <= p <= last + 1
      invariant forall e {:trigger hay[..e]} :: 0 <= e < p + |needle| ==> !Suffix(needle, hay[..e])
    {
      assert hay[..p + |needle|][p..] == hay[p..p + |needle|];
      if hay[p] == needle[0] && hay[p..p + |needle|] == needle {
        return true;
      }
      assert hay[p] == hay[p..p + |needle|][0];
      p := p + 1;
    }
    found := false;
  }

  /** A signature of an enabled row is found in the copy its row applies to. */
  ghost predicate NaiveRow(t: Tables, skip: Mask, raw: Word, dec: Word, i: nat, n: nat)
    requires i < |t.categories| && n <= |t.categories[i].sigs|
  {
    && t.categories[i].cat !in skip
    && exists j :: 0 <= j < n &&
         ((Flag.Raw in t.categories[i].flags && Found(t.categories[i].sigs[j], raw))
          || (Flag.Decoded in t.categories[i].flags && Found(t.categories[i].sigs[j], dec)))
  }

  /** All terms of an enabled rule are found in one and the same copy. */
  ghost predicate NaiveRule(t: Tables, skip: Mask, raw: Word, dec: Word, i: nat)
    requires i < |t.rules|
  {
    && t.rules[i].cat !in skip
    && (AllFound(t.rules[i], Flag.Raw, raw, |t.rules[i].terms|)
        || AllFound(t.rules[i], Flag.Decoded, dec, |t.rules[i].terms|))
  }

  ghost predicate AllFound(r: Rule, flavour: Flag, w: Word, n: nat)
    requires n <= |r.terms|
  {
    flavour in r.flags && forall j :: 0 <= j < n ==> Found(r.terms[j], w)
  }

  ghost predicate NaiveMatches(t: Tables, skip: Mask, raw: Word, dec: Word) {
    || (exists i :: 0 <= i < |t.categories| && NaiveRow(t, skip, raw, dec, i, |t.categories[i].sigs|))
    || (exists i :: 0 <= i < |t.rules| && NaiveRule(t, skip, raw, dec, i))
  }

  /** The reference engine: every enabled signature, then every enabled rule. */
  method ShieldScan(t: Tables, unescape: Word -> Word, data: Word, skip: Mask) returns (hit: bool)
    requires |unescape(data)| <= |data|
    ensures hit <==> data != [] && NaiveMatches(t, skip, Lower(data), DecodedCopy(unescape, data))
  {
    if data == [] {
      return false;
    }
    var lc, dec := new Byte[|data|], new Byte[|data|];
    StrLow(lc, data);
    var dlen := DecodeInto(dec, unescape, data);
    var raw, dcd := lc[..|data|], dec[..dlen];
    hide Lower, DecodedCopy, Found;
    for i := 0 to |t.categories|
      invariant forall i' :: 0 <= i' < i ==> !NaiveRow(t, skip, raw, dcd, i', |t.categories[i'].sigs|)
    {
      if t.categories[i].cat !in skip {
        for j := 0 to |t.categories[i].sigs|
          invariant !NaiveRow(t, skip, raw, dcd, i, j)
        {
          if Flag.Raw in t.categories[i].flags {
            var found := Memmem(raw, t.categories[i].sigs[j]);
            if found {
              return true;
            }
          }
          if Flag.Decoded in t.categories[i].flags {
            var found := Memmem(dcd, t.categories[i].sigs[j]);
            if found {
              return true;
            }
          }
        }
      }
    }
    hit := ScanRules(t, raw, dcd, skip);
  }

  method ScanRules(t: Tables, raw: Word, dec: Word, skip: Mask) returns (hit: bool)
    ensures hit <==> exists i :: 0 <= i < |t.rules| && NaiveRule(t, skip, raw, dec, i)
  {
    hide Found;
    for i := 0 to |t.rules|
      invariant forall i' :: 0 <= i' < i ==> !NaiveRule(t, skip, raw, dec, i')
    {
      if t.rules[i].cat !in skip {
        var allRaw, allDec := Flag.Raw in t.rules[i].flags, Flag.Decoded in t.rules[i].flags;
        for j := 0 to |t.rules[i].terms|
          invariant allRaw <==> AllFound(t.rules[i], Flag.Raw, raw, j)
          invariant allDec <==> AllFound(t.rules[i], Flag.Decoded, dec, j)
        {
          if allRaw {
            allRaw := Memmem(raw, t.rules[i].terms[j]);
          }
          if allDec {
            allDec := Memmem(dec, t.rules[i].terms[j]);
          }
        }
        if allRaw || allDec {
          assert NaiveRule(t, skip, raw, dec, i);
          return true;
        }
      }
    }
    hit := false;
  }

  lemma RowEndsSomewhere(t: Tables, flavour: Flag, skip: Mask, w: Word, i: nat, j: nat)
    requires i < |t.categories| && j < |t.categories[i].sigs|
    requires flavour in t.categories[i].flags && t.categories[i].cat !in skip && Found(t.categories[i].sigs[j], w)
    ensures Matches(t, flavour, skip, w)
  {
    var e :| 0 <= e <= |w| && Suffix(t.categories[i].sigs[j], w[..e]);
    assert t.categories[i].sigs[j] in t.categories[i].sigs;
    assert RowEnds(t, flavour, skip, w[..e], i);
  }

  lemma MatchesIsNaive(t: Tables, flavour: Flag, skip: Mask, raw: Word, dec: Word)
    requires WellFormed(t) && (flavour == Flag.Raw || flavour == Flag.Decoded)
    requires Matches(t, flavour, skip, if flavour == Flag.Raw then raw else dec)
    ensures NaiveMatches(t, skip, raw, dec)
  {
    var w := if flavour == Flag.Raw then raw else dec;
    if i: nat :| RuleFires(t, flavour, skip, w, i) {
      assert AllFound(t.rules[i], flavour, w, |t.rules[i].terms|);
      assert NaiveRule(t, skip, raw, dec, i);
    } else {
      var e :| 0 <= e <= |w| && SomeRowEnds(t, flavour, skip, w[..e]);
      var r: nat :| RowEnds(t, flavour, skip, w[..e], r);
      var sig :| sig in t.categories[r].sigs && Suffix(sig, w[..e]);
      var j :| 0 <= j < |t.categories[r].sigs| && t.categories[r].sigs[j] == sig;
      assert Found(t.categories[r].sigs[j], w);
      assert NaiveRow(t, skip, raw, dec, r, |t.categories[r].sigs|);
    }
  }

  /** A rule the automaton can never report. */
  predicate Unreportable(t: Tables, i: nat)
    requires i < |t.rules|
  {
    t.rules[i].terms == [] || RowOf(t.categories, t.rules[i].cat) == |t.categories|
  }

  lemma NaiveIsMatches(t: Tables, skip: Mask, raw: Word, dec: Word)
    requires NaiveMatches(t, skip, raw, dec)
    ensures Matches(t, Flag.Raw, skip, raw) || Matches(t, Flag.Decoded, skip, dec)
         || exists i :: 0 <= i < |t.rules| && Unreportable(t, i) && NaiveRule(t, skip, raw, dec, i)
  {
    if i :| 0 <= i < |t.categories| && NaiveRow(t, skip, raw, dec, i, |t.categories[i].sigs|) {
      var j :| 0 <= j < |t.categories[i].sigs| &&
        ((Flag.Raw in t.categories[i].flags && Found(t.categories[i].sigs[j], raw))
         || (Flag.Decoded in t.categories[i].flags && Found(t.categories[i].sigs[j], dec)));
      if Flag.Raw in t.categories[i].flags && Found(t.categories[i].sigs[j], raw) {
        RowEndsSomewhere(t, Flag.Raw, skip, raw, i, j);
      } else {
        RowEndsSomewhere(t, Flag.Decoded, skip, dec, i, j);
      }
    } else {
      var i :| 0 <= i < |t.rules| && NaiveRule(t, skip, raw, dec, i);
      if !Unreportable(t, i) {
        RuleFiresSomewhere(t, skip, raw, dec, i);
      }
    }
  }

  /** The two engines compared on every table, input and skip mask: the automaton misses
      exactly the rules that it can never report, those without a term or a table row. */
  lemma EnginesCompared(t: Tables, skip: Mask, unescape: Word -> Word, data: Word)
    requires WellFormed(t)
    ensures var raw, dec := Lower(data), DecodedCopy(unescape, data);
            data != [] && NaiveMatches(t, skip, raw, dec)
            <==> InputMatches(t, skip, unescape, data)
                 || (data != [] && exists i :: 0 <= i < |t.rules| && Unreportable(t, i) && NaiveRule(t, skip, raw, dec, i))
  {
    var raw, dec := Lower(data), DecodedCopy(unescape, data);
    hide Lower, DecodedCopy;
    if Matches(t, Flag.Raw, skip, raw) {
      MatchesIsNaive(t, Flag.Raw, skip, raw, dec);
    }
    if Matches(t, Flag.Decoded, skip, dec) {
      MatchesIsNaive(t, Flag.Decoded, skip, raw, dec);
    }
    if NaiveMatches(t, skip, raw, dec) {
      NaiveIsMatches(t, skip, raw, dec);
    }
    hide Matches, NaiveRule, Unreportable;
  }

  /** The differential claim: when every rule can be reported, the naive engine hits
      exactly when the automaton does. */
  lemma EnginesAgree(t: Tables, skip: Mask, unescape: Word -> Word, data: Word)
    requires WellFormed(t) && RulesReportable(t)
    ensures data != [] && NaiveMatches(t, skip, Lower(data), DecodedCopy(unescape, data))
            <==> InputMatches(t, skip, unescape, data)
  {
    EnginesCompared(t, skip, unescape, data);
    hide Lower, DecodedCopy, InputMatches, NaiveMatches, NaiveRule;
  }

  lemma RuleFiresSomewhere(t: Tables, skip: Mask, raw: Word, dec: Word, i: nat)
    requires i < |t.rules| && !Unreportable(t, i) && NaiveRule(t, skip, raw, dec, i)
    ensures Matches(t, Flag.Raw, skip, raw) || Matches(t, Flag.Decoded, skip, dec)
  {
    if AllFound(t.rules[i], Flag.Raw, raw, |t.rules[i].terms|) {
      assert RuleFires(t, Flag.Raw, skip, raw, i);
    } else {
      assert RuleFires(t, Flag.Decoded, skip, dec, i);
    }
  }

  lemma FoundInItself(w: Word)
    requires w != []
    ensures Found(w, w)
  {
    assert Suffix(w, w[..|w|]);
  }

  lemma NothingWithoutRows(rule: Rule, flavour: Flag, w: Word)
    ensures !Matches(Tables([], [rule]), flavour, {}, w)
  {
  }

  /** One such rule: its category has no table row. The naive engine reports it on its own
      term, the automaton cannot. */
  lemma EnginesPartOnOrphanRules(term: Word)
    requires term != []
    ensures var t := Tables([], [Rule(0, "orphan", [term], {Flag.Raw})]);
            WellFormed(t) && NaiveMatches(t, {}, term, term) && !Matches(t, Flag.Raw, {}, term)
  {
    var rule := Rule(0, "orphan", [term], {Flag.Raw});
    FoundInItself(term);
    NothingWithoutRows(rule, Flag.Raw, term);
    hide Found, Occurs, Suffix, Matches;
    assert NaiveRule(Tables([], [rule]), {}, term, term, 0);
  }
}
