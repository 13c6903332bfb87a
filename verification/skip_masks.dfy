/** What a skip mask means: it is as if the skipped categories and rules were never
    in the tables. */
module SkipMasks {
  import opened Options
  import opened Words
  import opened Tables
  import opened Verdicts
  import opened Automata

  function Keep<T>(xs: seq<T>, p: T -> bool): (r: seq<T>)
    ensures |r| <= |xs|
  {
    if xs == [] then []
    else Keep(xs[..|xs| - 1], p) + if p(xs[|xs| - 1]) then [xs[|xs| - 1]] else []
  }

  /** Where element `i` ends up. */
  function Place<T>(xs: seq<T>, p: T -> bool, i: nat): nat
    requires i <= |xs|
  {
    |Keep(xs[..i], p)|
  }

  function EnabledRow(skip: Mask): Category -> bool {
    (c: Category) => c.cat !in skip
  }

  function EnabledRule(skip: Mask): Rule -> bool {
    (r: Rule) => r.cat !in skip
  }

  function Without(t: Tables, skip: Mask): Tables {
    Tables(Keep(t.categories, EnabledRow(skip)), Keep(t.rules, EnabledRule(skip)))
  }

  lemma {:induction false} KeptAt<T>(xs: seq<T>, p: T -> bool, i: nat)
    requires i < |xs| && p(xs[i])
    ensures Place(xs, p, i) < |Keep(xs, p)| && Keep(xs, p)[Place(xs, p, i)] == xs[i]
  {
    var front := xs[..|xs| - 1];
    if i < |front| {
      KeptAt(front, p, i);
      assert front[..i] == xs[..i];
    }
  }

  lemma {:induction false} KeptFrom<T>(xs: seq<T>, p: T -> bool, k: nat) returns (i: nat)
    requires k < |Keep(xs, p)|
    ensures i < |xs| && p(xs[i]) && Place(xs, p, i) == k && Keep(xs, p)[k] == xs[i]
  {
    var front := xs[..|xs| - 1];
    if k < |Keep(front, p)| {
      i := KeptFrom(front, p, k);
      assert front[..i] == xs[..i];
    } else {
      i := |front|;
    }
  }

  lemma {:induction false} PlaceIncreases<T>(xs: seq<T>, p: T -> bool, i: nat, j: nat)
    requires i < j <= |xs| && p(xs[i])
    ensures Place(xs, p, i) < Place(xs, p, j)
    decreases j
  {
    assert xs[..j][..j - 1] == xs[..j - 1];
    if i + 1 < j {
      PlaceIncreases(xs, p, i, j - 1);
    }
  }

  /** An enabled category keeps its (first) row. */
  lemma RowOfKept(t: Tables, skip: Mask, c: Bit)
    requires c !in skip
    ensures var cats, kept := t.categories, Without(t, skip).categories;
            var r := RowOf(cats, c);
            && (r < |cats| ==> RowOf(kept, c) == Place(cats, EnabledRow(skip), r) < |kept|)
            && (r == |cats| ==> RowOf(kept, c) == |kept|)
  {
    var cats, p := t.categories, EnabledRow(skip);
    var kept := Keep(cats, p);
    var r, r' := RowOf(cats, c), RowOf(kept, c);
    if r' < |kept| {
      var i := KeptFrom(cats, p, r');
      if r < i {
        KeptAt(cats, p, r);
        PlaceIncreases(cats, p, r, i);
      }
    }
    if r < |cats| {
      KeptAt(cats, p, r);
    }
  }

  lemma RowEndsKept(t: Tables, flavour: Flag, skip: Mask, w: Word, i: nat)
    requires i < |t.categories| && t.categories[i].cat !in skip
    ensures RowEnds(t, flavour, skip, w, i)
            <==> RowEnds(Without(t, skip), flavour, {}, w, Place(t.categories, EnabledRow(skip), i))
  {
    KeptAt(t.categories, EnabledRow(skip), i);
  }

  lemma RowEndsFrom(t: Tables, flavour: Flag, skip: Mask, w: Word, k: nat) returns (i: nat)
    requires RowEnds(Without(t, skip), flavour, {}, w, k)
    ensures RowEnds(t, flavour, skip, w, i) && Place(t.categories, EnabledRow(skip), i) == k
  {
    i := KeptFrom(t.categories, EnabledRow(skip), k);
  }

  lemma QuietKept(t: Tables, flavour: Flag, skip: Mask, data: Word, n: nat)
    requires n <= |data|
    ensures Quiet(t, flavour, skip, data, n) <==> Quiet(Without(t, skip), flavour, {}, data, n)
  {
    forall e | 0 <= e <= n
      ensures SomeRowEnds(t, flavour, skip, data[..e]) <==> SomeRowEnds(Without(t, skip), flavour, {}, data[..e])
    {
      if r: nat :| RowEnds(t, flavour, skip, data[..e], r) {
        RowEndsKept(t, flavour, skip, data[..e], r);
      }
      if k: nat :| RowEnds(Without(t, skip), flavour, {}, data[..e], k) {
        var i := RowEndsFrom(t, flavour, skip, data[..e], k);
      }
    }
  }

  lemma WinsKept(t: Tables, flavour: Flag, skip: Mask, data: Word, e: nat, r: nat)
    requires WinsAt(t, flavour, skip, data, e, r)
    ensures WinsAt(Without(t, skip), flavour, {}, data, e, Place(t.categories, EnabledRow(skip), r))
    ensures SameRow(t, skip, r, Place(t.categories, EnabledRow(skip), r))
  {
    var p := EnabledRow(skip);
    QuietKept(t, flavour, skip, data, e - 1);
    RowEndsKept(t, flavour, skip, data[..e], r);
    KeptAt(t.categories, p, r);
    forall k: nat | k < Place(t.categories, p, r)
      ensures !RowEnds(Without(t, skip), flavour, {}, data[..e], k)
    {
      if RowEnds(Without(t, skip), flavour, {}, data[..e], k) {
        var i := RowEndsFrom(t, flavour, skip, data[..e], k);
        if r < i {
          PlaceIncreases(t.categories, p, r, i);
        }
      }
    }
  }

  ghost predicate SameRow(t: Tables, skip: Mask, r: nat, k: nat) {
    r < |t.categories| && k < |Without(t, skip).categories| && t.categories[r] == Without(t, skip).categories[k]
  }

  lemma RuleFiresKept(t: Tables, flavour: Flag, skip: Mask, data: Word, i: nat)
    requires i < |t.rules| && t.rules[i].cat !in skip
    ensures RuleFires(t, flavour, skip, data, i)
            <==> RuleFires(Without(t, skip), flavour, {}, data, Place(t.rules, EnabledRule(skip), i))
  {
    KeptAt(t.rules, EnabledRule(skip), i);
    RowOfKept(t, skip, t.rules[i].cat);
  }

  lemma RuleFiresFrom(t: Tables, flavour: Flag, skip: Mask, data: Word, k: nat) returns (i: nat)
    requires RuleFires(Without(t, skip), flavour, {}, data, k)
    ensures RuleFires(t, flavour, skip, data, i) && Place(t.rules, EnabledRule(skip), i) == k
  {
    i := KeptFrom(t.rules, EnabledRule(skip), k);
    RuleFiresKept(t, flavour, skip, data, i);
  }

  lemma FirstRuleKept(t: Tables, flavour: Flag, skip: Mask, data: Word, i: nat)
    requires FirstRule(t, flavour, skip, data, i)
    ensures FirstRule(Without(t, skip), flavour, {}, data, Place(t.rules, EnabledRule(skip), i))
  {
    var p := EnabledRule(skip);
    RuleFiresKept(t, flavour, skip, data, i);
    forall k: nat | k < Place(t.rules, p, i)
      ensures !RuleFires(Without(t, skip), flavour, {}, data, k)
    {
      if RuleFires(Without(t, skip), flavour, {}, data, k) {
        var i' := RuleFiresFrom(t, flavour, skip, data, k);
        if i < i' {
          PlaceIncreases(t.rules, p, i, i');
        }
      }
    }
  }

  /** Scanning with a skip mask reports the same category as scanning, with nothing
      skipped, tables that never held the skipped categories and rules. */
  lemma SkippingIsRemoving(t: Tables, flavour: Flag, skip: Mask, data: Word, a: Option<nat>, b: Option<nat>)
    requires Verdict(t, flavour, skip, data, a) && Verdict(Without(t, skip), flavour, {}, data, b)
    ensures a.Some? <==> b.Some?
    ensures a.Some? ==> SameRow(t, skip, a.value, b.value)
  {
    var u := Without(t, skip);
    QuietKept(t, flavour, skip, data, |data|);
    var c: Option<nat> := None;
    if a.Some? {
      if e: nat :| WinsAt(t, flavour, skip, data, e, a.value) {
        WinsKept(t, flavour, skip, data, e, a.value);
        c := Some(Place(t.categories, EnabledRow(skip), a.value));
      } else {
        var i: nat :| FirstRule(t, flavour, skip, data, i) && a.value == RowOf(t.categories, t.rules[i].cat);
        FirstRuleKept(t, flavour, skip, data, i);
        KeptAt(t.rules, EnabledRule(skip), i);
        RowOfKept(t, skip, t.rules[i].cat);
        KeptAt(t.categories, EnabledRow(skip), a.value);
        c := Some(RowOf(u.categories, t.rules[i].cat));
      }
    } else {
      forall k: nat
        ensures !RuleFires(u, flavour, {}, data, k)
      {
        if RuleFires(u, flavour, {}, data, k) {
          var i := RuleFiresFrom(t, flavour, skip, data, k);
        }
      }
    }
    VerdictIsUnique(u, flavour, {}, data, b, c);
  }

  /** The reduced tables are still well formed, and the build still accepts them. */
  lemma RemovingKeepsTablesFit(t: Tables, flavour: Flag, skip: Mask)
    requires WellFormed(t) && Fits(t, flavour)
    ensures WellFormed(Without(t, skip)) && Fits(Without(t, skip), flavour)
  {
    var u := Without(t, skip);
    forall i | 0 <= i < |u.categories|
      ensures forall j :: 0 <= j < |u.categories[i].sigs| ==> u.categories[i].sigs[j] != []
    {
      var k := KeptFrom(t.categories, EnabledRow(skip), i);
    }
    forall i | 0 <= i < |u.rules|
      ensures forall j :: 0 <= j < |u.rules[i].terms| ==> u.rules[i].terms[j] != []
    {
      var k := KeptFrom(t.rules, EnabledRule(skip), i);
    }
    forall i, j | 0 <= i < j < |u.categories|
      ensures u.categories[i].cat != u.categories[j].cat
    {
      var k := KeptFrom(t.categories, EnabledRow(skip), i);
      var l := KeptFrom(t.categories, EnabledRow(skip), j);
      assert k != l;
    }
    FewerSigs(t.categories, flavour, skip);
    FewerTerms(t.rules, flavour, skip);
  }

  lemma {:induction false} SigBytesOfPrefix(cats: seq<Category>, more: seq<Category>, flavour: Flag, n: nat)
    requires n <= |cats|
    ensures SigBytes(cats + more, flavour, n) == SigBytes(cats, flavour, n)
  {
    if n > 0 {
      SigBytesOfPrefix(cats, more, flavour, n - 1);
    }
  }

  lemma {:induction false} TermBytesOfPrefix(rules: seq<Rule>, more: seq<Rule>, flavour: Flag, n: nat)
    requires n <= |rules|
    ensures TermBytes(rules + more, flavour, n) == TermBytes(rules, flavour, n)
    ensures TermBase(rules + more, n) == TermBase(rules, n)
  {
    if n > 0 {
      TermBytesOfPrefix(rules, more, flavour, n - 1);
    }
  }

  lemma {:induction false} FewerSigs(cats: seq<Category>, flavour: Flag, skip: Mask)
    ensures var kept := Keep(cats, EnabledRow(skip));
            SigBytes(kept, flavour, |kept|) <= SigBytes(cats, flavour, |cats|)
  {
    if cats != [] {
      var front, last := cats[..|cats| - 1], cats[|cats| - 1];
      var kept := Keep(front, EnabledRow(skip));
      FewerSigs(front, flavour, skip);
      assert cats == front + [last];
      SigBytesOfPrefix(front, [last], flavour, |front|);
      SigBytesOfPrefix(kept, [last], flavour, |kept|);
      assert SigBytes(kept + [last], flavour, |kept| + 1) - SigBytes(kept, flavour, |kept|)
          == SigBytes(front + [last], flavour, |front| + 1) - SigBytes(front, flavour, |front|);
      assert Keep(cats, EnabledRow(skip)) == if last.cat !in skip then kept + [last] else kept;
    }
  }

  lemma {:induction false} FewerTerms(rules: seq<Rule>, flavour: Flag, skip: Mask)
    ensures var kept := Keep(rules, EnabledRule(skip));
            && TermBytes(kept, flavour, |kept|) <= TermBytes(rules, flavour, |rules|)
            && TermBase(kept, |kept|) <= TermBase(rules, |rules|)
  {
    if rules != [] {
      var front, last := rules[..|rules| - 1], rules[|rules| - 1];
      var kept := Keep(front, EnabledRule(skip));
      FewerTerms(front, flavour, skip);
      assert rules == front + [last];
      TermBytesOfPrefix(front, [last], flavour, |front|);
      TermBytesOfPrefix(kept, [last], flavour, |kept|);
      assert TermBytes(kept + [last], flavour, |kept| + 1) - TermBytes(kept, flavour, |kept|)
          == TermBytes(front + [last], flavour, |front| + 1) - TermBytes(front, flavour, |front|);
      assert TermBase(kept + [last], |kept| + 1) - TermBase(kept, |kept|)
          == TermBase(front + [last], |front| + 1) - TermBase(front, |front|);
      assert Keep(rules, EnabledRule(skip)) == if last.cat !in skip then kept + [last] else kept;
    }
  }

  /** Enlarging the mask never turns a clean buffer into a hit. */
  lemma SkippingMoreStaysClean(t: Tables, flavour: Flag, skip: Mask, more: Mask, data: Word, res: Option<nat>)
    requires skip <= more
    requires Verdict(t, flavour, skip, data, None) && Verdict(t, flavour, more, data, res)
    ensures res == None
  {
    forall e | 0 <= e <= |data|
      ensures SomeRowEnds(t, flavour, more, data[..e]) ==> SomeRowEnds(t, flavour, skip, data[..e])
    {
      if r: nat :| RowEnds(t, flavour, more, data[..e], r) {
        assert RowEnds(t, flavour, skip, data[..e], r);
      }
    }
    forall i: nat
      ensures RuleFires(t, flavour, more, data, i) ==> RuleFires(t, flavour, skip, data, i)
    {
    }
    VerdictIsUnique(t, flavour, more, data, None, res);
  }
}
