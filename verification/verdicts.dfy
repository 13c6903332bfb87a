/** What a scan of one buffer means, in terms of the tables alone. */
module Verdicts {
  import opened Options
  import opened Words
  import opened Tables

  /** An enabled signature of row `r` ends the text `w`. */
  ghost predicate RowEnds(t: Tables, flavour: Flag, skip: Mask, w: Word, r: nat) {
    && r < |t.categories|
    && flavour in t.categories[r].flags && t.categories[r].cat !in skip
    && exists sig :: sig in t.categories[r].sigs && Suffix(sig, w)
  }

  ghost predicate SomeRowEnds(t: Tables, flavour: Flag, skip: Mask, w: Word) {
    exists r: nat :: RowEnds(t, flavour, skip, w, r)
  }

  /** No enabled signature ends inside the first `n` bytes. */
  ghost predicate Quiet(t: Tables, flavour: Flag, skip: Mask, data: Word, n: nat)
    requires n <= |data|
  {
    forall e {:trigger data[..e]} :: 0 <= e <= n ==> !SomeRowEnds(t, flavour, skip, data[..e])
  }

  /** Row `r` wins at `e`: it is the lowest row ending there, and nothing ends earlier. */
  ghost predicate WinsAt(t: Tables, flavour: Flag, skip: Mask, data: Word, e: nat, r: nat) {
    && 0 < e <= |data|
    && RowEnds(t, flavour, skip, data[..e], r)
    && (forall r' :: 0 <= r' < r ==> !RowEnds(t, flavour, skip, data[..e], r'))
    && Quiet(t, flavour, skip, data, e - 1)
  }

  /** Every term of rule `i` occurs in the buffer, and it has a category to report. */
  ghost predicate RuleFires(t: Tables, flavour: Flag, skip: Mask, data: Word, i: nat) {
    && i < |t.rules|
    && flavour in t.rules[i].flags && t.rules[i].cat !in skip
    && t.rules[i].terms != [] && RowOf(t.categories, t.rules[i].cat) < |t.categories|
    && forall j :: 0 <= j < |t.rules[i].terms| ==> Occurs(t.rules[i].terms[j], data)
  }

  ghost predicate FirstRule(t: Tables, flavour: Flag, skip: Mask, data: Word, i: nat) {
    && RuleFires(t, flavour, skip, data, i)
    && forall i' :: 0 <= i' < i ==> !RuleFires(t, flavour, skip, data, i')
  }

  /** The meaning of one scan: the lowest enabled row among the signatures ending at
      the earliest end position; failing that, the row of the first rule to fire. */
  ghost predicate Verdict(t: Tables, flavour: Flag, skip: Mask, data: Word, res: Option<nat>) {
    match res
    case Some(r) =>
      || (exists e: nat :: WinsAt(t, flavour, skip, data, e, r))
      || (Quiet(t, flavour, skip, data, |data|)
          && exists i: nat :: FirstRule(t, flavour, skip, data, i) && r == RowOf(t.categories, t.rules[i].cat))
    case None =>
      Quiet(t, flavour, skip, data, |data|) && forall i: nat :: !RuleFires(t, flavour, skip, data, i)
  }

  /** What the naive engine looks for: some signature occurs, or some rule fires. */
  ghost predicate Matches(t: Tables, flavour: Flag, skip: Mask, data: Word) {
    || (exists e {:trigger data[..e]} :: 0 <= e <= |data| && SomeRowEnds(t, flavour, skip, data[..e]))
    || (exists i: nat :: RuleFires(t, flavour, skip, data, i))
  }

  lemma WinnerIsUnique(t: Tables, flavour: Flag, skip: Mask, data: Word, e: nat, r: nat, e': nat, r': nat)
    requires WinsAt(t, flavour, skip, data, e, r) && WinsAt(t, flavour, skip, data, e', r')
    ensures e == e' && r == r'
  {
  }

  lemma WinnerEndsQuiet(t: Tables, flavour: Flag, skip: Mask, data: Word, e: nat, r: nat)
    requires WinsAt(t, flavour, skip, data, e, r)
    ensures SomeRowEnds(t, flavour, skip, data[..e]) && !Quiet(t, flavour, skip, data, |data|)
  {
  }

  lemma WinnerIsVerdict(t: Tables, flavour: Flag, skip: Mask, data: Word, e: nat, r: nat)
    requires WinsAt(t, flavour, skip, data, e, r)
    ensures Verdict(t, flavour, skip, data, Some(r))
  {
  }

  /** A buffer has at most one verdict. */
  lemma VerdictIsUnique(t: Tables, flavour: Flag, skip: Mask, data: Word, a: Option<nat>, b: Option<nat>)
    requires Verdict(t, flavour, skip, data, a) && Verdict(t, flavour, skip, data, b)
    ensures a == b
  {
    forall e: nat, r: nat | WinsAt(t, flavour, skip, data, e, r)
      ensures !Quiet(t, flavour, skip, data, |data|)
    {
      WinnerEndsQuiet(t, flavour, skip, data, e, r);
    }
    if a.Some? && b.Some? {
      if e: nat, e': nat :| WinsAt(t, flavour, skip, data, e, a.value) && WinsAt(t, flavour, skip, data, e', b.value) {
        WinnerIsUnique(t, flavour, skip, data, e, a.value, e', b.value);
      } else {
        var i: nat :| FirstRule(t, flavour, skip, data, i) && a.value == RowOf(t.categories, t.rules[i].cat);
        var i': nat :| FirstRule(t, flavour, skip, data, i') && b.value == RowOf(t.categories, t.rules[i'].cat);
        assert !(i < i') && !(i' < i);
      }
    }
  }

  /** A verdict is a hit exactly when something matches. */
  lemma HitIffMatches(t: Tables, flavour: Flag, skip: Mask, data: Word, res: Option<nat>)
    requires Verdict(t, flavour, skip, data, res)
    ensures res.Some? <==> Matches(t, flavour, skip, data)
  {
  }

  /** An enabled signature of row `r` occurs somewhere in the buffer. */
  ghost predicate RowOccurs(t: Tables, flavour: Flag, skip: Mask, data: Word, r: nat) {
    exists e {:trigger data[..e]} :: 0 <= e <= |data| && RowEnds(t, flavour, skip, data[..e], r)
  }

  ghost predicate LowestRow(t: Tables, flavour: Flag, skip: Mask, data: Word, low: nat) {
    RowOccurs(t, flavour, skip, data, low) && forall r :: 0 <= r < low ==> !RowOccurs(t, flavour, skip, data, r)
  }

  /** Rows decide between signatures that end at one byte, not over the buffer: the row
      reported is the lowest that occurs iff that one ends where the first signature does. */
  lemma LowestRowWinsIffItEndsFirst(t: Tables, flavour: Flag, skip: Mask, data: Word, e: nat, r: nat, low: nat)
    requires WinsAt(t, flavour, skip, data, e, r) && LowestRow(t, flavour, skip, data, low)
    ensures Verdict(t, flavour, skip, data, Some(r)) && low <= r
    ensures r == low <==> RowEnds(t, flavour, skip, data[..e], low)
  {
    assert RowOccurs(t, flavour, skip, data, r);
  }

  /** Two rows of one signature each; the second one's ends first. */
  function TwoRows(a: Byte, b: Byte): Tables {
    Tables([Category(0, "low", [[b]], {Flag.Decoded}), Category(1, "high", [[a]], {Flag.Decoded})], [])
  }

  lemma EndsOnly(a: Byte, w: Word)
    ensures Suffix([a], w) <==> w != [] && w[|w| - 1] == a
  {
    if w != [] {
      assert w[|w| - 1..] == [w[|w| - 1]];
    }
  }

  lemma TwoRowsEnd(a: Byte, b: Byte, w: Word, r: nat)
    ensures RowEnds(TwoRows(a, b), Flag.Decoded, {}, w, r)
        <==> w != [] && ((r == 0 && w[|w| - 1] == b) || (r == 1 && w[|w| - 1] == a))
  {
    EndsOnly(a, w);
    EndsOnly(b, w);
    hide Suffix;
    var t := TwoRows(a, b);
    assert t.categories[0].sigs == [[b]] && t.categories[1].sigs == [[a]];
    assert [b] in t.categories[0].sigs && [a] in t.categories[1].sigs;
  }

  lemma EndsAt(a: Byte, b: Byte, e: nat, r: nat)
    requires a != b && e <= 2
    ensures RowEnds(TwoRows(a, b), Flag.Decoded, {}, [a, b][..e], r) <==> (e == 1 && r == 1) || (e == 2 && r == 0)
  {
    TwoRowsEnd(a, b, [a, b][..e], r);
    hide RowEnds, TwoRows;
  }

  /** A row that ends alone after one byte wins there. */
  lemma WinsAtOne(t: Tables, flavour: Flag, skip: Mask, data: Word, r: nat)
    requires 0 < |data|
    requires forall r' :: 0 <= r' ==> !RowEnds(t, flavour, skip, data[..0], r')
    requires forall r' :: 0 <= r' ==> (RowEnds(t, flavour, skip, data[..1], r') <==> r' == r)
    ensures WinsAt(t, flavour, skip, data, 1, r)
  {
    hide RowEnds;
    assert !SomeRowEnds(t, flavour, skip, data[..0]);
  }

  lemma OccursLowest(t: Tables, flavour: Flag, skip: Mask, data: Word, e: nat)
    requires e <= |data| && RowEnds(t, flavour, skip, data[..e], 0)
    ensures LowestRow(t, flavour, skip, data, 0)
  {
    hide RowEnds;
    assert RowOccurs(t, flavour, skip, data, 0);
  }

  /** The higher row is reported although the lower one occurs. */
  lemma HigherRowMayWin(a: Byte, b: Byte)
    requires a != b
    ensures WinsAt(TwoRows(a, b), Flag.Decoded, {}, [a, b], 1, 1)
    ensures LowestRow(TwoRows(a, b), Flag.Decoded, {}, [a, b], 0)
  {
    hide RowEnds, TwoRows, WinsAt, RowOccurs, LowestRow;
    var t, data := TwoRows(a, b), [a, b];
    forall r | 0 <= r
      ensures !RowEnds(t, Flag.Decoded, {}, data[..0], r)
      ensures RowEnds(t, Flag.Decoded, {}, data[..1], r) <==> r == 1
    {
      EndsAt(a, b, 0, r);
      EndsAt(a, b, 1, r);
    }
    WinsAtOne(t, Flag.Decoded, {}, data, 1);
    EndsAt(a, b, 2, 0);
    OccursLowest(t, Flag.Decoded, {}, data, 2);
  }
}
