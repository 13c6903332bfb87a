/** The signature and AND-rule tables the automata are built from. */
module Tables {
  import opened Words

  /** A 64-bit mask is the set of its bit positions: `|` is union, `& ~` is
      difference, and `1 << k` is `{k}`, which is only defined for k < 64. */
  type Bit = k: nat | k < 64
  type Mask = set<Bit>

  datatype Flag = Decoded | Raw | NoBody | NoQuery

  datatype Category = Category(cat: Bit, name: string, sigs: seq<Word>, flags: set<Flag>)

  datatype Rule = Rule(cat: Bit, name: string, terms: seq<Word>, flags: set<Flag>)

  datatype Tables = Tables(categories: seq<Category>, rules: seq<Rule>)

  /** What the compiled-in tables guarantee: no empty signature or term, and one
      table row per category. */
  ghost predicate WellFormed(t: Tables) {
    && (forall i, j :: 0 <= i < |t.categories| && 0 <= j < |t.categories[i].sigs| ==> t.categories[i].sigs[j] != [])
    && (forall i, j :: 0 <= i < |t.rules| && 0 <= j < |t.rules[i].terms| ==> t.rules[i].terms[j] != [])
    && (forall i, j :: 0 <= i < j < |t.categories| ==> t.categories[i].cat != t.categories[j].cat)
  }

  /** Every rule has a term, and reports a category that has a table row. */
  ghost predicate RulesReportable(t: Tables) {
    forall i :: 0 <= i < |t.rules| ==> t.rules[i].terms != [] && RowOf(t.categories, t.rules[i].cat) < |t.categories|
  }

  /** The table row of category `c`, or the number of rows when it has none. */
  function RowOf(cats: seq<Category>, c: Bit): (r: nat)
    ensures r <= |cats|
    ensures r < |cats| ==> cats[r].cat == c
    ensures forall i :: 0 <= i < r ==> cats[i].cat != c
  {
    if cats == [] then 0
    else if cats[0].cat == c then 0
    else
      var r := RowOf(cats[1..], c);
      assert forall i :: 0 < i < |cats| ==> cats[1..][i - 1] == cats[i];
      1 + r
  }

  /** Rule terms are numbered across all rules, in declaration order. */
  function TermBase(rules: seq<Rule>, n: nat): nat
    requires n <= |rules|
  {
    if n == 0 then 0 else TermBase(rules, n - 1) + |rules[n - 1].terms|
  }

  lemma {:induction false} TermBaseMonotonic(rules: seq<Rule>, m: nat, n: nat)
    requires m <= n <= |rules|
    ensures TermBase(rules, m) <= TermBase(rules, n)
  {
    if m < n {
      TermBaseMonotonic(rules, m, n - 1);
    }
  }

  /** The position of a term in the numbering determines its rule and place. */
  lemma TermIdsDistinct(rules: seq<Rule>, i: nat, j: nat, i': nat, j': nat)
    requires i < |rules| && j < |rules[i].terms| && i' < |rules| && j' < |rules[i'].terms|
    requires TermBase(rules, i) + j == TermBase(rules, i') + j'
    ensures i == i' && j == j'
  {
    if i < i' {
      TermBaseMonotonic(rules, i + 1, i');
    } else if i' < i {
      TermBaseMonotonic(rules, i' + 1, i);
    }
  }

  /** What one automaton must recognise: a pattern and the mask bit it sets. */
  datatype Entry = Entry(word: Word, bit: Bit)

  function RowEntries(c: Category, n: nat): set<Entry>
    requires n <= |c.sigs|
  {
    if n == 0 then {} else RowEntries(c, n - 1) + {Entry(c.sigs[n - 1], c.cat)}
  }

  function SigEntries(cats: seq<Category>, flavour: Flag, n: nat): set<Entry>
    requires n <= |cats|
  {
    if n == 0 then {}
    else SigEntries(cats, flavour, n - 1) +
         if flavour in cats[n - 1].flags then RowEntries(cats[n - 1], |cats[n - 1].sigs|) else {}
  }

  function RuleEntries(r: Rule, base: nat, n: nat): set<Entry>
    requires n <= |r.terms| && base + |r.terms| <= 64
  {
    if n == 0 then {} else RuleEntries(r, base, n - 1) + {Entry(r.terms[n - 1], base + n - 1)}
  }

  function TermEntries(rules: seq<Rule>, flavour: Flag, n: nat): set<Entry>
    requires n <= |rules| && TermBase(rules, n) <= 64
  {
    if n == 0 then {}
    else TermEntries(rules, flavour, n - 1) +
         if flavour in rules[n - 1].flags
         then RuleEntries(rules[n - 1], TermBase(rules, n - 1), |rules[n - 1].terms|) else {}
  }

  lemma {:induction false} InRowEntries(c: Category, n: nat, e: Entry)
    requires n <= |c.sigs|
    ensures e in RowEntries(c, n) <==> e.bit == c.cat && exists j :: 0 <= j < n && c.sigs[j] == e.word
  {
    if n > 0 {
      InRowEntries(c, n - 1, e);
    }
  }

  lemma {:induction false} InSigEntries(cats: seq<Category>, flavour: Flag, n: nat, e: Entry)
    requires n <= |cats|
    ensures e in SigEntries(cats, flavour, n) <==>
            exists i :: 0 <= i < n && flavour in cats[i].flags && cats[i].cat == e.bit && e.word in cats[i].sigs
  {
    if n > 0 {
      InSigEntries(cats, flavour, n - 1, e);
      InRowEntries(cats[n - 1], |cats[n - 1].sigs|, e);
    }
  }

  lemma {:induction false} InRuleEntries(r: Rule, base: nat, n: nat, e: Entry)
    requires n <= |r.terms| && base + |r.terms| <= 64
    ensures e in RuleEntries(r, base, n) <==> base <= e.bit < base + n && r.terms[e.bit - base] == e.word
  {
    if n > 0 {
      InRuleEntries(r, base, n - 1, e);
    }
  }

  lemma {:induction false} InTermEntries(rules: seq<Rule>, flavour: Flag, n: nat, e: Entry)
    requires n <= |rules| && TermBase(rules, n) <= 64
    ensures e in TermEntries(rules, flavour, n) <==>
            exists i :: 0 <= i < n && flavour in rules[i].flags
                        && TermBase(rules, i) <= e.bit < TermBase(rules, i) + |rules[i].terms|
                        && rules[i].terms[e.bit - TermBase(rules, i)] == e.word
  {
    if n > 0 {
      InTermEntries(rules, flavour, n - 1, e);
      InRuleEntries(rules[n - 1], TermBase(rules, n - 1), |rules[n - 1].terms|, e);
    }
  }

  /** Total length of the first `n` words. */
  function Bytes(ws: seq<Word>, n: nat): nat
    requires n <= |ws|
  {
    if n == 0 then 0 else Bytes(ws, n - 1) + |ws[n - 1]|
  }

  function SigBytes(cats: seq<Category>, flavour: Flag, n: nat): nat
    requires n <= |cats|
  {
    if n == 0 then 0
    else SigBytes(cats, flavour, n - 1) +
         if flavour in cats[n - 1].flags then Bytes(cats[n - 1].sigs, |cats[n - 1].sigs|) else 0
  }

  function TermBytes(rules: seq<Rule>, flavour: Flag, n: nat): nat
    requires n <= |rules|
  {
    if n == 0 then 0
    else TermBytes(rules, flavour, n - 1) +
         if flavour in rules[n - 1].flags then Bytes(rules[n - 1].terms, |rules[n - 1].terms|) else 0
  }

  /** The build's bound on the number of states: one per pattern byte, plus the root. */
  function StateBound(t: Tables, flavour: Flag): nat {
    1 + SigBytes(t.categories, flavour, |t.categories|) + TermBytes(t.rules, flavour, |t.rules|)
  }

  lemma {:induction false} BytesMonotonic(ws: seq<Word>, m: nat, n: nat)
    requires m <= n <= |ws|
    ensures Bytes(ws, m) <= Bytes(ws, n)
  {
    if m < n {
      BytesMonotonic(ws, m, n - 1);
    }
  }

  lemma {:induction false} SigBytesMonotonic(cats: seq<Category>, flavour: Flag, m: nat, n: nat)
    requires m <= n <= |cats|
    ensures SigBytes(cats, flavour, m) <= SigBytes(cats, flavour, n)
  {
    if m < n {
      SigBytesMonotonic(cats, flavour, m, n - 1);
    }
  }

  lemma {:induction false} TermBytesMonotonic(rules: seq<Rule>, flavour: Flag, m: nat, n: nat)
    requires m <= n <= |rules|
    ensures TermBytes(rules, flavour, m) <= TermBytes(rules, flavour, n)
  {
    if m < n {
      TermBytesMonotonic(rules, flavour, m, n - 1);
    }
  }
}
