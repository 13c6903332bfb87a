/** The automaton itself: built once from the tables, then scanned read-only. */
module Automata {
  import opened Options
  import opened Words
  import opened Tables
  import opened Trie
  import opened FailLinks
  import opened Verdicts

  const MAX_TERMS := 64

  function Sigs(t: Tables, flavour: Flag): set<Entry> {
    SigEntries(t.categories, flavour, |t.categories|)
  }

  function Terms(t: Tables, flavour: Flag): set<Entry>
    requires TermBase(t.rules, |t.rules|) <= MAX_TERMS
  {
    TermEntries(t.rules, flavour, |t.rules|)
  }

  /** The build accepts exactly the tables whose terms fit a mask and whose patterns
      fit 16-bit states. */
  predicate Fits(t: Tables, flavour: Flag) {
    TermBase(t.rules, |t.rules|) <= MAX_TERMS && StateBound(t, flavour) <= MAX_STATES
  }

  /** Category `c` can be reported: by a signature table or by a rule of this flavour
      among the first `i` rows and `k` rules. */
  ghost predicate Reported(t: Tables, flavour: Flag, c: Bit, i: nat, k: nat) {
    || (RowOf(t.categories, c) < |t.categories| && RowOf(t.categories, c) < i
        && flavour in t.categories[RowOf(t.categories, c)].flags)
    || (exists r :: 0 <= r < k <= |t.rules| && t.rules[r].cat == c && flavour in t.rules[r].flags)
  }

  function RowEntry(t: Tables, c: Bit, reported: bool): nat {
    if reported then RowOf(t.categories, c) else |t.categories|
  }

  lemma RowOfIsUnique(t: Tables, i: nat)
    requires WellFormed(t) && i < |t.categories|
    ensures RowOf(t.categories, t.categories[i].cat) == i
  {
  }

  lemma NonEmptyEntries(t: Tables, flavour: Flag)
    requires WellFormed(t) && TermBase(t.rules, |t.rules|) <= MAX_TERMS
    ensures forall e :: e in Sigs(t, flavour) || e in Terms(t, flavour) ==> e.word != []
  {
    forall e | e in Sigs(t, flavour) || e in Terms(t, flavour)
      ensures e.word != []
    {
      InSigEntries(t.categories, flavour, |t.categories|, e);
      InTermEntries(t.rules, flavour, |t.rules|, e);
    }
  }

  /** The two counting loops that size the tables before anything is allocated. */
  method CountStates(t: Tables, flavour: Flag) returns (cap: nat)
    ensures cap == StateBound(t, flavour)
  {
    cap := 1;
    for i := 0 to |t.categories|
      invariant cap == 1 + SigBytes(t.categories, flavour, i)
    {
      if flavour in t.categories[i].flags {
        for j := 0 to |t.categories[i].sigs|
          invariant cap == 1 + SigBytes(t.categories, flavour, i) + Bytes(t.categories[i].sigs, j)
        {
          cap := cap + |t.categories[i].sigs[j]|;
        }
      }
    }
    for i := 0 to |t.rules|
      invariant cap == 1 + SigBytes(t.categories, flavour, |t.categories|) + TermBytes(t.rules, flavour, i)
    {
      if flavour in t.rules[i].flags {
        for j := 0 to |t.rules[i].terms|
          invariant cap == 1 + SigBytes(t.categories, flavour, |t.categories|) + TermBytes(t.rules, flavour, i)
                           + Bytes(t.rules[i].terms, j)
        {
          cap := cap + |t.rules[i].terms[j]|;
        }
      }
    }
  }

  method CountTerms(t: Tables) returns (term: nat)
    ensures term == TermBase(t.rules, |t.rules|)
  {
    term := 0;
    for i := 0 to |t.rules|
      invariant term == TermBase(t.rules, i)
    {
      term := term + |t.rules[i].terms|;
    }
  }

  /** The first table row of a category, if it has one. */
  method FindRow(cats: seq<Category>, c: Bit) returns (j: nat)
    ensures j == RowOf(cats, c)
  {
    j := 0;
    while j < |cats| && cats[j].cat != c
      invariant j <= RowOf(cats, c)
    {
      j := j + 1;
    }
  }

  /** What one more table row, or one more rule, adds to the reverse index. */
  lemma RowReports(t: Tables, flavour: Flag, i: nat, c: Bit)
    requires WellFormed(t) && i < |t.categories|
    ensures RowEntry(t, c, Reported(t, flavour, c, i + 1, 0))
         == if flavour in t.categories[i].flags && c == t.categories[i].cat then i
            else RowEntry(t, c, Reported(t, flavour, c, i, 0))
  {
    RowOfIsUnique(t, i);
  }

  lemma RuleReports(t: Tables, flavour: Flag, i: nat, c: Bit)
    requires i < |t.rules|
    ensures RowEntry(t, c, Reported(t, flavour, c, |t.categories|, i + 1))
         == if flavour in t.rules[i].flags && c == t.rules[i].cat then RowOf(t.categories, c)
            else RowEntry(t, c, Reported(t, flavour, c, |t.categories|, i))
  {
  }

  lemma NoEntryWithoutRow(t: Tables, c: Bit, reported: bool)
    ensures RowOf(t.categories, c) >= |t.categories| ==> RowEntry(t, c, reported) == RowOf(t.categories, c)
  {
  }

  /** The reverse index from a category bit to the table row that reports it. */
  method MapRows(t: Tables, flavour: Flag) returns (row: array<nat>)
    requires WellFormed(t)
    ensures fresh(row) && row.Length == 64
    ensures forall c: Bit :: row[c] == RowEntry(t, c, Reported(t, flavour, c, |t.categories|, |t.rules|))
  {
    row := new nat[64](_ => |t.categories|);
    assert forall c: Bit :: row[c] == RowEntry(t, c, Reported(t, flavour, c, 0, 0));
    hide RowEntry, Reported;
    for i := 0 to |t.categories|
      invariant forall c: Bit :: row[c] == RowEntry(t, c, Reported(t, flavour, c, i, 0))
    {
      if flavour in t.categories[i].flags {
        row[t.categories[i].cat] := i;
      }
      forall c: Bit
        ensures row[c] == RowEntry(t, c, Reported(t, flavour, c, i + 1, 0))
      {
        RowReports(t, flavour, i, c);
      }
    }
    for i := 0 to |t.rules|
      invariant forall c: Bit :: row[c] == RowEntry(t, c, Reported(t, flavour, c, |t.categories|, i))
    {
      var c := t.rules[i].cat;
      NoEntryWithoutRow(t, c, Reported(t, flavour, c, |t.categories|, i));
      if flavour in t.rules[i].flags {
        var j := FindRow(t.categories, c);
        if j < |t.categories| {
          row[c] := j;
        }
      }
      forall c: Bit
        ensures row[c] == RowEntry(t, c, Reported(t, flavour, c, |t.categories|, i + 1))
      {
        RuleReports(t, flavour, i, c);
      }
    }
  }

  /** The position of the lowest set bit. */
  method LowestBit(m: Mask) returns (n: Bit)
    requires m != {}
    ensures n in m && forall k :: k in m ==> n <= k
  {
    n := 0;
    ghost var some: Bit :| some in m;
    while n !in m
      invariant forall k :: k in m ==> n <= k
      decreases some - n
    {
      n := n + 1;
    }
  }

  class Automaton {
    var next: array2<State>
    var out: array<Mask>
    var rout: array<Mask>
    var nstates: nat
    var need: seq<Mask>
    var row: array<nat>
    ghost var words: seq<Word>

    /** Before the build: zeroed, and it matches nothing. */
    constructor ()
      ensures nstates == 0
    {
      next := new State[0, 0];
      out := new Mask[0];
      rout := new Mask[0];
      nstates := 0;
      need := [];
      row := new nat[0];
      words := [];
    }

    ghost predicate Built(t: Tables, flavour: Flag)
      reads this, next, out, rout, row
    {
      && WellFormed(t) && Fits(t, flavour)
      && 0 < nstates == |words| <= StateBound(t, flavour)
      && Linked(next, out, rout, words, Sigs(t, flavour), Terms(t, flavour))
      && |need| == |t.rules|
      && (forall i :: 0 <= i < |t.rules| ==> need[i] == Need(t.rules, flavour, i))
      && row.Length == 64
      && (forall c: Bit :: row[c] == RowEntry(t, c, Reported(t, flavour, c, |t.categories|, |t.rules|)))
    }

    /** Builds the automaton of one flavour. `memory` says whether the pools can
        supply the tables; a refused build leaves the automaton as it was. */
    method Build(t: Tables, flavour: Flag, memory: bool) returns (ok: bool, ghost order: seq<State>)
      requires WellFormed(t)
      modifies this
      ensures ok <==> Fits(t, flavour) && memory
      ensures Fits(t, flavour) <==> TermBase(t.rules, |t.rules|) <= 64 && StateBound(t, flavour) <= 65535
      ensures ok ==> Built(t, flavour) && VisitsAll(order, words)
      ensures ok ==> fresh(next) && fresh(out) && fresh(rout) && fresh(row)
      ensures !ok ==> unchanged(this)
    {
      hide Built, VisitsAll;
      order := [];
      var cap := CountStates(t, flavour);
      var term := CountTerms(t);
      if term > MAX_TERMS || cap > MAX_STATES || !memory {
        return false, order;
      }
      order := Fill(t, flavour, cap);
      ok := true;
    }

    /** Both passes, once the tables are known to fit. */
    method Fill(t: Tables, flavour: Flag, cap: nat) returns (ghost order: seq<State>)
      requires WellFormed(t) && Fits(t, flavour) && cap == StateBound(t, flavour)
      modifies this
      ensures Built(t, flavour) && VisitsAll(order, words)
      ensures fresh(next) && fresh(out) && fresh(rout) && fresh(row)
    {
      hide Recognises, Linked, VisitsAll, Reported, RowEntry, Need, SigEntries, TermEntries;
      row := MapRows(t, flavour);
      ghost var E, F := Sigs(t, flavour), Terms(t, flavour);
      NonEmptyEntries(t, flavour);
      next, out, rout, nstates, need, words := BuildTrie(t, flavour, cap);
      order := ResolveLinks(next, out, rout, words, E, F);
    }

    /** The lowest table row among the live categories of one state. */
    method BestRow(live: Mask, rows: nat) returns (best: nat)
      requires row.Length == 64 && live != {}
      ensures best <= rows && forall c :: c in live ==> best <= row[c]
      ensures best < rows ==> exists c :: c in live && row[c] == best
    {
      best := rows;
      var left := live;
      while left != {}
        invariant left <= live
        invariant best <= rows && forall c :: c in live - left ==> best <= row[c]
        invariant best < rows ==> exists c :: c in live && row[c] == best
        decreases left
      {
        var c := LowestBit(left);
        if row[c] < best {
          best := row[c];
        }
        left := left - {c};
      }
    }

    /** The first rule whose needed terms were all seen, and whose category is enabled. */
    method FireRule(t: Tables, ghost flavour: Flag, ghost data: Word, seen: Mask, skip: Mask) returns (hit: Option<nat>)
      requires Built(t, flavour)
      requires Saw(Terms(t, flavour), data, |data|, seen)
      ensures hit.Some? ==>
                exists i: nat :: FirstRule(t, flavour, skip, data, i) && hit.value == RowOf(t.categories, t.rules[i].cat)
      ensures hit.None? ==> forall i: nat :: !RuleFires(t, flavour, skip, data, i)
    {
      for i := 0 to |t.rules|
        invariant forall i': nat :: i' < i ==> !RuleFires(t, flavour, skip, data, i')
      {
        RuleStep(t, flavour, data, seen, skip, i);
        if need[i] != {} && need[i] <= seen && t.rules[i].cat !in skip && row[t.rules[i].cat] < |t.categories| {
          return Some(row[t.rules[i].cat]);
        }
      }
      hit := None;
    }

    lemma RuleStep(t: Tables, flavour: Flag, data: Word, seen: Mask, skip: Mask, i: nat)
      requires Built(t, flavour) && i < |t.rules|
      requires Saw(Terms(t, flavour), data, |data|, seen)
      ensures (need[i] != {} && need[i] <= seen && t.rules[i].cat !in skip && row[t.rules[i].cat] < |t.categories|)
              <==> RuleFires(t, flavour, skip, data, i)
      ensures RuleFires(t, flavour, skip, data, i) ==> row[t.rules[i].cat] == RowOf(t.categories, t.rules[i].cat)
    {
      NeedMeansAllOccur(t, flavour, data, seen, i);
      var c := t.rules[i].cat;
      assert row[c] == RowEntry(t, c, Reported(t, flavour, c, |t.categories|, |t.rules|));
    }

    /** What the best live row of state `s` says about the text that leads to it. */
    lemma BestRowWins(t: Tables, flavour: Flag, skip: Mask, w: Word, live: Mask, best: nat)
      requires Built(t, flavour)
      requires forall c: Bit :: c in live <==> EndsWith(Sigs(t, flavour), w, c) && c !in skip
      requires best <= |t.categories| && forall c :: c in live ==> best <= row[c]
      requires best < |t.categories| ==> exists c :: c in live && row[c] == best
      ensures best < |t.categories| ==> RowEnds(t, flavour, skip, w, best)
      ensures forall r: nat :: r < best ==> !RowEnds(t, flavour, skip, w, r)
      ensures best == |t.categories| ==> !SomeRowEnds(t, flavour, skip, w)
    {
      forall c | c in live
        ensures row[c] == RowOf(t.categories, c) && RowEnds(t, flavour, skip, w, row[c])
      {
        LiveRows(t, flavour, skip, w, c);
      }
      forall r: nat | RowEnds(t, flavour, skip, w, r)
        ensures best <= r
      {
        EndingRowIsLive(t, flavour, skip, w, r);
      }
    }

    /** State `s` is where the text `w` leads. */
    ghost predicate At(s: State, w: Word)
      reads this
    {
      s < |words| && words[s] == Fall(WordSet(words), w)
    }

    /** The standalone decision after one more byte. */
    method Decide(t: Tables, ghost flavour: Flag, ghost data: Word, ghost i: nat, sigs: Mask, skip: Mask)
      returns (best: nat)
      requires Built(t, flavour) && i < |data|
      requires Ended(sigs, Sigs(t, flavour), data[..i + 1])
      requires Quiet(t, flavour, skip, data, i)
      ensures best <= |t.categories|
      ensures best < |t.categories| ==> WinsAt(t, flavour, skip, data, i + 1, best)
      ensures best == |t.categories| ==> Quiet(t, flavour, skip, data, i + 1)
    {
      best := |t.categories|;
      var live := sigs - skip;
      if live != {} {
        best := BestRow(live, |t.categories|);
      }
      BestRowWins(t, flavour, skip, data[..i + 1], live, best);
    }

    /** One byte of the buffer: the next state, the terms seen, the row to report. */
    method ScanByte(t: Tables, ghost flavour: Flag, data: Word, i: nat, s: State, seen: Mask, skip: Mask)
      returns (s': State, seen': Mask, best: nat)
      requires Built(t, flavour) && i < |data|
      requires At(s, data[..i]) && Quiet(t, flavour, skip, data, i)
      requires Saw(Terms(t, flavour), data, i, seen)
      ensures At(s', data[..i + 1])
      ensures Saw(Terms(t, flavour), data, i + 1, seen')
      ensures best < |t.categories| ==> WinsAt(t, flavour, skip, data, i + 1, best)
      ensures best >= |t.categories| ==> Quiet(t, flavour, skip, data, i + 1)
    {
      assert TermBase(t.rules, |t.rules|) <= MAX_TERMS;
      hide At, Built, Fits, Sigs, Terms, Saw, Ended, WinsAt, Quiet;
      var sigs, terms;
      s', sigs, terms := Advance(t, flavour, data, i, s);
      SeenNext(Terms(t, flavour), data, i, seen, terms);
      seen' := seen + terms;
      best := Decide(t, flavour, data, i, sigs, skip);
    }

    /** What is left to decide when no signature has ended. */
    method Conclude(t: Tables, ghost flavour: Flag, ghost data: Word, seen: Mask, skip: Mask) returns (hit: Option<nat>)
      requires Built(t, flavour) && Saw(Terms(t, flavour), data, |data|, seen)
      requires Quiet(t, flavour, skip, data, |data|)
      ensures Verdict(t, flavour, skip, data, hit)
    {
      assert Fits(t, flavour);
      hide Built, Terms, Saw, Quiet, RuleFires, FirstRule;
      if seen == {} {
        NothingFires(t, flavour, skip, data, seen);
        hit := None;
      } else {
        hit := FireRule(t, flavour, data, seen, skip);
      }
    }

    /** One pass over the buffer; `t` and `flavour` are what the automaton was built from. */
    method Scan(t: Tables, ghost flavour: Flag, data: Word, skip: Mask) returns (hit: Option<nat>)
      requires nstates == 0 || Built(t, flavour)
      ensures nstates == 0 ==> hit == None
      ensures nstates != 0 ==> Verdict(t, flavour, skip, data, hit)
    {
      if nstates == 0 {
        return None;
      }
      var s: State := 0;
      var seen: Mask := {};
      StartScan(t, flavour, skip, data);
      assert TermBase(t.rules, |t.rules|) <= MAX_TERMS;
      hide At, Built, Fits, Terms, Saw, WinsAt, Quiet, Verdict;
      for i := 0 to |data|
        invariant At(s, data[..i])
        invariant Saw(Terms(t, flavour), data, i, seen)
        invariant Quiet(t, flavour, skip, data, i)
      {
        var best;
        s, seen, best := ScanByte(t, flavour, data, i, s, seen, skip);
        if best < |t.categories| {
          WinnerIsVerdict(t, flavour, skip, data, i + 1, best);
          return Some(best);
        }
      }
      hit := Conclude(t, flavour, data, seen, skip);
    }

    lemma StartScan(t: Tables, flavour: Flag, skip: Mask, data: Word)
      requires Built(t, flavour)
      ensures Fits(t, flavour) && At(0, data[..0])
      ensures Saw(Terms(t, flavour), data, 0, {})
      ensures Quiet(t, flavour, skip, data, 0)
    {
      assert data[..0] == [];
      NonEmptyEntries(t, flavour);
    }

    lemma StateReads(t: Tables, flavour: Flag, w: Word, b: Byte, s: State)
      requires Built(t, flavour)
      requires At(s, w)
      ensures s < next.Length0 && next.Length1 == ALPHABET && At(next[s, b], w + [b])
    {
      assert GotoCell(words, s, b, next[s, b]);
      ScanStep(words, w, b, words[s], words[next[s, b]]);
    }

    /** The masks of the state reached by a text name the patterns that end the text. */
    lemma StateReports(t: Tables, flavour: Flag, w: Word, v: State)
      requires Built(t, flavour)
      requires At(v, w)
      ensures v < out.Length && v < rout.Length
      ensures Ended(out[v], Sigs(t, flavour), w) && Ended(rout[v], Terms(t, flavour), w)
    {
      hide Fall, WordSet, EndsWith, SigEntries, TermEntries;
      forall c: Bit
        ensures c in out[v] <==> EndsWith(Sigs(t, flavour), w, c)
        ensures c in rout[v] <==> EndsWith(Terms(t, flavour), w, c)
      {
        SameEndings(words, Sigs(t, flavour), w, words[v], c);
        SameEndings(words, Terms(t, flavour), w, words[v], c);
      }
    }

    /** The state the goto table reaches from the root on `w`. */
    ghost function Run(t: Tables, flavour: Flag, w: Word): (s: State)
      requires Built(t, flavour)
      reads this, next, out, rout, row
      ensures s < |words|
    {
      if w == [] then 0
      else
        var p := Run(t, flavour, Parent(w));
        assert GotoCell(words, p, w[|w| - 1], next[p, w[|w| - 1]]);
        next[p, w[|w| - 1]]
    }

    lemma {:induction false} RunIsFall(t: Tables, flavour: Flag, w: Word)
      requires Built(t, flavour)
      ensures At(Run(t, flavour, w), w)
    {
      hide Built, At;
      if w == [] {
        StartScan(t, flavour, {}, w);
        assert w[..0] == w;
      } else {
        RunIsFall(t, flavour, Parent(w));
        assert w == Parent(w) + [w[|w| - 1]];
        StateReads(t, flavour, Parent(w), w[|w| - 1], Run(t, flavour, Parent(w)));
      }
    }

    /** The goto table leads every byte string to its longest suffix that begins some
        pattern, and the masks there are exactly the patterns that end the string. */
    lemma RunReachesLongestSuffix(t: Tables, flavour: Flag, w: Word)
      requires Built(t, flavour)
      ensures var s := Run(t, flavour, w);
              && Suffix(words[s], w)
              && (BeginsEntry(Sigs(t, flavour), words[s]) || BeginsEntry(Terms(t, flavour), words[s]))
              && (forall x :: Suffix(x, w) && (BeginsEntry(Sigs(t, flavour), x) || BeginsEntry(Terms(t, flavour), x))
                              ==> |x| <= |words[s]|)
              && s < out.Length && Ended(out[s], Sigs(t, flavour), w)
              && s < rout.Length && Ended(rout[s], Terms(t, flavour), w)
    {
      var s := Run(t, flavour, w);
      RunIsFall(t, flavour, w);
      StateReports(t, flavour, w, s);
      hide Ended;
      assert words[s] in words && words[0] in words;
      SpellingIsPrefixClosed(words);
      forall x | Suffix(x, w) && (BeginsEntry(Sigs(t, flavour), x) || BeginsEntry(Terms(t, flavour), x))
        ensures |x| <= |words[s]|
      {
        PatternPrefixIsState(words, Sigs(t, flavour), Terms(t, flavour), x);
        FallIsLongest(WordSet(words), w, x);
      }
    }

    /** Follow one byte: the new state, and what ends there. */
    method Advance(t: Tables, ghost flavour: Flag, data: Word, i: nat, s: State) returns (v: State, sigs: Mask, terms: Mask)
      requires Built(t, flavour) && i < |data|
      requires At(s, data[..i])
      ensures At(v, data[..i + 1])
      ensures Ended(sigs, Sigs(t, flavour), data[..i + 1]) && Ended(terms, Terms(t, flavour), data[..i + 1])
    {
      hide At, Ended, Built, Sigs, Terms;
      assert data[..i + 1] == data[..i] + [data[i]];
      StateReads(t, flavour, data[..i], data[i], s);
      v := next[s, data[i]];
      StateReports(t, flavour, data[..i + 1], v);
      sigs, terms := out[v], rout[v];
    }
  }

  lemma SeenNext(F: set<Entry>, data: Word, i: nat, seen: Mask, ending: Mask)
    requires i < |data|
    requires Saw(F, data, i, seen)
    requires Ended(ending, F, data[..i + 1])
    ensures Saw(F, data, i + 1, seen + ending)
  {
  }

  lemma NothingFires(t: Tables, flavour: Flag, skip: Mask, data: Word, seen: Mask)
    requires Fits(t, flavour) && seen == {}
    requires Saw(Terms(t, flavour), data, |data|, seen)
    ensures forall i: nat :: !RuleFires(t, flavour, skip, data, i)
  {
    forall i: nat | i < |t.rules| && flavour in t.rules[i].flags
      ensures !RuleFires(t, flavour, skip, data, i)
    {
      NeedMeansAllOccur(t, flavour, data, seen, i);
    }
  }

  // ---- the scan -------------------------------------------------------------

  /** Bit `b` is set by an entry ending somewhere in the first `n` bytes. */
  ghost predicate SeenBy(F: set<Entry>, data: Word, n: nat, b: Bit)
    requires n <= |data|
  {
    exists e {:trigger data[..e]} :: 0 <= e <= n && EndsWith(F, data[..e], b)
  }

  /** `seen` holds the bits of everything that has ended in the first `n` bytes. */
  ghost predicate Saw(F: set<Entry>, data: Word, n: nat, seen: Mask)
    requires n <= |data|
  {
    forall b: Bit :: b in seen <==> SeenBy(F, data, n, b)
  }

  /** The bits a state reports are the categories of the rows ending at this byte. */
  lemma LiveRows(t: Tables, flavour: Flag, skip: Mask, w: Word, c: Bit)
    requires WellFormed(t)
    requires EndsWith(Sigs(t, flavour), w, c) && c !in skip
    ensures var r := RowOf(t.categories, c);
            RowEnds(t, flavour, skip, w, r) && Reported(t, flavour, c, |t.categories|, |t.rules|)
  {
    var e :| e in Sigs(t, flavour) && e.bit == c && Suffix(e.word, w);
    InSigEntries(t.categories, flavour, |t.categories|, e);
    var i :| 0 <= i < |t.categories| && flavour in t.categories[i].flags && t.categories[i].cat == c
             && e.word in t.categories[i].sigs;
    RowOfIsUnique(t, i);
  }

  lemma EndingRowIsLive(t: Tables, flavour: Flag, skip: Mask, w: Word, r: nat)
    requires WellFormed(t) && RowEnds(t, flavour, skip, w, r)
    ensures EndsWith(Sigs(t, flavour), w, t.categories[r].cat) && t.categories[r].cat !in skip
    ensures RowOf(t.categories, t.categories[r].cat) == r
  {
    var sig :| sig in t.categories[r].sigs && Suffix(sig, w);
    InSigEntries(t.categories, flavour, |t.categories|, Entry(sig, t.categories[r].cat));
    assert Entry(sig, t.categories[r].cat).word == sig;
    RowOfIsUnique(t, r);
  }

  /** One goto step keeps the state at the longest suffix of what was read. */
  lemma ScanStep(words: seq<Word>, w: Word, b: Byte, x: Word, y: Word)
    requires Spelling(words)
    requires x == Fall(WordSet(words), w) && y == Fall(WordSet(words), x + [b])
    ensures y == Fall(WordSet(words), w + [b])
  {
    SpellingIsPrefixClosed(words);
    FallStep(WordSet(words), w, b);
  }

  lemma PatternPrefixIsState(words: seq<Word>, E: set<Entry>, F: set<Entry>, x: Word)
    requires Spelling(words) && Covers(words, E, F)
    requires BeginsEntry(E, x) || BeginsEntry(F, x)
    ensures x in WordSet(words)
  {
    SpellingIsPrefixClosed(words);
    if x == [] {
      assert words[0] in words;
    } else {
      var e :| (e in E || e in F) && x <= e.word;
      PrefixInClosed(WordSet(words), e.word, x);
    }
  }

  lemma SameEndings(words: seq<Word>, E: set<Entry>, w: Word, x: Word, c: Bit)
    requires forall e :: e in E ==> e.word in words
    requires x == Fall(WordSet(words), w)
    ensures EndsWith(E, x, c) <==> EndsWith(E, w, c)
  {
    forall e | e in E
      ensures Suffix(e.word, x) <==> Suffix(e.word, w)
    {
      SuffixOfFall(WordSet(words), w, e.word);
    }
  }

  /** A term's bit is set exactly where that term ends: no other term shares it. */
  lemma TermBitEnds(t: Tables, flavour: Flag, w: Word, i: nat, j: nat)
    requires Fits(t, flavour) && i < |t.rules| && j < |t.rules[i].terms| && flavour in t.rules[i].flags
    requires TermBase(t.rules, i) + j < MAX_TERMS
    ensures EndsWith(Terms(t, flavour), w, TermBase(t.rules, i) + j) <==> Suffix(t.rules[i].terms[j], w)
  {
    hide TermEntries, Suffix, TermBase;
    var b: Bit := TermBase(t.rules, i) + j;
    var own := Entry(t.rules[i].terms[j], b);
    InTermEntries(t.rules, flavour, |t.rules|, own);
    assert own in Terms(t, flavour) && own.bit == b;
    forall e | e in Terms(t, flavour) && e.bit == b
      ensures e == own
    {
      TermBitIsOwn(t, flavour, e, i, j);
    }
  }

  /** A term bit belongs to one term. */
  lemma TermBitIsOwn(t: Tables, flavour: Flag, e: Entry, i: nat, j: nat)
    requires Fits(t, flavour) && i < |t.rules| && j < |t.rules[i].terms|
    requires e in Terms(t, flavour) && e.bit == TermBase(t.rules, i) + j
    ensures e.word == t.rules[i].terms[j]
  {
    hide TermEntries, TermBase;
    InTermEntries(t.rules, flavour, |t.rules|, e);
    var i' :| 0 <= i' < |t.rules| && TermBase(t.rules, i') <= e.bit < TermBase(t.rules, i') + |t.rules[i'].terms|
              && t.rules[i'].terms[e.bit - TermBase(t.rules, i')] == e.word;
    TermIdsDistinct(t.rules, i, j, i', e.bit - TermBase(t.rules, i'));
  }

  /** A term's bit has been seen exactly when the term occurs in the buffer. */
  lemma SeenIffOccurs(t: Tables, flavour: Flag, data: Word, i: nat, j: nat)
    requires Fits(t, flavour) && i < |t.rules| && j < |t.rules[i].terms| && flavour in t.rules[i].flags
    requires TermBase(t.rules, i) + j < MAX_TERMS
    ensures SeenBy(Terms(t, flavour), data, |data|, TermBase(t.rules, i) + j) <==> Occurs(t.rules[i].terms[j], data)
  {
    hide Suffix, EndsWith, Terms;
    forall e | 0 <= e <= |data|
      ensures EndsWith(Terms(t, flavour), data[..e], TermBase(t.rules, i) + j) <==> Suffix(t.rules[i].terms[j], data[..e])
    {
      TermBitEnds(t, flavour, data[..e], i, j);
    }
  }

  lemma {:induction false} InTermBits(base: nat, n: nat, b: Bit)
    requires base + n <= MAX_TERMS
    ensures b in TermBits(base, n) <==> base <= b < base + n
  {
    if n > 0 {
      InTermBits(base, n - 1, b);
    }
  }

  /** A non-empty need mask inside `seen` is a rule all of whose terms occur. */
  lemma NeedMeansAllOccur(t: Tables, flavour: Flag, data: Word, seen: Mask, i: nat)
    requires Fits(t, flavour) && i < |t.rules|
    requires Saw(Terms(t, flavour), data, |data|, seen)
    ensures Need(t.rules, flavour, i) != {} <==> flavour in t.rules[i].flags && t.rules[i].terms != []
    ensures flavour in t.rules[i].flags ==>
              (Need(t.rules, flavour, i) <= seen
               <==> forall j :: 0 <= j < |t.rules[i].terms| ==> Occurs(t.rules[i].terms[j], data))
  {
    TermBaseMonotonic(t.rules, i + 1, |t.rules|);
    var base, n := TermBase(t.rules, i), |t.rules[i].terms|;
    forall b: Bit
      ensures b in TermBits(base, n) <==> base <= b < base + n
    {
      InTermBits(base, n, b);
    }
    if n > 0 {
      InTermBits(base, n, base);
    }
    if flavour in t.rules[i].flags {
      forall j | 0 <= j < n
        ensures base + j in seen <==> Occurs(t.rules[i].terms[j], data)
      {
        SeenIffOccurs(t, flavour, data, i, j);
      }
      if Need(t.rules, flavour, i) <= seen {
        forall j | 0 <= j < n
          ensures Occurs(t.rules[i].terms[j], data)
        {
          InTermBits(base, n, base + j);
        }
      } else {
        var b :| b in Need(t.rules, flavour, i) && b !in seen;
        InTermBits(base, n, b);
        assert !Occurs(t.rules[i].terms[b - base], data);
      }
    }
  }

  /** Allocation and pass 1. */
  method BuildTrie(t: Tables, flavour: Flag, cap: nat)
    returns (next: array2<State>, out: array<Mask>, rout: array<Mask>, n: nat, need: seq<Mask>, ghost words: seq<Word>)
    requires Fits(t, flavour) && cap == StateBound(t, flavour)
    ensures fresh(next) && fresh(out) && fresh(rout)
    ensures Recognises(next, out, rout, words, Sigs(t, flavour), Terms(t, flavour))
    ensures 0 < n == |words| <= cap
    ensures |need| == |t.rules| && forall i :: 0 <= i < |t.rules| ==> need[i] == Need(t.rules, flavour, i)
  {
    next := new State[cap, ALPHABET]((_, _) => 0);
    out := new Mask[cap](_ => {});
    rout := new Mask[cap](_ => {});
    words := [[]];
    hide SigBytes, TermBytes, SigEntries, TermEntries;
    n, words := AddCategories(next, out, rout, words, t.categories, flavour);
    n, need, words := AddRules(next, out, rout, words, n, t.rules, flavour, Sigs(t, flavour));
  }
}
