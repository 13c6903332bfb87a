/** Pass 1 of the automaton build: the goto-trie over signatures and rule terms. */
module Trie {
  import opened Words
  import opened Tables

  /** A state index; the source stores it in 16 bits. */
  type State = s: nat | s < 65536

  const ALPHABET := 256
  const MAX_STATES := 65535

  function WordSet(words: seq<Word>): set<Word> {
    set w | w in words
  }

  ghost predicate Distinct(words: seq<Word>) {
    forall i, j :: 0 <= i < j < |words| ==> words[i] != words[j]
  }

  /** `words[s]` spells the path from the root to state `s`. */
  ghost predicate Spelling(words: seq<Word>) {
    && 0 < |words| <= MAX_STATES
    && words[0] == []
    && Distinct(words)
    && (forall i :: 0 < i < |words| ==> words[i] != [])
    && (forall i {:trigger Parent(words[i])} :: 0 < i < |words| ==> Parent(words[i]) in words)
  }

  lemma SpellingIsPrefixClosed(words: seq<Word>)
    requires Spelling(words)
    ensures PrefixClosed(WordSet(words))
  {
  }

  /** The entry of state `s` on byte `b` while 0 still means "absent". */
  ghost predicate TrieCell(words: seq<Word>, s: nat, b: Byte, v: State)
    requires s < |words|
  {
    && v < |words|
    && (if words[s] + [b] in words then words[v] == words[s] + [b] else v == 0)
  }

  ghost predicate IsTrie(next: array2<State>, words: seq<Word>)
    reads next
  {
    && Spelling(words)
    && |words| <= next.Length0 <= MAX_STATES && next.Length1 == ALPHABET
    && (forall s, b {:trigger next[s, b]} :: 0 <= s < |words| && 0 <= b < ALPHABET ==> TrieCell(words, s, b, next[s, b]))
    && (forall s, b {:trigger next[s, b]} :: |words| <= s < next.Length0 && 0 <= b < ALPHABET ==> next[s, b] == 0)
  }

  /** Adding the child of `s` on `b` keeps a spelling. */
  lemma SpellingExtended(words: seq<Word>, s: nat, b: Byte)
    requires Spelling(words) && s < |words| < MAX_STATES && words[s] + [b] !in words
    ensures Spelling(words + [words[s] + [b]])
  {
  }

  /** Every cell but the new one keeps its meaning when the child of `s` on `b` is
      added, and the new state starts without children. */
  lemma CellExtended(words: seq<Word>, s: nat, b: Byte, s': nat, b': Byte, v: State)
    requires Spelling(words) && s < |words| < MAX_STATES && words[s] + [b] !in words
    requires s' <= |words| && (s' != s || b' != b)
    requires if s' < |words| then TrieCell(words, s', b', v) else v == 0
    ensures TrieCell(words + [words[s] + [b]], s', b', v)
  {
    var x := words[s] + [b];
    var words' := words + [x];
    AppendInjective(words'[s'], b', words[s], b);
    assert words'[s'] + [b'] in words' <==> words'[s'] + [b'] in words || words'[s'] + [b'] == x;
    assert Parent(x + [b']) == x;
  }

  /** One missing edge: state `n` becomes the child of `s` on byte `b`. */
  method AddChild(next: array2<State>, ghost words: seq<Word>, n: nat, s: State, b: Byte)
    returns (ghost words': seq<Word>)
    requires IsTrie(next, words) && n == |words| < next.Length0
    requires s < n && next[s, b] == 0
    modifies next
    ensures words' == words + [words[s] + [b]]
    ensures IsTrie(next, words') && next[s, b] == n
  {
    assert TrieCell(words, s, b, next[s, b]);
    words' := words + [words[s] + [b]];
    forall s', b' | 0 <= s' < |words'| && 0 <= b' < ALPHABET && (s' != s || b' != b)
      ensures TrieCell(words', s', b', next[s', b'])
    {
      CellExtended(words, s, b, s', b', next[s', b']);
    }
    SpellingExtended(words, s, b);
    next[s, b] := n;
  }

  /** Follow the edge of `s` on `b`, adding the child if it is absent. */
  method Step(next: array2<State>, ghost words: seq<Word>, n: nat, s: State, b: Byte)
    returns (v: State, n': nat, ghost words': seq<Word>)
    requires IsTrie(next, words) && n == |words| < next.Length0
    requires s < n
    modifies next
    ensures IsTrie(next, words') && n' == |words'| <= n + 1
    ensures words <= words'
    ensures v < n' && words'[v] == words[s] + [b]
    ensures WordSet(words') == WordSet(words) + {words[s] + [b]}
  {
    n', words' := n, words;
    if next[s, b] == 0 {
      words' := AddChild(next, words, n, s, b);
      n' := n + 1;
    }
    v := next[s, b];
    assert TrieCell(words', s, b, v);
  }

  /** The descent of one pattern: follow the trie, adding the states it lacks. */
  method InsertWord(next: array2<State>, ghost words: seq<Word>, n: nat, x: Word)
    returns (s: State, n': nat, ghost words': seq<Word>)
    requires IsTrie(next, words) && n == |words|
    requires n + |x| <= next.Length0
    modifies next
    ensures IsTrie(next, words') && n' == |words'| <= n + |x|
    ensures words <= words'
    ensures s < |words'| && words'[s] == x
    ensures WordSet(words') == WordSet(words) + Prefixes(x)
  {
    s, n', words' := 0, n, words;
    var k := 0;
    ghost var base := WordSet(words);
    assert [] in base by { assert words[0] in words; }
    while k < |x|
      invariant k <= |x|
      invariant IsTrie(next, words') && n' == |words'| <= n + k
      invariant words <= words'
      invariant s < |words'| && words'[s] == x[..k]
      invariant WordSet(words') == base + Prefixes(x[..k])
    {
      assert x[..k + 1] == x[..k] + [x[k]] && x[..k + 1][..k] == x[..k];
      UnionStep(base, x, k);
      s, n', words' := Step(next, words', n', s, x[k]);
      k := k + 1;
    }
    assert x[..|x|] == x;
  }

  lemma UnionStep(base: set<Word>, x: Word, k: nat)
    requires k < |x|
    ensures base + Prefixes(x[..k]) + {x[..k + 1]} == base + Prefixes(x[..k + 1])
  {
    assert x[..k + 1][..k] == x[..k];
  }

  /** `marks[s]` holds the bits of the entries spelled exactly by state `s`. */
  ghost predicate Marked(marks: array<Mask>, words: seq<Word>, E: set<Entry>)
    reads marks
  {
    && |words| <= marks.Length
    && (forall s, c: Bit {:trigger c in marks[s]} :: 0 <= s < |words| ==> (c in marks[s] <==> Entry(words[s], c) in E))
    && (forall s :: |words| <= s < marks.Length ==> marks[s] == {})
  }

  /** The states are the prefixes of the entries' words, and nothing else. */
  ghost predicate Covers(words: seq<Word>, E: set<Entry>, F: set<Entry>) {
    && (forall e :: e in E || e in F ==> e.word in words)
    && (forall w {:trigger BeginsEntry(E, w)} :: w in words ==> BeginsEntry(E, w) || BeginsEntry(F, w))
  }

  ghost predicate BeginsEntry(E: set<Entry>, w: Word) {
    w == [] || exists e :: e in E && w <= e.word
  }

  ghost predicate Recognises(next: array2<State>, out: array<Mask>, rout: array<Mask>, words: seq<Word>,
                             E: set<Entry>, F: set<Entry>)
    reads next, out, rout
  {
    && out != rout
    && out.Length == rout.Length == next.Length0
    && IsTrie(next, words)
    && Marked(out, words, E) && Marked(rout, words, F)
    && Covers(words, E, F)
  }

  lemma MarksOfNewStates(marks: array<Mask>, words: seq<Word>, words': seq<Word>, E: set<Entry>)
    requires Marked(marks, words, E) && words <= words' && Distinct(words') && |words'| <= marks.Length
    requires forall e :: e in E ==> e.word in words
    ensures Marked(marks, words', E)
  {
  }

  lemma CoversInserted(words: seq<Word>, words': seq<Word>, E: set<Entry>, F: set<Entry>, e: Entry)
    requires Covers(words, E, F) && words <= words'
    requires WordSet(words') == WordSet(words) + Prefixes(e.word)
    ensures Covers(words', E + {e}, F) && Covers(words', E, F + {e})
  {
    InPrefixes(e.word, e.word);
    assert e.word in WordSet(words');
    forall w | w in words'
      ensures BeginsEntry(E + {e}, w) || BeginsEntry(F, w)
      ensures BeginsEntry(E, w) || BeginsEntry(F + {e}, w)
    {
      InPrefixes(e.word, w);
      assert w in WordSet(words');
      if w in words {
        assert BeginsEntry(E, w) || BeginsEntry(F, w);
      } else {
        assert e in E + {e} && e in F + {e} && w <= e.word;
      }
    }
  }

  /** One signature: its final state accepts for its category as well. */
  method AddSig(next: array2<State>, out: array<Mask>, rout: array<Mask>, ghost words: seq<Word>, n: nat,
                x: Word, c: Bit, ghost E: set<Entry>, ghost F: set<Entry>)
    returns (n': nat, ghost words': seq<Word>)
    requires Recognises(next, out, rout, words, E, F) && n == |words|
    requires n + |x| <= next.Length0
    modifies next, out
    ensures Recognises(next, out, rout, words', E + {Entry(x, c)}, F)
    ensures n' == |words'| <= n + |x|
  {
    var s;
    s, n', words' := InsertWord(next, words, n, x);
    MarksOfNewStates(out, words, words', E);
    MarksOfNewStates(rout, words, words', F);
    CoversInserted(words, words', E, F, Entry(x, c));
    out[s] := out[s] + {c};
  }

  /** One rule term: it marks `rout` and never `out`. */
  method AddTerm(next: array2<State>, out: array<Mask>, rout: array<Mask>, ghost words: seq<Word>, n: nat,
                 x: Word, term: Bit, ghost E: set<Entry>, ghost F: set<Entry>)
    returns (n': nat, ghost words': seq<Word>)
    requires Recognises(next, out, rout, words, E, F) && n == |words|
    requires n + |x| <= next.Length0
    modifies next, rout
    ensures Recognises(next, out, rout, words', E, F + {Entry(x, term)})
    ensures n' == |words'| <= n + |x|
  {
    var s;
    s, n', words' := InsertWord(next, words, n, x);
    MarksOfNewStates(out, words, words', E);
    MarksOfNewStates(rout, words, words', F);
    CoversInserted(words, words', E, F, Entry(x, term));
    rout[s] := rout[s] + {term};
  }

  /** Pass 1: every signature of every category of this flavour. */
  method AddCategories(next: array2<State>, out: array<Mask>, rout: array<Mask>, ghost words: seq<Word>,
                       cats: seq<Category>, flavour: Flag)
    returns (n: nat, ghost words': seq<Word>)
    requires Recognises(next, out, rout, words, {}, {}) && words == [[]]
    requires 1 + SigBytes(cats, flavour, |cats|) <= next.Length0
    modifies next, out
    ensures Recognises(next, out, rout, words', SigEntries(cats, flavour, |cats|), {})
    ensures n == |words'| <= 1 + SigBytes(cats, flavour, |cats|)
  {
    hide Recognises;
    n, words' := 1, words;
    var i := 0;
    ghost var E := {};
    while i < |cats|
      invariant i <= |cats|
      invariant E == SigEntries(cats, flavour, i)
      invariant Recognises(next, out, rout, words', E, {})
      invariant n == |words'| <= 1 + SigBytes(cats, flavour, i)
    {
      if flavour in cats[i].flags {
        SigBytesMonotonic(cats, flavour, i + 1, |cats|);
        n, words' := AddCategory(next, out, rout, words', n, cats[i], E);
        E := E + RowEntries(cats[i], |cats[i].sigs|);
      }
      i := i + 1;
    }
  }

  method AddCategory(next: array2<State>, out: array<Mask>, rout: array<Mask>, ghost words: seq<Word>, n: nat,
                     c: Category, ghost E: set<Entry>)
    returns (n': nat, ghost words': seq<Word>)
    requires Recognises(next, out, rout, words, E, {}) && n == |words|
    requires n + Bytes(c.sigs, |c.sigs|) <= next.Length0
    modifies next, out
    ensures Recognises(next, out, rout, words', E + RowEntries(c, |c.sigs|), {})
    ensures n' == |words'| <= n + Bytes(c.sigs, |c.sigs|)
  {
    hide Recognises;
    n', words' := n, words;
    var j := 0;
    ghost var D := E;
    while j < |c.sigs|
      invariant j <= |c.sigs|
      invariant D == E + RowEntries(c, j)
      invariant Recognises(next, out, rout, words', D, {})
      invariant n' == |words'| <= n + Bytes(c.sigs, j)
    {
      BytesMonotonic(c.sigs, j + 1, |c.sigs|);
      n', words' := AddSig(next, out, rout, words', n', c.sigs[j], c.cat, D, {});
      D := D + {Entry(c.sigs[j], c.cat)};
      j := j + 1;
    }
  }

  /** Pass 1b: the terms of the rules of this flavour, and the mask each rule needs. */
  method AddRules(next: array2<State>, out: array<Mask>, rout: array<Mask>, ghost words: seq<Word>, n: nat,
                  rules: seq<Rule>, flavour: Flag, ghost E: set<Entry>)
    returns (n': nat, need: seq<Mask>, ghost words': seq<Word>)
    requires Recognises(next, out, rout, words, E, {}) && n == |words|
    requires n + TermBytes(rules, flavour, |rules|) <= next.Length0
    requires TermBase(rules, |rules|) <= 64
    modifies next, rout
    ensures Recognises(next, out, rout, words', E, TermEntries(rules, flavour, |rules|))
    ensures n' == |words'| <= n + TermBytes(rules, flavour, |rules|)
    ensures |need| == |rules|
    ensures forall i :: 0 <= i < |rules| ==> need[i] == Need(rules, flavour, i)
  {
    hide Recognises;
    n', words', need := n, words, [];
    var term, i := 0, 0;
    ghost var F := {};
    while i < |rules|
      invariant i <= |rules|
      invariant term == TermBase(rules, i) <= 64
      invariant |need| == i
      invariant F == TermEntries(rules, flavour, i)
      invariant Recognises(next, out, rout, words', E, F)
      invariant n' == |words'| <= n + TermBytes(rules, flavour, i)
      invariant forall i' :: 0 <= i' < i ==> need[i'] == Need(rules, flavour, i')
    {
      TermBytesMonotonic(rules, flavour, i + 1, |rules|);
      TermBaseMonotonic(rules, i + 1, |rules|);
      if flavour in rules[i].flags {
        var bits;
        n', words', bits := AddRule(next, out, rout, words', n', rules[i], term, E, F);
        need := need + [bits];
        F := F + RuleEntries(rules[i], term, |rules[i].terms|);
      } else {
        need := need + [{}];
      }
      term := term + |rules[i].terms|;
      i := i + 1;
    }
  }

  /** The bits of `n` consecutive terms. */
  function TermBits(base: nat, n: nat): Mask
    requires base + n <= 64
  {
    if n == 0 then {} else TermBits(base, n - 1) + {base + n - 1}
  }

  /** The bits of all terms of rule `i`, or none when the rule is of another flavour. */
  function Need(rules: seq<Rule>, flavour: Flag, i: nat): Mask
    requires i < |rules| && TermBase(rules, |rules|) <= 64
  {
    TermBaseMonotonic(rules, i + 1, |rules|);
    if flavour in rules[i].flags then TermBits(TermBase(rules, i), |rules[i].terms|) else {}
  }

  method AddRule(next: array2<State>, out: array<Mask>, rout: array<Mask>, ghost words: seq<Word>, n: nat,
                 r: Rule, base: nat, ghost E: set<Entry>, ghost F: set<Entry>)
    returns (n': nat, ghost words': seq<Word>, need: Mask)
    requires Recognises(next, out, rout, words, E, F) && n == |words|
    requires n + Bytes(r.terms, |r.terms|) <= next.Length0
    requires base + |r.terms| <= 64
    modifies next, rout
    ensures Recognises(next, out, rout, words', E, F + RuleEntries(r, base, |r.terms|))
    ensures n' == |words'| <= n + Bytes(r.terms, |r.terms|)
    ensures need == TermBits(base, |r.terms|)
  {
    hide Recognises;
    n', words', need := n, words, {};
    var j := 0;
    ghost var D := F;
    while j < |r.terms|
      invariant j <= |r.terms|
      invariant D == F + RuleEntries(r, base, j)
      invariant Recognises(next, out, rout, words', E, D)
      invariant n' == |words'| <= n + Bytes(r.terms, j)
      invariant need == TermBits(base, j)
    {
      BytesMonotonic(r.terms, j + 1, |r.terms|);
      need := need + {base + j};
      n', words' := AddTerm(next, out, rout, words', n', r.terms[j], base + j, E, D);
      D := D + {Entry(r.terms[j], base + j)};
      j := j + 1;
    }
  }
}
