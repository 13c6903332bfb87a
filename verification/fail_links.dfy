/** Pass 2 of the automaton build: a breadth-first walk that resolves fail links,
    flattens them into the goto table, and unions the accepting masks along them.

    Ghost sets of words describe the walk: `done` holds the states whose row is final,
    `found` those that have been queued. */
module FailLinks {
  import opened Words
  import opened Tables
  import opened Trie

  /** The final entry of state `s` on `b`: the longest suffix that is still a state. */
  ghost predicate GotoCell(words: seq<Word>, s: nat, b: Byte, v: State)
    requires s < |words|
  {
    v < |words| && words[v] == Fall(WordSet(words), words[s] + [b])
  }

  /** An entry that sets bit `c` ends the text `w`. */
  ghost predicate EndsWith(E: set<Entry>, w: Word, c: Bit) {
    exists e :: e in E && e.bit == c && Suffix(e.word, w)
  }

  ghost predicate Ended(m: Mask, E: set<Entry>, w: Word) {
    forall c: Bit {:trigger c in m} {:trigger EndsWith(E, w, c)} :: c in m <==> EndsWith(E, w, c)
  }

  ghost predicate Exact(m: Mask, E: set<Entry>, w: Word) {
    forall c: Bit {:trigger c in m} :: c in m <==> Entry(w, c) in E
  }

  /** The rows of `done` are final, and so are the first `n` entries of row `cur`. */
  ghost predicate Rows(next: array2<State>, words: seq<Word>, done: set<Word>, cur: nat, n: nat)
    reads next
  {
    && |words| <= next.Length0 && next.Length1 == ALPHABET
    && forall s, b {:trigger next[s, b]} :: 0 <= s < |words| && 0 <= b < ALPHABET ==>
         if words[s] in done || (s == cur && b < n) then GotoCell(words, s, b, next[s, b])
         else TrieCell(words, s, b, next[s, b])
  }

  /** The queued states: children of `done`, and the first children of `cur`. */
  ghost predicate Discovered(words: seq<Word>, done: set<Word>, found: set<Word>, cur: nat, n: nat)
    requires cur < |words|
  {
    && (forall w :: w in found ==> w in words && w != [])
    && (forall w {:trigger Parent(w)} :: w in words && w != [] ==>
          (w in found <==> Parent(w) in done || (Parent(w) == words[cur] && w[|w| - 1] < n)))
  }

  /** State `f` is the fail state of state `v`. */
  ghost predicate FailLink(words: seq<Word>, v: nat, f: State)
    requires v < |words|
  {
    f < |words| && words[v] != [] && words[f] == Fall(WordSet(words), words[v][1..])
  }

  ghost predicate Links(fail: array<State>, words: seq<Word>, found: set<Word>)
    reads fail
  {
    && |words| <= fail.Length
    && forall v {:trigger fail[v]} :: 0 <= v < |words| && words[v] in found ==> FailLink(words, v, fail[v])
  }

  ghost predicate Masks(marks: array<Mask>, words: seq<Word>, found: set<Word>, E: set<Entry>)
    reads marks
  {
    && |words| <= marks.Length
    && forall v {:trigger marks[v]} :: 0 <= v < |words| ==>
         if words[v] in found || words[v] == [] then Ended(marks[v], E, words[v]) else Exact(marks[v], E, words[v])
  }

  /** `q`, the part of the queue still to be visited, holds the found states outside
      `closed`, in order of depth, all of depth `d` or `d + 1`. */
  ghost predicate Pending(q: seq<State>, words: seq<Word>, closed: set<Word>, found: set<Word>, d: nat) {
    && (forall i :: 0 <= i < |q| ==>
          q[i] < |words| && words[q[i]] in found && words[q[i]] !in closed && d <= |words[q[i]]| <= d + 1)
    && (forall i, j :: 0 <= i < j < |q| ==> |words[q[i]]| <= |words[q[j]]|)
    && (forall i, j :: 0 <= i < j < |q| ==> q[i] != q[j])
    && (forall v {:trigger words[v]} :: 0 <= v < |words| && words[v] in found && words[v] !in closed ==> v in q)
  }

  /** What holds between two bytes of the walk. */
  ghost predicate Walk(next: array2<State>, out: array<Mask>, rout: array<Mask>, fail: array<State>, queue: array<State>,
                       words: seq<Word>, E: set<Entry>, F: set<Entry>, done: set<Word>, found: set<Word>,
                       cur: nat, n: nat, head: nat, tail: nat)
    reads next, out, rout, fail, queue
  {
    && Spelling(words) && cur < |words| && |words| <= queue.Length
    && out != rout && fail != queue
    && Patterns(words, E) && Patterns(words, F)
    && (forall w :: w in done ==> w == [] || w in found)
    && Rows(next, words, done, cur, n)
    && Discovered(words, done, found, cur, n)
    && Links(fail, words, found)
    && Masks(out, words, found, E)
    && Masks(rout, words, found, F)
    && head <= tail == |found| <= queue.Length
    && Pending(queue[head..tail], words, done + {words[cur]}, found, |words[cur]|)
  }

  ghost predicate Patterns(words: seq<Word>, E: set<Entry>) {
    forall e :: e in E ==> e.word in words && e.word != []
  }

  /** Every state shallower than `d` is done, and every state down to depth `d` found. */
  ghost predicate Shallow(words: seq<Word>, done: set<Word>, found: set<Word>, d: nat) {
    && (forall w :: w in words && |w| < d ==> w in done)
    && (forall w :: w in words && w != [] && |w| <= d ==> w in found)
  }

  // ---- facts about words --------------------------------------------------

  /** The state reached from the fail state of `x` on `b` is the fail state of
      `x + [b]`, and the transition of `x` when `x + [b]` is not a state. */
  lemma LinkTarget(words: seq<Word>, x: Word, b: Byte, y: Word, z: Word)
    requires Spelling(words) && x != []
    requires y == Fall(WordSet(words), x[1..]) && z == Fall(WordSet(words), y + [b])
    ensures z == Fall(WordSet(words), (x + [b])[1..])
    ensures x + [b] !in words ==> z == Fall(WordSet(words), x + [b])
    ensures |y| < |x| && |z| <= |x|
  {
    SpellingIsPrefixClosed(words);
    FallOfExtension(WordSet(words), x, b);
  }

  /** What ends `x` is `x` itself and what ends its fail state. */
  lemma UnionAlongFail(words: seq<Word>, E: set<Entry>, x: Word, m: Mask, f: Mask)
    requires x != [] && Patterns(words, E)
    requires Exact(m, E, x) && Ended(f, E, Fall(WordSet(words), x[1..]))
    ensures Ended(m + f, E, x)
  {
    var y := Fall(WordSet(words), x[1..]);
    forall c: Bit
      ensures c in m + f <==> EndsWith(E, x, c)
    {
      if EndsWith(E, x, c) {
        var e :| e in E && e.bit == c && Suffix(e.word, x);
        SuffixSplit(WordSet(words), x, e.word);
        assert Suffix(e.word, y) ==> EndsWith(E, y, c);
        assert e == Entry(e.word, c);
      }
      if Entry(x, c) in E {
        SuffixSplit(WordSet(words), x, x);
        assert Suffix(Entry(x, c).word, x);
      }
      if EndsWith(E, y, c) {
        var e :| e in E && e.bit == c && Suffix(e.word, y);
        SuffixSplit(WordSet(words), x, e.word);
      }
    }
  }

  lemma {:induction false} WordSetSize(words: seq<Word>)
    ensures |WordSet(words)| <= |words|
  {
    if words != [] {
      var front := words[..|words| - 1];
      WordSetSize(front);
      assert words == front + [words[|words| - 1]];
      assert WordSet(words) == WordSet(front) + {words[|words| - 1]};
    } else {
      assert WordSet(words) == {};
    }
  }

  /** Fewer states are found than exist, so the queue has room for each of them. */
  lemma FoundBound(words: seq<Word>, found: set<Word>)
    requires Spelling(words)
    requires forall w :: w in found ==> w in words && w != []
    ensures |found| < |words|
  {
    WordSetSize(words);
    assert words[0] in WordSet(words);
    assert found + {[]} <= WordSet(words);
    SubsetSize(found + {[]}, WordSet(words));
  }

  lemma {:induction false} SubsetSize(A: set<Word>, B: set<Word>)
    requires A <= B
    ensures |A| <= |B|
  {
    if A != {} {
      var x :| x in A;
      SubsetSize(A - {x}, B - {x});
    }
  }

  lemma DiscoveredNext(words: seq<Word>, done: set<Word>, found: set<Word>, cur: nat, b: Byte)
    requires cur < |words| && words[cur] !in done
    requires Discovered(words, done, found, cur, b)
    ensures words[cur] + [b] !in found
    ensures words[cur] + [b] in words ==> Discovered(words, done, found + {words[cur] + [b]}, cur, b + 1)
    ensures words[cur] + [b] !in words ==> Discovered(words, done, found, cur, b + 1)
  {
    var x := words[cur] + [b];
    assert Parent(x) == words[cur] && x[|x| - 1] == b;
    forall w | w in words && w != [] && Parent(w) == words[cur] && w[|w| - 1] == b
      ensures w == x
    {
      assert w == Parent(w) + [w[|w| - 1]];
    }
  }

  lemma PendingAppended(q: seq<State>, words: seq<Word>, closed: set<Word>, found: set<Word>, d: nat, v: State)
    requires Pending(q, words, closed, found, d) && Distinct(words)
    requires v < |words| && words[v] !in found && words[v] !in closed && |words[v]| == d + 1
    ensures Pending(q + [v], words, closed, found + {words[v]}, d)
  {
  }

  // ---- one array at a time ------------------------------------------------

  /** A row entry that is already a child needs no rewriting. */
  lemma RowKept(next: array2<State>, words: seq<Word>, done: set<Word>, s: nat, b: Byte)
    requires Spelling(words) && s < |words| && words[s] !in done
    requires Rows(next, words, done, s, b) && words[s] + [b] in words
    ensures Rows(next, words, done, s, b + 1)
  {
  }

  method FlattenCell(next: array2<State>, ghost words: seq<Word>, ghost done: set<Word>, s: State, b: Byte, f: State)
    requires s < |words| && f < |words| && words[s] !in done && Distinct(words)
    requires Rows(next, words, done, s, b)
    requires words[f] == Fall(WordSet(words), words[s] + [b])
    modifies next
    ensures Rows(next, words, done, s, b + 1)
  {
    next[s, b] := f;
  }

  method LinkFail(fail: array<State>, ghost words: seq<Word>, ghost found: set<Word>, v: State, f: State)
    requires Links(fail, words, found)
    requires v < |words| && f < |words| && words[v] != [] && Distinct(words)
    requires words[f] == Fall(WordSet(words), words[v][1..])
    modifies fail
    ensures Links(fail, words, found + {words[v]})
  {
    assert FailLink(words, v, f);
    assert forall u :: 0 <= u < |words| && words[u] == words[v] ==> u == v;
    hide Distinct, FailLink, WordSet;
    fail[v] := f;
    forall u {:trigger fail[u]} | 0 <= u < |words| && words[u] in found + {words[v]}
      ensures FailLink(words, u, fail[u])
    {
      assert u != v ==> words[u] in found && fail[u] == old(fail[u]);
    }
  }

  method LinkMask(marks: array<Mask>, ghost words: seq<Word>, ghost found: set<Word>, ghost E: set<Entry>,
                  v: State, f: State)
    requires Masks(marks, words, found, E) && Patterns(words, E)
    requires v < |words| && f < |words| && words[v] != [] && Distinct(words)
    requires words[v] !in found && (words[f] in found || words[f] == [])
    requires words[f] == Fall(WordSet(words), words[v][1..])
    modifies marks
    ensures Masks(marks, words, found + {words[v]}, E)
  {
    hide Ended, Exact, Fall, WordSet, Patterns;
    UnionAlongFail(words, E, words[v], marks[v], marks[f]);
    marks[v] := marks[v] + marks[f];
  }

  /** `queue[tail++] = v` */
  method Enqueue(queue: array<State>, ghost head: nat, tail: nat, ghost words: seq<Word>, ghost closed: set<Word>,
                 ghost found: set<Word>, ghost d: nat, v: State)
    requires Spelling(words) && |words| <= queue.Length
    requires forall w :: w in found ==> w in words && w != []
    requires head <= tail == |found| <= queue.Length && Pending(queue[head..tail], words, closed, found, d)
    requires v < |words| && words[v] !in found && words[v] !in closed && |words[v]| == d + 1
    modifies queue
    ensures tail + 1 == |found + {words[v]}| <= queue.Length
    ensures Pending(queue[head..tail + 1], words, closed, found + {words[v]}, d)
  {
    PendingAppended(queue[head..tail], words, closed, found, d, v);
    FoundBound(words, found);
    hide Pending, Spelling;
    queue[tail] := v;
    assert queue[head..tail + 1] == old(queue[head..tail]) + [v];
  }

  // ---- the walk -----------------------------------------------------------

  lemma SeedBounds(next: array2<State>, words: seq<Word>, found: set<Word>, b: Byte)
    requires Spelling(words) && Rows(next, words, {}, 0, b) && Discovered(words, {}, found, 0, b)
    ensures 0 < |words| <= next.Length0 && next.Length1 == ALPHABET && words[0] == []
    ensures forall w :: w in found ==> w in words && w != []
  {
  }

  /** The root's row is final as pass 1 leaves it. */
  lemma SeedRow(next: array2<State>, words: seq<Word>, found: set<Word>, b: Byte, v: State)
    requires 0 < |words| <= next.Length0 && next.Length1 == ALPHABET && v == next[0, b]
    requires Spelling(words) && Rows(next, words, {}, 0, b) && Discovered(words, {}, found, 0, b)
    ensures Rows(next, words, {}, 0, b + 1)
    ensures v < |words|
    ensures v == 0 ==> Discovered(words, {}, found, 0, b + 1)
    ensures v != 0 ==> words[v] == [b] && [b] !in found && Discovered(words, {}, found + {[b]}, 0, b + 1)
  {
    assert [] + [b] == [b] && [b][1..] == [];
    assert TrieCell(words, 0, b, v) && words[0] + [b] == [b];
    DiscoveredNext(words, {}, found, 0, b);
    hide Discovered;
  }

  /** The root's children fail to the root. */
  lemma SeedLinks(fail: array<State>, words: seq<Word>, found: set<Word>, b: Byte)
    requires Spelling(words) && Links(fail, words, found) && forall v :: 0 <= v < fail.Length ==> fail[v] == 0
    ensures Links(fail, words, found + {[b]})
  {
  }

  lemma SeedMask(marks: array<Mask>, words: seq<Word>, found: set<Word>, E: set<Entry>, b: Byte)
    requires Masks(marks, words, found, E) && Patterns(words, E) && [b] !in found
    ensures Masks(marks, words, found + {[b]}, E)
  {
  }

  method SeedByte(next: array2<State>, out: array<Mask>, rout: array<Mask>, fail: array<State>, queue: array<State>,
                  ghost words: seq<Word>, ghost E: set<Entry>, ghost F: set<Entry>, ghost found: set<Word>,
                  b: Byte, tail: nat)
    returns (tail': nat, ghost found': set<Word>)
    requires Walk(next, out, rout, fail, queue, words, E, F, {}, found, 0, b, 0, tail)
    requires forall v :: 0 <= v < fail.Length ==> fail[v] == 0
    modifies queue
    ensures Walk(next, out, rout, fail, queue, words, E, F, {}, found', 0, b + 1, 0, tail')
  {
    SeedBounds(next, words, found, b);
    hide Rows, Discovered, Links, Masks, Pending, Patterns, Spelling;
    var v := next[0, b];
    SeedRow(next, words, found, b, v);
    SeedLinks(fail, words, found, b);
    tail', found' := tail, found;
    if v != 0 {
      SeedMask(out, words, found, E, b);
      SeedMask(rout, words, found, F, b);
      Enqueue(queue, 0, tail, words, {} + {words[0]}, found, 0, v);
      found' := found + {words[v]};
      tail' := tail + 1;
    }
  }

  /** What one step of the walk reads: the child of `s` on `b`, and the state its fail
      state goes to, which is shallow enough to be final already. */
  lemma LinkFacts(next: array2<State>, fail: array<State>, words: seq<Word>, done: set<Word>, found: set<Word>,
                  s: nat, b: Byte)
    requires Spelling(words) && s < |words| && words[s] in found && words[s] !in done
    requires Rows(next, words, done, s, b) && Links(fail, words, found) && Discovered(words, done, found, s, b)
    requires Shallow(words, done, found, |words[s]|) && forall w :: w in done ==> w == [] || w in found
    ensures Distinct(words) && forall w :: w in found ==> w in words && w != []
    ensures |words| <= next.Length0 && next.Length1 == ALPHABET && |words| <= fail.Length
    ensures fail[s] < |words| && next[s, b] < |words|
    ensures var f := next[fail[s], b];
            && f < |words| && (words[f] in found || words[f] == [])
            && (next[s, b] == 0 ==> words[f] == Fall(WordSet(words), words[s] + [b]))
            && (next[s, b] != 0 ==> words[f] == Fall(WordSet(words), words[next[s, b]][1..]))
    ensures next[s, b] == 0 ==> Discovered(words, done, found, s, b + 1)
    ensures next[s, b] != 0 ==>
              var x := words[next[s, b]];
              && words[s] + [b] in words
              && x != [] && |x| == |words[s]| + 1 && x !in found && x !in done + {words[s]}
              && Discovered(words, done, found + {x}, s, b + 1)
  {
    hide Fall, WordSet;
    var y := words[fail[s]];
    LinkTarget(words, words[s], b, y, Fall(WordSet(words), y + [b]));
    assert y in done;
    assert GotoCell(words, fail[s], b, next[fail[s], b]);
    assert TrieCell(words, s, b, next[s, b]);
    DiscoveredNext(words, done, found, s, b);
  }

  /** The child `v` is linked to `f`, takes over what ends there, and is queued. */
  method LinkChild(out: array<Mask>, rout: array<Mask>, fail: array<State>, queue: array<State>,
                   ghost words: seq<Word>, ghost E: set<Entry>, ghost F: set<Entry>, ghost closed: set<Word>,
                   ghost found: set<Word>, v: State, f: State, ghost head: nat, tail: nat, ghost d: nat)
    requires out != rout && fail != queue
    requires Spelling(words) && |words| <= queue.Length
    requires forall w :: w in found ==> w in words && w != []
    requires Patterns(words, E) && Patterns(words, F)
    requires Links(fail, words, found) && Masks(out, words, found, E) && Masks(rout, words, found, F)
    requires head <= tail == |found| <= queue.Length && Pending(queue[head..tail], words, closed, found, d)
    requires v < |words| && words[v] != [] && words[v] !in found && words[v] !in closed && |words[v]| == d + 1
    requires f < |words| && (words[f] in found || words[f] == [])
    requires words[f] == Fall(WordSet(words), words[v][1..])
    modifies out, rout, fail, queue
    ensures tail + 1 == |found + {words[v]}| <= queue.Length
    ensures Links(fail, words, found + {words[v]})
    ensures Masks(out, words, found + {words[v]}, E) && Masks(rout, words, found + {words[v]}, F)
    ensures Pending(queue[head..tail + 1], words, closed, found + {words[v]}, d)
  {
    assert Distinct(words);
    hide Links, Masks, Pending, Patterns, Spelling, Distinct, Fall, WordSet;
    LinkFail(fail, words, found, v, f);
    LinkMask(out, words, found, E, v, f);
    LinkMask(rout, words, found, F, v, f);
    Enqueue(queue, head, tail, words, closed, found, d, v);
  }

  /** One byte of one state: flatten the row, or link the child and queue it. */
  method LinkByte(next: array2<State>, out: array<Mask>, rout: array<Mask>, fail: array<State>, queue: array<State>,
                  ghost words: seq<Word>, ghost E: set<Entry>, ghost F: set<Entry>, ghost done: set<Word>,
                  ghost found: set<Word>, s: State, b: Byte, ghost head: nat, tail: nat)
    returns (tail': nat, ghost found': set<Word>)
    requires Walk(next, out, rout, fail, queue, words, E, F, done, found, s, b, head, tail)
    requires words[s] in found && words[s] !in done
    requires Shallow(words, done, found, |words[s]|)
    modifies next, out, rout, fail, queue
    ensures Walk(next, out, rout, fail, queue, words, E, F, done, found', s, b + 1, head, tail')
    ensures found <= found'
  {
    hide Rows, Discovered, Links, Masks, Pending, Patterns, Spelling, Distinct, Fall, WordSet, Shallow;
    LinkFacts(next, fail, words, done, found, s, b);
    var v := next[s, b];
    var f := next[fail[s], b];
    tail', found' := tail, found;
    if v == 0 {
      FlattenCell(next, words, done, s, b, f);
    } else {
      RowKept(next, words, done, s, b);
      LinkChild(out, rout, fail, queue, words, E, F, done + {words[s]}, found, v, f, head, tail, |words[s]|);
      found' := found + {words[v]};
      tail' := tail + 1;
    }
  }

  /** What holds between two states of the walk. */
  ghost predicate Rest(next: array2<State>, out: array<Mask>, rout: array<Mask>, fail: array<State>, queue: array<State>,
                       words: seq<Word>, E: set<Entry>, F: set<Entry>, done: set<Word>, found: set<Word>,
                       head: nat, tail: nat, d: nat)
    reads next, out, rout, fail, queue
  {
    && Spelling(words) && |words| <= queue.Length
    && out != rout && fail != queue
    && Patterns(words, E) && Patterns(words, F)
    && [] in done && (forall w :: w in done ==> w == [] || w in found)
    && Rows(next, words, done, 0, 0)
    && Discovered(words, done, found, 0, 0)
    && Links(fail, words, found)
    && Masks(out, words, found, E)
    && Masks(rout, words, found, F)
    && head <= tail == |found| <= queue.Length
    && Pending(queue[head..tail], words, done, found, d)
  }

  lemma RowsOpened(next: array2<State>, words: seq<Word>, done: set<Word>, cur: nat)
    requires Rows(next, words, done, 0, 0)
    ensures Rows(next, words, done, cur, 0)
  {
  }

  lemma PendingOpened(q: seq<State>, words: seq<Word>, done: set<Word>, found: set<Word>, d: nat)
    requires q != [] && Distinct(words) && Pending(q, words, done, found, d)
    ensures Pending(q[1..], words, done + {words[q[0]]}, found, |words[q[0]]|)
    ensures forall i :: 0 <= i < |q| ==> |words[q[i]]| >= |words[q[0]]|
  {
  }

  /** Nothing shallower than the oldest queued state is still to be visited. */
  lemma {:induction false} ShallowIsDone(words: seq<Word>, done: set<Word>, found: set<Word>, q: seq<State>, d: nat,
                                         depth: nat, w: Word)
    requires Spelling(words) && w in words && [] in done
    requires Discovered(words, done, found, 0, 0) && Pending(q, words, done, found, d)
    requires forall i :: 0 <= i < |q| ==> |words[q[i]]| >= depth
    ensures |w| < depth ==> w in done
    ensures w != [] && |w| <= depth ==> w in found
    decreases |w|
  {
    if w != [] {
      SpellingIsPrefixClosed(words);
      assert w in WordSet(words) && Parent(w) in WordSet(words);
      ShallowIsDone(words, done, found, q, d, depth, Parent(w));
      var v :| 0 <= v < |words| && words[v] == w;
      assert words[v] in found && words[v] !in done ==> v in q;
    }
  }

  /** With nothing left in the queue every state has been visited. */
  lemma AllDone(words: seq<Word>, done: set<Word>, found: set<Word>, d: nat)
    requires Spelling(words) && [] in done
    requires Discovered(words, done, found, 0, 0) && Pending([], words, done, found, d)
    ensures forall i :: 0 <= i < |words| ==> words[i] in done && (words[i] == [] || words[i] in found)
  {
    forall i | 0 <= i < |words|
      ensures words[i] in done && (words[i] == [] || words[i] in found)
    {
      ShallowIsDone(words, done, found, [], d, |words[i]| + 1, words[i]);
    }
  }

  /** The finished automaton: every row is the goto function, every mask the set of
      bits whose pattern ends there. */
  ghost predicate Linked(next: array2<State>, out: array<Mask>, rout: array<Mask>, words: seq<Word>,
                         E: set<Entry>, F: set<Entry>)
    reads next, out, rout
  {
    && Spelling(words) && Covers(words, E, F)
    && |words| <= next.Length0 && next.Length1 == ALPHABET && |words| <= out.Length && |words| <= rout.Length
    && (forall s, b {:trigger next[s, b]} :: 0 <= s < |words| && 0 <= b < ALPHABET ==> GotoCell(words, s, b, next[s, b]))
    && (forall s {:trigger out[s]} :: 0 <= s < |words| ==> Ended(out[s], E, words[s]))
    && (forall s {:trigger rout[s]} :: 0 <= s < |words| ==> Ended(rout[s], F, words[s]))
  }

  /** `order` lists every state but the root exactly once. */
  ghost predicate VisitsAll(order: seq<State>, words: seq<Word>) {
    && (forall i, j :: 0 <= i < j < |order| ==> order[i] != order[j])
    && (forall s: State :: s in order <==> 0 < s < |words|)
  }

  lemma WalkClosed(next: array2<State>, out: array<Mask>, rout: array<Mask>, fail: array<State>, queue: array<State>,
                   words: seq<Word>, E: set<Entry>, F: set<Entry>, done: set<Word>, found: set<Word>,
                   cur: nat, head: nat, tail: nat)
    requires Walk(next, out, rout, fail, queue, words, E, F, done, found, cur, ALPHABET, head, tail)
    requires words[cur] == [] || ([] in done && words[cur] in found)
    ensures Rest(next, out, rout, fail, queue, words, E, F, done + {words[cur]}, found, head, tail, |words[cur]|)
    ensures head <= tail
  {
  }

  /** The oldest queued state is the next to visit, and nothing shallower is left. */
  lemma QueueOpened(words: seq<Word>, done: set<Word>, found: set<Word>, q: seq<State>, d: nat)
    requires q != [] && Spelling(words) && [] in done && (forall w :: w in done ==> w == [] || w in found)
    requires Discovered(words, done, found, 0, 0) && Pending(q, words, done, found, d)
    ensures 0 < q[0] < |words| && words[q[0]] in found && words[q[0]] !in done
    ensures Shallow(words, done, found, |words[q[0]]|) && Discovered(words, done, found, q[0], 0)
    ensures Pending(q[1..], words, done + {words[q[0]]}, found, |words[q[0]]|)
  {
    PendingOpened(q, words, done, found, d);
    var s := q[0];
    forall w | w in words
      ensures |w| < |words[s]| ==> w in done
      ensures w != [] && |w| <= |words[s]| ==> w in found
    {
      ShallowIsDone(words, done, found, q, d, |words[s]|, w);
    }
  }

  lemma RestOpened(next: array2<State>, out: array<Mask>, rout: array<Mask>, fail: array<State>, queue: array<State>,
                   words: seq<Word>, E: set<Entry>, F: set<Entry>, done: set<Word>, found: set<Word>,
                   head: nat, tail: nat, d: nat)
    requires Rest(next, out, rout, fail, queue, words, E, F, done, found, head, tail, d) && head < tail
    ensures tail < |words|
    ensures var s := queue[head];
            && 0 < s < |words| && words[s] in found && words[s] !in done
            && Shallow(words, done, found, |words[s]|)
            && Walk(next, out, rout, fail, queue, words, E, F, done, found, s, 0, head + 1, tail)
  {
    FoundBound(words, found);
    var q := queue[head..tail];
    assert q[1..] == queue[head + 1..tail];
    hide Rows, Links, Masks, Patterns, Discovered, Pending, Spelling, Shallow;
    QueueOpened(words, done, found, q, d);
    RowsOpened(next, words, done, q[0]);
  }

  /** The inner loop: all bytes of one dequeued state. */
  method VisitState(next: array2<State>, out: array<Mask>, rout: array<Mask>, fail: array<State>, queue: array<State>,
                    ghost words: seq<Word>, ghost E: set<Entry>, ghost F: set<Entry>, ghost done: set<Word>,
                    ghost found: set<Word>, s: State, ghost head: nat, tail: nat)
    returns (tail': nat, ghost found': set<Word>)
    requires Walk(next, out, rout, fail, queue, words, E, F, done, found, s, 0, head, tail)
    requires words[s] in found && words[s] !in done && [] in done
    requires Shallow(words, done, found, |words[s]|)
    modifies next, out, rout, fail, queue
    ensures Rest(next, out, rout, fail, queue, words, E, F, done + {words[s]}, found', head, tail', |words[s]|)
    ensures head <= tail'
  {
    hide Walk, Rest;
    tail', found' := tail, found;
    var b := 0;
    while b < ALPHABET
      invariant 0 <= b <= ALPHABET
      invariant found <= found'
      invariant Walk(next, out, rout, fail, queue, words, E, F, done, found', s, b, head, tail')
    {
      tail', found' := LinkByte(next, out, rout, fail, queue, words, E, F, done, found', s, b, head, tail');
      b := b + 1;
    }
    WalkClosed(next, out, rout, fail, queue, words, E, F, done, found', s, head, tail');
  }

  /** The root's children start the queue. */
  method SeedQueue(next: array2<State>, out: array<Mask>, rout: array<Mask>, fail: array<State>, queue: array<State>,
                   ghost words: seq<Word>, ghost E: set<Entry>, ghost F: set<Entry>)
    returns (tail: nat, ghost found: set<Word>)
    requires Walk(next, out, rout, fail, queue, words, E, F, {}, {}, 0, 0, 0, 0)
    requires words != [] && words[0] == [] && fail != queue
    requires forall v :: 0 <= v < fail.Length ==> fail[v] == 0
    modifies queue
    ensures Rest(next, out, rout, fail, queue, words, E, F, {[]}, found, 0, tail, 0)
  {
    hide Walk, Rest;
    tail, found := 0, {};
    var b := 0;
    while b < ALPHABET
      invariant 0 <= b <= ALPHABET
      invariant Walk(next, out, rout, fail, queue, words, E, F, {}, found, 0, b, 0, tail)
    {
      tail, found := SeedByte(next, out, rout, fail, queue, words, E, F, found, b, tail);
      b := b + 1;
    }
    WalkClosed(next, out, rout, fail, queue, words, E, F, {}, found, 0, 0, tail);
    assert {} + {words[0]} == {[]};
  }

  lemma StartWalk(next: array2<State>, out: array<Mask>, rout: array<Mask>, fail: array<State>, queue: array<State>,
                  words: seq<Word>, E: set<Entry>, F: set<Entry>)
    requires Recognises(next, out, rout, words, E, F)
    requires forall e :: e in E || e in F ==> e.word != []
    requires fail != queue && fail.Length == queue.Length == next.Length0
    ensures Walk(next, out, rout, fail, queue, words, E, F, {}, {}, 0, 0, 0, 0)
    ensures words != [] && words[0] == []
  {
  }

  /** `order` lists the visited states other than the root, each once. */
  ghost predicate Listed(order: seq<State>, words: seq<Word>, done: set<Word>) {
    && (forall i, j :: 0 <= i < j < |order| ==> order[i] != order[j])
    && (forall s: State {:trigger s in order} :: s in order <==> 0 < s < |words| && words[s] in done)
  }

  lemma ListedNext(order: seq<State>, words: seq<Word>, done: set<Word>, s: State)
    requires Listed(order, words, done) && Distinct(words)
    requires 0 < s < |words| && words[s] !in done
    ensures Listed(order + [s], words, done + {words[s]})
  {
    assert s !in order;
    assert forall i :: 0 <= i < |order| ==> order[i] in order;
    forall u: State
      ensures u in order + [s] <==> 0 < u < |words| && words[u] in done + {words[s]}
    {
      assert u in order <==> 0 < u < |words| && words[u] in done;
    }
  }

  lemma Finish(next: array2<State>, out: array<Mask>, rout: array<Mask>, fail: array<State>, queue: array<State>,
               words: seq<Word>, E: set<Entry>, F: set<Entry>, done: set<Word>, found: set<Word>,
               tail: nat, d: nat, order: seq<State>)
    requires Rest(next, out, rout, fail, queue, words, E, F, done, found, tail, tail, d)
    requires Covers(words, E, F) && Listed(order, words, done)
    ensures Linked(next, out, rout, words, E, F) && VisitsAll(order, words)
  {
    hide Fall, WordSet, Ended, Exact, Links;
    assert queue[tail..tail] == [];
    AllDone(words, done, found, d);
  }

  /** Pass 2. Terminates because each state is dequeued at most once. */
  method ResolveLinks(next: array2<State>, out: array<Mask>, rout: array<Mask>,
                      ghost words: seq<Word>, ghost E: set<Entry>, ghost F: set<Entry>)
    returns (ghost order: seq<State>)
    requires Recognises(next, out, rout, words, E, F)
    requires forall e :: e in E || e in F ==> e.word != []
    modifies next, out, rout
    ensures Linked(next, out, rout, words, E, F)
    ensures VisitsAll(order, words)
  {
    order := [];
    var cap := next.Length0;
    var fail := new State[cap](_ => 0);
    var queue := new State[cap];
    assert Covers(words, E, F) && Distinct(words) && words[0] == [];
    StartWalk(next, out, rout, fail, queue, words, E, F);
    assert Listed(order, words, {[]});
    hide Walk, Rest, Recognises, Listed, Distinct, Covers;
    var head := 0;
    var tail, found := SeedQueue(next, out, rout, fail, queue, words, E, F);
    ghost var done := {[]};
    ghost var d: nat := 0;
    while head < tail
      invariant Rest(next, out, rout, fail, queue, words, E, F, done, found, head, tail, d)
      invariant |order| == head <= tail
      invariant Listed(order, words, done) && [] in done
      decreases |words| - head
    {
      RestOpened(next, out, rout, fail, queue, words, E, F, done, found, head, tail, d);
      var s := queue[head];
      ListedNext(order, words, done, s);
      head := head + 1;
      tail, found := VisitState(next, out, rout, fail, queue, words, E, F, done, found, s, head, tail);
      done, d, order := done + {words[s]}, |words[s]|, order + [s];
    }
    Finish(next, out, rout, fail, queue, words, E, F, done, found, tail, d, order);
  }
}
