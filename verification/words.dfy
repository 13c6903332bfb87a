/** Byte strings, and the suffix arithmetic behind the Aho-Corasick automaton. */
module Words {
  type Byte = b: int | 0 <= b < 256

  type Word = seq<Byte>

  predicate Suffix(x: Word, w: Word) {
    |x| <= |w| && w[|w| - |x|..] == x
  }

  /** `x` occurs somewhere in `w`: it is a suffix of one of the prefixes of `w`. */
  ghost predicate Occurs(x: Word, w: Word) {
    exists e :: 0 <= e <= |w| && Suffix(x, w[..e])
  }

  function Prefixes(w: Word): set<Word> {
    if w == [] then {[]} else Prefixes(w[..|w| - 1]) + {w}
  }

  /** All but the last byte. */
  function Parent(w: Word): Word
    requires w != []
  {
    w[..|w| - 1]
  }

  ghost predicate PrefixClosed(W: set<Word>) {
    && [] in W
    && (forall w {:trigger Parent(w)} :: w in W && w != [] ==> Parent(w) in W)
  }

  /** The longest suffix of `w` that belongs to `W`. */
  function Fall(W: set<Word>, w: Word): (r: Word)
    ensures Suffix(r, w)
    ensures [] in W ==> r in W
  {
    if w in W || w == [] then w else Fall(W, w[1..])
  }

  lemma {:induction false} InPrefixes(w: Word, x: Word)
    ensures x in Prefixes(w) <==> x <= w
  {
    if w != [] {
      InPrefixes(w[..|w| - 1], x);
      assert x <= w && x != w ==> x == w[..|w| - 1][..|x|];
    }
  }

  lemma SuffixTransitive(x: Word, y: Word, z: Word)
    requires Suffix(x, y) && Suffix(y, z)
    ensures Suffix(x, z)
  {
  }

  lemma SuffixOfTail(x: Word, w: Word)
    requires Suffix(x, w) && x != w
    ensures w != [] && Suffix(x, w[1..])
  {
  }

  /** No suffix of `w` inside `W` is longer than `Fall(W, w)`: each is a suffix of it. */
  lemma {:induction false} FallIsLongest(W: set<Word>, w: Word, x: Word)
    requires x in W && Suffix(x, w)
    ensures Suffix(x, Fall(W, w))
    decreases |w|
  {
    if w in W || w == [] {
    } else {
      SuffixOfTail(x, w);
      FallIsLongest(W, w[1..], x);
    }
  }

  /** Reading one more byte only needs the current fallback, not the whole text. */
  lemma {:induction false} FallStep(W: set<Word>, w: Word, b: Byte)
    requires PrefixClosed(W)
    ensures Fall(W, w + [b]) == Fall(W, Fall(W, w) + [b])
    decreases |w|
  {
    if w !in W {
      assert Parent(w + [b]) == w;
      assert (w + [b])[1..] == w[1..] + [b];
      FallStep(W, w[1..], b);
    }
  }

  /** The fail link of `x + [b]`, and the flattened transition of `x` on an absent
      byte `b`, are both the transition of the fail state of `x` on `b`. */
  lemma FallOfExtension(W: set<Word>, x: Word, b: Byte)
    requires PrefixClosed(W) && x != []
    ensures Fall(W, (x + [b])[1..]) == Fall(W, Fall(W, x[1..]) + [b])
    ensures x + [b] !in W ==> Fall(W, x + [b]) == Fall(W, Fall(W, x[1..]) + [b])
  {
    assert (x + [b])[1..] == x[1..] + [b];
    FallStep(W, x[1..], b);
  }

  /** A pattern of `W` ends `x` iff it is `x` itself or ends the fallback of `x`. */
  lemma SuffixSplit(W: set<Word>, x: Word, p: Word)
    requires x != [] && p in W
    ensures Suffix(p, x) <==> p == x || Suffix(p, Fall(W, x[1..]))
  {
    if Suffix(p, x) && p != x {
      SuffixOfTail(p, x);
      FallIsLongest(W, x[1..], p);
    }
    if Suffix(p, Fall(W, x[1..])) {
      SuffixTransitive(p, Fall(W, x[1..]), x[1..]);
      SuffixTransitive(p, x[1..], x);
    }
  }

  /** A pattern of `W` ends the text iff it ends the fallback of the text. */
  lemma SuffixOfFall(W: set<Word>, w: Word, p: Word)
    requires p in W
    ensures Suffix(p, w) <==> Suffix(p, Fall(W, w))
  {
    if Suffix(p, w) {
      FallIsLongest(W, w, p);
    }
    if Suffix(p, Fall(W, w)) {
      SuffixTransitive(p, Fall(W, w), w);
    }
  }

  lemma {:induction false} PrefixInClosed(W: set<Word>, w: Word, x: Word)
    requires PrefixClosed(W) && w in W && x <= w
    ensures x in W
    decreases |w|
  {
    if x != w {
      assert x <= Parent(w);
      PrefixInClosed(W, Parent(w), x);
    }
  }

  lemma AppendInjective(x: Word, b: Byte, y: Word, c: Byte)
    ensures x + [b] == y + [c] <==> x == y && b == c
  {
    if x + [b] == y + [c] {
      assert x == (x + [b])[..|x|] && y == (y + [c])[..|y|];
      assert b == (x + [b])[|x|] && c == (y + [c])[|y|];
    }
  }
}
