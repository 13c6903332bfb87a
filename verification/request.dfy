/** The request side: position masks, the two-pass target scan, and the body scan. */
module Request {
  import opened Options
  import opened Words
  import opened Tables
  import opened Verdicts
  import opened Automata
  import opened Scanner
  import Folding

  /** Every scan is three-valued: an unscanned buffer is not a clean one. */
  datatype Outcome = Found(hit: Hit) | Clean | Failed

  function Complement(m: Mask): Mask {
    set b: Bit | 0 <= b < 64 && b !in m
  }

  /** All categories but `c` skipped. */
  function Only(c: Bit): Mask {
    Complement({c})
  }

  /** Category `c` carries the position flag. */
  ghost predicate Carries(t: Tables, flag: Flag, c: Bit) {
    exists i :: 0 <= i < |t.categories| && t.categories[i].cat == c && flag in t.categories[i].flags
  }

  ghost function Carriers(t: Tables, flag: Flag): Mask {
    set c: Bit | 0 <= c < 64 && Carries(t, flag, c)
  }

  /** The categories exempt from a position, as a skip mask. */
  method PositionMask(t: Tables, flag: Flag) returns (mask: Mask)
    ensures mask == Carriers(t, flag)
  {
    mask := {};
    for i := 0 to |t.categories|
      invariant forall c: Bit :: c in mask <==>
                  exists i' :: 0 <= i' < i && t.categories[i'].cat == c && flag in t.categories[i'].flags
    {
      if flag in t.categories[i].flags {
        mask := mask + {t.categories[i].cat};
      }
    }
  }

  /** Masks act category by category. */
  lemma MatchesByCategory(t: Tables, flavour: Flag, skip: Mask, w: Word)
    ensures Matches(t, flavour, skip, w) <==> exists c: Bit :: c !in skip && Matches(t, flavour, Only(c), w)
  {
    if Matches(t, flavour, skip, w) {
      if i: nat :| RuleFires(t, flavour, skip, w, i) {
        assert RuleFires(t, flavour, Only(t.rules[i].cat), w, i);
      } else {
        var e :| 0 <= e <= |w| && SomeRowEnds(t, flavour, skip, w[..e]);
        var r: nat :| RowEnds(t, flavour, skip, w[..e], r);
        assert RowEnds(t, flavour, Only(t.categories[r].cat), w[..e], r);
      }
    }
    if c: Bit :| c !in skip && Matches(t, flavour, Only(c), w) {
      if i: nat :| RuleFires(t, flavour, Only(c), w, i) {
        assert t.rules[i].cat == c;
        assert RuleFires(t, flavour, skip, w, i);
      } else {
        var e :| 0 <= e <= |w| && SomeRowEnds(t, flavour, Only(c), w[..e]);
        var r: nat :| RowEnds(t, flavour, Only(c), w[..e], r);
        assert t.categories[r].cat == c;
        assert RowEnds(t, flavour, skip, w[..e], r);
      }
    }
  }

  lemma InputMatchesByCategory(t: Tables, skip: Mask, unescape: Word -> Word, data: Word)
    ensures InputMatches(t, skip, unescape, data)
            <==> exists c: Bit :: c !in skip && InputMatches(t, Only(c), unescape, data)
  {
    MatchesByCategory(t, Flag.Raw, skip, Lower(data));
    MatchesByCategory(t, Flag.Decoded, skip, DecodedCopy(unescape, data));
    hide Lower, DecodedCopy, Matches, Only;
    if InputMatches(t, skip, unescape, data) {
      if Matches(t, Flag.Raw, skip, Lower(data)) {
        var c: Bit :| c !in skip && Matches(t, Flag.Raw, Only(c), Lower(data));
        assert InputMatches(t, Only(c), unescape, data);
      } else {
        var c: Bit :| c !in skip && Matches(t, Flag.Decoded, Only(c), DecodedCopy(unescape, data));
        assert InputMatches(t, Only(c), unescape, data);
      }
    }
  }

  /** The scratch allocation around the decision core; `memory` says whether it succeeds. */
  method ScanR(t: Tables, raw: Automaton, decoded: Automaton, unescape: Word -> Word, data: Word, source: string,
               skip: Mask, memory: bool)
    returns (rc: Outcome)
    requires raw.Built(t, Flag.Raw) && decoded.Built(t, Flag.Decoded)
    requires |unescape(data)| <= |data|
    ensures rc.Found? ==> InputMatches(t, skip, unescape, data)
                          && Reports(t, skip, unescape, data, source, Some(rc.hit))
    ensures rc.Clean? ==> !InputMatches(t, skip, unescape, data)
                          && Reports(t, skip, unescape, data, source, None)
    ensures rc.Failed? <==> data != [] && !memory
  {
    if data == [] {
      return Clean;
    }
    if !memory {
      return Failed;
    }
    hide InputMatches, Reports;
    var lc, dec := new Byte[|data|], new Byte[|data|];
    var hit := ScanInput(t, raw, decoded, unescape, data, lc, dec, source, skip);
    rc := if hit.Some? then Found(hit.value) else Clean;
  }

  // ---- the request target -------------------------------------------------

  /** Everything before the first question mark. */
  function PathOf(uri: Word): (p: Word)
    ensures p <= uri && '?' as int !in p
    ensures p == uri || uri[|p|] == '?' as int
  {
    if uri == [] || uri[0] == '?' as int then [] else [uri[0]] + PathOf(uri[1..])
  }

  /** What a category, with its rules, may see of the target: the path if it must not see the
      query, else all of it. */
  ghost function PartSeen(t: Tables, c: Bit, uri: Word): Word {
    if Carries(t, NoQuery, c) then PathOf(uri) else uri
  }

  /** In terms of the table rows and the byte code of the question mark. */
  lemma QueryIsHiddenByItsFlag(t: Tables, c: Bit, uri: Word)
    ensures var seen := PartSeen(t, c, uri);
            if exists r :: 0 <= r < |t.categories| && t.categories[r].cat == c && Flag.NoQuery in t.categories[r].flags then
              seen <= uri && 63 !in seen && (seen == uri || uri[|seen|] == 63)
            else seen == uri
  {
  }

  /** Some enabled category matches what it may see. */
  ghost predicate TargetMatches(t: Tables, skip: Mask, unescape: Word -> Word, uri: Word) {
    exists c: Bit {:trigger Only(c)} :: c !in skip &&
      InputMatches(t, Only(c), unescape, PartSeen(t, c, uri))
  }

  /** The reported hit: the whole target's, else the path's. */
  ghost predicate TargetReports(t: Tables, skip: Mask, unescape: Word -> Word, uri: Word, hit: Hit) {
    || Reports(t, skip + Carriers(t, NoQuery), unescape, uri, "uri", Some(hit))
    || (Reports(t, skip + Carriers(t, NoQuery), unescape, uri, "uri", None)
        && Reports(t, skip + Complement(Carriers(t, NoQuery)), unescape, PathOf(uri), "uri", Some(hit)))
  }

  lemma FirstPass(t: Tables, skip: Mask, unescape: Word -> Word, uri: Word)
    requires InputMatches(t, skip + Carriers(t, NoQuery), unescape, uri)
    ensures TargetMatches(t, skip, unescape, uri)
  {
    hide InputMatches, Only;
    InputMatchesByCategory(t, skip + Carriers(t, NoQuery), unescape, uri);
  }

  lemma SecondPass(t: Tables, skip: Mask, unescape: Word -> Word, uri: Word)
    requires InputMatches(t, skip + Complement(Carriers(t, NoQuery)), unescape, PathOf(uri))
    ensures TargetMatches(t, skip, unescape, uri)
  {
    hide InputMatches, Only, PathOf;
    var rest := Complement(Carriers(t, NoQuery));
    InputMatchesByCategory(t, skip + rest, unescape, PathOf(uri));
    var c: Bit :| c !in skip + rest && InputMatches(t, Only(c), unescape, PathOf(uri));
    assert Carries(t, NoQuery, c);
  }

  /** The two passes together miss nothing, and the second is only left out when no
      category of its own is enabled. */
  lemma BothPasses(t: Tables, skip: Mask, unescape: Word -> Word, uri: Word)
    requires TargetMatches(t, skip, unescape, uri)
    ensures var noQuery := Carriers(t, NoQuery);
            || InputMatches(t, skip + noQuery, unescape, uri)
            || (PathOf(uri) != [] && Complement(skip) * noQuery != {}
                && InputMatches(t, skip + Complement(noQuery), unescape, PathOf(uri)))
  {
    var noQuery := Carriers(t, NoQuery);
    var c: Bit :| c !in skip && InputMatches(t, Only(c), unescape, PartSeen(t, c, uri));
    if Carries(t, NoQuery, c) {
      assert PathOf(uri) != [] && c in Complement(skip) * noQuery && c !in skip + Complement(noQuery);
      InputMatchesByCategory(t, skip + Complement(noQuery), unescape, PathOf(uri));
    } else {
      assert c !in skip + noQuery;
      InputMatchesByCategory(t, skip + noQuery, unescape, uri);
    }
  }

  /** `ngx_strlchr` for the question mark, or the whole length. */
  method PathLength(uri: Word) returns (n: nat)
    ensures n <= |uri| && uri[..n] == PathOf(uri)
  {
    n := 0;
    while n < |uri| && uri[n] != '?' as int
      invariant n <= |uri| && '?' as int !in uri[..n]
    {
      n := n + 1;
    }
    var p := PathOf(uri);
    assert forall i :: 0 <= i < |p| ==> uri[i] == p[i] && p[i] in p;
    assert forall i :: 0 <= i < n ==> uri[i] in uri[..n];
  }

  /** The target part of the pre-body inspection. `memory` and `memory2` are the two
      scratch allocations. */
  method InspectTarget(t: Tables, raw: Automaton, decoded: Automaton, unescape: Word -> Word, uri: Word, skip: Mask,
                       memory: bool, memory2: bool)
    returns (rc: Outcome)
    requires raw.Built(t, Flag.Raw) && decoded.Built(t, Flag.Decoded)
    requires |unescape(uri)| <= |uri| && |unescape(PathOf(uri))| <= |PathOf(uri)|
    ensures rc.Found? ==> TargetMatches(t, skip, unescape, uri) && TargetReports(t, skip, unescape, uri, rc.hit)
    ensures rc.Clean? ==> !TargetMatches(t, skip, unescape, uri)
    ensures rc.Failed? ==> !memory || !memory2
  {
    hide InputMatches, TargetMatches, Complement, Reports, Carriers;
    var noQuery := PositionMask(t, NoQuery);
    if TargetMatches(t, skip, unescape, uri) {
      BothPasses(t, skip, unescape, uri);
    }
    if uri == [] {
      EmptyInputNeverMatches(t, skip + noQuery, unescape);
      return Clean;
    }
    rc := ScanR(t, raw, decoded, unescape, uri, "uri", skip + noQuery, memory);
    if rc.Found? {
      FirstPass(t, skip, unescape, uri);
    }
    if !rc.Clean? {
      return;
    }
    var pathLen := PathLength(uri);
    if pathLen != 0 && Complement(skip) * noQuery != {} {
      rc := ScanR(t, raw, decoded, unescape, uri[..pathLen], "uri", skip + Complement(noQuery), memory2);
      if rc.Found? {
        SecondPass(t, skip, unescape, uri);
      }
    }
  }

  // ---- rows and rules over the target -------------------------------------

  /** A signature of row `r` occurs in a copy that the row applies to. */
  ghost predicate RowSeen(t: Tables, flavour: Flag, w: Word, r: nat) {
    exists e {:trigger w[..e]} :: 0 <= e <= |w| && RowEnds(t, flavour, {}, w[..e], r)
  }

  ghost predicate RowMatches(t: Tables, unescape: Word -> Word, data: Word, r: nat) {
    data != [] && (RowSeen(t, Flag.Raw, Lower(data), r) || RowSeen(t, Flag.Decoded, DecodedCopy(unescape, data), r))
  }

  /** All terms of rule `i` occur in one and the same copy, and it can be reported. */
  ghost predicate RuleMatches(t: Tables, unescape: Word -> Word, data: Word, i: nat) {
    && data != []
    && (RuleFires(t, Flag.Raw, {}, Lower(data), i) || RuleFires(t, Flag.Decoded, {}, DecodedCopy(unescape, data), i))
  }

  lemma MatchesByMember(t: Tables, flavour: Flag, skip: Mask, w: Word)
    ensures Matches(t, flavour, skip, w)
        <==> (exists r: nat :: r < |t.categories| && t.categories[r].cat !in skip && RowSeen(t, flavour, w, r))
             || (exists i: nat :: i < |t.rules| && t.rules[i].cat !in skip && RuleFires(t, flavour, {}, w, i))
  {
    if Matches(t, flavour, skip, w) {
      if i: nat :| RuleFires(t, flavour, skip, w, i) {
        assert RuleFires(t, flavour, {}, w, i);
      } else {
        var e :| 0 <= e <= |w| && SomeRowEnds(t, flavour, skip, w[..e]);
        var r: nat :| RowEnds(t, flavour, skip, w[..e], r);
        assert RowEnds(t, flavour, {}, w[..e], r);
        assert RowSeen(t, flavour, w, r);
      }
    }
    if r: nat :| r < |t.categories| && t.categories[r].cat !in skip && RowSeen(t, flavour, w, r) {
      var e :| 0 <= e <= |w| && RowEnds(t, flavour, {}, w[..e], r);
      assert RowEnds(t, flavour, skip, w[..e], r);
    }
    if i: nat :| i < |t.rules| && t.rules[i].cat !in skip && RuleFires(t, flavour, {}, w, i) {
      assert RuleFires(t, flavour, skip, w, i);
    }
  }

  lemma InputMatchesByMember(t: Tables, skip: Mask, unescape: Word -> Word, data: Word)
    ensures InputMatches(t, skip, unescape, data)
        <==> (exists r: nat :: r < |t.categories| && t.categories[r].cat !in skip && RowMatches(t, unescape, data, r))
             || (exists i: nat :: i < |t.rules| && t.rules[i].cat !in skip && RuleMatches(t, unescape, data, i))
  {
    MatchesByMember(t, Flag.Raw, skip, Lower(data));
    MatchesByMember(t, Flag.Decoded, skip, DecodedCopy(unescape, data));
    hide Matches, RowSeen, RuleFires, Lower, DecodedCopy;
  }

  /** What the two passes report, member by member: a row or a rule contributes through
      the whole target if its category does not carry the position flag, and through the
      path alone if it does. So the terms of a rule combine across the question mark
      exactly when its category may see the query. */
  lemma TargetMatchesByMember(t: Tables, skip: Mask, unescape: Word -> Word, uri: Word)
    ensures TargetMatches(t, skip, unescape, uri)
        <==> (exists r: nat :: r < |t.categories| && t.categories[r].cat !in skip
                               && RowMatches(t, unescape, PartSeen(t, t.categories[r].cat, uri), r))
             || (exists i: nat :: i < |t.rules| && t.rules[i].cat !in skip
                                  && RuleMatches(t, unescape, PartSeen(t, t.rules[i].cat, uri), i))
  {
    forall c: Bit
      ensures InputMatches(t, Only(c), unescape, PartSeen(t, c, uri))
          <==> (exists r: nat :: r < |t.categories| && t.categories[r].cat == c
                                 && RowMatches(t, unescape, PartSeen(t, c, uri), r))
               || (exists i: nat :: i < |t.rules| && t.rules[i].cat == c
                                    && RuleMatches(t, unescape, PartSeen(t, c, uri), i))
    {
      InputMatchesByMember(t, Only(c), unescape, PartSeen(t, c, uri));
      hide InputMatches, RowMatches, RuleMatches, PartSeen;
    }
    hide InputMatches, RowMatches, RuleMatches, Only;
    if TargetMatches(t, skip, unescape, uri) {
      var c: Bit :| c !in skip && InputMatches(t, Only(c), unescape, PartSeen(t, c, uri));
    }
    if r: nat :| r < |t.categories| && t.categories[r].cat !in skip
                 && RowMatches(t, unescape, PartSeen(t, t.categories[r].cat, uri), r) {
      assert InputMatches(t, Only(t.categories[r].cat), unescape, PartSeen(t, t.categories[r].cat, uri));
    }
    if i: nat :| i < |t.rules| && t.rules[i].cat !in skip
                 && RuleMatches(t, unescape, PartSeen(t, t.rules[i].cat, uri), i) {
      assert InputMatches(t, Only(t.rules[i].cat), unescape, PartSeen(t, t.rules[i].cat, uri));
    }
  }

  /** Where nothing but rule `i` could match, the target is reported iff the rule is
      complete in the part that its category may see. */
  lemma RuleDecidesTarget(t: Tables, skip: Mask, unescape: Word -> Word, uri: Word, i: nat)
    requires i < |t.rules| && t.rules[i].cat !in skip
    requires forall r: nat :: r < |t.categories| && t.categories[r].cat !in skip ==>
               !RowMatches(t, unescape, PartSeen(t, t.categories[r].cat, uri), r)
    requires forall j: nat :: j < |t.rules| && j != i && t.rules[j].cat !in skip ==>
               !RuleMatches(t, unescape, PartSeen(t, t.rules[j].cat, uri), j)
    ensures TargetMatches(t, skip, unescape, uri)
        <==> RuleMatches(t, unescape, PartSeen(t, t.rules[i].cat, uri), i)
  {
    TargetMatchesByMember(t, skip, unescape, uri);
    hide TargetMatches, RowMatches, RuleMatches;
  }

  /** One category kept from the query, and one rule that reports it. */
  function StraddlingTables(): Tables {
    Tables([Category(0, "c", [[1]], {Flag.Decoded, NoQuery})], [Rule(0, "r", [[97], [98]], {Flag.Decoded})])
  }

  lemma OtherByteIsNoSuffix(b: Byte, w: Word)
    requires |w| <= 1 && (w == [] || w[0] != b)
    ensures !Suffix([b], w)
  {
  }

  lemma NoRowEndsPath(flavour: Flag, skip: Mask, w: Word)
    requires |w| <= 1 && (w == [] || w[0] == 97)
    ensures !SomeRowEnds(StraddlingTables(), flavour, skip, w)
  {
  }

  lemma NoRuleFiresOnPath(flavour: Flag, skip: Mask, path: Word, i: nat)
    requires |path| == 1 && path[0] == 97
    ensures !RuleFires(StraddlingTables(), flavour, skip, path, i)
  {
    forall e | 0 <= e <= |path|
      ensures !Suffix([98], path[..e])
    {
      OtherByteIsNoSuffix(98, path[..e]);
    }
    hide Suffix;
    assert !Occurs([98], path);
    hide Occurs;
    assert i == 0 ==> StraddlingTables().rules[i].terms[1] == [98];
  }

  lemma PathMatchesNothing(flavour: Flag, skip: Mask)
    ensures !Matches(StraddlingTables(), flavour, skip, [97])
  {
    var path: Word := [97];
    forall e | 0 <= e <= |path|
      ensures !SomeRowEnds(StraddlingTables(), flavour, skip, path[..e])
    {
      NoRowEndsPath(flavour, skip, path[..e]);
    }
    forall i: nat
      ensures !RuleFires(StraddlingTables(), flavour, skip, path, i)
    {
      NoRuleFiresOnPath(flavour, skip, path, i);
    }
    hide SomeRowEnds, RuleFires, StraddlingTables;
  }

  const STRADDLING_URI: Word := [97, '?' as int, 98]

  function Identity(w: Word): Word {
    w
  }

  lemma BothTermsOccur()
    ensures InputMatches(StraddlingTables(), {}, Identity, STRADDLING_URI)
  {
    var uri := STRADDLING_URI;
    assert DecodedCopy(Identity, uri) == uri;
    assert uri[..1] == [97] && uri[..3][2..] == [98];
    assert Suffix([97], uri[..1]) && Suffix([98], uri[..3]);
    assert Occurs([97], uri) && Occurs([98], uri);
    hide Occurs, Suffix, DecodedCopy;
    assert RuleFires(StraddlingTables(), Flag.Decoded, {}, uri, 0);
  }

  lemma TargetIsClean()
    ensures !TargetMatches(StraddlingTables(), {}, Identity, STRADDLING_URI)
  {
    var t, uri := StraddlingTables(), STRADDLING_URI;
    assert PathOf(uri) == [97];
    assert Carries(t, NoQuery, 0) by {
      assert t.categories[0].cat == 0;
    }
    assert Lower([97]) == [97] && DecodedCopy(Identity, [97]) == [97];
    forall c: Bit
      ensures !InputMatches(t, Only(c), Identity, PartSeen(t, c, uri))
    {
      if c == 0 {
        PathMatchesNothing(Flag.Raw, Only(c));
        PathMatchesNothing(Flag.Decoded, Only(c));
        hide Matches, Lower, DecodedCopy;
      } else {
        assert 0 in Only(c);
      }
    }
  }

  /** Not every rule spans the question mark: one that reports a category kept from the
      query is masked in the first pass and sees only the path in the second. Here both
      terms of the rule lie in the target, on either side of it, and nothing is reported. */
  lemma NoQueryRulesDoNotStraddle()
    ensures WellFormed(StraddlingTables())
    ensures InputMatches(StraddlingTables(), {}, Identity, STRADDLING_URI)
    ensures !TargetMatches(StraddlingTables(), {}, Identity, STRADDLING_URI)
  {
    BothTermsOccur();
    TargetIsClean();
    hide InputMatches, TargetMatches;
  }

  lemma EmptyInputNeverMatches(t: Tables, skip: Mask, unescape: Word -> Word)
    ensures !InputMatches(t, skip, unescape, [])
  {
  }

  // ---- the request body ---------------------------------------------------

  /** One buffer of the body chain. A file buffer answers a read of `n` bytes at an
      offset with a count; a count of zero or less is a failed or truncated read. */
  datatype Buf = Memory(bytes: Word) | File(bytes: Word, read: (nat, nat) -> int) | Special

  function BufBytes(b: Buf): Word {
    if b.Special? then [] else b.bytes
  }

  function ChainBytes(bufs: seq<Buf>): Word {
    if bufs == [] then [] else ChainBytes(bufs[..|bufs| - 1]) + BufBytes(bufs[|bufs| - 1])
  }

  function Min(a: int, b: int): int {
    if a < b then a else b
  }

  /** The scan cap, tightened to the content length when that is known. */
  function Limit(max: nat, contentLength: int): nat {
    if contentLength > 0 then Min(max, contentLength) else max
  }

  function Take(w: Word, n: nat): Word {
    w[..Min(n, |w|)]
  }

  /** The longest beginning of the body that neither the cap nor a known content length
      cuts. */
  lemma TakesAllThatIsAllowed(all: Word, cap: nat, contentLength: int)
    ensures var part := Take(all, Limit(cap, contentLength));
            && part <= all && |part| <= cap && (contentLength > 0 ==> |part| <= contentLength)
            && (part == all || |part| == cap || (contentLength > 0 && |part| == contentLength))
  {
  }

  /** The body is the bytes of its buffers one after the other, in memory or in a file. */
  lemma {:induction false} ChainIsConcatenation(a: seq<Buf>, b: seq<Buf>)
    ensures ChainBytes(a + b) == ChainBytes(a) + ChainBytes(b)
  {
    hide BufBytes;
    if b == [] {
      assert a + b == a;
    } else {
      ChainIsConcatenation(a, b[..|b| - 1]);
      assert (a + b)[..|a + b| - 1] == a + b[..|b| - 1];
    }
  }

  lemma ChainOfOne(b: Buf)
    ensures ChainBytes([b]) == match b { case Memory(bytes) => bytes case File(bytes, _) => bytes case Special => [] }
  {
    assert ChainBytes([]) == [] && [b][..0] == [];
  }

  datatype Collected = Body(bytes: Word) | Unread

  /** What one read at `off` delivers: at most what was asked for, or nothing. */
  function ReadCount(b: Buf, off: nat, n: nat): nat
    requires b.File?
  {
    var r := b.read(off, n);
    if r <= 0 then 0 else Min(r, n)
  }

  /** Whether looping over short reads delivers `n` bytes from `off`. */
  predicate Delivers(b: Buf, off: nat, n: nat)
    requires b.File?
    decreases n
  {
    n == 0 || (ReadCount(b, off, n) > 0 && Delivers(b, off + ReadCount(b, off, n), n - ReadCount(b, off, n)))
  }

  /** Every file read needed for the first `max` bytes succeeds. */
  predicate Readable(bufs: seq<Buf>, max: nat) {
    bufs == [] ||
    (var front, last := bufs[..|bufs| - 1], bufs[|bufs| - 1];
     && Readable(front, max)
     && (last.File? && |ChainBytes(front)| < max ==> Delivers(last, 0, Min(|last.bytes|, max - |ChainBytes(front)|))))
  }

  /** `ngx_memcpy(p + total, w + from, n)` */
  method CopyTo(p: array<Byte>, total: nat, w: Word, from: nat, n: nat)
    requires from + n <= |w| && total + n <= p.Length
    modifies p
    ensures p[..total] == old(p[..total])
    ensures p[total..total + n] == w[from..from + n]
  {
    for k := 0 to n
      invariant p[..total] == old(p[..total])
      invariant p[total..total + k] == w[from..from + k]
    {
      p[total + k] := w[from + k];
      assert p[total..total + k + 1] == p[total..total + k] + [w[from + k]];
    }
  }

  /** Copies the next `rn` bytes of a file after the `done` that are already there. */
  method Append(p: array<Byte>, total: nat, w: Word, done: nat, rn: nat)
    requires done + rn <= |w| && total + done + rn <= p.Length
    requires p[total..total + done] == w[..done]
    modifies p
    ensures p[..total] == old(p[..total])
    ensures p[total..total + done + rn] == w[..done + rn]
  {
    ghost var soFar := p[..total + done];
    CopyTo(p, total + done, w, done, rn);
    assert p[..total] == soFar[..total] && p[total..total + done] == soFar[total..];
    assert p[total..total + done + rn] == p[total..total + done] + p[total + done..total + done + rn];
  }

  /** Reads a file buffer's first `len` bytes to `p[total..]`, looping over short reads. */
  method ReadFully(p: array<Byte>, total: nat, b: Buf, len: nat) returns (ok: bool)
    requires b.File? && len <= |b.bytes| && total + len <= p.Length
    modifies p
    ensures p[..total] == old(p[..total])
    ensures ok <==> Delivers(b, 0, len)
    ensures ok ==> p[total..total + len] == b.bytes[..len]
  {
    var done := 0;
    while done < len
      invariant done <= len
      invariant p[..total] == old(p[..total])
      invariant p[total..total + done] == b.bytes[..done]
      invariant Delivers(b, 0, len) <==> Delivers(b, done, len - done)
    {
      var rn := ReadCount(b, done, len - done);
      if rn == 0 {
        return false;
      }
      Append(p, total, b.bytes, done, rn);
      done := done + rn;
    }
    ok := true;
  }

  lemma {:induction false} ChainGrows(bufs: seq<Buf>, i: nat)
    requires i <= |bufs|
    ensures ChainBytes(bufs[..i]) <= ChainBytes(bufs)
    decreases |bufs| - i
  {
    if i < |bufs| {
      ChainGrows(bufs, i + 1);
      assert bufs[..i + 1][..i] == bufs[..i];
    } else {
      assert bufs[..i] == bufs;
    }
  }

  lemma ChainStart(bufs: seq<Buf>, max: nat)
    ensures ChainBytes(bufs[..0]) == [] && Readable(bufs[..0], max)
  {
  }

  /** One more buffer of the chain. */
  lemma ChainStep(bufs: seq<Buf>, i: nat, max: nat)
    requires i < |bufs| && |ChainBytes(bufs[..i])| < max
    ensures var all, b := ChainBytes(bufs[..i]), bufs[i];
            var len := Min(|BufBytes(b)|, max - |all|);
            && Take(ChainBytes(bufs[..i + 1]), max) == all + BufBytes(b)[..len]
            && (Readable(bufs[..i + 1], max) <==> Readable(bufs[..i], max) && (b.File? ==> Delivers(b, 0, len)))
  {
    assert bufs[..i + 1][..i] == bufs[..i];
  }

  lemma {:induction false} ReadablePrefix(bufs: seq<Buf>, i: nat, max: nat)
    requires i <= |bufs|
    ensures Readable(bufs, max) ==> Readable(bufs[..i], max)
    ensures max <= |ChainBytes(bufs[..i])| ==> (Readable(bufs, max) <==> Readable(bufs[..i], max))
    decreases |bufs| - i
  {
    if i < |bufs| {
      ReadablePrefix(bufs, i + 1, max);
      assert bufs[..i + 1][..i] == bufs[..i];
    } else {
      assert bufs[..i] == bufs;
    }
  }

  /** Appends one buffer of the chain, up to the room that is left. */
  method CollectBuf(p: array<Byte>, total: nat, b: Buf) returns (ok: bool, total': nat)
    requires total < p.Length
    modifies p
    ensures var len := Min(|BufBytes(b)|, p.Length - total);
            && (ok <==> (b.File? ==> Delivers(b, 0, len)))
            && (ok ==> total' == total + len && p[..total'] == old(p[..total]) + BufBytes(b)[..len])
  {
    var len: nat := Min(|BufBytes(b)|, p.Length - total);
    ok := true;
    if b.Memory? {
      CopyTo(p, total, b.bytes, 0, len);
    } else if b.File? {
      ok := ReadFully(p, total, b, len);
    }
    total' := total + len;
    assert p[..total'] == p[..total] + p[total..total'];
  }

  /** The first bytes of the body, however the chain splits them and however its reads
      fall short; it fails exactly when memory or a needed read does. */
  method CollectBody(bufs: Option<seq<Buf>>, cap: nat, contentLength: int, memory: bool) returns (r: Collected)
    ensures r.Body? ==> r.bytes == if bufs.None? then [] else Take(ChainBytes(bufs.value), Limit(cap, contentLength))
    ensures r.Unread? <==> bufs.Some? && cap > 0 && (!memory || !Readable(bufs.value, Limit(cap, contentLength)))
  {
    hide ChainBytes, Readable, Delivers;
    if bufs.None? || cap == 0 {
      return Body([]);
    }
    var max: nat := cap;
    if contentLength > 0 && max > contentLength {
      max := contentLength;
    }
    if !memory {
      return Unread;
    }
    var p := new Byte[max];
    var total: nat := 0;
    var i := 0;
    ChainStart(bufs.value, max);
    while i < |bufs.value| && total < max
      invariant i <= |bufs.value| && total <= max
      invariant p[..total] == Take(ChainBytes(bufs.value[..i]), max)
      invariant Readable(bufs.value[..i], max)
    {
      assert |ChainBytes(bufs.value[..i])| < max && ChainBytes(bufs.value[..i]) == p[..total];
      ChainStep(bufs.value, i, max);
      ReadablePrefix(bufs.value, i + 1, max);
      var ok;
      ok, total := CollectBuf(p, total, bufs.value[i]);
      if !ok {
        return Unread;
      }
      i := i + 1;
    }
    ChainGrows(bufs.value, i);
    ReadablePrefix(bufs.value, i, max);
    assert bufs.value[..|bufs.value|] == bufs.value;
    r := Body(p[..total]);
  }

  /** A hit in the body names an enabled category whose row lets it be scanned for there. */
  ghost predicate BodyHit(t: Tables, skip: Mask, hit: Hit) {
    && hit.source == "body" && hit.cat !in skip
    && (exists r :: 0 <= r < |t.categories| && t.categories[r].cat == hit.cat && t.categories[r].name == hit.category)
    && forall r :: 0 <= r < |t.categories| && t.categories[r].cat == hit.cat ==> Flag.NoBody !in t.categories[r].flags
  }

  lemma ReportIsBodyHit(t: Tables, skip: Mask, unescape: Word -> Word, body: Word, hit: Hit)
    requires Reports(t, skip + Carriers(t, NoBody), unescape, body, "body", Some(hit))
    ensures BodyHit(t, skip, hit)
  {
    hide Reports, Folding.Justifies, Lower, DecodedCopy;
    Folding.HitNamesItsRow(t, skip + Carriers(t, NoBody), unescape, body, "body", hit);
    assert !Carries(t, NoBody, hit.cat);
  }

  /** The body verdict depends on the body's leading bytes alone, and a body that could
      not be read is never reported clean. */
  method InspectBody(t: Tables, raw: Automaton, decoded: Automaton, unescape: Word -> Word, bufs: Option<seq<Buf>>,
                     cap: nat, contentLength: int, skip: Mask, memory: bool, memory2: bool)
    returns (rc: Outcome)
    requires raw.Built(t, Flag.Raw) && decoded.Built(t, Flag.Decoded)
    requires forall w :: |unescape(w)| <= |w|
    ensures var body := if bufs.None? then [] else Take(ChainBytes(bufs.value), Limit(cap, contentLength));
            var mask := skip + Carriers(t, NoBody);
            && (rc.Found? ==> Reports(t, mask, unescape, body, "body", Some(rc.hit)))
            && (rc.Found? ==> InputMatches(t, mask, unescape, body))
            && (rc.Clean? ==> !InputMatches(t, mask, unescape, body))
    ensures rc.Found? ==> BodyHit(t, skip, rc.hit)
    ensures rc.Failed? ==> !memory || !memory2 || (bufs.Some? && !Readable(bufs.value, Limit(cap, contentLength)))
    ensures bufs.Some? && cap > 0 && (!memory || !Readable(bufs.value, Limit(cap, contentLength))) ==> rc.Failed?
  {
    var mask := PositionMask(t, NoBody);
    var r := CollectBody(bufs, cap, contentLength, memory);
    if r.Unread? {
      return Failed;
    }
    hide InputMatches, Reports, Carriers, ChainBytes, Readable;
    if r.bytes == [] {
      EmptyInputNeverMatches(t, skip + mask, unescape);
      return Clean;
    }
    rc := ScanR(t, raw, decoded, unescape, r.bytes, "body", skip + mask, memory2);
    if rc.Found? {
      ReportIsBodyHit(t, skip, unescape, r.bytes, rc.hit);
    }
  }
}
