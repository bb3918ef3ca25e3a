/**
Pattern substitution and trimming in parameter expansion: `${v/p/r}`, `${v//p/r}`,
`${v%p}`, `${v%%p}`, `${v#p}` and `${v##p}`.
*/
module ParameterExpansion {
  import opened Glob

  /** The longest match of `pat` in `s` at `at` among those ending at or before `end`; -1 if none. */
  ghost function LongestUpTo(pat: string, s: string, at: nat, end: nat): (len: int)
    requires at <= end <= |s|
    ensures -1 <= len <= end - at
    ensures len >= 0 ==> Accepts(pat, s[at..at + len])
    ensures forall e {:trigger Accepts(pat, s[at..e])} :: at + len < e <= end && at <= e ==> !Accepts(pat, s[at..e])
    decreases end
  {
    if Accepts(pat, s[at..end]) then end - at
    else if end == at then -1
    else LongestUpTo(pat, s, at, end - 1)
  }

  ghost function LongestAt(pat: string, s: string, at: nat): (len: int)
    requires at <= |s|
    ensures Longest(pat, s, at, len)
  {
    LongestUpTo(pat, s, at, |s|)
  }

  lemma LongestIsUnique(pat: string, s: string, at: nat, m: int, n: int)
    requires at <= |s| && Longest(pat, s, at, m) && Longest(pat, s, at, n)
    ensures m == n
  {
  }

  /** A non-empty pattern that accepts the empty string is all stars and accepts everything. */
  lemma {:induction false} AcceptsEmptyAcceptsAll(pat: string, t: string)
    requires pat != "" && Accepts(pat, "")
    ensures Accepts(pat, t)
    decreases |pat|
  {
    var k :| 0 <= k <= |""| && Accepts(pat[1..], ""[k..]);
    assert ""[k..] == "";
    if pat[1..] == "" {
      assert t[|t|..] == "";
    } else {
      AcceptsEmptyAcceptsAll(pat[1..], t);
      assert t[0..] == t;
    }
  }

  /** Before the end of the value, a match of a non-empty pattern consumes at least one character. */
  lemma MatchConsumes(pat: string, s: string, at: nat)
    requires pat != "" && at < |s|
    ensures LongestAt(pat, s, at) != 0
  {
    if LongestAt(pat, s, at) == 0 {
      assert s[at..at] == "";
      AcceptsEmptyAcceptsAll(pat, s[at..|s|]);
      assert false;
    }
  }

  // ---------------------------------------------------------------- substitution

  /**
  Match lengths at every position of a value: -1 where no match starts, otherwise the
  number of characters, at least one, that a match there takes.
  */
  ghost predicate LensOf(lens: seq<int>, s: string) {
    |lens| == |s| && forall i :: 0 <= i < |s| ==> lens[i] == -1 || 0 < lens[i] <= |s| - i
  }

  ghost predicate LongestIn(pat: string, s: string, i: nat, lens: seq<int>)
    requires |lens| == |s|
  {
    i < |s| && Longest(pat, s, i, lens[i])
  }

  /** The lengths of the longest matches of a non-empty pattern. */
  ghost function MatchLens(pat: string, s: string): (lens: seq<int>)
    requires pat != ""
    ensures LensOf(lens, s)
    ensures forall i :: 0 <= i < |s| ==> LongestIn(pat, s, i, lens)
  {
    var lens := seq(|s|, i requires 0 <= i < |s| => LongestAt(pat, s, i));
    assert forall i :: 0 <= i < |s| ==> lens[i] != 0 by {
      forall i | 0 <= i < |s| ensures lens[i] != 0 { MatchConsumes(pat, s, i); }
    }
    lens
  }

  /** The leftmost position from `i` on where a match starts; |lens| if there is none. */
  ghost function Leftmost(lens: seq<int>, i: nat): (j: nat)
    requires i <= |lens|
    ensures i <= j <= |lens|
    ensures j < |lens| ==> lens[j] >= 0
    ensures forall k :: i <= k < j ==> lens[k] < 0
    decreases |lens| - i
  {
    if i == |lens| || lens[i] >= 0 then i else Leftmost(lens, i + 1)
  }

  /** Replacement, scanning from `i`: of every match met, or of the first one only. */
  ghost function Replaced(lens: seq<int>, s: string, i: nat, repl: string, global: bool): (r: string)
    requires LensOf(lens, s) && i <= |s|
    decreases |s| - i
  {
    if i == |s| then ""
    else if lens[i] < 0 then [s[i]] + Replaced(lens, s, i + 1, repl, global)
    else if global then repl + Replaced(lens, s, i + lens[i], repl, global)
    else repl + s[i + lens[i]..]
  }

  /** In general the text before the leftmost match stays, and that match is the first one replaced. */
  lemma {:induction false} ReplacedLeftmost(lens: seq<int>, s: string, i: nat, repl: string, global: bool)
    requires LensOf(lens, s) && i <= |s|
    ensures Replaced(lens, s, i, repl, global)
         == s[i..Leftmost(lens, i)] + Replaced(lens, s, Leftmost(lens, i), repl, global)
    decreases |s| - i
  {
    var j := Leftmost(lens, i);
    if i < j {
      ReplacedLeftmost(lens, s, i + 1, repl, global);
      assert s[i..j] == [s[i]] + s[i + 1..j];
      Regroup([s[i]], s[i + 1..j], Replaced(lens, s, j, repl, global));
    } else {
      assert s[i..j] == "";
    }
  }

  // ---------------------------------------------------------------- the result as a whole

  /** A stretch of the value that is replaced. */
  datatype Cut = Cut(at: nat, len: nat)

  /** Nothing that `pat` accepts starts at `k`. */
  ghost predicate NoneAt(pat: string, s: string, k: nat)
    requires k <= |s|
  {
    forall e :: k <= e <= |s| ==> !Accepts(pat, s[k..e])
  }

  /** The cuts from `i` on are the matches met from left to right, each as long as can be; or the first one only. */
  ghost predicate AreCuts(pat: string, s: string, i: nat, cuts: seq<Cut>, global: bool)
    requires i <= |s|
    decreases |cuts|
  {
    var end := if cuts == [] then |s| else cuts[0].at;
    i <= end <= |s| && (forall k :: i <= k < end ==> NoneAt(pat, s, k))
    && (cuts != [] ==>
      var next := end + cuts[0].len;
      cuts[0].len > 0 && next <= |s| && Accepts(pat, s[end..next])
      && (forall e {:trigger Accepts(pat, s[end..e])} :: next < e <= |s| ==> !Accepts(pat, s[end..e]))
      && if global then AreCuts(pat, s, next, cuts[1..], true) else |cuts| == 1)
  }

  /** The value from `i` on with every cut replaced. */
  function Rebuilt(s: string, i: nat, cuts: seq<Cut>, repl: string): (r: string)
    decreases |cuts|
  {
    if cuts == [] then if i <= |s| then s[i..] else ""
    else
      var c := cuts[0];
      (if i <= c.at <= |s| then s[i..c.at] else "") + (repl + Rebuilt(s, c.at + c.len, cuts[1..], repl))
  }

  lemma NoMatchLen(pat: string, s: string, k: nat, lens: seq<int>)
    requires |lens| == |s| && LongestIn(pat, s, k, lens) && lens[k] < 0
    ensures NoneAt(pat, s, k)
  {
  }

  /**
  The whole result: the matches of the pattern, from left to right, as long as can be and without
  overlap, are replaced, all of them or the first one, and everything between them stays.
  */
  lemma {:induction false} ReplacesCuts(pat: string, lens: seq<int>, s: string, i: nat, repl: string, global: bool)
      returns (cuts: seq<Cut>)
    requires LensOf(lens, s) && i <= |s| && forall k :: 0 <= k < |s| ==> LongestIn(pat, s, k, lens)
    ensures AreCuts(pat, s, i, cuts, global) && Replaced(lens, s, i, repl, global) == Rebuilt(s, i, cuts, repl)
    decreases |s| - i
  {
    var at := Leftmost(lens, i);
    ReplacedLeftmost(lens, s, i, repl, global);
    forall k | i <= k < at ensures NoneAt(pat, s, k) { NoMatchLen(pat, s, k, lens); }
    if at == |s| {
      cuts := [];
      assert s[i..at] + "" == s[i..];
    } else {
      var next := at + lens[at];
      var first := Cut(at, lens[at]);
      assert LongestIn(pat, s, at, lens);
      if global {
        var rest := ReplacesCuts(pat, lens, s, next, repl, true);
        cuts := [first] + rest;
        assert cuts[1..] == rest;
      } else {
        cuts := [first];
        assert cuts[1..] == [];
      }
    }
  }

  /** `${v/p/r}` and `${v//p/r}` with a pattern that is not empty, told by the matches that are cut out. */
  lemma SubstitutionCuts(pat: string, val: string, repl: string, global: bool) returns (cuts: seq<Cut>)
    requires pat != ""
    ensures AreCuts(pat, val, 0, cuts, global)
    ensures Replaced(MatchLens(pat, val), val, 0, repl, global) == Rebuilt(val, 0, cuts, repl)
  {
    cuts := ReplacesCuts(pat, MatchLens(pat, val), val, 0, repl, global);
  }

  lemma EmptyPatternMatchesNothing(s: string, at: nat, len: int)
    requires at <= |s| && Longest("", s, at, len)
    ensures len == 0
  {
    assert Accepts("", s[at..at]);
  }

  /**
  `apply_pattern_subst`. With an empty pattern and `global` the source loop never ends
  (`GlobalLoopEndsIff`), so that case is shut out; otherwise it matches at the front.
  */
  method ApplyPatternSubst(val: string, pat: string, repl: string, global: bool) returns (out: string)
    requires global ==> pat != ""
    ensures pat == "" ==> out == repl + val
    ensures pat != "" ==> out == Replaced(MatchLens(pat, val), val, 0, repl, global)
  {
    if pat == "" {
      // The first round matches the empty string at 0, then the value is copied.
      var len := GlobMatchPrefix(pat, val, 0);
      EmptyPatternMatchesNothing(val, 0, len);
      var tail := CopyRest(val, len);
      return repl + tail;
    }
    out := SubstituteNonEmpty(val, pat, repl, global, MatchLens(pat, val));
  }

  /** The loop of `apply_pattern_subst` for a non-empty pattern. */
  method SubstituteNonEmpty(
      val: string, pat: string, repl: string, global: bool, ghost lens: seq<int>) returns (out: string)
    requires pat != "" && LensOf(lens, val)
    requires forall i :: 0 <= i < |val| ==> LongestIn(pat, val, i, lens)
    ensures out == Replaced(lens, val, 0, repl, global)
  {
    ghost var total := Replaced(lens, val, 0, repl, global);
    ghost var rest := total;
    out := "";
    var i := 0;
    while i <= |val|
      invariant 0 <= i <= |val| + 1
      invariant out + rest == total
      invariant rest == if i <= |val| then Replaced(lens, val, i, repl, global) else ""
      decreases |val| + 1 - i
    {
      var matchLen := -1;
      if i < |val| {
        matchLen := MatchAt(val, pat, i, lens);
      }
      if matchLen >= 0 {
        if !global {
          var tail := CopyRest(val, i + matchLen);
          Regroup(out, repl, tail);
          return out + repl + tail;
        }
        rest := Replaced(lens, val, i + matchLen, repl, global);
        Regroup(out, repl, rest);
        out := out + repl;
        i := i + matchLen;
      } else {
        if i < |val| {
          rest := Replaced(lens, val, i + 1, repl, global);
          Regroup(out, [val[i]], rest);
          out := out + [val[i]];
        }
        i := i + 1;
      }
    }
  }

  // ---------------------------------------------------------------- when the loop ends

  /** The index after a round of the loop of `${v//p/r}` at index `i`. */
  ghost function NextIndex(pat: string, val: string, i: nat): (j: nat)
    requires i <= |val|
  {
    var len := if i < |val| || pat == "" then LongestAt(pat, val, i) else -1;
    if len < 0 then i + 1 else if len == 0 && i < |val| then i + 1 else i + len
  }

  /** The index after `n` rounds; the loop stands still once it is past the end. */
  ghost function IndexAfter(pat: string, val: string, n: nat): (i: nat) {
    if n == 0 then 0
    else
      var i := IndexAfter(pat, val, n - 1);
      if i > |val| then i else NextIndex(pat, val, i)
  }

  lemma {:induction false} IndexMoves(pat: string, val: string, n: nat)
    requires pat != "" && n <= |val| + 1
    ensures IndexAfter(pat, val, n) >= n
    decreases n
  {
    if n > 0 {
      IndexMoves(pat, val, n - 1);
      var i := IndexAfter(pat, val, n - 1);
      if i < |val| { MatchConsumes(pat, val, i); }
    }
  }

  lemma {:induction false} IndexStays(val: string, n: nat)
    ensures IndexAfter("", val, n) <= |val|
    decreases n
  {
    if n > 0 {
      IndexStays(val, n - 1);
      var i := IndexAfter("", val, n - 1);
      EmptyPatternMatchesNothing(val, i, LongestAt("", val, i));
    }
  }

  /** The loop of `${v//p/r}` gets past the end of the value, and so ends, exactly for a non-empty pattern. */
  lemma GlobalLoopEndsIff(pat: string, val: string)
    ensures (exists n: nat :: IndexAfter(pat, val, n) > |val|) <==> pat != ""
  {
    if pat != "" {
      IndexMoves(pat, val, |val| + 1);
    } else if n: nat :| IndexAfter(pat, val, n) > |val| {
      IndexStays(val, n);
    }
  }

  lemma Regroup(a: string, b: string, c: string)
    ensures a + (b + c) == (a + b) + c
  {
  }

  method MatchAt(val: string, pat: string, i: nat, ghost lens: seq<int>) returns (len: int)
    requires |lens| == |val| && LongestIn(pat, val, i, lens)
    ensures len == lens[i]
  {
    len := GlobMatchPrefix(pat, val, i);
    LongestIsUnique(pat, val, i, len, lens[i]);
  }

  /** The verbatim copy of what follows the first match. */
  method CopyRest(val: string, from: nat) returns (out: string)
    requires from <= |val|
    ensures out == val[from..]
  {
    out := "";
    var i := from;
    while i < |val|
      invariant from <= i <= |val|
      invariant out == val[from..i]
    {
      out := out + [val[i]];
      i := i + 1;
    }
  }

  // ---------------------------------------------------------------- trimming

  /** Keeping val[..k] removes a suffix that `pat` accepts, the longest such one or the shortest. */
  ghost predicate SuffixCut(val: string, pat: string, longest: bool, k: nat) {
    k <= |val| && Accepts(pat, val[k..]) &&
    forall j {:trigger Accepts(pat, val[j..])} :: 0 <= j <= |val| && (if longest then j < k else k < j) ==>
      !Accepts(pat, val[j..])
  }

  ghost predicate PrefixCut(val: string, pat: string, longest: bool, k: nat) {
    k <= |val| && Accepts(pat, val[..k]) &&
    forall j {:trigger Accepts(pat, val[..j])} :: 0 <= j <= |val| && (if longest then k < j else j < k) ==>
      !Accepts(pat, val[..j])
  }

  /** `${v%p}` and `${v%%p}` (`apply_suffix_trim`). */
  method ApplySuffixTrim(val: string, pat: string, longest: bool) returns (out: string)
    ensures (exists k: nat :: SuffixCut(val, pat, longest, k) && out == val[..k])
         || ((forall j :: 0 <= j <= |val| ==> !Accepts(pat, val[j..])) && out == val)
  {
    if longest {
      var k := 0;
      while k <= |val|
        invariant k <= |val| + 1
        invariant forall j :: 0 <= j < k ==> !Accepts(pat, val[j..])
      {
        var hit := GlobMatchFull(pat, val[k..]);
        if hit { assert SuffixCut(val, pat, longest, k); return val[..k]; }
        k := k + 1;
      }
    } else {
      var k := |val|;
      while true
        invariant 0 <= k <= |val|
        invariant forall j :: k < j <= |val| ==> !Accepts(pat, val[j..])
        decreases k
      {
        var hit := GlobMatchFull(pat, val[k..]);
        if hit { assert SuffixCut(val, pat, longest, k); return val[..k]; }
        if k == 0 { break; }
        k := k - 1;
      }
    }
    return val;
  }

  /** `${v#p}` and `${v##p}` (`apply_prefix_trim`). */
  method ApplyPrefixTrim(val: string, pat: string, longest: bool) returns (out: string)
    ensures (exists k: nat :: PrefixCut(val, pat, longest, k) && out == val[k..])
         || ((forall j :: 0 <= j <= |val| ==> !Accepts(pat, val[..j])) && out == val)
  {
    if longest {
      var k := |val|;
      while true
        invariant 0 <= k <= |val|
        invariant forall j :: k < j <= |val| ==> !Accepts(pat, val[..j])
        decreases k
      {
        var hit := GlobMatchFull(pat, val[..k]);
        if hit { assert PrefixCut(val, pat, longest, k); return val[k..]; }
        if k == 0 { break; }
        k := k - 1;
      }
    } else {
      var k := 0;
      while k <= |val|
        invariant k <= |val| + 1
        invariant forall j :: 0 <= j < k ==> !Accepts(pat, val[..j])
      {
        var hit := GlobMatchFull(pat, val[..k]);
        if hit { assert PrefixCut(val, pat, longest, k); return val[k..]; }
        k := k + 1;
      }
    }
    return val;
  }
}
