/** Lexical path normalisation: a stack machine over the segments of a path (POSIX paths). */
module PathNorm {
  import opened Text

  const MAX_SEGMENTS: nat := 64

  /** What a buffer of `MAX_PATH` holds of a path. */
  function Cut(s: string): (r: string)
    ensures r <= s && |r| == if |s| <= 1023 then |s| else 1023
  {
    if |s| < MAX_PATH then s else s[..MAX_PATH - 1]
  }

  /** `normalize_separators` */
  function WithSlashes(s: string): (r: string)
    ensures |r| == |s| && forall k :: 0 <= k < |s| ==> r[k] == if s[k] == '\\' then '/' else s[k]
  {
    seq(|s|, k requires 0 <= k < |s| => if s[k] == '\\' then '/' else s[k])
  }

  /** A name too long for its buffer is cut. */
  function Clip(t: string): string { if |t| < MAX_NAME then t else t[..MAX_NAME - 1] }

  /** The texts between separators. */
  function Split(s: string): (r: seq<string>)
    ensures r != []
  {
    if s == "" then [""]
    else
      var rest := Split(s[1..]);
      if s[0] == '/' then [""] + rest else [[s[0]] + rest[0]] + rest[1..]
  }

  /** One segment: None when there are too many. */
  function Push(stack: seq<string>, t: string): Option<seq<string>> {
    if |stack| >= MAX_SEGMENTS then None else Some(stack + [Clip(t)])
  }

  function Segment(absolute: bool, stack: seq<string>, t: string): Option<seq<string>> {
    if t == "" || t == "." then Some(stack)
    else if t == ".." then
      if stack != [] && stack[|stack| - 1] != ".." then Some(stack[..|stack| - 1])
      else if absolute then Some(stack) else Push(stack, "..")
    else Push(stack, t)
  }

  function Segments(absolute: bool, stack: seq<string>, tokens: seq<string>): Option<seq<string>>
    decreases |tokens|
  {
    if tokens == [] then Some(stack)
    else
      match Segment(absolute, stack, tokens[0])
      case None => None
      case Some(stack') => Segments(absolute, stack', tokens[1..])
  }

  function Joined(stack: seq<string>): string {
    if stack == [] then "" else if |stack| == 1 then stack[0] else stack[0] + ("/" + Joined(stack[1..]))
  }

  function Print(absolute: bool, stack: seq<string>): string {
    if absolute then "/" + Joined(stack) else if stack == [] then "." else Joined(stack)
  }

  predicate IsAbsolute(s: string) { s != "" && s[0] == '/' }

  /** The segments of a path with slashes only, after the leading slash. */
  function Tokens(s: string): seq<string> { Split(if IsAbsolute(s) then s[1..] else s) }

  /** `normalize_path`: None when there are too many segments. */
  function Normalise(input: string): Option<string> {
    var s := WithSlashes(input);
    match Segments(IsAbsolute(s), [], Tokens(s))
    case None => None
    case Some(stack) => Some(Print(IsAbsolute(s), stack))
  }

  /** `arksh_platform_resolve_path` */
  function Resolve(cwd: string, input: string): Option<string> {
    if input == "" then Some(cwd)
    else if IsAbsolute(input) then Normalise(input)
    else if input == "." then Some(cwd)
    else Normalise(cwd + "/" + input)
  }

  /** The same with the buffers of the source, for an output buffer of `MAX_PATH`. */
  function ResolveCut(cwd: string, input: string): Option<string> {
    if input == "" then Some(Cut(cwd))
    else if IsAbsolute(input) then Normalise(Cut(input))
    else if input == "." then Some(Cut(cwd))
    else Normalise(Cut(cwd + "/" + input))
  }

  // ---------------------------------------------------------------- the shape of the result

  /** An ordinary name: not empty, no dot segment, no separator, not too long. */
  predicate IsName(t: string) {
    0 < |t| < MAX_NAME && t != "." && t != ".." && '/' !in t && '\\' !in t
  }

  /** `..` only as a leading run of a relative path, then names. */
  predicate Normal(absolute: bool, stack: seq<string>) {
    |stack| <= MAX_SEGMENTS
    && (forall k :: 0 <= k < |stack| ==> IsName(stack[k]) || (stack[k] == ".." && !absolute))
    && (forall j, k :: 0 <= j < k < |stack| && stack[k] == ".." ==> stack[j] == "..")
  }

  predicate Clean(t: string) { '/' !in t && '\\' !in t }

  lemma {:induction false} SplitIsClean(s: string)
    requires '\\' !in s
    ensures forall t :: t in Split(s) ==> Clean(t)
  {
    if s != "" {
      SplitIsClean(s[1..]);
      assert Split(s[1..])[0] in Split(s[1..]);
    }
  }

  lemma SegmentKeepsNormal(absolute: bool, stack: seq<string>, t: string)
    requires Normal(absolute, stack) && Clean(t)
    ensures var r := Segment(absolute, stack, t); r.Some? ==> Normal(absolute, r.value)
  {
    if t != "" && t != "." && t != ".." {
      assert IsName(Clip(t)) by {
        if |t| >= MAX_NAME { assert forall c :: c in Clip(t) ==> c in t; }
      }
    }
    assert stack != [] ==> IsName(stack[|stack| - 1]) || stack[|stack| - 1] == "..";
    var r := Segment(absolute, stack, t);
    if r.Some? {
      assert forall k :: 0 <= k < |stack| && k < |r.value| ==> r.value[k] == stack[k];
    }
  }

  lemma {:induction false} SegmentsKeepNormal(absolute: bool, stack: seq<string>, tokens: seq<string>)
    requires Normal(absolute, stack) && forall t :: t in tokens ==> Clean(t)
    ensures var r := Segments(absolute, stack, tokens); r.Some? ==> Normal(absolute, r.value)
    decreases |tokens|
  {
    if tokens != [] {
      SegmentKeepsNormal(absolute, stack, tokens[0]);
      var r := Segment(absolute, stack, tokens[0]);
      if r.Some? { SegmentsKeepNormal(absolute, r.value, tokens[1..]); }
    }
  }

  /** A path as `normalize_path` leaves it, with its segments. */
  ghost predicate IsNormalised(path: string, absolute: bool, stack: seq<string>) {
    Normal(absolute, stack) && path == Print(absolute, stack)
  }

  lemma NormaliseIsNormal(input: string) returns (stack: seq<string>)
    requires Normalise(input).Some?
    ensures IsNormalised(Normalise(input).value, IsAbsolute(WithSlashes(input)), stack)
    ensures Segments(IsAbsolute(WithSlashes(input)), [], Tokens(WithSlashes(input))) == Some(stack)
  {
    var s := WithSlashes(input);
    SplitIsClean(if IsAbsolute(s) then s[1..] else s);
    stack := Segments(IsAbsolute(s), [], Tokens(s)).value;
    SegmentsKeepNormal(IsAbsolute(s), [], Tokens(s));
  }

  // ---------------------------------------------------------------- reading a normalised path back

  lemma {:induction false} SplitClean(t: string)
    requires '/' !in t
    ensures Split(t) == [t]
  {
    if t != "" {
      SplitClean(t[1..]);
      assert t[0] in t && [t[0]] + t[1..] == t;
    }
  }

  lemma {:induction false} SplitAppend(a: string, b: string)
    ensures Split(a + "/" + b) == Split(a) + Split(b)
  {
    var s := a + "/" + b;
    if a == "" {
      assert s[1..] == b;
    } else {
      assert s[1..] == a[1..] + "/" + b && s[0] == a[0];
      SplitAppend(a[1..], b);
    }
  }

  lemma {:induction false} SplitJoined(stack: seq<string>)
    requires stack != [] && forall k :: 0 <= k < |stack| ==> '/' !in stack[k]
    ensures Split(Joined(stack)) == stack
  {
    if |stack| == 1 {
      SplitClean(stack[0]);
    } else {
      SplitClean(stack[0]);
      SplitJoined(stack[1..]);
      SplitAppend(stack[0], Joined(stack[1..]));
      Assoc(stack[0], "/", Joined(stack[1..]));
    }
  }

  /** Pushing the segments of a normal stack rebuilds it. */
  lemma {:induction false} Rebuild(absolute: bool, stack: seq<string>, n: nat)
    requires Normal(absolute, stack) && n <= |stack|
    ensures Segments(absolute, stack[..n], stack[n..]) == Some(stack)
    decreases |stack| - n
  {
    if n < |stack| {
      assert stack[..n + 1] == stack[..n] + [stack[n]] && stack[n..][1..] == stack[n + 1..];
      assert n > 0 ==> stack[..n][|stack[..n]| - 1] == stack[n - 1];
      assert Segment(absolute, stack[..n], stack[n]) == Some(stack[..n + 1]);
      Rebuild(absolute, stack, n + 1);
    } else {
      assert stack[..n] == stack && stack[n..] == [];
    }
  }

  lemma {:induction false} SegmentsAppend(absolute: bool, stack: seq<string>, a: seq<string>, b: seq<string>)
    ensures Segments(absolute, stack, a + b) ==
            (match Segments(absolute, stack, a) case None => None case Some(stack') => Segments(absolute, stack', b))
    decreases |a|
  {
    if a == [] {
      assert a + b == b;
    } else {
      assert (a + b)[0] == a[0] && (a + b)[1..] == a[1..] + b;
      match Segment(absolute, stack, a[0])
      case None =>
      case Some(stack') => SegmentsAppend(absolute, stack', a[1..], b);
    }
  }

  // ---------------------------------------------------------------- idempotence

  lemma PrintIsClean(absolute: bool, stack: seq<string>)
    requires Normal(absolute, stack)
    ensures '\\' !in Print(absolute, stack) && WithSlashes(Print(absolute, stack)) == Print(absolute, stack)
    ensures IsAbsolute(Print(absolute, stack)) == absolute
  {
    assert forall k :: 0 <= k < |stack| ==> '\\' !in stack[k];
    JoinedIsClean(stack);
    if stack != [] {
      assert IsName(stack[0]) || stack[0] == "..";
      assert stack[0][0] in stack[0];
      assert Joined(stack)[0] == stack[0][0];
    }
  }

  lemma {:induction false} JoinedIsClean(stack: seq<string>)
    requires forall k :: 0 <= k < |stack| ==> '\\' !in stack[k]
    ensures '\\' !in Joined(stack)
  {
    if |stack| > 1 { JoinedIsClean(stack[1..]); }
  }

  /** The machine reads the segments of a normalised path back as they are. */
  lemma ReadsBack(absolute: bool, stack: seq<string>)
    requires Normal(absolute, stack)
    ensures Segments(absolute, [], Tokens(Print(absolute, stack))) == Some(stack)
  {
    var p := Print(absolute, stack);
    PrintIsClean(absolute, stack);
    if stack == [] {
      assert absolute ==> p[1..] == "";
      SplitClean(".");
      assert Tokens(p) == [if absolute then "" else "."];
      assert Segments(absolute, [], Tokens(p)[1..]) == Some([]);
    } else {
      assert forall k :: 0 <= k < |stack| ==> '/' !in stack[k];
      SplitJoined(stack);
      assert absolute ==> p[1..] == Joined(stack);
      assert Tokens(p) == stack;
      Rebuild(absolute, stack, 0);
      assert stack[..0] == [] && stack[0..] == stack;
    }
  }

  /** Normalising twice is normalising once. */
  lemma NormaliseIsIdempotent(input: string)
    requires Normalise(input).Some?
    ensures Normalise(Normalise(input).value) == Normalise(input)
  {
    var stack := NormaliseIsNormal(input);
    var absolute := IsAbsolute(WithSlashes(input));
    PrintIsClean(absolute, stack);
    ReadsBack(absolute, stack);
  }

  // ---------------------------------------------------------------- composition

  lemma WithSlashesAppend(a: string, b: string)
    ensures WithSlashes(a + "/" + b) == WithSlashes(a) + "/" + WithSlashes(b)
  {
  }

  lemma TokensUnder(cwd: string, rest: string)
    requires IsAbsolute(cwd)
    ensures IsAbsolute(cwd + "/" + rest) && Tokens(cwd + "/" + rest) == Tokens(cwd) + Split(rest)
  {
    assert (cwd + "/" + rest)[1..] == cwd[1..] + "/" + rest;
    SplitAppend(cwd[1..], rest);
  }

  /** Resolving a relative path runs the machine on its segments from the segments of the directory. */
  lemma ResolveRelative(cwd: string, stack: seq<string>, input: string)
    requires IsNormalised(cwd, true, stack) && input != "" && !IsAbsolute(input)
    ensures Resolve(cwd, input) ==
            (match Segments(true, stack, Split(WithSlashes(input))) case None => None case Some(stack') =>
              Some(Print(true, stack')))
  {
    PrintIsClean(true, stack);
    ReadsBack(true, stack);
    if input == "." {
      SplitClean(".");
      assert WithSlashes(".") == ".";
      assert Segments(true, stack, ["."][1..]) == Some(stack);
    } else {
      WithSlashesAppend(cwd, input);
      var rest := WithSlashes(input);
      TokensUnder(cwd, rest);
      SegmentsAppend(true, [], Tokens(cwd), Split(rest));
    }
  }

  /** The segments of the resolved path, when there is one. */
  lemma ResolvedIsNormal(stack: seq<string>, input: string)
    requires Normal(true, stack)
    ensures var r := Segments(true, stack, Split(WithSlashes(input))); r.Some? ==> Normal(true, r.value)
  {
    SplitIsClean(WithSlashes(input));
    SegmentsKeepNormal(true, stack, Split(WithSlashes(input)));
  }

  /** Resolving `b` against the resolution of `a` is resolving `a/b`; the one fails exactly when the other does. */
  lemma ResolveComposes(cwd: string, stack: seq<string>, a: string, b: string)
    requires IsNormalised(cwd, true, stack)
    requires a != "" && b != "" && !IsAbsolute(a) && !IsAbsolute(b)
    ensures Resolve(cwd, a + "/" + b) == (match Resolve(cwd, a) case None => None case Some(dir) => Resolve(dir, b))
  {
    var sa, sb := Split(WithSlashes(a)), Split(WithSlashes(b));
    WithSlashesAppend(a, b);
    SplitAppend(WithSlashes(a), WithSlashes(b));
    ResolveRelative(cwd, stack, a + "/" + b);
    ResolveRelative(cwd, stack, a);
    SegmentsAppend(true, stack, sa, sb);
    ResolvedIsNormal(stack, a);
    var mid := Segments(true, stack, sa);
    if mid.Some? { ResolveRelative(Print(true, mid.value), mid.value, b); }
  }

  // ---------------------------------------------------------------- meaning

  /** Where a segment leads from a place in the tree, a place being the names on the way from the root. */
  function Go(place: seq<string>, t: string): seq<string> {
    if t == "" || t == "." then place
    else if t == ".." then (if place == [] then [] else place[..|place| - 1])
    else place + [t]
  }

  function Walk(place: seq<string>, tokens: seq<string>): seq<string>
    decreases |tokens|
  {
    if tokens == [] then place else Walk(Go(place, tokens[0]), tokens[1..])
  }

  /** The place a path leads to: from the root if it is absolute, else from `place`. Only `/` separates. */
  function Destination(place: seq<string>, path: string): seq<string> {
    Walk(if IsAbsolute(path) then [] else place, Tokens(path))
  }

  lemma {:induction false} WalkAppend(place: seq<string>, a: seq<string>, b: seq<string>)
    ensures Walk(place, a + b) == Walk(Walk(place, a), b)
    decreases |a|
  {
    if a == [] {
      assert a + b == b;
    } else {
      assert (a + b)[0] == a[0] && (a + b)[1..] == a[1..] + b;
      WalkAppend(Go(place, a[0]), a[1..], b);
    }
  }

  lemma OneStep(place: seq<string>, t: string)
    ensures Walk(place, [t]) == Go(place, t)
  {
    assert [t][1..] == [];
  }

  lemma WalkLast(place: seq<string>, stack: seq<string>, t: string)
    ensures Walk(place, stack + [t]) == Go(Walk(place, stack), t)
  {
    WalkAppend(place, stack, [t]);
    OneStep(Walk(place, stack), t);
  }

  /** Going down to a name and up again. */
  lemma WalkUp(place: seq<string>, stack: seq<string>)
    requires stack != [] && IsName(stack[|stack| - 1])
    ensures Go(Walk(place, stack), "..") == Walk(place, stack[..|stack| - 1])
  {
    var front, t := stack[..|stack| - 1], stack[|stack| - 1];
    assert stack == front + [t];
    WalkLast(place, front, t);
  }

  // ---------------------------------------------------------------- the stack follows the cut segments

  function ClipAll(tokens: seq<string>): (r: seq<string>)
    ensures |r| == |tokens| && forall k :: 0 <= k < |r| ==> r[k] == Clip(tokens[k])
  {
    seq(|tokens|, k requires 0 <= k < |tokens| => Clip(tokens[k]))
  }

  predicate AllFit(names: seq<string>) { forall k :: 0 <= k < |names| ==> |names[k]| < MAX_NAME }

  lemma ClipAllFits(names: seq<string>)
    ensures ClipAll(names) == names <==> AllFit(names)
  {
    if !AllFit(names) {
      var k :| 0 <= k < |names| && |names[k]| >= MAX_NAME;
      assert |ClipAll(names)[k]| < |names[k]|;
    }
  }

  /** One segment, on the stack or on foot. */
  lemma SegmentWalks(absolute: bool, stack: seq<string>, t: string, place: seq<string>)
    requires Normal(absolute, stack) && Segment(absolute, stack, t).Some? && (absolute ==> place == [])
    ensures Walk(place, Segment(absolute, stack, t).value) == Go(Walk(place, stack), Clip(t))
  {
    if t == "" || t == "." {
    } else if t == ".." && stack != [] && stack[|stack| - 1] != ".." {
      WalkUp(place, stack);
    } else if t != ".." || !absolute {
      WalkLast(place, stack, Clip(t));
    }
  }

  lemma {:induction false} SegmentsWalk(absolute: bool, stack: seq<string>, tokens: seq<string>, place: seq<string>)
    requires Normal(absolute, stack) && (forall t :: t in tokens ==> Clean(t)) && (absolute ==> place == [])
    requires Segments(absolute, stack, tokens).Some?
    ensures Walk(place, Segments(absolute, stack, tokens).value) == Walk(Walk(place, stack), ClipAll(tokens))
    decreases |tokens|
  {
    if tokens != [] {
      SegmentWalks(absolute, stack, tokens[0], place);
      SegmentKeepsNormal(absolute, stack, tokens[0]);
      SegmentsWalk(absolute, Segment(absolute, stack, tokens[0]).value, tokens[1..], place);
      assert ClipAll(tokens)[1..] == ClipAll(tokens[1..]);
    }
  }

  /** A normalised path leads where its stack does. */
  lemma PrintedDestination(absolute: bool, stack: seq<string>, place: seq<string>)
    requires Normal(absolute, stack)
    ensures Destination(place, Print(absolute, stack)) == Walk(if absolute then [] else place, stack)
  {
    var start := if absolute then [] else place;
    var p := Print(absolute, stack);
    PrintIsClean(absolute, stack);
    if stack == [] {
      SplitClean(if absolute then "" else ".");
      assert absolute ==> p[1..] == "";
      OneStep(start, if absolute then "" else ".");
    } else {
      assert forall k :: 0 <= k < |stack| ==> '/' !in stack[k];
      SplitJoined(stack);
      assert absolute ==> p[1..] == Joined(stack);
    }
  }

  // ---------------------------------------------------------------- what a path leaves and adds

  /** How much is left of the place one set out from, and the names gone down to from there. */
  datatype Trail = Trail(kept: nat, added: seq<string>)

  function Follow(tr: Trail, tokens: seq<string>): (r: Trail)
    ensures r.kept <= tr.kept
    decreases |tokens|
  {
    if tokens == [] then tr
    else
      var t := tokens[0];
      var next :=
        if t == "" || t == "." then tr
        else if t != ".." then Trail(tr.kept, tr.added + [t])
        else if tr.added != [] then Trail(tr.kept, tr.added[..|tr.added| - 1])
        else Trail(if tr.kept > 0 then tr.kept - 1 else 0, []);
      Follow(next, tokens[1..])
  }

  lemma {:induction false} FollowIsWalk(place: seq<string>, tr: Trail, tokens: seq<string>)
    requires tr.kept <= |place|
    ensures var r := Follow(tr, tokens); Walk(place[..tr.kept] + tr.added, tokens) == place[..r.kept] + r.added
    decreases |tokens|
  {
    if tokens != [] {
      var t, here := tokens[0], place[..tr.kept] + tr.added;
      if t == "" || t == "." {
        FollowIsWalk(place, tr, tokens[1..]);
      } else if t != ".." {
        Assoc(place[..tr.kept], tr.added, [t]);
        FollowIsWalk(place, Trail(tr.kept, tr.added + [t]), tokens[1..]);
      } else if tr.added != [] {
        var added := tr.added[..|tr.added| - 1];
        assert Go(here, t) == place[..tr.kept] + added;
        FollowIsWalk(place, Trail(tr.kept, added), tokens[1..]);
      } else {
        var kept := if tr.kept > 0 then tr.kept - 1 else 0;
        assert Go(here, t) == place[..kept] + [];
        FollowIsWalk(place, Trail(kept, []), tokens[1..]);
      }
    }
  }

  /** Cutting the segments cuts the names added, and nothing else. */
  lemma {:induction false} FollowClipped(kept: nat, added: seq<string>, tokens: seq<string>)
    ensures var r := Follow(Trail(kept, added), tokens);
      Follow(Trail(kept, ClipAll(added)), ClipAll(tokens)) == Trail(r.kept, ClipAll(r.added))
    decreases |tokens|
  {
    if tokens != [] {
      var t, n := tokens[0], |added|;
      assert ClipAll(tokens)[1..] == ClipAll(tokens[1..]);
      if t == "" || t == "." {
        FollowClipped(kept, added, tokens[1..]);
      } else if t != ".." {
        assert ClipAll(added + [t]) == ClipAll(added) + [Clip(t)];
        FollowClipped(kept, added + [t], tokens[1..]);
      } else if added != [] {
        assert ClipAll(added[..n - 1]) == ClipAll(added)[..n - 1];
        FollowClipped(kept, added[..n - 1], tokens[1..]);
      } else {
        assert ClipAll([]) == [];
        FollowClipped(if kept > 0 then kept - 1 else 0, [], tokens[1..]);
      }
    }
  }

  /** The trail of a path from a place. */
  function TrailOf(place: seq<string>, path: string): (tr: Trail)
    ensures tr.kept <= |place| && (IsAbsolute(path) ==> tr.kept == 0)
  {
    Follow(Trail(if IsAbsolute(path) then 0 else |place|, []), Tokens(path))
  }

  lemma DestinationIsTrail(place: seq<string>, path: string)
    ensures var tr := TrailOf(place, path); Destination(place, path) == place[..tr.kept] + tr.added
  {
    var start := if IsAbsolute(path) then [] else place;
    FollowIsWalk(place, Trail(|start|, []), Tokens(path));
    assert place[..|start|] + [] == start;
  }

  /** The normal form leads where the path does, but for the names that the path adds: those are cut to the buffer. */
  lemma NormalisedDestination(input: string, place: seq<string>)
    requires Normalise(input).Some?
    ensures var tr := TrailOf(place, WithSlashes(input));
      Destination(place, Normalise(input).value) == place[..tr.kept] + ClipAll(tr.added)
  {
    var s := WithSlashes(input);
    var absolute := IsAbsolute(s);
    var start := if absolute then [] else place;
    var stack := NormaliseIsNormal(input);
    SplitIsClean(if absolute then s[1..] else s);
    SegmentsWalk(absolute, [], Tokens(s), start);
    PrintedDestination(absolute, stack, place);
    FollowClipped(|start|, [], Tokens(s));
    assert ClipAll([]) == [] && place[..|start|] + [] == start;
    FollowIsWalk(place, Trail(|start|, []), ClipAll(Tokens(s)));
  }

  /**
   * Normalising, which also reads a backslash as a separator, does not change where a path leads
   * if and only if every name that it adds to the place fits the buffer of a segment.
   */
  lemma NormaliseKeepsDestinationIff(input: string, place: seq<string>)
    requires Normalise(input).Some?
    ensures Destination(place, Normalise(input).value) == Destination(place, WithSlashes(input)) <==>
            AllFit(TrailOf(place, WithSlashes(input)).added)
  {
    var tr := TrailOf(place, WithSlashes(input));
    NormalisedDestination(input, place);
    DestinationIsTrail(place, WithSlashes(input));
    ClipAllFits(tr.added);
    var kept := place[..tr.kept];
    if kept + ClipAll(tr.added) == kept + tr.added {
      assert ClipAll(tr.added) == (kept + ClipAll(tr.added))[|kept|..];
      assert tr.added == (kept + tr.added)[|kept|..];
    }
  }

  /** What an absolute path adds is its destination. */
  lemma AbsoluteTrail(path: string)
    requires IsAbsolute(path)
    ensures TrailOf([], path).added == Destination([], path)
  {
    DestinationIsTrail([], path);
    assert [][..0] + TrailOf([], path).added == TrailOf([], path).added;
  }

  lemma {:induction false} WalkNames(stack: seq<string>, n: nat)
    requires Normal(true, stack) && n <= |stack|
    ensures Walk(stack[..n], stack[n..]) == stack
    decreases |stack| - n
  {
    if n < |stack| {
      assert stack[n..][0] == stack[n] && stack[n..][1..] == stack[n + 1..];
      assert stack[..n + 1] == stack[..n] + [stack[n]];
      WalkNames(stack, n + 1);
    } else {
      assert stack[..n] == stack && stack[n..] == [];
    }
  }

  /** An absolute normal form prints the place that the path leads to, its names cut. */
  lemma AbsoluteNormalForm(input: string)
    requires Normalise(input).Some? && IsAbsolute(WithSlashes(input))
    ensures Normalise(input) == Some(Print(true, ClipAll(Destination([], WithSlashes(input)))))
    ensures Destination([], Normalise(input).value) == ClipAll(Destination([], WithSlashes(input)))
  {
    var stack := NormaliseIsNormal(input);
    NormalisedDestination(input, []);
    AbsoluteTrail(WithSlashes(input));
    PrintedDestination(true, stack, []);
    WalkNames(stack, 0);
    assert stack[..0] == [] && stack[0..] == stack;
    var names := ClipAll(TrailOf([], WithSlashes(input)).added);
    assert [][..0] + names == names;
  }

  /** Two absolute paths have the same normal form exactly when they lead to the same place once names are cut. */
  lemma NormalFormIsCanonical(a: string, b: string)
    requires Normalise(a).Some? && Normalise(b).Some? && IsAbsolute(WithSlashes(a)) && IsAbsolute(WithSlashes(b))
    ensures Normalise(a) == Normalise(b) <==>
            ClipAll(Destination([], WithSlashes(a))) == ClipAll(Destination([], WithSlashes(b)))
  {
    AbsoluteNormalForm(a);
    AbsoluteNormalForm(b);
  }

  lemma WithoutBackslash(path: string)
    requires '\\' !in path
    ensures WithSlashes(path) == path
  {
    forall k | 0 <= k < |path| ensures path[k] != '\\' { assert path[k] in path; }
  }

  /** For absolute paths without a backslash whose names fit: the same normal form exactly for the same place. */
  lemma SameFormIffSamePlace(a: string, b: string)
    requires Normalise(a).Some? && Normalise(b).Some? && IsAbsolute(a) && IsAbsolute(b)
    requires '\\' !in a && '\\' !in b && AllFit(Destination([], a)) && AllFit(Destination([], b))
    ensures Normalise(a) == Normalise(b) <==> Destination([], a) == Destination([], b)
  {
    WithoutBackslash(a);
    WithoutBackslash(b);
    ClipAllFits(Destination([], a));
    ClipAllFits(Destination([], b));
    NormalFormIsCanonical(a, b);
  }

  // ---------------------------------------------------------------- where it fails

  function Repeated(c: char, n: nat): (s: string)
    ensures |s| == n && forall k :: 0 <= k < n ==> s[k] == c
  {
    seq(n, _ => c)
  }

  lemma NameAtRoot(name: string)
    requires Clean(name) && name != "" && name != "." && name != ".."
    ensures Normalise("/" + name) == Some("/" + Clip(name)) && Destination([], "/" + name) == [name]
  {
    var path := "/" + name;
    assert '\\' !in path;
    WithoutBackslash(path);
    assert path[1..] == name;
    SplitClean(name);
    assert [name][1..] == [] && [] + [Clip(name)] == [Clip(name)] && [] + [name] == [name];
    assert Segments(true, [Clip(name)], []) == Some([Clip(name)]);
    OneStep([], name);
  }

  /** Two names of 128 and 129 bytes are two places, and get one normal form that leads to neither. */
  lemma LongNamesCollide(a: string, b: string)
    requires a == "/" + Repeated('a', 128) && b == "/" + Repeated('a', 129)
    ensures Destination([], a) != Destination([], b) && Normalise(a) == Normalise(b) && Normalise(a).Some?
    ensures Destination([], Normalise(a).value) == [Repeated('a', 127)]
  {
    var x, y, cut := Repeated('a', 128), Repeated('a', 129), Repeated('a', 127);
    NameAtRoot(x);
    NameAtRoot(y);
    NameAtRoot(cut);
    assert Clip(x) == cut && Clip(y) == cut;
    assert [x][0] != [y][0];
  }

  /** A backslash is part of a name where the path is used, and a separator here. */
  lemma BackslashSeparates()
    ensures Destination([], "/a\\b") == ["a\\b"]
    ensures Normalise("/a\\b").Some? && Destination([], Normalise("/a\\b").value) == ["a", "b"]
  {
    var path, name, slashed := "/a\\b", "a\\b", "/a/b";
    assert path[1..] == name && slashed[1..] == "a" + "/" + "b";
    SplitClean(name);
    SplitClean("a");
    SplitClean("b");
    SplitAppend("a", "b");
    OneStep([], name);
    assert WithSlashes(path) == slashed;
    assert Split("a" + "/" + "b") == ["a", "b"];
    assert ["a", "b"][1..] == ["b"] && ["b"][1..] == [];
    assert Segments(true, ["a", "b"], []) == Some(["a", "b"]);
    assert Segments(true, ["a"], ["b"]) == Some(["a", "b"]) by { assert ["a"] + ["b"] == ["a", "b"]; }
    assert Segments(true, [], ["a", "b"]) == Some(["a", "b"]) by { assert [] + ["a"] == ["a"]; }
    var stack := ["a", "b"];
    assert Normal(true, stack);
    PrintedDestination(true, stack, []);
    WalkNames(stack, 0);
    assert stack[..0] == [] && stack[0..] == stack;
  }

  // ---------------------------------------------------------------- size

  function Total(tokens: seq<string>): nat { if tokens == [] then 0 else |tokens[0]| + 1 + Total(tokens[1..]) }

  lemma {:induction false} TotalAppend(a: seq<string>, b: seq<string>)
    ensures Total(a + b) == Total(a) + Total(b)
  {
    if a == [] {
      assert a + b == b;
    } else {
      assert (a + b)[1..] == a[1..] + b;
      TotalAppend(a[1..], b);
    }
  }

  lemma {:induction false} SplitTotal(s: string)
    ensures Total(Split(s)) == |s| + 1
  {
    if s != "" {
      SplitTotal(s[1..]);
      var rest := Split(s[1..]);
      assert Split(s)[1..] == if s[0] == '/' then rest else rest[1..];
    }
  }

  lemma {:induction false} JoinedTotal(stack: seq<string>)
    ensures |Joined(stack)| + 1 == Total(stack) || (stack == [] && Joined(stack) == "")
  {
    if stack != [] {
      JoinedTotal(stack[1..]);
      assert |stack| == 1 ==> stack[1..] == [];
    }
  }

  lemma SegmentTotal(absolute: bool, stack: seq<string>, t: string)
    ensures var r := Segment(absolute, stack, t); r.Some? ==> Total(r.value) <= Total(stack) + |t| + 1
  {
    if stack != [] {
      var front, top := stack[..|stack| - 1], stack[|stack| - 1];
      assert stack == front + [top];
      TotalAppend(front, [top]);
    }
    TotalAppend(stack, [Clip(t)]);
    TotalAppend(stack, [".."]);
    assert [Clip(t)][1..] == [] && [".."][1..] == [];
  }

  lemma {:induction false} SegmentsTotal(absolute: bool, stack: seq<string>, tokens: seq<string>)
    ensures var r := Segments(absolute, stack, tokens); r.Some? ==> Total(r.value) <= Total(stack) + Total(tokens)
    decreases |tokens|
  {
    if tokens != [] {
      SegmentTotal(absolute, stack, tokens[0]);
      var r := Segment(absolute, stack, tokens[0]);
      if r.Some? { SegmentsTotal(absolute, r.value, tokens[1..]); }
    }
  }

  /** A normalised path is no longer than the path, but for the dot that stands for an empty one. */
  lemma NormaliseShrinks(input: string)
    requires Normalise(input).Some?
    ensures |Normalise(input).value| <= if input == "" then 1 else |input|
  {
    var s := WithSlashes(input);
    var body := if IsAbsolute(s) then s[1..] else s;
    var stack := Segments(IsAbsolute(s), [], Tokens(s)).value;
    SegmentsTotal(IsAbsolute(s), [], Tokens(s));
    SplitTotal(body);
    JoinedTotal(stack);
  }
}
