/** What a path says, without the stack: names down from a spot, and how many levels above it the way starts. */
module PathNormMeaning {
  import opened Text
  import opened PathNorm

  // ---------------------------------------------------------------- the segments of a path

  predicate IsSeparator(c: char) { c == '/' || c == '\\' }

  /** The texts between the separators of `s`, slashes and backslashes alike. */
  predicate Splits(s: string, tokens: seq<string>)
    decreases |tokens|
  {
    tokens != [] && tokens[0] <= s && (forall c :: c in tokens[0] ==> !IsSeparator(c)) &&
    var n := |tokens[0]|;
    if |tokens| == 1 then n == |s| else n < |s| && IsSeparator(s[n]) && Splits(s[n + 1..], tokens[1..])
  }

  predicate StartsAtRoot(s: string) { s != "" && IsSeparator(s[0]) }

  // ---------------------------------------------------------------- where it leads

  /** `ups` levels above the start, then down the names; `ups` is 0 for absolute paths. */
  datatype Spot = Spot(ups: nat, names: seq<string>) {
    function Size(): nat { ups + |names| }
  }

  /** Nothing and `.` stay, `..` takes back the last name or goes one level up, but not above the root. */
  function Step(absolute: bool, p: Spot, t: string): (q: Spot) {
    if t == "" || t == "." then p
    else if t != ".." then Spot(p.ups, p.names + [if |t| <= 127 then t else t[..127]])
    else if p.names != [] then Spot(p.ups, p.names[..|p.names| - 1])
    else Spot(if absolute then 0 else p.ups + 1, [])
  }

  function Reach(absolute: bool, p: Spot, tokens: seq<string>): (q: Spot)
    decreases |tokens|
  {
    if tokens == [] then p else Reach(absolute, Step(absolute, p, tokens[0]), tokens[1..])
  }

  /** No spot on the way is described by more than 64 segments. */
  predicate Fits(absolute: bool, p: Spot, tokens: seq<string>)
    decreases |tokens|
  {
    p.Size() <= 64 && (tokens != [] ==> Fits(absolute, Step(absolute, p, tokens[0]), tokens[1..]))
  }

  // ---------------------------------------------------------------- the text of a spot

  function Slashed(names: seq<string>): (s: string) {
    if names == [] then ""
    else if |names| == 1 then names[0]
    else Slashed(names[..|names| - 1]) + "/" + names[|names| - 1]
  }

  function SpotText(absolute: bool, p: Spot): (s: string) {
    if absolute then "/" + Slashed(p.names)
    else if p.Size() == 0 then "."
    else Slashed(seq(p.ups, _ => "..") + p.names)
  }

  // ---------------------------------------------------------------- the machine

  function Stack(p: Spot): (stack: seq<string>) { seq(p.ups, _ => "..") + p.names }

  predicate SpotOf(absolute: bool, p: Spot) { (absolute ==> p.ups == 0) && ".." !in p.names }

  lemma StepIs(absolute: bool, p: Spot, t: string)
    requires SpotOf(absolute, p) && p.Size() <= 64
    ensures var q := Step(absolute, p, t);
      SpotOf(absolute, q) && Segment(absolute, Stack(p), t) == if q.Size() <= 64 then Some(Stack(q)) else None
  {
    var stack, q := Stack(p), Step(absolute, p, t);
    assert |stack| == p.Size();
    if t == "" || t == "." {
    } else if t != ".." {
      assert Stack(q) == stack + [Clip(t)];
      assert Clip(t) != "..";
    } else if p.names != [] {
      assert stack[|stack| - 1] == p.names[|p.names| - 1] && p.names[|p.names| - 1] in p.names;
      assert Stack(q) == stack[..|stack| - 1];
    } else {
      assert stack != [] ==> stack[|stack| - 1] == "..";
      assert !absolute ==> Stack(q) == stack + [".."];
      assert Clip("..") == "..";
    }
  }

  lemma {:induction false} MachineReaches(absolute: bool, p: Spot, tokens: seq<string>)
    requires SpotOf(absolute, p) && p.Size() <= 64
    ensures Segments(absolute, Stack(p), tokens) ==
            if Fits(absolute, p, tokens) then Some(Stack(Reach(absolute, p, tokens))) else None
    ensures Fits(absolute, p, tokens) ==> SpotOf(absolute, Reach(absolute, p, tokens))
    decreases |tokens|
  {
    if tokens != [] {
      StepIs(absolute, p, tokens[0]);
      var q := Step(absolute, p, tokens[0]);
      if q.Size() <= 64 { MachineReaches(absolute, q, tokens[1..]); }
    }
  }

  // ---------------------------------------------------------------- texts

  lemma {:induction false} SplitIs(s: string, tokens: seq<string>)
    ensures Splits(s, tokens) <==> tokens == Split(WithSlashes(s))
    decreases |s|
  {
    if s == "" {
      assert WithSlashes(s) == "";
    } else {
      var rest := s[1..];
      assert WithSlashes(s)[1..] == WithSlashes(rest);
      var tail := Split(WithSlashes(rest));
      if IsSeparator(s[0]) {
        SplitAtSeparator(s, tokens);
        if tokens != [] && tokens[0] == "" { SplitIs(rest, tokens[1..]); }
        assert Split(WithSlashes(s)) == [""] + tail;
      } else {
        if tokens != [] && tokens[0] != "" {
          SplitInName(s, tokens);
          SplitIs(rest, [tokens[0][1..]] + tokens[1..]);
          Reheaded(s[0], tokens, tail);
        }
        assert Split(WithSlashes(s)) == [[s[0]] + tail[0]] + tail[1..];
      }
    }
  }

  lemma Reheaded(c: char, tokens: seq<string>, tail: seq<string>)
    requires tokens != [] && tokens[0] != "" && tail != []
    ensures tokens == [[c] + tail[0]] + tail[1..] <==>
            tokens[0][0] == c && [tokens[0][1..]] + tokens[1..] == tail
  {
    assert tokens == [tokens[0]] + tokens[1..] && tail == [tail[0]] + tail[1..];
    assert tokens[0] == [tokens[0][0]] + tokens[0][1..];
    assert ([c] + tail[0])[1..] == tail[0];
  }

  lemma SplitAtSeparator(s: string, tokens: seq<string>)
    requires s != "" && IsSeparator(s[0])
    ensures Splits(s, tokens) <==> |tokens| > 1 && tokens[0] == "" && Splits(s[1..], tokens[1..])
  {
    assert tokens != [] ==> forall i :: 0 <= i < |tokens[0]| ==> tokens[0][i] in tokens[0];
  }

  lemma SplitInName(s: string, tokens: seq<string>)
    requires s != "" && !IsSeparator(s[0]) && tokens != [] && tokens[0] != ""
    ensures Splits(s, tokens) <==> tokens[0][0] == s[0] && Splits(s[1..], [tokens[0][1..]] + tokens[1..])
  {
    var first, n := tokens[0], |tokens[0]|;
    assert first == [first[0]] + first[1..];
    if n < |s| { assert s[1..][n - 1 + 1..] == s[n + 1..]; }
    if first[0] == s[0] && first[1..] <= s[1..] { assert s == [s[0]] + s[1..]; }
    assert ([first[1..]] + tokens[1..])[1..] == tokens[1..];
  }

  lemma {:induction false} JoinedLast(a: seq<string>, t: string)
    ensures Joined(a + [t]) == if a == [] then t else Joined(a) + "/" + t
  {
    if a != [] {
      assert (a + [t])[1..] == a[1..] + [t];
      JoinedLast(a[1..], t);
      if |a| > 1 {
        Assoc("/", Joined(a[1..]), "/" + t);
        assert Joined(a) == a[0] + ("/" + Joined(a[1..]));
      }
    }
  }

  lemma {:induction false} JoinedIs(names: seq<string>)
    ensures Joined(names) == Slashed(names)
  {
    if names != [] {
      var n := |names| - 1;
      JoinedIs(names[..n]);
      assert names == names[..n] + [names[n]];
      JoinedLast(names[..n], names[n]);
    }
  }

  lemma PrintIs(absolute: bool, p: Spot)
    requires SpotOf(absolute, p)
    ensures Print(absolute, Stack(p)) == SpotText(absolute, p)
  {
    JoinedIs(Stack(p));
    assert absolute ==> Stack(p) == p.names;
  }

  // ---------------------------------------------------------------- normalising

  /** The text `body`, followed from a spot without leaving the bound, leads to the spot written `out`. */
  ghost predicate Leads(absolute: bool, from: Spot, body: string, out: string) {
    exists tokens :: Splits(body, tokens) && Fits(absolute, from, tokens) &&
      out == SpotText(absolute, Reach(absolute, from, tokens))
  }

  lemma MachineLeads(absolute: bool, from: Spot, body: string, out: string)
    requires SpotOf(absolute, from) && from.Size() <= 64
    ensures Leads(absolute, from, body, out) <==>
            var r := Segments(absolute, Stack(from), Split(WithSlashes(body)));
            r.Some? && out == Print(absolute, r.value)
  {
    var tokens := Split(WithSlashes(body));
    forall ts ensures Splits(body, ts) <==> ts == tokens { SplitIs(body, ts); }
    MachineReaches(absolute, from, tokens);
    if Fits(absolute, from, tokens) { PrintIs(absolute, Reach(absolute, from, tokens)); }
  }

  /** Normalising gives the text of the spot that the path leads to; it fails when that takes too many segments. */
  lemma NormaliseIs(input: string, out: string)
    ensures Normalise(input) == Some(out) <==>
            Leads(StartsAtRoot(input), Spot(0, []), if StartsAtRoot(input) then input[1..] else input, out)
  {
    var s, absolute := WithSlashes(input), StartsAtRoot(input);
    var body := if absolute then input[1..] else input;
    assert WithSlashes(body) == if absolute then s[1..] else s;
    assert Stack(Spot(0, [])) == [];
    MachineLeads(absolute, Spot(0, []), body, out);
  }

  /**
   * Resolving against a directory in normal form: the spot that the path leads to from the root
   * when it starts with a slash, and from the directory otherwise, backslash or not.
   */
  lemma ResolveIs(names: seq<string>, input: string, out: string)
    requires Normal(true, names)
    ensures Resolve("/" + Slashed(names), input) == Some(out) <==>
      if "/" <= input then Leads(true, Spot(0, []), input[1..], out) else Leads(true, Spot(0, names), input, out)
    ensures |Slashed(names)| + 2 + |input| < 1024 ==>
      ResolveCut("/" + Slashed(names), input) == Resolve("/" + Slashed(names), input)
  {
    var cwd := "/" + Slashed(names);
    JoinedIs(names);
    assert IsNormalised(cwd, true, names);
    if "/" <= input {
      NormaliseIs(input, out);
    } else {
      assert Stack(Spot(0, names)) == names;
      MachineLeads(true, Spot(0, names), input, out);
      if input == "" { assert Split("") == [""] && WithSlashes("") == ""; StaysThere(names); }
      else { ResolveRelative(cwd, names, input); }
    }
  }

  lemma StaysThere(names: seq<string>)
    ensures Segments(true, names, [""]) == Some(names)
  {
    assert [""][1..] == [];
  }
}
