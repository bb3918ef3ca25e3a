/** Path normalisation as the source runs it: one loop over the characters, then one over the segments. */
module PathNormRuntime {
  import opened Text
  import opened PathNorm

  /** `normalize_separators` into a buffer of `MAX_PATH`. */
  method NormalizeSeparators(src: string) returns (dest: string)
    ensures dest == WithSlashes(Cut(src))
  {
    dest := "";
    var i := 0;
    while i + 1 < MAX_PATH && i < |src|
      invariant i == |dest| <= |Cut(src)| && dest == WithSlashes(Cut(src))[..i]
    {
      dest := dest + [if src[i] == '/' || src[i] == '\\' then '/' else src[i]];
      i := i + 1;
    }
    assert WithSlashes(Cut(src))[..i] == WithSlashes(Cut(src));
  }

  class PathStack {
    const absolute: bool
    var segments: seq<string>

    constructor (absolute: bool)
      ensures this.absolute == absolute && segments == []
    {
      this.absolute, segments := absolute, [];
    }

    /** `push_segment` */
    method PushSegment(t: string) returns (ok: bool)
      modifies this
      ensures Push(old(segments), t) == if ok then Some(segments) else None
    {
      if |segments| >= MAX_SEGMENTS { return false; }
      segments := segments + [Clip(t)];
      return true;
    }

    /** What the end of a segment does. */
    method EndSegment(t: string) returns (ok: bool)
      modifies this
      ensures Segment(absolute, old(segments), t) == if ok then Some(segments) else None
    {
      ok := true;
      if |t| > 0 && t != "." {
        if t == ".." {
          if |segments| > 0 && segments[|segments| - 1] != ".." {
            segments := segments[..|segments| - 1];
          } else if !absolute {
            ok := PushSegment("..");
          }
        } else {
          ok := PushSegment(t);
        }
      }
    }

    /** The loop over the characters after the leading separator. */
    method ReadSegments(cursor: string) returns (ok: bool)
      requires segments == []
      modifies this
      ensures Segments(absolute, [], Split(cursor)) == if ok then Some(segments) else None
    {
      var token, i := "", 0;
      ghost var full := "";
      assert cursor[0..] == cursor && Rest(full, cursor) == Split(cursor) by { RestEnds(full, cursor); }
      while i < |cursor|
        invariant i <= |cursor| && token == Clip(full)
        invariant Segments(absolute, [], Split(cursor)) == Segments(absolute, segments, Rest(full, cursor[i..]))
      {
        var c := cursor[i];
        RestStep(full, cursor, i);
        if c != '/' {
          if |token| + 1 < MAX_NAME { token := token + [c]; }
          full := full + [c];
        } else {
          ClipSame(absolute, segments, full);
          ok := EndSegment(token);
          if !ok { return; }
          token, full := "", "";
        }
        i := i + 1;
      }
      assert cursor[i..] == "";
      RestEnds(full, cursor);
      ClipSame(absolute, segments, full);
      ok := EndSegment(token);
    }
  }

  /** The segments of `s` when `full` has already been read of the first. */
  function Rest(full: string, s: string): seq<string> {
    [full + Split(s)[0]] + Split(s)[1..]
  }

  lemma RestEnds(full: string, s: string)
    ensures Rest(full, "") == [full] && Rest("", s) == Split(s)
  {
    assert full + "" == full && "" + Split(s)[0] == Split(s)[0];
    assert Split(s) == [Split(s)[0]] + Split(s)[1..];
  }

  lemma RestStep(full: string, s: string, i: nat)
    requires i < |s|
    ensures s[i] != '/' ==> Rest(full, s[i..]) == Rest(full + [s[i]], s[i + 1..])
    ensures s[i] == '/' ==> Rest(full, s[i..]) == [full] + Rest("", s[i + 1..])
  {
    var rest := Split(s[i + 1..]);
    assert s[i..][0] == s[i] && s[i..][1..] == s[i + 1..];
    if s[i] != '/' {
      Assoc(full, [s[i]], rest[0]);
    } else {
      assert Split(s[i..])[1..] == rest && full + "" == full && "" + rest[0] == rest[0];
    }
  }

  /** A cut segment acts as the whole one. */
  lemma ClipSame(absolute: bool, stack: seq<string>, t: string)
    ensures Segment(absolute, stack, Clip(t)) == Segment(absolute, stack, t)
  {
  }

  lemma {:induction false} JoinedNext(stack: seq<string>, i: nat)
    requires i < |stack|
    ensures Joined(stack[..i + 1]) == if i == 0 then stack[0] else Joined(stack[..i]) + "/" + stack[i]
    decreases |stack|
  {
    if i > 0 {
      var tail := stack[1..];
      JoinedNext(tail, i - 1);
      assert stack[..i + 1][1..] == tail[..i] && stack[..i][1..] == tail[..i - 1];
      if i > 1 {
        Assoc(stack[0], "/" + Joined(tail[..i - 1]), "/" + stack[i]);
        Assoc("/", Joined(tail[..i - 1]), "/" + stack[i]);
        Assoc(Joined(tail[..i - 1]), "/", stack[i]);
      }
    }
  }

  lemma {:induction false} JoinedEnds(stack: seq<string>)
    requires stack != [] && forall k :: 0 <= k < |stack| ==> stack[k] != "" && '/' !in stack[k]
    ensures Joined(stack) != "" && Joined(stack)[|Joined(stack)| - 1] != '/'
  {
    if |stack| > 1 {
      JoinedEnds(stack[1..]);
    } else {
      assert stack[0][|stack[0]| - 1] in stack[0];
    }
  }

  /** The output loop: a separator before each segment unless the text is empty or ends in one. */
  method PrintSegments(absolute: bool, stack: seq<string>) returns (out: string)
    requires Normal(absolute, stack)
    ensures out == Print(absolute, stack)
  {
    out := if absolute then "/" else "";
    if |stack| == 0 {
      if out == "" { out := "."; }
      return;
    }
    ghost var root := out;
    var i := 0;
    assert forall k :: 0 <= k < |stack| ==> stack[k] != "" && '/' !in stack[k];
    while i < |stack|
      invariant i <= |stack| && out == root + Joined(stack[..i])
    {
      JoinedNext(stack, i);
      if i > 0 {
        JoinedEnds(stack[..i]);
        Assoc(root, Joined(stack[..i]), "/");
        Assoc(root, Joined(stack[..i]) + "/", stack[i]);
      }
      if |out| > 0 && out[|out| - 1] != '/' { out := out + "/"; }
      out := out + stack[i];
      i := i + 1;
    }
    assert stack[..i] == stack;
  }

  /** `normalize_path` */
  method NormalizePath(input: string) returns (out: Option<string>)
    ensures out == Normalise(Cut(input))
    ensures out.Some? ==> |out.value| < MAX_PATH
  {
    var temp := NormalizeSeparators(input);
    var absolute := temp != "" && temp[0] == '/';
    var stack := new PathStack(absolute);
    var ok := stack.ReadSegments(if absolute then temp[1..] else temp);
    if !ok { return None; }
    NormaliseShrinks(Cut(input));
    ghost var normal := NormaliseIsNormal(Cut(input));
    var text := PrintSegments(absolute, stack.segments);
    return Some(text);
  }

  /** `arksh_platform_resolve_path` */
  method ResolvePath(cwd: string, input: string) returns (out: Option<string>)
    ensures out == ResolveCut(cwd, input)
    ensures |cwd| + 1 + |input| < MAX_PATH ==> out == Resolve(cwd, input)
    ensures out.Some? ==> |out.value| < MAX_PATH
  {
    if input == "" { return Some(Cut(cwd)); }
    if input[0] == '/' {
      out := NormalizePath(input);
      return;
    }
    if input == "." { return Some(Cut(cwd)); }
    out := NormalizePath(cwd + "/" + input);
  }
}
