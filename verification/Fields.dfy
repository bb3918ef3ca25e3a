/** Field splitting: the loop over the expanded word, and the pieces between separators it stands for. */
module Fields {
  import opened Text

  /** Does the character at `i` separate fields: is it marked splittable and one of `ifs`? */
  predicate Splits(w: string, flags: seq<bool>, ifs: string, i: nat) {
    i < |w| && i < |flags| && flags[i] && w[i] in ifs
  }

  function Only(piece: string, kept: bool): seq<string> {
    if piece != "" || kept then [piece] else []
  }

  /**
   * The pieces of a word from the one that begins at `start`, of which the characters before `i`
   * have been seen; `hard` says that a separator other than white space comes just before it. An
   * empty piece is kept exactly when such a separator ends it, or precedes it at the end of the word.
   */
  function Pieces(w: string, flags: seq<bool>, ifs: string, start: nat, i: nat, hard: bool): seq<string>
    requires start <= i <= |w|
    decreases |w| - i
  {
    if i == |w| then Only(w[start..i], hard)
    else if Splits(w, flags, ifs, i) then Only(w[start..i], !IsSpace(w[i]))
      + Pieces(w, flags, ifs, i + 1, i + 1, !IsSpace(w[i]))
    else Pieces(w, flags, ifs, start, i + 1, hard)
  }

  /** The fields of a word; `quoted` says that a quote was opened in it. */
  function FieldsOf(w: string, flags: seq<bool>, quoted: bool, ifs: string): seq<string> {
    var pieces := if ifs == "" then Only(w, false) else Pieces(w, flags, ifs, 0, 0, false);
    if pieces == [] && quoted then [""] else pieces
  }

  // ---------------------------------------------------------------- the source's loop

  lemma EmitsPiece(
      w: string, flags: seq<bool>, ifs: string, start: nat, i: nat, hard: bool, out: seq<string>, next: nat,
      hard': bool)
    requires start <= i && Splits(w, flags, ifs, i) && next == i + 1 && hard' == !IsSpace(w[i])
    ensures out + Pieces(w, flags, ifs, start, i, hard) ==
            out + Only(w[start..i], hard') + Pieces(w, flags, ifs, next, next, hard')
  {
    Assoc(out, Only(w[start..i], hard'), Pieces(w, flags, ifs, next, next, hard'));
  }

  /** The loop over the characters: the fields so far, the open one, and whether a hard separator comes just before. */
  method SplitLoop(
      w: string, flags: seq<bool>, ifs: string, max: nat)
      returns (ok: bool, out: seq<string>, field: string, afterHard: bool)
    requires |w| < MAX_TOKEN && |flags| >= |w|
    ensures |out| <= max && (!ok ==> |Pieces(w, flags, ifs, 0, 0, false)| > max)
    ensures ok ==> Pieces(w, flags, ifs, 0, 0, false) == out + Only(field, afterHard)
  {
    field, out, afterHard := "", [], false;
    var i: nat := 0;
    ghost var start: nat, hard := 0, false;
    while i < |w|
      invariant start <= i <= |w| && field == w[start..i] && afterHard == (hard && field == "")
      invariant Pieces(w, flags, ifs, 0, 0, false) == out + Pieces(w, flags, ifs, start, i, hard) && |out| <= max
    {
      var c := w[i];
      if flags[i] && c in ifs {
        EmitsPiece(w, flags, ifs, start, i, hard, out, i + 1, !IsSpace(c));
        if !IsSpace(c) || field != "" {
          if |out| >= max { return false, out, field, afterHard; }
          out := out + [field];
          field := "";
        } else {
          assert out + [] == out;
        }
        i := i + 1;
        afterHard, start, hard := !IsSpace(c), i, !IsSpace(c);
      } else {
        afterHard := false;
        assert w[start..i + 1] == field + [c];
        if |field| + 1 < MAX_TOKEN { field := field + [c]; }
        i := i + 1;
      }
    }
    return true, out, field, afterHard;
  }

  /** `apply_ifs_splitting`: None when there are more fields than `max`. */
  method ApplyIfsSplitting(
      w: string, flags: seq<bool>, quoted: bool, ifs: string, max: nat) returns (fields: Option<seq<string>>)
    requires |w| < MAX_TOKEN && |flags| >= |w| && max > 0
    ensures fields == if |FieldsOf(w, flags, quoted, ifs)| <= max then Some(FieldsOf(w, flags, quoted, ifs)) else None
  {
    if ifs == "" { return Some(if |w| > 0 || quoted then [w] else []); }
    var ok, out, field, afterHard := SplitLoop(w, flags, ifs, max);
    if !ok { return None; }
    assert out + [] == out;
    if field != "" || afterHard {
      if |out| >= max { return None; }
      out := out + [field];
    }
    if out == [] && quoted { out := [""]; }
    return Some(out);
  }

  // ---------------------------------------------------------------- conservation

  function Concat(fields: seq<string>): string {
    if fields == [] then "" else fields[0] + Concat(fields[1..])
  }

  /** The word from `i` without its separators. */
  function Kept(w: string, flags: seq<bool>, ifs: string, i: nat): string
    decreases |w| - i
  {
    if i >= |w| then ""
    else if Splits(w, flags, ifs, i) then Kept(w, flags, ifs, i + 1)
    else [w[i]] + Kept(w, flags, ifs, i + 1)
  }

  lemma ConcatOnly(piece: string, kept: bool, rest: seq<string>)
    ensures Concat(Only(piece, kept) + rest) == piece + Concat(rest)
    ensures Concat(Only(piece, kept)) == piece
  {
    if Only(piece, kept) == [] {
      assert [] + rest == rest;
    } else {
      assert ([piece] + rest)[1..] == rest;
      assert [piece][1..] == [];
    }
  }

  lemma {:induction false} PiecesConserve(w: string, flags: seq<bool>, ifs: string, start: nat, i: nat, hard: bool)
    requires start <= i <= |w|
    ensures Concat(Pieces(w, flags, ifs, start, i, hard)) == w[start..i] + Kept(w, flags, ifs, i)
    decreases |w| - i
  {
    var piece, next := w[start..i], i + 1;
    if i == |w| {
      ConcatOnly(piece, hard, []);
    } else if Splits(w, flags, ifs, i) {
      var h := !IsSpace(w[i]);
      PiecesConserve(w, flags, ifs, next, next, h);
      ConcatOnly(piece, h, Pieces(w, flags, ifs, next, next, h));
    } else {
      PiecesConserve(w, flags, ifs, start, next, hard);
      var kept := Kept(w, flags, ifs, next);
      assert w[start..next] == piece + [w[i]];
      Assoc(piece, [w[i]], kept);
    }
  }

  /** The fields put together are the word without its separators. */
  lemma FieldsConserveText(w: string, flags: seq<bool>, quoted: bool, ifs: string)
    ensures Concat(FieldsOf(w, flags, quoted, ifs)) == Kept(w, flags, ifs, 0)
  {
    if ifs == "" {
      KeptAll(w, flags, 0);
      ConcatOnly(w, false, []);
    } else {
      PiecesConserve(w, flags, ifs, 0, 0, false);
    }
  }

  lemma {:induction false} KeptAll(w: string, flags: seq<bool>, i: nat)
    requires i <= |w|
    ensures Kept(w, flags, "", i) == w[i..]
    decreases |w| - i
  {
    if i < |w| { KeptAll(w, flags, i + 1); }
  }

  /** The part of the word from `a` to `b` holds no separator and lies between two of them or the ends. */
  predicate IsPiece(w: string, flags: seq<bool>, ifs: string, a: nat, b: nat) {
    a <= b <= |w| && (a == 0 || Splits(w, flags, ifs, a - 1)) && (b == |w| || Splits(w, flags, ifs, b))
    && forall k :: a <= k < b ==> !Splits(w, flags, ifs, k)
  }

  ghost predicate IsWholePiece(w: string, flags: seq<bool>, ifs: string, field: string) {
    exists a: nat, b: nat :: IsPiece(w, flags, ifs, a, b) && field == w[a..b]
  }

  lemma {:induction false} PiecesAreWhole(
      w: string, flags: seq<bool>, ifs: string, start: nat, i: nat, hard: bool, f: string)
    requires start <= i <= |w| && (start == 0 || Splits(w, flags, ifs, start - 1))
    requires forall k :: start <= k < i ==> !Splits(w, flags, ifs, k)
    requires f in Pieces(w, flags, ifs, start, i, hard)
    ensures IsWholePiece(w, flags, ifs, f)
    decreases |w| - i
  {
    var next := i + 1;
    if i < |w| && !Splits(w, flags, ifs, i) {
      PiecesAreWhole(w, flags, ifs, start, next, hard, f);
    } else if f == w[start..i] {
      assert IsPiece(w, flags, ifs, start, i);
    } else if i < |w| {
      PiecesAreWhole(w, flags, ifs, next, next, !IsSpace(w[i]), f);
    }
  }

  /** No field keeps a separator, and none stops short of one. */
  lemma FieldsAreWhole(w: string, flags: seq<bool>, quoted: bool, ifs: string, f: string)
    requires ifs != "" && f in FieldsOf(w, flags, quoted, ifs)
    ensures IsWholePiece(w, flags, ifs, f)
  {
    if Pieces(w, flags, ifs, 0, 0, false) != [] {
      PiecesAreWhole(w, flags, ifs, 0, 0, false, f);
    } else {
      NothingBeforeSeparator(w, flags, ifs);
      assert IsPiece(w, flags, ifs, 0, 0) && w[0..0] == "";
    }
  }

  /** A word without fields is empty or starts with a separator. */
  lemma NothingBeforeSeparator(w: string, flags: seq<bool>, ifs: string)
    requires Pieces(w, flags, ifs, 0, 0, false) == []
    ensures w == "" || Splits(w, flags, ifs, 0)
  {
    if w != "" && !Splits(w, flags, ifs, 0) { StartedIsKept(w, flags, ifs, 1); }
  }

  lemma {:induction false} StartedIsKept(w: string, flags: seq<bool>, ifs: string, i: nat)
    requires 0 < i <= |w|
    ensures Pieces(w, flags, ifs, 0, i, false) != []
    decreases |w| - i
  {
    if i < |w| && !Splits(w, flags, ifs, i) { StartedIsKept(w, flags, ifs, i + 1); }
  }

  // ---------------------------------------------------------------- rejoining

  function Join(fields: seq<string>, c: char): string {
    if fields == [] then "" else if |fields| == 1 then fields[0] else fields[0] + [c] + Join(fields[1..], c)
  }

  lemma JoinFirst(piece: string, rest: seq<string>, c: char)
    requires rest != []
    ensures Join([piece] + rest, c) == piece + [c] + Join(rest, c)
  {
    assert ([piece] + rest)[1..] == rest;
  }

  lemma {:induction false} PiecesRejoin(w: string, flags: seq<bool>, c: char, start: nat, i: nat, hard: bool)
    requires start <= i <= |w| && !IsSpace(c)
    ensures Join(Pieces(w, flags, [c], start, i, hard), c) == w[start..]
    ensures hard ==> Pieces(w, flags, [c], start, i, hard) != []
    decreases |w| - i
  {
    var next := i + 1;
    if i == |w| {
      assert w[start..i] == w[start..];
    } else if Splits(w, flags, [c], i) {
      PiecesRejoin(w, flags, c, next, next, true);
      JoinFirst(w[start..i], Pieces(w, flags, [c], next, next, true), c);
      assert w[start..] == w[start..i] + [c] + w[next..];
    } else {
      PiecesRejoin(w, flags, c, start, next, hard);
    }
  }

  /** With one separator that is no white space, joining the fields of a word gives it back. */
  lemma RejoinIsWord(w: string, flags: seq<bool>, quoted: bool, c: char)
    requires !IsSpace(c)
    ensures Join(FieldsOf(w, flags, quoted, [c]), c) == w
  {
    PiecesRejoin(w, flags, c, 0, 0, false);
  }

  // ---------------------------------------------------------------- splitting what was joined

  predicate AllSplittable(w: string, flags: seq<bool>) {
    |flags| >= |w| && forall k :: 0 <= k < |w| ==> flags[k]
  }

  predicate Lacks(f: string, ifs: string) { forall k :: 0 <= k < |f| ==> f[k] !in ifs }

  /** The scan passes over a stretch without separators. */
  lemma {:induction false} ScanOver(w: string, flags: seq<bool>, ifs: string, start: nat, i: nat, j: nat, hard: bool)
    requires start <= i <= j <= |w| && forall k :: i <= k < j ==> w[k] !in ifs
    ensures Pieces(w, flags, ifs, start, i, hard) == Pieces(w, flags, ifs, start, j, hard)
    decreases j - i
  {
    if i < j { ScanOver(w, flags, ifs, start, i + 1, j, hard); }
  }

  lemma JoinCut(w: string, i: nat, f: string, rest: string, j: nat)
    requires i <= |w| && w[i..] == f + rest && j == i + |f|
    ensures j <= |w| && w[i..j] == f && w[j..] == rest && forall k :: i <= k < j ==> w[k] == f[k - i]
  {
    assert w[i..j] == w[i..][..|f|];
    assert w[j..] == w[i..][|f|..];
    assert forall k :: i <= k < j ==> w[k] == w[i..j][k - i];
  }

  lemma LastPiece(w: string, flags: seq<bool>, ifs: string, i: nat, hard: bool, f: string)
    requires Lacks(f, ifs) && i <= |w| && w[i..] == f && (f != "" || hard)
    ensures Pieces(w, flags, ifs, i, i, hard) == [f]
  {
    assert f + "" == f;
    JoinCut(w, i, f, "", |w|);
    ScanOver(w, flags, ifs, i, i, |w|, hard);
  }

  lemma NextPiece(
      w: string, flags: seq<bool>, ifs: string, i: nat, hard: bool, f: string, c: char, rest: string, j: nat, next: nat)
    requires AllSplittable(w, flags) && c in ifs && Lacks(f, ifs) && i <= |w| && w[i..] == f + ([c] + rest)
    requires j == i + |f| && next == j + 1 && (IsSpace(c) ==> f != "")
    ensures next <= |w| && w[next..] == rest
    ensures Pieces(w, flags, ifs, i, i, hard) == [f] + Pieces(w, flags, ifs, next, next, !IsSpace(c))
  {
    JoinCut(w, i, f, [c] + rest, j);
    JoinCut(w, j, [c], rest, next);
    ScanOver(w, flags, ifs, i, i, j, hard);
    assert w[j] == [c][0];
  }

  lemma {:induction false} PiecesOfJoin(
      w: string, flags: seq<bool>, ifs: string, i: nat, hard: bool, fields: seq<string>, c: char)
    requires AllSplittable(w, flags) && c in ifs && forall k :: 0 <= k < |fields| ==>
      Lacks(fields[k], ifs) && (IsSpace(c) ==> fields[k] != "")
    requires i <= |w| && w[i..] == Join(fields, c) && fields != []
    requires fields != [""] || hard
    ensures Pieces(w, flags, ifs, i, i, hard) == fields
    decreases |fields|
  {
    var f, tail := fields[0], fields[1..];
    if |fields| == 1 {
      assert fields == [f];
      LastPiece(w, flags, ifs, i, hard, f);
    } else {
      var rest, j := Join(tail, c), i + |f|;
      var next := j + 1;
      Assoc(f, [c], rest);
      NextPiece(w, flags, ifs, i, hard, f, c, rest, j, next);
      assert tail == [""] ==> tail[0] == fields[1];
      PiecesOfJoin(w, flags, ifs, next, !IsSpace(c), tail, c);
      assert fields == [f] + tail;
    }
  }

  /**
   * Splitting a joined text gives the fields back, unless it is empty and so leaves no trace of
   * its one empty field. White space can only separate fields that are not empty.
   */
  lemma SplitOfJoin(fields: seq<string>, flags: seq<bool>, quoted: bool, ifs: string, c: char)
    requires c in ifs && AllSplittable(Join(fields, c), flags)
    requires forall k :: 0 <= k < |fields| ==> Lacks(fields[k], ifs) && (IsSpace(c) ==> fields[k] != "")
    ensures FieldsOf(Join(fields, c), flags, quoted, ifs) == fields <==>
      (if quoted then fields != [] else fields != [""])
  {
    var w := Join(fields, c);
    if fields != [] && fields != [""] {
      assert w[0..] == w;
      PiecesOfJoin(w, flags, ifs, 0, false, fields, c);
    }
  }

  /** A word without splittable characters is one field, and none at all if it is empty and unquoted. */
  lemma LiteralIsOneField(w: string, flags: seq<bool>, quoted: bool, ifs: string)
    requires forall k :: 0 <= k < |flags| ==> !flags[k]
    ensures FieldsOf(w, flags, quoted, ifs) == if w != "" || quoted then [w] else []
  {
    LiteralPieces(w, flags, ifs, 0);
    assert w[0..] == w;
  }

  lemma {:induction false} LiteralPieces(w: string, flags: seq<bool>, ifs: string, i: nat)
    requires i <= |w| && forall k :: 0 <= k < |flags| ==> !flags[k]
    ensures Pieces(w, flags, ifs, 0, i, false) == Only(w, false)
    decreases |w| - i
  {
    if i < |w| { LiteralPieces(w, flags, ifs, i + 1); } else { assert w[0..i] == w; }
  }

  // ---------------------------------------------------------------- words by their layout

  /** A stretch of text that is no separator, and the separators behind it. */
  datatype Stretch = Stretch(text: string, gap: string)

  function LayoutText(gap: string, stretches: seq<Stretch>): string
    decreases |stretches|
  {
    if stretches == [] then gap
    else gap + (stretches[0].text + LayoutText(stretches[0].gap, stretches[1..]))
  }

  /** One empty field for each separator that is no white space. */
  function Empties(gap: string): seq<string> {
    if gap == "" then [] else (if IsSpace(gap[0]) then [] else [""]) + Empties(gap[1..])
  }

  /**
  The first separator behind a text ends its field, and every further one that is no white space
  an empty field; the last one leaves an empty field behind it.
  */
  function LayoutFields(gap: string, stretches: seq<Stretch>): seq<string>
    decreases |stretches|
  {
    if stretches == [] then if gap != "" && !IsSpace(gap[|gap| - 1]) then [""] else []
    else
      var s, rest := stretches[0], stretches[1..];
      [s.text] + (Empties(if s.gap == "" then "" else s.gap[1..]) + LayoutFields(s.gap, rest))
  }

  /** From `i` on the word is this layout: the gaps separate, the texts do not, and only the last gap can be empty. */
  predicate LaidOut(w: string, flags: seq<bool>, ifs: string, i: nat, gap: string, stretches: seq<Stretch>)
    decreases |stretches|
  {
    i <= |w| && w[i..] == LayoutText(gap, stretches)
    && (forall k :: i <= k < i + |gap| ==> Splits(w, flags, ifs, k))
    && (stretches != [] ==>
      var s, j := stretches[0], i + |gap|;
      s.text != "" && (|stretches| > 1 ==> s.gap != "")
      && (forall k :: j <= k < j + |s.text| ==> !Splits(w, flags, ifs, k))
      && LaidOut(w, flags, ifs, j + |s.text|, s.gap, stretches[1..]))
  }

  /** Separators behind a separator: each that is no white space ends an empty piece. */
  lemma {:induction false} GapPieces(w: string, flags: seq<bool>, ifs: string, i: nat, j: nat, hard: bool)
    requires i <= j <= |w| && forall k :: i <= k < j ==> Splits(w, flags, ifs, k)
    ensures Pieces(w, flags, ifs, i, i, hard) ==
            Empties(w[i..j]) + Pieces(w, flags, ifs, j, j, if i < j then !IsSpace(w[j - 1]) else hard)
    decreases j - i
  {
    var tail := Pieces(w, flags, ifs, j, j, if i < j then !IsSpace(w[j - 1]) else hard);
    if i < j {
      var next := i + 1;
      GapPieces(w, flags, ifs, next, j, !IsSpace(w[i]));
      assert w[i..j][0] == w[i] && w[i..j][1..] == w[next..j] && w[i..i] == "";
      Assoc(if IsSpace(w[i]) then [] else [""], Empties(w[next..j]), tail);
    } else {
      assert [] + tail == tail;
    }
  }

  /** The scan passes over a stretch without separators. */
  lemma {:induction false} StretchPassed(
      w: string, flags: seq<bool>, ifs: string, start: nat, i: nat, j: nat, hard: bool)
    requires start <= i <= j <= |w| && forall k :: i <= k < j ==> !Splits(w, flags, ifs, k)
    ensures Pieces(w, flags, ifs, start, i, hard) == Pieces(w, flags, ifs, start, j, hard)
    decreases j - i
  {
    if i < j { StretchPassed(w, flags, ifs, start, i + 1, j, hard); }
  }

  lemma LayoutSplits(w: string, i: nat, gap: string, rest: string, j: nat)
    requires i <= |w| && w[i..] == gap + rest && j == i + |gap|
    ensures j <= |w| && w[i..j] == gap && w[j..] == rest
  {
    assert w[i..j] == w[i..][..|gap|] && w[j..] == w[i..][|gap|..];
  }

  /** The first text of a layout, and the layout of the rest. */
  lemma FirstStretch(
      w: string, flags: seq<bool>, ifs: string, i: nat, gap: string, stretches: seq<Stretch>, j: nat, end: nat)
    requires LaidOut(w, flags, ifs, i, gap, stretches) && stretches != []
    requires j == i + |gap| && end == j + |stretches[0].text|
    ensures var s := stretches[0];
            j < end <= |w| && w[j..end] == s.text && LaidOut(w, flags, ifs, end, s.gap, stretches[1..])
    ensures forall k :: j <= k < end ==> !Splits(w, flags, ifs, k)
    ensures stretches[0].gap == "" ==> |stretches| == 1 && end == |w|
  {
    var s, rest := stretches[0], stretches[1..];
    LayoutSplits(w, i, gap, s.text + LayoutText(s.gap, rest), j);
    LayoutSplits(w, j, s.text, LayoutText(s.gap, rest), end);
  }

  lemma GapThere(w: string, flags: seq<bool>, ifs: string, i: nat, gap: string, stretches: seq<Stretch>, j: nat)
    requires LaidOut(w, flags, ifs, i, gap, stretches) && j == i + |gap|
    ensures j <= |w| && w[i..j] == gap && forall k :: i <= k < j ==> Splits(w, flags, ifs, k)
    ensures stretches == [] ==> j == |w|
  {
    var rest := if stretches == [] then "" else stretches[0].text + LayoutText(stretches[0].gap, stretches[1..]);
    assert gap + "" == gap;
    LayoutSplits(w, i, gap, rest, j);
  }

  /** Behind its leading gap, the pieces of a word laid out so. */
  lemma {:induction false} LayoutPieces(
      w: string, flags: seq<bool>, ifs: string, i: nat, j: nat, gap: string, stretches: seq<Stretch>, hard: bool)
    requires LaidOut(w, flags, ifs, i, gap, stretches) && j == i + |gap|
    requires hard == (gap != "" && !IsSpace(gap[|gap| - 1]))
    ensures j <= |w| && Pieces(w, flags, ifs, j, j, hard) == LayoutFields(gap, stretches)
    decreases |stretches|
  {
    GapThere(w, flags, ifs, i, gap, stretches, j);
    if stretches != [] {
      var s, rest := stretches[0], stretches[1..];
      var end := j + |s.text|;
      var last := end + |s.gap|;
      FirstStretch(w, flags, ifs, i, gap, stretches, j, end);
      var hard' := s.gap != "" && !IsSpace(s.gap[|s.gap| - 1]);
      GapThere(w, flags, ifs, end, s.gap, rest, last);
      LayoutPieces(w, flags, ifs, end, last, s.gap, rest, hard');
      LayoutStep(w, flags, ifs, j, end, last, s.gap, hard, hard', LayoutFields(s.gap, rest));
      LayoutFirst(gap, stretches);
    }
  }

  /** A text from `j` to `end` and the gap behind it, up to `last`. */
  lemma LayoutStep(
      w: string, flags: seq<bool>, ifs: string, j: nat, end: nat, last: nat, gap: string, hard: bool, hard': bool,
      fields: seq<string>)
    requires j < end <= last <= |w| && w[end..last] == gap && hard' == (gap != "" && !IsSpace(gap[|gap| - 1]))
    requires forall k :: j <= k < end ==> !Splits(w, flags, ifs, k)
    requires forall k :: end <= k < last ==> Splits(w, flags, ifs, k)
    requires gap == "" ==> end == |w| && fields == []
    requires Pieces(w, flags, ifs, last, last, hard') == fields
    ensures Pieces(w, flags, ifs, j, j, hard) ==
            [w[j..end]] + (Empties(if gap == "" then "" else gap[1..]) + fields)
  {
    StretchPassed(w, flags, ifs, j, j, end, hard);
    if gap == "" {
      LastField(w, flags, ifs, j, hard, fields);
    } else {
      FieldEnds(w, flags, ifs, j, end, last, gap, hard, fields);
    }
  }

  lemma LayoutFirst(gap: string, stretches: seq<Stretch>)
    requires stretches != []
    ensures var s := stretches[0];
            LayoutFields(gap, stretches) ==
            [s.text] + (Empties(if s.gap == "" then "" else s.gap[1..]) + LayoutFields(s.gap, stretches[1..]))
  {
  }

  lemma LastField(w: string, flags: seq<bool>, ifs: string, j: nat, hard: bool, fields: seq<string>)
    requires j < |w| && fields == []
    ensures Pieces(w, flags, ifs, j, |w|, hard) == [w[j..|w|]] + (Empties("") + fields)
  {
    assert Empties("") + fields == [] && [w[j..|w|]] + [] == [w[j..|w|]];
  }

  /** A text from `j` to `end`, the gap behind it, and what comes then. */
  lemma FieldEnds(
      w: string, flags: seq<bool>, ifs: string, j: nat, end: nat, last: nat, gap: string, hard: bool,
      fields: seq<string>)
    requires j < end < last <= |w| && w[end..last] == gap
    requires forall k :: end <= k < last ==> Splits(w, flags, ifs, k)
    requires Pieces(w, flags, ifs, last, last, !IsSpace(gap[|gap| - 1])) == fields
    ensures Pieces(w, flags, ifs, j, end, hard) == [w[j..end]] + (Empties(gap[1..]) + fields)
  {
    var next, first := end + 1, !IsSpace(w[end]);
    assert gap[|gap| - 1] == w[last - 1];
    assert Pieces(w, flags, ifs, next, next, first) == Empties(gap[1..]) + fields by {
      assert gap[1..] == w[next..last];
      GapPieces(w, flags, ifs, next, last, first);
    }
    EndsField(w, flags, ifs, j, end, hard, next);
  }

  /** A separator ends the field that is open. */
  lemma EndsField(w: string, flags: seq<bool>, ifs: string, j: nat, end: nat, hard: bool, next: nat)
    requires j < end < |w| && Splits(w, flags, ifs, end) && next == end + 1
    ensures Pieces(w, flags, ifs, j, end, hard) == [w[j..end]] + Pieces(w, flags, ifs, next, next, !IsSpace(w[end]))
  {
  }

  /**
  The fields of a word are told from its layout: a run of white space separates once, in front
  and at the end not at all, and every other separator ends a field, even an empty one.
  */
  lemma FieldsOfLayout(w: string, flags: seq<bool>, quoted: bool, ifs: string, gap: string, stretches: seq<Stretch>)
    requires ifs != "" && LaidOut(w, flags, ifs, 0, gap, stretches)
    ensures var fields := Empties(gap) + LayoutFields(gap, stretches);
            FieldsOf(w, flags, quoted, ifs) == if fields == [] && quoted then [""] else fields
  {
    LayoutPieces(w, flags, ifs, 0, |gap|, gap, stretches, gap != "" && !IsSpace(gap[|gap| - 1]));
    GapThere(w, flags, ifs, 0, gap, stretches, |gap|);
    GapPieces(w, flags, ifs, 0, |gap|, false);
  }

  /** Where a run of separators, or of other characters, ends. */
  function RunEnd(w: string, flags: seq<bool>, ifs: string, i: nat, gap: bool): (j: nat)
    requires i <= |w|
    ensures i <= j <= |w| && (forall k :: i <= k < j ==> Splits(w, flags, ifs, k) == gap)
    ensures j < |w| ==> Splits(w, flags, ifs, j) != gap
    decreases |w| - i
  {
    if i < |w| && Splits(w, flags, ifs, i) == gap then RunEnd(w, flags, ifs, i + 1, gap) else i
  }

  /** Every word has a layout. */
  lemma {:induction false} EveryWordIsLaidOut(w: string, flags: seq<bool>, ifs: string, i: nat)
    returns (gap: string, stretches: seq<Stretch>)
    requires i <= |w|
    ensures LaidOut(w, flags, ifs, i, gap, stretches)
    ensures if i < |w| then Splits(w, flags, ifs, i) ==> gap != "" else gap == "" && stretches == []
    decreases |w| - i
  {
    var j := RunEnd(w, flags, ifs, i, true);
    gap, stretches := w[i..j], [];
    assert i < |w| && Splits(w, flags, ifs, i) ==> j > i;
    if j < |w| {
      var end := RunEnd(w, flags, ifs, j, false);
      assert end > j;
      var gap', rest := EveryWordIsLaidOut(w, flags, ifs, end);
      stretches := [Stretch(w[j..end], gap')] + rest;
      LaidOutBehind(w, flags, ifs, i, j, end, gap', rest);
    } else {
      assert gap + "" == gap;
    }
  }

  lemma LaidOutBehind(
      w: string, flags: seq<bool>, ifs: string, i: nat, j: nat, end: nat, gap: string, rest: seq<Stretch>)
    requires i <= j < end <= |w| && LaidOut(w, flags, ifs, end, gap, rest) && (rest != [] ==> gap != "")
    requires forall k :: i <= k < j ==> Splits(w, flags, ifs, k)
    requires forall k :: j <= k < end ==> !Splits(w, flags, ifs, k)
    ensures LaidOut(w, flags, ifs, i, w[i..j], [Stretch(w[j..end], gap)] + rest)
  {
    var stretches := [Stretch(w[j..end], gap)] + rest;
    assert stretches[1..] == rest;
    assert w[i..] == w[i..j] + (w[j..end] + w[end..]);
  }
}
