/** The verbatim-quote validator: a scanner that splits text at quotation marks, the removal of
    digit-group spaces outside quotation marks only, and the check that a span occurs in a source.

    Text is already NFKC-folded. Which characters are decimal digits is a parameter. */
module Quotes {
  import opened Text

  predicate IsOpener(c: char) {
    c == '"' || c == '\'' || c == '\U{2018}' || c == '\U{201C}'
  }

  function CloserOf(opener: char): char {
    if opener == '\U{2018}' then '\U{2019}'
    else if opener == '\U{201C}' then '\U{201D}'
    else opener
  }

  /** The mark at the other end of a span that starts with this one. */
  function MarkClosing(open: char): char {
    if IsOpener(open) then CloserOf(open) else open
  }

  /** Straight and curly quotation marks, opening or closing. */
  predicate IsQuoteMark(c: char) {
    IsOpener(c) || c == '\U{2019}' || c == '\U{201D}'
  }

  /** The spaces that may separate digit groups. */
  predicate IsGroupSpace(c: char) {
    c == ' ' || c == '\U{00A0}' || c == '\U{202F}'
  }

  /** Any class of digits; no digit is whitespace or a quotation mark. */
  type DigitClass = d: char -> bool | forall c :: d(c) ==> !IsSpace(c) && !IsQuoteMark(c) witness c => '0' <= c <= '9'

  // ---- segments ----

  datatype Segment = Segment(text: string, quoted: bool)

  function Flatten(segments: seq<Segment>): string {
    if segments == [] then [] else segments[0].text + Flatten(segments[1..])
  }

  ghost predicate Plain(t: string) {
    t != [] && forall c <- t :: !IsOpener(c)
  }

  /** Opened, and closed by its own closer at the very end. */
  ghost predicate Terminated(t: string) {
    && |t| >= 2 && IsOpener(t[0])
    && t[|t| - 1] == CloserOf(t[0])
    && CloserOf(t[0]) !in t[1..|t| - 1]
  }

  ghost predicate Unterminated(t: string) {
    t != [] && IsOpener(t[0]) && CloserOf(t[0]) !in t[1..]
  }

  /** A plain piece is followed by a quoted one; a quoted piece is closed, unless it is the last. */
  ghost predicate PieceOk(segments: seq<Segment>, i: nat)
    requires i < |segments|
  {
    var t := segments[i].text;
    if segments[i].quoted then Terminated(t) || (i == |segments| - 1 && Unterminated(t))
    else Plain(t) && (i + 1 < |segments| ==> segments[i + 1].quoted)
  }

  ghost predicate WellSegmented(segments: seq<Segment>) {
    forall i | 0 <= i < |segments| :: PieceOk(segments, i)
  }

  lemma {:induction false} FlattenAppend(a: seq<Segment>, z: seq<Segment>)
    ensures Flatten(a + z) == Flatten(a) + Flatten(z)
  {
    if a == [] {
      assert a + z == z;
    } else {
      assert (a + z)[1..] == a[1..] + z;
      FlattenAppend(a[1..], z);
    }
  }

  /** A well-formed segmentation with nothing left open. */
  ghost predicate ClosedPieces(segments: seq<Segment>) {
    && WellSegmented(segments)
    && (segments != [] && segments[|segments| - 1].quoted ==> Terminated(segments[|segments| - 1].text))
  }

  ghost predicate LastQuoted(segments: seq<Segment>) {
    segments == [] || segments[|segments| - 1].quoted
  }

  lemma AppendPiece(segments: seq<Segment>, piece: Segment)
    requires ClosedPieces(segments)
    requires if piece.quoted then Terminated(piece.text) || Unterminated(piece.text)
             else Plain(piece.text) && LastQuoted(segments)
    ensures WellSegmented(segments + [piece])
    ensures !piece.quoted || Terminated(piece.text) ==> ClosedPieces(segments + [piece])
    ensures Flatten(segments + [piece]) == Flatten(segments) + piece.text
  {
    FlattenAppend(segments, [piece]);
    var all := segments + [piece];
    forall i | 0 <= i < |all|
      ensures PieceOk(all, i)
    {
      if i < |segments| {
        assert PieceOk(segments, i);
      }
    }
  }

  /** The scanner has read `t`: closed pieces, then the pending buffer. */
  ghost predicate Scanned(segments: seq<Segment>, buf: string, closer: Option<char>, t: string) {
    && ClosedPieces(segments)
    && Flatten(segments) + buf == t
    && (closer.None? ==> (buf == [] || Plain(buf)) && LastQuoted(segments))
    && (closer.Some? ==> Unterminated(buf) && closer.value == CloserOf(buf[0]))
  }

  lemma FlushPlain(segments: seq<Segment>, buf: string, t: string)
    requires Scanned(segments, buf, None, t)
    ensures var flushed := if buf == [] then segments else segments + [Segment(buf, false)];
            ClosedPieces(flushed) && Flatten(flushed) == t
  {
    if buf != [] {
      AppendPiece(segments, Segment(buf, false));
    }
  }

  lemma PlainGrows(segments: seq<Segment>, buf: string, t: string, c: char)
    requires Scanned(segments, buf, None, t) && !IsOpener(c)
    ensures Scanned(segments, buf + [c], None, t + [c])
  {
  }

  lemma QuotedGrows(segments: seq<Segment>, buf: string, k: char, t: string, c: char)
    requires Scanned(segments, buf, Some(k), t)
    ensures c != k ==> Scanned(segments, buf + [c], Some(k), t + [c])
    ensures c == k ==> Scanned(segments + [Segment(buf + [c], true)], [], None, t + [c])
  {
    assert Flatten(segments) + (buf + [c]) == t + [c];
    assert (buf + [c])[1..|buf|] == buf[1..];
    assert (buf + [c])[1..] == buf[1..] + [c];
    if c == k {
      AppendPiece(segments, Segment(buf + [c], true));
    }
  }

  lemma Finish(segments: seq<Segment>, buf: string, closer: Option<char>, t: string)
    requires Scanned(segments, buf, closer, t)
    ensures var all := if buf == [] then segments else segments + [Segment(buf, closer.Some?)];
            WellSegmented(all) && Flatten(all) == t
  {
    if buf != [] {
      AppendPiece(segments, Segment(buf, closer.Some?));
    }
  }

  /** Split text into quoted and unquoted runs. An unterminated opener quotes all that follows. */
  method SegmentByQuotes(text: string) returns (segments: seq<Segment>)
    ensures WellSegmented(segments)
    ensures Flatten(segments) == text
  {
    segments := [];
    var buf: string := [];
    var closer: Option<char> := None;
    for i := 0 to |text|
      invariant Scanned(segments, buf, closer, text[..i])
    {
      var c := text[i];
      assert text[..i + 1] == text[..i] + [c];
      if closer.None? {
        if IsOpener(c) {
          FlushPlain(segments, buf, text[..i]);
          if buf != [] {
            segments := segments + [Segment(buf, false)];
            buf := [];
          }
          buf := buf + [c];
          closer := Some(CloserOf(c));
        } else {
          PlainGrows(segments, buf, text[..i], c);
          buf := buf + [c];
        }
      } else {
        QuotedGrows(segments, buf, closer.value, text[..i], c);
        buf := buf + [c];
        if c == closer.value {
          segments := segments + [Segment(buf, true)];
          buf := [];
          closer := None;
        }
      }
    }
    assert text[..|text|] == text;
    Finish(segments, buf, closer, text);
    if buf != [] {
      segments := segments + [Segment(buf, closer.Some?)];
    }
  }

  lemma PlainEndsFirst(x: string, y: string, t: string)
    requires Plain(x) && Plain(y) && x <= t && y <= t
    requires |y| == |t| || IsOpener(t[|y|])
    ensures |x| <= |y|
  {
  }

  lemma QuotedEndsFirst(x: string, y: string, t: string)
    requires (Terminated(x) || Unterminated(x)) && x <= t && y <= t
    requires Terminated(y) || (Unterminated(y) && |y| == |t|)
    ensures |x| <= |y|
  {
  }

  lemma FirstPiece(a: seq<Segment>)
    requires WellSegmented(a) && a != []
    ensures var x, t := a[0].text, Flatten(a);
            && x != [] && x <= t && IsOpener(x[0]) == a[0].quoted
            && (if a[0].quoted then Terminated(x) || (Unterminated(x) && |x| == |t|)
                else Plain(x) && (|x| == |t| || IsOpener(t[|x|])))
            && WellSegmented(a[1..]) && Flatten(a[1..]) == t[|x|..]
  {
    assert PieceOk(a, 0);
    TailWellSegmented(a);
    if |a| > 1 {
      assert PieceOk(a, 1);
    }
  }

  /** The pieces are determined by the text: two well-formed segmentations of one text are the same. */
  lemma {:induction false} SegmentationUnique(a: seq<Segment>, b: seq<Segment>)
    requires WellSegmented(a) && WellSegmented(b)
    requires Flatten(a) == Flatten(b)
    ensures a == b
  {
    if a != [] {
      FirstPiece(a);
    }
    if b != [] {
      FirstPiece(b);
    }
    if a != [] && b != [] {
      var x, y, t := a[0].text, b[0].text, Flatten(a);
      if a[0].quoted {
        QuotedEndsFirst(x, y, t);
        QuotedEndsFirst(y, x, t);
      } else {
        PlainEndsFirst(x, y, t);
        PlainEndsFirst(y, x, t);
      }
      SegmentationUnique(a[1..], b[1..]);
      assert a == [a[0]] + a[1..] && b == [b[0]] + b[1..];
    }
  }

  lemma TailWellSegmented(a: seq<Segment>)
    requires WellSegmented(a) && a != []
    ensures WellSegmented(a[1..])
  {
    forall i | 0 <= i < |a[1..]|
      ensures PieceOk(a[1..], i)
    {
      assert PieceOk(a, i + 1);
    }
  }

  // ---- removing digit-group spaces ----

  function RunEnd(s: string, i: nat): (j: nat)
    requires i <= |s|
    ensures i <= j <= |s|
    ensures j < |s| ==> !IsGroupSpace(s[j])
    ensures forall k | i <= k < j :: IsGroupSpace(s[k])
    decreases |s| - i
  {
    if i < |s| && IsGroupSpace(s[i]) then RunEnd(s, i + 1) else i
  }

  /** Where the pattern "spaces with a digit on both sides" matches from `i`; `i` itself when it does not. */
  function MatchEnd(digit: DigitClass, s: string, i: nat): (j: nat)
    requires i <= |s|
    ensures i <= j <= |s|
  {
    if 0 < i < |s| && digit(s[i - 1]) && RunEnd(s, i) < |s| && digit(s[RunEnd(s, i)]) then RunEnd(s, i) else i
  }

  /** The pattern's matches from position `i` on replaced by nothing. */
  function Substitute(digit: DigitClass, s: string, i: nat): string
    requires i <= |s|
    decreases |s| - i
  {
    if i == |s| then []
    else
      var j := MatchEnd(digit, s, i);
      if j > i then Substitute(digit, s, j) else [s[i]] + Substitute(digit, s, i + 1)
  }

  // ---- the same in one pass over the text, no segments ----

  /** Scanner state: the closer awaited, and whether only group spaces separate us from an unquoted digit. */
  datatype Scan = Scan(closer: Option<char>, armed: bool)

  const OUTSIDE := Scan(None, false)

  function Step(digit: DigitClass, s: Scan, c: char): Scan {
    if s.closer.Some? then Scan(if c == s.closer.value then None else s.closer, false)
    else if IsOpener(c) then Scan(Some(CloserOf(c)), false)
    else if IsGroupSpace(c) then s
    else Scan(None, digit(c))
  }

  function Run(digit: DigitClass, t: string, s: Scan): Scan {
    if t == [] then s else Run(digit, t[1..], Step(digit, s, t[0]))
  }

  predicate DigitAfterRun(digit: DigitClass, t: string) {
    t != [] && if IsGroupSpace(t[0]) then DigitAfterRun(digit, t[1..]) else digit(t[0])
  }

  predicate Drops(digit: DigitClass, s: Scan, c: char, rest: string) {
    s.closer.None? && s.armed && IsGroupSpace(c) && DigitAfterRun(digit, rest)
  }

  /** What is kept of `t`, read from state `s`, with `rest` still to come. */
  function Erase(digit: DigitClass, t: string, rest: string, s: Scan): string {
    if t == [] then []
    else (if Drops(digit, s, t[0], t[1..] + rest) then [] else [t[0]])
         + Erase(digit, t[1..], rest, Step(digit, s, t[0]))
  }

  /** The normal form of `t` when the scanner enters it awaiting `closer`. */
  function NormalizeFrom(digit: DigitClass, t: string, closer: Option<char>): string {
    Collapse(Erase(digit, t, [], Scan(closer, false)))
  }

  function Normalize(digit: DigitClass, t: string): string {
    NormalizeFrom(digit, t, None)
  }

  function Rendered(digit: DigitClass, segment: Segment): string {
    if segment.quoted then segment.text else Substitute(digit, segment.text, 0)
  }

  function JoinRendered(digit: DigitClass, segments: seq<Segment>): string {
    if segments == [] then [] else Rendered(digit, segments[0]) + JoinRendered(digit, segments[1..])
  }

  lemma {:induction false} JoinAppend(digit: DigitClass, a: seq<Segment>, piece: Segment)
    ensures JoinRendered(digit, a + [piece]) == JoinRendered(digit, a) + Rendered(digit, piece)
  {
    if a == [] {
      assert a + [piece] == [piece];
      assert [piece][1..] == [];
    } else {
      assert (a + [piece])[1..] == a[1..] + [piece];
      JoinAppend(digit, a[1..], piece);
    }
  }

  /** Digit-group spaces go, outside quotation marks only; then whitespace is collapsed throughout. */
  method NormalizeOutsideQuotes(digit: DigitClass, text: string) returns (r: string)
    ensures r == Normalize(digit, text)
  {
    var segments := SegmentByQuotes(text);
    var out := [];
    for i := 0 to |segments|
      invariant out == JoinRendered(digit, segments[..i])
    {
      JoinAppend(digit, segments[..i], segments[i]);
      assert segments[..i + 1] == segments[..i] + [segments[i]];
      if segments[i].quoted {
        out := out + segments[i].text;
      } else {
        out := out + Substitute(digit, segments[i].text, 0);
      }
    }
    assert segments[..|segments|] == segments;
    SegmentsRefineErase(digit, segments);
    r := Collapse(out);
  }

  lemma {:induction false} EraseUnarmed(digit: DigitClass, t: string, rest: string, closer: Option<char>, armed: bool)
    requires t == [] || !IsGroupSpace(t[0])
    ensures Erase(digit, t, rest, Scan(closer, armed)) == Erase(digit, t, rest, Scan(closer, false))
  {
  }

  lemma {:induction false} DigitAfterRunAt(digit: DigitClass, s: string, i: nat)
    requires i <= |s|
    ensures DigitAfterRun(digit, s[i..]) <==> RunEnd(s, i) < |s| && digit(s[RunEnd(s, i)])
    decreases |s| - i
  {
    if i < |s| && IsGroupSpace(s[i]) {
      assert s[i..][1..] == s[i + 1..];
      DigitAfterRunAt(digit, s, i + 1);
    }
  }

  lemma {:induction false} EraseSkipsRun(digit: DigitClass, s: string, i: nat, j: nat)
    requires i <= j <= |s| && j == RunEnd(s, i)
    requires DigitAfterRun(digit, s[i..])
    ensures Erase(digit, s[i..], [], Scan(None, true)) == Erase(digit, s[j..], [], OUTSIDE)
    decreases |s| - i
  {
    if i < |s| && IsGroupSpace(s[i]) {
      assert s[i..][1..] == s[i + 1..];
      assert s[i + 1..] + [] == s[i + 1..];
      EraseSkipsRun(digit, s, i + 1, j);
    } else {
      EraseUnarmed(digit, s[i..], [], None, true);
    }
  }

  lemma NoDigitBehindRun(digit: DigitClass, s: string, i: nat, j: nat)
    requires i < j < |s| && j == RunEnd(s, i)
    ensures IsGroupSpace(s[j - 1]) && !IsGroupSpace(s[j]) && !digit(s[j - 1])
    ensures DigitAfterRun(digit, s[j..]) <==> digit(s[j])
  {
  }

  /** Where the pattern does not match the eraser keeps the character, and what it needs to go on holds again. */
  lemma EraseKeeps(digit: DigitClass, s: string, i: nat, armed: bool)
    requires i < |s| && !IsOpener(s[i])
    requires i > 0 && digit(s[i - 1]) ==> armed && !(IsGroupSpace(s[i]) && DigitAfterRun(digit, s[i..]))
    requires armed && (i == 0 || !digit(s[i - 1])) ==> !DigitAfterRun(digit, s[i..])
    ensures var next := Step(digit, Scan(None, armed), s[i]);
            && next.closer.None?
            && Erase(digit, s[i..], [], Scan(None, armed)) == [s[i]] + Erase(digit, s[i + 1..], [], next)
            && (digit(s[i]) ==> next.armed)
            && (next.armed && !digit(s[i]) ==> !DigitAfterRun(digit, s[i + 1..]))
  {
    assert s[i..][1..] == s[i + 1..];
    assert s[i + 1..] + [] == s[i + 1..];
  }

  /** On text without openers the pattern substitution is the one-pass eraser. */
  lemma {:induction false} SubstituteIsErase(digit: DigitClass, s: string, i: nat, armed: bool)
    requires i <= |s| && forall c <- s :: !IsOpener(c)
    requires i > 0 && digit(s[i - 1]) ==> armed
    requires armed && (i == 0 || !digit(s[i - 1])) ==> !DigitAfterRun(digit, s[i..])
    ensures Substitute(digit, s, i) == Erase(digit, s[i..], [], Scan(None, armed))
    decreases |s| - i
  {
    if i < |s| {
      hide DigitAfterRun, Erase;
      var j := MatchEnd(digit, s, i);
      DigitAfterRunAt(digit, s, i);
      if j > i {
        EraseSkipsRun(digit, s, i, j);
        NoDigitBehindRun(digit, s, i, j);
        SubstituteIsErase(digit, s, j, false);
      } else {
        EraseKeeps(digit, s, i, armed);
        SubstituteIsErase(digit, s, i + 1, Step(digit, Scan(None, armed), s[i]).armed);
      }
    }
  }

  lemma {:induction false} EraseAppend(digit: DigitClass, a: string, z: string, rest: string, s: Scan)
    ensures Erase(digit, a + z, rest, s) == Erase(digit, a, z + rest, s) + Erase(digit, z, rest, Run(digit, a, s))
  {
    if a == [] {
      assert a + z == z;
    } else {
      assert (a + z)[1..] == a[1..] + z;
      assert a[1..] + z + rest == a[1..] + (z + rest);
      EraseAppend(digit, a[1..], z, rest, Step(digit, s, a[0]));
    }
  }

  lemma {:induction false} DigitAfterRunLocal(digit: DigitClass, t: string, rest: string)
    requires (t != [] && !IsGroupSpace(t[|t| - 1])) || rest == [] || (!IsGroupSpace(rest[0]) && !digit(rest[0]))
    ensures DigitAfterRun(digit, t + rest) == DigitAfterRun(digit, t)
  {
    if t == [] {
      assert t + rest == rest;
    } else {
      assert (t + rest)[1..] == t[1..] + rest;
      if IsGroupSpace(t[0]) {
        DigitAfterRunLocal(digit, t[1..], rest);
      }
    }
  }

  /** What follows does not matter to a text that ends in no group space, or when it starts with neither
      a group space nor a digit. */
  lemma {:induction false} EraseLocal(digit: DigitClass, t: string, rest: string, s: Scan)
    requires (t != [] && !IsGroupSpace(t[|t| - 1])) || rest == [] || (!IsGroupSpace(rest[0]) && !digit(rest[0]))
    ensures Erase(digit, t, rest, s) == Erase(digit, t, [], s)
  {
    if t != [] {
      assert t[1..] + [] == t[1..];
      if t[1..] == [] {
        assert t[1..] + rest == rest;
        if IsGroupSpace(t[0]) {
          DigitAfterRunLocal(digit, t[1..], rest);
        }
      } else {
        DigitAfterRunLocal(digit, t[1..], rest);
        EraseLocal(digit, t[1..], rest, Step(digit, s, t[0]));
      }
    }
  }

  lemma {:induction false} EraseInside(digit: DigitClass, t: string, rest: string, k: char)
    requires k !in t
    ensures Erase(digit, t, rest, Scan(Some(k), false)) == t
    ensures Run(digit, t, Scan(Some(k), false)) == Scan(Some(k), false)
  {
    if t != [] {
      EraseInside(digit, t[1..], rest, k);
      assert [t[0]] + t[1..] == t;
    }
  }

  /** A quoted piece is kept to the character, and leaves the scanner outside if it is closed. */
  lemma QuotedPieceExact(digit: DigitClass, t: string, rest: string, armed: bool)
    requires Terminated(t) || Unterminated(t)
    ensures Erase(digit, t, rest, Scan(None, armed)) == t
    ensures Terminated(t) ==> Run(digit, t, Scan(None, armed)) == OUTSIDE
  {
    var k := CloserOf(t[0]);
    var open, inner := [t[0]], if Terminated(t) then t[1..|t| - 1] else t[1..];
    var end := if Terminated(t) then [k] else [];
    assert t == open + (inner + end);
    assert t[1..] == inner + end;
    EraseInside(digit, inner, end + rest, k);
    EraseAppend(digit, inner, end, rest, Scan(Some(k), false));
    RunAppend(digit, inner, end, Scan(Some(k), false));
    assert Erase(digit, end, rest, Scan(Some(k), false)) == end;
    assert t == [t[0]] + t[1..];
  }

  lemma {:induction false} RunAppend(digit: DigitClass, a: string, z: string, s: Scan)
    ensures Run(digit, a + z, s) == Run(digit, z, Run(digit, a, s))
  {
    if a == [] {
      assert a + z == z;
    } else {
      assert (a + z)[1..] == a[1..] + z;
      RunAppend(digit, a[1..], z, Step(digit, s, a[0]));
    }
  }

  lemma {:induction false} PlainStaysOutside(digit: DigitClass, t: string, armed: bool)
    requires forall c <- t :: !IsOpener(c)
    ensures Run(digit, t, Scan(None, armed)).closer.None?
  {
    if t != [] {
      PlainStaysOutside(digit, t[1..], Step(digit, Scan(None, armed), t[0]).armed);
    }
  }

  /** Substituting in the unquoted segments and joining is the one-pass eraser. */
  lemma {:induction false} SegmentsRefineErase(digit: DigitClass, segments: seq<Segment>)
    requires WellSegmented(segments)
    ensures JoinRendered(digit, segments) == Erase(digit, Flatten(segments), [], OUTSIDE)
  {
    if segments != [] {
      assert PieceOk(segments, 0);
      TailWellSegmented(segments);
      var t, tail := segments[0].text, Flatten(segments[1..]);
      SegmentsRefineErase(digit, segments[1..]);
      EraseAppend(digit, t, tail, [], OUTSIDE);
      assert tail + [] == tail;
      if segments[0].quoted {
        QuotedPieceExact(digit, t, tail, false);
      } else {
        if |segments| > 1 {
          assert PieceOk(segments, 1);
          assert tail[0] == segments[1].text[0];
        }
        EraseLocal(digit, t, tail, OUTSIDE);
        assert t[0..] == t;
        SubstituteIsErase(digit, t, 0, false);
        PlainStaysOutside(digit, t, false);
        EraseUnarmed(digit, tail, [], None, Run(digit, t, OUTSIDE).armed);
      }
    }
  }

  // ---- which characters go: a reference definition by position ----

  ghost predicate DigitBefore(digit: DigitClass, t: string, i: nat)
    requires i <= |t|
  {
    exists a | 0 <= a < i :: digit(t[a]) && forall k | a < k < i :: IsGroupSpace(t[k])
  }

  /** Position `i` lies outside quotation marks, in a run of group spaces between two digits. */
  ghost predicate InDigitGap(digit: DigitClass, t: string, i: nat)
    requires i < |t|
  {
    && Run(digit, t[..i], OUTSIDE).closer.None?
    && IsGroupSpace(t[i])
    && DigitBefore(digit, t, i)
    && RunEnd(t, i) < |t| && digit(t[RunEnd(t, i)])
  }

  ghost function KeepOutsideGaps(digit: DigitClass, t: string, i: nat): string
    requires i <= |t|
    decreases |t| - i
  {
    if i == |t| then []
    else (if InDigitGap(digit, t, i) then [] else [t[i]]) + KeepOutsideGaps(digit, t, i + 1)
  }

  lemma {:induction false} RunKnowsDigitBefore(digit: DigitClass, t: string, i: nat)
    requires i <= |t|
    ensures var s := Run(digit, t[..i], OUTSIDE);
            && (s.closer.Some? ==> IsQuoteMark(s.closer.value) && !s.armed)
            && (s.closer.None? ==> (s.armed <==> DigitBefore(digit, t, i)))
    decreases i
  {
    if i > 0 {
      RunKnowsDigitBefore(digit, t, i - 1);
      assert t[..i] == t[..i - 1] + [t[i - 1]];
      RunAppend(digit, t[..i - 1], [t[i - 1]], OUTSIDE);
      var s, c := Run(digit, t[..i - 1], OUTSIDE), t[i - 1];
      assert Run(digit, [c], s) == Step(digit, s, c);
      if digit(c) {
        assert DigitBefore(digit, t, i);
      } else if IsGroupSpace(c) {
        if DigitBefore(digit, t, i - 1) {
          var a :| 0 <= a < i - 1 && digit(t[a]) && forall k | a < k < i - 1 :: IsGroupSpace(t[k]);
          assert forall k | a < k < i :: IsGroupSpace(t[k]);
        }
        if DigitBefore(digit, t, i) {
          var a :| 0 <= a < i && digit(t[a]) && forall k | a < k < i :: IsGroupSpace(t[k]);
          assert 0 <= a < i - 1;
        }
      }
    }
  }

  lemma {:induction false} ErasesGapsFrom(digit: DigitClass, t: string, i: nat)
    requires i <= |t|
    ensures Erase(digit, t[i..], [], Run(digit, t[..i], OUTSIDE)) == KeepOutsideGaps(digit, t, i)
    decreases |t| - i
  {
    if i < |t| {
      var s := Run(digit, t[..i], OUTSIDE);
      assert t[i..][1..] == t[i + 1..];
      assert t[i + 1..] + [] == t[i + 1..];
      assert t[..i + 1] == t[..i] + [t[i]];
      RunAppend(digit, t[..i], [t[i]], OUTSIDE);
      assert Run(digit, [t[i]], s) == Step(digit, s, t[i]);
      ErasesGapsFrom(digit, t, i + 1);
      RunKnowsDigitBefore(digit, t, i);
      DigitAfterRunAt(digit, t, i + 1);
    }
  }

  /** The eraser drops exactly the positions that sit in a digit gap outside quotation marks. */
  lemma ErasesExactlyGaps(digit: DigitClass, t: string)
    ensures Erase(digit, t, [], OUTSIDE) == KeepOutsideGaps(digit, t, 0)
  {
    assert t[0..] == t && t[..0] == [];
    ErasesGapsFrom(digit, t, 0);
  }

  // ---- the check ----

  /** One layer of quotation marks around a span is dropped, and the span trimmed. */
  function StripWrappingQuotes(quote: string): (r: string)
    ensures r == [] || Trimmed(r)
  {
    var q := Strip(quote);
    if |q| >= 2 && IsQuoteMark(q[0]) && q[|q| - 1] == MarkClosing(q[0])
    then Strip(q[1..|q| - 1])
    else q
  }

  datatype Reason = Verbatim | EmptyQuote | EmptySource | CaseMismatch | NotInSource

  datatype QuoteCheck = QuoteCheck(valid: bool, reason: Reason, quote: string, normalized: string)

  /** Does the quote occur verbatim in the source? `fold` is the case folding of the platform. */
  function VerifyQuote(digit: DigitClass, fold: string -> string, quote: Option<string>, source: Option<string>)
    : QuoteCheck
  {
    if quote.None? || Strip(quote.value) == [] then QuoteCheck(false, EmptyQuote, [], [])
    else if source.None? || Strip(source.value) == [] then QuoteCheck(false, EmptySource, quote.value, [])
    else
      var bare := StripWrappingQuotes(quote.value);
      if bare == [] then QuoteCheck(false, EmptyQuote, quote.value, [])
      else
        var needle := Normalize(digit, bare);
        var haystack := Normalize(digit, source.value);
        if needle == [] then QuoteCheck(false, EmptyQuote, quote.value, [])
        else if Contains(haystack, needle) then QuoteCheck(true, Verbatim, bare, needle)
        else if Contains(fold(haystack), fold(needle)) then QuoteCheck(false, CaseMismatch, bare, needle)
        else QuoteCheck(false, NotInSource, bare, needle)
  }
}
