/** What the quote check promises: nothing passes that is not in the source (soundness), every span
    that starts outside quotation marks passes (completeness, with its exact extent), and when
    normalising twice, or checking a published quote again, changes nothing. */
module QuoteLaws {
  import opened Text
  import opened Quotes

  // ---- soundness ----

  lemma {:induction false} InkOfErase(digit: DigitClass, t: string, rest: string, s: Scan)
    ensures Ink(Erase(digit, t, rest, s)) == Ink(t)
  {
    if t != [] {
      var next := Step(digit, s, t[0]);
      InkOfErase(digit, t[1..], rest, next);
      InkAppend(if Drops(digit, s, t[0], t[1..] + rest) then [] else [t[0]], Erase(digit, t[1..], rest, next));
    }
  }

  /** Normalising erases whitespace and nothing else. */
  lemma InkOfNormalize(digit: DigitClass, t: string, closer: Option<char>)
    ensures Ink(NormalizeFrom(digit, t, closer)) == Ink(t)
  {
    InkOfErase(digit, t, [], Scan(closer, false));
    InkOfCollapse(Erase(digit, t, [], Scan(closer, false)));
  }

  lemma TrimmedHasNormalForm(digit: DigitClass, t: string)
    requires Trimmed(t)
    ensures Normalize(digit, t) != []
  {
    InkOfTrimmed(t);
    InkOfNormalize(digit, t, None);
  }

  lemma FoundInNonBlank(digit: DigitClass, source: string, needle: string)
    requires Contains(Normalize(digit, source), needle) && needle != []
    ensures Strip(source) != []
  {
    var n := Normalize(digit, source);
    assert n != [] && Trimmed(n);
    InkOfTrimmed(n);
    InkOfNormalize(digit, source, None);
    InkOfStrip(source);
  }

  lemma BareNeedsQuote(quote: string)
    requires StripWrappingQuotes(quote) != []
    ensures Strip(quote) != []
  {
  }

  /** A verdict is `valid` exactly when the bare quote is not empty and its normal form occurs in the source's. */
  lemma ValidExactly(digit: DigitClass, fold: string -> string, quote: string, source: string)
    ensures var check, bare := VerifyQuote(digit, fold, Some(quote), Some(source)), StripWrappingQuotes(quote);
            && (check.valid <==> bare != [] && Contains(Normalize(digit, source), Normalize(digit, bare)))
            && (check.valid <==> check.reason == Verbatim)
            && (check.valid ==> check.quote == bare)
  {
    hide Normalize, Contains, Strip, StripWrappingQuotes;
    var bare := StripWrappingQuotes(quote);
    if bare != [] {
      var needle := Normalize(digit, bare);
      assert Strip(quote) != [] by { BareNeedsQuote(quote); }
      assert needle != [] by { TrimmedHasNormalForm(digit, bare); }
      assert Contains(Normalize(digit, source), needle) ==> Strip(source) != [] by {
        if Contains(Normalize(digit, source), needle) {
          FoundInNonBlank(digit, source, needle);
        }
      }
    }
  }

  /** A refusal names its reason: a blank quote or one that is nothing but marks, a blank source, a span that is there
      but for its case, or one that is not there. */
  lemma RefusedByName(digit: DigitClass, fold: string -> string, quote: string, source: string)
    ensures var reason, bare := VerifyQuote(digit, fold, Some(quote), Some(source)).reason, StripWrappingQuotes(quote);
            var found := Contains(Normalize(digit, source), Normalize(digit, bare));
            var foundFolded := Contains(fold(Normalize(digit, source)), fold(Normalize(digit, bare)));
            && (reason == EmptyQuote <==> Strip(quote) == [] || (bare == [] && Strip(source) != []))
            && (reason == EmptySource <==> Strip(quote) != [] && Strip(source) == [])
            && (reason == CaseMismatch <==> bare != [] && Strip(source) != [] && !found && foundFolded)
            && (reason == NotInSource <==> bare != [] && Strip(source) != [] && !found && !foundFolded)
  {
    hide Normalize, Contains, Strip, StripWrappingQuotes;
    var bare := StripWrappingQuotes(quote);
    if bare != [] {
      BareNeedsQuote(quote);
      TrimmedHasNormalForm(digit, bare);
      if Contains(Normalize(digit, source), Normalize(digit, bare)) {
        FoundInNonBlank(digit, source, Normalize(digit, bare));
      }
    }
  }

  /** Soundness: the ink of an accepted quote is a non-empty contiguous block of the ink of the source. */
  lemma ValidQuoteIsInSource(digit: DigitClass, fold: string -> string, quote: Option<string>, source: Option<string>)
    ensures var check := VerifyQuote(digit, fold, quote, source);
            check.valid ==> && quote.Some? && source.Some? && Trimmed(check.quote) && Ink(check.quote) != []
                            && Contains(Ink(source.value), Ink(check.quote))
  {
    if VerifyQuote(digit, fold, quote, source).valid {
      var bare := StripWrappingQuotes(quote.value);
      ValidExactly(digit, fold, quote.value, source.value);
      InkOfTrimmed(bare);
      InkContains(Normalize(digit, source.value), Normalize(digit, bare));
      InkOfNormalize(digit, bare, None);
      InkOfNormalize(digit, source.value, None);
    }
  }

  // ---- completeness ----

  lemma {:induction false} EraseKeepsEnds(digit: DigitClass, t: string, closer: Option<char>)
    requires Trimmed(t)
    ensures var e := Erase(digit, t, [], Scan(closer, false));
            Trimmed(e) && e[0] == t[0]
  {
    var front, last := t[..|t| - 1], t[|t| - 1..];
    assert t == front + last;
    EraseAppend(digit, front, last, [], Scan(closer, false));
    assert Erase(digit, last, [], Run(digit, front, Scan(closer, false))) == last;
  }

  lemma EraseInMiddle(digit: DigitClass, p: string, b: string, s: string) returns (before: string, after: string)
    requires Trimmed(b)
    ensures Erase(digit, p + b + s, [], OUTSIDE)
         == before + Erase(digit, b, [], Scan(Run(digit, p, OUTSIDE).closer, false)) + after
    ensures Ink(before) == Ink(p) && Ink(after) == Ink(s)
  {
    hide Erase, Run, Ink;
    var at := Run(digit, p, OUTSIDE);
    assert p + b + s == p + (b + s) && s + [] == s;
    EraseAppend(digit, p, b + s, [], OUTSIDE);
    EraseAppend(digit, b, s, [], at);
    EraseLocal(digit, b, s, at);
    EraseUnarmed(digit, b, [], at.closer, at.armed);
    before, after := Erase(digit, p, b + s + [], OUTSIDE), Erase(digit, s, [], Run(digit, b, at));
    InkOfErase(digit, p, b + s + [], OUTSIDE);
    InkOfErase(digit, s, [], Run(digit, b, at));
  }

  /** The normal form of a text around a trimmed span: the span as it reads from the scanner state in front of it, and
      on either side the ink of what surrounds it. */
  lemma NormalizeAround(digit: DigitClass, p: string, b: string, s: string) returns (x: string, y: string)
    requires Trimmed(b)
    ensures Normalize(digit, p + b + s) == x + NormalizeFrom(digit, b, Run(digit, p, OUTSIDE).closer) + y
    ensures Ink(x) == Ink(p) && Ink(y) == Ink(s)
  {
    var closer := Run(digit, p, OUTSIDE).closer;
    var before, after := EraseInMiddle(digit, p, b, s);
    EraseKeepsEnds(digit, b, closer);
    x, y := CollapseAround(before, Erase(digit, b, [], Scan(closer, false)), after);
  }

  lemma NormalFormTrimmed(digit: DigitClass, b: string, closer: Option<char>)
    requires Trimmed(b)
    ensures Trimmed(NormalizeFrom(digit, b, closer))
  {
    EraseKeepsEnds(digit, b, closer);
    SqueezeTrimmed(Erase(digit, b, [], Scan(closer, false)), false);
  }

  /** A trimmed span is carried by the normalised text as it reads from the scanner state in front of it. */
  lemma SpanIsPlaced(digit: DigitClass, p: string, b: string, s: string)
    requires Trimmed(b)
    ensures Contains(Normalize(digit, p + b + s), NormalizeFrom(digit, b, Run(digit, p, OUTSIDE).closer))
  {
    var x, y := NormalizeAround(digit, p, b, s);
    ContainsMiddle(x, NormalizeFrom(digit, b, Run(digit, p, OUTSIDE).closer), y);
  }

  /** Completeness: a quote taken from where the source's scanner is outside quotation marks is accepted,
      whatever quotation marks the quote itself opens, closes or leaves open. */
  lemma SpanOutsideQuotesIsValid(digit: DigitClass, fold: string -> string, quote: string, p: string, s: string)
    requires StripWrappingQuotes(quote) != []
    requires Run(digit, p, OUTSIDE).closer.None?
    ensures VerifyQuote(digit, fold, Some(quote), Some(p + StripWrappingQuotes(quote) + s)).valid
  {
    var bare := StripWrappingQuotes(quote);
    SpanIsPlaced(digit, p, bare, s);
    ValidExactly(digit, fold, quote, p + bare + s);
  }

  /** `b` has one normal form, whichever quotation mark the scanner may be waiting for in front of it. */
  ghost predicate ReadsTheSameAnywhere(digit: DigitClass, b: string) {
    forall o | IsOpener(o) :: NormalizeFrom(digit, b, Some(CloserOf(o))) == Normalize(digit, b)
  }

  ghost predicate FoundBetween(digit: DigitClass, p: string, b: string, s: string) {
    Contains(Normalize(digit, p + b + s), Normalize(digit, b))
  }

  lemma {:induction false} AwaitedCloser(digit: DigitClass, p: string, s: Scan)
    requires s.closer.None? || exists o :: IsOpener(o) && s.closer.value == CloserOf(o)
    ensures var c := Run(digit, p, s).closer;
            c.None? || exists o :: IsOpener(o) && c.value == CloserOf(o)
  {
    if p != [] {
      var next := Step(digit, s, p[0]);
      if s.closer.None? && IsOpener(p[0]) {
        assert IsOpener(p[0]) && next.closer.value == CloserOf(p[0]);
      }
      AwaitedCloser(digit, p[1..], next);
    }
  }

  lemma {:induction false} NoDigitNoErasure(digit: DigitClass, t: string, closer: Option<char>)
    requires forall c <- t :: !digit(c)
    ensures Erase(digit, t, [], Scan(closer, false)) == t
  {
    if t != [] {
      assert Step(digit, Scan(closer, false), t[0]) == Scan(Step(digit, Scan(closer, false), t[0]).closer, false);
      NoDigitNoErasure(digit, t[1..], Step(digit, Scan(closer, false), t[0]).closer);
      assert [t[0]] + t[1..] == t;
    }
  }

  lemma {:induction false} InkHolds(t: string, c: char)
    requires c in t && !IsSpace(c)
    ensures c in Ink(t)
  {
    if t[0] != c {
      InkHolds(t[1..], c);
    }
  }

  // Where one text can sit in another of almost the same ink.

  lemma {:induction false} ConstantFromLeft(o: char, n: string, k: nat)
    requires k < |n| && forall i | 0 <= i < |n| :: n[i] == ([o] + n)[i]
    ensures n[k] == o
  {
    if k > 0 {
      ConstantFromLeft(o, n, k - 1);
      assert n[k] == ([o] + n)[k] == n[k - 1];
    }
  }

  lemma {:induction false} ConstantFromRight(c: char, n: string, k: nat)
    requires k < |n| && forall i | 0 <= i < |n| :: n[i] == (n + [c])[i + 1]
    ensures n[k] == c
    decreases |n| - k
  {
    if k < |n| - 1 {
      ConstantFromRight(c, n, k + 1);
      assert n[k] == (n + [c])[k + 1] == n[k + 1];
    }
  }

  lemma ShiftedLeft(o: char, n: string, y: string, z: string)
    requires [o] + n + y == n + z
    ensures forall c <- n :: c == o
  {
    forall k | 0 <= k < |n|
      ensures n[k] == ([o] + n)[k]
    {
      assert n[k] == (n + z)[k] == ([o] + n + y)[k];
    }
    forall k | 0 <= k < |n|
      ensures n[k] == o
    {
      ConstantFromLeft(o, n, k);
    }
  }

  lemma ShiftedRight(o: char, n: string, c: char, a: string)
    requires [o] + n + [c] == a + n && |a| == 2
    ensures forall d <- n :: d == c
  {
    forall k | 0 <= k < |n|
      ensures n[k] == (n + [c])[k + 1]
    {
      assert n[k] == (a + n)[k + 2] == ([o] + n + [c])[k + 2];
      assert [o] + n + [c] == [o] + (n + [c]);
    }
    forall k | 0 <= k < |n|
      ensures n[k] == c
    {
      ConstantFromRight(c, n, k);
    }
  }

  /** A text found in itself between one mark and at most one more: it is where it was, or is that mark throughout. */
  lemma FoundBetweenMarks(o: char, n: string, y: string, a: string, z: string)
    requires |y| <= 1 && [o] + n + y == a + n + z
    ensures (a == [o] && z == y) || (forall c <- n :: c == o) || (y != [] && forall c <- n :: c == y[0])
  {
    var hay := [o] + n + y;
    assert |hay| == |a| + |n| + |z|;
    if |a| == 0 {
      assert a + n + z == n + z;
      ShiftedLeft(o, n, y, z);
    } else if |a| == 2 {
      assert y == [y[0]] && a + n + z == a + n;
      ShiftedRight(o, n, y[0], a);
    } else {
      assert a == hay[..1] == [o];
      assert z == hay[1 + |n|..] == y;
    }
  }

  lemma HeadsAlign(x: string, m: string, a: string, rest: string) returns (more: string)
    requires x + m == a + rest && |x| < |a|
    ensures a == x + more && more != [] && m != [] && more[0] == m[0]
  {
    var hay := a + rest;
    more := a[|x|..];
    assert a == hay[..|a|] && x == hay[..|x|] && hay[|x|] == m[0];
  }

  lemma TailsAlign(m: string, y: string, rest: string, z: string) returns (more: string)
    requires m + y == rest + z && |y| < |z|
    ensures z == more + y && more != [] && m != [] && more[|more| - 1] == m[|m| - 1]
  {
    var hay, k := rest + z, |z| - |y|;
    more := z[..k];
    assert y == hay[|hay| - |y|..] && z == hay[|hay| - |z|..] && z[k..] == y;
    assert z[k - 1] == hay[|rest| + k - 1];
  }

  lemma MoreInk(a: string, z: string, c: char)
    requires !IsSpace(c)
    ensures c in a ==> Ink(a + z) != Ink(z)
    ensures c in z ==> Ink(a + z) != Ink(a)
  {
    hide Ink, IsSpace;
    InkAppend(a, z);
    if c in a {
      InkHolds(a, c);
    }
    if c in z {
      InkHolds(z, c);
    }
  }

  lemma NotDeeper(x: string, m: string, a: string, rest: string)
    requires x + m == a + rest && m != [] && !IsSpace(m[0]) && Ink(a) == Ink(x)
    ensures |a| <= |x|
  {
    hide Ink, IsSpace;
    if |a| > |x| {
      var more := HeadsAlign(x, m, a, rest);
      MoreInk(x, more, m[0]);
    }
  }

  lemma NotShallower(m: string, y: string, rest: string, z: string)
    requires m + y == rest + z && m != [] && !IsSpace(m[|m| - 1]) && Ink(z) == Ink(y)
    ensures |z| <= |y|
  {
    hide Ink, IsSpace;
    if |z| > |y| {
      var more := TailsAlign(m, y, rest, z);
      MoreInk(more, y, m[|m| - 1]);
    }
  }

  lemma MiddleOf(x: string, m: string, y: string)
    ensures |x + m + y| == |x| + |m| + |y| && (x + m + y)[|x|..|x| + |m|] == m
  {
  }

  /** Between the same ink there is only one place for a trimmed text. */
  lemma SameInkSamePlace(x: string, inside: string, y: string, a: string, needle: string, z: string)
    requires x + inside + y == a + needle + z && Trimmed(inside) && Trimmed(needle)
    requires Ink(a) == Ink(x) && Ink(z) == Ink(y)
    ensures needle == inside
  {
    hide Ink;
    Regroup(x, inside, y);
    Regroup(a, needle, z);
    NotDeeper(x, inside + y, a, needle + z);
    NotDeeper(a, needle + z, x, inside + y);
    NotShallower(x + inside, y, a + needle, z);
    NotShallower(a + needle, z, x + inside, y);
    MiddleOf(x, inside, y);
    MiddleOf(a, needle, z);
  }

  lemma InkOfThree(a: string, m: string, z: string)
    ensures Ink(a + m + z) == Ink(a) + Ink(m) + Ink(z)
  {
    InkAppend(a + m, z);
    InkAppend(a, m);
  }

  /** A text of the same ink as the one between two marks is not found there, unless it is that one, or marks only. */
  lemma NotFoundBetweenMarks(o: char, x: string, inside: string, y: string, needle: string)
    requires Trimmed(inside) && Trimmed(needle) && Ink(inside) == Ink(needle) && needle != inside
    requires Ink(x) == [o] && |Ink(y)| <= 1
    requires exists c <- Ink(needle) :: c != o
    requires Ink(y) != [] ==> exists c <- Ink(needle) :: c != Ink(y)[0]
    ensures !Contains(x + inside + y, needle)
  {
    if Contains(x + inside + y, needle) {
      var a, z := ContainsSplit(x + inside + y, needle);
      InkOfThree(x, inside, y);
      InkOfThree(a, needle, z);
      FoundBetweenMarks(o, Ink(needle), Ink(y), Ink(a), Ink(z));
      SameInkSamePlace(x, inside, y, a, needle, z);
    }
  }

  lemma ReadingsDifferInMoreThanMarks(digit: DigitClass, mark: char, b: string, closer: char)
    requires IsQuoteMark(mark) && NormalizeFrom(digit, b, Some(closer)) != Normalize(digit, b)
    ensures exists c <- Ink(b) :: c != mark
  {
    if forall c <- Ink(b) :: c == mark {
      InkWithoutDigits(digit, b, mark);
      NoDigitNoErasure(digit, b, None);
      NoDigitNoErasure(digit, b, Some(closer));
    }
  }

  lemma InkWithoutDigits(digit: DigitClass, b: string, mark: char)
    requires IsQuoteMark(mark) && forall c <- Ink(b) :: c == mark
    ensures forall c <- b :: !digit(c)
  {
    forall c <- b
      ensures !digit(c)
    {
      if !IsSpace(c) {
        InkHolds(b, c);
      }
    }
  }

  /** Behind one mark, and in front of at most one, a span that reads differently there is missed. */
  lemma MissedBetweenMarks(digit: DigitClass, o: char, p: string, b: string, s: string)
    requires IsOpener(o) && Trimmed(b)
    ensures && Ink(p) == [o] && Run(digit, p, OUTSIDE).closer == Some(CloserOf(o))
            && |Ink(s)| <= 1 && (forall c <- Ink(s) :: IsQuoteMark(c))
            && NormalizeFrom(digit, b, Some(CloserOf(o))) != Normalize(digit, b)
            ==> !FoundBetween(digit, p, b, s)
  {
    hide NormalizeFrom, IsQuoteMark, CloserOf, Contains, Trimmed, Run;
    if || Ink(p) != [o] || Run(digit, p, OUTSIDE).closer != Some(CloserOf(o))
       || |Ink(s)| > 1 || !(forall c <- Ink(s) :: IsQuoteMark(c))
       || NormalizeFrom(digit, b, Some(CloserOf(o))) == Normalize(digit, b)
    {
      return;
    }
    var needle, inside := NormalizeFrom(digit, b, None), NormalizeFrom(digit, b, Some(CloserOf(o)));
    var x, y := NormalizeAround(digit, p, b, s);
    NormalFormTrimmed(digit, b, None);
    NormalFormTrimmed(digit, b, Some(CloserOf(o)));
    InkOfNormalize(digit, b, None);
    InkOfNormalize(digit, b, Some(CloserOf(o)));
    OpenerIsMark(o);
    ReadingsDifferInMoreThanMarks(digit, o, b, CloserOf(o));
    if Ink(s) != [] {
      ReadingsDifferInMoreThanMarks(digit, Ink(s)[0], b, CloserOf(o));
    }
    NotFoundBetweenMarks(o, x, inside, y, needle);
  }

  lemma OpenerIsMark(o: char)
    requires IsOpener(o)
    ensures IsQuoteMark(o)
  {
  }

  /** A span whose reading inside a quotation differs is missed when its source opens that quotation. */
  lemma MissedInsideQuotes(digit: DigitClass, o: char, b: string)
    requires IsOpener(o) && Trimmed(b)
    requires NormalizeFrom(digit, b, Some(CloserOf(o))) != Normalize(digit, b)
    ensures !FoundBetween(digit, [o], b, [])
  {
    assert Run(digit, [o], OUTSIDE) == Run(digit, [], Step(digit, OUTSIDE, o));
    MissedBetweenMarks(digit, o, [o], b, []);
  }

  lemma FoundIfReadTheSame(digit: DigitClass, b: string)
    requires Trimmed(b)
    ensures (forall p, s :: FoundBetween(digit, p, b, s)) <==> ReadsTheSameAnywhere(digit, b)
  {
    if ReadsTheSameAnywhere(digit, b) {
      forall p, s
        ensures FoundBetween(digit, p, b, s)
      {
        SpanIsPlaced(digit, p, b, s);
        AwaitedCloser(digit, p, OUTSIDE);
      }
    } else {
      var o :| IsOpener(o) && NormalizeFrom(digit, b, Some(CloserOf(o))) != Normalize(digit, b);
      MissedInsideQuotes(digit, o, b);
    }
  }

  // ---- normalising twice ----

  /** A digit, group spaces only, a digit, outside quotation marks. `armed` and `gap` say that a digit,
      or a digit and a group space, came just before. */
  predicate HasGroupGap(digit: DigitClass, t: string, closer: Option<char>, armed: bool, gap: bool) {
    t != [] &&
    var c, next := t[0], Step(digit, Scan(closer, armed), t[0]);
    if closer.Some? || IsOpener(c) then HasGroupGap(digit, t[1..], next.closer, false, false)
    else if IsGroupSpace(c) then HasGroupGap(digit, t[1..], None, armed, armed)
    else (gap && digit(c)) || HasGroupGap(digit, t[1..], None, digit(c), false)
  }

  /** A digit, whitespace of which some is no group space, a digit, outside quotation marks. `armed` and
      `mixed` say that a digit, or a digit and whitespace of another kind, came before. */
  predicate HasMixedGap(digit: DigitClass, t: string, closer: Option<char>, armed: bool, mixed: bool) {
    t != [] &&
    var c, next := t[0], Step(digit, Scan(closer, armed), t[0]);
    if closer.Some? || IsOpener(c) then HasMixedGap(digit, t[1..], next.closer, false, false)
    else if IsSpace(c) then HasMixedGap(digit, t[1..], None, armed, mixed || (armed && !IsGroupSpace(c)))
    else (armed && mixed && digit(c)) || HasMixedGap(digit, t[1..], None, digit(c), false)
  }

  lemma {:induction false} EraseShrinks(digit: DigitClass, t: string, s: Scan)
    ensures |Erase(digit, t, [], s)| <= |t|
    ensures |Erase(digit, t, [], s)| == |t| ==> Erase(digit, t, [], s) == t
  {
    if t != [] {
      EraseShrinks(digit, t[1..], Step(digit, s, t[0]));
      assert [t[0]] + t[1..] == t;
    }
  }

  /** The eraser drops something if and only if there is a gap of group spaces. */
  lemma {:induction false} ErasesOnlyGroupGaps(
    digit: DigitClass, t: string, closer: Option<char>, armed: bool, gap: bool)
    requires closer.Some? ==> !armed
    requires gap ==> armed
    ensures HasGroupGap(digit, t, closer, armed, gap)
       <==> (gap && DigitAfterRun(digit, t)) || |Erase(digit, t, [], Scan(closer, armed))| < |t|
  {
    if t != [] {
      var c, next := t[0], Step(digit, Scan(closer, armed), t[0]);
      assert t[1..] + [] == t[1..];
      EraseShrinks(digit, t[1..], next);
      if closer.Some? || IsOpener(c) {
        ErasesOnlyGroupGaps(digit, t[1..], next.closer, false, false);
      } else if IsGroupSpace(c) {
        ErasesOnlyGroupGaps(digit, t[1..], None, armed, armed);
      } else {
        ErasesOnlyGroupGaps(digit, t[1..], None, digit(c), false);
      }
    }
  }

  lemma SqueezeOfErase(digit: DigitClass, t: string, s: Scan, r: bool)
    requires t != []
    ensures var c, rest := t[0], Erase(digit, t[1..], [], Step(digit, s, t[0]));
            Squeeze(Erase(digit, t, [], s), r)
            == if Drops(digit, s, c, t[1..]) then Squeeze(rest, r)
               else if !IsSpace(c) then [c] + Squeeze(rest, false)
               else if r then Squeeze(rest, true) else [' '] + Squeeze(rest, true)
  {
    var c, rest := t[0], Erase(digit, t[1..], [], Step(digit, s, t[0]));
    assert t[1..] + [] == t[1..] && [] + rest == rest;
    assert ([c] + rest)[1..] == rest;
  }

  lemma GapFrom(digit: DigitClass, c: char, tail: string, closer: Option<char>, armed: bool, gap: bool)
    ensures HasGroupGap(digit, [c] + tail, closer, armed, gap)
         == (if closer.Some? || IsOpener(c)
             then HasGroupGap(digit, tail, Step(digit, Scan(closer, armed), c).closer, false, false)
             else if IsGroupSpace(c) then HasGroupGap(digit, tail, None, armed, armed)
             else (gap && digit(c)) || HasGroupGap(digit, tail, None, digit(c), false))
  {
  }

  /** The gaps left after one pass are the mixed gaps of the original. `r` says that the squeezed text so
      far ends in a space. */
  lemma {:induction false} MixedGapsRemain(
    digit: DigitClass, t: string, closer: Option<char>, armed: bool, mixed: bool, r: bool)
    requires closer.Some? ==> !armed && !IsSpace(closer.value)
    requires mixed ==> armed && r
    requires armed && !mixed && r ==> !DigitAfterRun(digit, t)
    ensures var left := Squeeze(Erase(digit, t, [], Scan(closer, armed && !mixed)), r);
            HasGroupGap(digit, left, closer, armed, armed && r) <==> HasMixedGap(digit, t, closer, armed, mixed)
  {
    if t != [] {
      var c, s := t[0], Scan(closer, armed && !mixed);
      var next := Step(digit, s, c);
      var rest := Erase(digit, t[1..], [], next);
      SqueezeOfErase(digit, t, s, r);
      if Drops(digit, s, c, t[1..]) {
        MixedGapsRemain(digit, t[1..], closer, armed, mixed, r);
      } else if IsSpace(c) {
        GapFrom(digit, ' ', Squeeze(rest, true), closer, armed, armed && r);
        var armed', mixed' := closer.None? && armed, closer.None? && (mixed || (armed && !IsGroupSpace(c)));
        assert next == Scan(closer, armed' && !mixed');
        MixedGapsRemain(digit, t[1..], closer, armed', mixed', true);
      } else {
        GapFrom(digit, c, Squeeze(rest, false), closer, armed, armed && r);
        MixedGapsRemain(digit, t[1..], next.closer, next.armed, false, false);
      }
    }
  }

  lemma {:induction false} SqueezedSpaces(t: string, inRun: bool)
    ensures forall c <- Squeeze(t, inRun) :: IsSpace(c) ==> c == ' '
  {
    if t != [] {
      SqueezedSpaces(t[1..], IsSpace(t[0]));
    }
  }

  lemma {:induction false} GapAfterSpaces(digit: DigitClass, a: string, t: string)
    requires forall c <- a :: IsGroupSpace(c)
    ensures HasGroupGap(digit, a + t, None, false, false) == HasGroupGap(digit, t, None, false, false)
  {
    if a == [] {
      assert a + t == t;
    } else {
      assert a[0] in a;
      assert (a + t)[1..] == a[1..] + t;
      GapAfterSpaces(digit, a[1..], t);
    }
  }

  lemma {:induction false} GapBeforeSpaces(
    digit: DigitClass, t: string, z: string, closer: Option<char>, armed: bool, gap: bool)
    requires forall c <- z :: IsGroupSpace(c)
    ensures HasGroupGap(digit, t + z, closer, armed, gap) == HasGroupGap(digit, t, closer, armed, gap)
    decreases |t| + |z|
  {
    if t + z != [] {
      var u := t + z;
      var next := Step(digit, Scan(closer, armed), u[0]);
      if t == [] {
        assert u == z && u[0] in z;
        assert [] + z[1..] == z[1..] == u[1..];
        if closer.Some? {
          GapBeforeSpaces(digit, [], z[1..], next.closer, false, false);
        } else {
          GapBeforeSpaces(digit, [], z[1..], None, armed, armed);
        }
      } else {
        assert u[1..] == t[1..] + z;
        if closer.Some? || IsOpener(u[0]) {
          GapBeforeSpaces(digit, t[1..], z, next.closer, false, false);
        } else if IsGroupSpace(u[0]) {
          GapBeforeSpaces(digit, t[1..], z, None, armed, armed);
        } else {
          GapBeforeSpaces(digit, t[1..], z, None, digit(u[0]), false);
        }
      }
    }
  }

  lemma StripKeepsGaps(digit: DigitClass, q: string)
    requires forall c <- q :: IsSpace(c) ==> c == ' '
    ensures HasGroupGap(digit, Strip(q), None, false, false) == HasGroupGap(digit, q, None, false, false)
  {
    var a, z := StripParts(q);
    var n := Strip(q);
    assert forall c <- a :: c in q;
    assert forall c <- z :: c in q;
    Regroup(a, n, z);
    GapAfterSpaces(digit, a, n + z);
    GapBeforeSpaces(digit, n, z, None, false, false);
  }

  /** What a second pass would still erase: the mixed gaps of the original text. */
  lemma GapsAfterOnePass(digit: DigitClass, t: string)
    ensures HasGroupGap(digit, Normalize(digit, t), None, false, false) <==> HasMixedGap(digit, t, None, false, false)
  {
    var e := Erase(digit, t, [], OUTSIDE);
    MixedGapsRemain(digit, t, None, false, false, false);
    SqueezedSpaces(e, false);
    StripKeepsGaps(digit, Squeeze(e, false));
  }

  lemma NormalFormStable(digit: DigitClass, t: string, n: string)
    requires n == Normalize(digit, t)
    ensures Normalize(digit, n) == n <==> !HasGroupGap(digit, n, None, false, false)
  {
    ErasesOnlyGroupGaps(digit, n, None, false, false);
    EraseShrinks(digit, n, OUTSIDE);
    var again := Erase(digit, n, [], OUTSIDE);
    if again == n {
      CollapseIdempotent(Erase(digit, t, [], OUTSIDE));
    } else {
      SqueezeShrinks(again, false);
    }
  }

  /** Normalising twice changes nothing, exactly when no two digits outside quotation marks are separated
      by whitespace that is not all group spaces. */
  lemma NormalizeIdempotentExactly(digit: DigitClass, t: string)
    ensures Normalize(digit, Normalize(digit, t)) == Normalize(digit, t)
       <==> !HasMixedGap(digit, t, None, false, false)
  {
    GapsAfterOnePass(digit, t);
    NormalFormStable(digit, t, Normalize(digit, t));
  }

  lemma {:induction false} OnlyGroupSpacesNoMixedGap(digit: DigitClass, t: string, closer: Option<char>, armed: bool)
    requires forall c <- t :: IsSpace(c) ==> IsGroupSpace(c)
    ensures !HasMixedGap(digit, t, closer, armed, false)
  {
    if t != [] {
      assert t[0] in t;
      var next := Step(digit, Scan(closer, armed), t[0]);
      if closer.Some? || IsOpener(t[0]) {
        OnlyGroupSpacesNoMixedGap(digit, t[1..], next.closer, false);
      } else if IsSpace(t[0]) {
        OnlyGroupSpacesNoMixedGap(digit, t[1..], None, armed);
      } else {
        OnlyGroupSpacesNoMixedGap(digit, t[1..], None, digit(t[0]));
      }
    }
  }

  /** Text whose only whitespace is group spaces is normalised once and for all. */
  lemma NormalizeIdempotentOnGroupSpaces(digit: DigitClass, t: string)
    requires forall c <- t :: IsSpace(c) ==> IsGroupSpace(c)
    ensures Normalize(digit, Normalize(digit, t)) == Normalize(digit, t)
  {
    OnlyGroupSpacesNoMixedGap(digit, t, None, false);
    NormalizeIdempotentExactly(digit, t);
  }

  // ---- which spans are found everywhere, read off the span ----

  /** Somewhere a space between two digits is dropped by one of two readings of `t` and kept by the other: outside
      quotation marks for the one, inside for the other. */
  predicate ReadsApart(digit: DigitClass, t: string, s1: Scan, s2: Scan) {
    t != [] &&
    (|| Drops(digit, s1, t[0], t[1..]) != Drops(digit, s2, t[0], t[1..])
     || ReadsApart(digit, t[1..], Step(digit, s1, t[0]), Step(digit, s2, t[0])))
  }

  /** A reading between a digit and group spaces that another digit follows has not put down a space. */
  predicate GapAhead(digit: DigitClass, t: string, s: Scan) {
    s.closer.None? && s.armed && DigitAfterRun(digit, t)
  }

  lemma {:induction false} GapGoes(digit: DigitClass, t: string, s: Scan)
    requires GapAhead(digit, t, s)
    ensures var e := Erase(digit, t, [], s); e != [] && digit(e[0])
  {
    assert t[1..] + [] == t[1..];
    if IsGroupSpace(t[0]) {
      GapGoes(digit, t[1..], s);
    }
  }

  lemma SqueezedApart(digit: DigitClass, t: string, s1: Scan, s2: Scan)
    requires t != [] && Drops(digit, s1, t[0], t[1..]) && !Drops(digit, s2, t[0], t[1..])
    ensures Squeeze(Erase(digit, t, [], s1), false) != Squeeze(Erase(digit, t, [], s2), false)
  {
    assert t[1..] + [] == t[1..];
    GapGoes(digit, t, s1);
    SqueezeOfErase(digit, t, s2, false);
    var e1, e2 := Erase(digit, t, [], s1), Erase(digit, t, [], s2);
    assert Squeeze(e1, false)[0] == e1[0] != ' ';
    assert Squeeze(e2, false)[0] == ' ';
  }

  lemma SqueezedInStep(digit: DigitClass, t: string, s1: Scan, s2: Scan, r: bool)
    requires t != [] && Drops(digit, s1, t[0], t[1..]) == Drops(digit, s2, t[0], t[1..])
    ensures var e1 := Erase(digit, t[1..], [], Step(digit, s1, t[0]));
            var e2 := Erase(digit, t[1..], [], Step(digit, s2, t[0]));
            var r' := if Drops(digit, s1, t[0], t[1..]) then r else IsSpace(t[0]);
            Squeeze(Erase(digit, t, [], s1), r) == Squeeze(Erase(digit, t, [], s2), r)
            <==> Squeeze(e1, r') == Squeeze(e2, r')
  {
    hide Squeeze, Drops, Step, Erase;
    SqueezeOfErase(digit, t, s1, r);
    SqueezeOfErase(digit, t, s2, r);
    var e1 := Squeeze(Erase(digit, t[1..], [], Step(digit, s1, t[0])), IsSpace(t[0]));
    var e2 := Squeeze(Erase(digit, t[1..], [], Step(digit, s2, t[0])), IsSpace(t[0]));
    var head := if IsSpace(t[0]) then ' ' else t[0];
    assert ([head] + e1)[1..] == e1 && ([head] + e2)[1..] == e2;
  }

  lemma GapAheadStays(digit: DigitClass, t: string, s: Scan)
    requires t != []
    ensures GapAhead(digit, t[1..], Step(digit, s, t[0])) && IsSpace(t[0]) ==>
              GapAhead(digit, t, s) && Drops(digit, s, t[0], t[1..])
  {
  }

  /** Squeezed, two readings are the same exactly if they drop the same. */
  lemma {:induction false} SqueezedSameExactly(digit: DigitClass, t: string, s1: Scan, s2: Scan, r: bool)
    requires GapAhead(digit, t, s1) || GapAhead(digit, t, s2) ==> !r
    ensures Squeeze(Erase(digit, t, [], s1), r) == Squeeze(Erase(digit, t, [], s2), r)
       <==> !ReadsApart(digit, t, s1, s2)
  {
    if t != [] {
      hide Squeeze, Step, Erase;
      var drops1, drops2 := Drops(digit, s1, t[0], t[1..]), Drops(digit, s2, t[0], t[1..]);
      if drops1 && !drops2 {
        SqueezedApart(digit, t, s1, s2);
      } else if drops2 && !drops1 {
        SqueezedApart(digit, t, s2, s1);
      } else {
        SqueezedInStep(digit, t, s1, s2, r);
        GapAheadStays(digit, t, s1);
        GapAheadStays(digit, t, s2);
        var r' := if drops1 then r else IsSpace(t[0]);
        SqueezedSameExactly(digit, t[1..], Step(digit, s1, t[0]), Step(digit, s2, t[0]), r');
      }
    }
  }

  /** A span reads the same from outside and behind a mark exactly if the two readings drop the same. */
  lemma ReadsTheSameExactly(digit: DigitClass, b: string, closer: char)
    requires Trimmed(b)
    ensures NormalizeFrom(digit, b, Some(closer)) == Normalize(digit, b)
       <==> !ReadsApart(digit, b, OUTSIDE, Scan(Some(closer), false))
  {
    hide Squeeze, Erase, ReadsApart, Trimmed;
    EraseKeepsEnds(digit, b, None);
    EraseKeepsEnds(digit, b, Some(closer));
    SqueezeTrimmed(Erase(digit, b, [], OUTSIDE), false);
    SqueezeTrimmed(Erase(digit, b, [], Scan(Some(closer), false)), false);
    SqueezedSameExactly(digit, b, OUTSIDE, Scan(Some(closer), false), false);
  }

  /** Completeness, exactly: a span is found in every text that contains it, also inside quotation marks, if and only if
      no space between two digits of it is inside quotation marks for a reader from outside and outside for one behind
      an opening mark, or the other way round. */
  lemma FoundEverywhereExactly(digit: DigitClass, b: string)
    requires Trimmed(b)
    ensures (forall p, s :: FoundBetween(digit, p, b, s))
       <==> (forall o | IsOpener(o) :: !ReadsApart(digit, b, OUTSIDE, Scan(Some(CloserOf(o)), false)))
  {
    hide NormalizeFrom, Normalize, ReadsApart, CloserOf, FoundBetween;
    FoundIfReadTheSame(digit, b);
    forall o | IsOpener(o)
      ensures NormalizeFrom(digit, b, Some(CloserOf(o))) == Normalize(digit, b)
         <==> !ReadsApart(digit, b, OUTSIDE, Scan(Some(CloserOf(o)), false))
    {
      ReadsTheSameExactly(digit, b, CloserOf(o));
    }
  }

  lemma {:induction false} InsideDropsNothing(digit: DigitClass, t: string, armed: bool, closer: char)
    requires (forall c <- t :: !IsQuoteMark(c)) && IsQuoteMark(closer)
    ensures ReadsApart(digit, t, Scan(None, armed), Scan(Some(closer), false))
       <==> |Erase(digit, t, [], Scan(None, armed))| < |t|
  {
    if t != [] {
      assert t[0] in t;
      assert t[1..] + [] == t[1..];
      var next := Step(digit, Scan(None, armed), t[0]);
      EraseShrinks(digit, t[1..], next);
      InsideDropsNothing(digit, t[1..], next.armed, closer);
    }
  }

  /** So one without quotation marks is found everywhere if and only if no two of its digits are separated by group
      spaces alone. */
  lemma FoundEverywhereWithoutMarks(digit: DigitClass, b: string)
    requires Trimmed(b) && forall c <- b :: !IsQuoteMark(c)
    ensures (forall p, s :: FoundBetween(digit, p, b, s)) <==> !HasGroupGap(digit, b, None, false, false)
  {
    hide ReadsApart, HasGroupGap, Erase, FoundBetween;
    FoundEverywhereExactly(digit, b);
    ErasesOnlyGroupGaps(digit, b, None, false, false);
    forall o | IsOpener(o)
      ensures ReadsApart(digit, b, OUTSIDE, Scan(Some(CloserOf(o)), false)) <==> |Erase(digit, b, [], OUTSIDE)| < |b|
    {
      InsideDropsNothing(digit, b, false, CloserOf(o));
    }
    assert IsOpener('"');
  }

  // ---- the wrapper ----

  lemma {:induction false} StripLeftOfSpaces(a: string)
    requires forall c <- a :: IsSpace(c)
    ensures StripLeft(a) == []
  {
    if a != [] {
      StripLeftOfSpaces(a[1..]);
    }
  }

  lemma {:induction false} StripRightOfSpaces(z: string)
    requires forall c <- z :: IsSpace(c)
    ensures StripRight(z) == []
  {
  }

  /** Marks that belong together around a span, and whitespace around those, are dropped: one layer of them. */
  lemma UnwrapsOneLayer(a: string, open: char, span: string, z: string)
    requires IsQuoteMark(open) && (forall c <- a :: IsSpace(c)) && (forall c <- z :: IsSpace(c))
    ensures StripWrappingQuotes(a + ([open] + span + [MarkClosing(open)]) + z) == Strip(span)
  {
    var m := [open] + span + [MarkClosing(open)];
    StripAround(a, m, z);
    StripLeftOfSpaces(a);
    StripRightOfSpaces(z);
    assert [] + m + [] == m;
    assert m[1..|m| - 1] == span;
  }

  /** Whether a model put its span in quotation marks does not matter to the verdict or its reason. */
  lemma WrapperIsNoMatter(digit: DigitClass, fold: string -> string, open: char, span: string, source: string)
    requires IsQuoteMark(open) && span != [] && StripWrappingQuotes(span) == span
    ensures var bare, wrapped := VerifyQuote(digit, fold, Some(span), Some(source)),
                                 VerifyQuote(digit, fold, Some([open] + span + [MarkClosing(open)]), Some(source));
            wrapped.valid == bare.valid && wrapped.reason == bare.reason
  {
    hide StripWrappingQuotes, Strip, Normalize, Contains;
    var wrapped := [open] + span + [MarkClosing(open)];
    assert [] + wrapped + [] == wrapped;
    UnwrapsOneLayer([], open, span, []);
    assert Strip(span) == span by { StripTrimmed(span); }
    BareNeedsQuote(wrapped);
    BareNeedsQuote(span);
  }

  // ---- checking a published quote again ----

  /** `t` stands in two marks that belong together. */
  predicate Wrapped(t: string) {
    |t| >= 2 && IsQuoteMark(t[0]) && t[|t| - 1] == MarkClosing(t[0])
  }

  /** What is left of a wrapped text without its marks, and not nothing, reads the same between them as on its own. */
  predicate ReadsTheSameUnwrapped(digit: DigitClass, t: string)
    requires Wrapped(t)
  {
    var inner := StripWrappingQuotes(t);
    && inner != []
    && (IsOpener(t[0]) ==> !ReadsApart(digit, inner, OUTSIDE, Scan(Some(CloserOf(t[0])), false)))
  }

  lemma EndsOf(t: string)
    requires |t| >= 2
    ensures t == [t[0]] + t[1..|t| - 1] + [t[|t| - 1]]
  {
  }

  lemma WrappedBare(t: string)
    requires Wrapped(t) && Trimmed(t)
    ensures StripWrappingQuotes(t) == Strip(t[1..|t| - 1])
    ensures t == [t[0]] + t[1..|t| - 1] + [MarkClosing(t[0])]
  {
    hide Strip, IsQuoteMark, MarkClosing;
    StripTrimmed(t);
    EndsOf(t);
  }

  lemma RegroupFive(o: string, a: string, m: string, z: string, c: string)
    ensures o + (a + m + z) + c == o + a + m + (z + c)
  {
  }

  /** A wrapped text is a mark, whitespace, what is left without the marks, whitespace, and a mark. */
  lemma UnwrappedParts(t: string) returns (a: string, z: string)
    requires Wrapped(t) && Trimmed(t)
    ensures t == [t[0]] + a + StripWrappingQuotes(t) + (z + [MarkClosing(t[0])])
    ensures (forall c <- a :: IsSpace(c)) && (forall c <- z :: IsSpace(c))
  {
    hide StripWrappingQuotes, Strip, MarkClosing;
    WrappedBare(t);
    a, z := StripParts(t[1..|t| - 1]);
    RegroupFive([t[0]], a, StripWrappingQuotes(t), z, [MarkClosing(t[0])]);
  }

  lemma {:induction false} SpacesKeepState(digit: DigitClass, a: string, s: Scan)
    requires (forall c <- a :: IsSpace(c)) && (s.closer.Some? ==> IsQuoteMark(s.closer.value))
    ensures Run(digit, a, s).closer == s.closer
  {
    if a != [] {
      assert a[0] in a;
      SpacesKeepState(digit, a[1..], Step(digit, s, a[0]));
    }
  }

  lemma InkOfMarkAndSpaces(mark: char, a: string)
    requires IsQuoteMark(mark) && forall c <- a :: IsSpace(c)
    ensures Ink([mark] + a) == [mark] && Ink(a + [mark]) == [mark]
  {
    InkOfSpaces(a);
    InkAppend([mark], a);
    InkAppend(a, [mark]);
    assert Ink([mark]) == [mark];
  }

  lemma RunBehindMark(digit: DigitClass, mark: char, a: string)
    requires IsQuoteMark(mark) && forall c <- a :: IsSpace(c)
    ensures Run(digit, [mark] + a, OUTSIDE).closer == if IsOpener(mark) then Some(CloserOf(mark)) else None
  {
    assert ([mark] + a)[1..] == a;
    SpacesKeepState(digit, a, Step(digit, OUTSIDE, mark));
  }

  /** A wrapped text is found in itself without its marks exactly if it reads the same between them as on its own. */
  lemma UnwrappedFoundExactly(digit: DigitClass, t: string)
    requires Wrapped(t) && Trimmed(t) && StripWrappingQuotes(t) != []
    ensures Contains(Normalize(digit, t), Normalize(digit, StripWrappingQuotes(t))) <==> ReadsTheSameUnwrapped(digit, t)
  {
    hide Normalize, NormalizeFrom, Contains, StripWrappingQuotes, Run, ReadsApart;
    var inner := StripWrappingQuotes(t);
    ReadsTheSameExactly(digit, inner, CloserOf(t[0]));
    var a, z := UnwrappedParts(t);
    var p, s := [t[0]] + a, z + [MarkClosing(t[0])];
    InkOfMarkAndSpaces(t[0], a);
    InkOfMarkAndSpaces(MarkClosing(t[0]), z);
    RunBehindMark(digit, t[0], a);
    SpanIsPlaced(digit, p, inner, s);
    NormalizeIsFrom(digit, inner);
    if !ReadsTheSameUnwrapped(digit, t) {
      MissedBetweenMarks(digit, t[0], p, inner, s);
    }
  }

  lemma NormalizeIsFrom(digit: DigitClass, t: string)
    ensures Normalize(digit, t) == NormalizeFrom(digit, t, None)
  {
  }

  /** The quote a verdict publishes passes the check again on every source that accepted it, exactly if it is not itself
      in matching marks, or what is left without them is not empty and reads the same between them as on its own. */
  lemma PublishedQuotePassesAgainExactly(digit: DigitClass, fold: string -> string, quote: string)
    requires StripWrappingQuotes(quote) != []
    ensures var bare := StripWrappingQuotes(quote);
            (forall source | VerifyQuote(digit, fold, Some(quote), Some(source)).valid ::
               VerifyQuote(digit, fold, Some(bare), Some(source)).valid)
            <==> !Wrapped(bare) || ReadsTheSameUnwrapped(digit, bare)
  {
    hide Normalize, Contains, StripWrappingQuotes, VerifyQuote, ReadsTheSameUnwrapped;
    var bare := StripWrappingQuotes(quote);
    var inner := StripWrappingQuotes(bare);
    assert [] + Normalize(digit, bare) + [] == Normalize(digit, bare);
    ContainsMiddle([], Normalize(digit, bare), []);
    ValidExactly(digit, fold, quote, bare);
    ValidExactly(digit, fold, bare, bare);
    FoundInItselfExactly(digit, bare);
    if VerifyQuote(digit, fold, Some(bare), Some(bare)).valid {
      forall source | VerifyQuote(digit, fold, Some(quote), Some(source)).valid
        ensures VerifyQuote(digit, fold, Some(bare), Some(source)).valid
      {
        ValidExactly(digit, fold, quote, source);
        ValidExactly(digit, fold, bare, source);
        ContainsTransitive(Normalize(digit, source), Normalize(digit, bare), Normalize(digit, inner));
      }
    }
  }

  lemma FoundInItselfExactly(digit: DigitClass, bare: string)
    requires Trimmed(bare)
    ensures var inner := StripWrappingQuotes(bare);
            inner != [] && Contains(Normalize(digit, bare), Normalize(digit, inner))
            <==> !Wrapped(bare) || ReadsTheSameUnwrapped(digit, bare)
  {
    hide Normalize, NormalizeFrom, Contains;
    StripTrimmed(bare);
    if !Wrapped(bare) {
      assert [] + Normalize(digit, bare) + [] == Normalize(digit, bare);
      ContainsMiddle([], Normalize(digit, bare), []);
    } else if StripWrappingQuotes(bare) != [] {
      UnwrappedFoundExactly(digit, bare);
    }
  }

  // ---- where the promises stop: concrete texts ----

  const ASCII_DIGIT: DigitClass := c => '0' <= c <= '9'

  lemma EraseTwoGroups(closer: Option<char>)
    requires closer.None? || IsQuoteMark(closer.value)
    ensures Erase(ASCII_DIGIT, "9 2", [], Scan(closer, false)) == if closer.None? then "92" else "9 2"
  {
    assert "9 2"[1..] == " 2" && " 2"[1..] == "2";
    assert " 2" + [] == " 2" && "2" + [] == "2";
    var s := Scan(closer, closer.None?);
    assert Erase(ASCII_DIGIT, "2", [], s) == "2";
    assert Erase(ASCII_DIGIT, " 2", [], s) == if closer.None? then "2" else " 2";
  }

  lemma NormalizeTwoGroups(closer: Option<char>)
    requires closer.None? || IsQuoteMark(closer.value)
    ensures NormalizeFrom(ASCII_DIGIT, "9 2", closer) == if closer.None? then "92" else "9 2"
  {
    EraseTwoGroups(closer);
    var e := if closer.None? then "92" else "9 2";
    assert "9 2"[1..] == " 2" && " 2"[1..] == "2" && "92"[1..] == "2";
    assert Squeezed("2", true) && Squeezed("2", false);
    assert Squeezed(e, false);
    SqueezedStays(e, false);
    SqueezeTrimmed(e, false);
  }

  /** A digit group quoted out of a quotation is refused. */
  lemma GroupInsideQuotesIsMissed()
    ensures !FoundBetween(ASCII_DIGIT, "\"", "9 2", [])
  {
    NormalizeTwoGroups(None);
    NormalizeTwoGroups(Some('"'));
    MissedInsideQuotes(ASCII_DIGIT, '"', "9 2");
  }

  /** Digits separated by a tab take a second pass. */
  lemma TabTakesTwoPasses()
    ensures Normalize(ASCII_DIGIT, Normalize(ASCII_DIGIT, "9\t2")) != Normalize(ASCII_DIGIT, "9\t2")
  {
    assert "9\t2"[1..] == "\t2" && "\t2"[1..] == "2";
    assert HasMixedGap(ASCII_DIGIT, "2", None, true, true);
    assert HasMixedGap(ASCII_DIGIT, "\t2", None, true, false);
    NormalizeIdempotentExactly(ASCII_DIGIT, "9\t2");
  }

  /** A closed quotation without runs of whitespace is its own normal form. */
  lemma QuotationIsNormal(digit: DigitClass, t: string)
    requires Terminated(t) && Trimmed(t) && Squeezed(t, false)
    ensures Normalize(digit, t) == t
  {
    QuotedPieceExact(digit, t, [], false);
    SqueezedStays(t, false);
    StripTrimmed(t);
  }

  lemma NormalizeQuotedGroups()
    ensures Normalize(ASCII_DIGIT, "'9 2'") == "'9 2'"
  {
    var t := "'9 2'";
    assert t[1..4] == ['9', ' ', '2'] && '\'' !in ['9', ' ', '2'];
    assert Terminated(t);
    assert t[1..] == "9 2'" && "9 2'"[1..] == " 2'" && " 2'"[1..] == "2'" && "2'"[1..] == "'";
    assert Squeezed("'", false) && Squeezed("2'", true) && Squeezed(" 2'", false) && Squeezed("9 2'", false);
    QuotationIsNormal(ASCII_DIGIT, t);
  }

  lemma UnwrapTwice()
    ensures StripWrappingQuotes("\"'9 2'\"") == "'9 2'"
    ensures StripWrappingQuotes("'9 2'") == "9 2"
  {
    hide StripWrappingQuotes;
    assert [] + (['"'] + "'9 2'" + ['"']) + [] == "\"'9 2'\"";
    assert [] + (['\''] + "9 2" + ['\'']) + [] == "'9 2'";
    UnwrapsOneLayer([], '"', "'9 2'", []);
    UnwrapsOneLayer([], '\'', "9 2", []);
    StripTrimmed("'9 2'");
    StripTrimmed("9 2");
  }

  lemma PublishedThenRefused(digit: DigitClass, fold: string -> string, quote: string, published: string, inner: string)
    requires StripWrappingQuotes(quote) == published && StripWrappingQuotes(published) == inner
    requires published != [] && !Contains(Normalize(digit, published), Normalize(digit, inner))
    ensures VerifyQuote(digit, fold, Some(quote), Some(published)).valid
    ensures VerifyQuote(digit, fold, Some(quote), Some(published)).quote == published
    ensures !VerifyQuote(digit, fold, Some(published), Some(published)).valid
  {
    ContainsMiddle([], Normalize(digit, published), []);
    assert [] + Normalize(digit, published) + [] == Normalize(digit, published);
    ValidExactly(digit, fold, quote, published);
    ValidExactly(digit, fold, published, published);
  }

  lemma NotAdjacent()
    ensures !Contains("'9 2'", "92")
  {
    var t := "'9 2'";
    forall i | 0 <= i <= |t|
      ensures !OccursAt("92", t, i)
    {
      if i + 2 <= |t| {
        assert t[i..i + 2] == [t[i], t[i + 1]];
        assert "92" == ['9', '2'];
      }
    }
  }

  // ---- which characters are which ----

  /** Four pairs of marks keep the space between two digits. */
  lemma MarksKeepTheSpace(o: char, c: char)
    requires (o, c) in {('"', '"'), ('\'', '\''), ('\U{2018}', '\U{2019}'), ('\U{201C}', '\U{201D}')}
    ensures Normalize(ASCII_DIGIT, [o, '9', ' ', '2', c]) == [o, '9', ' ', '2', c]
  {
    var t := [o, '9', ' ', '2', c];
    assert t[1..4] == ['9', ' ', '2'];
    assert Terminated(t) && Trimmed(t);
    assert t[1..] == ['9', ' ', '2', c] && t[1..][1..] == [' ', '2', c];
    assert t[1..][1..][1..] == ['2', c] && ['2', c][1..] == [c] && [c][1..] == [];
    assert Squeezed([c], false) && Squeezed(['2', c], true) && Squeezed([' ', '2', c], false);
    assert Squeezed(['9', ' ', '2', c], false) && Squeezed(t, false);
    QuotationIsNormal(ASCII_DIGIT, t);
  }

  /** No other character does, unless it is a space or a digit itself. */
  lemma OthersDropTheSpace(x: char)
    requires x !in {'"', '\'', '\U{2018}', '\U{201C}'} && !IsSpace(x) && !('0' <= x <= '9')
    ensures Normalize(ASCII_DIGIT, [x] + "9 2") == [x] + "92"
  {
    assert ([x] + "9 2")[1..] == "9 2";
    EraseTwoGroups(None);
    assert Step(ASCII_DIGIT, OUTSIDE, x) == OUTSIDE;
    assert Erase(ASCII_DIGIT, [x] + "9 2", [], OUTSIDE) == [x] + "92";
    assert ([x] + "92")[1..] == "92" && "92"[1..] == "2" && "2"[1..] == [];
    assert Squeezed("2", false) && Squeezed("92", false) && Squeezed([x] + "92", false);
    SqueezedStays([x] + "92", false);
    StripTrimmed([x] + "92");
  }

  lemma EraseOne(g: char)
    ensures Erase(ASCII_DIGIT, ['9', g, '2'], [], OUTSIDE)
         == if g == ' ' || g == '\U{00A0}' || g == '\U{202F}' then "92" else ['9', g, '2']
  {
    var t, armed := ['9', g, '2'], Scan(None, true);
    assert t[1..] == [g, '2'] && [g, '2'][1..] == ['2'] && ['2'][1..] == [];
    assert [g, '2'] + [] == [g, '2'] && ['2'] + [] == ['2'];
    assert Erase(ASCII_DIGIT, ['2'], [], Step(ASCII_DIGIT, armed, g)) == ['2'];
    assert DigitAfterRun(ASCII_DIGIT, ['2']);
    assert Erase(ASCII_DIGIT, [g, '2'], [], armed) == if IsGroupSpace(g) then ['2'] else [g, '2'];
  }

  /** Three kinds of space between two digits are dropped; whitespace of another kind is kept, as a space. */
  lemma GroupSpacesAre(g: char)
    ensures Normalize(ASCII_DIGIT, ['9', g, '2'])
         == if g == ' ' || g == '\U{00A0}' || g == '\U{202F}' then "92"
            else if IsSpace(g) then "9 2" else ['9', g, '2']
  {
    hide Erase, IsGroupSpace, DigitAfterRun;
    EraseOne(g);
    if g == ' ' || g == '\U{00A0}' || g == '\U{202F}' {
      assert "92"[1..] == "2" && Squeezed("2", false) && Squeezed("92", false);
      SqueezedStays("92", false);
      StripTrimmed("92");
    } else {
      CollapseThree('9', g, '2');
    }
  }

  lemma CollapseThree(a: char, c: char, b: char)
    requires !IsSpace(a) && !IsSpace(b)
    ensures Collapse([a, c, b]) == [a, if IsSpace(c) then ' ' else c, b]
  {
    var t, r := [a, c, b], [a, if IsSpace(c) then ' ' else c, b];
    assert [b][1..] == [] && [c, b][1..] == [b] && t[1..] == [c, b];
    assert Squeeze([b], IsSpace(c)) == [b];
    assert Squeeze([c, b], false) == [r[1], b];
    assert Squeeze(t, false) == r;
    StripTrimmed(r);
  }

  /** Which pairs of marks wrap a span, and that nothing else does. */
  lemma WrappersAre(quote: string)
    requires Trimmed(quote)
    ensures var o, c := quote[0], quote[|quote| - 1];
            StripWrappingQuotes(quote)
            == if |quote| >= 2
                  && (o, c) in {('"', '"'), ('\'', '\''), ('\U{2018}', '\U{2019}'), ('\U{201C}', '\U{201D}'),
                                ('\U{2019}', '\U{2019}'), ('\U{201D}', '\U{201D}')}
               then Strip(quote[1..|quote| - 1]) else quote
  {
    hide Strip;
    StripTrimmed(quote);
  }

  /** Exactly these characters separate words. */
  lemma SpacesAre(c: char)
    ensures Collapse(['a', c, 'b'])
         == if || '\U{0009}' <= c <= '\U{000D}' || '\U{001C}' <= c <= '\U{0020}' || '\U{2000}' <= c <= '\U{200A}'
               || c in {'\U{0085}', '\U{00A0}', '\U{1680}', '\U{2028}', '\U{2029}', '\U{202F}', '\U{205F}', '\U{3000}'}
            then "a b" else ['a', c, 'b']
  {
    CollapseThree('a', c, 'b');
  }

  /** A quote in two layers of quotation marks is published in one, and refused when checked again. */
  lemma TwiceWrappedIsRefusedAgain(fold: string -> string)
    ensures var quote, published := "\"'9 2'\"", "'9 2'";
            && VerifyQuote(ASCII_DIGIT, fold, Some(quote), Some(published)).valid
            && VerifyQuote(ASCII_DIGIT, fold, Some(quote), Some(published)).quote == published
            && !VerifyQuote(ASCII_DIGIT, fold, Some(published), Some(published)).valid
  {
    UnwrapTwice();
    NormalizeQuotedGroups();
    NormalizeTwoGroups(None);
    NotAdjacent();
    PublishedThenRefused(ASCII_DIGIT, fold, "\"'9 2'\"", "'9 2'", "9 2");
  }
}
