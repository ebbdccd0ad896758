/** Text as sequences of characters: the whitespace Python's `strip` and `\s` see, trimming,
    collapsing runs of whitespace, and the substring test. */
module Text {

  datatype Option<+T> = None | Some(value: T)

  /** The characters Python treats as whitespace. */
  predicate IsSpace(c: char) {
    || '\U{0009}' <= c <= '\U{000D}'
    || '\U{001C}' <= c <= '\U{0020}'
    || c == '\U{0085}' || c == '\U{00A0}' || c == '\U{1680}'
    || '\U{2000}' <= c <= '\U{200A}'
    || c == '\U{2028}' || c == '\U{2029}' || c == '\U{202F}' || c == '\U{205F}' || c == '\U{3000}'
  }

  /** `t` starts and ends with a character that is not whitespace. */
  predicate Trimmed(t: string) {
    t != [] && !IsSpace(t[0]) && !IsSpace(t[|t| - 1])
  }

  function StripLeft(t: string): (r: string)
    ensures r != [] ==> !IsSpace(r[0])
    ensures |r| <= |t|
  {
    if t != [] && IsSpace(t[0]) then StripLeft(t[1..]) else t
  }

  function StripRight(t: string): (r: string)
    ensures r <= t
    ensures r != [] ==> !IsSpace(r[|r| - 1])
  {
    if t != [] && IsSpace(t[|t| - 1]) then StripRight(t[..|t| - 1]) else t
  }

  /** Python's `str.strip()`. */
  function Strip(t: string): (r: string)
    ensures r == [] || Trimmed(r)
    ensures |r| <= |t|
  {
    StripRight(StripLeft(t))
  }

  /** Every run of whitespace becomes one space; `inRun` says whether the text so far ended in one. */
  function Squeeze(t: string, inRun: bool): string {
    if t == [] then []
    else if IsSpace(t[0]) then (if inRun then [] else [' ']) + Squeeze(t[1..], true)
    else [t[0]] + Squeeze(t[1..], false)
  }

  /** Runs of whitespace become one space; both ends are trimmed. */
  function Collapse(t: string): string {
    Strip(Squeeze(t, false))
  }

  predicate OccursAt(needle: string, hay: string, i: nat) {
    i + |needle| <= |hay| && hay[i..i + |needle|] == needle
  }

  /** Python's `needle in hay`. */
  predicate Contains(hay: string, needle: string) {
    exists i | 0 <= i <= |hay| :: OccursAt(needle, hay, i)
  }

  /** What is left of `t` when all whitespace is dropped. */
  function Ink(t: string): (r: string)
    ensures |r| <= |t|
    ensures forall c <- r :: !IsSpace(c) && c in t
  {
    if t == [] then [] else (if IsSpace(t[0]) then [] else [t[0]]) + Ink(t[1..])
  }

  function Min(a: int, b: int): int {
    if a < b then a else b
  }

  lemma MulKeepsOrder(a: int, b: int, per: nat)
    requires a <= b
    ensures a * per <= b * per
  {
  }

  // ---- substrings ----

  lemma ContainsMiddle(a: string, m: string, z: string)
    ensures Contains(a + m + z, m)
  {
    assert (a + m + z)[|a|..|a| + |m|] == m;
    assert OccursAt(m, a + m + z, |a|);
  }

  lemma ContainsSplit(hay: string, needle: string) returns (a: string, z: string)
    requires Contains(hay, needle)
    ensures hay == a + needle + z && hay == a + (needle + z)
  {
    var i :| 0 <= i <= |hay| && OccursAt(needle, hay, i);
    a, z := hay[..i], hay[i + |needle|..];
  }

  lemma SliceOfSlice(hay: string, i: nat, n: nat, j: nat, m: nat)
    requires i + n <= |hay| && j + m <= n
    ensures hay[i..i + n][j..j + m] == hay[i + j..i + j + m]
  {
    var outer, inner := hay[i..i + n], hay[i + j..i + j + m];
    forall k | 0 <= k < m
      ensures outer[j..j + m][k] == inner[k]
    {
      assert outer[j + k] == hay[i + (j + k)];
    }
  }

  lemma ContainsTransitive(hay: string, mid: string, needle: string)
    requires Contains(hay, mid) && Contains(mid, needle)
    ensures Contains(hay, needle)
  {
    var i :| 0 <= i <= |hay| && OccursAt(mid, hay, i);
    var j :| 0 <= j <= |mid| && OccursAt(needle, mid, j);
    SliceOfSlice(hay, i, |mid|, j, |needle|);
    assert OccursAt(needle, hay, i + j);
  }

  // ---- trimming ----

  lemma {:induction false} StripLeftAppend(a: string, z: string)
    requires z != [] && !IsSpace(z[0])
    ensures StripLeft(a + z) == StripLeft(a) + z
  {
    if a == [] {
      assert a + z == z;
    } else if IsSpace(a[0]) {
      assert (a + z)[1..] == a[1..] + z;
      StripLeftAppend(a[1..], z);
    }
  }

  lemma {:induction false} StripRightAppend(a: string, z: string)
    requires a != [] && !IsSpace(a[|a| - 1])
    ensures StripRight(a + z) == a + StripRight(z)
  {
    if z == [] {
      assert a + z == a;
    } else if IsSpace(z[|z| - 1]) {
      assert (a + z)[..|a + z| - 1] == a + z[..|z| - 1];
      StripRightAppend(a, z[..|z| - 1]);
    }
  }

  /** Trimming only touches what surrounds a trimmed middle. */
  lemma StripAround(a: string, m: string, z: string)
    requires Trimmed(m)
    ensures Strip(a + m + z) == StripLeft(a) + m + StripRight(z)
  {
    assert a + m + z == a + (m + z);
    StripLeftAppend(a, m + z);
    assert StripLeft(a) + (m + z) == (StripLeft(a) + m) + z;
    StripRightAppend(StripLeft(a) + m, z);
  }

  lemma StripTrimmed(t: string)
    requires t == [] || Trimmed(t)
    ensures Strip(t) == t
  {
  }

  // ---- collapsing ----

  function EndsInRun(t: string, inRun: bool): bool {
    if t == [] then inRun else IsSpace(t[|t| - 1])
  }

  lemma {:induction false} SqueezeAppend(a: string, z: string, inRun: bool)
    ensures Squeeze(a + z, inRun) == Squeeze(a, inRun) + Squeeze(z, EndsInRun(a, inRun))
  {
    if a == [] {
      assert a + z == z;
    } else {
      assert (a + z)[1..] == a[1..] + z;
      SqueezeAppend(a[1..], z, IsSpace(a[0]));
      var head := if !IsSpace(a[0]) then [a[0]] else if inRun then [] else [' '];
      Regroup(head, Squeeze(a[1..], IsSpace(a[0])), Squeeze(z, EndsInRun(a, inRun)));
    }
  }

  /** A trimmed text squeezes to a trimmed text with the same ends, whatever came before it. */
  lemma SqueezeTrimmed(m: string, inRun: bool)
    requires Trimmed(m)
    ensures Squeeze(m, inRun) == Squeeze(m, false)
    ensures Trimmed(Squeeze(m, inRun))
    ensures Squeeze(m, inRun)[0] == m[0]
    ensures Collapse(m) == Squeeze(m, false)
  {
    var front, last := m[..|m| - 1], m[|m| - 1..];
    assert m == front + last;
    SqueezeAppend(front, last, inRun);
    assert Squeeze(last, EndsInRun(front, inRun)) == last;
    StripTrimmed(Squeeze(m, false));
  }

  /** A text already squeezed is left alone. */
  predicate Squeezed(t: string, inRun: bool) {
    t == [] || (if IsSpace(t[0]) then t[0] == ' ' && !inRun && Squeezed(t[1..], true)
                else Squeezed(t[1..], false))
  }

  lemma {:induction false} SqueezeMakesSqueezed(t: string, inRun: bool)
    ensures Squeezed(Squeeze(t, inRun), inRun)
  {
    if t != [] {
      var rest := Squeeze(t[1..], IsSpace(t[0]));
      SqueezeMakesSqueezed(t[1..], IsSpace(t[0]));
      var head := if IsSpace(t[0]) then if inRun then [] else [' '] else [t[0]];
      assert head != [] ==> (head + rest)[1..] == rest;
      assert head == [] ==> head + rest == rest;
    }
  }

  lemma {:induction false} SqueezedStays(t: string, inRun: bool)
    requires Squeezed(t, inRun)
    ensures Squeeze(t, inRun) == t
  {
    if t != [] {
      SqueezedStays(t[1..], IsSpace(t[0]));
    }
  }

  lemma {:induction false} SqueezedParts(a: string, z: string, inRun: bool)
    requires Squeezed(a + z, inRun)
    ensures Squeezed(a, inRun) && Squeezed(z, EndsInRun(a, inRun))
  {
    if a == [] {
      assert a + z == z;
    } else {
      assert (a + z)[1..] == a[1..] + z;
      SqueezedParts(a[1..], z, IsSpace(a[0]));
    }
  }

  lemma {:induction false} StripLeftSuffix(t: string) returns (a: string)
    ensures t == a + StripLeft(t)
    ensures forall c <- a :: IsSpace(c)
  {
    if t != [] && IsSpace(t[0]) {
      a := StripLeftSuffix(t[1..]);
      a := [t[0]] + a;
    } else {
      a := [];
    }
  }

  lemma {:induction false} StripRightRest(t: string)
    ensures forall c <- t[|StripRight(t)|..] :: IsSpace(c)
  {
    if t != [] && IsSpace(t[|t| - 1]) {
      var front := t[..|t| - 1];
      StripRightRest(front);
      assert t[|StripRight(t)|..] == front[|StripRight(front)|..] + [t[|t| - 1]];
    }
  }

  lemma Regroup(a: string, m: string, z: string)
    ensures a + (m + z) == a + m + z
  {
  }

  /** A text is its trimmed self with whitespace around it. */
  lemma StripParts(t: string) returns (a: string, z: string)
    ensures t == a + Strip(t) + z
    ensures forall c <- a :: IsSpace(c)
    ensures forall c <- z :: IsSpace(c)
  {
    var left := StripLeft(t);
    a := StripLeftSuffix(t);
    z := left[|StripRight(left)|..];
    StripRightRest(left);
    assert left == StripRight(left) + z;
    Regroup(a, StripRight(left), z);
  }

  /** Collapsing twice is collapsing once. */
  lemma CollapseIdempotent(t: string)
    ensures Collapse(Collapse(t)) == Collapse(t)
  {
    var s := Squeeze(t, false);
    SqueezeMakesSqueezed(t, false);
    var a, z := StripParts(s);
    SqueezedParts(a + Strip(s), z, false);
    SqueezedParts(a, Strip(s), false);
    var c := Strip(s);
    if c != [] {
      assert Squeezed(c, false);
      SqueezedStays(c, false);
      StripTrimmed(c);
    }
  }

  lemma {:induction false} SqueezeShrinks(t: string, inRun: bool)
    ensures |Squeeze(t, inRun)| <= |t|
  {
    if t != [] {
      SqueezeShrinks(t[1..], IsSpace(t[0]));
    }
  }

  // ---- ink ----

  lemma {:induction false} InkAppend(a: string, z: string)
    ensures Ink(a + z) == Ink(a) + Ink(z)
  {
    if a == [] {
      assert a + z == z;
    } else {
      var head := if IsSpace(a[0]) then [] else [a[0]];
      assert (a + z)[1..] == a[1..] + z;
      InkAppend(a[1..], z);
      assert head + (Ink(a[1..]) + Ink(z)) == (head + Ink(a[1..])) + Ink(z);
    }
  }

  lemma {:induction false} InkOfSpaces(t: string)
    requires forall c <- t :: IsSpace(c)
    ensures Ink(t) == []
  {
    if t != [] {
      InkOfSpaces(t[1..]);
    }
  }

  lemma {:induction false} NoInkAllSpaces(t: string)
    requires Ink(t) == []
    ensures forall c <- t :: IsSpace(c)
  {
    if t != [] {
      NoInkAllSpaces(t[1..]);
    }
  }

  lemma InkOfTrimmed(t: string)
    requires Trimmed(t)
    ensures Ink(t) != []
  {
  }

  lemma {:induction false} InkOfSqueeze(t: string, inRun: bool)
    ensures Ink(Squeeze(t, inRun)) == Ink(t)
  {
    if t != [] {
      InkOfSqueeze(t[1..], IsSpace(t[0]));
      var head := if IsSpace(t[0]) then if inRun then [] else [' '] else [t[0]];
      InkAppend(head, Squeeze(t[1..], IsSpace(t[0])));
    }
  }

  lemma InkOfStrip(t: string)
    ensures Ink(Strip(t)) == Ink(t)
  {
    InkOfStripLeft(t);
    InkOfStripRight(StripLeft(t));
  }

  /** Collapsing moves no ink. */
  lemma InkOfCollapse(t: string)
    ensures Ink(Collapse(t)) == Ink(t)
  {
    InkOfSqueeze(t, false);
    InkOfStrip(Squeeze(t, false));
  }

  lemma InkContains(hay: string, needle: string)
    requires Contains(hay, needle)
    ensures Contains(Ink(hay), Ink(needle))
  {
    var a, z := ContainsSplit(hay, needle);
    InkAppend(a + needle, z);
    InkAppend(a, needle);
    ContainsMiddle(Ink(a), Ink(needle), Ink(z));
  }

  /** Collapsing a text keeps the collapsed form of every trimmed middle of it, and the ink on either side. */
  lemma CollapseAround(a: string, m: string, z: string) returns (x: string, y: string)
    requires Trimmed(m)
    ensures Collapse(a + m + z) == x + Collapse(m) + y
    ensures Ink(x) == Ink(a) && Ink(y) == Ink(z)
  {
    var inRun := EndsInRun(a, false);
    SqueezeAppend(a + m, z, false);
    SqueezeAppend(a, m, false);
    SqueezeTrimmed(m, inRun);
    var before, mid, after := Squeeze(a, false), Squeeze(m, false), Squeeze(z, EndsInRun(a + m, false));
    StripAround(before, mid, after);
    x, y := StripLeft(before), StripRight(after);
    InkOfSqueeze(a, false);
    InkOfSqueeze(z, EndsInRun(a + m, false));
    InkOfEnds(before, after);
  }

  lemma InkOfEnds(a: string, z: string)
    ensures Ink(StripLeft(a)) == Ink(a) && Ink(StripRight(z)) == Ink(z)
  {
    InkOfStripLeft(a);
    InkOfStripRight(z);
  }

  lemma {:induction false} InkOfStripLeft(t: string)
    ensures Ink(StripLeft(t)) == Ink(t)
  {
    if t != [] && IsSpace(t[0]) {
      InkOfStripLeft(t[1..]);
    }
  }

  lemma InkOfStripRight(t: string)
    ensures Ink(StripRight(t)) == Ink(t)
  {
    hide StripRight, Ink;
    var r := StripRight(t);
    var rest := t[|r|..];
    StripRightRest(t);
    InkOfSpaces(rest);
    InkAppend(r, rest);
    assert t == r + rest;
  }
}
