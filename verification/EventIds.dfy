/** The identity of a divergence event: `unit:tick:kind`, and the ids minted from it. */
module EventIds {

  function Digit(d: nat): char
    requires d < 10
  {
    '0' + d as char
  }

  function DecimalNat(n: nat): string {
    if n < 10 then [Digit(n)] else DecimalNat(n / 10) + [Digit(n % 10)]
  }

  function Decimal(n: int): string {
    if n < 0 then "-" + DecimalNat(-n) else DecimalNat(n)
  }

  /** Every ':' becomes '-'. */
  function Dashed(s: string): (r: string)
    ensures |r| == |s| && forall i | 0 <= i < |s| :: r[i] == if s[i] == ':' then '-' else s[i]
  {
    seq(|s|, i requires 0 <= i < |s| => if s[i] == ':' then '-' else s[i])
  }

  function Key(unit: string, tick: int, kind: string): string {
    unit + ":" + Decimal(tick) + ":" + kind
  }

  function StableId(prefix: string, key: string): string {
    prefix + "-" + Dashed(key)
  }

  function EventId(prefix: string, unit: string, tick: int, kind: string): string {
    StableId(prefix, Key(unit, tick, kind))
  }

  // ---- decimals ----

  function ValueOf(s: string): int {
    if s == [] then 0 else 10 * ValueOf(s[..|s| - 1]) + (s[|s| - 1] as int - '0' as int)
  }

  lemma {:induction false} DecimalNatReads(n: nat)
    ensures ValueOf(DecimalNat(n)) == n
    ensures DecimalNat(n) != [] && forall c <- DecimalNat(n) :: '0' <= c <= '9'
  {
    if n >= 10 {
      DecimalNatReads(n / 10);
      var front := DecimalNat(n / 10);
      assert (front + [Digit(n % 10)])[..|front|] == front;
    } else {
      assert [Digit(n)][..0] == [];
      assert ValueOf([Digit(n)]) == 10 * ValueOf([]) + n;
    }
  }

  // ---- ids ----

  lemma DashedIsSame(s: string)
    requires ':' !in s
    ensures Dashed(s) == s
  {
  }

  lemma DashedAppend(a: string, z: string)
    ensures Dashed(a + z) == Dashed(a) + Dashed(z)
  {
  }

  lemma DashedKey(unit: string, tick: int, kind: string)
    ensures Dashed(Key(unit, tick, kind)) == Dashed(unit) + "-" + Decimal(tick) + "-" + Dashed(kind)
  {
    DecimalNatReads(if tick < 0 then -tick else tick);
    DashedIsSame(Decimal(tick));
    DashedAppend(unit + ":" + Decimal(tick) + ":", kind);
    DashedAppend(unit + ":" + Decimal(tick), ":");
    DashedAppend(unit + ":", Decimal(tick));
    DashedAppend(unit, ":");
    assert Dashed(":") == "-";
  }

  /** Split at the last dash. */
  lemma SplitFromRight(a: string, x: string, b: string, y: string)
    requires '-' !in x && '-' !in y
    requires a + "-" + x == b + "-" + y
    ensures a == b && x == y
  {
    var s := a + "-" + x;
    assert s[|a|] == '-' && s[|b|] == '-';
    assert forall i | |a| < i < |s| :: s[i] == x[i - |a| - 1];
    assert forall i | |b| < i < |s| :: s[i] == y[i - |b| - 1];
    assert |a| == |b|;
    assert a == s[..|a|] && b == s[..|b|];
    assert x == s[|a| + 1..] && y == s[|b| + 1..];
  }

  /** The unit holds no ':', the tick is not negative, and the kind holds neither ':' nor '-'. */
  predicate Plain(unit: string, tick: int, kind: string) {
    ':' !in unit && tick >= 0 && ':' !in kind && '-' !in kind
  }

  /** Plain events never share an id. */
  lemma EventIdInjective(prefix: string, unit1: string, tick1: int, kind1: string,
                         unit2: string, tick2: int, kind2: string)
    requires Plain(unit1, tick1, kind1) && Plain(unit2, tick2, kind2)
    requires EventId(prefix, unit1, tick1, kind1) == EventId(prefix, unit2, tick2, kind2)
    ensures unit1 == unit2 && tick1 == tick2 && kind1 == kind2
  {
    SamePrefix(prefix, Dashed(Key(unit1, tick1, kind1)), Dashed(Key(unit2, tick2, kind2)));
    DashedKey(unit1, tick1, kind1);
    DashedKey(unit2, tick2, kind2);
    DashedIsSame(unit1);
    DashedIsSame(unit2);
    DashedIsSame(kind1);
    DashedIsSame(kind2);
    DecimalNatReads(tick1);
    DecimalNatReads(tick2);
    SplitFromRight(unit1 + "-" + Decimal(tick1), kind1, unit2 + "-" + Decimal(tick2), kind2);
    SplitFromRight(unit1, Decimal(tick1), unit2, Decimal(tick2));
  }

  lemma SamePrefix(prefix: string, x: string, y: string)
    ensures prefix + "-" + x == prefix + "-" + y <==> x == y
  {
    var a, b := prefix + "-" + x, prefix + "-" + y;
    assert a[|prefix| + 1..] == x && b[|prefix| + 1..] == y;
  }

  /** Two kinds of ids of the same events agree on which events they tell apart. */
  lemma PrefixIsNoMatter(p: string, q: string, key1: string, key2: string)
    ensures StableId(p, key1) == StableId(p, key2) <==> StableId(q, key1) == StableId(q, key2)
  {
    SamePrefix(p, Dashed(key1), Dashed(key2));
    SamePrefix(q, Dashed(key1), Dashed(key2));
  }

  lemma ReplaceOne(s: string, from: char, to: char) returns (t: string)
    requires from in s && from != to && from in {':', '-'} && to in {':', '-'}
    ensures t != s && Dashed(t) == Dashed(s)
  {
    var i :| 0 <= i < |s| && s[i] == from;
    t := s[i := to];
    assert t[i] != s[i];
  }

  /** An id reads `prefix-unit-tick-kind`, with a dash wherever unit or kind has a colon. */
  lemma EventIdReads(prefix: string, unit: string, tick: int, kind: string)
    ensures EventId(prefix, unit, tick, kind)
         == prefix + "-" + (Dashed(unit) + "-" + Decimal(tick) + "-" + Dashed(kind))
    ensures tick >= 0 ==> && Decimal(tick) != [] && (forall c <- Decimal(tick) :: '0' <= c <= '9')
                          && ValueOf(Decimal(tick)) == tick
  {
    DashedKey(unit, tick, kind);
    if tick >= 0 {
      DecimalNatReads(tick);
    }
  }

  lemma DecimalOfNegative(n: int)
    requires n < 0
    ensures Decimal(n) == "-" + Decimal(-n)
  {
  }

  /** Another event whose dashed key is the same. */
  lemma AnotherEvent(unit: string, tick: int, kind: string) returns (unit2: string, tick2: int, kind2: string)
    requires !Plain(unit, tick, kind)
    ensures (unit2, tick2, kind2) != (unit, tick, kind)
    ensures Dashed(Key(unit2, tick2, kind2)) == Dashed(Key(unit, tick, kind))
  {
    hide Decimal, Key;
    unit2, tick2, kind2 := unit, tick, kind;
    if ':' in unit {
      unit2 := ReplaceOne(unit, ':', '-');
    } else if tick < 0 {
      unit2, tick2 := unit + "-", -tick;
      DecimalOfNegative(tick);
      DashedAppend(unit, "-");
      DashedIsSame("-");
      Regroup(Dashed(unit), Decimal(-tick));
    } else if ':' in kind {
      kind2 := ReplaceOne(kind, ':', '-');
    } else {
      kind2 := ReplaceOne(kind, '-', ':');
    }
    DashedKey(unit, tick, kind);
    DashedKey(unit2, tick2, kind2);
  }

  lemma Regroup(a: string, z: string)
    ensures (a + "-") + "-" + z == a + "-" + ("-" + z)
  {
  }

  /** Each condition is needed: an event that is not plain shares its id with another one. */
  lemma EventIdAmbiguousOtherwise(prefix: string, unit: string, tick: int, kind: string)
    requires !Plain(unit, tick, kind)
    ensures exists unit2, tick2, kind2 ::
              (unit2, tick2, kind2) != (unit, tick, kind)
              && EventId(prefix, unit2, tick2, kind2) == EventId(prefix, unit, tick, kind)
  {
    hide Plain, Dashed, Key;
    var unit2, tick2, kind2 := AnotherEvent(unit, tick, kind);
    assert EventId(prefix, unit2, tick2, kind2) == EventId(prefix, unit, tick, kind);
  }
}
