/** Python's `str` of a float whose value is a whole number, which is how a
    numeric spreadsheet column with gaps reaches the text coercion. Python
    prints the shortest decimal that reads back as the same IEEE 754 double
    (ties between equally short ones going to the nearer, then to the even
    last digit), in fixed notation with ".0" while that decimal has at most
    sixteen digits, and as `d.ddde+XX` from seventeen digits on. */
module Floats {
  import opened Wrappers
  import opened Text

  // ---------------------------------------------------------------- the double grid

  /** 2^52 and 2^53: every whole number below 2^53 is a double; above it
      the 53-bit significand leaves gaps. */
  const Half: nat := 4503599627370496
  const Exact: nat := 9007199254740992

  /** 10^16, from which Python switches to exponent notation. */
  const Sixteen: nat := 10000000000000000

  lemma SixteenIsPow10()
    ensures Pow10(16) == Sixteen
  {
    assert Pow10(4) == 10000;
    assert Pow10(8) == 100000000;
    assert Pow10(12) == 1000000000000;
  }

  function Abs(i: int): nat {
    if i < 0 then -i else i
  }

  /** The gap between neighbouring doubles around `v`, from 2^53 on: 2 in
      [2^53, 2^54), doubling with every binade. */
  function Ulp(v: nat): (u: nat)
    requires v >= Exact
    ensures u >= 2 && Half * u <= v < Exact * u
    decreases v
  {
    if v < 2 * Exact then 2 else 2 * Ulp(v / 2)
  }

  /** The significand of `v` as a whole number, `v` divided by its gap. */
  function Significand(v: nat): nat
    requires v >= Exact
    decreases v
  {
    if v < 2 * Exact then v / 2 else Significand(v / 2)
  }

  /** A whole number a double holds exactly: below 2^53 all of them, above
      it the multiples of the gap. */
  predicate IsDouble(v: nat)
    decreases v
  {
    v < Exact || (v % 2 == 0 && (v < 2 * Exact || IsDouble(v / 2)))
  }

  /** A whole number that a double holds exactly, of either sign. */
  type WholeDouble = f: int | IsDouble(Abs(f))

  /** Reading the whole number `x` as a double, rounding to the nearest with
      ties to the even significand, gives `v`. The bounds are kept four times
      over so that the half and quarter gaps stay whole: above `v` the
      midpoint lies half a gap away, below it too except at a power of two,
      where the gap below is half as wide. */
  predicate RoundsTo(x: int, v: nat)
    requires v >= Exact
  {
    var u := Ulp(v);
    var even := Significand(v) % 2 == 0;
    var below := if v == Half * u then u else 2 * u;
    && (4 * x < 4 * v + 2 * u || (even && 4 * x == 4 * v + 2 * u))
    && (4 * v - below < 4 * x || (even && 4 * x == 4 * v - below))
  }

  /** Whatever rounds to `v` lies strictly between 0 and 2v. */
  lemma RoundsNear(x: int, v: nat)
    requires v >= Exact && RoundsTo(x, v)
    ensures 0 < x < 2 * v
  {
  }

  /** The numbers that round to `v` form an interval around it. */
  lemma RoundsBetween(x: int, y: int, v: nat)
    requires v >= Exact && RoundsTo(x, v)
    requires x <= y <= v || v <= y <= x
    ensures RoundsTo(y, v)
  {
  }

  // ---------------------------------------------------------------- trailing zeros

  /** `x` ends in at least `j` decimal zeros, i.e. is a multiple of 10^j. */
  predicate Zeros(x: nat, j: nat) {
    j == 0 || (x % 10 == 0 && Zeros(x / 10, j - 1))
  }

  /** `x` with its last `j` decimal digits dropped. */
  function Drop(x: nat, j: nat): nat {
    if j == 0 then x else Drop(x / 10, j - 1)
  }

  /** `v` with its last `j` digits cleared: the multiple of 10^j just below
      (or at) `v`, the next multiple lying above it. */
  function Below(v: nat, j: nat): (a: nat)
    ensures a <= v < a + Pow10(j)
  {
    if j == 0 then v else 10 * Below(v / 10, j - 1)
  }

  /** Both multiples around `v` are multiples of 10^j. */
  lemma {:induction false} BelowZeros(v: nat, j: nat)
    ensures Zeros(Below(v, j), j) && Zeros(Below(v, j) + Pow10(j), j)
    decreases j
  {
    if j > 0 {
      BelowZeros(v / 10, j - 1);
      var a := Below(v / 10, j - 1);
      assert (10 * a) / 10 == a;
      assert (10 * a + Pow10(j)) / 10 == a + Pow10(j - 1);
    }
  }

  lemma {:induction false} ZerosOfPow10(j: nat)
    ensures Zeros(Pow10(j), j)
    decreases j
  {
    if j > 0 {
      ZerosOfPow10(j - 1);
      assert Pow10(j) / 10 == Pow10(j - 1);
    }
  }

  /** The two multiples of 10^j around a number are consecutive ones. */
  lemma {:induction false} DropNext(a: nat, j: nat)
    requires Zeros(a, j)
    ensures Drop(a + Pow10(j), j) == Drop(a, j) + 1
    decreases j
  {
    if j > 0 {
      assert (a + Pow10(j)) / 10 == a / 10 + Pow10(j - 1);
      DropNext(a / 10, j - 1);
    }
  }

  /** A multiple of 10^j not above `v` is not above `Below(v, j)`. */
  lemma {:induction false} ZerosUnder(x: nat, v: nat, j: nat)
    requires Zeros(x, j) && x <= v
    ensures x <= Below(v, j)
    decreases j
  {
    if j > 0 {
      ZerosUnder(x / 10, v / 10, j - 1);
    }
  }

  /** A multiple of 10^j above `v` is not below the next multiple. */
  lemma {:induction false} ZerosOver(x: nat, v: nat, j: nat)
    requires Zeros(x, j) && x > v
    ensures x >= Below(v, j) + Pow10(j)
    decreases j
  {
    if j > 0 {
      ZerosOver(x / 10, v / 10, j - 1);
    }
  }

  /** A positive multiple of 10^j is at least 10^j. */
  lemma {:induction false} ZerosPositive(x: nat, j: nat)
    requires Zeros(x, j) && x > 0
    ensures x >= Pow10(j)
    decreases j
  {
    if j > 0 {
      ZerosPositive(x / 10, j - 1);
    }
  }

  /** A multiple of 10^i is a multiple of every smaller power of ten. */
  lemma {:induction false} ZerosFewer(x: nat, i: nat, j: nat)
    requires j <= i && Zeros(x, i)
    ensures Zeros(x, j)
    decreases i
  {
    if j > 0 {
      ZerosFewer(x / 10, i - 1, j - 1);
    }
  }

  lemma {:induction false} Pow10Grows(i: nat, j: nat)
    requires i <= j
    ensures Pow10(i) <= Pow10(j)
    decreases j
  {
    if i < j {
      Pow10Grows(i, j - 1);
    }
  }

  // ---------------------------------------------------------------- shortest digits

  /** The number of decimal digits of `v`. */
  function DecimalLength(v: nat): (n: nat)
    ensures n >= 1 && v < Pow10(n)
    ensures v >= 1 ==> Pow10(n - 1) <= v
  {
    if v < 10 then 1 else 1 + DecimalLength(v / 10)
  }

  function Dist(x: nat, v: nat): nat {
    if x <= v then v - x else x - v
  }

  /** Of the two multiples of 10^j around `v`, the one that rounds to `v`:
      the nearer when both do, the one whose last kept digit is even on a
      tie; `None` when neither rounds to `v`. */
  function Pick(v: nat, j: nat): (r: Option<nat>)
    requires v >= Exact
    ensures r.Some? ==> RoundsTo(r.value, v) && Zeros(r.value, j)
    ensures r.Some? ==> r.value == Below(v, j) || r.value == Below(v, j) + Pow10(j)
    ensures r.None? <==> !RoundsTo(Below(v, j), v) && !RoundsTo(Below(v, j) + Pow10(j), v)
  {
    var a := Below(v, j);
    var b := a + Pow10(j);
    BelowZeros(v, j);
    Choose(a, b, RoundsTo(a, v), RoundsTo(b, v), v, j)
  }

  /** The choice between the candidates `a` and `b`, knowing which of them
      round to `v`. */
  function Choose(a: nat, b: nat, ra: bool, rb: bool, v: nat, j: nat): (r: Option<nat>)
    ensures r.Some? ==> (r.value == a && ra) || (r.value == b && rb)
    ensures r.None? <==> !ra && !rb
  {
    if ra && rb then
      if Dist(a, v) < Dist(b, v) || (Dist(a, v) == Dist(b, v) && Drop(a, j) % 2 == 0) then Some(a) else Some(b)
    else if ra then Some(a)
    else if rb then Some(b)
    else None
  }

  /** When both candidates qualify the nearer is chosen, and on a tie the
      one whose last kept digit is even. */
  lemma ChooseNearest(a: nat, b: nat, ra: bool, rb: bool, v: nat, j: nat)
    requires Drop(b, j) == Drop(a, j) + 1
    ensures var r := Choose(a, b, ra, rb, v, j);
      && (r.Some? && ra ==> Dist(r.value, v) <= Dist(a, v))
      && (r.Some? && rb ==> Dist(r.value, v) <= Dist(b, v))
      && (r.Some? && ra && rb && Dist(a, v) == Dist(b, v) ==> Drop(r.value, j) % 2 == 0)
  {
  }

  /** Trying 10^j, 10^(j-1), ..., 1 in turn: the first power with a multiple
      that rounds to `v` decides, and `v` itself is the last resort. */
  function Search(v: nat, j: nat): (r: (nat, nat))
    requires v >= Exact
    ensures r.1 <= j && RoundsTo(r.0, v) && Zeros(r.0, r.1)
    ensures r.1 == 0 ==> r.0 == v
    ensures r.1 > 0 ==> Pick(v, r.1) == Some(r.0)
    ensures forall i :: r.1 < i <= j ==> Pick(v, i).None?
    decreases j
  {
    if j == 0 then (v, 0)
    else
      match Pick(v, j)
      case Some(c) => (c, j)
      case None => Search(v, j - 1)
  }

  /** The shortest decimal that reads back as the double `v`. */
  function Shortest(v: nat): (c: nat)
    requires v >= Exact
  {
    Search(v, DecimalLength(v)).0
  }

  /** The shortest decimal reads back as `v`. */
  lemma ShortestRoundsBack(v: nat)
    requires v >= Exact
    ensures RoundsTo(Shortest(v), v) && Shortest(v) > 0
  {
    RoundsNear(Shortest(v), v);
  }

  /** A multiple of 10^j that rounds to `v` lies at or beyond one of the two
      multiples around `v`, so one of those rounds to `v` too. */
  lemma NeighbourRounds(x: int, v: nat, j: nat)
    requires v >= Exact && RoundsTo(x, v) && x >= 0 && Zeros(x, j)
    ensures RoundsTo(Below(v, j), v) || RoundsTo(Below(v, j) + Pow10(j), v)
  {
    BelowZeros(v, j);
    if x <= v {
      ZerosUnder(x, v, j);
      RoundsBetween(x, Below(v, j), v);
    } else {
      ZerosOver(x, v, j);
      RoundsBetween(x, Below(v, j) + Pow10(j), v);
    }
  }

  /** No decimal with more trailing zeros reads back as `v`: whenever a
      multiple of 10^j rounds to `v`, the shortest decimal is one too. */
  lemma ShortestHasMostZeros(v: nat, x: int, j: nat)
    requires v >= Exact && RoundsTo(x, v) && x >= 0 && Zeros(x, j)
    ensures Zeros(Shortest(v), j)
  {
    var l := DecimalLength(v);
    var r := Search(v, l);
    if j <= r.1 {
      ZerosFewer(r.0, r.1, j);
    } else if j > l {
      RoundsNear(x, v);
      Pow10Grows(l + 1, j);
      ZerosPositive(x, j);
      assert false;
    } else {
      assert Pick(v, j).None?;
      NeighbourRounds(x, v, j);
      assert false;
    }
  }

  /** From 2^53 to 10^16 the gap is 2, so the double itself is the only
      decimal ending in a zero, or with fewer digits, that reads back as it. */
  lemma FixedRangeExact(v: nat)
    requires Exact <= v < Sixteen && IsDouble(v)
    ensures Shortest(v) == v
  {
    var r := Search(v, DecimalLength(v));
    NarrowGap(r.0, v);
    if r.1 > 0 {
      ZerosFewer(r.0, r.1, 1);
    }
  }

  /** Below 2^54 whatever rounds to `v` is at most one away from it. */
  lemma NarrowGap(x: int, v: nat)
    requires Exact <= v < 2 * Exact && RoundsTo(x, v)
    ensures v - 1 <= x <= v + 1
  {
  }

  /** From 10^16 on the shortest decimal keeps at least seventeen digits:
      10^16 itself would otherwise lie between it and `v` and read back as
      `v` with more trailing zeros. */
  lemma ShortestStaysAbove(v: nat)
    requires v >= Sixteen
    ensures Shortest(v) >= Sixteen
  {
    var c := Shortest(v);
    ShortestRoundsBack(v);
    if c < Sixteen {
      RoundsBetween(c, Sixteen, v);
      SixteenIsPow10();
      ZerosOfPow10(16);
      ShortestHasMostZeros(v, Sixteen, 16);
      ZerosPositive(c, 16);
      assert false;
    }
  }
}

/** Printing a whole-valued float the way Python's `str` does, and reading
    the printed text back. */
module FloatText {
  import opened Wrappers
  import opened Text
  import opened Floats

  // ---------------------------------------------------------------- printing

  /** A digit string without its trailing zeros, the first digit always kept. */
  function TrimZeros(s: string): (r: string)
    ensures |r| <= |s| && r == s[..|r|]
    ensures |s| > 0 ==> |r| > 0
    ensures forall i :: |r| <= i < |s| ==> s[i] == '0'
    decreases |s|
  {
    if |s| > 1 && s[|s| - 1] == '0' then TrimZeros(s[..|s| - 1]) else s
  }

  /** Python's exponent notation of a decimal of at least seventeen digits:
      the first digit, the rest after a point when any are left once the
      trailing zeros go, and the exponent after "e+". */
  function Scientific(c: nat): (s: string)
    requires c >= Sixteen
    ensures |s| > 0 && IsDigit(s[0]) && 'e' in s
  {
    var d := NatToString(c);
    Mantissa(TrimZeros(d)) + "e+" + NatToString(|d| - 1)
  }

  /** The first digit, then a point and the other digits when there are any. */
  function Mantissa(m: string): (s: string)
    requires |m| > 0
    ensures |s| > 0 && s[0] == m[0]
    ensures AllDigits(m) ==> 'e' !in s
    ensures |m| == 1 ==> s == m
    ensures |m| > 1 ==> |s| >= 3 && s[1] == '.' && [s[0]] + s[2..] == m
  {
    [m[0]] + (if |m| > 1 then "." + m[1..] else "")
  }

  /** `str(float(f))` for a whole double `f`. */
  function FloatStr(f: int): (s: string)
    ensures |s| > 0
    ensures f < 0 <==> s[0] == '-'
    ensures 'e' in s <==> Abs(f) >= Sixteen
  {
    if Abs(f) < Sixteen then
      FixedHasNoExponent(f);
      IntToString(f) + ".0"
    else
      ShortestStaysAbove(Abs(f));
      (if f < 0 then "-" else "") + Scientific(Shortest(Abs(f)))
  }

  lemma FixedHasNoExponent(f: int)
    ensures 'e' !in IntToString(f) + ".0"
    ensures |IntToString(f)| > 0 && (f < 0 <==> IntToString(f)[0] == '-')
  {
    var d := NatToString(Abs(f));
    assert forall i :: 0 <= i < |d| ==> IsDigit(d[i]);
  }

  // ---------------------------------------------------------------- reading back

  /** `n` followed by `k` decimal zeros. */
  function Shift(n: nat, k: nat): nat {
    if k == 0 then n else 10 * Shift(n, k - 1)
  }

  /** `t` cut before its first `ch`; the second part is empty when `t` has
      no `ch`. */
  function SplitAt(t: string, ch: char): (r: (string, string))
  {
    if |t| == 0 then ("", "")
    else if t[0] == ch then ("", t)
    else
      var rest := SplitAt(t[1..], ch);
      ([t[0]] + rest.0, rest.1)
  }

  /** Python's `float()` on exponent notation with an explicit "+" exponent
      that denotes a whole number: one digit, optionally a point and more
      digits, then "e+" and the exponent's digits. */
  function ReadScientific(t: string): (r: Option<nat>)
  {
    var parts := SplitAt(t, 'e');
    Scale(MantissaDigits(parts.0), ExponentValue(parts.1))
  }

  /** The mantissa's digits, moved left until the first one sits at
      position `e`; `None` when a digit would be left after the point. */
  function Scale(m: Option<string>, e: Option<nat>): (r: Option<nat>)
    requires m.Some? ==> AllDigits(m.value)
  {
    if m.None? || e.None? || e.value + 1 < |m.value| then None
    else Some(Shift(DigitsValue(m.value), e.value + 1 - |m.value|))
  }

  /** The digits of a mantissa, the point between its first and second
      digit taken out. */
  function MantissaDigits(mant: string): (r: Option<string>)
    ensures r.Some? ==> |r.value| > 0 && AllDigits(r.value)
  {
    if |mant| == 1 && IsDigit(mant[0]) then Some(mant)
    else if |mant| >= 3 && mant[1] == '.' && IsDigit(mant[0]) && AllDigits(mant[2..]) then Some([mant[0]] + mant[2..])
    else None
  }

  /** The value of "e+" followed by digits. */
  function ExponentValue(exp: string): (r: Option<nat>)
  {
    if |exp| >= 3 && exp[0] == 'e' && exp[1] == '+' && AllDigits(exp[2..]) then Some(DigitsValue(exp[2..])) else None
  }

  /** Python's `float()` on what `FloatStr` prints: a sign, then either
      digits and ".0" or exponent notation. */
  function ReadFloatStr(s: string): (r: Option<int>)
  {
    if |s| > 0 && s[0] == '-' then
      match ReadUnsigned(s[1..])
      case Some(n) => Some(0 - n)
      case None => None
    else ReadUnsigned(s)
  }

  function ReadUnsigned(t: string): (r: Option<nat>)
  {
    if |t| > 2 && t[|t| - 2..] == ".0" && AllDigits(t[..|t| - 2]) then Some(DigitsValue(t[..|t| - 2]))
    else ReadScientific(t)
  }
}

/** What `FloatText` prints reads back as the number it stands for. */
module FloatRoundTrip {
  import opened Wrappers
  import opened Text
  import opened Floats
  import opened FloatText

  /** Cutting trailing zeros divides by the matching power of ten. */
  lemma {:induction false} TrimZerosValue(s: string)
    requires AllDigits(s)
    ensures AllDigits(TrimZeros(s))
    ensures Shift(DigitsValue(TrimZeros(s)), |s| - |TrimZeros(s)|) == DigitsValue(s)
    decreases |s|
  {
    if |s| > 1 && s[|s| - 1] == '0' {
      TrimZerosValue(s[..|s| - 1]);
    }
  }

  /** Exponent notation reads back as the decimal it prints. */
  lemma ScientificReadsBack(c: nat)
    requires c >= Sixteen
    ensures ReadScientific(Scientific(c)) == Some(c)
  {
    var d := NatToString(c);
    var m := TrimZeros(d);
    TrimZerosValue(d);
    NatToStringValue(c);
    NatToStringValue(|d| - 1);
    ReadMantissa(m, NatToString(|d| - 1));
  }

  /** A mantissa and an exponent read back as the mantissa's digits shifted
      by the exponent, less the digits after the point. */
  lemma ReadMantissa(m: string, e: string)
    requires |m| > 0 && AllDigits(m) && |e| > 0 && AllDigits(e) && DigitsValue(e) + 1 >= |m|
    ensures ReadScientific(Mantissa(m) + "e+" + e) == Some(Shift(DigitsValue(m), DigitsValue(e) + 1 - |m|))
  {
    var t := Mantissa(m) + "e+" + e;
    PiecesRead(m, e, t);
    ReadParts(t, m, e);
  }

  /** The mantissa and exponent of a printed number read back separately. */
  lemma PiecesRead(m: string, e: string, t: string)
    requires |m| > 0 && AllDigits(m) && |e| > 0 && AllDigits(e)
    requires t == Mantissa(m) + "e+" + e
    ensures MantissaDigits(SplitAt(t, 'e').0) == Some(m)
    ensures ExponentValue(SplitAt(t, 'e').1) == Some(DigitsValue(e))
  {
    SplitMantissa(Mantissa(m), e);
    MantissaReads(m);
    ExponentReads(e);
  }

  lemma SplitMantissa(head: string, e: string)
    requires 'e' !in head
    ensures SplitAt(head + "e+" + e, 'e') == (head, "e+" + e)
  {
    assert head + "e+" + e == head + ("e+" + e);
    SplitBefore(head, "e+" + e, 'e');
  }

  lemma ReadParts(t: string, m: string, e: string)
    requires |m| > 0 && AllDigits(m) && |e| > 0 && AllDigits(e) && DigitsValue(e) + 1 >= |m|
    requires MantissaDigits(SplitAt(t, 'e').0) == Some(m)
    requires ExponentValue(SplitAt(t, 'e').1) == Some(DigitsValue(e))
    ensures ReadScientific(t) == Some(Shift(DigitsValue(m), DigitsValue(e) + 1 - |m|))
  {
    assert ReadScientific(t) == Scale(Some(m), Some(DigitsValue(e)));
  }

  lemma MantissaReads(m: string)
    requires |m| > 0 && AllDigits(m)
    ensures MantissaDigits(Mantissa(m)) == Some(m)
  {
  }

  lemma ExponentReads(e: string)
    requires |e| > 0 && AllDigits(e)
    ensures ExponentValue("e+" + e) == Some(DigitsValue(e))
  {
    assert ("e+" + e)[..2] == "e+" && ("e+" + e)[2..] == e;
  }

  /** Text without `ch` followed by text starting with `ch` splits between
      the two. */
  lemma {:induction false} SplitBefore(head: string, rest: string, ch: char)
    requires ch !in head && |rest| > 0 && rest[0] == ch
    ensures SplitAt(head + rest, ch) == (head, rest)
    decreases |head|
  {
    if |head| > 0 {
      assert (head + rest)[1..] == head[1..] + rest;
      SplitBefore(head[1..], rest, ch);
      assert [head[0]] + head[1..] == head;
    } else {
      assert head + rest == rest;
    }
  }

  /** What `FloatStr` prints reads back as `f` while it is in fixed notation,
      and as the shortest decimal of `f`, with `f`'s sign, in exponent
      notation. */
  lemma FloatStrReadsBack(f: int)
    ensures Abs(f) < Sixteen ==> ReadFloatStr(FloatStr(f)) == Some(f)
    ensures Abs(f) >= Sixteen ==>
              ReadFloatStr(FloatStr(f)) == Some(if f < 0 then 0 - Shortest(Abs(f)) else Shortest(Abs(f)))
  {
    if Abs(f) < Sixteen {
      FixedFloatReads(f);
    } else {
      ExponentFloatReads(f);
    }
  }

  /** Fixed notation prints the shortest decimal too: from 2^53 to 10^16
      that decimal is the double itself. */
  lemma FixedIsShortest(f: WholeDouble)
    requires Exact <= Abs(f) < Sixteen
    ensures FloatStr(f) == (if f < 0 then "-" else "") + (NatToString(Shortest(Abs(f))) + ".0")
  {
    FixedShape(f);
    FixedRangeExact(Abs(f));
  }

  lemma FixedFloatReads(f: int)
    requires Abs(f) < Sixteen
    ensures ReadFloatStr(FloatStr(f)) == Some(f)
  {
    var n := Abs(f);
    FixedReads(n);
    SignedReads(NatToString(n) + ".0", n);
    FixedShape(f);
  }

  lemma ExponentFloatReads(f: int)
    requires Abs(f) >= Sixteen
    ensures ReadFloatStr(FloatStr(f)) == Some(if f < 0 then 0 - Shortest(Abs(f)) else Shortest(Abs(f)))
  {
    var n := Abs(f);
    ShortestStaysAbove(n);
    var c := Shortest(n);
    ScientificUnsigned(c);
    SignedReads(Scientific(c), c);
    ExponentShape(f);
  }

  lemma ExponentShape(f: int)
    requires Abs(f) >= Sixteen && Shortest(Abs(f)) >= Sixteen
    ensures f < 0 ==> FloatStr(f) == "-" + Scientific(Shortest(Abs(f)))
    ensures f >= 0 ==> FloatStr(f) == Scientific(Shortest(Abs(f)))
  {
  }

  lemma FixedShape(f: int)
    requires Abs(f) < Sixteen
    ensures FloatStr(f) == (if f < 0 then "-" else "") + (NatToString(Abs(f)) + ".0")
  {
    if f < 0 {
      assert "-" + NatToString(Abs(f)) + ".0" == "-" + (NatToString(Abs(f)) + ".0");
    }
  }

  lemma FixedReads(n: nat)
    ensures ReadUnsigned(NatToString(n) + ".0") == Some(n)
  {
    var d := NatToString(n);
    NatToStringValue(n);
    var t := d + ".0";
    assert t[|t| - 2..] == ".0" && t[..|t| - 2] == d;
  }

  lemma ScientificUnsigned(c: nat)
    requires c >= Sixteen
    ensures ReadUnsigned(Scientific(c)) == Some(c)
  {
    ScientificReadsBack(c);
    ScientificNotFixed(c);
  }

  /** A leading minus sign negates what the rest reads as. */
  lemma SignedReads(u: string, n: nat)
    requires |u| > 0 && u[0] != '-' && ReadUnsigned(u) == Some(n)
    ensures ReadFloatStr(u) == Some(n)
    ensures ReadFloatStr("-" + u) == Some(0 - n)
  {
    assert ("-" + u)[1..] == u;
  }
  /** Exponent notation never ends in ".0", so it is not read as fixed. */
  lemma ScientificNotFixed(c: nat)
    requires c >= Sixteen
    ensures var t := Scientific(c); |t| > 2 && t[|t| - 2] != '.'
  {
    var d := NatToString(c);
    var e := NatToString(|d| - 1);
    var t := Scientific(c);
    assert t[|t| - 2] == ("+" + e)[|e| - 1];
  }
}
