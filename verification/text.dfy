/** The handful of Python `str` operations the application relies on:
    `strip`, `lower`, `capitalize`, `in`, `replace`, `int(...)` and `str(int)`.
    Characters are Unicode scalar values; whitespace is Python's full set,
    case mapping is restricted to ASCII and Latin-1 (see README). */
module Text {
  import opened Wrappers

  /** `str.isspace`, the set `str.strip()` cuts away: the ASCII controls tab
      to carriage return and the four information separators before the
      space, the space itself, NEL, no-break space, the Ogham space mark, the
      en quad to hair space range, the line and paragraph separators, the
      narrow no-break and medium mathematical spaces, and the ideographic
      space. */
  predicate IsSpace(c: char) {
    || '\t' <= c <= '\r'
    || '\U{001C}' <= c <= ' '
    || c == '\U{0085}' || c == '\U{00A0}' || c == '\U{1680}'
    || '\U{2000}' <= c <= '\U{200A}'
    || c == '\U{2028}' || c == '\U{2029}' || c == '\U{202F}' || c == '\U{205F}' || c == '\U{3000}'
  }

  /** The ASCII information separators U+001C to U+001F: whitespace to
      `str.isspace`, but not to `int()`. */
  predicate IsInfoSeparator(c: char) {
    '\U{001C}' <= c <= '\U{001F}'
  }

  /** The whitespace `int()` skips around its literal. CPython first turns
      every non-ASCII whitespace character into a space and then skips only
      the space, tab, line feed, vertical tab, form feed and carriage return,
      so of `str.isspace` it leaves out the information separators. */
  predicate IsIntSpace(c: char) {
    IsSpace(c) && !IsInfoSeparator(c)
  }

  predicate IsDigit(c: char) {
    '0' <= c <= '9'
  }

  predicate AllDigits(s: string) {
    forall i :: 0 <= i < |s| ==> IsDigit(s[i])
  }

  predicate AllSpaces(s: string) {
    forall i :: 0 <= i < |s| ==> IsSpace(s[i])
  }

  predicate NoInfoSeparators(s: string) {
    forall i :: 0 <= i < |s| ==> !IsInfoSeparator(s[i])
  }

  // ---------------------------------------------------------------- strip

  /** Number of characters of the set `ws` at the front of `s`. */
  function LeadingSpaces(s: string, ws: char -> bool): (n: nat)
    ensures n <= |s|
    ensures forall k :: 0 <= k < n ==> ws(s[k])
    ensures n < |s| ==> !ws(s[n])
  {
    if |s| == 0 || !ws(s[0]) then 0 else 1 + LeadingSpaces(s[1..], ws)
  }

  /** Number of characters of the set `ws` at the back of `s`. */
  function TrailingSpaces(s: string, ws: char -> bool): (n: nat)
    ensures n <= |s|
    ensures forall k :: |s| - n <= k < |s| ==> ws(s[k])
    ensures n < |s| ==> !ws(s[|s| - n - 1])
  {
    if |s| == 0 || !ws(s[|s| - 1]) then 0 else 1 + TrailingSpaces(s[..|s| - 1], ws)
  }

  /** The longest slice of `s` that neither starts nor ends with a character
      of `ws`, everything cut away on either side being in `ws`. */
  function StripWith(s: string, ws: char -> bool): (r: string)
    ensures |r| <= |s|
    ensures var i := LeadingSpaces(s, ws);
      && i + |r| <= |s|
      && r == s[i..i + |r|]
      && forall k :: i + |r| <= k < |s| ==> ws(s[k])
    ensures |r| > 0 ==> !ws(r[0]) && !ws(r[|r| - 1])
  {
    var t := s[LeadingSpaces(s, ws)..];
    t[..|t| - TrailingSpaces(t, ws)]
  }

  /** A slice with only `ws` characters around it, and none at either of its
      own ends, is what stripping `ws` leaves. */
  lemma StripWithSlice(s: string, ws: char -> bool, i: nat, j: nat)
    requires i < j <= |s|
    requires forall k :: 0 <= k < i ==> ws(s[k])
    requires forall k :: j <= k < |s| ==> ws(s[k])
    requires !ws(s[i]) && !ws(s[j - 1])
    ensures StripWith(s, ws) == s[i..j]
  {
    assert LeadingSpaces(s, ws) == i;
  }

  /** `str.strip()`: the longest slice of `s` that neither starts nor ends with
      whitespace, everything cut away on either side being whitespace. */
  function Strip(s: string): (r: string)
    ensures |r| <= |s|
    ensures var i := LeadingSpaces(s, IsSpace);
      && i + |r| <= |s|
      && r == s[i..i + |r|]
      && forall k :: i + |r| <= k < |s| ==> IsSpace(s[k])
    ensures |r| > 0 ==> !IsSpace(r[0]) && !IsSpace(r[|r| - 1])
  {
    StripWith(s, IsSpace)
  }

  /** Stripping leaves nothing exactly when the text is all whitespace. */
  lemma StripEmptyIffSpaces(s: string)
    ensures Strip(s) == [] <==> AllSpaces(s)
  {
    if AllSpaces(s) {
      assert LeadingSpaces(s, IsSpace) == |s|;
    }
  }

  /** A text that neither starts nor ends with whitespace is its own strip. */
  lemma StripUnpadded(s: string)
    requires |s| > 0 && !IsSpace(s[0]) && !IsSpace(s[|s| - 1])
    ensures Strip(s) == s
  {
    assert LeadingSpaces(s, IsSpace) == 0;
    assert TrailingSpaces(s, IsSpace) == 0;
  }

  /** Stripping twice is stripping once. */
  lemma StripIdempotent(s: string)
    ensures Strip(Strip(s)) == Strip(s)
  {
    var r := Strip(s);
    if |r| > 0 {
      assert LeadingSpaces(r, IsSpace) == 0;
      assert TrailingSpaces(r, IsSpace) == 0;
    }
  }

  // ---------------------------------------------------------------- case

  /** `str.lower` on one character: ASCII and the Latin-1 capitals. */
  function LowerChar(c: char): (r: char)
    ensures 'a' <= r <= 'z' ==> 'a' <= c <= 'z' || 'A' <= c <= 'Z'
  {
    if 'A' <= c <= 'Z' || ('\U{00C0}' <= c <= '\U{00DE}' && c != '\U{00D7}') then
      (c as int + 32) as char
    else c
  }

  /** `str.upper` on one character: ASCII and the Latin-1 small letters. */
  function UpperChar(c: char): char {
    if 'a' <= c <= 'z' || ('\U{00E0}' <= c <= '\U{00FE}' && c != '\U{00F7}') then
      (c as int - 32) as char
    else c
  }

  /** `str.lower()`: character by character. */
  function Lower(s: string): (r: string)
    ensures |r| == |s|
    ensures forall i :: 0 <= i < |s| ==> r[i] == LowerChar(s[i])
  {
    if |s| == 0 then [] else [LowerChar(s[0])] + Lower(s[1..])
  }

  /** Lower-casing is idempotent, so any membership test on `Lower(s)` is
      insensitive to the case of `s`. */
  lemma LowerIdempotent(s: string)
    ensures Lower(Lower(s)) == Lower(s)
  {
  }

  lemma LowerOfUpper(c: char)
    ensures LowerChar(UpperChar(c)) == LowerChar(c)
  {
  }

  /** Two texts that differ only in ASCII/Latin-1 letter case lower-case alike. */
  lemma LowerUpperInsensitive(s: string)
    ensures Lower(seq(|s|, i requires 0 <= i < |s| => UpperChar(s[i]))) == Lower(s)
  {
    var u := seq(|s|, i requires 0 <= i < |s| => UpperChar(s[i]));
    forall i | 0 <= i < |s|
      ensures Lower(u)[i] == Lower(s)[i]
    {
      assert u[i] == UpperChar(s[i]);
      LowerOfUpper(s[i]);
    }
  }

  /** `str.capitalize()`: first character upper case, the rest lower case. */
  function Capitalize(s: string): (r: string)
    ensures |r| == |s|
    ensures |s| > 0 ==> r[0] == UpperChar(s[0]) && r[1..] == Lower(s[1..])
  {
    if |s| == 0 then [] else [UpperChar(s[0])] + Lower(s[1..])
  }

  // ---------------------------------------------------------------- substrings

  predicate IsPrefix(p: string, s: string) {
    |p| <= |s| && s[..|p|] == p
  }

  /** `s.endswith(p)`. */
  predicate IsSuffix(p: string, s: string) {
    |p| <= |s| && s[|s| - |p|..] == p
  }

  /** Python's `p in s`. */
  predicate Contains(s: string, p: string)
    decreases |s|
  {
    IsPrefix(p, s) || (|s| > 0 && Contains(s[1..], p))
  }

  /** `s.replace(pat, rep)`: every non-overlapping occurrence of `pat`, found
      left to right, becomes `rep`; an empty `pat` matches between every two
      characters and at both ends, as in Python. */
  function ReplaceAll(s: string, pat: string, rep: string): string
    decreases |s|
  {
    if |pat| == 0 then
      if |s| == 0 then rep else rep + [s[0]] + ReplaceAll(s[1..], pat, rep)
    else if IsPrefix(pat, s) then
      rep + ReplaceAll(s[|pat|..], pat, rep)
    else if |s| == 0 then
      []
    else
      [s[0]] + ReplaceAll(s[1..], pat, rep)
  }

  /** `s.replace(pat, rep, 1)`: only the first occurrence of `pat` becomes
      `rep`; an empty `pat` matches at the front. */
  function ReplaceFirst(s: string, pat: string, rep: string): (r: string)
    ensures IsPrefix(pat, s) ==> r == rep + s[|pat|..]
    ensures !Contains(s, pat) ==> r == s
    decreases |s|
  {
    if IsPrefix(pat, s) then rep + s[|pat|..]
    else if |s| == 0 then s
    else [s[0]] + ReplaceFirst(s[1..], pat, rep)
  }

  /** Replacing a pattern that does not occur changes nothing. */
  lemma {:induction false} ReplaceAbsent(s: string, pat: string, rep: string)
    requires |pat| > 0 && !Contains(s, pat)
    ensures ReplaceAll(s, pat, rep) == s
    decreases |s|
  {
    if |s| > 0 {
      ReplaceAbsent(s[1..], pat, rep);
      assert [s[0]] + s[1..] == s;
    }
  }

  /** Replacing a pattern by itself changes nothing. */
  lemma {:induction false} ReplaceBySelf(s: string, pat: string)
    requires |pat| > 0
    ensures ReplaceAll(s, pat, pat) == s
    decreases |s|
  {
    if IsPrefix(pat, s) {
      ReplaceBySelf(s[|pat|..], pat);
      assert pat + s[|pat|..] == s;
    } else if |s| > 0 {
      ReplaceBySelf(s[1..], pat);
      assert [s[0]] + s[1..] == s;
    }
  }

  /** One-character substitution, the pointwise reading of `s.replace(a, b)`
      for single characters. */
  function SubstChar(s: string, a: char, b: char): (r: string)
    ensures |r| == |s|
    ensures forall i :: 0 <= i < |s| ==> r[i] == (if s[i] == a then b else s[i])
  {
    if |s| == 0 then [] else [if s[0] == a then b else s[0]] + SubstChar(s[1..], a, b)
  }

  /** Replacing one character by one character is a pointwise substitution. */
  lemma {:induction false} ReplaceCharIsSubst(s: string, a: char, b: char)
    ensures ReplaceAll(s, [a], [b]) == SubstChar(s, a, b)
    decreases |s|
  {
    if |s| > 0 {
      ReplaceCharIsSubst(s[1..], a, b);
      if IsPrefix([a], s) {
        assert s[0] == a;
        assert s[|[a]|..] == s[1..];
      }
    }
  }

  // ---------------------------------------------------------------- numbers

  function DigitChar(d: nat): (c: char)
    requires d < 10
    ensures IsDigit(c)
  {
    ('0' as int + d) as char
  }

  function DigitValue(c: char): (d: nat)
    requires IsDigit(c)
    ensures d < 10 && DigitChar(d) == c
  {
    c as int - '0' as int
  }

  /** The number a string of decimal digits denotes (most significant first). */
  function DigitsValue(s: string): nat
    requires AllDigits(s)
  {
    if |s| == 0 then 0 else DigitsValue(s[..|s| - 1]) * 10 + DigitValue(s[|s| - 1])
  }

  /** `str(n)` for a natural number: its shortest decimal rendering. */
  function NatToString(n: nat): (r: string)
    ensures |r| > 0 && AllDigits(r)
    ensures |r| > 1 ==> r[0] != '0'
    decreases n
  {
    if n < 10 then [DigitChar(n)] else NatToString(n / 10) + [DigitChar(n % 10)]
  }

  /** Reading back the rendering of `n` gives `n`. */
  lemma {:induction false} NatToStringValue(n: nat)
    ensures DigitsValue(NatToString(n)) == n
    decreases n
  {
    if n >= 10 {
      NatToStringValue(n / 10);
      var r := NatToString(n);
      assert r[..|r| - 1] == NatToString(n / 10);
    }
  }

  /** The rendering of a number in [lo, 10*lo) with lo a power of ten has the
      matching number of digits; stated here for the widths the dates need. */
  lemma {:induction false} NatToStringLength(n: nat, width: nat)
    requires width >= 1
    requires Pow10(width - 1) <= n < Pow10(width)
    ensures |NatToString(n)| == width
    decreases width
  {
    if width > 1 {
      NatToStringLength(n / 10, width - 1);
    }
  }

  function Pow10(k: nat): (p: nat)
    ensures p >= 1
  {
    if k == 0 then 1 else 10 * Pow10(k - 1)
  }

  /** `str(i)` for any integer. */
  function IntToString(i: int): string {
    if i < 0 then "-" + NatToString(-i) else NatToString(i)
  }

  /** The text of a Python integer literal as `int(str)` accepts it, after
      stripping: an optional sign followed by at least one ASCII digit. */
  predicate IsIntLiteral(t: string) {
    if |t| > 0 && (t[0] == '-' || t[0] == '+') then |t| > 1 && AllDigits(t[1..])
    else |t| > 0 && AllDigits(t)
  }

  /** A digit string without its leading zeros, the last digit always kept. */
  function DropZeros(s: string): (r: string)
    ensures |r| <= |s| && r == s[|s| - |r|..]
    ensures |s| > 0 ==> |r| > 0
    ensures |r| > 1 ==> r[0] != '0'
  {
    if |s| > 1 && s[0] == '0' then DropZeros(s[1..]) else s
  }

  /** How Python spells the integer a literal denotes: no `+`, no leading
      zeros, and a `-` only in front of a value that is not zero. */
  function CanonicalLiteral(t: string): string
    requires IsIntLiteral(t)
  {
    var digits := DropZeros(if t[0] == '-' || t[0] == '+' then t[1..] else t);
    if t[0] == '-' && digits != "0" then "-" + digits else digits
  }

  /** The value of a leading digit is its weight times ten to the number of
      digits after it. */
  lemma {:induction false} DigitsValueCons(c: char, s: string)
    requires IsDigit(c) && AllDigits(s)
    ensures AllDigits([c] + s)
    ensures DigitsValue([c] + s) == DigitValue(c) * Pow10(|s|) + DigitsValue(s)
    decreases |s|
  {
    var t := [c] + s;
    assert forall i :: 0 <= i < |t| ==> t[i] == if i == 0 then c else s[i - 1];
    if |s| > 0 {
      var n := |s| - 1;
      var a := s[..n];
      assert t[..|t| - 1] == [c] + a;
      assert t[|t| - 1] == s[n];
      DigitsValueCons(c, a);
      ShiftDigit(DigitValue(c), Pow10(n), DigitsValue(a), DigitValue(s[n]));
    }
  }

  lemma ShiftDigit(w: int, p: int, rest: int, d: int)
    ensures (w * p + rest) * 10 + d == w * (10 * p) + (rest * 10 + d)
  {
  }

  /** Digits without a leading zero are the rendering of their own value. */
  lemma {:induction false} CanonicalDigits(s: string)
    requires |s| > 0 && AllDigits(s) && (|s| > 1 ==> s[0] != '0')
    ensures NatToString(DigitsValue(s)) == s
    decreases |s|
  {
    if |s| > 1 {
      var a := s[..|s| - 1];
      CanonicalDigits(a);
      assert a == [a[0]] + a[1..];
      DigitsValueCons(a[0], a[1..]);
      assert DigitsValue(a) >= 1;
      var n := DigitsValue(s);
      assert n / 10 == DigitsValue(a) && n % 10 == DigitValue(s[|s| - 1]);
      assert s == a + [s[|s| - 1]];
    }
  }

  /** Reading digits and rendering the number again drops the leading zeros. */
  lemma {:induction false} DigitsSpelling(s: string)
    requires |s| > 0 && AllDigits(s)
    ensures NatToString(DigitsValue(s)) == DropZeros(s)
    ensures DigitsValue(s) == 0 <==> DropZeros(s) == "0"
    decreases |s|
  {
    if |s| > 1 && s[0] == '0' {
      assert s == [s[0]] + s[1..];
      DigitsValueCons(s[0], s[1..]);
      DigitsSpelling(s[1..]);
    } else {
      CanonicalDigits(s);
      NatToStringValue(0);
      if DigitsValue(s) == 0 {
        assert NatToString(0) == "0";
      }
      if s == "0" {
        assert DigitsValue(s) == DigitsValue(NatToString(0));
      }
    }
  }

  /** What `int()` keeps of its argument: the text without the whitespace
      `int()` skips at either end. */
  function IntStrip(s: string): (r: string)
    ensures |r| <= |s|
    ensures var i := LeadingSpaces(s, IsIntSpace);
      && i + |r| <= |s|
      && r == s[i..i + |r|]
      && forall k :: i + |r| <= k < |s| ==> IsIntSpace(s[k])
    ensures |r| > 0 ==> !IsIntSpace(r[0]) && !IsIntSpace(r[|r| - 1])
  {
    StripWith(s, IsIntSpace)
  }

  /** `int(s)` on a string, with `None` standing for the `ValueError`. */
  function ParseInt(s: string): (r: Option<int>)
    ensures r.Some? <==> IsIntLiteral(IntStrip(s))
  {
    var t := IntStrip(s);
    if !IsIntLiteral(t) then None
    else if t[0] == '-' then Some(0 - DigitsValue(t[1..]) as int)
    else if t[0] == '+' then Some(DigitsValue(t[1..]))
    else Some(DigitsValue(t))
  }

  /** `int()` accepts a text exactly when `str.strip()` leaves a literal and
      the text holds no information separator, and then both cut the same
      whitespace away. */
  lemma ParseIntAccepts(s: string)
    ensures ParseInt(s).Some? <==> IsIntLiteral(Strip(s)) && NoInfoSeparators(s)
    ensures ParseInt(s).Some? ==> IntStrip(s) == Strip(s)
  {
    if IsIntLiteral(IntStrip(s)) {
      IntLiteralIsStripped(s);
    } else if IsIntLiteral(Strip(s)) && NoInfoSeparators(s) {
      StrippedLiteralIsInt(s);
    }
  }

  /** What `int()` reads as a literal is also what `str.strip()` leaves, and
      nothing around it is an information separator. */
  lemma IntLiteralIsStripped(s: string)
    requires IsIntLiteral(IntStrip(s))
    ensures Strip(s) == IntStrip(s) && NoInfoSeparators(s)
  {
    var t := IntStrip(s);
    var i := LeadingSpaces(s, IsIntSpace);
    LiteralEnds(t);
    StripWithSlice(s, IsSpace, i, i + |t|);
    forall k | 0 <= k < |s|
      ensures !IsInfoSeparator(s[k])
    {
      if i <= k < i + |t| {
        LiteralChars(t, k - i);
      }
    }
  }

  /** A literal `str.strip()` leaves, in a text without information
      separators, is also what `int()` keeps. */
  lemma StrippedLiteralIsInt(s: string)
    requires IsIntLiteral(Strip(s)) && NoInfoSeparators(s)
    ensures IntStrip(s) == Strip(s)
  {
    var t := Strip(s);
    var i := LeadingSpaces(s, IsSpace);
    LiteralEnds(t);
    StripWithSlice(s, IsIntSpace, i, i + |t|);
  }

  /** A literal is a sign or a digit at the front and a digit at the back,
      neither of them whitespace of either kind. */
  lemma LiteralEnds(t: string)
    requires IsIntLiteral(t)
    ensures !IsSpace(t[0]) && !IsSpace(t[|t| - 1])
    ensures !IsIntSpace(t[0]) && !IsIntSpace(t[|t| - 1])
  {
  }

  /** No character of a literal is an information separator. */
  lemma LiteralChars(t: string, k: nat)
    requires IsIntLiteral(t) && k < |t|
    ensures !IsInfoSeparator(t[k])
  {
    if k > 0 {
      assert t[k] == t[1..][k - 1];
    }
  }

  /** The number `int(s)` reads is the one whose `str` is the literal's
      canonical spelling: sign kept only on a value that is not zero, a plus
      sign and leading zeros dropped. */
  lemma ParseIntSpelling(s: string)
    ensures ParseInt(s).Some? ==> IntToString(ParseInt(s).value) == CanonicalLiteral(IntStrip(s))
  {
    var t := IntStrip(s);
    if IsIntLiteral(t) {
      DigitsSpelling(if t[0] == '-' || t[0] == '+' then t[1..] else t);
    }
  }

  /** `int(str(i)) == i`. */
  lemma IntRoundTrip(i: int)
    ensures ParseInt(IntToString(i)) == Some(i)
  {
    if i < 0 {
      NegativeRoundTrip(-i);
      assert IntToString(i) == "-" + NatToString(-i);
    } else {
      NaturalRoundTrip(i);
    }
  }

  /** `int(str(n)) == n` for a natural number. */
  lemma NaturalRoundTrip(n: nat)
    ensures ParseInt(NatToString(n)) == Some(n)
  {
    var s := NatToString(n);
    assert IsDigit(s[0]) && IsDigit(s[|s| - 1]);
    IntStripUnpadded(s);
    assert IsIntLiteral(s);
    NatToStringValue(n);
  }

  /** `int("-" + str(n)) == -n`. */
  lemma NegativeRoundTrip(n: nat)
    requires n > 0
    ensures ParseInt("-" + NatToString(n)) == Some(0 - n)
  {
    NatToStringValue(n);
    ReadNegative(NatToString(n), n);
  }

  /** A minus sign before a run of digits reads as minus their value. */
  lemma ReadNegative(digits: string, n: nat)
    requires |digits| > 0 && AllDigits(digits) && DigitsValue(digits) == n
    ensures ParseInt("-" + digits) == Some(0 - n)
  {
    var t := "-" + digits;
    assert t[0] == '-' && t[1..] == digits;
    assert IsDigit(t[|t| - 1]);
    IntStripUnpadded(t);
    assert IsIntLiteral(t);
  }

  /** A text that neither starts nor ends with whitespace `int()` skips is
      all `int()` keeps of it. */
  lemma IntStripUnpadded(s: string)
    requires |s| > 0 && !IsIntSpace(s[0]) && !IsIntSpace(s[|s| - 1])
    ensures IntStrip(s) == s
  {
    StripWithSlice(s, IsIntSpace, 0, |s|);
  }

  /** Appending a digit shifts the value one decimal place. */
  lemma DigitsValueSnoc(s: string, d: nat)
    requires AllDigits(s) && d < 10
    ensures AllDigits(s + [DigitChar(d)])
    ensures DigitsValue(s + [DigitChar(d)]) == DigitsValue(s) * 10 + d
  {
    assert (s + [DigitChar(d)])[..|s|] == s;
  }

  /** Zero-padded two-digit rendering, as `%d`/`%m`/`%H`/`%M` print. */
  function Pad2(n: nat): (r: string)
    requires n < 100
    ensures |r| == 2 && AllDigits(r) && DigitsValue(r) == n
  {
    var r := [DigitChar(n / 10), DigitChar(n % 10)];
    assert r[..1] == [DigitChar(n / 10)];
    assert r[..1][..0] == [];
    assert DigitsValue(r[..1]) == n / 10;
    r
  }
}
