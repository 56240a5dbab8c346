/**
 * The C and C++ number readers the programs rely on: `strtol` with base 0 or
 * 10 (including its clamping to the `long` range), `istream >> int`, and the
 * view of a std::string as a C string through `c_str()`.
 */
module CNumbers {
  import opened Wrappers
  import opened Text

  const LONG_MAX: int := 0x7fff_ffff_ffff_ffff
  const LONG_MIN: int := -0x8000_0000_0000_0000
  const INT_MAX: int := 0x7fff_ffff
  const INT_MIN: int := -0x8000_0000

  /** The characters a C function sees through `c_str()`: those before the first NUL. */
  function CStr(s: string): (r: string)
    ensures r <= s && '\0' !in r
    ensures |r| < |s| ==> s[|r|] == '\0'
  {
    IndexOfNone(s, '\0');
    s[..IndexOf(s, '\0')]
  }

  /** A C string whose text has no NUL passes through `c_str()` whole. */
  lemma CStrNoNul(s: string)
    requires '\0' !in s
    ensures CStr(s) == s
  {
    IndexOfFirst(s, '\0', |s|);
  }

  /** Text with no NUL in front of `b` is kept whole, and `b` is cut at its own first NUL. */
  lemma CStrAppend(a: string, b: string)
    requires '\0' !in a
    ensures CStr(a + b) == a + CStr(b)
  {
    var k := |CStr(b)|;
    IndexOfNone(b, '\0');
    forall i | 0 <= i < |a| + k ensures (a + b)[i] != '\0' {
      if i >= |a| { assert (a + b)[i] == b[i - |a|]; }
    }
    if |a| + k < |a + b| { assert (a + b)[|a| + k] == b[k]; }
    IndexOfFirst(a + b, '\0', |a| + k);
    assert (a + b)[..|a| + k] == a + b[..k];
  }

  /** The decimal text of an integer holds no NUL. */
  lemma NoNulInDecimal(v: int)
    ensures CStr(IntToString(v)) == IntToString(v)
  {
    var s := IntToString(v);
    forall i | 0 <= i < |s| ensures s[i] != '\0' {
      if v < 0 && i > 0 { assert s[i] == NatToString(-v)[i - 1]; }
    }
    CStrNoNul(s);
  }

  /** The value of `c` as a digit of `base` (letters of either case stand for 10 to 35). */
  function DigitIn(c: char, base: nat): (r: Option<nat>)
    ensures r.Some? ==> r.value < base
    ensures base == 10 ==> (r.Some? <==> IsDigit(c))
    ensures IsDigit(c) && base == 10 ==> r == Some(DigitValue(c))
  {
    var d := if '0' <= c <= '9' then c as int - '0' as int
      else if 'a' <= c <= 'z' then c as int - 'a' as int + 10
      else if 'A' <= c <= 'Z' then c as int - 'A' as int + 10
      else 36;
    if d < base then Some(d) else None
  }

  predicate AllDigitsIn(s: string, base: nat) {
    forall k :: 0 <= k < |s| ==> DigitIn(s[k], base).Some?
  }

  /** The first position at or after `i` that is not white space. */
  function SkipSpace(s: string, i: nat): (j: nat)
    requires i <= |s|
    ensures i <= j <= |s|
    ensures forall k :: i <= k < j ==> IsSpace(s[k])
    ensures j < |s| ==> !IsSpace(s[j])
    decreases |s| - i
  {
    if i < |s| && IsSpace(s[i]) then SkipSpace(s, i + 1) else i
  }

  /** The length of the run of `base` digits that starts at `i`. */
  function DigitRun(s: string, i: nat, base: nat): (n: nat)
    requires i <= |s|
    ensures i + n <= |s|
    ensures AllDigitsIn(s[i..i + n], base)
    ensures i + n < |s| ==> DigitIn(s[i + n], base).None?
    decreases |s| - i
  {
    if i < |s| && DigitIn(s[i], base).Some? then
      var n := DigitRun(s, i + 1, base);
      assert s[i..i + 1 + n] == [s[i]] + s[i + 1..i + 1 + n];
      1 + n
    else 0
  }

  /** The value of a run of digits, most significant first. */
  function RunValue(s: string, base: nat): (v: nat)
    requires AllDigitsIn(s, base)
  {
    if s == [] then 0 else base * RunValue(s[..|s| - 1], base) + DigitIn(s[|s| - 1], base).value
  }

  function Clamp(v: int, lo: int, hi: int): (r: int)
    requires lo <= hi
    ensures lo <= r <= hi
    ensures lo <= v <= hi ==> r == v
    ensures v < lo ==> r == lo
    ensures v > hi ==> r == hi
  {
    if v < lo then lo else if v > hi then hi else v
  }

  /** A converted number and the position where conversion stopped (`endptr - nptr`). */
  datatype Parsed = Parsed(value: int, end: nat)

  /** Where the digits start and which base they are read in, after white space, sign and prefix. */
  function DigitsStart(s: string, base: nat): (r: (nat, nat))
    requires base == 0 || base == 10
    ensures r.0 <= |s| && (r.1 == 8 || r.1 == 10 || r.1 == 16)
    ensures base == 10 ==> r.1 == 10
  {
    var i := SkipSpace(s, 0);
    var j := if i < |s| && (s[i] == '-' || s[i] == '+') then i + 1 else i;
    if base == 10 then (j, 10)
    else if j + 2 < |s| && s[j] == '0' && (s[j + 1] == 'x' || s[j + 1] == 'X') && DigitIn(s[j + 2], 16).Some? then (j + 2, 16)
    else if j < |s| && s[j] == '0' then (j, 8)
    else (j, 10)
  }

  predicate Negative(s: string) {
    var i := SkipSpace(s, 0);
    i < |s| && s[i] == '-'
  }

  /**
   * `strtol(s, &end, base)` for base 0 (a "0x" prefix selects hexadecimal, a
   * leading "0" octal) or 10: leading white space and one sign are skipped; with
   * no digit the value is 0 and `end` is the start of the text; an out-of-range
   * value is clamped to the `long` range.
   */
  function Strtol(s: string, base: nat): (p: Parsed)
    requires base == 0 || base == 10
    ensures p.end <= |s|
    ensures LONG_MIN <= p.value <= LONG_MAX
    ensures p.end == 0 ==> p.value == 0
  {
    var (k, b) := DigitsStart(s, base);
    var n := DigitRun(s, k, b);
    if n == 0 then Parsed(0, 0)
    else Parsed(Clamp(if Negative(s) then -(RunValue(s[k..k + n], b) as int) else RunValue(s[k..k + n], b), LONG_MIN, LONG_MAX), k + n)
  }

  lemma LastOfSlice(s: string, k: nat, n: nat)
    requires 0 < n && k + n <= |s|
    ensures s[k..k + n][n - 1] == s[k + n - 1]
  {
  }

  /**
   * Conversion stops after a digit and before a character that is not a digit
   * of the base in use; only a '-' sign gives a negative value.
   */
  lemma StrtolStops(s: string, base: nat)
    requires base == 0 || base == 10
    ensures var p := Strtol(s, base);
      (p.end > 0 ==> DigitIn(s[p.end - 1], DigitsStart(s, base).1).Some?) &&
      (p.end < |s| && p.end > 0 ==> DigitIn(s[p.end], DigitsStart(s, base).1).None?) &&
      (p.value < 0 ==> Negative(s))
  {
    var (k, b) := DigitsStart(s, base);
    var n := DigitRun(s, k, b);
    if n > 0 {
      LastOfSlice(s, k, n);
    }
  }

  /** `stream >> n` for an `int n`: decimal, 0 when no digit follows, clamped to the `int` range. */
  function ReadInt(s: string): (v: int)
    ensures INT_MIN <= v <= INT_MAX
    ensures Strtol(s, 10).end == 0 ==> v == 0
  {
    Clamp(Strtol(s, 10).value, INT_MIN, INT_MAX)
  }

  // Reading back printed numbers.

  lemma {:induction false} RunValueDecimal(s: string)
    requires AllDigits(s)
    ensures AllDigitsIn(s, 10) && RunValue(s, 10) == DecimalValue(s)
  {
    if s != [] {
      assert AllDigits(s[..|s| - 1]);
      RunValueDecimal(s[..|s| - 1]);
    }
  }

  lemma DigitRunAll(s: string, i: nat, base: nat)
    requires i <= |s| && AllDigitsIn(s[i..], base)
    ensures DigitRun(s, i, base) == |s| - i
    decreases |s| - i
  {
    if i < |s| {
      assert s[i..][0] == s[i];
      assert s[i + 1..] == s[i..][1..];
      DigitRunAll(s, i + 1, base);
    }
  }

  /** A sign (or none) followed by digits: no white space to skip, the sign decides negativity. */
  lemma SignThenDigits(s: string, neg: bool, d: string)
    requires s == (if neg then "-" else "") + d && d != [] && AllDigits(d)
    ensures SkipSpace(s, 0) == 0 && Negative(s) == neg
    ensures s[(if neg then 1 else 0)..] == d
    ensures (0 < |s| && (s[0] == '-' || s[0] == '+')) == neg
  {
    assert !IsSpace(s[0]);
    if !neg { assert s[0] == d[0]; }
  }

  /** Past the sign at `o`, digits not starting with "0x" are read in base 10, or 8 for a lone "0" with base 0. */
  lemma DigitsStartAt(s: string, base: nat, o: nat, d: string)
    requires base == 0 || base == 10
    requires SkipSpace(s, 0) == 0 && o <= 1 && (o == 1) == (0 < |s| && (s[0] == '-' || s[0] == '+'))
    requires o <= |s| && s[o..] == d && d != [] && IsDigit(d[0])
    requires base == 0 ==> d[0] != '0' || d == "0"
    ensures DigitsStart(s, base) == (o, if base == 0 && d == "0" then 8 else 10)
  {
    assert s[o] == d[0];
  }

  /** A run of decimal digits has its decimal value; a lone "0" is also 0 in octal. */
  lemma DigitsValue(d: string, b: nat)
    requires AllDigits(d) && (b == 10 || (b == 8 && d == "0"))
    ensures AllDigitsIn(d, b) && RunValue(d, b) == DecimalValue(d)
  {
    RunValueDecimal(d);
    if b == 8 { assert d[..0] == []; }
  }

  /** A sign (or none) followed by decimal digits reads, whole, as their signed value. */
  lemma SignedDigits(s: string, neg: bool, d: string, base: nat)
    requires base == 0 || base == 10
    requires s == (if neg then "-" else "") + d && d != [] && AllDigits(d)
    requires base == 0 ==> d[0] != '0' || d == "0"
    ensures Strtol(s, base) == Parsed(Clamp(if neg then -(DecimalValue(d) as int) else DecimalValue(d), LONG_MIN, LONG_MAX), |s|)
  {
    var o := if neg then 1 else 0;
    var b := if base == 0 && d == "0" then 8 else 10;
    SignThenDigits(s, neg, d);
    DigitsStartAt(s, base, o, d);
    DigitsValue(d, b);
    StrtolWhole(s, base, o, b);
  }

  lemma NatToStringNoLeadingZero(m: nat)
    ensures NatToString(m)[0] != '0' || NatToString(m) == "0"
  {
    var d := NatToString(m);
    if |d| == 1 && d[0] == '0' {
      assert d == "0";
    }
  }

  /** The printed decimal text of a `long` value reads back, whole, as that value. */
  lemma StrtolDecimal(v: int, base: nat)
    requires LONG_MIN <= v <= LONG_MAX
    requires base == 0 || base == 10
    ensures Strtol(IntToString(v), base) == Parsed(v, |IntToString(v)|)
  {
    var m: nat := if v >= 0 then v else -v;
    NatToStringNoLeadingZero(m);
    DecimalOfNatToString(m);
    SignedDigits(IntToString(v), v < 0, NatToString(m), base);
  }

  /** With nothing but white space and a sign there is no number: `end` is the start. */
  lemma StrtolEmpty(base: nat)
    requires base == 0 || base == 10
    ensures Strtol("", base) == Parsed(0, 0)
  {
  }

  /** When everything after the prefix is a digit, the whole text is consumed. */
  lemma StrtolWhole(s: string, base: nat, k: nat, b: nat)
    requires base == 0 || base == 10
    requires DigitsStart(s, base) == (k, b) && k < |s| && AllDigitsIn(s[k..], b)
    ensures Strtol(s, base) == Parsed(Clamp(if Negative(s) then -(RunValue(s[k..], b) as int) else RunValue(s[k..], b), LONG_MIN, LONG_MAX), |s|)
  {
    DigitRunAll(s, k, b);
    SliceToEnd(s, k);
  }

  lemma SliceToEnd(s: string, k: nat)
    requires k <= |s|
    ensures s[k..k + (|s| - k)] == s[k..]
  {
  }

  /** SkipSpace stops at the first character that is not white space. */
  lemma {:induction false} SkipSpaceTo(s: string, i: nat, n: nat)
    requires i <= n < |s| && !IsSpace(s[n])
    requires forall k :: i <= k < n ==> IsSpace(s[k])
    ensures SkipSpace(s, i) == n
    decreases n - i
  {
    if i < n { SkipSpaceTo(s, i + 1, n); }
  }

  /** DigitRun stops at the first character that is not a digit of the base. */
  lemma {:induction false} DigitRunTo(s: string, i: nat, n: nat, base: nat)
    requires i <= n <= |s| && (n == |s| || DigitIn(s[n], base).None?)
    requires forall k :: i <= k < n ==> DigitIn(s[k], base).Some?
    ensures DigitRun(s, i, base) == n - i
    decreases n - i
  {
    if i < n { DigitRunTo(s, i + 1, n, base); }
  }

  /** Base 10, with the digits found at `k`: the value is that of the run of digits, signed. */
  lemma StrtolDecimalAt(s: string, k: nat, n: nat)
    requires DigitsStart(s, 10).0 == k && 0 < n && k + n <= |s|
    requires AllDigits(s[k..k + n]) && (k + n == |s| || !IsDigit(s[k + n]))
    ensures Strtol(s, 10) == Parsed(Clamp(if Negative(s) then -(DecimalValue(s[k..k + n]) as int) else DecimalValue(s[k..k + n]), LONG_MIN, LONG_MAX), k + n)
  {
    forall j | k <= j < k + n ensures DigitIn(s[j], 10).Some? {
      assert s[j] == s[k..k + n][j - k];
    }
    DigitRunTo(s, k, k + n, 10);
    RunValueDecimal(s[k..k + n]);
  }

  /** Where the parts of `w + d + t` lie. */
  lemma ThreeParts(w: string, d: string, t: string, o: nat)
    requires o < |d|
    ensures var s := w + d + t;
      s[|w|] == d[0] && s[|w| + o..|w| + |d|] == d[o..] &&
      (forall k :: 0 <= k < |w| ==> s[k] == w[k]) &&
      (|w| + |d| < |s| ==> s[|w| + |d|] == t[0])
  {
    var s := w + d + t;
    assert s[|w| + o..|w| + |d|] == d[o..];
  }

  /** White space, then the printed text of `v`, then something that is not a digit. */
  lemma PrintedLayout(w: string, v: int, t: string)
    requires AllSpace(w) && (t == [] || !IsDigit(t[0]))
    ensures var s := w + IntToString(v) + t;
      var o := if v < 0 then 1 else 0;
      DigitsStart(s, 10).0 == |w| + o && Negative(s) == (v < 0) &&
      s[|w| + o..|w| + |IntToString(v)|] == NatToString(if v < 0 then -v else v) &&
      (|w| + |IntToString(v)| == |s| || !IsDigit(s[|w| + |IntToString(v)|]))
  {
    var d := IntToString(v);
    var s := w + d + t;
    var o := if v < 0 then 1 else 0;
    ThreeParts(w, d, t, o);
    SkipSpaceTo(s, 0, |w|);
  }

  /**
   * The printed decimal text of a `long` value, after white space and before
   * anything that is not a digit, reads back in base 10 as that value, and
   * conversion stops right after it.
   */
  lemma StrtolOfPrinted(w: string, v: int, t: string)
    requires AllSpace(w) && LONG_MIN <= v <= LONG_MAX
    requires t == [] || !IsDigit(t[0])
    ensures Strtol(w + IntToString(v) + t, 10) == Parsed(v, |w| + |IntToString(v)|)
  {
    var s := w + IntToString(v) + t;
    var o := if v < 0 then 1 else 0;
    var m: nat := if v < 0 then -v else v;
    PrintedLayout(w, v, t);
    StrtolDecimalAt(s, |w| + o, |IntToString(v)| - o);
    DecimalOfNatToString(m);
  }

  lemma StrtolHexExample()
    ensures Strtol("0x1A", 0) == Parsed(26, 4)
  {
    var s := "0x1A";
    assert SkipSpace(s, 0) == 0 by { assert !IsSpace(s[0]); }
    assert !Negative(s);
    assert DigitIn(s[2], 16) == Some(1);
    assert DigitsStart(s, 0) == (2, 16);
    assert s[2..] == "1A";
    assert RunValue("1", 16) == 1 by { assert "1"[..0] == []; }
    assert RunValue("1A", 16) == 26 by { assert "1A"[..1] == "1"; }
    StrtolWhole(s, 0, 2, 16);
  }

  lemma StrtolOctalExample()
    ensures Strtol("010", 0) == Parsed(8, 3)
  {
    var s := "010";
    assert SkipSpace(s, 0) == 0 by { assert !IsSpace(s[0]); }
    assert !Negative(s);
    assert DigitsStart(s, 0) == (0, 8);
    assert s[0..] == s;
    assert RunValue("0", 8) == 0 by { assert "0"[..0] == []; }
    assert RunValue("01", 8) == 1 by { assert "01"[..1] == "0"; }
    assert RunValue("010", 8) == 8 by { assert "010"[..2] == "01"; }
    StrtolWhole(s, 0, 0, 8);
  }
}
