/**
 * Character and string helpers shared by the programs: the C `isspace`
 * class, trimming, ASCII lower-casing, searching, decimal printing and
 * the line reader of C++ input streams.
 *
 * The recursive helpers walk an index over one string rather than taking
 * slices, and the characterisations of their results are lemmas, so that
 * a proof only sees the facts it asks for.
 */
module Text {

  import opened Wrappers

  /** C `isspace` in the "C" locale: space, \t, \n, \v, \f and \r. */
  predicate IsSpace(c: char) {
    c == ' ' || (9 <= c as int <= 13)
  }

  predicate IsDigit(c: char) {
    '0' <= c <= '9'
  }

  predicate NoSpace(s: string) {
    forall i :: 0 <= i < |s| ==> !IsSpace(s[i])
  }

  predicate AllSpace(s: string) {
    forall i :: 0 <= i < |s| ==> IsSpace(s[i])
  }

  /** A string with no white space at either end. */
  predicate Trimmed(s: string) {
    s == [] || (!IsSpace(s[0]) && !IsSpace(s[|s| - 1]))
  }

  // Trimming.

  /** The end of `s[..n]` once its trailing white space is dropped. */
  function TrimEnd(s: string, n: nat): (e: nat)
    requires n <= |s|
    ensures e <= n
    ensures e == 0 || !IsSpace(s[e - 1])
  {
    if n > 0 && IsSpace(s[n - 1]) then TrimEnd(s, n - 1) else n
  }

  /** Only white space lies between TrimEnd and `n`. */
  lemma {:induction false} TrimEndSpaces(s: string, n: nat)
    requires n <= |s|
    ensures forall i :: TrimEnd(s, n) <= i < n ==> IsSpace(s[i])
  {
    if n > 0 && IsSpace(s[n - 1]) { TrimEndSpaces(s, n - 1); }
  }

  /** The first position in `[i, e)` that is not white space, or `e`. */
  function TrimStart(s: string, i: nat, e: nat): (b: nat)
    requires i <= e <= |s|
    ensures i <= b <= e
    ensures b == e || !IsSpace(s[b])
    decreases e - i
  {
    if i < e && IsSpace(s[i]) then TrimStart(s, i + 1, e) else i
  }

  /** Only white space lies between `i` and TrimStart. */
  lemma {:induction false} TrimStartSpaces(s: string, i: nat, e: nat)
    requires i <= e <= |s|
    ensures forall j :: i <= j < TrimStart(s, i, e) ==> IsSpace(s[j])
    decreases e - i
  {
    if i < e && IsSpace(s[i]) { TrimStartSpaces(s, i + 1, e); }
  }

  /** `rtrim`: removes trailing white space. */
  function RTrim(s: string): (r: string)
    ensures |r| <= |s| && r == s[..|r|]
    ensures r == [] || !IsSpace(r[|r| - 1])
  {
    s[..TrimEnd(s, |s|)]
  }

  /** `ltrim`: removes leading white space. */
  function LTrim(s: string): (r: string)
    ensures |r| <= |s| && r == s[|s| - |r|..]
    ensures r == [] || !IsSpace(r[0])
  {
    s[TrimStart(s, 0, |s|)..]
  }

  /** `trim`: removes white space at both ends. */
  function Trim(s: string): (r: string)
    ensures |r| <= |s|
    ensures Trimmed(r)
  {
    var e := TrimEnd(s, |s|);
    s[TrimStart(s, 0, e)..e]
  }

  /** Only white space follows the right-trimmed prefix. */
  lemma RTrimRest(s: string)
    ensures AllSpace(s[|RTrim(s)|..])
  {
    var e := TrimEnd(s, |s|);
    TrimEndSpaces(s, |s|);
    assert forall i :: 0 <= i < |s| - e ==> s[e..][i] == s[e + i];
  }

  /** RTrim is the prefix that ends in a non-space and is followed only by white space. */
  lemma RTrimIs(s: string, n: nat)
    requires n <= |s| && (n == 0 || !IsSpace(s[n - 1]))
    requires forall i :: n <= i < |s| ==> IsSpace(s[i])
    ensures RTrim(s) == s[..n]
  {
    var e := TrimEnd(s, |s|);
    TrimEndSpaces(s, |s|);
    if e < n { assert false; }
    if e > n { assert false; }
  }

  /** LTrim is the suffix that starts with a non-space and is preceded only by white space. */
  lemma LTrimIs(s: string, n: nat)
    requires n <= |s| && (n == |s| || !IsSpace(s[n]))
    requires forall i :: 0 <= i < n ==> IsSpace(s[i])
    ensures LTrim(s) == s[n..]
  {
    var b := TrimStart(s, 0, |s|);
    TrimStartSpaces(s, 0, |s|);
    if b < n { assert false; }
    if b > n { assert false; }
  }

  /** Trim is the slice `s[b..e]` when only white space lies outside it and it is trimmed. */
  lemma TrimIs(s: string, b: nat, e: nat)
    requires b <= e <= |s|
    requires forall i :: 0 <= i < b ==> IsSpace(s[i])
    requires forall i :: e <= i < |s| ==> IsSpace(s[i])
    requires b == e || (!IsSpace(s[b]) && !IsSpace(s[e - 1]))
    ensures Trim(s) == s[b..e]
  {
    var e0 := TrimEnd(s, |s|);
    var b0 := TrimStart(s, 0, e0);
    TrimEndSpaces(s, |s|);
    TrimStartSpaces(s, 0, e0);
    if b < e {
      if e0 < e { assert false; }
      if e0 > e { assert false; }
      if b0 < b { assert false; }
      if b0 > b { assert false; }
    } else {
      if e0 > 0 { assert false; }
    }
  }

  lemma RTrimOfTrimmed(s: string)
    requires s == [] || !IsSpace(s[|s| - 1])
    ensures RTrim(s) == s
  {
    RTrimIs(s, |s|);
  }

  /** Trimming leaves a trimmed string alone. */
  lemma TrimOfTrimmed(s: string)
    requires Trimmed(s)
    ensures Trim(s) == s
  {
    TrimIs(s, 0, |s|);
  }

  /** Trimming is idempotent. */
  lemma TrimIdempotent(s: string)
    ensures Trim(Trim(s)) == Trim(s)
  {
    TrimOfTrimmed(Trim(s));
  }

  /** TrimStart only looks at the characters in `[i, e)`. */
  lemma {:induction false} TrimStartAgree(s: string, t: string, i: nat, e: nat)
    requires i <= e <= |s| && e <= |t|
    requires forall j :: i <= j < e ==> s[j] == t[j]
    ensures TrimStart(s, i, e) == TrimStart(t, i, e)
    decreases e - i
  {
    if i < e { TrimStartAgree(s, t, i + 1, e); }
  }

  /** Right-trimming first does not change the result of a trim. */
  lemma TrimOfRTrim(s: string)
    ensures Trim(RTrim(s)) == Trim(s)
  {
    var e := TrimEnd(s, |s|);
    var r := s[..e];
    assert TrimEnd(r, |r|) == e by {
      if e > 0 { assert r[e - 1] == s[e - 1]; }
    }
    TrimStartAgree(r, s, 0, e);
    var b := TrimStart(s, 0, e);
    assert r[b..e] == s[b..e];
  }

  /** RTrim of `a + b` keeps `a` whole when `a` ends in a non-space. */
  lemma RTrimAppend(a: string, b: string)
    requires a != [] && !IsSpace(a[|a| - 1])
    ensures RTrim(a + b) == a + RTrim(b)
  {
    var s := a + b;
    var n := |RTrim(b)|;
    RTrimRest(b);
    assert forall i :: |a| + n <= i < |s| ==> s[i] == b[n..][i - |a| - n];
    assert |a| + n == 0 || !IsSpace(s[|a| + n - 1]) by {
      if n > 0 { assert s[|a| + n - 1] == RTrim(b)[n - 1]; } else { assert s[|a| - 1] == a[|a| - 1]; }
    }
    RTrimIs(s, |a| + n);
    assert s[..|a| + n] == a + b[..n];
  }

  /** A slice of `x` is the shifted slice of `w + x`. */
  lemma SliceAfter(w: string, x: string, b: nat, e: nat)
    requires b <= e <= |x|
    ensures (w + x)[|w| + b..|w| + e] == x[b..e]
  {
  }

  /** White space in front disappears under Trim. */
  lemma TrimLeadingSpace(w: string, x: string)
    requires AllSpace(w)
    ensures Trim(w + x) == Trim(x)
  {
    var s := w + x;
    var e := TrimEnd(x, |x|);
    var b := TrimStart(x, 0, e);
    TrimEndSpaces(x, |x|);
    TrimStartSpaces(x, 0, e);
    forall i | 0 <= i < |w| + b ensures IsSpace(s[i]) {
      if i < |w| { assert s[i] == w[i]; } else { assert s[i] == x[i - |w|]; }
    }
    forall i | |w| + e <= i < |s| ensures IsSpace(s[i]) {
      assert s[i] == x[i - |w|];
    }
    assert b < e ==> s[|w| + b] == x[b] && s[|w| + e - 1] == x[e - 1];
    TrimIs(s, |w| + b, |w| + e);
    SliceAfter(w, x, b, e);
  }

  /** White space behind disappears under Trim. */
  lemma TrimTrailingSpace(x: string, w: string)
    requires AllSpace(w)
    ensures Trim(x + w) == Trim(x)
  {
    var s := x + w;
    var e := TrimEnd(x, |x|);
    var b := TrimStart(x, 0, e);
    TrimEndSpaces(x, |x|);
    TrimStartSpaces(x, 0, e);
    assert forall i :: |x| <= i < |s| ==> s[i] == w[i - |x|];
    TrimIs(s, b, e);
    assert s[b..e] == x[b..e];
  }

  /** White space added at both ends disappears under Trim. */
  lemma TrimSpaces(w1: string, a: string, w2: string)
    requires AllSpace(w1) && AllSpace(w2)
    ensures Trim(w1 + a + w2) == Trim(a)
  {
    assert w1 + a + w2 == w1 + (a + w2);
    TrimLeadingSpace(w1, a + w2);
    TrimTrailingSpace(a, w2);
  }

  // Case.

  /** ASCII `tolower` applied to one character. */
  function LowerChar(c: char): (r: char)
    ensures 'A' <= c <= 'Z' ==> r as int == c as int + 32
    ensures !('A' <= c <= 'Z') ==> r == c
  {
    if 'A' <= c <= 'Z' then (c as int + 32) as char else c
  }

  /** `toLowerCase`: every upper-case ASCII letter lowered. */
  function ToLower(s: string): (r: string)
    ensures |r| == |s|
  {
    if s == [] then [] else [LowerChar(s[0])] + ToLower(s[1..])
  }

  /** Each character is lowered on its own. */
  lemma {:induction false} ToLowerAt(s: string)
    ensures forall i :: 0 <= i < |s| ==> ToLower(s)[i] == LowerChar(s[i])
  {
    if s != [] {
      ToLowerAt(s[1..]);
      assert forall i :: 1 <= i < |s| ==> ToLower(s)[i] == ToLower(s[1..])[i - 1];
    }
  }

  /** Lower-casing twice is lower-casing once. */
  lemma ToLowerIdempotent(s: string)
    ensures ToLower(ToLower(s)) == ToLower(s)
  {
    ToLowerAt(s);
    ToLowerAt(ToLower(s));
  }

  // Searching.

  /** The first position at or after `i` holding `c`; `|s|` when there is none. */
  function IndexFrom(s: string, c: char, i: nat): (r: nat)
    requires i <= |s|
    ensures i <= r <= |s|
    ensures r < |s| ==> s[r] == c
    decreases |s| - i
  {
    if i == |s| then |s| else if s[i] == c then i else IndexFrom(s, c, i + 1)
  }

  /** No `c` lies between `i` and IndexFrom. */
  lemma {:induction false} IndexFromNone(s: string, c: char, i: nat)
    requires i <= |s|
    ensures forall j :: i <= j < IndexFrom(s, c, i) ==> s[j] != c
    decreases |s| - i
  {
    if i < |s| && s[i] != c { IndexFromNone(s, c, i + 1); }
  }

  /** Index of the first occurrence of `c` in `s`; `|s|` when absent (std::string::npos). */
  function IndexOf(s: string, c: char): (r: nat)
    ensures r <= |s|
    ensures r < |s| ==> s[r] == c
  {
    IndexFrom(s, c, 0)
  }

  /** No `c` lies before IndexOf. */
  lemma IndexOfNone(s: string, c: char)
    ensures forall i :: 0 <= i < IndexOf(s, c) ==> s[i] != c
  {
    IndexFromNone(s, c, 0);
  }

  lemma IndexFromFirst(s: string, c: char, i: nat, k: nat)
    requires i <= k <= |s| && (k == |s| || s[k] == c)
    requires forall j :: i <= j < k ==> s[j] != c
    ensures IndexFrom(s, c, i) == k
  {
    var r := IndexFrom(s, c, i);
    IndexFromNone(s, c, i);
    if r < k { assert false; }
    if r > k { assert false; }
  }

  lemma IndexOfFirst(s: string, c: char, k: nat)
    requires k <= |s| && (k == |s| || s[k] == c)
    requires forall i :: 0 <= i < k ==> s[i] != c
    ensures IndexOf(s, c) == k
  {
    IndexFromFirst(s, c, 0, k);
  }

  /** `pat` occurs in `s` at offset `i`. */
  predicate OccursAt(s: string, pat: string, i: nat) {
    i + |pat| <= |s| && s[i..i + |pat|] == pat
  }

  /** Index of the first occurrence of `pat` in `s` (std::string::find); `None` is npos. */
  function Find(s: string, pat: string): (r: Option<nat>)
    ensures r.Some? ==> OccursAt(s, pat, r.value)
    ensures r.Some? ==> forall i :: 0 <= i < r.value ==> !OccursAt(s, pat, i)
    ensures r.None? ==> forall i :: 0 <= i <= |s| ==> !OccursAt(s, pat, i)
  {
    FindFrom(s, pat, 0)
  }

  function FindFrom(s: string, pat: string, from: nat): (r: Option<nat>)
    requires from <= |s| + 1
    ensures r.Some? ==> from <= r.value && OccursAt(s, pat, r.value)
    ensures r.Some? ==> forall i :: from <= i < r.value ==> !OccursAt(s, pat, i)
    ensures r.None? ==> forall i :: from <= i <= |s| ==> !OccursAt(s, pat, i)
    decreases |s| + 1 - from
  {
    if from + |pat| > |s| then None
    else if s[from..from + |pat|] == pat then Some(from)
    else FindFrom(s, pat, from + 1)
  }

  /** `pat` occurs somewhere in `s`. */
  predicate Contains(s: string, pat: string) {
    exists i :: 0 <= i <= |s| && OccursAt(s, pat, i)
  }

  lemma FindIffContains(s: string, pat: string)
    ensures Find(s, pat).Some? <==> Contains(s, pat)
  {
    if Find(s, pat).Some? {
      assert OccursAt(s, pat, Find(s, pat).value);
    }
  }

  predicate StartsWith(s: string, prefix: string) {
    prefix <= s
  }

  /** No line break in `s`. */
  predicate NoNewline(s: string) {
    forall i | 0 <= i < |s| :: s[i] != '\n'
  }

  lemma NoNewlineNotIn(s: string)
    requires NoNewline(s)
    ensures '\n' !in s
  {
  }

  /** `text` holds `s` starting at `pos`, stated one character at a time from the end. */
  predicate HoldsAt(text: string, pos: nat, s: string)
    decreases |s|
  {
    pos + |s| <= |text| && (s == [] || (text[pos + |s| - 1] == s[|s| - 1] && HoldsAt(text, pos, s[..|s| - 1])))
  }

  /** HoldsAt is the slice of `text` at `pos` being `s`. */
  lemma {:induction false} HoldsAtSlice(text: string, pos: nat, s: string)
    ensures HoldsAt(text, pos, s) <==> pos + |s| <= |text| && text[pos..pos + |s|] == s
    decreases |s|
  {
    if s != [] && pos + |s| <= |text| {
      HoldsAtSlice(text, pos, s[..|s| - 1]);
      assert text[pos..pos + |s|] == text[pos..pos + |s| - 1] + [text[pos + |s| - 1]];
      assert s == s[..|s| - 1] + [s[|s| - 1]];
    }
  }

  /** A slice that spells `a + b` splits, at `j`, into a slice spelling `a` and one spelling `b`. */
  lemma SliceParts(text: string, i: nat, j: nat, k: nat, a: string, b: string)
    requires j == i + |a| && k == j + |b| && k <= |text| && text[i..k] == a + b
    ensures text[i..j] == a && text[j..k] == b
  {
    assert text[i..j] == (a + b)[..|a|];
    assert text[j..k] == (a + b)[|a|..];
  }

  /** Text holding `a + b` at `pos` holds `a` there and `b` right after it. */
  lemma HoldsAtAppend(text: string, pos: nat, a: string, b: string)
    requires HoldsAt(text, pos, a + b)
    ensures HoldsAt(text, pos, a) && HoldsAt(text, pos + |a|, b)
  {
    HoldsAtSlice(text, pos, a + b);
    SliceParts(text, pos, pos + |a|, pos + |a| + |b|, a, b);
    HoldsAtSlice(text, pos, a);
    HoldsAtSlice(text, pos + |a|, b);
  }

  // Decimal text of numbers, as `ostream << n` prints it.

  function DigitChar(d: nat): (c: char)
    requires d < 10
    ensures IsDigit(c) && c as int - '0' as int == d
  {
    ('0' as int + d) as char
  }

  function DigitValue(c: char): (d: nat)
    requires IsDigit(c)
    ensures d < 10
  {
    c as int - '0' as int
  }

  predicate AllDigits(s: string) {
    forall i :: 0 <= i < |s| ==> IsDigit(s[i])
  }

  /** Decimal digits of `n`, without leading zeros. */
  function NatToString(n: nat): (r: string)
    ensures |r| >= 1 && AllDigits(r)
    ensures |r| > 1 ==> r[0] != '0'
  {
    if n < 10 then [DigitChar(n)] else NatToString(n / 10) + [DigitChar(n % 10)]
  }

  /** Decimal text of an `int`, with a leading '-' for negative values. */
  function IntToString(i: int): (r: string)
    ensures i >= 0 ==> r == NatToString(i)
    ensures i < 0 ==> r == "-" + NatToString(-i)
  {
    if i >= 0 then NatToString(i) else "-" + NatToString(-i)
  }

  /** The value of a run of decimal digits. */
  function DecimalValue(s: string): (v: nat)
    requires AllDigits(s)
  {
    if s == [] then 0 else 10 * DecimalValue(s[..|s| - 1]) + DigitValue(s[|s| - 1])
  }

  /** Reading back the printed digits of `n` gives `n`. */
  lemma {:induction false} DecimalOfNatToString(n: nat)
    ensures DecimalValue(NatToString(n)) == n
  {
    if n >= 10 {
      var s := NatToString(n);
      assert s[..|s| - 1] == NatToString(n / 10);
      DecimalOfNatToString(n / 10);
    }
  }

  /** Distinct numbers print differently. */
  lemma NatToStringInjective(a: nat, b: nat)
    requires NatToString(a) == NatToString(b)
    ensures a == b
  {
    DecimalOfNatToString(a);
    DecimalOfNatToString(b);
  }

  /** `numberToString(n, width)`: decimal digits padded on the left with zeros up to `width`. */
  function PadDecimal(n: nat, width: nat): (r: string)
    ensures |r| == if |NatToString(n)| < width then width else |NatToString(n)|
    ensures AllDigits(r)
    ensures r[|r| - |NatToString(n)|..] == NatToString(n)
    ensures forall i :: 0 <= i < |r| - |NatToString(n)| ==> r[i] == '0'
  {
    var d := NatToString(n);
    if |d| < width then Zeros(width - |d|) + d else d
  }

  function Zeros(k: nat): (r: string)
    ensures |r| == k && forall i :: 0 <= i < k ==> r[i] == '0'
  {
    if k == 0 then [] else Zeros(k - 1) + ['0']
  }

  /** Digits that are all zeros have the value 0. */
  lemma {:induction false} AllZerosValue(s: string)
    requires forall i :: 0 <= i < |s| ==> s[i] == '0'
    ensures AllDigits(s) && DecimalValue(s) == 0
  {
    if s != [] {
      AllZerosValue(s[..|s| - 1]);
    }
  }

  /** Leading zeros do not change the value of a run of digits. */
  lemma {:induction false} LeadingZerosValue(s: string, k: nat)
    requires AllDigits(s) && k <= |s| && forall i :: 0 <= i < k ==> s[i] == '0'
    ensures DecimalValue(s) == DecimalValue(s[k..])
    decreases |s|
  {
    if |s| > k {
      var t := s[..|s| - 1];
      LeadingZerosValue(t, k);
      assert t[k..] == s[k..][..|s[k..]| - 1];
    } else {
      AllZerosValue(s);
    }
  }

  /** The zero-padded text of `n` reads back as `n`, so distinct numbers pad differently. */
  lemma PadDecimalValue(n: nat, width: nat)
    ensures DecimalValue(PadDecimal(n, width)) == n
  {
    var r := PadDecimal(n, width);
    LeadingZerosValue(r, |r| - |NatToString(n)|);
    DecimalOfNatToString(n);
  }

  // Line reading: `getline(stream, line)` on a stream holding `text` with the read position at `pos`.

  datatype Line = Line(text: string, next: nat, failed: bool)

  /**
   * The characters from `pos` up to the first `delim` or the end of `text`,
   * and the position after that `delim` (or the end).
   */
  function TakeLine(text: string, pos: nat, delim: char): (r: (string, nat))
    requires pos <= |text|
    ensures pos + |r.0| <= r.1 <= |text|
    ensures pos < |text| ==> pos < r.1
    decreases |text| - pos
  {
    if pos == |text| then ([], pos)
    else if text[pos] == delim then ([], pos + 1)
    else
      var t := TakeLine(text, pos + 1, delim);
      ([text[pos]] + t.0, t.1)
  }

  /**
   * `getline(stream, s, delim)`: the characters from `pos` up to the next
   * `delim` (which is consumed but not stored), or up to the end. At the end
   * of the stream nothing is extracted, the line is empty and the stream is
   * in the fail state.
   */
  function GetLineDelim(text: string, pos: nat, delim: char): (r: Line)
    requires pos <= |text|
    ensures pos <= r.next <= |text|
    ensures r.failed <==> pos == |text|
    ensures r.failed ==> r.text == [] && r.next == pos
    ensures !r.failed ==> pos < r.next
  {
    if pos == |text| then Line([], pos, true)
    else
      var t := TakeLine(text, pos, delim);
      Line(t.0, t.1, false)
  }

  /** `getline(stream, s)`: GetLineDelim with '\n'. */
  function GetLine(text: string, pos: nat): (r: Line)
    requires pos <= |text|
    ensures pos <= r.next <= |text|
    ensures r.failed <==> pos == |text|
    ensures r.failed ==> r.text == [] && r.next == pos
    ensures !r.failed ==> pos < r.next
  {
    GetLineDelim(text, pos, '\n')
  }

  /** The characters taken are those of the text, none is `delim`, and reading resumes after a `delim` or at the end. */
  lemma {:induction false} TakeLineText(text: string, pos: nat, delim: char)
    requires pos <= |text|
    ensures var r := TakeLine(text, pos, delim);
      r.0 == text[pos..pos + |r.0|] && delim !in r.0 &&
      ((r.1 == pos + |r.0| + 1 && text[pos + |r.0|] == delim) || r.1 == pos + |r.0| == |text|)
    decreases |text| - pos
  {
    if pos < |text| && text[pos] != delim {
      TakeLineText(text, pos + 1, delim);
      var t := TakeLine(text, pos + 1, delim);
      assert text[pos..pos + 1 + |t.0|] == [text[pos]] + text[pos + 1..pos + 1 + |t.0|];
    }
  }

  /** The line read is the text up to the next delimiter, and reading resumes after it (or at the end). */
  lemma GetLineDelimText(text: string, pos: nat, delim: char)
    requires pos <= |text|
    ensures var r := GetLineDelim(text, pos, delim);
      pos + |r.text| <= |text| && r.text == text[pos..pos + |r.text|] && delim !in r.text &&
      (r.next == pos + |r.text| || (r.next == pos + |r.text| + 1 && text[pos + |r.text|] == delim)) &&
      (r.next == pos + |r.text| ==> r.next == |text|)
  {
    if pos < |text| { TakeLineText(text, pos, delim); }
  }

  /** A line without `delim` found at `pos` and followed by `delim` is what is taken there. */
  lemma {:induction false} TakeLineOf(text: string, pos: nat, delim: char, line: string)
    requires pos + |line| < |text| && text[pos..pos + |line|] == line && text[pos + |line|] == delim
    requires delim !in line
    ensures TakeLine(text, pos, delim) == (line, pos + |line| + 1)
    decreases |line|
  {
    if line != [] {
      assert text[pos] == line[0];
      assert text[pos + 1..pos + |line|] == line[1..];
      TakeLineOf(text, pos + 1, delim, line[1..]);
      assert [line[0]] + line[1..] == line;
    }
  }

  /** A line found at `pos` and ended by '\n' is what `getline` returns there. */
  lemma GetLineSlice(text: string, pos: nat, line: string)
    requires pos + |line| < |text| && text[pos..pos + |line|] == line && text[pos + |line|] == '\n'
    requires '\n' !in line
    ensures GetLine(text, pos) == Line(line, pos + |line| + 1, false)
  {
    TakeLineOf(text, pos, '\n', line);
  }

  /** Text holding a line, its '\n' and then `rest` at `pos` holds `rest` after the '\n'. */
  lemma HoldsAfterLine(text: string, pos: nat, line: string, rest: string)
    requires HoldsAt(text, pos, (line + "\n") + rest)
    ensures HoldsAt(text, pos + |line| + 1, rest)
  {
    HoldsAtAppend(text, pos, line + "\n", rest);
  }

  /** A line and its '\n' held at `pos` are what `getline` returns there. */
  lemma GetLineAt(text: string, pos: nat, line: string)
    requires HoldsAt(text, pos, line + "\n") && '\n' !in line
    ensures GetLine(text, pos) == Line(line, pos + |line| + 1, false)
  {
    HoldsAtAppend(text, pos, line, "\n");
    HoldsAtSlice(text, pos, line);
    HoldsAtSlice(text, pos + |line|, "\n");
    assert text[pos + |line|] == text[pos + |line|..pos + |line| + 1][0];
    GetLineSlice(text, pos, line);
  }

  // Words separated by one character.

  /** The words with `sep` between each two (Python `sep.join(ws)`). */
  function Join(ws: seq<string>, sep: char): (r: string)
    ensures ws == [] ==> r == []
  {
    if ws == [] then [] else if |ws| == 1 then ws[0] else ws[0] + [sep] + Join(ws[1..], sep)
  }

  /** Python `s.split(sep)` for a one-character separator: the pieces between separators, empty pieces kept. */
  function Split(s: string, sep: char): (r: seq<string>)
    ensures |r| >= 1
    ensures forall i :: 0 <= i < |r| ==> sep !in r[i]
    decreases |s|
  {
    var k := IndexOf(s, sep);
    IndexOfNone(s, sep);
    if k == |s| then [s] else [s[..k]] + Split(s[k + 1..], sep)
  }

  /** Splitting a join of words free of the separator gives the words back. */
  lemma {:induction false} SplitOfJoin(ws: seq<string>, sep: char)
    requires |ws| >= 1
    requires forall i :: 0 <= i < |ws| ==> sep !in ws[i]
    ensures Split(Join(ws, sep), sep) == ws
  {
    if |ws| == 1 {
      IndexOfFirst(ws[0], sep, |ws[0]|);
    } else {
      var s := Join(ws, sep);
      assert s == ws[0] + [sep] + Join(ws[1..], sep);
      assert IndexOf(s, sep) == |ws[0]| by {
        assert forall i :: 0 <= i < |ws[0]| ==> s[i] == ws[0][i];
        assert s[|ws[0]|] == sep;
        IndexOfFirst(s, sep, |ws[0]|);
      }
      assert s[..|ws[0]|] == ws[0];
      assert s[|ws[0]| + 1..] == Join(ws[1..], sep);
      SplitOfJoin(ws[1..], sep);
    }
  }

  // Text written piece by piece, as a chain of `<<`.

  /** The pieces written one after another. */
  function Concat(parts: seq<string>): (r: string)
    ensures |parts| == 1 ==> r == parts[0]
  {
    if parts == [] then "" else parts[0] + Concat(parts[1..])
  }

  /** Two pieces written one after the other. */
  lemma ConcatPair(a: string, b: string)
    ensures Concat([a, b]) == a + b
  {
    assert [a, b][1..] == [b];
  }

  /** One more piece at the end adds its text at the end. */
  lemma {:induction false} ConcatSnoc(parts: seq<string>, x: string)
    ensures Concat(parts + [x]) == Concat(parts) + x
  {
    if parts != [] {
      assert (parts + [x])[1..] == parts[1..] + [x];
      ConcatSnoc(parts[1..], x);
      Regroup(parts[0], Concat(parts[1..]), x);
    }
  }

  lemma Regroup(a: string, b: string, c: string)
    ensures a + b + c == a + (b + c)
  {
  }
}
