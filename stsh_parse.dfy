/**
 * `stsh-parse-utils.cc`: `parseNumber`, the reading of a non-negative
 * decimal argument (a job or process number) for the shell's builtins. The
 * argument is None for a NULL pointer; otherwise `strtol` sees its text up to
 * the first NUL. A failure carries the usage text the `STSHException` is
 * thrown with.
 */
module StshParseUtils {
  import opened Wrappers
  import opened Text
  import CNumbers

  /**
   * `parseNumber`: `strtol` in base 10 must use up the whole argument and give
   * a value that is not negative; anything else throws the usage text.
   */
  function ParseNumber(arg: Option<string>, usage: string): (r: Result<nat, string>)
    ensures arg.None? ==> r == Failure(usage)
    ensures r.Failure? ==> r.error == usage
    ensures r.Success? ==> arg.Some?
    ensures r.Success? ==> CNumbers.Strtol(CNumbers.CStr(arg.value), 10) == CNumbers.Parsed(r.value, |CNumbers.CStr(arg.value)|)
  {
    match arg
    case None => Failure(usage)
    case Some(s) =>
      var c := CNumbers.CStr(s);
      var p := CNumbers.Strtol(c, 10);
      if p.end != |c| || p.value < 0 then Failure(usage) else Success(p.value)
  }

  /** The printed decimal text of a number up to `LONG_MAX` reads back as that number. */
  lemma ParsePrinted(n: nat, usage: string)
    requires n <= CNumbers.LONG_MAX
    ensures ParseNumber(Some(NatToString(n)), usage) == Success(n)
  {
    CNumbers.NoNulInDecimal(n);
    CNumbers.StrtolDecimal(n, 10);
  }

  /** A negative number is refused. */
  lemma ParseNegative(v: int, usage: string)
    requires CNumbers.LONG_MIN <= v < 0
    ensures ParseNumber(Some(IntToString(v)), usage) == Failure(usage)
  {
    CNumbers.NoNulInDecimal(v);
    CNumbers.StrtolDecimal(v, 10);
  }

  /** A number followed by anything that is neither a digit nor the terminator is refused. */
  lemma ParseTrailing(n: nat, tail: string, usage: string)
    requires n <= CNumbers.LONG_MAX && tail != [] && !IsDigit(tail[0]) && tail[0] != '\0'
    ensures ParseNumber(Some(NatToString(n) + tail), usage) == Failure(usage)
  {
    var printed := NatToString(n);
    CNumbers.NoNulInDecimal(n);
    CNumbers.CStrAppend(printed, tail);
    var c := printed + CNumbers.CStr(tail);
    assert IndexOf(tail, '\0') != 0;
    assert CNumbers.CStr(tail)[0] == tail[0];
    CNumbers.StrtolOfPrinted([], n, CNumbers.CStr(tail));
    assert [] + IntToString(n) + CNumbers.CStr(tail) == c;
    assert CNumbers.Strtol(c, 10).end == |printed| < |c|;
  }

  /** Whatever follows the number's terminating NUL is not seen. */
  lemma ParseStopsAtNul(n: nat, tail: string, usage: string)
    requires n <= CNumbers.LONG_MAX
    ensures ParseNumber(Some(NatToString(n) + "\0" + tail), usage) == Success(n)
  {
    var printed := NatToString(n);
    CNumbers.NoNulInDecimal(n);
    CNumbers.CStrAppend(printed, "\0" + tail);
    IndexOfFirst("\0" + tail, '\0', 0);
    assert printed + "\0" + tail == printed + ("\0" + tail);
    assert CNumbers.CStr(printed + "\0" + tail) == printed;
    CNumbers.StrtolDecimal(n, 10);
  }

  /** The empty argument is read as 0: `strtol` leaves `end` on the terminator. */
  lemma ParseEmpty(usage: string)
    ensures ParseNumber(Some(""), usage) == Success(0)
  {
    CNumbers.StrtolEmpty(10);
  }

  /** Leading white space, which `strtol` skips, is accepted. */
  lemma ParseLeadingSpace(n: nat, usage: string)
    requires n <= CNumbers.LONG_MAX
    ensures ParseNumber(Some(" " + NatToString(n)), usage) == Success(n)
  {
    CNumbers.NoNulInDecimal(n);
    CNumbers.CStrAppend(" ", NatToString(n));
    CNumbers.CStrNoNul(NatToString(n));
    CNumbers.StrtolOfPrinted(" ", n, []);
    assert " " + IntToString(n) + [] == " " + NatToString(n);
  }
}
