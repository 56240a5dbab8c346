/**
 * The proxy's view of a server's response: the status line (protocol,
 * numeric code and reason phrase, as in section 3.1.2 of RFC 7230), the
 * header block, and the rule by which the proxy decides that a response may
 * be cached and for how long, which reads the `Cache-Control` field as plain
 * text (a simplification of section 5.2.2 of RFC 7234).
 */
module Response {
  import opened Text
  import opened CNumbers
  import opened Header

  /** The end of the run of characters that are not white space starting at `i`. */
  function TokenEnd(s: string, i: nat): (e: nat)
    requires i <= |s|
    ensures i <= e <= |s|
    ensures e == |s| || IsSpace(s[e])
    decreases |s| - i
  {
    if i < |s| && !IsSpace(s[i]) then TokenEnd(s, i + 1) else i
  }

  /** No white space lies between `i` and TokenEnd. */
  lemma {:induction false} TokenEndNoSpace(s: string, i: nat)
    requires i <= |s|
    ensures forall k :: i <= k < TokenEnd(s, i) ==> !IsSpace(s[k])
    decreases |s| - i
  {
    if i < |s| && !IsSpace(s[i]) { TokenEndNoSpace(s, i + 1); }
  }

  /** TokenEnd stops at the first white space. */
  lemma {:induction false} TokenEndTo(s: string, i: nat, n: nat)
    requires i <= n <= |s| && (n == |s| || IsSpace(s[n]))
    requires forall k :: i <= k < n ==> !IsSpace(s[k])
    ensures TokenEnd(s, i) == n
    decreases n - i
  {
    if i < n { TokenEndTo(s, i + 1, n); }
  }

  /**
   * `stream >> word` on a string stream holding `s`: white space is skipped
   * and the word is the run of other characters that follows; the result
   * holds the word and the position after it. With nothing but white space
   * the word is empty.
   */
  function ReadWord(s: string): (r: (string, nat))
    ensures r.1 <= |s|
  {
    var b := SkipSpace(s, 0);
    var e := TokenEnd(s, b);
    (s[b..e], e)
  }

  /** The word read has no white space in it, and only white space precedes it. */
  lemma ReadWordIs(s: string)
    ensures NoSpace(ReadWord(s).0)
    ensures ReadWord(s).0 == [] <==> AllSpace(s[..ReadWord(s).1])
  {
    var b := SkipSpace(s, 0);
    var e := TokenEnd(s, b);
    TokenEndNoSpace(s, b);
    assert forall k :: 0 <= k < e - b ==> s[b..e][k] == s[b + k];
    if b == e {
      assert forall k :: 0 <= k < e ==> s[..e][k] == s[k];
    } else {
      assert s[..e][b] == s[b];
    }
  }

  /** A word with no white space, followed by white space or nothing, is read whole. */
  lemma ReadWordOf(p: string, rest: string)
    requires p != [] && NoSpace(p) && (rest == [] || IsSpace(rest[0]))
    ensures ReadWord(p + rest) == (p, |p|)
  {
    var s := p + rest;
    assert s[0] == p[0];
    SkipSpaceTo(s, 0, 0);
    forall k | 0 <= k < |p| ensures !IsSpace(s[k]) {
      assert s[k] == p[k];
    }
    if |p| < |s| { assert s[|p|] == rest[0]; }
    TokenEndTo(s, 0, |p|);
    assert s[0..|p|] == p;
  }

  /**
   * The first line of a response as `ingestResponseHeader` reads it: the
   * first word is the protocol and the integer after it the code. Text that
   * does not start with a number gives code 0, as `>>` stores; a line with
   * nothing but white space after the protocol also gives 0 here, where the
   * source leaves `code` unassigned.
   */
  function StatusLine(line: string): (r: (string, int))
    ensures INT_MIN <= r.1 <= INT_MAX
  {
    var w := ReadWord(line);
    (w.0, ReadInt(line[w.1..]))
  }

  /** The reason phrase for each code the proxy knows, "Unknown Code" for any other. */
  function StatusMessage(code: int): (msg: string)
  {
    match code
    case 100 => "Continue"
    case 101 => "Switching Protocols"
    case 200 => "OK"
    case 201 => "Created"
    case 202 => "Accepted"
    case 203 => "Non-Authoritative Information"
    case 204 => "No Content"
    case 205 => "Reset Content"
    case 206 => "Partial Content"
    case 300 => "Multiple Choices"
    case 301 => "Permanently Moved"
    case 302 => "Found"
    case 303 => "See Other"
    case 304 => "Not Modified"
    case 305 => "Use Proxy"
    case 307 => "Temporary Redirect"
    case 400 => "Bad Request"
    case 401 => "Unauthorized"
    case 402 => "Payment Required"
    case 403 => "Forbidden"
    case 404 => "Not Found"
    case 405 => "Method Not Allowed"
    case 406 => "Not Acceptable"
    case 407 => "Proxy Authentication Required"
    case 408 => "Request Timeout"
    case 409 => "Conflict"
    case 410 => "Gone"
    case 500 => "Internal Server Error"
    case 501 => "Not Implemented"
    case 502 => "Bad Gateway"
    case 504 => "Gateway Timeout"
    case 505 => "HTTP Version Not Supported"
    case 510 => "General Proxy Failure"
    case _ => "Unknown Code"
  }

  /** The codes that have a phrase of their own. */
  const KnownCodes: set<int> := {
    100, 101,
    200, 201, 202, 203, 204, 205, 206,
    300, 301, 302, 303, 304, 305, 307,
    400, 401, 402, 403, 404, 405, 406, 407, 408, 409, 410,
    500, 501, 502, 504, 505, 510
  }

  /** The phrases of the known codes. */
  const KnownPhrases: set<string> := {
    "Continue", "Switching Protocols", "OK", "Created",
    "Accepted", "Non-Authoritative Information", "No Content", "Reset Content",
    "Partial Content", "Multiple Choices", "Permanently Moved", "Found",
    "See Other", "Not Modified", "Use Proxy", "Temporary Redirect",
    "Bad Request", "Unauthorized", "Payment Required", "Forbidden",
    "Not Found", "Method Not Allowed", "Not Acceptable", "Proxy Authentication Required",
    "Request Timeout", "Conflict", "Gone", "Internal Server Error",
    "Not Implemented", "Bad Gateway", "Gateway Timeout", "HTTP Version Not Supported",
    "General Proxy Failure"
  }

  lemma PhraseOfKnown(code: int)
    requires code in KnownCodes
    ensures StatusMessage(code) in KnownPhrases
  {
  }

  lemma PhraseOfAny(code: int)
    ensures StatusMessage(code) in KnownPhrases || StatusMessage(code) == "Unknown Code"
  {
  }

  lemma UnknownNotKnown()
    ensures "Unknown Code" !in KnownPhrases
  {
  }

  /** A code gets "Unknown Code" exactly when it is not one of the known codes. */
  lemma StatusMessageKnown(code: int)
    ensures StatusMessage(code) == "Unknown Code" <==> code !in KnownCodes
  {
    if code in KnownCodes {
      PhraseOfKnown(code);
      UnknownNotKnown();
    }
  }

  lemma StatusMessageExamples()
    ensures StatusMessage(200) == "OK"
    ensures StatusMessage(403) == "Forbidden"
    ensures StatusMessage(504) == "Gateway Timeout"
    ensures StatusMessage(301) == "Permanently Moved"
  {
  }

  /** 306 and 503 are left out of the table. */
  lemma StatusMessageGaps()
    ensures StatusMessage(306) == "Unknown Code" && StatusMessage(503) == "Unknown Code"
  {
  }

  // No phrase holds a line break; the phrases are checked a few at a time.

  lemma PhrasesOneLine1()
    ensures NoNewline("Continue")
    ensures NoNewline("Switching Protocols")
    ensures NoNewline("OK")
    ensures NoNewline("Created")
    ensures NoNewline("Accepted")
    ensures NoNewline("Non-Authoritative Information")
    ensures NoNewline("No Content")
    ensures NoNewline("Reset Content")
    ensures NoNewline("Partial Content")
  {
  }

  lemma PhrasesOneLine2()
    ensures NoNewline("Multiple Choices")
    ensures NoNewline("Permanently Moved")
    ensures NoNewline("Found")
    ensures NoNewline("See Other")
    ensures NoNewline("Not Modified")
    ensures NoNewline("Use Proxy")
    ensures NoNewline("Temporary Redirect")
    ensures NoNewline("Bad Request")
  {
  }

  lemma PhrasesOneLine3()
    ensures NoNewline("Unauthorized")
    ensures NoNewline("Payment Required")
    ensures NoNewline("Forbidden")
    ensures NoNewline("Not Found")
    ensures NoNewline("Method Not Allowed")
    ensures NoNewline("Not Acceptable")
    ensures NoNewline("Proxy Authentication Required")
    ensures NoNewline("Request Timeout")
  {
  }

  lemma PhrasesOneLine4()
    ensures NoNewline("Conflict")
    ensures NoNewline("Gone")
    ensures NoNewline("Internal Server Error")
    ensures NoNewline("Not Implemented")
    ensures NoNewline("Bad Gateway")
    ensures NoNewline("Gateway Timeout")
    ensures NoNewline("HTTP Version Not Supported")
    ensures NoNewline("General Proxy Failure")
  {
  }

  lemma KnownPhrasesOneLine()
    ensures forall p | p in KnownPhrases :: NoNewline(p)
  {
    PhrasesOneLine1();
    PhrasesOneLine2();
    PhrasesOneLine3();
    PhrasesOneLine4();
  }

  /** Every phrase stays on one line. */
  lemma StatusMessageOneLine(code: int)
    ensures '\n' !in StatusMessage(code)
  {
    PhraseOfAny(code);
    KnownPhrasesOneLine();
    assert NoNewline("Unknown Code");
    NoNewlineNotIn(StatusMessage(code));
  }

  /** The name of the header field that holds the caching directives. */
  const CacheControl := "Cache-Control"

  /**
   * `getTTL`: 0 without a `Cache-Control` field or without "max-age=" in it;
   * otherwise the integer read right after the first "max-age=" (0 when
   * nothing follows it, where the source leaves `maxAge` unassigned).
   */
  function TTL(m: Fields): (ttl: int)
    ensures INT_MIN <= ttl <= INT_MAX
    ensures ToLower(CacheControl) !in m ==> ttl == 0
    ensures ToLower(CacheControl) in m && !Contains(m[ToLower(CacheControl)], "max-age=") ==> ttl == 0
  {
    var key := ToLower(CacheControl);
    if key !in m then 0
    else
      var v := m[key];
      FindIffContains(v, "max-age=");
      match Find(v, "max-age=")
      case None => 0
      case Some(p) => ReadInt(v[p + 8..])
  }

  /**
   * `permitsCaching`: there is a `Cache-Control` field, none of "private",
   * "no-cache" and "no-store" occurs anywhere in it, and the time to live is
   * positive.
   */
  function PermitsCaching(m: Fields): (b: bool)
    ensures b ==> ToLower(CacheControl) in m && TTL(m) > 0
  {
    var key := ToLower(CacheControl);
    key in m &&
    !Contains(m[key], "private") && !Contains(m[key], "no-cache") && !Contains(m[key], "no-store") &&
    TTL(m) > 0
  }

  /** The time to live is the integer read right after the first "max-age=" of the field. */
  lemma TTLAfterFirstMaxAge(m: Fields, p: nat)
    requires ToLower(CacheControl) in m
    requires OccursAt(m[ToLower(CacheControl)], "max-age=", p)
    requires forall i :: 0 <= i < p ==> !OccursAt(m[ToLower(CacheControl)], "max-age=", i)
    ensures TTL(m) == ReadInt(m[ToLower(CacheControl)][p + 8..])
  {
    var v := m[ToLower(CacheControl)];
    var f := Find(v, "max-age=");
    assert f.Some?;
    assert f.value == p;
  }

  /** Any of "private", "no-cache" and "no-store", anywhere in the field, forbids caching. */
  lemma DirectiveForbidsCaching(m: Fields, directive: string)
    requires directive == "private" || directive == "no-cache" || directive == "no-store"
    requires ToLower(CacheControl) in m && Contains(m[ToLower(CacheControl)], directive)
    ensures !PermitsCaching(m)
  {
  }

  /** Without those directives, caching is permitted exactly when the time to live is positive. */
  lemma CachingFollowsTTL(m: Fields)
    requires ToLower(CacheControl) in m
    requires var v := m[ToLower(CacheControl)];
      !Contains(v, "private") && !Contains(v, "no-cache") && !Contains(v, "no-store")
    ensures PermitsCaching(m) <==> TTL(m) > 0
  {
  }

  /** A field that is just "max-age=" and a number lives that many seconds. */
  lemma MaxAgeRead(n: nat)
    requires n <= INT_MAX
    ensures TTL(map[ToLower(CacheControl) := "max-age=" + NatToString(n)]) == n
  {
    var v := "max-age=" + NatToString(n);
    assert v[..8] == "max-age=";
    assert OccursAt(v, "max-age=", 0);
    TTLAfterFirstMaxAge(map[ToLower(CacheControl) := v], 0);
    assert v[8..] == IntToString(n);
    StrtolDecimal(n, 10);
  }

  /** "private" forbids caching whatever the time to live. */
  lemma PrivateExample()
    ensures !PermitsCaching(map[ToLower(CacheControl) := "private, max-age=60"])
  {
    assert OccursAt("private, max-age=60", "private", 0);
    DirectiveForbidsCaching(map[ToLower(CacheControl) := "private, max-age=60"], "private");
  }

  /** The status line `operator<<` writes, up to its final '\n'. */
  function StatusLineText(protocol: string, code: int): string {
    protocol + " " + IntToString(code) + " " + StatusMessage(code) + "\r"
  }

  /**
   * `operator<<` without the payload: the status line, the header block and
   * the blank line that ends it.
   */
  ghost function ResponseText(protocol: string, code: int, m: Fields): (s: string)
    ensures |s| == |StatusLineText(protocol, code)| + |Serialize(m)| + 3
  {
    (StatusLineText(protocol, code) + "\n") + (Serialize(m) + "\r\n")
  }

  /** A protocol word followed by white space: the code is read from what follows the word. */
  lemma StatusLineSplit(protocol: string, rest: string)
    requires protocol != [] && NoSpace(protocol) && rest != [] && IsSpace(rest[0])
    ensures StatusLine(protocol + rest) == (protocol, ReadInt(rest))
  {
    ReadWordOf(protocol, rest);
    assert (protocol + rest)[|protocol|..] == rest;
  }

  /** A space, the decimal text of an `int`, then a space: the `int` is read. */
  lemma ReadIntOfPrinted(code: int, t: string)
    requires INT_MIN <= code <= INT_MAX && t != [] && t[0] == ' '
    ensures ReadInt(" " + IntToString(code) + t) == code
  {
    assert AllSpace(" ");
    StrtolOfPrinted(" ", code, t);
  }

  /** A status line with any phrase reads back as its protocol and code. */
  lemma StatusLineOf(protocol: string, code: int, phrase: string)
    requires protocol != [] && NoSpace(protocol) && INT_MIN <= code <= INT_MAX
    ensures StatusLine(protocol + " " + IntToString(code) + " " + phrase + "\r") == (protocol, code)
  {
    var t := " " + phrase + "\r";
    var rest := " " + IntToString(code) + t;
    assert protocol + " " + IntToString(code) + " " + phrase + "\r" == protocol + rest;
    StatusLineSplit(protocol, rest);
    ReadIntOfPrinted(code, t);
  }

  /** The status line reads back as the protocol and code it was written from. */
  lemma StatusLineRoundTrip(protocol: string, code: int)
    requires protocol != [] && NoSpace(protocol) && INT_MIN <= code <= INT_MAX
    ensures StatusLine(StatusLineText(protocol, code)) == (protocol, code)
  {
    StatusLineOf(protocol, code, StatusMessage(code));
  }

  lemma NoNewlineInStatusLine(protocol: string, code: int)
    requires NoSpace(protocol)
    ensures '\n' !in StatusLineText(protocol, code)
  {
    StatusMessageOneLine(code);
    assert IsSpace('\n');
  }

  /**
   * A response written by `operator<<` (payload aside), found in a stream at
   * `pos`: its first line is what `getline` returns there, and it reads back
   * as the same protocol and code.
   */
  lemma ResponseStatusRoundTrip(protocol: string, code: int, m: Fields, text: string, pos: nat)
    requires protocol != [] && NoSpace(protocol) && INT_MIN <= code <= INT_MAX
    requires HoldsAt(text, pos, ResponseText(protocol, code, m))
    ensures GetLine(text, pos) == Line(StatusLineText(protocol, code), pos + |StatusLineText(protocol, code)| + 1, false)
    ensures StatusLine(GetLine(text, pos).text) == (protocol, code)
  {
    var line := StatusLineText(protocol, code);
    HoldsAtAppend(text, pos, line + "\n", Serialize(m) + "\r\n");
    NoNewlineInStatusLine(protocol, code);
    GetLineAt(text, pos, line);
    StatusLineRoundTrip(protocol, code);
  }

  /**
   * The same response: after its first line, the header block reads back,
   * into an empty header, as the same fields with their values trimmed, and
   * reading stops right after the blank line.
   */
  lemma ResponseHeaderRoundTrip(protocol: string, code: int, m: Fields, text: string, pos: nat, q: nat)
    requires WellFormed(m) && HoldsAt(text, pos, ResponseText(protocol, code, m))
    requires q == pos + |StatusLineText(protocol, code)| + 1
    ensures q <= |text|
    ensures IngestFrom(map[], "", text, q) == (TrimValues(m), q + |Serialize(m)| + 2)
  {
    HeaderAfterLine(StatusLineText(protocol, code), m, text, pos, q);
  }

  /**
   * A header block written after any line reads back from `q`, the start of
   * the next line.
   */
  lemma HeaderAfterLine(line: string, m: Fields, text: string, pos: nat, q: nat)
    requires WellFormed(m) && HoldsAt(text, pos, (line + "\n") + (Serialize(m) + "\r\n"))
    requires q == pos + |line| + 1
    ensures q <= |text|
    ensures IngestFrom(map[], "", text, q) == (TrimValues(m), q + |Serialize(m)| + 2)
  {
    HoldsAfterLine(text, pos, line, Serialize(m) + "\r\n");
    SerializeRoundTrip(m, text, q);
  }

  class HTTPResponse {
    var protocol: string
    var code: int
    const responseHeader: HTTPHeader

    /**
     * A response with no protocol and an empty header. The class never
     * initialises `code`, so the value it starts with is a parameter.
     */
    constructor (initialCode: int)
      ensures protocol == "" && code == initialCode && fresh(responseHeader) && responseHeader.headers == map[]
    {
      protocol := "";
      code := initialCode;
      responseHeader := new HTTPHeader();
    }

    method SetProtocol(p: string)
      modifies this
      ensures protocol == p && code == old(code)
    {
      protocol := p;
    }

    method SetResponseCode(c: int)
      modifies this
      ensures code == c && protocol == old(protocol)
    {
      code := c;
    }

    function GetProtocol(): (p: string)
      reads this
      ensures p == protocol
    {
      protocol
    }

    function GetResponseCode(): (c: int)
      reads this
      ensures c == code
    {
      code
    }

    /**
     * `ingestResponseHeader`: the first line gives the protocol and the code,
     * and the header block that follows is added to the header; returns the
     * position after the blank line that ends it.
     */
    method IngestResponseHeader(text: string, pos: nat) returns (next: nat)
      requires pos <= |text|
      modifies this, responseHeader
      ensures (protocol, code) == StatusLine(GetLine(text, pos).text)
      ensures (responseHeader.headers, next) == IngestFrom(old(responseHeader.headers), "", text, GetLine(text, pos).next)
    {
      var l := GetLine(text, pos);
      var status := StatusLine(l.text);
      SetProtocol(status.0);
      SetResponseCode(status.1);
      next := responseHeader.IngestHeader(text, l.next);
    }

    function GetTTL(): (ttl: int)
      reads this, responseHeader
      ensures ttl == TTL(responseHeader.headers)
    {
      TTL(responseHeader.headers)
    }

    function CanBeCached(): (b: bool)
      reads this, responseHeader
      ensures b == PermitsCaching(responseHeader.headers)
    {
      PermitsCaching(responseHeader.headers)
    }

    /** `operator<<`, payload aside. */
    ghost function ToText(): (s: string)
      reads this, responseHeader
      ensures s == ResponseText(protocol, code, responseHeader.headers)
    {
      ResponseText(protocol, code, responseHeader.headers)
    }
  }
}
