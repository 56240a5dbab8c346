/**
 * `trace-system-calls.cc`: the parameter types `trace` distinguishes, and
 * how it builds a system call's signature from the SYSCALL_DEFINE macro
 * that declares it in the kernel sources. A macro may run over several
 * lines; it is read up to the line holding its first ')'. The first macro
 * seen for a known system call decides its signature.
 *
 * The program matches the macros with regular expressions; here the same
 * matches are stated directly: a fixed head, then the text after the first
 * '(' split at its commas.
 */
module TraceSystemCalls {
  import opened Wrappers
  import opened Text
  import CNumbers

  /** `scParamType`. */
  datatype ParamType = Integer | String | Pointer | UnknownType

  /** `systemCallSignature`: the types of the parameters in order. */
  type Signature = seq<ParamType>

  /** `operator<<` on `scParamType`: the word written, one for each type. */
  function TypeName(t: ParamType): (r: string)
    ensures r != [] && NoSpace(r)
  {
    match t
    case Integer => "SYSCALL_INTEGER"
    case String => "SYSCALL_STRING"
    case Pointer => "SYSCALL_POINTER"
    case UnknownType => "SYSCALL_UNKNOWN_TYPE"
  }

  /**
   * `operator>>` on `scParamType`, given the word `is >> str` extracted (the
   * empty word when extraction failed): a type read is one whose name is that
   * word, and any word that names none of the three types reads as the
   * unknown type.
   */
  function ReadType(word: string): (t: ParamType)
  {
    if word == "SYSCALL_INTEGER" then Integer
    else if word == "SYSCALL_STRING" then String
    else if word == "SYSCALL_POINTER" then Pointer
    else UnknownType
  }

  /** A word reads as a known type exactly when it is that type's name. */
  lemma ReadTypeNames(word: string)
    ensures ReadType(word) != UnknownType ==> word == TypeName(ReadType(word))
    ensures (forall u :: u != UnknownType ==> word != TypeName(u)) ==> ReadType(word) == UnknownType
  {
  }

  /** Each type's word reads back as that type. */
  lemma TypeRoundTrip(t: ParamType)
    ensures ReadType(TypeName(t)) == t
  {
  }

  /** `normalizeType`: the C type of a macro parameter as one of the three kinds. */
  function NormalizeType(cType: string): (t: ParamType)
    ensures t != UnknownType
  {
    if cType == "const char __user *" || cType == "const char *" then String
    else if cType == "unsigned long" || IndexOf(cType, '*') < |cType| then Pointer
    else Integer
  }

  /**
   * The two C string types are strings; otherwise `unsigned long` and any
   * type holding a '*' are pointers; every other type is an integer.
   */
  lemma NormalizeTypeCases(cType: string)
    ensures NormalizeType(cType) == String <==> cType in {"const char __user *", "const char *"}
    ensures NormalizeType(cType) == Pointer <==> cType !in {"const char __user *", "const char *"} && (cType == "unsigned long" || '*' in cType)
    ensures NormalizeType(cType) == Integer <==> cType !in {"const char __user *", "const char *", "unsigned long"} && '*' !in cType
  {
    IndexOfNone(cType, '*');
  }

  // Recognising a macro.

  const DEFINE: string := "SYSCALL_DEFINE"

  /**
   * `\s*SYSCALL_DEFINE([0-6])\s*\(`: the argument count the macro names and
   * the position just after its '('.
   */
  function MacroHead(line: string): (r: Option<(nat, nat)>)
    ensures r.Some? ==> r.value.0 <= 6 && 0 < r.value.1 <= |line| && line[r.value.1 - 1] == '('
  {
    var i := CNumbers.SkipSpace(line, 0);
    var d := i + |DEFINE|;
    if d < |line| && line[i..d] == DEFINE && '0' <= line[d] <= '6' then
      var j := CNumbers.SkipSpace(line, d + 1);
      if j < |line| && line[j] == '(' then Some((line[d] as int - '0' as int, j + 1)) else None
    else None
  }

  /** What `.` may match: anything but a line break. */
  predicate NoLineBreak(s: string) {
    '\n' !in s && '\r' !in s
  }

  /** The line filter `\s*SYSCALL_DEFINE[0-6]\s*\(.*`, matched against the whole line. */
  predicate IsMacroStart(line: string) {
    MacroHead(line).Some? && NoLineBreak(line[MacroHead(line).value.1..])
  }

  /** Where the name ends: the first ',' or ')', or the end. */
  function NameEnd(s: string): (m: nat)
    ensures m <= |s| && ',' !in s[..m] && ')' !in s[..m]
    ensures m < |s| ==> s[m] == ',' || s[m] == ')'
  {
    IndexOfNone(s, ',');
    IndexOfNone(s, ')');
    var a := IndexOf(s, ',');
    var b := IndexOf(s, ')');
    if a < b then a else b
  }

  /**
   * `processNameAndArgumentCount`: `\s*SYSCALL_DEFINE([0-6])\s*\(([^,)]+).*`
   * matched against the whole macro yields the name, the longest run after
   * the '(' free of ',' and ')', and the argument count; None where the
   * program's assertion that the macro matches fails.
   */
  function NameAndCount(macro: string): (r: Option<(string, nat)>)
    ensures r.Some? ==> r.value.1 <= 6 && r.value.0 != [] && ',' !in r.value.0 && ')' !in r.value.0
  {
    match MacroHead(macro)
    case None => None
    case Some(head) =>
      var rest := macro[head.1..];
      var m := NameEnd(rest);
      if 0 < m && NoLineBreak(rest[m..]) then Some((rest[..m], head.0)) else None
  }

  /** `[^,]+\s*\)\s*`: the last piece has text, then the closing ')', then only white space. */
  predicate ClosesMacro(last: string) {
    var e := TrimEnd(last, |last|);
    2 <= e && last[e - 1] == ')'
  }

  /**
   * The pieces of the macro after its first '(', split at commas; the text
   * before that '(' must not be empty.
   */
  function MacroPieces(macro: string): (r: Option<seq<string>>)
    ensures r.Some? ==> |r.value| >= 1
  {
    var p := IndexOf(macro, '(');
    if p == 0 || p == |macro| then None else Some(Split(macro[p + 1..], ','))
  }

  /**
   * `processSystemCallArguments` for `n > 0` arguments: the pattern
   * `[^(]+\([^,]+` followed `2n` times by `,([^,]+)` and then `\s*\)\s*`
   * matches exactly when there are `2n + 1` pieces, none but the last empty
   * and the last closing the macro; parameter `i` then has the type in piece
   * `2i + 1`, trimmed and normalised. None where the program's assertion
   * fails.
   */
  function ArgumentTypes(macro: string, n: nat): (r: Option<Signature>)
    ensures r.Some? ==> |r.value| == n
  {
    match MacroPieces(macro)
    case None => None
    case Some(g) =>
      if |g| == 2 * n + 1 && (forall i :: 0 <= i < 2 * n ==> g[i] != []) && ClosesMacro(g[2 * n]) then
        Some(seq(n, i requires 0 <= i < n => NormalizeType(Trim(g[2 * i + 1]))))
      else None
  }

  /** The system call a macro declares: its trimmed name, when the macro matches. */
  function MacroName(macro: string): Option<string> {
    match NameAndCount(macro)
    case None => None
    case Some(p) => Some(Trim(p.0))
  }

  /** The signature a macro declares: empty for no argument, else the types of its parameters. */
  function MacroSignature(macro: string): (r: Option<Signature>)
    ensures r.Some? ==> |r.value| <= 6
  {
    match NameAndCount(macro)
    case None => None
    case Some(p) => if p.1 == 0 then Some([]) else ArgumentTypes(macro, p.1)
  }

  /** `processSystemCallSignature`; None where one of the program's assertions fails. */
  function SignatureStep(sigs: map<string, Signature>, names: map<string, int>, macro: string): Option<map<string, Signature>>
  {
    match NameAndCount(macro)
    case None => None
    case Some(p) =>
      var name := Trim(p.0);
      if name !in names || name in sigs then Some(sigs)
      else if p.1 == 0 then Some(sigs[name := []])
      else
        match ArgumentTypes(macro, p.1)
        case None => None
        case Some(types) => Some(sigs[name := types])
  }

  /**
   * A macro for a known system call that has no signature yet adds the one
   * it declares; any other macro changes nothing. An assertion fails exactly
   * when the macro does not match, or when it declares a signature that is
   * to be added but its arguments do not match.
   */
  lemma SignatureStepSpec(sigs: map<string, Signature>, names: map<string, int>, macro: string)
    ensures var r := SignatureStep(sigs, names, macro);
      && (r.Some? ==> forall k :: k in sigs ==> k in r.value && r.value[k] == sigs[k])
      && (r.Some? ==> forall k :: k in r.value && k !in sigs ==> k in names && Some(k) == MacroName(macro) && Some(r.value[k]) == MacroSignature(macro))
      && (r.None? <==> MacroName(macro).None? || (MacroName(macro).value in names && MacroName(macro).value !in sigs && MacroSignature(macro).None?))
  {
  }

  /** The macros processed one after another; None once an assertion fails. */
  function ProcessMacros(sigs: map<string, Signature>, names: map<string, int>, macros: seq<string>): (r: Option<map<string, Signature>>)
  {
    if macros == [] then Some(sigs)
    else
      match ProcessMacros(sigs, names, macros[..|macros| - 1])
      case None => None
      case Some(s) => SignatureStep(s, names, macros[|macros| - 1])
  }

  /** A macro that declares `name`. */
  predicate Declares(macro: string, name: string) {
    MacroName(macro) == Some(name)
  }

  /** Processing keeps every signature already known and adds signatures only for known system calls. */
  lemma {:induction false} ProcessKeeps(sigs: map<string, Signature>, names: map<string, int>, macros: seq<string>)
    requires ProcessMacros(sigs, names, macros).Some?
    ensures var r := ProcessMacros(sigs, names, macros).value;
      && (forall k :: k in sigs ==> k in r && r[k] == sigs[k])
      && (forall k :: k in r && k !in sigs ==> k in names && |r[k]| <= 6)
    decreases |macros|
  {
    if macros != [] {
      ProcessKeeps(sigs, names, macros[..|macros| - 1]);
      SignatureStepSpec(ProcessMacros(sigs, names, macros[..|macros| - 1]).value, names, macros[|macros| - 1]);
    }
  }

  /**
   * A system call that gained a signature was declared by some macro, and its
   * signature is the one declared by the first macro that names it.
   */
  lemma {:induction false} FirstDefinitionWins(sigs: map<string, Signature>, names: map<string, int>, macros: seq<string>, name: string) returns (i: nat)
    requires ProcessMacros(sigs, names, macros).Some?
    requires name in ProcessMacros(sigs, names, macros).value && name !in sigs
    ensures i < |macros| && Declares(macros[i], name)
    ensures Some(ProcessMacros(sigs, names, macros).value[name]) == MacroSignature(macros[i])
    ensures forall j :: 0 <= j < i ==> !Declares(macros[j], name)
    decreases |macros|
  {
    var n := |macros| - 1;
    var init := macros[..n];
    var s := ProcessMacros(sigs, names, init).value;
    SignatureStepSpec(s, names, macros[n]);
    if name in s {
      i := FirstDefinitionWins(sigs, names, init, name);
      assert macros[i] == init[i];
      assert forall j :: 0 <= j < i ==> macros[j] == init[j];
    } else {
      i := n;
      ProcessKeeps(sigs, names, macros);
      forall j | 0 <= j < n ensures !Declares(macros[j], name) {
        assert macros[j] == init[j];
        NotDeclaredBefore(sigs, names, init, name, j);
      }
    }
  }

  /** A known call without a signature after some macros was declared by none of them whose processing succeeded. */
  lemma {:induction false} NotDeclaredBefore(sigs: map<string, Signature>, names: map<string, int>, macros: seq<string>, name: string, j: nat)
    requires ProcessMacros(sigs, names, macros).Some? && name in names && name !in ProcessMacros(sigs, names, macros).value
    requires j < |macros|
    ensures !Declares(macros[j], name)
    decreases |macros|
  {
    var init := macros[..|macros| - 1];
    var s := ProcessMacros(sigs, names, init).value;
    SignatureStepSpec(s, names, macros[|macros| - 1]);
    if j < |macros| - 1 {
      assert macros[j] == init[j];
      NotDeclaredBefore(sigs, names, init, name, j);
    }
  }

  /** A call the names table does not list never gets a signature. */
  lemma UnknownNamesIgnored(sigs: map<string, Signature>, names: map<string, int>, macros: seq<string>, name: string)
    requires ProcessMacros(sigs, names, macros).Some? && name !in names && name !in sigs
    ensures name !in ProcessMacros(sigs, names, macros).value
  {
    ProcessKeeps(sigs, names, macros);
  }

  // The macros as the kernel writes them.

  /** A macro argument: some text with no ',', ')' or line break. */
  predicate Word(s: string) {
    s != [] && ',' !in s && ')' !in s && NoLineBreak(s)
  }

  /** The macro's arguments, the last one followed by the closing ')'. */
  function Closed(ws: seq<string>): (r: seq<string>)
    requires ws != []
    ensures |r| == |ws| && (forall i :: 0 <= i < |ws| - 1 ==> r[i] == ws[i]) && r[|ws| - 1] == ws[|ws| - 1] + ")"
  {
    ws[..|ws| - 1] + [ws[|ws| - 1] + ")"]
  }

  /**
   * `SYSCALL_DEFINEn(name, type1, arg1, …, typen, argn)`, commas without
   * spaces: `args` holds the types and parameter names in turn.
   */
  function Declaration(n: nat, name: string, args: seq<string>): string
    requires n <= 6 && |args| == 2 * n
  {
    DEFINE + [DigitChar(n)] + "(" + Join(Closed([name] + args), ',')
  }

  /** A declaration whose arguments are all well formed. */
  predicate WellFormed(n: nat, name: string, args: seq<string>) {
    n <= 6 && |args| == 2 * n && Word(name) && forall i :: 0 <= i < |args| ==> Word(args[i])
  }

  /**
   * A macro written on one line is picked out by the line filter, declares
   * its trimmed name, and has one normalised type for each (type, name)
   * pair, taken from the type.
   */
  lemma DeclarationParsed(n: nat, name: string, args: seq<string>)
    requires WellFormed(n, name, args)
    ensures IsMacroStart(Declaration(n, name, args))
    ensures MacroName(Declaration(n, name, args)) == Some(Trim(name))
    ensures MacroSignature(Declaration(n, name, args)) == Some(seq(n, i requires 0 <= i < n => NormalizeType(Trim(args[2 * i]))))
  {
    var m := Declaration(n, name, args);
    var ws := [name] + args;
    var g := Closed(ws);
    var x := Join(g, ',');
    assert forall i :: 0 <= i < |ws| ==> Word(ws[i]);
    ClosedPieces(ws);
    DeclarationHead(m, x, n);
    NoLineBreakJoin(g);
    SplitOfJoin(g, ',');
    NameOfJoin(g, n, name);
    assert NameAndCount(m) == Some((name, n));
    if n > 0 {
      assert MacroPieces(m) == Some(g);
      ArgumentsOfPieces(m, n, name, args);
    } else {
      NoTypes(n, args);
    }
  }

  lemma NoTypes(n: nat, args: seq<string>)
    requires |args| == 2 * n
    ensures |seq(n, i requires 0 <= i < n => NormalizeType(Trim(args[2 * i])))| == n
  {
  }

  /** Closing the last of some arguments keeps each one free of ',' and line breaks, and non-empty. */
  lemma ClosedPieces(ws: seq<string>)
    requires ws != [] && forall i :: 0 <= i < |ws| ==> Word(ws[i])
    ensures forall i :: 0 <= i < |ws| ==> ',' !in Closed(ws)[i] && NoLineBreak(Closed(ws)[i]) && Closed(ws)[i] != []
    ensures ClosesMacro(Closed(ws)[|ws| - 1])
  {
    var w := ws[|ws| - 1];
    var c := w + ")";
    assert forall j :: 0 <= j < |c| ==> c[j] == (if j < |w| then w[j] else ')');
    assert TrimEnd(c, |c|) == |c|;
  }

  /** The head of a declaration: the count, then the arguments right after the '('. */
  lemma DeclarationHead(m: string, x: string, n: nat)
    requires n <= 6 && m == DEFINE + [DigitChar(n)] + "(" + x
    ensures MacroHead(m) == Some((n, 16)) && m[16..] == x
    ensures IndexOf(m, '(') == 15
  {
    CNumbers.SkipSpaceTo(m, 0, 0);
    assert m[0..14] == DEFINE;
    CNumbers.SkipSpaceTo(m, 15, 15);
    assert m[16..] == x;
    assert forall i :: 0 <= i < 15 ==> m[i] != '(';
    IndexOfFirst(m, '(', 15);
  }

  /** Pieces free of line breaks join to text free of them. */
  lemma {:induction false} NoLineBreakJoin(g: seq<string>)
    requires forall i :: 0 <= i < |g| ==> NoLineBreak(g[i])
    ensures NoLineBreak(Join(g, ','))
  {
    if |g| > 1 {
      NoLineBreakJoin(g[1..]);
      assert Join(g, ',') == g[0] + [','] + Join(g[1..], ',');
    }
  }

  /** The name is the first piece when it holds neither ',' nor ')', and what follows it has no line break. */
  lemma NameOfJoin(g: seq<string>, n: nat, name: string)
    requires |g| == 2 * n + 1 && (n == 0 ==> g[0] == name + ")") && (n > 0 ==> g[0] == name)
    requires Word(name) && NoLineBreak(Join(g, ','))
    ensures NameEnd(Join(g, ',')) == |name| && Join(g, ',')[..|name|] == name && NoLineBreak(Join(g, ',')[|name|..])
  {
    var x := Join(g, ',');
    if n == 0 {
      assert x == name + ")";
    } else {
      assert x == name + [','] + Join(g[1..], ',');
    }
    assert x[|name|] == ',' || x[|name|] == ')';
    assert forall i :: 0 <= i < |name| ==> x[i] == name[i];
    assert x[..|name|] == name;
    IndexOfNone(x, ',');
    IndexOfNone(x, ')');
    assert NameEnd(x) == |name|;
    assert forall i :: 0 <= i < |x| - |name| ==> x[|name|..][i] == x[|name| + i];
  }

  /** The pieces of a declaration give one normalised type for each (type, name) pair. */
  lemma ArgumentsOfPieces(m: string, n: nat, name: string, args: seq<string>)
    requires WellFormed(n, name, args) && 0 < n && MacroPieces(m) == Some(Closed([name] + args))
    ensures ArgumentTypes(m, n) == Some(seq(n, i requires 0 <= i < n => NormalizeType(Trim(args[2 * i]))))
  {
    var ws := [name] + args;
    var g := Closed(ws);
    assert forall i :: 0 <= i < |ws| ==> Word(ws[i]);
    ClosedPieces(ws);
    forall i | 0 <= i < n ensures g[2 * i + 1] == args[2 * i] {
      assert g[2 * i + 1] == ws[2 * i + 1];
    }
    assert forall i :: 0 <= i < 2 * n ==> g[i] != [];
    var t := seq(n, i requires 0 <= i < n => NormalizeType(Trim(g[2 * i + 1])));
    assert ArgumentTypes(m, n) == Some(t);
    assert t == seq(n, i requires 0 <= i < n => NormalizeType(Trim(args[2 * i])));
  }

  // Reading a macro that runs over several lines.

  /** The text with its line breaks taken out. */
  function Unbroken(s: string): (r: string)
    ensures '\n' !in r
  {
    if s == [] then [] else (if s[0] == '\n' then [] else [s[0]]) + Unbroken(s[1..])
  }

  lemma {:induction false} UnbrokenAppend(a: string, b: string)
    ensures Unbroken(a + b) == Unbroken(a) + Unbroken(b)
  {
    if a != [] {
      var h := if a[0] == '\n' then [] else [a[0]];
      assert (a + b)[0] == a[0];
      assert (a + b)[1..] == a[1..] + b;
      UnbrokenAppend(a[1..], b);
      calc {
        Unbroken(a + b);
        h + Unbroken(a[1..] + b);
        h + (Unbroken(a[1..]) + Unbroken(b));
        (h + Unbroken(a[1..])) + Unbroken(b);
      }
    } else {
      assert a + b == b;
    }
  }

  lemma {:induction false} UnbrokenOfLine(s: string)
    requires '\n' !in s
    ensures Unbroken(s) == s
  {
    if s != [] {
      UnbrokenOfLine(s[1..]);
    }
  }

  /** There is a ')' in the macro so far or further on in the file: reading it ends. */
  predicate MacroCloses(macro: string, text: string, pos: nat)
    requires pos <= |text|
  {
    ')' in macro || ')' in text[pos..]
  }

  /**
   * The macro `ingestEntireMacro` returns when the file holds `text` and the
   * read position is `pos`, and the position where it stops reading: while
   * the macro has no ')', the next line is appended without its newline.
   */
  function Ingest(macro: string, text: string, pos: nat): (r: (string, nat))
    requires pos <= |text| && MacroCloses(macro, text, pos)
    ensures pos <= r.1 <= |text| && ')' in r.0
    decreases |text| - pos
  {
    if ')' in macro then (macro, pos)
    else
      var l := GetLine(text, pos);
      NextLineCloses(macro, text, pos);
      Ingest(macro + l.text, text, l.next)
  }

  /** When the macro has no ')' yet, one comes in the next line or after it. */
  lemma NextLineCloses(macro: string, text: string, pos: nat)
    requires pos <= |text| && MacroCloses(macro, text, pos) && ')' !in macro
    ensures pos < |text|
    ensures MacroCloses(macro + GetLine(text, pos).text, text, GetLine(text, pos).next)
  {
    var l := GetLine(text, pos);
    var q :| 0 <= q < |text[pos..]| && text[pos..][q] == ')';
    GetLineDelimText(text, pos, '\n');
    if pos + q < l.next {
      assert pos + q < pos + |l.text| by {
        assert text[pos + q] == ')';
      }
      assert l.text[q] == ')';
      assert (macro + l.text)[|macro| + q] == ')';
    } else {
      assert text[l.next..][pos + q - l.next] == ')';
    }
  }

  /**
   * `ingestEntireMacro`: starting from the first line, whole lines are
   * appended, newlines dropped, until the macro holds a ')'.
   */
  method IngestEntireMacro(text: string, pos: nat, firstLine: string) returns (macro: string, next: nat)
    requires pos <= |text| && MacroCloses(firstLine, text, pos)
    ensures (macro, next) == Ingest(firstLine, text, pos)
  {
    macro, next := firstLine, pos;
    while IndexOf(macro, ')') == |macro|
      invariant pos <= next <= |text| && MacroCloses(macro, text, next)
      invariant Ingest(macro, text, next) == Ingest(firstLine, text, pos)
      decreases |text| - next
    {
      IndexOfNone(macro, ')');
      NextLineCloses(macro, text, next);
      var l := GetLine(text, next);
      macro := macro + l.text;
      next := l.next;
    }
  }

  /** Where the line holding position `q` ends: after its newline, or at the end of the text. */
  function LineEnd(text: string, q: nat): (e: nat)
    requires q <= |text|
    ensures q <= e <= |text|
  {
    var k := IndexFrom(text, '\n', q);
    if k < |text| then k + 1 else k
  }

  /** A ')' after `pos` is found by the search from `pos`. */
  lemma ParenFound(text: string, pos: nat)
    requires pos <= |text| && ')' in text[pos..]
    ensures IndexFrom(text, ')', pos) < |text|
  {
    var j :| 0 <= j < |text[pos..]| && text[pos..][j] == ')';
    assert text[pos + j] == ')';
    IndexFromNone(text, ')', pos);
  }

  /** The first ')' lies on the line read from `pos`: that line ends where `getline` stops. */
  lemma ParenOnLine(text: string, pos: nat)
    requires pos < |text| && ')' in GetLine(text, pos).text
    ensures IndexFrom(text, ')', pos) < pos + |GetLine(text, pos).text|
    ensures LineEnd(text, IndexFrom(text, ')', pos)) == GetLine(text, pos).next
  {
    var l := GetLine(text, pos);
    GetLineDelimText(text, pos, '\n');
    var j :| 0 <= j < |l.text| && l.text[j] == ')';
    assert text[pos + j] == ')';
    IndexFromNone(text, ')', pos);
    var q := IndexFrom(text, ')', pos);
    var k := pos + |l.text|;
    forall i | q <= i < k ensures text[i] != '\n' {
      assert text[i] == l.text[i - pos];
    }
    IndexFromFirst(text, '\n', q, k);
  }

  /** The line read from `pos` holds no ')': the first one comes after it. */
  lemma ParenAfterLine(text: string, pos: nat)
    requires pos < |text| && ')' !in GetLine(text, pos).text && ')' in text[pos..]
    ensures ')' in text[GetLine(text, pos).next..]
    ensures IndexFrom(text, ')', pos) == IndexFrom(text, ')', GetLine(text, pos).next)
  {
    var l := GetLine(text, pos);
    GetLineDelimText(text, pos, '\n');
    ParenFound(text, pos);
    var q := IndexFrom(text, ')', pos);
    assert q >= l.next;
    assert text[l.next..][q - l.next] == ')';
    IndexFromNone(text, ')', pos);
    IndexFromFirst(text, ')', l.next, q);
  }

  /** The line read from `pos` holds the ')': reading stops after it. */
  lemma IngestOnLine(macro: string, text: string, pos: nat)
    requires pos < |text| && ')' !in macro && ')' in GetLine(text, pos).text && ')' in text[pos..]
    ensures var l := GetLine(text, pos);
      && Ingest(macro, text, pos) == (macro + l.text, l.next)
      && IndexFrom(text, ')', pos) < |text|
      && LineEnd(text, IndexFrom(text, ')', pos)) == l.next
  {
    var l := GetLine(text, pos);
    ParenOnLine(text, pos);
    var j :| 0 <= j < |l.text| && l.text[j] == ')';
    assert (macro + l.text)[|macro| + j] == ')';
  }

  /** The line read from `pos` holds no ')': reading goes on after it, looking for the same ')'. */
  lemma IngestPastLine(macro: string, text: string, pos: nat)
    requires pos < |text| && ')' !in macro && ')' !in GetLine(text, pos).text && ')' in text[pos..]
    ensures var l := GetLine(text, pos);
      && ')' !in macro + l.text && ')' in text[l.next..]
      && Ingest(macro, text, pos) == Ingest(macro + l.text, text, l.next)
      && IndexFrom(text, ')', pos) == IndexFrom(text, ')', l.next)
  {
    ParenAfterLine(text, pos);
  }

  /**
   * Reading stops at the end of the line that holds the first ')' from the
   * read position on, and the macro is the first line followed by everything
   * read, its newlines dropped.
   */
  lemma {:induction false} IngestStopsAtFirstParen(macro: string, text: string, pos: nat)
    requires pos <= |text| && ')' !in macro && ')' in text[pos..]
    ensures IndexFrom(text, ')', pos) < |text|
    ensures Ingest(macro, text, pos).1 == LineEnd(text, IndexFrom(text, ')', pos))
    ensures Ingest(macro, text, pos).0 == macro + Unbroken(text[pos..Ingest(macro, text, pos).1])
    decreases |text| - pos
  {
    ParenFound(text, pos);
    var l := GetLine(text, pos);
    LineRead(text, pos);
    if ')' in l.text {
      IngestOnLine(macro, text, pos);
    } else {
      IngestPastLine(macro, text, pos);
      IngestStopsAtFirstParen(macro + l.text, text, l.next);
      var e := Ingest(macro, text, pos).1;
      SliceSplit(text, pos, l.next, e);
      UnbrokenAppend(text[pos..l.next], text[l.next..e]);
      Assoc(macro, l.text, Unbroken(text[l.next..e]));
    }
  }

  lemma Assoc(a: string, b: string, c: string)
    ensures (a + b) + c == a + (b + c)
  {
  }

  lemma SliceSplit(s: string, i: nat, j: nat, k: nat)
    requires i <= j <= k <= |s|
    ensures s[i..k] == s[i..j] + s[j..k]
  {
  }

  /** The text a `getline` consumes, newlines dropped, is the line it returns. */
  lemma LineRead(text: string, pos: nat)
    requires pos < |text|
    ensures Unbroken(text[pos..GetLine(text, pos).next]) == GetLine(text, pos).text
  {
    var l := GetLine(text, pos);
    GetLineDelimText(text, pos, '\n');
    UnbrokenOfLine(l.text);
    if l.next == pos + |l.text| + 1 {
      assert text[pos..l.next] == l.text + "\n";
      UnbrokenAppend(l.text, "\n");
    } else {
      assert text[pos..l.next] == l.text;
    }
  }

  // Reading a kernel source file.

  /**
   * The macros `processSignaturesWithinKernelSourceFile` reads from `pos` on:
   * lines are read until `getline` fails at the end of the file, and each
   * line the filter accepts starts a macro, read up to its ')'. None when a
   * macro's ')' never comes, where the program would read on forever.
   */
  function ScanFrom(text: string, pos: nat): (r: Option<seq<string>>)
    requires pos <= |text|
    ensures r.Some? ==> forall i :: 0 <= i < |r.value| ==> ')' in r.value[i]
    decreases |text| - pos
  {
    if pos == |text| then Some([])
    else
      var l := GetLine(text, pos);
      if !IsMacroStart(l.text) then ScanFrom(text, l.next)
      else if !MacroCloses(l.text, text, l.next) then None
      else
        var (m, next) := Ingest(l.text, text, l.next);
        Push(m, ScanFrom(text, next))
  }

  /** An item read ahead of those read after it; None stays None. */
  function Push<T>(m: T, r: Option<seq<T>>): (p: Option<seq<T>>)
    ensures p.Some? <==> r.Some?
    ensures p.Some? ==> p.value == [m] + r.value
  {
    match r
    case None => None
    case Some(ms) => Some([m] + ms)
  }

  /** The macros of a file are those read from its start. */
  function FileMacros(text: string): Option<seq<string>> {
    ScanFrom(text, 0)
  }

  /** A line at the read position that starts a macro and holds its ')' is the next macro read. */
  lemma ScanOneLine(text: string, pos: nat, d: string)
    requires pos + |d| < |text| && text[pos..pos + |d|] == d && text[pos + |d|] == '\n'
    requires '\n' !in d && ')' in d && IsMacroStart(d)
    ensures ScanFrom(text, pos) == Push(d, ScanFrom(text, pos + |d| + 1))
  {
    GetLineSlice(text, pos, d);
    var l := GetLine(text, pos);
    assert l.text == d && l.next == pos + |d| + 1;
    ScanMacroLine(text, pos);
  }

  /** A line that starts a macro and holds its ')' is a macro by itself. */
  lemma ScanMacroLine(text: string, pos: nat)
    requires pos < |text| && IsMacroStart(GetLine(text, pos).text) && ')' in GetLine(text, pos).text
    ensures var l := GetLine(text, pos);
      ScanFrom(text, pos) == Push(l.text, ScanFrom(text, l.next))
  {
    var l := GetLine(text, pos);
    assert Ingest(l.text, text, l.next) == (l.text, l.next);
  }

  /** A declaration is a line that starts a macro and holds its closing ')'. */
  lemma DeclarationLine(n: nat, name: string, args: seq<string>)
    requires WellFormed(n, name, args)
    ensures IsMacroStart(Declaration(n, name, args))
    ensures ')' in Declaration(n, name, args) && '\n' !in Declaration(n, name, args)
  {
    var d := Declaration(n, name, args);
    var ws := [name] + args;
    assert forall i :: 0 <= i < |ws| ==> Word(ws[i]);
    ClosedPieces(ws);
    NoLineBreakJoin(Closed(ws));
    DeclarationHead(d, Join(Closed(ws), ','), n);
    assert d[|d| - 1] == ')' by {
      LastOfJoin(Closed(ws));
    }
    assert forall i :: 0 <= i < 16 ==> d[i] != '\n';
    assert forall i :: 16 <= i < |d| ==> d[i] == Join(Closed(ws), ',')[i - 16];
  }

  /** A join ends with its last piece. */
  lemma {:induction false} LastOfJoin(g: seq<string>)
    requires |g| >= 1 && g[|g| - 1] != []
    ensures var j := Join(g, ','); |j| > 0 && j[|j| - 1] == g[|g| - 1][|g[|g| - 1]| - 1]
  {
    if |g| > 1 {
      LastOfJoin(g[1..]);
      assert Join(g, ',') == g[0] + [','] + Join(g[1..], ',');
    }
  }

  /** The macros of the files, one file after another; None when one of them is. */
  function AllMacros(files: seq<string>): (r: Option<seq<string>>)
    ensures r.Some? && files != [] ==> FileMacros(files[0]).Some? && AllMacros(files[1..]).Some?
    ensures r.Some? && files != [] ==> r.value == FileMacros(files[0]).value + AllMacros(files[1..]).value
  {
    if files == [] then Some([])
    else
      match (FileMacros(files[0]), AllMacros(files[1..]))
      case (Some(a), Some(b)) => Some(a + b)
      case _ => None
  }

  /** Processing macros one batch after another is processing them all. */
  lemma {:induction false} ProcessMacrosAppend(sigs: map<string, Signature>, names: map<string, int>, a: seq<string>, b: seq<string>)
    ensures ProcessMacros(sigs, names, a + b) == (match ProcessMacros(sigs, names, a) case None => None case Some(s) => ProcessMacros(s, names, b))
    decreases |b|
  {
    if b == [] {
      assert a + b == a;
    } else {
      var b' := b[..|b| - 1];
      assert (a + b)[..|a + b| - 1] == a + b';
      assert (a + b)[|a + b| - 1] == b[|b| - 1];
      ProcessMacrosAppend(sigs, names, a, b');
    }
  }
}
