/**
 * `compileSystemCallData` of `trace-system-calls.cc`: the system call
 * numbers are read from the x86-64 `unistd_64.h` header, and the signatures
 * either from the cache file or, when rebuilding, from the `SYSCALL_DEFINE`
 * macros of the kernel's source files, which are then cached. The files are
 * given by their contents: None for a file that cannot be opened.
 */
module TraceCompile {
  import opened Wrappers
  import opened Text
  import CNumbers
  import Lex
  import opened TraceSystemCalls
  import opened TraceCache

  // The numbers of the system calls.

  /** `\w`: a letter, a digit or '_'. */
  predicate IsWordChar(c: char) {
    'a' <= c <= 'z' || 'A' <= c <= 'Z' || '0' <= c <= '9' || c == '_'
  }

  /** `\w+`: the text of a system call name. */
  predicate Identifier(s: string) {
    s != [] && forall k :: 0 <= k < |s| ==> IsWordChar(s[k])
  }

  /** The end of the run of word characters that starts at `i`. */
  function WordRun(s: string, i: nat): (j: nat)
    requires i <= |s|
    ensures i <= j <= |s|
    ensures forall k :: i <= k < j ==> IsWordChar(s[k])
    ensures j < |s| ==> !IsWordChar(s[j])
    decreases |s| - i
  {
    if i < |s| && IsWordChar(s[i]) then WordRun(s, i + 1) else i
  }

  /** The end of the run of decimal digits that starts at `i`. */
  function DigitsEnd(s: string, i: nat): (j: nat)
    requires i <= |s|
    ensures i <= j <= |s|
    ensures forall k :: i <= k < j ==> IsDigit(s[k])
    ensures j < |s| ==> !IsDigit(s[j])
    decreases |s| - i
  {
    if i < |s| && IsDigit(s[i]) then DigitsEnd(s, i + 1) else i
  }

  const NR: string := "__NR_"

  /**
   * `[^_]+__NR_(\w+)\s+(\d+)\s*` matched against a whole line: the name and
   * the digits of the number. Every group is forced: the text before the
   * first '_' is the prefix, the name is the longest run of word characters
   * after `__NR_` (a space must follow it), and the number is the run of
   * digits after the spaces, with only spaces after it.
   */
  function DefineOf(line: string): (r: Option<(string, string)>)
    ensures r.Some? ==> Identifier(r.value.0) && r.value.1 != [] && AllDigits(r.value.1)
  {
    var i := IndexOf(line, '_');
    if 0 < i && i + |NR| <= |line| && line[i..i + |NR|] == NR then
      var j := WordRun(line, i + |NR|);
      var k := CNumbers.SkipSpace(line, j);
      var e := DigitsEnd(line, k);
      if i + |NR| < j < k < e && AllSpace(line[e..]) then
        assert forall m :: 0 <= m < e - k ==> line[k..e][m] == line[k + m];
        Some((line[i + |NR|..j], line[k..e]))
      else None
    else None
  }

  /** What `#define __NR_name number` is read as: the name, and the number's digits. */
  lemma DefineLine(name: string, n: nat)
    requires Identifier(name)
    ensures DefineOf("#define __NR_" + name + " " + NatToString(n)) == Some((name, NatToString(n)))
  {
    var d := NatToString(n);
    var line := "#define __NR_" + name + " " + d;
    var j := 13 + |name|;
    assert forall m :: 0 <= m < 8 ==> line[m] != '_';
    IndexOfFirst(line, '_', 8);
    assert line[8..13] == NR;
    assert forall m :: 13 <= m < j ==> line[m] == name[m - 13];
    assert line[j] == ' ';
    WordRunTo(line, 13, j);
    assert forall m :: j + 1 <= m < |line| ==> line[m] == d[m - j - 1];
    assert IsDigit(line[j + 1]);
    CNumbers.SkipSpaceTo(line, j, j + 1);
    DigitsEndTo(line, j + 1, |line|);
    assert line[13..j] == name;
    assert line[j + 1..|line|] == d;
  }

  lemma {:induction false} WordRunTo(s: string, i: nat, n: nat)
    requires i <= n < |s| && !IsWordChar(s[n])
    requires forall k :: i <= k < n ==> IsWordChar(s[k])
    ensures WordRun(s, i) == n
    decreases n - i
  {
    if i < n { WordRunTo(s, i + 1, n); }
  }

  lemma {:induction false} DigitsEndTo(s: string, i: nat, n: nat)
    requires i <= n == |s|
    requires forall k :: i <= k < n ==> IsDigit(s[k])
    ensures DigitsEnd(s, i) == n
    decreases n - i
  {
    if i < n { DigitsEndTo(s, i + 1, n); }
  }

  /**
   * The (name, number) of each line of the header that the pattern matches,
   * in order; None where `stoi` throws on a number too large for an `int`.
   */
  function Defines(text: string, pos: nat): (r: Option<seq<(string, int)>>)
    requires pos <= |text|
    ensures r.Some? ==> forall i :: 0 <= i < |r.value| ==> Identifier(r.value[i].0)
    decreases |text| - pos
  {
    var l := GetLine(text, pos);
    if l.failed then Some([])
    else
      match DefineOf(l.text)
      case None => Defines(text, l.next)
      case Some(d) =>
        match Stoi(d.1)
        case None => None
        case Some(number) => Push((d.0, number), Defines(text, l.next))
  }

  /** Items found before those read from some position on; None stays None. */
  function Prepend<T>(done: seq<T>, r: Option<seq<T>>): (p: Option<seq<T>>)
    ensures p.Some? <==> r.Some?
    ensures p.Some? ==> p.value == done + r.value
  {
    match r
    case None => None
    case Some(x) => Some(done + x)
  }

  lemma PrependPush<T>(done: seq<T>, d: T, r: Option<seq<T>>)
    ensures Prepend(done, Push(d, r)) == Prepend(done + [d], r)
  {
    if r.Some? {
      assert done + ([d] + r.value) == (done + [d]) + r.value;
    }
  }

  /** `systemCallNumbers[number] = name; systemCallNames[name] = number` for each define in turn. */
  function Tables(numbers: map<int, string>, names: map<string, int>, defs: seq<(string, int)>): (r: (map<int, string>, map<string, int>))
  {
    if defs == [] then (numbers, names)
    else
      var t := Tables(numbers, names, defs[..|defs| - 1]);
      var d := defs[|defs| - 1];
      (t.0[d.1 := d.0], t.1[d.0 := d.1])
  }

  /** A number is in the tables when it was there or some define gives it, and likewise a name. */
  lemma {:induction false} TablesKeys(numbers: map<int, string>, names: map<string, int>, defs: seq<(string, int)>)
    ensures forall n :: n in Tables(numbers, names, defs).0 <==> n in numbers || exists i :: 0 <= i < |defs| && defs[i].1 == n
    ensures forall s :: s in Tables(numbers, names, defs).1 <==> s in names || exists i :: 0 <= i < |defs| && defs[i].0 == s
    decreases |defs|
  {
    if defs != [] {
      var init := defs[..|defs| - 1];
      TablesKeys(numbers, names, init);
      assert forall i :: 0 <= i < |init| ==> init[i] == defs[i];
    }
  }

  /** The last define of a number names it, and the last define of a name numbers it. */
  lemma {:induction false} TablesLastWins(numbers: map<int, string>, names: map<string, int>, defs: seq<(string, int)>, i: nat)
    requires i < |defs|
    ensures (forall j :: i < j < |defs| ==> defs[j].1 != defs[i].1) ==> defs[i].1 in Tables(numbers, names, defs).0 && Tables(numbers, names, defs).0[defs[i].1] == defs[i].0
    ensures (forall j :: i < j < |defs| ==> defs[j].0 != defs[i].0) ==> defs[i].0 in Tables(numbers, names, defs).1 && Tables(numbers, names, defs).1[defs[i].0] == defs[i].1
    decreases |defs|
  {
    var init := defs[..|defs| - 1];
    if i < |defs| - 1 {
      TablesLastWins(numbers, names, init, i);
      assert init[i] == defs[i];
      assert forall j :: i < j < |init| ==> init[j] == defs[j];
    }
  }

  /** Each table undoes the other. */
  predicate Inverse(numbers: map<int, string>, names: map<string, int>) {
    && (forall n :: n in numbers ==> numbers[n] in names && names[numbers[n]] == n)
    && (forall s :: s in names ==> names[s] in numbers && numbers[names[s]] == s)
  }

  /** No two defines share a name or a number. */
  predicate Unique(defs: seq<(string, int)>) {
    forall i, j :: 0 <= i < j < |defs| ==> defs[i].0 != defs[j].0 && defs[i].1 != defs[j].1
  }

  /** Defines that repeat no name and no number make tables that are each other's inverse. */
  lemma {:induction false} TablesInverse(defs: seq<(string, int)>)
    requires Unique(defs)
    ensures Inverse(Tables(map[], map[], defs).0, Tables(map[], map[], defs).1)
    decreases |defs|
  {
    if defs != [] {
      var init := defs[..|defs| - 1];
      var d := defs[|defs| - 1];
      assert forall i :: 0 <= i < |init| ==> init[i] == defs[i];
      TablesInverse(init);
      TablesKeys(map[], map[], init);
      var t := Tables(map[], map[], init);
      assert d.1 !in t.0 && d.0 !in t.1;
    }
  }

  // The signatures of the system calls.

  /** A macro processed ahead of some others. */
  lemma ProcessMacrosCons(sigs: map<string, Signature>, names: map<string, int>, m: string, rest: seq<string>)
    ensures SignatureStep(sigs, names, m).None? ==> ProcessMacros(sigs, names, [m] + rest).None?
    ensures SignatureStep(sigs, names, m).Some? ==> ProcessMacros(sigs, names, [m] + rest) == ProcessMacros(SignatureStep(sigs, names, m).value, names, rest)
  {
    ProcessMacrosAppend(sigs, names, [m], rest);
    assert [m][..0] == [];
  }

  /** `k` comes first among the names, in the order a `std::map` iterates in. */
  predicate Least(k: string, keys: set<string>) {
    k in keys && forall j :: j in keys ==> Lex.LessEq(k, j)
  }

  lemma LeastExists(keys: set<string>)
    requires keys != {}
    ensures Least(Lex.MinOf(keys), keys)
  {
  }

  /** The least of some names is the first of them in order. */
  lemma LeastIsFirst(keys: set<string>, k: string)
    requires Least(k, keys)
    ensures k == Lex.MinOf(keys)
  {
    var m := Lex.MinOf(keys);
    if k != m {
      assert Lex.LessEq(k, m);
      Lex.LessAsymmetric(m, k);
    }
  }

  /** The cache lines for some of the names, in order. */
  ghost function KeyLines(sigs: map<string, Signature>, keys: set<string>): string
    requires keys <= sigs.Keys
  {
    KeysIn(sigs, keys);
    CacheLines(sigs, Lex.SortedKeys(keys))
  }

  lemma KeysIn(sigs: map<string, Signature>, keys: set<string>)
    requires keys <= sigs.Keys
    ensures forall i :: 0 <= i < |Lex.SortedKeys(keys)| ==> Lex.SortedKeys(keys)[i] in sigs
  {
    var r := Lex.SortedKeys(keys);
    forall i | 0 <= i < |r| ensures r[i] in sigs {
      assert r[i] in r;
    }
  }

  /** The cache lines for some names start with the line of the least of them. */
  lemma KeyLinesFirst(sigs: map<string, Signature>, keys: set<string>, k: string)
    requires keys <= sigs.Keys && Least(k, keys)
    ensures KeyLines(sigs, keys) == EntryLine(k, sigs[k]) + KeyLines(sigs, keys - {k})
  {
    LeastIsFirst(keys, k);
    KeysIn(sigs, keys);
    KeysIn(sigs, keys - {k});
    var after := Lex.SortedKeys(keys - {k});
    assert Lex.SortedKeys(keys) == [k] + after;
    assert ([k] + after)[1..] == after;
  }

  /** How `compileSystemCallData` ends: the tables are compiled, or an exception is thrown or an assertion fails. */
  datatype Outcome =
    | Compiled(cacheWritten: Option<string>)
    | MapsNotEmpty
    | MissingNumbersFile
    | NumberOutOfRange
    | BadCacheCount
    | AssertionFailed

  /**
   * `collectSystemCallSignatures`: unless rebuilding, a cache that opens is
   * loaded; otherwise the kernel's macros are processed and the cache is
   * written. The outcome and the signatures.
   */
  ghost function Collected(sigs: map<string, Signature>, names: map<string, int>, rebuild: bool, cache: Option<string>, files: seq<string>): (r: (Outcome, map<string, Signature>))
    requires (rebuild || cache.None?) ==> AllMacros(files).Some?
  {
    if !rebuild && cache.Some? then
      match LoadFrom(cache.value, sigs)
      case CountInvalid => (BadCacheCount, sigs)
      case Loaded(s) => (Compiled(None), s)
    else
      match ProcessMacros(sigs, names, AllMacros(files).value)
      case None => (AssertionFailed, sigs)
      case Some(s) => (Compiled(Some(CacheText(s))), s)
  }

  /** The outcome of compiling into empty tables, and the tables compiled. */
  datatype Compilation = Compilation(outcome: Outcome, numbers: map<int, string>, names: map<string, int>, signatures: map<string, Signature>)

  /**
   * `compileSystemCallData` from empty tables: the header's defines give the
   * numbers and the names, then the signatures are collected.
   */
  ghost function Compile(header: Option<string>, rebuild: bool, cache: Option<string>, files: seq<string>): (r: Compilation)
    requires (rebuild || cache.None?) ==> AllMacros(files).Some?
  {
    match header
    case None => Compilation(MissingNumbersFile, map[], map[], map[])
    case Some(text) =>
      match Defines(text, 0)
      case None => Compilation(NumberOutOfRange, map[], map[], map[])
      case Some(defs) =>
        var t := Tables(map[], map[], defs);
        var c := Collected(map[], t.1, rebuild, cache, files);
        Compilation(c.0, t.0, t.1, c.1)
  }

  /** The three tables `compileSystemCallData` fills in. */
  class SystemCallData {
    var numbers: map<int, string>
    var names: map<string, int>
    var signatures: map<string, Signature>

    constructor ()
      ensures numbers == map[] && names == map[] && signatures == map[]
    {
      numbers, names, signatures := map[], map[], map[];
    }

    /**
     * `collectSystemCallNumbers` on the header holding `text`: each line the
     * pattern matches records its number for its name and its name for its
     * number. False where `stoi` throws.
     */
    method CollectSystemCallNumbers(text: string) returns (ok: bool)
      modifies this
      ensures signatures == old(signatures)
      ensures ok <==> Defines(text, 0).Some?
      ensures ok ==> (numbers, names) == Tables(old(numbers), old(names), Defines(text, 0).value)
    {
      var pos := 0;
      ghost var done: seq<(string, int)> := [];
      if Defines(text, 0).Some? {
        assert [] + Defines(text, 0).value == Defines(text, 0).value;
      }
      while true
        invariant pos <= |text|
        invariant Defines(text, 0) == Prepend(done, Defines(text, pos))
        invariant (numbers, names) == Tables(old(numbers), old(names), done)
        invariant signatures == old(signatures)
        decreases |text| - pos
      {
        var l := GetLine(text, pos);
        if l.failed {
          break;
        }
        var d := DefineOf(l.text);
        if d.Some? {
          var number := Stoi(d.value.1);
          if number.None? {
            return false;
          }
          PrependPush(done, (d.value.0, number.value), Defines(text, l.next));
          numbers := numbers[number.value := d.value.0];
          names := names[d.value.0 := number.value];
          ghost var prior := done;
          done := done + [(d.value.0, number.value)];
          assert done[..|done| - 1] == prior;
        }
        pos := l.next;
      }
      assert done + [] == done;
      ok := true;
    }

    /**
     * `processSystemCallArguments`: the types of the `n` parameters, from
     * the pieces of the macro. False where the program's assertion fails.
     */
    method ProcessSystemCallArguments(macro: string, n: nat) returns (ok: bool, types: Signature)
      requires 0 < n
      ensures ok <==> ArgumentTypes(macro, n).Some?
      ensures ok ==> types == ArgumentTypes(macro, n).value
    {
      var pieces := MacroPieces(macro);
      if pieces.None? {
        return false, [];
      }
      var g := pieces.value;
      if |g| != 2 * n + 1 || (exists i :: 0 <= i < 2 * n && g[i] == []) || !ClosesMacro(g[2 * n]) {
        return false, [];
      }
      types := [];
      for i := 0 to n
        invariant types == seq(i, k requires 0 <= k < i => NormalizeType(Trim(g[2 * k + 1])))
      {
        types := types + [NormalizeType(Trim(g[2 * i + 1]))];
      }
      ok := true;
    }

    /**
     * `processSystemCallSignature`: a macro for a known system call with no
     * signature yet records the one it declares. False where one of the
     * program's assertions fails.
     */
    method ProcessSystemCallSignature(macro: string) returns (ok: bool)
      modifies this
      ensures numbers == old(numbers) && names == old(names)
      ensures ok <==> SignatureStep(old(signatures), names, macro).Some?
      ensures ok ==> signatures == SignatureStep(old(signatures), names, macro).value
    {
      var p := NameAndCount(macro);
      if p.None? {
        return false;
      }
      var name := Trim(p.value.0);
      if name in names && name !in signatures {
        // The entry is created empty, then filled with the parameters' types.
        var types: Signature := [];
        if p.value.1 > 0 {
          ok, types := ProcessSystemCallArguments(macro, p.value.1);
          if !ok {
            return;
          }
        }
        signatures := signatures[name := types];
      }
      ok := true;
    }

    /**
     * `processSignaturesWithinKernelSourceFile` on a file holding `text`:
     * each line the filter accepts starts a macro, which is read whole and
     * processed. False where an assertion fails.
     */
    method ProcessSignaturesWithinKernelSourceFile(text: string) returns (ok: bool)
      requires FileMacros(text).Some?
      modifies this
      ensures numbers == old(numbers) && names == old(names)
      ensures ok <==> ProcessMacros(old(signatures), names, FileMacros(text).value).Some?
      ensures ok ==> signatures == ProcessMacros(old(signatures), names, FileMacros(text).value).value
    {
      var pos := 0;
      while true
        invariant pos <= |text| && ScanFrom(text, pos).Some?
        invariant numbers == old(numbers) && names == old(names)
        invariant ProcessMacros(old(signatures), names, FileMacros(text).value) == ProcessMacros(signatures, names, ScanFrom(text, pos).value)
        decreases |text| - pos
      {
        var l := GetLine(text, pos);
        if l.failed {
          break;
        }
        if IsMacroStart(l.text) {
          assert MacroCloses(l.text, text, l.next);
          var macro, next := IngestEntireMacro(text, l.next, l.text);
          assert ScanFrom(text, pos) == Push(macro, ScanFrom(text, next));
          ProcessMacrosCons(signatures, names, macro, ScanFrom(text, next).value);
          ok := ProcessSystemCallSignature(macro);
          if !ok {
            return;
          }
          pos := next;
        } else {
          pos := l.next;
        }
      }
      ok := true;
    }

    /** `processAllKernelSourceFiles`: the files one after another. False where an assertion fails. */
    method ProcessAllKernelSourceFiles(files: seq<string>) returns (ok: bool)
      requires AllMacros(files).Some?
      modifies this
      ensures numbers == old(numbers) && names == old(names)
      ensures ok <==> ProcessMacros(old(signatures), names, AllMacros(files).value).Some?
      ensures ok ==> signatures == ProcessMacros(old(signatures), names, AllMacros(files).value).value
    {
      for i := 0 to |files|
        invariant AllMacros(files[i..]).Some?
        invariant numbers == old(numbers) && names == old(names)
        invariant ProcessMacros(old(signatures), names, AllMacros(files).value) == ProcessMacros(signatures, names, AllMacros(files[i..]).value)
      {
        assert files[i..][0] == files[i] && files[i..][1..] == files[i + 1..];
        var a, b := FileMacros(files[i]).value, AllMacros(files[i + 1..]).value;
        ProcessMacrosAppend(signatures, names, a, b);
        ok := ProcessSignaturesWithinKernelSourceFile(files[i]);
        if !ok {
          return;
        }
      }
      assert files[|files|..] == [];
      ok := true;
    }
  
    /**
     * `loadSignaturesFromCache`: false when the cache cannot be opened;
     * otherwise its entries are read until a name cannot be, `threw` telling
     * whether `stoi` threw on a count.
     */
    method LoadSignaturesFromCache(cache: Option<string>) returns (readable: bool, threw: bool)
      modifies this
      ensures numbers == old(numbers) && names == old(names)
      ensures readable <==> cache.Some?
      ensures !readable ==> signatures == old(signatures) && !threw
      ensures readable ==> (threw <==> LoadFrom(cache.value, old(signatures)).CountInvalid?)
      ensures readable && !threw ==> LoadFrom(cache.value, old(signatures)) == Loaded(signatures)
    {
      if cache.None? {
        return false, false;
      }
      readable, threw := true, false;
      var s := cache.value;
      while true
        invariant numbers == old(numbers) && names == old(names)
        invariant LoadFrom(cache.value, old(signatures)) == LoadFrom(s, signatures)
        decreases |s|
      {
        ghost var s0, sigs0 := s, signatures;
        var w := ReadWord(s);
        if w.failed {
          break;
        }
        var name := w.text;
        s := s[w.used..];
        if name !in signatures {
          signatures := signatures[name := []];
        }
        ghost var prior := signatures[name];
        var c := ReadWord(s);
        s := s[c.used..];
        var count := Stoi(c.text);
        if count.None? {
          threw := true;
          return;
        }
        ghost var rest0 := s;
        // The types are read one word each, as `ReadTypes` states, and appended to the entry.
        var t := ReadTypes(s, count.value);
        signatures := signatures[name := signatures[name] + t.0];
        s := s[t.1..];
        CreateThenSet(sigs0, name, prior + t.0);
        LoadStepIsRead(s0, sigs0, rest0, count.value);
      }
    }

    /**
     * `cacheSignatures`: the text written to the cache, one line per system
     * call in the order of the names.
     */
    method CacheSignatures() returns (text: string)
      ensures text == CacheText(signatures)
    {
      text := [];
      var rest := signatures.Keys;
      while rest != {}
        invariant rest <= signatures.Keys
        invariant text + KeyLines(signatures, rest) == CacheText(signatures)
        decreases |rest|
      {
        LeastExists(rest);
        var k :| k in rest && Least(k, rest);
        KeyLinesFirst(signatures, rest, k);
        ghost var tail := KeyLines(signatures, rest - {k});
        var line := EntryLine(k, signatures[k]);
        Assoc(text, line, tail);
        text := text + line;
        rest := rest - {k};
      }
    }

    /**
     * `collectSystemCallSignatures`: unless rebuilding, the cache is loaded
     * when it opens; otherwise the kernel's files are processed and the
     * cache's text is written.
     */
    method CollectSystemCallSignatures(rebuild: bool, cache: Option<string>, files: seq<string>) returns (outcome: Outcome)
      requires (rebuild || cache.None?) ==> AllMacros(files).Some?
      modifies this
      ensures numbers == old(numbers) && names == old(names)
      ensures outcome == Collected(old(signatures), names, rebuild, cache, files).0
      ensures outcome.Compiled? ==> signatures == Collected(old(signatures), names, rebuild, cache, files).1
    {
      if !rebuild {
        var readable, threw := LoadSignaturesFromCache(cache);
        if threw {
          return BadCacheCount;
        }
        if readable {
          return Compiled(None);
        }
      }
      var ok := ProcessAllKernelSourceFiles(files);
      if !ok {
        return AssertionFailed;
      }
      var text := CacheSignatures();
      outcome := Compiled(Some(text));
    }

    /**
     * `compileSystemCallData`: the tables must all be empty; then the
     * numbers are read from the header, None when it cannot be opened, and
     * the signatures are collected.
     */
    method CompileSystemCallData(header: Option<string>, rebuild: bool, cache: Option<string>, files: seq<string>) returns (outcome: Outcome)
      requires (rebuild || cache.None?) ==> AllMacros(files).Some?
      modifies this
      ensures (old(numbers) != map[] || old(names) != map[] || old(signatures) != map[]) <==> outcome == MapsNotEmpty
      ensures outcome == MapsNotEmpty ==> numbers == old(numbers) && names == old(names) && signatures == old(signatures)
      ensures outcome != MapsNotEmpty ==> outcome == Compile(header, rebuild, cache, files).outcome
      ensures outcome.Compiled? ==> var c := Compile(header, rebuild, cache, files);
        numbers == c.numbers && names == c.names && signatures == c.signatures
    {
      if |numbers| + |names| + |signatures| > 0 {
        return MapsNotEmpty;
      }
      if header.None? {
        return MissingNumbersFile;
      }
      var ok := CollectSystemCallNumbers(header.value);
      if !ok {
        return NumberOutOfRange;
      }
      outcome := CollectSystemCallSignatures(rebuild, cache, files);
    }
  }

  /** Setting an entry after creating it is setting it. */
  lemma CreateThenSet(m: map<string, Signature>, k: string, v: Signature)
    ensures (if k in m then m else m[k := []])[k := v] == m[k := v]
  {
  }

  /** One pass of the loading loop, as the program performs it. */
  lemma LoadStepIsRead(s: string, sigs: map<string, Signature>, rest: string, n: int)
    requires !ReadWord(s).failed
    requires var w := ReadWord(s); var c := ReadWord(s[w.used..]);
      Stoi(c.text) == Some(n) && rest == s[w.used..][c.used..]
    ensures var w := ReadWord(s); var prior := if w.text in sigs then sigs[w.text] else []; var t := ReadTypes(rest, n);
      LoadFrom(s, sigs) == LoadFrom(rest[t.1..], sigs[w.text := prior + t.0])
  {
  }

  // What a compilation promises.

  /** A name made of word characters is one word of a cache line. */
  lemma IdentifierIsWord(s: string)
    requires Identifier(s)
    ensures s != [] && NoSpace(s)
  {
    forall i | 0 <= i < |s| ensures !IsSpace(s[i]) {
      assert IsWordChar(s[i]);
    }
  }

  /** The signatures gathered from the kernel sources, over the names of the header's defines, can be cached. */
  lemma ProcessedCacheable(defs: seq<(string, int)>, macros: seq<string>)
    requires forall i :: 0 <= i < |defs| ==> Identifier(defs[i].0)
    requires ProcessMacros(map[], Tables(map[], map[], defs).1, macros).Some?
    ensures Cacheable(ProcessMacros(map[], Tables(map[], map[], defs).1, macros).value)
  {
    var names := Tables(map[], map[], defs).1;
    var s := ProcessMacros(map[], names, macros).value;
    ProcessKeeps(map[], names, macros);
    TablesKeys(map[], map[], defs);
    forall k | k in s ensures k != [] && NoSpace(k) && |s[k]| <= CNumbers.INT_MAX {
      var i :| 0 <= i < |defs| && defs[i].0 == k;
      IdentifierIsWord(defs[i].0);
    }
  }

  /**
   * A rebuild writes a cache that loads back, into empty tables, as exactly
   * the signatures it compiled.
   */
  lemma RebuiltCacheReloads(header: Option<string>, cache: Option<string>, files: seq<string>)
    requires AllMacros(files).Some?
    requires Compile(header, true, cache, files).outcome.Compiled?
    ensures var c := Compile(header, true, cache, files);
      c.outcome.cacheWritten.Some? && LoadFrom(c.outcome.cacheWritten.value, map[]) == Loaded(c.signatures)
  {
    var defs := Defines(header.value, 0).value;
    ProcessedCacheable(defs, AllMacros(files).value);
    CacheRoundTrip(Compile(header, true, cache, files).signatures);
  }

  /**
   * Compiling again from the cache a rebuild wrote, whatever the kernel
   * sources are then, gives the same tables and writes no cache.
   */
  lemma CacheIsTransparent(header: Option<string>, cache: Option<string>, files: seq<string>, later: seq<string>)
    requires AllMacros(files).Some?
    requires Compile(header, true, cache, files).outcome.Compiled?
    ensures var c := Compile(header, true, cache, files);
      Compile(header, false, c.outcome.cacheWritten, later) == Compilation(Compiled(None), c.numbers, c.names, c.signatures)
  {
    RebuiltCacheReloads(header, cache, files);
  }

  /** Without a cache to read, only system calls the header defines get signatures. */
  lemma SignaturesAreKnownCalls(header: Option<string>, rebuild: bool, cache: Option<string>, files: seq<string>)
    requires (rebuild || cache.None?) && AllMacros(files).Some?
    ensures var c := Compile(header, rebuild, cache, files); forall k :: k in c.signatures ==> k in c.names
  {
    var c := Compile(header, rebuild, cache, files);
    if c.outcome.Compiled? {
      var defs := Defines(header.value, 0).value;
      ProcessKeeps(map[], Tables(map[], map[], defs).1, AllMacros(files).value);
    }
  }

  /** A header whose defines repeat no name and no number compiles into tables that are each other's inverse. */
  lemma CompiledTablesInverse(header: Option<string>, rebuild: bool, cache: Option<string>, files: seq<string>)
    requires (rebuild || cache.None?) ==> AllMacros(files).Some?
    requires header.Some? && Defines(header.value, 0).Some? && Unique(Defines(header.value, 0).value)
    ensures var c := Compile(header, rebuild, cache, files); Inverse(c.numbers, c.names)
  {
    TablesInverse(Defines(header.value, 0).value);
  }
}
