/**
 * The signature cache of `trace-system-calls.cc`: `cacheSignatures` writes
 * one line per system call, in increasing order of names, holding the name,
 * the parameter count and the type words; `loadSignaturesFromCache` reads
 * such a file back with `>>`, word by word. The cache's contents are a
 * string here; reading follows the stream's rules for words and the
 * library's `stoi` for the count.
 */
module TraceCache {
  import opened Wrappers
  import opened Text
  import CNumbers
  import Lex
  import opened TraceSystemCalls

  // Reading words, as `is >> str` does.

  /**
   * A word read from the front of some text: the word, and how many
   * characters the read used up. A failed read (only white space was left)
   * leaves the word empty, as a fresh `string` stays.
   */
  datatype Word = Word(text: string, used: nat, failed: bool)

  /** The end of the run of non-space characters starting at `i`. */
  function WordEnd(s: string, i: nat): (j: nat)
    requires i <= |s|
    ensures i <= j <= |s|
    ensures forall k :: i <= k < j ==> !IsSpace(s[k])
    ensures j < |s| ==> IsSpace(s[j])
    decreases |s| - i
  {
    if i < |s| && !IsSpace(s[i]) then WordEnd(s, i + 1) else i
  }

  /** `is >> str`: white space is skipped, then the longest run of other characters is the word. */
  function ReadWord(s: string): (w: Word)
    ensures w.used <= |s|
    ensures w.failed ==> w.text == [] && w.used == |s|
    ensures !w.failed ==> 0 < |w.text| <= w.used && NoSpace(w.text)
  {
    var i := CNumbers.SkipSpace(s, 0);
    if i == |s| then Word([], |s|, true)
    else
      var j := WordEnd(s, i);
      Word(s[i..j], j, false)
  }

  /**
   * `std::stoi`: the leading integer of the word, as `strtol` reads it in
   * base 10; None where `stoi` throws, because there is no digit or the
   * value does not fit an `int`.
   */
  function Stoi(w: string): (r: Option<int>)
    ensures r.Some? ==> CNumbers.INT_MIN <= r.value <= CNumbers.INT_MAX
    ensures r.Some? ==> r.value == CNumbers.Strtol(w, 10).value
  {
    var p := CNumbers.Strtol(w, 10);
    if p.end == 0 || p.value < CNumbers.INT_MIN || p.value > CNumbers.INT_MAX then None else Some(p.value)
  }

  /** `n` types read one word at a time (none when `n` is not positive), and the characters used. */
  function ReadTypes(s: string, n: int): (r: (Signature, nat))
    ensures |r.0| == if n <= 0 then 0 else n
    ensures r.1 <= |s|
    decreases n
  {
    if n <= 0 then ([], 0)
    else
      var w := ReadWord(s);
      var t := ReadTypes(s[w.used..], n - 1);
      ([ReadType(w.text)] + t.0, w.used + t.1)
  }

  // Loading.

  /** What becomes of the signatures: loaded, or `stoi` threw on a count. */
  datatype Load = Loaded(sigs: map<string, Signature>) | CountInvalid

  /** One pass of the loading loop: the table is done, `stoi` threw, or the loop goes on from the rest. */
  datatype Step = Done | Threw | Next(rest: string, sigs: map<string, Signature>)

  /**
   * One pass of `loadSignaturesFromCache`'s loop: a failed name read ends
   * the loop; otherwise the name's entry is created if absent, its count is
   * read, and that many types are appended to the entry.
   */
  function LoadStep(s: string, sigs: map<string, Signature>): (r: Step)
    ensures r.Next? ==> |r.rest| < |s|
  {
    var w := ReadWord(s);
    if w.failed then Done
    else
      var prior := if w.text in sigs then sigs[w.text] else [];
      var rest := s[w.used..];
      var c := ReadWord(rest);
      match Stoi(c.text)
      case None => Threw
      case Some(n) =>
        var t := ReadTypes(rest[c.used..], n);
        Next(rest[c.used..][t.1..], sigs[w.text := prior + t.0])
  }

  /** `loadSignaturesFromCache` on an open cache holding `s`: the loop's passes until it ends. */
  function LoadFrom(s: string, sigs: map<string, Signature>): (r: Load)
    decreases |s|
  {
    match LoadStep(s, sigs)
    case Done => Loaded(sigs)
    case Threw => CountInvalid
    case Next(rest, next) => LoadFrom(rest, next)
  }

  /** A pass only adds to entries: each keeps its old types, followed by any read for it. */
  lemma StepKeeps(s: string, sigs: map<string, Signature>)
    requires LoadStep(s, sigs).Next?
    ensures forall k :: k in sigs ==> k in LoadStep(s, sigs).sigs && sigs[k] <= LoadStep(s, sigs).sigs[k]
  {
  }

  /** Loading never drops an entry: each ends up with its old types followed by the ones read for it. */
  lemma {:induction false} LoadKeeps(s: string, sigs: map<string, Signature>)
    requires LoadFrom(s, sigs).Loaded?
    ensures forall k :: k in sigs ==> k in LoadFrom(s, sigs).sigs && sigs[k] <= LoadFrom(s, sigs).sigs[k]
    decreases |s|
  {
    if LoadStep(s, sigs).Next? {
      StepKeeps(s, sigs);
      LoadKeeps(LoadStep(s, sigs).rest, LoadStep(s, sigs).sigs);
    }
  }

  /** An empty cache, or one holding only white space, loads nothing. */
  lemma LoadBlank(s: string, sigs: map<string, Signature>)
    requires AllSpace(s)
    ensures LoadFrom(s, sigs) == Loaded(sigs)
  {
    assert ReadWord(s).failed;
  }

  /** A line whose count is not a number makes `stoi` throw. */
  lemma BadCount(name: string, count: string, rest: string, sigs: map<string, Signature>)
    requires name != [] && NoSpace(name) && Stoi(count).None? && count != [] && NoSpace(count)
    ensures LoadFrom(name + " " + count + "\n" + rest, sigs) == CountInvalid
  {
    var s := name + " " + count + "\n" + rest;
    var after := " " + count + ("\n" + rest);
    assert s == [] + name + after;
    ReadWordAt([], name, after);
    assert s[|name|..] == after;
    ReadWordAt(" ", count, "\n" + rest);
    StepThrows(s, sigs, |name|, count);
  }

  /** A pass whose count `stoi` cannot read throws. */
  lemma StepThrows(s: string, sigs: map<string, Signature>, u1: nat, count: string)
    requires !ReadWord(s).failed && ReadWord(s).used == u1 && u1 <= |s|
    requires ReadWord(s[u1..]).text == count && Stoi(count).None?
    ensures LoadFrom(s, sigs) == CountInvalid
  {
    assert LoadStep(s, sigs) == Threw;
  }

  // Writing.

  /** Each word after a space. */
  function Spaced(ws: seq<string>): (r: string)
    ensures ws == [] ==> r == []
  {
    if ws == [] then [] else " " + ws[0] + Spaced(ws[1..])
  }

  /** The word of each type. */
  function Names(ts: Signature): (r: seq<string>)
    ensures |r| == |ts| && forall i :: 0 <= i < |ts| ==> r[i] == TypeName(ts[i])
  {
    if ts == [] then [] else [TypeName(ts[0])] + Names(ts[1..])
  }

  /** ` t1 t2 … tn`: each type's word after a space. */
  function TypeWords(ts: Signature): (r: string)
    ensures ts == [] ==> r == []
  {
    Spaced(Names(ts))
  }

  /** The line `cacheSignatures` writes for one system call: `name count t1 … tn`, then a newline. */
  function EntryLine(name: string, ts: Signature): string {
    name + " " + NatToString(|ts|) + TypeWords(ts) + "\n"
  }

  /** The lines for the given names, in that order. */
  function CacheLines(sigs: map<string, Signature>, keys: seq<string>): string
    requires forall i :: 0 <= i < |keys| ==> keys[i] in sigs
  {
    if keys == [] then [] else EntryLine(keys[0], sigs[keys[0]]) + CacheLines(sigs, keys[1..])
  }

  /** `cacheSignatures`: one line per system call, names in the increasing order a `std::map` iterates in. */
  ghost function CacheText(sigs: map<string, Signature>): string {
    CacheLines(sigs, Lex.SortedKeys(sigs.Keys))
  }

  /** The names a cache can hold and read back: each a single word. */
  predicate Cacheable(sigs: map<string, Signature>) {
    forall k :: k in sigs ==> k != [] && NoSpace(k) && |sigs[k]| <= CNumbers.INT_MAX
  }

  /**
   * Loading what `cacheSignatures` wrote into an empty table gives back the
   * signatures written, when every name is one word and every count fits
   * an `int`.
   */
  lemma CacheRoundTrip(sigs: map<string, Signature>)
    requires Cacheable(sigs)
    ensures LoadFrom(CacheText(sigs), map[]) == Loaded(sigs)
  {
    var keys := Lex.SortedKeys(sigs.Keys);
    SortedKeysDistinct(sigs.Keys);
    assert [] + CacheLines(sigs, keys) == CacheLines(sigs, keys);
    LoadLines([], sigs, keys, map[]);
    FillEmpty(sigs, keys);
  }

  /** The keys of a map in order hold each key once. */
  lemma SortedKeysDistinct(keys: set<string>)
    ensures Distinct(Lex.SortedKeys(keys))
  {
    var ks := Lex.SortedKeys(keys);
    Lex.SortedKeysSorted(keys);
    forall i, j | 0 <= i < j < |ks| ensures ks[i] != ks[j] {
      if ks[i] == ks[j] {
        Lex.LessIrreflexive(ks[i]);
      }
    }
  }

  predicate Distinct(keys: seq<string>) {
    forall i, j :: 0 <= i < j < |keys| ==> keys[i] != keys[j]
  }

  /** None of the names is in the table yet. */
  predicate Fresh(keys: seq<string>, acc: map<string, Signature>) {
    forall i :: 0 <= i < |keys| ==> keys[i] !in acc
  }

  /** The entries of `sigs` under `keys` written over `acc`, one after another. */
  function Fill(acc: map<string, Signature>, sigs: map<string, Signature>, keys: seq<string>): (r: map<string, Signature>)
    requires forall i :: 0 <= i < |keys| ==> keys[i] in sigs
    decreases |keys|
  {
    if keys == [] then acc else Fill(acc[keys[0] := sigs[keys[0]]], sigs, keys[1..])
  }

  lemma {:induction false} FillAll(acc: map<string, Signature>, sigs: map<string, Signature>, keys: seq<string>)
    requires forall i :: 0 <= i < |keys| ==> keys[i] in sigs
    ensures forall k :: k in Fill(acc, sigs, keys) <==> k in acc || k in keys
    ensures forall k :: k in keys ==> Fill(acc, sigs, keys)[k] == sigs[k]
    ensures forall k :: k in acc && k !in keys ==> Fill(acc, sigs, keys)[k] == acc[k]
    decreases |keys|
  {
    if keys != [] {
      FillAll(acc[keys[0] := sigs[keys[0]]], sigs, keys[1..]);
      assert forall k :: k in keys <==> k == keys[0] || k in keys[1..];
    }
  }

  /** Filling an empty table with every key of `sigs` gives `sigs`. */
  lemma FillEmpty(sigs: map<string, Signature>, keys: seq<string>)
    requires forall k :: k in sigs.Keys <==> k in keys
    ensures Fill(map[], sigs, keys) == sigs
  {
    FillAll(map[], sigs, keys);
  }

  /** Lines written for distinct names, none already loaded, load as those entries. */
  lemma {:induction false} LoadLines(sp: string, sigs: map<string, Signature>, keys: seq<string>, acc: map<string, Signature>)
    requires AllSpace(sp) && Cacheable(sigs)
    requires forall i :: 0 <= i < |keys| ==> keys[i] in sigs
    requires Distinct(keys) && Fresh(keys, acc)
    ensures LoadFrom(sp + CacheLines(sigs, keys), acc) == Loaded(Fill(acc, sigs, keys))
    decreases |keys|
  {
    if keys == [] {
      assert sp + [] == sp;
      LoadBlank(sp, acc);
    } else {
      var k := keys[0];
      var rest := CacheLines(sigs, keys[1..]);
      assert sp + CacheLines(sigs, keys) == sp + EntryLine(k, sigs[k]) + rest;
      LoadEntry(sp, k, sigs[k], rest, acc);
      TailFresh(keys, acc, sigs[k]);
      LoadLines("\n", sigs, keys[1..], acc[k := sigs[k]]);
    }
  }

  /** After the first name is loaded, the others are still distinct and not yet loaded. */
  lemma TailFresh(keys: seq<string>, acc: map<string, Signature>, v: Signature)
    requires keys != [] && Distinct(keys) && Fresh(keys, acc)
    ensures Distinct(keys[1..]) && Fresh(keys[1..], acc[keys[0] := v])
  {
    forall i | 0 <= i < |keys| - 1 ensures keys[1..][i] !in acc[keys[0] := v] {
      assert keys[1..][i] == keys[i + 1];
    }
    forall i, j | 0 <= i < j < |keys| - 1 ensures keys[1..][i] != keys[1..][j] {
      assert keys[1..][i] == keys[i + 1] && keys[1..][j] == keys[j + 1];
    }
  }

  /** One line of the cache, after some white space, adds its entry; the newline ending it is left. */
  lemma LoadEntry(sp: string, name: string, ts: Signature, rest: string, acc: map<string, Signature>)
    requires AllSpace(sp) && name != [] && NoSpace(name) && |ts| <= CNumbers.INT_MAX && name !in acc
    ensures LoadStep(sp + EntryLine(name, ts) + rest, acc) == Next("\n" + rest, acc[name := ts])
  {
    var s := sp + EntryLine(name, ts) + rest;
    var count := NatToString(|ts|);
    var u1, u2, u3 := |sp| + |name|, 1 + |count|, |TypeWords(ts)|;
    EntryFacts(sp, name, ts, rest, s, u1, count, u2, u3);
    LoadStepIs(s, acc, name, u1, count, u2, |ts|, ts, u3);
    assert [] + ts == ts;
  }

  /** Reading a cache line after white space finds its name, its count and its types, then the newline. */
  lemma EntryFacts(sp: string, name: string, ts: Signature, rest: string, s: string, u1: nat, count: string, u2: nat, u3: nat)
    requires AllSpace(sp) && name != [] && NoSpace(name) && |ts| <= CNumbers.INT_MAX
    requires s == sp + EntryLine(name, ts) + rest && count == NatToString(|ts|)
    requires u1 == |sp| + |name| && u2 == 1 + |count| && u3 == |TypeWords(ts)|
    ensures ReadWord(s) == Word(name, u1, false) && u1 <= |s|
    ensures ReadWord(s[u1..]) == Word(count, u2, false) && u2 <= |s| - u1
    ensures Stoi(count) == Some(|ts|)
    ensures ReadTypes(s[u1..][u2..], |ts|) == (ts, u3) && u3 <= |s| - u1 - u2
    ensures s[u1..][u2..][u3..] == "\n" + rest
  {
    var nl := "\n" + rest;
    var tail := TypeWords(ts) + nl;
    EntrySplit(sp, name, ts, rest);
    ReadWordAt(sp, name, " " + count + tail);
    assert s[u1..] == " " + count + tail;
    NatToStringWord(|ts|);
    SpacedLead(Names(ts), nl);
    ReadWordAt(" ", count, tail);
    CountReadBack(|ts|);
    assert s[u1..][u2..] == tail;
    ReadTypesOf(ts, nl);
    assert tail[u3..] == nl;
  }

  /** A cache line is its name, then a space and the count, then the type words and the newline. */
  lemma EntrySplit(sp: string, name: string, ts: Signature, rest: string)
    ensures sp + EntryLine(name, ts) + rest == sp + name + (" " + NatToString(|ts|) + (TypeWords(ts) + ("\n" + rest)))
  {
    RegroupLine(sp, name, " ", NatToString(|ts|), TypeWords(ts), "\n", rest);
  }

  /** Regrouping a line of five parts between what precedes and what follows it. */
  lemma RegroupLine(a: string, b: string, c: string, d: string, e: string, f: string, g: string)
    ensures a + (b + c + d + e + f) + g == a + b + (c + d + (e + (f + g)))
  {
  }

  /** A pass that reads a name, a count and that many types. */
  lemma LoadStepIs(s: string, sigs: map<string, Signature>, name: string, u1: nat, count: string, u2: nat, n: int, ts: Signature, u3: nat)
    requires ReadWord(s) == Word(name, u1, false) && u1 <= |s|
    requires ReadWord(s[u1..]) == Word(count, u2, false) && u2 <= |s| - u1
    requires Stoi(count) == Some(n)
    requires ReadTypes(s[u1..][u2..], n) == (ts, u3) && u3 <= |s| - u1 - u2
    ensures LoadStep(s, sigs) == Next(s[u1..][u2..][u3..], sigs[name := (if name in sigs then sigs[name] else []) + ts])
  {
  }

  /** The count written reads back as the size. */
  lemma CountReadBack(n: nat)
    requires n <= CNumbers.INT_MAX
    ensures Stoi(NatToString(n)) == Some(n)
  {
    CNumbers.StrtolDecimal(n, 10);
  }

  /** The decimal text of a number is one word. */
  lemma NatToStringWord(n: nat)
    ensures NatToString(n) != [] && NoSpace(NatToString(n))
  {
    var s := NatToString(n);
    assert AllDigits(s);
    assert forall i :: 0 <= i < |s| ==> IsDigit(s[i]) && !IsSpace(s[i]);
  }

  /** What follows a word in a cache line starts with white space. */
  lemma SpacedLead(ws: seq<string>, rest: string)
    requires rest == [] || IsSpace(rest[0])
    ensures Spaced(ws) + rest == [] || IsSpace((Spaced(ws) + rest)[0])
  {
    if ws == [] {
      assert Spaced(ws) + rest == rest;
    } else {
      assert (Spaced(ws) + rest)[0] == ' ';
    }
  }

  /** Reading after white space finds the word that follows. */
  lemma ReadWordAt(sp: string, w: string, t: string)
    requires AllSpace(sp) && w != [] && NoSpace(w) && (t == [] || IsSpace(t[0]))
    ensures ReadWord(sp + w + t) == Word(w, |sp| + |w|, false)
  {
    var s := sp + w + t;
    assert forall k :: 0 <= k < |sp| ==> s[k] == sp[k];
    assert forall k :: |sp| <= k < |sp| + |w| ==> s[k] == w[k - |sp|];
    CNumbers.SkipSpaceTo(s, 0, |sp|);
    WordEndTo(s, |sp|, |sp| + |w|);
    assert s[|sp|..|sp| + |w|] == w;
  }

  lemma {:induction false} WordEndTo(s: string, i: nat, j: nat)
    requires i <= j <= |s| && (j == |s| || IsSpace(s[j]))
    requires forall k :: i <= k < j ==> !IsSpace(s[k])
    ensures WordEnd(s, i) == j
    decreases j - i
  {
    if i < j { WordEndTo(s, i + 1, j); }
  }

  /** The type words written read back as the types, using up exactly what was written. */
  lemma ReadTypesOf(ts: Signature, rest: string)
    requires rest == [] || IsSpace(rest[0])
    ensures ReadTypes(TypeWords(ts) + rest, |ts|) == (ts, |TypeWords(ts)|)
  {
    ReadSpaced(Names(ts), rest);
    ReadAllNames(ts);
  }

  /** The type each word reads as. */
  function ReadAll(ws: seq<string>): (r: Signature)
    ensures |r| == |ws|
  {
    if ws == [] then [] else [ReadType(ws[0])] + ReadAll(ws[1..])
  }

  lemma {:induction false} ReadAllNames(ts: Signature)
    ensures ReadAll(Names(ts)) == ts
  {
    if ts != [] {
      assert Names(ts)[1..] == Names(ts[1..]);
      ReadAllNames(ts[1..]);
      TypeRoundTrip(ts[0]);
    }
  }

  /** Reading words from `s` finds the words `ws`, one after another, and leaves `rest`. */
  predicate WordsThen(s: string, ws: seq<string>, rest: string)
    decreases ws
  {
    if ws == [] then s == rest
    else
      var w := ReadWord(s);
      !w.failed && w.text == ws[0] && WordsThen(s[w.used..], ws[1..], rest)
  }

  /** Reading `n` types where the `n` words `ws` lie reads each word's type and stops before `rest`. */
  lemma {:induction false} TypesOfWords(s: string, ws: seq<string>, rest: string, n: int)
    requires WordsThen(s, ws, rest) && n == |ws|
    ensures |rest| <= |s|
    ensures ReadTypes(s, n) == (ReadAll(ws), |s| - |rest|)
    decreases ws
  {
    if ws != [] {
      var w := ReadWord(s);
      TypesOfWords(s[w.used..], ws[1..], rest, n - 1);
    }
  }

  /** After a written space-first word, reading finds the word and leaves the text after it. */
  lemma FirstSpacedWord(ws: seq<string>, rest: string)
    requires ws != [] && ws[0] != [] && NoSpace(ws[0])
    requires Spaced(ws[1..]) + rest == [] || IsSpace((Spaced(ws[1..]) + rest)[0])
    ensures ReadWord(Spaced(ws) + rest) == Word(ws[0], 1 + |ws[0]|, false)
    ensures (Spaced(ws) + rest)[1 + |ws[0]|..] == Spaced(ws[1..]) + rest
  {
    var more := Spaced(ws[1..]) + rest;
    assert Spaced(ws) + rest == " " + ws[0] + more;
    ReadWordAt(" ", ws[0], more);
  }

  /** The words written after spaces are the words reading finds. */
  lemma {:induction false} SpacedWords(ws: seq<string>, rest: string)
    requires forall i :: 0 <= i < |ws| ==> ws[i] != [] && NoSpace(ws[i])
    requires rest == [] || IsSpace(rest[0])
    ensures WordsThen(Spaced(ws) + rest, ws, rest)
  {
    if ws == [] {
      assert Spaced(ws) + rest == rest;
    } else {
      SpacedLead(ws[1..], rest);
      FirstSpacedWord(ws, rest);
      SpacedWords(ws[1..], rest);
    }
  }

  /** Words after spaces read back one after another, using up exactly what was written. */
  lemma ReadSpaced(ws: seq<string>, rest: string)
    requires forall i :: 0 <= i < |ws| ==> ws[i] != [] && NoSpace(ws[i])
    requires rest == [] || IsSpace(rest[0])
    ensures ReadTypes(Spaced(ws) + rest, |ws|) == (ReadAll(ws), |Spaced(ws)|)
  {
    SpacedWords(ws, rest);
    TypesOfWords(Spaced(ws) + rest, ws, rest, |ws|);
  }

}
