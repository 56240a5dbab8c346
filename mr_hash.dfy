/**
 * `mr-hash.h`: the hash of a text file the MapReduce tools use to compare
 * outputs, the sum with 64-bit wrap-around of the string hash of every line
 * with its newline put back. The string hash, `std::hash<std::string>`, is a
 * parameter.
 */
module MrHash {
  import opened Text

  /** `size_t` arithmetic wraps modulo 2^64. */
  const SIZE_T_MODULUS: nat := 0x1_0000_0000_0000_0000

  /** The lines `getline` reads from `text` one after another until it fails at the end. */
  function FileLines(text: string): (r: seq<string>)
    ensures text == [] <==> r == []
    decreases |text|
  {
    if text == [] then []
    else
      var l := GetLine(text, 0);
      [l.text] + FileLines(text[l.next..])
  }

  /** The lines with a newline after each, one after another. */
  function JoinLines(lines: seq<string>): string {
    if lines == [] then [] else lines[0] + "\n" + JoinLines(lines[1..])
  }

  /** The string hashes of the lines, each with its newline, added without wrap-around. */
  function SumHashes(hasher: string -> nat, lines: seq<string>): nat {
    if lines == [] then 0 else hasher(lines[0] + "\n") + SumHashes(hasher, lines[1..])
  }

  /** What `hash<ifstream>` returns for a file holding `text`. */
  function FileHash(hasher: string -> nat, text: string): (h: nat)
    ensures h < SIZE_T_MODULUS
  {
    Wrap(SumHashes(hasher, FileLines(text)))
  }

  /**
   * `operator()`: the running hash starts at 0; each line read gets its
   * newline back and its hash added, modulo 2^64; the first failed read
   * ends the loop.
   */
  method HashFile(hasher: string -> nat, text: string) returns (runningHash: nat)
    ensures runningHash == FileHash(hasher, text)
  {
    runningHash := 0;
    var rest := text;
    ghost var consumed: seq<string> := [];
    while true
      invariant consumed + FileLines(rest) == FileLines(text)
      invariant runningHash == Wrap(SumHashes(hasher, consumed))
      decreases |rest|
    {
      var l := GetLine(rest, 0);
      if l.failed {
        assert consumed == FileLines(text);
        return;
      }
      runningHash := AddLine(hasher, consumed, l.text, runningHash);
      NextLine(rest, consumed);
      consumed := consumed + [l.text];
      rest := rest[l.next..];
    }
  }

  /** One turn of the loop: the line just read moves from the lines to come to the lines read. */
  lemma NextLine(rest: string, consumed: seq<string>)
    requires rest != []
    ensures consumed + FileLines(rest) == (consumed + [GetLine(rest, 0).text]) + FileLines(rest[GetLine(rest, 0).next..])
  {
  }

  /** One turn of the loop: the line just read gets its newline back and its hash added to the running hash. */
  method AddLine(hasher: string -> nat, ghost consumed: seq<string>, line: string, runningHash: nat) returns (r: nat)
    requires runningHash == Wrap(SumHashes(hasher, consumed))
    ensures r == Wrap(SumHashes(hasher, consumed + [line]))
  {
    var h := hasher(line + "\n");
    SumHashesAppend(hasher, consumed, [line]);
    ModAdd(SumHashes(hasher, consumed), h);
    r := Wrap(runningHash + h);
  }

  /** An unsigned 64-bit value: the sum reduced modulo 2^64. */
  function Wrap(x: nat): (r: nat)
    ensures r < SIZE_T_MODULUS
  {
    x % SIZE_T_MODULUS
  }

  /** Reducing a partial sum first does not change the sum modulo 2^64. */
  lemma ModAdd(total: nat, x: nat)
    ensures Wrap(Wrap(total) + x) == Wrap(total + x)
  {
    var m := SIZE_T_MODULUS;
    var q := total / m;
    assert total == q * m + total % m;
    assert total + x == (total % m + x) + q * m;
  }

  /** An empty file hashes to 0. */
  lemma EmptyFileHash(hasher: string -> nat)
    ensures FileHash(hasher, []) == 0
  {
  }

  // What `getline` takes from the front of a text.

  /** The first line of a text: up to its first newline, which is consumed, or all of it. */
  lemma FirstLine(text: string)
    requires text != []
    ensures var l := GetLine(text, 0);
      '\n' !in l.text && l.text == text[..|l.text|] &&
      ((l.next == |l.text| + 1 && text[|l.text|] == '\n') || l.next == |l.text| == |text|)
  {
    GetLineDelimText(text, 0, '\n');
  }

  /** A text that ends in a newline gives the same first line when more text follows. */
  lemma FirstLineOfPrefix(a: string, b: string)
    requires a != [] && a[|a| - 1] == '\n'
    ensures GetLine(a + b, 0) == GetLine(a, 0)
    ensures GetLine(a, 0).next <= |a|
  {
    var l := GetLine(a, 0);
    FirstLine(a);
    assert |l.text| < |a| by {
      assert a[|a| - 1] == '\n' && '\n' !in l.text && l.text == a[..|l.text|];
    }
    assert (a + b)[..|l.text|] == l.text;
    assert (a + b)[|l.text|] == '\n';
    GetLineSlice(a + b, 0, l.text);
  }

  /** Reading a text whose first part ends in a newline reads that part's lines, then the rest's. */
  lemma {:induction false} FileLinesAppend(a: string, b: string)
    requires a == [] || a[|a| - 1] == '\n'
    ensures FileLines(a + b) == FileLines(a) + FileLines(b)
    decreases |a|
  {
    if a == [] {
      assert a + b == b;
    } else {
      var l := ReadFirstOfAppend(a, b);
      FileLinesAppend(a[l.next..], b);
      LinesAssoc([l.text], FileLines(a[l.next..]), FileLines(b));
    }
  }

  /** Concatenation of line sequences regroups freely. */
  lemma LinesAssoc(x: seq<string>, y: seq<string>, z: seq<string>)
    ensures x + (y + z) == (x + y) + z
  {
  }

  /** The first line read from `a + b` is that of `a`, when `a` ends in a newline. */
  lemma ReadFirstOfAppend(a: string, b: string) returns (l: Line)
    requires a != [] && a[|a| - 1] == '\n'
    ensures 0 < l.next <= |a|
    ensures var rest := a[l.next..]; rest == [] || rest[|rest| - 1] == '\n'
    ensures FileLines(a) == [l.text] + FileLines(a[l.next..])
    ensures FileLines(a + b) == [l.text] + FileLines(a[l.next..] + b)
  {
    l := GetLine(a, 0);
    FirstLineOfPrefix(a, b);
    assert (a + b)[l.next..] == a[l.next..] + b;
  }

  /** A line with no newline, followed by one, reads as that single line. */
  lemma OneLine(line: string)
    requires '\n' !in line
    ensures FileLines(line + "\n") == [line]
  {
    var t := line + "\n";
    assert t[..|line|] == line;
    GetLineSlice(t, 0, line);
    assert t[|line| + 1..] == [];
  }

  /** A last line without its newline reads as if the newline were there. */
  lemma {:induction false} MissingFinalNewline(text: string)
    requires text != [] && text[|text| - 1] != '\n'
    ensures FileLines(text + "\n") == FileLines(text)
    decreases |text|
  {
    var t := text + "\n";
    var l := GetLine(text, 0);
    FirstLine(text);
    if l.next == |l.text| + 1 {
      assert t[..|l.text|] == l.text && t[|l.text|] == '\n';
      GetLineSlice(t, 0, l.text);
      assert t[l.next..] == text[l.next..] + "\n";
      MissingFinalNewline(text[l.next..]);
    } else {
      assert l.text == text;
      GetLineSlice(t, 0, text);
      assert t[|text| + 1..] == [] && text[|text|..] == [];
    }
  }

  /** The lines read, each with its newline back, give the text itself, with a newline added if the last was missing. */
  lemma {:induction false} JoinFileLines(text: string)
    ensures forall i :: 0 <= i < |FileLines(text)| ==> '\n' !in FileLines(text)[i]
    ensures text == [] || text[|text| - 1] == '\n' ==> JoinLines(FileLines(text)) == text
    ensures text != [] && text[|text| - 1] != '\n' ==> JoinLines(FileLines(text)) == text + "\n"
    decreases |text|
  {
    if text != [] {
      var l := GetLine(text, 0);
      FirstLine(text);
      var rest := text[l.next..];
      JoinFileLines(rest);
      assert FileLines(text)[1..] == FileLines(rest);
      if l.next == |l.text| + 1 {
        assert text == l.text + "\n" + rest;
        if rest != [] {
          assert rest[|rest| - 1] == text[|text| - 1];
        }
      } else {
        assert rest == [] && l.text == text;
      }
    }
  }

  // Sums.

  /** The sum over two runs of lines is the sum of the two sums. */
  lemma {:induction false} SumHashesAppend(hasher: string -> nat, a: seq<string>, b: seq<string>)
    ensures SumHashes(hasher, a + b) == SumHashes(hasher, a) + SumHashes(hasher, b)
  {
    if a == [] {
      assert a + b == b;
    } else {
      assert (a + b)[1..] == a[1..] + b;
      SumHashesAppend(hasher, a[1..], b);
    }
  }

  /** The sum over a sequence of lines is the sum over its first `k` plus the sum over the others. */
  lemma {:induction false} SumHashesSplit(hasher: string -> nat, s: seq<string>, k: nat)
    requires k <= |s|
    ensures SumHashes(hasher, s) == SumHashes(hasher, s[..k]) + SumHashes(hasher, s[k..])
  {
    if k > 0 {
      SumHashesSplit(hasher, s[1..], k - 1);
      assert s[1..][..k - 1] == s[..k][1..];
      assert s[1..][k - 1..] == s[k..];
    }
  }

  /** Taking out line `i` takes out its hash. */
  lemma SumHashesRemove(hasher: string -> nat, b: seq<string>, i: nat)
    requires i < |b|
    ensures SumHashes(hasher, b) == hasher(b[i] + "\n") + SumHashes(hasher, b[..i] + b[i + 1..])
  {
    SumHashesSplit(hasher, b, i);
    var t := b[i..];
    assert t[0] == b[i] && t[1..] == b[i + 1..];
    SumHashesAppend(hasher, b[..i], b[i + 1..]);
  }

  /** Taking out element `i` takes out one occurrence of it. */
  lemma MultisetRemove(b: seq<string>, i: nat)
    requires i < |b|
    ensures multiset(b[..i] + b[i + 1..]) == multiset(b) - multiset{b[i]}
  {
    assert b == b[..i] + [b[i]] + b[i + 1..];
  }

  /** The sum depends only on which lines there are, as many times as they occur, not on their order. */
  lemma {:induction false} SumHashesPermutation(hasher: string -> nat, a: seq<string>, b: seq<string>)
    requires multiset(a) == multiset(b)
    ensures SumHashes(hasher, a) == SumHashes(hasher, b)
    decreases |a|
  {
    if a != [] {
      var rest := RemoveFirstOf(hasher, a, b);
      SumHashesPermutation(hasher, a[1..], rest);
    } else {
      assert |b| == |multiset(b)|;
    }
  }

  /** The lines of `b` with one occurrence of `a[0]` taken out: the rest of `a` up to order, and its hash taken out of the sum. */
  lemma RemoveFirstOf(hasher: string -> nat, a: seq<string>, b: seq<string>) returns (rest: seq<string>)
    requires a != [] && multiset(a) == multiset(b)
    ensures multiset(a[1..]) == multiset(rest)
    ensures SumHashes(hasher, b) == hasher(a[0] + "\n") + SumHashes(hasher, rest)
  {
    assert a[0] in multiset(b);
    var i :| 0 <= i < |b| && b[i] == a[0];
    SumHashesRemove(hasher, b, i);
    MultisetRemove(b, i);
    MultisetRemove(a, 0);
    assert a[..0] + a[1..] == a[1..];
    rest := b[..i] + b[i + 1..];
  }

  /** Two files whose lines are the same up to order hash alike. */
  lemma HashIgnoresLineOrder(hasher: string -> nat, t1: string, t2: string)
    requires multiset(FileLines(t1)) == multiset(FileLines(t2))
    ensures FileHash(hasher, t1) == FileHash(hasher, t2)
  {
    SumHashesPermutation(hasher, FileLines(t1), FileLines(t2));
  }

  /** Appending a line to a file adds that line's hash, newline included, modulo 2^64. */
  lemma HashAppendLine(hasher: string -> nat, text: string, line: string)
    requires text == [] || text[|text| - 1] == '\n'
    requires '\n' !in line
    ensures FileHash(hasher, text + line + "\n") == (FileHash(hasher, text) + hasher(line + "\n")) % SIZE_T_MODULUS
  {
    assert text + line + "\n" == text + (line + "\n");
    FileLinesAppend(text, line + "\n");
    OneLine(line);
    SumHashesAppend(hasher, FileLines(text), [line]);
    var s := SumHashes(hasher, FileLines(text));
    ModAdd(s, hasher(line + "\n"));
    assert SumHashes(hasher, [line]) == hasher(line + "\n");
  }

  /** A missing newline at the end of the file does not change its hash. */
  lemma HashIgnoresFinalNewline(hasher: string -> nat, text: string)
    requires text != [] && text[|text| - 1] != '\n'
    ensures FileHash(hasher, text + "\n") == FileHash(hasher, text)
  {
    MissingFinalNewline(text);
  }
}
