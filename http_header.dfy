/**
 * The proxy's header block: a map from case-folded names to values, filled
 * from the lines of a message (header fields and continuation lines, as in
 * section 3.2 of RFC 7230 with the obsolete line folding of section 3.2.4
 * restricted to lines that start with a space), queried by name, and written
 * back out as one `name: value` line per entry in name order.
 */
module Header {
  import opened Text
  import opened Lex
  import opened CNumbers

  type Fields = map<string, string>

  /** The name and value of a field line: split at the first ':', both trimmed; no ':' gives an empty value. */
  function SplitField(line: string): (r: (string, string))
  {
    var k := IndexOf(line, ':');
    (Trim(line[..k]), if k < |line| then Trim(line[k + 1..]) else "")
  }

  /** `extendHeader`: append a space and `value` to the value stored under `name` (empty if absent). */
  function Extend(m: Fields, name: string, value: string): (r: Fields)
    ensures r.Keys == m.Keys + {ToLower(name)}
    ensures r[ToLower(name)] == (if ToLower(name) in m then m[ToLower(name)] else "") + " " + value
    ensures forall k :: k in m && k != ToLower(name) ==> r[k] == m[k]
  {
    var key := ToLower(name);
    m[key := (if key in m then m[key] else "") + " " + value]
  }

  /** The work done for one line: the new fields, the new current name, and whether the block has ended. */
  type LineStep = (Fields, string, string) -> (Fields, string, bool)

  /**
   * What one line read by `getline` does to the fields and the current name:
   * once right-trimmed, an empty line ends the block, a line starting with a
   * space extends the current field, and any other line is a new field.
   */
  function IngestLine(m: Fields, name: string, raw: string): (r: (Fields, string, bool))
  {
    var line := RTrim(raw);
    if line == [] then (m, name, true)
    else if line[0] == ' ' then (Extend(m, name, Trim(line)), name, false)
    else
      var f := SplitField(line);
      (m[ToLower(f.0) := f.1], f.0, false)
  }

  /**
   * The `ingestHeader` loop on a stream holding `text` read from `pos`, with
   * `name` the name of the last field read and `step` the work for one line:
   * the fields found and the position after the line that ended the block.
   * A read at the end of the stream yields an empty line, which ends it.
   */
  function IngestWith(step: LineStep, m: Fields, name: string, text: string, pos: nat): (r: (Fields, nat))
    requires pos <= |text|
    ensures pos <= r.1 <= |text|
    decreases |text| - pos
  {
    var l := GetLine(text, pos);
    var s := step(m, name, l.text);
    if l.failed || s.2 then (m, l.next) else IngestWith(step, s.0, s.1, text, l.next)
  }

  /** `ingestHeader` from `pos`. */
  function IngestFrom(m: Fields, name: string, text: string, pos: nat): (r: (Fields, nat))
    requires pos <= |text|
    ensures pos <= r.1 <= |text|
  {
    IngestWith(IngestLine, m, name, text, pos)
  }

  /** `getValueAsNumber` on a stored value: base-0 `strtol` of the whole text, 0 when it is empty or not all consumed. */
  function ValueAsNumber(value: string): (n: int)
    ensures LONG_MIN <= n <= LONG_MAX
    ensures value == "" ==> n == 0
    ensures value != "" && Strtol(CStr(value), 0).end == |CStr(value)| ==> n == Strtol(CStr(value), 0).value
    ensures Strtol(CStr(value), 0).end != |CStr(value)| ==> n == 0
  {
    if value == "" then 0
    else
      var c := CStr(value);
      var p := Strtol(c, 0);
      if p.end == |c| then p.value else 0
  }

  /** One serialised field line, up to the final '\n'. */
  function FieldText(k: string, v: string): string {
    k + ": " + v + "\r"
  }

  /** The entries of `m` under the names `ks`, in that order. */
  function Entries(m: Fields, ks: seq<string>): (es: seq<(string, string)>)
    requires forall k :: k in ks ==> k in m
    ensures |es| == |ks|
    ensures forall i :: 0 <= i < |ks| ==> es[i] == (ks[i], m[ks[i]])
  {
    seq(|ks|, i requires 0 <= i < |ks| => (ks[i], m[ks[i]]))
  }

  /** A `name: value` line, ended by CRLF, per entry. */
  function SerializeEntries(es: seq<(string, string)>): string
  {
    if es == [] then "" else FieldText(es[0].0, es[0].1) + "\n" + SerializeEntries(es[1..])
  }

  /** `operator<<`: one `name: value` line per entry, names in increasing order, no blank line. */
  ghost function Serialize(m: Fields): (s: string)
    ensures m == map[] ==> s == ""
  {
    SerializeEntries(Entries(m, SortedKeys(m.Keys)))
  }

  class HTTPHeader {
    var headers: Fields

    constructor ()
      ensures headers == map[]
    {
      headers := map[];
    }

    /** `addHeader(name, value)` for a string value: stores `value` under the case-folded name. */
    method AddHeader(name: string, value: string)
      modifies this
      ensures headers == old(headers)[ToLower(name) := value]
    {
      headers := headers[ToLower(name) := value];
    }

    /** `addHeader(name, value)` for an `int` value: stores its decimal text. */
    method AddHeaderInt(name: string, value: int)
      requires INT_MIN <= value <= INT_MAX
      modifies this
      ensures headers == old(headers)[ToLower(name) := IntToString(value)]
    {
      AddHeader(name, IntToString(value));
    }

    method RemoveHeader(name: string)
      modifies this
      ensures headers == old(headers) - {ToLower(name)}
    {
      headers := headers - {ToLower(name)};
    }

    method ExtendHeader(name: string, value: string)
      modifies this
      ensures headers == Extend(old(headers), name, value)
    {
      var key := ToLower(name);
      var old_value := if key in headers then headers[key] else "";
      headers := headers[key := old_value + " " + value];
    }

    function ContainsName(name: string): (b: bool)
      reads this
      ensures b <==> ToLower(name) in headers
    {
      ToLower(name) in headers
    }

    /** The stored value, or the empty string when the name is absent. */
    function GetValueAsString(name: string): (v: string)
      reads this
      ensures ToLower(name) in headers ==> v == headers[ToLower(name)]
      ensures ToLower(name) !in headers ==> v == ""
    {
      var key := ToLower(name);
      if key in headers then headers[key] else ""
    }

    function GetValueAsNumber(name: string): (n: int)
      reads this
      ensures ToLower(name) !in headers ==> n == 0
      ensures ToLower(name) in headers ==> n == ValueAsNumber(headers[ToLower(name)])
    {
      ValueAsNumber(GetValueAsString(name))
    }

    /**
     * `ingestHeader`: reads lines from `pos` up to the first one that is empty
     * once its trailing white space is removed, adding each field and extending
     * the current one with continuation lines; returns the position after it.
     */
    method IngestHeader(text: string, pos: nat) returns (next: nat)
      requires pos <= |text|
      modifies this
      ensures (headers, next) == IngestFrom(old(headers), "", text, pos)
    {
      var name := "";
      var p := pos;
      while true
        invariant p <= |text|
        invariant IngestFrom(headers, name, text, p) == IngestFrom(old(headers), "", text, pos)
        decreases |text| - p
      {
        var l := GetLine(text, p);
        var line := RTrim(l.text);
        if line == [] {
          next := l.next;
          return;
        }
        if line[0] == ' ' {
          ExtendHeader(name, Trim(line));
        } else {
          var k := IndexOf(line, ':');
          name := Trim(line[..k]);
          var value := if k < |line| then Trim(line[k + 1..]) else "";
          AddHeader(name, value);
        }
        p := l.next;
      }
    }
  }

  // The value read back from a number stored with `addHeader(name, int)`.

  /** An integer stored as decimal text reads back as that integer. */
  lemma ValueAsNumberOfInt(v: int)
    requires INT_MIN <= v <= INT_MAX
    ensures ValueAsNumber(IntToString(v)) == v
  {
    NoNulInDecimal(v);
    StrtolDecimal(v, 0);
  }

  /** Base 0: "0x1A" is 26, "010" is 8, and trailing text makes the value 0. */
  lemma ValueAsNumberExamples()
    ensures ValueAsNumber("0x1A") == 26
    ensures ValueAsNumber("010") == 8
  {
    assert CStr("0x1A") == "0x1A" by { assert IndexOf("0x1A", '\0') == 4; }
    assert CStr("010") == "010" by { assert IndexOf("010", '\0') == 3; }
    StrtolHexExample();
    StrtolOctalExample();
  }

  // What ingesting produces, and reading back the serialised form.

  /** A name as ingesting stores it and re-ingesting reads it back. */
  predicate WellFormedName(k: string) {
    Trimmed(k) && ToLower(k) == k && ':' !in k && '\n' !in k
  }

  predicate WellFormed(m: Fields) {
    forall k :: k in m ==> WellFormedName(k) && '\n' !in m[k]
  }

  /** The map with every value trimmed: how a value comes back after a round trip. */
  function TrimValues(m: Fields): (r: Fields)
    ensures r.Keys == m.Keys
    ensures forall k :: k in m ==> r[k] == Trim(m[k])
  {
    map k | k in m :: Trim(m[k])
  }

  lemma LowerTrimmed(s: string)
    requires Trimmed(s)
    ensures Trimmed(ToLower(s))
  {
    ToLowerAt(s);
  }

  lemma TrimNoChar(s: string, c: char)
    requires c !in s
    ensures c !in Trim(s)
  {
    var r := RTrim(s);
    assert Trim(s) == r[|r| - |Trim(s)|..];
  }

  lemma LowerNoChar(s: string, c: char)
    requires c !in s && (c == ':' || c == '\n')
    ensures c !in ToLower(s)
  {
    ToLowerAt(s);
  }

  lemma WellFormedLowerTrim(s: string)
    requires ':' !in s && '\n' !in s
    ensures WellFormedName(ToLower(Trim(s)))
  {
    TrimNoChar(s, ':');
    TrimNoChar(s, '\n');
    LowerTrimmed(Trim(s));
    LowerNoChar(Trim(s), ':');
    LowerNoChar(Trim(s), '\n');
    ToLowerIdempotent(Trim(s));
  }

  lemma NoCharInSlices(s: string, c: char, i: nat, j: nat)
    requires c !in s && i <= j <= |s|
    ensures c !in s[i..j] && c !in s[i..] && c !in s[..j]
  {
  }

  /** The name and value split from a line without a newline are well-formed. */
  lemma SplitFieldWellFormed(line: string)
    requires '\n' !in line
    ensures var f := SplitField(line);
      Trimmed(f.0) && ':' !in f.0 && '\n' !in f.0 && WellFormedName(ToLower(f.0)) && '\n' !in f.1
  {
    var k := IndexOf(line, ':');
    IndexOfNone(line, ':');
    NoCharInSlices(line, '\n', 0, k);
    WellFormedLowerTrim(line[..k]);
    TrimNoChar(line[..k], ':');
    TrimNoChar(line[..k], '\n');
    if k < |line| {
      NoCharInSlices(line, '\n', k + 1, |line|);
      TrimNoChar(line[k + 1..], '\n');
    }
  }

  lemma ExtendWellFormed(m: Fields, name: string, line: string)
    requires WellFormed(m) && Trimmed(name) && ':' !in name && '\n' !in name && '\n' !in line
    ensures WellFormed(Extend(m, name, Trim(line)))
  {
    var e := Extend(m, name, Trim(line));
    var key := ToLower(name);
    assert WellFormedName(key) by {
      WellFormedLowerTrim(name);
      TrimOfTrimmed(name);
    }
    var before := if key in m then m[key] else "";
    assert '\n' !in e[key] by {
      TrimNoChar(line, '\n');
      assert e[key] == before + " " + Trim(line);
    }
    forall k | k in e ensures WellFormedName(k) && '\n' !in e[k] {
      if k != key { assert k in m && e[k] == m[k]; }
    }
  }

  /** A line without a newline keeps the fields well-formed, and the current name as a name is stored. */
  lemma IngestLineWellFormed(m: Fields, name: string, raw: string)
    requires WellFormed(m) && Trimmed(name) && ':' !in name && '\n' !in name && '\n' !in raw
    ensures var s := IngestLine(m, name, raw);
      WellFormed(s.0) && Trimmed(s.1) && ':' !in s.1 && '\n' !in s.1
  {
    var line := RTrim(raw);
    if line != [] {
      NoCharInSlices(raw, '\n', 0, |line|);
      if line[0] == ' ' {
        ExtendWellFormed(m, name, line);
      } else {
        SplitFieldWellFormed(line);
      }
    }
  }

  /** Every map that ingesting builds has well-formed names and single-line values. */
  lemma {:induction false} IngestWellFormed(m: Fields, name: string, text: string, pos: nat)
    requires pos <= |text| && WellFormed(m)
    requires Trimmed(name) && ':' !in name && '\n' !in name
    ensures WellFormed(IngestFrom(m, name, text, pos).0)
    decreases |text| - pos
  {
    var l := GetLine(text, pos);
    GetLineDelimText(text, pos, '\n');
    IngestLineWellFormed(m, name, l.text);
    var s := IngestLine(m, name, l.text);
    if !l.failed && !s.2 {
      IngestWellFormed(s.0, s.1, text, l.next);
    }
  }

  /** A line `k: v` (with a trailing CR) is read as a field named `k` whose value is `v` trimmed. */
  lemma FieldLineRead(k: string, v: string)
    requires Trimmed(k) && ':' !in k
    ensures var line := RTrim(FieldText(k, v));
      line != [] && line[0] != ' ' && SplitField(line) == (k, Trim(v))
  {
    var w := RTrim(" " + v + "\r");
    RTrimField(k, v);
    var line := k + ":" + w;
    assert line[0] != ' ' by {
      if k != [] { assert line[0] == k[0]; } else { assert line[0] == ':'; }
    }
    IndexOfColon(k, w);
    assert line[..|k|] == k && line[|k| + 1..] == w;
    TrimOfTrimmed(k);
    TrimValuePart(v);
  }

  lemma RTrimField(k: string, v: string)
    ensures RTrim(FieldText(k, v)) == k + ":" + RTrim(" " + v + "\r")
  {
    var a := k + ":";
    var b := " " + v + "\r";
    assert FieldText(k, v) == a + b;
    RTrimAppend(a, b);
  }

  lemma IndexOfColon(k: string, w: string)
    requires ':' !in k
    ensures IndexOf(k + ":" + w, ':') == |k|
  {
    var line := k + ":" + w;
    assert line[|k|] == ':';
    assert forall i :: 0 <= i < |k| ==> line[i] == k[i];
    IndexOfFirst(line, ':', |k|);
  }

  lemma TrimValuePart(v: string)
    ensures Trim(RTrim(" " + v + "\r")) == Trim(v)
  {
    TrimOfRTrim(" " + v + "\r");
    TrimSpaces(" ", v, "\r");
  }

  /** A field line "k: v" is stored under the lower-case name, its value trimmed, and `k` becomes the current name. */
  lemma FieldLineIngested(m: Fields, name: string, k: string, v: string)
    requires Trimmed(k) && ':' !in k
    ensures IngestLine(m, name, FieldText(k, v)) == (m[ToLower(k) := Trim(v)], k, false)
  {
    FieldLineRead(k, v);
  }

  /** The serialised line of a stored field is read back as that field, its value trimmed. */
  lemma IngestFieldLine(m: Fields, name: string, k: string, v: string)
    requires WellFormedName(k)
    ensures IngestLine(m, name, FieldText(k, v)) == (m[k := Trim(v)], k, false)
  {
    FieldLineIngested(m, name, k, v);
  }

  /** A lone CR ends the block. */
  lemma IngestBlankLine(m: Fields, name: string)
    ensures IngestLine(m, name, "\r").2
  {
    RTrimIs("\r", 0);
  }

  // Reading back a sequence of serialised lines, for any line step that reads them as their entries.

  /** `acc` with the entries `es` added in order, values trimmed. */
  function AddEntries(acc: Fields, es: seq<(string, string)>): Fields
    decreases |es|
  {
    if es == [] then acc else AddEntries(acc[es[0].0 := Trim(es[0].1)], es[1..])
  }

  /** What adding the entries of `m` under `ks` holds at one name `k`. */
  lemma {:induction false} AddEntriesAt(acc: Fields, m: Fields, ks: seq<string>, k: string)
    requires forall k :: k in ks ==> k in m
    ensures k in AddEntries(acc, Entries(m, ks)) <==> k in acc || k in ks
    ensures k in AddEntries(acc, Entries(m, ks)) ==> AddEntries(acc, Entries(m, ks))[k] == if k in ks then Trim(m[k]) else acc[k]
    decreases |ks|
  {
    if ks != [] {
      assert forall k :: k in ks[1..] ==> k in ks;
      assert k in ks <==> k == ks[0] || k in ks[1..];
      assert Entries(m, ks)[1..] == Entries(m, ks[1..]);
      AddEntriesAt(acc[ks[0] := Trim(m[ks[0]])], m, ks[1..], k);
    }
  }

  /** Reading lines from `pos` of `text` gives the field lines of the entries `es` and then a blank line. */
  predicate LinesAt(text: string, pos: nat, es: seq<(string, string)>)
    decreases |es|
  {
    pos <= |text| &&
    if es == [] then GetLine(text, pos) == Line("\r", pos + 2, false)
    else
      var line := FieldText(es[0].0, es[0].1);
      GetLine(text, pos) == Line(line, pos + |line| + 1, false) && LinesAt(text, pos + |line| + 1, es[1..])
  }

  /** `step` reads the line of each entry as that entry, whatever the fields and the current name. */
  ghost predicate ReadsEntries(step: LineStep, es: seq<(string, string)>)
    decreases |es|
  {
    es != [] ==>
      (forall m: Fields, n: string :: step(m, n, FieldText(es[0].0, es[0].1)) == (m[es[0].0 := Trim(es[0].1)], es[0].0, false))
      && ReadsEntries(step, es[1..])
  }

  /** `step` ends the block at a lone CR. */
  ghost predicate EndsAtBlank(step: LineStep) {
    forall m: Fields, n: string :: step(m, n, "\r").2
  }

  /** Reading the lines of `es` and a blank line adds each entry and stops after the blank line. */
  lemma {:induction false} IngestWithLines(step: LineStep, acc: Fields, name: string, text: string, pos: nat, es: seq<(string, string)>)
    requires LinesAt(text, pos, es) && ReadsEntries(step, es) && EndsAtBlank(step)
    ensures IngestWith(step, acc, name, text, pos).0 == AddEntries(acc, es)
    ensures IngestWith(step, acc, name, text, pos).1 == pos + |SerializeEntries(es)| + 2
    decreases |es|
  {
    if es != [] {
      var line := FieldText(es[0].0, es[0].1);
      IngestWithLines(step, acc[es[0].0 := Trim(es[0].1)], es[0].0, text, pos + |line| + 1, es[1..]);
    }
  }

  // The serialised header block.

  lemma LineThenRest(text: string, pos: nat, line: string, rest: string)
    requires pos + |line| + 1 + |rest| <= |text|
    requires text[pos..pos + |line| + 1 + |rest|] == (line + "\n") + rest
    ensures text[pos..pos + |line|] == line && text[pos + |line|] == '\n'
    ensures text[pos + |line| + 1..pos + |line| + 1 + |rest|] == rest
  {
    var t := text[pos..pos + |line| + 1 + |rest|];
    assert text[pos..pos + |line|] == t[..|line|];
    assert text[pos + |line|] == t[|line|];
    assert text[pos + |line| + 1..pos + |line| + 1 + |rest|] == t[|line| + 1..];
  }

  /** Names as the header stores them and values on one line. */
  predicate EntriesWellFormed(es: seq<(string, string)>)
    decreases |es|
  {
    es != [] ==> WellFormedName(es[0].0) && '\n' !in es[0].1 && EntriesWellFormed(es[1..])
  }

  lemma NoNewlineInFieldText(k: string, v: string)
    requires '\n' !in k && '\n' !in v
    ensures '\n' !in FieldText(k, v)
  {
  }

  /** Serialised well-formed entries followed by CRLF, found at `pos`, are lines at `pos`. */
  lemma {:induction false} LinesAtSerialized(text: string, pos: nat, es: seq<(string, string)>)
    requires EntriesWellFormed(es)
    requires pos + |SerializeEntries(es)| + 2 <= |text|
    requires text[pos..pos + |SerializeEntries(es)| + 2] == SerializeEntries(es) + "\r\n"
    ensures LinesAt(text, pos, es)
    decreases |es|
  {
    if es == [] {
      assert text[pos..pos + 1] == text[pos..pos + 2][..1];
      assert text[pos + 1] == text[pos..pos + 2][1];
      GetLineSlice(text, pos, "\r");
    } else {
      var line := FieldText(es[0].0, es[0].1);
      NoNewlineInFieldText(es[0].0, es[0].1);
      var s2 := SerializeEntries(es[1..]);
      assert SerializeEntries(es) + "\r\n" == (line + "\n") + (s2 + "\r\n");
      LineThenRest(text, pos, line, s2 + "\r\n");
      GetLineSlice(text, pos, line);
      LinesAtSerialized(text, pos + |line| + 1, es[1..]);
    }
  }

  /** IngestLine reads the line of each well-formed entry as that entry. */
  lemma {:induction false} IngestLineReadsEntries(es: seq<(string, string)>)
    requires EntriesWellFormed(es)
    ensures ReadsEntries(IngestLine, es)
    decreases |es|
  {
    if es != [] {
      forall m: Fields, n: string
        ensures IngestLine(m, n, FieldText(es[0].0, es[0].1)) == (m[es[0].0 := Trim(es[0].1)], es[0].0, false)
      {
        IngestFieldLine(m, n, es[0].0, es[0].1);
      }
      IngestLineReadsEntries(es[1..]);
    }
  }

  lemma IngestLineEndsAtBlank()
    ensures EndsAtBlank(IngestLine)
  {
    forall m: Fields, n: string ensures IngestLine(m, n, "\r").2 {
      IngestBlankLine(m, n);
    }
  }

  /** The entries of a well-formed map, under any of its names. */
  lemma {:induction false} EntriesOfWellFormed(m: Fields, ks: seq<string>)
    requires WellFormed(m) && forall k :: k in ks ==> k in m
    ensures EntriesWellFormed(Entries(m, ks))
    decreases |ks|
  {
    if ks != [] {
      assert Entries(m, ks)[1..] == Entries(m, ks[1..]);
      assert ks[0] in m;
      EntriesOfWellFormed(m, ks[1..]);
    }
  }

  /** Serialised well-formed entries followed by a blank line, found at `pos`, are read back as those entries by any step that reads their lines so. */
  lemma IngestSerializedEntries(step: LineStep, es: seq<(string, string)>, text: string, pos: nat)
    requires EntriesWellFormed(es) && ReadsEntries(step, es) && EndsAtBlank(step)
    requires HoldsAt(text, pos, SerializeEntries(es) + "\r\n")
    ensures IngestWith(step, map[], "", text, pos) == (AddEntries(map[], es), pos + |SerializeEntries(es)| + 2)
  {
    HoldsAtSlice(text, pos, SerializeEntries(es) + "\r\n");
    LinesAtSerialized(text, pos, es);
    IngestWithLines(step, map[], "", text, pos, es);
  }

  /** Adding the entries of `m` under names that are exactly its keys, to an empty map, gives `m` with its values trimmed. */
  lemma AddAllEntries(m: Fields, ks: seq<string>)
    requires forall k :: k in ks <==> k in m
    ensures AddEntries(map[], Entries(m, ks)) == TrimValues(m)
  {
    var r := AddEntries(map[], Entries(m, ks));
    forall k ensures (k in r <==> k in m) && (k in r ==> r[k] == Trim(m[k])) {
      AddEntriesAt(map[], m, ks, k);
    }
  }

  /** The lines of the entries of `m`, under names that are exactly its keys, re-ingest as `m` with its values trimmed. */
  lemma EntriesRoundTrip(step: LineStep, m: Fields, ks: seq<string>, text: string, pos: nat)
    requires WellFormed(m) && forall k :: k in ks <==> k in m
    requires ReadsEntries(step, Entries(m, ks)) && EndsAtBlank(step)
    requires HoldsAt(text, pos, SerializeEntries(Entries(m, ks)) + "\r\n")
    ensures IngestWith(step, map[], "", text, pos) == (TrimValues(m), pos + |SerializeEntries(Entries(m, ks))| + 2)
  {
    EntriesOfWellFormed(m, ks);
    IngestSerializedEntries(step, Entries(m, ks), text, pos);
    AddAllEntries(m, ks);
  }

  /**
   * `operator<<` followed by a blank line, found in a stream at `pos`,
   * re-ingests as the same fields with their values trimmed, and reading
   * stops right after the blank line.
   */
  lemma SerializeRoundTrip(m: Fields, text: string, pos: nat)
    requires WellFormed(m) && HoldsAt(text, pos, Serialize(m) + "\r\n")
    ensures IngestFrom(map[], "", text, pos) == (TrimValues(m), pos + |Serialize(m)| + 2)
  {
    var ks := SortedKeys(m.Keys);
    IngestLineReadsFields(m, ks);
    EntriesRoundTrip(IngestLine, m, ks, text, pos);
  }

  /** The line step of `ingestHeader` reads the field lines of a well-formed map as its entries, and stops at a blank line. */
  lemma IngestLineReadsFields(m: Fields, ks: seq<string>)
    requires WellFormed(m) && forall k :: k in ks ==> k in m
    ensures ReadsEntries(IngestLine, Entries(m, ks)) && EndsAtBlank(IngestLine)
  {
    EntriesOfWellFormed(m, ks);
    IngestLineReadsEntries(Entries(m, ks));
    IngestLineEndsAtBlank();
  }

  /** Whatever `ingestHeader` built is read back from its serialisation, up to trimming of the values. */
  lemma ReingestIngested(text: string, text2: string, pos2: nat)
    requires HoldsAt(text2, pos2, Serialize(IngestFrom(map[], "", text, 0).0) + "\r\n")
    ensures var m := IngestFrom(map[], "", text, 0).0;
      IngestFrom(map[], "", text2, pos2).0 == TrimValues(m)
  {
    var m := IngestFrom(map[], "", text, 0).0;
    IngestWellFormed(map[], "", text, 0);
    SerializeRoundTrip(m, text2, pos2);
  }

  lemma TrimValuesOfTrimmed(m: Fields)
    requires forall k :: k in m ==> Trimmed(m[k])
    ensures TrimValues(m) == m
  {
    forall k | k in m ensures TrimValues(m)[k] == m[k] {
      TrimOfTrimmed(m[k]);
    }
  }

  /** One line that does not end the block: ingesting goes on after it with the new fields and name. */
  lemma IngestStep(m: Fields, name: string, text: string, pos: nat, line: string, m2: Fields, name2: string)
    requires pos < |text| && GetLine(text, pos).text == line && IngestLine(m, name, line) == (m2, name2, false)
    ensures IngestFrom(m, name, text, pos) == IngestFrom(m2, name2, text, GetLine(text, pos).next)
  {
  }

  /** A line that ends the block: ingesting stops after it with the fields unchanged. */
  lemma IngestStop(m: Fields, name: string, text: string, pos: nat)
    requires pos <= |text| && IngestLine(m, name, GetLine(text, pos).text).2
    ensures IngestFrom(m, name, text, pos) == (m, GetLine(text, pos).next)
  {
  }

  /** A line " w" (CR-terminated) with some non-space in `w` extends the current field with `w` trimmed. */
  lemma ContinuationIngested(m: Fields, name: string, w: string)
    requires !AllSpace(w)
    ensures IngestLine(m, name, " " + w + "\r") == (Extend(m, name, Trim(w)), name, false)
  {
    var raw := " " + w + "\r";
    var line := RTrim(raw);
    var j :| 0 <= j < |w| && !IsSpace(w[j]);
    assert raw[j + 1] == w[j];
    TrimEndSpaces(raw, |raw|);
    assert |line| > j + 1;
    assert line[0] == raw[0] == ' ';
    TrimOfRTrim(raw);
    TrimSpaces(" ", w, "\r");
  }

  /** Two lines that do not end the block, then one that does. */
  lemma IngestThreeLines(text: string, m0: Fields, n0: string, m1: Fields, n1: string, m2: Fields, n2: string,
                         l1: string, p2: nat, l2: string, p3: nat, end: nat)
    requires 0 < |text| && GetLine(text, 0) == Line(l1, p2, false) && IngestLine(m0, n0, l1) == (m1, n1, false)
    requires p2 < |text| && GetLine(text, p2) == Line(l2, p3, false) && IngestLine(m1, n1, l2) == (m2, n2, false)
    requires p3 < |text| && GetLine(text, p3).next == end && IngestLine(m2, n2, GetLine(text, p3).text).2
    ensures IngestFrom(m0, n0, text, 0) == (m2, end)
  {
    IngestStep(m0, n0, text, 0, l1, m1, n1);
    IngestStep(m1, n1, text, p2, l2, m2, n2);
    IngestStop(m2, n2, text, p3);
  }

  /** Extending the only field appends to its value. */
  lemma ExtendSingle(name: string, a: string, b: string)
    ensures Extend(map[ToLower(name) := a], name, b) == map[ToLower(name) := a + " " + b]
  {
  }

  /**
   * A field line followed by a continuation line and a blank line: the stored
   * value is the field's value and the continuation, both trimmed, joined by a
   * space, and ingesting stops after the blank line.
   */
  lemma ContinuationJoins(text: string, k: string, v: string, w: string, p2: nat, p3: nat)
    requires Trimmed(k) && ':' !in k && !AllSpace(w)
    requires 0 < |text| && GetLine(text, 0) == Line(FieldText(k, v), p2, false)
    requires p2 < |text| && GetLine(text, p2) == Line(" " + w + "\r", p3, false)
    requires p3 < |text| && GetLine(text, p3).text == "\r"
    ensures IngestFrom(map[], "", text, 0) == (map[ToLower(k) := Trim(v) + " " + Trim(w)], GetLine(text, p3).next)
  {
    var m1 := map[ToLower(k) := Trim(v)];
    var m2 := map[ToLower(k) := Trim(v) + " " + Trim(w)];
    FieldLineIngested(map[], "", k, v);
    ContinuationIngested(m1, k, w);
    ExtendSingle(k, Trim(v), Trim(w));
    IngestBlankLine(m2, k);
    IngestThreeLines(text, map[], "", m1, k, m2, k, FieldText(k, v), p2, " " + w + "\r", p3, GetLine(text, p3).next);
  }
}
