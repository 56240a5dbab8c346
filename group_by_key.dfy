/**
 * `group-by-key.py`: the grouping step between the mappers and the reducers.
 * Each input line is stripped and split at single spaces into a key and the
 * fields after it; runs of consecutive lines with the same key become one
 * output line, the key followed by the run's values in sorted order. A line of
 * a run that does not hold exactly two fields stops the script when its run is
 * reached, after the lines of the runs before it were printed.
 */
module GroupByKey {
  import opened Wrappers
  import opened Text
  import opened Lex
  import MrHash

  /** One line of mapper output: its first field, the key, and the fields after it. */
  datatype Record = Record(key: string, others: seq<string>)

  /** `line.strip().split(' ')`: the fields of the stripped line; there is always at least one. */
  function ParseRecord(line: string): (r: Record)
    ensures ' ' !in r.key && forall i :: 0 <= i < |r.others| ==> ' ' !in r.others[i]
  {
    var fields := Split(Trim(line), ' ');
    Record(fields[0], fields[1..])
  }

  /** A line as the mappers write it, a key and a value with no white space, reads back as that pair. */
  lemma ParseRecordOfPair(key: string, value: string)
    requires key != [] && value != [] && NoSpace(key) && NoSpace(value)
    ensures ParseRecord(key + " " + value) == Record(key, [value])
  {
    var line := key + " " + value;
    assert line[0] == key[0] && line[|line| - 1] == value[|value| - 1];
    TrimOfTrimmed(line);
    assert ' ' !in key && ' ' !in value by {
      assert forall i :: 0 <= i < |key| ==> key[i] != ' ';
      assert forall i :: 0 <= i < |value| ==> value[i] != ' ';
    }
    SplitOfJoin([key, value], ' ');
    assert Join([key, value], ' ') == line by {
      assert [key, value][1..] == [value];
    }
  }

  /** An empty key makes the stripped line a single field. */
  lemma ParseRecordEmptyKey(value: string)
    requires value != [] && NoSpace(value)
    ensures ParseRecord(" " + value) == Record(value, [])
  {
    var line := " " + value;
    TrimIs(line, 1, |line|);
    assert line[1..] == value;
    assert ' ' !in value by {
      assert forall i :: 0 <= i < |value| ==> value[i] != ' ';
    }
    SplitOfJoin([value], ' ');
  }

  /** The records of the input, one per line `for line in file` yields. */
  function Records(input: string): (rs: seq<Record>)
    ensures |rs| == |MrHash.FileLines(input)|
    ensures forall i :: 0 <= i < |rs| ==> rs[i] == ParseRecord(MrHash.FileLines(input)[i])
  {
    var lines := MrHash.FileLines(input);
    seq(|lines|, i requires 0 <= i < |lines| => ParseRecord(lines[i]))
  }

  // `groupby(data, itemgetter(0))`.

  /** The records of one run and the key they share. */
  datatype Group = Group(key: string, records: seq<Record>)

  /** How many records at the front of `rs` have key `key`. */
  function RunLength(rs: seq<Record>, key: string): (n: nat)
    ensures n <= |rs|
    ensures forall i :: 0 <= i < n ==> rs[i].key == key
    ensures n < |rs| ==> rs[n].key != key
  {
    if rs == [] || rs[0].key != key then 0 else 1 + RunLength(rs[1..], key)
  }

  /** The records of the groups one after another. */
  function Flatten(gs: seq<Group>): seq<Record> {
    if gs == [] then [] else gs[0].records + Flatten(gs[1..])
  }

  /**
   * `gs` cuts `rs` into maximal runs of one key: the groups hold the records in
   * order, none is empty, all records of a group have its key, and neighbouring
   * groups have different keys.
   */
  predicate IsRunPartition(rs: seq<Record>, gs: seq<Group>) {
    && Flatten(gs) == rs
    && (forall i :: 0 <= i < |gs| ==> gs[i].records != [])
    && (forall i, j :: 0 <= i < |gs| && 0 <= j < |gs[i].records| ==> gs[i].records[j].key == gs[i].key)
    && (forall i :: 0 < i < |gs| ==> gs[i - 1].key != gs[i].key)
  }

  /** `groupby`: the first record's key and its run, then the groups of what follows. */
  function GroupBy(rs: seq<Record>): (gs: seq<Group>)
    ensures rs == [] <==> gs == []
    ensures rs != [] ==> gs[0].key == rs[0].key
    decreases |rs|
  {
    if rs == [] then []
    else
      var n := RunLength(rs, rs[0].key);
      [Group(rs[0].key, rs[..n])] + GroupBy(rs[n..])
  }

  /** `groupby` cuts its input into maximal runs of one key. */
  lemma {:induction false} GroupByRuns(rs: seq<Record>)
    ensures IsRunPartition(rs, GroupBy(rs))
    decreases |rs|
  {
    if rs != [] {
      var n := RunLength(rs, rs[0].key);
      GroupByRuns(rs[n..]);
      assert rs[..n] + rs[n..] == rs;
      PartitionCons(rs[..n], rs[n..], Group(rs[0].key, rs[..n]), GroupBy(rs[n..]));
    }
  }

  /** A run with a key different from that of the next group, in front of a run partition. */
  lemma PartitionCons(run: seq<Record>, rs: seq<Record>, g: Group, gs: seq<Group>)
    requires IsRunPartition(rs, gs) && (rs == [] <==> gs == []) && (rs != [] ==> gs[0].key == rs[0].key)
    requires g.records == run && run != [] && forall j :: 0 <= j < |run| ==> run[j].key == g.key
    requires rs != [] ==> rs[0].key != g.key
    ensures IsRunPartition(run + rs, [g] + gs)
  {
    var r := [g] + gs;
    assert r[1..] == gs;
    assert forall i :: 0 < i < |r| ==> r[i] == gs[i - 1];
  }

  /** The run of the first group is exactly the leading run of its key. */
  lemma FirstRunLength(rs: seq<Record>, gs: seq<Group>)
    requires IsRunPartition(rs, gs) && gs != []
    ensures |gs[0].records| == RunLength(rs, gs[0].key) && gs[0].key == rs[0].key
    ensures rs[..|gs[0].records|] == gs[0].records && IsRunPartition(rs[|gs[0].records|..], gs[1..])
  {
    var m := |gs[0].records|;
    var tail := Flatten(gs[1..]);
    assert rs == gs[0].records + tail;
    assert rs[..m] == gs[0].records && rs[m..] == tail;
    assert forall j :: 0 <= j < m ==> rs[j].key == gs[0].key by {
      assert forall j :: 0 <= j < m ==> rs[j] == gs[0].records[j];
    }
    if |gs| > 1 {
      assert tail == gs[1].records + Flatten(gs[2..]) by {
        assert gs[1..][1..] == gs[2..];
      }
      assert rs[m] == gs[1].records[0];
    } else {
      assert tail == [];
    }
    RunLengthIs(rs, gs[0].key, m);
    assert forall i :: 0 < i < |gs[1..]| ==> gs[1..][i - 1] == gs[i] && gs[1..][i] == gs[i + 1];
  }

  /** A leading run of `m` records with key `key` that ends at the end or at another key has length `m`. */
  lemma {:induction false} RunLengthIs(rs: seq<Record>, key: string, m: nat)
    requires m <= |rs| && forall j :: 0 <= j < m ==> rs[j].key == key
    requires m < |rs| ==> rs[m].key != key
    ensures RunLength(rs, key) == m
  {
    if m > 0 {
      RunLengthIs(rs[1..], key, m - 1);
    }
  }

  /** The maximal runs are unique: any cut into maximal runs is the one `groupby` makes. */
  lemma {:induction false} RunPartitionUnique(rs: seq<Record>, gs: seq<Group>)
    requires IsRunPartition(rs, gs)
    ensures gs == GroupBy(rs)
    decreases |gs|
  {
    if gs == [] {
    } else {
      var m := |gs[0].records|;
      FirstRunLength(rs, gs);
      RunPartitionUnique(rs[m..], gs[1..]);
      assert gs == [gs[0]] + gs[1..];
      assert rs != [];
    }
  }

  /** In input sorted by key each key forms a single run: the groups' keys are strictly increasing. */
  lemma SortedInputDistinctKeys(rs: seq<Record>)
    requires Sorted(Keys(rs))
    ensures StrictlySorted(GroupKeys(GroupBy(rs)))
    ensures forall i, j :: 0 <= i < j < |GroupBy(rs)| ==> GroupBy(rs)[i].key != GroupBy(rs)[j].key
  {
    var ks := Keys(rs);
    forall i | 0 < i < |rs| ensures LessEq(rs[i - 1].key, rs[i].key) {
      assert ks[i - 1] == rs[i - 1].key && ks[i] == rs[i].key;
    }
    RisingKeysStrictGroups(rs);
    StrictlyDistinct(GroupKeys(GroupBy(rs)));
  }

  /** Each key not above the next. */
  predicate KeysRise(rs: seq<Record>) {
    forall i :: 0 < i < |rs| ==> LessEq(rs[i - 1].key, rs[i].key)
  }

  lemma {:induction false} RisingKeysStrictGroups(rs: seq<Record>)
    requires KeysRise(rs)
    ensures StrictlySorted(GroupKeys(GroupBy(rs)))
    decreases |rs|
  {
    if rs != [] {
      var n := RunLength(rs, rs[0].key);
      RisingAfterRun(rs, n);
      RisingKeysStrictGroups(rs[n..]);
      var tail := GroupKeys(GroupBy(rs[n..]));
      StrictFront(rs[0].key, tail);
      assert GroupKeys(GroupBy(rs)) == [rs[0].key] + tail;
    }
  }

  /** After the leading run come rising keys, the first of them above the run's key. */
  lemma RisingAfterRun(rs: seq<Record>, n: nat)
    requires KeysRise(rs) && rs != [] && n == RunLength(rs, rs[0].key)
    ensures KeysRise(rs[n..])
    ensures n < |rs| ==> Less(rs[0].key, rs[n].key)
  {
    assert forall i :: 0 <= i < |rs| - n ==> rs[n..][i] == rs[n + i];
    if n < |rs| {
      assert rs[n - 1].key == rs[0].key && LessEq(rs[n - 1].key, rs[n].key);
    }
  }

  /** A key below the first of a strictly increasing sequence goes in front of it. */
  lemma StrictFront(k: string, ks: seq<string>)
    requires StrictlySorted(ks) && (ks != [] ==> Less(k, ks[0]))
    ensures StrictlySorted([k] + ks)
  {
    forall j | 0 <= j < |ks| ensures Less(k, ks[j]) {
      if j > 0 {
        LessTransitive(k, ks[0], ks[j]);
      }
    }
    StrictCons(k, ks);
  }

  /** A strictly increasing sequence has no repeated element. */
  lemma StrictlyDistinct(ks: seq<string>)
    requires StrictlySorted(ks)
    ensures forall i, j :: 0 <= i < j < |ks| ==> ks[i] != ks[j]
  {
    forall i, j | 0 <= i < j < |ks| ensures ks[i] != ks[j] {
      if ks[i] == ks[j] {
        LessIrreflexive(ks[i]);
      }
    }
  }

  function Keys(rs: seq<Record>): (ks: seq<string>)
    ensures |ks| == |rs| && forall i :: 0 <= i < |rs| ==> ks[i] == rs[i].key
  {
    seq(|rs|, i requires 0 <= i < |rs| => rs[i].key)
  }

  function GroupKeys(gs: seq<Group>): (ks: seq<string>)
    ensures |ks| == |gs| && forall i :: 0 <= i < |gs| ==> ks[i] == gs[i].key
  {
    seq(|gs|, i requires 0 <= i < |gs| => gs[i].key)
  }

  // `' '.join(sorted(v for k, v in keygroup))` and the line printed.

  /** The value of every record, when each holds exactly one field after its key; unpacking fails otherwise. */
  function Values(rs: seq<Record>): (r: Option<seq<string>>)
    ensures r.Some? <==> forall i :: 0 <= i < |rs| ==> |rs[i].others| == 1
    ensures r.Some? ==> |r.value| == |rs| && forall i :: 0 <= i < |rs| ==> r.value[i] == rs[i].others[0]
  {
    if rs == [] then Some([])
    else if |rs[0].others| != 1 then None
    else
      match Values(rs[1..])
      case None => None
      case Some(vs) => Some([rs[0].others[0]] + vs)
  }

  /** The line printed for one group: `"%s %s" % (key, values)`, or None when unpacking one of its records fails. */
  function GroupLine(g: Group): Option<string> {
    match Values(g.records)
    case None => None
    case Some(vs) => Some(g.key + " " + Join(Sort(vs), ' '))
  }

  /**
   * A group prints a line exactly when each of its records holds two fields;
   * the line is the key, a space and the values, each kept as often as it
   * occurs, in sorted order, separated by single spaces.
   */
  lemma GroupLineShape(g: Group)
    ensures GroupLine(g).Some? <==> forall i :: 0 <= i < |g.records| ==> |g.records[i].others| == 1
    ensures GroupLine(g).Some? ==>
      exists vs :: && |vs| == |g.records|
                   && Sorted(vs)
                   && multiset(vs) == multiset(Values(g.records).value)
                   && GroupLine(g).value == g.key + " " + Join(vs, ' ')
  {
    if GroupLine(g).Some? {
      var vs := Sort(Values(g.records).value);
      assert |vs| == |multiset(vs)|;
      assert GroupLine(g).value == g.key + " " + Join(vs, ' ');
    }
  }

  /** A printed line splits back into the key followed by the sorted values, when none holds a space. */
  lemma GroupLineFields(g: Group)
    requires g.records != [] && GroupLine(g).Some?
    requires ' ' !in g.key && forall i :: 0 <= i < |g.records| ==> forall k :: 0 <= k < |g.records[i].others| ==> ' ' !in g.records[i].others[k]
    ensures Split(GroupLine(g).value, ' ') == [g.key] + Sort(Values(g.records).value)
  {
    var vs := Values(g.records).value;
    var sorted := Sort(vs);
    assert |sorted| == |multiset(sorted)| == |vs| > 0;
    var ws := [g.key] + sorted;
    forall i | 0 <= i < |ws| ensures ' ' !in ws[i] {
      if i > 0 {
        assert ws[i] in multiset(vs) by {
          assert ws[i] == sorted[i - 1];
        }
        var k :| 0 <= k < |vs| && vs[k] == ws[i];
        assert g.records[k].others[0] == ws[i];
      }
    }
    assert ws[1..] == sorted;
    SplitOfJoin(ws, ' ');
  }

  // The script as a whole.

  /** What the script leaves behind: the lines it printed and whether it stopped with an error. */
  datatype Outcome = Outcome(lines: seq<string>, failed: bool)

  /**
   * The groups' lines printed one by one: printing stops at the first group
   * with a malformed record, after the lines of the groups before it.
   */
  function Emit(printed: seq<Option<string>>): (out: Outcome)
    ensures |out.lines| <= |printed|
    ensures forall i :: 0 <= i < |out.lines| ==> printed[i] == Some(out.lines[i])
    ensures out.failed <==> exists i :: 0 <= i < |printed| && printed[i].None?
    ensures out.failed ==> printed[|out.lines|].None?
    ensures !out.failed ==> |out.lines| == |printed|
  {
    if printed == [] then Outcome([], false)
    else
      match printed[0]
      case None => Outcome([], true)
      case Some(line) =>
        var rest := Emit(printed[1..]);
        assert forall i :: 0 < i < |printed| ==> printed[1..][i - 1] == printed[i];
        Outcome([line] + rest.lines, rest.failed)
  }

  /** The line, or the failure, of each group. */
  function GroupLines(gs: seq<Group>): (r: seq<Option<string>>)
    ensures |r| == |gs| && forall i :: 0 <= i < |gs| ==> r[i] == GroupLine(gs[i])
  {
    seq(|gs|, i requires 0 <= i < |gs| => GroupLine(gs[i]))
  }

  /** `main`: the outcome of running the script on the text of standard input. */
  function GroupByKey(input: string): (out: Outcome) {
    Emit(GroupLines(GroupBy(Records(input))))
  }

  /** The text printed: every line followed by a newline. */
  function Printed(out: Outcome): string {
    MrHash.JoinLines(out.lines)
  }

  /**
   * The script prints the lines of the groups in order and fails exactly when
   * some group holds a record without exactly two fields, having printed the
   * groups before the first such one.
   */
  lemma GroupByKeyOutcome(input: string)
    ensures var gs := GroupBy(Records(input)); var out := GroupByKey(input);
      && |out.lines| <= |gs|
      && (forall i :: 0 <= i < |out.lines| ==> GroupLine(gs[i]) == Some(out.lines[i]))
      && (out.failed <==> exists i, j :: 0 <= i < |gs| && 0 <= j < |gs[i].records| && |gs[i].records[j].others| != 1)
      && (!out.failed ==> |out.lines| == |gs|)
  {
    EmitFails(GroupBy(Records(input)));
  }

  /** Printing the groups fails exactly when one of them holds a malformed record. */
  lemma EmitFails(gs: seq<Group>)
    ensures Emit(GroupLines(gs)).failed
        <==> exists i, j :: 0 <= i < |gs| && 0 <= j < |gs[i].records| && |gs[i].records[j].others| != 1
  {
    var lines := GroupLines(gs);
    if Emit(lines).failed {
      var i :| 0 <= i < |gs| && lines[i].None?;
      GroupLineShape(gs[i]);
    } else {
      forall i, j | 0 <= i < |gs| && 0 <= j < |gs[i].records| ensures |gs[i].records[j].others| == 1 {
        assert lines[i].Some?;
        GroupLineShape(gs[i]);
      }
    }
  }

  /** Input sorted by key, every line a key and one value, prints one line per key, keys rising. */
  lemma SortedInputOneLinePerKey(input: string)
    requires Sorted(Keys(Records(input)))
    requires forall i :: 0 <= i < |Records(input)| ==> |Records(input)[i].others| == 1
    ensures !GroupByKey(input).failed
    ensures StrictlySorted(GroupKeys(GroupBy(Records(input))))
    ensures |GroupByKey(input).lines| == |GroupBy(Records(input))|
  {
    var rs := Records(input);
    var gs := GroupBy(rs);
    SortedInputDistinctKeys(rs);
    GroupByRuns(rs);
    forall i | 0 <= i < |gs| ensures GroupLines(gs)[i].Some? {
      GroupMember(rs, gs, i);
      GroupLineShape(gs[i]);
    }
  }

  /** Each record of a group is one of the records grouped. */
  lemma GroupMember(rs: seq<Record>, gs: seq<Group>, i: nat)
    requires IsRunPartition(rs, gs) && i < |gs|
    requires forall k :: 0 <= k < |rs| ==> |rs[k].others| == 1
    ensures forall j :: 0 <= j < |gs[i].records| ==> |gs[i].records[j].others| == 1
  {
    FlattenMember(gs, i);
  }

  /** The records of group `i` lie inside the flattened groups. */
  lemma {:induction false} FlattenMember(gs: seq<Group>, i: nat)
    requires i < |gs|
    ensures forall j :: 0 <= j < |gs[i].records| ==> gs[i].records[j] in Flatten(gs)
  {
    if i > 0 {
      FlattenMember(gs[1..], i - 1);
    }
  }
}
