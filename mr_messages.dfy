/**
 * `mr-messages.cc`: the one-line messages the MapReduce server and its
 * workers exchange. A message is a keyword, for four of the six kinds
 * followed by a space and a payload, and a newline; receiving one reads a
 * line, trims it, takes its first word as the keyword and the trimmed rest
 * of the line as the payload.
 */
module MrMessages {
  import opened Text

  /** `MRMessage`. */
  datatype MRMessage = WorkerReady | JobStart | JobInfo | JobSucceeded | JobFailed | ServerDone | Unknown

  /** The six kinds that travel over a connection; `Unknown` is only what a receiver reports. */
  const KINDS: set<MRMessage> := {WorkerReady, JobStart, JobInfo, JobSucceeded, JobFailed, ServerDone}

  /** `messagesWithPayloads`: the kinds whose keyword is followed by a payload. */
  const PAYLOAD_KINDS: set<MRMessage> := {JobStart, JobInfo, JobSucceeded, JobFailed}

  /** `buildForwardMap`: the keyword of each kind. */
  const MESSAGE_TO_STRING: map<MRMessage, string> := map[
    WorkerReady := "WORKER_READY", JobStart := "JOB_START", JobInfo := "JOB_INFO",
    JobSucceeded := "JOB_SUCCEEDED", JobFailed := "JOB_FAILED", ServerDone := "SERVER_DONE"]

  /** `stringToMessageMap`: the kind of each keyword, what `BuildBackwardMap` builds from the forward map. */
  const STRING_TO_MESSAGE: map<string, MRMessage> := map[
    "WORKER_READY" := WorkerReady, "JOB_START" := JobStart, "JOB_INFO" := JobInfo,
    "JOB_SUCCEEDED" := JobSucceeded, "JOB_FAILED" := JobFailed, "SERVER_DONE" := ServerDone]

  /** `bm` sends every keyword of `fm` back to a kind `fm` gives that keyword, and has no other keys. */
  predicate InvertsMap(bm: map<string, MRMessage>, fm: map<MRMessage, string>) {
    (forall k :: k in fm ==> fm[k] in bm) &&
    (forall s :: s in bm ==> bm[s] in fm && fm[bm[s]] == s)
  }

  /**
   * `buildBackwardMap`: every pair of the forward map entered the other way
   * round. When two kinds shared a keyword the later entry would win; the
   * contract states only what holds whatever the order.
   */
  method BuildBackwardMap(fm: map<MRMessage, string>) returns (bm: map<string, MRMessage>)
    ensures InvertsMap(bm, fm)
  {
    bm := map[];
    var todo := fm.Keys;
    while todo != {}
      invariant todo <= fm.Keys
      invariant forall k :: k in fm && k !in todo ==> fm[k] in bm
      invariant forall s :: s in bm ==> bm[s] in fm && fm[bm[s]] == s
      decreases todo
    {
      var k :| k in todo;
      bm := bm[fm[k] := k];
      todo := todo - {k};
    }
  }

  /** The two maps are inverse to each other over the six kinds. */
  lemma MapsInverse()
    ensures MESSAGE_TO_STRING.Keys == KINDS && Unknown !in MESSAGE_TO_STRING
    ensures forall k :: k in KINDS ==> STRING_TO_MESSAGE[MESSAGE_TO_STRING[k]] == k
    ensures forall s :: s in STRING_TO_MESSAGE ==> MESSAGE_TO_STRING[STRING_TO_MESSAGE[s]] == s
  {
  }

  /** Any map that inverts the forward map is the backward map: what the loop of `buildBackwardMap` builds. */
  lemma BackwardMapUnique(bm: map<string, MRMessage>)
    requires InvertsMap(bm, MESSAGE_TO_STRING)
    ensures bm == STRING_TO_MESSAGE
  {
    MapsInverse();
    forall s | s in bm ensures s in STRING_TO_MESSAGE && bm[s] == STRING_TO_MESSAGE[s] {
      assert bm[s] in KINDS;
    }
    forall s | s in STRING_TO_MESSAGE ensures s in bm {
      assert MESSAGE_TO_STRING[STRING_TO_MESSAGE[s]] in bm;
    }
  }

  // Sending.

  /** The line each `send*` writes: the keyword, a space and the payload for the kinds that carry one, and `endl`. */
  function MessageLine(m: MRMessage, payload: string): (r: string)
    requires m in KINDS
    ensures |r| > 0 && r[|r| - 1] == '\n'
  {
    if m in PAYLOAD_KINDS then MESSAGE_TO_STRING[m] + " " + payload + "\n" else MESSAGE_TO_STRING[m] + "\n"
  }

  /** What `sendJobInfo` puts after the keyword: the worker's host name and the message. */
  function JobInfoPayload(host: string, info: string): string {
    "Worker at " + host + ": " + info
  }

  /** A message line is a single line: its only newline is the one at the end. */
  lemma MessageLineIsOneLine(m: MRMessage, payload: string)
    requires m in KINDS && '\n' !in payload
    ensures MessageLine(m, payload) == MessageText(m, payload) + "\n" && '\n' !in MessageText(m, payload)
  {
  }

  /** The line without its newline. */
  function MessageText(m: MRMessage, payload: string): (r: string)
    requires m in KINDS
    ensures |r| >= |MESSAGE_TO_STRING[m]| && r[..|MESSAGE_TO_STRING[m]|] == MESSAGE_TO_STRING[m]
  {
    if m in PAYLOAD_KINDS then MESSAGE_TO_STRING[m] + " " + payload else MESSAGE_TO_STRING[m]
  }

  // Receiving.

  /** What `iss >> messageString` extracts from a line with no leading white space: the characters up to the first white space. */
  function FirstWord(s: string): (w: string)
    ensures |w| <= |s| && w == s[..|w|] && NoSpace(w)
    ensures |w| < |s| ==> IsSpace(s[|w|])
  {
    if s == [] || IsSpace(s[0]) then [] else [s[0]] + FirstWord(s[1..])
  }

  /** A word followed by nothing or by white space is the first word. */
  lemma {:induction false} FirstWordOf(w: string, rest: string)
    requires NoSpace(w) && (rest == [] || IsSpace(rest[0]))
    ensures FirstWord(w + rest) == w
  {
    if w != [] {
      assert (w + rest)[1..] == w[1..] + rest;
      FirstWordOf(w[1..], rest);
    }
  }

  /** The outcome of `receiveMessage`: the kind, its return value, and the payload variable afterwards. */
  datatype Received = Received(message: MRMessage, hasPayload: bool, payload: string)

  /**
   * `receiveMessage` on the line `raw` (without its newline), the caller's
   * payload variable holding `payload0`. A keyword outside the map gives
   * `Unknown` and false. A kind with a payload gives true and the trimmed
   * rest of the line; when nothing follows the keyword, `getline` fails
   * before it clears the variable, so the old payload is kept, trimmed.
   */
  function ReceiveLine(raw: string, payload0: string): (r: Received)
    ensures r.message == Unknown <==> FirstWord(Trim(raw)) !in STRING_TO_MESSAGE
    ensures r.message != Unknown ==> r.message == STRING_TO_MESSAGE[FirstWord(Trim(raw))]
    ensures r.hasPayload <==> r.message in PAYLOAD_KINDS
    ensures !r.hasPayload ==> r.payload == payload0
  {
    var line := Trim(raw);
    var word := FirstWord(line);
    if word !in STRING_TO_MESSAGE then Received(Unknown, false, payload0)
    else
      var m := STRING_TO_MESSAGE[word];
      if m in PAYLOAD_KINDS then Received(m, true, Trim(if |word| < |line| then line[|word|..] else payload0))
      else Received(m, false, payload0)
  }

  /** White space around a received line makes no difference. */
  lemma ReceiveIgnoresSpace(w1: string, raw: string, w2: string, payload0: string)
    requires AllSpace(w1) && AllSpace(w2)
    ensures ReceiveLine(w1 + raw + w2, payload0) == ReceiveLine(raw, payload0)
  {
    TrimSpaces(w1, raw, w2);
  }

  /** The keyword and what follows it once a message line is trimmed. */
  lemma TrimmedMessage(key: string, f: string)
    requires key != [] && NoSpace(key)
    ensures Trim(key + " " + f) == key + RTrim(" " + f)
    ensures Trim(RTrim(" " + f)) == Trim(f)
    ensures RTrim(" " + f) == [] <==> Trim(f) == []
  {
    TrimmedLine(key, f);
    TrimmedRest(f);
  }

  /** Trimming a keyword, a space and `f` keeps the keyword and trims the end. */
  lemma TrimmedLine(key: string, f: string)
    requires key != [] && NoSpace(key)
    ensures Trim(key + " " + f) == key + RTrim(" " + f)
  {
    assert key + " " + f == key + (" " + f);
    RTrimAppend(key, " " + f);
    var t := key + RTrim(" " + f);
    assert Trimmed(t);
    TrimOfTrimmed(t);
    TrimOfRTrim(key + (" " + f));
  }

  /** What follows the keyword, trimmed at its end, trims to `f` trimmed, and is empty exactly when that is. */
  lemma TrimmedRest(f: string)
    ensures Trim(RTrim(" " + f)) == Trim(f)
    ensures RTrim(" " + f) == [] <==> Trim(f) == []
  {
    TrimOfRTrim(" " + f);
    TrimLeadingSpace(" ", f);
    if RTrim(" " + f) != [] {
      TrimNonEmpty(RTrim(" " + f));
    }
  }

  /** A string with a non-space character does not trim to nothing. */
  lemma TrimNonEmpty(s: string)
    requires s != [] && !IsSpace(s[|s| - 1])
    ensures Trim(s) != []
  {
    assert TrimEnd(s, |s|) == |s|;
    TrimStartSpaces(s, 0, |s|);
  }

  /** Every keyword is a single word. */
  lemma KeywordIsWord(m: MRMessage)
    requires m in KINDS
    ensures MESSAGE_TO_STRING[m] != [] && NoSpace(MESSAGE_TO_STRING[m])
    ensures MESSAGE_TO_STRING[m] in STRING_TO_MESSAGE && STRING_TO_MESSAGE[MESSAGE_TO_STRING[m]] == m
  {
  }

  /** A keyword of a kind with a payload, a space and `f`, received. */
  lemma ReceivePayloadLine(key: string, f: string, payload0: string)
    requires key in STRING_TO_MESSAGE && STRING_TO_MESSAGE[key] in PAYLOAD_KINDS && key != [] && NoSpace(key)
    ensures Trim(f) != [] ==> ReceiveLine(key + " " + f, payload0) == Received(STRING_TO_MESSAGE[key], true, Trim(f))
    ensures Trim(f) == [] ==> ReceiveLine(key + " " + f, payload0) == Received(STRING_TO_MESSAGE[key], true, Trim(payload0))
  {
    TrimmedMessage(key, f);
    var rest := RTrim(" " + f);
    var line := key + rest;
    assert rest == [] || IsSpace(rest[0]);
    FirstWordOf(key, rest);
    assert line[|key|..] == rest;
  }

  /**
   * Round trip: receiving what `sendJobStart`, `sendJobInfo`,
   * `sendJobSucceeded` or `sendJobFailed` wrote, with a payload `f` that has
   * no newline, yields that kind, true and `f` trimmed; a payload that is
   * only white space leaves the caller's variable as it was, trimmed.
   */
  lemma ReceiveSent(m: MRMessage, f: string, payload0: string)
    requires m in PAYLOAD_KINDS && '\n' !in f
    ensures GetLine(MessageLine(m, f), 0) == Line(MessageText(m, f), |MessageLine(m, f)|, false)
    ensures Trim(f) != [] ==> ReceiveLine(MessageText(m, f), payload0) == Received(m, true, Trim(f))
    ensures Trim(f) == [] ==> ReceiveLine(MessageText(m, f), payload0) == Received(m, true, Trim(payload0))
  {
    var key := MESSAGE_TO_STRING[m];
    KeywordIsWord(m);
    assert MessageText(m, f) == key + " " + f;
    assert MessageLine(m, f) == MessageText(m, f) + "\n";
    GetLineSlice(MessageLine(m, f), 0, MessageText(m, f));
    ReceivePayloadLine(key, f, payload0);
  }

  /** Receiving what `sendWorkerReady` or `sendServerDone` wrote yields that kind and false, the payload untouched. */
  lemma ReceiveSentBare(m: MRMessage, payload0: string)
    requires m == WorkerReady || m == ServerDone
    ensures GetLine(MessageLine(m, []), 0) == Line(MESSAGE_TO_STRING[m], |MessageLine(m, [])|, false)
    ensures ReceiveLine(MESSAGE_TO_STRING[m], payload0) == Received(m, false, payload0)
  {
    var key := MESSAGE_TO_STRING[m];
    KeywordIsWord(m);
    assert MessageLine(m, []) == key + "\n";
    GetLineSlice(MessageLine(m, []), 0, key);
    assert Trimmed(key);
    TrimOfTrimmed(key);
    FirstWordOf(key, []);
    assert key + [] == key;
  }

  /** `sendJobInfo` delivers "Worker at <host>: <info>", trimmed, as the payload of a `JOB_INFO`. */
  lemma ReceiveJobInfo(host: string, info: string, payload0: string)
    requires '\n' !in host && '\n' !in info
    ensures ReceiveLine(MessageText(JobInfo, JobInfoPayload(host, info)), payload0)
         == Received(JobInfo, true, Trim(JobInfoPayload(host, info)))
  {
    var f := JobInfoPayload(host, info);
    assert f[0] == 'W';
    assert Trim(f) != [] by {
      TrimStartSpaces(f, 0, TrimEnd(f, |f|));
      TrimEndSpaces(f, |f|);
    }
    ReceiveSent(JobInfo, f, payload0);
  }

  /** An unknown keyword is reported as `Unknown`, with false and the payload untouched. */
  lemma ReceiveUnknown(raw: string, payload0: string)
    requires FirstWord(Trim(raw)) !in STRING_TO_MESSAGE
    ensures ReceiveLine(raw, payload0) == Received(Unknown, false, payload0)
  {
  }

  /**
   * One end of a connection: what has been written to it, and the text
   * arriving on it with the position reading has reached.
   */
  class Connection {
    var written: string
    var incoming: string
    var pos: nat

    constructor(incoming: string)
      ensures written == [] && this.incoming == incoming && pos == 0
    {
      written := [];
      this.incoming := incoming;
      pos := 0;
    }

    /** `sendWorkerReady`. */
    method SendWorkerReady()
      modifies this
      ensures written == old(written) + MessageLine(WorkerReady, []) && incoming == old(incoming) && pos == old(pos)
    {
      written := written + MESSAGE_TO_STRING[WorkerReady] + "\n";
    }

    /** `sendJobStart`. */
    method SendJobStart(chunkFile: string)
      modifies this
      ensures written == old(written) + MessageLine(JobStart, chunkFile) && incoming == old(incoming) && pos == old(pos)
    {
      written := written + (MESSAGE_TO_STRING[JobStart] + " " + chunkFile + "\n");
    }

    /** `sendJobInfo`, with the name `getHost` returns passed in. */
    method SendJobInfo(host: string, info: string)
      modifies this
      ensures written == old(written) + MessageLine(JobInfo, JobInfoPayload(host, info)) && incoming == old(incoming) && pos == old(pos)
    {
      written := written + (MESSAGE_TO_STRING[JobInfo] + " " + ("Worker at " + host + ": " + info) + "\n");
    }

    /** `sendJobSucceeded`. */
    method SendJobSucceeded(chunkFile: string)
      modifies this
      ensures written == old(written) + MessageLine(JobSucceeded, chunkFile) && incoming == old(incoming) && pos == old(pos)
    {
      written := written + (MESSAGE_TO_STRING[JobSucceeded] + " " + chunkFile + "\n");
    }

    /** `sendJobFailed`. */
    method SendJobFailed(chunkFile: string)
      modifies this
      ensures written == old(written) + MessageLine(JobFailed, chunkFile) && incoming == old(incoming) && pos == old(pos)
    {
      written := written + (MESSAGE_TO_STRING[JobFailed] + " " + chunkFile + "\n");
    }

    /** `sendServerDone`. */
    method SendServerDone()
      modifies this
      ensures written == old(written) + MessageLine(ServerDone, []) && incoming == old(incoming) && pos == old(pos)
    {
      written := written + MESSAGE_TO_STRING[ServerDone] + "\n";
    }

    /**
     * `receiveMessage`: one line read from the incoming text, then decoded
     * as `ReceiveLine` says; `payload0` is the caller's payload variable.
     */
    method ReceiveMessage(payload0: string) returns (message: MRMessage, hasPayload: bool, payload: string)
      requires pos <= |incoming|
      modifies this
      ensures pos == GetLine(old(incoming), old(pos)).next && written == old(written) && incoming == old(incoming)
      ensures Received(message, hasPayload, payload) == ReceiveLine(GetLine(incoming, old(pos)).text, payload0)
    {
      var l := GetLine(incoming, pos);
      pos := l.next;
      var line := Trim(l.text);
      var messageString := FirstWord(line);
      payload := payload0;
      if messageString !in STRING_TO_MESSAGE {
        return Unknown, false, payload;
      }
      message := STRING_TO_MESSAGE[messageString];
      hasPayload := message in PAYLOAD_KINDS;
      if hasPayload {
        if |messageString| < |line| {
          payload := line[|messageString|..];
        }
        payload := Trim(payload);
      }
    }
  }
}
