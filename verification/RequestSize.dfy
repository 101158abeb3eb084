/** Error answers that repeat an id the caller sent (agent/handlers_process.go, agent/handlers_execution.go).
    Both ends refuse frames above the limit, so such an answer only matters if the request that asks for it got
    in: the Agent's own read limit (agent/connection.go) is what bounds the id. */
module RequestSize {
  import opened Bytes
  import opened FrameSize
  import opened EscapeTrip

  /** A method that looks an id up and repeats it when it finds nothing. */
  datatype Lookup = Lookup(rpc: string, field: string, code: string, message: string)

  const ProcessMessage := "process_id not found: "
  const ExecutionMessage := "execution_id not found: "

  const ProcessRead := Lookup("process.read", "process_id", "process_not_found", ProcessMessage)
  const ProcessWait := ProcessRead.(rpc := "process.wait")
  const ProcessWrite := ProcessRead.(rpc := "process.write")
  const ProcessTerminate := ProcessRead.(rpc := "process.terminate")
  const ExecutionGet := Lookup("execution.get", "execution_id", "invalid_request", ExecutionMessage)

  /** The Gateway's request: the id first, then the method's other parameters. */
  function RequestFrame(l: Lookup, requestID: string, id: seq<Byte>, others: seq<Byte>): seq<Byte> {
    Ascii("{\"type\":\"request\",\"request_id\":\"" + requestID + "\",\"method\":\"" + l.rpc + "\",\"params\":{\""
          + l.field + "\":") + Quoted(id) + others + Ascii("}}")
  }

  /** The Agent's answer when there is nothing under the id it received. */
  function NotFoundFrame(l: Lookup, requestID: string, id: seq<Byte>): seq<Byte> {
    Ascii("{\"type\":\"response\",\"request_id\":\"" + requestID + "\",\"error\":{\"code\":\"" + l.code
          + "\",\"message\":") + Quoted(Ascii(l.message) + id) + Ascii("}}")
  }

  function RequestOverhead(l: Lookup): nat {
    63 + |l.rpc| + |l.field|
  }

  function AnswerOverhead(l: Lookup): nat {
    68 + |l.code| + |l.message|
  }

  // ----- lengths -----

  lemma PlainFirst(s: seq<Byte>)
    requires s != [] && IsPlain(s[0])
    ensures Escape(s) == [s[0]] + Escape(s[1..])
  {
  }

  lemma {:induction false} EscapeAfterPlain(front: seq<Byte>, s: seq<Byte>)
    requires forall b :: b in front ==> IsPlain(b)
    ensures Escape(front + s) == front + Escape(s)
  {
    hide Escape, EscapeNext, IsPlain;
    if front == [] {
      assert front + s == s;
    } else {
      EscapeAfterPlain(front[1..], s);
      assert front[0] in front;
      PlainFirst(front + s);
      assert (front + s)[1..] == front[1..] + s;
      assert front == [front[0]] + front[1..];
    }
  }

  /** The encoder writes such a text as it is. */
  predicate IsPlainText(text: string) {
    forall i :: 0 <= i < |text| ==> text[i] == ' ' || text[i] == ':' || '_' <= text[i] <= 'z'
  }

  lemma PlainTextIsPlain(text: string)
    requires IsPlainText(text)
    ensures forall b :: b in Ascii(text) ==> IsPlain(b)
  {
    forall i | 0 <= i < |text|
      ensures IsPlain(Ascii(text)[i])
    {
    }
  }

  lemma ProcessMessageIsPlain()
    ensures IsPlainText(ProcessMessage)
  {
  }

  lemma ExecutionMessageIsPlain()
    ensures IsPlainText(ExecutionMessage)
  {
  }

  lemma RequestLength(l: Lookup, requestID: string, id: seq<Byte>, others: seq<Byte>)
    ensures |RequestFrame(l, requestID, id, others)| == |Escape(id)| + |requestID| + |others| + RequestOverhead(l)
  {
    hide Escape, Ascii;
  }

  lemma AnswerLength(l: Lookup, requestID: string, id: seq<Byte>)
    requires IsPlainText(l.message)
    ensures |NotFoundFrame(l, requestID, id)| == |Escape(id)| + |requestID| + AnswerOverhead(l)
  {
    PlainTextIsPlain(l.message);
    EscapeAfterPlain(Ascii(l.message), id);
    hide Escape, Ascii;
  }

  // ----- which requests cannot be answered -----

  /** The request gets in and the answer does not get out. `id` is what the Gateway encodes; the Agent repeats what
      it read. */
  predicate Undeliverable(l: Lookup, requestID: string, id: seq<Byte>, others: seq<Byte>) {
    |RequestFrame(l, requestID, id, others)| <= Max && |NotFoundFrame(l, requestID, Arrives(id))| > Max
  }

  /** In terms of what the caller sends: the id, escaped, lies in a window whose width is the difference of the two
      envelopes. */
  lemma UndeliverableWhen(l: Lookup, requestID: string, id: seq<Byte>, others: seq<Byte>)
    requires IsPlainText(l.message)
    ensures Undeliverable(l, requestID, id, others) <==>
            && |Escape(id)| + |requestID| + |others| + RequestOverhead(l) <= Max
            && |Escape(Arrives(id))| + |requestID| + AnswerOverhead(l) > Max
  {
    RequestLength(l, requestID, id, others);
    AnswerLength(l, requestID, Arrives(id));
    hide RequestFrame, NotFoundFrame, Arrives, Escape;
  }

  /** A method has such ids exactly if its request can be shorter than its answer. */
  lemma SomeIsUndeliverableWhen(l: Lookup, requestID: string, others: seq<Byte>)
    requires IsPlainText(l.message) && |requestID| + AnswerOverhead(l) <= Max
    ensures (exists id :: Undeliverable(l, requestID, id, others)) <==> |others| + RequestOverhead(l) < AnswerOverhead(l)
  {
    hide Undeliverable, Escape, Arrives;
    if id :| Undeliverable(l, requestID, id, others) {
      UndeliverableWhen(l, requestID, id, others);
      ArrivesNoLonger(id);
    }
    if |others| + RequestOverhead(l) < AnswerOverhead(l) {
      var id := Repeat(97, Max - |requestID| - AnswerOverhead(l) + 1);
      LettersArrive(|id|);
      UndeliverableWhen(l, requestID, id, others);
    }
  }

  lemma {:induction false} LettersArrive(n: nat)
    ensures Escape(Repeat(97, n)) == Repeat(97, n) && Arrives(Repeat(97, n)) == Repeat(97, n)
  {
    if n > 0 {
      var s := Repeat(97, n);
      assert s[1..] == Repeat(97, n - 1) && s[..1] == [97];
      LettersArrive(n - 1);
      assert EscapeNext(s) == ([97], 1);
    }
  }

  // ----- the methods -----

  /** A parameter that is left out when zero. */
  function OmitZero(name: string, n: int): string {
    if n == 0 then "" else ",\"" + name + "\":" + IntText(n)
  }

  function ReadOthers(outOffset: int, errOffset: int, maxBytes: int): seq<Byte> {
    Ascii(",\"stdout_offset\":" + IntText(outOffset) + ",\"stderr_offset\":" + IntText(errOffset)
          + OmitZero("max_bytes", maxBytes))
  }

  lemma IntTextIsNotEmpty(n: int)
    ensures |IntText(n)| >= 1
  {
  }

  /** process.read can always be answered: a request that gets in has offsets that take more room than the answer's
      longer envelope, whatever the id. */
  lemma ReadIsAlwaysAnswered(requestID: string, id: seq<Byte>, outOffset: int, errOffset: int, maxBytes: int)
    requires |RequestFrame(ProcessRead, requestID, id, ReadOthers(outOffset, errOffset, maxBytes))| <= Max
    ensures |NotFoundFrame(ProcessRead, requestID, Arrives(id))| <= Max
  {
    ProcessMessageIsPlain();
    IntTextIsNotEmpty(outOffset);
    IntTextIsNotEmpty(errOffset);
    ArrivesNoLonger(id);
    RequestLength(ProcessRead, requestID, id, ReadOthers(outOffset, errOffset, maxBytes));
    AnswerLength(ProcessRead, requestID, Arrives(id));
    hide RequestFrame, NotFoundFrame, Arrives, Escape, IntText, OmitZero;
  }

  function WaitOthers(timeoutMs: int): seq<Byte> {
    Ascii(OmitZero("timeout_ms", timeoutMs))
  }

  function TerminateOthers(graceMs: int): seq<Byte> {
    Ascii(OmitZero("grace_ms", graceMs))
  }

  function WriteOthers(data: seq<Byte>): seq<Byte> {
    Ascii(",\"data\":") + Quoted(data)
  }

  /** The others have ids that get in and whose answer does not get out; the Gateway then loses the connection. With
      the parameters that leave most room: exactly as many lengths as the envelopes differ by. */
  lemma OthersAreNot(requestID: string)
    requires |requestID| <= 20
    ensures exists id :: Undeliverable(ProcessWait, requestID, id, WaitOthers(0))
    ensures exists id :: Undeliverable(ProcessTerminate, requestID, id, TerminateOthers(0))
    ensures exists id :: Undeliverable(ProcessWrite, requestID, id, WriteOthers([]))
    ensures exists id :: Undeliverable(ExecutionGet, requestID, id, [])
  {
    ProcessMessageIsPlain();
    ExecutionMessageIsPlain();
    hide Undeliverable, IsPlainText;
    assert |WriteOthers([])| == 10;
    SomeIsUndeliverableWhen(ProcessWait, requestID, WaitOthers(0));
    SomeIsUndeliverableWhen(ProcessTerminate, requestID, TerminateOthers(0));
    SomeIsUndeliverableWhen(ProcessWrite, requestID, WriteOthers([]));
    SomeIsUndeliverableWhen(ExecutionGet, requestID, []);
  }

  /** For process.write the data must be short: written out, at most 10 bytes. */
  lemma WriteIsUndeliverableWhen(requestID: string, data: seq<Byte>)
    requires |requestID| <= 20
    ensures (exists id :: Undeliverable(ProcessWrite, requestID, id, WriteOthers(data))) <==> |Escape(data)| <= 10
  {
    ProcessMessageIsPlain();
    SomeIsUndeliverableWhen(ProcessWrite, requestID, WriteOthers(data));
    hide Undeliverable, Escape;
  }

  /** For process.wait and process.terminate so must the number be: at most seven and four characters. */
  lemma WaitIsUndeliverableWhen(requestID: string, n: int)
    requires |requestID| <= 20
    ensures (exists id :: Undeliverable(ProcessWait, requestID, id, WaitOthers(n))) <==> n == 0 || |IntText(n)| <= 7
    ensures (exists id :: Undeliverable(ProcessTerminate, requestID, id, TerminateOthers(n))) <==>
            n == 0 || |IntText(n)| <= 4
  {
    ProcessMessageIsPlain();
    SomeIsUndeliverableWhen(ProcessWait, requestID, WaitOthers(n));
    SomeIsUndeliverableWhen(ProcessTerminate, requestID, TerminateOthers(n));
    hide Undeliverable, IntText;
  }
}
