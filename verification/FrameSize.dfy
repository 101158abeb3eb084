/** Response frames against the 32 MiB message limit (internal/proto/message.go): the JSON text of the
    responses that carry output, with the encoder's string escaping (section 7 of RFC 8259, plus the HTML-safe
    and invalid-UTF-8 rules of Go's encoder) and base64 (section 4 of RFC 4648). Text is bytes. */
module FrameSize {
  import opened Bytes
  import opened Wrappers
  import opened RingBuffer
  import C = CommandOutput
  import D = Decimal
  import Wire

  const Max: nat := Wire.MaxRPCMessageBytes

  const Cap: nat := Wire.MaxCommandOutputBytes

  // ----- escaping -----

  predicate IsContinuation(b: Byte) {
    0x80 <= b <= 0xBF
  }

  /** The length of the well-formed UTF-8 sequence of two to four bytes at the front of `s`, or 0. */
  function RuneLength(s: seq<Byte>): (n: nat)
    requires s != []
    ensures n == 0 || (2 <= n <= 4 && n <= |s|)
  {
    var b := s[0];
    if 0xC2 <= b <= 0xDF && |s| >= 2 && IsContinuation(s[1]) then 2
    else if |s| >= 3 && IsContinuation(s[2])
         && (   (b == 0xE0 && 0xA0 <= s[1] <= 0xBF)
             || ((0xE1 <= b <= 0xEC || 0xEE <= b <= 0xEF) && IsContinuation(s[1]))
             || (b == 0xED && 0x80 <= s[1] <= 0x9F)) then 3
    else if |s| >= 4 && IsContinuation(s[2]) && IsContinuation(s[3])
         && (   (b == 0xF0 && 0x90 <= s[1] <= 0xBF)
             || (0xF1 <= b <= 0xF3 && IsContinuation(s[1]))
             || (b == 0xF4 && 0x80 <= s[1] <= 0x8F)) then 4
    else 0
  }

  const HexDigits: seq<Byte> := [48, 49, 50, 51, 52, 53, 54, 55, 56, 57, 97, 98, 99, 100, 101, 102]

  /** The six-byte escape of a code point below 256. */
  function UnicodeEscape(b: Byte): (e: seq<Byte>)
    ensures |e| == 6
  {
    [92, 117, 48, 48, HexDigits[b as int / 16], HexDigits[b as int % 16]]
  }

  const ReplacementEscape: seq<Byte> := [92, 117, 102, 102, 102, 100]

  function LineSeparatorEscape(b: Byte): seq<Byte> {
    [92, 117, 50, 48, 50, HexDigits[b as int % 16]]
  }

  /** Quote, backslash and the control characters with short escapes. */
  function ShortEscape(b: Byte): Option<Byte> {
    if b == 34 || b == 92 then Some(b)
    else if b == 8 then Some(98)
    else if b == 12 then Some(102)
    else if b == 10 then Some(110)
    else if b == 13 then Some(114)
    else if b == 9 then Some(116)
    else None
  }

  predicate IsPlain(b: Byte) {
    0x20 <= b < 0x80 && b != 34 && b != 92 && b != 60 && b != 62 && b != 38
  }

  /** How the encoder writes the next character of a string, and how many bytes of the input it takes. */
  function EscapeNext(s: seq<Byte>): (r: (seq<Byte>, nat))
    requires s != []
    ensures 1 <= r.1 <= |s| && |r.0| <= 6 * r.1
  {
    var b := s[0];
    if b < 0x80 then
      if IsPlain(b) then ([b], 1)
      else if ShortEscape(b).Some? then ([92, ShortEscape(b).value], 1)
      else (UnicodeEscape(b), 1)
    else
      var n := RuneLength(s);
      if n == 0 then (ReplacementEscape, 1)
      else if n == 3 && b == 0xE2 && s[1] == 0x80 && (s[2] == 0xA8 || s[2] == 0xA9) then (LineSeparatorEscape(s[2]), 3)
      else (s[..n], n)
  }

  function Escape(s: seq<Byte>): seq<Byte>
    decreases |s|
  {
    if s == [] then []
    else
      var (text, used) := EscapeNext(s);
      text + Escape(s[used..])
  }

  /** Escaping makes at most six bytes of one. */
  lemma {:induction false} EscapeAtMostSixfold(s: seq<Byte>)
    ensures |Escape(s)| <= 6 * |s|
    decreases |s|
  {
    if s != [] {
      EscapeAtMostSixfold(s[EscapeNext(s).1..]);
    }
  }

  function Repeat(b: Byte, n: nat): (s: seq<Byte>)
    ensures |s| == n
  {
    if n == 0 then [] else [b] + Repeat(b, n - 1)
  }

  /** And it can take all six: the bound cannot be improved. */
  lemma {:induction false} SixfoldIsReached(n: nat)
    ensures |Escape(Repeat(1, n))| == 6 * n
  {
    if n > 0 {
      assert Repeat(1, n)[1..] == Repeat(1, n - 1);
      SixfoldIsReached(n - 1);
    }
  }

  lemma {:induction false} PlainIsUnchanged(s: seq<Byte>)
    requires forall b :: b in s ==> IsPlain(b)
    ensures Escape(s) == s
  {
    if s != [] {
      PlainIsUnchanged(s[1..]);
    }
  }

  // ----- JSON text -----

  function Ascii(s: string): (r: seq<Byte>)
    ensures |r| == |s|
  {
    seq(|s|, i requires 0 <= i < |s| => (s[i] as int % 256) as Byte)
  }

  function Quoted(s: seq<Byte>): seq<Byte> {
    Ascii("\"") + Escape(s) + Ascii("\"")
  }

  const Int64Bound: int := 0x8000_0000_0000_0000

  predicate IsInt64(n: int) {
    -Int64Bound <= n < Int64Bound
  }

  function IntText(n: int): string {
    if n < 0 then "-" + D.Format(-n) else D.Format(n)
  }

  lemma IntTextLength(n: int)
    requires IsInt64(n)
    ensures |IntText(n)| <= 20
  {
    PowersOfTen();
    D.FormatLength(if n < 0 then -n else n, 19);
  }

  function BoolText(b: bool): string {
    if b then "true" else "false"
  }

  function CodeText(code: Option<int>): string {
    match code case None => "null" case Some(n) => IntText(n)
  }

  function FlagText(name: string, raised: bool): string {
    if raised then ",\"" + name + "\":true" else ""
  }

  /** The envelope of a successful response. */
  function ResultFrame(requestID: string, result: seq<Byte>): seq<Byte> {
    Ascii("{\"type\":\"response\",\"request_id\":\"" + requestID + "\",\"result\":") + result + Ascii("}")
  }

  /** The answer of command.exec and command.read. */
  function ExecResult(processID: string, osPid: int, stdout: seq<Byte>, stderr: seq<Byte>, exitCode: Option<int>,
                      timedOut: bool, violation: bool, outTruncated: bool, errTruncated: bool): seq<Byte>
  {
    Ascii("{\"process_id\":\"" + processID + "\",\"os_pid\":" + IntText(osPid) + ",\"stdout\":") + Quoted(stdout)
    + Ascii(",\"stderr\":") + Quoted(stderr)
    + Ascii(",\"exit_code\":" + CodeText(exitCode) + ",\"timed_out\":" + BoolText(timedOut)
            + FlagText("sandbox_violation", violation) + FlagText("stdout_truncated", outTruncated)
            + FlagText("stderr_truncated", errTruncated) + "}")
  }

  /** The answer of process.read. */
  function ReadResult(stdout: seq<Byte>, stderr: seq<Byte>, nextOut: int, nextErr: int, outBefore: bool, errBefore: bool,
                      exitCode: Option<int>): seq<Byte>
  {
    Ascii("{\"stdout\":") + Quoted(stdout) + Ascii(",\"stderr\":") + Quoted(stderr)
    + Ascii(",\"next_stdout_offset\":" + IntText(nextOut) + ",\"next_stderr_offset\":" + IntText(nextErr)
            + ",\"stdout_truncated_before\":" + BoolText(outBefore) + ",\"stderr_truncated_before\":" + BoolText(errBefore)
            + ",\"exit_code\":" + CodeText(exitCode) + "}")
  }

  lemma CodeTextLength(code: Option<int>)
    requires code.Some? ==> IsInt64(code.value)
    ensures |CodeText(code)| <= 20
  {
    if code.Some? {
      IntTextLength(code.value);
    }
  }

  /** The range of the Gateway's request counter. */
  const IdSpace: nat := 0x1_0000_0000_0000_0000

  lemma RequestIdFits(n: nat)
    requires n < IdSpace
    ensures |D.Format(n)| <= 20
  {
    PowersOfTen();
    D.FormatLength(n, 20);
  }

  lemma PowersOfTen()
    ensures D.Pow10(10) == 10_000_000_000 && D.Pow10(18) == 1_000_000_000_000_000_000
    ensures D.Pow10(19) == 10_000_000_000_000_000_000 && D.Pow10(20) == 100_000_000_000_000_000_000
  {
    assert D.Pow10(4) == 10_000;
    assert D.Pow10(7) == 10_000_000;
    assert D.Pow10(13) == 10_000_000_000_000;
    assert D.Pow10(16) == 10_000_000_000_000_000;
  }

  /** Everything in the answer of a one-shot command but its output. */
  datatype ExecInfo = ExecInfo(processID: string, osPid: int, exitCode: Option<int>, timedOut: bool, violation: bool,
                               outTruncated: bool, errTruncated: bool)

  /** Process ids are 32 hex digits, numbers have 64 bits. */
  predicate IsExecInfo(i: ExecInfo) {
    |i.processID| == 32 && IsInt64(i.osPid) && (i.exitCode.Some? ==> IsInt64(i.exitCode.value))
  }

  /** The frame that answers request number `n` with these outputs. */
  function ExecFrame(n: nat, i: ExecInfo, stdout: seq<Byte>, stderr: seq<Byte>): seq<Byte> {
    ResultFrame(D.Format(n), ExecResult(i.processID, i.osPid, stdout, stderr, i.exitCode, i.timedOut, i.violation,
                                        i.outTruncated, i.errTruncated))
  }

  /** The length of the parts that vary, outputs apart. */
  function InfoLength(i: ExecInfo): nat {
    |IntText(i.osPid)| + |CodeText(i.exitCode)| + |BoolText(i.timedOut)| + (if i.violation then 25 else 0)
    + (if i.outTruncated then 24 else 0) + (if i.errTruncated then 24 else 0)
  }

  lemma FlagsLength(i: ExecInfo)
    ensures |FlagText("sandbox_violation", i.violation)| == if i.violation then 25 else 0
    ensures |FlagText("stdout_truncated", i.outTruncated)| == if i.outTruncated then 24 else 0
    ensures |FlagText("stderr_truncated", i.errTruncated)| == if i.errTruncated then 24 else 0
  {
  }

  lemma ExecFrameLength(n: nat, i: ExecInfo, stdout: seq<Byte>, stderr: seq<Byte>)
    requires |i.processID| == 32
    ensures |ExecFrame(n, i, stdout, stderr)|
         == |Escape(stdout)| + |Escape(stderr)| + |D.Format(n)| + InfoLength(i) + 154
  {
    FlagsLength(i);
    hide Escape, IntText, CodeText, BoolText, FlagText, Ascii, D.Format;
  }

  lemma InfoLengthBound(i: ExecInfo)
    requires IsExecInfo(i)
    ensures InfoLength(i) <= 118
  {
    IntTextLength(i.osPid);
    CodeTextLength(i.exitCode);
  }

  /** Whatever two processes print and however large the ring buffers are, the answer of a one-shot command
      fits one frame. */
  lemma ExecAnswerFits(n: nat, i: ExecInfo, out: seq<Byte>, err: seq<Byte>, outCapacity: nat, errCapacity: nat)
    requires n < IdSpace && IsExecInfo(i)
    ensures |ExecFrame(n, i, PageOf(out, outCapacity, 0, Cap).data, PageOf(err, errCapacity, 0, Cap).data)| <= Max
  {
    C.OutputIsCapped(out, outCapacity, 0, 0);
    C.OutputIsCapped(err, errCapacity, 0, 0);
    CapIsSafeWhen(Cap);
    hide PageOf;
  }

  /** Answers with at most `cap` bytes of each output always fit. */
  ghost predicate CapIsSafe(cap: nat) {
    forall n: nat, i: ExecInfo, stdout: seq<Byte>, stderr: seq<Byte> ::
      n < IdSpace && IsExecInfo(i) && |stdout| <= cap && |stderr| <= cap ==> |ExecFrame(n, i, stdout, stderr)| <= Max
  }

  const LargestCap: nat := 2_796_178

  /** The longest envelope there is, around outputs that all escape sixfold. */
  function WorstInfo(): ExecInfo {
    ExecInfo("0123456789abcdef0123456789abcdef", -Int64Bound, Some(-Int64Bound), false, true, true, true)
  }

  lemma WorstFrameLength(cap: nat)
    ensures IsExecInfo(WorstInfo())
    ensures |ExecFrame(IdSpace - 1, WorstInfo(), Repeat(1, cap), Repeat(1, cap))| == 12 * cap + 138 + 154
  {
    PowersOfTen();
    RequestIdFits(IdSpace - 1);
    D.FormatLengthAtLeast(IdSpace - 1, 19);
    IntTextLength(-Int64Bound);
    D.FormatLengthAtLeast(Int64Bound, 18);
    SixfoldIsReached(cap);
    ExecFrameLength(IdSpace - 1, WorstInfo(), Repeat(1, cap), Repeat(1, cap));
    hide Escape, Repeat, D.Format, ExecFrame;
    assert |IntText(-Int64Bound)| == 20;
  }

  /** The cap is safe up to exactly this value: one byte more and there are outputs that could not be answered. */
  lemma CapIsSafeWhen(cap: nat)
    ensures CapIsSafe(cap) <==> cap <= LargestCap
  {
    hide ExecFrame, Escape;
    if cap <= LargestCap {
      forall n: nat, i: ExecInfo, stdout: seq<Byte>, stderr: seq<Byte> |
        n < IdSpace && IsExecInfo(i) && |stdout| <= cap && |stderr| <= cap
        ensures |ExecFrame(n, i, stdout, stderr)| <= Max
      {
        ExecFrameLength(n, i, stdout, stderr);
        RequestIdFits(n);
        InfoLengthBound(i);
        EscapeAtMostSixfold(stdout);
        EscapeAtMostSixfold(stderr);
      }
    } else {
      WorstFrameLength(cap);
    }
  }

  lemma ReadResultLength(stdout: seq<Byte>, stderr: seq<Byte>, nextOut: int, nextErr: int, outBefore: bool,
                         errBefore: bool, exitCode: Option<int>)
    requires IsInt64(nextOut) && IsInt64(nextErr) && (exitCode.Some? ==> IsInt64(exitCode.value))
    ensures |ReadResult(stdout, stderr, nextOut, nextErr, outBefore, errBefore, exitCode)|
         <= |Escape(stdout)| + |Escape(stderr)| + 400
  {
    IntTextLength(nextOut);
    IntTextLength(nextErr);
    CodeTextLength(exitCode);
    hide Escape, IntText, CodeText;
    var offsets := ",\"next_stdout_offset\":" + IntText(nextOut) + ",\"next_stderr_offset\":" + IntText(nextErr);
    var flags := ",\"stdout_truncated_before\":" + BoolText(outBefore) + ",\"stderr_truncated_before\":"
                 + BoolText(errBefore);
    assert |offsets| <= 100 && |flags| <= 100;
  }

  /** So does a page of process.read, from any offsets and with any requested page size. */
  lemma PageAnswerFits(n: nat, out: seq<Byte>, err: seq<Byte>, outCapacity: nat, errCapacity: nat,
                       outOffset: int, errOffset: int, requested: int, exitCode: Option<int>)
    requires n < IdSpace && (exitCode.Some? ==> IsInt64(exitCode.value))
    requires IsInt64(outOffset) && IsInt64(errOffset) && |out| < Int64Bound && |err| < Int64Bound
    ensures var o := PageOf(out, outCapacity, outOffset, C.ClampMaxBytes(requested));
            var e := PageOf(err, errCapacity, errOffset, C.ClampMaxBytes(requested));
            |ResultFrame(D.Format(n), ReadResult(o.data, e.data, o.next, e.next, o.truncatedBefore, e.truncatedBefore,
                                                 exitCode))| <= Max
  {
    var o := PageOf(out, outCapacity, outOffset, C.ClampMaxBytes(requested));
    var e := PageOf(err, errCapacity, errOffset, C.ClampMaxBytes(requested));
    RequestIdFits(n);
    C.OutputIsCapped(out, outCapacity, outOffset, requested);
    C.OutputIsCapped(err, errCapacity, errOffset, requested);
    EscapeAtMostSixfold(o.data);
    EscapeAtMostSixfold(e.data);
    assert IsInt64(o.next) && IsInt64(e.next);
    ReadResultLength(o.data, e.data, o.next, e.next, o.truncatedBefore, e.truncatedBefore, exitCode);
    hide PageOf, Escape, ReadResult, D.Format;
  }

  // ----- file.read -----

  /** The alphabet `A-Z a-z 0-9 + /` as bytes. */
  function Letter(sextet: int): Byte
    requires 0 <= sextet < 64
  {
    (if sextet < 26 then 65 + sextet
     else if sextet < 52 then 71 + sextet
     else if sextet < 62 then sextet - 4
     else if sextet == 62 then 43
     else 47) as Byte
  }

  const Pad: Byte := 61

  /** The four letters of a group of one to three bytes, padded at the end. */
  function Group(s: seq<Byte>): (g: seq<Byte>)
    requires s != []
    ensures |g| == 4 && forall b :: b in g ==> IsPlain(b)
  {
    var a := s[0] as int;
    var b := if |s| > 1 then s[1] as int else 0;
    var c := if |s| > 2 then s[2] as int else 0;
    [Letter(a / 4), Letter(a % 4 * 16 + b / 16),
     if |s| > 1 then Letter(b % 16 * 4 + c / 64) else Pad,
     if |s| > 2 then Letter(c % 64) else Pad]
  }

  function Base64(s: seq<Byte>): seq<Byte>
    decreases |s|
  {
    if s == [] then [] else Group(s) + Base64(if |s| > 3 then s[3..] else [])
  }

  lemma {:induction false} Base64Length(s: seq<Byte>)
    ensures |Base64(s)| == 4 * ((|s| + 2) / 3)
    decreases |s|
  {
    if |s| > 3 {
      Base64Length(s[3..]);
    } else if s != [] {
      assert Base64([]) == [];
    }
  }

  lemma {:induction false} Base64IsPlain(s: seq<Byte>)
    ensures forall b :: b in Base64(s) ==> IsPlain(b)
    decreases |s|
  {
    if |s| > 3 {
      Base64IsPlain(s[3..]);
    } else if s != [] {
      assert Base64([]) == [];
    }
  }

  /** The answer of file.read for what was read. */
  function FileResult(data: seq<Byte>): seq<Byte> {
    Ascii("{\"content_base64\":") + Quoted(Base64(data)) + Ascii(",\"size\":" + IntText(|data|) + "}")
  }

  /** The handler looks at the size the file had before reading it, and at nothing after. */
  function FileAnswer(requestID: string, statSize: nat, data: seq<Byte>): Option<seq<Byte>> {
    if statSize > Wire.MaxFileReadBytes then None else Some(ResultFrame(requestID, FileResult(data)))
  }

  lemma FileFrameLength(requestID: string, data: seq<Byte>)
    ensures |ResultFrame(requestID, FileResult(data))| == 4 * ((|data| + 2) / 3) + |requestID| + |D.Format(|data|)| + 74
  {
    Base64Length(data);
    Base64IsPlain(data);
    PlainIsUnchanged(Base64(data));
    hide Base64, Escape, D.Format, Ascii;
  }

  /** A file that is still within the limit when it is read fits. */
  lemma FileAnswerFits(n: nat, statSize: nat, data: seq<Byte>)
    requires n < IdSpace && |data| <= Wire.MaxFileReadBytes
    ensures var answer := FileAnswer(D.Format(n), statSize, data); answer.Some? ==> |answer.value| <= Max
  {
    RequestIdFits(n);
    FileFrameLength(D.Format(n), data);
    IntTextLength(|data|);
  }

  /** The check before the read does not bound what is read: an answer fits exactly when the data read are
      small enough, so a file that grows in between, or reports a size of zero, can exceed the limit. */
  lemma FileAnswerFitsWhen(requestID: string, statSize: nat, data: seq<Byte>)
    ensures var answer := FileAnswer(requestID, statSize, data);
            (answer.Some? ==> |answer.value| <= Max) <==>
            statSize > Wire.MaxFileReadBytes || 4 * ((|data| + 2) / 3) + |requestID| + |D.Format(|data|)| + 74 <= Max
  {
    FileFrameLength(requestID, data);
  }

  lemma GrownFileDoesNotFit(requestID: string, n: nat)
    requires n >= Max
    ensures FileAnswer(requestID, 0, Repeat(0, n)).Some? && |FileAnswer(requestID, 0, Repeat(0, n)).value| > Max
  {
    FileFrameLength(requestID, Repeat(0, n));
  }
}
