/** The one-shot output of `command.exec` and `command.read` (agent/handlers_command.go) and the page size of
    `process.read` (agent/handlers_process.go). */
module CommandOutput {
  import opened Bytes
  import opened RingBuffer
  import Wire

  const Cap: nat := Wire.MaxCommandOutputBytes

  /** The tail of the handler: read once from offset 0, then compare the next offset with the length of the
      stream. A timed-out process goes on writing in between; `late` is what it writes. */
  method TakeOutput(r: RingBuffer, late: seq<Byte>) returns (data: seq<Byte>, truncated: bool)
    requires r.Valid()
    modifies r
    ensures r.Valid() && r.stream == old(r.stream) + late
    ensures data == PageOf(old(r.stream), r.capacity, 0, Cap).data
    ensures truncated == Truncated(old(r.stream), late, r.capacity)
  {
    var next, before;
    data, next, before := r.ReadFrom(0, Cap);
    var written := r.Write(late);
    var len := r.Len();
    truncated := next < len;
  }

  function Truncated(atRead: seq<Byte>, late: seq<Byte>, capacity: nat): bool {
    PageOf(atRead, capacity, 0, Cap).next < |atRead + late|
  }

  /** The flag tells the truth: it is down exactly when the caller got the whole stream as of the moment its
      length was taken. */
  predicate FlagIsExact(atRead: seq<Byte>, late: seq<Byte>, capacity: nat) {
    !Truncated(atRead, late, capacity) <==> PageOf(atRead, capacity, 0, Cap).data == atRead + late
  }

  /** It does, for every stream, if the buffer is larger than the cap; with a smaller buffer, only while the
      stream fits the buffer or grows after the read. */
  lemma FlagIsExactWhen(atRead: seq<Byte>, late: seq<Byte>, capacity: nat)
    ensures FlagIsExact(atRead, late, capacity) <==> capacity > Cap || |atRead| <= capacity || late != []
  {
    var page := PageOf(atRead, capacity, 0, Cap);
    assert |page.data| <= page.next <= |atRead|;
    if page.data == atRead + late {
      assert |page.data| == |atRead + late|;
    }
  }

  /** So the hypothesis on the capacity is needed, and no weaker one would do. */
  lemma CapacityMustExceedCap(capacity: nat)
    ensures (forall atRead, late :: FlagIsExact(atRead, late, capacity)) <==> capacity > Cap
  {
    if capacity > Cap {
      forall atRead, late
        ensures FlagIsExact(atRead, late, capacity)
      {
        FlagIsExactWhen(atRead, late, capacity);
      }
    } else {
      var stream := seq(capacity + 1, i => 0 as Byte);
      FlagIsExactWhen(stream, [], capacity);
    }
  }

  /** Page size of `process.read`: out-of-range requests get the cap. */
  function ClampMaxBytes(requested: int): (n: int)
    ensures 1 <= n <= Cap
    ensures 1 <= requested <= Cap ==> n == requested
    ensures !(1 <= requested <= Cap) ==> n == Cap
  {
    if requested <= 0 || requested > Cap then Cap else requested
  }

  /** Neither output of a one-shot command nor a page is ever longer than the cap. */
  lemma OutputIsCapped(stream: seq<Byte>, capacity: nat, offset: int, requested: int)
    ensures |PageOf(stream, capacity, offset, ClampMaxBytes(requested)).data| <= ClampMaxBytes(requested) <= Cap
    ensures |PageOf(stream, capacity, 0, Cap).data| <= Cap
  {
  }
}
