/** The bounded output buffer of a process (agent/ringbuffer.go) against the full stream written to it. */
module RingBuffer {
  import opened Bytes
  import opened Wrappers

  function Max(a: int, b: int): int {
    if a < b then b else a
  }

  function Min(a: int, b: int): int {
    if a < b then a else b
  }

  /** The logical offset of the oldest byte a buffer of this capacity still holds. */
  function Oldest(stream: seq<Byte>, capacity: nat): nat {
    Max(0, |stream| - capacity)
  }

  /** What a read returns: the bytes, the offset to continue from, and whether the requested offset had
      already been dropped. */
  datatype Page = Page(data: seq<Byte>, next: int, truncatedBefore: bool)

  /** A read in terms of the full stream. It starts at the requested offset or at the oldest byte still held,
      whichever is later, and ends after `maxBytes` bytes if `maxBytes` is positive, or at the end of the
      stream. */
  function PageOf(stream: seq<Byte>, capacity: nat, offset: int, maxBytes: int): Page {
    var from := Max(offset, Oldest(stream, capacity));
    var to := if maxBytes > 0 then Min(from + maxBytes, |stream|) else |stream|;
    if from >= |stream| then Page([], from, offset < Oldest(stream, capacity))
    else Page(stream[from..to], to, offset < Oldest(stream, capacity))
  }

  class RingBuffer {
    var buf: seq<Byte>
    const capacity: nat
    var start: nat
    ghost var stream: seq<Byte>

    /** The buffer holds exactly the newest `capacity` bytes of all that was written. */
    ghost predicate Valid()
      reads this
    {
      start == Oldest(stream, capacity) && buf == stream[start..]
    }

    constructor (capacity: nat)
      ensures Valid() && stream == [] && this.capacity == capacity
    {
      this.capacity := capacity;
      buf, start, stream := [], 0, [];
    }

    method Write(p: seq<Byte>) returns (n: nat)
      requires Valid()
      modifies this
      ensures Valid() && stream == old(stream) + p && n == |p|
    {
      stream := stream + p;
      buf := buf + p;
      var over := |buf| - capacity;
      if over > 0 {
        buf := buf[over..];
        start := start + over;
      }
      n := |p|;
    }

    method Len() returns (n: nat)
      requires Valid()
      ensures n == |stream|
    {
      n := start + |buf|;
    }

    method ReadFrom(offset: int, maxBytes: int) returns (data: seq<Byte>, next: int, truncatedBefore: bool)
      requires Valid()
      ensures Page(data, next, truncatedBefore) == PageOf(stream, capacity, offset, maxBytes)
    {
      var from := offset;
      truncatedBefore := false;
      if from < start {
        truncatedBefore := true;
        from := start;
      }
      var relStart := from - start;
      if relStart >= |buf| {
        return [], from, truncatedBefore;
      }
      var end := |buf|;
      if maxBytes > 0 && relStart + maxBytes < end {
        end := relStart + maxBytes;
      }
      data := buf[relStart..end];
      next := start + end;
    }
  }

  // ----- one read -----

  /** Every byte between the requested offset and the next one is either returned or was dropped before the
      read, wherever the offset lies. The page is as long as its size limit and the stream allow, and the flag
      says exactly whether it starts later than requested. */
  lemma PageIsExact(stream: seq<Byte>, capacity: nat, offset: int, maxBytes: int)
    ensures var page := PageOf(stream, capacity, offset, maxBytes);
            var gapEnd := page.next - |page.data|;
            && gapEnd == Max(offset, Oldest(stream, capacity)) && gapEnd <= page.next
            && (if gapEnd < |stream| then page.next <= |stream| && page.data == stream[gapEnd..page.next]
                else page.data == [])
            && |page.data| == (if gapEnd >= |stream| then 0
                               else if maxBytes > 0 then Min(maxBytes, |stream| - gapEnd) else |stream| - gapEnd)
            && (page.truncatedBefore <==> offset < gapEnd)
  {
  }

  /** Short of the end a read with any page size moves on, and returns some unless there is nothing to hold it or
      nothing to return. */
  lemma PageAdvances(stream: seq<Byte>, capacity: nat, offset: int, maxBytes: int)
    requires offset < |stream|
    ensures PageOf(stream, capacity, offset, maxBytes).next > offset
    ensures PageOf(stream, capacity, offset, maxBytes).data == [] ==> capacity == 0 || stream == []
  {
  }

  /** Position `i` was asked for and had been dropped. */
  predicate Lost(i: int, offset: int, oldest: nat) {
    0 <= i < oldest && offset <= i
  }

  /** The flag tells the truth: it is up exactly when a byte that was asked for had been dropped. */
  ghost predicate FlagIsTrue(stream: seq<Byte>, capacity: nat, offset: int, maxBytes: int) {
    PageOf(stream, capacity, offset, maxBytes).truncatedBefore
    <==> exists i :: Lost(i, offset, Oldest(stream, capacity))
  }

  /** It does, unless a negative offset meets a buffer that has never dropped anything. */
  lemma FlagIsTrueWhen(stream: seq<Byte>, capacity: nat, offset: int, maxBytes: int)
    ensures FlagIsTrue(stream, capacity, offset, maxBytes) <==> offset >= 0 || Oldest(stream, capacity) > 0
  {
    var oldest := Oldest(stream, capacity);
    if Max(offset, 0) < oldest {
      assert Lost(Max(offset, 0), offset, oldest);
    }
  }

  /** Nothing was ever written and the flag is up. */
  lemma NegativeOffsetMisreports(capacity: nat, maxBytes: int)
    ensures PageOf([], capacity, -1, maxBytes).truncatedBefore && !FlagIsTrue([], capacity, -1, maxBytes)
  {
    FlagIsTrueWhen([], capacity, -1, maxBytes);
  }

  // ----- a reader among writers -----

  datatype Event = Written(chunk: seq<Byte>) | Paged(maxBytes: int)

  /** All that was written by the end of `events`, on top of `stream`. */
  function Total(stream: seq<Byte>, events: seq<Event>): seq<Byte>
    decreases |events|
  {
    if events == [] then stream
    else Total(if events[0].Written? then stream + events[0].chunk else stream, events[1..])
  }

  /** The pages a client gets that continues each read from the previous one's next offset. */
  function Pages(stream: seq<Byte>, capacity: nat, offset: int, events: seq<Event>): seq<Page>
    decreases |events|
  {
    if events == [] then []
    else match events[0]
      case Written(chunk) => Pages(stream + chunk, capacity, offset, events[1..])
      case Paged(maxBytes) =>
        var page := PageOf(stream, capacity, offset, maxBytes);
        [page] + Pages(stream, capacity, page.next, events[1..])
  }

  /** Where the client stands after the pages. */
  function Reached(offset: int, pages: seq<Page>): int {
    if pages == [] then offset else pages[|pages| - 1].next
  }

  function Concat(pages: seq<Page>): seq<Byte> {
    if pages == [] then [] else pages[0].data + Concat(pages[1..])
  }

  /** The positions a client at `offset` was told are gone: for each flagged page, those between the previous
      next offset and the page's first byte. */
  function Gaps(offset: int, pages: seq<Page>): set<int>
    decreases |pages|
  {
    if pages == [] then {}
    else
      var page := pages[0];
      (if page.truncatedBefore then Range(offset, page.next - |page.data|) else {}) + Gaps(page.next, pages[1..])
  }

  function Range(lo: int, hi: int): (r: set<int>)
    ensures forall i :: i in r <==> lo <= i < hi
    decreases hi - lo
  {
    if lo >= hi then {} else {lo} + Range(lo + 1, hi)
  }

  /** The bytes at the positions from `lo` to `hi`, as far as the stream has them, without those in `dropped`. */
  function Kept(stream: seq<Byte>, lo: int, hi: int, dropped: set<int>): seq<Byte>
    decreases hi - lo
  {
    if lo >= hi then []
    else (if 0 <= lo < |stream| && lo !in dropped then [stream[lo]] else []) + Kept(stream, lo + 1, hi, dropped)
  }

  lemma {:induction false} KeptAll(stream: seq<Byte>, lo: int, hi: int, dropped: set<int>)
    requires 0 <= lo <= hi <= |stream|
    requires forall i :: lo <= i < hi ==> i !in dropped
    ensures Kept(stream, lo, hi, dropped) == stream[lo..hi]
    decreases hi - lo
  {
    if lo < hi {
      KeptAll(stream, lo + 1, hi, dropped);
    }
  }

  lemma {:induction false} KeptNone(stream: seq<Byte>, lo: int, hi: int, dropped: set<int>)
    requires forall i :: lo <= i < hi ==> i in dropped
    ensures Kept(stream, lo, hi, dropped) == []
    decreases hi - lo
  {
    if lo < hi {
      KeptNone(stream, lo + 1, hi, dropped);
    }
  }

  lemma {:induction false} KeptSplit(stream: seq<Byte>, lo: int, mid: int, hi: int, dropped: set<int>)
    requires lo <= mid <= hi
    ensures Kept(stream, lo, hi, dropped) == Kept(stream, lo, mid, dropped) + Kept(stream, mid, hi, dropped)
    decreases mid - lo
  {
    if lo < mid {
      KeptSplit(stream, lo + 1, mid, hi, dropped);
    }
  }

  lemma {:induction false} KeptAgrees(stream: seq<Byte>, lo: int, hi: int, dropped: set<int>, other: set<int>)
    requires forall i :: lo <= i < hi ==> (i in dropped <==> i in other)
    ensures Kept(stream, lo, hi, dropped) == Kept(stream, lo, hi, other)
    decreases hi - lo
  {
    if lo < hi {
      KeptAgrees(stream, lo + 1, hi, dropped, other);
      KeptFirst(stream, lo, hi, dropped);
      KeptFirst(stream, lo, hi, other);
      hide Kept;
    }
  }

  lemma KeptFirst(stream: seq<Byte>, lo: int, hi: int, dropped: set<int>)
    requires lo < hi
    ensures Kept(stream, lo, hi, dropped)
         == (if 0 <= lo < |stream| && lo !in dropped then [stream[lo]] else []) + Kept(stream, lo + 1, hi, dropped)
  {
  }

  /** A gap, then a page, then the rest. */
  lemma KeptAroundGap(stream: seq<Byte>, lo: int, gapEnd: nat, data: seq<Byte>, hi: int, dropped: set<int>)
    requires lo <= gapEnd && gapEnd + |data| <= hi
    requires data == [] || (gapEnd + |data| <= |stream| && data == stream[gapEnd..gapEnd + |data|])
    requires forall i :: lo <= i < gapEnd + |data| ==> (i in dropped <==> i < gapEnd)
    ensures Kept(stream, lo, hi, dropped) == data + Kept(stream, gapEnd + |data|, hi, dropped)
  {
    hide Kept;
    var mid := gapEnd + |data|;
    KeptSplit(stream, lo, gapEnd, hi, dropped);
    KeptSplit(stream, gapEnd, mid, hi, dropped);
    KeptNone(stream, lo, gapEnd, dropped);
    if data != [] {
      KeptAll(stream, gapEnd, mid, dropped);
    }
  }

  lemma {:induction false} TotalExtends(stream: seq<Byte>, events: seq<Event>)
    ensures stream <= Total(stream, events)
    decreases |events|
  {
    if events != [] {
      TotalExtends(if events[0].Written? then stream + events[0].chunk else stream, events[1..]);
    }
  }

  /** The client never goes back, never gets ahead of the stream unless it started there, and what it is told is
      gone lies behind it. */
  lemma {:induction false} PagesStayInside(stream: seq<Byte>, capacity: nat, offset: int, events: seq<Event>)
    ensures var pages := Pages(stream, capacity, offset, events);
            && offset <= Reached(offset, pages) <= Max(offset, |Total(stream, events)|)
            && (forall i :: i in Gaps(offset, pages) ==> offset <= i < Reached(offset, pages))
    decreases |events|
  {
    if events != [] {
      match events[0]
      case Written(chunk) => PagesStayInside(stream + chunk, capacity, offset, events[1..]);
      case Paged(maxBytes) =>
        PageIsExact(stream, capacity, offset, maxBytes);
        var page := PageOf(stream, capacity, offset, maxBytes);
        PagesStayInside(stream, capacity, page.next, events[1..]);
        TotalExtends(stream, events[1..]);
        var rest := Pages(stream, capacity, page.next, events[1..]);
        assert Pages(stream, capacity, offset, events)[1..] == rest;
    }
  }

  /** From whatever offset a client starts, whatever is written in between and whatever the page sizes, the pages
      put together are the stream up to where the client stands, minus exactly the gaps it was told about. */
  lemma {:induction false} PagingLosesOnlyGaps(stream: seq<Byte>, capacity: nat, offset: int, events: seq<Event>)
    ensures var pages := Pages(stream, capacity, offset, events);
            var total := Total(stream, events);
            && offset <= Reached(offset, pages) <= Max(offset, |total|)
            && Concat(pages) == Kept(total, offset, Reached(offset, pages), Gaps(offset, pages))
    decreases |events|, 0
  {
    PagesStayInside(stream, capacity, offset, events);
    if events != [] {
      match events[0]
      case Written(chunk) => PagingLosesOnlyGaps(stream + chunk, capacity, offset, events[1..]);
      case Paged(maxBytes) => PageLosesOnlyGap(stream, capacity, offset, maxBytes, events[1..]);
    }
  }

  lemma {:induction false} PageLosesOnlyGap(stream: seq<Byte>, capacity: nat, offset: int, maxBytes: int,
                                            events: seq<Event>)
    ensures var page := PageOf(stream, capacity, offset, maxBytes);
            var pages := [page] + Pages(stream, capacity, page.next, events);
            var total := Total(stream, events);
            && Concat(pages) == Kept(total, offset, Reached(offset, pages), Gaps(offset, pages))
    decreases |events|, 1
  {
    PageIsExact(stream, capacity, offset, maxBytes);
    var page := PageOf(stream, capacity, offset, maxBytes);
    var gapEnd := page.next - |page.data|;
    var rest := Pages(stream, capacity, page.next, events);
    var pages := [page] + rest;
    var total, end, gaps := Total(stream, events), Reached(offset, pages), Gaps(offset, pages);
    assert pages[1..] == rest;
    PagesStayInside(stream, capacity, page.next, events);
    PagingLosesOnlyGaps(stream, capacity, page.next, events);
    TotalExtends(stream, events);
    assert page.data != [] ==> total[gapEnd..page.next] == stream[gapEnd..page.next];
    hide Pages, PageOf, Total, Kept;
    KeptAroundGap(total, offset, gapEnd, page.data, end, gaps);
    KeptAgrees(total, page.next, end, gaps, Gaps(page.next, rest));
  }

  /** Once writers have stopped, a client that keeps paging gets to the end, and from an offset still held it
      gets everything from there on. */
  method Drain(r: RingBuffer, offset: int, pageSize: int) returns (data: seq<Byte>, next: int, gap: bool)
    requires r.Valid()
    ensures next == Max(offset, |r.stream|)
    ensures var from := Max(offset, Oldest(r.stream, r.capacity));
            data == if from < |r.stream| then r.stream[from..] else []
    ensures gap <==> offset < Oldest(r.stream, r.capacity)
  {
    data, next, gap := [], offset, false;
    var len := r.Len();
    while next < len
      invariant offset <= next <= Max(offset, |r.stream|)
      invariant next == offset ==> data == [] && !gap
      invariant next > offset ==>
                  && next >= Oldest(r.stream, r.capacity) && (gap <==> offset < Oldest(r.stream, r.capacity))
                  && data == r.stream[Max(offset, Oldest(r.stream, r.capacity))..next]
      decreases len - next
    {
      PageIsExact(r.stream, r.capacity, next, pageSize);
      PageAdvances(r.stream, r.capacity, next, pageSize);
      var chunk, after, truncated := r.ReadFrom(next, pageSize);
      data, next, gap := data + chunk, after, gap || truncated;
    }
  }
}
