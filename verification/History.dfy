/** The execution history (agent/history.go): a table keyed by execution id, whose statements either take
    effect at once or fail and change nothing. Times are instants of module `Timestamp`. */
module History {
  import opened Wrappers
  import T = Timestamp

  /** One row, as stored. */
  datatype Row = Row(
    processID: string,
    deviceID: string,
    mode: string,
    command: string,
    cwd: string,
    startedAt: string,
    endedAt: Option<string>,
    exitCode: Option<int>,
    clientContextID: Option<string>,
    clientSubject: Option<string>)

  /** One execution, as written and read. */
  datatype Execution = Execution(
    executionID: string,
    processID: string,
    deviceID: string,
    mode: string,
    command: string,
    cwd: string,
    startedAt: nat,
    endedAt: Option<nat>,
    exitCode: Option<int>,
    clientContextID: string,
    clientSubject: string)

  type Table = map<string, Row>

  function NullIfEmpty(s: string): Option<string> {
    if s == "" then None else Some(s)
  }

  function OrEmpty(s: Option<string>): string {
    match s case None => "" case Some(v) => v
  }

  function StartRow(e: Execution): Row
    requires e.startedAt < T.End()
  {
    Row(e.processID, e.deviceID, e.mode, e.command, e.cwd, T.Format(e.startedAt), None, None,
        NullIfEmpty(e.clientContextID), NullIfEmpty(e.clientSubject))
  }

  /** Reading a row back; a text that does not parse is an error. */
  function Scan(id: string, row: Row): Option<Execution> {
    match T.Parse(row.startedAt)
    case None => None
    case Some(started) =>
      if row.endedAt.Some? && T.Parse(row.endedAt.value).None? then None
      else Some(Execution(id, row.processID, row.deviceID, row.mode, row.command, row.cwd, started,
                          if row.endedAt.Some? then T.Parse(row.endedAt.value) else None,
                          row.exitCode, OrEmpty(row.clientContextID), OrEmpty(row.clientSubject)))
  }

  /** The effect of an applied `UPDATE`; an id without a row is left without one. */
  function Ended(rows: Table, id: string, endedAt: nat, exitCode: Option<int>): Table
    requires endedAt < T.End()
  {
    if id in rows then rows[id := rows[id].(endedAt := Some(T.Format(endedAt)), exitCode := exitCode)] else rows
  }

  function Purged(rows: Table, cutoff: nat): Table
    requires cutoff < T.End()
  {
    map id | id in rows && !T.Less(rows[id].startedAt, T.Format(cutoff)) :: rows[id]
  }

  // ----- the database -----

  /** The outcome of one statement; `code` is the engine's extended result code, absent for other errors. */
  datatype DbResult = Applied | Error(code: Option<int>)

  const SqliteBusy := 5

  /** The low byte of the extended code is the primary code. */
  predicate IsBusy(r: DbResult) {
    r.Error? && r.code.Some? && r.code.value % 256 == SqliteBusy
  }

  /** SQLITE_BUSY and its extended codes SQLITE_BUSY_RECOVERY, _SNAPSHOT and _TIMEOUT are retried; a lock conflict
      inside the process, a constraint violation, a full disk and errors without a code are not. In general exactly
      the codes that lie a multiple of 256 above 5 are. */
  lemma BusyCodes(code: int)
    ensures forall c :: c in {5, 261, 517, 773} ==> IsBusy(Error(Some(c)))
    ensures forall c :: c in {6, 10, 13, 19, 262, 2067} ==> !IsBusy(Error(Some(c)))
    ensures !IsBusy(Error(None)) && !IsBusy(Applied)
    ensures IsBusy(Error(Some(code))) <==> exists n :: code == 5 + 256 * n
  {
    if IsBusy(Error(Some(code))) {
      assert code == 5 + 256 * (code / 256);
    }
  }

  const MaxRetries: nat := 3

  const RetryDelayMs: nat := 100

  /** The attempt that decides a `RecordEnd`: the first that is not busy, or the last there is. */
  function Deciding(outcomes: nat -> DbResult, attempt: nat): (k: nat)
    requires attempt <= MaxRetries
    ensures attempt <= k <= MaxRetries
    ensures forall i :: attempt <= i < k ==> IsBusy(outcomes(i))
    ensures k == MaxRetries || !IsBusy(outcomes(k))
    decreases MaxRetries - attempt
  {
    if attempt == MaxRetries || !IsBusy(outcomes(attempt)) then attempt else Deciding(outcomes, attempt + 1)
  }

  /** Reads the given rows back, in order. */
  method ScanAll(rows: Table, ids: seq<string>) returns (list: seq<Execution>)
    requires forall i :: 0 <= i < |ids| ==> ids[i] in rows && Scan(ids[i], rows[ids[i]]).Some?
    ensures |list| == |ids| && forall i :: 0 <= i < |ids| ==> Some(list[i]) == Scan(ids[i], rows[ids[i]])
  {
    hide Scan;
    list := [];
    for i := 0 to |ids|
      invariant |list| == i && forall j :: 0 <= j < i ==> Some(list[j]) == Scan(ids[j], rows[ids[j]])
    {
      list := list + [Scan(ids[i], rows[ids[i]]).value];
    }
  }

  class HistoryStore {
    var rows: Table

    constructor ()
      ensures rows == map[]
    {
      rows := map[];
    }

    /** Every stored time can be read back. */
    ghost predicate Valid()
      reads this
    {
      forall id :: id in rows ==> Scan(id, rows[id]).Some?
    }

    /** An insertion under an id that is taken fails and changes nothing. */
    method RecordStart(e: Execution, outcome: DbResult) returns (ok: bool)
      requires Valid() && e.startedAt < T.End()
      modifies this
      ensures Valid() && (ok <==> outcome.Applied? && e.executionID !in old(rows))
      ensures rows == if ok then old(rows)[e.executionID := StartRow(e)] else old(rows)
    {
      StartReadsBack(e);
      ok := outcome.Applied? && e.executionID !in rows;
      if ok {
        rows := rows[e.executionID := StartRow(e)];
      }
    }

    /** Busy attempts are retried, at most three times and 100 ms apart; any other outcome is final. The row
        is ended exactly when the deciding attempt is applied, and then once. */
    method RecordEnd(id: string, endedAt: nat, exitCode: Option<int>, outcomes: nat -> DbResult)
      returns (result: DbResult, sleptMs: nat)
      requires Valid() && endedAt < T.End()
      modifies this
      ensures Valid()
      ensures result == outcomes(Deciding(outcomes, 0)) && sleptMs == RetryDelayMs * Deciding(outcomes, 0)
      ensures rows == if result.Applied? then Ended(old(rows), id, endedAt, exitCode) else old(rows)
    {
      sleptMs := 0;
      EndReadsBack(rows, id, endedAt, exitCode);
      var attempt := 0;
      while true
        invariant attempt <= MaxRetries && sleptMs == RetryDelayMs * attempt
        invariant rows == old(rows)
        invariant Deciding(outcomes, 0) == Deciding(outcomes, attempt)
        decreases MaxRetries - attempt
      {
        result := outcomes(attempt);
        if result.Applied? {
          rows := Ended(rows, id, endedAt, exitCode);
          return;
        }
        if !IsBusy(result) || attempt == MaxRetries {
          return;
        }
        sleptMs := sleptMs + RetryDelayMs;
        attempt := attempt + 1;
      }
    }

    method Get(id: string) returns (found: Option<Execution>)
      requires Valid()
      ensures found == if id in rows then Scan(id, rows[id]) else None
      ensures found.Some? <==> id in rows
    {
      if id in rows {
        found := Scan(id, rows[id]);
      } else {
        found := None;
      }
    }

    /** `ids` is the order the database delivers the selected rows in, `readable` how many of them it delivers
        before an error, if there is one; an error anywhere loses the whole listing. */
    method List(ghost limit: int, ids: seq<string>, readable: Option<nat>) returns (out: Option<seq<Execution>>)
      requires Valid() && IsListing(rows, limit, ids)
      requires readable.Some? ==> readable.value <= |ids|
      ensures out.Some? <==> readable.None?
      ensures out.Some? ==> IsRecent(rows, limit, out.value)
    {
      hide Scan, IsRecent, IsListing;
      assert forall i :: 0 <= i < |ids| ==> ids[i] in rows by {
        ListedAreRows(rows, limit, ids);
      }
      if readable.Some? {
        var lost := ScanAll(rows, ids[..readable.value]);
        return None;
      }
      var list := ScanAll(rows, ids);
      ListingIsMostRecent(rows, limit, ids, list);
      return Some(list);
    }

    method PurgeOlderThan(cutoff: nat, outcome: DbResult)
      requires Valid() && cutoff < T.End()
      modifies this
      ensures Valid()
      ensures rows == if outcome.Applied? then Purged(old(rows), cutoff) else old(rows)
    {
      if outcome.Applied? {
        rows := Purged(rows, cutoff);
      }
    }
  }

  // ----- round trips -----

  lemma StartReadsBack(e: Execution)
    requires e.startedAt < T.End()
    ensures Scan(e.executionID, StartRow(e)) == Some(e.(endedAt := None, exitCode := None))
  {
    T.ParseInvertsFormat(T.Format(e.startedAt), e.startedAt);
  }

  lemma EndReadsBack(rows: Table, id: string, endedAt: nat, exitCode: Option<int>)
    requires endedAt < T.End()
    ensures forall i :: i in rows ==>
              Scan(i, Ended(rows, id, endedAt, exitCode)[i]) ==
              if i == id && Scan(i, rows[i].(endedAt := None)).Some?
              then Some(Scan(i, rows[i].(endedAt := None)).value.(endedAt := Some(endedAt), exitCode := exitCode))
              else if i == id then None else Scan(i, rows[i])
  {
    T.ParseInvertsFormat(T.Format(endedAt), endedAt);
  }

  /** What was recorded at the start and at the end is what is read, with times exact to the nanosecond and
      absent client fields as empty strings. */
  lemma RecordedIsRead(rows: Table, e: Execution, endedAt: nat, exitCode: Option<int>)
    requires e.startedAt < T.End() && endedAt < T.End()
    ensures var after := Ended(rows[e.executionID := StartRow(e)], e.executionID, endedAt, exitCode);
            e.executionID in after
            && Scan(e.executionID, after[e.executionID]) == Some(e.(endedAt := Some(endedAt), exitCode := exitCode))
  {
    StartReadsBack(e);
    EndReadsBack(rows[e.executionID := StartRow(e)], e.executionID, endedAt, exitCode);
  }

  /** Comparing texts deletes exactly the executions that started before the cutoff, and keeps the others as
      they are. */
  lemma PurgeIsByTime(rows: Table, cutoff: nat, id: string)
    requires cutoff < T.End() && id in rows && Scan(id, rows[id]).Some?
    ensures id in Purged(rows, cutoff) <==> Scan(id, rows[id]).value.startedAt >= cutoff
    ensures id in Purged(rows, cutoff) ==> Purged(rows, cutoff)[id] == rows[id]
  {
    var t := T.Parse(rows[id].startedAt).value;
    T.ParsedFormats(rows[id].startedAt);
    T.FormatOrder(t, cutoff);
  }

  // ----- listing -----

  /** What `ORDER BY started_at DESC LIMIT` may return: distinct rows, texts descending, as many as allowed (a
      negative limit allows all), and no row left out that sorts before one that is in. */
  ghost predicate IsListing(rows: Table, limit: int, ids: seq<string>) {
    && (forall i :: 0 <= i < |ids| ==> ids[i] in rows)
    && (forall i, j :: 0 <= i < j < |ids| ==> ids[i] != ids[j])
    && (forall i, j :: 0 <= i < j < |ids| ==> !T.Less(rows[ids[i]].startedAt, rows[ids[j]].startedAt))
    && |ids| == (if 0 <= limit < |rows| then limit else |rows|)
    && (forall i, id :: 0 <= i < |ids| && id in rows && id !in ids ==>
          !T.Less(rows[ids[i]].startedAt, rows[id].startedAt))
  }

  function StartTime(rows: Table, id: string): nat
    requires id in rows && Scan(id, rows[id]).Some?
  {
    Scan(id, rows[id]).value.startedAt
  }

  /** The most recent executions, in terms of time: distinct, as the table has them, newest first, as many as
      allowed, and nothing left out is newer than anything in the list. */
  ghost predicate IsRecent(rows: Table, limit: int, list: seq<Execution>) {
    && |list| == (if 0 <= limit < |rows| then limit else |rows|)
    && (forall i :: 0 <= i < |list| ==>
          list[i].executionID in rows && Scan(list[i].executionID, rows[list[i].executionID]) == Some(list[i]))
    && (forall i, j :: 0 <= i < j < |list| ==>
          list[i].executionID != list[j].executionID && list[i].startedAt >= list[j].startedAt)
    && (forall i, id :: 0 <= i < |list| && id in rows && (forall j :: 0 <= j < |list| ==> list[j].executionID != id) ==>
          Scan(id, rows[id]).Some? && list[i].startedAt >= Scan(id, rows[id]).value.startedAt)
  }

  /** Comparing texts is comparing times. */
  lemma TextOrderIsTimeOrder(rows: Table, a: string, b: string)
    requires a in rows && b in rows && Scan(a, rows[a]).Some? && Scan(b, rows[b]).Some?
    ensures T.Less(rows[a].startedAt, rows[b].startedAt) <==> StartTime(rows, a) < StartTime(rows, b)
  {
    T.ParsedFormats(rows[a].startedAt);
    T.ParsedFormats(rows[b].startedAt);
    T.FormatOrder(StartTime(rows, a), StartTime(rows, b));
  }

  /** What the rows of a listing read back as are the most recent executions. */
  lemma ListingIsMostRecent(rows: Table, limit: int, ids: seq<string>, list: seq<Execution>)
    requires forall id :: id in rows ==> Scan(id, rows[id]).Some?
    requires IsListing(rows, limit, ids) && |list| == |ids|
    requires forall i :: 0 <= i < |ids| ==> Some(list[i]) == Scan(ids[i], rows[ids[i]])
    ensures IsRecent(rows, limit, list)
  {
    hide Scan, T.Less;
    forall i | 0 <= i < |ids|
      ensures list[i].executionID == ids[i]
    {
      ScanKeepsId(ids[i], rows[ids[i]]);
    }
    forall i, j | 0 <= i < j < |list|
      ensures list[i].startedAt >= list[j].startedAt
    {
      TextOrderIsTimeOrder(rows, ids[i], ids[j]);
    }
    forall i, id | 0 <= i < |list| && id in rows && (forall j :: 0 <= j < |list| ==> list[j].executionID != id)
      ensures list[i].startedAt >= StartTime(rows, id)
    {
      assert id !in ids;
      LeftOutIsOlder(rows, limit, ids, i, id);
    }
    hide IsListing;
  }

  lemma LeftOutIsOlder(rows: Table, limit: int, ids: seq<string>, i: nat, id: string)
    requires IsListing(rows, limit, ids) && i < |ids| && id in rows && id !in ids
    requires Scan(ids[i], rows[ids[i]]).Some? && Scan(id, rows[id]).Some?
    ensures StartTime(rows, ids[i]) >= StartTime(rows, id)
  {
    hide Scan, T.Less;
    TextOrderIsTimeOrder(rows, ids[i], id);
  }

  lemma ListedAreRows(rows: Table, limit: int, ids: seq<string>)
    requires IsListing(rows, limit, ids)
    ensures forall i :: 0 <= i < |ids| ==> ids[i] in rows
  {
  }

  lemma ScanKeepsId(id: string, row: Row)
    ensures Scan(id, row).Some? ==> Scan(id, row).value.executionID == id
  {
  }

  /** Of any set of rows, the one that starts last. */
  lemma {:induction false} Latest(rows: Table, ids: set<string>) returns (id: string)
    requires ids != {} && ids <= rows.Keys && forall i :: i in ids ==> Scan(i, rows[i]).Some?
    ensures id in ids && forall i :: i in ids ==> StartTime(rows, i) <= StartTime(rows, id)
    decreases |ids|
  {
    id :| id in ids;
    if ids != {id} {
      var rest := ids - {id};
      assert ids == rest + {id};
      var other := Latest(rows, rest);
      if StartTime(rows, other) > StartTime(rows, id) {
        id := other;
      }
    }
  }

  /** `sorted` are the rows of `ids`, each once, newest first. */
  ghost predicate IsSorted(rows: Table, ids: set<string>, sorted: seq<string>)
    requires ids <= rows.Keys && forall i :: i in ids ==> Scan(i, rows[i]).Some?
  {
    && |sorted| == |ids| && (forall i :: 0 <= i < |sorted| ==> sorted[i] in ids)
    && (forall i, j :: 0 <= i < j < |sorted| ==> sorted[i] != sorted[j])
    && (forall i, j :: 0 <= i < j < |sorted| ==> StartTime(rows, sorted[i]) >= StartTime(rows, sorted[j]))
  }

  lemma {:induction false} Sort(rows: Table, ids: set<string>) returns (sorted: seq<string>)
    requires ids <= rows.Keys && forall i :: i in ids ==> Scan(i, rows[i]).Some?
    ensures IsSorted(rows, ids, sorted)
    decreases |ids|
  {
    hide Scan;
    sorted := [];
    if ids != {} {
      var first := Latest(rows, ids);
      var rest := Sort(rows, ids - {first});
      sorted := [first] + rest;
    }
  }

  /** Every table has a listing for every limit, so what is promised of listings is promised of something. */
  lemma ListingExists(rows: Table, limit: int) returns (ids: seq<string>)
    requires forall id :: id in rows ==> Scan(id, rows[id]).Some?
    ensures IsListing(rows, limit, ids)
  {
    hide Scan, T.Less;
    var sorted := Sort(rows, rows.Keys);
    var n := if 0 <= limit < |rows| then limit else |rows|;
    ids := sorted[..n];
    forall i, j | 0 <= i < j < |sorted|
      ensures !T.Less(rows[sorted[i]].startedAt, rows[sorted[j]].startedAt)
    {
      TextOrderIsTimeOrder(rows, sorted[i], sorted[j]);
    }
    forall i, id | 0 <= i < n && id in rows && id !in ids
      ensures !T.Less(rows[ids[i]].startedAt, rows[id].startedAt)
    {
      NotInPrefix(rows.Keys, sorted, n, id);
    }
  }

  /** A member the first `n` leave out comes later. */
  lemma NotInPrefix<K>(all: set<K>, some: seq<K>, n: nat, id: K)
    requires |some| == |all| && id in all && n <= |some| && id !in some[..n]
    requires forall i :: 0 <= i < |some| ==> some[i] in all
    requires forall i, j :: 0 <= i < j < |some| ==> some[i] != some[j]
    ensures exists j :: n <= j < |some| && some[j] == id
  {
    AllAreIn(all, some, id);
    assert forall j :: 0 <= j < n ==> some[j] == some[..n][j];
  }

  /** As many distinct members as the set has are all of them. */
  lemma {:induction false} AllAreIn<K>(all: set<K>, some: seq<K>, id: K)
    requires |some| == |all| && id in all
    requires forall i :: 0 <= i < |some| ==> some[i] in all
    requires forall i, j :: 0 <= i < j < |some| ==> some[i] != some[j]
    ensures id in some
    decreases |some|
  {
    var last := some[|some| - 1];
    if id != last {
      AllAreIn(all - {last}, some[..|some| - 1], id);
    }
  }
}
