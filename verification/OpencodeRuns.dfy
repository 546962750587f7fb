/** `ansina.opencode.repository`: the `opencode_runs` table. */
module OpencodeRuns {
  import opened Wrappers
  import opened Counting

  type RunId = string

  datatype Status = Queued | Running | Succeeded | Failed | TimedOut | Cancelled

  predicate Terminal(s: Status) {
    s in {Succeeded, Failed, TimedOut, Cancelled}
  }

  /** Where a status stands in a run's life; a row only ever moves up. */
  function Rank(s: Status): nat {
    if s == Queued then 0 else if s == Running then 1 else 2
  }

  /** What the child asked for and used. */
  datatype Usage = Usage(toolCalls: nat, permissionsDenied: nat, promptTokens: Option<nat>,
                         completionTokens: Option<nat>, duration: Option<real>)

  datatype Row = Row(status: Status, prompt: string, sessionId: Option<string>,
                     createdAt: int, startedAt: Option<int>, completedAt: Option<int>,
                     exitCode: Option<int>, errorDetail: string, eventCount: nat, parseErrors: nat,
                     usage: Usage, retryOf: Option<RunId>, interventions: nat)

  /** The keyword arguments of `update_status`; `None` leaves its column alone. */
  datatype Patch = Patch(startedAt: Option<int>, completedAt: Option<int>, exitCode: Option<int>,
                         errorDetail: Option<string>, eventCount: Option<nat>, parseErrors: Option<nat>,
                         toolCalls: Option<nat>, permissionsDenied: Option<nat>, promptTokens: Option<nat>,
                         completionTokens: Option<nat>, duration: Option<real>, interventions: Option<nat>)

  const NO_PATCH := Patch(None, None, None, None, None, None, None, None, None, None, None, None)

  const NO_USAGE := Usage(0, 0, None, None, None)

  const DAEMON_RESTARTED := "daemon restarted"

  function Or<T>(patch: Option<T>, column: T): T {
    if patch.Some? then patch.value else column
  }

  function NewRow(prompt: string, sessionId: Option<string>, createdAt: int, retryOf: Option<RunId>): Row {
    Row(Queued, prompt, sessionId, createdAt, None, None, None, "", 0, 0, NO_USAGE, retryOf, 0)
  }

  /** `COALESCE(?, column)` on a column that may be null. */
  function Coalesced<T>(patch: Option<T>, column: Option<T>): Option<T> {
    if patch.Some? then patch else column
  }

  function UpdatedUsage(u: Usage, p: Patch): Usage {
    Usage(Or(p.toolCalls, u.toolCalls), Or(p.permissionsDenied, u.permissionsDenied),
          Coalesced(p.promptTokens, u.promptTokens), Coalesced(p.completionTokens, u.completionTokens),
          Coalesced(p.duration, u.duration))
  }

  /** `UPDATE ... WHERE id = ? AND status NOT IN (<terminal>)` on one row; `None` when no row matches. */
  function UpdatedRow(row: Row, status: Status, p: Patch): Option<Row> {
    if Terminal(row.status) then None
    else Some(row.(status := status,
                   startedAt := Coalesced(p.startedAt, row.startedAt),
                   completedAt := Coalesced(p.completedAt, row.completedAt),
                   exitCode := Coalesced(p.exitCode, row.exitCode),
                   errorDetail := Or(p.errorDetail, row.errorDetail),
                   eventCount := Or(p.eventCount, row.eventCount),
                   parseErrors := Or(p.parseErrors, row.parseErrors),
                   usage := UpdatedUsage(row.usage, p),
                   interventions := Or(p.interventions, row.interventions)))
  }

  function IntervenedRow(row: Row): Row {
    row.(interventions := row.interventions + 1)
  }

  /** `sweep_stale_on_boot` on one row. */
  function BootSweptRow(row: Row, now: int): Row {
    if Terminal(row.status) then row
    else row.(status := Failed, errorDetail := DAEMON_RESTARTED, completedAt := Some(now))
  }

  predicate ActiveRow(row: Row) {
    !Terminal(row.status)
  }

  /** The column holds what the patch gives, or what it held. */
  predicate Patched<T(==)>(patch: Option<T>, before: Option<T>, after: Option<T>) {
    (patch.Some? ==> after == patch) && (patch.None? ==> after == before)
  }

  /**
   * An update column by column: the status is the new one, every column the call names takes its value, a
   * null one included, every other column stays; prompt, session, creation time and parent cannot be changed.
   */
  lemma UpdateSetsNamedColumns(row: Row, status: Status, p: Patch)
    ensures UpdatedRow(row, status, p).None? <==> row.status !in {Queued, Running}
    ensures row.status in {Queued, Running} ==>
              var x := UpdatedRow(row, status, p).value;
              && x.status == status && x.prompt == row.prompt && x.sessionId == row.sessionId
              && x.createdAt == row.createdAt && x.retryOf == row.retryOf
              && Patched(p.startedAt, row.startedAt, x.startedAt)
              && Patched(p.completedAt, row.completedAt, x.completedAt)
              && Patched(p.exitCode, row.exitCode, x.exitCode)
              && Patched(p.errorDetail, Some(row.errorDetail), Some(x.errorDetail))
              && Patched(p.eventCount, Some(row.eventCount), Some(x.eventCount))
              && Patched(p.parseErrors, Some(row.parseErrors), Some(x.parseErrors))
              && Patched(p.toolCalls, Some(row.usage.toolCalls), Some(x.usage.toolCalls))
              && Patched(p.permissionsDenied, Some(row.usage.permissionsDenied), Some(x.usage.permissionsDenied))
              && Patched(p.promptTokens, row.usage.promptTokens, x.usage.promptTokens)
              && Patched(p.completionTokens, row.usage.completionTokens, x.usage.completionTokens)
              && Patched(p.duration, row.usage.duration, x.usage.duration)
              && Patched(p.interventions, Some(row.interventions), Some(x.interventions))
  {
    EveryStatus(row.status);
  }

  /** The rows that are not over are the queued and the running ones. */
  lemma EveryStatus(x: Status)
    ensures x in {Queued, Running} <==> !Terminal(x)
  {
    match x
    case Queued =>
    case Running =>
    case Succeeded =>
    case Failed =>
    case TimedOut =>
    case Cancelled =>
  }

  class OpencodeRunRepository {
    var rows: map<RunId, Row>

    constructor ()
      ensures rows == map[]
    {
      rows := map[];
    }

    /** `id` is the fresh `uuid4` of the new row. */
    method Create(id: RunId, prompt: string, sessionId: Option<string>, createdAt: int,
        retryOf: Option<RunId>) returns (run: Row)
      requires id !in rows
      modifies this`rows
      ensures run == Row(Queued, prompt, sessionId, createdAt, None, None, None, "", 0, 0,
                         Usage(0, 0, None, None, None), retryOf, 0)
      ensures rows == old(rows)[id := run]
      ensures Count(rows, ActiveRow) == Count(old(rows), ActiveRow) + 1
    {
      run := Row(Queued, prompt, sessionId, createdAt, None, None, None, "", 0, 0, NO_USAGE, retryOf, 0);
      CountUpdate(rows, id, run, ActiveRow);
      rows := rows[id := run];
    }

    /** A refused transition is the assertion error of the source: nothing is written. */
    method UpdateStatus(id: RunId, status: Status, p: Patch) returns (r: Option<Row>)
      modifies this`rows
      ensures r.Some? <==> id in old(rows) && !Terminal(old(rows)[id].status)
      ensures r.Some? ==> r == UpdatedRow(old(rows)[id], status, p) && rows == old(rows)[id := r.value]
      ensures r.None? ==> rows == old(rows)
    {
      if id !in rows || Terminal(rows[id].status) {
        return None;
      }
      var row := rows[id];
      row := row.(status := status, startedAt := Coalesced(p.startedAt, row.startedAt),
        completedAt := Coalesced(p.completedAt, row.completedAt), exitCode := Coalesced(p.exitCode, row.exitCode),
        errorDetail := Or(p.errorDetail, row.errorDetail), eventCount := Or(p.eventCount, row.eventCount),
        parseErrors := Or(p.parseErrors, row.parseErrors), interventions := Or(p.interventions, row.interventions),
        usage := UpdatedUsage(row.usage, p));
      rows := rows[id := row];
      return Some(row);
    }

    method CountActive() returns (n: nat)
      ensures n == Count(rows, ActiveRow)
    {
      var active := set id | id in rows && (rows[id].status == Queued || rows[id].status == Running);
      assert active == Having(rows, ActiveRow);
      return |active|;
    }

    method IncrementInterventionCount(id: RunId) returns (r: Option<nat>)
      modifies this`rows
      ensures r.Some? <==> id in old(rows)
      ensures r.Some? ==>
                && r.value == old(rows)[id].interventions + 1
                && rows == old(rows)[id := old(rows)[id].(interventions := r.value)]
      ensures r.None? ==> rows == old(rows)
    {
      if id !in rows {
        return None;
      }
      rows := rows[id := rows[id].(interventions := rows[id].interventions + 1)];
      return Some(rows[id].interventions);
    }

    /** Returns how many rows a previous process left active; none is active afterwards. */
    method SweepStaleOnBoot(now: int) returns (swept: nat)
      modifies this`rows
      ensures rows == map id | id in old(rows) :: BootSweptRow(old(rows)[id], now)
      ensures forall id :: id in old(rows) ==>
                var before := old(rows)[id];
                rows[id] == if before.status in {Queued, Running}
                            then before.(status := Failed, errorDetail := "daemon restarted", completedAt := Some(now))
                            else before
      ensures swept == Count(old(rows), ActiveRow)
      ensures Count(rows, ActiveRow) == 0
    {
      swept := CountActive();
      var old_rows := rows;
      rows := map id | id in old_rows ::
        if old_rows[id].status == Queued || old_rows[id].status == Running
        then old_rows[id].(status := Failed, errorDetail := "daemon restarted", completedAt := Some(now))
        else old_rows[id];
      assert Having(rows, ActiveRow) == {};
    }
  }
}
