/** The persistent outbox: its two tables, its in-memory counter, and the class that updates them.
    Every method of `Outbox` runs under the object's lock and commits before releasing it. */
module OutboxTable {
  import opened Prelude
  import opened Telemetry

  const ERROR_LIMIT := 2000
  const SMALLEST_LIMIT := 1000

  datatype Row = Row(id: nat, mail: Message, enqueuedAt: real, retryCount: nat, lastError: Option<string>)

  datatype DeadRow = DeadRow(id: nat, mail: Message, enqueuedAt: real, movedAt: real,
                             retryCount: nat, lastError: string)

  /** Both tables with their AUTOINCREMENT counters: what survives a process crash. */
  datatype Tables = Tables(rows: seq<Row>, nextId: nat, dead: seq<DeadRow>, nextDeadId: nat)

  /** The tables together with the in-memory estimate of the number of pending rows. */
  datatype Queue = Queue(tables: Tables, estimate: nat, maxPending: nat)

  const EMPTY_TABLES := Tables([], 1, [], 1)

  ghost predicate Ascending(rows: seq<Row>) {
    forall i, j :: 0 <= i < j < |rows| ==> rows[i].id < rows[j].id
  }

  /** Empty headers are stored as absent ones. */
  function Filed(m: Message): (filed: Message)
    ensures filed.id == m.id && filed.correlation == m.correlation && filed.payload == m.payload
    ensures filed.headers == m.headers || (m.headers == Some(map[]) && filed.headers == None)
    ensures filed.headers != Some(map[])
  {
    if m.headers == Some(map[]) then m.(headers := None) else m
  }

  // ----- the statements the outbox executes -----

  /** DELETE FROM outbox WHERE id = ? */
  function Without(rows: seq<Row>, id: nat): (left: seq<Row>)
    ensures forall r :: r in left <==> r in rows && r.id != id
    ensures |left| <= |rows|
  {
    if rows == [] then []
    else if rows[0].id == id then Without(rows[1..], id)
    else [rows[0]] + Without(rows[1..], id)
  }

  /** UPDATE outbox SET retry_count = retry_count + 1, last_error = ? WHERE id = ? */
  function Charged(rows: seq<Row>, id: nat, error: string): (out: seq<Row>)
    ensures |out| == |rows|
    ensures forall i :: 0 <= i < |rows| ==>
      out[i] == if rows[i].id == id
                then rows[i].(retryCount := rows[i].retryCount + 1, lastError := Some(Truncate(error, ERROR_LIMIT)))
                else rows[i]
  {
    if rows == [] then []
    else [if rows[0].id == id
          then rows[0].(retryCount := rows[0].retryCount + 1, lastError := Some(Truncate(error, ERROR_LIMIT)))
          else rows[0]] + Charged(rows[1..], id, error)
  }

  /** SELECT ... WHERE id = ? */
  function Lookup(rows: seq<Row>, id: nat): (r: Option<Row>)
    ensures r.Some? ==> r.value in rows && r.value.id == id
    ensures r.None? ==> forall x :: x in rows ==> x.id != id
  {
    if rows == [] then None
    else if rows[0].id == id then Some(rows[0])
    else Lookup(rows[1..], id)
  }

  lemma {:induction false} AbsentStays(rows: seq<Row>, id: nat)
    requires forall r :: r in rows ==> r.id != id
    ensures Without(rows, id) == rows
  {
    if rows != [] {
      assert rows[0] in rows;
      AbsentStays(rows[1..], id);
    }
  }

  /** On a table in id order the oldest row is found first and its removal leaves exactly the rest. */
  lemma {:induction false} FrontRow(rows: seq<Row>)
    requires rows != [] && Ascending(rows)
    ensures Without(rows, rows[0].id) == rows[1..]
    ensures Lookup(rows, rows[0].id) == Some(rows[0])
  {
    assert forall r :: r in rows[1..] ==> r.id != rows[0].id;
    AbsentStays(rows[1..], rows[0].id);
  }

  // ----- the operations of the outbox, on its abstract value -----

  predicate HasRoom(q: Queue) { q.estimate < q.maxPending }

  function NewRow(q: Queue, m: Message, error: Option<string>, now: real): Row {
    Row(q.tables.nextId, Filed(m), now, 0, error)
  }

  function Enqueued(q: Queue, m: Message, error: Option<string>, now: real): Queue {
    q.(tables := q.tables.(rows := q.tables.rows + [NewRow(q, m, error, now)], nextId := q.tables.nextId + 1),
       estimate := q.estimate + 1)
  }

  function Oldest(rows: seq<Row>, limit: nat): seq<Row> { rows[..Min(limit, |rows|)] }

  /** Removal of one id, with the counter lowered by the number of rows removed and kept non-negative. */
  function Removed(q: Queue, id: nat): Queue {
    var left := Without(q.tables.rows, id);
    q.(tables := q.tables.(rows := left), estimate := Max(0, q.estimate - (|q.tables.rows| - |left|)))
  }

  function Retried(q: Queue, id: nat, error: string): Queue {
    q.(tables := q.tables.(rows := Charged(q.tables.rows, id, error)))
  }

  function Burial(id: nat, r: Row, error: string, now: real): DeadRow {
    DeadRow(id, r.mail, r.enqueuedAt, now, r.retryCount, Truncate(error, ERROR_LIMIT))
  }

  function Buried(q: Queue, id: nat, error: string, now: real): Queue {
    match Lookup(q.tables.rows, id)
    case None => q
    case Some(r) =>
      var kept := Removed(q, id);
      kept.(tables := kept.tables.(dead := q.tables.dead + [Burial(q.tables.nextDeadId, r, error, now)],
                                   nextDeadId := q.tables.nextDeadId + 1))
  }

  /** A process starts on the tables it finds; when the initial count fails the estimate starts at zero. */
  function Opened(t: Tables, maxPending: int, countOk: bool): Queue {
    Queue(t, if countOk then |t.rows| else 0, Max(SMALLEST_LIMIT, maxPending))
  }

  datatype EnqueueResult = Stored(id: nat) | Full | DiskError

  class Outbox {
    const maxPending: nat
    var rows: seq<Row>
    var nextId: nat
    var dead: seq<DeadRow>
    var nextDeadId: nat
    var pendingEstimate: nat

    ghost function Value(): Queue
      reads this
    {
      Queue(Tables(rows, nextId, dead, nextDeadId), pendingEstimate, maxPending)
    }

    constructor (found: Tables, limit: int, countOk: bool)
      ensures Value() == Opened(found, limit, countOk)
      ensures maxPending == Max(1000, limit) && Value().tables == found
      ensures pendingEstimate == if countOk then |found.rows| else 0
    {
      maxPending := if limit < SMALLEST_LIMIT then SMALLEST_LIMIT else limit;
      rows, nextId, dead, nextDeadId := found.rows, found.nextId, found.dead, found.nextDeadId;
      pendingEstimate := if countOk then |found.rows| else 0;
    }

    /** A full outbox and a failing disk both leave everything unchanged. */
    method Enqueue(m: Message, lastError: Option<string>, now: real, diskOk: bool) returns (r: EnqueueResult)
      modifies this
      ensures r.Full? <==> old(pendingEstimate) >= maxPending
      ensures r.DiskError? <==> old(pendingEstimate) < maxPending && !diskOk
      ensures r.Stored? ==> r.id == old(nextId) && Value() == Enqueued(old(Value()), m, lastError, now)
      ensures r.Stored? ==>
        rows == old(rows) + [Row(old(nextId), Filed(m), now, 0, lastError)] && dead == old(dead)
        && nextId == old(nextId) + 1 && pendingEstimate == old(pendingEstimate) + 1
      ensures !r.Stored? ==> Value() == old(Value())
    {
      if pendingEstimate >= maxPending {
        return Full;
      }
      if !diskOk {
        return DiskError;
      }
      var headers := if m.headers.Some? && m.headers.value != map[] then m.headers else None;
      rows := rows + [Row(nextId, m.(headers := headers), now, 0, lastError)];
      r := Stored(nextId);
      nextId := nextId + 1;
      pendingEstimate := pendingEstimate + 1;
    }

    method FetchBatch(limit: nat) returns (batch: seq<Row>)
      ensures batch == Oldest(rows, limit)
      ensures batch <= rows && |batch| <= limit && (|batch| == limit || batch == rows)
    {
      batch := [];
      while |batch| < limit && |batch| < |rows|
        invariant |batch| <= |rows| && |batch| <= limit && batch == rows[..|batch|]
      {
        batch := batch + [rows[|batch|]];
      }
    }

    method Delete(id: nat)
      modifies this
      ensures Value() == Removed(old(Value()), id)
      ensures (forall r :: r in rows <==> r in old(rows) && r.id != id) && dead == old(dead)
      ensures pendingEstimate == Max(0, old(pendingEstimate) - (|old(rows)| - |rows|))
    {
      var before := |rows|;
      rows := Without(rows, id);
      var count := before - |rows|;
      if count > 0 {
        pendingEstimate := if pendingEstimate < count then 0 else pendingEstimate - count;
      }
    }

    method MarkRetry(id: nat, error: string)
      modifies this
      ensures Value() == Retried(old(Value()), id, error)
      ensures |rows| == |old(rows)| && dead == old(dead) && pendingEstimate == old(pendingEstimate)
      ensures forall i :: 0 <= i < |rows| ==>
        rows[i] == if old(rows)[i].id != id then old(rows)[i]
                   else old(rows)[i].(retryCount := old(rows)[i].retryCount + 1,
                                      lastError := Some(Truncate(error, 2000)))
    {
      rows := Charged(rows, id, error);
    }

    method MoveToDeadLetter(id: nat, error: string, now: real) returns (moved: bool)
      modifies this
      ensures moved <==> exists r :: r in old(rows) && r.id == id
      ensures Value() == Buried(old(Value()), id, error, now)
      ensures forall r :: r in rows <==> r in old(rows) && r.id != id
      ensures !moved ==> Value() == old(Value())
      ensures moved ==>
        exists r :: r in old(rows) && r.id == id && dead == old(dead)
          + [DeadRow(old(nextDeadId), r.mail, r.enqueuedAt, now, r.retryCount, Truncate(error, 2000))]
    {
      var found := Lookup(rows, id);
      if found.None? {
        return false;
      }
      dead := dead + [Burial(nextDeadId, found.value, error, now)];
      nextDeadId := nextDeadId + 1;
      Delete(id);
      return true;
    }

    method PendingCount() returns (n: nat)
      ensures n == pendingEstimate
    {
      n := pendingEstimate;
    }
  }
}
