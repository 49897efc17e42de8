/**
 The transactional outbox table and the store that claims and marks its rows
 (app/mq/gorm_store.go, app/mq/outbox.go).
 Times are integer nanoseconds; a row's headers column is what json.Unmarshal makes of it.
 */
module OutboxTable {
  import opened Prelude

  /** One second: the resolution of the tables' DATETIME columns. */
  const COLUMN_UNIT := 1_000_000_000

  /** A time as a DATETIME column keeps it, rounded to the nearest second. */
  function AsStored(t: int): (r: int)
    ensures t - COLUMN_UNIT / 2 < r <= t + COLUMN_UNIT / 2 && r % COLUMN_UNIT == 0
  {
    (t + COLUMN_UNIT / 2) / COLUMN_UNIT * COLUMN_UNIT
  }

  /** Waiting past a stored time and then some more never stores an earlier time. */
  lemma StoredTimesGrow(t: int, now: int, later: int)
    requires AsStored(t) <= now <= later
    ensures AsStored(t) <= AsStored(later)
  {
  }

  datatype Status = Pending | Publishing | Published | Failed

  datatype HeadersColumn = NoHeaders | Headers(values: map<string, string>) | Malformed

  datatype Payload = Payload(topic: string, eventName: string, eventKey: string, producer: string, body: string)

  datatype Row = Row(
    payload: Payload,
    headers: HeadersColumn,
    status: Status,
    retryCount: int,
    maxRetries: int,
    nextRetryAt: Option<int>,
    lastError: Str,
    publishedAt: Option<int>)

  type Table = map<int, Row>

  datatype Message = Message(
    id: int, payload: Payload, headers: map<string, string>, retryCount: int, maxRetries: int)

  /** What the caller sees of a database call, and whether its write took effect. */
  datatype Reply = Done | ErrorApplied | ErrorDropped

  /** The two single-row updates. */
  datatype Mark = AsPublished(at: int) | AsFailed(retryCount: int, nextRetryAt: int, error: Str)

  predicate Eligible(row: Row, now: int) {
    && row.status in {Pending, Failed}
    && row.retryCount < row.maxRetries
    && (row.nextRetryAt.None? || row.nextRetryAt.value <= now)
  }

  /** The rows the claim query may return: eligible and not locked by another transaction. */
  function Claimable(rows: Table, now: int, locked: set<int>): set<int> {
    set id | id in rows && Eligible(rows[id], now) && id !in locked
  }

  lemma {:induction false} MinExists(s: set<int>)
    requires s != {}
    ensures exists m :: m in s && forall x :: x in s ==> m <= x
  {
    var y := Pick(s);
    if s == {y} {
      assert y in s && forall x :: x in s ==> y <= x;
    } else {
      MinExists(s - {y});
      var m :| m in s - {y} && forall x :: x in s - {y} ==> m <= x;
      var least := if m <= y then m else y;
      forall x | x in s ensures least <= x {
        if x != y { assert x in s - {y}; }
      }
      assert least in s;
    }
  }

  function Min(s: set<int>): (m: int)
    requires s != {}
    ensures m in s && forall x :: x in s ==> m <= x
  {
    MinExists(s);
    var m :| m in s && forall x :: x in s ==> m <= x;
    m
  }

  /** ORDER BY id ASC LIMIT n. */
  function Smallest(s: set<int>, n: nat): seq<int> {
    if n == 0 || s == {} then [] else [Min(s)] + Smallest(s - {Min(s)}, n - 1)
  }

  ghost predicate Ascending(ids: seq<int>) {
    forall i, j :: 0 <= i < j < |ids| ==> ids[i] < ids[j]
  }

  /** The query returns the n smallest claimable ids, in ascending order, and only those. */
  lemma {:induction false} SmallestIsTheQuery(s: set<int>, n: nat)
    ensures var ids := Smallest(s, n);
      && Ascending(ids)
      && (forall id :: id in ids ==> id in s)
      && |ids| <= n
      && (|ids| < n ==> forall id :: id in s ==> id in ids)
      && (forall id, k :: id in s && id !in ids && 0 <= k < |ids| ==> ids[k] < id)
  {
    if n != 0 && s != {} {
      var m, others := Min(s), s - {Min(s)};
      var rest := Smallest(others, n - 1);
      SmallestIsTheQuery(others, n - 1);
      assert Smallest(s, n) == [m] + rest;
      assert forall id :: id in s <==> id == m || id in others;
      assert forall k :: 0 <= k < |rest| ==> rest[k] in rest;
    }
  }

  function MessageOf(id: int, row: Row): Message {
    Message(id, row.payload, if row.headers.Headers? then row.headers.values else map[], row.retryCount, row.maxRetries)
  }

  function MessagesOf(rows: Table, ids: seq<int>): (r: seq<Message>)
    requires forall id :: id in ids ==> id in rows
    ensures |r| == |ids|
    ensures forall k :: 0 <= k < |ids| ==> r[k] == MessageOf(ids[k], rows[ids[k]])
  {
    seq(|ids|, k requires 0 <= k < |ids| => MessageOf(ids[k], rows[ids[k]]))
  }

  /** Message by message what stands in the rows, field by field; no headers are an empty map. */
  ghost predicate Mirror(messages: seq<Message>, rows: Table, ids: seq<int>)
    requires forall k :: 0 <= k < |ids| ==> ids[k] in rows
  {
    |messages| == |ids| && forall k :: 0 <= k < |ids| ==>
      var m, row := messages[k], rows[ids[k]];
      && m.id == ids[k] && m.payload == row.payload && m.retryCount == row.retryCount && m.maxRetries == row.maxRetries
      && match row.headers case NoHeaders => m.headers == map[] case Headers(h) => m.headers == h case Malformed => false
  }

  function ClaimRow(row: Row): Row {
    row.(status := Publishing, lastError := [], nextRetryAt := None)
  }

  function ClaimRows(rows: Table, ids: seq<int>): Table {
    map id | id in rows :: if id in ids then ClaimRow(rows[id]) else rows[id]
  }

  /** A row whose headers do not parse makes the claim transaction roll back. */
  predicate Parses(rows: Table, ids: seq<int>)
    requires forall id :: id in ids ==> id in rows
  {
    forall id :: id in ids ==> !rows[id].headers.Malformed?
  }

  /** The ids one ClaimPending call selects. */
  function Selected(rows: Table, now: int, limit: int, locked: set<int>): (ids: seq<int>)
    ensures forall id :: id in ids ==> id in Claimable(rows, now, locked)
    ensures Ascending(ids)
  {
    if limit <= 0 then [] else
      SmallestIsTheQuery(Claimable(rows, now, locked), limit);
      Smallest(Claimable(rows, now, locked), limit)
  }

  function ApplyMark(rows: Table, id: int, mark: Mark): Table {
    if id <= 0 || id !in rows then rows
    else match mark
      case AsPublished(at) => rows[id := rows[id].(status := Published, publishedAt := Some(AsStored(at)), lastError := [])]
      case AsFailed(retryCount, next, error) =>
        rows[id := rows[id].(
          status := Failed, retryCount := retryCount, nextRetryAt := Some(AsStored(next)), lastError := error)]
  }

  class GormStore {
    var rows: Table

    constructor (table: Table)
      ensures rows == table
    {
      rows := table;
    }

    /** Turns the selected rows into messages; stops at the first row whose headers do not parse. */
    method BuildMessages(selected: seq<int>) returns (ids: seq<int>, messages: seq<Message>, malformed: bool)
      requires forall id :: id in selected ==> id in rows
      ensures malformed == !Parses(rows, selected)
      ensures !malformed ==> ids == selected && messages == MessagesOf(rows, selected)
      ensures !malformed ==> Mirror(messages, rows, selected)
    {
      ids, messages, malformed := [], [], false;
      for i := 0 to |selected|
        invariant ids == selected[..i]
        invariant |messages| == i && forall k :: 0 <= k < i ==> messages[k] == MessageOf(selected[k], rows[selected[k]])
        invariant forall k :: 0 <= k < i ==> !rows[selected[k]].headers.Malformed?
        invariant !malformed
      {
        var id := selected[i];
        assert id in selected;
        var row := rows[id];
        ids := ids + [id];
        if row.headers.Malformed? {
          return ids, messages, true;
        }
        messages := messages + [MessageOf(id, row)];
      }
    }

    /** Claims a batch in one transaction: select for update, build messages, update the selected rows. */
    method ClaimPending(now: int, limit: int, locked: set<int>, reply: Reply)
      returns (messages: seq<Message>, failed: bool)
      modifies this
      ensures var ids := Selected(old(rows), now, limit, locked);
        && failed == (limit > 0 && (!Parses(old(rows), ids) || !reply.Done?))
        && (!failed ==> messages == MessagesOf(old(rows), ids))
        && rows == (if Parses(old(rows), ids) && reply != ErrorDropped then ClaimRows(old(rows), ids) else old(rows))
      ensures !failed ==> Mirror(messages, old(rows), Selected(old(rows), now, limit, locked))
      ensures rows.Keys == old(rows).Keys
      ensures forall id :: id in old(rows) ==>
        var ids, row := Selected(old(rows), now, limit, locked), old(rows)[id];
        var taken := id in ids && Parses(old(rows), ids) && reply != ErrorDropped;
        rows[id] == if taken then row.(status := Publishing, lastError := [], nextRetryAt := None) else row
    {
      if limit <= 0 {
        assert ClaimRows(rows, []) == rows;
        return [], false;
      }
      var selected := Selected(rows, now, limit, locked);
      if |selected| == 0 {
        assert ClaimRows(rows, []) == rows;
        return [], !reply.Done?;
      }
      var ids, built, malformed := BuildMessages(selected);
      if malformed {
        return built, true;
      }
      if reply != ErrorDropped {
        rows := ClaimRows(rows, ids);
      }
      return built, !reply.Done?;
    }

    method MarkPublished(id: int, publishedAt: int, reply: Reply) returns (failed: bool)
      modifies this
      ensures failed == (id > 0 && !reply.Done?)
      ensures rows == if reply == ErrorDropped then old(rows) else ApplyMark(old(rows), id, AsPublished(publishedAt))
      ensures id <= 0 || id !in old(rows) || reply == ErrorDropped ==> rows == old(rows)
      ensures id > 0 && id in old(rows) && reply != ErrorDropped ==> rows == old(rows)[id := old(rows)[id].(
        status := Published, publishedAt := Some(AsStored(publishedAt)), lastError := [])]
    {
      if id <= 0 {
        return false;
      }
      if reply != ErrorDropped && id in rows {
        rows := rows[id := rows[id].(status := Published, publishedAt := Some(AsStored(publishedAt)), lastError := [])];
      }
      failed := !reply.Done?;
    }

    method MarkFailed(id: int, retryCount: int, nextRetryAt: int, error: Str, reply: Reply) returns (failed: bool)
      modifies this
      ensures failed == (id > 0 && !reply.Done?)
      ensures rows == if reply == ErrorDropped then old(rows)
        else ApplyMark(old(rows), id, AsFailed(retryCount, nextRetryAt, error))
      ensures id <= 0 || id !in old(rows) || reply == ErrorDropped ==> rows == old(rows)
      ensures id > 0 && id in old(rows) && reply != ErrorDropped ==> rows == old(rows)[id := old(rows)[id].(
        status := Failed, retryCount := retryCount, nextRetryAt := Some(AsStored(nextRetryAt)), lastError := error)]
    {
      if id <= 0 {
        return false;
      }
      if reply != ErrorDropped && id in rows {
        var row := rows[id];
        rows := rows[id := row.(
          status := Failed, retryCount := retryCount, nextRetryAt := Some(AsStored(nextRetryAt)), lastError := error)];
      }
      failed := !reply.Done?;
    }
  }

  /** A claim touches the selected rows and no others, and leaves nothing claimable that it selected. */
  lemma ClaimConserves(rows: Table, now: int, later: int, limit: int, locked: set<int>, id: int)
    requires id in rows
    ensures var ids := Selected(rows, now, limit, locked);
      var after := ClaimRows(rows, ids);
      && after.Keys == rows.Keys
      && (id !in ids ==> after[id] == rows[id])
      && (id in ids ==>
            && id !in Claimable(after, later, locked)
            && after[id] == rows[id].(status := Publishing, lastError := [], nextRetryAt := None))
      && (id !in ids && id in Claimable(rows, now, locked) && limit > 0 ==>
            && |ids| == limit
            && forall k :: 0 <= k < |ids| ==> ids[k] < id)
  {
    if limit > 0 {
      SmallestIsTheQuery(Claimable(rows, now, locked), limit);
    }
  }

  /**
   What a claim takes: pending or failed rows with retries left, due and not locked, by ascending id; a row that it could
   take and does not has a full batch of smaller ids before it.
   */
  lemma SelectedExactly(rows: Table, now: int, limit: int, locked: set<int>)
    ensures var ids := Selected(rows, now, limit, locked);
      && |ids| <= Max(0, limit) && (forall i, j :: 0 <= i < j < |ids| ==> ids[i] < ids[j])
      && (forall id :: id in ids ==> id in rows)
      && forall id :: id in rows ==>
           var row := rows[id];
           var free := (row.status == Pending || row.status == Failed) && row.retryCount < row.maxRetries
             && (row.nextRetryAt == None || row.nextRetryAt.value <= now) && id !in locked;
           && (id in ids ==> free)
           && (id !in ids && free ==> forall k :: 0 <= k < limit ==> k < |ids| && ids[k] < id)
  {
    if limit > 0 {
      SmallestIsTheQuery(Claimable(rows, now, locked), limit);
    }
  }

  /** A malformed row at the head of the queue blocks it: every claim that would select the row changes nothing. */
  lemma MalformedHeadBlocks(rows: Table, now: int, limit: int, locked: set<int>, id: int)
    requires limit > 0
    requires id in Claimable(rows, now, locked) && rows[id].headers.Malformed?
    requires forall other :: other in Claimable(rows, now, locked) ==> id <= other
    ensures !Parses(rows, Selected(rows, now, limit, locked))
  {
    var s := Claimable(rows, now, locked);
    SmallestIsTheQuery(s, limit);
    var ids := Selected(rows, now, limit, locked);
    assert id in ids by {
      assert |ids| > 0 ==> ids[0] in ids;
    }
  }
}
