/**
 The dispatcher loop (app/mq/dispatcher.go): claim a batch, publish message by message,
 mark each row published or failed, stop at the first mark that reports an error.
 */
module OutboxDispatcher {
  import opened Prelude
  import opened OutboxTable
  import opened OutboxText

  /** What the environment does with one message: the publisher's answer and the database's. */
  datatype Outcome = Outcome(publishError: Option<Str>, markReply: Reply)

  /** What the publisher is called with. */
  datatype Call = Call(topic: string, key: string, body: string, headers: map<string, string>)

  const DEFAULT_BATCH := 100
  const DEFAULT_BACKOFF := 5_000_000_000

  /** The update that answers one publish. */
  function MarkFor(m: Message, now: int, backoff: int, publishError: Option<Str>): Mark {
    match publishError
    case None => AsPublished(now)
    case Some(e) => AsFailed(m.retryCount + 1, now + backoff, TruncateError(e))
  }

  datatype RunResult = RunResult(rows: Table, processed: nat, failed: bool)

  /** The table after the mark of one message, whatever the reply says. */
  function Marked(rows: Table, now: int, backoff: int, m: Message, o: Outcome): Table {
    if o.markReply == ErrorDropped then rows
    else ApplyMark(rows, m.id, MarkFor(m, now, backoff, o.publishError))
  }

  /** Working off a claimed batch, as a function of the table. */
  function Work(rows: Table, now: int, backoff: int, batch: seq<Message>, env: int -> Outcome): RunResult {
    if batch == [] then RunResult(rows, 0, false)
    else
      var m := batch[0];
      var after := Marked(rows, now, backoff, m, env(m.id));
      if m.id > 0 && !env(m.id).markReply.Done? then RunResult(after, 1, true)
      else
        var rest := Work(after, now, backoff, batch[1..], env);
        rest.(processed := rest.processed + 1)
  }

  /** One whole round: claim, then work off the batch. */
  function Round(rows: Table, now: int, limit: int, backoff: int, locked: set<int>, claimReply: Reply,
        env: int -> Outcome): RunResult {
    var ids := Selected(rows, now, limit, locked);
    if !Parses(rows, ids) || (limit > 0 && claimReply == ErrorDropped) then RunResult(rows, 0, limit > 0)
    else if limit > 0 && claimReply == ErrorApplied then RunResult(ClaimRows(rows, ids), 0, true)
    else Work(ClaimRows(rows, ids), now, backoff, MessagesOf(rows, ids), env)
  }

  ghost function Ahead(r: RunResult, n: nat): RunResult {
    r.(processed := r.processed + n)
  }

  lemma WorkUnfolds(rows: Table, now: int, backoff: int, batch: seq<Message>, i: nat, env: int -> Outcome)
    requires i < |batch|
    ensures var m := batch[i];
      var after := Marked(rows, now, backoff, m, env(m.id));
      Work(rows, now, backoff, batch[i..], env) ==
        if m.id > 0 && !env(m.id).markReply.Done? then RunResult(after, 1, true)
        else Ahead(Work(after, now, backoff, batch[i+1..], env), 1)
  {
    assert batch[i..][0] == batch[i] && batch[i..][1..] == batch[i+1..];
  }

  /** The calls hand over the first messages. */
  ghost predicate CallsMessages(calls: seq<Call>, messages: seq<Message>) {
    |calls| <= |messages| && forall k :: 0 <= k < |calls| ==>
      var m := messages[k];
      calls[k] == Call(m.payload.topic, m.payload.eventKey, m.payload.body, m.headers)
  }

  /** The calls hand over what stands in the first of these rows: topic, event key, body and headers. */
  ghost predicate CallsRows(calls: seq<Call>, rows: Table, ids: seq<int>) {
    |calls| <= |ids| && forall k :: 0 <= k < |calls| ==>
      && ids[k] in rows
      && var row := rows[ids[k]];
      && calls[k].topic == row.payload.topic && calls[k].key == row.payload.eventKey && calls[k].body == row.payload.body
      && calls[k].headers == match row.headers case Headers(h) => h case _ => map[]
  }

  lemma NextCall(calls: seq<Call>, messages: seq<Message>)
    requires |calls| < |messages| && CallsMessages(calls, messages)
    ensures var m := messages[|calls|];
      CallsMessages(calls + [Call(m.payload.topic, m.payload.eventKey, m.payload.body, m.headers)], messages)
  {
  }

  lemma MirroredCalls(messages: seq<Message>, rows: Table, ids: seq<int>)
    requires forall k :: 0 <= k < |ids| ==> ids[k] in rows
    requires Mirror(messages, rows, ids)
    ensures forall calls :: CallsMessages(calls, messages) ==> CallsRows(calls, rows, ids)
  {
  }

  class Dispatcher {
    const store: GormStore
    const batchSize: int
    const retryBackoff: int

    constructor (store: GormStore, batchSize: int, retryBackoff: int)
      ensures this.store == store
      ensures this.batchSize == (if batchSize <= 0 then DEFAULT_BATCH else batchSize) && this.batchSize > 0
      ensures this.retryBackoff == (if retryBackoff <= 0 then DEFAULT_BACKOFF else retryBackoff) && this.retryBackoff > 0
      ensures batchSize <= 0 ==> this.batchSize == 100
      ensures retryBackoff <= 0 ==> this.retryBackoff == 5_000_000_000
    {
      this.store := store;
      this.batchSize := if batchSize <= 0 then DEFAULT_BATCH else batchSize;
      this.retryBackoff := if retryBackoff <= 0 then DEFAULT_BACKOFF else retryBackoff;
    }

    /** A failed publish is put back with one more retry and a later time, a successful one is closed. */
    method MarkOutcome(m: Message, now: int, outcome: Outcome) returns (markFailed: bool)
      modifies store
      ensures store.rows == Marked(old(store.rows), now, retryBackoff, m, outcome)
      ensures markFailed <==> m.id > 0 && !outcome.markReply.Done?
    {
      if outcome.publishError.Some? {
        markFailed := store.MarkFailed(
          m.id, m.retryCount + 1, now + retryBackoff, TruncateError(outcome.publishError.value), outcome.markReply);
      } else {
        markFailed := store.MarkPublished(m.id, now, outcome.markReply);
      }
    }

    /** One round. `locked`, `claimReply` and `env` are the environment's choices; `calls` are the publisher's. */
    method RunOnce(now: int, locked: set<int>, claimReply: Reply, env: int -> Outcome)
      returns (processed: nat, failed: bool, calls: seq<Call>)
      requires batchSize > 0
      modifies store
      ensures RunResult(store.rows, processed, failed)
        == Round(old(store.rows), now, batchSize, retryBackoff, locked, claimReply, env)
      ensures |calls| == processed && CallsRows(calls, old(store.rows), Selected(old(store.rows), now, batchSize, locked))
    {
      var messages, claimFailed := store.ClaimPending(now, batchSize, locked, claimReply);
      if claimFailed {
        return 0, true, [];
      }
      MirroredCalls(messages, old(store.rows), Selected(old(store.rows), now, batchSize, locked));
      ghost var whole := Work(store.rows, now, retryBackoff, messages, env);
      processed, calls := 0, [];
      for i := 0 to |messages|
        invariant processed == |calls| == i && CallsMessages(calls, messages)
        invariant whole == Ahead(Work(store.rows, now, retryBackoff, messages[i..], env), i)
      {
        var m := messages[i];
        WorkUnfolds(store.rows, now, retryBackoff, messages, i, env);
        NextCall(calls, messages);
        calls := calls + [Call(m.payload.topic, m.payload.eventKey, m.payload.body, m.headers)];
        processed := processed + 1;
        var markFailed := MarkOutcome(m, now, env(m.id));
        if markFailed {
          return processed, true, calls;
        }
      }
      failed := false;
    }
  }

  /** A batch as a claim leaves it: rows `publishing`, positive distinct ids, retry counts as snapshotted. */
  ghost predicate Claimed(rows: Table, batch: seq<Message>) {
    && (forall k :: 0 <= k < |batch| ==>
          && batch[k].id > 0 && batch[k].id in rows
          && rows[batch[k].id].status == Publishing
          && rows[batch[k].id].retryCount == batch[k].retryCount)
    && (forall i, j :: 0 <= i < j < |batch| ==> batch[i].id != batch[j].id)
  }

  ghost predicate InBatch(batch: seq<Message>, id: int) {
    exists k :: 0 <= k < |batch| && batch[k].id == id
  }

  /** The row a completed message is left with. */
  ghost predicate Settled(before: Row, after: Row, now: int, backoff: int, publishError: Option<Str>) {
    match publishError
    case None => after == before.(status := Published, publishedAt := Some(AsStored(now)), lastError := [])
    case Some(e) => after == before.(
      status := Failed, retryCount := before.retryCount + 1, nextRetryAt := Some(AsStored(now + backoff)),
      lastError := TruncateError(e))
  }

  /**
   What a round that ended with r leaves of the k-th message: settled before the last processed one and at it unless the
   round failed there; then settled or untouched; untouched and still `publishing` behind it.
   */
  ghost predicate Fate(rows: Table, r: RunResult, now: int, backoff: int, batch: seq<Message>, env: int -> Outcome,
        k: nat)
    requires k < |batch|
  {
    var id := batch[k].id;
    && id in rows && id in r.rows
    && (k + 1 < r.processed || (k + 1 == r.processed && !r.failed) ==>
          env(id).markReply.Done? && Settled(rows[id], r.rows[id], now, backoff, env(id).publishError))
    && (k + 1 == r.processed && r.failed ==>
          && !env(id).markReply.Done?
          && (r.rows[id] == rows[id] || Settled(rows[id], r.rows[id], now, backoff, env(id).publishError)))
    && (k >= r.processed ==> r.rows[id] == rows[id] && r.rows[id].status == Publishing)
  }

  lemma MarkSettles(rows: Table, now: int, backoff: int, m: Message, o: Outcome)
    requires m.id > 0 && m.id in rows && rows[m.id].status == Publishing && rows[m.id].retryCount == m.retryCount
    ensures var after := Marked(rows, now, backoff, m, o);
      && after.Keys == rows.Keys
      && (forall id :: id in rows && id != m.id ==> after[id] == rows[id])
      && (after[m.id] == rows[m.id] || Settled(rows[m.id], after[m.id], now, backoff, o.publishError))
      && (o.markReply.Done? ==> Settled(rows[m.id], after[m.id], now, backoff, o.publishError))
  {
  }

  lemma StillClaimed(rows: Table, after: Table, batch: seq<Message>)
    requires batch != [] && Claimed(rows, batch) && after.Keys == rows.Keys
    requires forall id :: id in rows && id != batch[0].id ==> after[id] == rows[id]
    ensures Claimed(after, batch[1..]) && !InBatch(batch[1..], batch[0].id)
    ensures forall k :: 0 < k < |batch| ==> after[batch[k].id] == rows[batch[k].id]
  {
    var tail := batch[1..];
    assert forall k :: 0 <= k < |tail| ==> tail[k] == batch[k + 1];
  }

  /**
   Without an error the count is the batch length and every message is settled; every message meets its fate; no row
   outside the batch changes.
   */
  lemma {:induction false} WorkSettlesAPrefix(rows: Table, now: int, backoff: int, batch: seq<Message>,
        env: int -> Outcome)
    requires Claimed(rows, batch)
    ensures var r := Work(rows, now, backoff, batch, env);
      && r.rows.Keys == rows.Keys
      && r.processed <= |batch|
      && (!r.failed ==> r.processed == |batch|)
      && (r.failed ==> r.processed > 0)
      && (forall id :: id in rows && !InBatch(batch, id) ==> r.rows[id] == rows[id])
      && forall k :: 0 <= k < |batch| ==> Fate(rows, r, now, backoff, batch, env, k)
    decreases |batch|
  {
    if batch != [] {
      var m, o := batch[0], env(batch[0].id);
      var after := Marked(rows, now, backoff, m, o);
      var r := Work(rows, now, backoff, batch, env);
      MarkSettles(rows, now, backoff, m, o);
      StillClaimed(rows, after, batch);
      assert InBatch(batch, m.id);
      if o.markReply.Done? {
        WorkSettlesAPrefix(after, now, backoff, batch[1..], env);
        AddHead(rows, after, r, Work(after, now, backoff, batch[1..], env), now, backoff, batch, env);
      }
    }
  }

  lemma TailInBatch(batch: seq<Message>, id: int)
    requires batch != []
    ensures InBatch(batch[1..], id) ==> InBatch(batch, id)
  {
    assert forall k :: 0 <= k < |batch| - 1 ==> batch[1..][k] == batch[k + 1];
  }

  /** From the rest of a batch to the whole of it. */
  lemma AddHead(rows: Table, after: Table, r: RunResult, rest: RunResult, now: int, backoff: int,
        batch: seq<Message>, env: int -> Outcome)
    requires Claimed(rows, batch) && batch != [] && r == rest.(processed := rest.processed + 1)
    requires after.Keys == rows.Keys == rest.rows.Keys && !InBatch(batch[1..], batch[0].id)
    requires rest.processed <= |batch| - 1 && (rest.failed ==> rest.processed > 0)
    requires forall k :: 0 < k < |batch| ==> after[batch[k].id] == rows[batch[k].id]
    requires forall id :: id in rows && id != batch[0].id ==> after[id] == rows[id]
    requires env(batch[0].id).markReply.Done?
    requires Settled(rows[batch[0].id], after[batch[0].id], now, backoff, env(batch[0].id).publishError)
    requires forall id :: id in after && !InBatch(batch[1..], id) ==> rest.rows[id] == after[id]
    requires forall k :: 0 <= k < |batch| - 1 ==> Fate(after, rest, now, backoff, batch[1..], env, k)
    ensures forall id :: id in rows && !InBatch(batch, id) ==> r.rows[id] == rows[id]
    ensures forall k :: 0 <= k < |batch| ==> Fate(rows, r, now, backoff, batch, env, k)
  {
    var tail := batch[1..];
    assert InBatch(batch, batch[0].id);
    forall id | id in rows && !InBatch(batch, id) ensures r.rows[id] == rows[id] {
      TailInBatch(batch, id);
    }
    forall k | 0 <= k < |batch| ensures Fate(rows, r, now, backoff, batch, env, k) {
      if k > 0 {
        assert tail[k - 1] == batch[k];
        assert Fate(after, rest, now, backoff, tail, env, k - 1);
      }
    }
  }

  lemma ClaimEstablishes(rows: Table, ids: seq<int>)
    requires Ascending(ids)
    requires forall id :: id in rows ==> id > 0
    requires forall id :: id in ids ==> id in rows
    ensures Claimed(ClaimRows(rows, ids), MessagesOf(rows, ids))
    ensures forall id :: id in ids <==> InBatch(MessagesOf(rows, ids), id)
  {
    var batch := MessagesOf(rows, ids);
    forall k | 0 <= k < |ids| ensures ids[k] in ids { }
    forall id | id in ids
      ensures InBatch(batch, id)
    {
      var k :| 0 <= k < |ids| && ids[k] == id;
      assert batch[k].id == id;
    }
  }

  /**
   A round that returns without error has settled exactly the claimed batch and counted it; rows outside the batch
   are as they were before the claim, whether or not it failed. A claim that reports an error ends the round: nothing is
   published, and the rows of its batch are as before or, where the write took effect, claimed.
   */
  lemma RoundSettlesItsBatch(rows: Table, now: int, limit: nat, backoff: int, locked: set<int>, claimReply: Reply,
        env: int -> Outcome)
    requires limit > 0 && forall id :: id in rows ==> id > 0
    ensures var ids := Selected(rows, now, limit, locked);
      var r := Round(rows, now, limit, backoff, locked, claimReply, env);
      && r.rows.Keys == rows.Keys
      && (!r.failed ==> r.processed == |ids| && forall id :: id in ids ==>
            Settled(ClaimRow(rows[id]), r.rows[id], now, backoff, env(id).publishError))
      && (forall id :: id in rows && id !in ids ==> r.rows[id] == rows[id])
      && (!Parses(rows, ids) || !claimReply.Done? ==> r.failed && r.processed == 0)
      && (!Parses(rows, ids) || claimReply == ErrorDropped ==> r.rows == rows)
      && (Parses(rows, ids) && claimReply == ErrorApplied ==> forall id :: id in ids ==>
            r.rows[id] == rows[id].(status := Publishing, lastError := [], nextRetryAt := None))
  {
    var ids := Selected(rows, now, limit, locked);
    if Parses(rows, ids) && claimReply.Done? {
      var batch, claimed := MessagesOf(rows, ids), ClaimRows(rows, ids);
      ClaimEstablishes(rows, ids);
      WorkSettlesAPrefix(claimed, now, backoff, batch, env);
      var r := Work(claimed, now, backoff, batch, env);
      if !r.failed {
        forall id | id in ids
          ensures Settled(ClaimRow(rows[id]), r.rows[id], now, backoff, env(id).publishError)
        {
          var k :| 0 <= k < |batch| && batch[k].id == id;
          assert claimed[batch[k].id] == ClaimRow(rows[id]);
          assert Fate(claimed, r, now, backoff, batch, env, k);
        }
      }
    }
  }
}
