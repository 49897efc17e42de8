/**
 Several dispatchers over one table, as a step system. A claim, a publish and a mark are separate steps; a claim or a
 mark may report an error with or without having taken effect, a write whose caller saw an error may still land later,
 and a dispatcher may die at any point.
 */
module OutboxProtocol {
  import opened Prelude
  import opened OutboxTable
  import opened OutboxDispatcher

  /** Whether the head of the remaining batch has been handed to the publisher, and the publisher's answer. */
  datatype Stage = Ready | Sent(publishError: Option<Str>)

  datatype Worker = Worker(now: int, backoff: int, todo: seq<Message>, stage: Stage)

  /** `until` is what the end of a claim's backoff amounts to in the column. */
  datatype Event =
    | Claim(ids: seq<int>, now: int, backoff: int, until: int)
    | Publish(id: int, ok: bool)

  /** `late` holds writes whose callers saw an error and which may still reach the table. */
  datatype State = State(rows: Table, workers: map<int, Worker>, late: map<int, Mark>, log: seq<Event>)

  datatype MarkFate = Replied(reply: Reply) | ErrorLate

  datatype Step =
    | DoInsert(id: int, payload: Payload, headers: HeadersColumn, maxRetries: int)
    | DoClaim(w: int, now: int, backoff: int, limit: int, locked: set<int>, reply: Reply)
    | DoPublish(w: int, publishError: Option<Str>)
    | DoMark(w: int, fate: MarkFate)
    | DoLand(id: int)
    | DoDrop(id: int)
    | DoCrash(w: int)

  function Head(s: State, w: int): Message
    requires w in s.workers && s.workers[w].todo != []
  {
    s.workers[w].todo[0]
  }

  predicate Enabled(s: State, step: Step) {
    match step
    case DoInsert(id, _, _, _) => id > 0 && id !in s.rows
    case DoClaim(w, _, backoff, _, _, _) => w !in s.workers && backoff > 0
    case DoPublish(w, _) => w in s.workers && s.workers[w].todo != [] && s.workers[w].stage.Ready?
    case DoMark(w, _) => w in s.workers && s.workers[w].todo != [] && s.workers[w].stage.Sent?
    case DoLand(id) => id in s.late
    case DoDrop(id) => id in s.late
    case DoCrash(w) => w in s.workers
  }

  function HeadMark(s: State, w: int): Mark
    requires w in s.workers && s.workers[w].todo != [] && s.workers[w].stage.Sent?
  {
    var worker := s.workers[w];
    MarkFor(worker.todo[0], worker.now, worker.backoff, worker.stage.publishError)
  }

  function Do(s: State, step: Step): State
    requires Enabled(s, step)
  {
    match step
    case DoInsert(id, payload, headers, maxRetries) =>
      s.(rows := s.rows[id := Row(payload, headers, Pending, 0, maxRetries, None, [], None)])
    case DoClaim(w, now, backoff, limit, locked, reply) =>
      var ids := Selected(s.rows, now, limit, locked);
      if ids == [] || !Parses(s.rows, ids) || reply == ErrorDropped then s
      else
        var claimed := s.(rows := ClaimRows(s.rows, ids),
                          log := s.log + [Claim(ids, now, backoff, AsStored(now + backoff))]);
        if reply == ErrorApplied then claimed
        else claimed.(workers := s.workers[w := Worker(now, backoff, MessagesOf(s.rows, ids), Ready)])
    case DoPublish(w, publishError) =>
      s.(workers := s.workers[w := s.workers[w].(stage := Sent(publishError))],
         log := s.log + [Publish(Head(s, w).id, publishError.None?)])
    case DoMark(w, fate) =>
      var id := Head(s, w).id;
      (match fate
       case Replied(Done) =>
         s.(rows := ApplyMark(s.rows, id, HeadMark(s, w)),
            workers := s.workers[w := s.workers[w].(todo := s.workers[w].todo[1..], stage := Ready)])
       case Replied(ErrorApplied) =>
         s.(rows := ApplyMark(s.rows, id, HeadMark(s, w)), workers := s.workers - {w})
       case Replied(ErrorDropped) => s.(workers := s.workers - {w})
       case ErrorLate => s.(late := s.late[id := HeadMark(s, w)], workers := s.workers - {w}))
    case DoLand(id) => s.(rows := ApplyMark(s.rows, id, s.late[id]), late := s.late - {id})
    case DoDrop(id) => s.(late := s.late - {id})
    case DoCrash(w) => s.(workers := s.workers - {w})
  }

  ghost predicate Runs(s: State, steps: seq<Step>, t: State)
    decreases |steps|
  {
    if steps == [] then s == t
    else Enabled(s, steps[0]) && Runs(Do(s, steps[0]), steps[1..], t)
  }

  /** Freshly inserted rows, nobody at work. */
  ghost predicate Init(s: State) {
    && s.workers == map[] && s.late == map[] && s.log == []
    && forall id :: id in s.rows ==>
         id > 0 && s.rows[id].status == Pending && s.rows[id].retryCount == 0
  }

  // Counting over the log.

  ghost function Publishes(log: seq<Event>, id: int): nat {
    if log == [] then 0
    else
      var e := log[|log| - 1];
      Publishes(log[..|log| - 1], id) + (if e.Publish? && e.id == id then 1 else 0)
  }

  ghost function Acks(log: seq<Event>, id: int): nat {
    if log == [] then 0
    else
      var e := log[|log| - 1];
      Acks(log[..|log| - 1], id) + (if e.Publish? && e.id == id && e.ok then 1 else 0)
  }

  lemma CountAppended(log: seq<Event>, e: Event)
    ensures forall id :: Publishes(log + [e], id) == Publishes(log, id) + (if e.Publish? && e.id == id then 1 else 0)
    ensures forall id :: Acks(log + [e], id) == Acks(log, id) + (if e.Publish? && e.id == id && e.ok then 1 else 0)
  {
    assert (log + [e])[..|log|] == log;
  }

  /** Every claim of `id` in the log had run out its backoff by `time`. */
  ghost predicate BackedOff(log: seq<Event>, id: int, time: int) {
    forall i :: 0 <= i < |log| && log[i].Claim? && id in log[i].ids ==> log[i].until <= time
  }

  ghost predicate NeverClaimed(log: seq<Event>, id: int) {
    forall i :: 0 <= i < |log| && log[i].Claim? ==> id !in log[i].ids
  }

  // The inductive invariant.

  /** The budget of a row: how often it was published and acknowledged, given its status. */
  ghost predicate RowOk(log: seq<Event>, id: int, row: Row) {
    && id > 0 && 0 <= row.retryCount <= Max(0, row.maxRetries)
    && (row.status in {Pending, Failed} ==> Acks(log, id) == 0 && Publishes(log, id) <= row.retryCount)
    && (row.status in {Publishing, Published} ==>
          row.retryCount < row.maxRetries && Acks(log, id) <= 1 && Publishes(log, id) <= row.retryCount + 1)
    && (row.status == Pending ==> NeverClaimed(log, id))
    && (row.status == Failed ==> row.nextRetryAt.Some? && BackedOff(log, id, row.nextRetryAt.value))
  }

  /** What a dispatcher knows about the k-th message it still holds. */
  ghost predicate HeldOk(s: State, worker: Worker, k: nat)
    requires k < |worker.todo|
  {
    var m := worker.todo[k];
    && m.id in s.rows && m.id !in s.late
    && s.rows[m.id].status == Publishing
    && s.rows[m.id].retryCount == m.retryCount
    && BackedOff(s.log, m.id, AsStored(worker.now + worker.backoff))
    && (k > 0 || worker.stage.Ready? ==> Acks(s.log, m.id) == 0 && Publishes(s.log, m.id) <= m.retryCount)
    && (k == 0 && worker.stage.Sent? && worker.stage.publishError.Some? ==> Acks(s.log, m.id) == 0)
  }

  ghost predicate LateOk(s: State, id: int)
    requires id in s.late
  {
    && id in s.rows && s.rows[id].status == Publishing
    && (s.late[id].AsFailed? ==>
          && s.late[id].retryCount == s.rows[id].retryCount + 1
          && Acks(s.log, id) == 0
          && BackedOff(s.log, id, AsStored(s.late[id].nextRetryAt)))
  }

  ghost predicate Owns(s: State, w: int, k: int, id: int) {
    w in s.workers && 0 <= k < |s.workers[w].todo| && s.workers[w].todo[k].id == id
  }

  /** No message is held twice, by one dispatcher or by two. */
  ghost predicate Disjoint(s: State) {
    forall w, k, w', k', id :: Owns(s, w, k, id) && Owns(s, w', k', id) ==> w == w' && k == k'
  }

  ghost predicate Inv(s: State) {
    && (forall id :: id in s.rows ==> RowOk(s.log, id, s.rows[id]))
    && (forall id :: id !in s.rows ==> Acks(s.log, id) == 0 && Publishes(s.log, id) == 0 && NeverClaimed(s.log, id))
    && (forall w, k :: w in s.workers && 0 <= k < |s.workers[w].todo| ==> HeldOk(s, s.workers[w], k))
    && (forall id :: id in s.late ==> LateOk(s, id))
    && Disjoint(s)
    && (forall w :: w in s.workers ==> s.workers[w].backoff > 0)
    && Spaced(s.log)
    && Stamped(s.log)
  }

  /** What a claim's backoff amounts to once it is stored. */
  ghost predicate Stamped(log: seq<Event>) {
    forall i :: 0 <= i < |log| && log[i].Claim? ==> log[i].until == AsStored(log[i].now + log[i].backoff)
  }

  /** A claim waits for the stored end of the backoff of every earlier claim of the id. */
  ghost predicate Spaced(log: seq<Event>) {
    forall i, j, id :: 0 <= i < j < |log| && log[i].Claim? && log[j].Claim? && id in log[i].ids && id in log[j].ids ==>
      log[i].until <= log[j].now
  }

  lemma OwnedIsPublishing(s: State)
    requires Inv(s)
    ensures forall w, k, id :: Owns(s, w, k, id) ==> id in s.rows && s.rows[id].status == Publishing && id !in s.late
  {
    forall w, k, id | Owns(s, w, k, id)
      ensures id in s.rows && s.rows[id].status == Publishing && id !in s.late
    {
      assert HeldOk(s, s.workers[w], k);
    }
  }

  lemma InitInv(s: State)
    requires Init(s)
    ensures Inv(s)
  {
  }

  lemma InsertInv(s: State, step: Step)
    requires Inv(s) && Enabled(s, step) && step.DoInsert?
    ensures Inv(Do(s, step))
  {
    var t := Do(s, step);
    assert forall w, k, id :: Owns(t, w, k, id) ==> Owns(s, w, k, id);
    forall w, k | w in t.workers && 0 <= k < |t.workers[w].todo|
      ensures HeldOk(t, t.workers[w], k)
    {
      assert HeldOk(s, s.workers[w], k);
    }
    forall id | id in t.late ensures LateOk(t, id) { assert LateOk(s, id); }
  }

  lemma PublishRows(s: State, t: State, w: int, ok: bool)
    requires Inv(s) && w in s.workers && s.workers[w].todo != [] && s.workers[w].stage.Ready?
    requires t.rows == s.rows && t.log == s.log + [Publish(Head(s, w).id, ok)]
    ensures forall id :: id in t.rows ==> RowOk(t.log, id, t.rows[id])
    ensures forall id :: id !in t.rows ==> Acks(t.log, id) == 0 && Publishes(t.log, id) == 0 && NeverClaimed(t.log, id)
    ensures Spaced(t.log) && Stamped(t.log)
  {
    assert HeldOk(s, s.workers[w], 0);
    CountAppended(s.log, Publish(Head(s, w).id, ok));
    forall id | id in t.rows ensures RowOk(t.log, id, t.rows[id]) { assert RowOk(s.log, id, s.rows[id]); }
  }

  lemma PublishKeepsHeld(s: State, step: Step, w: int, k: nat)
    requires Inv(s) && Enabled(s, step) && step.DoPublish?
    requires w in s.workers && k < |s.workers[w].todo|
    ensures HeldOk(Do(s, step), Do(s, step).workers[w], k)
  {
    var m := Head(s, step.w);
    CountAppended(s.log, Publish(m.id, step.publishError.None?));
    assert Owns(s, step.w, 0, m.id) && Owns(s, w, k, s.workers[w].todo[k].id);
    assert HeldOk(s, s.workers[step.w], 0) && HeldOk(s, s.workers[w], k);
  }

  lemma PublishInv(s: State, step: Step)
    requires Inv(s) && Enabled(s, step) && step.DoPublish?
    ensures Inv(Do(s, step))
  {
    var t := Do(s, step);
    var m := Head(s, step.w);
    PublishRows(s, t, step.w, step.publishError.None?);
    assert forall w, k, id :: Owns(t, w, k, id) ==> Owns(s, w, k, id);
    forall w, k | w in t.workers && 0 <= k < |t.workers[w].todo|
      ensures HeldOk(t, t.workers[w], k)
    {
      PublishKeepsHeld(s, step, w, k);
    }
    forall id | id in t.late ensures LateOk(t, id) {
      assert LateOk(s, id) && HeldOk(s, s.workers[step.w], 0);
      CountAppended(s.log, Publish(m.id, step.publishError.None?));
    }
  }

  lemma ForgetInv(s: State, t: State)
    requires Inv(s)
    requires t.rows == s.rows && t.log == s.log
    requires t.workers.Keys <= s.workers.Keys && forall w :: w in t.workers ==> t.workers[w] == s.workers[w]
    requires t.late.Keys <= s.late.Keys && forall id :: id in t.late ==> t.late[id] == s.late[id]
    ensures Inv(t)
  {
    assert forall w, k, id :: Owns(t, w, k, id) ==> Owns(s, w, k, id);
    forall w, k | w in t.workers && 0 <= k < |t.workers[w].todo|
      ensures HeldOk(t, t.workers[w], k)
    {
      assert HeldOk(s, s.workers[w], k);
    }
    forall id | id in t.late ensures LateOk(t, id) { assert LateOk(s, id); }
  }

  /** A mark that answers an outstanding publish of `id` keeps the row within its budget. */
  ghost predicate MarkOk(s: State, id: int, mark: Mark) {
    && id in s.rows && s.rows[id].status == Publishing
    && (mark.AsFailed? ==>
          && mark.retryCount == s.rows[id].retryCount + 1
          && Acks(s.log, id) == 0
          && BackedOff(s.log, id, AsStored(mark.nextRetryAt)))
  }

  /** Applying a mark for a message nobody else holds. */
  lemma ApplyInv(s: State, t: State, id: int, mark: Mark)
    requires Inv(s) && MarkOk(s, id, mark)
    requires t == s.(rows := ApplyMark(s.rows, id, mark))
    requires id !in s.late && forall w, k :: !Owns(s, w, k, id)
    ensures Inv(t)
  {
    assert RowOk(s.log, id, s.rows[id]);
    assert forall w, k, id :: Owns(t, w, k, id) ==> Owns(s, w, k, id);
    forall w, k | w in t.workers && 0 <= k < |t.workers[w].todo|
      ensures HeldOk(t, t.workers[w], k)
    {
      assert HeldOk(s, s.workers[w], k);
      assert Owns(s, w, k, s.workers[w].todo[k].id);
    }
    forall x | x in t.late ensures LateOk(t, x) { assert LateOk(s, x); }
  }

  lemma HeadMarkOk(s: State, w: int)
    requires Inv(s) && w in s.workers && s.workers[w].todo != [] && s.workers[w].stage.Sent?
    ensures MarkOk(s, Head(s, w).id, HeadMark(s, w))
    ensures Head(s, w).id !in s.late
    ensures forall w', k :: Owns(s, w', k, Head(s, w).id) ==> w' == w && k == 0
  {
    assert HeldOk(s, s.workers[w], 0);
    assert Owns(s, w, 0, Head(s, w).id);
  }

  lemma AdvanceKeepsHeld(s: State, t: State, w: int, w': int, k: nat)
    requires Inv(s) && w in s.workers && s.workers[w].todo != []
    requires t == s.(workers := s.workers[w := s.workers[w].(todo := s.workers[w].todo[1..], stage := Ready)])
    requires w' in t.workers && k < |t.workers[w'].todo|
    ensures HeldOk(t, t.workers[w'], k)
  {
    if w' == w {
      assert t.workers[w].todo[k] == s.workers[w].todo[k + 1];
      assert HeldOk(s, s.workers[w], k + 1);
    } else {
      assert HeldOk(s, s.workers[w'], k);
    }
  }

  /** The head leaves the worker's batch; nothing else changes. */
  lemma AdvanceInv(s: State, t: State, w: int)
    requires Inv(s) && w in s.workers && s.workers[w].todo != []
    requires t == s.(workers := s.workers[w := s.workers[w].(todo := s.workers[w].todo[1..], stage := Ready)])
    ensures Inv(t)
    ensures forall w', k, id :: Owns(t, w', k, id) ==> Owns(s, w', if w' == w then k + 1 else k, id)
  {
    forall w', k | w' in t.workers && 0 <= k < |t.workers[w'].todo|
      ensures HeldOk(t, t.workers[w'], k)
    {
      AdvanceKeepsHeld(s, t, w, w', k);
    }
    forall id | id in t.late ensures LateOk(t, id) { assert LateOk(s, id); }
    forall w', k, id | Owns(t, w', k, id)
      ensures Owns(s, w', if w' == w then k + 1 else k, id)
    {
    }
  }

  lemma MarkInv(s: State, step: Step)
    requires Inv(s) && Enabled(s, step) && step.DoMark?
    ensures Inv(Do(s, step))
  {
    var t := Do(s, step);
    var w := step.w;
    var id, mark := Head(s, w).id, HeadMark(s, w);
    HeadMarkOk(s, w);
    var gone := s.(workers := s.workers - {w});
    ForgetInv(s, gone);
    match step.fate {
      case Replied(Done) =>
        var advanced := s.(workers := s.workers[w := s.workers[w].(todo := s.workers[w].todo[1..], stage := Ready)]);
        AdvanceInv(s, advanced, w);
        ApplyInv(advanced, t, id, mark);
      case Replied(ErrorApplied) =>
        assert forall w', k :: Owns(gone, w', k, id) ==> Owns(s, w', k, id);
        ApplyInv(gone, t, id, mark);
      case Replied(ErrorDropped) =>
      case ErrorLate =>
        assert forall w', k, x :: Owns(t, w', k, x) ==> Owns(gone, w', k, x) && Owns(s, w', k, x);
        forall w', k | w' in t.workers && 0 <= k < |t.workers[w'].todo|
          ensures HeldOk(t, t.workers[w'], k)
        {
          assert HeldOk(gone, gone.workers[w'], k);
          assert Owns(s, w', k, s.workers[w'].todo[k].id);
        }
        forall x | x in t.late ensures LateOk(t, x) { assert x != id ==> LateOk(s, x); }
    }
  }

  lemma LandInv(s: State, step: Step)
    requires Inv(s) && Enabled(s, step) && step.DoLand?
    ensures Inv(Do(s, step))
  {
    assert LateOk(s, step.id);
    var gone := s.(late := s.late - {step.id});
    ForgetInv(s, gone);
    OwnedIsPublishing(s);
    assert forall w, k, id :: Owns(gone, w, k, id) ==> Owns(s, w, k, id);
    ApplyInv(gone, Do(s, step), step.id, s.late[step.id]);
  }

  /** Nobody holds a claimable row, it was never acknowledged, and its earlier claims have run out their backoff. */
  lemma ClaimableIsFree(s: State, now: int, locked: set<int>, id: int)
    requires Inv(s) && id in Claimable(s.rows, now, locked)
    ensures (forall w, k :: !Owns(s, w, k, id)) && id !in s.late
    ensures Acks(s.log, id) == 0 && Publishes(s.log, id) <= s.rows[id].retryCount
    ensures BackedOff(s.log, id, now)
  {
    assert RowOk(s.log, id, s.rows[id]);
    OwnedIsPublishing(s);
    assert id in s.late ==> LateOk(s, id);
  }

  lemma LogClaim(log: seq<Event>, ids: seq<int>, now: int, backoff: int)
    requires Spaced(log) && Stamped(log) && backoff > 0
    requires forall id :: id in ids ==> BackedOff(log, id, now)
    ensures var longer := log + [Claim(ids, now, backoff, AsStored(now + backoff))];
      && Spaced(longer) && Stamped(longer)
      && (forall id :: Acks(longer, id) == Acks(log, id) && Publishes(longer, id) == Publishes(log, id))
      && (forall id, time :: id !in ids && BackedOff(log, id, time) ==> BackedOff(longer, id, time))
      && (forall id :: id !in ids && NeverClaimed(log, id) ==> NeverClaimed(longer, id))
      && (forall id :: id in ids ==> BackedOff(longer, id, AsStored(now + backoff)))
  {
    forall i | 0 <= i < |log| && log[i].Claim? && log[i].until <= now ensures log[i].until <= AsStored(now + backoff) {
      StoredTimesGrow(log[i].now + log[i].backoff, now, now + backoff);
    }
    CountAppended(log, Claim(ids, now, backoff, AsStored(now + backoff)));
  }

  /** Claimable rows are nobody's. */
  ghost predicate Free(s: State, id: int, time: int) {
    && (forall w, k :: !Owns(s, w, k, id)) && id !in s.late
    && Acks(s.log, id) == 0 && id in s.rows && Publishes(s.log, id) <= s.rows[id].retryCount
    && BackedOff(s.log, id, time)
  }

  lemma ClaimLog(s: State, t: State, ids: seq<int>, now: int, backoff: int)
    requires Inv(s) && backoff > 0
    requires forall id :: id in ids ==> Free(s, id, now)
    requires forall id :: id in ids ==> id in s.rows && s.rows[id].retryCount < s.rows[id].maxRetries
    requires t.rows == ClaimRows(s.rows, ids) && t.log == s.log + [Claim(ids, now, backoff, AsStored(now + backoff))]
    ensures forall id :: id in t.rows ==> RowOk(t.log, id, t.rows[id])
    ensures forall id :: id !in t.rows ==> Acks(t.log, id) == 0 && Publishes(t.log, id) == 0 && NeverClaimed(t.log, id)
    ensures Spaced(t.log) && Stamped(t.log)
  {
    assert forall id :: id in ids ==> Free(s, id, now) ==> BackedOff(s.log, id, now);
    LogClaim(s.log, ids, now, backoff);
    forall id | id in t.rows ensures RowOk(t.log, id, t.rows[id]) {
      assert RowOk(s.log, id, s.rows[id]);
      assert id in ids ==> Free(s, id, now);
    }
  }

  /** The claimed rows before anybody is told about them. */
  lemma ClaimRowsInv(s: State, t: State, ids: seq<int>, now: int, backoff: int, locked: set<int>)
    requires Inv(s) && backoff > 0
    requires forall id :: id in ids ==> id in Claimable(s.rows, now, locked)
    requires t == s.(rows := ClaimRows(s.rows, ids), log := s.log + [Claim(ids, now, backoff, AsStored(now + backoff))])
    ensures Inv(t)
    ensures forall id :: id in ids ==> Free(t, id, AsStored(now + backoff))
  {
    forall id | id in ids ensures Free(s, id, now) {
      ClaimableIsFree(s, now, locked, id);
    }
    ClaimLog(s, t, ids, now, backoff);
    LogClaim(s.log, ids, now, backoff);
    assert forall w, k, id :: Owns(t, w, k, id) ==> Owns(s, w, k, id);
    forall w, k | w in t.workers && 0 <= k < |t.workers[w].todo|
      ensures HeldOk(t, t.workers[w], k)
    {
      assert HeldOk(s, s.workers[w], k);
      assert Owns(s, w, k, s.workers[w].todo[k].id);
    }
    forall id | id in t.late ensures LateOk(t, id) { assert LateOk(s, id); }
  }

  /** A state in which the claimed rows are handed to a dispatcher. */
  ghost predicate HandsOver(s: State, t: State, w: int, now: int, backoff: int, ids: seq<int>, batch: seq<Message>) {
    && Inv(s) && backoff > 0 && w !in s.workers && Ascending(ids) && |batch| == |ids|
    && (forall id :: id in ids ==> Free(s, id, AsStored(now + backoff)) && s.rows[id].status == Publishing)
    && (forall k :: 0 <= k < |ids| ==>
        batch[k].id == ids[k] && ids[k] in s.rows && batch[k].retryCount == s.rows[ids[k]].retryCount)
    && t == s.(workers := s.workers[w := Worker(now, backoff, batch, Ready)])
  }

  lemma HandOverKeepsHeld(s: State, t: State, w: int, now: int, backoff: int, ids: seq<int>, batch: seq<Message>,
        v: int, k: nat)
    requires HandsOver(s, t, w, now, backoff, ids, batch)
    requires v in t.workers && k < |t.workers[v].todo|
    ensures HeldOk(t, t.workers[v], k)
  {
    if v == w {
      assert ids[k] in ids && Free(s, ids[k], AsStored(now + backoff));
    } else {
      assert HeldOk(s, s.workers[v], k);
    }
  }

  lemma HandOverInv(s: State, t: State, w: int, now: int, backoff: int, ids: seq<int>, batch: seq<Message>)
    requires HandsOver(s, t, w, now, backoff, ids, batch)
    ensures Inv(t)
  {
    forall v, k | v in t.workers && 0 <= k < |t.workers[v].todo|
      ensures HeldOk(t, t.workers[v], k)
    {
      HandOverKeepsHeld(s, t, w, now, backoff, ids, batch, v, k);
    }
    forall id | id in t.late ensures LateOk(t, id) { assert LateOk(s, id); }
    forall v, k, id | Owns(t, v, k, id)
      ensures if v == w then 0 <= k < |ids| && ids[k] == id && id in ids else Owns(s, v, k, id)
    {
      if v == w { assert ids[k] in ids; }
    }
    assert forall id :: id in ids ==> Free(s, id, AsStored(now + backoff));
  }

  lemma ClaimInv(s: State, step: Step)
    requires Inv(s) && Enabled(s, step) && step.DoClaim?
    ensures Inv(Do(s, step))
  {
    var t := Do(s, step);
    var ids := Selected(s.rows, step.now, step.limit, step.locked);
    if ids != [] && Parses(s.rows, ids) && step.reply != ErrorDropped {
      var claimed := s.(rows := ClaimRows(s.rows, ids),
        log := s.log + [Claim(ids, step.now, step.backoff, AsStored(step.now + step.backoff))]);
      ClaimRowsInv(s, claimed, ids, step.now, step.backoff, step.locked);
      if step.reply.Done? {
        assert forall k :: 0 <= k < |ids| ==> ids[k] in ids;
        HandOverInv(claimed, t, step.w, step.now, step.backoff, ids, MessagesOf(s.rows, ids));
      }
    }
  }

  lemma StepInv(s: State, step: Step)
    requires Inv(s) && Enabled(s, step)
    ensures Inv(Do(s, step))
  {
    match step {
      case DoInsert(_, _, _, _) => InsertInv(s, step);
      case DoClaim(_, _, _, _, _, _) => ClaimInv(s, step);
      case DoPublish(_, _) => PublishInv(s, step);
      case DoMark(_, _) => MarkInv(s, step);
      case DoLand(_) => LandInv(s, step);
      case DoDrop(_) => ForgetInv(s, Do(s, step));
      case DoCrash(_) => ForgetInv(s, Do(s, step));
    }
  }

  lemma {:induction false} RunInv(s: State, steps: seq<Step>, t: State)
    requires Inv(s) && Runs(s, steps, t)
    ensures Inv(t)
    decreases |steps|
  {
    if steps != [] {
      StepInv(s, steps[0]);
      RunInv(Do(s, steps[0]), steps[1..], t);
    }
  }
}
