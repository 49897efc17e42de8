/** What every run of the outbox protocol guarantees, and the link from one dispatcher round to a run. */
module OutboxGuarantees {
  import opened Prelude
  import opened OutboxTable
  import opened OutboxDispatcher
  import opened OutboxProtocol

  // Safety.

  /** No message is acknowledged by the publisher twice, and an acknowledged row can never be claimed again. */
  lemma AtMostOneAcknowledgement(s: State, steps: seq<Step>, t: State, id: int, now: int)
    requires Init(s) && Runs(s, steps, t)
    ensures Acks(t.log, id) <= 1
    ensures Acks(t.log, id) > 0 ==> id !in Claimable(t.rows, now, {})
  {
    InitInv(s);
    RunInv(s, steps, t);
    assert id in t.rows ==> RowOk(t.log, id, t.rows[id]);
  }

  /** A message is published at most max_retries times, and its retry count stays within the same bound. */
  lemma RetryBound(s: State, steps: seq<Step>, t: State, id: int)
    requires Init(s) && Runs(s, steps, t)
    requires id in t.rows
    ensures 0 <= t.rows[id].retryCount <= Max(0, t.rows[id].maxRetries)
    ensures Publishes(t.log, id) <= Max(0, t.rows[id].maxRetries)
  {
    InitInv(s);
    RunInv(s, steps, t);
    assert RowOk(t.log, id, t.rows[id]);
  }

  /** Remaining batches are disjoint, and each message in one mirrors a `publishing` row. */
  lemma Ownership(s: State, steps: seq<Step>, t: State, w: int, k: nat)
    requires Init(s) && Runs(s, steps, t)
    requires w in t.workers && k < |t.workers[w].todo|
    ensures var m := t.workers[w].todo[k];
      && m.id in t.rows && t.rows[m.id].status == Publishing && t.rows[m.id].retryCount == m.retryCount
      && (forall w', k' :: w' in t.workers && 0 <= k' < |t.workers[w'].todo| && t.workers[w'].todo[k'].id == m.id
            ==> w' == w && k' == k)
  {
    InitInv(s);
    RunInv(s, steps, t);
    assert HeldOk(t, t.workers[w], k);
    assert Owns(t, w, k, t.workers[w].todo[k].id);
    forall w', k' | w' in t.workers && 0 <= k' < |t.workers[w'].todo| && t.workers[w'].todo[k'].id == t.workers[w].todo[k].id
      ensures w' == w && k' == k
    {
      assert Owns(t, w', k', t.workers[w].todo[k].id);
    }
  }

  /**
   A claim of a message waits for the stored end of the backoff of every earlier claim, so that two of them are at least
   the first claimer's backoff less half a second apart.
   */
  lemma Backoff(s: State, steps: seq<Step>, t: State, i: nat, j: nat, id: int)
    requires Init(s) && Runs(s, steps, t)
    requires i < j < |t.log| && t.log[i].Claim? && t.log[j].Claim? && id in t.log[i].ids && id in t.log[j].ids
    ensures AsStored(t.log[i].now + t.log[i].backoff) <= t.log[j].now
    ensures t.log[i].now + t.log[i].backoff - COLUMN_UNIT / 2 < t.log[j].now
  {
    InitInv(s);
    RunInv(s, steps, t);
  }

  // A whole backoff between two claims.

  /** In every run, what was claimed at `now` with this backoff is claimed again only when the backoff is over. */
  ghost predicate FullBackoff(now: int, backoff: int) {
    forall s, steps, t, i, j, id ::
      Init(s) && Runs(s, steps, t) && ClaimsAgain(t.log, i, j, id) && t.log[i].now == now && t.log[i].backoff == backoff ==>
      now + backoff <= t.log[j].now
  }

  ghost predicate ClaimsAgain(log: seq<Event>, i: int, j: int, id: int) {
    0 <= i < j < |log| && log[i].Claim? && log[j].Claim? && id in log[i].ids && id in log[j].ids
  }

  lemma {:induction false} RunsSnoc(s: State, steps: seq<Step>, t: State, step: Step)
    requires Runs(s, steps, t) && Enabled(t, step)
    ensures Runs(s, steps + [step], Do(t, step))
    decreases |steps|
  {
    if steps == [] {
      assert ([] + [step])[1..] == [];
    } else {
      assert (steps + [step])[1..] == steps[1..] + [step];
      RunsSnoc(Do(s, steps[0]), steps[1..], t, step);
    }
  }

  lemma OneRowSelected(rows: Table, now: int)
    requires rows.Keys == {1} && Eligible(rows[1], now)
    ensures Selected(rows, now, 1, {}) == [1] && MessagesOf(rows, [1]) == [MessageOf(1, rows[1])]
  {
    var s := Claimable(rows, now, {});
    assert s == {1};
    assert Smallest(s, 1) == [Min(s)] + Smallest(s - {Min(s)}, 0);
  }

  /** The only row is claimed and its publish fails. */
  lemma FailOnce(s: State, row: Row, now: int, backoff: int) returns (steps: seq<Step>, t: State)
    requires s == State(map[1 := row], map[], map[], []) && backoff > 0
    requires Eligible(row, now) && row.retryCount + 1 < row.maxRetries && !row.headers.Malformed?
    ensures Runs(s, steps, t) && t.workers.Keys == {0} && |t.log| == 2
    ensures t.log[0] == Claim([1], now, backoff, AsStored(now + backoff))
    ensures t.rows.Keys == {1} && Eligible(t.rows[1], AsStored(now + backoff)) && !t.rows[1].headers.Malformed?
  {
    var claim, publish, mark := DoClaim(0, now, backoff, 1, {}, Done), DoPublish(0, Some([])), DoMark(0, Replied(Done));
    OneRowSelected(s.rows, now);
    var s1 := Do(s, claim);
    var s2 := Do(s1, publish);
    t := Do(s2, mark);
    RunsSnoc(s, [], s, claim);
    RunsSnoc(s, [] + [claim], s1, publish);
    RunsSnoc(s, [] + [claim] + [publish], s2, mark);
    steps := [] + [claim] + [publish] + [mark];
  }

  /** The next dispatcher comes when the stored time is there. */
  lemma RoundedDownIsEarly(now: int, backoff: int)
    requires backoff > 0 && AsStored(now + backoff) < now + backoff
    ensures !FullBackoff(now, backoff)
  {
    var row := Row(Payload("", "", "", "", ""), NoHeaders, Pending, 0, 2, None, [], None);
    var s := State(map[1 := row], map[], map[], []);
    var later := AsStored(now + backoff);
    var steps, failed := FailOnce(s, row, now, backoff);
    var again := DoClaim(1, later, backoff, 1, {}, Done);
    OneRowSelected(failed.rows, later);
    RunsSnoc(s, steps, failed, again);
    var t := Do(failed, again);
    assert ClaimsAgain(t.log, 0, 2, 1);
  }

  /** Claims are a whole backoff apart exactly when the end of the backoff is not rounded down. */
  lemma FullBackoffExactly(now: int, backoff: int)
    requires backoff > 0
    ensures FullBackoff(now, backoff) <==> now + backoff <= AsStored(now + backoff)
  {
    if now + backoff <= AsStored(now + backoff) {
      forall s, steps, t, i, j, id |
          Init(s) && Runs(s, steps, t) && ClaimsAgain(t.log, i, j, id) && t.log[i].now == now && t.log[i].backoff == backoff
        ensures now + backoff <= t.log[j].now
      {
        Backoff(s, steps, t, i, j, id);
      }
    } else {
      RoundedDownIsEarly(now, backoff);
    }
  }

  // Quiescence.

  function Weight(row: Row): nat {
    3 * Max(0, row.maxRetries - row.retryCount) +
    (match row.status case Pending => 2 case Failed => 2 case Publishing => 1 case Published => 0)
  }

  ghost function Total(rows: Table): nat
    decreases |rows|
  {
    if rows == map[] then 0
    else
      var id := AnyKey(rows);
      Weight(rows[id]) + Total(rows - {id})
  }

  ghost function AnyKey(rows: Table): (id: int)
    requires rows != map[]
    ensures id in rows
  {
    KeysNotEmpty(rows);
    var id :| id in rows;
    id
  }

  lemma KeysNotEmpty(rows: Table)
    requires rows != map[]
    ensures exists id :: id in rows
  {
    assert rows.Keys != {};
    var id := Pick(rows.Keys);
    assert id in rows;
  }

  lemma {:induction false} TotalSplits(rows: Table, id: int)
    requires id in rows
    ensures Total(rows) == Weight(rows[id]) + Total(rows - {id})
    decreases |rows|
  {
    var first := AnyKey(rows);
    if first != id {
      TotalSplits(rows - {first}, id);
      TotalSplits(rows - {id}, first);
      assert rows - {first} - {id} == rows - {id} - {first};
    }
  }

  /** The total drops by at least the sum of the drops; one strict drop makes it strict. */
  lemma {:induction false} TotalMonotone(before: Table, after: Table)
    requires before.Keys == after.Keys
    requires forall id :: id in before ==> Weight(after[id]) <= Weight(before[id])
    ensures Total(after) <= Total(before)
    ensures (exists id :: id in before && Weight(after[id]) < Weight(before[id])) ==> Total(after) < Total(before)
    decreases |before|
  {
    if before != map[] {
      var id := if exists id :: id in before && Weight(after[id]) < Weight(before[id])
        then var id :| id in before && Weight(after[id]) < Weight(before[id]); id
        else AnyKey(before);
      TotalSplits(before, id);
      TotalSplits(after, id);
      TotalMonotone(before - {id}, after - {id});
    } else {
      assert after.Keys == {};
      assert after == map[];
    }
  }

  /** A step that really claims or marks a row. */
  predicate Effective(s: State, step: Step)
    requires Enabled(s, step)
  {
    !step.DoInsert? && Do(s, step).rows != s.rows
  }

  lemma MarkLightens(s: State, id: int, mark: Mark)
    requires Inv(s) && MarkOk(s, id, mark)
    ensures Total(ApplyMark(s.rows, id, mark)) < Total(s.rows)
  {
    var after := ApplyMark(s.rows, id, mark);
    assert RowOk(s.log, id, s.rows[id]);
    assert Weight(after[id]) < Weight(s.rows[id]);
    TotalMonotone(s.rows, after);
  }

  lemma ClaimLightens(rows: Table, now: int, locked: set<int>, ids: seq<int>)
    requires ids != [] && forall id :: id in ids ==> id in Claimable(rows, now, locked)
    ensures Total(ClaimRows(rows, ids)) < Total(rows)
  {
    var after := ClaimRows(rows, ids);
    var first := ids[0];
    assert first in ids;
    assert first in Claimable(rows, now, locked);
    assert Weight(after[first]) < Weight(rows[first]);
    TotalMonotone(rows, after);
  }

  lemma StepLightens(s: State, step: Step)
    requires Inv(s) && Enabled(s, step) && !step.DoInsert?
    ensures Total(Do(s, step).rows) <= Total(s.rows)
    ensures Effective(s, step) ==> Total(Do(s, step).rows) < Total(s.rows)
  {
    match step {
      case DoClaim(_, now, _, limit, locked, _) =>
        var ids := Selected(s.rows, now, limit, locked);
        if ids != [] { ClaimLightens(s.rows, now, locked, ids); }
      case DoMark(w, _) =>
        HeadMarkOk(s, w);
        MarkLightens(s, Head(s, w).id, HeadMark(s, w));
      case DoLand(id) =>
        assert LateOk(s, id);
        MarkLightens(s, id, s.late[id]);
      case _ =>
    }
  }

  ghost function EffectiveSteps(s: State, steps: seq<Step>): nat
    decreases |steps|
  {
    if steps == [] || !Enabled(s, steps[0]) then 0
    else (if Effective(s, steps[0]) then 1 else 0) + EffectiveSteps(Do(s, steps[0]), steps[1..])
  }

  ghost predicate NoInserts(steps: seq<Step>) {
    forall k :: 0 <= k < |steps| ==> !steps[k].DoInsert?
  }

  /** Without inserts, a run of any length claims and marks at most as often as the weight of its first table. */
  lemma {:induction false} Quiescence(s: State, steps: seq<Step>, t: State)
    requires Inv(s) && Runs(s, steps, t) && NoInserts(steps)
    ensures EffectiveSteps(s, steps) + Total(t.rows) <= Total(s.rows)
    decreases |steps|
  {
    if steps != [] {
      StepLightens(s, steps[0]);
      StepInv(s, steps[0]);
      assert NoInserts(steps[1..]);
      Quiescence(Do(s, steps[0]), steps[1..], t);
    }
  }

  // One dispatcher round is a run of the protocol.

  /** The protocol steps of one round after its claim, up to the first mark that reports an error. */
  function RoundSteps(w: int, batch: seq<Message>, env: int -> Outcome): seq<Step> {
    if batch == [] then []
    else
      var o := env(batch[0].id);
      [DoPublish(w, o.publishError), DoMark(w, Replied(o.markReply))]
      + (if o.markReply.Done? then RoundSteps(w, batch[1..], env) else [])
  }

  lemma {:induction false} RoundIsARun(s: State, w: int, env: int -> Outcome) returns (t: State)
    requires w in s.workers && s.workers[w].stage.Ready?
    requires forall k :: 0 <= k < |s.workers[w].todo| ==> s.workers[w].todo[k].id > 0
    ensures Runs(s, RoundSteps(w, s.workers[w].todo, env), t)
    ensures t.rows == Work(s.rows, s.workers[w].now, s.workers[w].backoff, s.workers[w].todo, env).rows
    ensures t.late == s.late && forall v :: v != w ==> (v in t.workers <==> v in s.workers) && (v in s.workers ==>
        t.workers[v] == s.workers[v])
    decreases |s.workers[w].todo|
  {
    var worker := s.workers[w];
    t := s;
    if worker.todo != [] {
      var m, o := worker.todo[0], env(worker.todo[0].id);
      var publish, mark := DoPublish(w, o.publishError), DoMark(w, Replied(o.markReply));
      var s1 := Do(s, publish);
      var s2 := Do(s1, mark);
      assert HeadMark(s1, w) == MarkFor(m, worker.now, worker.backoff, o.publishError);
      assert s2.rows == Marked(s.rows, worker.now, worker.backoff, m, o);
      t := s2;
      var rest := [];
      if o.markReply.Done? {
        assert s2.workers[w].todo == worker.todo[1..];
        t := RoundIsARun(s2, w, env);
        rest := RoundSteps(w, worker.todo[1..], env);
      }
      RunsCons(s, publish, [mark] + rest, t, s1);
      RunsCons(s1, mark, rest, t, s2);
      assert RoundSteps(w, worker.todo, env) == [publish] + ([mark] + rest);
    }
  }

  lemma RunsCons(s: State, step: Step, rest: seq<Step>, t: State, s': State)
    requires Enabled(s, step) && s' == Do(s, step)
    ensures Runs(s, [step] + rest, t) <==> Runs(s', rest, t)
  {
    assert ([step] + rest)[1..] == rest;
  }

  /** A whole `RunOnce`, claim included, is a run of the protocol by one idle dispatcher. */
  lemma RunOnceIsARun(s: State, w: int, now: int, limit: int, backoff: int, locked: set<int>, claimReply: Reply,
        env: int -> Outcome)
    returns (steps: seq<Step>, t: State)
    requires w !in s.workers && backoff > 0 && limit > 0
    requires forall id :: id in s.rows ==> id > 0
    ensures Runs(s, steps, t) && NoInserts(steps)
    ensures t.rows == Round(s.rows, now, limit, backoff, locked, claimReply, env).rows
  {
    var claim := DoClaim(w, now, backoff, limit, locked, claimReply);
    var ids := Selected(s.rows, now, limit, locked);
    t := Do(s, claim);
    var rest := [];
    if ids == [] {
      assert ClaimRows(s.rows, ids) == s.rows;
    } else if Parses(s.rows, ids) && claimReply.Done? {
      var batch := MessagesOf(s.rows, ids);
      forall k | 0 <= k < |batch| ensures batch[k].id > 0 { assert ids[k] in ids; }
      rest := RoundSteps(w, batch, env);
      RoundStepsInsertNothing(w, batch, env);
      t := RoundIsARun(t, w, env);
    }
    RunsCons(s, claim, rest, t, Do(s, claim));
    steps := [claim] + rest;
  }

  lemma {:induction false} RoundStepsInsertNothing(w: int, batch: seq<Message>, env: int -> Outcome)
    ensures NoInserts(RoundSteps(w, batch, env))
  {
    if batch != [] {
      RoundStepsInsertNothing(w, batch[1..], env);
    }
  }
}
