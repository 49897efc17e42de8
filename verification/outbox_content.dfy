/**
 What the messages of the outbox carry, over whole runs: the payload, headers and retry bound their row was inserted with,
 on every try (app/mq/gorm_store.go:54-83, app/mq/dispatcher.go:55-68). And how often a row is tried.
 */
module OutboxContent {
  import opened Prelude
  import opened OutboxTable
  import opened OutboxProtocol
  import opened OutboxGuarantees

  /** What an insert fixes. */
  datatype Content = Content(payload: Payload, headers: HeadersColumn, maxRetries: int)

  /** Row id, and every message held for it, has this content. */
  ghost predicate Keeps(s: State, id: int, c: Content) {
    && id in s.rows
    && s.rows[id].payload == c.payload && s.rows[id].headers == c.headers && s.rows[id].maxRetries == c.maxRetries
    && forall w, k :: Owns(s, w, k, id) ==> Copies(s.workers[w].todo[k], c)
  }

  ghost predicate Copies(m: Message, c: Content) {
    && m.payload == c.payload && m.maxRetries == c.maxRetries
    && match c.headers case NoHeaders => m.headers == map[] case Headers(h) => m.headers == h case Malformed => false
  }

  lemma ClaimKeeps(s: State, step: Step, id: int, c: Content)
    requires Keeps(s, id, c) && Enabled(s, step) && step.DoClaim?
    ensures Keeps(Do(s, step), id, c)
  {
    var t := Do(s, step);
    var ids := Selected(s.rows, step.now, step.limit, step.locked);
    forall w, k | Owns(t, w, k, id)
      ensures Copies(t.workers[w].todo[k], c)
    {
      if w == step.w {
        assert ids[k] == id && ids[k] in ids;
      } else {
        assert Owns(s, w, k, id);
      }
    }
  }

  lemma StepKeeps(s: State, step: Step, id: int, c: Content)
    requires Keeps(s, id, c) && Enabled(s, step)
    ensures Keeps(Do(s, step), id, c)
  {
    var t := Do(s, step);
    if step.DoClaim? {
      ClaimKeeps(s, step, id, c);
    } else {
      forall w, k | Owns(t, w, k, id)
        ensures Copies(t.workers[w].todo[k], c)
      {
        var back := if step.DoMark? && w == step.w then k + 1 else k;
        assert Owns(s, w, back, id) && t.workers[w].todo[k] == s.workers[w].todo[back];
      }
    }
  }

  lemma {:induction false} RunKeeps(s: State, steps: seq<Step>, t: State, id: int, c: Content)
    requires Keeps(s, id, c) && Runs(s, steps, t)
    ensures Keeps(t, id, c)
    decreases |steps|
  {
    if steps != [] {
      StepKeeps(s, steps[0], id, c);
      RunKeeps(Do(s, steps[0]), steps[1..], t, id, c);
    }
  }

  /** Whatever is published for an inserted row, by whom and at which try, is what was inserted. */
  lemma EveryTryPublishesTheInsert(s: State, before: seq<Step>, u: State, insert: Step, after: seq<Step>, t: State, w: int)
    requires Init(s) && Runs(s, before, u) && insert.DoInsert? && Enabled(u, insert)
    requires Runs(Do(u, insert), after, t)
    requires w in t.workers && t.workers[w].todo != [] && Head(t, w).id == insert.id
    ensures var m := Head(t, w);
      && m.payload == insert.payload && m.maxRetries == insert.maxRetries
      && match insert.headers case NoHeaders => m.headers == map[] case Headers(h) => m.headers == h case Malformed => false
  {
    InitInv(s);
    RunInv(s, before, u);
    RunAlike(s, before, u);
    StepAlike(u, insert);
    var v, c := Do(u, insert), Content(insert.payload, insert.headers, insert.maxRetries);
    RunKeeps(v, after, t, insert.id, c);
    assert Owns(t, w, 0, insert.id);
  }

  /** The same for a row that was there from the start. */
  lemma EveryTryPublishesTheRow(s: State, steps: seq<Step>, t: State, w: int, id: int)
    requires Init(s) && Runs(s, steps, t) && id in s.rows
    requires w in t.workers && t.workers[w].todo != [] && Head(t, w).id == id
    ensures var m, row := Head(t, w), s.rows[id];
      && m.payload == row.payload && m.maxRetries == row.maxRetries
      && match row.headers case NoHeaders => m.headers == map[] case Headers(h) => m.headers == h case Malformed => false
  {
    RunKeeps(s, steps, t, id, Content(s.rows[id].payload, s.rows[id].headers, s.rows[id].maxRetries));
    assert Owns(t, w, 0, id);
  }

  /** Two publishes of one id, however far apart and by whichever dispatchers, hand over the same message. */
  lemma RetryPublishesTheSame(s: State, before: seq<Step>, u: State, w: int, between: seq<Step>, t: State, x: int)
    requires Init(s) && Runs(s, before, u) && Runs(u, between, t)
    requires w in u.workers && u.workers[w].todo != [] && x in t.workers && t.workers[x].todo != []
    requires Head(u, w).id == Head(t, x).id
    ensures Head(u, w).payload == Head(t, x).payload && Head(u, w).headers == Head(t, x).headers
    ensures Head(u, w).maxRetries == Head(t, x).maxRetries
  {
    var id := Head(u, w).id;
    InitInv(s);
    RunInv(s, before, u);
    HeldAlike(s, before, u, w);
    var row := u.rows[id];
    RunKeeps(u, between, t, id, Content(row.payload, row.headers, row.maxRetries));
    assert Owns(u, w, 0, id) && Owns(t, x, 0, id);
  }

  /** Every held message has the content of its row. */
  ghost predicate Alike(s: State) {
    forall id :: id in s.rows ==> Keeps(s, id, Content(s.rows[id].payload, s.rows[id].headers, s.rows[id].maxRetries))
  }

  lemma StepAlike(s: State, step: Step)
    requires Inv(s) && Alike(s) && Enabled(s, step)
    ensures Alike(Do(s, step))
  {
    var t := Do(s, step);
    forall id | id in t.rows
      ensures Keeps(t, id, Content(t.rows[id].payload, t.rows[id].headers, t.rows[id].maxRetries))
    {
      if id in s.rows {
        StepKeeps(s, step, id, Content(s.rows[id].payload, s.rows[id].headers, s.rows[id].maxRetries));
      } else {
        OwnedIsPublishing(s);
        assert forall w, k :: Owns(t, w, k, id) ==> Owns(s, w, k, id);
      }
    }
  }

  lemma {:induction false} RunAlike(s: State, steps: seq<Step>, t: State)
    requires Inv(s) && Alike(s) && Runs(s, steps, t)
    ensures Alike(t)
    decreases |steps|
  {
    if steps != [] {
      StepInv(s, steps[0]);
      StepAlike(s, steps[0]);
      RunAlike(Do(s, steps[0]), steps[1..], t);
    }
  }

  lemma HeldAlike(s: State, steps: seq<Step>, t: State, w: int)
    requires Init(s) && Runs(s, steps, t) && w in t.workers && t.workers[w].todo != []
    ensures var id := Head(t, w).id;
      id in t.rows && Keeps(t, id, Content(t.rows[id].payload, t.rows[id].headers, t.rows[id].maxRetries))
  {
    InitInv(s);
    RunAlike(s, steps, t);
    RunInv(s, steps, t);
    assert HeldOk(t, t.workers[w], 0);
  }

  // Every retry is used.

  ghost predicate OneRow(s: State) {
    s.rows.Keys == {1} && s.workers == map[] && s.late == map[] && !s.rows[1].headers.Malformed?
  }

  /** A dispatcher claims the only row, its publish fails, and it ends. */
  lemma FailAgain(s: State, now: int, backoff: int) returns (steps: seq<Step>, t: State)
    requires OneRow(s) && backoff > 0 && Eligible(s.rows[1], now)
    ensures Runs(s, steps, t) && OneRow(t)
    ensures t.rows[1] == s.rows[1].(
      status := Failed, retryCount := s.rows[1].retryCount + 1, nextRetryAt := Some(AsStored(now + backoff)),
      lastError := [])
    ensures Publishes(t.log, 1) == Publishes(s.log, 1) + 1
  {
    var claim, publish, mark := DoClaim(0, now, backoff, 1, {}, Done), DoPublish(0, Some([])), DoMark(0, Replied(Done));
    OneRowSelected(s.rows, now);
    var s1 := Do(s, claim);
    var s2 := Do(s1, publish);
    var s3 := Do(s2, mark);
    t := Do(s3, DoCrash(0));
    RunsSnoc(s, [], s, claim);
    RunsSnoc(s, [] + [claim], s1, publish);
    RunsSnoc(s, [] + [claim] + [publish], s2, mark);
    RunsSnoc(s, [] + [claim] + [publish] + [mark], s3, DoCrash(0));
    steps := [] + [claim] + [publish] + [mark] + [DoCrash(0)];
    CountAppended(s.log, Claim([1], now, backoff, AsStored(now + backoff)));
    CountAppended(s1.log, Publish(1, false));
  }

  lemma {:induction false} RunsConcat(s: State, first: seq<Step>, u: State, second: seq<Step>, t: State)
    requires Runs(s, first, u) && Runs(u, second, t)
    ensures Runs(s, first + second, t)
    decreases |first|
  {
    if first == [] {
      assert first + second == second;
    } else {
      assert (first + second)[1..] == first[1..] + second;
      RunsConcat(Do(s, first[0]), first[1..], u, second, t);
    }
  }

  lemma {:induction false} FailOnAndOn(s: State, now: int, backoff: int, left: nat) returns (steps: seq<Step>, t: State)
    requires OneRow(s) && backoff > 0 && s.rows[1].maxRetries - s.rows[1].retryCount == left
    requires left > 0 ==> Eligible(s.rows[1], now)
    ensures Runs(s, steps, t) && Publishes(t.log, 1) == Publishes(s.log, 1) + left
    decreases left
  {
    steps, t := [], s;
    if left > 0 {
      steps, t := FailAgain(s, now, backoff);
      var more, end := FailOnAndOn(t, AsStored(now + backoff), backoff, left - 1);
      RunsConcat(s, steps, t, more, end);
      steps, t := steps + more, end;
    }
  }

  /** The bound of RetryBound is reached: some run publishes a row's message max_retries times. */
  lemma EveryRetryIsUsed(payload: Payload, headers: HeadersColumn, maxRetries: nat, now: int, backoff: int)
    returns (s: State, steps: seq<Step>, t: State)
    requires backoff > 0 && !headers.Malformed?
    ensures Init(s) && Runs(s, steps, t) && s.rows.Keys == {1} && s.rows[1].maxRetries == maxRetries
    ensures Publishes(t.log, 1) == maxRetries
  {
    s := State(map[1 := Row(payload, headers, Pending, 0, maxRetries, None, [], None)], map[], map[], []);
    steps, t := FailOnAndOn(s, now, backoff, maxRetries);
  }
}
