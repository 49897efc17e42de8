/**
 When the product-create saga is all or nothing: an invariant of every run, and the runs that show the condition
 exact.
 */
module SagaGuarantees {
  import opened Prelude
  import opened SagaSpec
  import opened SagaProtocol

  /**
   The executors under which every run is all or nothing: failures are kept, no stock initialisation takes effect
   unnoticed, and where a creation may, the failing branch is compensated too.
   */
  predicate SafePolicy(p: Policy) {
    p.keepsFailures && Init !in p.unconfirmed && (Create in p.unconfirmed ==> p.compensatesFailing)
  }

  predicate Aborted(c: Config, s: State) {
    s.create.Failed? || s.init.Failed? || s.publish.Failed? || (s.create.Succeeded? && !c.CountFits())
  }

  /** The rollbacks without which something would be left behind. */
  predicate Needed(c: Config, s: State, b: Branch) {
    match b
    case Create => s.create.Succeeded? || (s.create.Failed? && c.policy.compensatesFailing)
    case Init => s.init.Succeeded?
    case Publish => false
  }

  ghost predicate MarksOk(c: Config, s: State) {
    (c.request.operatorId <= 0 ==> s.create.Fresh? && s.world.createLog.None?) &&
    (!s.init.Fresh? ==> s.create.Succeeded? && c.CountFits()) &&
    (!s.publish.Fresh? ==> s.init.Succeeded? && c.request.status == ONLINE) &&
    (s.undone != {} ==> Aborted(c, s)) &&
    (Create in s.undone ==> s.world.createUndone) &&
    (Init in s.undone && s.init.Succeeded? ==> s.world.initUndone)
  }

  ghost predicate ProductOk(c: Config, s: State) {
    var w := s.world;
    (w.createUndone ==> w.product.None? && Aborted(c, s)) &&
    (!w.createUndone ==> (w.product.Some? <==> w.createLog.Some?)) &&
    (w.createLog.Some? ==> w.createLog.value == c.made.productId) &&
    (w.createLog.Some? && !s.create.Succeeded? ==> Create in c.policy.unconfirmed) &&
    (s.create.Succeeded? ==> w.createLog.Some?) &&
    (w.product.Some? ==>
      w.product.value == InitialStatus(c.request.status) || (w.product.value == c.request.status == ONLINE)) &&
    (s.publish.Succeeded? ==> w.product == Some(ONLINE))
  }

  ghost predicate StocksOk(c: Config, s: State) {
    var w := s.world;
    (w.initLog.Some? <==> s.init.Succeeded?) &&
    (w.initLog.Some? ==>
      c.Items() != [] && w.initLog.value == ItemIds(c.Items()) && Insertable(c.before, c.Items())) &&
    (w.initUndone ==> w.initLog.Some? && Aborted(c, s)) &&
    w.stocks == if w.initLog.Some? && !w.initUndone then c.before + Rows(c.Items()) else c.before
  }

  ghost predicate Done(c: Config, s: State) {
    s.create.Succeeded? && c.CountFits() && s.init.Succeeded? && !s.publish.Failed? &&
    (c.request.status == ONLINE ==> s.publish.Succeeded?)
  }

  ghost predicate PhaseOk(c: Config, s: State) {
    match s.phase
    case Idle => true
    case Running(b, v) =>
      c.request.operatorId > 0 &&
      v == Vars(if b.Create? then None else Some(c.made), b.Publish?) &&
      (!b.Create? ==> s.create.Succeeded? && c.CountFits()) &&
      (b.Publish? ==> s.init.Succeeded? && c.request.status == ONLINE)
    case Returning(v) => Done(c, s)
    case Back(stack, v) =>
      (Aborted(c, s) || c.request.operatorId <= 0) &&
      v == Vars(if s.create.Succeeded? then Some(c.made) else None, s.init.Succeeded?) &&
      (Publish in stack ==> c.request.status == ONLINE) &&
      (forall b :: Needed(c, s, b) ==> b in stack || b in s.undone) &&
      (c.request.operatorId <= 0 ==> stack == [])
    case Ended(ok) =>
      if ok then Done(c, s)
      else (Aborted(c, s) || c.request.operatorId <= 0) && forall b :: Needed(c, s, b) ==> b in s.undone
  }

  ghost predicate Inv(c: Config, s: State) {
    MarksOk(c, s) && ProductOk(c, s) && StocksOk(c, s) && PhaseOk(c, s)
  }

  lemma InvIsGood(c: Config, s: State)
    requires SafePolicy(c.policy) && Inv(c, s)
    ensures Good(c, s)
  {
    if s.phase == Ended(false) {
      assert Needed(c, s, Create) ==> Create in s.undone;
      assert Needed(c, s, Init) ==> Init in s.undone;
    }
  }

  /** What a forward call that takes effect does to the rows, seen from the invariant. */
  lemma ForwardInit(c: Config, s: State, v: Vars)
    requires Inv(c, s) && s.phase == Running(Init, v) && s.init.Fresh?
    ensures var (w, ok) := Forward(c, s.world, Init, v);
      if ok then w == s.world.(stocks := c.before + Rows(c.Items()), initLog := Some(ItemIds(c.Items())))
                 && Insertable(c.before, c.Items())
      else w == s.world
  {
  }

  lemma CallInv(c: Config, s: State, o: Outcome)
    requires SafePolicy(c.policy) && Inv(c, s) && Enabled(c, s, Call(o))
    ensures Inv(c, DoCall(c, s, o))
  {
    match s.phase.next
    case Create => CallCreateInv(c, s, o);
    case Init => CallInitInv(c, s, o);
    case Publish => CallPublishInv(c, s, o);
  }

  lemma CallCreateInv(c: Config, s: State, o: Outcome)
    requires SafePolicy(c.policy) && Inv(c, s) && Enabled(c, s, Call(o)) && s.phase.next == Create
    ensures Inv(c, DoCall(c, s, o))
  {
    var t := DoCall(c, s, o);
    assert t.world == s.world.(product := t.world.product, createLog := t.world.createLog);
    StocksUntouched(c, s, t);
  }

  lemma StocksUntouched(c: Config, s: State, t: State)
    requires StocksOk(c, s) && (Aborted(c, s) ==> Aborted(c, t)) && t.init == s.init
    requires t.world.stocks == s.world.stocks && t.world.initLog == s.world.initLog
    requires t.world.initUndone == s.world.initUndone
    ensures StocksOk(c, t)
  {
  }

  lemma CallInitInv(c: Config, s: State, o: Outcome)
    requires SafePolicy(c.policy) && Inv(c, s) && Enabled(c, s, Call(o)) && s.phase.next == Init
    ensures Inv(c, DoCall(c, s, o))
  {
    if s.init.Fresh? { ForwardInit(c, s, s.phase.vars); }
  }

  lemma CallPublishInv(c: Config, s: State, o: Outcome)
    requires SafePolicy(c.policy) && Inv(c, s) && Enabled(c, s, Call(o)) && s.phase.next == Publish
    ensures Inv(c, DoCall(c, s, o))
  {
  }

  lemma CallCrashInv(c: Config, s: State)
    requires SafePolicy(c.policy) && Inv(c, s) && Enabled(c, s, CallCrash)
    ensures Inv(c, Do(c, s, CallCrash))
  {
  }

  /** What a rollback that takes effect does to the rows. */
  lemma RollbackInit(c: Config, s: State)
    requires Inv(c, s) && s.phase.Back? && s.init.Succeeded?
    ensures var w := Rollback(c, s.world, Init, s.phase.vars).0;
      w == s.world.(initUndone := true, stocks := c.before)
  {
    if !s.world.initUndone { RowsRemoved(c.before, c.Items()); }
  }

  lemma RollbackInv(c: Config, s: State, b: Branch, w: World)
    requires SafePolicy(c.policy) && Inv(c, s) && s.phase.Back? && b in s.phase.stack
    requires w == Rollback(c, s.world, b, s.phase.vars).0
    ensures ProductOk(c, s.(world := w)) && StocksOk(c, s.(world := w)) && MarksOk(c, s.(world := w))
    ensures Rollback(c, s.world, b, s.phase.vars).1 && b.Create? ==> w.createUndone
    ensures Rollback(c, s.world, b, s.phase.vars).1 && b.Init? && s.init.Succeeded? ==> w.initUndone
  {
    if b.Init? && s.init.Succeeded? { RollbackInit(c, s); }
  }

  lemma PopInv(c: Config, s: State, w: World, undone: set<Branch>)
    requires Inv(c, s) && s.phase.Back? && s.phase.stack != []
    requires MarksOk(c, s.(world := w)) && ProductOk(c, s.(world := w)) && StocksOk(c, s.(world := w))
    requires undone == s.undone + {s.phase.stack[0]}
    requires s.phase.stack[0].Create? ==> w.createUndone
    requires s.phase.stack[0].Init? && s.init.Succeeded? ==> w.initUndone
    ensures Inv(c, s.(world := w, undone := undone, phase := Back(s.phase.stack[1..], s.phase.vars)))
  {
    var b, rest := s.phase.stack[0], s.phase.stack[1..];
    assert forall d :: d in s.phase.stack <==> d == b || d in rest;
  }

  lemma UndoInv(c: Config, s: State, o: Outcome)
    requires SafePolicy(c.policy) && Inv(c, s) && Enabled(c, s, Undo(o))
    ensures Inv(c, DoUndo(c, s, o))
  {
    var b := s.phase.stack[0];
    if b in s.undone {
      assert s.undone + {b} == s.undone;
      PopInv(c, s, s.world, s.undone);
    } else {
      RollbackInv(c, s, b, Rollback(c, s.world, b, s.phase.vars).0);
      var (w, ok) := Attempt(o, s.world, Rollback(c, s.world, b, s.phase.vars));
      if ok { PopInv(c, s, w, s.undone + {b}); }
    }
  }

  lemma UndoCrashInv(c: Config, s: State)
    requires SafePolicy(c.policy) && Inv(c, s) && Enabled(c, s, UndoCrash)
    ensures Inv(c, Do(c, s, UndoCrash))
  {
    RollbackInv(c, s, s.phase.stack[0], Rollback(c, s.world, s.phase.stack[0], s.phase.vars).0);
  }

  lemma StepInv(c: Config, s: State, e: Step)
    requires SafePolicy(c.policy) && Inv(c, s) && Enabled(c, s, e)
    ensures Inv(c, Do(c, s, e))
  {
    match e
    case Call(o) => CallInv(c, s, o);
    case CallCrash => CallCrashInv(c, s);
    case Undo(o) => UndoInv(c, s, o);
    case UndoCrash => UndoCrashInv(c, s);
    case _ =>
  }

  lemma {:induction false} RunInv(c: Config, s: State, es: seq<Step>)
    requires SafePolicy(c.policy) && Inv(c, s) && Runs(c, s, es)
    ensures Inv(c, After(c, s, es))
    decreases |es|
  {
    if es != [] {
      StepInv(c, s, es[0]);
      RunInv(c, Do(c, s, es[0]), es[1..]);
    }
  }

  ghost predicate AlwaysGood(c: Config) {
    forall es :: Runs(c, Start(c), es) ==> Good(c, After(c, Start(c), es))
  }

  /** Whatever fails, is lost or crashes, under a safe executor a finished saga is all or nothing. */
  lemma AllOrNothing(c: Config)
    requires SafePolicy(c.policy)
    ensures AlwaysGood(c)
  {
    forall es | Runs(c, Start(c), es) ensures Good(c, After(c, Start(c), es)) {
      RunInv(c, Start(c), es);
      InvIsGood(c, After(c, Start(c), es));
    }
  }

  /** Each created SKU has a stock row with the total the request asks for, zero where it names none. */
  ghost predicate StocksIn(c: Config, stocks: map<int, int>) {
    && |c.request.skus| == |c.made.skus| > 0
    && forall k :: 0 <= k < |c.made.skus| ==>
      var id := match c.made.skus[k] case None => 0 case Some(id) => id;
      id in stocks && stocks[id] == match c.request.skus[k].initialStock case None => 0 case Some(n) => n
  }

  lemma ItemsAreIn(c: Config)
    requires c.Items() != [] && Insertable(c.before, c.Items())
    ensures StocksIn(c, c.before + Rows(c.Items()))
  {
    var items := c.Items();
    forall k | 0 <= k < |items|
      ensures items[k].skuId in Rows(items) && Rows(items)[items[k].skuId] == items[k].total
    {
      RowsTotals(items, k);
    }
    assert forall k :: 0 <= k < |c.made.skus| ==> items[k] == StockItem(SkuId(c.made.skus[k]), StockOf(c.request.skus[k]));
  }

  lemma OthersStay(before: map<int, int>, items: seq<StockItem>, after: map<int, int>)
    requires Insertable(before, items) && after == before + Rows(items)
    ensures forall id :: id in before ==> id in after && after[id] == before[id]
    ensures |after.Keys - before.Keys| == |items|
  {
    RowsKeys(items);
    RowsCount(items);
    assert forall id :: id in Rows(items).Keys ==> id !in before;
    assert after.Keys - before.Keys == Rows(items).Keys;
  }

  /** A successful end holds one stock row per created SKU, with the total that was asked for; all other rows stay. */
  lemma OneStockPerItem(c: Config, es: seq<Step>)
    requires SafePolicy(c.policy) && Runs(c, Start(c), es) && After(c, Start(c), es).phase == Ended(true)
    ensures var stocks := After(c, Start(c), es).world.stocks;
      && StocksIn(c, stocks)
      && (forall id :: id in c.before ==> id in stocks && stocks[id] == c.before[id])
      && |stocks.Keys - c.before.Keys| == |c.made.skus|
  {
    RunInv(c, Start(c), es);
    ItemsAreIn(c);
    OthersStay(c.before, c.Items(), After(c, Start(c), es).world.stocks);
  }

  lemma {:induction false} RowsCount(items: seq<StockItem>)
    requires Insertable(map[], items)
    ensures |Rows(items).Keys| == |items|
    decreases |items|
  {
    if items != [] {
      var front := items[..|items| - 1];
      RowsCount(front);
      RowsKeys(front);
      assert Rows(items).Keys == Rows(front).Keys + {items[|items| - 1].skuId};
    }
  }
}
