/**
 When the product-create saga is all or nothing in every run, for every request and every executor: what the executor must
 not do depends on how far the participants would let the request come.
 */
module SagaExact {
  import opened Prelude
  import opened SagaSpec
  import opened SagaProtocol
  import opened SagaGuarantees

  /** The product service would create the product. */
  predicate Creatable(c: Config) {
    c.request.operatorId > 0 && c.accepts && ValidStatus(c.request.status)
  }

  /** And the inventory service would take the stocks. */
  predicate Stockable(c: Config) {
    && Creatable(c) && c.CountFits() && c.Items() != []
    && (forall k :: 0 <= k < |c.Items()| ==> ItemOk(c.Items()[k])) && Insertable(c.before, c.Items())
  }

  /** And the last branch, if there is one, would go through. */
  predicate Completable(c: Config) {
    Stockable(c) && (c.request.status == ONLINE ==> c.made.productId > 0)
  }

  /** What the executor must observe for this request. */
  predicate SafeFor(c: Config) {
    && (Creatable(c) && Create in c.policy.unconfirmed ==> c.policy.compensatesFailing)
    && (Stockable(c) ==> Init !in c.policy.unconfirmed)
    && (Completable(c) ==> c.policy.keepsFailures)
  }

  // A request that cannot be completed never leaves anything behind.

  ghost predicate RowsOk(c: Config, s: State) {
    var w := s.world;
    && (w.createUndone ==> w.product.None?)
    && (!w.createUndone ==> (w.product.Some? <==> w.createLog.Some?))
    && (w.createLog.Some? ==> w.createLog.value == c.made.productId && Creatable(c))
    && (w.createLog.Some? && !s.create.Succeeded? ==> Create in c.policy.unconfirmed)
    && (s.create.Succeeded? ==> w.createLog.Some?)
    && (w.initLog.Some? <==> s.init.Succeeded?)
    && (w.initLog.Some? ==> w.initLog.value == ItemIds(c.Items()) && Stockable(c) && s.create.Succeeded?)
    && (w.initUndone ==> w.initLog.Some?)
    && w.stocks == (if w.initLog.Some? && !w.initUndone then c.before + Rows(c.Items()) else c.before)
    && !s.publish.Succeeded?
  }

  ghost predicate UndoneOk(c: Config, s: State) {
    && (Create in s.undone ==> s.world.createUndone)
    && (Init in s.undone && !c.policy.compensatesFailing ==> s.init.Succeeded? && s.world.initUndone)
    && Publish !in s.undone
  }

  /** The rollback of the last branch is refused for ever, because it carries a product id that nobody accepts. */
  ghost predicate Stuck(c: Config, stack: seq<Branch>) {
    c.policy.compensatesFailing && Stockable(c) && stack != [] && stack[0] == Publish
  }

  ghost predicate NothingForgotten(c: Config, s: State, stack: seq<Branch>) {
    && (s.world.createLog.Some? && !s.world.createUndone ==> Create in stack)
    && (s.world.initLog.Some? && !s.world.initUndone ==>
          Stuck(c, stack) || (Init in stack && Init !in s.undone && !c.policy.compensatesFailing))
    && (Init in stack && !c.policy.compensatesFailing ==> s.init.Succeeded?)
    && (Publish in stack ==> Stuck(c, stack))
  }

  ghost predicate PhaseFits(c: Config, s: State) {
    match s.phase
    case Idle => true
    case Running(b, v) =>
      && c.request.operatorId > 0
      && v == Vars(if b.Create? then None else Some(c.made), b.Publish?)
      && (!b.Create? ==> s.create.Succeeded? && c.CountFits())
      && (b.Publish? ==> s.init.Succeeded? && c.request.status == ONLINE)
    case Returning(_) => false
    case Back(stack, v) =>
      && v == Vars(if s.create.Succeeded? then Some(c.made) else None, s.init.Succeeded?)
      && NothingForgotten(c, s, stack)
    case Ended(ok) => !ok && NothingForgotten(c, s, [])
  }

  ghost predicate Hopeless(c: Config, s: State) {
    RowsOk(c, s) && UndoneOk(c, s) && PhaseFits(c, s)
  }

  ghost predicate Doomed(c: Config) {
    SafeFor(c) && !Completable(c)
  }

  lemma HopelessCallCreate(c: Config, s: State, o: Outcome)
    requires Doomed(c) && Hopeless(c, s) && Enabled(c, s, Call(o)) && s.phase.next == Create
    ensures Hopeless(c, DoCall(c, s, o))
  {
  }

  /** A request whose stocks are not taken leaves the table as it is. */
  lemma StocksRefused(c: Config, s: State, v: Vars)
    requires Hopeless(c, s) && s.phase == Running(Init, v) && !s.init.Succeeded?
    ensures Forward(c, s.world, Init, v) ==
      if Stockable(c) then (s.world.(stocks := c.before + Rows(c.Items()), initLog := Some(ItemIds(c.Items()))), true)
      else (s.world, false)
  {
  }

  lemma HopelessCallInit(c: Config, s: State, o: Outcome)
    requires Doomed(c) && Hopeless(c, s) && Enabled(c, s, Call(o)) && s.phase.next == Init
    ensures Hopeless(c, DoCall(c, s, o))
  {
    if !s.init.Succeeded? { StocksRefused(c, s, s.phase.vars); }
  }

  lemma HopelessCallPublish(c: Config, s: State, o: Outcome)
    requires Doomed(c) && Hopeless(c, s) && Enabled(c, s, Call(o)) && s.phase.next == Publish
    ensures Hopeless(c, DoCall(c, s, o))
  {
    assert Forward(c, s.world, Publish, s.phase.vars) == (s.world, false);
  }

  lemma HopelessCallCrash(c: Config, s: State)
    requires Doomed(c) && Hopeless(c, s) && Enabled(c, s, CallCrash)
    ensures Hopeless(c, Do(c, s, CallCrash))
  {
    match s.phase.next {
      case Create =>
      case Init => StocksRefused(c, s, s.phase.vars);
      case Publish => assert Forward(c, s.world, Publish, s.phase.vars) == (s.world, false);
    }
  }

  /** The rows after the next rollback on the stack. */
  lemma RollbackFits(c: Config, s: State, w: World, ok: bool)
    requires Doomed(c) && Hopeless(c, s) && s.phase.Back? && s.phase.stack != []
    requires (w, ok) == Rollback(c, s.world, s.phase.stack[0], s.phase.vars)
    ensures RowsOk(c, s.(world := w))
    ensures w.createLog == s.world.createLog && w.initLog == s.world.initLog
    ensures (s.world.createUndone ==> w.createUndone) && (s.world.initUndone ==> w.initUndone)
    ensures match s.phase.stack[0]
      case Create => ok && w.createUndone
      case Init => ok && (s.init.Succeeded? ==> w.initUndone)
      case Publish => !ok
  {
    if s.phase.stack[0].Init? && s.init.Succeeded? && !s.world.initUndone {
      RowsRemoved(c.before, c.Items());
    }
  }

  lemma HopelessUndo(c: Config, s: State, o: Outcome)
    requires Doomed(c) && Hopeless(c, s) && Enabled(c, s, Undo(o))
    ensures Hopeless(c, DoUndo(c, s, o))
  {
    var b, rest := s.phase.stack[0], s.phase.stack[1..];
    assert forall d :: d in s.phase.stack <==> d == b || d in rest;
    var (w, ok) := Rollback(c, s.world, b, s.phase.vars);
    RollbackFits(c, s, w, ok);
  }

  lemma HopelessUndoCrash(c: Config, s: State)
    requires Doomed(c) && Hopeless(c, s) && Enabled(c, s, UndoCrash)
    ensures Hopeless(c, Do(c, s, UndoCrash))
  {
    var (w, ok) := Rollback(c, s.world, s.phase.stack[0], s.phase.vars);
    RollbackFits(c, s, w, ok);
  }

  lemma HopelessStep(c: Config, s: State, e: Step)
    requires Doomed(c) && Hopeless(c, s) && Enabled(c, s, e)
    ensures Hopeless(c, Do(c, s, e))
  {
    match e {
      case Call(o) =>
        match s.phase.next {
          case Create => HopelessCallCreate(c, s, o);
          case Init => HopelessCallInit(c, s, o);
          case Publish => HopelessCallPublish(c, s, o);
        }
      case CallCrash => HopelessCallCrash(c, s);
      case Undo(o) => HopelessUndo(c, s, o);
      case UndoCrash => HopelessUndoCrash(c, s);
      case _ =>
    }
  }

  lemma {:induction false} HopelessRun(c: Config, s: State, es: seq<Step>)
    requires Doomed(c) && Hopeless(c, s) && Runs(c, s, es)
    ensures Hopeless(c, After(c, s, es))
    decreases |es|
  {
    if es != [] {
      HopelessStep(c, s, es[0]);
      HopelessRun(c, Do(c, s, es[0]), es[1..]);
    }
  }

  lemma DoomedIsGood(c: Config)
    requires Doomed(c)
    ensures AlwaysGood(c)
  {
    forall es | Runs(c, Start(c), es) ensures Good(c, After(c, Start(c), es)) {
      HopelessRun(c, Start(c), es);
    }
  }

  // What goes wrong otherwise.

  ghost predicate Reaches(c: Config, t: State) {
    exists es :: Runs(c, Start(c), es) && After(c, Start(c), es) == t
  }

  lemma {:induction false} RunsOn(c: Config, s: State, es: seq<Step>, e: Step)
    requires Runs(c, s, es) && Enabled(c, After(c, s, es), e)
    ensures Runs(c, s, es + [e]) && After(c, s, es + [e]) == Do(c, After(c, s, es), e)
    decreases |es|
  {
    if es == [] {
      assert es + [e] == [e] && [e][1..] == [];
    } else {
      RunsOn(c, Do(c, s, es[0]), es[1..], e);
      assert (es + [e])[1..] == es[1..] + [e];
    }
  }

  lemma Reach(c: Config, t: State, e: Step) returns (u: State)
    requires Reaches(c, t) && Enabled(c, t, e)
    ensures u == Do(c, t, e) && Reaches(c, u)
  {
    var es :| Runs(c, Start(c), es) && After(c, Start(c), es) == t;
    RunsOn(c, Start(c), es, e);
    u := Do(c, t, e);
  }

  lemma ReachStart(c: Config)
    ensures Reaches(c, Start(c))
  {
    assert Runs(c, Start(c), []) && After(c, Start(c), []) == Start(c);
  }

  /** The product is created and kept as such; the stock branch comes next. */
  lemma ReachInit(c: Config) returns (t: State)
    requires Stockable(c)
    ensures Reaches(c, t) && t.phase == Running(Init, Vars(Some(c.made), false))
    ensures t.world == World(Some(InitialStatus(c.request.status)), Some(c.made.productId), false, c.before, None, false)
    ensures t.create.Succeeded? && t.init.Fresh? && t.publish.Fresh? && t.undone == {}
  {
    ReachStart(c);
    t := Reach(c, Start(c), Begin);
    t := Reach(c, t, Call(Delivered));
  }

  /** The rows of such a request are new. */
  lemma RowsAreNew(c: Config)
    requires Stockable(c)
    ensures c.before + Rows(c.Items()) != c.before
  {
    RowsKeys(c.Items());
    var id := c.Items()[0].skuId;
    assert id in Rows(c.Items()).Keys;
    assert id in c.before + Rows(c.Items()) && id !in c.before;
  }

  /** Skips the rollback of the failing branch, if the executor runs it at all. */
  lemma ReachOwnRollback(c: Config, t: State, b: Branch, rest: seq<Branch>) returns (u: State)
    requires Reaches(c, t) && t.phase.Back? && b !in t.undone
    requires t.phase.stack == (if c.policy.compensatesFailing then [b] else []) + rest
    requires Rollback(c, t.world, b, t.phase.vars) == (t.world, true)
    ensures Reaches(c, u) && u.(undone := {}) == t.(undone := {}, phase := Back(rest, t.phase.vars))
    ensures u.undone == t.undone || u.undone == t.undone + {b}
  {
    if c.policy.compensatesFailing {
      assert t.phase.stack[0] == b && t.phase.stack[1..] == rest;
      u := Reach(c, t, Undo(Delivered));
    } else {
      assert t.phase.stack == rest;
      u := t;
    }
  }

  /** The stocks are in, the answer is lost: the rollback skips them and nobody ever removes them. */
  lemma LostInitLeaks(c: Config) returns (t: State)
    requires Stockable(c) && Init in c.policy.unconfirmed
    ensures Reaches(c, t) && t.phase == Ended(false) && t.world.stocks == c.before + Rows(c.Items())
  {
    t := ReachInit(c);
    t := Reach(c, t, Call(Lost));
    t := ReachOwnRollback(c, t, Init, [Create]);
    t := Reach(c, t, Undo(Delivered));
    t := Reach(c, t, Finish);
  }

  /** The product is in, the answer is lost, and no rollback is run for the branch that failed. */
  lemma LostCreateLeaks(c: Config) returns (t: State)
    requires Creatable(c) && Create in c.policy.unconfirmed && !c.policy.compensatesFailing
    ensures Reaches(c, t) && t.phase == Ended(false) && t.world.product.Some?
  {
    ReachStart(c);
    t := Reach(c, Start(c), Begin);
    t := Reach(c, t, Call(Lost));
    t := Reach(c, t, Finish);
  }

  /**
   A failure that is not kept: the product is removed, the executor crashes, and the replay runs the stock branch again,
   now successfully. The saga reports a product that does not exist.
   */
  lemma ForgottenInitFailure(c: Config) returns (t: State)
    requires Completable(c) && !c.policy.keepsFailures && c.request.status != ONLINE
    ensures Reaches(c, t) && t.phase == Ended(true) && t.world.product.None?
  {
    t := ReachInit(c);
    t := Reach(c, t, Call(Refused));
    t := ReachOwnRollback(c, t, Init, [Create]);
    t := Reach(c, t, Undo(Delivered));
    t := Reach(c, t, Crash);
    t := Reach(c, t, Begin);
    t := Reach(c, t, Call(Delivered));
    t := Reach(c, t, Call(Delivered));
    t := Reach(c, t, Finish);
  }

  /** The same at the last branch: the stocks are removed, and the replay puts the product online without them. */
  lemma ForgottenPublishFailure(c: Config) returns (t: State)
    requires Completable(c) && !c.policy.keepsFailures && c.request.status == ONLINE
    ensures Reaches(c, t) && t.phase == Ended(true) && t.world.stocks == c.before && t.world.product == Some(ONLINE)
  {
    t := ReachInit(c);
    t := Reach(c, t, Call(Delivered));
    t := Reach(c, t, Call(Refused));
    t := ReachOwnRollback(c, t, Publish, [Init, Create]);
    InitRollsBack(c, t);
    t := Reach(c, t, Undo(Delivered));
    t := Reach(c, t, Crash);
    t := Reach(c, t, Begin);
    t := Reach(c, t, Call(Delivered));
    t := Reach(c, t, Call(Delivered));
    t := Reach(c, t, Call(Delivered));
    t := Reach(c, t, Finish);
  }

  lemma InitRollsBack(c: Config, s: State)
    requires Stockable(c) && s.phase.Back? && s.phase.vars == Vars(Some(c.made), true)
    requires !s.world.initUndone && s.world.initLog == Some(ItemIds(c.Items()))
    requires s.world.stocks == c.before + Rows(c.Items())
    ensures Rollback(c, s.world, Init, s.phase.vars) == (s.world.(initUndone := true, stocks := c.before), true)
  {
    RowsRemoved(c.before, c.Items());
  }

  /** The saga is all or nothing in every run exactly when the executor observes what the request calls for. */
  lemma AllOrNothingExactly(c: Config)
    ensures AlwaysGood(c) <==> SafeFor(c)
  {
    if SafeFor(c) {
      if Completable(c) { AllOrNothing(c); } else { DoomedIsGood(c); }
    } else {
      var t := ReachBad(c);
      assert !Good(c, t);
    }
  }

  lemma ReachBad(c: Config) returns (t: State)
    requires !SafeFor(c)
    ensures Reaches(c, t) && !Good(c, t)
  {
    if Creatable(c) && Create in c.policy.unconfirmed && !c.policy.compensatesFailing {
      t := LostCreateLeaks(c);
    } else {
      RowsAreNew(c);
      if Init in c.policy.unconfirmed {
        t := LostInitLeaks(c);
      } else if c.request.status == ONLINE {
        t := ForgottenPublishFailure(c);
      } else {
        t := ForgottenInitFailure(c);
      }
    }
  }
}
