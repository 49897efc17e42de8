/**
 Why a product meant to be online is created offline (services/product-service/biz/service/saga.go:207): it is online only
 while its stocks are in, at every moment of every run and not only at the end. Exactly which executors guarantee that.
 */
module SagaOnline {
  import opened Prelude
  import opened SagaSpec
  import opened SagaProtocol
  import opened SagaGuarantees
  import opened SagaExact

  ghost predicate OnlineHasStocks(c: Config, s: State) {
    s.world.product == Some(2) ==> StocksIn(c, s.world.stocks)
  }

  ghost predicate AlwaysOnlineWithStocks(c: Config) {
    forall es :: Runs(c, Start(c), es) ==> OnlineHasStocks(c, After(c, Start(c), es))
  }

  /** Failures are kept, and where a publish may take effect unnoticed, the failing branch is compensated too. */
  predicate PublishPolicy(p: Policy) {
    p.keepsFailures && (Publish in p.unconfirmed ==> p.compensatesFailing)
  }

  // The invariant.

  ghost predicate OnlineRows(c: Config, s: State) {
    var w := s.world;
    && (w.initLog.Some? ==>
          c.Items() != [] && w.initLog.value == ItemIds(c.Items()) && Insertable(c.before, c.Items()))
    && w.stocks == (if w.initLog.Some? && !w.initUndone then c.before + Rows(c.Items()) else c.before)
    && (s.init.Succeeded? ==> w.initLog.Some?)
    && (w.initUndone ==> s.publish.Failed? && w.product != Some(ONLINE))
    && (w.product == Some(ONLINE) ==>
          s.init.Succeeded? && Publish !in s.undone && (s.publish.Succeeded? || Publish in c.policy.unconfirmed))
    && (Publish in s.undone ==> s.publish.Failed?)
    && (s.publish.Failed? || s.publish.Succeeded? ==> s.init.Succeeded? && c.request.status == ONLINE)
  }

  ghost predicate OnlinePhase(c: Config, s: State) {
    match s.phase
    case Running(b, v) =>
      && v == Vars(if b.Create? then None else Some(c.made), b.Publish?)
      && (b.Publish? ==> s.init.Succeeded? && c.request.status == ONLINE)
    case Back(stack, v) =>
      && (v.created.Some? ==> v.created.value == c.made)
      && (v.initialized || Publish in stack ==> s.publish.Failed?)
      && (v.initialized && s.world.product == Some(ONLINE) ==> stack != [] && stack[0] == Publish)
    case _ => true
  }

  ghost predicate OnlineInv(c: Config, s: State) {
    OnlineRows(c, s) && OnlinePhase(c, s)
  }

  lemma OnlineCallCreate(c: Config, s: State, o: Outcome)
    requires PublishPolicy(c.policy) && OnlineInv(c, s) && Enabled(c, s, Call(o)) && s.phase.next == Create
    ensures OnlineInv(c, DoCall(c, s, o))
  {
    var w := DoCall(c, s, o).world;
    assert w == s.world.(product := w.product, createLog := w.createLog);
    assert w.product == s.world.product || w.product != Some(ONLINE);
    OnlineCreates(c, s, w, DoCall(c, s, o).create);
  }

  /** A creation touches neither stocks nor the marks of the other branches. */
  lemma OnlineCreates(c: Config, s: State, w: World, m: Mark)
    requires OnlineRows(c, s) && w == s.world.(product := w.product, createLog := w.createLog)
    requires w.product == s.world.product || w.product != Some(ONLINE)
    ensures OnlineRows(c, s.(world := w, create := m))
  {
  }

  lemma OnlineCallInit(c: Config, s: State, o: Outcome)
    requires PublishPolicy(c.policy) && OnlineInv(c, s) && Enabled(c, s, Call(o)) && s.phase.next == Init
    ensures OnlineInv(c, DoCall(c, s, o))
  {
  }

  lemma OnlineCallPublish(c: Config, s: State, o: Outcome)
    requires PublishPolicy(c.policy) && OnlineInv(c, s) && Enabled(c, s, Call(o)) && s.phase.next == Publish
    ensures OnlineInv(c, DoCall(c, s, o))
  {
  }

  lemma OnlineCallCrash(c: Config, s: State)
    requires PublishPolicy(c.policy) && OnlineInv(c, s) && Enabled(c, s, CallCrash)
    ensures OnlineInv(c, Do(c, s, CallCrash))
  {
  }

  lemma OnlineRollback(c: Config, s: State, w: World, ok: bool)
    requires PublishPolicy(c.policy) && OnlineInv(c, s) && s.phase.Back? && s.phase.stack != []
    requires (w, ok) == Rollback(c, s.world, s.phase.stack[0], s.phase.vars)
    requires s.phase.stack[0] !in s.undone
    ensures OnlineRows(c, s.(world := w))
    ensures s.phase.vars.initialized && w.product == Some(ONLINE) ==> s.phase.stack[0] == Publish && !ok
  {
    if s.phase.stack[0].Init? && s.phase.vars.initialized && !s.world.initUndone {
      RowsRemoved(c.before, c.Items());
    }
  }

  lemma OnlineUndo(c: Config, s: State, o: Outcome)
    requires PublishPolicy(c.policy) && OnlineInv(c, s) && Enabled(c, s, Undo(o))
    ensures OnlineInv(c, DoUndo(c, s, o))
  {
    if s.phase.stack[0] !in s.undone {
      var (w, ok) := Rollback(c, s.world, s.phase.stack[0], s.phase.vars);
      OnlineRollback(c, s, w, ok);
    }
  }

  lemma OnlineStep(c: Config, s: State, e: Step)
    requires PublishPolicy(c.policy) && OnlineInv(c, s) && Enabled(c, s, e)
    ensures OnlineInv(c, Do(c, s, e))
  {
    match e {
      case Call(o) =>
        match s.phase.next {
          case Create => OnlineCallCreate(c, s, o);
          case Init => OnlineCallInit(c, s, o);
          case Publish => OnlineCallPublish(c, s, o);
        }
      case CallCrash => OnlineCallCrash(c, s);
      case Undo(o) => OnlineUndo(c, s, o);
      case UndoCrash =>
        if s.phase.stack[0] !in s.undone {
          var (w, ok) := Rollback(c, s.world, s.phase.stack[0], s.phase.vars);
          OnlineRollback(c, s, w, ok);
        }
      case _ =>
    }
  }

  lemma {:induction false} OnlineRun(c: Config, s: State, es: seq<Step>)
    requires PublishPolicy(c.policy) && OnlineInv(c, s) && Runs(c, s, es)
    ensures OnlineInv(c, After(c, s, es))
    decreases |es|
  {
    if es != [] {
      OnlineStep(c, s, es[0]);
      OnlineRun(c, Do(c, s, es[0]), es[1..]);
    }
  }

  lemma OnlineIsSafe(c: Config)
    requires PublishPolicy(c.policy)
    ensures AlwaysOnlineWithStocks(c)
  {
    forall es | Runs(c, Start(c), es) ensures OnlineHasStocks(c, After(c, Start(c), es)) {
      OnlineRun(c, Start(c), es);
      var t := After(c, Start(c), es);
      if t.world.product == Some(ONLINE) { ItemsAreIn(c); }
    }
  }

  // A request whose product never comes online, whatever the executor does.

  predicate CanBeOnline(c: Config) {
    Completable(c) && c.request.status == ONLINE
  }

  ghost predicate OfflineInv(c: Config, s: State) {
    var w := s.world;
    && w.product != Some(ONLINE)
    && (w.createLog.Some? ==> Creatable(c)) && (s.create.Succeeded? ==> w.createLog.Some?)
    && (w.initLog.Some? ==> Stockable(c)) && (s.init.Succeeded? ==> w.initLog.Some?)
    && (w.initLog.None? ==> w.stocks == c.before && !w.initUndone)
    && OfflinePhase(c, s)
  }

  ghost predicate OfflinePhase(c: Config, s: State) {
    match s.phase
    case Running(b, v) =>
      && c.request.operatorId > 0 && v == Vars(if b.Create? then None else Some(c.made), b.Publish?)
      && (!b.Create? ==> s.create.Succeeded? && c.CountFits())
      && (b.Publish? ==> s.init.Succeeded? && c.request.status == ONLINE)
    case Back(_, v) => v.initialized ==> s.world.initLog.Some?
    case _ => true
  }

  lemma OfflineForward(c: Config, s: State, w: World, ok: bool)
    requires !CanBeOnline(c) && OfflineInv(c, s) && s.phase.Running?
    requires (w, ok) == Forward(c, s.world, s.phase.next, s.phase.vars)
    ensures w.product != Some(ONLINE)
    ensures w.createLog.Some? ==> Creatable(c)
    ensures w.initLog.Some? ==> Stockable(c)
    ensures w.initLog.None? ==> w.stocks == c.before && !w.initUndone
    ensures (s.world.createLog.Some? ==> w.createLog.Some?) && (s.world.initLog.Some? ==> w.initLog.Some?)
    ensures ok ==> match s.phase.next case Create => w.createLog.Some? case Init => w.initLog.Some? case Publish => false
  {
  }

  lemma OfflineCall(c: Config, s: State, o: Outcome)
    requires !CanBeOnline(c) && OfflineInv(c, s) && Enabled(c, s, Call(o))
    ensures OfflineInv(c, DoCall(c, s, o))
  {
    var (w, ok) := Forward(c, s.world, s.phase.next, s.phase.vars);
    OfflineForward(c, s, w, ok);
  }

  lemma OfflineStep(c: Config, s: State, e: Step)
    requires !CanBeOnline(c) && OfflineInv(c, s) && Enabled(c, s, e)
    ensures OfflineInv(c, Do(c, s, e))
  {
    match e {
      case Call(o) => OfflineCall(c, s, o);
      case CallCrash =>
        var (w, ok) := Forward(c, s.world, s.phase.next, s.phase.vars);
        OfflineForward(c, s, w, ok);
      case Undo(o) =>
        var (w, ok) := Rollback(c, s.world, s.phase.stack[0], s.phase.vars);
        OfflineRollback(c, s, w, ok);
      case UndoCrash =>
        var (w, ok) := Rollback(c, s.world, s.phase.stack[0], s.phase.vars);
        OfflineRollback(c, s, w, ok);
      case _ =>
    }
  }

  lemma OfflineRollback(c: Config, s: State, w: World, ok: bool)
    requires OfflineInv(c, s) && s.phase.Back? && s.phase.stack != []
    requires (w, ok) == Rollback(c, s.world, s.phase.stack[0], s.phase.vars)
    ensures OfflineInv(c, s.(world := w))
  {
  }

  lemma {:induction false} OfflineRun(c: Config, s: State, es: seq<Step>)
    requires !CanBeOnline(c) && OfflineInv(c, s) && Runs(c, s, es)
    ensures OfflineInv(c, After(c, s, es))
    decreases |es|
  {
    if es != [] {
      OfflineStep(c, s, es[0]);
      OfflineRun(c, Do(c, s, es[0]), es[1..]);
    }
  }

  lemma NeverOnline(c: Config)
    requires !CanBeOnline(c)
    ensures AlwaysOnlineWithStocks(c)
  {
    forall es | Runs(c, Start(c), es) ensures OnlineHasStocks(c, After(c, Start(c), es)) {
      OfflineRun(c, Start(c), es);
    }
  }

  // What goes wrong otherwise.

  lemma NotIn(c: Config)
    requires Stockable(c)
    ensures !StocksIn(c, c.before)
  {
    assert c.Items()[0].skuId !in c.before;
  }

  /** The publish takes effect, its answer is lost, its rollback is not run: the stocks go while the product is online. */
  lemma LostPublishStaysOnline(c: Config) returns (t: State)
    requires CanBeOnline(c) && Publish in c.policy.unconfirmed && !c.policy.compensatesFailing
    ensures Reaches(c, t) && t.world.product == Some(2) && t.world.stocks == c.before
  {
    t := ReachInit(c);
    t := Reach(c, t, Call(Delivered));
    t := Reach(c, t, Call(Lost));
    InitRollsBack(c, t);
    t := Reach(c, t, Undo(Delivered));
  }

  /** The product is online only while its stocks are in exactly under these executors, where it can come online at all. */
  lemma OnlineWithStocksExactly(c: Config)
    ensures AlwaysOnlineWithStocks(c) <==> (CanBeOnline(c) ==> PublishPolicy(c.policy))
  {
    if !CanBeOnline(c) {
      NeverOnline(c);
    } else if PublishPolicy(c.policy) {
      OnlineIsSafe(c);
    } else {
      NotIn(c);
      var t;
      if !c.policy.keepsFailures { t := ForgottenPublishFailure(c); } else { t := LostPublishStaysOnline(c); }
      assert !OnlineHasStocks(c, t);
    }
  }
}
