/**
 The saga as a step system: the workflow function with its captured variables, the executor that keeps branch results,
 replays them after a crash and runs the registered rollbacks in reverse, and the participants. The executor is a
 parameter: whether it compensates the branch that failed, whether it keeps plain failures, and for which branches a call
 may take effect without the executor learning of it (a lost answer, or a crash before the result is kept).
 */
module SagaProtocol {
  import opened Prelude
  import opened SagaSpec

  datatype Branch = Create | Init | Publish

  datatype Policy = Policy(compensatesFailing: bool, keepsFailures: bool, unconfirmed: set<Branch>)

  /** One workflow: its request, what the product service thinks of it and generates for it, the stock table before. */
  datatype Config = Config(request: Request, accepts: bool, made: Created, before: map<int, int>, policy: Policy) {
    function Items(): seq<StockItem> {
      InitItems(request.skus, made.skus)
    }

    predicate CountFits() {
      |Items()| == |made.skus|
    }
  }

  /** The kept result of a branch. */
  datatype Mark = Fresh | Succeeded | Failed

  /** The variables the rollbacks capture. */
  datatype Vars = Vars(created: Option<Created>, initialized: bool)

  datatype Phase =
    | Idle
    | Running(next: Branch, vars: Vars)
    | Returning(vars: Vars)
    | Back(stack: seq<Branch>, vars: Vars)
    | Ended(ok: bool)

  datatype State = State(world: World, create: Mark, init: Mark, publish: Mark, undone: set<Branch>, phase: Phase)

  /** Refused: no effect. Delivered: the participant's answer arrives. Lost: it acts and its answer does not arrive. */
  datatype Outcome = Refused | Delivered | Lost

  datatype Step =
    | Begin
    | Call(outcome: Outcome)
    | CallCrash
    | Undo(outcome: Outcome)
    | UndoCrash
    | Finish
    | Crash

  function Start(c: Config): State {
    State(World(None, None, false, c.before, None, false), Fresh, Fresh, Fresh, {}, Idle)
  }

  function MarkOf(s: State, b: Branch): Mark {
    match b case Create => s.create case Init => s.init case Publish => s.publish
  }

  function Marked(s: State, b: Branch, m: Mark): State {
    match b case Create => s.(create := m) case Init => s.(init := m) case Publish => s.(publish := m)
  }

  function ProductIdOf(v: Vars): int {
    if v.created.None? then 0 else v.created.value.productId
  }

  function SkusOf(v: Vars): seq<Sku> {
    if v.created.None? then [] else v.created.value.skus
  }

  /** The forward call of a branch. */
  function Forward(c: Config, w: World, b: Branch, v: Vars): (World, bool) {
    match b
    case Create => CreateProduct(w, c.request.status, c.accepts, c.made)
    case Init => InitStocks(w, InitItems(c.request.skus, SkusOf(v)))
    case Publish => ChangeStatus(w, ProductIdOf(v), ONLINE, c.made)
  }

  /** The registered rollback of a branch; stocks are left alone unless their initialisation was seen to succeed. */
  function Rollback(c: Config, w: World, b: Branch, v: Vars): (World, bool) {
    match b
    case Create => UndoCreate(w, ProductIdOf(v), c.made)
    case Init => if !v.initialized then (w, true) else UndoInit(w, SkuIds(SkusOf(v)))
    case Publish => ChangeStatus(w, ProductIdOf(v), OFFLINE, c.made)
  }

  function Attempt(o: Outcome, w: World, done: (World, bool)): (World, bool) {
    match o case Refused => (w, false) case Delivered => done case Lost => (done.0, false)
  }

  /** What follows a successful branch. */
  function Next(c: Config, b: Branch, v: Vars): Phase {
    match b
    case Create =>
      var v1 := v.(created := Some(c.made));
      if !c.CountFits() then Back([Create], v1) else Running(Init, v1)
    case Init =>
      var v1 := v.(initialized := true);
      if c.request.status == ONLINE then Running(Publish, v1) else Returning(v1)
    case Publish => Returning(v)
  }

  /** A failed branch makes the workflow function return a failure; rollbacks run in reverse order of registration. */
  function Abort(c: Config, b: Branch, v: Vars): Phase {
    var own := if c.policy.compensatesFailing then [b] else [];
    match b
    case Create => Back(own, v)
    case Init => Back(own + [Create], v)
    case Publish => Back(own + [Init, Create], v)
  }

  ghost predicate Enabled(c: Config, s: State, e: Step) {
    match e
    case Begin => s.phase.Idle?
    case Call(o) => s.phase.Running? && (o == Lost ==> s.phase.next in c.policy.unconfirmed)
    case CallCrash => s.phase.Running? && MarkOf(s, s.phase.next) == Fresh && s.phase.next in c.policy.unconfirmed
    case Undo(_) => s.phase.Back? && s.phase.stack != []
    case UndoCrash => s.phase.Back? && s.phase.stack != []
    case Finish => s.phase.Returning? || (s.phase.Back? && s.phase.stack == [])
    case Crash => !s.phase.Ended?
  }

  function DoBegin(c: Config, s: State): State {
    var none := Vars(None, false);
    s.(phase := if c.request.operatorId <= 0 then Back([], none) else Running(Create, none))
  }

  function DoCall(c: Config, s: State, o: Outcome): State
    requires s.phase.Running?
  {
    var (b, v) := (s.phase.next, s.phase.vars);
    match MarkOf(s, b)
    case Succeeded => s.(phase := Next(c, b, v))
    case Failed => s.(phase := Abort(c, b, v))
    case Fresh =>
      var (w, ok) := Attempt(o, s.world, Forward(c, s.world, b, v));
      if ok then Marked(s, b, Succeeded).(world := w, phase := Next(c, b, v))
      else Marked(s, b, if c.policy.keepsFailures then Failed else Fresh).(world := w, phase := Abort(c, b, v))
  }

  function DoUndo(c: Config, s: State, o: Outcome): State
    requires s.phase.Back? && s.phase.stack != []
  {
    var (b, rest) := (s.phase.stack[0], s.phase.stack[1..]);
    if b in s.undone then s.(phase := Back(rest, s.phase.vars))
    else
      var (w, ok) := Attempt(o, s.world, Rollback(c, s.world, b, s.phase.vars));
      if ok then s.(world := w, undone := s.undone + {b}, phase := Back(rest, s.phase.vars)) else s.(world := w)
  }

  function Do(c: Config, s: State, e: Step): State
    requires Enabled(c, s, e)
  {
    match e
    case Begin => DoBegin(c, s)
    case Call(o) => DoCall(c, s, o)
    case CallCrash => s.(world := Forward(c, s.world, s.phase.next, s.phase.vars).0, phase := Idle)
    case Undo(o) => DoUndo(c, s, o)
    case UndoCrash =>
      if s.phase.stack[0] in s.undone then s.(phase := Idle)
      else s.(world := Rollback(c, s.world, s.phase.stack[0], s.phase.vars).0, phase := Idle)
    case Finish => s.(phase := Ended(s.phase.Returning?))
    case Crash => s.(phase := Idle)
  }

  ghost predicate Runs(c: Config, s: State, es: seq<Step>)
    decreases |es|
  {
    es == [] || (Enabled(c, s, es[0]) && Runs(c, Do(c, s, es[0]), es[1..]))
  }

  function After(c: Config, s: State, es: seq<Step>): State
    requires Runs(c, s, es)
    decreases |es|
  {
    if es == [] then s else After(c, Do(c, s, es[0]), es[1..])
  }

  /** All or nothing: the product in the requested state with one stock row per item, or no trace of either. */
  predicate Good(c: Config, s: State) {
    match s.phase
    case Ended(true) => s.world.product == Some(c.request.status) && s.world.stocks == c.before + Rows(c.Items())
    case Ended(false) => s.world.product == None && s.world.stocks == c.before
    case _ => true
  }
}
