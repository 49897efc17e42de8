/**
 The code of the saga: the loops that build its calls, the participants' methods on their rows, and the workflow function
 with the variables its rollbacks capture. One execution of the workflow function is a run of the step system.
 */
module SagaWorkflow {
  import opened Prelude
  import opened SagaSpec
  import opened SagaProtocol

  /** Nil when the two lists cannot be matched up. */
  method BuildInitStockItems(asked: seq<SkuInput>, skus: seq<Sku>) returns (result: seq<StockItem>)
    ensures result == InitItems(asked, skus)
    ensures |asked| != |skus| ==> result == []
    ensures |asked| == |skus| ==> |result| == |asked| && forall k :: 0 <= k < |asked| ==>
      && result[k].skuId == (match skus[k] case None => 0 case Some(id) => id)
      && result[k].total == (match asked[k].initialStock case None => 0 case Some(n) => n)
  {
    if |asked| == 0 || |skus| == 0 || |asked| != |skus| { return []; }
    result := [];
    var idx := 0;
    while idx < |asked|
      invariant 0 <= idx <= |asked| && result == InitItems(asked, skus)[..idx]
    {
      var stock := 0;
      if asked[idx].initialStock.Some? { stock := asked[idx].initialStock.value; }
      result := result + [StockItem(SkuId(skus[idx]), stock)];
      idx := idx + 1;
    }
  }

  /** The ids that go into a call are the non-nil ones, all of them, in their order. */
  lemma {:induction false} SkuIdsAreKept(skus: seq<Sku>, ids: seq<int>, given: seq<bool>)
    requires |ids| == |given| == |skus|
    requires forall k :: 0 <= k < |skus| ==> skus[k] == if given[k] then Some(ids[k]) else None
    ensures SkuIds(skus) == Keep(ids, given)
    decreases |skus|
  {
    if skus != [] {
      var last := |skus| - 1;
      SkuIdsAreKept(skus[..last], ids[..last], given[..last]);
      KeepAppend(ids[..last], [ids[last]], given[..last], [given[last]]);
      KeepCons(ids[last], given[last], [], []);
      assert ids[..last] + [ids[last]] == ids && given[..last] + [given[last]] == given;
      assert [ids[last]] + [] == [ids[last]] && [given[last]] + [] == [given[last]];
    }
  }

  method SkuIdsOf(skus: seq<Sku>) returns (result: seq<int>)
    ensures result == SkuIds(skus)
  {
    result := [];
    var i := 0;
    while i < |skus|
      invariant 0 <= i <= |skus| && result == SkuIds(skus[..i])
    {
      assert skus[..i + 1][..i] == skus[..i];
      if skus[i].Some? { result := result + [skus[i].value]; }
      i := i + 1;
    }
    assert skus[..|skus|] == skus;
  }

  /** The next row of a batch collides exactly when the batch cannot be inserted as a whole that far. */
  lemma InsertsNext(stocks: map<int, int>, items: seq<StockItem>, i: nat)
    requires i < |items| && Insertable(stocks, items[..i])
    ensures items[i].skuId in stocks + Rows(items[..i]) ==> !Insertable(stocks, items)
    ensures items[i].skuId !in stocks + Rows(items[..i]) ==> Insertable(stocks, items[..i + 1])
  {
    var front := items[..i];
    RowsKeys(front);
    assert forall k :: 0 <= k < i ==> front[k] == items[k] == items[..i + 1][k];
    if items[i].skuId !in stocks + Rows(front) {
      forall j | 0 <= j < i ensures items[j].skuId != items[i].skuId {
        assert front[j].skuId in Rows(front).Keys;
      }
    }
  }

  lemma RowsNext(stocks: map<int, int>, items: seq<StockItem>, i: nat)
    requires i < |items|
    ensures stocks + Rows(items[..i + 1]) == (stocks + Rows(items[..i]))[items[i].skuId := items[i].total]
  {
    assert items[..i + 1][..i] == items[..i];
  }

  /** One row per item with its total, next to the rows that were there. */
  ghost predicate StocksAdded(before: map<int, int>, items: seq<StockItem>, after: map<int, int>) {
    && (forall id :: id in before ==> id in after && after[id] == before[id])
    && (forall k :: 0 <= k < |items| ==> items[k].skuId in after && after[items[k].skuId] == items[k].total)
    && forall id :: id in after && id !in before ==> exists k :: 0 <= k < |items| && items[k].skuId == id
  }

  lemma RowsAdded(stocks: map<int, int>, items: seq<StockItem>)
    requires Insertable(stocks, items)
    ensures StocksAdded(stocks, items, stocks + Rows(items))
  {
    RowsKeys(items);
    forall k | 0 <= k < |items|
      ensures items[k].skuId in Rows(items) && Rows(items)[items[k].skuId] == items[k].total
    {
      RowsTotals(items, k);
    }
    assert forall id :: id in Rows(items) ==> exists k :: 0 <= k < |items| && items[k].skuId == id;
  }

  /** The two participants and the rows they keep. */
  class Participants {
    var product: Option<int>
    var createLog: Option<int>
    var createUndone: bool
    var stocks: map<int, int>
    var initLog: Option<seq<int>>
    var initUndone: bool

    ghost function View(): World
      reads this
    {
      World(product, createLog, createUndone, stocks, initLog, initUndone)
    }

    method CreateProductSaga(target: int, accepts: bool, made: Created) returns (ok: bool)
      modifies this
      ensures (View(), ok) == CreateProduct(old(View()), target, accepts, made)
      ensures !createUndone && old(createLog) == None ==> (ok <==> accepts && 0 <= target <= 2)
      ensures createUndone ==> !ok
      ensures old(createLog) != None && !createUndone ==> (ok <==> product != None)
      ensures View() == if ok && old(createLog) == None
        then old(View()).(product := Some(if target == 2 then 1 else target), createLog := Some(made.productId))
        else old(View())
    {
      if createUndone { return false; }
      if createLog.Some? { return product.Some?; }
      var status := if target == ONLINE then OFFLINE else target;
      if !accepts || !ValidStatus(status) { return false; }
      product, createLog := Some(status), Some(made.productId);
      return true;
    }

    method CompensateCreateProductSaga(productId: int, made: Created) returns (ok: bool)
      modifies this
      ensures (View(), ok) == UndoCreate(old(View()), productId, made)
      ensures ok && createUndone && View() == old(View()).(product := product, createUndone := true)
      ensures product == (
        if old(createUndone) || createLog == None then old(product)
        else if productId == made.productId > 0 || (productId <= 0 && createLog == Some(made.productId)) then None
        else old(product))
    {
      if createUndone { return true; }
      createUndone := true;
      if createLog.Some? {
        var target := productId;
        if target <= 0 { target := createLog.value; }
        if target == made.productId { product := None; }
      }
      return true;
    }

    /** All rows are inserted in one transaction: a duplicate key leaves the table as it was. */
    method InsertAll(items: seq<StockItem>) returns (ok: bool)
      modifies this`stocks
      ensures ok <==> Insertable(old(stocks), items)
      ensures stocks == if ok then old(stocks) + Rows(items) else old(stocks)
    {
      var rows := stocks;
      var i := 0;
      while i < |items|
        invariant 0 <= i <= |items| && stocks == old(stocks)
        invariant Insertable(stocks, items[..i]) && rows == stocks + Rows(items[..i])
      {
        InsertsNext(stocks, items, i);
        RowsNext(stocks, items, i);
        if items[i].skuId in rows { return false; }
        rows := rows[items[i].skuId := items[i].total];
        i := i + 1;
      }
      assert items[..|items|] == items;
      stocks := rows;
      return true;
    }

    method InitSkuStocksSaga(items: seq<StockItem>) returns (ok: bool)
      modifies this
      ensures (View(), ok) == InitStocks(old(View()), items)
      ensures !ok || old(initLog) != None ==> View() == old(View())
      ensures items == [] || initUndone ==> !ok
      ensures items != [] && !initUndone && old(initLog) != None ==> ok
      ensures items != [] && !initUndone && old(initLog) == None ==>
        var valid := forall k :: 0 <= k < |items| ==> items[k].skuId > 0 && items[k].total >= 0;
        var taken := exists k :: 0 <= k < |items| && items[k].skuId in old(stocks);
        var twice := exists j, k :: 0 <= j < k < |items| && items[j].skuId == items[k].skuId;
        ok == (valid && !taken && !twice)
      ensures ok && old(initLog) == None ==> View() == old(View()).(stocks := stocks, initLog := initLog)
      ensures ok && old(initLog) == None ==> initLog.Some? && |initLog.value| == |items|
      ensures ok && old(initLog) == None ==> forall k :: 0 <= k < |items| ==> initLog.value[k] == items[k].skuId
      ensures ok && old(initLog) == None ==> StocksAdded(old(stocks), items, stocks)
    {
      if |items| == 0 || initUndone { return false; }
      if initLog.Some? { return true; }
      var skuIDs: seq<int> := [];
      var i := 0;
      while i < |items|
        invariant 0 <= i <= |items| && View() == old(View())
        invariant forall k :: 0 <= k < i ==> ItemOk(items[k])
        invariant skuIDs == ItemIds(items)[..i]
      {
        if items[i].skuId <= 0 || items[i].total < 0 { return false; }
        skuIDs := skuIDs + [items[i].skuId];
        i := i + 1;
      }
      assert ItemIds(items)[..|items|] == ItemIds(items);
      ok := InsertAll(items);
      if ok {
        RowsAdded(old(stocks), items);
        initLog := Some(skuIDs);
      }
    }

    method CompensateInitSkuStocksSaga(ids: seq<int>) returns (ok: bool)
      modifies this
      ensures (View(), ok) == UndoInit(old(View()), ids)
      ensures ok && initUndone && View() == old(View()).(stocks := stocks, initUndone := true)
      ensures var gone := if initLog.Some? then initLog.value else ids;
        forall id :: (id in stocks) <==> (id in old(stocks) && (old(initUndone) || id !in gone))
      ensures forall id :: id in stocks ==> stocks[id] == old(stocks)[id]
    {
      if initUndone { return true; }
      var gone := ids;
      if initLog.Some? { gone := initLog.value; }
      initUndone, stocks := true, stocks - (set i | i in gone);
      return true;
    }

    method ChangeProductStatus(productId: int, status: int, made: Created) returns (ok: bool)
      modifies this
      ensures (View(), ok) == ChangeStatus(old(View()), productId, status, made)
      ensures ok <==> productId == made.productId > 0 && 0 <= status <= 2 && old(product) != None
      ensures View() == if ok then old(View()).(product := Some(status)) else old(View())
    {
      if productId <= 0 || !ValidStatus(status) || productId != made.productId || product.None? { return false; }
      product := Some(status);
      return true;
    }
  }

  /** The workflow function, executed without a crash; results(b) is what becomes of the call of branch b. */
  class Workflow {
    const participants: Participants
    var created: Option<Created>
    var initialized: bool
    var registered: seq<Branch>

    constructor (participants: Participants)
      ensures this.participants == participants && created.None? && !initialized && registered == []
    {
      this.participants := participants;
      created, initialized, registered := None, false, [];
    }

    ghost function Captured(): Vars
      reads this
    {
      Vars(created, initialized)
    }

    method CallCreate(c: Config, o: Outcome) returns (ok: bool)
      modifies participants
      ensures (participants.View(), ok) ==
          Attempt(o, old(participants.View()), Forward(c, old(participants.View()), Create, Captured()))
    {
      if o == Refused { return false; }
      ok := participants.CreateProductSaga(c.request.status, c.accepts, c.made);
      if o == Lost { ok := false; }
    }

    method CallInit(c: Config, items: seq<StockItem>, o: Outcome) returns (ok: bool)
      requires created.Some? && items == InitItems(c.request.skus, created.value.skus)
      modifies participants
      ensures (participants.View(), ok) ==
          Attempt(o, old(participants.View()), Forward(c, old(participants.View()), Init, Captured()))
    {
      if o == Refused { return false; }
      ok := participants.InitSkuStocksSaga(items);
      if o == Lost { ok := false; }
    }

    method CallPublish(c: Config, o: Outcome) returns (ok: bool)
      requires created.Some?
      modifies participants
      ensures (participants.View(), ok) ==
          Attempt(o, old(participants.View()), Forward(c, old(participants.View()), Publish, Captured()))
    {
      if o == Refused { return false; }
      ok := participants.ChangeProductStatus(created.value.productId, ONLINE, c.made);
      if o == Lost { ok := false; }
    }

    /** A rollback as it was registered; it reads the captured variables when it runs. */
    method RunRollback(c: Config, b: Branch) returns (ok: bool)
      modifies participants
      ensures (participants.View(), ok) == Rollback(c, old(participants.View()), b, Captured())
      ensures b.Create? ==> ok && participants.createUndone
      ensures b.Init? && !initialized ==> ok && participants.View() == old(participants.View())
      ensures b.Init? && initialized ==> ok && participants.initUndone
      ensures b.Publish? && ok ==> participants.View() == old(participants.View()).(product := Some(1))
    {
      var productId := if created.Some? then created.value.productId else 0;
      match b {
        case Create =>
          ok := participants.CompensateCreateProductSaga(productId, c.made);
        case Init =>
          if !initialized { return true; }
          var skuIDs := SkuIdsOf(if created.Some? then created.value.skus else []);
          ok := participants.CompensateInitSkuStocksSaga(skuIDs);
        case Publish =>
          ok := participants.ChangeProductStatus(productId, OFFLINE, c.made);
      }
    }

    /** The workflow has returned as the step system does in state t. */
    ghost predicate Executed(c: Config, t: State, ok: bool)
      reads this, participants
    {
      && (t.phase.Returning? || t.phase.Back?)
      && participants.View() == t.world && Captured() == t.phase.vars && ok == t.phase.Returning?
      && (!ok ==> t.phase == Back(Unwinding(c, registered, t), Captured()))
    }

    /** The last two branches; s is the state of the step system in which the product exists. */
    method InitAndPublish(c: Config, results: Branch -> Outcome, items: seq<StockItem>, ghost s: State)
      returns (ok: bool)
      requires created == Some(c.made) && !initialized && registered == [Create] && items == c.Items() && c.CountFits()
      requires s.phase == Running(Init, Captured()) && s.world == participants.View()
      requires s.create == Succeeded && s.init == s.publish == Fresh
      modifies this, participants
      ensures Executed(c, Calls(c, s, results), ok)
    {
      ReversedValues();
      registered := registered + [Init];
      assert registered == [Create, Init] && registered[..1] == [Create];
      ghost var s2 := DoCall(c, s, results(Init));
      assert Calls(c, s, results) == Calls(c, s2, results);
      ok := CallInit(c, items, results(Init));
      if !ok { return; }
      initialized := true;
      if c.request.status == ONLINE {
        registered := registered + [Publish];
        assert registered == [Create, Init, Publish] && registered[..2] == [Create, Init];
        ghost var s3 := DoCall(c, s2, results(Publish));
        assert Calls(c, s2, results) == Calls(c, s3, results);
        ok := CallPublish(c, results(Publish));
      }
    }

    /** Registers the rollback of each branch before calling it, and stops at the first failure. */
    method RunWorkflow(c: Config, results: Branch -> Outcome) returns (ok: bool)
      requires created.None? && !initialized && registered == []
      modifies this, participants
      ensures Executed(c, Execution(c, old(participants.View()), results), ok)
    {
      ghost var s := DoBegin(c, BeforeExecution(participants.View()));
      ReversedValues();
      if c.request.operatorId <= 0 { return false; }
      registered := registered + [Create];
      assert registered == [Create];
      ghost var s1 := DoCall(c, s, results(Create));
      assert Calls(c, s, results) == Calls(c, s1, results);
      ok := CallCreate(c, results(Create));
      if !ok { return; }
      created := Some(c.made);
      var items := BuildInitStockItems(c.request.skus, c.made.skus);
      if |items| != |c.made.skus| { return false; }
      ok := InitAndPublish(c, results, items, s1);
    }
  }

  // One execution as a run.

  ghost function BeforeExecution(w: World): State {
    State(w, Fresh, Fresh, Fresh, {}, Idle)
  }

  function Left(p: Phase): nat {
    if !p.Running? then 0 else match p.next case Create => 3 case Init => 2 case Publish => 1
  }

  /** Calls branch after branch until the workflow function returns. */
  ghost function Calls(c: Config, s: State, results: Branch -> Outcome): (t: State)
    ensures !t.phase.Running?
    decreases Left(s.phase)
  {
    if !s.phase.Running? then s else Calls(c, DoCall(c, s, results(s.phase.next)), results)
  }

  ghost function Execution(c: Config, w: World, results: Branch -> Outcome): (t: State)
    ensures t.phase.Returning? || t.phase.Back?
  {
    ExecutionReturns(c, w, results);
    Calls(c, DoBegin(c, BeforeExecution(w)), results)
  }

  lemma {:induction false} ExecutionReturns(c: Config, w: World, results: Branch -> Outcome)
    ensures var t := Calls(c, DoBegin(c, BeforeExecution(w)), results); t.phase.Returning? || t.phase.Back?
  {
    var s := DoBegin(c, BeforeExecution(w));
    if s.phase.Running? {
      var s1 := DoCall(c, s, results(Create));
      assert Calls(c, s, results) == Calls(c, s1, results);
      if s1.phase.Running? {
        var s2 := DoCall(c, s1, results(Init));
        assert Calls(c, s1, results) == Calls(c, s2, results);
        if s2.phase.Running? {
          assert Calls(c, s2, results) == Calls(c, DoCall(c, s2, results(Publish)), results);
        }
      }
    }
  }

  /** The registered rollbacks in reverse; the one of the branch that failed only if the executor runs it. */
  ghost function Unwinding(c: Config, registered: seq<Branch>, t: State): seq<Branch> {
    if registered == [] then []
    else
      var last := registered[|registered| - 1];
      var skipsLast := !c.policy.compensatesFailing && MarkOf(t, last) != Succeeded;
      Reversed(if skipsLast then registered[..|registered| - 1] else registered)
  }

  function Reversed(bs: seq<Branch>): seq<Branch> {
    if bs == [] then [] else [bs[|bs| - 1]] + Reversed(bs[..|bs| - 1])
  }

  lemma ReversedValues()
    ensures Reversed([Create]) == [Create] && Reversed([Create, Init]) == [Init, Create]
    ensures Reversed([Create, Init, Publish]) == [Publish, Init, Create]
  {
    assert [Create][..0] == [] && [Create, Init][..1] == [Create] && [Create, Init, Publish][..2] == [Create, Init];
  }

  /**
   The steps of an execution can be taken in the step system whenever its losses are among the ones the executor
   allows.
   */
  lemma {:induction false} CallsAreARun(c: Config, s: State, results: Branch -> Outcome) returns (es: seq<Step>)
    requires forall b :: results(b) == Lost ==> b in c.policy.unconfirmed
    ensures Runs(c, s, es) && After(c, s, es) == Calls(c, s, results)
    decreases Left(s.phase)
  {
    if !s.phase.Running? {
      es := [];
    } else {
      var e := Call(results(s.phase.next));
      var rest := CallsAreARun(c, Do(c, s, e), results);
      es := [e] + rest;
      assert es[0] == e && es[1..] == rest;
    }
  }

  lemma ExecutionIsARun(c: Config, w: World, results: Branch -> Outcome) returns (es: seq<Step>)
    requires forall b :: results(b) == Lost ==> b in c.policy.unconfirmed
    ensures Runs(c, BeforeExecution(w), es) && After(c, BeforeExecution(w), es) == Execution(c, w, results)
  {
    var s := BeforeExecution(w);
    var rest := CallsAreARun(c, Do(c, s, Begin), results);
    es := [Begin] + rest;
    assert es[0] == Begin && es[1..] == rest;
  }
}
