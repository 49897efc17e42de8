/**
 The Redis store (gateway/internal/auth/session_store.go) as interleaved steps of many clients. WATCH, GET and
 MULTI/EXEC are separate steps of a rotation, GET and MULTI/EXEC of a deletion, and the two GETs of a lookup.
 A write to a watched key, its deletion or its expiry makes the watcher's EXEC fail.
 */
module SessionRedis {
  import opened Prelude
  import opened SessionSpec
  import opened SessionHistory

  datatype Entry<T> = Entry(value: T, expiresAt: int)

  datatype Client =
    | Watching(args: RotateArgs, dirty: bool)
    | Rotating(args: RotateArgs, seen: Session, dirty: bool)
    | Deleting(id: string, hash: string)
    | LookingUp(hash: string, id: string)

  datatype LookupResult = Answer(hash: string, session: Session)

  /**
   `issued` remembers which session each refresh-token hash was generated for; `log` the operations that took effect,
   in order; `answers` what lookups returned.
   */
  datatype State = State(
    clock: int,
    sessions: map<string, Entry<Session>>,
    refresh: map<string, Entry<string>>,
    clients: map<int, Client>,
    issued: map<string, string>,
    log: seq<Op>,
    answers: seq<LookupResult>)

  datatype Step =
    | DoSave(session: Session, ttl: int)
    | DoWatch(c: int, args: RotateArgs)
    | DoGet(c: int, expired: bool)
    | DoExec(c: int, ttl: int)
    | DoDeleteGet(c: int, id: string)
    | DoDeleteExec(c: int)
    | DoLookupGet(c: int, hash: string)
    | DoLookupFinish(c: int)
    | DoTick(clock: int)
    | DoCrash(c: int)

  /** Fresh ids and hashes: a saved id was never saved before, and a hash is generated once. */
  predicate Enabled(s: State, step: Step) {
    match step
    case DoSave(session, ttl) =>
      && ttl > 0 && session.refreshTokenHash != "" && session.refreshTokenHash !in s.issued
      && session.sessionId !in s.issued.Values
    case DoWatch(c, args) => c !in s.clients && args.next != "" && args.next !in s.issued && args.id in s.issued.Values
    case DoGet(c, _) => c in s.clients && s.clients[c].Watching?
    case DoExec(c, ttl) => c in s.clients && s.clients[c].Rotating? && ttl > 0
    case DoDeleteGet(c, _) => c !in s.clients
    case DoDeleteExec(c) => c in s.clients && s.clients[c].Deleting?
    case DoLookupGet(c, _) => c !in s.clients
    case DoLookupFinish(c) => c in s.clients && s.clients[c].LookingUp?
    case DoTick(clock) => s.clock <= clock
    case DoCrash(c) => c in s.clients
  }

  /** WATCH: writes to these session and refresh keys mark their watchers. */
  function Touch(clients: map<int, Client>, ids: set<string>, hashes: set<string>): map<int, Client> {
    map c | c in clients ::
      if (clients[c].Watching? || clients[c].Rotating?) && (clients[c].args.id in ids || clients[c].args.current in hashes)
      then clients[c].(dirty := true)
      else clients[c]
  }

  /** What the rotation answers after its GET, if it goes no further. */
  function GetReply(s: State, args: RotateArgs, expired: bool): Option<Reply> {
    if args.id !in s.sessions then Some(NotFound)
    else if s.sessions[args.id].value.refreshTokenHash != args.current then Some(Conflict)
    else if expired then Some(Conflict)
    else None
  }

  function ExpiredIds(s: State, clock: int): set<string> {
    set id | id in s.sessions && s.sessions[id].expiresAt <= clock
  }

  function ExpiredHashes(s: State, clock: int): set<string> {
    set h | h in s.refresh && s.refresh[h].expiresAt <= clock
  }

  function Do(s: State, step: Step): State
    requires Enabled(s, step)
  {
    match step
    case DoSave(session, ttl) =>
      s.(sessions := s.sessions[session.sessionId := Entry(session, s.clock + ttl)],
         refresh := s.refresh[session.refreshTokenHash := Entry(session.sessionId, s.clock + ttl)],
         clients := Touch(s.clients, {session.sessionId}, {session.refreshTokenHash}),
         issued := s.issued[session.refreshTokenHash := session.sessionId],
         log := s.log + [Save(session)])
    case DoWatch(c, args) =>
      s.(clients := s.clients[c := Watching(args, false)], issued := s.issued[args.next := args.id])
    case DoGet(c, expired) =>
      var args := s.clients[c].args;
      if GetReply(s, args, expired).Some? then s.(clients := s.clients - {c})
      else s.(clients := s.clients[c := Rotating(args, s.sessions[args.id].value, s.clients[c].dirty)])
    case DoExec(c, ttl) =>
      var args := s.clients[c].args;
      if s.clients[c].dirty then s.(clients := s.clients - {c})
      else
        var renewed := Renew(s.clients[c].seen, args);
        s.(sessions := s.sessions[args.id := Entry(renewed, s.clock + ttl)],
           refresh := (s.refresh - {args.current})[args.next := Entry(renewed.sessionId, s.clock + ttl)],
           clients := Touch(s.clients - {c}, {args.id},
                            {args.next} + (if args.current in s.refresh then {args.current} else {})),
           log := s.log + [Rotate(args)])
    case DoDeleteGet(c, id) =>
      if id !in s.sessions then s
      else s.(clients := s.clients[c := Deleting(id, s.sessions[id].value.refreshTokenHash)])
    case DoDeleteExec(c) =>
      var id, hash := s.clients[c].id, s.clients[c].hash;
      var hashes := if hash != "" then {hash} else {};
      s.(sessions := s.sessions - {id},
         refresh := s.refresh - hashes,
         clients := Touch(s.clients - {c}, {id} * s.sessions.Keys, hashes * s.refresh.Keys),
         log := s.log + [Delete(id)])
    case DoLookupGet(c, hash) =>
      if hash !in s.refresh then s
      else s.(clients := s.clients[c := LookingUp(hash, s.refresh[hash].value)])
    case DoLookupFinish(c) =>
      var id := s.clients[c].id;
      s.(clients := s.clients - {c},
         answers := if id in s.sessions then s.answers + [Answer(s.clients[c].hash, s.sessions[id].value)] else s.answers)
    case DoTick(clock) =>
      var ids, hashes := ExpiredIds(s, clock), ExpiredHashes(s, clock);
      s.(clock := clock, sessions := s.sessions - ids, refresh := s.refresh - hashes,
         clients := Touch(s.clients, ids, hashes), log := s.log + [Expire(ids)])
    case DoCrash(c) => s.(clients := s.clients - {c})
  }

  ghost predicate Runs(s: State, steps: seq<Step>, t: State)
    decreases |steps|
  {
    if steps == [] then s == t
    else Enabled(s, steps[0]) && Runs(Do(s, steps[0]), steps[1..], t)
  }

  const EMPTY := State(0, map[], map[], map[], map[], [], [])

  /** The abstract sessions: what GET returns, with the expiry forgotten. */
  function Abs(s: State): Sessions {
    map id | id in s.sessions :: s.sessions[id].value
  }

  function AbsIndex(s: State): Index {
    map h | h in s.refresh :: s.refresh[h].value
  }

  // The inductive invariant.

  ghost predicate SessionOk(s: State, id: string)
    requires id in s.sessions
  {
    var v := s.sessions[id].value;
    && v.sessionId == id && v.refreshTokenHash != ""
    && v.refreshTokenHash in s.issued && s.issued[v.refreshTokenHash] == id
    && v.refreshTokenHash in Issued(s.log)
    // the forward index: a live session's refresh key exists, points back and expires with it
    && v.refreshTokenHash in s.refresh && s.refresh[v.refreshTokenHash] == Entry(id, s.sessions[id].expiresAt)
  }

  ghost predicate ClientOk(s: State, c: int)
    requires c in s.clients
  {
    match s.clients[c]
    case Watching(a, dirty) => NextOk(s, a)
    case Rotating(a, seen, dirty) =>
      && NextOk(s, a) && seen.refreshTokenHash == a.current
      && (!dirty ==> a.id in s.sessions && s.sessions[a.id].value == seen)
    case Deleting(id, hash) => hash in s.issued && s.issued[hash] == id
    case LookingUp(hash, id) => hash in s.issued && s.issued[hash] == id
  }

  /** The new hash of a pending rotation has been generated for its session but not used. */
  ghost predicate NextOk(s: State, a: RotateArgs) {
    a.next != "" && a.next in s.issued && s.issued[a.next] == a.id && a.next !in Issued(s.log) && a.next !in s.refresh
  }

  predicate Pending(s: State, c: int) {
    c in s.clients && (s.clients[c].Watching? || s.clients[c].Rotating?)
  }

  ghost predicate SessionsOk(s: State) {
    forall id :: id in s.sessions ==> SessionOk(s, id)
  }

  /** A refresh key, live or dangling, holds the session its hash was issued for. */
  ghost predicate RefreshOk(s: State) {
    forall h :: h in s.refresh ==> h in s.issued && s.refresh[h].value == s.issued[h]
  }

  ghost predicate ClientsOk(s: State) {
    && (forall c :: c in s.clients ==> ClientOk(s, c))
    && (forall c, d :: Pending(s, c) && Pending(s, d) && s.clients[c].args.next == s.clients[d].args.next ==> c == d)
  }

  ghost predicate AnswersOk(s: State) {
    forall k :: 0 <= k < |s.answers| ==>
      s.answers[k].hash in s.issued && s.issued[s.answers[k].hash] == s.answers[k].session.sessionId
  }

  /** The log is a run of the atomic specification that leads to the current sessions. */
  ghost predicate LogOk(s: State) {
    && Issued(s.log) <= s.issued.Keys && "" !in s.issued
    && FreshHashes(s.log)
    && After(s.log) == Abs(s)
    && DeletesAreFinal(s.log, s.issued.Values)
  }

  ghost predicate Inv(s: State) {
    SessionsOk(s) && RefreshOk(s) && ClientsOk(s) && AnswersOk(s) && LogOk(s)
  }

  /** Only sessions that were handed out are deleted, and none is saved after its deletion. */
  ghost predicate DeletesAreFinal(log: seq<Op>, known: set<string>) {
    && (forall i :: 0 <= i < |log| && log[i].Delete? ==> log[i].id in known)
    && (forall i, j :: 0 <= i < j < |log| && log[i].Delete? && log[j].Save? ==> log[j].session.sessionId != log[i].id)
  }

  lemma LogNext(log: seq<Op>, op: Op)
    requires FreshHashes(log) && IssuedBy(op) !! Issued(log)
    ensures FreshHashes(log + [op])
    ensures After(log + [op]) == Exec(After(log), op)
    ensures Issued(log + [op]) == Issued(log) + IssuedBy(op)
  {
    var longer := log + [op];
    assert longer[..|log|] == log;
    forall k | 0 <= k < |longer| ensures FreshAt(longer, k) {
      assert k < |log| ==> longer[..k] == log[..k] && FreshAt(log, k);
    }
  }

  /** Appending an operation whose effect on the sessions is the specification's. */
  lemma LogGrows(s: State, t: State, op: Op)
    requires LogOk(s) && t.log == s.log + [op] && Abs(t) == Exec(Abs(s), op)
    requires IssuedBy(op) !! Issued(s.log) && IssuedBy(op) <= t.issued.Keys
    requires s.issued.Keys <= t.issued.Keys && s.issued.Values <= t.issued.Values && "" !in t.issued
    requires op.Delete? ==> op.id in s.issued.Values
    requires op.Save? ==> op.session.sessionId !in s.issued.Values
    ensures LogOk(t)
    ensures Issued(t.log) == Issued(s.log) + IssuedBy(op)
  {
    LogNext(s.log, op);
  }

  /** Steps that neither write nor log anything and hand out no new hash. */
  lemma QuietInv(s: State, t: State)
    requires Inv(s) && t == s.(clients := t.clients, answers := t.answers)
    requires forall c :: c in t.clients ==> ClientOk(t, c)
    requires forall c :: Pending(t, c) ==> Pending(s, c) && t.clients[c].args == s.clients[c].args
    requires forall k :: 0 <= k < |t.answers| ==>
      t.answers[k].hash in s.issued && s.issued[t.answers[k].hash] == t.answers[k].session.sessionId
    ensures Inv(t)
  {
    forall id | id in t.sessions ensures SessionOk(t, id) { assert SessionOk(s, id); }
    assert Abs(t) == Abs(s);
  }

  lemma TouchedClientOk(s: State, t: State, c: int, ids: set<string>, hashes: set<string>)
    requires c in s.clients && ClientOk(s, c)
    requires c in t.clients && t.clients[c] == Touch(s.clients, ids, hashes)[c]
    requires forall h :: h in s.issued ==> h in t.issued && t.issued[h] == s.issued[h]
    requires forall h :: h in Issued(t.log) && h !in Issued(s.log) ==> !Pending(s, c) || h != s.clients[c].args.next
    requires forall h :: h in t.refresh && h !in s.refresh ==> !Pending(s, c) || h != s.clients[c].args.next
    requires forall id :: id in s.sessions && id !in ids ==> id in t.sessions && t.sessions[id].value == s.sessions[id].value
    ensures ClientOk(t, c)
  {
  }

  lemma ValuesGrow(m: map<string, string>, key: string, value: string)
    requires key !in m
    ensures m.Values <= m[key := value].Values
  {
    forall v | v in m.Values
      ensures v in m[key := value].Values
    {
      var k :| k in m && m[k] == v;
      assert m[key := value][k] == v;
    }
  }

  lemma SaveInv(s: State, step: Step)
    requires Inv(s) && Enabled(s, step) && step.DoSave?
    ensures Inv(Do(s, step))
  {
    SaveLogged(s, step);
    SaveKeepsSessions(s, step);
    SaveKeepsClients(s, step);
  }

  lemma SaveLogged(s: State, step: Step)
    requires LogOk(s) && Enabled(s, step) && step.DoSave?
    ensures LogOk(Do(s, step))
    ensures Issued(Do(s, step).log) == Issued(s.log) + {step.session.refreshTokenHash}
  {
    var t := Do(s, step);
    ValuesGrow(s.issued, step.session.refreshTokenHash, step.session.sessionId);
    assert Abs(t) == Abs(s)[step.session.sessionId := step.session];
    LogGrows(s, t, Save(step.session));
  }

  lemma SaveKeepsClients(s: State, step: Step)
    requires ClientsOk(s) && Enabled(s, step) && step.DoSave? && step.session.sessionId !in s.sessions
    requires Issued(Do(s, step).log) == Issued(s.log) + {step.session.refreshTokenHash}
    ensures ClientsOk(Do(s, step))
  {
    var t := Do(s, step);
    forall c | c in t.clients ensures ClientOk(t, c) {
      TouchedClientOk(s, t, c, {step.session.sessionId}, {step.session.refreshTokenHash});
    }
    assert forall c :: Pending(t, c) ==> Pending(s, c) && t.clients[c].args == s.clients[c].args;
  }

  lemma SaveKeepsSessions(s: State, step: Step)
    requires SessionsOk(s) && Enabled(s, step) && step.DoSave?
    requires Issued(Do(s, step).log) == Issued(s.log) + {step.session.refreshTokenHash}
    ensures SessionsOk(Do(s, step))
    ensures step.session.sessionId !in s.sessions
  {
    var t := Do(s, step);
    assert forall id :: id in s.sessions ==> SessionOk(s, id) && id in s.issued.Values;
    forall id | id in t.sessions ensures SessionOk(t, id) {
      assert id != step.session.sessionId ==> SessionOk(s, id);
    }
  }

  lemma WatchInv(s: State, step: Step)
    requires Inv(s) && Enabled(s, step) && step.DoWatch?
    ensures Inv(Do(s, step))
  {
    var t := Do(s, step);
    ValuesGrow(s.issued, step.args.next, step.args.id);
    forall id | id in t.sessions ensures SessionOk(t, id) { assert SessionOk(s, id); }
    forall c | c in t.clients ensures ClientOk(t, c) { assert c != step.c ==> ClientOk(s, c); }
    forall c, d | Pending(t, c) && Pending(t, d) && t.clients[c].args.next == t.clients[d].args.next
      ensures c == d
    {
      assert c != step.c ==> ClientOk(s, c);
      assert d != step.c ==> ClientOk(s, d);
    }
    assert Abs(t) == Abs(s);
  }

  lemma GetInv(s: State, step: Step)
    requires Inv(s) && Enabled(s, step) && step.DoGet?
    ensures Inv(Do(s, step))
  {
    var t := Do(s, step);
    forall c | c in t.clients ensures ClientOk(t, c) { assert ClientOk(s, c); }
    QuietInv(s, t);
  }

  lemma RotationKeepsSessions(s: State, step: Step)
    requires SessionsOk(s) && Enabled(s, step) && step.DoExec? && !s.clients[step.c].dirty && ClientOk(s, step.c)
    requires Issued(Do(s, step).log) == Issued(s.log) + {s.clients[step.c].args.next}
    ensures SessionsOk(Do(s, step))
  {
    var t := Do(s, step);
    var a := s.clients[step.c].args;
    assert SessionOk(s, a.id);
    forall id | id in t.sessions ensures SessionOk(t, id) {
      assert id != a.id ==> SessionOk(s, id);
    }
  }

  lemma RotationLogged(s: State, step: Step)
    requires Inv(s) && Enabled(s, step) && step.DoExec? && !s.clients[step.c].dirty
    ensures LogOk(Do(s, step)) && Issued(Do(s, step).log) == Issued(s.log) + {s.clients[step.c].args.next}
  {
    var t := Do(s, step);
    var a, seen := s.clients[step.c].args, s.clients[step.c].seen;
    assert ClientOk(s, step.c);
    assert Abs(s)[a.id] == seen && RotateReply(Abs(s), a).Rotated?;
    assert Abs(t) == Abs(s)[a.id := Renew(seen, a)];
    LogGrows(s, t, Rotate(a));
  }

  lemma RotationKeepsClients(s: State, step: Step)
    requires ClientsOk(s) && Enabled(s, step) && step.DoExec? && !s.clients[step.c].dirty
    requires Issued(Do(s, step).log) == Issued(s.log) + {s.clients[step.c].args.next}
    ensures ClientsOk(Do(s, step))
  {
    var t := Do(s, step);
    var a := s.clients[step.c].args;
    var hashes := {a.next} + (if a.current in s.refresh then {a.current} else {});
    forall c | c in t.clients ensures ClientOk(t, c) {
      TouchedClientOk(s, t, c, {a.id}, hashes);
    }
    assert forall c :: Pending(t, c) ==> Pending(s, c) && t.clients[c].args == s.clients[c].args;
  }

  /** The transaction of an undisturbed rotation. */
  lemma RotationInv(s: State, step: Step)
    requires Inv(s) && Enabled(s, step) && step.DoExec? && !s.clients[step.c].dirty
    ensures Inv(Do(s, step))
  {
    assert ClientOk(s, step.c) && SessionOk(s, s.clients[step.c].args.id);
    RotationLogged(s, step);
    RotationKeepsSessions(s, step);
    RotationKeepsClients(s, step);
  }

  lemma ExecInv(s: State, step: Step)
    requires Inv(s) && Enabled(s, step) && step.DoExec?
    ensures Inv(Do(s, step))
  {
    if s.clients[step.c].dirty {
      var t := Do(s, step);
      forall c | c in t.clients ensures ClientOk(t, c) { assert ClientOk(s, c); }
      QuietInv(s, t);
    } else {
      RotationInv(s, step);
    }
  }

  lemma DeleteLogged(s: State, step: Step)
    requires Inv(s) && Enabled(s, step) && step.DoDeleteExec?
    ensures LogOk(Do(s, step)) && Issued(Do(s, step).log) == Issued(s.log)
  {
    var t, id := Do(s, step), s.clients[step.c].id;
    assert ClientOk(s, step.c);
    assert Abs(t) == Abs(s) - {id};
    LogGrows(s, t, Delete(id));
    assert Issued(s.log) + {} == Issued(s.log);
  }

  lemma DeleteKeepsSessions(s: State, step: Step)
    requires Inv(s) && Enabled(s, step) && step.DoDeleteExec?
    ensures SessionsOk(Do(s, step)) && RefreshOk(Do(s, step))
  {
    var t := Do(s, step);
    DeleteLogged(s, step);
    assert ClientOk(s, step.c);
    forall x | x in t.sessions ensures SessionOk(t, x) { assert SessionOk(s, x); }
  }

  lemma DeleteExecInv(s: State, step: Step)
    requires Inv(s) && Enabled(s, step) && step.DoDeleteExec?
    ensures Inv(Do(s, step))
  {
    var t := Do(s, step);
    var id, hash := s.clients[step.c].id, s.clients[step.c].hash;
    DeleteLogged(s, step);
    DeleteKeepsSessions(s, step);
    var hashes := if hash != "" then {hash} else {};
    forall c | c in t.clients ensures ClientOk(t, c) {
      TouchedClientOk(s, t, c, {id} * s.sessions.Keys, hashes * s.refresh.Keys);
    }
    assert forall c :: Pending(t, c) ==> Pending(s, c) && t.clients[c].args == s.clients[c].args;
  }

  /** Keys vanish: what is left of the sessions keeps its refresh keys, and watchers of what is gone are marked. */
  lemma VanishInv(s: State, t: State, ids: set<string>, hashes: set<string>)
    requires Inv(s)
    requires forall id :: id in s.sessions && s.sessions[id].value.refreshTokenHash in hashes ==> id in ids
    requires t == s.(clock := t.clock, sessions := s.sessions - ids, refresh := s.refresh - hashes,
      clients := Touch(s.clients, ids, hashes), log := s.log + [Expire(ids)])
    ensures Inv(t)
  {
    assert Abs(t) == Abs(s) - ids;
    LogGrows(s, t, Expire(ids));
    forall id | id in t.sessions ensures SessionOk(t, id) { assert SessionOk(s, id); }
    forall c | c in t.clients ensures ClientOk(t, c) {
      TouchedClientOk(s, t, c, ids, hashes);
    }
    assert forall c :: Pending(t, c) ==> Pending(s, c) && t.clients[c].args == s.clients[c].args;
  }

  lemma TickInv(s: State, step: Step)
    requires Inv(s) && Enabled(s, step) && step.DoTick?
    ensures Inv(Do(s, step))
  {
    var ids, hashes := ExpiredIds(s, step.clock), ExpiredHashes(s, step.clock);
    forall id | id in s.sessions && s.sessions[id].value.refreshTokenHash in hashes
      ensures id in ids
    {
      assert SessionOk(s, id);
    }
    VanishInv(s, Do(s, step), ids, hashes);
  }

  lemma ReadInv(s: State, step: Step)
    requires Inv(s) && Enabled(s, step)
    requires step.DoDeleteGet? || step.DoLookupGet? || step.DoLookupFinish? || step.DoCrash?
    ensures Inv(Do(s, step))
  {
    var t := Do(s, step);
    forall c | c in t.clients ensures ClientOk(t, c) {
      assert c in s.clients ==> ClientOk(s, c);
      if step.DoDeleteGet? && c == step.c { assert SessionOk(s, step.id); }
    }
    if step.DoLookupFinish? {
      assert ClientOk(s, step.c);
      var id := s.clients[step.c].id;
      assert id in s.sessions ==> SessionOk(s, id);
    }
    QuietInv(s, t);
  }

  lemma StepInv(s: State, step: Step)
    requires Inv(s) && Enabled(s, step)
    ensures Inv(Do(s, step))
  {
    match step {
      case DoSave(_, _) => SaveInv(s, step);
      case DoWatch(_, _) => WatchInv(s, step);
      case DoGet(_, _) => GetInv(s, step);
      case DoExec(_, _) => ExecInv(s, step);
      case DoDeleteExec(_) => DeleteExecInv(s, step);
      case DoTick(_) => TickInv(s, step);
      case _ => ReadInv(s, step);
    }
  }

  lemma {:induction false} RunInv(s: State, steps: seq<Step>, t: State)
    requires Inv(s) && Runs(s, steps, t)
    ensures Inv(t)
    decreases |steps|
  {
    if steps != [] {
      StepInv(s, steps[0]);
      RunInv(Do(s, steps[0]), steps[1..], t);
    }
  }

  // Guarantees.

  /** Each step is one atomic operation of the specification on the sessions, or none. */
  ghost predicate Simulates(s: State, t: State) {
    || (t.log == s.log && Abs(t) == Abs(s))
    || exists op :: t.log == s.log + [op] && Abs(t) == Exec(Abs(s), op)
  }

  /** Redis refines the atomic store: every step of every client is an atomic operation or invisible. */
  lemma EveryStepIsAtomic(s: State, step: Step)
    requires Inv(s) && Enabled(s, step)
    ensures Simulates(s, Do(s, step))
  {
    StepInv(s, step);
    var t := Do(s, step);
    if t.log != s.log {
      var op := t.log[|s.log|];
      assert t.log == s.log + [op];
      if op.Rotate? { assert ClientOk(s, step.c); }
      LogNext(s.log, op);
    }
  }

  /**
   A rotation whose EXEC goes through is the atomic rotation at that instant, on the sessions and on the secondary
   index alike; its outcome is what the specification answers.
   */
  lemma SuccessfulRotateIsAtomic(s: State, step: Step)
    requires Inv(s) && Enabled(s, step) && step.DoExec? && !s.clients[step.c].dirty
    ensures var t, a := Do(s, step), s.clients[step.c].args;
      && RotateReply(Abs(s), a) == Rotated(Renew(s.clients[step.c].seen, a))
      && Abs(t) == Exec(Abs(s), Rotate(a))
      && AbsIndex(t) == ExecIndex(Abs(s), AbsIndex(s), Rotate(a))
    ensures var t, a := Do(s, step), s.clients[step.c].args;
      && a.id in s.sessions && s.sessions[a.id].value.refreshTokenHash == a.current
      && a.id in t.sessions && Rewritten(s.sessions[a.id].value, a, t.sessions[a.id].value)
      && t.sessions == s.sessions[a.id := Entry(t.sessions[a.id].value, s.clock + step.ttl)]
      && t.refresh == (s.refresh - {a.current})[a.next := Entry(a.id, s.clock + step.ttl)]
  {
    assert ClientOk(s, step.c);
    var a := s.clients[step.c].args;
    assert SessionOk(s, a.id);
  }

  /**
   A deletion is atomic on the sessions. On the index it matches the atomic deletion exactly when the session is gone
   with its index entry or still carries the hash the deletion read; otherwise a rotation came between, and the new
   hash's entry is left behind.
   */
  lemma DeleteLeavesTheNewHash(s: State, step: Step)
    requires Inv(s) && Enabled(s, step) && step.DoDeleteExec?
    ensures var t, id, hash := Do(s, step), s.clients[step.c].id, s.clients[step.c].hash;
      && Abs(t) == Exec(Abs(s), Delete(id))
      && (AbsIndex(t) == ExecIndex(Abs(s), AbsIndex(s), Delete(id)) <==>
            if id in s.sessions then s.sessions[id].value.refreshTokenHash == hash else hash !in s.refresh)
  {
    var t, id, hash := Do(s, step), s.clients[step.c].id, s.clients[step.c].hash;
    if id in s.sessions {
      assert SessionOk(s, id);
      var current := s.sessions[id].value.refreshTokenHash;
      assert current in AbsIndex(s);
      assert current != hash ==> current in AbsIndex(t);
    } else {
      assert hash in s.refresh ==> hash in AbsIndex(s);
    }
  }

  /**
   A rotation that stops at its GET answers what the specification answers at that instant, except that a rotation to a
   time already past is refused as a conflict.
   */
  lemma RefusedRotateIsAtomic(s: State, a: RotateArgs, expired: bool)
    ensures GetReply(s, a, expired) ==
      if !RotateReply(Abs(s), a).Rotated? then Some(RotateReply(Abs(s), a))
      else if expired then Some(Conflict) else None
    ensures GetReply(s, a, false).Some? ==> Exec(Abs(s), Rotate(a)) == Abs(s)
  {
    assert a.id in s.sessions ==> Abs(s)[a.id] == s.sessions[a.id].value;
  }

  lemma {:induction false} RunsSnoc(s: State, steps: seq<Step>, t: State, step: Step)
    requires Runs(s, steps, t) && Enabled(t, step)
    ensures Runs(s, steps + [step], Do(t, step))
    decreases |steps|
  {
    if steps == [] {
      assert ([] + [step])[1..] == [];
    } else {
      assert (steps + [step])[1..] == steps[1..] + [step];
      RunsSnoc(Do(s, steps[0]), steps[1..], t, step);
    }
  }

  /** The race exists: a client reads the hash to delete, another rotates the session, the first deletes. */
  lemma LeftoverKeyIsReachable(session: Session, args: RotateArgs, ttl: int) returns (steps: seq<Step>, t: State)
    requires ttl > 0 && session.refreshTokenHash != "" && args.next != "" && args.next != session.refreshTokenHash
    requires args.id == session.sessionId && args.current == session.refreshTokenHash
    ensures Runs(EMPTY, steps, t)
    ensures session.sessionId !in t.sessions
    ensures args.next in t.refresh && t.refresh[args.next].value == session.sessionId
  {
    steps, t := RotateBetween(session, args, ttl);
    RunsSnoc(EMPTY, steps, t, DoDeleteExec(1));
    steps, t := steps + [DoDeleteExec(1)], Do(t, DoDeleteExec(1));
  }

  /** The run up to the deletion's EXEC. */
  lemma RotateBetween(session: Session, args: RotateArgs, ttl: int) returns (steps: seq<Step>, t: State)
    requires ttl > 0 && session.refreshTokenHash != "" && args.next != "" && args.next != session.refreshTokenHash
    requires args.id == session.sessionId && args.current == session.refreshTokenHash
    ensures Runs(EMPTY, steps, t)
    ensures t.clients == map[1 := Deleting(args.id, args.current)] && args.id in t.sessions
    ensures args.next in t.refresh && t.refresh[args.next].value == args.id
  {
    steps, t := [], EMPTY;
    var race := [DoSave(session, ttl), DoDeleteGet(1, args.id), DoWatch(2, args), DoGet(2, false), DoExec(2, ttl)];
    RunsSnoc(EMPTY, steps, t, race[0]);
    steps, t := steps + [race[0]], Do(t, race[0]);
    assert session.refreshTokenHash in t.issued;
    RunsSnoc(EMPTY, steps, t, race[1]);
    steps, t := steps + [race[1]], Do(t, race[1]);
    RunsSnoc(EMPTY, steps, t, race[2]);
    steps, t := steps + [race[2]], Do(t, race[2]);
    RunsSnoc(EMPTY, steps, t, race[3]);
    steps, t := steps + [race[3]], Do(t, race[3]);
    RunsSnoc(EMPTY, steps, t, race[4]);
    steps, t := steps + [race[4]], Do(t, race[4]);
  }

  lemma EmptyInv()
    ensures Inv(EMPTY)
  {
    assert Abs(EMPTY) == map[];
  }

  /** What holds after any run of any number of clients. */
  lemma Reachable(steps: seq<Step>, t: State)
    requires Runs(EMPTY, steps, t)
    ensures Inv(t)
  {
    EmptyInv();
    RunInv(EMPTY, steps, t);
  }

  // A refresh key whose session is live is that session's current hash.

  ghost predicate Current(s: State) {
    forall h :: h in s.refresh && s.refresh[h].value in s.sessions ==>
      s.sessions[s.refresh[h].value].value.refreshTokenHash == h
  }

  lemma StepCurrent(s: State, step: Step)
    requires Inv(s) && Current(s) && Enabled(s, step)
    ensures Current(Do(s, step))
  {
    if step.DoExec? {
      assert ClientOk(s, step.c);
    }
  }

  lemma {:induction false} RunCurrent(s: State, steps: seq<Step>, t: State)
    requires Inv(s) && Current(s) && Runs(s, steps, t)
    ensures Current(t)
    decreases |steps|
  {
    if steps != [] {
      StepInv(s, steps[0]);
      StepCurrent(s, steps[0]);
      RunCurrent(Do(s, steps[0]), steps[1..], t);
    }
  }

  /** In every reachable state a lookup by hash finds exactly the live session that carries it; spent hashes find none. */
  lemma LookupFindsTheCarrier(steps: seq<Step>, t: State, hash: string, v: Session)
    requires Runs(EMPTY, steps, t)
    ensures Lookup(Abs(t), AbsIndex(t), hash) == Some(v) <==>
      exists id :: id in t.sessions && t.sessions[id].value == v && v.refreshTokenHash == hash
  {
    Reachable(steps, t);
    EmptyInv();
    RunCurrent(EMPTY, steps, t);
    if id :| id in t.sessions && t.sessions[id].value == v && v.refreshTokenHash == hash {
      assert SessionOk(t, id);
    }
  }

  /** A hash that a rotation has replaced never resolves again, whatever key is left behind. */
  lemma SpentHashNeverResolves(steps: seq<Step>, t: State, i: nat)
    requires Runs(EMPTY, steps, t) && i < |t.log| && Succeeds(t.log, i)
    ensures Lookup(Abs(t), AbsIndex(t), t.log[i].args.current) == None
  {
    var hash := t.log[i].args.current;
    Reachable(steps, t);
    SpentAtOnce(t.log, i);
    SpentHashNeverReturns(t.log, i, |t.log|, hash);
    assert t.log[..|t.log|] == t.log;
    EmptyInv();
    RunCurrent(EMPTY, steps, t);
    forall id | id in t.sessions ensures t.sessions[id].value.refreshTokenHash != hash {
      assert id in Abs(t);
    }
  }

  /** Of all rotations presenting one hash, at most one goes through. */
  lemma AtMostOneRotationPerHash(steps: seq<Step>, t: State, i: nat, j: nat)
    requires Runs(EMPTY, steps, t)
    requires i < j < |t.log| && Succeeds(t.log, i) && Succeeds(t.log, j)
    ensures t.log[i].args.current != t.log[j].args.current
  {
    Reachable(steps, t);
    SingleUse(t.log, i, j);
  }

  /** A live session's refresh key exists, maps back to it and expires with it. */
  lemma ForwardIndex(steps: seq<Step>, t: State, id: string)
    requires Runs(EMPTY, steps, t) && id in t.sessions
    ensures var s := t.sessions[id].value;
      && s.sessionId == id
      && s.refreshTokenHash in t.refresh
      && t.refresh[s.refreshTokenHash] == Entry(id, t.sessions[id].expiresAt)
  {
    Reachable(steps, t);
    assert SessionOk(t, id);
  }

  /**
   A refresh key, dangling or not, and a two-step lookup only ever lead to the session the hash was issued for; a refresh
   key whose session is live is that session's current hash.
   */
  lemma NeverSomebodyElsesSession(steps: seq<Step>, t: State)
    requires Runs(EMPTY, steps, t)
    ensures forall h :: h in t.refresh ==> h in t.issued && t.refresh[h].value == t.issued[h]
    ensures forall k :: 0 <= k < |t.answers| ==>
      t.answers[k].hash in t.issued && t.answers[k].session.sessionId == t.issued[t.answers[k].hash]
    ensures Current(t)
  {
    Reachable(steps, t);
    EmptyInv();
    RunCurrent(EMPTY, steps, t);
  }

  /** An executed deletion is final: no rotation, however it was interleaved, recreates the session. */
  lemma NoRotationAfterDelete(steps: seq<Step>, t: State, i: nat)
    requires Runs(EMPTY, steps, t)
    requires i < |t.log| && t.log[i].Delete?
    ensures t.log[i].id !in t.sessions
  {
    Reachable(steps, t);
    DeletedStaysDeleted(t.log, i, |t.log|);
    assert t.log[..|t.log|] == t.log;
    assert t.log[i].id !in Abs(t);
  }
}
