/**
 How long a key of the Redis store lives, and what a client gets that nobody disturbs
 (gateway/internal/auth/session_store.go:77-199).
 */
module SessionExpiry {
  import opened Prelude
  import opened SessionSpec
  import opened SessionRedis

  // Expiry.

  /** What is stored expires later. */
  ghost predicate InTheFuture(s: State) {
    && (forall id :: id in s.sessions ==> s.clock < s.sessions[id].expiresAt)
    && (forall h :: h in s.refresh ==> s.clock < s.refresh[h].expiresAt)
  }

  lemma StepInTheFuture(s: State, step: Step)
    requires InTheFuture(s) && Enabled(s, step)
    ensures InTheFuture(Do(s, step))
  {
  }

  lemma {:induction false} RunInTheFuture(s: State, steps: seq<Step>, t: State)
    requires InTheFuture(s) && Runs(s, steps, t)
    ensures InTheFuture(t)
    decreases |steps|
  {
    if steps != [] {
      StepInTheFuture(s, steps[0]);
      RunInTheFuture(Do(s, steps[0]), steps[1..], t);
    }
  }

  /** The step saves session id, rotates it or deletes it. */
  predicate WritesSession(s: State, step: Step, id: string) {
    match step
    case DoSave(session, _) => session.sessionId == id
    case DoExec(c, _) => c in s.clients && s.clients[c].Rotating? && s.clients[c].args.id == id && !s.clients[c].dirty
    case DoDeleteExec(c) => c in s.clients && s.clients[c].Deleting? && s.clients[c].id == id
    case _ => false
  }

  ghost predicate LeftAlone(s: State, steps: seq<Step>, id: string)
    decreases |steps|
  {
    steps == [] ||
    (Enabled(s, steps[0]) ==> !WritesSession(s, steps[0], id) && LeftAlone(Do(s, steps[0]), steps[1..], id))
  }

  /** The entry lives on, or the clock has reached its expiry and there is none. */
  ghost predicate LivesUntil(s: State, id: string, e: Entry<Session>) {
    if s.clock < e.expiresAt then id in s.sessions && s.sessions[id] == e else id !in s.sessions
  }

  lemma StepLivesUntil(s: State, step: Step, id: string, e: Entry<Session>)
    requires LivesUntil(s, id, e) && Enabled(s, step) && !WritesSession(s, step, id)
    ensures LivesUntil(Do(s, step), id, e)
  {
  }

  lemma {:induction false} RunLivesUntil(s: State, steps: seq<Step>, t: State, id: string, e: Entry<Session>)
    requires LivesUntil(s, id, e) && Runs(s, steps, t) && LeftAlone(s, steps, id)
    ensures LivesUntil(t, id, e)
    decreases |steps|
  {
    if steps != [] {
      StepLivesUntil(s, steps[0], id, e);
      RunLivesUntil(Do(s, steps[0]), steps[1..], t, id, e);
    }
  }

  /** A saved session that nobody writes is live, as it was saved, exactly while less than its ttl has passed. */
  lemma SavedForItsTtl(s: State, session: Session, ttl: int, steps: seq<Step>, t: State)
    requires Enabled(s, DoSave(session, ttl)) && Runs(Do(s, DoSave(session, ttl)), steps, t)
    requires LeftAlone(Do(s, DoSave(session, ttl)), steps, session.sessionId)
    ensures session.sessionId in t.sessions <==> t.clock - s.clock < ttl
    ensures session.sessionId in t.sessions ==> t.sessions[session.sessionId].value == session
  {
    RunLivesUntil(Do(s, DoSave(session, ttl)), steps, t, session.sessionId, Entry(session, s.clock + ttl));
  }

  /** A rotated session likewise, from its rotation on: what counts is the ttl of the rotation. */
  lemma RotatedForItsTtl(before: seq<Step>, s: State, c: int, ttl: int, steps: seq<Step>, t: State)
    requires Runs(EMPTY, before, s) && Enabled(s, DoExec(c, ttl)) && !s.clients[c].dirty
    requires Runs(Do(s, DoExec(c, ttl)), steps, t)
    requires LeftAlone(Do(s, DoExec(c, ttl)), steps, s.clients[c].args.id)
    ensures s.clients[c].args.id in t.sessions <==> t.clock - s.clock < ttl
    ensures var a := s.clients[c].args; a.id in t.sessions ==> t.sessions[a.id].value.refreshTokenHash == a.next
  {
    Reachable(before, s);
    SuccessfulRotateIsAtomic(s, DoExec(c, ttl));
    var a, u := s.clients[c].args, Do(s, DoExec(c, ttl));
    RunLivesUntil(u, steps, t, a.id, u.sessions[a.id]);
  }

  // Refresh keys.

  /** The step sets or deletes this refresh key. */
  predicate WritesKey(s: State, step: Step, hash: string) {
    match step
    case DoSave(session, _) => session.refreshTokenHash == hash
    case DoExec(c, _) =>
      && c in s.clients && s.clients[c].Rotating? && !s.clients[c].dirty
      && hash in {s.clients[c].args.current, s.clients[c].args.next}
    case DoDeleteExec(c) => c in s.clients && s.clients[c].Deleting? && s.clients[c].hash == hash
    case _ => false
  }

  ghost predicate KeyLeftAlone(s: State, steps: seq<Step>, hash: string)
    decreases |steps|
  {
    steps == [] ||
    (Enabled(s, steps[0]) ==> !WritesKey(s, steps[0], hash) && KeyLeftAlone(Do(s, steps[0]), steps[1..], hash))
  }

  ghost predicate KeyLivesUntil(s: State, hash: string, e: Entry<string>) {
    if s.clock < e.expiresAt then hash in s.refresh && s.refresh[hash] == e else hash !in s.refresh
  }

  lemma StepKeyLivesUntil(s: State, step: Step, hash: string, e: Entry<string>)
    requires KeyLivesUntil(s, hash, e) && Enabled(s, step) && !WritesKey(s, step, hash)
    ensures KeyLivesUntil(Do(s, step), hash, e)
  {
  }

  /** A refresh key that nobody writes lives exactly until its expiry, whether its session is live or gone. */
  lemma {:induction false} KeyForItsTtl(s: State, steps: seq<Step>, t: State, hash: string, e: Entry<string>)
    requires KeyLivesUntil(s, hash, e) && Runs(s, steps, t) && KeyLeftAlone(s, steps, hash)
    ensures KeyLivesUntil(t, hash, e)
    decreases |steps|
  {
    if steps != [] {
      StepKeyLivesUntil(s, steps[0], hash, e);
      KeyForItsTtl(Do(s, steps[0]), steps[1..], t, hash, e);
    }
  }

  /** In a reachable state nothing is stored whose time has come. */
  lemma NothingOverdue(steps: seq<Step>, t: State)
    requires Runs(EMPTY, steps, t)
    ensures forall id :: id in t.sessions ==> t.clock < t.sessions[id].expiresAt
    ensures forall h :: h in t.refresh ==> t.clock < t.refresh[h].expiresAt
  {
    RunInTheFuture(EMPTY, steps, t);
  }

  // Answers.

  /** Client c finishes its lookup in state u and is answered with the session as it is stored there. */
  ghost predicate AnsweredAt(u: State, step: Step, answer: LookupResult) {
    && step.DoLookupFinish? && Enabled(u, step)
    && answer.hash == u.clients[step.c].hash && u.clients[step.c].id in u.sessions
    && answer.session == u.sessions[u.clients[step.c].id].value
  }

  /** Every answer of a run was given at a second GET, with the session that was stored at that moment. */
  lemma {:induction false} EveryAnswerIsStored(s: State, steps: seq<Step>, t: State, k: nat) returns (i: nat, u: State)
    requires Runs(s, steps, t) && |s.answers| <= k < |t.answers|
    ensures i < |steps| && Runs(s, steps[..i], u) && |u.answers| == k && AnsweredAt(u, steps[i], t.answers[k])
    decreases |steps|
  {
    var next := Do(s, steps[0]);
    if |next.answers| <= k {
      i, u := EveryAnswerIsStored(next, steps[1..], t, k);
      i := i + 1;
      assert steps[..i][0] == steps[0] && steps[..i][1..] == steps[1..][..i - 1];
    } else {
      AnswersStay(next, steps[1..], t);
      i, u := 0, s;
    }
  }

  lemma {:induction false} AnswersStay(s: State, steps: seq<Step>, t: State)
    requires Runs(s, steps, t)
    ensures s.answers <= t.answers
    decreases |steps|
  {
    if steps != [] { AnswersStay(Do(s, steps[0]), steps[1..], t); }
  }

  // Undisturbed clients.

  /** Two GETs with nothing in between find what the specification finds, and no more. */
  lemma UndisturbedLookup(s: State, c: int, hash: string, v: Session)
    requires Enabled(s, DoLookupGet(c, hash))
    ensures var u := Do(s, DoLookupGet(c, hash));
      Lookup(Abs(s), AbsIndex(s), hash) == Some(v) <==>
        Enabled(u, DoLookupFinish(c)) && Do(u, DoLookupFinish(c)).answers == s.answers + [Answer(hash, v)]
  {
    var u := Do(s, DoLookupGet(c, hash));
    if Enabled(u, DoLookupFinish(c)) && Do(u, DoLookupFinish(c)).answers == s.answers + [Answer(hash, v)] {
      assert Do(u, DoLookupFinish(c)).answers[|s.answers|] == Answer(hash, v);
    }
  }

  /**
   A rotation with nothing in between goes through exactly when the specification's does, and has its effect; a refused
   one changes neither sessions nor keys.
   */
  lemma UndisturbedRotation(steps: seq<Step>, s: State, c: int, a: RotateArgs, ttl: int)
    requires Runs(EMPTY, steps, s) && Enabled(s, DoWatch(c, a)) && ttl > 0
    ensures var u := Do(Do(s, DoWatch(c, a)), DoGet(c, false));
      && (Enabled(u, DoExec(c, ttl)) <==> a.id in Abs(s) && Abs(s)[a.id].refreshTokenHash == a.current)
      && (Enabled(u, DoExec(c, ttl)) ==> Abs(Do(u, DoExec(c, ttl))) == Exec(Abs(s), Rotate(a)))
      && Abs(u) == Abs(s) && AbsIndex(u) == AbsIndex(s)
  {
    Reachable(steps, s);
    var w := Do(s, DoWatch(c, a));
    var u := Do(w, DoGet(c, false));
    StepInv(s, DoWatch(c, a));
    StepInv(w, DoGet(c, false));
    if Enabled(u, DoExec(c, ttl)) {
      SuccessfulRotateIsAtomic(u, DoExec(c, ttl));
      assert Abs(u) == Abs(s);
    }
  }

  /** A deletion with nothing in between takes the session and its key. */
  lemma UndisturbedDelete(steps: seq<Step>, s: State, c: int, id: string)
    requires Runs(EMPTY, steps, s) && Enabled(s, DoDeleteGet(c, id)) && id in s.sessions
    ensures var u := Do(s, DoDeleteGet(c, id));
      && Enabled(u, DoDeleteExec(c))
      && Abs(Do(u, DoDeleteExec(c))) == Abs(s) - {id}
      && AbsIndex(Do(u, DoDeleteExec(c))) == AbsIndex(s) - {s.sessions[id].value.refreshTokenHash}
  {
    Reachable(steps, s);
    assert SessionOk(s, id);
  }
}
