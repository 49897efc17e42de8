/**
 What single clients of the Redis store see across interleavings: a rotation refused at its EXEC, and a lookup made of two
 GETs.
 */
module SessionClients {
  import opened Prelude
  import opened SessionSpec
  import opened SessionRedis

  // A rotation refused at its EXEC.

  /** A pending rotation presents a hash that has been handed out; if it is dirty, its session no longer carries it. */
  ghost predicate Presents(s: State, c: int) {
    Pending(s, c) ==>
      var client := s.clients[c];
      && client.args.current in Issued(s.log)
      && (client.dirty ==> !Carries(s, client.args.id, client.args.current))
  }

  predicate Carries(s: State, id: string, hash: string) {
    id in s.sessions && s.sessions[id].value.refreshTokenHash == hash
  }

  /** Rotations begin with a hash that has been handed out. */
  ghost predicate Honest(s: State, step: Step) {
    step.DoWatch? ==> step.args.current in Issued(s.log)
  }

  /** A write marks a pending rotation only by taking the presented hash from its session. */
  lemma WriteDirties(s: State, t: State, c: int, ids: set<string>, hashes: set<string>)
    requires Presents(s, c) && Pending(s, c) && c in t.clients && t.clients[c] == Touch(s.clients, ids, hashes)[c]
    requires Issued(s.log) <= Issued(t.log)
    requires var a := s.clients[c].args;
      && (Carries(t, a.id, a.current) ==> Carries(s, a.id, a.current))
      && (a.id in ids || a.current in hashes ==> !Carries(t, a.id, a.current))
    ensures Presents(t, c)
  {
  }

  lemma SavePresents(s: State, step: Step, c: int)
    requires Inv(s) && Enabled(s, step) && step.DoSave? && Presents(s, c)
    ensures Presents(Do(s, step), c)
  {
    var t := Do(s, step);
    SaveLogged(s, step);
    if Pending(t, c) {
      assert ClientOk(s, c);
      var a := s.clients[c].args;
      assert a.id != step.session.sessionId && a.current != step.session.refreshTokenHash;
      WriteDirties(s, t, c, {step.session.sessionId}, {step.session.refreshTokenHash});
    }
  }

  lemma RotationPresents(s: State, step: Step, c: int)
    requires Inv(s) && Enabled(s, step) && step.DoExec? && !s.clients[step.c].dirty && Presents(s, c)
    ensures Presents(Do(s, step), c)
  {
    var t := Do(s, step);
    var b := s.clients[step.c].args;
    RotationLogged(s, step);
    if Pending(t, c) {
      assert ClientOk(s, c) && ClientOk(s, step.c) && SessionOk(s, b.id);
      var a := s.clients[c].args;
      assert a.current != b.next;
      assert a.current == b.current && a.id in s.sessions && s.sessions[a.id].value.refreshTokenHash == a.current ==>
        a.id == b.id by {
        assert a.id in s.sessions ==> SessionOk(s, a.id);
      }
      WriteDirties(s, t, c, {b.id}, {b.next} + (if b.current in s.refresh then {b.current} else {}));
    }
  }

  lemma DeletePresents(s: State, step: Step, c: int)
    requires Inv(s) && Enabled(s, step) && step.DoDeleteExec? && Presents(s, c)
    ensures Presents(Do(s, step), c)
  {
    var t := Do(s, step);
    var id, hash := s.clients[step.c].id, s.clients[step.c].hash;
    var hashes := if hash != "" then {hash} else {};
    DeleteLogged(s, step);
    if Pending(t, c) {
      assert ClientOk(s, c) && ClientOk(s, step.c);
      var a := s.clients[c].args;
      assert a.id in s.sessions ==> SessionOk(s, a.id);
      WriteDirties(s, t, c, {id} * s.sessions.Keys, hashes * s.refresh.Keys);
    }
  }

  lemma TickPresents(s: State, step: Step, c: int)
    requires Inv(s) && Enabled(s, step) && step.DoTick? && Presents(s, c)
    ensures Presents(Do(s, step), c)
  {
    var t := Do(s, step);
    var ids, hashes := ExpiredIds(s, step.clock), ExpiredHashes(s, step.clock);
    LogNext(s.log, Expire(ids));
    if Pending(t, c) {
      var a := s.clients[c].args;
      assert a.id in s.sessions ==> SessionOk(s, a.id);
      WriteDirties(s, t, c, ids, hashes);
    }
  }

  lemma StepPresents(s: State, step: Step, c: int)
    requires Inv(s) && Enabled(s, step) && Honest(s, step) && Presents(s, c)
    ensures Presents(Do(s, step), c)
  {
    match step {
      case DoSave(_, _) => SavePresents(s, step, c);
      case DoExec(_, _) => if !s.clients[step.c].dirty { RotationPresents(s, step, c); }
      case DoDeleteExec(_) => DeletePresents(s, step, c);
      case DoTick(_) => TickPresents(s, step, c);
      case _ =>
    }
  }

  /** Every rotation of a run begins with a hash that has been handed out. */
  ghost predicate HonestRun(s: State, steps: seq<Step>)
    decreases |steps|
  {
    steps == [] || (Enabled(s, steps[0]) ==> Honest(s, steps[0]) && HonestRun(Do(s, steps[0]), steps[1..]))
  }

  lemma {:induction false} RunPresents(s: State, steps: seq<Step>, t: State, c: int)
    requires Inv(s) && Presents(s, c) && Runs(s, steps, t) && HonestRun(s, steps)
    ensures Presents(t, c)
    decreases |steps|
  {
    if steps != [] {
      StepInv(s, steps[0]);
      StepPresents(s, steps[0], c);
      RunPresents(Do(s, steps[0]), steps[1..], t, c);
    }
  }

  /** A rotation refused at its EXEC is one the specification would refuse at that instant, and it changes nothing. */
  lemma FailedExecIsAtomic(steps: seq<Step>, s: State, step: Step)
    requires Runs(EMPTY, steps, s) && HonestRun(EMPTY, steps)
    requires Enabled(s, step) && step.DoExec? && s.clients[step.c].dirty
    ensures var t, a := Do(s, step), s.clients[step.c].args;
      && !RotateReply(Abs(s), a).Rotated?
      && Abs(t) == Exec(Abs(s), Rotate(a)) == Abs(s) && AbsIndex(t) == AbsIndex(s)
  {
    EmptyInv();
    RunPresents(EMPTY, steps, s, step.c);
    var a := s.clients[step.c].args;
    assert !Carries(s, a.id, a.current);
  }

  ghost predicate EarlyHash(session: Session, mine: RotateArgs, early: RotateArgs) {
    && session.refreshTokenHash != "" && session.sessionId == mine.id == early.id
    && mine.current == session.refreshTokenHash && early.current == mine.next
    && mine.next != "" && early.next != ""
    && session.refreshTokenHash != mine.next && mine.next != early.next && session.refreshTokenHash != early.next
  }

  lemma TwoWatch(session: Session, mine: RotateArgs, early: RotateArgs, ttl: int) returns (steps: seq<Step>, s: State)
    requires ttl > 0 && EarlyHash(session, mine, early)
    ensures Runs(EMPTY, steps, s) && s.clients == map[1 := Watching(mine, false), 2 := Watching(early, false)]
    ensures mine.id in s.sessions && s.sessions[mine.id].value == session
  {
    var run := [DoSave(session, ttl), DoWatch(1, mine), DoWatch(2, early)];
    steps, s := [], EMPTY;
    RunsSnoc(EMPTY, steps, s, run[0]);
    steps, s := steps + [run[0]], Do(s, run[0]);
    assert session.refreshTokenHash in s.issued && s.issued[session.refreshTokenHash] == session.sessionId;
    RunsSnoc(EMPTY, steps, s, run[1]);
    steps, s := steps + [run[1]], Do(s, run[1]);
    assert s.issued[mine.next] == mine.id;
    RunsSnoc(EMPTY, steps, s, run[2]);
    steps, s := steps + [run[2]], Do(s, run[2]);
  }

  /**
   Without the honest start the refusal may be spurious: a client that presents a hash before the rotation that hands it
   out has executed is marked by that very rotation.
   */
  lemma EarlyHashConflicts(session: Session, mine: RotateArgs, early: RotateArgs, ttl: int)
    returns (steps: seq<Step>, s: State)
    requires ttl > 0 && EarlyHash(session, mine, early)
    ensures Runs(EMPTY, steps, s) && Enabled(s, DoExec(2, ttl))
    ensures s.clients[2].Rotating? && s.clients[2].dirty && RotateReply(Abs(s), s.clients[2].args).Rotated?
  {
    steps, s := TwoWatch(session, mine, early, ttl);
    var run := [DoGet(1, false), DoExec(1, ttl), DoGet(2, false)];
    RunsSnoc(EMPTY, steps, s, run[0]);
    steps, s := steps + [run[0]], Do(s, run[0]);
    RunsSnoc(EMPTY, steps, s, run[1]);
    steps, s := steps + [run[1]], Do(s, run[1]);
    RunsSnoc(EMPTY, steps, s, run[2]);
    steps, s := steps + [run[2]], Do(s, run[2]);
  }

  // A lookup made of two GETs.

  lemma StepKeepsGone(s: State, step: Step, id: string)
    requires Inv(s) && Enabled(s, step) && id in s.issued.Values && id !in s.sessions
    ensures id in Do(s, step).issued.Values && id !in Do(s, step).sessions
  {
    if step.DoSave? { ValuesGrow(s.issued, step.session.refreshTokenHash, step.session.sessionId); }
    if step.DoWatch? { ValuesGrow(s.issued, step.args.next, step.args.id); }
    if step.DoExec? { assert ClientOk(s, step.c); }
  }

  /** A session that is gone does not return. */
  lemma {:induction false} GoneStaysGone(s: State, steps: seq<Step>, t: State, id: string)
    requires Inv(s) && Runs(s, steps, t) && id in s.issued.Values && id !in s.sessions
    ensures id !in t.sessions
    decreases |steps|
  {
    if steps != [] {
      StepInv(s, steps[0]);
      StepKeepsGone(s, steps[0], id);
      GoneStaysGone(Do(s, steps[0]), steps[1..], t, id);
    }
  }

  lemma {:induction false} IssuedForGood(s: State, steps: seq<Step>, t: State, hash: string)
    requires Runs(s, steps, t) && hash in s.issued
    ensures hash in t.issued && t.issued[hash] == s.issued[hash]
    decreases |steps|
  {
    if steps != [] { IssuedForGood(Do(s, steps[0]), steps[1..], t, hash); }
  }

  /**
   A lookup whose first GET found its key in state s and whose second GET finds a session in state t: that session was live
   and carried the hash at the first GET, so the specification's lookup would have found it there.
   */
  lemma TwoGetsAnswerForTheFirst(before: seq<Step>, s: State, c: int, hash: string, after: seq<Step>, t: State)
    requires Runs(EMPTY, before, s) && Enabled(s, DoLookupGet(c, hash)) && hash in s.refresh
    requires Runs(Do(s, DoLookupGet(c, hash)), after, t)
    requires c in t.clients && t.clients[c].LookingUp? && t.clients[c].hash == hash && t.clients[c].id in t.sessions
    ensures Carries(s, t.clients[c].id, hash)
    ensures Lookup(Abs(s), AbsIndex(s), hash) == Some(s.sessions[t.clients[c].id].value)
  {
    var first, id := Do(s, DoLookupGet(c, hash)), t.clients[c].id;
    NeverSomebodyElsesSession(before, s);
    Reachable(before, s);
    StepInv(s, DoLookupGet(c, hash));
    RunInv(first, after, t);
    IssuedForGood(first, after, t, hash);
    assert ClientOk(t, c);
    assert s.issued[hash] == id && id in s.issued.Values;
    if id !in s.sessions {
      GoneStaysGone(first, after, t, id);
    }
  }

  /** A lookup whose first GET comes after the rotation that replaced its hash is never answered. */
  lemma LookupAfterRotationFails(before: seq<Step>, s: State, i: nat, c: int, after: seq<Step>, t: State)
    requires Runs(EMPTY, before, s) && i < |s.log| && Succeeds(s.log, i)
    requires var hash := s.log[i].args.current;
      && Enabled(s, DoLookupGet(c, hash)) && Runs(Do(s, DoLookupGet(c, hash)), after, t)
      && c in t.clients && t.clients[c].LookingUp? && t.clients[c].hash == hash && hash in s.refresh
    ensures t.clients[c].id !in t.sessions
  {
    var hash := s.log[i].args.current;
    SpentHashNeverResolves(before, s, i);
    if t.clients[c].id in t.sessions {
      TwoGetsAnswerForTheFirst(before, s, c, hash, after, t);
    }
  }
}
