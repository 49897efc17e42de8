/**
 The in-memory store (gateway/internal/auth/session_store.go): heap objects behind a map, cloned on the way in and
 out.
 */
module SessionMemory {
  import opened Prelude
  import opened SessionSpec

  /** A `*Session`: an object whose fields are assigned in place. */
  class SessionObject {
    var value: Session

    constructor (value: Session)
      ensures this.value == value
    {
      this.value := value;
    }
  }

  datatype Answer = Found(session: SessionObject) | Missing | Clash

  class MemorySessionStore {
    var sessions: map<string, SessionObject>
    var refreshIndex: map<string, string>

    /** No two ids share an object. */
    ghost predicate Valid()
      reads this
    {
      forall a, b :: a in sessions && b in sessions && a != b ==> sessions[a] != sessions[b]
    }

    ghost function View(): Sessions
      reads this, sessions.Values
    {
      map id | id in sessions :: sessions[id].value
    }

    constructor ()
      ensures Valid() && sessions == map[] && View() == map[] && refreshIndex == map[]
    {
      sessions, refreshIndex := map[], map[];
    }

    /** `nil` is refused; otherwise a clone is stored. */
    method Save(session: SessionObject?) returns (failed: bool)
      requires Valid()
      modifies this
      ensures Valid()
      ensures forall o :: o in sessions.Values ==> o in old(sessions.Values) || fresh(o)
      ensures failed == (session == null)
      ensures failed ==> View() == old(View()) && refreshIndex == old(refreshIndex)
      ensures !failed ==>
        && View() == Exec(old(View()), SessionSpec.Save(session.value))
        && refreshIndex == ExecIndex(old(View()), old(refreshIndex), SessionSpec.Save(session.value))
      ensures !failed ==>
        && View() == old(View())[session.value.sessionId := session.value]
        && refreshIndex ==
          if session.value.refreshTokenHash == "" then old(refreshIndex)
          else old(refreshIndex)[session.value.refreshTokenHash := session.value.sessionId]
    {
      if session == null {
        return true;
      }
      var cloned := new SessionObject(session.value);
      ghost var before := sessions;
      sessions := sessions[session.value.sessionId := cloned];
      assert sessions[session.value.sessionId] == cloned;
      assert forall id :: id in sessions && id != session.value.sessionId ==>
          id in before && sessions[id] == before[id] && before[id] in before.Values;
      if session.value.refreshTokenHash != "" {
        refreshIndex := refreshIndex[session.value.refreshTokenHash := session.value.sessionId];
      }
      failed := false;
    }

    method Get(sessionId: string) returns (r: Answer)
      requires Valid()
      ensures r.Found? <==> sessionId in View()
      ensures !r.Clash?
      ensures r.Found? ==> fresh(r.session) && r.session !in sessions.Values && r.session.value == View()[sessionId]
    {
      if sessionId !in sessions {
        return Missing;
      }
      var cloned := new SessionObject(sessions[sessionId].value);
      r := Found(cloned);
    }

    method GetByRefreshTokenHash(hash: string) returns (r: Answer)
      requires Valid()
      ensures !r.Clash?
      ensures r.Found? <==> Lookup(View(), refreshIndex, hash).Some?
      ensures r.Found? ==>
        fresh(r.session) && r.session !in sessions.Values && Lookup(View(), refreshIndex, hash) == Some(r.session.value)
      ensures r.Found? <==> hash in refreshIndex && refreshIndex[hash] in View()
      ensures r.Found? ==> r.session.value == View()[refreshIndex[hash]]
    {
      if hash !in refreshIndex {
        return Missing;
      }
      var sessionId := refreshIndex[hash];
      if sessionId !in sessions {
        return Missing;
      }
      var cloned := new SessionObject(sessions[sessionId].value);
      r := Found(cloned);
    }

    method Rotate(a: RotateArgs) returns (r: Answer)
      requires Valid()
      modifies this, sessions.Values
      ensures Valid() && sessions == old(sessions)
      ensures View() == Exec(old(View()), SessionSpec.Rotate(a))
      ensures refreshIndex == ExecIndex(old(View()), old(refreshIndex), SessionSpec.Rotate(a))
      ensures match RotateReply(old(View()), a)
        case Rotated(s) => r.Found? && fresh(r.session) && r.session !in sessions.Values && r.session.value == s
        case NotFound => r == Missing
        case Conflict => r == Clash
        case Ok => false
      ensures r.Found? <==> a.id in old(View()) && old(View())[a.id].refreshTokenHash == a.current
      ensures r.Missing? <==> a.id !in old(View())
      ensures r.Found? ==>
        && View() == old(View())[a.id := r.session.value]
        && refreshIndex == (old(refreshIndex) - {a.current})[a.next := a.id]
      ensures r.Found? ==> var was, now := old(View())[a.id], r.session.value;
        && now.refreshTokenHash == a.next && now.expiresAt == a.expiresAt && now.updatedAt == a.updatedAt
        && now.username == (if a.username == "" then was.username else a.username)
        && now.role == (if a.role == "" then was.role else a.role)
        && now.sessionId == was.sessionId && now.userId == was.userId && now.deviceId == was.deviceId
        && now.userAgent == was.userAgent && now.ip == was.ip && now.createdAt == was.createdAt
      ensures !r.Found? ==> View() == old(View()) && refreshIndex == old(refreshIndex)
    {
      if a.id !in sessions {
        return Missing;
      }
      var session := sessions[a.id];
      if session.value.refreshTokenHash != a.current {
        return Clash;
      }
      refreshIndex := refreshIndex - {a.current};
      assert session in sessions.Values;
      session.value := session.value.(refreshTokenHash := a.next);
      session.value := session.value.(expiresAt := a.expiresAt);
      session.value := session.value.(updatedAt := a.updatedAt);
      if a.username != "" {
        session.value := session.value.(username := a.username);
      }
      if a.role != "" {
        session.value := session.value.(role := a.role);
      }
      refreshIndex := refreshIndex[a.next := a.id];
      assert session.value == Renew(old(session.value), a);
      var cloned := new SessionObject(session.value);
      r := Found(cloned);
    }

    method Delete(sessionId: string)
      requires Valid()
      modifies this
      ensures Valid() && forall id :: id in sessions ==> id in old(sessions) && sessions[id] == old(sessions)[id]
      ensures View() == Exec(old(View()), SessionSpec.Delete(sessionId))
      ensures refreshIndex == ExecIndex(old(View()), old(refreshIndex), SessionSpec.Delete(sessionId))
      ensures View() == old(View()) - {sessionId}
      ensures refreshIndex ==
        if sessionId in old(View()) then old(refreshIndex) - ({old(View())[sessionId].refreshTokenHash} - {""})
        else old(refreshIndex)
    {
      if sessionId in sessions && sessions[sessionId].value.refreshTokenHash != "" {
        refreshIndex := refreshIndex - {sessions[sessionId].value.refreshTokenHash};
      }
      sessions := sessions - {sessionId};
    }

    /** One call with the arguments of an operation, and whether it was a rotation that succeeded. */
    method Apply(op: Op) returns (rotated: bool)
      requires Valid() && !op.Expire?
      modifies this, sessions.Values
      ensures Valid() && forall o :: o in sessions.Values ==> o in old(sessions.Values) || fresh(o)
      ensures View() == Exec(old(View()), op) && refreshIndex == ExecIndex(old(View()), old(refreshIndex), op)
      ensures rotated <==> op.Rotate? && RotateReply(old(View()), op.args).Rotated?
    {
      rotated := false;
      match op {
        case Save(session) =>
          var own := new SessionObject(session);
          var failed := Save(own);
        case Rotate(args) =>
          var answer := Rotate(args);
          rotated := answer.Found?;
        case Delete(id) => Delete(id);
      }
    }
  }

  predicate SameCurrent(a: Op, b: Op) {
    a.Rotate? && b.Rotate? && a.args.current == b.args.current
  }

  /** Any sequence of calls on a new store: its state is the specification's, and so is which rotations succeed. */
  method Play(ops: seq<Op>) returns (store: MemorySessionStore, rotated: seq<bool>)
    requires forall k :: 0 <= k < |ops| ==> !ops[k].Expire?
    ensures fresh(store) && store.Valid() && store.View() == After(ops) && store.refreshIndex == IndexAfter(ops)
    ensures |rotated| == |ops| && forall k :: 0 <= k < |ops| ==> (rotated[k] <==> Succeeds(ops, k))
    ensures AllSafe(ops) ==> Agrees(store.View(), store.refreshIndex)
    ensures FreshHashes(ops) ==> forall i, j :: 0 <= i < j < |ops| && SameCurrent(ops[i], ops[j]) ==>
      !(rotated[i] && rotated[j])
  {
    store := new MemorySessionStore();
    rotated := [];
    for k := 0 to |ops|
      invariant fresh(store) && store.Valid() && forall o :: o in store.sessions.Values ==> fresh(o)
      invariant store.View() == After(ops[..k]) && store.refreshIndex == IndexAfter(ops[..k])
      invariant |rotated| == k && forall i :: 0 <= i < k ==> (rotated[i] <==> Succeeds(ops, i))
    {
      assert ops[..k + 1][..k] == ops[..k];
      var ok := store.Apply(ops[k]);
      rotated := rotated + [ok];
    }
    assert ops[..|ops|] == ops;
    if AllSafe(ops) { IndexAgreesAfterAnyRun(ops); }
    if FreshHashes(ops) {
      forall i, j | 0 <= i < j < |ops| && SameCurrent(ops[i], ops[j]) ensures !(rotated[i] && rotated[j]) {
        if rotated[i] && rotated[j] { SingleUse(ops, i, j); }
      }
    }
  }

  /** A caller that overwrites an object it saved or was handed does not reach the store. */
  method OverwriteOwnObject(store: MemorySessionStore, o: SessionObject, value: Session)
    requires store.Valid() && o !in store.sessions.Values
    modifies o
    ensures store.Valid() && store.View() == old(store.View()) && store.refreshIndex == old(store.refreshIndex)
    ensures o.value == value
  {
    o.value := value;
    assert forall id :: id in store.sessions ==> store.sessions[id] in store.sessions.Values;
  }
}
