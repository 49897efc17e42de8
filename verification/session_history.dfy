/**
 What a session holds after a run, told from the operations alone: which of them it owes each of its fields to
 (gateway/internal/auth/session_store.go:269-297).
 */
module SessionHistory {
  import opened SessionSpec

  predicate Saves(op: Op, id: string) {
    op.Save? && op.session.sessionId == id
  }

  predicate Removes(op: Op, id: string) {
    (op.Delete? && op.id == id) || (op.Expire? && id in op.ids)
  }

  /** Operation k rotates session id: the session is live and carries the hash that is presented. */
  ghost predicate Rotates(ops: seq<Op>, k: nat, id: string)
    requires k < |ops|
  {
    && ops[k].Rotate? && ops[k].args.id == id
    && id in After(ops[..k]) && After(ops[..k])[id].refreshTokenHash == ops[k].args.current
  }

  /** Operation s is the save that session id goes back to. */
  ghost predicate LastSave(ops: seq<Op>, n: nat, id: string, s: nat)
    requires n <= |ops|
  {
    s < n && Saves(ops[s], id) && forall k :: s < k < n ==> !Saves(ops[k], id) && !Removes(ops[k], id)
  }

  /** From s on, operation w is the last that wrote the session. */
  ghost predicate LastWrite(ops: seq<Op>, n: nat, id: string, s: nat, w: nat)
    requires n <= |ops|
  {
    s <= w < n && (w == s || Rotates(ops, w, id)) && forall k :: w < k < n ==> !Rotates(ops, k, id)
  }

  /** From s on, operation u is the last that gave a user name; a rotation gives one unless it is empty. */
  ghost predicate LastNaming(ops: seq<Op>, n: nat, id: string, s: nat, u: nat)
    requires n <= |ops|
  {
    && s <= u < n && (u == s || (Rotates(ops, u, id) && ops[u].args.username != ""))
    && forall k :: u < k < n && Rotates(ops, k, id) ==> ops[k].args.username == ""
  }

  ghost predicate LastCasting(ops: seq<Op>, n: nat, id: string, s: nat, r: nat)
    requires n <= |ops|
  {
    && s <= r < n && (r == s || (Rotates(ops, r, id) && ops[r].args.role != ""))
    && forall k :: r < k < n && Rotates(ops, k, id) ==> ops[k].args.role == ""
  }

  /** What v owes to its save s and to its last write w. */
  ghost predicate Owes(ops: seq<Op>, v: Session, s: nat, w: nat, u: nat, r: nat)
    requires s <= w < |ops| && s <= u < |ops| && s <= r < |ops| && ops[s].Save?
    requires (w == s || ops[w].Rotate?) && (u == s || ops[u].Rotate?) && (r == s || ops[r].Rotate?)
  {
    var saved := ops[s].session;
    && v.sessionId == saved.sessionId && v.userId == saved.userId && v.deviceId == saved.deviceId
    && v.userAgent == saved.userAgent && v.ip == saved.ip && v.createdAt == saved.createdAt
    && v.refreshTokenHash == (if w == s then saved.refreshTokenHash else ops[w].args.next)
    && v.expiresAt == (if w == s then saved.expiresAt else ops[w].args.expiresAt)
    && v.updatedAt == (if w == s then saved.updatedAt else ops[w].args.updatedAt)
    && v.username == (if u == s then saved.username else ops[u].args.username)
    && v.role == (if r == s then saved.role else ops[r].args.role)
  }

  /** What one operation other than a save leaves in a session it does not remove. */
  lemma OneMoreOperation(m: Sessions, op: Op, id: string)
    requires id in Exec(m, op) && !Saves(op, id)
    ensures id in m && !Removes(op, id)
    ensures !(op.Rotate? && op.args.id == id && m[id].refreshTokenHash == op.args.current) ==> Exec(m, op)[id] == m[id]
    ensures op.Rotate? && op.args.id == id && m[id].refreshTokenHash == op.args.current ==>
      Rewritten(m[id], op.args, Exec(m, op)[id])
  {
  }

  ghost predicate Rewritten(was: Session, a: RotateArgs, v: Session) {
    && v.sessionId == was.sessionId && v.userId == was.userId && v.deviceId == was.deviceId
    && v.userAgent == was.userAgent && v.ip == was.ip && v.createdAt == was.createdAt
    && v.refreshTokenHash == a.next && v.expiresAt == a.expiresAt && v.updatedAt == a.updatedAt
    && v.username == (if a.username == "" then was.username else a.username)
    && v.role == (if a.role == "" then was.role else a.role)
  }

  ghost predicate Told(ops: seq<Op>, n: nat, id: string, v: Session, s: nat, w: nat, u: nat, r: nat)
    requires n <= |ops|
  {
    && LastSave(ops, n, id, s) && LastWrite(ops, n, id, s, w)
    && LastNaming(ops, n, id, s, u) && LastCasting(ops, n, id, s, r)
    && Owes(ops, v, s, w, u, r)
  }

  /**
   Every field of a live session comes from one operation of the run: hash and times from the last that wrote it, user
   name and role from the last that gave one, the rest from the last save.
   */
  lemma {:induction false} SessionIsItsHistory(ops: seq<Op>, n: nat, id: string) returns (s: nat, w: nat, u: nat, r: nat)
    requires n <= |ops| && id in After(ops[..n])
    ensures Told(ops, n, id, After(ops[..n])[id], s, w, u, r)
    decreases n
  {
    var k := n - 1;
    AfterNext(ops, k);
    if Saves(ops[k], id) {
      s, w, u, r := k, k, k, k;
    } else {
      OneMoreOperation(After(ops[..k]), ops[k], id);
      s, w, u, r := SessionIsItsHistory(ops, k, id);
      s, w, u, r := HistoryGrows(ops, k, id, s, w, u, r, After(ops[..k])[id], After(ops[..n])[id]);
    }
  }

  lemma HistoryGrows(ops: seq<Op>, k: nat, id: string, s: nat, w: nat, u: nat, r: nat, was: Session, v: Session)
    returns (s': nat, w': nat, u': nat, r': nat)
    requires k < |ops| && Told(ops, k, id, was, s, w, u, r) && !Saves(ops[k], id) && !Removes(ops[k], id)
    requires if Rotates(ops, k, id) then Rewritten(was, ops[k].args, v) else v == was
    ensures Told(ops, k + 1, id, v, s', w', u', r')
  {
    s', w', u', r' := s, w, u, r;
    if Rotates(ops, k, id) {
      w' := k;
      if ops[k].args.username != "" { u' := k; }
      if ops[k].args.role != "" { r' := k; }
    }
  }

  /** A session is live exactly from a save on until it is removed. */
  lemma {:induction false} LiveFromSaveToRemoval(ops: seq<Op>, n: nat, id: string)
    requires n <= |ops|
    ensures id in After(ops[..n]) <==> exists s :: LastSave(ops, n, id, s)
    decreases n
  {
    if n > 0 {
      var k := n - 1;
      AfterNext(ops, k);
      LiveFromSaveToRemoval(ops, k, id);
      if Saves(ops[k], id) {
        assert LastSave(ops, n, id, k);
      } else if id in After(ops[..n]) {
        var s :| LastSave(ops, k, id, s);
        assert LastSave(ops, n, id, s);
      } else if s :| LastSave(ops, n, id, s) {
        assert LastSave(ops, k, id, s);
      }
    }
  }
}
