/**
 Refresh-token sessions as one atomic specification (gateway/internal/auth/session_store.go):
 a map from session id to session, and the secondary index from refresh-token hash to session id.
 Both stores of the source are related to it.
 */
module SessionSpec {
  import opened Prelude

  datatype Session = Session(
    sessionId: string, userId: int, username: string, role: string, refreshTokenHash: string,
    expiresAt: int, deviceId: string, userAgent: string, ip: string, createdAt: int, updatedAt: int)

  type Sessions = map<string, Session>
  type Index = map<string, string>

  datatype RotateArgs = RotateArgs(
    id: string, current: string, next: string, expiresAt: int, updatedAt: int, username: string, role: string)

  /** `Expire` is the key expiry of the Redis store; the in-memory store never does it. */
  datatype Op = Save(session: Session) | Rotate(args: RotateArgs) | Delete(id: string) | Expire(ids: set<string>)

  datatype Reply = Ok | Rotated(session: Session) | NotFound | Conflict

  function Renew(s: Session, a: RotateArgs): Session {
    s.(refreshTokenHash := a.next, expiresAt := a.expiresAt, updatedAt := a.updatedAt,
       username := if a.username != "" then a.username else s.username,
       role := if a.role != "" then a.role else s.role)
  }

  function RotateReply(m: Sessions, a: RotateArgs): Reply {
    if a.id !in m then NotFound
    else if m[a.id].refreshTokenHash != a.current then Conflict
    else Rotated(Renew(m[a.id], a))
  }

  /** The effect of an operation on the sessions. */
  function Exec(m: Sessions, op: Op): Sessions {
    match op
    case Save(s) => m[s.sessionId := s]
    case Rotate(a) => if RotateReply(m, a).Rotated? then m[a.id := Renew(m[a.id], a)] else m
    case Delete(id) => m - {id}
    case Expire(ids) => m - ids
  }

  /** The effect of an operation on the secondary index, given the sessions before it. */
  function ExecIndex(m: Sessions, index: Index, op: Op): Index {
    match op
    case Save(s) => if s.refreshTokenHash != "" then index[s.refreshTokenHash := s.sessionId] else index
    case Rotate(a) => if RotateReply(m, a).Rotated? then (index - {a.current})[a.next := a.id] else index
    case Delete(id) => if id in m && m[id].refreshTokenHash != "" then index - {m[id].refreshTokenHash} else index
    case Expire(ids) => index
  }

  function Lookup(m: Sessions, index: Index, hash: string): Option<Session> {
    if hash in index && index[hash] in m then Some(m[index[hash]]) else None
  }

  // The index agrees with the sessions.

  ghost predicate Agrees(m: Sessions, index: Index) {
    && (forall h :: h in index ==> h != "" && index[h] in m && m[index[h]].refreshTokenHash == h)
    && (forall id :: id in m && m[id].refreshTokenHash != "" ==>
          m[id].refreshTokenHash in index && index[m[id].refreshTokenHash] == id)
  }

  /** What a caller can check before an operation that must keep index and sessions in agreement. */
  predicate Safe(m: Sessions, index: Index, op: Op) {
    match op
    case Save(s) =>
      && (s.sessionId in m ==> m[s.sessionId].refreshTokenHash in {"", s.refreshTokenHash})
      && (s.refreshTokenHash in index ==> index[s.refreshTokenHash] == s.sessionId)
    case Rotate(a) => RotateReply(m, a).Rotated? ==> a.next != "" && (a.next in index ==> a.next == a.current)
    case Delete(_) => true
    case Expire(ids) => forall id :: id in ids && id in m ==> m[id].refreshTokenHash == ""
  }

  lemma SaveAgreesExactly(m: Sessions, index: Index, s: Session)
    requires Agrees(m, index)
    ensures Agrees(Exec(m, Save(s)), ExecIndex(m, index, Save(s))) <==> Safe(m, index, Save(s))
  {
    var m', index' := Exec(m, Save(s)), ExecIndex(m, index, Save(s));
    if s.sessionId in m && m[s.sessionId].refreshTokenHash != "" {
      var stale := m[s.sessionId].refreshTokenHash;
      assert stale in index';
    }
    if s.refreshTokenHash in index && index[s.refreshTokenHash] != s.sessionId {
      var other := index[s.refreshTokenHash];
      assert m'[other].refreshTokenHash == s.refreshTokenHash;
    }
  }

  lemma RotateAgreesExactly(m: Sessions, index: Index, a: RotateArgs)
    requires Agrees(m, index)
    ensures Agrees(Exec(m, Rotate(a)), ExecIndex(m, index, Rotate(a))) <==> Safe(m, index, Rotate(a))
  {
    var m', index' := Exec(m, Rotate(a)), ExecIndex(m, index, Rotate(a));
    if RotateReply(m, a).Rotated? {
      assert a.next in index';
      if a.next in index && a.next != a.current {
        var other := index[a.next];
        assert other != a.id && m'[other].refreshTokenHash == a.next;
      }
    }
  }

  lemma ExpireAgreesExactly(m: Sessions, index: Index, ids: set<string>)
    requires Agrees(m, index)
    ensures Agrees(Exec(m, Expire(ids)), index) <==> Safe(m, index, Expire(ids))
  {
    forall id | id in ids && id in m && m[id].refreshTokenHash != ""
      ensures m[id].refreshTokenHash in index && index[m[id].refreshTokenHash] !in Exec(m, Expire(ids))
    {
    }
  }

  /** An operation keeps the agreement exactly when it was safe. */
  lemma AgreementKeptExactly(m: Sessions, index: Index, op: Op)
    requires Agrees(m, index)
    ensures Agrees(Exec(m, op), ExecIndex(m, index, op)) <==> Safe(m, index, op)
  {
    match op {
      case Save(s) => SaveAgreesExactly(m, index, s);
      case Rotate(a) => RotateAgreesExactly(m, index, a);
      case Delete(_) =>
      case Expire(ids) => ExpireAgreesExactly(m, index, ids);
    }
  }

  /** Saving a session again under a new hash leaves the old hash resolving to a session that no longer carries it. */
  lemma ResavedSessionKeepsItsOldHash(s: Session, hash: string)
    requires s.refreshTokenHash != "" && hash != s.refreshTokenHash
    ensures var once := Exec(map[], Save(s));
      var index := ExecIndex(map[], map[], Save(s));
      var again := Save(s.(refreshTokenHash := hash));
      && Agrees(once, index)
      && Lookup(Exec(once, again), ExecIndex(once, index, again), s.refreshTokenHash) == Some(again.session)
      && !Agrees(Exec(once, again), ExecIndex(once, index, again))
  {
    var again := Save(s.(refreshTokenHash := hash));
    var once, index := Exec(map[], Save(s)), ExecIndex(map[], map[], Save(s));
    AgreementKeptExactly(once, index, again);
  }

  /** Under agreement, looking a hash up is scanning all sessions for it. */
  lemma LookupIsAScan(m: Sessions, index: Index, hash: string, s: Session)
    requires Agrees(m, index) && hash != ""
    ensures Lookup(m, index, hash) == Some(s) <==> exists id :: id in m && m[id] == s && s.refreshTokenHash == hash
  {
    if id :| id in m && m[id] == s && s.refreshTokenHash == hash {
      assert index[hash] == id;
    }
  }

  // Runs of the specification.

  ghost function After(ops: seq<Op>): Sessions {
    if ops == [] then map[] else Exec(After(ops[..|ops| - 1]), ops[|ops| - 1])
  }

  ghost function IndexAfter(ops: seq<Op>): Index {
    if ops == [] then map[]
    else
      var before := ops[..|ops| - 1];
      ExecIndex(After(before), IndexAfter(before), ops[|ops| - 1])
  }

  ghost predicate AllSafe(ops: seq<Op>) {
    forall k :: 0 <= k < |ops| ==> Safe(After(ops[..k]), IndexAfter(ops[..k]), ops[k])
  }

  /** After any sequence of safe operations the index is exactly the inverse of the sessions' hashes. */
  lemma {:induction false} IndexAgreesAfterAnyRun(ops: seq<Op>)
    requires AllSafe(ops)
    ensures Agrees(After(ops), IndexAfter(ops))
  {
    if ops != [] {
      var before := ops[..|ops| - 1];
      forall k | 0 <= k < |before| ensures ops[..k] == before[..k] { }
      assert AllSafe(before);
      IndexAgreesAfterAnyRun(before);
      AgreementKeptExactly(After(before), IndexAfter(before), ops[|ops| - 1]);
    }
  }

  function IssuedBy(op: Op): set<string> {
    match op
    case Save(s) => {s.refreshTokenHash}
    case Rotate(a) => {a.next}
    case Delete(_) => {}
    case Expire(_) => {}
  }

  ghost function Issued(ops: seq<Op>): set<string> {
    if ops == [] then {} else Issued(ops[..|ops| - 1]) + IssuedBy(ops[|ops| - 1])
  }

  ghost predicate FreshAt(ops: seq<Op>, k: nat)
    requires k < |ops|
  {
    IssuedBy(ops[k]) !! Issued(ops[..k])
  }

  /** No refresh-token hash is handed out twice. */
  ghost predicate FreshHashes(ops: seq<Op>) {
    forall k :: 0 <= k < |ops| ==> FreshAt(ops, k)
  }

  ghost predicate Succeeds(ops: seq<Op>, i: nat)
    requires i < |ops|
  {
    ops[i].Rotate? && RotateReply(After(ops[..i]), ops[i].args).Rotated?
  }

  lemma AfterNext(ops: seq<Op>, k: nat)
    requires k < |ops|
    ensures After(ops[..k + 1]) == Exec(After(ops[..k]), ops[k])
    ensures Issued(ops[..k + 1]) == Issued(ops[..k]) + IssuedBy(ops[k])
  {
    assert ops[..k + 1][..k] == ops[..k];
  }

  lemma {:induction false} IssuedGrows(ops: seq<Op>, i: nat, k: nat)
    requires i <= k <= |ops|
    ensures Issued(ops[..i]) <= Issued(ops[..k])
    decreases k
  {
    if i < k {
      IssuedGrows(ops, i, k - 1);
      AfterNext(ops, k - 1);
    }
  }

  /** Every session's hash was issued earlier, and no two sessions share one. */
  ghost predicate OneOrigin(m: Sessions, issued: set<string>) {
    && (forall id :: id in m ==> m[id].refreshTokenHash in issued)
    && (forall a, b :: a in m && b in m && a != b ==> m[a].refreshTokenHash != m[b].refreshTokenHash)
  }

  lemma OneOriginKept(m: Sessions, issued: set<string>, op: Op)
    requires OneOrigin(m, issued) && IssuedBy(op) !! issued
    ensures OneOrigin(Exec(m, op), issued + IssuedBy(op))
  {
  }

  lemma {:induction false} HashesHaveOneOrigin(ops: seq<Op>, k: nat)
    requires FreshHashes(ops) && k <= |ops|
    ensures OneOrigin(After(ops[..k]), Issued(ops[..k]))
  {
    if k > 0 {
      HashesHaveOneOrigin(ops, k - 1);
      AfterNext(ops, k - 1);
      assert FreshAt(ops, k - 1);
      OneOriginKept(After(ops[..k - 1]), Issued(ops[..k - 1]), ops[k - 1]);
    }
  }

  ghost predicate Absent(m: Sessions, hash: string) {
    forall id :: id in m ==> m[id].refreshTokenHash != hash
  }

  lemma RotationSpends(m: Sessions, issued: set<string>, a: RotateArgs)
    requires OneOrigin(m, issued) && a.next !in issued && RotateReply(m, a).Rotated?
    ensures a.current in issued && Absent(Exec(m, Rotate(a)), a.current)
  {
  }

  lemma AbsenceKept(m: Sessions, hash: string, op: Op)
    requires Absent(m, hash) && hash !in IssuedBy(op)
    ensures Absent(Exec(m, op), hash)
  {
  }

  lemma SpentAtOnce(ops: seq<Op>, i: nat)
    requires FreshHashes(ops) && i < |ops| && Succeeds(ops, i)
    ensures ops[i].args.current in Issued(ops[..i])
    ensures Absent(After(ops[..i + 1]), ops[i].args.current)
  {
    HashesHaveOneOrigin(ops, i);
    assert FreshAt(ops, i);
    RotationSpends(After(ops[..i]), Issued(ops[..i]), ops[i].args);
    AfterNext(ops, i);
  }

  /** Once a hash has been rotated away, no later state holds it. */
  lemma {:induction false} SpentHashNeverReturns(ops: seq<Op>, i: nat, k: nat, hash: string)
    requires FreshHashes(ops) && i < k <= |ops| && hash in Issued(ops[..i]) && Absent(After(ops[..i + 1]), hash)
    ensures Absent(After(ops[..k]), hash)
    decreases k
  {
    if k > i + 1 {
      SpentHashNeverReturns(ops, i, k - 1, hash);
      IssuedGrows(ops, i, k - 1);
      AfterNext(ops, k - 1);
      assert FreshAt(ops, k - 1);
      AbsenceKept(After(ops[..k - 1]), hash, ops[k - 1]);
    }
  }

  /** A refresh-token hash is the current hash of at most one successful rotation. */
  lemma SingleUse(ops: seq<Op>, i: nat, j: nat)
    requires FreshHashes(ops) && i < j < |ops| && Succeeds(ops, i) && Succeeds(ops, j)
    ensures ops[i].args.current != ops[j].args.current
  {
    SpentAtOnce(ops, i);
    SpentHashNeverReturns(ops, i, j, ops[i].args.current);
  }

  /** Between operations i and j nothing saved session `id` and nothing rotated it successfully. */
  ghost predicate Undisturbed(ops: seq<Op>, id: string, i: int, j: nat) {
    forall k :: i < k < j <= |ops| && 0 <= k ==>
      && !(ops[k].Save? && ops[k].session.sessionId == id)
      && !(ops[k].Rotate? && ops[k].args.id == id && Succeeds(ops, k))
  }

  lemma {:induction false} HashStaysUntilDisturbed(ops: seq<Op>, id: string, i: nat, k: nat)
    requires i < k <= |ops| && Undisturbed(ops, id, i, k)
    ensures id in After(ops[..k]) ==>
      id in After(ops[..i + 1]) && After(ops[..k])[id] == After(ops[..i + 1])[id]
    decreases k
  {
    if k > i + 1 {
      HashStaysUntilDisturbed(ops, id, i, k - 1);
      AfterNext(ops, k - 1);
    }
  }

  /** Successive successful rotations of a session form a chain: each presents the hash the previous one issued. */
  lemma RotationsChain(ops: seq<Op>, i: nat, j: nat)
    requires i < j < |ops| && Succeeds(ops, i) && Succeeds(ops, j)
    requires ops[i].args.id == ops[j].args.id && Undisturbed(ops, ops[i].args.id, i, j)
    ensures ops[j].args.current == ops[i].args.next
  {
    AfterNext(ops, i);
    HashStaysUntilDisturbed(ops, ops[i].args.id, i, j);
  }

  /** A deleted session stays deleted unless it is saved again: rotations never bring it back. */
  lemma {:induction false} DeletedStaysDeleted(ops: seq<Op>, i: nat, k: nat)
    requires i < k <= |ops| && ops[i].Delete?
    requires forall j :: i < j < k && ops[j].Save? ==> ops[j].session.sessionId != ops[i].id
    ensures ops[i].id !in After(ops[..k])
    decreases k
  {
    AfterNext(ops, k - 1);
    if k > i + 1 {
      DeletedStaysDeleted(ops, i, k - 1);
    }
  }
}
