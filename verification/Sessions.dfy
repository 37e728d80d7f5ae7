// Refresh-token sessions (auth/repository.go): opening, rotating and revoking,
// each as one transaction.  A session's id is its position in the table.
module Sessions {
  import opened Wrappers

  datatype Session = Session(userId: nat, tokenHash: string, revoked: bool, expiresAt: int, replacedBy: Option<nat>)

  datatype Action =
    | Create(userId: nat, hash: string, expiresAt: int)
    | Rotate(oldHash: string, newHash: string, expiresAt: int, now: int)
    | Revoke(hash: string)

  // Conflict: the unique index on the token hash refused the row.
  datatype Outcome = Opened(id: nat) | Conflict | Unauthorized | Closed

  type Table = seq<Session>

  // SELECT ... WHERE refresh_token_hash = $1
  function Find(rows: Table, hash: string): (r: Option<nat>)
    ensures r.Some? ==> r.value < |rows| && rows[r.value].tokenHash == hash
    ensures r.None? ==> forall k | 0 <= k < |rows| :: rows[k].tokenHash != hash
  {
    if rows == [] then None
    else if rows[|rows| - 1].tokenHash == hash then Some(|rows| - 1)
    else Find(rows[..|rows| - 1], hash)
  }

  function RevokeUser(rows: Table, userId: nat): Table {
    seq(|rows|, k requires 0 <= k < |rows| => if rows[k].userId == userId then rows[k].(revoked := true) else rows[k])
  }

  function Step(rows: Table, a: Action): (Table, Outcome) {
    match a
    case Create(userId, hash, expiresAt) =>
      if Find(rows, hash).Some? then (rows, Conflict)
      else (rows + [Session(userId, hash, false, expiresAt, None)], Opened(|rows|))
    case Rotate(oldHash, newHash, expiresAt, now) =>
      var found := Find(rows, oldHash);
      if found.None? then (rows, Unauthorized)
      else
        var current := rows[found.value];
        if current.revoked || now > current.expiresAt then
          (if current.replacedBy.Some? then RevokeUser(rows, current.userId) else rows, Unauthorized)
        else if Find(rows, newHash).Some? then (rows, Conflict)
        else
          (rows[found.value := current.(revoked := true, replacedBy := Some(|rows|))]
           + [Session(current.userId, newHash, false, expiresAt, None)], Opened(|rows|))
    case Revoke(hash) =>
      var found := Find(rows, hash);
      if found.None? then (rows, Unauthorized)
      else (rows[found.value := rows[found.value].(revoked := true)], Closed)
  }

  // ---- The repository --------------------------------------------------------

  class Repository {
    var rows: Table

    constructor ()
      ensures rows == []
    {
      rows := [];
    }

    method CreateSession(userId: nat, hash: string, expiresAt: int) returns (r: Outcome)
      modifies this
      ensures (rows, r) == Step(old(rows), Create(userId, hash, expiresAt))
    {
      if Find(rows, hash).Some? {
        return Conflict;
      }
      r := Opened(|rows|);
      rows := rows + [Session(userId, hash, false, expiresAt, None)];
    }

    method RotateSession(oldHash: string, newHash: string, expiresAt: int, now: int) returns (r: Outcome)
      modifies this
      ensures (rows, r) == Step(old(rows), Rotate(oldHash, newHash, expiresAt, now))
    {
      var found := Find(rows, oldHash);
      if found.None? {
        return Unauthorized;
      }
      var current := rows[found.value];
      if current.revoked || now > current.expiresAt {
        if current.replacedBy.Some? {
          rows := RevokeUser(rows, current.userId);
        }
        return Unauthorized;
      }
      if Find(rows, newHash).Some? {
        return Conflict;
      }
      var id := |rows|;
      rows := rows + [Session(current.userId, newHash, false, expiresAt, None)];
      rows := rows[found.value := current.(revoked := true, replacedBy := Some(id))];
      assert rows == Step(old(rows), Rotate(oldHash, newHash, expiresAt, now)).0;
      return Opened(id);
    }

    method RevokeSessionByRefreshHash(hash: string) returns (r: Outcome)
      modifies this
      ensures (rows, r) == Step(old(rows), Revoke(hash))
    {
      var found := Find(rows, hash);
      if found.None? {
        return Unauthorized;
      }
      rows := rows[found.value := rows[found.value].(revoked := true)];
      return Closed;
    }
  }

  // ---- What every step keeps -------------------------------------------------

  ghost predicate UniqueHashes(rows: Table) {
    forall i, j | 0 <= i < j < |rows| :: rows[i].tokenHash != rows[j].tokenHash
  }

  // A replaced session is revoked and its replacement is a later row of the
  // same user.
  ghost predicate LinksForward(rows: Table) {
    forall k | 0 <= k < |rows| && rows[k].replacedBy.Some? ::
      var r := rows[k].replacedBy.value;
      rows[k].revoked && k < r < |rows| && rows[r].userId == rows[k].userId
  }

  // No session replaces two others.
  ghost predicate LinksDistinct(rows: Table) {
    forall i, j | 0 <= i < j < |rows| && rows[i].replacedBy.Some? :: rows[i].replacedBy != rows[j].replacedBy
  }

  ghost predicate Inv(rows: Table) {
    UniqueHashes(rows) && LinksForward(rows) && LinksDistinct(rows)
  }

  // What one step may do to the rows: revoked rows never change, hashes, users
  // and expiry never change, and only a revoked row has a replacement.
  ghost predicate Evolves(before: Table, after: Table) {
    && |before| <= |after|
    && forall k | 0 <= k < |before| ::
         && (before[k].revoked ==> after[k] == before[k])
         && after[k].tokenHash == before[k].tokenHash && after[k].userId == before[k].userId
         && after[k].expiresAt == before[k].expiresAt
  }

  lemma CreateKeeps(rows: Table, a: Action)
    requires Inv(rows) && a.Create?
    ensures Inv(Step(rows, a).0) && Evolves(rows, Step(rows, a).0)
  {
  }

  lemma RevokeKeeps(rows: Table, a: Action)
    requires Inv(rows) && a.Revoke?
    ensures Inv(Step(rows, a).0) && Evolves(rows, Step(rows, a).0)
  {
  }

  lemma RevokeUserKeeps(rows: Table, userId: nat)
    requires Inv(rows)
    ensures Inv(RevokeUser(rows, userId)) && Evolves(rows, RevokeUser(rows, userId))
  {
  }

  lemma ReplaceKeeps(rows: Table, k: nat, hash: string, expiresAt: int)
    requires Inv(rows) && k < |rows| && !rows[k].revoked && Find(rows, hash).None?
    ensures var after := rows[k := rows[k].(revoked := true, replacedBy := Some(|rows|))]
                         + [Session(rows[k].userId, hash, false, expiresAt, None)];
            Inv(after) && Evolves(rows, after)
  {
    hide Find;
  }

  lemma RotateKeeps(rows: Table, a: Action)
    requires Inv(rows) && a.Rotate?
    ensures Inv(Step(rows, a).0) && Evolves(rows, Step(rows, a).0)
  {
    hide Find, RevokeUser, Inv, Evolves;
    EvolvesSame(rows);
    var found := Find(rows, a.oldHash);
    if found.Some? {
      var current := rows[found.value];
      RevokeUserKeeps(rows, current.userId);
      if !current.revoked && Find(rows, a.newHash).None? {
        ReplaceKeeps(rows, found.value, a.newHash, a.expiresAt);
      }
    }
  }

  lemma StepKeeps(rows: Table, a: Action)
    requires Inv(rows)
    ensures Inv(Step(rows, a).0) && Evolves(rows, Step(rows, a).0)
  {
    hide Step, Inv, Evolves;
    match a {
      case Create(_, _, _) => CreateKeeps(rows, a);
      case Rotate(_, _, _, _) => RotateKeeps(rows, a);
      case Revoke(_) => RevokeKeeps(rows, a);
    }
  }

  // ---- What each request does, in terms of the table -------------------------

  // Session p is the open, unexpired session of the token.
  predicate Live(rows: Table, p: nat, hash: string, now: int) {
    p < |rows| && rows[p].tokenHash == hash && !rows[p].revoked && now <= rows[p].expiresAt
  }

  ghost predicate Unused(rows: Table, hash: string) {
    forall k | 0 <= k < |rows| :: rows[k].tokenHash != hash
  }

  // A rotation succeeds exactly for the token of an open, unexpired session and
  // a new hash.  It revokes that session, links it to the new one, and opens one
  // for the same user with the new hash and the given expiry.
  lemma RotationExactly(rows: Table, oldHash: string, newHash: string, expiresAt: int, now: int)
    requires UniqueHashes(rows)
    ensures var (after, outcome) := Step(rows, Rotate(oldHash, newHash, expiresAt, now));
            && (outcome.Opened? <==> Unused(rows, newHash) && exists p: nat :: Live(rows, p, oldHash, now))
            && (outcome.Opened? ==>
                  && outcome.id == |rows| && |after| == |rows| + 1
                  && (forall p: nat | Live(rows, p, oldHash, now) ::
                        && after[|rows|] == Session(rows[p].userId, newHash, false, expiresAt, None)
                        && after[p] == rows[p].(revoked := true, replacedBy := Some(|rows|))
                        && forall k | 0 <= k < |rows| && k != p :: after[k] == rows[k]))
            && (!outcome.Opened? && !(exists p: nat :: p < |rows| && rows[p].tokenHash == oldHash && rows[p].replacedBy.Some?) ==>
                  after == rows)
  {
    var found := Find(rows, oldHash);
    assert found.Some? ==> forall p | 0 <= p < |rows| && rows[p].tokenHash == oldHash :: p == found.value;
    if found.Some? && !rows[found.value].revoked && now <= rows[found.value].expiresAt {
      assert Live(rows, found.value, oldHash, now);
      RotatedRows(rows, found.value, newHash, expiresAt);
    }
  }

  lemma RotatedRows(rows: Table, p: nat, newHash: string, expiresAt: int)
    requires p < |rows|
    ensures var after := rows[p := rows[p].(revoked := true, replacedBy := Some(|rows|))]
                         + [Session(rows[p].userId, newHash, false, expiresAt, None)];
            && |after| == |rows| + 1
            && after[|rows|] == Session(rows[p].userId, newHash, false, expiresAt, None)
            && after[p] == rows[p].(revoked := true, replacedBy := Some(|rows|))
            && forall k | 0 <= k < |rows| && k != p :: after[k] == rows[k]
  {
  }

  // An expired or revoked session is never rotated.
  lemma ExpiredIsRefused(rows: Table, p: nat, newHash: string, expiresAt: int, now: int)
    requires UniqueHashes(rows) && p < |rows| && (now > rows[p].expiresAt || rows[p].revoked)
    ensures Step(rows, Rotate(rows[p].tokenHash, newHash, expiresAt, now)).1 == Unauthorized
  {
    FindUnique(rows, rows[p].tokenHash, p);
  }

  // A login opens a session exactly for a new hash and touches no other.
  lemma CreationExactly(rows: Table, userId: nat, hash: string, expiresAt: int)
    ensures var (after, outcome) := Step(rows, Create(userId, hash, expiresAt));
            && (outcome.Opened? <==> Unused(rows, hash))
            && (outcome.Opened? ==> outcome.id == |rows| && after == rows + [Session(userId, hash, false, expiresAt, None)])
            && (!outcome.Opened? ==> after == rows)
  {
  }

  // A logout closes exactly the session of a known token and touches no other.
  lemma RevocationExactly(rows: Table, hash: string)
    requires UniqueHashes(rows)
    ensures var (after, outcome) := Step(rows, Revoke(hash));
            && (outcome == Closed <==> !Unused(rows, hash)) && |after| == |rows|
            && (forall k | 0 <= k < |rows| && rows[k].tokenHash == hash :: after[k] == rows[k].(revoked := true))
            && (forall k | 0 <= k < |rows| && rows[k].tokenHash != hash :: after[k] == rows[k])
  {
  }

  // ---- Runs ------------------------------------------------------------------

  function Run(rows: Table, actions: seq<Action>): Table {
    if actions == [] then rows else Step(Run(rows, actions[..|actions| - 1]), actions[|actions| - 1]).0
  }

  // The outcome of action k of a run.
  function OutcomeAt(rows: Table, actions: seq<Action>, k: nat): Outcome
    requires k < |actions|
  {
    Step(Run(rows, actions[..k]), actions[k]).1
  }

  lemma {:induction false} RunKeeps(rows: Table, actions: seq<Action>)
    requires Inv(rows)
    ensures Inv(Run(rows, actions))
  {
    hide Inv, Step;
    if actions != [] {
      RunKeeps(rows, actions[..|actions| - 1]);
      StepKeeps(Run(rows, actions[..|actions| - 1]), actions[|actions| - 1]);
    }
  }

  lemma EvolvesTrans(a: Table, b: Table, c: Table)
    requires Evolves(a, b) && Evolves(b, c)
    ensures Evolves(a, c)
  {
  }

  // Revocation is permanent, and so is everything about a revoked session.
  lemma {:induction false} RunEvolves(rows: Table, actions: seq<Action>, k: nat)
    requires Inv(rows) && k <= |actions|
    ensures Evolves(Run(rows, actions[..k]), Run(rows, actions))
    decreases |actions| - k
  {
    hide Inv, Step, Evolves;
    if k == |actions| {
      assert actions[..k] == actions;
      EvolvesSame(Run(rows, actions));
    } else {
      RunEvolves(rows, actions, k + 1);
      assert actions[..k + 1][..k] == actions[..k];
      RunKeeps(rows, actions[..k]);
      StepKeeps(Run(rows, actions[..k]), actions[k]);
      EvolvesTrans(Run(rows, actions[..k]), Run(rows, actions[..k + 1]), Run(rows, actions));
    }
  }

  lemma EvolvesSame(rows: Table)
    ensures Evolves(rows, rows)
  {
  }

  lemma EmptyInv()
    ensures Inv([])
  {
  }

  lemma BetweenPrefixes(rows: Table, actions: seq<Action>, i: nat, j: nat)
    requires Inv(rows) && i <= j <= |actions|
    ensures Inv(Run(rows, actions[..i])) && Evolves(Run(rows, actions[..i]), Run(rows, actions[..j]))
  {
    RunEvolves(rows, actions[..j], i);
    assert actions[..j][..i] == actions[..i];
    RunKeeps(rows, actions[..i]);
  }

  // ---- Tokens rotate at most once --------------------------------------------

  ghost predicate RotatedAt(actions: seq<Action>, k: nat, hash: string) {
    k < |actions| && actions[k].Rotate? && actions[k].oldHash == hash && OutcomeAt([], actions, k).Opened?
  }

  // A hash finds the same row as long as its row exists.
  lemma FindUnique(rows: Table, hash: string, k: nat)
    requires UniqueHashes(rows) && k < |rows| && rows[k].tokenHash == hash
    ensures Find(rows, hash) == Some(k)
  {
  }

  // A successful rotation replaces the row of the token, for good.
  lemma RotationReplaces(actions: seq<Action>, i: nat, j: nat, hash: string) returns (p: nat)
    requires RotatedAt(actions, i, hash) && i < j <= |actions|
    ensures var rows := Run([], actions[..j]);
            && p < |rows| && rows[p].tokenHash == hash && rows[p].revoked && rows[p].replacedBy.Some?
            && Find(rows, hash) == Some(p)
  {
    hide Find, LinksForward, LinksDistinct;
    EmptyInv();
    var before, after := Run([], actions[..i]), Run([], actions[..i + 1]);
    assert actions[..i + 1][..i] == actions[..i];
    p := Find(before, hash).value;
    BetweenPrefixes([], actions, i + 1, j);
    RunKeeps([], actions[..j]);
    FindUnique(Run([], actions[..j]), hash, p);
  }

  // A successful rotation in a run: the token's session was open and unexpired
  // just before, and just after the new session is open, of the same user, with
  // the new hash and the given expiry.
  lemma RotatedSession(actions: seq<Action>, i: nat, hash: string) returns (p: nat)
    requires RotatedAt(actions, i, hash)
    ensures var before, after, a := Run([], actions[..i]), Run([], actions[..i + 1]), actions[i];
            && Live(before, p, hash, a.now) && |after| == |before| + 1
            && after[|before|] == Session(before[p].userId, a.newHash, false, a.expiresAt, None)
            && after[p].revoked && after[p].replacedBy == Some(|before|)
  {
    hide Find, LinksForward, LinksDistinct, Step;
    EmptyInv();
    RunKeeps([], actions[..i]);
    assert actions[..i + 1][..i] == actions[..i];
    var before, a := Run([], actions[..i]), actions[i];
    RotationExactly(before, hash, a.newHash, a.expiresAt, a.now);
    p :| Live(before, p, hash, a.now);
  }

  lemma TokenRotatesOnce(actions: seq<Action>, i: nat, j: nat, hash: string)
    requires RotatedAt(actions, i, hash) && RotatedAt(actions, j, hash)
    ensures i == j
  {
    hide Find;
    if i < j {
      var p := RotationReplaces(actions, i, j, hash);
    } else if j < i {
      var p := RotationReplaces(actions, j, i, hash);
    }
  }

  // ---- Replay closes every session of the user -------------------------------

  // Presenting a rotated token is refused, leaves no open session of its user and
  // touches nobody else's.
  lemma ReplayRevokesAll(actions: seq<Action>, i: nat, j: nat, hash: string)
    requires RotatedAt(actions, i, hash) && i < j < |actions|
    requires actions[j].Rotate? && actions[j].oldHash == hash
    ensures OutcomeAt([], actions, j) == Unauthorized
    ensures var before, after := Run([], actions[..j]), Run([], actions[..j + 1]);
            && Find(before, hash).Some?
            && |after| == |before|
            && (forall k | 0 <= k < |after| :: after[k].userId == before[Find(before, hash).value].userId ==> after[k].revoked)
            && (forall k | 0 <= k < |after| :: after[k].userId != before[Find(before, hash).value].userId ==> after[k] == before[k])
            && (forall k | 0 <= k < |after| :: after[k].replacedBy == before[k].replacedBy)
  {
    hide Find;
    assert actions[..j + 1][..j] == actions[..j];
    var p := RotationReplaces(actions, i, j, hash);
  }

  // Session y continues session x: x was replaced by it, directly or not.
  ghost predicate Continues(rows: Table, x: nat, y: nat)
    decreases |rows| - x
  {
    x == y || (x < |rows| && rows[x].replacedBy.Some? && x < rows[x].replacedBy.value < |rows|
               && Continues(rows, rows[x].replacedBy.value, y))
  }

  // After a replay, the user's open sessions come only from later logins: every
  // session that continues one of the old ones stays revoked.
  lemma ReplayIsFinal(actions: seq<Action>, i: nat, j: nat, hash: string, m: nat, x: nat, y: nat)
    requires RotatedAt(actions, i, hash) && i < j < m <= |actions|
    requires actions[j].Rotate? && actions[j].oldHash == hash
    requires var before, rows := Run([], actions[..j]), Run([], actions[..m]);
             && Find(before, hash).Some? && x < |before|
             && before[x].userId == before[Find(before, hash).value].userId
             && y < |rows| && Continues(rows, x, y)
    ensures Run([], actions[..m])[y].revoked
  {
    hide Find, Step, Inv, Continues;
    ReplayRevokesAll(actions, i, j, hash);
    EmptyInv();
    var before, after, rows := Run([], actions[..j]), Run([], actions[..j + 1]), Run([], actions[..m]);
    BetweenPrefixes([], actions, j, j + 1);
    BetweenPrefixes([], actions, j + 1, m);
    ClosedChain(after, rows, before[x].userId, x, y);
  }

  lemma {:induction false} ClosedChain(after: Table, rows: Table, user: nat, x: nat, y: nat)
    requires Inv(after) && Evolves(after, rows)
    requires forall k | 0 <= k < |after| && after[k].userId == user :: after[k].revoked
    requires x < |after| && after[x].userId == user && Continues(rows, x, y)
    ensures y < |after| && rows[y].revoked
    decreases |after| - x
  {
    assert rows[x] == after[x];
    if x != y {
      ClosedChain(after, rows, user, rows[x].replacedBy.value, y);
    }
  }

  // ---- Chains ----------------------------------------------------------------

  // The links form one chain per login: sessions that continue a common one
  // are themselves in line, and so are sessions continued by a common one.
  lemma {:induction false} ChainsAreLines(rows: Table, x: nat, y: nat, z: nat)
    requires Inv(rows) && x < |rows| && y < |rows| && z < |rows|
    ensures Continues(rows, x, y) && Continues(rows, x, z) ==> Continues(rows, y, z) || Continues(rows, z, y)
    ensures Continues(rows, x, z) && Continues(rows, y, z) ==> Continues(rows, x, y) || Continues(rows, y, x)
    decreases |rows| - x
  {
    hide UniqueHashes;
    if x != y && x != z && rows[x].replacedBy.Some? {
      ChainsAreLines(rows, rows[x].replacedBy.value, y, z);
      if Continues(rows, x, z) && Continues(rows, y, z) && Continues(rows, y, rows[x].replacedBy.value) {
        SharedSuccessor(rows, x, y);
      }
    }
  }

  // Who reaches the replacement of x without being it, reaches x.
  lemma {:induction false} SharedSuccessor(rows: Table, x: nat, y: nat)
    requires Inv(rows) && x < |rows| && y < |rows| && rows[x].replacedBy.Some?
    requires Continues(rows, y, rows[x].replacedBy.value)
    ensures Continues(rows, y, x) || y == rows[x].replacedBy.value
    decreases |rows| - y
  {
    hide UniqueHashes;
    if y != rows[x].replacedBy.value && y != x {
      assert rows[y].replacedBy != rows[x].replacedBy;
      SharedSuccessor(rows, x, rows[y].replacedBy.value);
    }
  }

  // A continuation is a later session of the same user.
  lemma {:induction false} ContinuationLater(rows: Table, x: nat, y: nat)
    requires Inv(rows) && x < |rows| && y < |rows| && Continues(rows, x, y)
    ensures x <= y && rows[x].userId == rows[y].userId && (x < y ==> rows[x].revoked)
    decreases |rows| - x
  {
    if x != y {
      ContinuationLater(rows, rows[x].replacedBy.value, y);
    }
  }

  // In every reachable table a chain has at most one open session.
  lemma ChainHasOneOpen(actions: seq<Action>, x: nat, y: nat, root: nat)
    requires var rows := Run([], actions);
             && root < |rows| && x < |rows| && y < |rows|
             && Continues(rows, root, x) && Continues(rows, root, y) && !rows[x].revoked && !rows[y].revoked
    ensures x == y
  {
    hide Continues;
    var rows := Run([], actions);
    EmptyInv();
    RunKeeps([], actions);
    ChainsAreLines(rows, root, x, y);
    if Continues(rows, x, y) {
      ContinuationLater(rows, x, y);
    } else {
      ContinuationLater(rows, y, x);
    }
  }

  // Every reachable table: hashes are unique and links go forward, to the same
  // user, from revoked sessions only, and never two to one session.
  lemma ReachableTables(actions: seq<Action>)
    ensures Inv(Run([], actions))
  {
    EmptyInv();
    RunKeeps([], actions);
  }
}
