/** Refresh-token rotation: sessions, their families, and what a replayed token does to a family. */
module Sessions {
  import opened Options

  /** A random identifier, of a session, of a family or of a token. */
  type Uuid(==, !new)

  datatype TokenType = Access | Refresh

  datatype Claims = Claims(sub: int, sid: Uuid, version: int, jti: Uuid, typ: TokenType, issued: real, expires: real)

  /** What a client presents: something that does not verify, or the claims of a signed token. */
  datatype Presented = Garbled | Signed(claims: Claims)

  datatype User = User(passwordHash: string, active: bool, version: int)

  /** The stored hash of the refresh token stands for the token itself. */
  datatype Session = Session(user: int, family: Uuid, refreshToken: Claims, version: int, expires: real,
                             revokedAt: Option<real>, replacedBy: Option<Uuid>, lastUsed: Option<real>)

  datatype Error = InvalidCredentials | InvalidToken | InvalidRefreshToken | ReuseDetected | NoLongerValid

  datatype Result<T> = Ok(value: T) | Err(error: Error)

  datatype TokenPair = TokenPair(access: Claims, refresh: Claims)

  datatype Principal = Principal(user: int, sid: Uuid, version: int)

  datatype Config = Config(verify: (string, string) -> bool, fold: string -> string, accessTtl: real, refreshTtl: real)

  type Store = map<Uuid, Session>

  datatype State = State(users: map<int, User>, emails: map<string, int>, sessions: Store)

  datatype Fresh = Fresh(sid: Uuid, accessJti: Uuid, refreshJti: Uuid)

  // ---------------------------------------------------------------- the operations as functions

  function Decode(t: Presented, expected: TokenType, now: real): Option<Claims> {
    if t.Signed? && t.claims.typ == expected && t.claims.expires > now then Some(t.claims) else None
  }

  function Pair(c: Config, id: int, user: User, ids: Fresh, now: real): TokenPair {
    TokenPair(Claims(id, ids.sid, user.version, ids.accessJti, Access, now, now + c.accessTtl),
      Claims(id, ids.sid, user.version, ids.refreshJti, Refresh, now, now + c.refreshTtl))
  }

  function NewSession(c: Config, id: int, user: User, family: Uuid, ids: Fresh, now: real): Session {
    Session(id, family, Pair(c, id, user, ids, now).refresh, user.version, now + c.refreshTtl, None, None, None)
  }

  function Revoked(s: Session, at: real, replacement: Option<Uuid>): Session {
    s.(revokedAt := Some(at), replacedBy := replacement, lastUsed := Some(at))
  }

  /** Every unrevoked session of the family is revoked; the others keep their date. */
  function RevokeFamily(sessions: Store, family: Uuid, at: real): Store {
    map sid | sid in sessions :: if sessions[sid].family == family && sessions[sid].revokedAt.None?
      then sessions[sid].(revokedAt := Some(at)) else sessions[sid]
  }

  function LoginStep(c: Config, s: State, email: string, password: string, family: Uuid, ids: Fresh, now: real): (State,
                     Result<TokenPair>) {
    var key := c.fold(email);
    if key !in s.emails || s.emails[key] !in s.users then (s, Err(InvalidCredentials))
    else
      var id := s.emails[key];
      var user := s.users[id];
      if !user.active || !c.verify(user.passwordHash, password) then (s, Err(InvalidCredentials))
      else (s.(sessions := s.sessions[ids.sid := NewSession(c, id, user, family, ids, now)]),
        Ok(Pair(c, id, user, ids, now)))
  }

  function RefreshStep(c: Config, s: State, t: Presented, ids: Fresh, now: real): (State, Result<TokenPair>) {
    var decoded := Decode(t, Refresh, now);
    if decoded.None? then (s, Err(InvalidToken))
    else
      var claims := decoded.value;
      if claims.sid !in s.sessions || s.sessions[claims.sid].refreshToken != claims then (s, Err(InvalidRefreshToken))
      else
        var session := s.sessions[claims.sid];
        if session.revokedAt.Some?
          then (s.(sessions := RevokeFamily(s.sessions, session.family, now)), Err(ReuseDetected))
        else if claims.sub !in s.users || !s.users[claims.sub].active || s.users[claims.sub].version != claims.version
          || session.expires <= now then
          (s, Err(NoLongerValid))
        else
          var user := s.users[claims.sub];
          var issued := s.sessions[ids.sid := NewSession(c, claims.sub, user, session.family, ids, now)];
          (s.(sessions := issued[claims.sid := Revoked(session, now, Some(ids.sid))]),
            Ok(Pair(c, claims.sub, user, ids, now)))
  }

  function LogoutStep(s: State, access: Presented, refresh: Option<Presented>, now: real): (State, Option<Error>) {
    var decoded := if refresh.Some? then Decode(refresh.value, Refresh, now) else Decode(access, Access, now);
    if decoded.None? then (s, Some(InvalidToken))
    else if decoded.value.sid in s.sessions && s.sessions[decoded.value.sid].revokedAt.None? then
      var sid := decoded.value.sid;
      (s.(sessions := s.sessions[sid := Revoked(s.sessions[sid], now, None)]), None)
    else (s, None)
  }

  function AuthenticateResult(s: State, t: Presented, now: real): Result<Principal> {
    var decoded := Decode(t, Access, now);
    if decoded.None? then Err(InvalidToken)
    else
      var claims := decoded.value;
      if claims.sub !in s.users || claims.sid !in s.sessions || !s.users[claims.sub].active
        || s.sessions[claims.sid].revokedAt.Some? || s.sessions[claims.sid].expires <= now
          || s.users[claims.sub].version != claims.version
      then Err(NoLongerValid)
      else Ok(Principal(claims.sub, claims.sid, s.users[claims.sub].version))
  }

  // ---------------------------------------------------------------- families

  ghost predicate InFamily(sessions: Store, sid: Uuid, family: Uuid) {
    sid in sessions && sessions[sid].family == family
  }

  /** The family's sessions in the order they were issued, each replaced by the next, all but the last revoked. */
  ghost predicate IsChain(sessions: Store, family: Uuid, chain: seq<Uuid>) {
    && (forall sid :: sid in chain <==> InFamily(sessions, sid, family))
    && (forall i, j :: 0 <= i < j < |chain| ==> chain[i] != chain[j])
    && (forall i :: 0 <= i < |chain| - 1 ==>
      chain[i] in sessions && sessions[chain[i]].replacedBy == Some(chain[i + 1]) && sessions[chain[i]].revokedAt.Some?)
    && (chain != [] ==> chain[|chain| - 1] in sessions && sessions[chain[|chain| - 1]].replacedBy == None)
  }

  ghost predicate Chained(sessions: Store, family: Uuid) {
    exists chain :: IsChain(sessions, family, chain)
  }

  ghost predicate Inv(sessions: Store) {
    forall family :: Chained(sessions, family)
  }

  /** The family has sessions, and every one of them is revoked. */
  ghost predicate Dead(sessions: Store, family: Uuid) {
    && (exists sid :: InFamily(sessions, sid, family))
    && forall sid :: InFamily(sessions, sid, family) ==> sessions[sid].revokedAt.Some?
  }

  /** In a chain only the last session can still be live. */
  lemma LiveIsLast(sessions: Store, family: Uuid, chain: seq<Uuid>, sid: Uuid)
    requires IsChain(sessions, family, chain) && InFamily(sessions, sid, family) && sessions[sid].revokedAt.None?
    ensures chain != [] && chain[|chain| - 1] == sid
  {
    assert sid in chain;
  }

  lemma OneLiveSession(sessions: Store, a: Uuid, b: Uuid)
    requires Inv(sessions) && a in sessions && b in sessions && sessions[a].family == sessions[b].family
    requires sessions[a].revokedAt.None? && sessions[b].revokedAt.None?
    ensures a == b
  {
    assert Chained(sessions, sessions[a].family);
    var chain :| IsChain(sessions, sessions[a].family, chain);
    LiveIsLast(sessions, sessions[a].family, chain, a);
    LiveIsLast(sessions, sessions[a].family, chain, b);
  }

  lemma Untouched(sessions: Store, after: Store, family: Uuid)
    requires Chained(sessions, family)
    requires forall sid :: InFamily(sessions, sid, family) <==> InFamily(after, sid, family)
    requires forall sid :: InFamily(sessions, sid, family) ==>
      sid in after && after[sid].replacedBy == sessions[sid].replacedBy
        && (sessions[sid].revokedAt.Some? ==> after[sid].revokedAt.Some?)
    ensures Chained(after, family)
  {
    var chain :| IsChain(sessions, family, chain);
    assert forall i :: 0 <= i < |chain| ==> chain[i] in chain;
    assert IsChain(after, family, chain);
  }

  lemma LoginInv(c: Config, s: State, email: string, password: string, family: Uuid, ids: Fresh, now: real)
    requires Inv(s.sessions) && ids.sid !in s.sessions && forall sid :: !InFamily(s.sessions, sid, family)
    ensures Inv(LoginStep(c, s, email, password, family, ids, now).0.sessions)
  {
    var after := LoginStep(c, s, email, password, family, ids, now).0.sessions;
    forall f ensures Chained(after, f) {
      assert Chained(s.sessions, f);
      if f == family && after != s.sessions {
        forall sid ensures sid in [ids.sid] <==> InFamily(after, sid, f) {
          assert !InFamily(s.sessions, sid, family);
        }
        assert IsChain(after, f, [ids.sid]);
      } else {
        Untouched(s.sessions, after, f);
      }
    }
  }

  /** A rotation extends the family's chain by the successor. */
  lemma RotateChain(sessions: Store, family: Uuid, chain: seq<Uuid>, prior: Uuid, succ: Uuid, next: Session, now: real)
    requires IsChain(sessions, family, chain) && InFamily(sessions, prior, family) && sessions[prior].revokedAt.None?
    requires succ !in sessions
    requires next.family == family && next.revokedAt == None && next.replacedBy == None
    ensures IsChain(sessions[succ := next][prior := Revoked(sessions[prior], now, Some(succ))], family, chain + [succ])
  {
    LiveIsLast(sessions, family, chain, prior);
    assert forall i :: 0 <= i < |chain| ==> chain[i] in chain;
    assert forall sid :: sid in chain + [succ] <==> sid in chain || sid == succ;
  }

  lemma RotateInv(sessions: Store, prior: Uuid, succ: Uuid, next: Session, now: real)
    requires Inv(sessions) && prior in sessions && sessions[prior].revokedAt.None? && succ !in sessions
    requires next.family == sessions[prior].family && next.revokedAt == None && next.replacedBy == None
    ensures Inv(sessions[succ := next][prior := Revoked(sessions[prior], now, Some(succ))])
  {
    var after := sessions[succ := next][prior := Revoked(sessions[prior], now, Some(succ))];
    forall f ensures Chained(after, f) {
      assert Chained(sessions, f);
      if f == next.family {
        var chain :| IsChain(sessions, f, chain);
        hide IsChain;
        RotateChain(sessions, f, chain, prior, succ, next, now);
      } else {
        Untouched(sessions, after, f);
      }
    }
  }

  lemma RefreshInv(c: Config, s: State, t: Presented, ids: Fresh, now: real)
    requires Inv(s.sessions) && ids.sid !in s.sessions
    ensures Inv(RefreshStep(c, s, t, ids, now).0.sessions)
  {
    var (after, r) := RefreshStep(c, s, t, ids, now);
    if r.Ok? {
      var prior := t.claims.sid;
      RotateInv(s.sessions, prior, ids.sid,
        NewSession(c, t.claims.sub, s.users[t.claims.sub], s.sessions[prior].family, ids, now), now);
    } else {
      forall f ensures Chained(after.sessions, f) {
        assert Chained(s.sessions, f);
        Untouched(s.sessions, after.sessions, f);
      }
    }
  }

  lemma LogoutInv(s: State, access: Presented, refresh: Option<Presented>, now: real)
    requires Inv(s.sessions)
    ensures Inv(LogoutStep(s, access, refresh, now).0.sessions)
  {
    var after := LogoutStep(s, access, refresh, now).0.sessions;
    forall f ensures Chained(after, f) {
      assert Chained(s.sessions, f);
      var chain :| IsChain(s.sessions, f, chain);
      forall sid | InFamily(s.sessions, sid, f) ensures after[sid].replacedBy == s.sessions[sid].replacedBy {
        if s.sessions[sid].revokedAt.None? { LiveIsLast(s.sessions, f, chain, sid); }
      }
      Untouched(s.sessions, after, f);
    }
  }

  // ---------------------------------------------------------------- runs

  /** One atomic step of the outside world; ChangeUser is any edit of a user row. */
  datatype Op =
    | Login(email: string, password: string, family: Uuid, ids: Fresh, now: real)
    | Rotate(token: Presented, ids: Fresh, now: real)
    | Logout(access: Presented, refresh: Option<Presented>, now: real)
    | ChangeUser(id: int, user: User)

  function Step(c: Config, s: State, op: Op): State {
    match op
    case Login(email, password, family, ids, now) => LoginStep(c, s, email, password, family, ids, now).0
    case Rotate(token, ids, now) => RefreshStep(c, s, token, ids, now).0
    case Logout(access, refresh, now) => LogoutStep(s, access, refresh, now).0
    case ChangeUser(id, user) => s.(users := s.users[id := user])
  }

  /** Identifiers drawn by the step have not been used before. */
  ghost predicate DrawsFresh(s: State, op: Op) {
    match op
    case Login(email, password, family, ids, now) => ids.sid !in s.sessions
      && forall sid :: !InFamily(s.sessions, sid, family)
    case Rotate(token, ids, now) => ids.sid !in s.sessions
    case Logout(access, refresh, now) => true
    case ChangeUser(id, user) => true
  }

  ghost function Run(c: Config, s: State, ops: seq<Op>): State
    decreases |ops|
  {
    if ops == [] then s else Run(c, Step(c, s, ops[0]), ops[1..])
  }

  ghost predicate FreshRun(c: Config, s: State, ops: seq<Op>)
    decreases |ops|
  {
    ops == [] || (DrawsFresh(s, ops[0]) && FreshRun(c, Step(c, s, ops[0]), ops[1..]))
  }

  /** Rows are never removed, never change family or token, and never become live again. */
  ghost predicate Keeps(before: Store, after: Store) {
    forall sid :: sid in before ==>
      && sid in after && after[sid].family == before[sid].family && after[sid].refreshToken == before[sid].refreshToken
      && (before[sid].revokedAt.Some? ==> after[sid].revokedAt.Some?)
  }

  lemma RotateKeeps(c: Config, s: State, token: Presented, ids: Fresh, now: real)
    requires ids.sid !in s.sessions
    ensures Keeps(s.sessions, RefreshStep(c, s, token, ids, now).0.sessions)
  {
  }

  lemma LogoutKeeps(s: State, access: Presented, refresh: Option<Presented>, now: real)
    ensures Keeps(s.sessions, LogoutStep(s, access, refresh, now).0.sessions)
  {
  }

  lemma StepKeeps(c: Config, s: State, op: Op)
    requires DrawsFresh(s, op)
    ensures Keeps(s.sessions, Step(c, s, op).sessions)
  {
    hide RefreshStep, LogoutStep;
    match op
    case Login(email, password, family, ids, now) =>
    case Rotate(token, ids, now) => RotateKeeps(c, s, token, ids, now);
    case Logout(access, refresh, now) => LogoutKeeps(s, access, refresh, now);
    case ChangeUser(id, user) =>
  }

  lemma StepInv(c: Config, s: State, op: Op)
    requires Inv(s.sessions) && DrawsFresh(s, op)
    ensures Inv(Step(c, s, op).sessions)
  {
    match op
    case Login(email, password, family, ids, now) => LoginInv(c, s, email, password, family, ids, now);
    case Rotate(token, ids, now) => RefreshInv(c, s, token, ids, now);
    case Logout(access, refresh, now) => LogoutInv(s, access, refresh, now);
    case ChangeUser(id, user) =>
  }

  /** Every run keeps every family a simple replacement chain with at most one live session. */
  lemma {:induction false} RunInv(c: Config, s: State, ops: seq<Op>)
    requires Inv(s.sessions) && FreshRun(c, s, ops)
    ensures Inv(Run(c, s, ops).sessions)
    decreases |ops|
  {
    if ops != [] {
      StepInv(c, s, ops[0]);
      RunInv(c, Step(c, s, ops[0]), ops[1..]);
    }
  }

  lemma EmptyInv(s: State)
    requires s.sessions == map[]
    ensures Inv(s.sessions)
  {
    forall f ensures Chained(s.sessions, f) {
      assert IsChain(s.sessions, f, []);
    }
  }

  lemma {:induction false} RunKeeps(c: Config, s: State, ops: seq<Op>)
    requires FreshRun(c, s, ops)
    ensures Keeps(s.sessions, Run(c, s, ops).sessions)
    decreases |ops|
  {
    if ops != [] {
      StepKeeps(c, s, ops[0]);
      RunKeeps(c, Step(c, s, ops[0]), ops[1..]);
    }
  }

  lemma StepDead(c: Config, s: State, op: Op, family: Uuid)
    requires Dead(s.sessions, family) && DrawsFresh(s, op)
    ensures Dead(Step(c, s, op).sessions, family)
  {
    var sid :| InFamily(s.sessions, sid, family);
    StepKeeps(c, s, op);
    assert InFamily(Step(c, s, op).sessions, sid, family);
  }

  lemma {:induction false} RunDead(c: Config, s: State, ops: seq<Op>, family: Uuid)
    requires Dead(s.sessions, family) && FreshRun(c, s, ops)
    ensures Dead(Run(c, s, ops).sessions, family)
    decreases |ops|
  {
    if ops != [] {
      StepDead(c, s, ops[0], family);
      RunDead(c, Step(c, s, ops[0]), ops[1..], family);
    }
  }

  /** A rotated refresh token is spent for good: shown again before it expires, it is always caught as reuse. */
  lemma RotatedTokenIsSpent(c: Config, s: State, t: Presented, ids: Fresh, now: real, ops: seq<Op>, ids': Fresh,
                            later: real)
    requires ids.sid !in s.sessions && RefreshStep(c, s, t, ids, now).1.Ok?
    requires FreshRun(c, RefreshStep(c, s, t, ids, now).0, ops) && t.claims.expires > later
    ensures RefreshStep(c, Run(c, RefreshStep(c, s, t, ids, now).0, ops), t, ids', later).1 == Err(ReuseDetected)
  {
    RunKeeps(c, RefreshStep(c, s, t, ids, now).0, ops);
  }

  /** Once reuse is detected, no later state of any run accepts a session of that family again. */
  lemma ReplayKillsFamily(c: Config, s: State, t: Presented, ids: Fresh, now: real, ops: seq<Op>, u: Presented,
                          ids': Fresh, later: real)
    requires RefreshStep(c, s, t, ids, now).1 == Err(ReuseDetected)
    requires FreshRun(c, RefreshStep(c, s, t, ids, now).0, ops)
    ensures
      var family := s.sessions[t.claims.sid].family;
      var end := Run(c, RefreshStep(c, s, t, ids, now).0, ops);
      && Dead(end.sessions, family)
      && (AuthenticateResult(end, u, later).Ok? ==> !InFamily(end.sessions, u.claims.sid, family))
      && (RefreshStep(c, end, u, ids', later).1.Ok? ==> !InFamily(end.sessions, u.claims.sid, family))
  {
    var family := s.sessions[t.claims.sid].family;
    var after := RefreshStep(c, s, t, ids, now).0;
    assert InFamily(after.sessions, t.claims.sid, family);
    RunDead(c, after, ops, family);
  }

  /** What a login hands out works at once and until it expires: the access token authenticates its user exactly while
      it and the session last, and the refresh token can be rotated exactly while it lasts. */
  lemma LoginOpens(c: Config, s: State, email: string, password: string, family: Uuid, ids: Fresh, now: real,
                   ids': Fresh, later: real)
    requires LoginStep(c, s, email, password, family, ids, now).1.Ok?
    ensures
      var (after, r) := LoginStep(c, s, email, password, family, ids, now);
      var id := s.emails[c.fold(email)];
      && (AuthenticateResult(after, Signed(r.value.access), later) ==
          Ok(Principal(id, ids.sid, s.users[id].version)) <==>
        later < now + c.accessTtl && later < now + c.refreshTtl)
      && (RefreshStep(c, after, Signed(r.value.refresh), ids', later).1.Ok? <==> later < now + c.refreshTtl)
  {
  }

  /** A rotation hands the family on: its new tokens work as those of a login do, while the session it replaced is
      accepted by nothing any more. */
  lemma RotationHandsOn(c: Config, s: State, t: Presented, ids: Fresh, now: real, u: Presented, ids': Fresh,
                        later: real)
    requires ids.sid !in s.sessions && RefreshStep(c, s, t, ids, now).1.Ok?
    ensures
      var (after, r) := RefreshStep(c, s, t, ids, now);
      && (AuthenticateResult(after, Signed(r.value.access), later) ==
          Ok(Principal(t.claims.sub, ids.sid, t.claims.version)) <==>
        later < now + c.accessTtl && later < now + c.refreshTtl)
      && (RefreshStep(c, after, Signed(r.value.refresh), ids', later).1.Ok? <==> later < now + c.refreshTtl)
      && (u.Signed? && u.claims.sid == t.claims.sid ==>
        AuthenticateResult(after, u, later).Err? && RefreshStep(c, after, u, ids', later).1.Err?)
  {
  }

  /** A session that was logged out is accepted by nothing, in any later run. */
  lemma LoggedOut(c: Config, s: State, access: Presented, refresh: Option<Presented>, now: real, ops: seq<Op>,
                  u: Presented, ids: Fresh, later: real)
    requires LogoutStep(s, access, refresh, now).1 == None
    requires FreshRun(c, LogoutStep(s, access, refresh, now).0, ops) && u.Signed?
    requires u.claims.sid == (if refresh.Some? then refresh.value else access).claims.sid && u.claims.sid in s.sessions
    ensures
      var end := Run(c, LogoutStep(s, access, refresh, now).0, ops);
      AuthenticateResult(end, u, later).Err? && RefreshStep(c, end, u, ids, later).1.Err?
  {
    RunKeeps(c, LogoutStep(s, access, refresh, now).0, ops);
  }

  /** Whatever authenticate accepts is the one live session of its family,
    of an active user at the same token version. */
  lemma AcceptedIsLive(s: State, t: Presented, now: real, other: Uuid)
    requires Inv(s.sessions) && AuthenticateResult(s, t, now).Ok?
    requires InFamily(s.sessions, other, s.sessions[t.claims.sid].family) && s.sessions[other].revokedAt.None?
    ensures other == t.claims.sid && s.users[t.claims.sub].active && s.users[t.claims.sub].version == t.claims.version
  {
    OneLiveSession(s.sessions, other, t.claims.sid);
  }

  // ---------------------------------------------------------------- the service object

  class AuthenticationService {
    const config: Config
    var users: map<int, User>
    var emails: map<string, int>
    var sessions: Store

    function Now(): State
      reads this
    {
      State(users, emails, sessions)
    }

    constructor (config: Config, users: map<int, User>, emails: map<string, int>)
      ensures this.config == config && Now() == State(users, emails, map[]) && Inv(sessions)
    {
      this.config, this.users, this.emails, this.sessions := config, users, emails, map[];
      new;
      EmptyInv(Now());
    }

    method AddSession(sid: Uuid, session: Session)
      modifies this`sessions
      ensures sessions == old(sessions)[sid := session]
    {
      sessions := sessions[sid := session];
    }

    method RevokeSession(sid: Uuid, at: real, replacement: Option<Uuid>)
      requires sid in sessions
      modifies this`sessions
      ensures sessions == old(sessions)[sid := Revoked(old(sessions)[sid], at, replacement)]
    {
      sessions := sessions[sid := Revoked(sessions[sid], at, replacement)];
    }

    method RevokeAll(family: Uuid, at: real)
      modifies this`sessions
      ensures sessions == RevokeFamily(old(sessions), family, at)
      ensures sessions.Keys == old(sessions).Keys && forall sid :: sid in sessions ==>
        sessions[sid] == old(sessions)[sid].(revokedAt :=
          if old(sessions)[sid].family == family && old(sessions)[sid].revokedAt.None? then Some(at)
          else old(sessions)[sid].revokedAt)
    {
      ghost var before := sessions;
      var rest := sessions.Keys;
      while rest != {}
        invariant rest <= before.Keys && sessions.Keys == before.Keys
        invariant forall sid :: sid in before ==>
          sessions[sid] == if sid in rest then before[sid] else RevokeFamily(before, family, at)[sid]
      {
        var sid :| sid in rest;
        var session := sessions[sid];
        if session.family == family && session.revokedAt.None? {
          sessions := sessions[sid := session.(revokedAt := Some(at))];
        }
        rest := rest - {sid};
      }
    }

    method Issue(id: int, user: User, family: Uuid, ids: Fresh, now: real) returns (pair: TokenPair)
      modifies this`sessions
      ensures pair == Pair(config, id, user, ids, now)
      ensures sessions == old(sessions)[ids.sid := NewSession(config, id, user, family, ids, now)]
    {
      pair := Pair(config, id, user, ids, now);
      AddSession(ids.sid, Session(id, family, pair.refresh, user.version, pair.refresh.expires, None, None, None));
    }

    /** Lets in exactly an active user whose stored hash verifies the password, and then stores one live session of
        that user, at the user's token version, as the first of its family. */
    method Login(email: string, password: string, family: Uuid, ids: Fresh, now: real) returns (r: Result<TokenPair>)
      requires Inv(sessions) && DrawsFresh(Now(), Op.Login(email, password, family, ids, now))
      modifies this`sessions
      ensures (Now(), r) == LoginStep(config, old(Now()), email, password, family, ids, now)
      ensures Inv(sessions)
      ensures
        var key := config.fold(email);
        r.Ok? <==>
          && key in emails && emails[key] in users && users[emails[key]].active
          && config.verify(users[emails[key]].passwordHash, password)
      ensures r.Err? ==> r.error == InvalidCredentials && sessions == old(sessions)
      ensures r.Ok? ==>
        var id := emails[config.fold(email)];
        var version := users[id].version;
        && r.value.access == Claims(id, ids.sid, version, ids.accessJti, Access, now, now + config.accessTtl)
        && r.value.refresh == Claims(id, ids.sid, version, ids.refreshJti, TokenType.Refresh, now,
          now + config.refreshTtl)
        && sessions == old(sessions)[ids.sid :=
          Session(id, family, r.value.refresh, version, now + config.refreshTtl, None, None, None)]
    {
      LoginInv(config, Now(), email, password, family, ids, now);
      var key := config.fold(email);
      if key !in emails || emails[key] !in users { return Err(InvalidCredentials); }
      var id := emails[key];
      var user := users[id];
      if !user.active || !config.verify(user.passwordHash, password) { return Err(InvalidCredentials); }
      var pair := Issue(id, user, family, ids, now);
      r := Ok(pair);
    }

    /** Rotates exactly the unexpired refresh token that its live, unexpired session stores, for an active user at the
        token's version: the session is replaced by a new one of its family. A token whose session was revoked revokes
        the family. */
    method Refresh(token: Presented, ids: Fresh, now: real) returns (r: Result<TokenPair>)
      requires Inv(sessions) && ids.sid !in sessions
      modifies this`sessions
      ensures (Now(), r) == RefreshStep(config, old(Now()), token, ids, now)
      ensures Inv(sessions)
      ensures r == Err(InvalidToken) <==>
        token.Garbled? || token.claims.typ != TokenType.Refresh || token.claims.expires <= now
      ensures r.Ok? <==>
        && token.Signed? && token.claims.typ == TokenType.Refresh && now < token.claims.expires
        && token.claims.sid in old(sessions) && old(sessions)[token.claims.sid].refreshToken == token.claims
        && old(sessions)[token.claims.sid].revokedAt.None? && now < old(sessions)[token.claims.sid].expires
        && token.claims.sub in users && users[token.claims.sub].active
        && users[token.claims.sub].version == token.claims.version
      ensures r == Err(ReuseDetected) <==>
        && token.Signed? && token.claims.typ == TokenType.Refresh && now < token.claims.expires
        && token.claims.sid in old(sessions) && old(sessions)[token.claims.sid].refreshToken == token.claims
        && old(sessions)[token.claims.sid].revokedAt.Some?
      ensures r.Err? && r.error != ReuseDetected ==> sessions == old(sessions)
      ensures r == Err(ReuseDetected) ==> sessions.Keys == old(sessions).Keys && forall sid :: sid in sessions ==>
        sessions[sid] == old(sessions)[sid].(revokedAt :=
          if old(sessions)[sid].family == old(sessions)[token.claims.sid].family && old(sessions)[sid].revokedAt.None?
          then Some(now) else old(sessions)[sid].revokedAt)
      ensures r.Ok? ==>
        var id, version := token.claims.sub, token.claims.version;
        var prior := old(sessions)[token.claims.sid];
        && r.value.access == Claims(id, ids.sid, version, ids.accessJti, Access, now, now + config.accessTtl)
        && r.value.refresh == Claims(id, ids.sid, version, ids.refreshJti, TokenType.Refresh, now,
          now + config.refreshTtl)
        && sessions == old(sessions)[ids.sid :=
          Session(id, prior.family, r.value.refresh, version, now + config.refreshTtl, None, None, None)]
          [token.claims.sid :=
            prior.(revokedAt := Some(now), replacedBy := Some(ids.sid), lastUsed := Some(now))]
    {
      RefreshInv(config, Now(), token, ids, now);
      var decoded := Decode(token, TokenType.Refresh, now);
      if decoded.None? { return Err(InvalidToken); }
      var claims := decoded.value;
      if claims.sid !in sessions || sessions[claims.sid].refreshToken != claims { return Err(InvalidRefreshToken); }
      var session := sessions[claims.sid];
      if session.revokedAt.Some? {
        RevokeAll(session.family, now);
        return Err(ReuseDetected);
      }
      if claims.sub !in users || !users[claims.sub].active || users[claims.sub].version != claims.version
        || session.expires <= now {
        return Err(NoLongerValid);
      }
      var pair := Issue(claims.sub, users[claims.sub], session.family, ids, now);
      RevokeSession(claims.sid, now, Some(ids.sid));
      r := Ok(pair);
    }

    method Logout(access: Presented, refresh: Option<Presented>, now: real) returns (error: Option<Error>)
      requires Inv(sessions)
      modifies this`sessions
      ensures (Now(), error) == LogoutStep(old(Now()), access, refresh, now)
      ensures Inv(sessions)
      ensures
        var shown := if refresh.Some? then refresh.value else access;
        var typ := if refresh.Some? then TokenType.Refresh else Access;
        error == if shown.Garbled? || shown.claims.typ != typ || shown.claims.expires <= now
          then Some(InvalidToken) else None
      ensures error == Some(InvalidToken) ==> sessions == old(sessions)
      ensures error == None ==>
        var sid := (if refresh.Some? then refresh.value else access).claims.sid;
        if sid in old(sessions) && old(sessions)[sid].revokedAt.None?
          then sessions == old(sessions)[sid :=
            old(sessions)[sid].(revokedAt := Some(now), replacedBy := None, lastUsed := Some(now))]
          else sessions == old(sessions)
    {
      LogoutInv(Now(), access, refresh, now);
      var decoded := if refresh.Some? then Decode(refresh.value, TokenType.Refresh, now)
        else Decode(access, Access, now);
      if decoded.None? { return Some(InvalidToken); }
      var sid := decoded.value.sid;
      if sid in sessions && sessions[sid].revokedAt.None? {
        RevokeSession(sid, now, None);
      }
      error := None;
    }

    /** Accepts exactly an unexpired access token of an active user, issued at the user's token version, whose
        session is neither revoked nor expired. */
    method Authenticate(token: Presented, now: real) returns (r: Result<Principal>)
      ensures r.Ok? <==>
        && token.Signed? && token.claims.typ == Access && now < token.claims.expires
        && token.claims.sub in users && users[token.claims.sub].active
        && users[token.claims.sub].version == token.claims.version
        && token.claims.sid in sessions && sessions[token.claims.sid].revokedAt.None?
        && now < sessions[token.claims.sid].expires
      ensures r == Err(InvalidToken) <==> token.Garbled? || token.claims.typ != Access || token.claims.expires <= now
      ensures r.Ok? ==> r.value == Principal(token.claims.sub, token.claims.sid, token.claims.version)
      ensures r == AuthenticateResult(Now(), token, now)
    {
      var decoded := Decode(token, Access, now);
      if decoded.None? { return Err(InvalidToken); }
      var claims := decoded.value;
      if claims.sub !in users || claims.sid !in sessions { return Err(NoLongerValid); }
      var user, session := users[claims.sub], sessions[claims.sid];
      if !user.active || session.revokedAt.Some? || session.expires <= now || user.version != claims.version {
        return Err(NoLongerValid);
      }
      r := Ok(Principal(claims.sub, claims.sid, user.version));
    }
  }
}
