/** Sessions and rotating refresh tokens. A token stands for its hash, which is taken to be injective;
    new tokens are arbitrary values, and one that already exists violates the unique index. */
module Credentials {
  import opened Time
  import opened Wrappers

  type UserId = nat
  type IdentityId = nat
  type Token = nat

  /** Every user belongs to one identity; a person's workspaces are the users of one identity. */
  type Directory = UserId -> IdentityId

  datatype Session = Session(user: UserId, identity: Option<IdentityId>, expiresAt: int, revokedAt: Option<int>)

  /** `lineage` is history, not a column: the login or workspace switch a token descends from. */
  datatype RefreshToken = RefreshToken(
    user: UserId, identity: Option<IdentityId>, expiresAt: int, revokedAt: Option<int>, lineage: nat)

  datatype State = State(sessions: map<Token, Session>, refreshTokens: map<Token, RefreshToken>, lineages: nat)

  const EMPTY := State(map[], map[], 0)

  const ACCESS_TTL := 15 * MINUTE
  const REFRESH_TTL := 30 * DAY

  /** The freshly drawn pair of tokens and the clock of one call. */
  datatype Draw = Draw(access: Token, refresh: Token, now: int)

  /** The status and deletion mark of a row of another table. */
  datatype Standing = Standing(active: bool, deleted: bool)

  /** What a call finds of the person concerned: identity, membership in the workspace, and user. */
  datatype Account = Account(identity: Standing, membership: Standing, user: Standing)

  predicate MayAuthenticate(a: Account) {
    && a.identity.active && !a.identity.deleted
    && a.membership.active && !a.membership.deleted
    && a.user.active && !a.user.deleted
  }

  /** The stored password, if there is one, and whether the given one matches it. */
  datatype Password = Password(stored: bool, matches: bool, lockedUntil: Option<int>)

  predicate PasswordAccepted(p: Password, now: int) {
    p.stored && (p.lockedUntil.Some? ==> p.lockedUntil.value <= now) && p.matches
  }

  /** `guard` is the access token the route guard validates, and `actor` the account behind it. */
  datatype Op =
    | Login(user: UserId, password: Password, account: Account, draw: Draw)
    | Refresh(token: Option<Token>, account: Account, draw: Draw)
    | Logout(access: Option<Token>, refresh: Option<Token>, now: int)
    | LogoutAll(user: UserId, identity: Option<IdentityId>, now: int)
    | RevokeSession(user: UserId, session: Token, now: int)
    | RevokeOtherSessions(user: UserId, current: Token, refresh: Option<Token>, now: int)
    | SwitchWorkspace(guard: Token, actor: Account, target: UserId, account: Account,
                      access: Option<Token>, refresh: Option<Token>, draw: Draw)

  // ---------------------------------------------------------------- bulk updates

  function RevokeSessions(sessions: map<Token, Session>, which: set<Token>, now: int): map<Token, Session> {
    map t | t in sessions ::
      if t in which && sessions[t].revokedAt.None? then sessions[t].(revokedAt := Some(now)) else sessions[t]
  }

  function RevokeTokens(tokens: map<Token, RefreshToken>, which: set<Token>, now: int): map<Token, RefreshToken> {
    map t | t in tokens ::
      if t in which && tokens[t].revokedAt.None? then tokens[t].(revokedAt := Some(now)) else tokens[t]
  }

  predicate Owns(identity: Option<IdentityId>, fallbackUser: UserId, rowIdentity: Option<IdentityId>, rowUser: UserId) {
    if identity.Some? then rowIdentity == identity else rowUser == fallbackUser
  }

  function RevokeAll(s: State, identity: Option<IdentityId>, fallbackUser: UserId, now: int): State {
    s.(sessions := RevokeSessions(s.sessions, (set t | t in s.sessions && Owns(identity, fallbackUser, s.sessions[t].identity, s.sessions[t].user)), now),
       refreshTokens := RevokeTokens(s.refreshTokens, (set t | t in s.refreshTokens && Owns(identity, fallbackUser, s.refreshTokens[t].identity, s.refreshTokens[t].user)), now))
  }

  function RevokePair(s: State, access: Option<Token>, refresh: Option<Token>, now: int): State {
    s.(sessions := if access.Some? then RevokeSessions(s.sessions, {access.value}, now) else s.sessions,
       refreshTokens := if refresh.Some? then RevokeTokens(s.refreshTokens, {refresh.value}, now) else s.refreshTokens)
  }

  // ---------------------------------------------------------------- single calls

  predicate Fresh(s: State, draw: Draw) {
    draw.access !in s.sessions && draw.refresh !in s.refreshTokens
  }

  function Issue(s: State, user: UserId, identity: IdentityId, lineage: nat, draw: Draw): State {
    s.(sessions := s.sessions[draw.access := Session(user, Some(identity), draw.now + ACCESS_TTL, None)],
       refreshTokens := s.refreshTokens[draw.refresh := RefreshToken(user, Some(identity), draw.now + REFRESH_TTL, None, lineage)])
  }

  predicate Usable(expiresAt: int, revokedAt: Option<int>, now: int) { revokedAt.None? && expiresAt > now }

  predicate ValidAccess(s: State, access: Token, now: int) {
    access in s.sessions && Usable(s.sessions[access].expiresAt, s.sessions[access].revokedAt, now)
  }

  /** Whether a call succeeds: it issues credentials, or it revokes what it was asked to revoke. */
  predicate Succeeds(dir: Directory, s: State, op: Op) {
    match op
    case Login(user, password, account, draw) =>
      PasswordAccepted(password, draw.now) && MayAuthenticate(account) && Fresh(s, draw)
    case Refresh(token, account, draw) =>
      && token.Some? && token.value in s.refreshTokens
      && Usable(s.refreshTokens[token.value].expiresAt, s.refreshTokens[token.value].revokedAt, draw.now)
      && MayAuthenticate(account) && Fresh(s, draw)
    case SwitchWorkspace(guard, actor, target, account, access, refresh, draw) =>
      && ValidAccess(s, guard, draw.now) && MayAuthenticate(actor)
      && dir(target) == dir(s.sessions[guard].user)
      && MayAuthenticate(account) && Fresh(s, draw)
    case _ => true
  }

  /** A dead refresh token was presented: the code takes it for a replay. */
  predicate IsReplay(s: State, op: Op) {
    && op.Refresh? && op.token.Some? && op.token.value in s.refreshTokens
    && !Usable(s.refreshTokens[op.token.value].expiresAt, s.refreshTokens[op.token.value].revokedAt, op.draw.now)
  }

  function Step(dir: Directory, s: State, op: Op): State {
    if IsReplay(s, op) then
      var stored := s.refreshTokens[op.token.value];
      RevokeAll(s, stored.identity, stored.user, op.draw.now)
    else if !Succeeds(dir, s, op) then s
    else
      match op
      case Login(user, _, _, draw) =>
        Issue(s, user, dir(user), s.lineages, draw).(lineages := s.lineages + 1)
      case Refresh(token, _, draw) =>
        var stored := s.refreshTokens[token.value];
        var revoked := s.(refreshTokens := s.refreshTokens[token.value := stored.(revokedAt := Some(draw.now))]);
        Issue(revoked, stored.user, dir(stored.user), stored.lineage, draw)
      case Logout(access, refresh, now) => RevokePair(s, access, refresh, now)
      case LogoutAll(user, identity, now) => RevokeAll(s, identity, user, now)
      case RevokeSession(user, session, now) =>
        s.(sessions := RevokeSessions(s.sessions, (set t | t in s.sessions && t == session && s.sessions[t].user == user), now))
      case RevokeOtherSessions(user, current, refresh, now) =>
        s.(sessions := RevokeSessions(s.sessions, (set t | t in s.sessions && t != current && s.sessions[t].user == user), now),
           refreshTokens := if refresh.None? then s.refreshTokens
                            else RevokeTokens(s.refreshTokens, (set t | t in s.refreshTokens && t != refresh.value && s.refreshTokens[t].user == user), now))
      case SwitchWorkspace(guard, _, target, _, access, refresh, draw) =>
        Issue(RevokePair(s, access, refresh, draw.now), target, dir(target), s.lineages, draw).(lineages := s.lineages + 1)
  }

  function Run(dir: Directory, s: State, ops: seq<Op>): State {
    if ops == [] then s else Step(dir, Run(dir, s, ops[..|ops| - 1]), ops[|ops| - 1])
  }

  // ---------------------------------------------------------------- the service

  class AuthService {
    const dir: Directory
    var sessions: map<Token, Session>
    var refreshTokens: map<Token, RefreshToken>
    var lineages: nat

    constructor (dir: Directory)
      ensures this.dir == dir && Tables() == EMPTY
    {
      this.dir := dir;
      sessions, refreshTokens, lineages := map[], map[], 0;
    }

    function Tables(): State
      reads this
    {
      State(sessions, refreshTokens, lineages)
    }

    method IssueCredentials(user: UserId, identity: IdentityId, lineage: nat, draw: Draw)
      requires Fresh(Tables(), draw)
      modifies this
      ensures Tables() == Issue(old(Tables()), user, identity, lineage, draw)
    {
      sessions := sessions[draw.access := Session(user, Some(identity), draw.now + ACCESS_TTL, None)];
      refreshTokens := refreshTokens[draw.refresh := RefreshToken(user, Some(identity), draw.now + REFRESH_TTL, None, lineage)];
    }

    method RevokeAllIdentityCredentials(identity: Option<IdentityId>, fallbackUser: UserId, now: int)
      modifies this
      ensures Tables() == RevokeAll(old(Tables()), identity, fallbackUser, now)
    {
      sessions := RevokeSessions(sessions, (set t | t in sessions && Owns(identity, fallbackUser, sessions[t].identity, sessions[t].user)), now);
      refreshTokens := RevokeTokens(refreshTokens, (set t | t in refreshTokens && Owns(identity, fallbackUser, refreshTokens[t].identity, refreshTokens[t].user)), now);
    }

    method DoLogin(user: UserId, password: Password, account: Account, draw: Draw) returns (ok: bool)
      modifies this
      ensures Tables() == Step(dir, old(Tables()), Login(user, password, account, draw))
      ensures ok == Succeeds(dir, old(Tables()), Login(user, password, account, draw))
    {
      if !password.stored {
        return false;
      }
      if password.lockedUntil.Some? && password.lockedUntil.value > draw.now {
        return false;
      }
      if !password.matches || !MayAuthenticate(account) {
        return false;
      }
      if draw.access in sessions || draw.refresh in refreshTokens {
        return false;
      }
      IssueCredentials(user, dir(user), lineages, draw);
      lineages := lineages + 1;
      return true;
    }

    method DoRefresh(token: Option<Token>, account: Account, draw: Draw) returns (ok: bool)
      modifies this
      ensures Tables() == Step(dir, old(Tables()), Refresh(token, account, draw))
      ensures ok == Succeeds(dir, old(Tables()), Refresh(token, account, draw))
    {
      if token.None? || token.value !in refreshTokens {
        return false;
      }
      var stored := refreshTokens[token.value];
      if stored.revokedAt.Some? || stored.expiresAt <= draw.now {
        RevokeAllIdentityCredentials(stored.identity, stored.user, draw.now);
        return false;
      }
      if !MayAuthenticate(account) {
        return false;
      }
      var before := refreshTokens;
      refreshTokens := refreshTokens[token.value := stored.(revokedAt := Some(draw.now))];
      if draw.access in sessions || draw.refresh in refreshTokens {
        refreshTokens := before;
        return false;
      }
      IssueCredentials(stored.user, dir(stored.user), stored.lineage, draw);
      return true;
    }

    method DoLogout(access: Option<Token>, refresh: Option<Token>, now: int)
      modifies this
      ensures Tables() == Step(dir, old(Tables()), Logout(access, refresh, now))
    {
      if access.Some? {
        sessions := RevokeSessions(sessions, {access.value}, now);
      }
      if refresh.Some? {
        refreshTokens := RevokeTokens(refreshTokens, {refresh.value}, now);
      }
    }

    method DoRevokeSession(user: UserId, session: Token, now: int)
      modifies this
      ensures Tables() == Step(dir, old(Tables()), RevokeSession(user, session, now))
    {
      sessions := RevokeSessions(sessions, (set t | t in sessions && t == session && sessions[t].user == user), now);
    }

    method DoRevokeOtherSessions(user: UserId, current: Token, refresh: Option<Token>, now: int)
      modifies this
      ensures Tables() == Step(dir, old(Tables()), RevokeOtherSessions(user, current, refresh, now))
    {
      sessions := RevokeSessions(sessions, (set t | t in sessions && t != current && sessions[t].user == user), now);
      if refresh.Some? {
        refreshTokens := RevokeTokens(refreshTokens, (set t | t in refreshTokens && t != refresh.value && refreshTokens[t].user == user), now);
      }
    }

    method DoSwitchWorkspace(guard: Token, actor: Account, target: UserId, account: Account,
                             access: Option<Token>, refresh: Option<Token>, draw: Draw)
      returns (ok: bool)
      modifies this
      ensures Tables() == Step(dir, old(Tables()), SwitchWorkspace(guard, actor, target, account, access, refresh, draw))
      ensures ok == Succeeds(dir, old(Tables()), SwitchWorkspace(guard, actor, target, account, access, refresh, draw))
    {
      var current := ValidateAccessToken(Some(guard), actor, draw.now);
      if current.None? || dir(target) != dir(current.value) || !MayAuthenticate(account) {
        return false;
      }
      if draw.access in sessions || draw.refresh in refreshTokens {
        return false;
      }
      DoLogout(access, refresh, draw.now);
      IssueCredentials(target, dir(target), lineages, draw);
      lineages := lineages + 1;
      return true;
    }

    method ValidateAccessToken(access: Option<Token>, account: Account, now: int) returns (user: Option<UserId>)
      ensures user.Some? <==> access.Some? && ValidAccess(Tables(), access.value, now) && MayAuthenticate(account)
      ensures user.Some? ==> user.value == sessions[access.value].user
    {
      if access.None? || access.value !in sessions {
        return None;
      }
      var session := sessions[access.value];
      if session.revokedAt.Some? || session.expiresAt <= now {
        return None;
      }
      if !MayAuthenticate(account) {
        return None;
      }
      return Some(session.user);
    }
  }

  // ---------------------------------------------------------------- the invariant

  ghost predicate CredentialInv(dir: Directory, s: State) {
    && (forall t | t in s.sessions :: s.sessions[t].identity == Some(dir(s.sessions[t].user)))
    && (forall t | t in s.refreshTokens ::
          && s.refreshTokens[t].identity == Some(dir(s.refreshTokens[t].user))
          && s.refreshTokens[t].lineage < s.lineages)
    && OneLivePerLineage(s)
  }

  /** Of the refresh tokens descending from one login or switch, at most one is not revoked. */
  ghost predicate OneLivePerLineage(s: State) {
    forall t, u | t in s.refreshTokens && u in s.refreshTokens
                  && s.refreshTokens[t].revokedAt.None? && s.refreshTokens[u].revokedAt.None?
                  && s.refreshTokens[t].lineage == s.refreshTokens[u].lineage :: t == u
  }

  /** The same rows, some of them newly revoked. */
  ghost predicate OnlyRevokes(a: State, b: State) {
    && a.lineages == b.lineages && a.sessions.Keys == b.sessions.Keys && a.refreshTokens.Keys == b.refreshTokens.Keys
    && (forall t | t in a.sessions :: b.sessions[t] == a.sessions[t].(revokedAt := b.sessions[t].revokedAt))
    && (forall t | t in a.refreshTokens ::
          && b.refreshTokens[t] == a.refreshTokens[t].(revokedAt := b.refreshTokens[t].revokedAt)
          && (a.refreshTokens[t].revokedAt.Some? ==> b.refreshTokens[t].revokedAt.Some?))
  }

  lemma RevokingKeepsInv(dir: Directory, a: State, b: State)
    requires CredentialInv(dir, a) && OnlyRevokes(a, b)
    ensures CredentialInv(dir, b)
  {}

  lemma IssuingKeepsInv(dir: Directory, s: State, user: UserId, lineage: nat, lineages: nat, draw: Draw)
    requires CredentialInv(dir, s) && Fresh(s, draw) && s.lineages <= lineages && lineage < lineages
    requires forall t | t in s.refreshTokens && s.refreshTokens[t].lineage == lineage :: s.refreshTokens[t].revokedAt.Some?
    ensures CredentialInv(dir, Issue(s, user, dir(user), lineage, draw).(lineages := lineages))
  {}

  predicate Issues(dir: Directory, s: State, op: Op) {
    !IsReplay(s, op) && Succeeds(dir, s, op) && (op.Login? || op.Refresh? || op.SwitchWorkspace?)
  }

  lemma OtherwiseOnlyRevokes(dir: Directory, s: State, op: Op)
    requires !Issues(dir, s, op)
    ensures OnlyRevokes(s, Step(dir, s, op))
  {}

  lemma RotationKeepsInv(dir: Directory, s: State, op: Op)
    requires CredentialInv(dir, s) && op.Refresh? && Succeeds(dir, s, op)
    ensures CredentialInv(dir, Step(dir, s, op))
  {
    var stored := s.refreshTokens[op.token.value];
    var revoked := s.(refreshTokens := s.refreshTokens[op.token.value := stored.(revokedAt := Some(op.draw.now))]);
    RevokingKeepsInv(dir, s, revoked);
    IssuingKeepsInv(dir, revoked, stored.user, stored.lineage, s.lineages, op.draw);
  }

  lemma SwitchKeepsInv(dir: Directory, s: State, op: Op)
    requires CredentialInv(dir, s) && op.SwitchWorkspace? && Succeeds(dir, s, op)
    ensures CredentialInv(dir, Step(dir, s, op))
  {
    var revoked := RevokePair(s, op.access, op.refresh, op.draw.now);
    RevokingKeepsInv(dir, s, revoked);
    IssuingKeepsInv(dir, revoked, op.target, s.lineages, s.lineages + 1, op.draw);
  }

  lemma StepKeepsInv(dir: Directory, s: State, op: Op)
    requires CredentialInv(dir, s)
    ensures CredentialInv(dir, Step(dir, s, op))
  {
    if !Issues(dir, s, op) {
      OtherwiseOnlyRevokes(dir, s, op);
      RevokingKeepsInv(dir, s, Step(dir, s, op));
    } else if op.Login? {
      IssuingKeepsInv(dir, s, op.user, s.lineages, s.lineages + 1, op.draw);
    } else if op.Refresh? {
      RotationKeepsInv(dir, s, op);
    } else {
      SwitchKeepsInv(dir, s, op);
    }
  }

  lemma {:induction false} RunKeepsInv(dir: Directory, ops: seq<Op>)
    ensures CredentialInv(dir, Run(dir, EMPTY, ops))
  {
    if ops != [] {
      RunKeepsInv(dir, ops[..|ops| - 1]);
      StepKeepsInv(dir, Run(dir, EMPTY, ops[..|ops| - 1]), ops[|ops| - 1]);
    }
  }

  // ---------------------------------------------------------------- revocation

  /** Whatever is stored stays stored, and what is revoked keeps its time of revocation. */
  ghost predicate Preserves(a: State, b: State) {
    && (forall t | t in a.sessions :: t in b.sessions && b.sessions[t].user == a.sessions[t].user
          && (a.sessions[t].revokedAt.Some? ==> b.sessions[t] == a.sessions[t]))
    && (forall t | t in a.refreshTokens :: t in b.refreshTokens && b.refreshTokens[t].user == a.refreshTokens[t].user
          && (a.refreshTokens[t].revokedAt.Some? ==> b.refreshTokens[t] == a.refreshTokens[t]))
  }

  lemma StepPreserves(dir: Directory, s: State, op: Op)
    ensures Preserves(s, Step(dir, s, op))
  {}

  /** From any point of any run to its end. */
  lemma {:induction false} RevocationIsPermanent(dir: Directory, s: State, ops: seq<Op>, i: nat)
    requires i <= |ops|
    ensures Preserves(Run(dir, s, ops[..i]), Run(dir, s, ops))
    decreases |ops|
  {
    if i == |ops| {
      assert ops[..i] == ops;
    } else {
      var n := |ops| - 1;
      assert ops[..n][..i] == ops[..i];
      RevocationIsPermanent(dir, s, ops[..n], i);
      StepPreserves(dir, Run(dir, s, ops[..n]), ops[n]);
    }
  }

  /** In no run does the same refresh token refresh twice; the second attempt is taken for a replay. */
  lemma RefreshesAtMostOnce(dir: Directory, s: State, ops: seq<Op>, i: nat, j: nat)
    requires i < j < |ops| && ops[i].Refresh? && ops[j].Refresh? && ops[i].token == ops[j].token
    requires Succeeds(dir, Run(dir, s, ops[..i]), ops[i])
    ensures !Succeeds(dir, Run(dir, s, ops[..j]), ops[j])
    ensures IsReplay(Run(dir, s, ops[..j]), ops[j])
  {
    var after := Run(dir, s, ops[..i + 1]);
    assert ops[..i + 1][..i] == ops[..i];
    assert after == Step(dir, Run(dir, s, ops[..i]), ops[i]);
    var t := ops[i].token.value;
    assert after.refreshTokens[t].revokedAt.Some?;
    assert ops[..j][..i + 1] == ops[..i + 1];
    RevocationIsPermanent(dir, s, ops[..j], i + 1);
  }

  function DrawOf(op: Op): Draw
    requires op.Login? || op.Refresh? || op.SwitchWorkspace?
  {
    op.draw
  }

  /** Issuing credentials leaves its lineage with one live refresh token, the new one: a login or a switch
      opens a lineage of its own, a refresh hands the lineage and the user on. */
  lemma IssuedTokenIsTheTip(dir: Directory, s: State, op: Op)
    requires CredentialInv(dir, s) && Succeeds(dir, s, op) && (op.Login? || op.Refresh? || op.SwitchWorkspace?)
    ensures var s', tip := Step(dir, s, op), DrawOf(op).refresh;
            && tip in s'.refreshTokens && s'.refreshTokens[tip].revokedAt.None?
            && (forall t | t in s'.refreshTokens && t != tip && s'.refreshTokens[t].lineage == s'.refreshTokens[tip].lineage ::
                  s'.refreshTokens[t].revokedAt.Some?)
            && (if op.Refresh? then
                  && s'.refreshTokens[tip].lineage == s.refreshTokens[op.token.value].lineage
                  && s'.refreshTokens[tip].user == s.refreshTokens[op.token.value].user
                else s'.refreshTokens[tip].lineage == s.lineages && s'.lineages == s.lineages + 1)
            && (forall t: int :: ValidAccess(s', DrawOf(op).access, t) <==> t < DrawOf(op).now + 15 * MINUTE)
            && (forall t: int :: Usable(s'.refreshTokens[tip].expiresAt, s'.refreshTokens[tip].revokedAt, t) <==> t < DrawOf(op).now + 30 * DAY)
  {
    StepKeepsInv(dir, s, op);
  }

  /** Who is still signed in after somebody signs out other sessions: everyone else as before, and of the
      user's own sessions only the current one; a refresh token survives if it is the presented one, somebody
      else's, or if none was presented. A logout ends the presented pair and nothing else. */
  lemma SignedInAfterwards(dir: Directory, s: State, user: UserId, current: Token, refresh: Option<Token>, now: int, at: int)
    ensures var s' := Step(dir, s, RevokeOtherSessions(user, current, refresh, now));
            && (forall t | t in s.sessions :: ValidAccess(s', t, at) <==>
                  ValidAccess(s, t, at) && (t == current || s.sessions[t].user != user))
            && (forall t | t in s.refreshTokens && s.refreshTokens[t].revokedAt.None? :: s'.refreshTokens[t].revokedAt.None? <==>
                  refresh.None? || t == refresh.value || s.refreshTokens[t].user != user)
    ensures var s' := Step(dir, s, Logout(Some(current), refresh, now));
            && (forall t | t in s.sessions :: ValidAccess(s', t, at) <==> ValidAccess(s, t, at) && t != current)
            && (forall t | t in s.refreshTokens && s.refreshTokens[t].revokedAt.None? :: s'.refreshTokens[t].revokedAt.None? <==>
                  Some(t) != refresh)
  {}

  /** Signing out one session ends that session only, and no refresh token: not even the one issued with
      it. Signing out everywhere ends every credential of the identity. */
  lemma OneSignOutKeepsRefreshTokens(dir: Directory, s: State, user: UserId, session: Token, now: int, at: int)
    requires CredentialInv(dir, s)
    ensures var s' := Step(dir, s, RevokeSession(user, session, now));
            && s'.refreshTokens == s.refreshTokens
            && forall t | t in s.sessions :: ValidAccess(s', t, at) <==>
                 ValidAccess(s, t, at) && (t != session || s.sessions[t].user != user)
    ensures AllRevoked(Step(dir, s, LogoutAll(user, Some(dir(user)), now)), dir(user))
  {}

  /** So a person whose session was signed out comes back with any refresh token that was usable, as the same
      user and without logging in; after signing out everywhere no refresh token of the identity refreshes. */
  lemma SignedOutSessionComesBack(dir: Directory, s: State, user: UserId, session: Token, now: int, token: Token, account: Account, draw: Draw)
    requires CredentialInv(dir, s) && token in s.refreshTokens && s.refreshTokens[token].user == user
    requires MayAuthenticate(account) && Fresh(s, draw)
    ensures var s', refresh := Step(dir, s, RevokeSession(user, session, now)), Refresh(Some(token), account, draw);
            && (Succeeds(dir, s', refresh) <==> Usable(s.refreshTokens[token].expiresAt, s.refreshTokens[token].revokedAt, draw.now))
            && (Succeeds(dir, s', refresh) ==>
                  && ValidAccess(Step(dir, s', refresh), draw.access, draw.now)
                  && Step(dir, s', refresh).sessions[draw.access].user == user)
    ensures !Succeeds(dir, Step(dir, s, LogoutAll(user, Some(dir(user)), now)), Refresh(Some(token), account, draw))
  {
    OneSignOutKeepsRefreshTokens(dir, s, user, session, now, draw.now);
  }

  // ---------------------------------------------------------------- replay

  /** Not one credential of the identity is left unrevoked. */
  ghost predicate AllRevoked(s: State, identity: IdentityId) {
    && (forall t | t in s.sessions && s.sessions[t].identity == Some(identity) :: s.sessions[t].revokedAt.Some?)
    && (forall t | t in s.refreshTokens && s.refreshTokens[t].identity == Some(identity) :: s.refreshTokens[t].revokedAt.Some?)
  }

  lemma ReplayRevokesIdentity(dir: Directory, s: State, op: Op)
    requires CredentialInv(dir, s) && IsReplay(s, op)
    ensures AllRevoked(Step(dir, s, op), dir(s.refreshTokens[op.token.value].user))
    ensures !Succeeds(dir, s, op)
  {}

  /** The rows of one identity, or of one user, are the same in both states. */
  ghost predicate SameFor(a: State, b: State, mine: UserId -> bool) {
    && (forall t | t in a.sessions && mine(a.sessions[t].user) :: t in b.sessions && b.sessions[t] == a.sessions[t])
    && (forall t | t in a.refreshTokens && mine(a.refreshTokens[t].user) :: t in b.refreshTokens && b.refreshTokens[t] == a.refreshTokens[t])
  }

  function OtherThan(dir: Directory, identity: IdentityId): UserId -> bool { (u: UserId) => dir(u) != identity }

  /** Whoever is signed out by a replay or everywhere, everybody else's sessions and refresh tokens stay row
      for row, so they validate and refresh exactly as before; and no new row appears. */
  lemma OthersStaySignedIn(dir: Directory, s: State, op: Op, identity: IdentityId)
    requires CredentialInv(dir, s)
    requires || (IsReplay(s, op) && identity == dir(s.refreshTokens[op.token.value].user))
             || (op.LogoutAll? && op.identity == Some(identity))
    ensures SameFor(s, Step(dir, s, op), OtherThan(dir, identity))
    ensures Step(dir, s, op).sessions.Keys == s.sessions.Keys && Step(dir, s, op).refreshTokens.Keys == s.refreshTokens.Keys
    ensures AllRevoked(Step(dir, s, op), identity)
    ensures forall t, at | t in s.sessions && dir(s.sessions[t].user) != identity ::
              ValidAccess(Step(dir, s, op), t, at) <==> ValidAccess(s, t, at)
  {}

  /** Signing out everywhere without a known identity reaches the user's own rows, all of them and no other. */
  lemma WithoutIdentityOneUser(dir: Directory, s: State, user: UserId, now: int)
    ensures var s' := Step(dir, s, LogoutAll(user, None, now));
            && SameFor(s, s', (u: UserId) => u != user)
            && (forall t | t in s.sessions && s.sessions[t].user == user :: t in s'.sessions && s'.sessions[t].revokedAt.Some?)
            && (forall t | t in s.refreshTokens && s.refreshTokens[t].user == user ::
                  t in s'.refreshTokens && s'.refreshTokens[t].revokedAt.Some?)
  {}

  /** One session and one refresh token are added, both of the given user, and no row but those of the given
      tokens is touched. */
  ghost predicate Issued(dir: Directory, a: State, b: State, d: Draw, user: UserId, sessions: set<Token>, tokens: set<Token>) {
    && d.access !in a.sessions && d.refresh !in a.refreshTokens
    && b.sessions.Keys == a.sessions.Keys + {d.access} && b.refreshTokens.Keys == a.refreshTokens.Keys + {d.refresh}
    && b.sessions[d.access].user == b.refreshTokens[d.refresh].user == user
    && b.sessions[d.access].identity == b.refreshTokens[d.refresh].identity == Some(dir(user))
    && (forall t | t in a.sessions && t !in sessions :: b.sessions[t] == a.sessions[t])
    && (forall t | t in a.refreshTokens && t !in tokens :: b.refreshTokens[t] == a.refreshTokens[t])
  }

  lemma LoginTouchesOnly(dir: Directory, s: State, op: Op)
    requires op.Login? && Succeeds(dir, s, op)
    ensures Issued(dir, s, Step(dir, s, op), op.draw, op.user, {}, {})
  {}

  /** A refresh ends the presented token and no session, not even the one it replaces. */
  lemma RefreshTouchesOnly(dir: Directory, s: State, op: Op)
    requires op.Refresh? && Succeeds(dir, s, op)
    ensures Issued(dir, s, Step(dir, s, op), op.draw, s.refreshTokens[op.token.value].user, {}, {op.token.value})
    ensures Step(dir, s, op).refreshTokens[op.token.value].revokedAt == Some(op.draw.now)
  {}

  /** A switch ends the presented pair and stays within the identity of the session that asked for it. */
  lemma SwitchTouchesOnly(dir: Directory, s: State, op: Op)
    requires CredentialInv(dir, s) && op.SwitchWorkspace? && Succeeds(dir, s, op)
    ensures Issued(dir, s, Step(dir, s, op), op.draw, op.target,
                   (set t | t in s.sessions && op.access == Some(t)), (set t | t in s.refreshTokens && op.refresh == Some(t)))
    ensures forall t | t in s.sessions && op.access == Some(t) :: Step(dir, s, op).sessions[t].revokedAt.Some?
    ensures forall t | t in s.refreshTokens && op.refresh == Some(t) :: Step(dir, s, op).refreshTokens[t].revokedAt.Some?
    ensures Step(dir, s, op).sessions[op.draw.access].identity == s.sessions[op.guard].identity
  {
    PairIsEnded(s, op.access, op.refresh, op.draw.now);
    var ended := RevokePair(s, op.access, op.refresh, op.draw.now);
    assert Step(dir, s, op) == Issue(ended, op.target, dir(op.target), s.lineages, op.draw).(lineages := s.lineages + 1);
  }

  lemma PairIsEnded(s: State, access: Option<Token>, refresh: Option<Token>, now: int)
    ensures var s' := RevokePair(s, access, refresh, now);
            && s'.sessions.Keys == s.sessions.Keys && s'.refreshTokens.Keys == s.refreshTokens.Keys
            && (forall t | t in s.sessions :: if access == Some(t) then s'.sessions[t].revokedAt.Some? else s'.sessions[t] == s.sessions[t])
            && (forall t | t in s.refreshTokens ::
                  if refresh == Some(t) then s'.refreshTokens[t].revokedAt.Some? else s'.refreshTokens[t] == s.refreshTokens[t])
  {}

  /** The clock of a call. */
  function ClockOf(op: Op): int {
    match op
    case Login(_, _, _, draw) => draw.now
    case Refresh(_, _, draw) => draw.now
    case Logout(_, _, now) => now
    case LogoutAll(_, _, now) => now
    case RevokeSession(_, _, now) => now
    case RevokeOtherSessions(_, _, _, now) => now
    case SwitchWorkspace(_, _, _, _, _, _, draw) => draw.now
  }

  /** What a call revokes is revoked at the time of the call. */
  lemma RevokedAtItsTime(dir: Directory, s: State, op: Op, t: Token)
    ensures t in s.sessions ==> t in Step(dir, s, op).sessions
    ensures t in s.sessions && Step(dir, s, op).sessions[t].revokedAt != s.sessions[t].revokedAt ==>
              s.sessions[t].revokedAt.None? && Step(dir, s, op).sessions[t].revokedAt == Some(ClockOf(op))
    ensures t in s.refreshTokens ==> t in Step(dir, s, op).refreshTokens
    ensures t in s.refreshTokens && Step(dir, s, op).refreshTokens[t].revokedAt != s.refreshTokens[t].revokedAt ==>
              s.refreshTokens[t].revokedAt.None? && Step(dir, s, op).refreshTokens[t].revokedAt == Some(ClockOf(op))
  {}

  /** Nobody deleted or inactive, in any of the three roles, is issued credentials; a login also needs the
      right password and a lock that has run out. */
  lemma OnlyActivePeople(dir: Directory, s: State, op: Op)
    requires Succeeds(dir, s, op) && (op.Login? || op.Refresh? || op.SwitchWorkspace?)
    ensures op.account.identity == op.account.membership == op.account.user == Standing(true, false)
    ensures op.SwitchWorkspace? ==> op.actor.identity == op.actor.membership == op.actor.user == Standing(true, false)
    ensures op.Login? ==> op.password.stored && op.password.matches && (op.password.lockedUntil.Some? ==> op.password.lockedUntil.value <= op.draw.now)
  {}

  predicate LogsIn(dir: Directory, op: Op, identity: IdentityId) {
    op.Login? && dir(op.user) == identity
  }

  lemma {:induction false} StaysRevoked(dir: Directory, s: State, ops: seq<Op>, identity: IdentityId)
    requires CredentialInv(dir, s) && AllRevoked(s, identity)
    requires forall i | 0 <= i < |ops| :: !LogsIn(dir, ops[i], identity)
    ensures CredentialInv(dir, Run(dir, s, ops)) && AllRevoked(Run(dir, s, ops), identity)
  {
    if ops != [] {
      var n := |ops| - 1;
      StaysRevoked(dir, s, ops[..n], identity);
      StepKeepsInv(dir, Run(dir, s, ops[..n]), ops[n]);
      StepStaysRevoked(dir, Run(dir, s, ops[..n]), ops[n], identity);
    }
  }

  /** Neither a refresh nor a workspace switch can revive an identity: both need a live credential of it. */
  lemma StepStaysRevoked(dir: Directory, s: State, op: Op, identity: IdentityId)
    requires CredentialInv(dir, s) && AllRevoked(s, identity) && !LogsIn(dir, op, identity)
    ensures AllRevoked(Step(dir, s, op), identity)
  {}

  /** Replaying a consumed token locks the whole identity out, in all its workspaces, until it logs in
      again: no access token of it validates and no refresh token of it refreshes. */
  lemma ReplayLocksOut(dir: Directory, before: seq<Op>, op: Op, after: seq<Op>, identity: IdentityId)
    requires IsReplay(Run(dir, EMPTY, before), op)
    requires identity == dir(Run(dir, EMPTY, before).refreshTokens[op.token.value].user)
    requires forall i | 0 <= i < |after| :: !LogsIn(dir, after[i], identity)
    ensures var s := Run(dir, Step(dir, Run(dir, EMPTY, before), op), after);
            && (forall t: Token, now: int | t in s.sessions && dir(s.sessions[t].user) == identity :: !ValidAccess(s, t, now))
            && (forall probe: Op | probe.Refresh? && probe.token.Some? && probe.token.value in s.refreshTokens
                                   && dir(s.refreshTokens[probe.token.value].user) == identity :: !Succeeds(dir, s, probe))
  {
    var start := Run(dir, EMPTY, before);
    RunKeepsInv(dir, before);
    ReplayRevokesIdentity(dir, start, op);
    StepKeepsInv(dir, start, op);
    StaysRevoked(dir, Step(dir, start, op), after, identity);
  }
}
