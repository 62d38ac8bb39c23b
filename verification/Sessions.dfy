/** Login sessions and refresh-token rotation (auth/session.py and the login, refresh and logout
  routes).

  A token is an opaque string that decodes to its claims if it was issued here and has not expired.
  Each request is a transaction: one that raises or answers 401 leaves the tables as they were.
 */
module Sessions {
  type Token = string
  type Jti = string
  type UserId = string
  type Digest = string
  type Time = int

  datatype Option<T> = None | Some(value: T)

  datatype Kind = Access | Refresh

  datatype Claims = Claims(user: UserId, kind: Kind, jti: Jti, exp: Time)

  /** A row of the sessions table. The lineage is history: the number of the login it descends from. */
  datatype Session = Session(user: UserId, tokenHash: Digest, expires: Time, revoked: bool, lineage: nat)

  /** The tables, the tokens that the signing key has issued, and as history the number of logins and
    the refresh tokens that were exchanged, in order. */
  datatype State = State(
    users: set<UserId>,
    sessions: seq<Session>,
    blacklist: map<Jti, Time>,
    issued: map<Token, Claims>,
    logins: nat,
    exchanged: seq<Token>)

  datatype Config = Config(hash: Token -> Digest, lifetime: Time)

  ghost predicate Injective(h: Token -> Digest) {
    forall a, b :: h(a) == h(b) ==> a == b
  }

  /** The strings and ids that a request draws: UUIDs and signatures, never seen before. */
  datatype Draw = Draw(
    access: Token, accessJti: Jti, accessExp: Time,
    refresh: Token, refreshJti: Jti, refreshExp: Time)

  ghost predicate Fresh(s: State, d: Draw) {
    && d.access !in s.issued && d.refresh !in s.issued && d.access != d.refresh && d.accessJti != d.refreshJti
    && (forall t :: t in s.issued ==> s.issued[t].jti != d.accessJti && s.issued[t].jti != d.refreshJti)
    && d.accessJti !in s.blacklist && d.refreshJti !in s.blacklist
  }

  /** A forged or expired token does not decode. */
  function Decode(s: State, token: Token, now: Time): Option<Claims> {
    if token !in s.issued || s.issued[token].exp < now then None else Some(s.issued[token])
  }

  function CreateSession(s: State, user: UserId, lineage: nat, d: Draw, now: Time, config: Config): State {
    s.(sessions := s.sessions + [Session(user, config.hash(d.refresh), now + config.lifetime, false, lineage)],
       issued := s.issued[d.access := Claims(user, Access, d.accessJti, d.accessExp)]
                         [d.refresh := Claims(user, Refresh, d.refreshJti, d.refreshExp)])
  }

  /** The position of the unrevoked session with this hash. */
  function FindSession(sessions: seq<Session>, h: Digest): (r: Option<nat>)
    ensures r.Some? ==> r.value < |sessions| && sessions[r.value].tokenHash == h && !sessions[r.value].revoked
    ensures r.None? ==> forall i :: 0 <= i < |sessions| ==> sessions[i].tokenHash != h || sessions[i].revoked
  {
    if sessions == [] then None
    else
      var n := |sessions| - 1;
      if sessions[n].tokenHash == h && !sessions[n].revoked then Some(n) else FindSession(sessions[..n], h)
  }

  datatype Answer = Rejected | Raised | Revoked | Pair(access: Token, refresh: Token)

  /** The refresh route. The blacklist's unique jti raises when the token was logged out before. */
  function Exchange(s: State, token: Token, d: Draw, now: Time, config: Config): (State, Answer) {
    var claims := Decode(s, token, now);
    if claims.None? || claims.value.kind != Refresh then (s, Rejected)
    else
      var found := FindSession(s.sessions, config.hash(token));
      if found.None? || s.sessions[found.value].expires < now then (s, Rejected)
      else if claims.value.user !in s.users then (s, Rejected)
      else if claims.value.jti in s.blacklist then (s, Raised)
      else
        var i, row := found.value, s.sessions[found.value];
        var s' := s.(sessions := s.sessions[i := row.(revoked := true)],
                     blacklist := s.blacklist[claims.value.jti := row.expires],
                     exchanged := s.exchanged + [token]);
        (CreateSession(s', claims.value.user, row.lineage, d, now, config), Pair(d.access, d.refresh))
  }

  function Login(s: State, user: UserId, d: Draw, now: Time, config: Config): State {
    if user !in s.users then s
    else CreateSession(s, user, s.logins, d, now, config).(logins := s.logins + 1)
  }

  /** The logout route takes any token that decodes, access or refresh. */
  function RevokeToken(s: State, token: Token, now: Time): (State, Answer) {
    var claims := Decode(s, token, now);
    if claims.None? then (s, Rejected)
    else if claims.value.jti in s.blacklist then (s, Raised)
    else (s.(blacklist := s.blacklist[claims.value.jti := claims.value.exp]), Revoked)
  }

  /// Runs

  datatype Step =
    | DoLogin(user: UserId, draw: Draw, now: Time)
    | DoRefresh(token: Token, draw: Draw, now: Time)
    | DoLogout(token: Token, now: Time)

  ghost function Apply(s: State, step: Step, config: Config): State {
    match step
    case DoLogin(user, d, now) => if Fresh(s, d) then Login(s, user, d, now, config) else s
    case DoRefresh(token, d, now) => if Fresh(s, d) then Exchange(s, token, d, now, config).0 else s
    case DoLogout(token, now) => RevokeToken(s, token, now).0
  }

  ghost function Run(s: State, steps: seq<Step>, config: Config): State
    decreases |steps|
  {
    if steps == [] then s else Run(Apply(s, steps[0], config), steps[1..], config)
  }

  function Start(users: set<UserId>): State {
    State(users, [], map[], map[], 0, [])
  }

  /// The invariant

  /** The issued refresh token behind a session row. */
  ghost predicate Backs(s: State, token: Token, row: Session, config: Config) {
    token in s.issued && s.issued[token].kind == Refresh && config.hash(token) == row.tokenHash
  }

  ghost predicate Backed(s: State, row: Session, config: Config) {
    exists t :: Backs(s, t, row, config)
  }

  ghost predicate JtisUnique(s: State) {
    forall t, t' :: t in s.issued && t' in s.issued && s.issued[t].jti == s.issued[t'].jti ==> t == t'
  }

  /** Every session row stems from an issued refresh token, no two from the same. */
  ghost predicate RowsBacked(s: State, config: Config) {
    && (forall i :: 0 <= i < |s.sessions| ==> Backed(s, s.sessions[i], config))
    && (forall i, j :: 0 <= i < j < |s.sessions| ==> s.sessions[i].tokenHash != s.sessions[j].tokenHash)
  }

  /** A revoked row's token was exchanged and is blacklisted with the row's expiry. */
  ghost predicate RevokedOk(s: State, config: Config) {
    forall i, t :: 0 <= i < |s.sessions| && Backs(s, t, s.sessions[i], config) ==>
      && (s.sessions[i].revoked <==> t in s.exchanged)
      && (s.sessions[i].revoked ==>
            s.issued[t].jti in s.blacklist && s.blacklist[s.issued[t].jti] == s.sessions[i].expires)
  }

  ghost predicate ExchangedOnce(s: State, config: Config) {
    && (forall i, j :: 0 <= i < j < |s.exchanged| ==> s.exchanged[i] != s.exchanged[j])
    && (forall t :: t in s.exchanged ==> t in s.issued)
  }

  /** Each login has exactly one row that is not revoked. */
  ghost predicate OneLive(sessions: seq<Session>, logins: nat) {
    && (forall l :: 0 <= l < logins ==> HasLive(sessions, l))
    && (forall i, j, l :: 0 <= i < j < |sessions| ==> !(Live(sessions[i], l) && Live(sessions[j], l)))
    && (forall i :: 0 <= i < |sessions| ==> sessions[i].lineage < logins)
  }

  ghost predicate HasLive(sessions: seq<Session>, lineage: nat) {
    exists i :: 0 <= i < |sessions| && Live(sessions[i], lineage)
  }

  predicate Live(row: Session, lineage: nat) {
    !row.revoked && row.lineage == lineage
  }

  ghost predicate Inv(s: State, config: Config) {
    && JtisUnique(s)
    && RowsBacked(s, config)
    && RevokedOk(s, config)
    && ExchangedOnce(s, config)
    && OneLive(s.sessions, s.logins)
  }

  /** Adding a row for a token that was never issued. */
  lemma CreateKeeps(s: State, user: UserId, lineage: nat, d: Draw, now: Time, config: Config)
    requires Injective(config.hash) && Fresh(s, d)
    requires JtisUnique(s) && RowsBacked(s, config) && RevokedOk(s, config) && ExchangedOnce(s, config)
    ensures var s' := CreateSession(s, user, lineage, d, now, config);
      JtisUnique(s') && RowsBacked(s', config) && RevokedOk(s', config) && ExchangedOnce(s', config)
  {
    var s' := CreateSession(s, user, lineage, d, now, config);
    var n := |s.sessions|;
    forall i | 0 <= i < n ensures Backed(s', s'.sessions[i], config) {
      assert Backed(s, s.sessions[i], config);
      var t :| Backs(s, t, s.sessions[i], config);
      assert Backs(s', t, s'.sessions[i], config);
    }
    assert Backs(s', d.refresh, s'.sessions[n], config);
    forall i | 0 <= i < n ensures s'.sessions[i].tokenHash != s'.sessions[n].tokenHash {
      assert Backed(s, s.sessions[i], config);
      var t :| Backs(s, t, s.sessions[i], config);
    }
    forall i, t | 0 <= i < n + 1 && Backs(s', t, s'.sessions[i], config)
      ensures s'.sessions[i].revoked <==> t in s'.exchanged
      ensures s'.sessions[i].revoked ==>
                s'.issued[t].jti in s'.blacklist && s'.blacklist[s'.issued[t].jti] == s'.sessions[i].expires
    {
      if i < n {
        assert Backed(s, s.sessions[i], config);
        var t0 :| Backs(s, t0, s.sessions[i], config);
        assert t0 == t;
      } else {
        assert t == d.refresh;
      }
    }
  }

  /** Revoking the row of a token that decodes. */
  lemma RevokeKeeps(s: State, token: Token, i: nat, config: Config)
    requires Injective(config.hash) && Inv(s, config) && i < |s.sessions|
    requires Backs(s, token, s.sessions[i], config) && !s.sessions[i].revoked
    requires s.issued[token].jti !in s.blacklist
    ensures var row := s.sessions[i];
      var s' := s.(sessions := s.sessions[i := row.(revoked := true)],
                   blacklist := s.blacklist[s.issued[token].jti := row.expires],
                   exchanged := s.exchanged + [token]);
      JtisUnique(s') && RowsBacked(s', config) && RevokedOk(s', config) && ExchangedOnce(s', config)
  {
    var row := s.sessions[i];
    var s' := s.(sessions := s.sessions[i := row.(revoked := true)],
                 blacklist := s.blacklist[s.issued[token].jti := row.expires],
                 exchanged := s.exchanged + [token]);
    forall k | 0 <= k < |s'.sessions| ensures Backed(s', s'.sessions[k], config) {
      assert Backed(s, s.sessions[k], config);
      var t :| Backs(s, t, s.sessions[k], config);
      assert Backs(s', t, s'.sessions[k], config);
    }
    forall k, t | 0 <= k < |s'.sessions| && Backs(s', t, s'.sessions[k], config)
      ensures s'.sessions[k].revoked <==> t in s'.exchanged
      ensures s'.sessions[k].revoked ==>
                s'.issued[t].jti in s'.blacklist && s'.blacklist[s'.issued[t].jti] == s'.sessions[k].expires
    {
      assert Backs(s, t, s.sessions[k], config);
      assert k != i ==> t != token;
      assert k == i ==> t == token;
    }
    assert token !in s.exchanged;
  }

  lemma LiveAfterLogin(sessions: seq<Session>, logins: nat, row: Session)
    requires OneLive(sessions, logins) && Live(row, logins)
    ensures OneLive(sessions + [row], logins + 1)
  {
    var all := sessions + [row];
    forall l | 0 <= l < logins + 1 ensures HasLive(all, l) {
      if l < logins {
        assert HasLive(sessions, l);
        var i :| 0 <= i < |sessions| && Live(sessions[i], l);
        assert Live(all[i], l);
      } else {
        assert Live(all[|sessions|], l);
      }
    }
  }

  lemma LiveAfterExchange(sessions: seq<Session>, logins: nat, i: nat, row: Session)
    requires OneLive(sessions, logins) && i < |sessions| && Live(sessions[i], row.lineage) && !row.revoked
    ensures OneLive(sessions[i := sessions[i].(revoked := true)] + [row], logins)
  {
    var all := sessions[i := sessions[i].(revoked := true)] + [row];
    forall l | 0 <= l < logins ensures HasLive(all, l) {
      if l == row.lineage {
        assert Live(all[|sessions|], l);
      } else {
        assert HasLive(sessions, l);
        var k :| 0 <= k < |sessions| && Live(sessions[k], l);
        assert Live(all[k], l);
      }
    }
    forall j, k, l | 0 <= j < k < |all| ensures !(Live(all[j], l) && Live(all[k], l)) {
    }
  }

  lemma LogoutKeeps(s: State, token: Token, now: Time, config: Config)
    requires Inv(s, config)
    ensures Inv(RevokeToken(s, token, now).0, config)
  {
    var s' := RevokeToken(s, token, now).0;
    hide OneLive;
    forall i, t | 0 <= i < |s'.sessions| && Backs(s', t, s'.sessions[i], config)
      ensures s'.sessions[i].revoked <==> t in s'.exchanged
      ensures s'.sessions[i].revoked ==>
                s'.issued[t].jti in s'.blacklist && s'.blacklist[s'.issued[t].jti] == s'.sessions[i].expires
    {
      assert Backs(s, t, s.sessions[i], config);
    }
    forall i | 0 <= i < |s'.sessions| ensures Backed(s', s'.sessions[i], config) {
      assert Backed(s, s.sessions[i], config);
      var t :| Backs(s, t, s.sessions[i], config);
      assert Backs(s', t, s'.sessions[i], config);
    }
  }

  lemma ExchangeKeeps(s: State, token: Token, d: Draw, now: Time, config: Config)
    requires Injective(config.hash) && Inv(s, config) && Fresh(s, d)
    ensures Inv(Exchange(s, token, d, now, config).0, config)
  {
    var (s', answer) := Exchange(s, token, d, now, config);
    if answer.Pair? {
      hide OneLive, RowsBacked, RevokedOk, ExchangedOnce, Injective;
      var i := FindSession(s.sessions, config.hash(token)).value;
      RevokeKeeps(s, token, i, config);
      var row := s.sessions[i];
      var middle := s.(sessions := s.sessions[i := row.(revoked := true)],
                       blacklist := s.blacklist[s.issued[token].jti := row.expires],
                       exchanged := s.exchanged + [token]);
      CreateKeeps(middle, s.issued[token].user, row.lineage, d, now, config);
      LiveAfterExchange(s.sessions, s.logins, i,
                        Session(s.issued[token].user, config.hash(d.refresh), now + config.lifetime, false,
                                row.lineage));
    }
  }

  lemma StepKeepsInv(s: State, step: Step, config: Config)
    requires Injective(config.hash) && Inv(s, config)
    ensures Inv(Apply(s, step, config), config)
  {
    hide Injective, OneLive, RowsBacked, RevokedOk, ExchangedOnce, JtisUnique, Exchange, RevokeToken;
    match step
    case DoLogin(user, d, now) =>
      if Fresh(s, d) && user in s.users {
        CreateKeeps(s, user, s.logins, d, now, config);
        LiveAfterLogin(s.sessions, s.logins,
                       Session(user, config.hash(d.refresh), now + config.lifetime, false, s.logins));
        LoginKeepsRest(CreateSession(s, user, s.logins, d, now, config), s.logins + 1, config);
      }
    case DoRefresh(token, d, now) =>
      if Fresh(s, d) {
        ExchangeKeeps(s, token, d, now, config);
      }
    case DoLogout(token, now) =>
      LogoutKeeps(s, token, now, config);
  }

  lemma LoginKeepsRest(s: State, logins: nat, config: Config)
    requires JtisUnique(s) && RowsBacked(s, config) && RevokedOk(s, config) && ExchangedOnce(s, config)
    ensures var s' := s.(logins := logins);
      JtisUnique(s') && RowsBacked(s', config) && RevokedOk(s', config) && ExchangedOnce(s', config)
  {
    var s' := s.(logins := logins);
    assert forall t, row :: Backs(s', t, row, config) <==> Backs(s, t, row, config);
    assert forall row :: Backed(s, row, config) ==> Backed(s', row, config);
  }

  lemma {:induction false} RunKeepsInv(s: State, steps: seq<Step>, config: Config)
    requires Injective(config.hash) && Inv(s, config)
    ensures Inv(Run(s, steps, config), config)
    decreases |steps|
  {
    hide Inv, Apply, Injective;
    if steps != [] {
      StepKeepsInv(s, steps[0], config);
      RunKeepsInv(Apply(s, steps[0], config), steps[1..], config);
    }
  }

  /** Over every run from a start without sessions: no refresh token is exchanged twice, each login
    has exactly one session that is not revoked, and every revoked session's token is blacklisted
    with the expiry of that session. */
  lemma SessionsAreSafe(users: set<UserId>, steps: seq<Step>, config: Config)
    requires Injective(config.hash)
    ensures var s := Run(Start(users), steps, config);
      && (forall i, j :: 0 <= i < j < |s.exchanged| ==> s.exchanged[i] != s.exchanged[j])
      && OneLive(s.sessions, s.logins)
      && (forall i :: 0 <= i < |s.sessions| && s.sessions[i].revoked ==>
            exists t :: Backs(s, t, s.sessions[i], config) && t in s.exchanged
                        && s.issued[t].jti in s.blacklist && s.blacklist[s.issued[t].jti] == s.sessions[i].expires)
  {
    hide Run, OneLive, JtisUnique;
    assert OneLive([], 0) by {
      NoneLive();
    }
    assert JtisUnique(Start(users)) by {
      NoJtis(users);
    }
    RunKeepsInv(Start(users), steps, config);
    var s := Run(Start(users), steps, config);
    forall i | 0 <= i < |s.sessions| && s.sessions[i].revoked
      ensures exists t :: Backs(s, t, s.sessions[i], config) && t in s.exchanged
                          && s.issued[t].jti in s.blacklist && s.blacklist[s.issued[t].jti] == s.sessions[i].expires
    {
      assert Backed(s, s.sessions[i], config);
      var t :| Backs(s, t, s.sessions[i], config);
    }
  }

  lemma NoneLive()
    ensures OneLive([], 0)
  {
  }

  lemma NoJtis(users: set<UserId>)
    ensures JtisUnique(Start(users))
  {
  }

  /** Exactly when a refresh succeeds: the token is a live, unexpired refresh token of a known user
    that was neither exchanged nor logged out before. */
  lemma {:induction false} ExchangeSucceedsIff(s: State, token: Token, d: Draw, now: Time, config: Config)
    requires Injective(config.hash) && Inv(s, config)
    ensures Exchange(s, token, d, now, config).1.Pair? <==>
            && token in s.issued && s.issued[token].kind == Refresh && s.issued[token].exp >= now
            && s.issued[token].user in s.users
            && token !in s.exchanged && s.issued[token].jti !in s.blacklist
            && (exists i :: 0 <= i < |s.sessions|
                            && Backs(s, token, s.sessions[i], config) && s.sessions[i].expires >= now)
  {
    hide OneLive, JtisUnique, ExchangedOnce;
    var found := FindSession(s.sessions, config.hash(token));
    if token in s.issued && s.issued[token].kind == Refresh {
      if found.Some? {
        assert Backs(s, token, s.sessions[found.value], config);
      }
      if i :| 0 <= i < |s.sessions| && Backs(s, token, s.sessions[i], config) && s.sessions[i].expires >= now {
        assert found.Some? ==> !(found.value < i) && !(i < found.value);
      }
    }
  }

  /** A refresh hands on exactly one working token: the new one can be exchanged until it or its
    session expires, and the old one never again. */
  lemma {:induction false} NewTokenTakesOver(s: State, token: Token, d: Draw, now: Time, config: Config, d': Draw,
                                             now': Time)
    requires Injective(config.hash) && Inv(s, config) && Fresh(s, d)
    requires Exchange(s, token, d, now, config).1.Pair?
    ensures var s' := Exchange(s, token, d, now, config).0;
      && (Exchange(s', d.refresh, d', now', config).1.Pair? <==> now' <= d.refreshExp && now' <= now + config.lifetime)
      && Exchange(s', token, d', now', config).1 == Rejected
  {
    ExchangeKeeps(s, token, d, now, config);
    var s' := Exchange(s, token, d, now, config).0;
    ExchangeSucceedsIff(s', d.refresh, d', now', config);
    ExchangeSucceedsIff(s', token, d', now', config);
    var n := |s'.sessions| - 1;
    assert Backs(s', d.refresh, s'.sessions[n], config) && s'.sessions[n].expires == now + config.lifetime;
  }

  /// What each request does, and logout over runs

  /** A login of a known user issues an access and a refresh token with the drawn ids and expiries, opens one
    unrevoked session under the hash of the refresh token, and touches no other token, session or
    blacklist entry. Nobody else gets in. */
  lemma LoginEffect(s: State, user: UserId, d: Draw, now: Time, config: Config)
    requires d.access != d.refresh
    ensures var s' := Login(s, user, d, now, config);
      if user in s.users then
        && s'.issued.Keys == s.issued.Keys + {d.access, d.refresh}
        && s'.issued[d.access] == Claims(user, Access, d.accessJti, d.accessExp)
        && s'.issued[d.refresh] == Claims(user, Refresh, d.refreshJti, d.refreshExp)
        && (forall t :: t in s.issued && t != d.access && t != d.refresh ==> s'.issued[t] == s.issued[t])
        && s'.sessions == s.sessions + [Session(user, config.hash(d.refresh), now + config.lifetime, false, s.logins)]
        && s'.blacklist == s.blacklist && s'.users == s.users && s'.exchanged == s.exchanged
        && s'.logins == s.logins + 1
      else s' == s
    ensures Fresh(s, d) ==> Apply(s, DoLogin(user, d, now), config) == Login(s, user, d, now, config)
  {
  }

  /** A refresh answers with the drawn pair and with nothing else; the access token is issued to the user of
    the refresh token. When it answers otherwise it has changed nothing, and it raises exactly when all
    is well but for the blacklist. */
  lemma ExchangeAnswers(s: State, token: Token, d: Draw, now: Time, config: Config)
    requires d.access != d.refresh
    ensures var (s', answer) := Exchange(s, token, d, now, config);
      var open := token in s.issued && s.issued[token].exp >= now && s.issued[token].kind == Refresh
                  && s.issued[token].user in s.users && OpenSession(s, config.hash(token), now);
      && answer != Revoked
      && (!answer.Pair? ==> s' == s)
      && (answer == Raised <==> open && s.issued[token].jti in s.blacklist)
      && (answer.Pair? <==> open && s.issued[token].jti !in s.blacklist)
      && (answer.Pair? ==>
            && answer == Pair(d.access, d.refresh)
            && d.access in s'.issued
            && s'.issued[d.access] == Claims(s.issued[token].user, Access, d.accessJti, d.accessExp)
            && d.refresh in s'.issued
            && s'.issued[d.refresh] == Claims(s.issued[token].user, Refresh, d.refreshJti, d.refreshExp)
            && s'.users == s.users && s'.logins == s.logins)
    ensures Fresh(s, d) ==> Apply(s, DoRefresh(token, d, now), config) == Exchange(s, token, d, now, config).0
  {
  }

  /** The unrevoked session that is found for this hash has not expired. */
  ghost predicate OpenSession(s: State, h: Digest, now: Time) {
    FindSession(s.sessions, h).Some? && s.sessions[FindSession(s.sessions, h).value].expires >= now
  }

  /** A logout of a token that decodes and was not logged out or exchanged before blacklists its jti with the
    token's own expiry and changes nothing else. A token that does not decode is refused, and one whose
    jti is blacklisted raises; neither changes anything. */
  lemma RevokeEffect(s: State, token: Token, now: Time)
    ensures var (s', answer) := RevokeToken(s, token, now);
      var decodes := token in s.issued && s.issued[token].exp >= now;
      && (answer == Rejected <==> !decodes)
      && (answer == Raised <==> decodes && s.issued[token].jti in s.blacklist)
      && (answer == Revoked <==> decodes && s.issued[token].jti !in s.blacklist)
      && (answer != Revoked ==> s' == s)
      && (answer == Revoked ==>
            s' == s.(blacklist := s.blacklist[s.issued[token].jti := s.issued[token].exp]))
  {
  }

  /** Issued tokens keep their claims, and blacklist entries stay as they are. */
  lemma StepKeepsBlacklist(s: State, step: Step, config: Config)
    ensures var s' := Apply(s, step, config);
      && (forall j :: j in s.blacklist ==> j in s'.blacklist && s'.blacklist[j] == s.blacklist[j])
      && (forall t :: t in s.issued ==> t in s'.issued && s'.issued[t] == s.issued[t])
  {
    hide FindSession;
  }

  lemma {:induction false} RunKeepsBlacklist(s: State, steps: seq<Step>, config: Config)
    ensures var s' := Run(s, steps, config);
      && (forall j :: j in s.blacklist ==> j in s'.blacklist && s'.blacklist[j] == s.blacklist[j])
      && (forall t :: t in s.issued ==> t in s'.issued && s'.issued[t] == s.issued[t])
    decreases |steps|
  {
    if steps != [] {
      hide Apply;
      StepKeepsBlacklist(s, steps[0], config);
      RunKeepsBlacklist(Apply(s, steps[0], config), steps[1..], config);
    }
  }

  /** A token that was logged out is never exchanged again: over every later run of logins, refreshes and
    logouts its blacklist entry stays, a refresh with it gives no pair and changes nothing, and a second
    logout raises for as long as the token decodes. */
  lemma {:induction false} LogoutIsFinal(s: State, token: Token, now: Time, steps: seq<Step>, d: Draw, later: Time,
                                         config: Config)
    requires RevokeToken(s, token, now).1 == Revoked && d.access != d.refresh
    ensures var s' := Run(Apply(s, DoLogout(token, now), config), steps, config);
      && token in s'.issued && s'.issued[token] == s.issued[token]
      && s.issued[token].jti in s'.blacklist && s'.blacklist[s.issued[token].jti] == s.issued[token].exp
      && !Exchange(s', token, d, later, config).1.Pair?
      && Exchange(s', token, d, later, config).0 == s'
      && RevokeToken(s', token, later).1 == (if s.issued[token].exp >= later then Raised else Rejected)
  {
    hide Run, Exchange;
    RevokeEffect(s, token, now);
    var s1 := Apply(s, DoLogout(token, now), config);
    RunKeepsBlacklist(s1, steps, config);
    ExchangeAnswers(Run(s1, steps, config), token, d, later, config);
    RevokeEffect(Run(s1, steps, config), token, later);
  }

  /** Nor has any step of such a run exchanged it. */
  lemma {:induction false} LoggedOutIsNotExchanged(s: State, token: Token, steps: seq<Step>, config: Config)
    requires token in s.issued && s.issued[token].jti in s.blacklist && token !in s.exchanged
    ensures token !in Run(s, steps, config).exchanged
    decreases |steps|
  {
    if steps != [] {
      var s' := Apply(s, steps[0], config);
      StepKeepsBlacklist(s, steps[0], config);
      assert token !in s'.exchanged by {
        if steps[0].DoRefresh? && Fresh(s, steps[0].draw) && steps[0].token == token {
          ExchangeAnswers(s, token, steps[0].draw, steps[0].now, config);
        }
      }
      hide Apply;
      LoggedOutIsNotExchanged(s', token, steps[1..], config);
    }
  }
}
