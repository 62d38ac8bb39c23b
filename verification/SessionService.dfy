/** The session functions of the source as methods on the tables, each proved against module
  Sessions.
 */
module SessionService {
  import opened Sessions

  /** The session tables as the source changes them. */
  class SessionStore {
    const config: Config
    var users: set<UserId>
    var sessions: seq<Session>
    var blacklist: map<Jti, Time>
    var issued: map<Token, Claims>
    var logins: nat
    ghost var exchanged: seq<Token>

    ghost function Value(): State
      reads this
    {
      State(users, sessions, blacklist, issued, logins, exchanged)
    }

    constructor (config: Config, users: set<UserId>)
      ensures this.config == config && Value() == Start(users)
    {
      this.config, this.users := config, users;
      sessions, blacklist, issued, logins, exchanged := [], map[], map[], 0, [];
    }

    method CreateSession(user: UserId, lineage: nat, d: Draw, now: Time)
      modifies this`sessions, this`issued
      ensures Value() == Sessions.CreateSession(old(Value()), user, lineage, d, now, config)
    {
      issued := issued[d.access := Claims(user, Access, d.accessJti, d.accessExp)];
      issued := issued[d.refresh := Claims(user, Refresh, d.refreshJti, d.refreshExp)];
      sessions := sessions + [Session(user, config.hash(d.refresh), now + config.lifetime, false, lineage)];
    }

    method RotateRefreshToken(token: Token, d: Draw, now: Time) returns (answer: Answer)
      modifies this
      ensures (Value(), answer) == Exchange(old(Value()), token, d, now, config)
    {
      if token !in issued || issued[token].exp < now || issued[token].kind != Refresh {
        return Rejected;
      }
      var claims := issued[token];
      var found := FindSession(sessions, config.hash(token));
      if found.None? || sessions[found.value].expires < now {
        return Rejected;
      }
      var row := sessions[found.value];
      if claims.user !in users {
        return Rejected;
      }
      if claims.jti in blacklist {
        return Raised;
      }
      sessions := sessions[found.value := row.(revoked := true)];
      blacklist := blacklist[claims.jti := row.expires];
      exchanged := exchanged + [token];
      CreateSession(claims.user, row.lineage, d, now);
      answer := Pair(d.access, d.refresh);
    }

    method RevokeToken(token: Token, now: Time) returns (answer: Answer)
      modifies this`blacklist
      ensures (Value(), answer) == Sessions.RevokeToken(old(Value()), token, now)
    {
      if token !in issued || issued[token].exp < now {
        return Rejected;
      }
      var claims := issued[token];
      if claims.jti in blacklist {
        return Raised;
      }
      blacklist := blacklist[claims.jti := claims.exp];
      answer := Revoked;
    }
  }
}
