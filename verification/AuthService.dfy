/** The routes as they run: statements against one connection, committed at the end of a request,
    rolled back when it raises, and committed early where a refusal has to stick. Each request is
    proved to answer and to leave committed exactly what `AuthModel.Handle` says. */
module AuthService {
  import opened Prelude
  import opened AuthModel

  /** One request's connection: what other transactions can see, and what this one has written. */
  class Connection {
    var committed: Db
    var working: Db

    constructor (db: Db)
      ensures committed == db && working == db
    {
      committed, working := db, db;
    }

    method Commit()
      modifies this`committed
      ensures committed == working
    {
      committed := working;
    }

    method Rollback()
      modifies this`working
      ensures working == committed
    {
      working := committed;
    }

    // ---- Statements ----

    method SweepStates(now: int)
      modifies this`working
      ensures working == PurgeStates(old(working), now)
    {
      working := working.(states :=
        map s | s in working.states && working.states[s].expires > now :: working.states[s]);
    }

    method SweepSessions(now: int)
      modifies this`working
      ensures working == PurgeSessions(old(working), now)
    {
      working := working.(sessions :=
        map d | d in working.sessions && working.sessions[d].expires > now :: working.sessions[d]);
    }

    method SweepHandoffs(now: int)
      modifies this`working
      ensures working == PurgeHandoffs(old(working), now)
    {
      working := working.(handoffs :=
        map d | d in working.handoffs && working.handoffs[d].expires > now :: working.handoffs[d]);
    }

    method StartOauth(state: string, challenge: Option<Challenge>, appLink: bool, now: int)
      modifies this`working
      ensures working == old(working).(states :=
                old(working).states[state := Pending(challenge, appLink, now + STATE_TTL)])
    {
      working := working.(states := working.states[state := Pending(challenge, appLink, now + STATE_TTL)]);
    }

    /** `DELETE ... RETURNING` on an unexpired state. */
    method ConsumeState(state: string, now: int) returns (row: Option<Pending>)
      modifies this`working
      ensures row.Some? <==> state in old(working).states && old(working).states[state].expires > now
      ensures row.Some? ==> row.value == old(working).states[state]
                            && working == old(working).(states := old(working).states - {state})
      ensures row.None? ==> working == old(working)
    {
      if state in working.states && working.states[state].expires > now {
        row := Some(working.states[state]);
        working := working.(states := working.states - {state});
      } else {
        row := None;
      }
    }

    method CreateHandoff(code: string, email: string, challenge: Challenge, now: int)
      modifies this`working
      ensures working == old(working).(handoffs :=
                old(working).handoffs[Sha256(code) := Handoff(email, challenge, now + HANDOFF_TTL)])
    {
      working := working.(handoffs := working.handoffs[Sha256(code) := Handoff(email, challenge, now + HANDOFF_TTL)]);
    }

    /** `DELETE ... RETURNING` on an unexpired handoff. */
    method TakeHandoff(code: string, now: int) returns (row: Option<Handoff>)
      modifies this`working
      ensures row.Some? <==> LiveHandoff(old(working), now, code)
      ensures row.Some? ==> row.value == old(working).handoffs[Sha256(code)]
                            && working == old(working).(handoffs := old(working).handoffs - {Sha256(code)})
      ensures row.None? ==> working == old(working)
    {
      if code == [] {
        return None;
      }
      var key := Sha256(code);
      if key in working.handoffs && working.handoffs[key].expires > now {
        row := Some(working.handoffs[key]);
        working := working.(handoffs := working.handoffs - {key});
      } else {
        row := None;
      }
    }

    method CreateSession(token: string, email: string, ttl: int, client: Option<string>, now: int)
      modifies this`working
      ensures working == PutSession(old(working), token, email, now + ttl, now, client)
    {
      working := working.(sessions := working.sessions[Sha256(token) := Session(email, now + ttl, now, client)]);
    }

    /** A SELECT, and an UPDATE only when the stamp is stale. */
    method SessionForToken(token: string, now: int) returns (row: Option<Session>)
      modifies this`working
      ensures row.Some? <==> LiveSession(old(working), now, token)
      ensures row.Some? ==> row.value == old(working).sessions[Sha256(token)]
                            && working == TouchSession(old(working), now, token)
      ensures row.None? ==> working == old(working)
    {
      if token == [] {
        return None;
      }
      var key := Sha256(token);
      if key !in working.sessions || working.sessions[key].expires <= now {
        return None;
      }
      var found := working.sessions[key];
      if found.lastSeen < now - TOUCH_INTERVAL {
        working := working.(sessions := working.sessions[key := found.(lastSeen := now)]);
      }
      return Some(found);
    }

    method DeleteSession(key: Digest)
      modifies this`working
      ensures working == old(working).(sessions := old(working).sessions - {key})
    {
      working := working.(sessions := working.sessions - {key});
    }

    method TokenForSecret(token: string, now: int) returns (row: Option<ApiToken>)
      modifies this`working
      ensures row.Some? <==> LiveToken(old(working), now, token)
      ensures row.Some? ==> row.value == old(working).tokens[Sha256(token)]
                            && working == TouchToken(old(working), now, token)
      ensures row.None? ==> working == old(working)
    {
      if token == [] {
        return None;
      }
      var key := Sha256(token);
      if key !in working.tokens {
        return None;
      }
      var found := working.tokens[key];
      if found.revoked.Some? || (found.expires.Some? && found.expires.value <= now) {
        return None;
      }
      if found.lastUsed.None? || found.lastUsed.value < now - TOUCH_INTERVAL {
        working := working.(tokens := working.tokens[key := found.(lastUsed := Some(now))]);
      }
      return Some(found);
    }

    method RevokeToken(key: Digest, now: int) returns (found: bool)
      modifies this`working
      ensures found <==> key in old(working).tokens
      ensures working == if found then Revoke(old(working), now, key) else old(working)
    {
      found := key in working.tokens;
      if found {
        var row := working.tokens[key];
        if row.revoked.None? {
          row := row.(revoked := Some(now));
        }
        working := working.(tokens := working.tokens[key := row]);
      }
    }

    // ---- Authorizing ----

    /** A refusal leaves the connection rolled back to what it committed before raising. */
    method RequireCaller(config: Config, now: int, token: string) returns (r: Result<Caller, int>)
      requires working == committed
      modifies this
      ensures var auth := AuthModel.RequireCaller(old(committed), now, config, token);
              if auth.Granted?
              then r == Ok(auth.caller) && working == auth.db && committed == old(committed)
              else r == Err(auth.status) && committed == auth.committed && working == auth.committed
    {
      if config.apiToken.None? {
        return Ok(Caller(Open, None, None, None, None));
      }
      if token != [] && IsAscii(token) && token == config.apiToken.value {
        return Ok(Caller(ByToken, None, None, None, None));
      }
      if LooksLikeApiToken(token) {
        var found := TokenForSecret(token, now);
        if found.Some? {
          if !IsAllowed(found.value.email, config.allowed) {
            var stamped := RevokeToken(Sha256(token), now);
            Commit();
            return Err(401);
          }
          return Ok(Caller(ByPat, Some(found.value.email), None, found.value.expires, None));
        }
      }
      var session := SessionForToken(token, now);
      if session.Some? {
        if !IsAllowed(session.value.email, config.allowed) {
          DeleteSession(Sha256(token));
          Commit();
          return Err(401);
        }
        return Ok(Caller(BySession, Some(session.value.email), Some(Sha256(token)),
                         Some(session.value.expires), session.value.mcpClient));
      }
      return Err(401);
    }

    // ---- Routes: an `Err` is an exception, and the caller rolls back ----

    method StartLogin(config: Config, now: int, redirectOk: bool, idpUp: bool, draw: string) returns (out: Outcome)
      modifies this`working
      ensures out == StartLoginStep(old(working), now, config, redirectOk, idpUp, draw).0
      ensures !out.Refused? ==> working == StartLoginStep(old(working), now, config, redirectOk, idpUp, draw).1
    {
      if config.allowed == {} {
        return Refused(503);
      }
      if !redirectOk {
        return Refused(400);
      }
      SweepStates(now);
      SweepSessions(now);
      StartOauth(LOGIN_STATE_PREFIX + draw, None, false, now);
      if !idpUp {
        return Refused(503);
      }
      return Started(LOGIN_STATE_PREFIX + draw);
    }

    method StartNativeLogin(config: Config, now: int, challenge: Challenge, appDomain: Option<string>,
                            idpUp: bool, draw: string) returns (out: Outcome)
      modifies this`working
      ensures out == StartNativeStep(old(working), now, config, challenge, appDomain, idpUp, draw).0
      ensures !out.Refused? ==>
                working == StartNativeStep(old(working), now, config, challenge, appDomain, idpUp, draw).1
    {
      if config.allowed == {} {
        return Refused(503);
      }
      if !config.webOrigin {
        return Refused(503);
      }
      SweepStates(now);
      SweepSessions(now);
      SweepHandoffs(now);
      var host := config.appLinkHost;
      if host.Some? && appDomain != host {
        host := None;
      }
      StartOauth(LOGIN_STATE_PREFIX + draw, Some(challenge), host.Some?, now);
      if !idpUp {
        return Refused(503);
      }
      return Started(LOGIN_STATE_PREFIX + draw);
    }

    method CompleteLogin(config: Config, now: int, state: string, identity: Identity, draw: string)
      returns (out: Outcome)
      modifies this`working
      ensures out == CallbackStep(old(working), now, config, state, identity, draw).0
      ensures !out.Refused? ==> working == CallbackStep(old(working), now, config, state, identity, draw).1
    {
      if !(LOGIN_STATE_PREFIX <= state) {
        return Refused(400);
      }
      if config.allowed == {} {
        return Refused(503);
      }
      var pending := ConsumeState(state, now);
      if pending.None? {
        return Refused(400);
      }
      if identity.Unavailable? {
        return Refused(503);
      }
      if identity.Rejected? {
        return Refused(400);
      }
      if !IsAllowed(identity.email, config.allowed) {
        return Refused(403);
      }
      if pending.value.challenge.Some? {
        CreateHandoff(draw, identity.email, pending.value.challenge.value, now);
        return HandedOff(draw, identity.email, pending.value.appLink);
      }
      CreateSession(draw, identity.email, SESSION_TTL, None, now);
      return SignedIn(draw, identity.email, now + SESSION_TTL);
    }

    method RedeemNativeLogin(config: Config, now: int, code: string, verifier: string, draw: string)
      returns (out: Outcome)
      modifies this`working
      ensures out == RedeemStep(old(working), now, config, code, verifier, draw).0
      ensures !out.Refused? ==> working == RedeemStep(old(working), now, config, code, verifier, draw).1
    {
      if config.allowed == {} {
        return Refused(503);
      }
      var handoff := TakeHandoff(code, now);
      if handoff.None? || handoff.value.challenge != S256(verifier) {
        return Refused(400);
      }
      if !IsAllowed(handoff.value.email, config.allowed) {
        return Refused(403);
      }
      CreateSession(draw, handoff.value.email, SESSION_TTL, None, now);
      return SignedIn(draw, handoff.value.email, now + SESSION_TTL);
    }

    method ServeRoute(config: Config, now: int, caller: Caller, route: Route) returns (out: Outcome)
      modifies this`working
      ensures out == Serve(old(working), now, config, caller, route).0
      ensures !out.Refused? ==> working == Serve(old(working), now, config, caller, route).1
    {
      match route {
        case CreateToken(days, draw) =>
          if !IsBrowserSession(caller) {
            return Refused(403);
          }
          var secret := TokenSecret(config, draw);
          var expires: Option<int> := None;
          if days.Some? {
            expires := Some(now + days.value * 86_400);
          }
          working := working.(tokens :=
            working.tokens[Sha256(secret) := ApiToken(caller.email.value, expires, None, None)]);
          return Minted(secret);
        case ListTokens =>
          if !IsBrowserSession(caller) {
            return Refused(403);
          }
          return Listed(working.tokens.Keys);
        case RevokeToken(key) =>
          if !IsBrowserSession(caller) {
            return Refused(403);
          }
          var found := RevokeToken(key, now);
          if !found {
            return Refused(404);
          }
          return Done;
        case Logout =>
          if caller.session.Some? {
            DeleteSession(caller.session.value);
          }
          return Done;
        case LogoutAll =>
          if caller.how.ByPat? {
            return Refused(403);
          }
          working := working.(sessions := map[]);
          return Done;
        case Other(fails) =>
          if fails {
            return Refused(500);
          }
          return Done;
      }
    }

    // ---- The request boundary ----

    /** `connection`: commit when the route returns, roll back when it raises. */
    method Finish(out: Outcome)
      modifies this
      ensures committed == if out.Refused? then old(committed) else old(working)
      ensures working == committed
    {
      if out.Refused? {
        Rollback();
      } else {
        Commit();
      }
    }

    method Request(now: int, config: Config, req: AuthModel.Request) returns (out: Outcome)
      requires working == committed
      modifies this
      ensures (out, committed) == Handle(old(committed), now, config, req)
      ensures working == committed
    {
      match req {
        case StartLogin(redirectOk, idpUp, draw) =>
          out := StartLogin(config, now, redirectOk, idpUp, draw);
        case StartNative(challenge, appDomain, idpUp, draw) =>
          out := StartNativeLogin(config, now, challenge, appDomain, idpUp, draw);
        case Callback(state, identity, draw) =>
          out := CompleteLogin(config, now, state, identity, draw);
        case Redeem(code, verifier, draw) =>
          out := RedeemNativeLogin(config, now, code, verifier, draw);
        case Bearer(token, route) =>
          var caller := RequireCaller(config, now, token);
          if caller.Err? {
            return Refused(caller.error);
          }
          out := ServeRoute(config, now, caller.value, route);
        case McpIssue(email, client, draw) =>
          if !IsAllowed(email, config.allowed) {
            out := Refused(400);
          } else {
            CreateSession(draw, email, MCP_TTL, Some(client), now);
            out := SignedIn(draw, email, now + MCP_TTL);
          }
        case MintSession(enabled, token, email, ttl) =>
          if !enabled || !(0 < ttl <= MAX_MINT_TTL) || !IsAllowed(email, config.allowed)
             || Sha256(token) in working.sessions {
            out := Refused(400);
          } else {
            CreateSession(token, email, ttl, None, now);
            out := SignedIn(token, email, now + ttl);
          }
      }
      Finish(out);
    }
  }
}
