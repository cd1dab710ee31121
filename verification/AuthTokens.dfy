/** What a personal access token and a pending sign-in are worth once they are handed out. */
module AuthTokens {
  import opened Prelude
  import opened AuthModel
  import opened AuthRuns
  import opened AuthInvariant
  import opened AuthTheorems

  // ---- A personal access token ----

  lemma MintedShape(db: Db, now: int, config: Config, req: Request)
    requires Handle(db, now, config, req).0.Minted?
    ensures var (Minted(secret), after) := Handle(db, now, config, req);
            && req.Bearer? && req.route.CreateToken? && Sha256(req.token) in db.sessions
            && secret in Drawn(config, req) && LooksLikeApiToken(secret) && Sha256(secret) in after.tokens
            && after.tokens[Sha256(secret)]
               == ApiToken(db.sessions[Sha256(req.token)].email,
                           if req.route.days.None? then None else Some(now + req.route.days.value * 24 * 60 * 60),
                           None, None)
  {
    CallerOf(db, now, config, req.token);
  }

  predicate Unexpired(row: ApiToken, now: int) { row.expires.Some? ==> now < row.expires.value }

  lemma TokenAuthenticates(db: Db, now: int, config: Config, token: string)
    requires LooksLikeApiToken(token) && Locked(config, token)
    requires Sha256(token) in db.tokens && Sha256(token) !in db.sessions
    ensures var row := db.tokens[Sha256(token)];
            var auth := RequireCaller(db, now, config, token);
            && (auth.Granted? <==> row.revoked.None? && Unexpired(row, now) && IsAllowed(row.email, config.allowed))
            && (auth.Granted? ==> auth.caller == Caller(ByPat, Some(row.email), None, row.expires, None))
  {
  }

  /** A token just minted authenticates as whoever minted it for the days that were asked for, or for ever
      when none were. */
  lemma MintedWorks(w: World, i: Input, later: int, config: Config)
    requires Inv(w) && Legal(w, i) && Answer(w, i).Minted? && Locked(config, Answer(w, i).secret)
    ensures i.req.Bearer? && i.req.route.CreateToken? && Sha256(i.req.token) in w.db.sessions
    ensures var email := w.db.sessions[Sha256(i.req.token)].email;
            var days := i.req.route.days;
            var auth := RequireCaller(Step(w, i).db, later, config, Answer(w, i).secret);
            && (auth.Granted? <==> (days.Some? ==> later < i.at + days.value * 24 * 60 * 60)
                                   && IsAllowed(email, config.allowed))
            && (auth.Granted? ==> auth.caller.how.ByPat? && auth.caller.email == Some(email))
  {
    StepKeeps(w, i);
    MintedShape(w.db, i.at, i.config, i.req);
    TokenAuthenticates(Step(w, i).db, later, config, Answer(w, i).secret);
  }

  /** Ends this token: its owner revokes it, or it is presented and refused. */
  predicate EndsToken(w: World, i: Input, token: string) {
    && i.req.Bearer?
    && ((i.req.route == RevokeToken(Sha256(token)) && Answer(w, i) == Done)
        || (i.req.token == token && RequireCaller(w.db, i.at, i.config, token).Denied?))
  }

  /** The same token, not revoked, and perhaps used more recently. */
  predicate KeepsToken(a: Db, b: Db, token: string)
    requires Sha256(token) in a.tokens
  {
    Sha256(token) in b.tokens
    && var row := b.tokens[Sha256(token)];
    row == a.tokens[Sha256(token)].(lastUsed := row.lastUsed) && row.revoked.None?
  }

  lemma AuthorizingKeepsToken(db: Db, now: int, config: Config, bearer: string, token: string)
    requires LooksLikeApiToken(token) && LiveToken(db, now, token) && Sha256(token) !in db.sessions
    ensures var auth := RequireCaller(db, now, config, bearer);
            KeepsToken(db, if auth.Granted? then auth.db else auth.committed, token)
            <==> !(bearer == token && auth.Denied?)
  {
    assert Sha256(token).text == token && Sha256(bearer).text == bearer;
  }

  lemma ServingKeepsToken(db: Db, now: int, config: Config, caller: Caller, route: Route, token: string)
    requires Sha256(token) in db.tokens && db.tokens[Sha256(token)].revoked.None?
    requires route.CreateToken? ==> TokenSecret(config, route.draw) != token
    ensures var (out, after) := Serve(db, now, config, caller, route);
            && (!out.Refused? ==> (KeepsToken(db, after, token) <==> route != RevokeToken(Sha256(token))))
            && (route.RevokeToken? ==> out == Done || out.Refused?)
  {
    assert Sha256(token).text == token;
    assert route.CreateToken? ==> Sha256(TokenSecret(config, route.draw)).text == TokenSecret(config, route.draw);
  }

  lemma OthersLeaveTokens(db: Db, now: int, config: Config, req: Request)
    requires !req.Bearer?
    ensures Handle(db, now, config, req).1.tokens == db.tokens
  {
  }

  /** One request takes a live token away exactly when it ends it. */
  lemma TokenStaysIff(w: World, i: Input, token: string)
    requires Inv(w) && Legal(w, i) && token in w.known && LooksLikeApiToken(token) && LiveToken(w.db, i.at, token)
    ensures KeepsToken(w.db, Step(w, i).db, token) <==> !EndsToken(w, i, token)
  {
    if i.req.Bearer? {
      var auth := RequireCaller(w.db, i.at, i.config, i.req.token);
      AuthorizingKeepsToken(w.db, i.at, i.config, i.req.token, token);
      if auth.Granted? {
        assert i.req.route.CreateToken? ==> TokenSecret(i.config, i.req.route.draw) in Drawn(i.config, i.req);
        ServingKeepsToken(auth.db, i.at, i.config, auth.caller, i.req.route, token);
      }
    } else {
      OthersLeaveTokens(w.db, i.at, i.config, i.req);
    }
  }

  ghost predicate TokenNeverEnded(w: World, inputs: seq<Input>, token: string)
    decreases |inputs|
  {
    inputs == [] || (!EndsToken(w, inputs[0], token) && TokenNeverEnded(Step(w, inputs[0]), inputs[1..], token))
  }

  /** Over any run, a live token authenticates at the end if and only if no request of the run ended it, for as
      long as it has not expired. */
  lemma {:induction false} TokenLastsIff(w: World, inputs: seq<Input>, last: Input, token: string)
    requires Inv(w) && LegalRun(w, inputs + [last]) && token in w.known && LooksLikeApiToken(token)
    requires LiveToken(w.db, last.at, token) && Locked(last.config, token)
    requires IsAllowed(w.db.tokens[Sha256(token)].email, last.config.allowed)
    ensures RequireCaller(Run(w, inputs).db, last.at, last.config, token).Granted?
        <==> TokenNeverEnded(w, inputs, token)
    decreases |inputs|
  {
    assert Sha256(token).text == token && Sha256(token) !in w.db.sessions;
    if inputs == [] {
      assert [last][0] == last;
      TokenAuthenticates(w.db, last.at, last.config, token);
    } else {
      var i := inputs[0];
      assert (inputs + [last])[1..] == inputs[1..] + [last];
      LaterThan(Step(w, i), inputs[1..], last);
      StepKeeps(w, i);
      TokenStaysIff(w, i, token);
      if EndsToken(w, i, token) {
        TokenEnds(w, i, token);
        NeverAJobToken(Step(w, i), inputs[1..], [last], token);
        DeadIsDenied(Step(w, i), inputs[1..], last, token);
      } else {
        TokenLastsIff(Step(w, i), inputs[1..], last, token);
      }
    }
  }

  lemma TokenEnds(w: World, i: Input, token: string)
    requires Inv(w) && Legal(w, i) && EndsToken(w, i, token) && Sha256(token) in w.db.tokens
    ensures Dead(Step(w, i), token) && token !in Step(w, i).jobTokens
  {
    assert Sha256(token).text == token;
    if i.req.route == RevokeToken(Sha256(token)) && Answer(w, i) == Done {
      RevokeKills(w, i, token);
    } else {
      RefusedIsDead(w, i);
    }
  }

  /** Revoking stamps its own row with the time, the first time, and no other. */
  lemma RevokesItsOwn(db: Db, now: int, config: Config, token: string, key: Digest)
    requires Handle(db, now, config, Bearer(token, RevokeToken(key))).0 == Done
    ensures var after := Handle(db, now, config, Bearer(token, RevokeToken(key))).1;
            && key in db.tokens && after.tokens.Keys == db.tokens.Keys && after.sessions.Keys == db.sessions.Keys
            && (db.tokens[key].revoked.None? ==> after.tokens[key].revoked == Some(now))
            && forall d | d in db.tokens && d != key :: after.tokens[d] == db.tokens[d]
  {
    CallerOf(db, now, config, token);
  }

  /** What authorizing leaves on the row it granted by: a stamp no more than five minutes old, and nothing
      else; and a stamp that fresh already is not written again. */
  lemma StampedWhenStale(db: Db, now: int, config: Config, token: string)
    requires RequireCaller(db, now, config, token).Granted?
    ensures var Granted(caller, after) := RequireCaller(db, now, config, token);
            && after.states == db.states && after.handoffs == db.handoffs
            && (caller.how.Open? || caller.how.ByToken? ==> after == db)
            && (caller.how.BySession? ==>
                  Seen(db.sessions, after.sessions, Sha256(token), now) && after.tokens == db.tokens)
            && (caller.how.ByPat? ==>
                  Used(db.tokens, after.tokens, Sha256(token), now) && after.sessions == db.sessions)
  {
  }

  predicate Seen(a: map<Digest, Session>, b: map<Digest, Session>, d: Digest, now: int) {
    && d in a && a.Keys == b.Keys && b[d] == a[d].(lastSeen := b[d].lastSeen)
    && b[d].lastSeen == (if a[d].lastSeen < now - 5 * 60 then now else a[d].lastSeen)
    && forall e | e in a && e != d :: b[e] == a[e]
  }

  predicate Used(a: map<Digest, ApiToken>, b: map<Digest, ApiToken>, d: Digest, now: int) {
    && d in a && a.Keys == b.Keys && b[d] == a[d].(lastUsed := b[d].lastUsed)
    && b[d].lastUsed == (if a[d].lastUsed.Some? && a[d].lastUsed.value >= now - 5 * 60 then a[d].lastUsed
                         else Some(now))
    && forall e | e in a && e != d :: b[e] == a[e]
  }

  // ---- A pending sign-in ----

  /** What a start stores under the state it answers with. */
  lemma StartedRow(db: Db, now: int, config: Config, req: Request)
    requires Handle(db, now, config, req).0.Started?
    ensures var (Started(state), after) := Handle(db, now, config, req);
            && state in Drawn(config, req) && LOGIN_STATE_PREFIX <= state && state in after.states
            && var row := after.states[state];
            && row.expires == now + 10 * 60
            && row.challenge == (if req.StartNative? then Some(req.challenge) else None)
            && (row.appLink <==> req.StartNative? && req.appDomain.Some? && req.appDomain == config.appLinkHost)
  {
  }

  /** What a callback stores under the code it hands to the app: whose sign-in it was, the challenge the app
      started it with, and two minutes. */
  lemma HandedOffRow(db: Db, now: int, config: Config, req: Request)
    requires Handle(db, now, config, req).0.HandedOff?
    ensures var (HandedOff(code, email, appLink), after) := Handle(db, now, config, req);
            && code in Drawn(config, req) && req.Callback? && req.state in db.states && req.state !in after.states
            && var pending := db.states[req.state];
            && pending.challenge.Some? && appLink == pending.appLink
            && Sha256(code) in after.handoffs
            && after.handoffs[Sha256(code)] == Handoff(email, pending.challenge.value, now + 2 * 60)
  {
  }

  /** A start sweeps away what has expired, and only that. */
  lemma StartSweeps(db: Db, now: int, config: Config, req: Request)
    requires Handle(db, now, config, req).0.Started?
    ensures var (Started(state), after) := Handle(db, now, config, req);
            && after.tokens == db.tokens
            && (forall s | s in db.states && s != state :: s in after.states <==> db.states[s].expires > now)
            && (forall d | d in db.sessions :: d in after.sessions <==> db.sessions[d].expires > now)
            && (req.StartNative? ==>
                  forall d | d in db.handoffs :: d in after.handoffs <==> db.handoffs[d].expires > now)
            && (req.StartLogin? ==> after.handoffs == db.handoffs)
  {
  }

  /** This request takes the sign-in to its end: its callback is answered with a session or a handoff. */
  predicate Finishes(w: World, i: Input, state: string) {
    i.req.Callback? && i.req.state == state && !Answer(w, i).Refused?
  }

  ghost predicate NeverFinished(w: World, inputs: seq<Input>, state: string)
    decreases |inputs|
  {
    inputs == [] || (!Finishes(w, inputs[0], state) && NeverFinished(Step(w, inputs[0]), inputs[1..], state))
  }

  lemma OtherRequestsKeepStates(db: Db, now: int, config: Config, req: Request, state: string)
    requires state in db.states && db.states[state].expires > now && state !in Drawn(config, req)
    requires req.Callback? && req.state == state ==> Handle(db, now, config, req).0.Refused?
    ensures var after := Handle(db, now, config, req).1;
            state in after.states && after.states[state] == db.states[state]
  {
    if req.Bearer? {
      BearerStates(db, now, config, req.token, req.route);
    }
  }

  lemma BearerStates(db: Db, now: int, config: Config, token: string, route: Route)
    ensures Handle(db, now, config, Bearer(token, route)).1.states == db.states
  {
    var auth := RequireCaller(db, now, config, token);
    assert (if auth.Granted? then auth.db else auth.committed).states == db.states;
    if auth.Granted? {
      assert Serve(auth.db, now, config, auth.caller, route).1.states == db.states;
    }
  }

  /** Whatever else happens, refused callbacks of the same state included, a sign-in nobody has completed is
      completed by its callback for as long as it has not expired: with a handoff to the app where the app
      started it, and with a session otherwise. */
  lemma {:induction false} StateStaysUsable(w: World, inputs: seq<Input>, last: Input)
    requires LegalRun(w, inputs + [last]) && last.req.Callback? && last.req.identity.Verified?
    requires NeverFinished(w, inputs, last.req.state) && last.req.state in w.known
    requires LOGIN_STATE_PREFIX <= last.req.state && last.req.state in w.db.states
    requires w.db.states[last.req.state].expires > last.at
    requires IsAllowed(last.req.identity.email, last.config.allowed)
    ensures var row := w.db.states[last.req.state];
            var email := last.req.identity.email;
            Answer(Run(w, inputs), last)
            == if row.challenge.Some? then HandedOff(last.req.draw, email, row.appLink)
               else SignedIn(last.req.draw, email, last.at + SESSION_TTL)
    decreases |inputs|
  {
    if inputs == [] {
      assert [last][0] == last;
    } else {
      var i := inputs[0];
      assert (inputs + [last])[1..] == inputs[1..] + [last];
      LaterThan(Step(w, i), inputs[1..], last);
      OtherRequestsKeepStates(w.db, i.at, i.config, i.req, last.req.state);
      StateStaysUsable(Step(w, i), inputs[1..], last);
    }
  }

  // ---- When a request gets what it asks for ----

  /** A sign-in starts on any deployment with a list, once the identity provider answers. */
  lemma StartsIff(db: Db, now: int, config: Config, req: Request)
    requires req.StartLogin? || req.StartNative?
    ensures var out := Handle(db, now, config, req).0;
            && (out.Started? <==> config.allowed != {} && req.idpUp
                                  && if req.StartLogin? then req.redirectOk else config.webOrigin)
            && (!out.Started? ==> out == Refused(if req.StartLogin? && config.allowed != {} && !req.redirectOk
                                                 then 400 else 503))
  {
  }

  /** The minting job and an MCP grant need no person: only a listed address, and the job a new token and at
      most a day. */
  lemma MintsIff(db: Db, now: int, config: Config, req: Request)
    requires req.McpIssue? || req.MintSession?
    ensures Handle(db, now, config, req).0.SignedIn?
            <==> IsAllowed(req.email, config.allowed)
                 && (req.MintSession? ==>
                       req.enabled && 0 < req.ttl <= 24 * 60 * 60 && Sha256(req.token) !in db.sessions)
  {
  }

  /** What each `/v1` route asks of whoever it lets in: the token routes a person at a browser, signing out
      everywhere anything but a token, and signing out nothing. */
  lemma ServedIff(db: Db, now: int, config: Config, token: string, route: Route)
    ensures var auth := RequireCaller(db, now, config, token);
            var (out, after) := Handle(db, now, config, Bearer(token, route));
            && (auth.Denied? <==> out == Refused(401))
            && (auth.Granted? ==>
                  var browser := auth.caller.how.BySession? && auth.caller.mcpClient.None?;
                  match route
                  case CreateToken(_, _) => if browser then out.Minted? else out == Refused(403)
                  case ListTokens => out == if browser then Listed(db.tokens.Keys) else Refused(403)
                  case RevokeToken(key) =>
                    out == if !browser then Refused(403) else if key in db.tokens then Done else Refused(404)
                  case LogoutAll =>
                    if auth.caller.how.ByPat? then out == Refused(403) else out == Done && after.sessions == map[]
                  case Logout => out == Done
                  case Other(fails) => out == if fails then Refused(500) else Done)
  {
    var auth := RequireCaller(db, now, config, token);
    if auth.Granted? {
      CallerOf(db, now, config, token);
      StampedWhenStale(db, now, config, token);
    }
  }

  /** The shared secret authenticates as itself, and never a bearer that is not ASCII. */
  lemma SharedSecretIff(db: Db, now: int, config: Config, token: string)
    ensures var auth := RequireCaller(db, now, config, token);
            auth.Granted? && auth.caller.how.ByToken?
            <==> token != [] && config.apiToken == Some(token) && forall c | c in token :: c as int < 128
  {
  }

  /** Why a callback or a redeem is refused: 503 where nobody can sign in or the identity provider does not
      answer, 403 to an address that is not on the list, and 400 to anything that does not check out. */
  lemma RefusalsSayWhy(db: Db, now: int, config: Config, req: Request)
    requires req.Callback? || req.Redeem?
    requires Handle(db, now, config, req).0.Refused?
    ensures Handle(db, now, config, req).1 == db
    ensures var status := Handle(db, now, config, req).0.status;
            && (status == 403 || status == 503 || status == 400)
            && (status == 403 <==>
                  && config.allowed != {}
                  && if req.Redeem? then
                       LiveHandoff(db, now, req.code) && db.handoffs[Sha256(req.code)].challenge == S256(req.verifier)
                     else
                       LOGIN_STATE_PREFIX <= req.state && req.state in db.states && db.states[req.state].expires > now
                       && req.identity.Verified?)
            && (req.Redeem? ==> (status == 503 <==> config.allowed == {}))
  {
  }
}
