/** What a credential is worth once it is handed out: it authenticates from then on, until it expires or
    somebody ends it, and nothing else takes it away. */
module AuthSessions {
  import opened Prelude
  import opened AuthModel
  import opened AuthRuns
  import opened AuthInvariant
  import opened AuthTheorems

  // ---- A session ----

  function ClientOf(req: Request): Option<string> { if req.McpIssue? then Some(req.client) else None }

  /** The row a session is handed out with, and whose secret it is. */
  lemma SignedInShape(db: Db, now: int, config: Config, req: Request)
    requires Handle(db, now, config, req).0.SignedIn?
    ensures var (SignedIn(token, email, expires), after) := Handle(db, now, config, req);
            && Sha256(token) in after.sessions
            && after.sessions[Sha256(token)] == Session(email, expires, now, ClientOf(req))
            && (token in Drawn(config, req) || (token in JobToken(req) && Sha256(token) !in db.sessions))
    ensures Handle(db, now, config, req).0.expires == now + Lifetime(req)
  {
  }

  /** An hour for an MCP client, what the job asks for, and thirty days for a person. */
  function Lifetime(req: Request): int {
    match req
    case McpIssue(_, _, _) => 60 * 60
    case MintSession(_, _, _, ttl) => ttl
    case _ => 30 * 24 * 60 * 60
  }

  lemma SignedInRow(w: World, i: Input)
    requires Inv(w) && Legal(w, i) && Answer(w, i).SignedIn?
    ensures var token := Answer(w, i).token;
            && token in Step(w, i).known
            && Sha256(token) in Step(w, i).db.sessions && Sha256(token) !in Step(w, i).db.tokens
  {
    StepKeeps(w, i);
    SignedInShape(w.db, i.at, i.config, i.req);
  }

  /** A row authenticates its bearer for as long as it has not expired and its address is listed. */
  lemma RowAuthenticates(db: Db, now: int, config: Config, token: string)
    requires token != [] && Sha256(token) in db.sessions && Sha256(token) !in db.tokens && Locked(config, token)
    ensures var row := db.sessions[Sha256(token)];
            var auth := RequireCaller(db, now, config, token);
            && (auth.Granted? <==> now < row.expires && IsAllowed(row.email, config.allowed))
            && (auth.Granted? ==>
                  auth.caller
                  == Caller(BySession, Some(row.email), Some(Sha256(token)), Some(row.expires), row.mcpClient))
  {
  }

  /** The bearer a sign-in hands out, be it a callback, a redeem, an MCP grant or the minting job, authenticates
      as the address it was answered with for exactly as long as was answered. */
  lemma SignedInWorks(w: World, i: Input, later: int, config: Config)
    requires Inv(w) && Legal(w, i) && Answer(w, i).SignedIn? && Answer(w, i).token != []
    requires Locked(config, Answer(w, i).token)
    ensures var SignedIn(token, email, expires) := Answer(w, i);
            var auth := RequireCaller(Step(w, i).db, later, config, token);
            && (auth.Granted? <==> later < expires && IsAllowed(email, config.allowed))
            && (auth.Granted? ==>
                  auth.caller == Caller(BySession, Some(email), Some(Sha256(token)), Some(expires), ClientOf(i.req)))
    ensures Answer(w, i).expires == i.at + Lifetime(i.req)
  {
    SignedInRow(w, i);
    SignedInShape(w.db, i.at, i.config, i.req);
    RowAuthenticates(Step(w, i).db, later, config, Answer(w, i).token);
  }

  /** Ends this session: it is signed out, or it is presented and refused. */
  predicate EndsSession(w: World, i: Input, token: string) {
    || SignsOut(w, i, token)
    || (i.req.Bearer? && i.req.token == token && RequireCaller(w.db, i.at, i.config, token).Denied?)
  }

  /** The same session, perhaps seen more recently. */
  predicate SameRow(a: Session, b: Session) { a == b.(lastSeen := a.lastSeen) }

  predicate Keeps(a: Db, b: Db, token: string)
    requires Sha256(token) in a.sessions
  {
    Sha256(token) in b.sessions && SameRow(b.sessions[Sha256(token)], a.sessions[Sha256(token)])
  }

  /** Authorizing any bearer but a refused one keeps the row. */
  lemma AuthorizingKeeps(db: Db, now: int, config: Config, bearer: string, token: string)
    requires LiveSession(db, now, token) && Sha256(token) !in db.tokens
    ensures var auth := RequireCaller(db, now, config, bearer);
            Keeps(db, if auth.Granted? then auth.db else auth.committed, token) <==> !(bearer == token && auth.Denied?)
  {
    assert Sha256(token).text == token && Sha256(bearer).text == bearer;
  }

  lemma ServingKeeps(db: Db, now: int, config: Config, caller: Caller, route: Route, token: string)
    requires Sha256(token) in db.sessions
    ensures var (out, after) := Serve(db, now, config, caller, route);
            !out.Refused? ==>
              (Keeps(db, after, token)
               <==> !(route.LogoutAll? || (route.Logout? && caller.session == Some(Sha256(token)))))
  {
  }

  lemma BearerKeepsSession(w: World, i: Input, token: string)
    requires Inv(w) && Legal(w, i) && i.req.Bearer? && LiveSession(w.db, i.at, token)
    ensures Keeps(w.db, Step(w, i).db, token) <==> !EndsSession(w, i, token)
  {
    assert Sha256(token).text == token && Sha256(i.req.token).text == i.req.token;
    var auth := RequireCaller(w.db, i.at, i.config, i.req.token);
    AuthorizingKeeps(w.db, i.at, i.config, i.req.token, token);
    if auth.Granted? {
      CallerOf(w.db, i.at, i.config, i.req.token);
      ServingKeeps(auth.db, i.at, i.config, auth.caller, i.req.route, token);
      ServedOrDone(auth.db, i.at, i.config, auth.caller, i.req.route);
    }
  }

  lemma ServedOrDone(db: Db, now: int, config: Config, caller: Caller, route: Route)
    ensures route.Logout? || route.LogoutAll? ==>
              Serve(db, now, config, caller, route).0 == Done || Serve(db, now, config, caller, route).0.Refused?
  {
  }

  /** The sign-in routes and jobs touch only what has expired and the row they put in. */
  lemma SignInKeepsOthers(db: Db, now: int, config: Config, req: Request, d: Digest)
    requires !req.Bearer? && d in db.sessions && db.sessions[d].expires > now
    requires var out := Handle(db, now, config, req).0; out.SignedIn? ==> Sha256(out.token) != d
    ensures var after := Handle(db, now, config, req).1; d in after.sessions && after.sessions[d] == db.sessions[d]
  {
  }

  /** One request, whatever it is and whatever it answers, takes an unexpired session away exactly when it
      ends it. */
  lemma SessionStaysIff(w: World, i: Input, token: string)
    requires Inv(w) && Legal(w, i) && token in w.known && LiveSession(w.db, i.at, token)
    ensures Keeps(w.db, Step(w, i).db, token) <==> !EndsSession(w, i, token)
  {
    if i.req.Bearer? {
      BearerKeepsSession(w, i, token);
    } else {
      var out := Handle(w.db, i.at, i.config, i.req).0;
      if out.SignedIn? {
        SignedInShape(w.db, i.at, i.config, i.req);
        assert Sha256(token).text == token && Sha256(out.token).text == out.token;
      }
      SignInKeepsOthers(w.db, i.at, i.config, i.req, Sha256(token));
    }
  }

  ghost predicate NeverEnded(w: World, inputs: seq<Input>, token: string)
    decreases |inputs|
  {
    inputs == [] || (!EndsSession(w, inputs[0], token) && NeverEnded(Step(w, inputs[0]), inputs[1..], token))
  }

  lemma EndingKills(w: World, i: Input, token: string)
    requires Inv(w) && Legal(w, i) && EndsSession(w, i, token) && Sha256(token) in w.db.sessions
    ensures Dead(Step(w, i), token)
  {
    if SignsOut(w, i, token) {
      SignOutKills(w, i, token);
    } else {
      RefusedIsDead(w, i);
    }
  }

  /** Over any run that does not mint it anew, a session that was live when the run began authenticates at the
      end, as whose it is, if and only if no request of the run ended it, and it has not expired. */
  lemma {:induction false} SessionLastsIff(w: World, inputs: seq<Input>, last: Input, token: string)
    requires Inv(w) && LegalRun(w, inputs + [last]) && NeverMinted(w, inputs, token)
    requires token != [] && token in w.known && Sha256(token) in w.db.sessions
    requires last.at < w.db.sessions[Sha256(token)].expires
    requires IsAllowed(w.db.sessions[Sha256(token)].email, last.config.allowed) && Locked(last.config, token)
    ensures var row := w.db.sessions[Sha256(token)];
            var auth := RequireCaller(Run(w, inputs).db, last.at, last.config, token);
            && (auth.Granted? <==> NeverEnded(w, inputs, token))
            && (auth.Granted? ==>
                  auth.caller
                  == Caller(BySession, Some(row.email), Some(Sha256(token)), Some(row.expires), row.mcpClient))
    decreases |inputs|
  {
    if inputs == [] {
      assert [last][0] == last && Sha256(token).text == token && Sha256(token) !in w.db.tokens;
      RowAuthenticates(w.db, last.at, last.config, token);
    } else {
      var i := inputs[0];
      assert (inputs + [last])[1..] == inputs[1..] + [last];
      LaterThan(Step(w, i), inputs[1..], last);
      StepKeeps(w, i);
      if EndsSession(w, i, token) {
        EndingKills(w, i, token);
        DeadIsDenied(Step(w, i), inputs[1..], last, token);
      } else {
        SessionStaysIff(w, i, token);
        SessionLastsIff(Step(w, i), inputs[1..], last, token);
      }
    }
  }

  /** From empty tables: whatever handed the bearer out, and whatever else is asked before and after, it
      authenticates as the address it was answered with, until the time it was answered with, if and only if
      nobody ended it. */
  lemma SignedInUntilEnded(before: seq<Input>, sign: Input, after: seq<Input>, last: Input)
    requires LegalRun(START, before + [sign] + (after + [last]))
    requires Answer(Run(START, before), sign).SignedIn? && Answer(Run(START, before), sign).token != []
    requires var out := Answer(Run(START, before), sign);
             && NeverMinted(Step(Run(START, before), sign), after, out.token)
             && last.at < out.expires && IsAllowed(out.email, last.config.allowed) && Locked(last.config, out.token)
    ensures var SignedIn(token, email, expires) := Answer(Run(START, before), sign);
            var w := Step(Run(START, before), sign);
            var auth := RequireCaller(Run(w, after).db, last.at, last.config, token);
            && (auth.Granted? <==> NeverEnded(w, after, token))
            && (auth.Granted? ==> auth.caller == Caller(BySession, Some(email), Some(Sha256(token)), Some(expires),
                                                        ClientOf(sign.req)))
  {
    RunThen(START, before, sign, after + [last]);
    StartHolds();
    RunKeeps(START, before);
    var u := Run(START, before);
    StepKeeps(u, sign);
    SignedInRow(u, sign);
    SignedInShape(u.db, sign.at, sign.config, sign.req);
    SessionLastsIff(Step(u, sign), after, last, Answer(u, sign).token);
  }
}
