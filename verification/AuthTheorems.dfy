/** What the credential protocol guarantees over every run. */
module AuthTheorems {
  import opened Prelude
  import opened AuthModel
  import opened AuthRuns
  import opened AuthInvariant

  // ---- Single use and entitlement, over every run from empty tables ----

  /** Each OAuth state yields at most one session or handoff, and each handoff code at most one session. */
  lemma SpentAtMostOnce(inputs: seq<Input>, i: nat, j: nat)
    requires LegalRun(START, inputs)
    requires i < j < |Run(START, inputs).log|
    ensures var log := Run(START, inputs).log;
            && (StateSpent(log[i]).Some? ==> StateSpent(log[i]) != StateSpent(log[j]))
            && (CodeSpent(log[i]).Some? ==> CodeSpent(log[i]) != CodeSpent(log[j]))
  {
    StartHolds();
    RunKeeps(START, inputs);
  }

  /** Every session a redeem minted answers a challenge stored at its own `native/start`, through the
      callback that start led to, in time at each hop, with the address on the list at both checks. */
  lemma RedeemedByItsStarter(inputs: seq<Input>, k: nat)
    requires LegalRun(START, inputs)
    requires k < |Run(START, inputs).log|
    requires Run(START, inputs).log[k].SessionBy? && Run(START, inputs).log[k].origin.FromCode?
    ensures var log := Run(START, inputs).log;
            exists i, j :: 0 <= i < j < k && Starts(log[i], log[j]) && Hands(log[j], log[k])
              && log[i].challenge == Some(S256(log[k].origin.verifier))
              && IsAllowed(log[j].email, log[j].allowed) && IsAllowed(log[k].email, log[k].allowed)
  {
    StartHolds();
    RunKeeps(START, inputs);
    var log := Run(START, inputs).log;
    assert Entitled(log, k);
    var j :| 0 <= j < k && Hands(log[j], log[k]);
    assert Entitled(log, j);
    var i :| 0 <= i < j && Starts(log[i], log[j]);
  }

  /** Every session a callback minted was begun by a browser's own start, in time, never by the app's, and for
      an address on the list. */
  lemma SignedInByItsStart(inputs: seq<Input>, k: nat)
    requires LegalRun(START, inputs)
    requires k < |Run(START, inputs).log|
    requires Run(START, inputs).log[k].SessionBy? && Run(START, inputs).log[k].origin.FromState?
    ensures var log := Run(START, inputs).log;
            IsAllowed(log[k].email, log[k].allowed) && exists j :: 0 <= j < k && Completes(log[j], log[k])
  {
    StartHolds();
    RunKeeps(START, inputs);
    assert Entitled(Run(START, inputs).log, k);
  }

  /** Every token row was minted by a browser session of an address on the list at that moment: never by
      a token, the shared secret, an open deployment or an MCP client's grant. */
  lemma TokensComeFromBrowsers(inputs: seq<Input>, key: Digest)
    requires LegalRun(START, inputs)
    requires key in Run(START, inputs).db.tokens
    ensures var w := Run(START, inputs);
            exists j, k :: 0 <= j < k < |w.log| && TokenRow(w.log[k], key, w.db.tokens[key])
              && Opens(w.log[j], w.log[k]) && IsAllowed(w.log[k].email, w.log[k].allowed)
  {
    StartHolds();
    RunKeeps(START, inputs);
    var w := Run(START, inputs);
    var k :| 0 <= k < |w.log| && TokenRow(w.log[k], key, w.db.tokens[key]);
    assert Entitled(w.log, k);
    var j :| 0 <= j < k && Opens(w.log[j], w.log[k]);
  }

  // ---- A refused redeem leaves the code ----

  ghost predicate NotRedeemed(w: World, inputs: seq<Input>, code: string)
    decreases |inputs|
  {
    inputs == [] || (!(inputs[0].req.Redeem? && inputs[0].req.code == code && Answer(w, inputs[0]).SignedIn?)
                     && NotRedeemed(Step(w, inputs[0]), inputs[1..], code))
  }

  lemma HandoffStays(w: World, i: Input, code: string)
    requires Legal(w, i) && code in w.known && LiveHandoff(w.db, i.at, code)
    requires !(i.req.Redeem? && i.req.code == code && Answer(w, i).SignedIn?)
    ensures Sha256(code) in Step(w, i).db.handoffs
    ensures Step(w, i).db.handoffs[Sha256(code)] == w.db.handoffs[Sha256(code)]
  {
    assert Sha256(code).text == code;
    if i.req.Redeem? && Sha256(i.req.code) == Sha256(code) {
      assert Sha256(i.req.code).text == i.req.code;
    }
    if i.req.Callback? && Answer(w, i).HandedOff? {
      assert i.req.draw in Drawn(i.config, i.req);
      assert Sha256(i.req.draw).text == i.req.draw;
    }
    if i.req.Bearer? {
      CallerNarrows(w.db, i.at, i.config, i.req.token);
      BearerHandoffs(w.db, i.at, i.config, i.req.token, i.req.route);
    }
  }

  /** No `/v1` request touches a handoff. */
  lemma BearerHandoffs(db: Db, now: int, config: Config, token: string, route: Route)
    ensures Handle(db, now, config, Bearer(token, route)).1.handoffs == db.handoffs
  {
    var auth := RequireCaller(db, now, config, token);
    assert (if auth.Granted? then auth.db else auth.committed).handoffs == db.handoffs;
    if auth.Granted? {
      assert Serve(auth.db, now, config, auth.caller, route).1.handoffs == db.handoffs;
    }
  }

  /** Whatever else happens, refused redeems of the same code included, a code nobody has redeemed is
      redeemed by the app that holds its verifier, for as long as it has not expired. */
  lemma {:induction false} CodeStaysRedeemable(w: World, inputs: seq<Input>, last: Input)
    requires LegalRun(w, inputs + [last]) && last.req.Redeem?
    requires NotRedeemed(w, inputs, last.req.code) && last.req.code in w.known
    requires LiveHandoff(w.db, last.at, last.req.code)
    requires w.db.handoffs[Sha256(last.req.code)].challenge == S256(last.req.verifier)
    requires IsAllowed(w.db.handoffs[Sha256(last.req.code)].email, last.config.allowed)
    ensures Answer(Run(w, inputs), last)
         == SignedIn(last.req.draw, w.db.handoffs[Sha256(last.req.code)].email, last.at + SESSION_TTL)
    decreases |inputs|
  {
    if inputs == [] {
      assert [last][0] == last;
    } else {
      var i := inputs[0];
      assert (inputs + [last])[1..] == inputs[1..] + [last];
      LaterThan(Step(w, i), inputs[1..], last);
      HandoffStays(w, i, last.req.code);
      CodeStaysRedeemable(Step(w, i), inputs[1..], last);
    }
  }

  lemma {:induction false} LaterThan(w: World, inputs: seq<Input>, last: Input)
    requires LegalRun(w, inputs + [last])
    ensures w.now <= last.at
    decreases |inputs|
  {
    if inputs == [] {
      assert [last][0] == last;
    } else {
      assert (inputs + [last])[1..] == inputs[1..] + [last];
      LaterThan(Step(w, inputs[0]), inputs[1..], last);
    }
  }

  // ---- Revocation is permanent ----

  /** Nothing in either table answers to this bearer any more, and the string has been seen. */
  predicate Dead(w: World, token: string) {
    && token in w.known
    && !LiveSession(w.db, w.now, token)
    && !(LooksLikeApiToken(token) && LiveToken(w.db, w.now, token))
  }

  lemma DenialKills(db: Db, now: int, config: Config, token: string)
    requires RequireCaller(db, now, config, token).Denied?
    requires Sha256(token) in db.tokens ==> Sha256(token) !in db.sessions
    ensures var after := RequireCaller(db, now, config, token).committed;
            !LiveSession(after, now, token) && !(LooksLikeApiToken(token) && LiveToken(after, now, token))
  {
  }

  /** A refusal is the end of a bearer: what it found de-listed it deleted or stamped, and committed. */
  lemma RefusedIsDead(w: World, i: Input)
    requires Inv(w) && Legal(w, i)
    requires i.req.Bearer? && RequireCaller(w.db, i.at, i.config, i.req.token).Denied?
    ensures Dead(Step(w, i), i.req.token)
  {
    DenialKills(w.db, i.at, i.config, i.req.token);
  }

  /** The minting job, run on this token and not refused. */
  predicate MintsAgain(w: World, i: Input, token: string) {
    i.req.MintSession? && i.req.token == token && Answer(w, i).SignedIn?
  }

  /** No request of the run is the minting job, run on this token and not refused. */
  ghost predicate NeverMinted(w: World, inputs: seq<Input>, token: string)
    decreases |inputs|
  {
    inputs == [] || (!MintsAgain(w, inputs[0], token) && NeverMinted(Step(w, inputs[0]), inputs[1..], token))
  }

  lemma DeadStays(w: World, i: Input, token: string)
    requires Legal(w, i) && Dead(w, token) && !MintsAgain(w, i, token)
    ensures Dead(Step(w, i), token)
  {
    assert Sha256(token).text == token;
    match i.req
    case StartLogin(_, _, _) =>
    case StartNative(_, _, _, _) =>
    case Callback(_, _, draw) => assert draw in Drawn(i.config, i.req); assert Sha256(draw).text == draw;
    case Redeem(_, _, draw) => assert draw in Drawn(i.config, i.req); assert Sha256(draw).text == draw;
    case McpIssue(_, _, draw) => assert draw in Drawn(i.config, i.req); assert Sha256(draw).text == draw;
    case MintSession(_, other, _, _) => assert Sha256(other).text == other;
    case Bearer(_, _) => DeadStaysServing(w, i, token);
  }

  /** A dead bearer comes back in one step exactly when that step is the minting job, run on it and not
      refused. */
  lemma DeadStaysIff(w: World, i: Input, token: string)
    requires Legal(w, i) && Dead(w, token) && token != []
    ensures Dead(Step(w, i), token) <==> !MintsAgain(w, i, token)
  {
    if !MintsAgain(w, i, token) {
      DeadStays(w, i, token);
    }
  }

  /** Rows a bearer could use neither appear nor are revived by authorizing. */
  lemma AuthorizingRevivesNothing(db: Db, now: int, config: Config, bearer: string, token: string)
    requires !LiveSession(db, now, token)
    ensures var a := RequireCaller(db, now, config, bearer);
            !LiveSession(if a.Granted? then a.db else a.committed, now, token)
  {
  }

  lemma AuthorizingRevivesNoToken(db: Db, now: int, config: Config, bearer: string, token: string)
    requires !LiveToken(db, now, token)
    ensures var a := RequireCaller(db, now, config, bearer);
            !LiveToken(if a.Granted? then a.db else a.committed, now, token)
  {
  }

  lemma ServingRevivesNothing(db: Db, now: int, config: Config, caller: Caller, route: Route, token: string)
    requires route.CreateToken? ==> TokenSecret(config, route.draw) != token
    ensures !LiveSession(db, now, token) ==> !LiveSession(Serve(db, now, config, caller, route).1, now, token)
    ensures !LiveToken(db, now, token) ==> !LiveToken(Serve(db, now, config, caller, route).1, now, token)
  {
    assert Sha256(token).text == token;
    assert route.CreateToken? ==> Sha256(TokenSecret(config, route.draw)).text == TokenSecret(config, route.draw);
  }

  lemma DeadStaysServing(w: World, i: Input, token: string)
    requires Legal(w, i) && Dead(w, token) && i.req.Bearer?
    ensures Dead(Step(w, i), token)
  {
    var auth := RequireCaller(w.db, i.at, i.config, i.req.token);
    assert !LiveSession(w.db, i.at, token);
    assert LooksLikeApiToken(token) ==> !LiveToken(w.db, i.at, token);
    AuthorizingRevivesNothing(w.db, i.at, i.config, i.req.token, token);
    if LooksLikeApiToken(token) {
      AuthorizingRevivesNoToken(w.db, i.at, i.config, i.req.token, token);
    }
    if auth.Granted? {
      assert i.req.route.CreateToken? ==> TokenSecret(i.config, i.req.route.draw) in Drawn(i.config, i.req);
      ServingRevivesNothing(auth.db, i.at, i.config, auth.caller, i.req.route, token);
    }
  }

  /** The deployment has a lock, and this bearer is not the shared secret of the moment. */
  predicate Locked(config: Config, token: string) { config.apiToken.Some? && config.apiToken != Some(token) }

  lemma {:induction false} DeadIsDenied(w: World, inputs: seq<Input>, last: Input, token: string)
    requires LegalRun(w, inputs + [last]) && Dead(w, token) && NeverMinted(w, inputs, token)
    requires Locked(last.config, token)
    ensures RequireCaller(Run(w, inputs).db, last.at, last.config, token).Denied?
    decreases |inputs|
  {
    if inputs == [] {
      assert [last][0] == last;
    } else {
      assert (inputs + [last])[1..] == inputs[1..] + [last];
      DeadStays(w, inputs[0], token);
      DeadIsDenied(Step(w, inputs[0]), inputs[1..], last, token);
    }
  }

  lemma DeadForever(w: World, inputs: seq<Input>, last: Input, token: string)
    requires LegalRun(w, inputs + [last]) && Dead(w, token)
    requires NeverMinted(w, inputs, token)
    requires last.req.Bearer? && last.req.token == token && Locked(last.config, token)
    ensures Answer(Run(w, inputs), last) == Refused(401)
  {
    DeadIsDenied(w, inputs, last, token);
  }

  lemma {:induction false} RunThen(w: World, before: seq<Input>, i: Input, after: seq<Input>)
    requires LegalRun(w, before + [i] + after)
    ensures LegalRun(w, before) && Legal(Run(w, before), i) && LegalRun(Step(Run(w, before), i), after)
    ensures Run(w, before + [i] + after) == Run(Step(Run(w, before), i), after)
    decreases |before|
  {
    var all := before + [i] + after;
    if before == [] {
      assert all[1..] == after;
    } else {
      assert all[1..] == before[1..] + [i] + after;
      RunThen(Step(w, before[0]), before[1..], i, after);
    }
  }

  /** Only authorizing answers 401. */
  lemma UnauthorizedIsDenied(db: Db, now: int, config: Config, token: string, route: Route)
    requires Handle(db, now, config, Bearer(token, route)).0 == Refused(401)
    ensures RequireCaller(db, now, config, token).Denied?
  {
    var auth := RequireCaller(db, now, config, token);
    assert auth.Granted? ==> Serve(auth.db, now, config, auth.caller, route).0 != Refused(401);
  }

  /** A bearer refused once on a locked deployment is refused by every later request that presents it,
      whatever the list says by then, unless the minting job has since been run on that very token and
      answered with a session. */
  lemma RefusedOnceRefusedForever(before: seq<Input>, first: Input, after: seq<Input>, last: Input)
    requires LegalRun(START, before + [first] + (after + [last]))
    requires first.req.Bearer? && last.req.Bearer? && last.req.token == first.req.token
    requires Answer(Run(START, before), first) == Refused(401)
    requires Locked(last.config, last.req.token)
    requires NeverMinted(Step(Run(START, before), first), after, last.req.token)
    ensures Answer(Run(Step(Run(START, before), first), after), last) == Refused(401)
  {
    RunThen(START, before, first, after + [last]);
    StartHolds();
    RunKeeps(START, before);
    var w := Run(START, before);
    UnauthorizedIsDenied(w.db, first.at, first.config, first.req.token, first.req.route);
    RefusedIsDead(w, first);
    DeadForever(Step(w, first), after, last, last.req.token);
  }

  /** The minting job has never been given this token, and never will be: it is a personal one. */
  lemma {:induction false} NeverAJobToken(w: World, inputs: seq<Input>, rest: seq<Input>, token: string)
    requires LegalRun(w, inputs + rest) && token in w.known && token !in w.jobTokens
    ensures NeverMinted(w, inputs, token)
    decreases |inputs|
  {
    if inputs != [] {
      assert (inputs + rest)[1..] == inputs[1..] + rest;
      assert inputs[0].req.MintSession? ==> inputs[0].req.token in JobToken(inputs[0].req);
      NeverAJobToken(Step(w, inputs[0]), inputs[1..], rest, token);
    }
  }

  /** A personal access token its owner revoked never authenticates again, with no exception. */
  lemma RevokedForever(before: seq<Input>, revoke: Input, after: seq<Input>, last: Input)
    requires LegalRun(START, before + [revoke] + (after + [last]))
    requires revoke.req.Bearer? && revoke.req.route.RevokeToken?
    requires Answer(Run(START, before), revoke) == Done
    requires last.req.Bearer? && Sha256(last.req.token) == revoke.req.route.key
    requires Locked(last.config, last.req.token)
    ensures Answer(Run(Step(Run(START, before), revoke), after), last) == Refused(401)
  {
    RunThen(START, before, revoke, after + [last]);
    StartHolds();
    RunKeeps(START, before);
    var w := Run(START, before);
    RevokeKills(w, revoke, last.req.token);
    NeverAJobToken(Step(w, revoke), after, [last], last.req.token);
    DeadForever(Step(w, revoke), after, last, last.req.token);
  }

  lemma RevokeKills(w: World, i: Input, token: string)
    requires Inv(w) && Legal(w, i) && i.req.Bearer? && i.req.route.RevokeToken?
    requires Answer(w, i) == Done && Sha256(token) == i.req.route.key
    ensures Dead(Step(w, i), token) && token !in Step(w, i).jobTokens
  {
    assert Sha256(token).text == token;
    CallerNarrows(w.db, i.at, i.config, i.req.token);
    var auth := RequireCaller(w.db, i.at, i.config, i.req.token);
    assert auth.Granted? && Sha256(token) in auth.db.tokens;
    assert Sha256(token) in w.db.tokens && Sha256(token) !in auth.db.sessions;
    assert Step(w, i).db == Revoke(auth.db, i.at, Sha256(token));
  }

  /** Signs this session out: its own sign-out, or anybody's sign-out everywhere. */
  predicate SignsOut(w: World, i: Input, token: string) {
    && i.req.Bearer? && Answer(w, i) == Done
    && var auth := RequireCaller(w.db, i.at, i.config, i.req.token);
    && (i.req.route.LogoutAll?
        || (i.req.route.Logout? && i.req.token == token && auth.Granted? && auth.caller.how.BySession?))
  }

  lemma SignOutKills(w: World, i: Input, token: string)
    requires Inv(w) && Legal(w, i) && SignsOut(w, i, token) && Sha256(token) in w.db.sessions
    ensures Dead(Step(w, i), token)
  {
    assert Sha256(token).text == token && Sha256(token) !in w.db.tokens;
    CallerNarrows(w.db, i.at, i.config, i.req.token);
    var auth := RequireCaller(w.db, i.at, i.config, i.req.token);
    assert auth.Granted? && Sha256(token) !in auth.db.tokens;
    assert Sha256(token) !in Step(w, i).db.sessions && Step(w, i).db.tokens == auth.db.tokens;
  }

  /** A session signed out, from its own browser or from anywhere, never authenticates again, unless the
      minting job has since been run on that very token and answered with a session. */
  lemma SignedOutForever(before: seq<Input>, out: Input, after: seq<Input>, last: Input)
    requires LegalRun(START, before + [out] + (after + [last]))
    requires last.req.Bearer? && Sha256(last.req.token) in Run(START, before).db.sessions
    requires SignsOut(Run(START, before), out, last.req.token)
    requires Locked(last.config, last.req.token)
    requires NeverMinted(Step(Run(START, before), out), after, last.req.token)
    ensures Answer(Run(Step(Run(START, before), out), after), last) == Refused(401)
  {
    RunThen(START, before, out, after + [last]);
    StartHolds();
    RunKeeps(START, before);
    SignOutKills(Run(START, before), out, last.req.token);
    DeadForever(Step(Run(START, before), out), after, last, last.req.token);
  }

  /** The first stamp stands: revoking again, or refusing a revoked token, never moves it. */
  lemma StampStands(db: Db, now: int, config: Config, req: Request, key: Digest)
    requires key in db.tokens && db.tokens[key].revoked.Some?
    requires req.Bearer? && req.route.CreateToken? ==> Sha256(TokenSecret(config, req.route.draw)) != key
    ensures key in Handle(db, now, config, req).1.tokens
    ensures Handle(db, now, config, req).1.tokens[key].revoked == db.tokens[key].revoked
  {
    if req.Bearer? {
      var auth := RequireCaller(db, now, config, req.token);
      var after := if auth.Granted? then auth.db else auth.committed;
      assert key in after.tokens && after.tokens[key].revoked == db.tokens[key].revoked;
    }
  }

  // ---- What the permanence rests on, and its one exception ----

  /** Commit before raise is load-bearing: had the refusal of a de-listed session been rolled back, the
      same session would authenticate again as soon as the address was listed again. */
  lemma CommitBeforeRaise(db: Db, now: int, later: int, delisted: Config, relisted: Config, token: string)
    requires LiveSession(db, now, token) && now <= later < db.sessions[Sha256(token)].expires
    requires Locked(delisted, token) && Locked(relisted, token) && !LooksLikeApiToken(token)
    requires !IsAllowed(db.sessions[Sha256(token)].email, delisted.allowed)
    requires IsAllowed(db.sessions[Sha256(token)].email, relisted.allowed)
    ensures RequireCaller(db, now, delisted, token).Denied?
    ensures RequireCaller(db, later, relisted, token).Granted?
    ensures RequireCaller(RequireCaller(db, now, delisted, token).committed, later, relisted, token).Denied?
  {
  }

  /** The exception: the minting job retried on a token that was signed out mints the same bearer anew. */
  lemma RetriedMintRevives(db: Db, now: int, config: Config, token: string, email: string, ttl: int)
    requires token != [] && !LooksLikeApiToken(token) && Locked(config, token)
    requires IsAllowed(email, config.allowed) && 0 < ttl <= MAX_MINT_TTL && Sha256(token) !in db.sessions
    ensures var mint := MintSession(true, token, email, ttl);
            var minted := Handle(db, now, config, mint).1;
            var out := Handle(minted, now, config, Bearer(token, Logout)).1;
            var again := Handle(out, now, config, mint).1;
            && Handle(minted, now, config, Bearer(token, Logout)).0 == Done
            && RequireCaller(out, now, config, token).Denied?
            && RequireCaller(again, now, config, token).Granted?
  {
    var minted := Handle(db, now, config, MintSession(true, token, email, ttl)).1;
    assert RequireCaller(minted, now, config, token).Granted?;
    var out := Handle(minted, now, config, Bearer(token, Logout)).1;
    assert Sha256(token) !in out.sessions;
  }

  // ---- What a credential can do ----

  /** Whoever authenticates with a row is on the list now, with a row neither expired nor revoked. */
  lemma CallersAreListed(db: Db, now: int, config: Config, token: string)
    requires RequireCaller(db, now, config, token).Granted?
    ensures var c := RequireCaller(db, now, config, token).caller;
            && (c.how.ByPat? || c.how.BySession? ==> c.email.Some? && IsAllowed(c.email.value, config.allowed)
                                                     && (c.expires.Some? ==> now < c.expires.value))
            && (c.how.Open? <==> config.apiToken.None?)
            && (c.how.ByToken? ==> config.apiToken == Some(token))
  {
  }

  /** A personal access token is a leaf: it mints nothing, revokes nothing and signs nobody out, so a
      leaked one cannot outlast its own revocation by evicting the session that would revoke it. */
  lemma TokenIsALeaf(db: Db, now: int, config: Config, token: string, route: Route)
    requires RequireCaller(db, now, config, token).Granted?
    requires RequireCaller(db, now, config, token).caller.how.ByPat?
    ensures var after := Handle(db, now, config, Bearer(token, route)).1;
            && after.sessions == db.sessions && after.tokens.Keys == db.tokens.Keys
            && after.states == db.states && after.handoffs == db.handoffs
            && forall d | d in db.tokens :: after.tokens[d].revoked == db.tokens[d].revoked
  {
  }
}
