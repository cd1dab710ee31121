/** Every step of the credential protocol keeps the invariant of `AuthRuns`. */
module AuthInvariant {
  import opened Prelude
  import opened AuthModel
  import opened AuthRuns

  // ---- A step first narrows the tables, then inserts at most one row ----

  /** Rows may go and stamps may move; no row appears and none changes whose it is. */
  ghost predicate Narrows(a: Db, b: Db) {
    && b.states.Keys <= a.states.Keys && (forall s | s in b.states :: b.states[s] == a.states[s])
    && b.handoffs.Keys <= a.handoffs.Keys && (forall d | d in b.handoffs :: b.handoffs[d] == a.handoffs[d])
    && b.sessions.Keys <= a.sessions.Keys
    && (forall d | d in b.sessions :: b.sessions[d].email == a.sessions[d].email
                                      && b.sessions[d].mcpClient == a.sessions[d].mcpClient)
    && b.tokens.Keys == a.tokens.Keys
    && (forall d | d in b.tokens :: b.tokens[d].email == a.tokens[d].email)
  }

  /** The tokens handed to the minting job are known, and none of them is a personal access token's. */
  ghost predicate JobTokensApart(v: World) {
    v.jobTokens <= v.known && forall d | d in v.db.tokens :: d.text !in v.jobTokens
  }

  /** What a refusal, or a route that mints nothing, makes of a world. */
  ghost predicate Quiet(w: World, v: World) {
    Narrows(w.db, v.db) && w.known <= v.known && JobTokensApart(v) && v.log == w.log
  }

  lemma QuietKeeps(w: World, v: World)
    requires Inv(w) && Quiet(w, v)
    ensures Inv(v)
  {
    assert StatesVouched(v);
    assert HandoffsVouched(v);
    assert SessionsVouched(v);
    assert TokensVouched(v);
    assert SpentGone(v);
  }

  /** Appending an entitled event that spends nothing spent before keeps the log's own promises. */
  lemma AppendKeeps(log: seq<Event>, e: Event)
    requires SpentOnce(log) && AllEntitled(log)
    requires Entitled(log + [e], |log|)
    requires StateSpent(e).Some? ==> forall k | 0 <= k < |log| :: StateSpent(log[k]) != StateSpent(e)
    requires CodeSpent(e).Some? ==> forall k | 0 <= k < |log| :: CodeSpent(log[k]) != CodeSpent(e)
    ensures SpentOnce(log + [e]) && AllEntitled(log + [e])
  {
    var longer := log + [e];
    forall k | 0 <= k < |longer|
      ensures Entitled(longer, k)
    {
      if k < |log| {
        assert Entitled(log, k);
        EntitledExtends(log, e, k);
      }
    }
  }

  lemma EntitledExtends(log: seq<Event>, e: Event, k: nat)
    requires k < |log| && Entitled(log, k)
    ensures Entitled(log + [e], k)
  {
    var longer := log + [e];
    assert forall j | 0 <= j <= k :: longer[j] == log[j];
    match log[k]
    case Begun(_, _, _) =>
    case HandedTo(_, _, _, _, _, _) =>
      var j :| 0 <= j < k && Starts(log[j], log[k]);
      assert Starts(longer[j], longer[k]);
    case SessionBy(origin, _, _, _, _, _) =>
      if origin.FromState? {
        var j :| 0 <= j < k && Completes(log[j], log[k]);
        assert Completes(longer[j], longer[k]);
      }
      if origin.FromCode? {
        var j :| 0 <= j < k && Hands(log[j], log[k]);
        assert Hands(longer[j], longer[k]);
      }
    case TokenBy(_, _, _, _, _) =>
      var j :| 0 <= j < k && Opens(log[j], log[k]);
      assert Opens(longer[j], longer[k]);
  }

  predicate SameSession(a: Session, b: Session) { a.email == b.email && a.mcpClient == b.mcpClient }

  /** The row of `v` that an event inserted is the one the event speaks of; the others were in `w`. */
  ghost predicate GrowsStates(w: World, v: World, e: Event) {
    forall s | s in v.db.states ::
      if s in w.db.states then v.db.states[s] == w.db.states[s]
      else s in v.known && s !in w.known && BeganRow(e, s, v.db.states[s])
  }

  ghost predicate GrowsHandoffs(w: World, v: World, e: Event) {
    forall d | d in v.db.handoffs ::
      if d in w.db.handoffs then v.db.handoffs[d] == w.db.handoffs[d]
      else d.text in v.known && d.text !in w.known && HandedRow(e, d, v.db.handoffs[d])
  }

  ghost predicate GrowsSessions(w: World, v: World, e: Event) {
    forall d | d in v.db.sessions ::
      if d in w.db.sessions then SameSession(w.db.sessions[d], v.db.sessions[d])
      else d.text in v.known && d !in v.db.tokens && SessionRow(e, d, v.db.sessions[d])
  }

  ghost predicate GrowsTokens(w: World, v: World, e: Event) {
    forall d | d in v.db.tokens ::
      if d in w.db.tokens then v.db.tokens[d].email == w.db.tokens[d].email
      else d.text in v.known && d !in v.db.sessions && TokenRow(e, d, v.db.tokens[d])
  }

  /** What an event spends was there to spend, and is gone. */
  ghost predicate Spends(w: World, v: World, e: Event) {
    && (StateSpent(e).Some? ==> StateSpent(e).value in w.db.states && StateSpent(e).value !in v.db.states)
    && (CodeSpent(e).Some? ==> Sha256(CodeSpent(e).value) in w.db.handoffs
                               && Sha256(CodeSpent(e).value) !in v.db.handoffs)
  }

  /** `v` is `w` after one event. */
  ghost predicate Grows(w: World, v: World, e: Event) {
    && v.log == w.log + [e] && w.known <= v.known && JobTokensApart(v)
    && GrowsStates(w, v, e) && GrowsHandoffs(w, v, e) && GrowsSessions(w, v, e) && GrowsTokens(w, v, e)
    && Spends(w, v, e) && Entitled(v.log, |w.log|)
  }

  lemma GrownStates(w: World, v: World, e: Event)
    requires StatesVouched(w) && GrowsStates(w, v, e) && v.log == w.log + [e] && w.known <= v.known
    ensures StatesVouched(v)
  {
    var n := |w.log|;
    forall s | s in v.db.states
      ensures s in v.known && exists k | 0 <= k < |v.log| :: BeganRow(v.log[k], s, v.db.states[s])
    {
      if s in w.db.states {
        var k :| 0 <= k < n && BeganRow(w.log[k], s, w.db.states[s]);
        assert BeganRow(v.log[k], s, v.db.states[s]);
      } else {
        assert BeganRow(v.log[n], s, v.db.states[s]);
      }
    }
  }

  lemma GrownHandoffs(w: World, v: World, e: Event)
    requires HandoffsVouched(w) && GrowsHandoffs(w, v, e) && v.log == w.log + [e] && w.known <= v.known
    ensures HandoffsVouched(v)
  {
    var n := |w.log|;
    forall d | d in v.db.handoffs
      ensures d.text in v.known && exists k | 0 <= k < |v.log| :: HandedRow(v.log[k], d, v.db.handoffs[d])
    {
      if d in w.db.handoffs {
        var k :| 0 <= k < n && HandedRow(w.log[k], d, w.db.handoffs[d]);
        assert HandedRow(v.log[k], d, v.db.handoffs[d]);
      } else {
        assert HandedRow(v.log[n], d, v.db.handoffs[d]);
      }
    }
  }

  lemma GrownSessions(w: World, v: World, e: Event)
    requires SessionsVouched(w) && GrowsSessions(w, v, e) && v.log == w.log + [e] && w.known <= v.known
    ensures SessionsVouched(v)
  {
    var n := |w.log|;
    forall d | d in v.db.sessions
      ensures d.text in v.known && exists k | 0 <= k < |v.log| :: SessionRow(v.log[k], d, v.db.sessions[d])
    {
      if d in w.db.sessions {
        var k :| 0 <= k < n && SessionRow(w.log[k], d, w.db.sessions[d]);
        assert SessionRow(v.log[k], d, v.db.sessions[d]);
      } else {
        assert SessionRow(v.log[n], d, v.db.sessions[d]);
      }
    }
  }

  lemma GrownTokens(w: World, v: World, e: Event)
    requires TokensVouched(w) && GrowsTokens(w, v, e) && GrowsSessions(w, v, e) && JobTokensApart(v)
    requires v.log == w.log + [e] && w.known <= v.known
    ensures TokensVouched(v)
  {
    var n := |w.log|;
    forall d | d in v.db.tokens
      ensures d.text in v.known && d !in v.db.sessions
      ensures exists k | 0 <= k < |v.log| :: TokenRow(v.log[k], d, v.db.tokens[d])
    {
      if d in w.db.tokens {
        var k :| 0 <= k < n && TokenRow(w.log[k], d, w.db.tokens[d]);
        assert TokenRow(v.log[k], d, v.db.tokens[d]);
      } else {
        assert TokenRow(v.log[n], d, v.db.tokens[d]);
      }
    }
  }

  lemma GrownSpent(w: World, v: World, e: Event)
    requires SpentGone(w) && Spends(w, v, e) && GrowsStates(w, v, e) && GrowsHandoffs(w, v, e)
    requires StatesVouched(w) && HandoffsVouched(w) && v.log == w.log + [e] && w.known <= v.known
    ensures SpentGone(v)
    ensures StateSpent(e).Some? ==> forall k | 0 <= k < |w.log| :: StateSpent(w.log[k]) != StateSpent(e)
    ensures CodeSpent(e).Some? ==> forall k | 0 <= k < |w.log| :: CodeSpent(w.log[k]) != CodeSpent(e)
  {
    forall k | 0 <= k < |v.log|
      ensures StateSpent(v.log[k]).Some? ==> StateSpent(v.log[k]).value in v.known
                                             && StateSpent(v.log[k]).value !in v.db.states
      ensures CodeSpent(v.log[k]).Some? ==> CodeSpent(v.log[k]).value in v.known
                                            && Sha256(CodeSpent(v.log[k]).value) !in v.db.handoffs
    {
      if k == |w.log| {
        assert CodeSpent(e).Some? ==> Sha256(CodeSpent(e).value).text in w.known;
      } else {
        assert CodeSpent(w.log[k]).Some? ==> Sha256(CodeSpent(w.log[k]).value).text in w.known;
      }
    }
  }

  lemma GrowsKeeps(w: World, v: World, e: Event)
    requires Inv(w) && Grows(w, v, e)
    ensures Inv(v)
  {
    GrownStates(w, v, e);
    GrownHandoffs(w, v, e);
    GrownSessions(w, v, e);
    GrownTokens(w, v, e);
    GrownSpent(w, v, e);
    AppendKeeps(w.log, e);
  }

  // ---- Each kind of request ----

  lemma TokenStampNarrows(db: Db, key: Digest, row: ApiToken)
    requires key in db.tokens && row.email == db.tokens[key].email
    ensures Narrows(db, db.(tokens := db.tokens[key := row]))
  {
  }

  lemma SessionStampNarrows(db: Db, key: Digest, row: Session)
    requires key in db.sessions && SameSession(row, db.sessions[key])
    ensures Narrows(db, db.(sessions := db.sessions[key := row]))
  {
  }

  lemma SessionGoneNarrows(db: Db, keys: set<Digest>)
    ensures Narrows(db, db.(sessions := db.sessions - keys))
  {
  }

  lemma NarrowsTwice(a: Db, b: Db, c: Db)
    requires Narrows(a, b) && Narrows(b, c)
    ensures Narrows(a, c)
  {
  }

  /** Authorizing, whether it grants or refuses, only narrows the tables. */
  lemma CallerNarrows(db: Db, now: int, config: Config, token: string)
    ensures var a := RequireCaller(db, now, config, token);
            Narrows(db, if a.Granted? then a.db else a.committed)
  {
    var key := Sha256(token);
    if config.apiToken.None? || (token != [] && IsAscii(token) && token == config.apiToken.value) {
    } else if LooksLikeApiToken(token) && LiveToken(db, now, token) {
      var touched := TouchToken(db, now, token);
      TokenStampNarrows(db, key, db.tokens[key].(lastUsed := Some(now)));
      TokenStampNarrows(touched, key, Revoke(touched, now, key).tokens[key]);
      NarrowsTwice(db, touched, Revoke(touched, now, key));
    } else if LiveSession(db, now, token) {
      var touched := TouchSession(db, now, token);
      SessionStampNarrows(db, key, db.sessions[key].(lastSeen := now));
      SessionGoneNarrows(touched, {key});
      NarrowsTwice(db, touched, touched.(sessions := touched.sessions - {key}));
    }
  }

  /** Every route but the minting one only narrows the tables. */
  lemma ServeNarrows(db: Db, now: int, config: Config, caller: Caller, route: Route)
    requires !Serve(db, now, config, caller, route).0.Minted?
    ensures Narrows(db, Serve(db, now, config, caller, route).1)
  {
    if route.RevokeToken? && route.key in db.tokens {
      TokenStampNarrows(db, route.key, Revoke(db, now, route.key).tokens[route.key]);
    } else if route.Logout? && caller.session.Some? {
      SessionGoneNarrows(db, {caller.session.value});
    }
  }

  /** What authorizing says of the caller: whose row it read, and that the list still has them. */
  lemma CallerOf(db: Db, now: int, config: Config, token: string)
    requires RequireCaller(db, now, config, token).Granted?
    ensures var c := RequireCaller(db, now, config, token).caller;
            && (c.how.BySession? <==> c.session.Some?)
            && (c.how.BySession? ==> c.session == Some(Sha256(token)) && Sha256(token) in db.sessions
                                     && c.email == Some(db.sessions[Sha256(token)].email)
                                     && c.mcpClient == db.sessions[Sha256(token)].mcpClient
                                     && IsAllowed(c.email.value, config.allowed))
  {
  }

  /** A job's token is new or was a job's before, so it is never a personal access token. */
  lemma JobTokensStay(w: World, i: Input)
    requires TokensVouched(w) && w.jobTokens <= w.known && Legal(w, i)
    ensures forall d | d in w.db.tokens :: d.text !in w.jobTokens + JobToken(i.req)
    ensures Step(w, i).jobTokens <= Step(w, i).known
  {
  }

  /** A step that appends nothing and only narrows the tables. */
  lemma QuietStep(w: World, i: Input)
    requires Inv(w) && Legal(w, i)
    requires Narrows(w.db, Step(w, i).db) && Step(w, i).log == w.log
    ensures Inv(Step(w, i))
  {
    JobTokensStay(w, i);
    QuietKeeps(w, Step(w, i));
  }

  lemma StartStep(w: World, i: Input)
    requires Inv(w) && Legal(w, i) && (i.req.StartLogin? || i.req.StartNative?)
    ensures Inv(Step(w, i))
  {
    var v := Step(w, i);
    if Answer(w, i).Refused? {
      QuietStep(w, i);
    } else {
      JobTokensStay(w, i);
      var state := LOGIN_STATE_PREFIX + i.req.draw;
      assert state in Drawn(i.config, i.req);
      GrowsKeeps(w, v, v.log[|w.log|]);
    }
  }

  /** A handoff row is inserted and the state it came from is gone. */
  lemma HandoffInserted(w: World, v: World, e: Event)
    requires Inv(w) && JobTokensApart(v) && w.known <= v.known
    requires e.HandedTo? && v.log == w.log + [e] && Entitled(v.log, |w.log|) && e.state in w.db.states
    requires e.code in v.known && e.code !in w.known
    requires v.db == w.db.(states := w.db.states - {e.state},
                           handoffs := w.db.handoffs[Sha256(e.code) := Handoff(e.email, e.proof, e.at + HANDOFF_TTL)])
    ensures Inv(v)
  {
    assert GrowsHandoffs(w, v, e) by {
      assert Sha256(e.code).text == e.code;
    }
    assert GrowsTokens(w, v, e) && GrowsSessions(w, v, e) && GrowsStates(w, v, e);
    GrowsKeeps(w, v, e);
  }

  /** A session row is inserted, and what its origin spent is gone. */
  lemma SessionInserted(w: World, v: World, e: Event, row: Session)
    requires Inv(w) && JobTokensApart(v) && w.known <= v.known
    requires e.SessionBy? && v.log == w.log + [e] && Entitled(v.log, |w.log|)
    requires e.token in v.known && Sha256(e.token) !in w.db.sessions && Sha256(e.token) !in w.db.tokens
    requires row.email == e.email && row.mcpClient == e.client
    requires e.origin.FromState? ==> e.origin.state in w.db.states
    requires e.origin.FromCode? ==> Sha256(e.origin.code) in w.db.handoffs
    requires v.db == w.db.(sessions := w.db.sessions[Sha256(e.token) := row],
                           states := if e.origin.FromState? then w.db.states - {e.origin.state} else w.db.states,
                           handoffs := if e.origin.FromCode? then w.db.handoffs - {Sha256(e.origin.code)}
                                       else w.db.handoffs)
    ensures Inv(v)
  {
    assert GrowsSessions(w, v, e) by {
      assert Sha256(e.token).text == e.token;
    }
    GrowsKeeps(w, v, e);
  }

  /** A drawn secret names no row yet. */
  lemma DrawnIsNew(w: World, secret: string)
    requires Inv(w) && secret !in w.known
    ensures Sha256(secret) !in w.db.sessions && Sha256(secret) !in w.db.tokens
  {
    assert Sha256(secret).text == secret;
  }

  lemma HandedShape(db: Db, now: int, config: Config, state: string, identity: Identity, draw: string)
    requires CallbackStep(db, now, config, state, identity, draw).0.HandedOff?
    ensures state in db.states && db.states[state].challenge.Some? && identity.Verified?
    ensures var row := db.states[state];
            && now < row.expires && IsAllowed(identity.email, config.allowed)
            && CallbackStep(db, now, config, state, identity, draw)
               == (HandedOff(draw, identity.email, row.appLink),
                   db.(states := db.states - {state},
                       handoffs := db.handoffs[Sha256(draw) :=
                         Handoff(identity.email, row.challenge.value, now + HANDOFF_TTL)]))
  {
  }

  lemma CallbackTables(w: World, i: Input)
    requires i.req.Callback?
    ensures var r := CallbackStep(w.db, i.at, i.config, i.req.state, i.req.identity, i.req.draw);
            Answer(w, i) == r.0 && Step(w, i).db == r.1
  {
  }

  lemma HandedLog(w: World, i: Input)
    requires i.req.Callback? && Answer(w, i).HandedOff?
    ensures Step(w, i).log
         == w.log + HandedEvent(w.db, i, i.req.state, Answer(w, i).code, Answer(w, i).email)
  {
  }

  lemma HandedEntitled(w: World, e: Event)
    requires StatesVouched(w) && e.HandedTo? && e.state in w.db.states
    requires w.db.states[e.state].challenge == Some(e.proof) && e.at < w.db.states[e.state].expires
    requires IsAllowed(e.email, e.allowed)
    ensures Entitled(w.log + [e], |w.log|)
  {
    var longer := w.log + [e];
    var k :| 0 <= k < |w.log| && BeganRow(w.log[k], e.state, w.db.states[e.state]);
    assert Starts(longer[k], longer[|w.log|]);
  }

  lemma HandoffKeeps(w: World, i: Input, state: string)
    requires Inv(w) && Legal(w, i) && i.req.Callback? && Answer(w, i).HandedOff?
    requires state == i.req.state
    ensures Inv(Step(w, i))
  {
    CallbackTables(w, i);
    HandedShape(w.db, i.at, i.config, state, i.req.identity, i.req.draw);
    HandedLog(w, i);
    var email := i.req.identity.email;
    var e := HandedTo(state, i.req.draw, email, w.db.states[state].challenge.value, i.at, i.config.allowed);
    HandedEntitled(w, e);
    JobTokensStay(w, i);
    assert i.req.draw in Drawn(i.config, i.req);
    HandoffInserted(w, Step(w, i), e);
  }

  lemma SignInKeeps(w: World, i: Input, state: string)
    requires Inv(w) && Legal(w, i) && i.req.Callback? && Answer(w, i).SignedIn?
    requires state == i.req.state
    ensures Inv(Step(w, i))
  {
    JobTokensStay(w, i);
    assert i.req.draw in Drawn(i.config, i.req);
    DrawnIsNew(w, i.req.draw);
    SignInEntitled(w, i);
    var v := Step(w, i);
    SessionInserted(w, v, v.log[|w.log|], v.db.sessions[Sha256(i.req.draw)]);
  }

  lemma SignInEntitled(w: World, i: Input)
    requires StatesVouched(w) && i.req.Callback? && Answer(w, i).SignedIn?
    ensures |Step(w, i).log| == |w.log| + 1 && Entitled(Step(w, i).log, |w.log|)
  {
    var v := Step(w, i);
    var state := i.req.state;
    var k :| 0 <= k < |w.log| && BeganRow(w.log[k], state, w.db.states[state]);
    assert Completes(v.log[k], v.log[|w.log|]);
  }

  lemma CallbackKeeps(w: World, i: Input)
    requires Inv(w) && Legal(w, i) && i.req.Callback?
    ensures Inv(Step(w, i))
  {
    var out := Answer(w, i);
    if out.HandedOff? {
      HandoffKeeps(w, i, i.req.state);
    } else if out.SignedIn? {
      SignInKeeps(w, i, i.req.state);
    } else {
      QuietStep(w, i);
    }
  }

  lemma RedeemEntitled(w: World, i: Input)
    requires HandoffsVouched(w) && i.req.Redeem? && Answer(w, i).SignedIn?
    ensures |Step(w, i).log| == |w.log| + 1 && Entitled(Step(w, i).log, |w.log|)
  {
    var v := Step(w, i);
    var d := Sha256(i.req.code);
    var k :| 0 <= k < |w.log| && HandedRow(w.log[k], d, w.db.handoffs[d]);
    assert Hands(v.log[k], v.log[|w.log|]);
  }

  lemma RedeemKeeps(w: World, i: Input)
    requires Inv(w) && Legal(w, i) && i.req.Redeem?
    ensures Inv(Step(w, i))
  {
    if Answer(w, i).Refused? {
      QuietStep(w, i);
    } else {
      JobTokensStay(w, i);
      assert i.req.draw in Drawn(i.config, i.req);
      DrawnIsNew(w, i.req.draw);
      RedeemEntitled(w, i);
      var v := Step(w, i);
      SessionInserted(w, v, v.log[|w.log|], v.db.sessions[Sha256(i.req.draw)]);
    }
  }

  lemma MintKeeps(w: World, i: Input)
    requires Inv(w) && Legal(w, i) && (i.req.McpIssue? || i.req.MintSession?)
    ensures Inv(Step(w, i))
  {
    if Answer(w, i).Refused? {
      QuietStep(w, i);
    } else {
      JobTokensStay(w, i);
      var token := if i.req.McpIssue? then i.req.draw else i.req.token;
      assert token in Drawn(i.config, i.req) + JobToken(i.req);
      assert Sha256(token).text == token;
      var v := Step(w, i);
      assert Entitled(v.log, |w.log|);
      SessionInserted(w, v, v.log[|w.log|], v.db.sessions[Sha256(token)]);
    }
  }

  /** A token row is inserted by a bearer whose session row the tables still hold. */
  lemma TokenInserted(w: World, v: World, e: Event, row: ApiToken)
    requires Inv(w) && JobTokensApart(v) && w.known <= v.known
    requires e.TokenBy? && v.log == w.log + [e] && Entitled(v.log, |w.log|)
    requires e.secret in v.known && e.secret !in w.known && row.email == e.email
    requires v.db == w.db.(tokens := w.db.tokens[Sha256(e.secret) := row])
    ensures Inv(v)
  {
    DrawnIsNew(w, e.secret);
    assert Sha256(e.secret).text == e.secret;
    GrowsKeeps(w, v, e);
  }

  /** What minting a token is: a browser session's row, and the new row beside it. */
  lemma MintedStep(w: World, i: Input)
    requires i.req.Bearer? && Answer(w, i).Minted?
    ensures i.req.route.CreateToken? && Sha256(i.req.token) in w.db.sessions
    ensures var auth := RequireCaller(w.db, i.at, i.config, i.req.token);
            var session := w.db.sessions[Sha256(i.req.token)];
            var secret := TokenSecret(i.config, i.req.route.draw);
            && auth.Granted? && session.mcpClient.None? && IsAllowed(session.email, i.config.allowed)
            && Step(w, i).log == w.log + [TokenBy(i.req.token, secret, session.email, i.at, i.config.allowed)]
            && exists row: ApiToken :: row.email == session.email
                 && Step(w, i).db == auth.db.(tokens := auth.db.tokens[Sha256(secret) := row])
  {
    CallerOf(w.db, i.at, i.config, i.req.token);
    var auth := RequireCaller(w.db, i.at, i.config, i.req.token);
    var secret := TokenSecret(i.config, i.req.route.draw);
    var row := Step(w, i).db.tokens[Sha256(secret)];
    assert row.email == auth.caller.email.value;
    assert Step(w, i).db == auth.db.(tokens := auth.db.tokens[Sha256(secret) := row]);
  }

  lemma MintedEntitled(w: World, i: Input)
    requires SessionsVouched(w) && i.req.Bearer? && Answer(w, i).Minted?
    ensures |Step(w, i).log| == |w.log| + 1 && Entitled(Step(w, i).log, |w.log|)
  {
    MintedStep(w, i);
    var v := Step(w, i);
    var d := Sha256(i.req.token);
    var k :| 0 <= k < |w.log| && SessionRow(w.log[k], d, w.db.sessions[d]);
    assert Opens(v.log[k], v.log[|w.log|]);
  }

  lemma CreateTokenKeeps(w: World, i: Input)
    requires Inv(w) && Legal(w, i) && i.req.Bearer? && Answer(w, i).Minted?
    ensures Inv(Step(w, i))
  {
    var v := Step(w, i);
    MintedStep(w, i);
    MintedEntitled(w, i);
    CallerNarrows(w.db, i.at, i.config, i.req.token);
    var auth := RequireCaller(w.db, i.at, i.config, i.req.token);
    var secret := TokenSecret(i.config, i.req.route.draw);
    assert secret in Drawn(i.config, i.req);
    assert Sha256(secret).text == secret;
    var u := World(auth.db, i.at, w.known, w.jobTokens, w.log);
    QuietKeeps(w, u);
    TokenInserted(u, v, v.log[|w.log|], v.db.tokens[Sha256(secret)]);
  }

  lemma BearerServes(w: World, i: Input)
    requires i.req.Bearer? && !Answer(w, i).Minted?
    ensures Narrows(w.db, Step(w, i).db)
  {
    var auth := RequireCaller(w.db, i.at, i.config, i.req.token);
    CallerNarrows(w.db, i.at, i.config, i.req.token);
    if auth.Granted? {
      var served := Serve(auth.db, i.at, i.config, auth.caller, i.req.route);
      ServeNarrows(auth.db, i.at, i.config, auth.caller, i.req.route);
      if !served.0.Refused? {
        NarrowsTwice(w.db, auth.db, served.1);
      }
    }
  }

  lemma BearerLogsNothing(w: World, i: Input)
    requires i.req.Bearer? && !Answer(w, i).Minted?
    ensures Step(w, i).log == w.log
  {
    var auth := RequireCaller(w.db, i.at, i.config, i.req.token);
    assert auth.Granted? ==> var out := Serve(auth.db, i.at, i.config, auth.caller, i.req.route).0;
                             out.Refused? || out.Minted? || out.Listed? || out.Done?;
    var out := Answer(w, i);
    assert out.Refused? || out.Listed? || out.Done?;
    assert EventOf(w.db, i, out) == [];
  }

  lemma BearerKeeps(w: World, i: Input)
    requires Inv(w) && Legal(w, i) && i.req.Bearer?
    ensures Inv(Step(w, i))
  {
    if Answer(w, i).Minted? {
      CreateTokenKeeps(w, i);
    } else {
      BearerServes(w, i);
      BearerLogsNothing(w, i);
      QuietStep(w, i);
    }
  }

  lemma StepKeeps(w: World, i: Input)
    requires Inv(w) && Legal(w, i)
    ensures Inv(Step(w, i))
  {
    match i.req
    case StartLogin(_, _, _) => StartStep(w, i);
    case StartNative(_, _, _, _) => StartStep(w, i);
    case Callback(_, _, _) => CallbackKeeps(w, i);
    case Redeem(_, _, _) => RedeemKeeps(w, i);
    case Bearer(_, _) => BearerKeeps(w, i);
    case McpIssue(_, _, _) => MintKeeps(w, i);
    case MintSession(_, _, _, _) => MintKeeps(w, i);
  }

  lemma {:induction false} RunKeeps(w: World, inputs: seq<Input>)
    requires Inv(w) && LegalRun(w, inputs)
    ensures Inv(Run(w, inputs))
    decreases |inputs|
  {
    if inputs != [] {
      StepKeeps(w, inputs[0]);
      RunKeeps(Step(w, inputs[0]), inputs[1..]);
    }
  }

  lemma StartHolds()
    ensures Inv(START)
  {
  }
}
