/** Sign-in, browser sessions, the iOS handoff and personal access tokens, as request transactions
    over tables. `Handle` is what one request answers and what it leaves committed. */
module AuthModel {
  import opened Prelude

  // ---- Values ----

  /** The stored form of a secret. SHA-256 is taken to be collision-free, so a digest is its text. */
  datatype Digest = Sha256(text: string)

  /** A PKCE challenge: the S256 transform of a verifier, or text that is no verifier's transform. */
  datatype Challenge = S256(verifier: string) | Unmatched(text: string)

  datatype Session = Session(email: string, expires: int, lastSeen: int, mcpClient: Option<string>)

  datatype ApiToken = ApiToken(email: string, expires: Option<int>, lastUsed: Option<int>, revoked: Option<int>)

  /** An in-flight authorization; a challenge marks one the iOS app started. */
  datatype Pending = Pending(challenge: Option<Challenge>, appLink: bool, expires: int)

  datatype Handoff = Handoff(email: string, challenge: Challenge, expires: int)

  /** The tables, each keyed by its unique column. A row's id is modelled as its key. */
  datatype Db = Db(states: map<string, Pending>, sessions: map<Digest, Session>,
                   handoffs: map<Digest, Handoff>, tokens: map<Digest, ApiToken>)

  datatype Config = Config(allowed: set<string>, apiToken: Option<string>, environment: string,
                           webOrigin: bool, appLinkHost: Option<string>)

  const LOGIN_STATE_PREFIX := "login."
  const TOKEN_MARKER := "mot_"
  const SESSION_TTL := 30 * 24 * 60 * 60
  const STATE_TTL := 600
  const HANDOFF_TTL := 120
  const MCP_TTL := 60 * 60
  const MAX_MINT_TTL := 24 * 60 * 60
  const TOUCH_INTERVAL := 5 * 60

  // ---- The allowlist ----

  /** Whether an address, stripped and lowercased, is on the list. An empty list admits nobody. */
  predicate IsAllowed(address: string, allowed: set<string>) { allowed != {} && address in allowed }

  // ---- Requests and answers ----

  /** What the identity provider said about an authorization code. */
  datatype Identity = Verified(email: string) | Unavailable | Rejected

  datatype Route =
    | CreateToken(days: Option<nat>, draw: string)
    | ListTokens
    | RevokeToken(key: Digest)
    | Logout
    | LogoutAll
    | Other(fails: bool)        // any other `/v1` route, which may raise after authorizing

  /** A request, or a job writing the same tables. `draw` is the secret its randomness yields; states
      and addresses are given as the source normalises them, stripped and (addresses) lowercased. */
  datatype Request =
    | StartLogin(redirectOk: bool, idpUp: bool, draw: string)
    | StartNative(challenge: Challenge, appDomain: Option<string>, idpUp: bool, draw: string)
    | Callback(state: string, identity: Identity, draw: string)
    | Redeem(code: string, verifier: string, draw: string)
    | Bearer(token: string, route: Route)
    | McpIssue(email: string, client: string, draw: string)
    | MintSession(enabled: bool, token: string, email: string, ttl: int)

  datatype How = ByToken | BySession | ByPat | Open

  datatype Caller = Caller(how: How, email: Option<string>, session: Option<Digest>,
                           expires: Option<int>, mcpClient: Option<string>)

  datatype Outcome =
    | Refused(status: int)
    | Started(state: string)
    | SignedIn(token: string, email: string, expires: int)
    | HandedOff(code: string, email: string, appLink: bool)
    | Minted(secret: string)
    | Listed(keys: set<Digest>)
    | Done

  /** Who is asking, with the rows as authorizing left them; or a refusal, with what it committed. */
  datatype Auth = Granted(caller: Caller, db: Db) | Denied(status: int, committed: Db)

  // ---- Rows ----

  function PurgeStates(db: Db, now: int): Db {
    db.(states := map s | s in db.states && db.states[s].expires > now :: db.states[s])
  }

  function PurgeSessions(db: Db, now: int): Db {
    db.(sessions := map d | d in db.sessions && db.sessions[d].expires > now :: db.sessions[d])
  }

  function PurgeHandoffs(db: Db, now: int): Db {
    db.(handoffs := map d | d in db.handoffs && db.handoffs[d].expires > now :: db.handoffs[d])
  }

  /** A session row the bearer resolves to right now. */
  predicate LiveSession(db: Db, now: int, token: string) {
    token != [] && Sha256(token) in db.sessions && db.sessions[Sha256(token)].expires > now
  }

  function TouchSession(db: Db, now: int, token: string): Db
    requires LiveSession(db, now, token)
  {
    var row := db.sessions[Sha256(token)];
    if row.lastSeen < now - TOUCH_INTERVAL
    then db.(sessions := db.sessions[Sha256(token) := row.(lastSeen := now)]) else db
  }

  /** A personal access token row the bearer resolves to right now: neither revoked nor expired. */
  predicate LiveToken(db: Db, now: int, token: string) {
    && token != [] && Sha256(token) in db.tokens
    && var row := db.tokens[Sha256(token)];
    && row.revoked.None? && (row.expires.None? || row.expires.value > now)
  }

  function TouchToken(db: Db, now: int, token: string): Db
    requires LiveToken(db, now, token)
  {
    var row := db.tokens[Sha256(token)];
    if row.lastUsed.None? || row.lastUsed.value < now - TOUCH_INTERVAL
    then db.(tokens := db.tokens[Sha256(token) := row.(lastUsed := Some(now))]) else db
  }

  /** `coalesce(revoked_at, now())`: a row once stamped keeps its stamp. */
  function Revoke(db: Db, now: int, key: Digest): Db
    requires key in db.tokens
  {
    var row := db.tokens[key];
    db.(tokens := db.tokens[key := row.(revoked := if row.revoked.Some? then row.revoked else Some(now))])
  }

  function PutSession(db: Db, token: string, email: string, expires: int, now: int, client: Option<string>): Db {
    db.(sessions := db.sessions[Sha256(token) := Session(email, expires, now, client)])
  }

  // ---- Authorizing a bearer ----

  predicate IsAscii(s: string) { forall c | c in s :: c < '\U{80}' }

  predicate LooksLikeApiToken(token: string) { TOKEN_MARKER <= token }

  /** `require_caller`. De-listing deletes or stamps the row and commits before it refuses. */
  function RequireCaller(db: Db, now: int, config: Config, token: string): Auth {
    if config.apiToken.None? then Granted(Caller(Open, None, None, None, None), db)
    else if token != [] && IsAscii(token) && token == config.apiToken.value then
      Granted(Caller(ByToken, None, None, None, None), db)
    else if LooksLikeApiToken(token) && LiveToken(db, now, token) then
      var row := db.tokens[Sha256(token)];
      var touched := TouchToken(db, now, token);
      if IsAllowed(row.email, config.allowed)
      then Granted(Caller(ByPat, Some(row.email), None, row.expires, None), touched)
      else Denied(401, Revoke(touched, now, Sha256(token)))
    else if LiveSession(db, now, token) then
      var row := db.sessions[Sha256(token)];
      var touched := TouchSession(db, now, token);
      if IsAllowed(row.email, config.allowed)
      then Granted(Caller(BySession, Some(row.email), Some(Sha256(token)), Some(row.expires), row.mcpClient), touched)
      else Denied(401, touched.(sessions := touched.sessions - {Sha256(token)}))
    else Denied(401, db)
  }

  /** A person signed in to a browser: a session that is no MCP client's grant. */
  predicate IsBrowserSession(caller: Caller) {
    caller.how.BySession? && caller.mcpClient.None? && caller.email.Some?
  }

  function TokenSecret(config: Config, draw: string): string { TOKEN_MARKER + config.environment + "_" + draw }

  /** A `/v1` route run by an authorized caller: its answer, and the rows if it does not raise. */
  function Serve(db: Db, now: int, config: Config, caller: Caller, route: Route): (Outcome, Db) {
    match route
    case CreateToken(days, draw) =>
      if !IsBrowserSession(caller) then (Refused(403), db)
      else
        var secret := TokenSecret(config, draw);
        var expires := if days.None? then None else Some(now + days.value * 86_400);
        (Minted(secret), db.(tokens := db.tokens[Sha256(secret) := ApiToken(caller.email.value, expires, None, None)]))
    case ListTokens =>
      if !IsBrowserSession(caller) then (Refused(403), db) else (Listed(db.tokens.Keys), db)
    case RevokeToken(key) =>
      if !IsBrowserSession(caller) then (Refused(403), db)
      else if key !in db.tokens then (Refused(404), db)
      else (Done, Revoke(db, now, key))
    case Logout =>
      (Done, if caller.session.Some? then db.(sessions := db.sessions - {caller.session.value}) else db)
    case LogoutAll =>
      if caller.how.ByPat? then (Refused(403), db) else (Done, db.(sessions := map[]))
    case Other(fails) => if fails then (Refused(500), db) else (Done, db)
  }

  // ---- The sign-in routes ----

  function StartLoginStep(db: Db, now: int, config: Config, redirectOk: bool, idpUp: bool, draw: string)
    : (Outcome, Db)
  {
    if config.allowed == {} then (Refused(503), db)
    else if !redirectOk then (Refused(400), db)
    else
      var swept := PurgeSessions(PurgeStates(db, now), now);
      var state := LOGIN_STATE_PREFIX + draw;
      if !idpUp then (Refused(503), db)
      else (Started(state), swept.(states := swept.states[state := Pending(None, false, now + STATE_TTL)]))
  }

  function StartNativeStep(db: Db, now: int, config: Config, challenge: Challenge, appDomain: Option<string>,
                           idpUp: bool, draw: string): (Outcome, Db)
  {
    if config.allowed == {} || !config.webOrigin then (Refused(503), db)
    else
      var swept := PurgeHandoffs(PurgeSessions(PurgeStates(db, now), now), now);
      var appLink := config.appLinkHost.Some? && appDomain == config.appLinkHost;
      var state := LOGIN_STATE_PREFIX + draw;
      if !idpUp then (Refused(503), db)
      else (Started(state), swept.(states := swept.states[state := Pending(Some(challenge), appLink, now + STATE_TTL)]))
  }

  /** `complete_login`: consume the state, verify, check the list; then a handoff or a session. */
  function CallbackStep(db: Db, now: int, config: Config, state: string, identity: Identity, draw: string)
    : (Outcome, Db)
  {
    if !(LOGIN_STATE_PREFIX <= state) then (Refused(400), db)
    else if config.allowed == {} then (Refused(503), db)
    else if state !in db.states || db.states[state].expires <= now then (Refused(400), db)
    else
      var pending := db.states[state];
      var taken := db.(states := db.states - {state});
      match identity
      case Unavailable => (Refused(503), db)
      case Rejected => (Refused(400), db)
      case Verified(email) =>
        if !IsAllowed(email, config.allowed) then (Refused(403), db)
        else if pending.challenge.Some? then
          var row := Handoff(email, pending.challenge.value, now + HANDOFF_TTL);
          (HandedOff(draw, email, pending.appLink), taken.(handoffs := taken.handoffs[Sha256(draw) := row]))
        else
          (SignedIn(draw, email, now + SESSION_TTL), PutSession(taken, draw, email, now + SESSION_TTL, now, None))
  }

  predicate LiveHandoff(db: Db, now: int, code: string) {
    code != [] && Sha256(code) in db.handoffs && db.handoffs[Sha256(code)].expires > now
  }

  /** `redeem_native_login`: every refusal rolls the consumed code back. */
  function RedeemStep(db: Db, now: int, config: Config, code: string, verifier: string, draw: string)
    : (Outcome, Db)
  {
    if config.allowed == {} then (Refused(503), db)
    else if !LiveHandoff(db, now, code) then (Refused(400), db)
    else
      var row := db.handoffs[Sha256(code)];
      var taken := db.(handoffs := db.handoffs - {Sha256(code)});
      if row.challenge != S256(verifier) then (Refused(400), db)
      else if !IsAllowed(row.email, config.allowed) then (Refused(403), db)
      else
        (SignedIn(draw, row.email, now + SESSION_TTL),
         PutSession(taken, draw, row.email, now + SESSION_TTL, now, None))
  }

  // ---- One request ----

  /** The answer to one request and the tables it leaves committed. */
  function Handle(db: Db, now: int, config: Config, req: Request): (Outcome, Db) {
    match req
    case StartLogin(redirectOk, idpUp, draw) => StartLoginStep(db, now, config, redirectOk, idpUp, draw)
    case StartNative(challenge, appDomain, idpUp, draw) =>
      StartNativeStep(db, now, config, challenge, appDomain, idpUp, draw)
    case Callback(state, identity, draw) => CallbackStep(db, now, config, state, identity, draw)
    case Redeem(code, verifier, draw) => RedeemStep(db, now, config, code, verifier, draw)
    case Bearer(token, route) =>
      (match RequireCaller(db, now, config, token)
       case Denied(status, committed) => (Refused(status), committed)
       case Granted(caller, touched) =>
         var served := Serve(touched, now, config, caller, route);
         if served.0.Refused? then (served.0, db) else served)
    case McpIssue(email, client, draw) =>
      if !IsAllowed(email, config.allowed) then (Refused(400), db)
      else (SignedIn(draw, email, now + MCP_TTL), PutSession(db, draw, email, now + MCP_TTL, now, Some(client)))
    case MintSession(enabled, token, email, ttl) =>
      if !enabled || !(0 < ttl <= MAX_MINT_TTL) || !IsAllowed(email, config.allowed) || Sha256(token) in db.sessions
      then (Refused(400), db)
      else (SignedIn(token, email, now + ttl), PutSession(db, token, email, now + ttl, now, None))
  }
}
