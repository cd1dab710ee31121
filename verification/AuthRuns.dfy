/** Whole runs of the credential protocol: any interleaving of requests, each atomic, under a clock
    that never goes back and a configuration that may change between any two of them. */
module AuthRuns {
  import opened Prelude
  import opened AuthModel

  datatype Input = Input(at: int, config: Config, req: Request)

  datatype Origin = FromState(state: string) | FromCode(code: string, verifier: string) | FromClient | FromJob

  /** What a request committed, as a log nobody can rewrite. `allowed` is the list it was checked against. */
  datatype Event =
    | Begun(state: string, challenge: Option<Challenge>, at: int)
    | HandedTo(state: string, code: string, email: string, proof: Challenge, at: int, allowed: set<string>)
    | SessionBy(origin: Origin, token: string, email: string, client: Option<string>, at: int, allowed: set<string>)
    | TokenBy(bearer: string, secret: string, email: string, at: int, allowed: set<string>)

  /** The tables, the last request's time, every secret drawn or string presented so far, the tokens
      handed to the session-minting job, and the log. */
  datatype World = World(db: Db, now: int, known: set<string>, jobTokens: set<string>, log: seq<Event>)

  const START := World(Db(map[], map[], map[], map[]), 0, {}, {}, [])

  /** The secret a request's randomness yields, as it will be stored or sent. */
  function Drawn(config: Config, req: Request): set<string> {
    match req
    case StartLogin(_, _, draw) => {LOGIN_STATE_PREFIX + draw}
    case StartNative(_, _, _, draw) => {LOGIN_STATE_PREFIX + draw}
    case Callback(_, _, draw) => {draw}
    case Redeem(_, _, draw) => {draw}
    case McpIssue(_, _, draw) => {draw}
    case Bearer(_, CreateToken(_, draw)) => {TokenSecret(config, draw)}
    case _ => {}
  }

  function JobToken(req: Request): set<string> {
    if req.MintSession? then {req.token} else {}
  }

  function Presented(req: Request): set<string> {
    match req
    case Callback(state, _, _) => {state}
    case Redeem(code, _, _) => {code}
    case Bearer(token, _) => {token}
    case _ => {}
  }

  /** Randomness never repeats a string that has appeared. The job's token is drawn outside, and a
      retried execution brings the same one again. */
  predicate Legal(w: World, i: Input) {
    && w.now <= i.at
    && Drawn(i.config, i.req) !! w.known
    && [] !in Drawn(i.config, i.req)
    && Drawn(i.config, i.req) !! Presented(i.req)
    && JobToken(i.req) * w.known <= w.jobTokens
  }

  function HandedEvent(db: Db, i: Input, state: string, code: string, email: string): seq<Event> {
    if state in db.states && db.states[state].challenge.Some?
    then [HandedTo(state, code, email, db.states[state].challenge.value, i.at, i.config.allowed)]
    else []
  }

  function EventOf(db: Db, i: Input, out: Outcome): seq<Event> {
    match out
    case Started(state) =>
      [Begun(state, if i.req.StartNative? then Some(i.req.challenge) else None, i.at)]
    case HandedOff(code, email, _) =>
      if i.req.Callback? then HandedEvent(db, i, i.req.state, code, email) else []
    case SignedIn(token, email, _) =>
      (match i.req
       case Callback(state, _, _) =>
         [SessionBy(FromState(state), token, email, None, i.at, i.config.allowed)]
       case Redeem(code, verifier, _) =>
         [SessionBy(FromCode(code, verifier), token, email, None, i.at, i.config.allowed)]
       case McpIssue(_, client, _) => [SessionBy(FromClient, token, email, Some(client), i.at, i.config.allowed)]
       case _ => [SessionBy(FromJob, token, email, None, i.at, i.config.allowed)])
    case Minted(secret) =>
      if i.req.Bearer? && Sha256(i.req.token) in db.sessions
      then [TokenBy(i.req.token, secret, db.sessions[Sha256(i.req.token)].email, i.at, i.config.allowed)]
      else []
    case _ => []
  }

  function Answer(w: World, i: Input): Outcome { Handle(w.db, i.at, i.config, i.req).0 }

  function Step(w: World, i: Input): World {
    var (out, db) := Handle(w.db, i.at, i.config, i.req);
    World(db, i.at, w.known + Drawn(i.config, i.req) + Presented(i.req) + JobToken(i.req),
          w.jobTokens + JobToken(i.req), w.log + EventOf(w.db, i, out))
  }

  predicate LegalRun(w: World, inputs: seq<Input>)
    decreases |inputs|
  {
    inputs == [] || (Legal(w, inputs[0]) && LegalRun(Step(w, inputs[0]), inputs[1..]))
  }

  function Run(w: World, inputs: seq<Input>): World
    decreases |inputs|
  {
    if inputs == [] then w else Run(Step(w, inputs[0]), inputs[1..])
  }

  // ---- What every step keeps: each row is vouched for by the log ----

  predicate BeganRow(e: Event, state: string, row: Pending) {
    e.Begun? && e.state == state && e.challenge == row.challenge && e.at + STATE_TTL == row.expires
  }

  predicate HandedRow(e: Event, d: Digest, row: Handoff) {
    && e.HandedTo? && e.code == d.text && e.email == row.email && e.proof == row.challenge
    && e.at + HANDOFF_TTL == row.expires
  }

  predicate SessionRow(e: Event, d: Digest, row: Session) {
    e.SessionBy? && e.token == d.text && e.email == row.email && e.client == row.mcpClient
  }

  predicate TokenRow(e: Event, d: Digest, row: ApiToken) {
    e.TokenBy? && e.secret == d.text && e.email == row.email
  }

  ghost predicate StatesVouched(w: World) {
    forall s | s in w.db.states ::
      s in w.known && exists k | 0 <= k < |w.log| :: BeganRow(w.log[k], s, w.db.states[s])
  }

  ghost predicate HandoffsVouched(w: World) {
    forall d | d in w.db.handoffs ::
      d.text in w.known && exists k | 0 <= k < |w.log| :: HandedRow(w.log[k], d, w.db.handoffs[d])
  }

  ghost predicate SessionsVouched(w: World) {
    forall d | d in w.db.sessions ::
      d.text in w.known && exists k | 0 <= k < |w.log| :: SessionRow(w.log[k], d, w.db.sessions[d])
  }

  ghost predicate TokensVouched(w: World) {
    forall d | d in w.db.tokens ::
      && d.text in w.known && d.text !in w.jobTokens && d !in w.db.sessions
      && exists k | 0 <= k < |w.log| :: TokenRow(w.log[k], d, w.db.tokens[d])
  }

  // ---- What every step keeps: the log itself ----

  function StateSpent(e: Event): Option<string> {
    if e.HandedTo? then Some(e.state)
    else if e.SessionBy? && e.origin.FromState? then Some(e.origin.state) else None
  }

  function CodeSpent(e: Event): Option<string> {
    if e.SessionBy? && e.origin.FromCode? then Some(e.origin.code) else None
  }

  /** What is spent is gone for good. */
  ghost predicate SpentGone(w: World) {
    forall k | 0 <= k < |w.log| ::
      && (StateSpent(w.log[k]).Some? ==> StateSpent(w.log[k]).value in w.known
                                         && StateSpent(w.log[k]).value !in w.db.states)
      && (CodeSpent(w.log[k]).Some? ==> CodeSpent(w.log[k]).value in w.known
                                        && Sha256(CodeSpent(w.log[k]).value) !in w.db.handoffs)
  }

  ghost predicate SpentOnce(log: seq<Event>) {
    forall i, j | 0 <= i < j < |log| ::
      && (StateSpent(log[i]).Some? ==> StateSpent(log[i]) != StateSpent(log[j]))
      && (CodeSpent(log[i]).Some? ==> CodeSpent(log[i]) != CodeSpent(log[j]))
  }

  predicate Starts(start: Event, handed: Event) {
    && start.Begun? && handed.HandedTo?
    && start.state == handed.state && start.challenge == Some(handed.proof)
    && handed.at < start.at + STATE_TTL
  }

  /** A browser's own start, in time. */
  predicate Completes(start: Event, signed: Event) {
    && start.Begun? && signed.SessionBy? && signed.origin.FromState?
    && start.state == signed.origin.state && start.challenge.None?
    && signed.at < start.at + STATE_TTL
  }

  predicate Hands(handed: Event, redeemed: Event) {
    && handed.HandedTo? && redeemed.SessionBy? && redeemed.origin.FromCode?
    && handed.code == redeemed.origin.code && handed.email == redeemed.email
    && handed.proof == S256(redeemed.origin.verifier)
    && redeemed.at < handed.at + HANDOFF_TTL
  }

  predicate Opens(sign: Event, minted: Event) {
    && sign.SessionBy? && sign.client.None? && minted.TokenBy?
    && sign.token == minted.bearer && sign.email == minted.email
  }

  /** Every committed grant rests on an earlier event that entitles it, and on the list of its moment. */
  ghost predicate Entitled(log: seq<Event>, k: nat)
    requires k < |log|
  {
    match log[k]
    case Begun(_, _, _) => true
    case HandedTo(_, _, email, _, _, allowed) =>
      IsAllowed(email, allowed) && exists j | 0 <= j < k :: Starts(log[j], log[k])
    case SessionBy(origin, _, email, _, _, allowed) =>
      && IsAllowed(email, allowed)
      && (origin.FromState? ==> exists j | 0 <= j < k :: Completes(log[j], log[k]))
      && (origin.FromCode? ==> exists j | 0 <= j < k :: Hands(log[j], log[k]))
    case TokenBy(_, _, email, _, allowed) =>
      IsAllowed(email, allowed) && exists j | 0 <= j < k :: Opens(log[j], log[k])
  }

  ghost predicate AllEntitled(log: seq<Event>) { forall k | 0 <= k < |log| :: Entitled(log, k) }

  ghost predicate Inv(w: World) {
    && w.jobTokens <= w.known
    && StatesVouched(w) && HandoffsVouched(w) && SessionsVouched(w) && TokensVouched(w)
    && SpentGone(w) && SpentOnce(w.log) && AllEntitled(w.log)
  }
}
