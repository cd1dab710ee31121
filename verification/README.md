# Motet: what its protocols and transformations guarantee

This project models the parts of Motet where a mistake would be silent, and proves what each of them
keeps. Motet turns newsletters into podcast episodes: it has a web API, workers, a web app and an iOS
app. Thirteen parts are modelled, each in its own modules.

- **The Swift client compiler** (`SwiftTypes`, `SwiftEmit`, `SwiftSoundness`). Schemas and Swift types
  both get a meaning: the JSON values a schema admits, and those a type decodes. Over environments with
  cyclic references, exactly when no null is dropped on the way, a type decodes just those admitted
  values whose integers fit in 64 bits; and what a type decodes besides is said exactly too.
- **The credential protocol** (`AuthModel`, `AuthRuns`, `AuthInvariant`, `AuthTheorems`, `AuthSessions`,
  `AuthTokens`, `AuthService`). Sign-in, the iOS handoff, browser sessions and personal access tokens are atomic
  request transactions over four tables. `AuthService` has the routes statement by statement, with
  commit, rollback and commit-before-raise, proved equal to `AuthModel.Handle`. The theorems are over
  every run, with a clock that never goes back and a configuration that may change between requests:
  what is refused stays refused, and what was granted works until it expires or somebody ends it.
- **Captions** (`CaptionWrap`, `CaptionTiming`, `CaptionVtt`, `CaptionReader`, `CaptionLines`,
  `CaptionRoundTrip`). Greedy wrapping is optimal, the rounding of times is bounded, and reading the
  printed file returns the captions, exactly when no rendered claim spells the cue arrow and no title
  spells a timing on a line of its own.
- **The feed's placeholders** (`Feed`). What substituting one token after another does, for any number
  of episodes: the first ten carry their own show notes, and no other does.
- **The `.env` file** (`DotEnv`, `DotEnvRoundTrip`). Printer and reader undo each other, exactly when
  no value holds a line separator that the printer does not escape.
- **The failure throttle** (`Throttle`), **the sync progress flags** (`SyncProgress`), **the episode
  list merge** (`EpisodeMerge`), **the keyset page walk** (`KeysetWalk`) and **the locked settings
  save** (`SettingsLock`): timed or concurrent machines, over every run or interleaving.
- **Bytes** (`JwsSignature`, `ByteRange`): DER signatures to JWS form, and HTTP byte ranges with a
  client that reassembles a file from them.
- **Domains** (`Domains`): which names are their own one spelling, and what belongs to one.

`Prelude` has the two result types and how a list is read in order, and `Text` the Python string operations. `dafny verify
dfyconfig.toml` checks everything.

## Where the code does not do what it says

Each of these is kept as the code has it, with a lemma that shows the input and one that says exactly
when the code is right.

- `swift_type` discards the inner nullability of a union's one variant that is not null
  (`SwiftSoundness.NestedNullIsLost`); right exactly under `SwiftSoundness.FaithfulEnv`, which can be
  checked over a contract before generating.
- The feed's eleventh episode carries the second's show notes and a stray `0`
  (`Feed.EleventhEpisode`); right exactly for the first ten (`Feed.OwnNotesIffFirstTen`).
- A raw `\r` breaks the `.env` round trip (`DotEnvRoundTrip.CarriageReturnIsLost`), as does any other
  separator `str.splitlines` knows besides `\n`, and nothing else (`DotEnvRoundTrip.RoundTripIffSoft`).
- A claim that spells `-->` loses its captions (`CaptionRoundTrip.SpokenArrowIsLost`), and a title with
  a timing on a line past its first forges one (`CaptionRoundTrip.BrokenTitleForgesACue`). Right exactly otherwise, whatever other line
  breaks and arrows titles hold (`CaptionRoundTrip.RoundTripIff`).
- Five equal lines over three milliseconds end a millisecond after their claim
  (`CaptionTiming.FiveLinesOverrun`); the end is exact if and only if the earlier lines leave room
  (`CaptionTiming.EndsExactlyIffRoom`).
- A refused bearer is refused for good, but for one case the docstrings do not name: the
  session-minting job, retried with the token it was given, mints the same bearer again
  (`AuthTheorems.RetriedMintRevives`).
- `normalize_domain` is not idempotent: `www.www.a.com` is stored as `www.a.com`, which then takes in
  every host of `a.com`; and a newline that a path follows is stored (`Domains.StoredWww`,
  `Domains.StoredNewline`). Right exactly when neither was left in (`Domains.FixpointIff`).
- A link typed without its scheme is stored under the site that its path or query links to
  (`Domains.LinkedSiteWins`); right exactly when nothing looks like a scheme, or the link is to the same
  site (`Domains.SchemelessIff`), and always when a scheme comes first (`Domains.SpellingsAgree`).
- An integer past 64 bits is admitted by its schema and refused by its type
  (`SwiftSoundness.WideIntegerIsRefused`); right exactly when each number at an integer place is in
  range (`SwiftSoundness.Soundness`).
- A struct two of whose properties share a Swift name is emitted, though Swift does not compile it
  (`SwiftEmit.UnderscoreAndHyphenCollide`), and so is an endpoint with two such arguments; right exactly
  when no two wire names collide (`SwiftEmit.DistinctIffNoneCollide`,
  `SwiftEmit.ArgsDistinctIffNoneCollide`).
- So is a struct that stores itself (`SwiftSoundness.SelfReferenceIsStored`); right exactly when no chain
  of references outside arrays is a cycle (`SwiftSoundness.FiniteIffNoReferenceCycle`).
- Opening as new an episode the list already shows further on takes its position back
  (`EpisodeMerge.ReopeningTakesBack`); positions never go back exactly when no step does that
  (`EpisodeMerge.ForwardIffOpensOnlyNew`). The page opens only episodes just made.

## Model

| member | source | states |
|---|---|---|
| `SwiftEmit.CamelCaseFixpoint` | ios/tools/generate_swift_client.py:118-126 | a generated name, taken as a name again, generates itself, so two summaries clash whenever one is the other's generated name |
| `SwiftEmit.CamelCaseOfOnePart` | ios/tools/generate_swift_client.py:118-126 | a name of one part keeps it, its first letter in lower case |
| `SwiftEmit.CamelCaseOfNextPart` | ios/tools/generate_swift_client.py:118-126 | whatever separator a further part follows, it is added whole, its first letter in upper case |
| `SwiftEmit.CamelCaseIgnoresSpareSeparators` | ios/tools/generate_swift_client.py:118-126 | separators before, behind or doubled change nothing, and a name of nothing else is refused |
| `SwiftEmit.QuotedIffReserved` | ios/tools/generate_swift_client.py:129-133 | a property goes by that name, in backquotes exactly when it is a keyword |
| `SwiftEmit.NamedBySummaryFirst` | ios/tools/generate_swift_client.py:245-261 | an endpoint is named by its summary, by its operation id only without one, and by its verb and path only without either |
| `SwiftEmit.OnlyAppend` | ios/tools/generate_swift_client.py:267-269 | the parameters of one place keep the order they are declared in |
| `SwiftEmit.ArgsByPlace` | ios/tools/generate_swift_client.py:272-285 | a path argument is text and must be given, and any query argument may be left out |
| `SwiftSoundness.RefNameResolves` | ios/tools/generate_swift_client.py:136-139 | a local reference resolves to the component it names |
| `SwiftSoundness.UnionTyping` | ios/tools/generate_swift_client.py:155-164 | a union is optional exactly when a variant is null, and typed by its one other variant or as any JSON |
| `SwiftEmit.FieldsOfPointwise` | ios/tools/generate_swift_client.py:189-197 | a struct that is emitted has one field a property, in order, each as its property and `required` make it |
| `SwiftEmit.BuildFields` | ios/tools/generate_swift_client.py:189-197 | the loop yields every field in order, or the first property's refusal |
| `SwiftEmit.CodingKeys` | ios/tools/generate_swift_client.py:226-235 | with or without the enum, every field is decoded from its own wire name |
| `SwiftEmit.RenderStruct` | ios/tools/generate_swift_client.py:189-238 | a struct is emitted exactly when no property is refused, and each field is decoded from its wire name |
| `SwiftEmit.CheckNames` | ios/tools/generate_swift_client.py:328-346 | the endpoint names are accepted if and only if every operation has one and no two are equal; otherwise the first clash is the one reported |
| `SwiftEmit.RenderEndpoint` | ios/tools/generate_swift_client.py:264-285 | an endpoint takes its path parameters and then its query parameters, or is refused exactly when one of them is |
| `SwiftEmit.Generate` | ios/tools/generate_swift_client.py:312-350 | the client is written if and only if no property, name or parameter is refused and no two endpoints share a name; then it has a struct a component, each field decoded from its wire name, and an endpoint an operation, in order |
| `SwiftEmit.DistinctIffNoneCollide` | ios/tools/generate_swift_client.py:129-133 | the property names of a struct are distinct if and only if no two wire names camel-case to one, or one to a reserved name and the other to its quoted form; nothing in the generator asks it |
| `SwiftEmit.ArgsDistinctIffNoneCollide` | ios/tools/generate_swift_client.py:264-285 | the same of an endpoint's arguments |
| `SwiftEmit.UnderscoreAndHyphenCollide` | ios/tools/generate_swift_client.py:118-133 | `a_b` and `a-b` collide |
| `SwiftSoundness.Soundness` | ios/tools/generate_swift_client.py:142-186 | for every environment, cyclic references included, and every value a faithful schema admits: its Swift type decodes it if and only if each number at an integer place is in range (and what else it decodes is `DecodesExactly`) |
| `SwiftSoundness.StructSoundness` | ios/tools/generate_swift_client.py:189-238 | an object a component admits decodes as its struct, required fields present and the rest optional, if and only if each number at an integer place is in range |
| `SwiftSoundness.DecodesExactly` | ios/tools/generate_swift_client.py:142-186 | for every schema that translates and every value, admitted or not: its type decodes exactly null where the node says null, and the values of the node's own shape, with integers in range; so `JSONValue` stands only where the node says no shape |
| `SwiftSoundness.StructShaped` | ios/tools/generate_swift_client.py:189-238 | and a component's struct exactly the objects with every member of its property's shape, missing only where the property is not required or says null |
| `SwiftSoundness.RefusesIffUnsupported` | ios/tools/generate_swift_client.py:152-186 | a schema is refused exactly when it has a reference that names nothing local, a union of several modelled variants or a type outside the list |
| `SwiftSoundness.ClientIsEmitted` | ios/tools/generate_swift_client.py:312-350 | the structs of a client that was written are the program the soundness theorems speak of |
| `SwiftSoundness.FiniteIffNoReferenceCycle` | ios/tools/generate_swift_client.py:189-205 | no emitted struct stores itself, through any chain, if and only if no chain of references outside arrays comes back to its component; nothing in the generator asks it |
| `SwiftSoundness.SelfReferenceIsStored` | ios/tools/generate_swift_client.py:152-153 | an optional reference to its own component is sound and is a struct that stores itself |
| `SwiftSoundness.SoundIffFaithful` | ios/tools/generate_swift_client.py:152-186 | a node decodes exactly the admitted values whose integers are in range if and only if it drops no null |
| `SwiftSoundness.ClientSoundIffFaithful` | ios/tools/generate_swift_client.py:142-238 | every struct of a client decodes exactly the admitted objects whose integers are in range if and only if no property of any component drops a null |
| `SwiftSoundness.NestedNullIsLost` | ios/tools/generate_swift_client.py:163 | a concrete union whose null is valid and whose type refuses it |
| `SwiftSoundness.WideIntegerIsRefused` | ios/tools/generate_swift_client.py:169-170 | an integer past 64 bits is valid and does not decode |
| `AuthService.Connection.RequireCaller` | api/src/motet_api/deps.py:282-435 | statement by statement the same caller or refusal as the model, with a de-listed row's deletion or stamp committed before the refusal |
| `AuthService.Connection.StartLogin` | api/src/motet_api/main.py:765-825 | the route's answer and writes are the model's |
| `AuthService.Connection.StartNativeLogin` | api/src/motet_api/main.py:885-960 | the route's answer and writes are the model's, the challenge stored with the state |
| `AuthService.Connection.CompleteLogin` | api/src/motet_api/main.py:963-1053 | the route's answer and writes are the model's: a handoff where a challenge is stored, a session otherwise |
| `AuthService.Connection.RedeemNativeLogin` | api/src/motet_api/main.py:1070-1121 | the route's answer and writes are the model's: verifier and list are checked after the code is taken, and the session it leaves is the one `AuthSessions.SignedInWorks` speaks of |
| `AuthService.Connection.ServeRoute` | api/src/motet_api/main.py:1144-1279 | the token and sign-out routes' answers and writes are the model's |
| `AuthService.Connection.TakeHandoff` | db/src/motet_db/auth.py:318-340 | an unexpired code is returned and deleted in one statement, any other leaves the table alone |
| `AuthService.Connection.SessionForToken` | db/src/motet_db/auth.py:194-234 | resolves exactly the unexpired session, and touches only its last-seen stamp, only when stale |
| `AuthService.Connection.TokenForSecret` | db/src/motet_db/api_tokens.py:193-240 | resolves exactly the token neither revoked nor expired, and touches only its last-used stamp |
| `AuthService.Connection.RevokeToken` | db/src/motet_db/api_tokens.py:268-288 | stamps the row once, keeping a stamp already there |
| `AuthService.Connection.Finish` | api/src/motet_api/deps.py:195-250 | a request that answers commits all it wrote, one that raises nothing more than it had committed |
| `AuthService.Connection.Request` | api/src/motet_api/deps.py:195-250 | one whole request answers and leaves committed exactly what `Handle` says |
| `AuthInvariant.StepKeeps` | api/src/motet_api/main.py:765-1279 | every request keeps it: each row is vouched for by the log, what was spent is gone, and every grant rests on an earlier event that entitles it |
| `AuthInvariant.RunKeeps` | api/src/motet_api/main.py:765-1279 | and so does every run |
| `AuthTheorems.SpentAtMostOnce` | api/src/motet_api/main.py:963-1121 | over every run, an OAuth state yields at most one session or handoff and a handoff code at most one session |
| `AuthTheorems.RedeemedByItsStarter` | api/src/motet_api/main.py:885-1121 | every redeemed session was presented the verifier whose S256 (RFC 7636 section 4.2) is the challenge of its own `native/start`, in time at each hop, listed at callback and at redeem |
| `AuthTheorems.SignedInByItsStart` | api/src/motet_api/main.py:765-1053 | every session a callback minted was begun by a browser's own start, in time, never by the app's |
| `AuthTheorems.CodeStaysRedeemable` | api/src/motet_api/main.py:1070-1121 | whatever requests come between, refused redeems included, an unredeemed code is redeemed by its verifier until it expires, for a session that then lasts (`AuthSessions.SignedInUntilEnded`) |
| `AuthTokens.StateStaysUsable` | api/src/motet_api/main.py:963-1053 | whatever requests come between, refused callbacks included, an unfinished sign-in is finished by its callback until it expires: with a handoff where the app began it, with a session otherwise |
| `AuthTokens.StartedRow` | api/src/motet_api/main.py:765-960 | a start stores its state for ten minutes with exactly the challenge and the app link it came with |
| `AuthTokens.HandedOffRow` | api/src/motet_api/main.py:963-1053 | a handoff stores, for two minutes, whose sign-in it was and the challenge it was started with, and its state is gone |
| `AuthTokens.StartSweeps` | api/src/motet_api/main.py:765-960 | a start sweeps away what has expired, and only that |
| `AuthTokens.RefusalsSayWhy` | api/src/motet_api/main.py:963-1121 | a refused callback or redeem writes nothing, and answers 403 exactly when all but the list is in order |
| `AuthSessions.SignedInWorks` | db/src/motet_db/auth.py:114-234 | the bearer of a callback, redeem, MCP grant or minting job authenticates, as the address answered, exactly until the time answered and while the address is listed; and how long each of the four is given |
| `AuthSessions.SessionStaysIff` | api/src/motet_api/main.py:765-1187 | one request, whatever it is, takes an unexpired session away if and only if it signs that session out or presents it and is refused |
| `AuthSessions.SessionLastsIff` | api/src/motet_api/main.py:765-1187 | over any run that does not mint it anew, an unexpired session of a listed address authenticates at the end if and only if no request of the run ended it |
| `AuthSessions.SignedInUntilEnded` | api/src/motet_api/main.py:765-1187 | from empty tables: so does the bearer of any sign-in, until the time it was answered with |
| `AuthTokens.MintedWorks` | api/src/motet_api/main.py:1202-1243 | a token just minted authenticates as its minter for exactly the days asked for, or for ever when none were |
| `AuthTokens.TokenStaysIff` | db/src/motet_db/api_tokens.py:193-288 | one request takes a live token away if and only if it revokes that token or presents it and is refused |
| `AuthTokens.TokenLastsIff` | db/src/motet_db/api_tokens.py:193-288 | over any run, an unexpired token of a listed address authenticates at the end if and only if no request of the run ended it |
| `AuthTokens.RevokesItsOwn` | db/src/motet_db/api_tokens.py:268-288 | a revocation stamps its own row with the time, the first time, and leaves every other row |
| `AuthTokens.StampedWhenStale` | db/src/motet_db/auth.py:194-234 | authorizing leaves on the row it granted by a stamp at most five minutes old, and touches nothing else |
| `AuthTokens.SharedSecretIff` | api/src/motet_api/deps.py:282-332 | the shared secret authenticates as itself, and never a bearer that is not ASCII |
| `AuthTokens.StartsIff` | api/src/motet_api/main.py:765-960 | a sign-in starts exactly on a deployment with a list, a redirect or origin it accepts and an identity provider that answers |
| `AuthTokens.MintsIff` | db/src/motet_db/mint_session.py:94-204 | the minting job and an MCP grant need a listed address, and the job a token no session has and at most a day |
| `AuthTokens.ServedIff` | api/src/motet_api/main.py:1144-1279 | what each `/v1` route asks of whoever it lets in, and its answer when it is not that |
| `AuthTheorems.TokensComeFromBrowsers` | api/src/motet_api/deps.py:482-547 | every token row was minted by a browser session of an address listed at that moment, never by a token, the shared secret, an open deployment or an MCP grant |
| `AuthTheorems.RefusedOnceRefusedForever` | api/src/motet_api/deps.py:334-370 | on a locked deployment a bearer refused once is refused ever after, listed again or not, until the minting job is run on it and answered with a session |
| `AuthTheorems.DeadStaysIff` | api/src/motet_api/deps.py:282-435 | which is the only request that brings a dead bearer back, and always does |
| `AuthTheorems.RevokedForever` | api/src/motet_api/main.py:1262-1279 | a personal access token once revoked never authenticates again |
| `AuthTheorems.SignedOutForever` | api/src/motet_api/main.py:1144-1187 | a session signed out, by itself or by anybody's sign-out everywhere, never authenticates again, until the minting job is run on it and answered with a session |
| `AuthTheorems.StampStands` | db/src/motet_db/api_tokens.py:268-288 | no request moves a revocation's first stamp |
| `AuthTheorems.CommitBeforeRaise` | api/src/motet_api/deps.py:334-358 | without the commit before the refusal, a de-listed session would authenticate again once its address is listed again; with it, not |
| `AuthTheorems.RetriedMintRevives` | db/src/motet_db/auth.py:114-154 | the exception: the minting job, rerun on a signed-out token, brings the same bearer back |
| `AuthTheorems.CallersAreListed` | api/src/motet_api/deps.py:282-435 | whoever a row authenticates is on the list now and unexpired; the deployment is open exactly when no secret is set |
| `AuthTheorems.TokenIsALeaf` | api/src/motet_api/main.py:1157-1279 | a request with a personal access token mints, revokes and signs out nothing |
| `CaptionWrap.Chunks` | api/src/motet_api/shownotes.py:136-146 | the loop that strips and measures candidates is greedy filling of word runs |
| `CaptionWrap.WordsAreTheLetters` | api/src/motet_api/shownotes.py:123 | splitting loses nothing but whitespace and moves nothing: the words concatenated are the text without it |
| `CaptionWrap.WordsSplit` | api/src/motet_api/shownotes.py:123 | any whitespace parts a text in two: the words before it, then those after it |
| `CaptionWrap.WordsOfOne` | api/src/motet_api/shownotes.py:123 | a text that is one word is that word |
| `CaptionWrap.WordsOfLine` | api/src/motet_api/shownotes.py:123 | words joined by single spaces are split back into themselves |
| `CaptionWrap.WrapIsGreedy` | api/src/motet_api/shownotes.py:136-146 | each line is as full as it can be: the next one's first word would overflow it |
| `CaptionWrap.WrapIsASplit` | api/src/motet_api/shownotes.py:136-146 | the lines are the words in order, each within 160 characters or a single word |
| `CaptionWrap.ChunksJoinToText` | api/src/motet_api/shownotes.py:115-146 | the lines joined by single spaces are the text itself where it is words and single spaces, and otherwise have its letters and its words, in order |
| `CaptionWrap.StaysAhead` | api/src/motet_api/shownotes.py:136-146 | from any word on, greedy needs no more lines than any readable split needs |
| `CaptionWrap.WrapIsOptimal` | api/src/motet_api/shownotes.py:136-146 | no other readable split of the words uses fewer lines |
| `CaptionTiming.Apportion` | api/src/motet_api/shownotes.py:148-160 | the running offset gives each line its rounded share, and the last line what is left |
| `CaptionTiming.ShareIsNearest` | api/src/motet_api/shownotes.py:148-160 | every line but the last is shown for the whole millisecond nearest its share of the claim's time, by length |
| `CaptionTiming.TiesGoToEven` | api/src/motet_api/shownotes.py:157 | and halfway between two, for the even one |
| `CaptionTiming.SplitCue` | api/src/motet_api/shownotes.py:131-160 | the captions of a claim, with the early return no exception to the rule |
| `CaptionTiming.ShortTextIsOneCue` | api/src/motet_api/shownotes.py:133-134 | the early return is the general case: one line with the claim's whole time |
| `CaptionTiming.CuesAreContiguous` | api/src/motet_api/shownotes.py:148-160 | captions start with their claim, follow one another without gap, and none ends before it begins |
| `CaptionTiming.BoundaryIsClose` | api/src/motet_api/shownotes.py:148-160 | the k-th boundary is within k/2 ms of its exact proportional place, with halves rounded to even |
| `CaptionTiming.EndsExactlyIffRoom` | api/src/motet_api/shownotes.py:148-160 | captions end exactly with their claim if and only if the earlier rounded shares leave room |
| `CaptionTiming.OverrunIsBounded` | api/src/motet_api/shownotes.py:148-160 | they run over by at most (n-1)/2 ms, and not at all once the last line's share is that large |
| `CaptionTiming.FiveLinesOverrun` | api/src/motet_api/shownotes.py:148-160 | five equal lines over three milliseconds run over by one |
| `CaptionVtt.Cues` | api/src/motet_api/shownotes.py:115-128 | the captions of a segment are those of its claims in order, skipping the unrendered and the empty (what each says is `CaptionsSayTheText`) |
| `CaptionVtt.CaptionsSayTheText` | api/src/motet_api/shownotes.py:115-128 | a claim's captions one after the other say its text, letter for letter and word for word, and it has none only when it has no time or nothing to say |
| `CaptionVtt.CaptionsCoverTheClaim` | api/src/motet_api/shownotes.py:115-160 | and they are shown from the claim's start, without gap, until its end or at most (n-1)/2 ms later |
| `CaptionVtt.CuesInOrder` | api/src/motet_api/shownotes.py:115-128 | the captions of claims come in the order of the claims |
| `CaptionVtt.EpisodeInOrder` | api/src/motet_api/shownotes.py:98-112 | and those of an episode, and the lines of its file, in the order of its segments |
| `CaptionVtt.TitleBeforeItsCaptions` | api/src/motet_api/shownotes.py:98-111 | a title is a note just before its segment's captions, and each caption is three lines |
| `CaptionVtt.HoursAlwaysPresent` | api/src/motet_api/shownotes.py:163-174 | hours are always printed, in two digits or more |
| `CaptionVtt.TranscriptVtt` | api/src/motet_api/shownotes.py:86-112 | the loop prints exactly the file the round trip is about |
| `CaptionReader.ReadPrintedStamp` | api/src/motet_api/shownotes.py:163-174 | every timestamp, for any number of hours, is read back as the time printed |
| `CaptionRoundTrip.ClaimArrow` | api/src/motet_api/shownotes.py:115-160 | wrapping neither makes nor breaks an arrow: a claim spells one exactly when one of its captions does |
| `CaptionRoundTrip.ReadIsPlain` | api/src/motet_api/shownotes.py:86-112 | a reader of WebVTT never returns a caption that spells an arrow, whatever file it is given |
| `CaptionLines.ReadBodyCounts` | api/src/motet_api/shownotes.py:86-112 | a reader makes one caption of each line that reads as a timing, wherever it stands in whatever file |
| `CaptionLines.LinesComeBack` | api/src/motet_api/shownotes.py:112 | the lines a reader sees are those printed, each one cut where it holds a line break |
| `CaptionRoundTrip.CaptionsRead` | api/src/motet_api/shownotes.py:86-128 | where no rendered claim spells `-->`, the captions read are the episode's and one more for each line of a printed title, past the first, that reads as a timing |
| `CaptionRoundTrip.RoundTripIff` | api/src/motet_api/shownotes.py:86-128 | for every episode, the printed file reads back as exactly its captions if and only if no rendered claim spells `-->` and no printed title has such a line |
| `CaptionRoundTrip.BrokenTitleForgesACue` | api/src/motet_api/shownotes.py:86-112 | a title that has one reads back as a caption nobody speaks |
| `CaptionRoundTrip.SpokenArrowIsLost` | api/src/motet_api/shownotes.py:108-111 | an episode of one claim that says `-->` does not read back as its one caption |
| `Feed.AddCdata` | api/src/motet_api/feed.py:384-398 | the element gets a token no entry has yet, so the dict gains that entry and loses none |
| `Feed.Placeholders` | api/src/motet_api/feed.py:240-241 | the loop over episodes leaves every episode's notes pending, in order, each under the token of its place |
| `Feed.RenderFeed` | api/src/motet_api/feed.py:240-249 | from the notes to the finished document: every item of a feed of any length as stated below, and up to ten episodes each with its own notes |
| `Feed.Substitute` | api/src/motet_api/feed.py:243-249 | the loop replaces every entry's token in order of insertion |
| `Feed.InOrderIsSimultaneous` | api/src/motet_api/feed.py:243-249 | in-order replacement is simultaneous substitution whenever no earlier token is a prefix of a later one |
| `Feed.SequentialSubstitution` | api/src/motet_api/feed.py:243-249 | for any number of episodes: item k gets the notes of its number's leading digit and then the number's other digits |
| `Feed.OwnNotesIffFirstTen` | api/src/motet_api/feed.py:243-249 | an item carries its own notes if and only if it is one of the first ten |
| `Feed.TenEpisodesAreSubstitutedTogether` | api/src/motet_api/feed.py:243-249 | up to ten episodes, in-order replacement is simultaneous substitution |
| `Feed.EleventhEpisode` | api/src/motet_api/feed.py:394-397 | the eleventh item carries the second's notes and a `0` |
| `Feed.TokenPrefix` | api/src/motet_api/feed.py:394-397 | one token is a prefix of another exactly when its number's digits are |
| `Feed.EscapeIsPerCharacter` | api/src/motet_api/shownotes.py:315-324 | the four ordered replacements are one escape a character, and no escaped text can close a CDATA section |
| `Feed.EscapedReadsBack` | api/src/motet_api/shownotes.py:315-324 | a reader of XML makes the text of an escaped text again |
| `Feed.XmlSafeSection` | api/src/motet_api/feed.py:253-269 | dropping what XML forbids from the finished document drops it from each section and leaves the brackets |
| `Feed.XmlSafeIsSafe` | api/src/motet_api/feed.py:253-269 | the finished document has every character XML allows and none it forbids |
| `DotEnv.Render` | tools/local_env.py:369-374 | the file is the header, a line a secret, then the override block |
| `DotEnv.Collect` | tools/local_env.py:313-342 | succeeds if and only if every name is usable and one is kept; keeps a secret of exactly the names not reserved, each value as it was but for one newline at its end, and reports the reserved |
| `DotEnv.TrimTakesOneNewline` | tools/local_env.py:345-352 | a newline at the end of a value is taken off, one only, and a value without one is left as it is |
| `DotEnv.KeptKeepsAll` | tools/local_env.py:313-342 | every name that is not reserved is kept, with its value as pasted, and no other is |
| `DotEnv.KeptInOrder` | tools/local_env.py:323-337 | secrets are kept, and names reported, in the order they are listed |
| `DotEnv.Unescape` | tools/dev.py:327-340 | the index loop is left-to-right unescaping of the four escapes, any other backslash kept |
| `DotEnv.ReadEnvFile` | tools/dev.py:296-322 | the file's last setting of each name |
| `DotEnvRoundTrip.EscapedIsPerCharacter` | tools/local_env.py:355-366 | the four ordered replaces are one escape a character |
| `DotEnvRoundTrip.UnescapeInvertsEscape` | tools/dev.py:327-340 | which the reader undoes, for every value |
| `DotEnvRoundTrip.EscapedIsLiteral` | tools/local_env.py:355-366 | in its quotes nothing ends them, expands or breaks the line but behind a backslash |
| `DotEnvRoundTrip.BareIffUnquoted` | tools/local_env.py:355-366 | a value is written as it is exactly when it needs no quotes |
| `DotEnvRoundTrip.SpacedAssignment` | tools/dev.py:310-321 | however an assignment is spaced, exported or not, it sets its name to its value |
| `DotEnvRoundTrip.QuotesTakenOff` | tools/dev.py:317-320 | single quotes hold characters as they are, double quotes with their escapes undone |
| `DotEnvRoundTrip.NothingSet` | tools/dev.py:311-313 | a comment, however indented, or a line without an equals sign sets nothing |
| `DotEnvRoundTrip.LineEndsAtSeparator` | tools/dev.py:307 | any one separator ends a line |
| `DotEnvRoundTrip.LineEndsAtPair` | tools/dev.py:307 | and a carriage return and newline end it together |
| `DotEnvRoundTrip.SecretReadBack` | tools/local_env.py:355-374 | a printed assignment is read as the same name and value, bare or quoted |
| `DotEnvRoundTrip.RoundTripIffSoft` | tools/local_env.py:313-374 | the file reads back as the kept secrets and the overrides if and only if no value holds a separator other than `\n` |
| `DotEnvRoundTrip.CarriageReturnIsLost` | tools/local_env.py:355-366 | a secret that is a lone `\r` is not read back |
| `DotEnvRoundTrip.ExpectedIs` | tools/local_env.py:85-111 | what that is: each secret's value, each override's, no other name, and none of the names to leave unset |
| `DotEnvRoundTrip.OverrideNamesAgree` | tools/local_env.py:85-159 | the names listed as overrides are the ones the block sets |
| `DotEnvRoundTrip.KeptIsCollected` | tools/local_env.py:313-342 | what collecting keeps is usable, unreserved, of the names listed and once each, as the round trip asks |
| `Throttle.FailureThrottle.RecordFailure` | api/src/motet_api/throttle.py:99-112 | one failure's new window, and over budget exactly past the maximum |
| `Throttle.FailureThrottle.Reset` | api/src/motet_api/throttle.py:118-122 | an empty window from now |
| `Throttle.CountedUntilOver` | api/src/motet_api/throttle.py:99-112 | a window counts every failure until it is over, so the first of the budget are answered and none after them; the next failure begins one of its own |
| `Throttle.Ceiling` | api/src/motet_api/throttle.py:99-112 | for clock readings that never go back, at most twice the budget is answered un-throttled in any half-open interval of one window |
| `Throttle.CeilingIsAttained` | api/src/motet_api/throttle.py:99-112 | the factor two is attained |
| `Throttle.SpacedNeverThrottled` | api/src/motet_api/throttle.py:99-112 | failures a window or more apart never accumulate |
| `SyncProgress.BeatingIsAlive` | api/src/motet_api/sync_progress.py:177-178 | a heart that beats at most five minutes apart reads as alive at every moment |
| `SyncProgress.ComingThenThere` | api/src/motet_api/sync_progress.py:177-201 | a worker is coming for four minutes from the moment the poll was written, where one is asked for, and there for five from its last heartbeat |
| `SyncProgress.NewSyncForgetsTheOldRun` | api/src/motet_api/sync_progress.py:98-142 | a new sync reads the same whatever was recorded of the old run, every count zero; and which of its three stages it is in |
| `SyncProgress.RunIsReported` | api/src/motet_api/sync_progress.py:143-174 | any other reading says of what is open and what failed the queue's counts, each its own, and of the rest the record's; its stage, its error, and when its worker is waited for |
| `SyncProgress.SilentIff` | api/src/motet_api/sync_progress.py:98-160 | nothing is reported exactly when there is no run to report or it settled more than an hour ago |
| `SyncProgress.ReadingIsHonest` | api/src/motet_api/sync_progress.py:1-8 | done only when both records agree; a failure with a reason; the two flags never together nor over a live worker; and what was found pulled in, open or failed |
| `SyncProgress.WorkerWrittenNeverStarting` | api/src/motet_api/sync_progress.py:181-201 | a poll a worker wrote within a minute of its heartbeat is never reported as a worker starting, whenever read |
| `SyncProgress.TheMinuteIsTight` | api/src/motet_api/sync_progress.py:31-52 | any slower handler leaves a moment at which it is |
| `SyncProgress.NeverWaitingWhileWorked` | api/src/motet_api/sync_progress.py:98-174 | the flag of a poll the API wrote: never raised, given a heartbeat within four minutes and then at most five apart |
| `SyncProgress.WaitingWhenNobodyCame` | api/src/motet_api/sync_progress.py:98-174 | the flag is raised on every read past four minutes if none came and the last is stale |
| `EpisodeMerge.MergeIds` | web/src/App.tsx:232-244 | a merge keeps ids unique and shows exactly the ids of either list |
| `EpisodeMerge.MergePositions` | web/src/App.tsx:232-244 | each merged position is the larger of the two copies' |
| `EpisodeMerge.MergeEntries` | web/src/App.tsx:232-244 | in front what only the page knew, then the server's list in its order, each entry the server's but for a further position |
| `EpisodeMerge.UnknownInOrder` | web/src/App.tsx:232-244 | what only the page knew stays in the order it was shown in |
| `EpisodeMerge.OpenedIs` | web/src/App.tsx:435-438 | a new episode is shown once, and no other entry's position moves |
| `EpisodeMerge.OpenedInFront` | web/src/App.tsx:435-438 | it is shown in front, and the others behind it in the order they were shown in |
| `EpisodeMerge.ReportedIs` | web/src/App.tsx:445-453 | a report moves its own episode up, never down, and leaves every other entry, and the rest of its own, as it was |
| `EpisodeMerge.StepIsMonotone` | web/src/App.tsx:224-453 | no step loses an id, and one takes a position back exactly when it opens as new an episode shown further on |
| `EpisodeMerge.RunKeeps` | web/src/App.tsx:224-453 | over every interleaving with answers in any order: unique ids, none lost, nothing ahead of the server |
| `EpisodeMerge.ForwardIffOpensOnlyNew` | web/src/App.tsx:224-453 | no position goes back anywhere in a run if and only if no step of it opens as new an episode already shown further on |
| `EpisodeMerge.ForwardOverall` | web/src/App.tsx:224-453 | and then none is lower at the end than at the start |
| `EpisodeMerge.ReopeningTakesBack` | web/src/App.tsx:435-438 | a legal run in which opening an episode anew takes its position back |
| `EpisodeMerge.ShownIsNeverAhead` | web/src/App.tsx:224-453 | no shown position is ever ahead of the server's |
| `KeysetWalk.QueryMisses` | db/src/motet_db/repo.py:1431-1458 | a matching row a query leaves out is older than all of a full page |
| `KeysetWalk.PageCovers` | api/src/motet_api/main.py:1720-1765 | a page leaves out only what its own cursor asks for next, and the last page nothing |
| `KeysetWalk.CursorMoves` | api/src/motet_api/main.py:1691-1765 | the cursor falls by at least the page size and is always one the route accepts |
| `KeysetWalk.WalkDescends` | api/src/motet_api/main.py:1713-1765 | whatever happens between reads, the ids emitted strictly decrease, so none comes twice |
| `KeysetWalk.WalkIsHonest` | api/src/motet_api/main.py:1713-1765 | every job emitted was there, for the user asked about, when its page was read |
| `KeysetWalk.WalkMissesNothing` | api/src/motet_api/main.py:1713-1765 | every job there at every read is emitted |
| `KeysetWalk.WalkEnds` | api/src/motet_api/main.py:1713-1765 | from a cursor the walk ends, after as many pages as the ids below it can fill |
| `KeysetWalk.WalkFromTheTopEnds` | api/src/motet_api/main.py:1713-1765 | from the top it ends too, bounded by the table its first read found |
| `SettingsLock.AppliedAt` | db/src/motet_db/settings.py:74-86 | a save leaves each changed row as the change says and every other row as it was |
| `SettingsLock.SavesWhatItSays` | api/src/motet_api/admin_llm.py:190-203 | a field given sets its row, a blank one deletes it, an absent one leaves it, and no other row is touched |
| `SettingsLock.LoadIs` | db/src/motet_db/settings.py:66-71 | the rows read are those under the prefix, and all of them |
| `SettingsLock.Connection.ApplyUpdate` | api/src/motet_api/admin_llm.py:166-204 | refused read-only or invalid with no row changed, or every change stored and the stored rows the ones validated |
| `SettingsLock.CommitsWhatItValidated` | api/src/motet_api/admin_llm.py:182-204 | a commit stores exactly the candidate its save validated, valid whatever the table was before |
| `SettingsLock.StepKeeps` | api/src/motet_api/admin_llm.py:182-204 | every step of every save keeps it: who is active holds the lock and what it read still stands; and it leaves the committed rows alone or valid |
| `SettingsLock.ChangedIsValid` | api/src/motet_api/admin_llm.py:176-204 | for any validity, any interleaving of saves and any table, valid or not: the committed rows are untouched or valid |
| `SettingsLock.ValidForever` | api/src/motet_api/admin_llm.py:176-204 | from whatever was stored, once a run has valid rows it keeps them valid |
| `SettingsLock.ReadOnlyStands` | api/src/motet_api/admin_llm.py:182-187 | where settings are not writable no run changes a row |
| `SettingsLock.WithoutTheLock` | api/src/motet_api/admin_llm.py:176-181 | without the lock two saves, each valid alone, together store a pairing that is not |
| `JwsSignature.DerToRawSignature` | ios/tools/app_store_connect.py:53-68 | the loop converts as specified, with the same error on the same bytes |
| `JwsSignature.AcceptedIsPreserved` | ios/tools/app_store_connect.py:53-68 | of any bytes accepted, the result is 64 bytes whose halves are worth the two integers' contents |
| `JwsSignature.DerToJws` | ios/tools/app_store_connect.py:53-68 | for all r, s that DER can encode: r and s in 32 bytes each when both fit, refused exactly when one does not |
| `JwsSignature.SignatureReadBack` | ios/tools/app_store_connect.py:53-68 | every pair below 2^256 is encodable, and the two halves of its JWS form spell it back |
| `ByteRange.MatchIff` | api/src/motet_api/main.py:2377-2379 | the matcher accepts exactly the pattern's language and reads exactly its two groups |
| `ByteRange.RequestedIff` | api/src/motet_api/main.py:2398-2405 | a header asks for a range exactly when it spells one that does not end before it starts |
| `ByteRange.Serve` | api/src/motet_api/main.py:2382-2424 | no range, everything; a range, exactly the bytes it selects under the `Content-Range` that names them, or a 416 exactly when it selects none |
| `ByteRange.FetchIsTheData` | api/src/motet_api/main.py:2382-2424 | a client that walks consecutive ranges of any size ends with exactly the data, from any place it resumes |
| `Domains.NormalizeDomain` | db/src/motet_db/connectors.py:93-110 | the reassignments leave a site's name without its `www.`, whatever is typed around it |
| `Domains.SpellingsAgree` | db/src/motet_db/connectors.py:93-110 | whatever scheme, user, port, path, query or fragment is typed around a name, it is normalised to that name without its `www.` |
| `Domains.CaseAndSpacingIgnored` | db/src/motet_db/connectors.py:93-102 | the case a site is typed in and the spaces around it make no difference |
| `Domains.StrayDotsIgnored` | db/src/motet_db/connectors.py:93-110 | nor do stray dots on either side of its name |
| `Domains.SchemelessIff` | db/src/motet_db/connectors.py:102-110 | a link typed without a scheme is normalised to its own site if and only if no `://` follows, or what follows the first one is a host of that site with anything around it |
| `Domains.LinkedSiteWins` | db/src/motet_db/connectors.py:103-104 | where a name follows, with anything around it, that name is the site |
| `Domains.QueryLinkWins` | db/src/motet_db/connectors.py:103-104 | such as a path or query that links anywhere |
| `Domains.FixpointIff` | db/src/motet_db/connectors.py:93-115 | a valid domain is its own spelling if and only if it starts with no `www.` and holds no newline |
| `Domains.NormalizeTwiceIff` | db/src/motet_db/connectors.py:93-115 | normalising a stored domain again changes it exactly when one of the two was left in |
| `Domains.TypedTwiceIff` | db/src/motet_db/connectors.py:93-110 | over what was typed: a second normalising changes the result exactly when the name starts with `www.` twice |
| `Domains.MatchesIffLabels` | db/src/motet_db/connectors.py:118-127 | on any text, a host matches exactly when its labels end with the domain's, both normalised |
| `Domains.SettledMatches` | db/src/motet_db/connectors.py:118-127 | on names that are their own spelling, exactly the labels as they stand |
| `Domains.MatchingIsAnOrder` | db/src/motet_db/connectors.py:118-127 | and on them matching is a partial order |
| `Domains.StoredWww` | db/src/motet_db/connectors.py:93-127 | a second `www.` is left in, and the stored row matches exactly the parent's hosts |
| `Domains.StoredNewline` | db/src/motet_db/connectors.py:57-59 | a newline before a path is left in, and the pattern's `$` lets it through |
| `Domains.StoredOffSpelling` | db/src/motet_db/connectors.py:93-127 | `www.www.a.com`, as stored, takes in `b.a.com` |

## Left out

- Compiler: what a `date-time` is, which is one predicate for the schema and for Swift's decoder, so dates are sound by assumption; other JSON Schema keywords, which only narrow what a schema admits; the layout of the printed Swift; the URLs endpoints build; non-ASCII letters in names.
- SwiftSoundness.SoundIffFaithful: asked of nodes that use one group of keywords each, as the API framework emits them, because a node that contradicts itself may admit no null to drop; soundness itself is asked of every node.
- SwiftSoundness.ClientSoundIffFaithful: asked of such nodes too, and of components that admit some object.
- Credentials: SHA-256 is a constructor, so collision-free; PKCE is likewise. OAuth exchange, nonces and sealed refresh tokens are an outcome the request is given. A request is one atomic transaction.
- Credentials: one account, since every session and token is stored under the owner's id; a row's id is its digest; addresses and states arrive stripped and lowercased.
- Credentials: MCP's own code and refresh tables, admin routes, the feed token and the 429 a throttled refusal becomes are not in the tables.
- AuthService.Connection.RequireCaller: a refusal past the throttle's budget is answered 429 rather than 401; its rows are the same, and the budget is the throttle's own module.
- AuthTheorems.RefusedOnceRefusedForever: excepts the session-minting job once it has answered with a session on the same token, because that does bring the bearer back (`AuthTheorems.DeadStaysIff`); and a bearer that becomes the deployment's shared secret.
- Captions: exact rationals in place of floats, rounded half to even; chapters and show notes markup.
- CaptionReader: the settings after a timing, style and region blocks, which are no captions, and a caption's inner markup; text holds no NUL, which the database does not store.
- Feed: characters in place of UTF-8 bytes; the serialised tree around the placeholders is any text that spells no token and follows each with a tag; show notes spell no token, which the nonce is for.
- `.env`: reading Secret Manager and the file system; the text of the comment lines, which is any text on one line.
- Throttle: the lock, since the clock is read before it is taken; readings are taken in the order the lock admits them and not to go back.
- SyncProgress: parsing the stored record; a record or time that does not parse is an absent one.
- SyncProgress.NeverWaitingWhileWorked: until the first heartbeat the open poll is the one the API wrote, since only a worker writes another.
- EpisodeMerge: rendering, polling timers and failed requests, which change no list; a map keyed by id is a search by id, the same on unique ids.
- KeysetWalk: a job's subject and the aggregates beside the list; the client that follows the cursor is the one the cursor is documented for.
- SettingsLock: what makes rows valid, which is any predicate; the description returned; request values arrive stripped. Row locks between two unlocked saves to one row are not modelled, and the counterexample needs none.
- JwsSignature.DerToJws: asked of numbers DER can encode, that is with lengths of at most 126 octets; base64 and the JWT around it.
- ByteRange: header text other than `Range`; the `Content-Range` answer is its three numbers.
- Domains: ASCII case folding only; the connector rows and the fetches that use them.
- Elsewhere: Cloud Run, Slack, App Store polling, telemetry, the waitlist, enrichment, voice and the inference pipeline: I/O with no property of their own to state here.
