// OAuth2 provider grants: authorization codes and refresh tokens consumed by
// concurrent requests over a shared store (crates/coder-auth/src/lib.rs).
// Each store call is one atomic step; requests interleave freely between them.
module OAuth2Grants {
  import opened Common

  type Id = nat
  type Digest = string

  /** SHA-256 and the base64 encoding of a digest, about which nothing is assumed. */
  datatype Crypto = Crypto(sha256: string -> Digest, base64: Digest -> string)

  datatype Code = Code(
    app: Id, user: Id, prefix: string, hash: Digest, expires: int,
    resource: string, challenge: string, challengeMethod: string)

  datatype Secret = Secret(app: Id, hash: Digest)

  datatype Token = Token(secret: Id, user: Id, audience: string, refreshHash: Digest, expires: int)

  // ---------------------------------------------------------- the pure checks

  /** validate_pkce_method: only S256 may be bound to a code. */
  predicate PkceMethodAllowed(challenge: string, challengeMethod: string) {
    challenge == "" || challengeMethod == "S256"
  }

  function VerifyPkce(c: Crypto, verifier: string, challenge: string, challengeMethod: string): bool {
    if challengeMethod == "S256" then c.base64(c.sha256(verifier)) == challenge
    else if challengeMethod == "plain" || challengeMethod == "" then verifier == challenge
    else false
  }

  predicate CodeResourceAllowed(stored: string, requested: string) {
    match (stored == "", requested == "")
    case (true, true) => true
    case (true, false) => false
    case (false, true) => false
    case (false, false) => stored == requested
  }

  predicate RefreshResourceAllowed(audience: string, requested: string) {
    requested == "" || requested == audience
  }

  function Prefix(raw: string): string {
    if |raw| >= 8 then raw[..8] else raw
  }

  // ------------------------------------------------------------------- requests

  datatype ExchangeRequest = ExchangeRequest(
    rawCode: string, client: Id, clientSecret: string, verifier: string, resource: string)

  datatype RefreshRequest = RefreshRequest(refreshToken: string, client: Id, clientSecret: string, resource: string)

  /** A token pair that is owed: its grant has been consumed, its record not yet created. */
  datatype Grant = Grant(origin: Id, secret: Id, user: Id, audience: string)

  /** Where a request stands: named after the store call it makes next. */
  datatype Request =
    | FindCode(ex: ExchangeRequest)
    | ListSecrets(ex: ExchangeRequest, code: Id, row: Code, foundAt: int)
    | SpoilCode(code: Id)                                   // a failed check deletes the code
    | ConsumeCode(ex: ExchangeRequest, code: Id, row: Code, foundAt: int, secret: Id)
    | FindToken(rf: RefreshRequest)
    | SpoilToken(token: Id)                                 // an expired refresh token is deleted
    | FindSecret(rf: RefreshRequest, token: Id, record: Token)
    | ListOwnSecrets(rf: RefreshRequest, token: Id, record: Token, app: Id)
    | ConsumeToken(token: Id, record: Token)
    | DropOldKey(grant: Grant)
    | CreateKey(grant: Grant)
    | CreateRecord(grant: Grant)
    | ListTokens(app: Id, user: Id)
    | DeleteTokens(app: Id, user: Id)
    | Finished

  /** The exchange that consumed a code. */
  datatype Redemption = Redemption(ex: ExchangeRequest, secret: Id, foundAt: int)

  /** Everything that was ever stored, and how codes turned into tokens. */
  datatype History = History(
    minted: map<Id, Code>, issued: map<Id, Token>, registered: map<Id, Secret>,
    origin: map<Id, Id>,                                    // the code each issued token descends from
    redeemed: map<Id, Redemption>)

  /** The store and the requests under way. */
  datatype State = State(
    codes: map<Id, Code>, tokens: map<Id, Token>, secrets: map<Id, Secret>,
    requests: map<Id, Request>,
    past: History)

  const INITIAL := State(map[], map[], map[], map[], History(map[], map[], map[], map[], map[]))

  // ----------------------------------------------------------------------- steps

  /**
   * What the outside decides at one store call: the row a lookup returns, the
   * clock, whether the call reports success, and whether a write that reports
   * failure took effect all the same; for a new record, its id and digest.
   */
  datatype Choice = Choice(row: Option<Id>, now: int, ok: bool, applied: bool, id: Id, digest: Digest, expires: int)

  /** What a user consents to: create_authorization_code's arguments. */
  datatype Order = Order(app: Id, user: Id, resource: string, challenge: string, challengeMethod: string)

  /** Ten minutes, in seconds. */
  const CODE_LIFETIME := 600

  /** The row stored for the raw code `raw`. */
  function CodeFor(c: Crypto, raw: string, now: int, o: Order): Code {
    Code(o.app, o.user, Prefix(raw), c.sha256(raw), now + CODE_LIFETIME, o.resource, o.challenge, o.challengeMethod)
  }

  datatype Step =
    | MintCode(id: Id, raw: string, now: int, order: Order)
    | RegisterSecret(id: Id, secret: Secret)
    | DeleteSecret(id: Id)
    | DeleteApp(app: Id)
    | Begin(req: Id, first: Request)
    | Advance(req: Id, choice: Choice)

  function Goto(s: State, r: Id, next: Request): Option<State> {
    Some(s.(requests := s.requests[r := next]))
  }

  /** The checks exchange_code makes on the row before it lists the client's secrets. */
  predicate RowAccepted(c: Crypto, ex: ExchangeRequest, row: Code, now: int) {
    && now <= row.expires
    && c.sha256(ex.rawCode) == row.hash
    && row.app == ex.client
    && (row.challenge != "" ==> ex.verifier != "" && VerifyPkce(c, ex.verifier, row.challenge, row.challengeMethod))
  }

  predicate MatchesSecret(c: Crypto, s: State, id: Id, app: Id, clientSecret: string) {
    id in s.secrets && s.secrets[id] == Secret(app, c.sha256(clientSecret))
  }

  predicate HasPrefix(s: State, id: Id, prefix: string) {
    id in s.codes && s.codes[id].prefix == prefix
  }

  predicate HasRefreshHash(s: State, id: Id, hash: Digest) {
    id in s.tokens && s.tokens[id].refreshHash == hash
  }

  /** exchange_code, lines 2743-2832: look the code up by prefix, then check the row. */
  function FindCodeStep(c: Crypto, s: State, r: Id, ex: ExchangeRequest, ch: Choice): Option<State> {
    if ex.rawCode == "" || !ch.ok then Goto(s, r, Finished)
    else match ch.row
    case None =>
      if exists id :: id in s.codes && HasPrefix(s, id, Prefix(ex.rawCode)) then None else Goto(s, r, Finished)
    case Some(id) =>
      if !HasPrefix(s, id, Prefix(ex.rawCode)) then None
      else if RowAccepted(c, ex, s.codes[id], ch.now) then Goto(s, r, ListSecrets(ex, id, s.codes[id], ch.now))
      else Goto(s, r, SpoilCode(id))
  }

  function ListSecretsStep(c: Crypto, s: State, r: Id, q: Request, ch: Choice): Option<State>
    requires q.ListSecrets?
  {
    if !ch.ok then Goto(s, r, Finished)
    else match ch.row
    case None =>
      if exists id :: id in s.secrets && MatchesSecret(c, s, id, q.row.app, q.ex.clientSecret) then None
      else Goto(s, r, SpoilCode(q.code))
    case Some(id) =>
      if !MatchesSecret(c, s, id, q.row.app, q.ex.clientSecret) then None
      else if !CodeResourceAllowed(q.row.resource, q.ex.resource) then Goto(s, r, Finished)
      else Goto(s, r, ConsumeCode(q.ex, q.code, q.row, q.foundAt, id))
  }

  /** The single-use delete: only the request whose delete found the row goes on to mint. */
  function ConsumeCodeStep(s: State, r: Id, q: Request, ch: Choice): Option<State>
    requires q.ConsumeCode?
  {
    if !ch.ok then Goto(if ch.applied then s.(codes := s.codes - {q.code}) else s, r, Finished)
    else if q.code !in s.codes then Goto(s, r, Finished)
    else
      var grant := Grant(q.code, q.secret, q.row.user, q.row.resource);
      var redemption := Redemption(q.ex, q.secret, q.foundAt);
      Goto(s.(codes := s.codes - {q.code}, past := s.past.(redeemed := s.past.redeemed[q.code := redemption])),
           r, CreateKey(grant))
  }

  function FindTokenStep(c: Crypto, s: State, r: Id, rf: RefreshRequest, ch: Choice): Option<State> {
    if rf.refreshToken == "" || !ch.ok then Goto(s, r, Finished)
    else match ch.row
    case None =>
      if exists id :: id in s.tokens && HasRefreshHash(s, id, c.sha256(rf.refreshToken)) then None
      else Goto(s, r, Finished)
    case Some(id) =>
      if !HasRefreshHash(s, id, c.sha256(rf.refreshToken)) then None
      else if s.tokens[id].expires < ch.now then Goto(s, r, SpoilToken(id))
      else Goto(s, r, FindSecret(rf, id, s.tokens[id]))
  }

  function FindSecretStep(s: State, r: Id, q: Request, ch: Choice): Option<State>
    requires q.FindSecret?
  {
    if !ch.ok || q.record.secret !in s.secrets then Goto(s, r, Finished)
    else
      var app := s.secrets[q.record.secret].app;
      if app != q.rf.client || !RefreshResourceAllowed(q.record.audience, q.rf.resource) then Goto(s, r, Finished)
      else Goto(s, r, ListOwnSecrets(q.rf, q.token, q.record, app))
  }

  function ConsumeTokenStep(s: State, r: Id, q: Request, ch: Choice): Option<State>
    requires q.ConsumeToken?
  {
    if !ch.ok then Goto(if ch.applied then s.(tokens := s.tokens - {q.token}) else s, r, Finished)
    else if q.token !in s.tokens then Goto(s, r, Finished)
    else if q.token !in s.past.origin then None
    else
      var grant := Grant(s.past.origin[q.token], q.record.secret, q.record.user, q.record.audience);
      Goto(s.(tokens := s.tokens - {q.token}), r, DropOldKey(grant))
  }

  /** generate_token_pair's last store call: the new record carries the grant's secret, user and audience. */
  function CreateRecordStep(s: State, r: Id, g: Grant, ch: Choice): Option<State> {
    if !ch.ok && !ch.applied then Goto(s, r, Finished)
    else if ch.id in s.past.issued then None
    else
      var token := Token(g.secret, g.user, g.audience, ch.digest, ch.expires);
      Goto(s.(tokens := s.tokens[ch.id := token],
              past := s.past.(issued := s.past.issued[ch.id := token], origin := s.past.origin[ch.id := g.origin])),
           r, Finished)
  }

  function AdvanceStep(c: Crypto, s: State, r: Id, ch: Choice): Option<State>
    requires r in s.requests
  {
    var q := s.requests[r];
    match q
    case FindCode(ex) => FindCodeStep(c, s, r, ex, ch)
    case ListSecrets(_, _, _, _) => ListSecretsStep(c, s, r, q, ch)
    case SpoilCode(code) => Goto(if ch.ok || ch.applied then s.(codes := s.codes - {code}) else s, r, Finished)
    case ConsumeCode(_, _, _, _, _) => ConsumeCodeStep(s, r, q, ch)
    case FindToken(rf) => FindTokenStep(c, s, r, rf, ch)
    case SpoilToken(token) => Goto(if ch.ok || ch.applied then s.(tokens := s.tokens - {token}) else s, r, Finished)
    case FindSecret(_, _, _) => FindSecretStep(s, r, q, ch)
    case ListOwnSecrets(rf, token, record, app) =>
      if ch.ok && exists id :: id in s.secrets && MatchesSecret(c, s, id, app, rf.clientSecret)
      then Goto(s, r, ConsumeToken(token, record)) else Goto(s, r, Finished)
    case ConsumeToken(_, _) => ConsumeTokenStep(s, r, q, ch)
    case DropOldKey(g) => Goto(s, r, CreateKey(g))
    case CreateKey(g) => Goto(s, r, if ch.ok then CreateRecord(g) else Finished)
    case CreateRecord(g) => CreateRecordStep(s, r, g, ch)
    case ListTokens(app, user) => Goto(s, r, if ch.ok then DeleteTokens(app, user) else Finished)
    case DeleteTokens(app, user) =>
      var gone := set t | t in s.tokens && s.tokens[t].user == user && TokenOfApp(s, s.tokens[t], app);
      Goto(if ch.ok || ch.applied then s.(tokens := s.tokens - gone) else s, r, Finished)
    case Finished => None
  }

  predicate TokenOfApp(s: State, t: Token, app: Id) {
    t.secret in s.secrets && s.secrets[t.secret].app == app
  }

  function Apply(c: Crypto, s: State, step: Step): Option<State> {
    match step
    case MintCode(id, raw, now, order) =>
      if id in s.past.minted || !PkceMethodAllowed(order.challenge, order.challengeMethod) then None
      else
        var code := CodeFor(c, raw, now, order);
        Some(s.(codes := s.codes[id := code], past := s.past.(minted := s.past.minted[id := code])))
    case RegisterSecret(id, secret) =>
      if id in s.past.registered then None
      else Some(s.(secrets := s.secrets[id := secret], past := s.past.(registered := s.past.registered[id := secret])))
    case DeleteSecret(id) =>
      Some(s.(secrets := s.secrets - {id}, tokens := s.tokens - (set t | t in s.tokens && s.tokens[t].secret == id)))
    case DeleteApp(app) =>
      Some(s.(secrets := s.secrets - (set x | x in s.secrets && s.secrets[x].app == app),
              codes := s.codes - (set x | x in s.codes && s.codes[x].app == app),
              tokens := s.tokens - (set t | t in s.tokens && TokenOfApp(s, s.tokens[t], app))))
    case Begin(r, first) =>
      if r in s.requests || !(first.FindCode? || first.FindToken? || first.ListTokens?) then None
      else Some(s.(requests := s.requests[r := first]))
    case Advance(r, ch) => if r in s.requests then AdvanceStep(c, s, r, ch) else None
  }

  function Exec(c: Crypto, steps: seq<Step>): Option<State> {
    if steps == [] then Some(INITIAL)
    else match Exec(c, steps[..|steps| - 1])
    case None => None
    case Some(s) => Apply(c, s, steps[|steps| - 1])
  }

  // ------------------------------------------------------- linearity of a code

  /** Everything that can still turn into access: the stored code, a grant in flight, or a live token. */
  datatype Holder = Stored | Flight(req: Id) | Live(token: Id)

  function InFlight(q: Request): Option<Grant> {
    match q
    case DropOldKey(g) => Some(g)
    case CreateKey(g) => Some(g)
    case CreateRecord(g) => Some(g)
    case _ => None
  }

  ghost predicate Holds(s: State, h: Holder, code: Id) {
    match h
    case Stored => code in s.codes
    case Flight(r) => r in s.requests && InFlight(s.requests[r]).Some? && InFlight(s.requests[r]).value.origin == code
    case Live(t) => t in s.tokens && t in s.past.origin && s.past.origin[t] == code
  }

  ghost predicate Linear(s: State) {
    forall code, h1, h2 :: Holds(s, h1, code) && Holds(s, h2, code) ==> h1 == h2
  }

  // -------------------------------------------------- what every record carries

  /** The grant or token descends from `code` and was cut for its user, resource and app. */
  ghost predicate Descends(h: History, code: Id, secret: Id, user: Id, audience: string) {
    && code in h.minted && code in h.redeemed
    && user == h.minted[code].user
    && audience == h.minted[code].resource
    && secret in h.registered && h.registered[secret].app == h.minted[code].app
  }

  /** What the exchange that consumed `code` had shown: the code itself, the client, and the PKCE verifier. */
  ghost predicate Justified(c: Crypto, h: History, code: Id)
    requires code in h.redeemed
  {
    && code in h.minted
    && var x, row := h.redeemed[code], h.minted[code];
    && x.foundAt <= row.expires
    && c.sha256(x.ex.rawCode) == row.hash
    && x.ex.client == row.app
    && x.ex.resource == row.resource
    && x.secret in h.registered && h.registered[x.secret] == Secret(row.app, c.sha256(x.ex.clientSecret))
    && (row.challenge != "" ==> c.base64(c.sha256(x.ex.verifier)) == row.challenge)
  }

  ghost predicate RequestOk(c: Crypto, h: History, q: Request) {
    match q
    case ListSecrets(ex, code, row, foundAt) =>
      code in h.minted && h.minted[code] == row && RowAccepted(c, ex, row, foundAt)
    case ConsumeCode(ex, code, row, foundAt, secret) =>
      && code in h.minted && h.minted[code] == row && RowAccepted(c, ex, row, foundAt)
      && CodeResourceAllowed(row.resource, ex.resource)
      && secret in h.registered && h.registered[secret] == Secret(row.app, c.sha256(ex.clientSecret))
    case FindSecret(_, token, record) => token in h.issued && h.issued[token] == record
    case ListOwnSecrets(_, token, record, _) => token in h.issued && h.issued[token] == record
    case ConsumeToken(token, record) => token in h.issued && h.issued[token] == record
    case DropOldKey(g) => Descends(h, g.origin, g.secret, g.user, g.audience)
    case CreateKey(g) => Descends(h, g.origin, g.secret, g.user, g.audience)
    case CreateRecord(g) => Descends(h, g.origin, g.secret, g.user, g.audience)
    case _ => true
  }

  ghost predicate RequestsOk(c: Crypto, s: State) {
    forall r :: r in s.requests ==> RequestOk(c, s.past, s.requests[r])
  }

  ghost predicate PastOk(c: Crypto, h: History) {
    && (forall x :: x in h.minted ==> PkceMethodAllowed(h.minted[x].challenge, h.minted[x].challengeMethod))
    && (forall x :: x in h.redeemed ==> Justified(c, h, x))
    && (forall x :: x in h.issued ==> x in h.origin)
    && (forall x :: x in h.issued ==>
          Descends(h, h.origin[x], h.issued[x].secret, h.issued[x].user, h.issued[x].audience))
  }

  /** The store holds nothing but history, and no redeemed code. */
  ghost predicate StoreOk(s: State) {
    && (forall x :: x in s.codes ==> x in s.past.minted && s.past.minted[x] == s.codes[x] && x !in s.past.redeemed)
    && (forall x :: x in s.secrets ==> x in s.past.registered && s.past.registered[x] == s.secrets[x])
    && (forall x :: x in s.tokens ==> x in s.past.issued && s.past.issued[x] == s.tokens[x])
  }

  ghost predicate Inv(c: Crypto, s: State) {
    Linear(s) && StoreOk(s) && PastOk(c, s.past) && RequestsOk(c, s)
  }

  // ------------------------------------------------------------------ the proof

  /** History is only ever added to, never changed. */
  ghost predicate Extends(g: History, h: History) {
    && (forall x :: x in g.minted ==> x in h.minted && h.minted[x] == g.minted[x])
    && (forall x :: x in g.registered ==> x in h.registered && h.registered[x] == g.registered[x])
    && (forall x :: x in g.issued ==> x in h.issued && h.issued[x] == g.issued[x])
    && (forall x :: x in g.redeemed ==> x in h.redeemed && h.redeemed[x] == g.redeemed[x])
  }

  lemma RequestStaysOk(c: Crypto, g: History, h: History, q: Request)
    requires RequestOk(c, g, q) && Extends(g, h)
    ensures RequestOk(c, h, q)
  {
  }

  lemma OthersStayOk(c: Crypto, s: State, t: State, r: Id, q: Request)
    requires RequestsOk(c, s) && Extends(s.past, t.past)
    requires t.requests == s.requests[r := q] && RequestOk(c, t.past, q)
    ensures RequestsOk(c, t)
  {
    forall x | x in t.requests
      ensures RequestOk(c, t.past, t.requests[x])
    {
      if x != r {
        RequestStaysOk(c, s.past, t.past, s.requests[x]);
      }
    }
  }

  /** A step that gives nobody a new hold keeps linearity. */
  lemma NoNewHolds(s: State, t: State)
    requires Linear(s) && forall code, h :: Holds(t, h, code) ==> Holds(s, h, code)
    ensures Linear(t)
  {
  }

  /** So does a step that moves the one hold on a code from `a` to `b`. */
  lemma HoldMoves(s: State, t: State, code: Id, a: Holder, b: Holder)
    requires Linear(s) && Holds(s, a, code) && !Holds(t, a, code)
    requires forall x, h :: Holds(t, h, x) ==> Holds(s, h, x) || (x == code && h == b)
    ensures Linear(t)
  {
    forall x, h1, h2 | Holds(t, h1, x) && Holds(t, h2, x)
      ensures h1 == h2
    {
      if x == code {
        assert h1 != b ==> h1 == a;
        assert h2 != b ==> h2 == a;
      }
    }
  }

  /** The store of `t` is that of `s` with rows deleted. */
  ghost predicate Deleted(s: State, t: State) {
    && (forall x :: x in t.codes ==> x in s.codes && t.codes[x] == s.codes[x])
    && (forall x :: x in t.tokens ==> x in s.tokens && t.tokens[x] == s.tokens[x])
    && (forall x :: x in t.secrets ==> x in s.secrets && t.secrets[x] == s.secrets[x])
  }

  /** A request that at most deletes rows and carries no new grant. */
  lemma PlainMove(c: Crypto, s: State, t: State, r: Id, q: Request)
    requires Inv(c, s) && RequestOk(c, s.past, q)
    requires t.past == s.past && t.requests == s.requests[r := q] && Deleted(s, t)
    requires InFlight(q) == None || (r in s.requests && InFlight(q) == InFlight(s.requests[r]))
    ensures Inv(c, t)
  {
    NoNewHolds(s, t);
    OthersStayOk(c, s, t, r, q);
  }

  lemma CodeToFlight(s: State, t: State, r: Id, code: Id, g: Grant)
    requires Linear(s) && code in s.codes && g.origin == code
    requires t.codes == s.codes - {code} && t.tokens == s.tokens && t.past.origin == s.past.origin
    requires t.requests == s.requests[r := CreateKey(g)]
    ensures Linear(t)
  {
    HoldMoves(s, t, code, Stored, Flight(r));
  }

  lemma RedemptionJustified(c: Crypto, h: History, q: Request)
    requires q.ConsumeCode? && RequestOk(c, h, q)
    requires PkceMethodAllowed(q.row.challenge, q.row.challengeMethod)
    requires q.code in h.redeemed && h.redeemed[q.code] == Redemption(q.ex, q.secret, q.foundAt)
    ensures Justified(c, h, q.code)
  {
  }

  lemma CodeConsumed(c: Crypto, s: State, t: State, r: Id, q: Request)
    requires Inv(c, s) && q.ConsumeCode? && RequestOk(c, s.past, q) && q.code in s.codes
    requires t == s.(
      codes := s.codes - {q.code},
      past := s.past.(redeemed := s.past.redeemed[q.code := Redemption(q.ex, q.secret, q.foundAt)]),
      requests := s.requests[r := CreateKey(Grant(q.code, q.secret, q.row.user, q.row.resource))])
    ensures Inv(c, t)
  {
    var g := Grant(q.code, q.secret, q.row.user, q.row.resource);
    CodeToFlight(s, t, r, q.code, g);
    ConsumeKeepsStore(s, t, q.code);
    ConsumeKeepsPast(c, s.past, t.past, q);
    OthersStayOk(c, s, t, r, CreateKey(g));
  }

  lemma ConsumeKeepsPast(c: Crypto, g: History, h: History, q: Request)
    requires PastOk(c, g) && q.ConsumeCode? && RequestOk(c, g, q) && q.code !in g.redeemed
    requires h == g.(redeemed := g.redeemed[q.code := Redemption(q.ex, q.secret, q.foundAt)])
    ensures PastOk(c, h) && Extends(g, h) && Descends(h, q.code, q.secret, q.row.user, q.row.resource)
  {
    RequestStaysOk(c, g, h, q);
    RedemptionJustified(c, h, q);
    RedeemKeepsPast(c, g, h, q.code);
  }

  lemma ConsumeKeepsStore(s: State, t: State, code: Id)
    requires StoreOk(s) && t.codes == s.codes - {code} && t.tokens == s.tokens && t.secrets == s.secrets
    requires t.past == s.past.(redeemed := t.past.redeemed) && t.past.redeemed.Keys == s.past.redeemed.Keys + {code}
    ensures StoreOk(t)
  {
  }

  lemma RedeemKeepsPast(c: Crypto, g: History, h: History, code: Id)
    requires PastOk(c, g) && code !in g.redeemed
    requires h == g.(redeemed := h.redeemed)
    requires code in h.redeemed && h.redeemed == g.redeemed[code := h.redeemed[code]] && Justified(c, h, code)
    ensures PastOk(c, h)
  {
    forall x | x in h.redeemed
      ensures Justified(c, h, x)
    {
      if x != code {
        assert Justified(c, g, x);
      }
    }
  }

  lemma TokenToFlight(s: State, t: State, r: Id, token: Id, g: Grant)
    requires Linear(s) && token in s.tokens && token in s.past.origin && g.origin == s.past.origin[token]
    requires t == s.(tokens := s.tokens - {token}, requests := s.requests[r := DropOldKey(g)])
    ensures Linear(t)
  {
    HoldMoves(s, t, g.origin, Live(token), Flight(r));
  }

  lemma TokenConsumed(c: Crypto, s: State, t: State, r: Id, q: Request)
    requires Inv(c, s) && q.ConsumeToken? && RequestOk(c, s.past, q)
    requires q.token in s.tokens && q.token in s.past.origin
    requires t == s.(
      tokens := s.tokens - {q.token},
      requests := s.requests[r := DropOldKey(
        Grant(s.past.origin[q.token], q.record.secret, q.record.user, q.record.audience))])
    ensures Inv(c, t)
  {
    TokenToFlight(s, t, r, q.token, t.requests[r].grant);
    OthersStayOk(c, s, t, r, t.requests[r]);
  }

  lemma FlightToToken(s: State, t: State, r: Id, token: Id, g: Grant, record: Token)
    requires Linear(s) && StoreOk(s) && token !in s.past.issued
    requires r in s.requests && InFlight(s.requests[r]) == Some(g)
    requires t.tokens == s.tokens[token := record] && t.codes == s.codes
    requires t.requests == s.requests[r := Finished] && t.past.origin == s.past.origin[token := g.origin]
    ensures Linear(t)
  {
    HoldMoves(s, t, g.origin, Flight(r), Live(token));
  }

  lemma RecordCreated(c: Crypto, s: State, t: State, r: Id, g: Grant, id: Id, token: Token)
    requires Inv(c, s) && r in s.requests && s.requests[r] == CreateRecord(g) && id !in s.past.issued
    requires token.secret == g.secret && token.user == g.user && token.audience == g.audience
    requires t == s.(
      tokens := s.tokens[id := token],
      past := s.past.(issued := s.past.issued[id := token], origin := s.past.origin[id := g.origin]),
      requests := s.requests[r := Finished])
    ensures Inv(c, t)
  {
    assert RequestOk(c, s.past, s.requests[r]);
    FlightToToken(s, t, r, id, g, token);
    IssueKeepsPast(c, s.past, t.past, id, g);
    IssueKeepsStore(s, t, id, token);
    OthersStayOk(c, s, t, r, Finished);
  }

  lemma IssueKeepsStore(s: State, t: State, id: Id, token: Token)
    requires StoreOk(s) && t.codes == s.codes && t.secrets == s.secrets && t.tokens == s.tokens[id := token]
    requires t.past == s.past.(issued := s.past.issued[id := token], origin := t.past.origin)
    ensures StoreOk(t)
  {
  }

  lemma IssueKeepsPast(c: Crypto, g: History, h: History, token: Id, grant: Grant)
    requires PastOk(c, g) && token !in g.issued && Descends(g, grant.origin, grant.secret, grant.user, grant.audience)
    requires h == g.(issued := h.issued, origin := g.origin[token := grant.origin])
    requires token in h.issued && h.issued == g.issued[token := h.issued[token]]
    requires h.issued[token].secret == grant.secret
    requires h.issued[token].user == grant.user && h.issued[token].audience == grant.audience
    ensures PastOk(c, h)
  {
    forall x | x in h.redeemed
      ensures Justified(c, h, x)
    {
      assert Justified(c, g, x);
    }
    forall x | x in h.issued
      ensures Descends(h, h.origin[x], h.issued[x].secret, h.issued[x].user, h.issued[x].audience)
    {
      if x != token {
        assert Descends(g, g.origin[x], g.issued[x].secret, g.issued[x].user, g.issued[x].audience);
      }
    }
  }

  /** The step takes request `r` on by a store call that at most deletes rows and grants nothing new. */
  ghost predicate Plain(c: Crypto, s: State, t: State, r: Id) {
    && r in s.requests && r in t.requests
    && t.past == s.past && t.requests == s.requests[r := t.requests[r]] && Deleted(s, t)
    && RequestOk(c, s.past, t.requests[r])
    && (InFlight(t.requests[r]) == None || InFlight(t.requests[r]) == InFlight(s.requests[r]))
  }

  /** A request that only moves on, to a sound place and without a grant. */
  lemma GotoPlain(c: Crypto, s: State, r: Id, next: Request)
    requires r in s.requests && RequestOk(c, s.past, next) && InFlight(next) == None
    ensures Goto(s, r, next).Some? && Plain(c, s, Goto(s, r, next).value, r)
  {
  }

  lemma FindCodePlain(c: Crypto, s: State, r: Id, ex: ExchangeRequest, ch: Choice)
    requires StoreOk(s) && r in s.requests && FindCodeStep(c, s, r, ex, ch).Some?
    ensures Plain(c, s, FindCodeStep(c, s, r, ex, ch).value, r)
  {
    if ex.rawCode == "" || !ch.ok || ch.row.None? {
      GotoPlain(c, s, r, Finished);
    } else {
      var id := ch.row.value;
      var row := s.codes[id];
      GotoPlain(c, s, r, if RowAccepted(c, ex, row, ch.now) then ListSecrets(ex, id, row, ch.now) else SpoilCode(id));
    }
  }

  lemma ListSecretsPlain(c: Crypto, s: State, r: Id, q: Request, ch: Choice)
    requires StoreOk(s) && r in s.requests && q.ListSecrets? && RequestOk(c, s.past, q)
    requires ListSecretsStep(c, s, r, q, ch).Some?
    ensures Plain(c, s, ListSecretsStep(c, s, r, q, ch).value, r)
  {
    if !ch.ok {
      GotoPlain(c, s, r, Finished);
    } else if ch.row.None? {
      GotoPlain(c, s, r, SpoilCode(q.code));
    } else if !CodeResourceAllowed(q.row.resource, q.ex.resource) {
      GotoPlain(c, s, r, Finished);
    } else {
      GotoPlain(c, s, r, ConsumeCode(q.ex, q.code, q.row, q.foundAt, ch.row.value));
    }
  }

  lemma FindTokenPlain(c: Crypto, s: State, r: Id, rf: RefreshRequest, ch: Choice)
    requires StoreOk(s) && r in s.requests && FindTokenStep(c, s, r, rf, ch).Some?
    ensures Plain(c, s, FindTokenStep(c, s, r, rf, ch).value, r)
  {
    if rf.refreshToken == "" || !ch.ok || ch.row.None? {
      GotoPlain(c, s, r, Finished);
    } else {
      var id := ch.row.value;
      var record := s.tokens[id];
      GotoPlain(c, s, r, if record.expires < ch.now then SpoilToken(id) else FindSecret(rf, id, record));
    }
  }

  lemma FindSecretPlain(c: Crypto, s: State, r: Id, q: Request, ch: Choice)
    requires StoreOk(s) && r in s.requests && q.FindSecret? && RequestOk(c, s.past, q)
    requires FindSecretStep(s, r, q, ch).Some?
    ensures Plain(c, s, FindSecretStep(s, r, q, ch).value, r)
  {
    GotoPlain(c, s, r, Finished);
    if q.record.secret in s.secrets {
      GotoPlain(c, s, r, ListOwnSecrets(q.rf, q.token, q.record, s.secrets[q.record.secret].app));
    }
  }

  /** Whether this store call, in this state, consumes a grant or creates a record. */
  ghost predicate Transfers(s: State, q: Request, ch: Choice) {
    match q
    case ConsumeCode(_, code, _, _, _) => ch.ok && code in s.codes
    case ConsumeToken(token, _) => ch.ok && token in s.tokens
    case CreateRecord(_) => ch.ok || ch.applied
    case _ => false
  }

  lemma SpoilPlain(c: Crypto, s: State, r: Id, ch: Choice)
    requires r in s.requests && AdvanceStep(c, s, r, ch).Some?
    requires s.requests[r].SpoilCode? || s.requests[r].SpoilToken?
    ensures Plain(c, s, AdvanceStep(c, s, r, ch).value, r)
  {
  }

  lemma RevokePlain(c: Crypto, s: State, r: Id, ch: Choice)
    requires r in s.requests && AdvanceStep(c, s, r, ch).Some? && s.requests[r].DeleteTokens?
    ensures Plain(c, s, AdvanceStep(c, s, r, ch).value, r)
  {
  }

  lemma FailPlain(c: Crypto, s: State, r: Id, ch: Choice)
    requires r in s.requests && AdvanceStep(c, s, r, ch).Some? && !Transfers(s, s.requests[r], ch)
    requires s.requests[r].ConsumeCode? || s.requests[r].ConsumeToken? || s.requests[r].CreateRecord?
    ensures Plain(c, s, AdvanceStep(c, s, r, ch).value, r)
  {
  }

  lemma HandOnPlain(c: Crypto, s: State, r: Id, ch: Choice)
    requires r in s.requests && RequestOk(c, s.past, s.requests[r]) && AdvanceStep(c, s, r, ch).Some?
    requires s.requests[r].DropOldKey? || s.requests[r].CreateKey? || s.requests[r].ListTokens?
    ensures Plain(c, s, AdvanceStep(c, s, r, ch).value, r)
  {
  }

  lemma ListOwnPlain(c: Crypto, s: State, r: Id, ch: Choice)
    requires r in s.requests && RequestOk(c, s.past, s.requests[r]) && AdvanceStep(c, s, r, ch).Some?
    requires s.requests[r].ListOwnSecrets?
    ensures Plain(c, s, AdvanceStep(c, s, r, ch).value, r)
  {
  }

  lemma AdvancePlain(c: Crypto, s: State, r: Id, ch: Choice)
    requires StoreOk(s) && r in s.requests && RequestOk(c, s.past, s.requests[r])
    requires AdvanceStep(c, s, r, ch).Some? && !Transfers(s, s.requests[r], ch)
    ensures Plain(c, s, AdvanceStep(c, s, r, ch).value, r)
  {
    match s.requests[r]
    case FindCode(ex) => FindCodePlain(c, s, r, ex, ch);
    case ListSecrets(_, _, _, _) => ListSecretsPlain(c, s, r, s.requests[r], ch);
    case FindToken(rf) => FindTokenPlain(c, s, r, rf, ch);
    case FindSecret(_, _, _) => FindSecretPlain(c, s, r, s.requests[r], ch);
    case SpoilCode(_) => SpoilPlain(c, s, r, ch);
    case SpoilToken(_) => SpoilPlain(c, s, r, ch);
    case DeleteTokens(_, _) => RevokePlain(c, s, r, ch);
    case ListOwnSecrets(_, _, _, _) => ListOwnPlain(c, s, r, ch);
    case ConsumeCode(_, _, _, _, _) => FailPlain(c, s, r, ch);
    case ConsumeToken(_, _) => FailPlain(c, s, r, ch);
    case CreateRecord(_) => FailPlain(c, s, r, ch);
    case _ => HandOnPlain(c, s, r, ch);
  }

  lemma AdvanceKept(c: Crypto, s: State, r: Id, ch: Choice)
    requires Inv(c, s) && r in s.requests && AdvanceStep(c, s, r, ch).Some?
    ensures Inv(c, AdvanceStep(c, s, r, ch).value)
  {
    var q := s.requests[r];
    var t := AdvanceStep(c, s, r, ch).value;
    assert RequestOk(c, s.past, q);
    if !Transfers(s, q, ch) {
      AdvancePlain(c, s, r, ch);
      PlainMove(c, s, t, r, t.requests[r]);
    } else if q.ConsumeCode? {
      CodeConsumed(c, s, t, r, q);
    } else if q.ConsumeToken? {
      TokenConsumed(c, s, t, r, q);
    } else {
      RecordCreated(c, s, t, r, q.grant, ch.id, t.tokens[ch.id]);
    }
  }

  /** Nobody holds a code that was never minted. */
  lemma NeverMinted(c: Crypto, s: State, code: Id, h: Holder)
    requires Inv(c, s) && code !in s.past.minted
    ensures !Holds(s, h, code)
  {
    if h.Flight? && h.req in s.requests {
      assert RequestOk(c, s.past, s.requests[h.req]);
    }
  }

  lemma MintIsLinear(c: Crypto, s: State, t: State, id: Id)
    requires Inv(c, s) && id !in s.past.minted
    requires t.codes.Keys == s.codes.Keys + {id} && t.tokens == s.tokens && t.requests == s.requests
    requires t.past.origin == s.past.origin
    ensures Linear(t)
  {
    forall x, h1, h2 | Holds(t, h1, x) && Holds(t, h2, x)
      ensures h1 == h2
    {
      if x == id {
        NeverMinted(c, s, x, h1);
        NeverMinted(c, s, x, h2);
      } else {
        assert Holds(s, h1, x) && Holds(s, h2, x);
      }
    }
  }

  /** A new code or a new secret leaves every recorded fact standing. */
  lemma GrowthKeepsPast(c: Crypto, g: History, h: History)
    requires PastOk(c, g) && Extends(g, h)
    requires h.redeemed == g.redeemed && h.issued == g.issued && h.origin == g.origin
    requires forall x :: x in h.minted ==> PkceMethodAllowed(h.minted[x].challenge, h.minted[x].challengeMethod)
    ensures PastOk(c, h)
  {
    forall x | x in h.redeemed
      ensures Justified(c, h, x)
    {
      assert Justified(c, g, x);
    }
    forall x | x in h.issued
      ensures Descends(h, h.origin[x], h.issued[x].secret, h.issued[x].user, h.issued[x].audience)
    {
      assert Descends(g, g.origin[x], g.issued[x].secret, g.issued[x].user, g.issued[x].audience);
    }
  }

  lemma MintKept(c: Crypto, s: State, t: State, id: Id, code: Code)
    requires Inv(c, s) && id !in s.past.minted && PkceMethodAllowed(code.challenge, code.challengeMethod)
    requires t == s.(codes := s.codes[id := code], past := s.past.(minted := s.past.minted[id := code]))
    ensures Inv(c, t)
  {
    MintIsLinear(c, s, t, id);
    MintKeepsStore(c, s, t, id, code);
    MintKeepsPast(c, s.past, t.past, id, code);
    AllStayOk(c, s, t);
  }

  lemma MintKeepsPast(c: Crypto, g: History, h: History, id: Id, code: Code)
    requires PastOk(c, g) && id !in g.minted && PkceMethodAllowed(code.challenge, code.challengeMethod)
    requires h == g.(minted := g.minted[id := code])
    ensures PastOk(c, h) && Extends(g, h)
  {
    GrowthKeepsPast(c, g, h);
  }

  lemma MintKeepsStore(c: Crypto, s: State, t: State, id: Id, code: Code)
    requires StoreOk(s) && PastOk(c, s.past) && id !in s.past.minted
    requires t == s.(codes := s.codes[id := code], past := s.past.(minted := s.past.minted[id := code]))
    ensures StoreOk(t)
  {
    assert id in s.past.redeemed ==> Justified(c, s.past, id);
  }

  lemma SameHolds(s: State, t: State)
    requires Linear(s) && t.codes == s.codes && t.tokens == s.tokens && t.requests == s.requests
    requires t.past.origin == s.past.origin
    ensures Linear(t)
  {
    NoNewHolds(s, t);
  }

  lemma RegisterKeepsStore(s: State, t: State, id: Id, secret: Secret)
    requires StoreOk(s) && id !in s.past.registered
    requires t == s.(secrets := s.secrets[id := secret], past := s.past.(registered := s.past.registered[id := secret]))
    ensures StoreOk(t)
  {
  }

  lemma RegisterKept(c: Crypto, s: State, t: State, id: Id, secret: Secret)
    requires Inv(c, s) && id !in s.past.registered
    requires t == s.(secrets := s.secrets[id := secret], past := s.past.(registered := s.past.registered[id := secret]))
    ensures Inv(c, t)
  {
    SameHolds(s, t);
    RegisterKeepsStore(s, t, id, secret);
    GrowthKeepsPast(c, s.past, t.past);
    AllStayOk(c, s, t);
  }

  /** Deleting a secret or an app removes rows and nothing else. */
  lemma DeletionKept(c: Crypto, s: State, t: State)
    requires Inv(c, s) && Deleted(s, t) && t.requests == s.requests && t.past == s.past
    ensures Inv(c, t)
  {
    NoNewHolds(s, t);
  }

  lemma DeletesOnly(c: Crypto, s: State, step: Step)
    requires (step.DeleteSecret? || step.DeleteApp?) && Apply(c, s, step).Some?
    ensures
      var t := Apply(c, s, step).value;
      Deleted(s, t) && t.requests == s.requests && t.past == s.past
  {
  }

  lemma AllStayOk(c: Crypto, s: State, t: State)
    requires RequestsOk(c, s) && Extends(s.past, t.past) && t.requests == s.requests
    ensures RequestsOk(c, t)
  {
    forall r | r in t.requests
      ensures RequestOk(c, t.past, t.requests[r])
    {
      RequestStaysOk(c, s.past, t.past, s.requests[r]);
    }
  }

  lemma StepKept(c: Crypto, s: State, step: Step)
    requires Inv(c, s) && Apply(c, s, step).Some?
    ensures Inv(c, Apply(c, s, step).value)
  {
    match step
    case Advance(r, ch) => AdvanceKept(c, s, r, ch);
    case Begin(r, first) => PlainMove(c, s, Apply(c, s, step).value, r, first);
    case MintCode(id, raw, now, order) =>
      MintKept(c, s, Apply(c, s, step).value, id, CodeFor(c, raw, now, order));
    case RegisterSecret(id, secret) => RegisterKept(c, s, Apply(c, s, step).value, id, secret);
    case _ =>
      DeletesOnly(c, s, step);
      DeletionKept(c, s, Apply(c, s, step).value);
  }

  lemma {:induction false} Invariant(c: Crypto, steps: seq<Step>)
    requires Exec(c, steps).Some?
    ensures Inv(c, Exec(c, steps).value)
    decreases |steps|
  {
    if steps != [] {
      Invariant(c, steps[..|steps| - 1]);
      StepKept(c, Exec(c, steps[..|steps| - 1]).value, steps[|steps| - 1]);
    }
  }

  // --------------------------------------------------------------- main results

  ghost function FlightsOf(s: State, code: Id): set<Id> {
    set r | r in s.requests && Holds(s, Flight(r), code)
  }

  ghost function LiveOf(s: State, code: Id): set<Id> {
    set t | t in s.tokens && Holds(s, Live(t), code)
  }

  lemma AtMostOne<T>(xs: set<T>)
    requires forall x, y :: x in xs && y in xs ==> x == y
    ensures |xs| <= 1
  {
    if xs != {} {
      var x :| x in xs;
      assert xs == {x};
    }
  }

  lemma Alone(s: State, code: Id, h: Holder, other: Holder)
    requires Linear(s) && Holds(s, h, code) && h != other
    ensures !Holds(s, other, code)
  {
  }

  /**
   * In every interleaving of exchanges, refreshes, revocations and deletions,
   * each code accounts for at most one of: itself still stored, a token pair
   * being generated, a live token record. Refresh chains never fork.
   */
  lemma {:induction false} CodesAreLinear(c: Crypto, steps: seq<Step>, code: Id)
    requires Exec(c, steps).Some?
    ensures
      var s := Exec(c, steps).value;
      (if code in s.codes then 1 else 0) + |FlightsOf(s, code)| + |LiveOf(s, code)| <= 1
  {
    Invariant(c, steps);
    var s := Exec(c, steps).value;
    var flights, live := FlightsOf(s, code), LiveOf(s, code);
    forall x, y | x in flights && y in flights
      ensures x == y
    {
      assert Holds(s, Flight(x), code) && Holds(s, Flight(y), code);
    }
    forall x, y | x in live && y in live
      ensures x == y
    {
      assert Holds(s, Live(x), code) && Holds(s, Live(y), code);
    }
    AtMostOne(flights);
    AtMostOne(live);
    if r :| r in flights {
      Alone(s, code, Flight(r), Stored);
      forall t {
        Alone(s, code, Flight(r), Live(t));
      }
      assert live == {};
    } else if t :| t in live {
      Alone(s, code, Live(t), Stored);
    }
  }

  /**
   * However often it was refreshed, a live token belongs to the user, carries
   * the resource and hangs off the app of the code it descends from; and that
   * code was redeemed by an exchange that presented the code itself, the app's
   * credentials, the bound resource, and, for a code with a challenge, the
   * S256 preimage of that challenge.
   */
  lemma {:induction false} LiveTokensAreJustified(c: Crypto, steps: seq<Step>, token: Id)
    requires Exec(c, steps).Some? && token in Exec(c, steps).value.tokens
    ensures
      var s := Exec(c, steps).value;
      var h, t := s.past, s.tokens[token];
      && token in h.origin
      && var code := h.origin[token];
      && code in h.minted && code in h.redeemed && code !in s.codes
      && t.user == h.minted[code].user && t.audience == h.minted[code].resource
      && t.secret in h.registered && h.registered[t.secret].app == h.minted[code].app
      && Justified(c, h, code)
  {
    Invariant(c, steps);
  }

  /** A code that carries a challenge was minted for S256, so no exchange of it ever takes the plain branch. */
  lemma {:induction false} ChallengesAreS256(c: Crypto, steps: seq<Step>, code: Id, verifier: string)
    requires Exec(c, steps).Some? && code in Exec(c, steps).value.past.minted
    requires Exec(c, steps).value.past.minted[code].challenge != ""
    ensures
      var row := Exec(c, steps).value.past.minted[code];
      VerifyPkce(c, verifier, row.challenge, row.challengeMethod) <==> c.base64(c.sha256(verifier)) == row.challenge
  {
    Invariant(c, steps);
  }

  ghost predicate KeepsRedeemed(s: State, t: State) {
    forall x :: x in s.past.redeemed ==> x in t.past.redeemed && t.past.redeemed[x] == s.past.redeemed[x]
  }

  lemma AdvanceRedeems(c: Crypto, s: State, r: Id, ch: Choice)
    requires StoreOk(s) && r in s.requests && RequestOk(c, s.past, s.requests[r]) && AdvanceStep(c, s, r, ch).Some?
    ensures KeepsRedeemed(s, AdvanceStep(c, s, r, ch).value)
  {
    if !Transfers(s, s.requests[r], ch) {
      AdvancePlain(c, s, r, ch);
    }
  }

  lemma RedeemedStays(c: Crypto, s: State, step: Step)
    requires Inv(c, s) && Apply(c, s, step).Some?
    ensures KeepsRedeemed(s, Apply(c, s, step).value)
  {
    match step
    case Advance(r, ch) =>
      assert RequestOk(c, s.past, s.requests[r]);
      AdvanceRedeems(c, s, r, ch);
    case _ => assert Apply(c, s, step).value.past.redeemed == s.past.redeemed;
  }

  /** Once consumed, a code never comes back and is never redeemed again: its redemption is final. */
  lemma {:induction false} RedemptionIsFinal(c: Crypto, steps: seq<Step>, k: nat, code: Id)
    requires k <= |steps| && Exec(c, steps).Some?
    ensures Exec(c, steps[..k]).Some?
    ensures
      var early, late := Exec(c, steps[..k]).value, Exec(c, steps).value;
      code in early.past.redeemed ==>
        && code !in late.codes
        && code in late.past.redeemed && late.past.redeemed[code] == early.past.redeemed[code]
    decreases |steps|
  {
    Invariant(c, steps);
    if k == |steps| {
      assert steps[..k] == steps;
    } else {
      var before := steps[..|steps| - 1];
      RedemptionIsFinal(c, before, k, code);
      assert before[..k] == steps[..k];
      Invariant(c, before);
      RedeemedStays(c, Exec(c, before).value, steps[|steps| - 1]);
    }
  }
}
