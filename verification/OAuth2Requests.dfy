// What one OAuth2 request does when nothing else touches the store while it
// runs: the outcome of an exchange, a refresh and a revocation for every input
// (crates/coder-auth/src/lib.rs).
module OAuth2Requests {
  import opened Common
  import opened OAuth2Grants

  /** Request `r` taken through the store calls answered by `answers`; None when an answer is not possible. */
  function Alone(c: Crypto, s: State, r: Id, answers: seq<Choice>): Option<State>
    decreases |answers|
  {
    if answers == [] then Some(s)
    else if r !in s.requests then None
    else match AdvanceStep(c, s, r, answers[0])
    case None => None
    case Some(t) => Alone(c, t, r, answers[1..])
  }

  /** No store call fails. */
  ghost predicate StoreWorks(answers: seq<Choice>) {
    forall i :: 0 <= i < |answers| ==> answers[i].ok
  }

  /** Request `r` runs from `s` to its end in `t`. */
  ghost predicate Completes(c: Crypto, s: State, r: Id, answers: seq<Choice>, t: State) {
    && StoreWorks(answers) && Alone(c, s, r, answers) == Some(t)
    && r in s.requests && r in t.requests && t.requests[r] == Finished
  }

  /** A request that is not finished makes its next store call. */
  lemma OneCall(c: Crypto, s: State, r: Id, answers: seq<Choice>, t: State)
    requires Completes(c, s, r, answers, t) && s.requests[r] != Finished
    ensures answers != [] && answers[0].ok && AdvanceStep(c, s, r, answers[0]).Some?
    ensures
      var u := AdvanceStep(c, s, r, answers[0]).value;
      r in u.requests ==> Completes(c, u, r, answers[1..], t)
  {
  }

  /** A finished request makes no further call. */
  lemma NoCall(c: Crypto, s: State, r: Id, answers: seq<Choice>, t: State)
    requires Completes(c, s, r, answers, t) && s.requests[r] == Finished
    ensures answers == [] && t == s
  {
  }

  ghost predicate SameStore(s: State, t: State) {
    t.codes == s.codes && t.tokens == s.tokens && t.secrets == s.secrets
  }

  /** The store of `t` is that of `s` with the code `id` gone. */
  ghost predicate CodeGone(s: State, t: State, id: Id) {
    t.codes == s.codes - {id} && t.tokens == s.tokens && t.secrets == s.secrets
  }

  // ---------------------------------------------------------- minting the tokens

  /** generate_token_pair creates exactly one record, new and cut for the grant. */
  lemma Minted(c: Crypto, s: State, r: Id, answers: seq<Choice>, t: State)
    requires Completes(c, s, r, answers, t) && s.requests[r].CreateKey?
    ensures |answers| == 2 && t.codes == s.codes && t.secrets == s.secrets
    ensures answers[1].id !in s.past.issued && t.past.issued.Keys == s.past.issued.Keys + {answers[1].id}
    ensures
      var g, a := s.requests[r].grant, answers[1];
      t.tokens == s.tokens[a.id := Token(g.secret, g.user, g.audience, a.digest, a.expires)]
  {
    OneCall(c, s, r, answers, t);
    var u := AdvanceStep(c, s, r, answers[0]).value;
    OneCall(c, u, r, answers[1..], t);
    var v := AdvanceStep(c, u, r, answers[1]).value;
    NoCall(c, v, r, answers[2..], t);
  }

  // ------------------------------------------------------------------- exchange

  /** A secret of that app with the digest of that text is stored. */
  ghost predicate HasSecret(c: Crypto, s: State, app: Id, clientSecret: string) {
    exists id :: id in s.secrets && s.secrets[id].app == app && s.secrets[id].hash == c.sha256(clientSecret)
  }

  lemma SecretFound(c: Crypto, s: State, app: Id, clientSecret: string)
    ensures HasSecret(c, s, app, clientSecret) <==>
            exists id :: id in s.secrets && MatchesSecret(c, s, id, app, clientSecret)
  {
    if id :| id in s.secrets && s.secrets[id].app == app && s.secrets[id].hash == c.sha256(clientSecret) {
      assert MatchesSecret(c, s, id, app, clientSecret);
    }
  }

  /** The verifier answers the challenge the code carries, if it carries one. */
  ghost predicate ChallengeMet(c: Crypto, verifier: string, row: Code) {
    || row.challenge == ""
    || (verifier != "" && row.challengeMethod == "S256" && c.base64(c.sha256(verifier)) == row.challenge)
    || (verifier != "" && row.challengeMethod in {"plain", ""} && verifier == row.challenge)
  }

  /** Every check of the exchange other than the resource check: expiry, code, client, challenge, credentials. */
  ghost predicate CodeAccepted(c: Crypto, s: State, ex: ExchangeRequest, row: Code, now: int) {
    && now <= row.expires && c.sha256(ex.rawCode) == row.hash && row.app == ex.client
    && ChallengeMet(c, ex.verifier, row)
    && HasSecret(c, s, row.app, ex.clientSecret)
  }

  lemma AcceptedMeans(c: Crypto, s: State, ex: ExchangeRequest, row: Code, now: int)
    ensures CodeAccepted(c, s, ex, row, now) <==>
            RowAccepted(c, ex, row, now) && HasSecret(c, s, row.app, ex.clientSecret)
  {
  }

  lemma Spoilt(c: Crypto, s: State, r: Id, answers: seq<Choice>, t: State)
    requires Completes(c, s, r, answers, t) && s.requests[r].SpoilCode?
    ensures CodeGone(s, t, s.requests[r].code)
  {
    OneCall(c, s, r, answers, t);
    NoCall(c, AdvanceStep(c, s, r, answers[0]).value, r, answers[1..], t);
  }

  lemma Consumed(c: Crypto, s: State, r: Id, answers: seq<Choice>, t: State)
    requires Completes(c, s, r, answers, t) && s.requests[r].ConsumeCode? && s.requests[r].code in s.codes
    ensures |answers| == 3 && t.codes == s.codes - {s.requests[r].code} && t.secrets == s.secrets
    ensures answers[2].id !in s.past.issued
    ensures
      var q, a := s.requests[r], answers[2];
      t.tokens == s.tokens[a.id := Token(q.secret, q.row.user, q.row.resource, a.digest, a.expires)]
  {
    OneCall(c, s, r, answers, t);
    Minted(c, AdvanceStep(c, s, r, answers[0]).value, r, answers[1..], t);
  }

  /** From listing the secrets on. */
  lemma Authenticated(c: Crypto, s: State, r: Id, answers: seq<Choice>, t: State)
    requires StoreOk(s) && Completes(c, s, r, answers, t)
    requires s.requests[r].ListSecrets? && s.requests[r].code in s.codes
    ensures
      var q := s.requests[r];
      if !HasSecret(c, s, q.row.app, q.ex.clientSecret) then CodeGone(s, t, q.code)
      else if q.row.resource != q.ex.resource then SameStore(s, t)
      else Granted(c, s, t, q.code, q.row, q.ex)
  {
    OneCall(c, s, r, answers, t);
    SecretFound(c, s, s.requests[r].row.app, s.requests[r].ex.clientSecret);
    var q, u := s.requests[r], AdvanceStep(c, s, r, answers[0]).value;
    if u.requests[r].SpoilCode? {
      Spoilt(c, u, r, answers[1..], t);
    } else if u.requests[r] == Finished {
      NoCall(c, u, r, answers[1..], t);
    } else {
      Consumed(c, u, r, answers[1..], t);
      var a := answers[3];
      var token := Token(u.requests[r].secret, q.row.user, q.row.resource, a.digest, a.expires);
      assert IsGrant(c, s, t, q.row, q.ex, a.id, token);
    }
  }

  /** `token` is the one new record, the code's user's, bound to its resource, under a secret the client knows. */
  ghost predicate IsGrant(c: Crypto, s: State, t: State, row: Code, ex: ExchangeRequest, id: Id, token: Token) {
    && id !in s.tokens && t.tokens == s.tokens[id := token]
    && token.user == row.user && token.audience == row.resource
    && token.secret in s.secrets && s.secrets[token.secret].app == row.app
    && s.secrets[token.secret].hash == c.sha256(ex.clientSecret)
  }

  ghost predicate Granted(c: Crypto, s: State, t: State, code: Id, row: Code, ex: ExchangeRequest) {
    t.codes == s.codes - {code} && t.secrets == s.secrets &&
    exists id, token :: IsGrant(c, s, t, row, ex, id, token)
  }

  /**
   * The outcome of an exchange that found the row `id`, for every input: a
   * token exactly when every check passes; the code is used up by success and
   * by every failed check, except that a wrong resource leaves it for a retry.
   */
  lemma ExchangeOutcome(c: Crypto, s: State, r: Id, ex: ExchangeRequest, id: Id, answers: seq<Choice>, t: State)
    requires StoreOk(s) && Completes(c, s, r, answers, t) && s.requests[r] == FindCode(ex)
    requires ex.rawCode != "" && |answers| > 0 && answers[0].row == Some(id)
    ensures id in s.codes
    ensures
      var row := s.codes[id];
      if !CodeAccepted(c, s, ex, row, answers[0].now) then CodeGone(s, t, id)
      else if row.resource != ex.resource then SameStore(s, t)
      else Granted(c, s, t, id, row, ex)
  {
    OneCall(c, s, r, answers, t);
    var u := AdvanceStep(c, s, r, answers[0]).value;
    AcceptedMeans(c, s, ex, s.codes[id], answers[0].now);
    if u.requests[r].SpoilCode? {
      Spoilt(c, u, r, answers[1..], t);
    } else {
      Authenticated(c, u, r, answers[1..], t);
      SameSecrets(c, s, u, s.codes[id].app, ex.clientSecret);
      SameGrants(c, s, u, t, id, s.codes[id], ex);
    }
  }

  /** An exchange that finds no row leaves the store alone; there is none with that prefix, or no code to look up. */
  lemma ExchangeMiss(c: Crypto, s: State, r: Id, ex: ExchangeRequest, answers: seq<Choice>, t: State)
    requires Completes(c, s, r, answers, t) && s.requests[r] == FindCode(ex)
    requires ex.rawCode == "" || answers == [] || answers[0].row == None
    ensures SameStore(s, t)
    ensures ex.rawCode != "" ==>
              forall id :: id in s.codes ==> s.codes[id].prefix != ex.rawCode[..Min(|ex.rawCode|, 8)]
  {
    OneCall(c, s, r, answers, t);
    NoCall(c, AdvanceStep(c, s, r, answers[0]).value, r, answers[1..], t);
    assert ex.rawCode != "" ==> forall id :: id in s.codes ==> !HasPrefix(s, id, Prefix(ex.rawCode));
  }

  /**
   * The outcomes exclude each other, so each tells which check decided: a
   * token comes into being if and only if every check passes, and the code
   * survives if and only if the resource alone is wrong.
   */
  lemma ExchangeSucceedsIff(c: Crypto, s: State, r: Id, ex: ExchangeRequest, id: Id, answers: seq<Choice>, t: State)
    requires StoreOk(s) && Completes(c, s, r, answers, t) && s.requests[r] == FindCode(ex)
    requires ex.rawCode != "" && |answers| > 0 && answers[0].row == Some(id)
    ensures id in s.codes
    ensures
      var row := s.codes[id];
      var accepted, resourceOk := CodeAccepted(c, s, ex, row, answers[0].now), row.resource == ex.resource;
      && (Granted(c, s, t, id, row, ex) <==> accepted && resourceOk)
      && ((exists k :: k in t.tokens && k !in s.tokens) <==> accepted && resourceOk)
      && (t.tokens == s.tokens <==> !(accepted && resourceOk))
      && (id in t.codes <==> accepted && !resourceOk)
  {
    ExchangeOutcome(c, s, r, ex, id, answers, t);
    var row := s.codes[id];
    if Granted(c, s, t, id, row, ex) {
      var k, token :| IsGrant(c, s, t, row, ex, k, token);
      assert k in t.tokens && k !in s.tokens;
    }
  }

  /** The code `id` is stored under the first eight bytes of `raw`. */
  ghost predicate FoundBy(s: State, id: Id, raw: string) {
    id in s.codes && s.codes[id].prefix == raw[..Min(|raw|, 8)]
  }

  /**
   * The exchange passes every check on the stored code `id`: it presents the
   * code, in time, as the client it was issued to, with the S256 preimage of
   * the challenge if there is one, the bound resource, and a secret of the app.
   */
  ghost predicate ExchangePasses(c: Crypto, s: State, ex: ExchangeRequest, id: Id, now: int) {
    && ex.rawCode != "" && FoundBy(s, id, ex.rawCode)
    && var row := s.codes[id];
    && now <= row.expires && c.sha256(ex.rawCode) == row.hash && row.app == ex.client
    && (row.challenge == "" || (ex.verifier != "" && c.base64(c.sha256(ex.verifier)) == row.challenge))
    && row.resource == ex.resource
    && exists k :: k in s.secrets && s.secrets[k].app == row.app && s.secrets[k].hash == c.sha256(ex.clientSecret)
  }

  /** In reachable states that is what the exchange checks. */
  lemma PassesMeans(c: Crypto, s: State, ex: ExchangeRequest, id: Id, now: int)
    requires Inv(c, s) && id in s.codes
    ensures ExchangePasses(c, s, ex, id, now) <==>
            && ex.rawCode != "" && FoundBy(s, id, ex.rawCode)
            && CodeAccepted(c, s, ex, s.codes[id], now) && s.codes[id].resource == ex.resource
  {
    var row := s.codes[id];
    assert row.challenge == "" || row.challengeMethod == "S256";
  }

  /**
   * The outcome of any exchange at all, found or not: where no two stored
   * codes share the prefix it looks up, it creates a token if and only if it
   * passes every check on some stored code.
   */
  lemma ExchangeCreatesIff(c: Crypto, s: State, r: Id, ex: ExchangeRequest, answers: seq<Choice>, t: State)
    requires Inv(c, s) && Completes(c, s, r, answers, t) && s.requests[r] == FindCode(ex)
    requires forall i, j :: FoundBy(s, i, ex.rawCode) && FoundBy(s, j, ex.rawCode) ==> i == j
    ensures answers != []
    ensures (exists k :: k in t.tokens && k !in s.tokens) <==>
            exists id :: ExchangePasses(c, s, ex, id, answers[0].now)
  {
    OneCall(c, s, r, answers, t);
    if ex.rawCode == "" || answers[0].row == None {
      ExchangeMiss(c, s, r, ex, answers, t);
    } else {
      var id := answers[0].row.value;
      ExchangeSucceedsIff(c, s, r, ex, id, answers, t);
      PassesMeans(c, s, ex, id, answers[0].now);
      assert FoundBy(s, id, ex.rawCode);
      if j :| ExchangePasses(c, s, ex, j, answers[0].now) {
        assert j == id;
      }
      if k :| k in t.tokens && k !in s.tokens {
        assert ExchangePasses(c, s, ex, id, answers[0].now);
      }
    }
  }

  /**
   * Where two stored codes do share the prefix, an exchange that passes on one
   * may be handed the other: it gets no token, and the other code is used up.
   */
  lemma SharedPrefixDenies(c: Crypto, s: State, r: Id, ex: ExchangeRequest, mine: Id, other: Id,
                           answers: seq<Choice>, t: State)
    requires Inv(c, s) && Completes(c, s, r, answers, t) && s.requests[r] == FindCode(ex)
    requires answers != [] && answers[0].row == Some(other) && ExchangePasses(c, s, ex, mine, answers[0].now)
    requires other in s.codes && s.codes[other].hash != s.codes[mine].hash
    ensures mine in t.codes && other !in t.codes && t.tokens == s.tokens
  {
    ExchangeOutcome(c, s, r, ex, other, answers, t);
  }

  lemma SameSecrets(c: Crypto, s: State, u: State, app: Id, clientSecret: string)
    requires u.secrets == s.secrets
    ensures HasSecret(c, u, app, clientSecret) <==> HasSecret(c, s, app, clientSecret)
  {
  }

  lemma SameGrants(c: Crypto, s: State, u: State, t: State, code: Id, row: Code, ex: ExchangeRequest)
    requires SameStore(s, u)
    ensures Granted(c, u, t, code, row, ex) ==> Granted(c, s, t, code, row, ex)
  {
    if Granted(c, u, t, code, row, ex) {
      var id, token :| IsGrant(c, u, t, row, ex, id, token);
      assert IsGrant(c, s, t, row, ex, id, token);
    }
  }

  // -------------------------------------------------------------------- refresh

  /** The checks refresh_token makes on a record that has not expired. */
  ghost predicate RefreshAllowed(c: Crypto, s: State, rf: RefreshRequest, record: Token) {
    && record.secret in s.secrets && s.secrets[record.secret].app == rf.client
    && (rf.resource == "" || rf.resource == record.audience)
    && HasSecret(c, s, rf.client, rf.clientSecret)
  }

  /** The old record has made way for `next`, which differs in its hash and expiry only. */
  ghost predicate IsSuccessor(s: State, t: State, gone: Id, record: Token, id: Id, next: Token) {
    && gone in s.tokens && id !in s.tokens && t.tokens == (s.tokens - {gone})[id := next]
    && next.secret == record.secret && next.user == record.user && next.audience == record.audience
  }

  ghost predicate Rotated(s: State, t: State, gone: Id, record: Token) {
    t.codes == s.codes && t.secrets == s.secrets &&
    exists id, next :: IsSuccessor(s, t, gone, record, id, next)
  }

  lemma Replaced(c: Crypto, s: State, r: Id, answers: seq<Choice>, t: State)
    requires StoreOk(s) && Completes(c, s, r, answers, t)
    requires s.requests[r].ConsumeToken? && s.requests[r].token in s.tokens
    ensures Rotated(s, t, s.requests[r].token, s.requests[r].record)
  {
    var q := s.requests[r];
    OneCall(c, s, r, answers, t);
    var u := AdvanceStep(c, s, r, answers[0]).value;
    OneCall(c, u, r, answers[1..], t);
    var v := AdvanceStep(c, u, r, answers[1]).value;
    Minted(c, v, r, answers[2..], t);
    var a := answers[3];
    assert IsSuccessor(s, t, q.token, q.record, a.id, q.record.(refreshHash := a.digest, expires := a.expires));
  }

  lemma Rechecked(c: Crypto, s: State, r: Id, answers: seq<Choice>, t: State)
    requires StoreOk(s) && Completes(c, s, r, answers, t)
    requires s.requests[r].FindSecret? && s.requests[r].token in s.tokens
    ensures
      var q := s.requests[r];
      if RefreshAllowed(c, s, q.rf, q.record) then Rotated(s, t, q.token, q.record) else SameStore(s, t)
  {
    OneCall(c, s, r, answers, t);
    var q, u := s.requests[r], AdvanceStep(c, s, r, answers[0]).value;
    if u.requests[r] == Finished {
      NoCall(c, u, r, answers[1..], t);
    } else {
      OneCall(c, u, r, answers[1..], t);
      var v := AdvanceStep(c, u, r, answers[1]).value;
      SecretFound(c, u, q.rf.client, q.rf.clientSecret);
      SameSecrets(c, s, u, q.rf.client, q.rf.clientSecret);
      if v.requests[r] == Finished {
        NoCall(c, v, r, answers[2..], t);
      } else {
        Replaced(c, v, r, answers[2..], t);
        SameSuccessors(s, v, t, q.token, q.record);
      }
    }
  }

  /**
   * The outcome of a refresh that found the record `id`, for every input: an
   * expired record is deleted; otherwise it is replaced by its successor exactly
   * when every check passes, and left alone when one fails.
   */
  lemma RefreshOutcome(c: Crypto, s: State, r: Id, rf: RefreshRequest, id: Id, answers: seq<Choice>, t: State)
    requires StoreOk(s) && Completes(c, s, r, answers, t) && s.requests[r] == FindToken(rf)
    requires rf.refreshToken != "" && |answers| > 0 && answers[0].row == Some(id)
    ensures id in s.tokens && s.tokens[id].refreshHash == c.sha256(rf.refreshToken)
    ensures
      var record := s.tokens[id];
      if record.expires < answers[0].now then
        t.tokens == s.tokens - {id} && t.codes == s.codes && t.secrets == s.secrets
      else if RefreshAllowed(c, s, rf, record) then Rotated(s, t, id, record)
      else SameStore(s, t)
  {
    OneCall(c, s, r, answers, t);
    var u := AdvanceStep(c, s, r, answers[0]).value;
    if u.requests[r].SpoilToken? {
      OneCall(c, u, r, answers[1..], t);
      NoCall(c, AdvanceStep(c, u, r, answers[1]).value, r, answers[2..], t);
    } else {
      Rechecked(c, u, r, answers[1..], t);
      SameSecrets(c, s, u, rf.client, rf.clientSecret);
      SameSuccessors(s, u, t, id, s.tokens[id]);
    }
  }

  /** Here too the outcomes exclude each other: a successor comes into being if and only if every check passes. */
  lemma RefreshSucceedsIff(c: Crypto, s: State, r: Id, rf: RefreshRequest, id: Id, answers: seq<Choice>, t: State)
    requires StoreOk(s) && Completes(c, s, r, answers, t) && s.requests[r] == FindToken(rf)
    requires rf.refreshToken != "" && |answers| > 0 && answers[0].row == Some(id)
    ensures id in s.tokens
    ensures
      var record := s.tokens[id];
      var expired, allowed := record.expires < answers[0].now, RefreshAllowed(c, s, rf, record);
      && (Rotated(s, t, id, record) <==> !expired && allowed)
      && ((exists k :: k in t.tokens && k !in s.tokens) <==> !expired && allowed)
      && (id in t.tokens <==> !expired && !allowed)
      && (t.tokens == s.tokens <==> !expired && !allowed)
  {
    RefreshOutcome(c, s, r, rf, id, answers, t);
    var record := s.tokens[id];
    if Rotated(s, t, id, record) {
      var k, next :| IsSuccessor(s, t, id, record, k, next);
      assert k in t.tokens && k !in s.tokens;
    }
  }

  /** A refresh that finds no record leaves the store alone; there is none with that digest, or nothing to look up. */
  lemma RefreshMiss(c: Crypto, s: State, r: Id, rf: RefreshRequest, answers: seq<Choice>, t: State)
    requires Completes(c, s, r, answers, t) && s.requests[r] == FindToken(rf)
    requires rf.refreshToken == "" || answers == [] || answers[0].row == None
    ensures SameStore(s, t)
    ensures rf.refreshToken != "" ==>
              forall id :: id in s.tokens ==> s.tokens[id].refreshHash != c.sha256(rf.refreshToken)
  {
    OneCall(c, s, r, answers, t);
    NoCall(c, AdvanceStep(c, s, r, answers[0]).value, r, answers[1..], t);
    assert rf.refreshToken != "" ==>
      forall id :: id in s.tokens ==> !HasRefreshHash(s, id, c.sha256(rf.refreshToken));
  }

  /** The refresh passes every check on the stored record `id`. */
  ghost predicate RefreshPasses(c: Crypto, s: State, rf: RefreshRequest, id: Id, now: int) {
    && rf.refreshToken != "" && HasDigest(s, id, c.sha256(rf.refreshToken))
    && var record := s.tokens[id];
    && record.expires >= now && (rf.resource == "" || rf.resource == record.audience)
    && record.secret in s.secrets && s.secrets[record.secret].app == rf.client
    && exists k :: k in s.secrets && s.secrets[k].app == rf.client && s.secrets[k].hash == c.sha256(rf.clientSecret)
  }

  /** The record `id` is stored under that digest of its refresh token. */
  ghost predicate HasDigest(s: State, id: Id, hash: Digest) {
    id in s.tokens && s.tokens[id].refreshHash == hash
  }

  /**
   * The outcome of any refresh at all, found or not: where no two stored
   * records share the digest it looks up, it creates a token if and only if it
   * passes every check on some stored record.
   */
  lemma RefreshCreatesIff(c: Crypto, s: State, r: Id, rf: RefreshRequest, answers: seq<Choice>, t: State)
    requires StoreOk(s) && Completes(c, s, r, answers, t) && s.requests[r] == FindToken(rf)
    requires
      var hash := c.sha256(rf.refreshToken);
      forall i, j :: HasDigest(s, i, hash) && HasDigest(s, j, hash) ==> i == j
    ensures answers != []
    ensures (exists k :: k in t.tokens && k !in s.tokens) <==>
            exists id :: RefreshPasses(c, s, rf, id, answers[0].now)
  {
    OneCall(c, s, r, answers, t);
    if rf.refreshToken == "" || answers[0].row == None {
      RefreshMiss(c, s, r, rf, answers, t);
    } else {
      var id := answers[0].row.value;
      RefreshSucceedsIff(c, s, r, rf, id, answers, t);
      assert HasDigest(s, id, c.sha256(rf.refreshToken));
      if j :| RefreshPasses(c, s, rf, j, answers[0].now) {
        assert j == id;
      }
      if k :| k in t.tokens && k !in s.tokens {
        assert RefreshPasses(c, s, rf, id, answers[0].now);
      }
    }
  }

  lemma SameSuccessors(s: State, u: State, t: State, gone: Id, record: Token)
    requires SameStore(s, u)
    ensures Rotated(u, t, gone, record) ==> Rotated(s, t, gone, record)
  {
    if Rotated(u, t, gone, record) {
      var id, next :| IsSuccessor(u, t, gone, record, id, next);
      assert IsSuccessor(s, t, gone, record, id, next);
    }
  }

  // ----------------------------------------------------------------- revocation

  /** A revocation removes exactly the tokens of that user under that app, and nothing else. */
  lemma RevocationOutcome(c: Crypto, s: State, r: Id, app: Id, user: Id, answers: seq<Choice>, t: State)
    requires Completes(c, s, r, answers, t) && s.requests[r] == ListTokens(app, user)
    ensures t.codes == s.codes && t.secrets == s.secrets
    ensures forall k :: k in t.tokens <==> k in s.tokens && !(s.tokens[k].user == user && UnderApp(s, s.tokens[k], app))
    ensures forall k :: k in t.tokens ==> t.tokens[k] == s.tokens[k]
  {
    OneCall(c, s, r, answers, t);
    var u := AdvanceStep(c, s, r, answers[0]).value;
    OneCall(c, u, r, answers[1..], t);
    var v := AdvanceStep(c, u, r, answers[1]).value;
    NoCall(c, v, r, answers[2..], t);
    assert forall k :: k in s.tokens ==> TokenOfApp(u, s.tokens[k], app) == UnderApp(s, s.tokens[k], app);
  }

  /** The record's secret is stored, and is a secret of that app. */
  ghost predicate UnderApp(s: State, record: Token, app: Id) {
    record.secret in s.secrets && s.secrets[record.secret].app == app
  }

  /** Deleting a secret takes its tokens along, and nothing else. */
  lemma SecretDeletion(c: Crypto, s: State, secret: Id)
    ensures Apply(c, s, DeleteSecret(secret)).Some?
    ensures
      var t := Apply(c, s, DeleteSecret(secret)).value;
      && t.codes == s.codes && t.secrets == s.secrets - {secret} && t.requests == s.requests
      && (forall k :: k in t.tokens <==> k in s.tokens && s.tokens[k].secret != secret)
      && (forall k :: k in t.tokens ==> t.tokens[k] == s.tokens[k])
  {
  }

  /** Deleting an app takes its secrets, codes and tokens along, and nothing of another app. */
  lemma AppDeletion(c: Crypto, s: State, app: Id)
    ensures Apply(c, s, DeleteApp(app)).Some?
    ensures
      var t := Apply(c, s, DeleteApp(app)).value;
      && (forall k :: k in t.secrets <==> k in s.secrets && s.secrets[k].app != app)
      && (forall k :: k in t.codes <==> k in s.codes && s.codes[k].app != app)
      && (forall k :: k in t.tokens <==> k in s.tokens && !UnderApp(s, s.tokens[k], app))
      && (forall k :: k in t.secrets ==> t.secrets[k] == s.secrets[k])
      && (forall k :: k in t.codes ==> t.codes[k] == s.codes[k])
      && (forall k :: k in t.tokens ==> t.tokens[k] == s.tokens[k])
  {
    assert forall k :: k in s.tokens ==> TokenOfApp(s, s.tokens[k], app) == UnderApp(s, s.tokens[k], app);
  }

  /** A new secret is stored as it is, and a new request starts at its first lookup, nothing else changing. */
  lemma BeginningsHappen(c: Crypto, s: State, id: Id, secret: Secret, r: Id, first: Request)
    ensures id !in s.past.registered ==> Apply(c, s, RegisterSecret(id, secret)).Some?
    ensures id !in s.past.registered ==>
              var t := Apply(c, s, RegisterSecret(id, secret)).value;
              t.secrets == s.secrets[id := secret] && t.codes == s.codes && t.tokens == s.tokens
    ensures r !in s.requests && (first.FindCode? || first.FindToken? || first.ListTokens?) ==>
              Apply(c, s, Begin(r, first)) == Some(s.(requests := s.requests[r := first]))
  {
  }

  // ------------------------------------------------------------------- a code's way

  /** A code may be minted exactly when it is new and has no challenge or an S256 one; it is good for ten minutes. */
  lemma MintOutcome(c: Crypto, s: State, id: Id, raw: string, now: int, o: Order)
    ensures
      var t := Apply(c, s, MintCode(id, raw, now, o));
      && (t.Some? <==> id !in s.past.minted && (o.challenge == "" || o.challengeMethod == "S256"))
      && (t.Some? ==>
            && t.value.tokens == s.tokens && t.value.secrets == s.secrets && t.value.requests == s.requests
            && t.value.codes == s.codes[id := Code(
                 o.app, o.user, raw[..Min(|raw|, 8)], c.sha256(raw), now + 600,
                 o.resource, o.challenge, o.challengeMethod)])
  {
    assert Prefix(raw) == raw[..Min(|raw|, 8)];
  }

  /**
   * From consent to token: a code that has just been minted is exchanged for a
   * token of its user and resource by whoever presents it within ten minutes
   * with the app's credentials, the resource and the verifier, no other stored
   * code starting with the same eight bytes.
   */
  lemma MintedCodeIsRedeemed(c: Crypto, s: State, id: Id, raw: string, now: int, o: Order,
                             r: Id, ex: ExchangeRequest, answers: seq<Choice>, t: State)
    requires Inv(c, s) && Apply(c, s, MintCode(id, raw, now, o)).Some?
    requires
      var u := Apply(c, s, MintCode(id, raw, now, o)).value;
      && Completes(c, u, r, answers, t) && u.requests[r] == FindCode(ex)
      && (forall k :: k != id ==> !FoundBy(u, k, raw))
    requires raw != "" && ex.rawCode == raw && ex.client == o.app && ex.resource == o.resource
    requires answers != [] ==> answers[0].now <= now + 600
    requires o.challenge != "" ==> ex.verifier != "" && c.base64(c.sha256(ex.verifier)) == o.challenge
    requires HasSecret(c, s, o.app, ex.clientSecret)
    ensures exists k ::
      k in t.tokens && k !in s.tokens && t.tokens[k].user == o.user && t.tokens[k].audience == o.resource
    ensures id !in t.codes
  {
    var u := Apply(c, s, MintCode(id, raw, now, o)).value;
    MintOutcome(c, s, id, raw, now, o);
    StepKept(c, s, MintCode(id, raw, now, o));
    SameSecrets(c, s, u, o.app, ex.clientSecret);
    OnlyOneFound(c, u, r, ex, id, answers, t);
    ExchangeOutcome(c, u, r, ex, id, answers, t);
    var k, token :| IsGrant(c, u, t, u.codes[id], ex, k, token);
    assert t.tokens[k] == token;
  }

  lemma OnlyOneFound(c: Crypto, s: State, r: Id, ex: ExchangeRequest, id: Id, answers: seq<Choice>, t: State)
    requires Completes(c, s, r, answers, t) && s.requests[r] == FindCode(ex)
    requires ex.rawCode != "" && FoundBy(s, id, ex.rawCode) && forall k :: k != id ==> !FoundBy(s, k, ex.rawCode)
    ensures answers != [] && answers[0].row == Some(id)
  {
    OneCall(c, s, r, answers, t);
    assert Prefix(ex.rawCode) == ex.rawCode[..Min(|ex.rawCode|, 8)];
    assert HasPrefix(s, id, Prefix(ex.rawCode));
    if answers[0].row.Some? {
      assert FoundBy(s, answers[0].row.value, ex.rawCode);
    }
  }

  // -------------------------------------------------------- requests can always finish

  /** How many store calls a request may still have to make. */
  function CallsLeft(q: Request): nat {
    match q
    case FindCode(_) => 5
    case ListSecrets(_, _, _, _) => 4
    case SpoilCode(_) => 1
    case ConsumeCode(_, _, _, _, _) => 3
    case FindToken(_) => 7
    case SpoilToken(_) => 1
    case FindSecret(_, _, _) => 6
    case ListOwnSecrets(_, _, _, _) => 5
    case ConsumeToken(_, _) => 4
    case DropOldKey(_) => 3
    case CreateKey(_) => 2
    case CreateRecord(_) => 1
    case ListTokens(_, _) => 2
    case DeleteTokens(_, _) => 1
    case Finished => 0
  }

  lemma CodeAnswer(c: Crypto, s: State, r: Id, ex: ExchangeRequest, ch: Choice) returns (found: Choice)
    requires ch.ok && ch.row == None
    ensures found == ch.(row := found.row) && FindCodeStep(c, s, r, ex, found).Some?
  {
    found := ch;
    if id :| id in s.codes && HasPrefix(s, id, Prefix(ex.rawCode)) {
      found := ch.(row := Some(id));
    }
  }

  lemma SecretAnswer(c: Crypto, s: State, r: Id, q: Request, ch: Choice) returns (found: Choice)
    requires q.ListSecrets? && ch.ok && ch.row == None
    ensures found == ch.(row := found.row) && ListSecretsStep(c, s, r, q, found).Some?
  {
    found := ch;
    if id :| id in s.secrets && MatchesSecret(c, s, id, q.row.app, q.ex.clientSecret) {
      found := ch.(row := Some(id));
    }
  }

  lemma TokenAnswer(c: Crypto, s: State, r: Id, rf: RefreshRequest, ch: Choice) returns (found: Choice)
    requires ch.ok && ch.row == None
    ensures found == ch.(row := found.row) && FindTokenStep(c, s, r, rf, found).Some?
  {
    found := ch;
    if id :| id in s.tokens && HasRefreshHash(s, id, c.sha256(rf.refreshToken)) {
      found := ch.(row := Some(id));
    }
  }

  lemma OtherAnswer(c: Crypto, s: State, r: Id, ch: Choice)
    requires r in s.requests && s.requests[r] != Finished && ch.ok && ch.id !in s.past.issued
    requires !s.requests[r].FindCode? && !s.requests[r].ListSecrets? && !s.requests[r].FindToken?
    requires s.requests[r].ConsumeToken? && s.requests[r].token in s.tokens ==> s.requests[r].token in s.past.origin
    ensures AdvanceStep(c, s, r, ch).Some?
  {
  }

  /** A working store always has an answer. */
  lemma HasAnswer(c: Crypto, s: State, r: Id, now: int) returns (ch: Choice)
    requires Inv(c, s) && r in s.requests && s.requests[r] != Finished
    ensures ch.ok && ch.now == now && AdvanceStep(c, s, r, ch).Some?
  {
    var unused := Above(s.past.issued.Keys);
    ch := Choice(None, now, true, false, unused, "", 0);
    match s.requests[r] {
      case FindCode(ex) => ch := CodeAnswer(c, s, r, ex, ch);
      case ListSecrets(_, _, _, _) => ch := SecretAnswer(c, s, r, s.requests[r], ch);
      case FindToken(rf) => ch := TokenAnswer(c, s, r, rf, ch);
      case _ => OtherAnswer(c, s, r, ch);
    }
  }

  /**
   * From every reachable state every request can run to its end on a working
   * store, whatever the clock says at its first call: the outcomes above are
   * outcomes of something.
   */
  lemma {:induction false} CanComplete(c: Crypto, s: State, r: Id, now: int) returns (answers: seq<Choice>, t: State)
    requires Inv(c, s) && r in s.requests
    ensures Completes(c, s, r, answers, t)
    ensures answers != [] ==> answers[0].now == now
    decreases CallsLeft(s.requests[r])
  {
    if s.requests[r] == Finished {
      answers, t := [], s;
    } else {
      var ch := HasAnswer(c, s, r, now);
      var u := AdvanceStep(c, s, r, ch).value;
      AdvanceKept(c, s, r, ch);
      LessToDo(c, s, r, ch);
      var later;
      later, t := CanComplete(c, u, r, now);
      answers := [ch] + later;
      assert answers[1..] == later;
    }
  }

  /** Where a request goes from a lookup. */
  lemma LessAfterLookup(c: Crypto, s: State, r: Id, ch: Choice)
    requires r in s.requests && AdvanceStep(c, s, r, ch).Some?
    requires var q := s.requests[r]; q.FindCode? || q.ListSecrets? || q.FindToken? || q.FindSecret?
    ensures
      var u := AdvanceStep(c, s, r, ch).value;
      r in u.requests && CallsLeft(u.requests[r]) < CallsLeft(s.requests[r])
  {
  }

  /** And from the calls that delete. */
  lemma LessAfterDelete(c: Crypto, s: State, r: Id, ch: Choice)
    requires r in s.requests && AdvanceStep(c, s, r, ch).Some?
    requires
      var q := s.requests[r];
      q.SpoilCode? || q.SpoilToken? || q.ConsumeCode? || q.ConsumeToken? || q.DeleteTokens?
    ensures
      var u := AdvanceStep(c, s, r, ch).value;
      r in u.requests && CallsLeft(u.requests[r]) < CallsLeft(s.requests[r])
  {
  }

  /** And from the rest. */
  lemma LessAfterOther(c: Crypto, s: State, r: Id, ch: Choice)
    requires r in s.requests && AdvanceStep(c, s, r, ch).Some?
    requires
      var q := s.requests[r];
      q.ListOwnSecrets? || q.DropOldKey? || q.CreateKey? || q.CreateRecord? || q.ListTokens? || q == Finished
    ensures
      var u := AdvanceStep(c, s, r, ch).value;
      r in u.requests && CallsLeft(u.requests[r]) < CallsLeft(s.requests[r])
  {
  }

  lemma LessToDo(c: Crypto, s: State, r: Id, ch: Choice)
    requires r in s.requests && AdvanceStep(c, s, r, ch).Some?
    ensures
      var u := AdvanceStep(c, s, r, ch).value;
      r in u.requests && CallsLeft(u.requests[r]) < CallsLeft(s.requests[r])
  {
    var q := s.requests[r];
    if q.FindCode? || q.ListSecrets? || q.FindToken? || q.FindSecret? {
      LessAfterLookup(c, s, r, ch);
    } else if q.SpoilCode? || q.SpoilToken? || q.ConsumeCode? || q.ConsumeToken? || q.DeleteTokens? {
      LessAfterDelete(c, s, r, ch);
    } else {
      LessAfterOther(c, s, r, ch);
    }
  }
}
