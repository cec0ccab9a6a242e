/** The stateless OAuth proxy of pkg/auth/oauth as a protocol over the ciphertexts it has issued.
    Sealing is symbolic: a string opens exactly when it decodes to bytes that the proxy has sealed. Both
    payloads are sealed under one key, without a tag, and decoded by field name. Strings are byte
    strings; those of a payload come back with U+FFFD for what is not UTF-8. The clock counts
    nanoseconds. */
module OAuth {
  import opened Strings
  import opened Utf8
  import opened Base64Url
  import opened Query

  type Instant = nat

  const SECOND: nat := 1_000_000_000
  const STATE_TTL: nat := 300 * SECOND
  const CODE_TTL: nat := 60 * SECOND
  const MAX_DURATION: int := 0x8000_0000_0000_0000 - 1
  const MIN_DURATION: int := -0x8000_0000_0000_0000

  // ---- Payloads and their JSON objects ----

  /** The JSON field names of the two payloads. */
  datatype Field =
    | RedirectUri | CodeChallenge | ClientId | ClientState | Timestamp
    | AccessToken | IdToken | RefreshToken | TokenType | ExpiresIn

  datatype Json = Text(s: string) | Number(n: int)

  type Object = map<Field, Json>

  datatype StatePayload = StatePayload(
    redirectURI: string, codeChallenge: string, clientID: string, clientState: string, timestamp: int)

  datatype AuthCodePayload = AuthCodePayload(
    accessToken: string, idToken: string, refreshToken: string, tokenType: string, expiresIn: int,
    codeChallenge: string, clientID: string, redirectURI: string, timestamp: int)

  function MarshalState(s: StatePayload): Object {
    map[RedirectUri := Text(s.redirectURI), CodeChallenge := Text(s.codeChallenge), ClientId := Text(s.clientID),
        ClientState := Text(s.clientState), Timestamp := Number(s.timestamp)]
  }

  function OmitEmpty(f: Field, s: string): Object { if s == "" then map[] else map[f := Text(s)] }

  function OmitZero(f: Field, n: int): Object { if n == 0 then map[] else map[f := Number(n)] }

  function MarshalCode(a: AuthCodePayload): Object {
    map[AccessToken := Text(a.accessToken), TokenType := Text(a.tokenType), CodeChallenge := Text(a.codeChallenge),
        ClientId := Text(a.clientID), RedirectUri := Text(a.redirectURI), Timestamp := Number(a.timestamp)]
    + OmitEmpty(IdToken, a.idToken) + OmitEmpty(RefreshToken, a.refreshToken) + OmitZero(ExpiresIn, a.expiresIn)
  }

  function CleanJson(v: Json): Json { if v.Text? then Text(Clean(v.s)) else v }

  /** An object after its passage through a JSON text. */
  function CleanObject(o: Object): Object { map f | f in o :: CleanJson(o[f]) }

  function SealedState(s: StatePayload): Object { CleanObject(MarshalState(s)) }

  function SealedCode(a: AuthCodePayload): Object { CleanObject(MarshalCode(a)) }

  function CleanState(s: StatePayload): StatePayload {
    StatePayload(Clean(s.redirectURI), Clean(s.codeChallenge), Clean(s.clientID), Clean(s.clientState), s.timestamp)
  }

  function CleanCode(a: AuthCodePayload): AuthCodePayload {
    AuthCodePayload(Clean(a.accessToken), Clean(a.idToken), Clean(a.refreshToken), Clean(a.tokenType), a.expiresIn,
                    Clean(a.codeChallenge), Clean(a.clientID), Clean(a.redirectURI), a.timestamp)
  }

  /** Decoding one field: an absent one keeps its zero value, one of the other kind is an error. */
  function TextAt(o: Object, f: Field): Option<string> {
    if f !in o then Some("") else if o[f].Text? then Some(o[f].s) else None
  }

  function NumberAt(o: Object, f: Field): Option<int> {
    if f !in o then Some(0) else if o[f].Number? then Some(o[f].n) else None
  }

  function UnmarshalState(o: Object): Option<StatePayload> {
    match (TextAt(o, RedirectUri), TextAt(o, CodeChallenge), TextAt(o, ClientId), TextAt(o, ClientState))
    case (Some(r), Some(c), Some(i), Some(s)) =>
      (match NumberAt(o, Timestamp)
       case Some(t) => Some(StatePayload(r, c, i, s, t))
       case None => None)
    case _ => None
  }

  function UnmarshalCode(o: Object): Option<AuthCodePayload> {
    match (TextAt(o, AccessToken), TextAt(o, IdToken), TextAt(o, RefreshToken), TextAt(o, TokenType))
    case (Some(a), Some(d), Some(f), Some(k)) =>
      (match (NumberAt(o, ExpiresIn), TextAt(o, CodeChallenge), TextAt(o, ClientId), TextAt(o, RedirectUri))
       case (Some(e), Some(c), Some(i), Some(r)) =>
         (match NumberAt(o, Timestamp)
          case Some(t) => Some(AuthCodePayload(a, d, f, k, e, c, i, r, t))
          case None => None)
       case _ => None)
    case _ => None
  }

  /** What an absent field reads as is clean already. */
  lemma CleanAt(o: Object, f: Field)
    ensures TextAt(CleanObject(o), f) == match TextAt(o, f) case None => None case Some(s) => Some(Clean(s))
    ensures NumberAt(CleanObject(o), f) == NumberAt(o, f)
  {
    CleanExactly("");
    hide Clean;
  }

  lemma CleanDecodes(o: Object)
    ensures UnmarshalState(CleanObject(o)) ==
        match UnmarshalState(o) case None => None case Some(s) => Some(CleanState(s))
    ensures UnmarshalCode(CleanObject(o)) == match UnmarshalCode(o) case None => None case Some(a) => Some(CleanCode(a))
  {
    forall f { CleanAt(o, f); }
    hide TextAt, NumberAt, CleanObject, Clean;
  }

  lemma CodeTexts(a: AuthCodePayload)
    ensures
      var o := MarshalCode(a);
      && TextAt(o, AccessToken) == Some(a.accessToken) && TextAt(o, TokenType) == Some(a.tokenType)
      && TextAt(o, IdToken) == Some(a.idToken) && TextAt(o, RefreshToken) == Some(a.refreshToken)
      && NumberAt(o, ExpiresIn) == Some(a.expiresIn)
  {
  }

  lemma CodeBindings(a: AuthCodePayload)
    ensures
      var o := MarshalCode(a);
      && TextAt(o, RedirectUri) == Some(a.redirectURI) && TextAt(o, CodeChallenge) == Some(a.codeChallenge)
      && TextAt(o, ClientId) == Some(a.clientID)
  {
  }

  lemma CodeOthers(a: AuthCodePayload)
    ensures TextAt(MarshalCode(a), ClientState) == Some("") && NumberAt(MarshalCode(a), Timestamp) == Some(a.timestamp)
  {
  }

  lemma DecodesRaw(s: StatePayload, a: AuthCodePayload)
    ensures UnmarshalState(MarshalState(s)) == Some(s)
    ensures UnmarshalCode(MarshalCode(a)) == Some(a)
    ensures UnmarshalState(MarshalCode(a)) ==
      Some(StatePayload(a.redirectURI, a.codeChallenge, a.clientID, "", a.timestamp))
    ensures UnmarshalCode(MarshalState(s)) ==
      Some(AuthCodePayload("", "", "", "", 0, s.codeChallenge, s.clientID, s.redirectURI, s.timestamp))
  {
    CodeTexts(a);
    CodeBindings(a);
    CodeOthers(a);
    StateAsCode(s);
    hide MarshalCode, MarshalState, TextAt, NumberAt;
  }

  lemma StateAsCode(s: StatePayload)
    ensures UnmarshalState(MarshalState(s)) == Some(s)
    ensures UnmarshalCode(MarshalState(s)) ==
      Some(AuthCodePayload("", "", "", "", 0, s.codeChallenge, s.clientID, s.redirectURI, s.timestamp))
  {
  }

  /** A sealed payload decodes to itself with its strings clean, and it decodes as the other kind too:
      the shared fields carry over, the missing ones are empty. */
  lemma DecodesAsBoth(s: StatePayload, a: AuthCodePayload)
    ensures UnmarshalState(SealedState(s)) == Some(CleanState(s))
    ensures UnmarshalCode(SealedCode(a)) == Some(CleanCode(a))
    ensures UnmarshalState(SealedCode(a)) ==
      Some(StatePayload(Clean(a.redirectURI), Clean(a.codeChallenge), Clean(a.clientID), "", a.timestamp))
    ensures UnmarshalCode(SealedState(s)) ==
      Some(AuthCodePayload("", "", "", "", 0, Clean(s.codeChallenge), Clean(s.clientID), Clean(s.redirectURI),
                           s.timestamp))
  {
    DecodesRaw(s, a);
    CleanDecodes(MarshalState(s));
    CleanDecodes(MarshalCode(a));
    CleanExactly("");
    hide MarshalState, MarshalCode, UnmarshalState, UnmarshalCode, Clean;
  }

  // ---- Time ----

  /** time.Now().Unix(): the whole seconds. */
  function Unix(now: Instant): nat { now / SECOND }

  predicate Expired(timestamp: int, now: Instant, ttl: nat) { now - timestamp * SECOND > ttl }

  /** A payload stamped at `at` is accepted up to ttl after the start of its second: always within
      ttl - 1 s, never beyond ttl. */
  lemma AcceptedFor(at: Instant, now: Instant, ttl: nat)
    ensures !Expired(Unix(at), now, ttl) <==> now <= at - at % 1_000_000_000 + ttl
    ensures now <= at + ttl - 1_000_000_000 + 1 ==> !Expired(Unix(at), now, ttl)
    ensures !Expired(Unix(at), now, ttl) ==> now <= at + ttl
  {
    assert Unix(at) * SECOND == at - at % SECOND;
  }

  /** time.Until, a saturating duration; a token without expiry has the zero time, long past. */
  function Until(expiry: Option<Instant>, now: Instant): int {
    match expiry
    case None => MIN_DURATION
    case Some(e) =>
      if e - now > MAX_DURATION then MAX_DURATION else if e - now < MIN_DURATION then MIN_DURATION else e - now
  }

  /** Truncated division by a second. */
  function Quotient(d: int): int { if d >= 0 then d / SECOND else -((-d) / SECOND) }

  function Truncate(x: real): int { if x >= 0.0 then x.Floor else -((-x).Floor) }

  const EXACT: int := 0x20_0000_0000_0000 // 2^53

  /** What is used of rounding to the nearest double: exact on integers up to 2^53, monotone, and a
      relative error of at most 2^-53 from a billionth on. */
  ghost predicate Rounds(round: real -> real) {
    && (forall x | -EXACT as real <= x <= EXACT as real && x == x.Floor as real :: round(x) == x)
    && (forall x, y | x <= y :: round(x) <= round(y))
    && (forall x | x >= 0.000000001 :: round(x) - x <= x / EXACT as real && x - round(x) <= x / EXACT as real)
  }

  /** int64(d.Seconds()): the seconds and the fraction are converted, divided and added in doubles. */
  function WholeSeconds(round: real -> real, d: int): int {
    var sec := Quotient(d);
    var fraction := round(round((d - sec * SECOND) as real) / 1000000000.0);
    Truncate(round(round(sec as real) + fraction))
  }

  // ---- The proxy and its requests ----

  datatype Url = Url(scheme: string, hostname: string, base: string, rawQuery: string, fragment: string)

  /** `hash` is base64url(SHA-256(.)) without padding, `parse` is url.Parse, `round` is rounding to a double. */
  datatype Proxy = Proxy(hash: string -> string, parse: string -> Option<Url>, round: real -> real)

  /** All characters are below 0x80. */
  predicate Ascii(s: string) { forall c | c in s :: c < 128 as char }

  /** url.Parse treats all bytes from 0x80 on alike. So when it accepts a string, it accepts it with
      U+FFFD for what is not UTF-8, with the same scheme and, where the host is ASCII, the same host. */
  ghost predicate ParsesClean(p: Proxy) {
    forall raw | p.parse(raw).Some? ::
      && p.parse(Clean(raw)).Some?
      && p.parse(Clean(raw)).value.scheme == p.parse(raw).value.scheme
      && (Ascii(p.parse(raw).value.hostname) ==> p.parse(Clean(raw)).value.hostname == p.parse(raw).value.hostname)
  }

  datatype AuthorizeRequest = AuthorizeRequest(
    responseType: string, clientID: string, redirectURI: string, state: string,
    codeChallenge: string, challengeMethod: string)

  datatype CallbackRequest = CallbackRequest(error: string, errorDescription: string, code: string, state: string)

  datatype TokenRequest = TokenRequest(
    grantType: string, code: string, redirectURI: string, clientID: string, codeVerifier: string)

  /** What the provider's token endpoint returns. */
  datatype Grant = Grant(
    accessToken: string, idToken: string, refreshToken: string, tokenType: string, expiry: Option<Instant>)

  datatype Response =
    | Failure(status: nat, error: string, description: string)
    | ToProvider(state: string)
    | ToClient(to: Url, query: Values)
    | TokenResponse(body: Object)
    | Forwarded

  /** How a ciphertext came to be: by an authorize request, or by a callback that opened an earlier
      one and got a grant. This is history and never read by the handlers. */
  datatype Origin = FromAuthorize(req: AuthorizeRequest) | FromCallback(parent: nat, grant: Grant)

  /** `cipher` is the sealed bytes, nonce first; `plain` is the object they open to. */
  datatype Entry = Entry(cipher: seq<Octet>, plain: Object, at: Instant, origin: Origin)

  datatype World = World(issued: seq<Entry>, now: Instant)

  datatype Reply = Reply(w: World, r: Response)

  /** The index of sealed bytes, the number of entries if they were not issued. */
  function Find(issued: seq<Entry>, b: seq<Octet>): (i: nat)
    ensures i <= |issued|
    ensures i < |issued| ==> issued[i].cipher == b
    ensures forall j | 0 <= j < i :: issued[j].cipher != b
  {
    if issued == [] || issued[0].cipher == b then 0 else 1 + Find(issued[1..], b)
  }

  /** The entry that a presented string stands for. Decoding skips line breaks and spare bits, so one
      entry has many spellings. */
  function Named(issued: seq<Entry>, c: string): (i: nat)
    ensures i <= |issued|
    ensures i < |issued| ==> DecodeString(c) == Some(issued[i].cipher)
  {
    match DecodeString(c)
    case None => |issued|
    case Some(b) => Find(issued, b)
  }

  /** decrypt: a string opens exactly when it decodes to issued bytes. */
  function Open(w: World, c: string): Option<Object> {
    var i := Named(w.issued, c);
    if i < |w.issued| then Some(w.issued[i].plain) else None
  }

  function DecryptState(w: World, c: string, now: Instant): Option<StatePayload> {
    match Open(w, c)
    case None => None
    case Some(o) =>
      match UnmarshalState(o)
      case None => None
      case Some(s) => if Expired(s.timestamp, now, STATE_TTL) then None else Some(s)
  }

  function DecryptAuthCode(w: World, c: string, now: Instant): Option<AuthCodePayload> {
    match Open(w, c)
    case None => None
    case Some(o) =>
      match UnmarshalCode(o)
      case None => None
      case Some(a) => if Expired(a.timestamp, now, CODE_TTL) then None else Some(a)
  }

  /** A loopback host, or https. */
  predicate Allowed(u: Url) {
    || u.hostname == "localhost" || u.hostname == "127.0.0.1" || u.hostname == "::1" || u.hostname == "[::1]"
    || u.scheme == "https"
  }

  predicate IsValidRedirectURI(p: Proxy, raw: string) {
    match p.parse(raw)
    case None => false
    case Some(u) => Allowed(u)
  }

  function InvalidRequest(description: string): Response { Failure(400, "invalid_request", description) }

  function InvalidGrant(description: string): Response { Failure(400, "invalid_grant", description) }

  function StateFor(req: AuthorizeRequest, now: Instant): StatePayload {
    StatePayload(req.redirectURI, req.codeChallenge, req.clientID, req.state, Unix(now))
  }

  /** handleAuthorize; `sealed` is the nonce and the ciphertext that encrypt makes. */
  function HandleAuthorize(p: Proxy, w: World, now: Instant, req: AuthorizeRequest, sealed: seq<Octet>): Reply {
    if req.responseType != "code" then Reply(w, InvalidRequest("response_type must be 'code'"))
    else if req.clientID == "" || req.redirectURI == "" || req.state == "" || req.codeChallenge == "" then
      Reply(w, InvalidRequest("missing required parameters"))
    else if req.challengeMethod != "S256" then Reply(w, InvalidRequest("code_challenge_method must be 'S256'"))
    else if !IsValidRedirectURI(p, req.redirectURI) then
      Reply(w, InvalidRequest("redirect_uri must be localhost or HTTPS"))
    else
      var e := Entry(sealed, SealedState(StateFor(req, now)), now, FromAuthorize(req));
      Reply(w.(issued := w.issued + [e]), ToProvider(EncodeToString(sealed)))
  }

  function CodeFor(p: Proxy, g: Grant, s: StatePayload, now: Instant): AuthCodePayload {
    AuthCodePayload(g.accessToken, g.idToken, g.refreshToken, g.tokenType, WholeSeconds(p.round, Until(g.expiry, now)),
                    s.codeChallenge, s.clientID, s.redirectURI, Unix(now))
  }

  /** handleCallback; `grant` is the outcome of the exchange with the provider. The code is sealed
      before the redirect URI is parsed. */
  function HandleCallback(p: Proxy, w: World, now: Instant, req: CallbackRequest, grant: Option<Grant>,
                          sealed: seq<Octet>): Reply
  {
    if req.error != "" then Reply(w, Failure(400, req.error, req.errorDescription))
    else if req.code == "" || req.state == "" then Reply(w, InvalidRequest("missing code or state"))
    else
      match DecryptState(w, req.state, now)
      case None => Reply(w, InvalidRequest("invalid or expired state"))
      case Some(s) =>
        match grant
        case None => Reply(w, Failure(502, "server_error", "failed to exchange authorization code with OIDC provider"))
        case Some(g) =>
          var e := Entry(sealed, SealedCode(CodeFor(p, g, s, now)), now, FromCallback(Named(w.issued, req.state), g));
          var w' := w.(issued := w.issued + [e]);
          match p.parse(s.redirectURI)
          case None => Reply(w', InvalidRequest("invalid redirect_uri"))
          case Some(u) => Reply(w', ToClient(u, WithCode(u.rawQuery, EncodeToString(sealed), s.clientState)))
  }

  /** pkce.go. */
  predicate VerifyCodeChallenge(p: Proxy, verifier: string, challenge: string) {
    verifier != "" && challenge != "" && p.hash(verifier) == challenge
  }

  function TokenBody(a: AuthCodePayload): Object {
    map[AccessToken := Text(a.accessToken), TokenType := Text(a.tokenType)]
    + (if a.expiresIn > 0 then map[ExpiresIn := Number(a.expiresIn)] else map[])
    + OmitEmpty(IdToken, a.idToken) + OmitEmpty(RefreshToken, a.refreshToken)
  }

  function HandleToken(p: Proxy, w: World, now: Instant, req: TokenRequest): Response {
    if req.grantType == "authorization_code" then HandleTokenAuthorizationCode(p, w, now, req)
    else if req.grantType == "refresh_token" then Forwarded
    else Failure(400, "unsupported_grant_type", "grant_type must be 'authorization_code' or 'refresh_token'")
  }

  function HandleTokenAuthorizationCode(p: Proxy, w: World, now: Instant, req: TokenRequest): Response {
    if req.code == "" || req.redirectURI == "" || req.clientID == "" || req.codeVerifier == "" then
      InvalidRequest("missing required parameters")
    else
      match DecryptAuthCode(w, req.code, now)
      case None => InvalidGrant("invalid or expired authorization code")
      case Some(a) =>
        if a.clientID != req.clientID then InvalidGrant("client_id mismatch")
        else if a.redirectURI != req.redirectURI then InvalidGrant("redirect_uri mismatch")
        else if !VerifyCodeChallenge(p, req.codeVerifier, a.codeChallenge) then InvalidGrant("PKCE verification failed")
        else TokenResponse(TokenBody(a))
  }

  // ---- Whole runs ----

  /** One request with the randomness and the provider's answer it meets. */
  datatype Call =
    | Authorize(areq: AuthorizeRequest, sealed: seq<Octet>)
    | Callback(creq: CallbackRequest, grant: Option<Grant>, sealed: seq<Octet>)
    | Token(treq: TokenRequest)

  function Serve(p: Proxy, w0: World, now: Instant, call: Call): Reply {
    var w := w0.(now := now);
    match call
    case Authorize(req, sealed) => HandleAuthorize(p, w, now, req, sealed)
    case Callback(req, grant, sealed) => HandleCallback(p, w, now, req, grant, sealed)
    case Token(req) => Reply(w, HandleToken(p, w, now, req))
  }

  ghost predicate Issued(w: World, b: seq<Octet>) { exists e :: e in w.issued && e.cipher == b }

  /** The clock does not go back and newly sealed bytes are unlike all before. */
  ghost predicate Legal(w: World, now: Instant, call: Call) {
    && w.now <= now
    && (!call.Token? ==> !Issued(w, call.sealed) && call.sealed != [])
  }

  /** The worlds that a sequence of requests leads to from w. */
  ghost predicate Leads(p: Proxy, w: World, calls: seq<(Instant, Call)>, w': World)
    decreases |calls|
  {
    if calls == [] then w' == w
    else
      && Legal(w, calls[0].0, calls[0].1)
      && Leads(p, Serve(p, w, calls[0].0, calls[0].1).w, calls[1..], w')
  }

  /** The worlds that a sequence of requests leads to from the start. */
  ghost predicate Reached(p: Proxy, calls: seq<(Instant, Call)>, w: World) {
    Leads(p, World([], 0), calls, w)
  }

  /** The requests that handleAuthorize accepts. */
  predicate Accepted(p: Proxy, req: AuthorizeRequest) {
    && req.responseType == "code"
    && req.clientID != "" && req.redirectURI != "" && req.state != "" && req.codeChallenge != ""
    && req.challengeMethod == "S256"
    && IsValidRedirectURI(p, req.redirectURI)
  }

  /** Every issued ciphertext, whatever it was meant for, is either the state of an accepted authorize
      request or carries a grant on from an earlier ciphertext that was at most a state's life old. */
  ghost predicate Good(p: Proxy, issued: seq<Entry>, i: nat)
    requires i < |issued|
  {
    var e := issued[i];
    match e.origin
    case FromAuthorize(req) => Accepted(p, req) && e.plain == SealedState(StateFor(req, e.at))
    case FromCallback(parent, g) =>
      && parent < i
      && UnmarshalState(issued[parent].plain).Some?
      && (var s := UnmarshalState(issued[parent].plain).value;
          && e.plain == SealedCode(CodeFor(p, g, s, e.at))
          && issued[parent].at <= e.at
          && !Expired(s.timestamp, e.at, STATE_TTL))
  }

  ghost predicate Inv(p: Proxy, w: World) {
    && (forall i: nat | i < |w.issued| :: Good(p, w.issued, i) && w.issued[i].at <= w.now)
    && (forall i, j | 0 <= i < j < |w.issued| :: w.issued[i].cipher != w.issued[j].cipher)
    && (forall i | 0 <= i < |w.issued| :: w.issued[i].cipher != [])
  }

  lemma GoodGrows(p: Proxy, issued: seq<Entry>, more: seq<Entry>, i: nat)
    requires i < |issued| && Good(p, issued, i)
    ensures Good(p, issued + more, i)
  {
  }

  lemma ExtendKeeps(p: Proxy, w: World, e: Entry)
    requires Inv(p, w) && w.now == e.at && !Issued(w, e.cipher) && e.cipher != []
    requires Good(p, w.issued + [e], |w.issued|)
    ensures Inv(p, w.(issued := w.issued + [e]))
  {
    hide Good;
    var w' := w.(issued := w.issued + [e]);
    forall i: nat | i < |w'.issued| ensures Good(p, w'.issued, i) && w'.issued[i].at <= w'.now {
      if i < |w.issued| { GoodGrows(p, w.issued, [e], i); }
    }
    forall i | 0 <= i < |w.issued| ensures w.issued[i].cipher != e.cipher {
      assert w.issued[i] in w.issued;
    }
  }

  lemma ServeKeeps(p: Proxy, w: World, now: Instant, call: Call)
    requires Inv(p, w) && Legal(w, now, call)
    ensures Inv(p, Serve(p, w, now, call).w) && Serve(p, w, now, call).w.now == now
    ensures w.issued <= Serve(p, w, now, call).w.issued
  {
    var w1 := w.(now := now);
    assert Inv(p, w1);
    var w' := Serve(p, w, now, call).w;
    match call
    case Token(_) =>
    case Authorize(_, _) => AuthorizeAdds(p, w1, now, call.areq, call.sealed);
    case Callback(_, _, _) => CallbackAdds(p, w1, now, call.creq, call.grant, call.sealed);
  }

  lemma AuthorizeAdds(p: Proxy, w: World, now: Instant, req: AuthorizeRequest, sealed: seq<Octet>)
    requires Inv(p, w) && w.now == now && !Issued(w, sealed) && sealed != []
    ensures Inv(p, HandleAuthorize(p, w, now, req, sealed).w)
    ensures HandleAuthorize(p, w, now, req, sealed).w.now == now
    ensures w.issued <= HandleAuthorize(p, w, now, req, sealed).w.issued
  {
    hide Inv, SealedState, IsValidRedirectURI, EncodeToString;
    if Accepted(p, req) {
      ExtendKeeps(p, w, Entry(sealed, SealedState(StateFor(req, now)), now, FromAuthorize(req)));
    }
  }

  lemma CallbackAdds(p: Proxy, w: World, now: Instant, req: CallbackRequest, grant: Option<Grant>, sealed: seq<Octet>)
    requires Inv(p, w) && w.now == now && !Issued(w, sealed) && sealed != []
    ensures Inv(p, HandleCallback(p, w, now, req, grant, sealed).w)
    ensures HandleCallback(p, w, now, req, grant, sealed).w.now == now
    ensures w.issued <= HandleCallback(p, w, now, req, grant, sealed).w.issued
  {
    hide SealedCode, UnmarshalState, CodeFor, Expired, WithCode, Good, EncodeToString, DecodeString;
    if DecryptState(w, req.state, now).Some? && grant.Some? {
      var s, g, parent := DecryptState(w, req.state, now).value, grant.value, Named(w.issued, req.state);
      var e := Entry(sealed, SealedCode(CodeFor(p, g, s, now)), now, FromCallback(parent, g));
      CarriesOn(p, w, parent, s, e, g);
      ExtendKeeps(p, w, e);
    }
  }

  lemma CarriesOn(p: Proxy, w: World, parent: nat, s: StatePayload, e: Entry, g: Grant)
    requires parent < |w.issued| && UnmarshalState(w.issued[parent].plain) == Some(s)
    requires !Expired(s.timestamp, e.at, STATE_TTL) && w.issued[parent].at <= e.at
    requires e.origin == FromCallback(parent, g) && e.plain == SealedCode(CodeFor(p, g, s, e.at))
    ensures Good(p, w.issued + [e], |w.issued|)
  {
    hide SealedCode, UnmarshalState, CodeFor, Expired;
  }

  lemma {:induction false} LeadsKeeps(p: Proxy, w: World, calls: seq<(Instant, Call)>, w': World)
    requires Inv(p, w) && Leads(p, w, calls, w')
    ensures Inv(p, w') && w.issued <= w'.issued && w.now <= w'.now
    decreases |calls|
  {
    hide Inv, Serve;
    if calls != [] {
      ServeKeeps(p, w, calls[0].0, calls[0].1);
      LeadsKeeps(p, Serve(p, w, calls[0].0, calls[0].1).w, calls[1..], w');
    }
  }

  /** Whatever the requests, every issued ciphertext is good. */
  lemma ReachedInv(p: Proxy, calls: seq<(Instant, Call)>, w: World)
    requires Reached(p, calls, w)
    ensures Inv(p, w)
  {
    LeadsKeeps(p, World([], 0), calls, w);
  }

  // ---- Tracing a ciphertext back ----

  /** The authorize entry at the start of a chain of callbacks. */
  function Root(issued: seq<Entry>, i: nat): (r: nat)
    requires i < |issued|
    ensures r <= i
  {
    match issued[i].origin
    case FromAuthorize(_) => i
    case FromCallback(parent, _) => if parent < i then Root(issued, parent) else i
  }

  /** The number of callbacks in the chain. */
  function Hops(issued: seq<Entry>, i: nat): nat
    requires i < |issued|
  {
    match issued[i].origin
    case FromAuthorize(_) => 0
    case FromCallback(parent, _) => if parent < i then 1 + Hops(issued, parent) else 0
  }

  /** A ciphertext carries the client, redirect URI and challenge of the authorize request at the
      start of its chain, and is at most a state's life for each callback younger than it. */
  ghost predicate Traced(p: Proxy, issued: seq<Entry>, i: nat)
    requires i < |issued|
  {
    var r := Root(issued, i);
    var s := UnmarshalState(issued[i].plain);
    && issued[r].origin.FromAuthorize?
    && Accepted(p, issued[r].origin.req)
    && s.Some? && s.value.timestamp == Unix(issued[i].at)
    && s.value.clientID == Clean(issued[r].origin.req.clientID)
    && s.value.redirectURI == Clean(issued[r].origin.req.redirectURI)
    && s.value.codeChallenge == Clean(issued[r].origin.req.codeChallenge)
    && issued[r].at <= issued[i].at <= issued[r].at + Hops(issued, i) * 300_000_000_000
  }

  lemma {:induction false} TraceBack(p: Proxy, issued: seq<Entry>, i: nat)
    requires i < |issued| && forall j: nat | j <= i :: Good(p, issued, j)
    ensures Traced(p, issued, i)
  {
    hide SealedState, SealedCode, UnmarshalState, UnmarshalCode, Clean, WholeSeconds, Expired, IsValidRedirectURI;
    assert Good(p, issued, i);
    var e := issued[i];
    match e.origin
    case FromAuthorize(req) =>
      AsState(StateFor(req, e.at));
    case FromCallback(parent, g) =>
      TraceBack(p, issued, parent);
      var s := UnmarshalState(issued[parent].plain).value;
      var req := issued[Root(issued, parent)].origin.req;
      AsStateFromCode(CodeFor(p, g, s, e.at));
      CleanExactly(req.clientID); CleanExactly(req.redirectURI); CleanExactly(req.codeChallenge);
      AcceptedFor(issued[parent].at, e.at, STATE_TTL);
      assert (1 + Hops(issued, parent)) * STATE_TTL == STATE_TTL + Hops(issued, parent) * STATE_TTL;
  }

  lemma AsState(s: StatePayload)
    ensures UnmarshalState(SealedState(s)) == Some(CleanState(s))
    ensures UnmarshalCode(SealedState(s)) ==
      Some(AuthCodePayload("", "", "", "", 0, Clean(s.codeChallenge), Clean(s.clientID), Clean(s.redirectURI),
                           s.timestamp))
  {
    DecodesAsBoth(s, AuthCodePayload("", "", "", "", 0, "", "", "", 0));
  }

  lemma AsStateFromCode(a: AuthCodePayload)
    ensures UnmarshalState(SealedCode(a)) ==
      Some(StatePayload(Clean(a.redirectURI), Clean(a.codeChallenge), Clean(a.clientID), "", a.timestamp))
    ensures UnmarshalCode(SealedCode(a)) == Some(CleanCode(a))
  {
    DecodesAsBoth(StatePayload("", "", "", "", 0), a);
  }

  /** A string that opens stands for some issued entry. */
  lemma Opened(p: Proxy, w: World, c: string) returns (i: nat)
    requires Inv(p, w) && Open(w, c).Some?
    ensures i < |w.issued| && DecodeString(c) == Some(w.issued[i].cipher) && i == Named(w.issued, c)
    ensures Open(w, c).value == w.issued[i].plain
    ensures Traced(p, w.issued, i) && w.issued[i].at <= w.now
  {
    hide Good, Traced, DecodeString;
    i := Named(w.issued, c);
    TraceBack(p, w.issued, i);
  }

  /** The redirect goes to the URI of the accepted request that entry i traces back to, with the proxy's
      spelling of the code, for a first callback with the client's state, and within a state's life for
      each callback of that request. */
  ghost predicate RedirectTraced(p: Proxy, w: World, now: Instant, i: nat, r: Response, sealed: seq<Octet>)
    requires i < |w.issued|
  {
    var root := w.issued[Root(w.issued, i)];
    && r.ToClient? && root.origin.FromAuthorize? && Accepted(p, root.origin.req)
    && Some(r.to) == p.parse(Clean(root.origin.req.redirectURI))
    && Lookup(r.query, "code") == [EncodeToString(sealed)]
    && (i == Root(w.issued, i) ==> Lookup(r.query, "state") == [Clean(root.origin.req.state)])
    && now <= root.at + (Hops(w.issued, i) + 1) * 300_000_000_000
  }

  /** The new code is bound to the client, URI and challenge of that request. */
  ghost predicate CodeTraced(p: Proxy, w: World, now: Instant, i: nat, w': World, g: Grant, sealed: seq<Octet>)
    requires i < |w.issued|
  {
    var origin := w.issued[Root(w.issued, i)].origin;
    && origin.FromAuthorize?
    && |w'.issued| == |w.issued| + 1
    && var code := w'.issued[|w.issued|];
    && code.cipher == sealed
    && code.plain == SealedCode(CodeFor(p, g,
         StatePayload(Clean(origin.req.redirectURI), Clean(origin.req.codeChallenge), Clean(origin.req.clientID),
                      "", 0),
         now))
  }

  /** Every redirect back to a client, in any run: the state presented decodes to an issued ciphertext
      whose chain starts at an accepted authorize request. The redirect goes to that request's URI,
      carries a code bound to the same client, URI and challenge, and comes within a state's life for
      each callback of that request. */
  lemma CallbackTraces(p: Proxy, calls: seq<(Instant, Call)>, w: World, now: Instant,
                       req: CallbackRequest, grant: Option<Grant>, sealed: seq<Octet>) returns (i: nat)
    requires Reached(p, calls, w) && Legal(w, now, Callback(req, grant, sealed))
    requires Serve(p, w, now, Callback(req, grant, sealed)).r.ToClient?
    ensures i < |w.issued| && DecodeString(req.state) == Some(w.issued[i].cipher)
    ensures RedirectTraced(p, w, now, i, Serve(p, w, now, Callback(req, grant, sealed)).r, sealed)
    ensures grant.Some?
    ensures CodeTraced(p, w, now, i, Serve(p, w, now, Callback(req, grant, sealed)).w, grant.value, sealed)
  {
    hide Good, IsValidRedirectURI, SealedState, SealedCode, UnmarshalState, Expired, WithCode, CodeFor, Serve;
    hide DecryptState, Clean, EncodeToString, DecodeString;
    ReachedInv(p, calls, w);
    var s := CallbackShape(p, w, now, req, grant, sealed);
    i := Opened(p, w, req.state);
    var parsed := p.parse(s.redirectURI).value;
    WithCodeSets(parsed.rawQuery, EncodeToString(sealed), s.clientState);
    SameCode(p, grant.value, s, now);
    AcceptedFor(w.issued[i].at, now, STATE_TTL);
    if i == Root(w.issued, i) { RootState(p, w, i); }
  }

  /** The client that parses the query of its redirect finds exactly the proxy's spelling of the code,
      and for a first callback its own state. */
  lemma ClientReceives(p: Proxy, calls: seq<(Instant, Call)>, w: World, now: Instant,
                       req: CallbackRequest, grant: Option<Grant>, sealed: seq<Octet>) returns (i: nat)
    requires Reached(p, calls, w) && Legal(w, now, Callback(req, grant, sealed))
    requires Serve(p, w, now, Callback(req, grant, sealed)).r.ToClient?
    requires Bytes(Serve(p, w, now, Callback(req, grant, sealed)).r.to.rawQuery)
    ensures i < |w.issued| && DecodeString(req.state) == Some(w.issued[i].cipher)
    ensures
      var r := Serve(p, w, now, Callback(req, grant, sealed)).r;
      var received := ParseQuery(Query.Encode(r.query));
      && Lookup(received, "code") == [EncodeToString(sealed)]
      && (w.issued[i].origin.FromAuthorize? ==> Lookup(received, "state") == [Clean(w.issued[i].origin.req.state)])
      && forall k | k != "code" && k != "state" :: Lookup(received, k) == Lookup(ParseQuery(r.to.rawQuery), k)
  {
    hide Good, SealedState, SealedCode, UnmarshalState, WithCode, CodeFor, Serve, Clean, EncodeToString, DecodeString;
    hide Bytes, ParseQuery, Lookup, Query.Encode, Inv;
    ReachedInv(p, calls, w);
    var s := CallbackShape(p, w, now, req, grant, sealed);
    i := Opened(p, w, req.state);
    if w.issued[i].origin.FromAuthorize? { RootState(p, w, i); }
    assert Bytes(s.clientState) by { StateBytes(p, w, i); }
    EncodedBytes(sealed);
    var query := Serve(p, w, now, Callback(req, grant, sealed)).r.to.rawQuery;
    RedirectRoundTrip(query, EncodeToString(sealed), s.clientState);
  }

  /** The client state that a ciphertext carries is a byte string. */
  lemma StateBytes(p: Proxy, w: World, i: nat)
    requires Inv(p, w) && i < |w.issued|
    ensures UnmarshalState(w.issued[i].plain).Some? && Bytes(UnmarshalState(w.issued[i].plain).value.clientState)
  {
    hide UnmarshalState, SealedState, SealedCode, CodeFor, Expired, Accepted;
    assert Good(p, w.issued, i);
    var e := w.issued[i];
    match e.origin
    case FromAuthorize(req) =>
      AsState(StateFor(req, e.at));
      EncodeBytes(Runes(req.state));
    case FromCallback(parent, g) =>
      AsStateFromCode(CodeFor(p, g, UnmarshalState(w.issued[parent].plain).value, e.at));
  }

  /** The parts of an accepted callback. */
  lemma CallbackShape(p: Proxy, w: World, now: Instant, req: CallbackRequest, grant: Option<Grant>, sealed: seq<Octet>)
    returns (s: StatePayload)
    requires Serve(p, w, now, Callback(req, grant, sealed)).r.ToClient?
    ensures Open(w, req.state).Some? && UnmarshalState(Open(w, req.state).value) == Some(s)
    ensures !Expired(s.timestamp, now, STATE_TTL) && grant.Some? && p.parse(s.redirectURI).Some?
    ensures
      var reply := Serve(p, w, now, Callback(req, grant, sealed));
      && reply.r.to == p.parse(s.redirectURI).value
      && reply.r.query == WithCode(reply.r.to.rawQuery, EncodeToString(sealed), s.clientState)
      && |reply.w.issued| == |w.issued| + 1
      && reply.w.issued[|w.issued|].cipher == sealed
      && reply.w.issued[|w.issued|].plain == SealedCode(CodeFor(p, grant.value, s, now))
  {
    hide SealedCode, CodeFor, WithCode, UnmarshalState, Expired, EncodeToString, DecodeString;
    var w1 := w.(now := now);
    assert Open(w1, req.state) == Open(w, req.state);
    s := DecryptState(w1, req.state, now).value;
  }

  /** A code depends on the client, URI and challenge of the state it continues, and on nothing else. */
  lemma SameCode(p: Proxy, g: Grant, s: StatePayload, now: Instant)
    ensures CodeFor(p, g, s, now) == CodeFor(p, g, StatePayload(s.redirectURI, s.codeChallenge, s.clientID, "", 0), now)
  {
  }

  lemma RootState(p: Proxy, w: World, i: nat)
    requires Inv(p, w) && i < |w.issued| && w.issued[i].origin.FromAuthorize?
    ensures UnmarshalState(w.issued[i].plain) == Some(CleanState(StateFor(w.issued[i].origin.req, w.issued[i].at)))
  {
    hide UnmarshalState, SealedState, CleanState;
    assert Good(p, w.issued, i);
    AsState(StateFor(w.issued[i].origin.req, w.issued[i].at));
  }

  /** The branch for an unparsable redirect URI is never taken. */
  lemma RedirectAlwaysParses(p: Proxy, calls: seq<(Instant, Call)>, w: World, now: Instant,
                             req: CallbackRequest, grant: Option<Grant>, sealed: seq<Octet>)
    requires Reached(p, calls, w) && Legal(w, now, Callback(req, grant, sealed)) && req.error == "" && ParsesClean(p)
    ensures Serve(p, w, now, Callback(req, grant, sealed)).r != InvalidRequest("invalid redirect_uri")
  {
    hide Good, SealedState, SealedCode, UnmarshalState, Expired, WithCode, ParsesClean, Clean, EncodeToString;
    hide DecodeString;
    ReachedInv(p, calls, w);
    var w1 := w.(now := now);
    if DecryptState(w1, req.state, now).Some? {
      var i := Opened(p, w, req.state);
      assert Open(w1, req.state) == Open(w, req.state);
      RootParses(p, w, i);
    }
    assert "missing code or state" != "invalid redirect_uri";
    assert "invalid or expired state" != "invalid redirect_uri";
  }

  /** What is accepted stays accepted after the passage. */
  lemma StaysAllowed(p: Proxy, raw: string)
    requires ParsesClean(p) && IsValidRedirectURI(p, raw)
    ensures IsValidRedirectURI(p, Clean(raw))
  {
    hide Clean;
    var u := p.parse(raw).value;
    if u.scheme != "https" { assert Ascii(u.hostname); }
  }

  /** Every redirect back to a client, in any run, goes to a loopback host or by https. */
  lemma RedirectAllowed(p: Proxy, calls: seq<(Instant, Call)>, w: World, now: Instant,
                        req: CallbackRequest, grant: Option<Grant>, sealed: seq<Octet>)
    requires Reached(p, calls, w) && Legal(w, now, Callback(req, grant, sealed)) && ParsesClean(p)
    requires Serve(p, w, now, Callback(req, grant, sealed)).r.ToClient?
    ensures
      var u := Serve(p, w, now, Callback(req, grant, sealed)).r.to;
      u.hostname in {"localhost", "127.0.0.1", "::1", "[::1]"} || u.scheme == "https"
  {
    hide *;
    var i := CallbackTraces(p, calls, w, now, req, grant, sealed);
    var r := Serve(p, w, now, Callback(req, grant, sealed)).r;
    var raw := TracedTarget(p, w, now, i, r, sealed);
    StaysAllowed(p, raw);
    AllowedMeans(p, Clean(raw));
  }

  lemma AllowedMeans(p: Proxy, raw: string)
    ensures IsValidRedirectURI(p, raw) <==>
      && p.parse(raw).Some?
      && var u := p.parse(raw).value;
         u.hostname in {"localhost", "127.0.0.1", "::1", "[::1]"} || u.scheme == "https"
  {
  }

  lemma TracedTarget(p: Proxy, w: World, now: Instant, i: nat, r: Response, sealed: seq<Octet>) returns (raw: string)
    requires i < |w.issued| && RedirectTraced(p, w, now, i, r, sealed)
    ensures r.ToClient? && IsValidRedirectURI(p, raw) && p.parse(Clean(raw)) == Some(r.to)
  {
    hide Clean, Lookup, Hops, IsValidRedirectURI;
    raw := w.issued[Root(w.issued, i)].origin.req.redirectURI;
  }

  lemma RootParses(p: Proxy, w: World, i: nat)
    requires i < |w.issued| && Traced(p, w.issued, i) && ParsesClean(p)
    ensures p.parse(UnmarshalState(w.issued[i].plain).value.redirectURI).Some?
  {
    hide Clean, UnmarshalState;
  }

  /** Entry i traces back to an accepted request for the client, URI and verifier of the token request,
      recently enough, and tokens that are there are the grant of the exchange that minted entry i. */
  ghost predicate TokensTraced(p: Proxy, w: World, now: Instant, i: nat, req: TokenRequest, body: Object)
    requires i < |w.issued|
  {
    var root := w.issued[Root(w.issued, i)];
    && root.origin.FromAuthorize? && Accepted(p, root.origin.req)
    && Clean(root.origin.req.clientID) == req.clientID
    && Clean(root.origin.req.redirectURI) == req.redirectURI
    && Clean(root.origin.req.codeChallenge) == p.hash(req.codeVerifier)
    && root.at <= now <= root.at + Hops(w.issued, i) * 300_000_000_000 + 60_000_000_000
    && (TextAt(body, AccessToken) != Some("") ==>
          && w.issued[i].origin.FromCallback?
          && Hops(w.issued, i) >= 1
          && body == GrantBody(p, w.issued[i].origin.grant, w.issued[i].at))
  }

  /** Every token response, in any run: the code presented decodes to an issued ciphertext whose chain
      starts at an accepted authorize request for the same client, redirect URI and challenge, the
      verifier hashes to that challenge, and the response comes within 300 s for each callback plus
      60 s of that request. Unless its access token is empty, the code was minted by a callback and the
      response is the grant of that callback's exchange. */
  lemma TokenTraces(p: Proxy, calls: seq<(Instant, Call)>, w: World, now: Instant, req: TokenRequest) returns (i: nat)
    requires Reached(p, calls, w) && Legal(w, now, Token(req))
    requires Serve(p, w, now, Token(req)).r.TokenResponse?
    ensures i < |w.issued| && DecodeString(req.code) == Some(w.issued[i].cipher)
    ensures TokensTraced(p, w, now, i, req, Serve(p, w, now, Token(req)).r.body)
  {
    hide Good, IsValidRedirectURI, SealedState, SealedCode, UnmarshalState, UnmarshalCode, Expired, Serve, TokenBody;
    hide Clean, DecodeString;
    ReachedInv(p, calls, w);
    var a := TokenShape(p, w, now, req);
    i := Opened(p, w, req.code);
    var e := w.issued[i];
    CodeOf(p, w, i);
    TokenText(a);
    AcceptedFor(e.at, now, CODE_TTL);
  }

  lemma TokenText(a: AuthCodePayload)
    ensures TextAt(TokenBody(a), AccessToken) == Some(a.accessToken)
  {
  }

  /** The parts of an answered token request. */
  lemma TokenShape(p: Proxy, w: World, now: Instant, req: TokenRequest) returns (a: AuthCodePayload)
    requires Serve(p, w, now, Token(req)).r.TokenResponse?
    ensures Open(w, req.code).Some? && UnmarshalCode(Open(w, req.code).value) == Some(a)
    ensures !Expired(a.timestamp, now, CODE_TTL)
    ensures a.clientID == req.clientID && a.redirectURI == req.redirectURI
    ensures a.codeChallenge == p.hash(req.codeVerifier)
    ensures Serve(p, w, now, Token(req)).r.body == TokenBody(a)
  {
    hide UnmarshalCode, Expired, TokenBody, DecodeString;
    var w1 := w.(now := now);
    assert Open(w1, req.code) == Open(w, req.code);
    a := DecryptAuthCode(w1, req.code, now).value;
  }

  /** The token response for a grant whose code was sealed at a given time. */
  function GrantBody(p: Proxy, g: Grant, at: Instant): Object {
    TokenBody(CleanCode(CodeFor(p, g, StatePayload("", "", "", "", 0), at)))
  }

  /** What an issued ciphertext decodes to as a code. */
  lemma CodeOf(p: Proxy, w: World, i: nat)
    requires Inv(p, w) && i < |w.issued|
    ensures Traced(p, w.issued, i)
    ensures
      var e := w.issued[i];
      var c := UnmarshalCode(e.plain);
      var s := UnmarshalState(e.plain);
      && c.Some? && s.Some?
      && c.value.clientID == s.value.clientID && c.value.redirectURI == s.value.redirectURI
      && c.value.codeChallenge == s.value.codeChallenge && c.value.timestamp == s.value.timestamp
      && (e.origin.FromAuthorize? ==> c.value.accessToken == "")
      && (e.origin.FromCallback? ==> TokenBody(c.value) == GrantBody(p, e.origin.grant, e.at) && Hops(w.issued, i) >= 1)
  {
    hide IsValidRedirectURI, SealedState, SealedCode, UnmarshalState, UnmarshalCode, Expired, Clean, WholeSeconds;
    TraceBack(p, w.issued, i);
    assert Good(p, w.issued, i);
    var e := w.issued[i];
    match e.origin
    case FromAuthorize(req) => AsState(StateFor(req, e.at));
    case FromCallback(parent, g) =>
      var s := UnmarshalState(w.issued[parent].plain).value;
      AsStateFromCode(CodeFor(p, g, s, e.at));
  }

  // ---- The honest flow ----

  lemma FindIssued(p: Proxy, w: World, i: nat)
    requires Inv(p, w) && i < |w.issued|
    ensures Find(w.issued, w.issued[i].cipher) == i
  {
    hide Good;
  }

  /** The proxy's own spelling of a ciphertext stands for it. */
  lemma NamedIssued(p: Proxy, w: World, i: nat)
    requires Inv(p, w) && i < |w.issued|
    ensures Named(w.issued, EncodeToString(w.issued[i].cipher)) == i
    ensures EncodeToString(w.issued[i].cipher) != ""
  {
    hide Inv;
    FindIssued(p, w, i);
    DecodeEncode(w.issued[i].cipher);
    NotEmpty(p, w, i);
  }

  lemma NotEmpty(p: Proxy, w: World, i: nat)
    requires Inv(p, w) && i < |w.issued|
    ensures EncodeToString(w.issued[i].cipher) != ""
  {
    hide Good;
    assert w.issued[i].cipher != [];
  }

  /** An accepted authorize request, a callback with its state at most 299 s later, and a token request
      with its code at most 59 s after that, with any other requests in between: the first goes to the
      provider, the second back to the client with the code and the client's state, and the third gets
      exactly the provider's grant. Strings that are valid UTF-8 come through unchanged. */
  lemma HonestFlow(p: Proxy, before: seq<(Instant, Call)>, w0: World,
                   t0: Instant, areq: AuthorizeRequest, c1: seq<Octet>, between: seq<(Instant, Call)>, w1: World,
                   t1: Instant, creq: CallbackRequest, g: Grant, c2: seq<Octet>, after: seq<(Instant, Call)>, w2: World,
                   t2: Instant, treq: TokenRequest)
    requires ParsesClean(p)
    requires Reached(p, before, w0) && Legal(w0, t0, Authorize(areq, c1)) && Accepted(p, areq)
    requires Leads(p, Serve(p, w0, t0, Authorize(areq, c1)).w, between, w1)
    requires Legal(w1, t1, Callback(creq, Some(g), c2)) && t1 <= t0 + 299_000_000_000
    requires creq.error == "" && creq.code != "" && creq.state == EncodeToString(c1)
    requires Leads(p, Serve(p, w1, t1, Callback(creq, Some(g), c2)).w, after, w2)
    requires Legal(w2, t2, Token(treq)) && t2 <= t1 + 59_000_000_000
    requires treq.code == EncodeToString(c2) && Answers(p, treq, areq)
    ensures Serve(p, w0, t0, Authorize(areq, c1)).r == ToProvider(EncodeToString(c1))
    ensures
      var u := p.parse(Clean(areq.redirectURI));
      && u.Some?
      && Serve(p, w1, t1, Callback(creq, Some(g), c2)).r ==
           ToClient(u.value, WithCode(u.value.rawQuery, EncodeToString(c2), Clean(areq.state)))
    ensures Serve(p, w2, t2, Token(treq)).r == TokenResponse(GrantBody(p, g, t1))
  {
    hide EncodeToString, Serve, Clean, Inv, Accepted, ParsesClean;
    ReachedInv(p, before, w0);
    var r0 := Serve(p, w0, t0, Authorize(areq, c1));
    ServeKeeps(p, w0, t0, Authorize(areq, c1));
    HonestAuthorize(p, w0, t0, areq, c1);
    LeadsKeeps(p, r0.w, between, w1);
    HonestCallback(p, w1, |w0.issued|, t0, areq, c1, t1, creq, g, c2);
    var r1 := Serve(p, w1, t1, Callback(creq, Some(g), c2));
    ServeKeeps(p, w1, t1, Callback(creq, Some(g), c2));
    LeadsKeeps(p, r1.w, after, w2);
    HonestToken(p, w2, |w1.issued|, t0, areq, t1, g, c2, t2, treq);
  }

  /** A token request for the client, redirect URI and verifier of an authorize request. */
  predicate Answers(p: Proxy, treq: TokenRequest, areq: AuthorizeRequest) {
    && treq.grantType == "authorization_code"
    && treq.clientID == Clean(areq.clientID) && treq.redirectURI == Clean(areq.redirectURI)
    && treq.codeVerifier != "" && p.hash(treq.codeVerifier) == Clean(areq.codeChallenge)
  }

  lemma HonestAuthorize(p: Proxy, w: World, t0: Instant, areq: AuthorizeRequest, c1: seq<Octet>)
    requires Accepted(p, areq)
    ensures
      var r := Serve(p, w, t0, Authorize(areq, c1));
      && r.r == ToProvider(EncodeToString(c1))
      && r.w.issued == w.issued + [Entry(c1, SealedState(StateFor(areq, t0)), t0, FromAuthorize(areq))]
  {
    hide SealedState, EncodeToString, IsValidRedirectURI;
  }

  lemma HonestCallback(p: Proxy, w: World, i: nat, t0: Instant, areq: AuthorizeRequest, c1: seq<Octet>,
                       t1: Instant, creq: CallbackRequest, g: Grant, c2: seq<Octet>)
    requires Inv(p, w) && i < |w.issued| && Accepted(p, areq) && ParsesClean(p)
    requires w.issued[i] == Entry(c1, SealedState(StateFor(areq, t0)), t0, FromAuthorize(areq))
    requires t1 <= t0 + 299_000_000_000 && creq.error == "" && creq.code != "" && creq.state == EncodeToString(c1)
    ensures
      var r := Serve(p, w, t1, Callback(creq, Some(g), c2));
      var u := p.parse(Clean(areq.redirectURI));
      && u.Some?
      && r.r == ToClient(u.value, WithCode(u.value.rawQuery, EncodeToString(c2), Clean(areq.state)))
      && |r.w.issued| == |w.issued| + 1
      && r.w.issued[|w.issued|].cipher == c2 && r.w.issued[|w.issued|].at == t1
      && r.w.issued[|w.issued|].plain == SealedCode(CodeFor(p, g, CleanState(StateFor(areq, t0)), t1))
  {
    hide SealedState, SealedCode, UnmarshalState, CodeFor, WithCode, Inv, Clean, EncodeToString, DecodeString, Expired;
    NamedIssued(p, w, i);
    var s := CleanState(StateFor(areq, t0));
    AsState(StateFor(areq, t0));
    AcceptedFor(t0, t1, STATE_TTL);
    var w1 := w.(now := t1);
    assert Open(w1, creq.state) == Some(w.issued[i].plain);
    assert DecryptState(w1, creq.state, t1) == Some(s);
    assert p.parse(areq.redirectURI).Some?;
  }

  lemma HonestToken(p: Proxy, w: World, i: nat, t0: Instant, areq: AuthorizeRequest, t1: Instant, g: Grant,
                    c2: seq<Octet>, t2: Instant, treq: TokenRequest)
    requires Inv(p, w) && i < |w.issued| && Accepted(p, areq)
    requires w.issued[i].cipher == c2
    requires w.issued[i].plain == SealedCode(CodeFor(p, g, CleanState(StateFor(areq, t0)), t1))
    requires t2 <= t1 + 59_000_000_000
    requires treq.code == EncodeToString(c2) && Answers(p, treq, areq)
    ensures Serve(p, w, t2, Token(treq)).r == TokenResponse(GrantBody(p, g, t1))
  {
    hide SealedCode, UnmarshalCode, IsValidRedirectURI, Inv, Clean, EncodeToString, DecodeString, Expired, TokenBody;
    hide WholeSeconds;
    NamedIssued(p, w, i);
    var a := CodeFor(p, g, CleanState(StateFor(areq, t0)), t1);
    AsStateFromCode(a);
    AcceptedFor(t1, t2, CODE_TTL);
    CleanExactly(areq.clientID); CleanExactly(areq.redirectURI); CleanExactly(areq.codeChallenge);
    var w2 := w.(now := t2);
    assert Open(w2, treq.code) == Some(w.issued[i].plain);
    assert DecryptAuthCode(w2, treq.code, t2) == Some(CleanCode(a));
    SameBody(p, g, CleanState(StateFor(areq, t0)), t1);
  }

  /** A token response depends on the grant and the time of its code, not on the request. */
  lemma SameBody(p: Proxy, g: Grant, s: StatePayload, at: Instant)
    ensures TokenBody(CleanCode(CodeFor(p, g, s, at))) == GrantBody(p, g, at)
  {
    hide Clean, WholeSeconds;
  }

  // ---- The tokens and their lifetime ----

  /** A token response holds exactly the provider's tokens, the optional ones when they are not empty,
      and a lifetime exactly when the provider gave an expiry at least one second after the callback. */
  lemma GrantBodyHolds(p: Proxy, g: Grant, at: Instant)
    requires Rounds(p.round)
    ensures
      var b := GrantBody(p, g, at);
      && AccessToken in b && b[AccessToken] == Text(Clean(g.accessToken))
      && TokenType in b && b[TokenType] == Text(Clean(g.tokenType))
      && (IdToken in b <==> g.idToken != "") && (IdToken in b ==> b[IdToken] == Text(Clean(g.idToken)))
      && (RefreshToken in b <==> g.refreshToken != "")
      && (RefreshToken in b ==> b[RefreshToken] == Text(Clean(g.refreshToken)))
      && (ExpiresIn in b <==> g.expiry.Some? && g.expiry.value >= at + 1_000_000_000)
      && b.Keys <= {AccessToken, TokenType, IdToken, RefreshToken, ExpiresIn}
  {
    LifetimeOf(p.round, g.expiry, at);
    CleanExactly(g.idToken);
    CleanExactly(g.refreshToken);
    hide Clean, WholeSeconds, Until, Rounds;
    BodyHolds(CleanCode(CodeFor(p, g, StatePayload("", "", "", "", 0), at)));
    hide TokenBody;
  }

  lemma BodyHolds(a: AuthCodePayload)
    ensures
      var b := TokenBody(a);
      && AccessToken in b && b[AccessToken] == Text(a.accessToken)
      && TokenType in b && b[TokenType] == Text(a.tokenType)
      && (IdToken in b <==> a.idToken != "") && (IdToken in b ==> b[IdToken] == Text(a.idToken))
      && (RefreshToken in b <==> a.refreshToken != "")
      && (RefreshToken in b ==> b[RefreshToken] == Text(a.refreshToken))
      && (ExpiresIn in b <==> a.expiresIn > 0) && (ExpiresIn in b ==> b[ExpiresIn] == Number(a.expiresIn))
      && b.Keys <= {AccessToken, TokenType, IdToken, RefreshToken, ExpiresIn}
  {
  }

  /** The fraction of a second, as a double. */
  lemma FractionRounds(round: real -> real, nsec: nat)
    requires Rounds(round) && nsec < SECOND
    ensures
      var f := nsec as real / 1000000000.0;
      var g := round(round(nsec as real) / 1000000000.0);
      0.0 <= g <= 1.0 && g <= f + f / EXACT as real
  {
    var f := nsec as real / 1000000000.0;
    assert round(nsec as real) == nsec as real;
    assert round(0 as real) == 0 as real && round(1 as real) == 1 as real;
    assert 0 as real <= f <= 1 as real;
    assert round(0 as real) <= round(f) <= round(1 as real);
    if nsec > 0 { assert f >= 0.000000001; }
  }

  /** A non-negative duration in whole seconds: rounded down, except that the last microsecond before a
      full second may count as that second when it is more than 9 000 000 s away. */
  lemma SecondsOf(round: real -> real, d: nat)
    requires Rounds(round) && d <= MAX_DURATION
    ensures
      var x := WholeSeconds(round, d);
      && d / SECOND <= x <= d / SECOND + 1
      && x * SECOND <= d + 1024
      && (d < 9_000_000 * SECOND ==> x == d / SECOND)
  {
    var sec, nsec := d / SECOND, d % SECOND;
    SecondsAre(round, d, sec, nsec);
    FractionRounds(round, nsec);
    var g := round(round(nsec as real) / 1000000000.0);
    BetweenSeconds(round, sec, g);
    if round(sec as real + g) == (sec + 1) as real {
      RoundsUp(round, sec, nsec, g);
    }
    hide Rounds, WholeSeconds, Truncate;
  }

  lemma SecondsAre(round: real -> real, d: nat, sec: nat, nsec: nat)
    requires Rounds(round) && d <= MAX_DURATION && sec == d / SECOND && nsec == d % SECOND
    ensures WholeSeconds(round, d) == Truncate(round(sec as real + round(round(nsec as real) / 1000000000.0)))
  {
    assert d - sec * SECOND == nsec;
    assert round(sec as real) == sec as real;
    hide Rounds, Truncate;
  }

  lemma BetweenSeconds(round: real -> real, sec: nat, g: real)
    requires Rounds(round) && sec < EXACT && 0.0 <= g <= 1.0
    ensures sec as real <= round(sec as real + g) <= (sec + 1) as real
    ensures Truncate(round(sec as real + g)) == if round(sec as real + g) == (sec + 1) as real then sec + 1 else sec
  {
    var y, z := sec as real + g, round(sec as real + g);
    assert round(sec as real) == sec as real && round((sec + 1) as real) == (sec + 1) as real;
    assert round(sec as real) <= z <= round((sec + 1) as real);
    hide Rounds;
  }

  lemma SumRounds(round: real -> real, y: real)
    requires Rounds(round) && y >= 0.0
    ensures round(y) <= y + y / EXACT as real || round(y) < 1.0
  {
    assert round(y) <= round(0.000000001) || y >= 0.000000001;
  }

  lemma RoundsUp(round: real -> real, sec: nat, nsec: nat, g: real)
    requires Rounds(round) && sec <= MAX_DURATION / SECOND && nsec < SECOND
    requires
      var f := nsec as real / 1000000000.0;
      0.0 <= g <= 1.0 && g <= f + f / EXACT as real
    requires round(sec as real + g) >= (sec + 1) as real
    ensures sec >= 9_000_000 && SECOND - nsec <= 1024
  {
    SumRounds(round, sec as real + g);
  }

  /** The sealed lifetime: positive exactly when a whole second remains, and then the remaining time
      rounded down, or at most 1024 ns more than it. */
  lemma LifetimeOf(round: real -> real, expiry: Option<Instant>, at: Instant)
    requires Rounds(round)
    ensures
      var x := WholeSeconds(round, Until(expiry, at));
      && (x > 0 <==> expiry.Some? && expiry.value >= at + SECOND)
      && (x > 0 && expiry.value - at <= MAX_DURATION ==>
            && x * SECOND - 1024 <= expiry.value - at < (x + 1) * SECOND
            && (expiry.value - at < 9_000_000 * SECOND ==> x * SECOND <= expiry.value - at))
  {
    var d := Until(expiry, at);
    if d >= 0 {
      SecondsOf(round, d);
    } else {
      NegativeSeconds(round, d);
    }
  }

  lemma NegativeSeconds(round: real -> real, d: int)
    requires Rounds(round) && MIN_DURATION <= d < 0
    ensures WholeSeconds(round, d) <= 0
  {
    var sec := Quotient(d);
    var nsec := d - sec * SECOND;
    assert 0 - SECOND < nsec <= 0 && sec <= 0;
    assert round(0 as real) == 0 as real && round(sec as real) == sec as real && round(nsec as real) == nsec as real;
    var q := nsec as real / 1000000000.0;
    assert q <= 0 as real && round(q) <= round(0 as real);
    var y := sec as real + round(q);
    assert y <= 0 as real && round(y) <= round(0 as real);
  }

  /** The expiry that a client computes from the response, at most 60 s after the callback, is less than
      one second too early and at most 60 s and 1024 ns too late; at most 60 s for a lifetime below
      9 000 000 s. */
  lemma ClientExpiry(p: Proxy, g: Grant, t1: Instant, t2: Instant)
    requires Rounds(p.round)
    requires t1 <= t2 <= t1 + CODE_TTL
    requires g.expiry.Some? && g.expiry.value - t1 <= MAX_DURATION
    requires ExpiresIn in GrantBody(p, g, t1)
    ensures GrantBody(p, g, t1)[ExpiresIn].Number?
    ensures
      var late := (t2 + GrantBody(p, g, t1)[ExpiresIn].n * SECOND) - g.expiry.value;
      && 0 - SECOND < late <= CODE_TTL + 1024
      && (g.expiry.value - t1 < 9_000_000 * SECOND ==> late <= CODE_TTL)
  {
    LifetimeOf(p.round, g.expiry, t1);
    var x := WholeSeconds(p.round, Until(g.expiry, t1));
    hide Clean, WholeSeconds, Until, Rounds;
    BodyHolds(CleanCode(CodeFor(p, g, StatePayload("", "", "", "", 0), t1)));
    hide TokenBody;
    assert GrantBody(p, g, t1)[ExpiresIn] == Number(x) && x > 0;
    assert (x + 1) * SECOND == x * SECOND + SECOND;
  }

  // ---- Exactly which requests succeed ----

  /** A string stands for entry i, and the entry is accepted as a ciphertext of life ttl: its second is
      at most ttl ago. */
  ghost predicate Alive(w: World, i: nat, c: string, now: Instant, ttl: nat) {
    && i < |w.issued|
    && DecodeString(c) == Some(w.issued[i].cipher)
    && now <= w.issued[i].at - w.issued[i].at % 1_000_000_000 + ttl
  }

  lemma OpenExactly(p: Proxy, w: World, c: string, now: Instant)
    requires Inv(p, w)
    ensures DecryptState(w, c, now).Some? <==> exists i :: Alive(w, i, c, now, STATE_TTL)
    ensures DecryptAuthCode(w, c, now).Some? <==> exists i :: Alive(w, i, c, now, CODE_TTL)
    ensures forall i | Alive(w, i, c, now, CODE_TTL) || Alive(w, i, c, now, STATE_TTL) :: i == Named(w.issued, c)
  {
    hide Good, UnmarshalState, UnmarshalCode, Expired, Hops, Root, DecodeString, Clean;
    forall i: nat | i < |w.issued| ensures Find(w.issued, w.issued[i].cipher) == i { FindIssued(p, w, i); }
    var i := Named(w.issued, c);
    if i < |w.issued| {
      CodeOf(p, w, i);
      AcceptedFor(w.issued[i].at, now, STATE_TTL);
      AcceptedFor(w.issued[i].at, now, CODE_TTL);
      if DecryptState(w, c, now).Some? { assert Alive(w, i, c, now, STATE_TTL); }
      if DecryptAuthCode(w, c, now).Some? { assert Alive(w, i, c, now, CODE_TTL); }
    }
  }

  /** An authorize request is sent on to the provider exactly when it asks for a code, its four parameters
      are not empty, the method is S256 and the redirect URI parses to a URL with a loopback host or the
      scheme https. Then one ciphertext is issued, which decodes to the request at the current second, and
      the provider gets its spelling. Otherwise the answer is an invalid request and nothing is issued. */
  lemma AuthorizeExactly(p: Proxy, w: World, now: Instant, req: AuthorizeRequest, sealed: seq<Octet>)
    ensures
      var reply := Serve(p, w, now, Authorize(req, sealed));
      var u := p.parse(req.redirectURI);
      && (reply.r.ToProvider? <==>
            && req.responseType == "code" && req.challengeMethod == "S256"
            && req.clientID != "" && req.redirectURI != "" && req.state != "" && req.codeChallenge != ""
            && u.Some?
            && (u.value.hostname in {"localhost", "127.0.0.1", "::1", "[::1]"} || u.value.scheme == "https"))
      && (reply.r.ToProvider? ==>
            && reply.r.state == EncodeToString(sealed)
            && |reply.w.issued| == |w.issued| + 1 && w.issued <= reply.w.issued
            && reply.w.issued[|w.issued|].cipher == sealed
            && UnmarshalState(reply.w.issued[|w.issued|].plain) ==
                 Some(StatePayload(Clean(req.redirectURI), Clean(req.codeChallenge), Clean(req.clientID),
                                   Clean(req.state), now / 1_000_000_000)))
      && (!reply.r.ToProvider? ==>
            reply.r.Failure? && reply.r.status == 400 && reply.r.error == "invalid_request"
            && reply.w.issued == w.issued)
  {
    AllowedMeans(p, req.redirectURI);
    AsState(StateFor(req, now));
    hide IsValidRedirectURI, SealedState, EncodeToString, UnmarshalState, Clean;
  }

  /** A callback leads back to the client exactly when it carries no error, a code, and as state a
      spelling of an issued ciphertext still alive, and the exchange succeeds. */
  lemma CallbackExactly(p: Proxy, calls: seq<(Instant, Call)>, w: World, now: Instant,
                        req: CallbackRequest, grant: Option<Grant>, sealed: seq<Octet>)
    requires Reached(p, calls, w) && Legal(w, now, Callback(req, grant, sealed)) && ParsesClean(p)
    ensures Serve(p, w, now, Callback(req, grant, sealed)).r.ToClient? <==>
      && req.error == "" && req.code != "" && grant.Some?
      && exists i :: Alive(w, i, req.state, now, 300_000_000_000)
  {
    hide Good, UnmarshalState, Expired, WithCode, SealedCode, CodeFor, IsValidRedirectURI, Clean, ParsesClean;
    hide EncodeToString;
    ReachedInv(p, calls, w);
    var w1 := w.(now := now);
    OpenExactly(p, w, req.state, now);
    assert DecryptState(w1, req.state, now) == DecryptState(w, req.state, now);
    EmptyOpensNothing(p, w);
    hide DecodeString;
    if DecryptState(w, req.state, now).Some? {
      var i := Opened(p, w, req.state);
      RootParses(p, w, i);
    }
  }

  /** A callback that does not lead back to the client issues nothing. It hands on the provider's error;
      without a code or a state, or with a state that is no spelling of a ciphertext still alive, it is an
      invalid request; and when the exchange fails it is the gateway's error. */
  lemma CallbackFails(p: Proxy, calls: seq<(Instant, Call)>, w: World, now: Instant,
                      req: CallbackRequest, grant: Option<Grant>, sealed: seq<Octet>)
    requires Reached(p, calls, w)
    ensures
      var reply := Serve(p, w, now, Callback(req, grant, sealed));
      var alive := exists i :: Alive(w, i, req.state, now, 300_000_000_000);
      var missing := req.code == "" || req.state == "";
      && (req.error != "" ==> reply.r == Failure(400, req.error, req.errorDescription))
      && (req.error == "" && (missing || !alive) ==>
            reply.r.Failure? && reply.r.status == 400 && reply.r.error == "invalid_request")
      && (req.error == "" && !missing && alive && grant.None? ==>
            reply.r.Failure? && reply.r.status == 502 && reply.r.error == "server_error")
      && (req.error != "" || missing || !alive || grant.None? ==> reply.w.issued == w.issued)
  {
    hide Good, UnmarshalState, Expired, WithCode, SealedCode, CodeFor, Clean, EncodeToString, DecodeString;
    ReachedInv(p, calls, w);
    var w1 := w.(now := now);
    OpenExactly(p, w, req.state, now);
    assert DecryptState(w1, req.state, now) == DecryptState(w, req.state, now);
  }

  lemma EmptyOpensNothing(p: Proxy, w: World)
    requires Inv(p, w)
    ensures Named(w.issued, "") == |w.issued|
  {
    hide Good;
    assert DecodeString("") == Some([]);
  }

  /** A token request gets tokens exactly when its grant type is authorization_code and its code is a
      spelling of an issued ciphertext still alive whose chain starts at an authorize request for the
      same client, redirect URI and the challenge of the verifier. Otherwise it fails, as an invalid
      request when a parameter is missing and as an invalid grant when none is. A refresh_token request
      is forwarded, and any other grant type is unsupported. */
  lemma TokenExactly(p: Proxy, calls: seq<(Instant, Call)>, w: World, now: Instant, req: TokenRequest)
    requires Reached(p, calls, w)
    ensures
      var r := Serve(p, w, now, Token(req)).r;
      var missing := req.code == "" || req.redirectURI == "" || req.clientID == "" || req.codeVerifier == "";
      && (r.TokenResponse? <==> req.grantType == "authorization_code" && !missing && exists i ::
            && Alive(w, i, req.code, now, 60_000_000_000)
            && BoundTo(p, w, i, req))
      && (r == Forwarded <==> req.grantType == "refresh_token")
      && (!r.TokenResponse? && r != Forwarded ==>
            && r.Failure? && r.status == 400
            && r.error == if req.grantType != "authorization_code" then "unsupported_grant_type"
                          else if missing then "invalid_request" else "invalid_grant")
    ensures Serve(p, w, now, Token(req)).w.issued == w.issued
  {
    hide Good, UnmarshalState, UnmarshalCode, Expired, IsValidRedirectURI, TokenBody, Hops, Root, Clean, DecodeString;
    ReachedInv(p, calls, w);
    var w1 := w.(now := now);
    OpenExactly(p, w, req.code, now);
    assert DecryptAuthCode(w1, req.code, now) == DecryptAuthCode(w, req.code, now);
    var i := Named(w.issued, req.code);
    if DecryptAuthCode(w, req.code, now).Some? {
      CodeOf(p, w, i);
      assert Alive(w, i, req.code, now, CODE_TTL);
      ChallengeSet(p, w, i);
    }
  }

  lemma ChallengeSet(p: Proxy, w: World, i: nat)
    requires i < |w.issued| && Traced(p, w.issued, i)
    ensures UnmarshalState(w.issued[i].plain).value.codeChallenge != ""
  {
    hide Clean, UnmarshalState;
    CleanExactly(w.issued[Root(w.issued, i)].origin.req.codeChallenge);
  }

  /** The chain of entry i starts at an authorize request for the client, redirect URI and verifier of
      a token request. */
  ghost predicate BoundTo(p: Proxy, w: World, i: nat, req: TokenRequest) {
    && i < |w.issued|
    && var root := w.issued[Root(w.issued, i)].origin;
    && root.FromAuthorize?
    && Clean(root.req.clientID) == req.clientID
    && Clean(root.req.redirectURI) == req.redirectURI
    && Clean(root.req.codeChallenge) == p.hash(req.codeVerifier)
  }
}
