/** encrypt and decrypt of pkg/auth/oauth/crypto.go down to the text: JSON, UTF-8, nonce framing and
    base64url around an AEAD that is only known to open what it sealed. */
module Sealing {
  import opened Strings
  import opened Utf8
  import opened OAuth
  import opened JsonText
  import opened Base64Url

  const NONCE_SIZE: nat := 12

  /** AES-256-GCM under one key, on byte strings. */
  datatype Aead = Aead(
    seal: (seq<Octet>, string) -> seq<Octet>,
    open: (seq<Octet>, seq<Octet>) -> Option<string>)

  ghost predicate OpensSealed(aead: Aead) {
    forall nonce, text | |nonce| == NONCE_SIZE :: aead.open(nonce, aead.seal(nonce, text)) == Some(text)
  }

  /** The JSON names of the fields. */
  function Name(f: Field): string {
    match f
    case RedirectUri => "redirect_uri"
    case CodeChallenge => "code_challenge"
    case ClientId => "client_id"
    case ClientState => "client_state"
    case Timestamp => "timestamp"
    case AccessToken => "access_token"
    case IdToken => "id_token"
    case RefreshToken => "refresh_token"
    case TokenType => "token_type"
    case ExpiresIn => "expires_in"
  }

  // The fields of the two payloads, in the order of their declaration.
  const STATE_FIELDS: seq<Field> := [RedirectUri, CodeChallenge, ClientId, ClientState, Timestamp]
  const CODE_FIELDS: seq<Field> := [
    AccessToken, IdToken, RefreshToken, TokenType, ExpiresIn, CodeChallenge, ClientId, RedirectUri, Timestamp]

  /** The members of an object in a given order of fields, absent ones left out. */
  function MembersOf(o: Object, fields: seq<Field>): Members {
    if fields == [] then []
    else (if fields[0] in o then [(Name(fields[0]), o[fields[0]])] else []) + MembersOf(o, fields[1..])
  }

  function FieldNamed(name: string, fields: seq<Field>): Option<Field> {
    if fields == [] then None else if Name(fields[0]) == name then Some(fields[0]) else FieldNamed(name, fields[1..])
  }

  /** Decoding by name into the fields of a payload: unknown names are ignored, the last value stays. */
  function ObjectOf(ms: Members, fields: seq<Field>): Object {
    if ms == [] then map[] else
    match FieldNamed(ms[0].0, fields)
    case None => ObjectOf(ms[1..], fields)
    case Some(f) => map[f := ms[0].1] + ObjectOf(ms[1..], fields)
  }

  /** What encrypt makes before base64url: the nonce and the ciphertext of the JSON text. */
  function EncryptBytes(aead: Aead, nonce: seq<Octet>, ms: Members): seq<Octet> {
    nonce + aead.seal(nonce, Encode(PrintObject(ms)))
  }

  function Encrypt(aead: Aead, nonce: seq<Octet>, ms: Members): string {
    EncodeToString(EncryptBytes(aead, nonce, ms))
  }

  function DecryptBytes(aead: Aead, b: seq<Octet>): Option<Members> {
    if |b| < NONCE_SIZE then None else
    match aead.open(b[..NONCE_SIZE], b[NONCE_SIZE..])
    case None => None
    case Some(plain) => ReadObject(Runes(plain))
  }

  function Decrypt(aead: Aead, encoded: string): Option<Members> {
    match DecodeString(encoded)
    case None => None
    case Some(b) => DecryptBytes(aead, b)
  }

  /** The AEAD opens what it made of one object's text under one nonce. */
  ghost predicate OpensText(aead: Aead, nonce: seq<Octet>, ms: Members) {
    && |nonce| == NONCE_SIZE
    && aead.open(nonce, aead.seal(nonce, Encode(PrintObject(ms)))) == Some(Encode(PrintObject(ms)))
  }

  lemma BytesRoundTrip(aead: Aead, nonce: seq<Octet>, ms: Members)
    requires OpensText(aead, nonce, ms)
    ensures DecryptBytes(aead, EncryptBytes(aead, nonce, ms)) == Some(CleanMembers(ms))
  {
    var text := PrintObject(ms);
    var body := aead.seal(nonce, Encode(text));
    assert (nonce + body)[..NONCE_SIZE] == nonce && (nonce + body)[NONCE_SIZE..] == body;
    RunesEncode(text);
    ReadPrintedObject(ms);
    hide PrintObject, ReadObject, Runes, Encode, CleanMembers;
  }

  lemma OpensAny(aead: Aead, nonce: seq<Octet>, ms: Members)
    requires OpensSealed(aead) && |nonce| == NONCE_SIZE
    ensures OpensText(aead, nonce, ms)
  {
    hide Encode, PrintObject;
  }

  lemma DecryptEncrypt(aead: Aead, nonce: seq<Octet>, ms: Members)
    requires OpensSealed(aead) && |nonce| == NONCE_SIZE
    ensures Decrypt(aead, Encrypt(aead, nonce, ms)) == Some(CleanMembers(ms))
  {
    OpensAny(aead, nonce, ms);
    hide EncryptBytes, DecryptBytes, CleanMembers;
    BytesRoundTrip(aead, nonce, ms);
    DecodeEncode(EncryptBytes(aead, nonce, ms));
  }

  lemma NamesDiffer(f: Field, g: Field)
    ensures Name(f) == Name(g) <==> f == g
  {
    var n, m := Name(f), Name(g);
    if f != g {
      assert |n| != |m| || n[0] != m[0];
    }
  }

  lemma {:induction false} FieldFound(f: Field, fields: seq<Field>)
    ensures FieldNamed(Name(f), fields) == if f in fields then Some(f) else None
  {
    hide Name;
    if fields != [] {
      NamesDiffer(f, fields[0]);
      FieldFound(f, fields[1..]);
    }
  }

  ghost function Restrict(o: Object, order: seq<Field>, fields: seq<Field>): Object {
    map f | f in order && f in o && f in fields :: o[f]
  }

  lemma RestrictCons(o: Object, order: seq<Field>, fields: seq<Field>)
    requires order != [] && order[0] !in order[1..]
    ensures Restrict(o, order, fields) ==
      (if order[0] in o && order[0] in fields then map[order[0] := o[order[0]]] else map[])
      + Restrict(o, order[1..], fields)
  {
    assert order == [order[0]] + order[1..];
  }

  lemma ObjectCons(name: string, v: Json, ms: Members, fields: seq<Field>)
    ensures ObjectOf([(name, v)] + ms, fields) ==
      (match FieldNamed(name, fields) case None => map[] case Some(f) => map[f := v]) + ObjectOf(ms, fields)
  {
    assert ([(name, v)] + ms)[1..] == ms;
    assert map[] + ObjectOf(ms, fields) == ObjectOf(ms, fields);
  }

  /** An object read back through the fields of any payload is its part with those fields. */
  lemma {:induction false} ReadBack(o: Object, order: seq<Field>, fields: seq<Field>)
    requires forall i, j | 0 <= i < j < |order| :: order[i] != order[j]
    ensures ObjectOf(MembersOf(o, order), fields) == Restrict(o, order, fields)
  {
    hide Name, ObjectOf, FieldNamed;
    if order == [] {
      ObjectNone(fields);
    } else {
      var f := order[0];
      ReadBack(o, order[1..], fields);
      RestrictCons(o, order, fields);
      FieldFound(f, fields);
      if f in o {
        ObjectCons(Name(f), o[f], MembersOf(o, order[1..]), fields);
      } else {
        assert MembersOf(o, order) == MembersOf(o, order[1..]);
      }
    }
  }

  lemma ObjectNone(fields: seq<Field>)
    ensures ObjectOf([], fields) == map[]
  {
  }

  /** The names of the fields pass through the text unchanged. */
  lemma NameClean(f: Field)
    ensures Clean(Name(f)) == Name(f)
  {
    AsciiValid(Name(f));
  }

  /** The members that come out are those of the clean object. */
  lemma {:induction false} CleanMembersOf(o: Object, order: seq<Field>)
    ensures CleanMembers(MembersOf(o, order)) == MembersOf(CleanObject(o), order)
  {
    hide Name, Clean;
    if order != [] {
      CleanMembersOf(o, order[1..]);
      NameClean(order[0]);
      var rest := MembersOf(o, order[1..]);
      if order[0] in o {
        assert ([(Name(order[0]), o[order[0]])] + rest)[1..] == rest;
      } else {
        assert [] + rest == rest;
      }
    }
  }

  /** encryptState at a second, and the first half of decryptState. */
  function EncryptState(aead: Aead, nonce: seq<Octet>, s: StatePayload, second: int): string {
    Encrypt(aead, nonce, MembersOf(MarshalState(s.(timestamp := second)), STATE_FIELDS))
  }

  function EncryptAuthCode(aead: Aead, nonce: seq<Octet>, a: AuthCodePayload, second: int): string {
    Encrypt(aead, nonce, MembersOf(MarshalCode(a.(timestamp := second)), CODE_FIELDS))
  }

  function DecryptAsState(aead: Aead, encoded: string): Option<StatePayload> {
    match Decrypt(aead, encoded) case None => None case Some(ms) => UnmarshalState(ObjectOf(ms, STATE_FIELDS))
  }

  function DecryptAsCode(aead: Aead, encoded: string): Option<AuthCodePayload> {
    match Decrypt(aead, encoded) case None => None case Some(ms) => UnmarshalCode(ObjectOf(ms, CODE_FIELDS))
  }

  /** Decoding a payload looks at its own fields only. */
  lemma OwnFields(o: Object, order: seq<Field>)
    requires forall f | f in o :: f in order
    ensures UnmarshalState(Restrict(o, order, STATE_FIELDS)) == UnmarshalState(o)
    ensures UnmarshalCode(Restrict(o, order, CODE_FIELDS)) == UnmarshalCode(o)
  {
    SameAt(o, order, STATE_FIELDS);
    SameAt(o, order, CODE_FIELDS);
    hide TextAt, NumberAt, Restrict;
  }

  lemma SameAt(o: Object, order: seq<Field>, fields: seq<Field>)
    requires forall f | f in o :: f in order
    ensures forall f | f in fields ::
      && TextAt(Restrict(o, order, fields), f) == TextAt(o, f)
      && NumberAt(Restrict(o, order, fields), f) == NumberAt(o, f)
  {
  }

  lemma FieldOrders()
    ensures forall i, j | 0 <= i < j < |STATE_FIELDS| :: STATE_FIELDS[i] != STATE_FIELDS[j]
    ensures forall i, j | 0 <= i < j < |CODE_FIELDS| :: CODE_FIELDS[i] != CODE_FIELDS[j]
    ensures forall f: Field :: f in CODE_FIELDS <==> f != ClientState
  {
  }

  /** The fields of an object are in the order, each once. */
  ghost predicate Lists(order: seq<Field>, o: Object) {
    (forall f | f in o :: f in order) && forall i, j | 0 <= i < j < |order| :: order[i] != order[j]
  }

  /** Either kind of payload decodes the members of a sealed object as it decodes the clean object. */
  lemma DecodesMembers(o: Object, order: seq<Field>)
    requires Lists(order, o)
    ensures UnmarshalState(ObjectOf(CleanMembers(MembersOf(o, order)), STATE_FIELDS)) == UnmarshalState(CleanObject(o))
    ensures UnmarshalCode(ObjectOf(CleanMembers(MembersOf(o, order)), CODE_FIELDS)) == UnmarshalCode(CleanObject(o))
  {
    hide UnmarshalState, UnmarshalCode, Restrict, ObjectOf, MembersOf, CleanMembers, Clean;
    CleanMembersOf(o, order);
    ReadBack(CleanObject(o), order, STATE_FIELDS);
    ReadBack(CleanObject(o), order, CODE_FIELDS);
    OwnFields(CleanObject(o), order);
  }

  /** Decrypting any sealed object as either kind of payload decodes that object with its strings
      clean: the framing and the text add and lose nothing. */
  lemma DecryptsObject(aead: Aead, nonce: seq<Octet>, o: Object, order: seq<Field>)
    requires OpensSealed(aead) && |nonce| == NONCE_SIZE && Lists(order, o)
    ensures DecryptAsState(aead, Encrypt(aead, nonce, MembersOf(o, order))) == UnmarshalState(CleanObject(o))
    ensures DecryptAsCode(aead, Encrypt(aead, nonce, MembersOf(o, order))) == UnmarshalCode(CleanObject(o))
  {
    hide Encrypt, Decrypt, UnmarshalState, UnmarshalCode, OpensSealed, CleanMembers, ObjectOf, Lists;
    DecryptEncrypt(aead, nonce, MembersOf(o, order));
    DecodesMembers(o, order);
  }

  /** Decrypting a sealed payload gives every field back, empty and zero ones included, with its strings
      clean and the timestamp of the second it was sealed in. */
  lemma SealRoundTrip(aead: Aead, nonce: seq<Octet>, s: StatePayload, a: AuthCodePayload, second: int)
    requires OpensSealed(aead) && |nonce| == NONCE_SIZE
    ensures DecryptAsState(aead, EncryptState(aead, nonce, s, second)) == Some(CleanState(s.(timestamp := second)))
    ensures DecryptAsCode(aead, EncryptAuthCode(aead, nonce, a, second)) == Some(CleanCode(a.(timestamp := second)))
  {
    PayloadsListed(s.(timestamp := second), a.(timestamp := second));
    hide Encrypt, UnmarshalState, UnmarshalCode, OpensSealed, MarshalCode, MarshalState, CODE_FIELDS, STATE_FIELDS;
    hide Lists, CleanState, CleanCode, CleanObject, DecryptAsState, DecryptAsCode;
    DecryptsObject(aead, nonce, MarshalState(s.(timestamp := second)), STATE_FIELDS);
    DecryptsObject(aead, nonce, MarshalCode(a.(timestamp := second)), CODE_FIELDS);
    DecodesAsBoth(s.(timestamp := second), a.(timestamp := second));
  }

  lemma PayloadsListed(s: StatePayload, a: AuthCodePayload)
    ensures Lists(STATE_FIELDS, MarshalState(s)) && Lists(CODE_FIELDS, MarshalCode(a))
  {
    FieldOrders();
    CodeHasNoClientState(a);
    hide MarshalCode, CODE_FIELDS;
  }

  lemma CodeHasNoClientState(a: AuthCodePayload)
    ensures ClientState !in MarshalCode(a)
  {
  }

  predicate ValidState(s: StatePayload) {
    Valid(s.redirectURI) && Valid(s.codeChallenge) && Valid(s.clientID) && Valid(s.clientState)
  }

  predicate ValidCode(a: AuthCodePayload) {
    && Valid(a.accessToken) && Valid(a.idToken) && Valid(a.refreshToken) && Valid(a.tokenType)
    && Valid(a.codeChallenge) && Valid(a.clientID) && Valid(a.redirectURI)
  }

  /** Every field comes back unchanged exactly when all strings are valid UTF-8. */
  lemma SealsExactly(aead: Aead, nonce: seq<Octet>, s: StatePayload, a: AuthCodePayload, second: int)
    requires OpensSealed(aead) && |nonce| == NONCE_SIZE
    ensures DecryptAsState(aead, EncryptState(aead, nonce, s, second)) == Some(s.(timestamp := second)) <==>
        ValidState(s)
    ensures DecryptAsCode(aead, EncryptAuthCode(aead, nonce, a, second)) == Some(a.(timestamp := second)) <==>
        ValidCode(a)
  {
    hide DecryptAsState, DecryptAsCode, EncryptState, EncryptAuthCode, CleanState, CleanCode, OpensSealed;
    hide ValidState, ValidCode;
    SealRoundTrip(aead, nonce, s, a, second);
    ValidUnchanged(s.(timestamp := second), a.(timestamp := second));
    TimestampAside(s, a, second);
  }

  lemma TimestampAside(s: StatePayload, a: AuthCodePayload, second: int)
    ensures ValidState(s.(timestamp := second)) == ValidState(s) && ValidCode(a.(timestamp := second)) == ValidCode(a)
  {
    hide Valid;
  }

  lemma ValidUnchanged(s: StatePayload, a: AuthCodePayload)
    ensures CleanState(s) == s <==> ValidState(s)
    ensures CleanCode(a) == a <==> ValidCode(a)
  {
    hide Clean, Valid;
    CleanExactly(s.redirectURI); CleanExactly(s.codeChallenge); CleanExactly(s.clientID); CleanExactly(s.clientState);
    CleanExactly(a.accessToken); CleanExactly(a.idToken); CleanExactly(a.refreshToken); CleanExactly(a.tokenType);
    CleanExactly(a.codeChallenge); CleanExactly(a.clientID); CleanExactly(a.redirectURI);
  }

  // ---- Against the symbolic model ----

  /** The entry's bytes are what encrypt makes of an object under some nonce, the AEAD opens them again,
      and the entry's object is that one after the passage. */
  ghost predicate SealedFrom(aead: Aead, e: Entry, nonce: seq<Octet>, o: Object, order: seq<Field>) {
    && OpensText(aead, nonce, MembersOf(o, order)) && Lists(order, o)
    && e.cipher == EncryptBytes(aead, nonce, MembersOf(o, order))
    && e.plain == CleanObject(o)
  }

  ghost predicate Sealed(aead: Aead, e: Entry) {
    exists nonce, o, order :: SealedFrom(aead, e, nonce, o, order)
  }

  ghost predicate AllSealed(aead: Aead, issued: seq<Entry>) { forall e | e in issued :: Sealed(aead, e) }

  ghost predicate HasBytes(issued: seq<Entry>, b: seq<Octet>) {
    exists i :: 0 <= i < |issued| && issued[i].cipher == b
  }

  predicate OpensBytes(aead: Aead, b: seq<Octet>) {
    |b| >= NONCE_SIZE && aead.open(b[..NONCE_SIZE], b[NONCE_SIZE..]).Some?
  }

  /** The presented string is not a forgery: if the AEAD opens its bytes, they were issued. */
  ghost predicate Unforged(aead: Aead, issued: seq<Entry>, c: string) {
    match DecodeString(c)
    case None => true
    case Some(b) => OpensBytes(aead, b) ==> HasBytes(issued, b)
  }

  lemma {:induction false} FindFinds(issued: seq<Entry>, b: seq<Octet>)
    ensures HasBytes(issued, b) <==> Find(issued, b) < |issued|
  {
  }

  lemma OpensEntry(aead: Aead, e: Entry)
    requires Sealed(aead, e)
    ensures DecryptBytes(aead, e.cipher).Some?
    ensures UnmarshalState(ObjectOf(DecryptBytes(aead, e.cipher).value, STATE_FIELDS)) == UnmarshalState(e.plain)
    ensures UnmarshalCode(ObjectOf(DecryptBytes(aead, e.cipher).value, CODE_FIELDS)) == UnmarshalCode(e.plain)
  {
    hide OpensText, EncryptBytes, DecryptBytes, UnmarshalState, UnmarshalCode, ObjectOf, MembersOf;
    hide CleanObject, Lists;
    var nonce, o, order :| SealedFrom(aead, e, nonce, o, order);
    BytesRoundTrip(aead, nonce, MembersOf(o, order));
    DecodesMembers(o, order);
  }

  lemma OpensOnly(aead: Aead, issued: seq<Entry>, c: string, b: seq<Octet>)
    requires Unforged(aead, issued, c) && DecodeString(c) == Some(b) && DecryptBytes(aead, b).Some?
    ensures Find(issued, b) < |issued|
  {
    hide DecodeString;
    FindFinds(issued, b);
  }

  /** decrypt, down to the text, does on every string that is not a forgery what the symbolic model does:
      it opens exactly the spellings of issued ciphertexts, and decodes them as either kind of payload
      alike. */
  lemma OpensAsModelled(aead: Aead, w: World, c: string)
    requires AllSealed(aead, w.issued) && Unforged(aead, w.issued, c)
    ensures Decrypt(aead, c).Some? <==> exists i :: 0 <= i < |w.issued| && DecodeString(c) == Some(w.issued[i].cipher)
    ensures DecryptAsState(aead, c) == match Open(w, c) case None => None case Some(o) => UnmarshalState(o)
    ensures DecryptAsCode(aead, c) == match Open(w, c) case None => None case Some(o) => UnmarshalCode(o)
  {
    hide DecryptBytes, UnmarshalState, UnmarshalCode, ObjectOf, DecodeString, Sealed, HasBytes, Unforged;
    if DecodeString(c).Some? {
      var b := DecodeString(c).value;
      var i := Find(w.issued, b);
      if i < |w.issued| {
        assert w.issued[i] in w.issued;
        OpensEntry(aead, w.issued[i]);
      } else if DecryptBytes(aead, b).Some? {
        OpensOnly(aead, w.issued, c, b);
      }
    }
  }

  // ---- In every run ----

  /** The bytes are what encrypt makes of an object's fields under some nonce. */
  ghost predicate Encrypts(aead: Aead, b: seq<Octet>, o: Object, order: seq<Field>) {
    exists nonce :: |nonce| == NONCE_SIZE && b == EncryptBytes(aead, nonce, MembersOf(o, order))
  }

  /** The sealed bytes of a call are what encrypt makes of the payload that the handler seals. */
  ghost predicate EncryptsCall(aead: Aead, p: Proxy, w: World, now: Instant, call: Call) {
    match call
    case Authorize(req, sealed) => Encrypts(aead, sealed, MarshalState(StateFor(req, now)), STATE_FIELDS)
    case Callback(req, grant, sealed) =>
      var s := DecryptState(w.(now := now), req.state, now);
      s.Some? && grant.Some? ==>
        Encrypts(aead, sealed, MarshalCode(CodeFor(p, grant.value, s.value, now)), CODE_FIELDS)
    case Token(_) => true
  }

  ghost predicate EncryptsAll(aead: Aead, p: Proxy, w: World, calls: seq<(Instant, Call)>)
    decreases |calls|
  {
    calls == []
    || (&& EncryptsCall(aead, p, w, calls[0].0, calls[0].1)
        && EncryptsAll(aead, p, Serve(p, w, calls[0].0, calls[0].1).w, calls[1..]))
  }

  lemma SealsEntry(aead: Aead, e: Entry, o: Object, order: seq<Field>)
    requires OpensSealed(aead) && Encrypts(aead, e.cipher, o, order) && e.plain == CleanObject(o) && Lists(order, o)
    ensures Sealed(aead, e)
  {
    hide OpensSealed, EncryptBytes, MembersOf, CleanObject, Lists, OpensText;
    var nonce :| |nonce| == NONCE_SIZE && e.cipher == EncryptBytes(aead, nonce, MembersOf(o, order));
    OpensAny(aead, nonce, MembersOf(o, order));
    assert SealedFrom(aead, e, nonce, o, order);
  }

  lemma AddsSealed(aead: Aead, issued: seq<Entry>, e: Entry)
    requires AllSealed(aead, issued) && Sealed(aead, e)
    ensures AllSealed(aead, issued + [e])
  {
    hide Sealed;
  }

  lemma AuthorizeSeals(aead: Aead, p: Proxy, w: World, now: Instant, req: AuthorizeRequest, sealed: seq<Octet>)
    requires OpensSealed(aead) && AllSealed(aead, w.issued)
    requires Encrypts(aead, sealed, MarshalState(StateFor(req, now)), STATE_FIELDS)
    ensures AllSealed(aead, HandleAuthorize(p, w, now, req, sealed).w.issued)
  {
    var e := Entry(sealed, SealedState(StateFor(req, now)), now, FromAuthorize(req));
    hide OpensSealed, AllSealed, Sealed, Encrypts, MarshalState, IsValidRedirectURI, EncodeToString, CleanObject, Lists;
    PayloadsListed(StateFor(req, now), AuthCodePayload("", "", "", "", 0, "", "", "", 0));
    SealsEntry(aead, e, MarshalState(StateFor(req, now)), STATE_FIELDS);
    AddsSealed(aead, w.issued, e);
  }

  lemma CallbackSeals(aead: Aead, p: Proxy, w: World, now: Instant, req: CallbackRequest, grant: Option<Grant>,
                      sealed: seq<Octet>)
    requires OpensSealed(aead) && AllSealed(aead, w.issued)
    requires DecryptState(w, req.state, now).Some? && grant.Some? ==>
      Encrypts(aead, sealed, MarshalCode(CodeFor(p, grant.value, DecryptState(w, req.state, now).value, now)),
               CODE_FIELDS)
    ensures AllSealed(aead, HandleCallback(p, w, now, req, grant, sealed).w.issued)
  {
    hide OpensSealed, AllSealed, Sealed, Encrypts, MarshalCode, EncodeToString, CleanObject, Lists, CodeFor;
    hide DecryptState;
    if DecryptState(w, req.state, now).Some? && grant.Some? {
      var a := CodeFor(p, grant.value, DecryptState(w, req.state, now).value, now);
      var e := Entry(sealed, SealedCode(a), now, FromCallback(Named(w.issued, req.state), grant.value));
      PayloadsListed(StatePayload("", "", "", "", 0), a);
      SealsEntry(aead, e, MarshalCode(a), CODE_FIELDS);
      AddsSealed(aead, w.issued, e);
    }
  }

  lemma ServeSeals(aead: Aead, p: Proxy, w: World, now: Instant, call: Call)
    requires OpensSealed(aead) && AllSealed(aead, w.issued) && EncryptsCall(aead, p, w, now, call)
    ensures AllSealed(aead, Serve(p, w, now, call).w.issued)
  {
    hide OpensSealed, AllSealed, Encrypts, HandleAuthorize, HandleCallback, HandleToken, MarshalState, MarshalCode;
    match call
    case Token(_) =>
    case Authorize(req, sealed) => AuthorizeSeals(aead, p, w.(now := now), now, req, sealed);
    case Callback(req, grant, sealed) => CallbackSeals(aead, p, w.(now := now), now, req, grant, sealed);
  }

  lemma {:induction false} RunsSeal(aead: Aead, p: Proxy, w: World, calls: seq<(Instant, Call)>, w': World)
    requires OpensSealed(aead) && AllSealed(aead, w.issued)
    requires Leads(p, w, calls, w') && EncryptsAll(aead, p, w, calls)
    ensures AllSealed(aead, w'.issued)
    decreases |calls|
  {
    hide OpensSealed, AllSealed, EncryptsCall, Serve, Legal;
    if calls != [] {
      ServeSeals(aead, p, w, calls[0].0, calls[0].1);
      RunsSeal(aead, p, Serve(p, w, calls[0].0, calls[0].1).w, calls[1..], w');
    }
  }

  /** In every run in which the handlers seal with encrypt: on every string that is not a forgery, decrypt
      down to the text does what the symbolic model does. */
  lemma RunsAsModelled(aead: Aead, p: Proxy, calls: seq<(Instant, Call)>, w: World, c: string)
    requires OpensSealed(aead) && Reached(p, calls, w) && EncryptsAll(aead, p, World([], 0), calls)
    requires Unforged(aead, w.issued, c)
    ensures Decrypt(aead, c).Some? <==> exists i :: 0 <= i < |w.issued| && DecodeString(c) == Some(w.issued[i].cipher)
    ensures DecryptAsState(aead, c) == match Open(w, c) case None => None case Some(o) => UnmarshalState(o)
    ensures DecryptAsCode(aead, c) == match Open(w, c) case None => None case Some(o) => UnmarshalCode(o)
  {
    hide *;
    NothingSealed(aead);
    FromStart(p, calls, w);
    RunsSeal(aead, p, World([], 0), calls, w);
    OpensAsModelled(aead, w, c);
  }

  lemma NothingSealed(aead: Aead)
    ensures AllSealed(aead, World([], 0).issued)
  {
  }

  lemma FromStart(p: Proxy, calls: seq<(Instant, Call)>, w: World)
    ensures Reached(p, calls, w) <==> Leads(p, World([], 0), calls, w)
  {
    hide Leads;
  }

  // ---- The hypotheses can be met ----

  // An AEAD without secrecy: three bytes for each character.

  function Pack(text: string): seq<Octet> {
    if text == "" then []
    else
      var n := text[0] as int;
      [n / 65536, n / 256 % 256, n % 256] + Pack(text[1..])
  }

  function Unpack(b: seq<Octet>): Option<string> {
    if b == [] then Some("") else if |b| < 3 then None else
    var n: int := b[0] as int * 65536 + b[1] as int * 256 + b[2] as int;
    if 0xD800 <= n < 0xE000 || n >= 0x11_0000 then None else
    match Unpack(b[3..])
    case None => None
    case Some(t) => Some([n as char] + t)
  }

  lemma {:induction false} UnpackPack(text: string)
    ensures Unpack(Pack(text)) == Some(text)
  {
    if text != "" {
      var n := text[0] as int;
      var head, tail := [n / 65536, n / 256 % 256, n % 256], Pack(text[1..]);
      assert n / 65536 * 65536 + n / 256 % 256 * 256 + n % 256 == n;
      assert (head + tail)[3..] == tail;
      assert n as char == text[0] && text == [text[0]] + text[1..];
      UnpackPack(text[1..]);
    }
  }

  lemma PackOpens(aead: Aead)
    requires forall nonce, text :: aead.seal(nonce, text) == Pack(text)
    requires forall nonce, body :: aead.open(nonce, body) == Unpack(body)
    ensures OpensSealed(aead)
  {
    hide Pack, Unpack;
    forall nonce, text | |nonce| == NONCE_SIZE ensures aead.open(nonce, aead.seal(nonce, text)) == Some(text) {
      UnpackPack(text);
    }
  }

  /** One accepted authorize request. */
  lemma OneRequest(p: Proxy, req: AuthorizeRequest, sealed: seq<Octet>)
    requires Accepted(p, req) && sealed != []
    ensures
      var w := Serve(p, World([], 0), 0, Authorize(req, sealed)).w;
      && Reached(p, [(0, Authorize(req, sealed))], w)
      && |w.issued| == 1 && w.issued[0].cipher == sealed
  {
    hide IsValidRedirectURI, SealedState, EncodeToString;
    var call := Authorize(req, sealed);
    var w := Serve(p, World([], 0), 0, call).w;
    assert [(0, call)][1..] == [];
    assert Leads(p, w, [], w);
    assert Legal(World([], 0), 0, call);
  }

  lemma OneEncrypts(aead: Aead, p: Proxy, w: World, call: Call)
    requires EncryptsCall(aead, p, w, 0, call)
    ensures EncryptsAll(aead, p, w, [(0, call)])
  {
    hide EncryptsCall, Serve;
    assert [(0, call)][1..] == [];
  }

  lemma SpelledUnforged(aead: Aead, issued: seq<Entry>, b: seq<Octet>)
    requires issued != [] && issued[0].cipher == b
    ensures Unforged(aead, issued, EncodeToString(b))
  {
    hide EncodeToString, DecodeString, OpensBytes;
    DecodeEncode(b);
  }

  lemma SomeRequest() returns (p: Proxy, req: AuthorizeRequest)
    ensures Accepted(p, req)
  {
    p := Proxy(s => s, raw => Some(Url("https", "", "", "", "")), x => x);
    req := AuthorizeRequest("code", "client", "https://client", "state", "challenge", "S256");
  }

  lemma EncryptsFor(aead: Aead, p: Proxy, w: World, req: AuthorizeRequest, nonce: seq<Octet>)
    requires |nonce| == NONCE_SIZE
    ensures
      var b := EncryptBytes(aead, nonce, MembersOf(MarshalState(StateFor(req, 0)), STATE_FIELDS));
      b != [] && EncryptsCall(aead, p, w, 0, Authorize(req, b))
  {
    hide MembersOf, MarshalState, StateFor, STATE_FIELDS, Encode, PrintObject;
    assert Encrypts(aead, EncryptBytes(aead, nonce, MembersOf(MarshalState(StateFor(req, 0)), STATE_FIELDS)),
                    MarshalState(StateFor(req, 0)), STATE_FIELDS);
  }

  /** Some AEAD, run and presented string meet all hypotheses, and the string opens. */
  lemma HypothesesMet() returns (aead: Aead, p: Proxy, calls: seq<(Instant, Call)>, w: World, c: string)
    ensures OpensSealed(aead) && Reached(p, calls, w) && EncryptsAll(aead, p, World([], 0), calls)
    ensures Unforged(aead, w.issued, c) && Decrypt(aead, c).Some?
  {
    hide *;
    aead := Aead((nonce, text) => Pack(text), (nonce, body) => Unpack(body));
    PackOpens(aead);
    var req: AuthorizeRequest;
    p, req := SomeRequest();
    var nonce: seq<Octet> := seq(NONCE_SIZE, i => 0);
    var ms := MembersOf(MarshalState(StateFor(req, 0)), STATE_FIELDS);
    var b := EncryptBytes(aead, nonce, ms);
    EncryptsFor(aead, p, World([], 0), req, nonce);
    OneRequest(p, req, b);
    calls, w := [(0, Authorize(req, b))], Serve(p, World([], 0), 0, Authorize(req, b)).w;
    OneEncrypts(aead, p, World([], 0), Authorize(req, b));
    c := EncodeToString(b);
    SpelledUnforged(aead, w.issued, b);
    DecryptEncrypt(aead, nonce, ms);
    EncryptIs(aead, nonce, ms);
  }

  lemma EncryptIs(aead: Aead, nonce: seq<Octet>, ms: Members)
    ensures Encrypt(aead, nonce, ms) == EncodeToString(EncryptBytes(aead, nonce, ms))
  {
    hide EncodeToString, EncryptBytes;
  }
}
