/** Signed admission assertions: what verifies, when, and which pseudonyms it carries. */
module PublicAdmissionAssertion {
  import opened Text
  import opened Calendar
  import opened CounterStore
  import opened CanonicalJson
  import opened JsonMeaning
  import opened ClientAddress
  import opened AddressReadings

  const TTL_SECONDS := 60
  const CLOCK_SKEW_SECONDS := 5
  const MAX_TOKEN_LENGTH := 4096
  const MAX_SAFE_INTEGER := 9_007_199_254_740_991
  const MAX_TIME := 8_640_000_000_000_000

  datatype Binding = Binding(
    surfaceId: string, installationId: string, route: string, method_: string, idempotencyKey: string,
    requestDigest: string)

  datatype SigningKeys = SigningKeys(activeVersion: string, keys: map<string, string>, pseudonymKey: string)

  datatype Pseudonyms = Pseudonyms(network: string, visitor: Option<string>)

  predicate IsDigest(s: string) {
    IsHexDigest(s, 64)
  }

  predicate IsTokenChar(c: char) {
    'A' <= c <= 'Z' || 'a' <= c <= 'z' || IsDigit(c) || c == '_' || c == '-'
  }

  predicate IsTokenPart(s: string) {
    s != "" && forall k :: 0 <= k < |s| ==> IsTokenChar(s[k])
  }

  /**
   * HMAC-SHA256, its hexadecimal form, the digest of an address bucket, base64url of a mac, and base64url of JSON text,
   * each with its inverse where the verifier needs one. Only the laws below are used.
   */
  datatype Crypto = Crypto(
    mac: (string, string) -> string, macHex: (string, string) -> string, addressDigest: string -> string,
    encodeMac: string -> string, decodeMac: string -> string,
    encodeJson: Json -> string, decodeJson: string -> Option<Json>)
  {
    predicate MacTravels(key: string, text: string) {
      var m := mac(key, text);
      IsTokenPart(encodeMac(m)) && decodeMac(encodeMac(m)) == m
    }

    predicate JsonTravels(value: Json) {
      IsTokenPart(encodeJson(value)) && decodeJson(encodeJson(value)) == Some(value)
    }

    ghost predicate Lawful() {
      && (forall key, text :: IsDigest(macHex(key, text)))
      && (forall key, text :: MacTravels(key, text))
      && (forall value :: WellFormed(value) ==> JsonTravels(value))
    }
  }

  // ----- Validation ---------------------------------------------------------------------------------------

  predicate IsShort(s: string) {
    0 < |s| <= 128
  }

  predicate ValidBinding(b: Binding) {
    && IsShort(b.surfaceId) && IsShort(b.installationId) && IsShort(b.idempotencyKey)
    && b.method_ == "POST"
    && b.route != "" && b.route[0] == '/' && |b.route| <= 512
    && IsDigest(b.requestDigest)
  }

  /** The key under a version; `None` is the thrown unavailability. */
  function SigningKey(keys: SigningKeys, version: string): Option<string> {
    if version in keys.keys && |keys.keys[version]| >= 32 && IsTokenPart(version) && |version| <= 32
    then Some(keys.keys[version]) else None
  }

  datatype Key =
    | SurfaceId | InstallationId | Route | Method | IdempotencyKey | RequestDigest
    | Version | KeyVersion | Issuer | Audience | Epoch | IssuedAt | ExpiresAt | Network | VisitorKey

  function Spelling(key: Key): string {
    match key
    case SurfaceId => "surfaceId"
    case InstallationId => "installationId"
    case Route => "route"
    case Method => "method"
    case IdempotencyKey => "idempotencyKey"
    case RequestDigest => "requestDigest"
    case Version => "version"
    case KeyVersion => "keyVersion"
    case Issuer => "issuer"
    case Audience => "audience"
    case Epoch => "epoch"
    case IssuedAt => "issuedAt"
    case ExpiresAt => "expiresAt"
    case Network => "network"
    case VisitorKey => "visitor"
  }

  function Mark(key: Key): (int, char, char) {
    match key
    case SurfaceId => (9, 's', 'u')
    case InstallationId => (14, 'i', 'n')
    case Route => (5, 'r', 'o')
    case Method => (6, 'm', 'e')
    case IdempotencyKey => (14, 'i', 'd')
    case RequestDigest => (13, 'r', 'e')
    case Version => (7, 'v', 'e')
    case KeyVersion => (10, 'k', 'e')
    case Issuer => (6, 'i', 's')
    case Audience => (8, 'a', 'u')
    case Epoch => (5, 'e', 'p')
    case IssuedAt => (8, 'i', 's')
    case ExpiresAt => (9, 'e', 'x')
    case Network => (7, 'n', 'e')
    case VisitorKey => (7, 'v', 'i')
  }

  lemma SpellingMarked(key: Key)
    ensures |Spelling(key)| >= 2 && (|Spelling(key)|, Spelling(key)[0], Spelling(key)[1]) == Mark(key)
  {
  }

  lemma SpellingInjective(a: Key, b: Key)
    requires Spelling(a) == Spelling(b)
    ensures a == b
  {
    hide Spelling;
    SpellingMarked(a);
    SpellingMarked(b);
  }

  function At(fields: seq<Keyed<Json>>, key: Key): Option<Json> {
    Get(fields, Spelling(key))
  }

  predicate IsStr(value: Option<Json>) {
    value.Some? && value.value.Str?
  }

  predicate IsInstant(value: Option<Json>) {
    value.Some? && value.value.Num? && -MAX_SAFE_INTEGER <= value.value.number <= MAX_SAFE_INTEGER
  }

  /** The binding an assertion carries, when its six fields are strings. */
  function BindingOf(fields: seq<Keyed<Json>>): Option<Binding> {
    if IsStr(At(fields, SurfaceId)) && IsStr(At(fields, InstallationId)) && IsStr(At(fields, Route))
       && IsStr(At(fields, Method)) && IsStr(At(fields, IdempotencyKey)) && IsStr(At(fields, RequestDigest)) then
      Some(Binding(At(fields, SurfaceId).value.text, At(fields, InstallationId).value.text,
                   At(fields, Route).value.text, At(fields, Method).value.text,
                   At(fields, IdempotencyKey).value.text, At(fields, RequestDigest).value.text))
    else None
  }

  predicate IsKnownKey(key: string) {
    exists k: Key :: Spelling(k) == key
  }

  predicate IsAssertion(value: Json) {
    value.Obj? &&
    var fields := value.fields;
    && BindingOf(fields).Some? && ValidBinding(BindingOf(fields).value)
    && At(fields, Version) == Some(Num(1))
    && At(fields, Issuer) == Some(Str("noodle-portal"))
    && At(fields, Audience) == Some(Str("noodle-public-admission"))
    && IsStr(At(fields, KeyVersion)) && IsStr(At(fields, Epoch))
    && IsInstant(At(fields, IssuedAt)) && IsInstant(At(fields, ExpiresAt))
    && IsStr(At(fields, Network)) && IsDigest(At(fields, Network).value.text)
    && (At(fields, VisitorKey).Some? ==> IsStr(At(fields, VisitorKey)) && IsDigest(At(fields, VisitorKey).value.text))
    && forall k :: 0 <= k < |fields| ==> IsKnownKey(fields[k].key)
  }

  // ----- Signing ------------------------------------------------------------------------------------------

  function Seconds(t: int): int {
    t / 1000
  }

  /** What a pseudonym is the mac of: a JSON list, so that different parts never run together. */
  function PseudonymText(binding: Binding, epoch: string, kind: string, value: string): string {
    Print(Arr([Str(binding.installationId), Str(binding.surfaceId), Str(epoch), Str(kind), Str(value)]))
  }

  function PseudonymsOf(binding: Binding, epoch: string, address: string, visitor: Option<string>, pseudonymKey: string,
                        crypto: Crypto): Pseudonyms
  {
    Pseudonyms(
      crypto.macHex(pseudonymKey, PseudonymText(binding, epoch, "network", address)),
      if visitor.Some? then Some(crypto.macHex(pseudonymKey, PseudonymText(binding, epoch, "visitor", visitor.value)))
      else None)
  }

  datatype Claims = Claims(binding: Binding, keyVersion: string, epoch: string, issuedAt: int, pseudonyms: Pseudonyms)

  function KeysOf(hasVisitor: bool): seq<Key> {
    [SurfaceId, InstallationId, Route, Method, IdempotencyKey, RequestDigest, Version, KeyVersion, Issuer, Audience,
     Epoch, IssuedAt, ExpiresAt, Network] + if hasVisitor then [VisitorKey] else []
  }

  function ValueOf(claims: Claims, key: Key): Json {
    match key
    case SurfaceId => Str(claims.binding.surfaceId)
    case InstallationId => Str(claims.binding.installationId)
    case Route => Str(claims.binding.route)
    case Method => Str(claims.binding.method_)
    case IdempotencyKey => Str(claims.binding.idempotencyKey)
    case RequestDigest => Str(claims.binding.requestDigest)
    case Version => Num(1)
    case KeyVersion => Str(claims.keyVersion)
    case Issuer => Str("noodle-portal")
    case Audience => Str("noodle-public-admission")
    case Epoch => Str(claims.epoch)
    case IssuedAt => Num(claims.issuedAt)
    case ExpiresAt => Num(claims.issuedAt + TTL_SECONDS)
    case Network => Str(claims.pseudonyms.network)
    case VisitorKey => Str(if claims.pseudonyms.visitor.Some? then claims.pseudonyms.visitor.value else "")
  }

  function AssertionFields(claims: Claims): (fields: seq<Keyed<Json>>)
    ensures |fields| == |KeysOf(claims.pseudonyms.visitor.Some?)|
    ensures forall k :: 0 <= k < |fields| ==>
              var key := KeysOf(claims.pseudonyms.visitor.Some?)[k];
              fields[k] == Keyed(Spelling(key), ValueOf(claims, key))
  {
    var keys := KeysOf(claims.pseudonyms.visitor.Some?);
    seq(|keys|, k requires 0 <= k < |keys| => Keyed(Spelling(keys[k]), ValueOf(claims, keys[k])))
  }

  /** A source address and the visitor's bucket, when the hint gives one. */
  datatype Attribution = Attribution(sourceAddress: string, visitor: Option<string>)

  function AddressOf(attribution: Attribution, crypto: Crypto): Option<string> {
    if ',' in attribution.sourceAddress then None
    else ClientAddressBucket(Some(attribution.sourceAddress), crypto.addressDigest)
  }

  function ClaimsOf(binding: Binding, attribution: Attribution, address: string, keys: SigningKeys, now: int,
                    crypto: Crypto): Claims
  {
    Claims(binding, keys.activeVersion, DayKey(now), Seconds(now),
           PseudonymsOf(binding, DayKey(now), address, attribution.visitor, keys.pseudonymKey, crypto))
  }

  /** `None` is the thrown unavailability. */
  function Sign(binding: Binding, attribution: Attribution, keys: SigningKeys, now: int,
                crypto: Crypto): Option<string> {
    var address := AddressOf(attribution, crypto);
    var key := SigningKey(keys, keys.activeVersion);
    if address.None? || |keys.pseudonymKey| < 32 || !ValidBinding(binding) || key.None? then None
    else
      var claims := ClaimsOf(binding, attribution, address.value, keys, now, crypto);
      var encoded := crypto.encodeJson(Obj(AssertionFields(claims)));
      Some(encoded + "." + crypto.encodeMac(crypto.mac(key.value, encoded)))
  }

  // ----- Verifying ----------------------------------------------------------------------------------------

  predicate InTime(fields: seq<Keyed<Json>>, now: int)
    requires IsStr(At(fields, Epoch)) && IsInstant(At(fields, IssuedAt)) && IsInstant(At(fields, ExpiresAt))
  {
    var issuedAt, expiresAt := At(fields, IssuedAt).value.number, At(fields, ExpiresAt).value.number;
    && At(fields, Epoch).value.text == DayKey(now)
    && At(fields, Epoch).value.text == DayKey(issuedAt * 1000)
    && issuedAt <= Seconds(now) + CLOCK_SKEW_SECONDS
    && expiresAt >= Seconds(now) - CLOCK_SKEW_SECONDS
    && expiresAt > issuedAt
    && expiresAt - issuedAt <= TTL_SECONDS
  }

  function Checked(value: Json, encoded: string, supplied: string, expected: Binding, keys: SigningKeys, now: int,
                   crypto: Crypto): Option<Pseudonyms>
  {
    if !IsAssertion(value) then None
    else
      var fields := value.fields;
      var key := SigningKey(keys, At(fields, KeyVersion).value.text);
      if key.None? || supplied != crypto.mac(key.value, encoded) then None
      else if !InTime(fields, now) || BindingOf(fields) != Some(expected) then None
      else Some(Pseudonyms(At(fields, Network).value.text,
                           if At(fields, VisitorKey).Some? then Some(At(fields, VisitorKey).value.text) else None))
  }

  function Verify(token: string, expected: Binding, keys: SigningKeys, now: int, crypto: Crypto): Option<Pseudonyms> {
    if |token| > MAX_TOKEN_LENGTH || !ValidBinding(expected) then None
    else
      var parts := Split(token, '.');
      if |parts| != 2 || !IsTokenPart(parts[0]) || !IsTokenPart(parts[1]) then None
      else
        var value := crypto.decodeJson(parts[0]);
        if value.None? then None
        else Checked(value.value, parts[0], crypto.decodeMac(parts[1]), expected, keys, now, crypto)
  }

  // ----- The round trip -----------------------------------------------------------------------------------

  lemma KeysAreDistinct(hasVisitor: bool)
    ensures forall i, j :: 0 <= i < j < |KeysOf(hasVisitor)| ==> KeysOf(hasVisitor)[i] != KeysOf(hasVisitor)[j]
    ensures forall key :: key in KeysOf(hasVisitor) <==> key != VisitorKey || hasVisitor
  {
  }

  lemma {:induction false} GetMissing(fields: seq<Keyed<Json>>, key: string)
    requires forall k :: 0 <= k < |fields| ==> fields[k].key != key
    ensures Get(fields, key).None?
  {
    if fields != [] { GetMissing(fields[1..], key); }
  }

  lemma AssertedAt(claims: Claims, key: Key)
    ensures At(AssertionFields(claims), key)
         == if key == VisitorKey && claims.pseudonyms.visitor.None? then None else Some(ValueOf(claims, key))
  {
    hide Spelling, ValueOf, KeysOf;
    var hasVisitor := claims.pseudonyms.visitor.Some?;
    var fields, keys := AssertionFields(claims), KeysOf(hasVisitor);
    KeysAreDistinct(hasVisitor);
    forall i, j | 0 <= i < j < |fields| ensures fields[i].key != fields[j].key {
      if Spelling(keys[i]) == Spelling(keys[j]) { SpellingInjective(keys[i], keys[j]); }
    }
    if key == VisitorKey && !hasVisitor {
      forall k | 0 <= k < |fields| ensures fields[k].key != Spelling(key) {
        assert keys[k] in keys;
        if Spelling(keys[k]) == Spelling(key) { SpellingInjective(keys[k], key); }
      }
      GetMissing(fields, Spelling(key));
    } else {
      assert key in keys;
      var k :| 0 <= k < |keys| && keys[k] == key;
      GetAt(fields, k);
    }
  }

  lemma AssertedBinding(claims: Claims)
    ensures BindingOf(AssertionFields(claims)) == Some(claims.binding)
  {
    hide AssertionFields, At;
    AssertedAt(claims, SurfaceId);
    AssertedAt(claims, InstallationId);
    AssertedAt(claims, Route);
    AssertedAt(claims, Method);
    AssertedAt(claims, IdempotencyKey);
    AssertedAt(claims, RequestDigest);
  }

  predicate ValidClaims(claims: Claims) {
    && ValidBinding(claims.binding) && IsDigest(claims.pseudonyms.network)
    && (claims.pseudonyms.visitor.Some? ==> IsDigest(claims.pseudonyms.visitor.value))
    && -MAX_SAFE_INTEGER <= claims.issuedAt <= MAX_SAFE_INTEGER - TTL_SECONDS
  }

  lemma AssertedIsAssertion(claims: Claims)
    requires ValidClaims(claims)
    ensures IsAssertion(Obj(AssertionFields(claims)))
  {
    hide AssertionFields, At, BindingOf, ValidBinding, IsDigest, IsKnownKey;
    AssertedBinding(claims);
    AssertedAt(claims, Version);
    AssertedAt(claims, Issuer);
    AssertedAt(claims, Audience);
    AssertedAt(claims, KeyVersion);
    AssertedAt(claims, Epoch);
    AssertedAt(claims, IssuedAt);
    AssertedAt(claims, ExpiresAt);
    AssertedAt(claims, Network);
    AssertedAt(claims, VisitorKey);
    AssertedKeysKnown(claims);
  }

  lemma AssertedKeysKnown(claims: Claims)
    ensures forall k :: 0 <= k < |AssertionFields(claims)| ==> IsKnownKey(AssertionFields(claims)[k].key)
  {
    hide Spelling, KeysOf, ValueOf;
  }

  lemma SecondStartsInDay(t: int)
    ensures DayKey(Seconds(t) * 1000) == DayKey(t)
  {
    hide DayKey;
    assert Day(Seconds(t) * 1000) == Day(t) by {
      TwoStage(t, 1000, 86_400);
      DivUnique(Seconds(t) * 1000, 1000, Seconds(t), 0);
      TwoStage(Seconds(t) * 1000, 1000, 86_400);
    }
    SameDaySameKey(Seconds(t) * 1000, t);
  }

  lemma SameDaySameKey(t1: int, t2: int)
    requires Day(t1) == Day(t2)
    ensures DayKey(t1) == DayKey(t2)
  {
    assert Iso(t1)[..10] == IsoDate(Day(t1))[..10] && Iso(t2)[..10] == IsoDate(Day(t2))[..10];
  }

  predicate IsTime(t: int) {
    -MAX_TIME <= t <= MAX_TIME
  }

  lemma SignedClaimsValid(binding: Binding, attribution: Attribution, address: string, keys: SigningKeys, now: int,
                          crypto: Crypto)
    requires crypto.Lawful() && ValidBinding(binding) && IsTime(now)
    ensures ValidClaims(ClaimsOf(binding, attribution, address, keys, now, crypto))
  {
    hide DayKey, PseudonymText, IsDigest, IsTokenPart, ValidBinding;
  }

  lemma TokenParts(encoded: string, mac: string)
    requires IsTokenPart(encoded) && IsTokenPart(mac)
    ensures Split(encoded + "." + mac, '.') == [encoded, mac]
  {
    SplitPart(encoded, '.', mac);
    SplitPart(mac, '.', "");
  }

  lemma AssertedWellFormed(claims: Claims)
    ensures WellFormed(Obj(AssertionFields(claims)))
  {
    hide Spelling, KeysOf;
    var hasVisitor := claims.pseudonyms.visitor.Some?;
    var fields, keys := AssertionFields(claims), KeysOf(hasVisitor);
    KeysAreDistinct(hasVisitor);
    forall i, j | 0 <= i < j < |fields| ensures fields[i].key != fields[j].key {
      if Spelling(keys[i]) == Spelling(keys[j]) { SpellingInjective(keys[i], keys[j]); }
    }
    forall k | 0 <= k < |fields| ensures WellFormedField(fields[k]) { ScalarWellFormed(claims, keys[k]); }
  }

  lemma ScalarWellFormed(claims: Claims, key: Key)
    ensures WellFormed(ValueOf(claims, key))
  {
  }

  /** The assertion alone, once its mac is right, passes exactly inside the window of its own binding. */
  lemma CheckedSigned(claims: Claims, encoded: string, supplied: string, expected: Binding, later: SigningKeys,
                      t: int, u: int, crypto: Crypto)
    requires ValidClaims(claims) && claims.epoch == DayKey(t) && claims.issuedAt == Seconds(t)
    requires SigningKey(later, claims.keyVersion).Some? ==>
               supplied == crypto.mac(SigningKey(later, claims.keyVersion).value, encoded)
    ensures Checked(Obj(AssertionFields(claims)), encoded, supplied, expected, later, u, crypto)
         == if expected == claims.binding && SigningKey(later, claims.keyVersion).Some? && DayKey(u) == DayKey(t)
               && -5 <= Seconds(u) - Seconds(t) <= 65
            then Some(claims.pseudonyms) else None
  {
    hide DayKey, IsAssertion, AssertionFields, At, BindingOf, SigningKey, Seconds, ValidClaims;
    AssertedIsAssertion(claims);
    AssertedBinding(claims);
    AssertedAt(claims, KeyVersion);
    AssertedAt(claims, Epoch);
    AssertedAt(claims, IssuedAt);
    AssertedAt(claims, ExpiresAt);
    AssertedAt(claims, Network);
    AssertedAt(claims, VisitorKey);
    SecondStartsInDay(t);
    InstantsInRange(claims);
  }

  lemma InstantsInRange(claims: Claims)
    requires ValidClaims(claims)
    ensures IsInstant(Some(Num(claims.issuedAt))) && IsInstant(Some(Num(claims.issuedAt + TTL_SECONDS)))
  {
  }

  /** A signed token splits and decodes into the assertion and the mac it was made of. */
  lemma VerifySigned(claims: Claims, key: string, expected: Binding, later: SigningKeys, u: int, crypto: Crypto)
    requires crypto.Lawful() && ValidBinding(expected)
    ensures var encoded := crypto.encodeJson(Obj(AssertionFields(claims)));
            var token := encoded + "." + crypto.encodeMac(crypto.mac(key, encoded));
            |token| <= MAX_TOKEN_LENGTH ==>
              Verify(token, expected, later, u, crypto)
              == Checked(Obj(AssertionFields(claims)), encoded, crypto.mac(key, encoded), expected, later, u, crypto)
  {
    hide IsTokenPart, ValidBinding, Checked, Split, WellFormed, IsDigest, AssertionFields;
    var encoded := crypto.encodeJson(Obj(AssertionFields(claims)));
    AssertedWellFormed(claims);
    assert crypto.JsonTravels(Obj(AssertionFields(claims))) && crypto.MacTravels(key, encoded);
    TokenParts(encoded, crypto.encodeMac(crypto.mac(key, encoded)));
  }

  /**
   * A token signed at `t` verifies at `u`, for any binding asked about, exactly when the binding is the signed one,
   * the signing version is still available, the UTC day is the same, and `-5 <= sec(u) - sec(t) <= 65`; it then
   * returns the signed pseudonyms.
   */
  lemma SignedVerifies(binding: Binding, attribution: Attribution, keys: SigningKeys, t: int,
                       expected: Binding, later: SigningKeys, u: int, crypto: Crypto)
    requires crypto.Lawful() && IsTime(t)
    requires Sign(binding, attribution, keys, t, crypto).Some?
    requires |Sign(binding, attribution, keys, t, crypto).value| <= 4096
    requires SigningKey(later, keys.activeVersion).Some? ==>
               SigningKey(later, keys.activeVersion) == SigningKey(keys, keys.activeVersion)
    ensures AddressOf(attribution, crypto).Some?
    ensures Verify(Sign(binding, attribution, keys, t, crypto).value, expected, later, u, crypto)
         == if expected == binding && SigningKey(later, keys.activeVersion).Some? && DayKey(u) == DayKey(t)
               && -5 <= Seconds(u) - Seconds(t) <= 65
            then Some(PseudonymsOf(binding, DayKey(t), AddressOf(attribution, crypto).value, attribution.visitor,
                                   keys.pseudonymKey, crypto))
            else None
  {
    hide DayKey, PseudonymsOf, IsTokenPart, ValidBinding, AssertionFields;
    hide SigningKey, Checked, ValidClaims, AddressOf, Seconds;
    hide IsDigest;
    var address := AddressOf(attribution, crypto).value;
    var claims := ClaimsOf(binding, attribution, address, keys, t, crypto);
    SignedClaimsValid(binding, attribution, address, keys, t, crypto);
    if ValidBinding(expected) {
      var key := SigningKey(keys, keys.activeVersion).value;
      var encoded := crypto.encodeJson(Obj(AssertionFields(claims)));
      VerifySigned(claims, key, expected, later, u, crypto);
      CheckedSigned(claims, encoded, crypto.mac(key, encoded), expected, later, t, u, crypto);
    }
  }

  // ----- Nothing else verifies ------------------------------------------------------------------------------

  predicate HasText(fields: seq<Keyed<Json>>, key: string, text: string) {
    Get(fields, key) == Some(Str(text))
  }

  /** The six fields of the payload are those of the binding asked about. */
  predicate Carries(fields: seq<Keyed<Json>>, b: Binding) {
    && HasText(fields, "surfaceId", b.surfaceId) && HasText(fields, "installationId", b.installationId)
    && HasText(fields, "route", b.route) && HasText(fields, "method", b.method_)
    && HasText(fields, "idempotencyKey", b.idempotencyKey) && HasText(fields, "requestDigest", b.requestDigest)
  }

  /** The payload was issued for this service, today, and has not run out. */
  predicate Current(fields: seq<Keyed<Json>>, now: int) {
    && Get(fields, "version") == Some(Num(1))
    && HasText(fields, "issuer", "noodle-portal") && HasText(fields, "audience", "noodle-public-admission")
    && HasText(fields, "epoch", DayKey(now))
    && Get(fields, "issuedAt").Some? && Get(fields, "issuedAt").value.Num?
    && Get(fields, "expiresAt").Some? && Get(fields, "expiresAt").value.Num?
    && var issued, expires := Get(fields, "issuedAt").value.number, Get(fields, "expiresAt").value.number;
       && DayKey(issued * 1000) == DayKey(now)
       && issued - 5 <= now / 1000 <= expires + 5
       && issued < expires <= issued + 60
  }

  /** The mac is that of the payload under a usable key, of the version the payload names. */
  predicate Authentic(fields: seq<Keyed<Json>>, encoded: string, mac: string, keys: SigningKeys, crypto: Crypto) {
    exists version :: version in keys.keys && HasText(fields, "keyVersion", version) && IsVersion(version)
      && |keys.keys[version]| >= 32 && mac == crypto.mac(keys.keys[version], encoded)
  }

  /** The payload has no field but the fifteen, and its times and pseudonyms are well formed. */
  ghost predicate Described(fields: seq<Keyed<Json>>) {
    && (forall k :: 0 <= k < |fields| ==> IsFieldName(fields[k].key))
    && (exists network :: HasText(fields, "network", network) && IsHexDigest(network, 64))
    && (Get(fields, "visitor").None?
        || exists visitor :: HasText(fields, "visitor", visitor) && IsHexDigest(visitor, 64))
    && IsSafe(Get(fields, "issuedAt")) && IsSafe(Get(fields, "expiresAt"))
  }

  predicate IsFieldName(key: string) {
    || key == "surfaceId" || key == "installationId" || key == "route" || key == "method" || key == "idempotencyKey"
    || key == "requestDigest" || key == "version" || key == "keyVersion" || key == "issuer" || key == "audience"
    || key == "epoch" || key == "issuedAt" || key == "expiresAt" || key == "network" || key == "visitor"
  }

  predicate IsSafe(value: Option<Json>) {
    value.Some? && value.value.Num? && -9_007_199_254_740_991 <= value.value.number <= 9_007_199_254_740_991
  }

  /** A payload and its right mac, for this binding and this time. */
  ghost predicate Genuine(encoded: string, supplied: string, fields: seq<Keyed<Json>>, expected: Binding,
                          keys: SigningKeys, now: int, crypto: Crypto) {
    && |encoded| + |supplied| < 4096 && IsUrlText(encoded) && IsUrlText(supplied) && IsBinding(expected)
    && crypto.decodeJson(encoded) == Some(Obj(fields))
    && Authentic(fields, encoded, crypto.decodeMac(supplied), keys, crypto)
    && Carries(fields, expected) && Current(fields, now) && Described(fields)
  }

  /** A token that verifies is genuine, and what is reported is what it says. */
  lemma VerifiedIsGenuine(token: string, expected: Binding, keys: SigningKeys, now: int, crypto: Crypto)
    returns (encoded: string, supplied: string, fields: seq<Keyed<Json>>)
    requires Verify(token, expected, keys, now, crypto).Some?
    ensures token == encoded + "." + supplied
    ensures encoded == Split(token, '.')[0] && |Split(token, '.')| == 2 && supplied == Split(token, '.')[1]
    ensures Genuine(encoded, supplied, fields, expected, keys, now, crypto)
    ensures var pseudonyms := Verify(token, expected, keys, now, crypto).value;
            && HasText(fields, "network", pseudonyms.network)
            && Get(fields, "visitor") == if pseudonyms.visitor.Some? then Some(Str(pseudonyms.visitor.value)) else None
  {
    hide Checked, IsTokenPart, ValidBinding, DayKey, Authentic, Carries, Current, Described, IsUrlText, IsBinding;
    var parts := Split(token, '.');
    JoinSplit(token, '.');
    assert parts == [parts[0], parts[1]];
    assert Join(parts[1..], '.') == parts[1];
    encoded, supplied := parts[0], parts[1];
    var payload, mac := crypto.decodeJson(encoded).value, crypto.decodeMac(supplied);
    fields := CheckedIsGenuine(payload, encoded, mac, expected, keys, now, crypto);
    BindingsAgree(expected);
    UrlTextsAgree(encoded);
    UrlTextsAgree(supplied);
  }

  /** Every genuine token verifies. */
  lemma GenuineVerifies(encoded: string, supplied: string, fields: seq<Keyed<Json>>, expected: Binding,
                        keys: SigningKeys, now: int, crypto: Crypto)
    requires Genuine(encoded, supplied, fields, expected, keys, now, crypto)
    ensures Verify(encoded + "." + supplied, expected, keys, now, crypto).Some?
  {
    hide Checked, IsTokenPart, ValidBinding, DayKey, Authentic, Carries, Current, Described, IsUrlText, IsBinding;
    var token := encoded + "." + supplied;
    BindingsAgree(expected);
    UrlTextsAgree(encoded);
    UrlTextsAgree(supplied);
    SplitPart(encoded, '.', supplied);
    SplitPart(supplied, '.', "");
    assert Split(token, '.')[0] == encoded && Split(token, '.')[1] == supplied;
    GenuineIsChecked(fields, encoded, crypto.decodeMac(supplied), expected, keys, now, crypto);
  }

  lemma GenuineIsChecked(fields: seq<Keyed<Json>>, encoded: string, mac: string, expected: Binding, keys: SigningKeys,
                         now: int, crypto: Crypto)
    requires Authentic(fields, encoded, mac, keys, crypto) && IsBinding(expected)
    requires Carries(fields, expected) && Current(fields, now) && Described(fields)
    ensures Checked(Obj(fields), encoded, mac, expected, keys, now, crypto).Some?
  {
    hide IsAssertion, InTime, Current, Carries, BindingOf, Described, Get, IsVersion, ValidBinding, IsBinding;
    CarriedIsBound(fields, expected);
    BindingsAgree(expected);
    DescribedIsAssertion(fields, expected, now);
    CurrentIsInTime(fields, now);
    var version :| version in keys.keys && HasText(fields, "keyVersion", version) && IsVersion(version)
      && |keys.keys[version]| >= 32 && mac == crypto.mac(keys.keys[version], encoded);
    VersionsAgree(version);
  }

  lemma CarriedIsBound(fields: seq<Keyed<Json>>, expected: Binding)
    requires Carries(fields, expected)
    ensures BindingOf(fields) == Some(expected)
  {
    hide Get;
  }

  lemma DescribedIsAssertion(fields: seq<Keyed<Json>>, expected: Binding, now: int)
    requires BindingOf(fields) == Some(expected) && ValidBinding(expected)
    requires Current(fields, now) && Described(fields)
    requires exists version :: HasText(fields, "keyVersion", version)
    ensures IsAssertion(Obj(fields))
  {
    hide DayKey, Get, ValidBinding, BindingOf, IsHexDigest, IsFieldName, IsKnownKey;
    FieldNamesAreKnown(fields);
  }

  lemma FieldNamesAreKnown(fields: seq<Keyed<Json>>)
    requires forall k :: 0 <= k < |fields| ==> IsFieldName(fields[k].key)
    ensures forall k :: 0 <= k < |fields| ==> IsKnownKey(fields[k].key)
  {
    hide IsFieldName, IsKnownKey;
    forall k | 0 <= k < |fields| ensures IsKnownKey(fields[k].key) {
      FieldNameIsKnown(fields[k].key);
    }
  }

  lemma CurrentIsInTime(fields: seq<Keyed<Json>>, now: int)
    requires IsAssertion(Obj(fields)) && Current(fields, now)
    ensures InTime(fields, now)
  {
    hide DayKey, IsDigest, IsKnownKey, Get, ValidBinding, BindingOf;
  }

  lemma KnownIsFieldName(key: string)
    requires IsKnownKey(key)
    ensures IsFieldName(key)
  {
    var k: Key :| Spelling(k) == key;
  }

  lemma FieldNameIsKnown(key: string)
    requires IsFieldName(key)
    ensures IsKnownKey(key)
  {
    var k := NamedKey(key);
    assert Spelling(k) == key;
  }

  function NamedKey(key: string): Key {
    if key == "surfaceId" then SurfaceId
    else if key == "installationId" then InstallationId
    else if key == "route" then Route
    else if key == "method" then Method
    else if key == "idempotencyKey" then IdempotencyKey
    else if key == "requestDigest" then RequestDigest
    else if key == "version" then Version
    else if key == "keyVersion" then KeyVersion
    else if key == "issuer" then Issuer
    else if key == "audience" then Audience
    else if key == "epoch" then Epoch
    else if key == "issuedAt" then IssuedAt
    else if key == "expiresAt" then ExpiresAt
    else if key == "network" then Network
    else VisitorKey
  }

  lemma CheckedIsGenuine(value: Json, encoded: string, mac: string, expected: Binding, keys: SigningKeys, now: int,
                         crypto: Crypto) returns (fields: seq<Keyed<Json>>)
    requires Checked(value, encoded, mac, expected, keys, now, crypto).Some?
    ensures value == Obj(fields) && Authentic(fields, encoded, mac, keys, crypto)
    ensures Carries(fields, expected) && Current(fields, now) && Described(fields)
    ensures var pseudonyms := Checked(value, encoded, mac, expected, keys, now, crypto).value;
            && HasText(fields, "network", pseudonyms.network)
            && Get(fields, "visitor") == if pseudonyms.visitor.Some? then Some(Str(pseudonyms.visitor.value)) else None
  {
    hide IsAssertion, InTime, Current, Carries, BindingOf, Authentic, At, HasText, SigningKey, Described;
    AssertionIsObject(value);
    fields := value.fields;
    AssertionIsDescribed(fields);
    NamedPseudonyms(fields);
    KeyIsAuthentic(fields, encoded, mac, keys, crypto);
    InTimeIsCurrent(fields, now);
    BoundIsCarried(fields, expected);
  }

  lemma AssertionIsObject(value: Json)
    requires IsAssertion(value)
    ensures value.Obj?
  {
  }

  lemma AssertionIsDescribed(fields: seq<Keyed<Json>>)
    requires IsAssertion(Obj(fields))
    ensures Described(fields)
  {
    hide IsKnownKey, IsFieldName, Get, ValidBinding, BindingOf, IsHexDigest;
    forall k | 0 <= k < |fields| ensures IsFieldName(fields[k].key) {
      KnownIsFieldName(fields[k].key);
    }
    assert HasText(fields, "network", At(fields, Network).value.text);
    assert At(fields, VisitorKey).Some? ==> HasText(fields, "visitor", At(fields, VisitorKey).value.text);
  }

  lemma KeyIsAuthentic(fields: seq<Keyed<Json>>, encoded: string, mac: string, keys: SigningKeys, crypto: Crypto)
    requires IsStr(At(fields, KeyVersion)) && SigningKey(keys, At(fields, KeyVersion).value.text).Some?
    requires mac == crypto.mac(SigningKey(keys, At(fields, KeyVersion).value.text).value, encoded)
    ensures Authentic(fields, encoded, mac, keys, crypto)
  {
    hide IsTokenPart, Get, IsVersion;
    var version := At(fields, KeyVersion).value.text;
    VersionsAgree(version);
    assert HasText(fields, "keyVersion", version) && version in keys.keys;
  }

  lemma NamedPseudonyms(fields: seq<Keyed<Json>>)
    requires IsAssertion(Obj(fields))
    ensures IsStr(At(fields, KeyVersion))
    ensures IsStr(At(fields, Network)) && HasText(fields, "network", At(fields, Network).value.text)
    ensures Get(fields, "visitor") == At(fields, VisitorKey)
    ensures At(fields, VisitorKey).Some? ==> IsStr(At(fields, VisitorKey))
  {
    hide DayKey, IsDigest, IsKnownKey, Get, ValidBinding, BindingOf;
  }

  lemma InTimeIsCurrent(fields: seq<Keyed<Json>>, now: int)
    requires IsAssertion(Obj(fields)) && InTime(fields, now)
    ensures Current(fields, now)
  {
    hide DayKey, IsDigest, IsKnownKey, Get, ValidBinding, BindingOf;
  }

  lemma BoundIsCarried(fields: seq<Keyed<Json>>, expected: Binding)
    requires BindingOf(fields) == Some(expected)
    ensures Carries(fields, expected)
  {
    hide Get;
  }

  /** A mac that fits under none of the keys is refused, whatever is asked and whenever. */
  lemma ForgedIsRefused(encoded: string, supplied: string, expected: Binding, keys: SigningKeys, now: int,
                        crypto: Crypto)
    requires '.' !in encoded && '.' !in supplied
    requires forall version :: version in keys.keys ==>
               crypto.decodeMac(supplied) != crypto.mac(keys.keys[version], encoded)
    ensures Verify(encoded + "." + supplied, expected, keys, now, crypto).None?
  {
    hide Verify, Carries, Current, Described, IsBinding, IsUrlText;
    var token := encoded + "." + supplied;
    SplitPart(encoded, '.', supplied);
    SplitPart(supplied, '.', "");
    assert Split(token, '.')[0] == encoded && Split(token, '.')[1] == supplied;
    if Verify(token, expected, keys, now, crypto).Some? {
      var payload, mac, fields := VerifiedIsGenuine(token, expected, keys, now, crypto);
    }
  }

  /** Signing needs exactly an address, a long pseudonym key, a valid binding and a usable active key. */
  lemma SignsExactly(binding: Binding, attribution: Attribution, keys: SigningKeys, now: int, crypto: Crypto)
    ensures Sign(binding, attribution, keys, now, crypto).Some?
       <==> && ',' !in attribution.sourceAddress
            && ClientAddressBucket(Some(attribution.sourceAddress), crypto.addressDigest).Some?
            && |keys.pseudonymKey| >= 32 && IsBinding(binding)
            && IsVersion(keys.activeVersion) && keys.activeVersion in keys.keys
            && |keys.keys[keys.activeVersion]| >= 32
  {
    hide ClientAddressBucket, PseudonymsOf, AssertionFields, DayKey, ValidBinding, IsBinding, IsTokenPart, IsVersion;
    BindingsAgree(binding);
    VersionsAgree(keys.activeVersion);
  }

  lemma BindingsAgree(b: Binding)
    ensures ValidBinding(b) <==> IsBinding(b)
  {
    hide IsHexDigest;
  }

  lemma VersionsAgree(version: string)
    ensures IsTokenPart(version) && |version| <= 32 <==> IsVersion(version)
  {
    hide IsUrlText;
    UrlTextsAgree(version);
  }

  lemma UrlTextsAgree(text: string)
    ensures IsTokenPart(text) <==> IsUrlText(text)
    ensures IsUrlText(text) ==> '.' !in text
  {
    forall k | 0 <= k < |text|
      ensures IsTokenChar(text[k]) <==>
        'A' <= text[k] <= 'Z' || 'a' <= text[k] <= 'z' || '0' <= text[k] <= '9' || text[k] in "_-" { }
  }

  predicate IsBinding(b: Binding) {
    && 1 <= |b.surfaceId| <= 128 && 1 <= |b.installationId| <= 128 && 1 <= |b.idempotencyKey| <= 128
    && b.method_ == "POST" && 1 <= |b.route| <= 512 && b.route[0] == '/' && IsHexDigest(b.requestDigest, 64)
  }

  /** Letters, digits, `_` and `-`. */
  predicate IsUrlText(text: string) {
    text != "" && forall k :: 0 <= k < |text| ==>
      'A' <= text[k] <= 'Z' || 'a' <= text[k] <= 'z' || '0' <= text[k] <= '9' || text[k] in "_-"
  }

  predicate IsVersion(version: string) {
    IsUrlText(version) && |version| <= 32
  }

  // ----- Pseudonyms ---------------------------------------------------------------------------------------

  /** A pseudonym is the mac of the JSON list of installation, surface, day, kind and bucket. */
  lemma PseudonymsAreSpelled(b: Binding, epoch: string, address: string, visitor: Option<string>, key: string,
                             crypto: Crypto)
    ensures var p := PseudonymsOf(b, epoch, address, visitor, key, crypto);
            && p.network == crypto.macHex(key, Print(Arr([Str(b.installationId), Str(b.surfaceId), Str(epoch),
                                                          Str("network"), Str(address)])))
            && (p.visitor.Some? <==> visitor.Some?)
            && (visitor.Some? ==> p.visitor.value == crypto.macHex(key, Print(Arr([Str(b.installationId),
                                    Str(b.surfaceId), Str(epoch), Str("visitor"), Str(visitor.value)]))))
  {
    hide Print;
  }

  /** Every way of writing one source address gives the same bucket. */
  lemma AddressBucket(attribution: Attribution, a: Address, crypto: Crypto)
    requires ',' !in attribution.sourceAddress && Spells(attribution.sourceAddress, a)
    ensures AddressOf(attribution, crypto) == Some("ip_" + crypto.addressDigest(a.Text()))
  {
    hide Spells, ClientAddress.Canonical;
    SplitPart(attribution.sourceAddress, ',', "");
    CanonicalOfSpelling(attribution.sourceAddress, a);
    assert [attribution.sourceAddress][1..] == [];
  }

  /**
   * Rotating signing keys never moves a visitor: two verified tokens of one installation, surface, UTC day, address and
   * visitor carry the same pseudonyms, whatever keys signed them and however the address was spelled.
   */
  lemma RotationKeepsPseudonyms(b1: Binding, a1: Attribution, keys1: SigningKeys, t1: int, u1: int, later1: SigningKeys,
                                b2: Binding, a2: Attribution, keys2: SigningKeys, t2: int, u2: int, later2: SigningKeys,
                                address: Address, crypto: Crypto)
    requires crypto.Lawful() && IsTime(t1) && IsTime(t2)
    requires ',' !in a1.sourceAddress && ',' !in a2.sourceAddress
    requires Spells(a1.sourceAddress, address) && Spells(a2.sourceAddress, address) && a1.visitor == a2.visitor
    requires b1.installationId == b2.installationId && b1.surfaceId == b2.surfaceId && DayKey(t1) == DayKey(t2)
    requires keys1.pseudonymKey == keys2.pseudonymKey
    requires Sign(b1, a1, keys1, t1, crypto).Some? && Sign(b2, a2, keys2, t2, crypto).Some?
    requires SigningKey(later1, keys1.activeVersion) == SigningKey(keys1, keys1.activeVersion)
    requires SigningKey(later2, keys2.activeVersion) == SigningKey(keys2, keys2.activeVersion)
    requires Verify(Sign(b1, a1, keys1, t1, crypto).value, b1, later1, u1, crypto).Some?
    requires Verify(Sign(b2, a2, keys2, t2, crypto).value, b2, later2, u2, crypto).Some?
    ensures Verify(Sign(b1, a1, keys1, t1, crypto).value, b1, later1, u1, crypto)
         == Verify(Sign(b2, a2, keys2, t2, crypto).value, b2, later2, u2, crypto)
  {
    hide Spells, DayKey, SigningKey, Sign, AddressOf, Seconds, PseudonymText;
    AddressBucket(a1, address, crypto);
    AddressBucket(a2, address, crypto);
    VerifiedIsShort(Sign(b1, a1, keys1, t1, crypto).value, b1, later1, u1, crypto);
    VerifiedIsShort(Sign(b2, a2, keys2, t2, crypto).value, b2, later2, u2, crypto);
    hide Verify;
    SignedVerifies(b1, a1, keys1, t1, b1, later1, u1, crypto);
    SignedVerifies(b2, a2, keys2, t2, b2, later2, u2, crypto);
    SamePseudonyms(b1, b2, DayKey(t1), AddressOf(a1, crypto).value, a1.visitor, keys1.pseudonymKey, crypto);
  }

  lemma VerifiedIsShort(token: string, expected: Binding, keys: SigningKeys, now: int, crypto: Crypto)
    requires Verify(token, expected, keys, now, crypto).Some?
    ensures |token| <= MAX_TOKEN_LENGTH
  {
    hide Checked, Split;
  }

  lemma SamePseudonyms(b1: Binding, b2: Binding, epoch: string, address: string, visitor: Option<string>, key: string,
                       crypto: Crypto)
    requires b1.installationId == b2.installationId && b1.surfaceId == b2.surfaceId
    ensures PseudonymsOf(b1, epoch, address, visitor, key, crypto)
         == PseudonymsOf(b2, epoch, address, visitor, key, crypto)
  {
    hide Print;
  }

  /** Pseudonyms of different installations, surfaces, days, kinds or buckets are macs of different texts. */
  lemma PseudonymTextInjective(b1: Binding, epoch1: string, kind1: string, value1: string,
                               b2: Binding, epoch2: string, kind2: string, value2: string)
    ensures PseudonymText(b1, epoch1, kind1, value1) == PseudonymText(b2, epoch2, kind2, value2)
       <==> b1.installationId == b2.installationId && b1.surfaceId == b2.surfaceId
            && epoch1 == epoch2 && kind1 == kind2 && value1 == value2
  {
    hide Print, ParseValue;
    var list1 := [Str(b1.installationId), Str(b1.surfaceId), Str(epoch1), Str(kind1), Str(value1)];
    var list2 := [Str(b2.installationId), Str(b2.surfaceId), Str(epoch2), Str(kind2), Str(value2)];
    PrintedParses(Arr(list1), "");
    PrintedParses(Arr(list2), "");
    assert Print(Arr(list1)) + "" == Print(Arr(list1)) && Print(Arr(list2)) + "" == Print(Arr(list2));
    if PseudonymText(b1, epoch1, kind1, value1) == PseudonymText(b2, epoch2, kind2, value2) {
      assert list1 == list2;
      assert list1[0] == list2[0] && list1[1] == list2[1] && list1[2] == list2[2] && list1[3] == list2[3]
             && list1[4] == list2[4];
    }
  }
}
