/** The Buy Now callback codec: a fixed 35-byte payload of variant, price, expiry and nonce. */
module BuyNowCodec {
  import opened Positional
  import opened Results
  import opened Platform
  import opened CallbackCodec
  import CallbackRoundTrip
  import Base64Url
  import Ulid

  const CALLBACK_PREFIX := "buy:"
  const FORMAT_VERSION: int := 1
  const BUY_NOW_ACTION: int := 1
  const PAYLOAD_BYTES: nat := 35
  const SIGNATURE_BYTES: nat := 10
  const TOKEN_BYTES: nat := 45
  const ENCODED_BYTES: nat := 60
  const NONCE_BYTES: nat := 8
  const BUY_NOW_DOMAIN := "telegram-shop:buy-now:callback:v1\0"
  const IDEMPOTENCY_DOMAIN := "telegram-shop:buy-now:idempotency:v1\0"

  /** What `createBuyNowCallbackCodec` accepts. */
  predicate IsBuyNowConfig(config: CodecConfig) {
    |config.key| >= 32 && 0 <= config.keyVersion <= 15 && config.ttlSeconds > 0 && config.clockSkewSeconds >= 0
  }

  datatype BuyNowIssueError =
    | BadUser | BadVariant | BadPrice | BadNonce | BadTimestamp | TooLong

  datatype VerifiedBuyNow = VerifiedBuyNow(variantId: string, expectedPriceVnd: int, expiresAtMs: int,
                                           idempotencyKey: string)

  function BuyNowSignature(hmac: Hmac, key: seq<Byte>, user: string, payload: seq<Byte>): (s: seq<Byte>)
    requires IsAscii(user)
    ensures |s| == SIGNATURE_BYTES
  {
    hmac(key, SignedMessage(BUY_NOW_DOMAIN, user, payload))[..SIGNATURE_BYTES]
  }

  function BuyNowPayload(keyVersion: int, variant: seq<Byte>, price: nat, expiresAtSeconds: nat,
                         nonce: seq<Byte>): (p: seq<Byte>)
    requires 0 <= keyVersion <= 15 && |variant| == 16 && |nonce| == NONCE_BYTES
    ensures |p| == PAYLOAD_BYTES
  {
    [FORMAT_VERSION * 64 + BUY_NOW_ACTION * 16 + keyVersion] + variant + Digits(price, 256, 6)
    + Digits(expiresAtSeconds, 256, 4) + nonce
  }

  function BuyNowText(raw: seq<Byte>): string {
    CALLBACK_PREFIX + Base64Url.Encode(raw)
  }

  function IssueBuyNow(config: CodecConfig, hmac: Hmac, user: TelegramUserId, variantId: string, price: int,
                       nonce: seq<Byte>, nowMs: int)
    : Result<string, BuyNowIssueError>
    requires IsBuyNowConfig(config)
  {
    var normalized := Normalize(user);
    if normalized.None? then Err(BadUser)
    else if !Ulid.IsId(variantId) then Err(BadVariant)
    else if price <= 0 || price > MAX_CALLBACK_PRICE_VND then Err(BadPrice)
    else if |nonce| != NONCE_BYTES then Err(BadNonce)
    else
      var nowSeconds := ToUnixSeconds(nowMs);
      var expiresAtSeconds := nowSeconds + config.ttlSeconds;
      if nowSeconds < 0 || expiresAtSeconds > MAX_UINT32 then Err(BadTimestamp)
      else
        var variant := Ulid.EncodeUlid(variantId);
        if variant.None? then Err(BadVariant)
        else
          var payload := BuyNowPayload(config.keyVersion, variant.value, price, expiresAtSeconds, nonce);
          var token := BuyNowText(payload + BuyNowSignature(hmac, config.key, normalized.value, payload));
          if Utf8Length(token) > MAX_CALLBACK_DATA_BYTES then Err(TooLong) else Ok(token)
  }

  /** The order's idempotency key: a digest of the user and the nonce. */
  function IdempotencyKey(sha256: Sha256, user: string, nonce: seq<Byte>): string
    requires IsAscii(user)
  {
    "buy:v1:" + Base64Url.Encode(sha256(SignedMessage(IDEMPOTENCY_DOMAIN, user, nonce))[..18])
  }

  function VerifyBuyNow(config: CodecConfig, hmac: Hmac, sha256: Sha256, data: string, user: TelegramUserId, nowMs: int)
    : Result<VerifiedBuyNow, VerificationError>
    requires IsBuyNowConfig(config)
  {
    var normalized := Normalize(user);
    if normalized.None? then Err(Malformed)
    else if !(CALLBACK_PREFIX <= data) || Utf8Length(data) != |CALLBACK_PREFIX| + ENCODED_BYTES then Err(Malformed)
    else
      var encoded := data[|CALLBACK_PREFIX|..];
      if |encoded| != ENCODED_BYTES || !Base64Url.IsText(encoded) then Err(Malformed)
      else
        var raw := Base64Url.Decode(encoded);
        if |raw| != TOKEN_BYTES then Err(Malformed)
        else VerifyBuyNowRaw(config, hmac, sha256, raw, normalized.value, nowMs)
  }

  function VerifyBuyNowRaw(config: CodecConfig, hmac: Hmac, sha256: Sha256, raw: seq<Byte>, user: string, nowMs: int)
    : Result<VerifiedBuyNow, VerificationError>
    requires IsBuyNowConfig(config) && IsAscii(user) && |raw| == TOKEN_BYTES
  {
    var payload := raw[..PAYLOAD_BYTES];
    if payload[0] / 64 != FORMAT_VERSION then Err(UnsupportedVersion)
    else if payload[0] / 16 % 4 != BUY_NOW_ACTION then Err(WrongAction)
    else if payload[0] % 16 != config.keyVersion then Err(UnknownKeyVersion)
    else if raw[PAYLOAD_BYTES..] != BuyNowSignature(hmac, config.key, user, payload) then Err(InvalidSignature)
    else
      var expiresAtSeconds := Value(payload[23..27], 256);
      var nowSeconds := ToUnixSeconds(nowMs);
      if nowSeconds > expiresAtSeconds + config.clockSkewSeconds then Err(Expired)
      else if expiresAtSeconds > nowSeconds + config.ttlSeconds + config.clockSkewSeconds then Err(NotYetValid)
      else Ok(VerifiedBuyNow(Ulid.DecodeUlid(payload[1..17]), Value(payload[17..23], 256), expiresAtSeconds * 1000,
                             IdempotencyKey(sha256, user, payload[27..35])))
  }

  lemma BuyNowFields(keyVersion: int, variant: seq<Byte>, price: nat, expiresAtSeconds: nat, nonce: seq<Byte>)
    requires 0 <= keyVersion <= 15 && |variant| == 16 && |nonce| == NONCE_BYTES
    requires price <= MAX_CALLBACK_PRICE_VND && expiresAtSeconds <= MAX_UINT32
    ensures var p := BuyNowPayload(keyVersion, variant, price, expiresAtSeconds, nonce);
            && p[0] / 64 == FORMAT_VERSION && p[0] / 16 % 4 == BUY_NOW_ACTION && p[0] % 16 == keyVersion
            && p[1..17] == variant && Value(p[17..23], 256) == price
            && Value(p[23..27], 256) == expiresAtSeconds && p[27..35] == nonce
  {
    hide Digits, Value;
    var p := BuyNowPayload(keyVersion, variant, price, expiresAtSeconds, nonce);
    CallbackRoundTrip.AmountRoundTrip(price);
    CallbackRoundTrip.TimestampRoundTrip(expiresAtSeconds);
    assert p[1..17] == variant;
    assert p[17..23] == Digits(price, 256, 6);
    assert p[23..27] == Digits(expiresAtSeconds, 256, 4);
    assert p[27..35] == nonce;
  }

  lemma BuyNowTextRoundTrip(raw: seq<Byte>)
    requires |raw| == TOKEN_BYTES
    ensures var token := BuyNowText(raw);
            && CALLBACK_PREFIX <= token && |token[4..]| == ENCODED_BYTES && Base64Url.IsText(token[4..])
            && Base64Url.Decode(token[4..]) == raw && Utf8Length(token) == |token| == 64
  {
    var token := BuyNowText(raw);
    Base64Url.DecodeEncode(raw);
    assert token[4..] == Base64Url.Encode(raw);
    forall i | 0 <= i < |token| ensures token[i] < 128 as char {
      if i >= 4 {
        assert token[i] == token[4..][i - 4];
      }
    }
    Utf8LengthOfAscii(token);
  }

  predicate BuyNowInputsValid(config: CodecConfig, user: TelegramUserId, variantId: string, price: int,
                              nonce: seq<Byte>, nowMs: int) {
    && Normalize(user).Some? && Ulid.IsId(variantId) && variantId[0] <= '7'
    && 0 < price <= MAX_CALLBACK_PRICE_VND && |nonce| == NONCE_BYTES
    && 0 <= ToUnixSeconds(nowMs) && ToUnixSeconds(nowMs) + config.ttlSeconds <= MAX_UINT32
  }

  /** Issuing succeeds exactly on valid inputs, always with 64 bytes: the size guard is dead. */
  lemma IssueBuyNowSucceeds(config: CodecConfig, hmac: Hmac, user: TelegramUserId, variantId: string, price: int,
                            nonce: seq<Byte>, nowMs: int)
    requires IsBuyNowConfig(config)
    ensures var r := IssueBuyNow(config, hmac, user, variantId, price, nonce, nowMs);
            && (r.Ok? <==> BuyNowInputsValid(config, user, variantId, price, nonce, nowMs))
            && (r.Ok? ==> |r.value| == 64) && r != Err(TooLong)
  {
    hide Normalize, Ulid.EncodeUlid, BuyNowText, Utf8Length;
    if Ulid.IsId(variantId) {
      Ulid.EncodesIff(variantId);
      var variant := Ulid.EncodeUlid(variantId);
      if variant.Some? && |nonce| == NONCE_BYTES && 0 < price && 0 <= ToUnixSeconds(nowMs) && Normalize(user).Some? {
        var payload := BuyNowPayload(config.keyVersion, variant.value, price, ToUnixSeconds(nowMs) + config.ttlSeconds,
                                     nonce);
        BuyNowTextRoundTrip(payload + BuyNowSignature(hmac, config.key, Normalize(user).value, payload));
      }
    }
  }

  /** The verdict on a signed payload, by its age. */
  function BuyNowVerdict(config: CodecConfig, variantId: string, price: int, expires: int, key: string, presented: int)
    : Result<VerifiedBuyNow, VerificationError>
  {
    if presented > expires + config.clockSkewSeconds then Err(Expired)
    else if presented < expires - config.ttlSeconds - config.clockSkewSeconds then Err(NotYetValid)
    else Ok(VerifiedBuyNow(variantId, price, expires * 1000, key))
  }

  /** What a payload and any signature verify to: the signature is compared before the time. */
  lemma VerifyBuyNowFields(config: CodecConfig, hmac: Hmac, sha256: Sha256, user: string, variantId: string, price: nat,
                           expires: nat, nonce: seq<Byte>, signature: seq<Byte>, presentedMs: int)
    requires IsBuyNowConfig(config) && IsAscii(user) && Ulid.IsId(variantId) && variantId[0] <= '7'
    requires price <= MAX_CALLBACK_PRICE_VND && expires <= MAX_UINT32 && |nonce| == NONCE_BYTES
    requires |signature| == SIGNATURE_BYTES
    ensures Ulid.EncodeUlid(variantId).Some?
    ensures var payload := BuyNowPayload(config.keyVersion, Ulid.EncodeUlid(variantId).value, price, expires, nonce);
            VerifyBuyNowRaw(config, hmac, sha256, payload + signature, user, presentedMs)
            == if signature != BuyNowSignature(hmac, config.key, user, payload) then Err(InvalidSignature)
               else BuyNowVerdict(config, variantId, price, expires, IdempotencyKey(sha256, user, nonce),
                                  ToUnixSeconds(presentedMs))
  {
    Ulid.EncodesIff(variantId);
    hide Ulid.EncodeUlid, Ulid.DecodeUlid, BuyNowPayload, BuyNowSignature, Value, Digits, IdempotencyKey;
    var payload := BuyNowPayload(config.keyVersion, Ulid.EncodeUlid(variantId).value, price, expires, nonce);
    var raw := payload + signature;
    assert raw[..PAYLOAD_BYTES] == payload && raw[PAYLOAD_BYTES..] == signature;
    BuyNowFields(config.keyVersion, Ulid.EncodeUlid(variantId).value, price, expires, nonce);
    Ulid.DecodeEncode(variantId);
  }

  /** The text of a token leaves its bytes to be read. */
  lemma VerifyBuyNowText(config: CodecConfig, hmac: Hmac, sha256: Sha256, user: TelegramUserId, raw: seq<Byte>,
                         presentedMs: int)
    requires IsBuyNowConfig(config) && Normalize(user).Some? && |raw| == PAYLOAD_BYTES + SIGNATURE_BYTES
    ensures VerifyBuyNow(config, hmac, sha256, BuyNowText(raw), user, presentedMs)
            == VerifyBuyNowRaw(config, hmac, sha256, raw, Normalize(user).value, presentedMs)
  {
    hide VerifyBuyNowRaw, Normalize, Utf8Length, BuyNowText, Base64Url.Decode;
    BuyNowTextRoundTrip(raw);
  }

  /** An issued token, taken apart. */
  lemma IssuedBuyNow(config: CodecConfig, hmac: Hmac, user: TelegramUserId, variantId: string, price: int,
                     nonce: seq<Byte>, nowMs: int)
    returns (payload: seq<Byte>)
    requires IsBuyNowConfig(config) && BuyNowInputsValid(config, user, variantId, price, nonce, nowMs)
    ensures Normalize(user).Some? && Ulid.EncodeUlid(variantId).Some?
    ensures payload == BuyNowPayload(config.keyVersion, Ulid.EncodeUlid(variantId).value, price,
                                     ToUnixSeconds(nowMs) + config.ttlSeconds, nonce)
    ensures IssueBuyNow(config, hmac, user, variantId, price, nonce, nowMs)
            == Ok(BuyNowText(payload + BuyNowSignature(hmac, config.key, Normalize(user).value, payload)))
  {
    hide Normalize, Ulid.EncodeUlid, Ulid.IsUlidText, BuyNowText, BuyNowPayload, BuyNowSignature, Utf8Length;
    Ulid.EncodesIff(variantId);
    payload := BuyNowPayload(config.keyVersion, Ulid.EncodeUlid(variantId).value, price,
                             ToUnixSeconds(nowMs) + config.ttlSeconds, nonce);
    BuyNowTextRoundTrip(payload + BuyNowSignature(hmac, config.key, Normalize(user).value, payload));
  }

  lemma ValidInputs(config: CodecConfig, user: TelegramUserId, variantId: string, price: int, nonce: seq<Byte>,
                    nowMs: int)
    requires IsBuyNowConfig(config) && BuyNowInputsValid(config, user, variantId, price, nonce, nowMs)
    ensures Ulid.IsId(variantId) && variantId[0] <= '7' && 0 <= price <= MAX_CALLBACK_PRICE_VND
    ensures |nonce| == NONCE_BYTES && 0 <= ToUnixSeconds(nowMs) + config.ttlSeconds <= MAX_UINT32
  {
    hide Normalize;
  }

  lemma IssuedBuyNowVerdict(config: CodecConfig, hmac: Hmac, sha256: Sha256, issuedTo: TelegramUserId,
                            presentedBy: TelegramUserId,
                            variantId: string, price: int, nonce: seq<Byte>, issuedMs: int, presentedMs: int)
    requires IsBuyNowConfig(config) && BuyNowInputsValid(config, issuedTo, variantId, price, nonce, issuedMs)
    requires Normalize(issuedTo) == Normalize(presentedBy)
    ensures Normalize(issuedTo).Some? && IssueBuyNow(config, hmac, issuedTo, variantId, price, nonce, issuedMs).Ok?
    ensures var token := IssueBuyNow(config, hmac, issuedTo, variantId, price, nonce, issuedMs).value;
            var key := IdempotencyKey(sha256, Normalize(issuedTo).value, nonce);
            VerifyBuyNow(config, hmac, sha256, token, presentedBy, presentedMs)
            == BuyNowVerdict(config, variantId, price, ToUnixSeconds(issuedMs) + config.ttlSeconds, key,
                             ToUnixSeconds(presentedMs))
  {
    hide *;
    ValidInputs(config, issuedTo, variantId, price, nonce, issuedMs);
    var payload := IssuedBuyNow(config, hmac, issuedTo, variantId, price, nonce, issuedMs);
    var user := Normalize(issuedTo).value;
    var signature := BuyNowSignature(hmac, config.key, user, payload);
    VerifyBuyNowText(config, hmac, sha256, presentedBy, payload + signature, presentedMs);
    VerifyBuyNowFields(config, hmac, sha256, user, variantId, price, ToUnixSeconds(issuedMs) + config.ttlSeconds, nonce,
                       signature, presentedMs);
  }

  /** The Buy Now round trip, at every time: accepted exactly from issue minus skew to issue plus
      lifetime plus skew, and then with the issued variant, price, expiry and idempotency key. */
  lemma BuyNowRoundTrip(config: CodecConfig, hmac: Hmac, sha256: Sha256, issuedTo: TelegramUserId,
                        presentedBy: TelegramUserId,
                        variantId: string, price: int, nonce: seq<Byte>, issuedMs: int, presentedMs: int)
    requires IsBuyNowConfig(config) && BuyNowInputsValid(config, issuedTo, variantId, price, nonce, issuedMs)
    requires Normalize(issuedTo) == Normalize(presentedBy)
    ensures Normalize(issuedTo).Some? && IssueBuyNow(config, hmac, issuedTo, variantId, price, nonce, issuedMs).Ok?
    ensures var token := IssueBuyNow(config, hmac, issuedTo, variantId, price, nonce, issuedMs).value;
            var issued, presented := ToUnixSeconds(issuedMs), ToUnixSeconds(presentedMs);
            VerifyBuyNow(config, hmac, sha256, token, presentedBy, presentedMs)
            == if presented > issued + config.ttlSeconds + config.clockSkewSeconds then Err(Expired)
               else if presented < issued - config.clockSkewSeconds then Err(NotYetValid)
               else Ok(VerifiedBuyNow(variantId, price, (issued + config.ttlSeconds) * 1000,
                                      IdempotencyKey(sha256, Normalize(issuedTo).value, nonce)))
  {
    hide IsBuyNowConfig, BuyNowInputsValid, IssueBuyNow, VerifyBuyNow, Normalize, IdempotencyKey, ToUnixSeconds;
    IssuedBuyNowVerdict(config, hmac, sha256, issuedTo, presentedBy, variantId, price, nonce, issuedMs, presentedMs);
  }

  // ----- What a Buy Now token is bound to

  /** The two codecs share a key, but no message of one is a message of the other. */
  lemma DomainsApart(u: string, v: string, p: seq<Byte>, q: seq<Byte>)
    requires IsAscii(u) && IsAscii(v)
    ensures SignedMessage(SIGNING_DOMAIN, u, p) != SignedMessage(BUY_NOW_DOMAIN, v, q)
  {
    assert SignedMessage(SIGNING_DOMAIN, u, p)[14] == SIGNING_DOMAIN[14] as int;
    assert SignedMessage(BUY_NOW_DOMAIN, v, q)[14] == BUY_NOW_DOMAIN[14] as int;
  }

  /** Two different messages, of two users and one payload, have the same truncated MAC. */
  predicate BuyNowMacsCollide(hmac: Hmac, key: seq<Byte>, u: string, v: string, payload: seq<Byte>)
    requires IsAscii(u) && IsAscii(v)
  {
    && SignedMessage(BUY_NOW_DOMAIN, u, payload) != SignedMessage(BUY_NOW_DOMAIN, v, payload)
    && BuyNowSignature(hmac, key, u, payload) == BuyNowSignature(hmac, key, v, payload)
  }

  lemma BuyNowCollideIffSame(hmac: Hmac, key: seq<Byte>, a: TelegramUserId, b: TelegramUserId, payload: seq<Byte>)
    requires Normalize(a).Some? && Normalize(b).Some? && Normalize(a) != Normalize(b)
    ensures var u, v := Normalize(a).value, Normalize(b).value;
            BuyNowMacsCollide(hmac, key, u, v, payload)
            <==> BuyNowSignature(hmac, key, u, payload) == BuyNowSignature(hmac, key, v, payload)
  {
    hide Normalize, BuyNowSignature, SignedMessage;
    CallbackRoundTrip.MessagesDiffer(BUY_NOW_DOMAIN, a, b, payload);
  }

  /** What any other user gets for an issued Buy Now token: a refused signature, unless the truncated
      MACs of two different messages coincide. */
  lemma BuyNowBoundToItsUser(config: CodecConfig, hmac: Hmac, sha256: Sha256, issuedTo: TelegramUserId,
                             presentedBy: TelegramUserId,
                             variantId: string, price: int, nonce: seq<Byte>, issuedMs: int, presentedMs: int)
    returns (payload: seq<Byte>)
    requires IsBuyNowConfig(config) && BuyNowInputsValid(config, issuedTo, variantId, price, nonce, issuedMs)
    requires Normalize(presentedBy).Some? && Normalize(issuedTo) != Normalize(presentedBy)
    ensures Normalize(issuedTo).Some?
    ensures var u, v := Normalize(issuedTo).value, Normalize(presentedBy).value;
            var token := BuyNowText(payload + BuyNowSignature(hmac, config.key, u, payload));
            && IssueBuyNow(config, hmac, issuedTo, variantId, price, nonce, issuedMs) == Ok(token)
            && VerifyBuyNow(config, hmac, sha256, token, presentedBy, presentedMs)
               == if BuyNowMacsCollide(hmac, config.key, u, v, payload) then
                    BuyNowVerdict(config, variantId, price, ToUnixSeconds(issuedMs) + config.ttlSeconds,
                                  IdempotencyKey(sha256, v, nonce), ToUnixSeconds(presentedMs))
                  else Err(InvalidSignature)
  {
    hide *;
    ValidInputs(config, issuedTo, variantId, price, nonce, issuedMs);
    payload := IssuedBuyNow(config, hmac, issuedTo, variantId, price, nonce, issuedMs);
    var signature := BuyNowSignature(hmac, config.key, Normalize(issuedTo).value, payload);
    VerifyBuyNowText(config, hmac, sha256, presentedBy, payload + signature, presentedMs);
    VerifyBuyNowFields(config, hmac, sha256, Normalize(presentedBy).value, variantId, price,
                       ToUnixSeconds(issuedMs) + config.ttlSeconds, nonce, signature, presentedMs);
    BuyNowCollideIffSame(hmac, config.key, issuedTo, presentedBy, payload);
  }

  /** Two accepted strings with the same bytes are the same string, with no re-encode check. */
  lemma BuyNowTextIsUnique(config: CodecConfig, hmac: Hmac, sha256: Sha256, s: string, t: string, user: TelegramUserId,
                           nowMs: int)
    requires IsBuyNowConfig(config)
    ensures VerifyBuyNow(config, hmac, sha256, s, user, nowMs).Ok?
            && VerifyBuyNow(config, hmac, sha256, t, user, nowMs).Ok? ==>
              && |s| > 4 && |t| > 4 && Base64Url.IsText(s[4..]) && Base64Url.IsText(t[4..])
              && (Base64Url.Decode(s[4..]) == Base64Url.Decode(t[4..]) <==> s == t)
  {
    hide VerifyBuyNowRaw, Base64Url.Decode, Utf8Length, Normalize;
    if VerifyBuyNow(config, hmac, sha256, s, user, nowMs).Ok?
        && VerifyBuyNow(config, hmac, sha256, t, user, nowMs).Ok? {
      Base64Url.WholeGroupsBijective(s[4..], t[4..]);
      assert s == s[..4] + s[4..] && t == t[..4] + t[4..];
    }
  }

  // ----- The bytes, written out

  /** What is authenticated, and what a purchase's key is a digest of, without the constants. */
  function BuyNowMessage(user: string, payload: seq<Byte>): seq<Byte>
    requires IsAscii(user)
  {
    AsciiBytes("telegram-shop:buy-now:callback:v1\0") + AsciiBytes(user) + [0] + payload
  }

  function PurchaseMessage(user: string, nonce: seq<Byte>): seq<Byte>
    requires IsAscii(user)
  {
    AsciiBytes("telegram-shop:buy-now:idempotency:v1\0") + AsciiBytes(user) + [0] + nonce
  }

  lemma BuyNowSignatureIs(hmac: Hmac, key: seq<Byte>, user: string, payload: seq<Byte>)
    requires IsAscii(user)
    ensures BuyNowSignature(hmac, key, user, payload) == hmac(key, BuyNowMessage(user, payload))[..10]
  {
  }

  lemma KeyIsDigest(sha256: Sha256, user: string, nonce: seq<Byte>)
    requires IsAscii(user)
    ensures IdempotencyKey(sha256, user, nonce)
            == "buy:v1:" + Base64Url.Encode(sha256(PurchaseMessage(user, nonce))[..18])
  {
  }

  lemma PurchaseMessagesDiffer(a: TelegramUserId, b: TelegramUserId, m: seq<Byte>, n: seq<Byte>)
    requires Normalize(a).Some? && Normalize(b).Some?
    ensures PurchaseMessage(Normalize(a).value, m) == PurchaseMessage(Normalize(b).value, n)
            <==> Normalize(a) == Normalize(b) && m == n
  {
    hide Normalize, AsciiBytes;
    var u, v := Normalize(a).value, Normalize(b).value;
    CallbackRoundTrip.NormalizedHasNoZero(a);
    CallbackRoundTrip.NormalizedHasNoZero(b);
    if PurchaseMessage(u, m) == PurchaseMessage(v, n) {
      CallbackRoundTrip.SignedMessageInjective(IDEMPOTENCY_DOMAIN, u, v, m, n);
    }
  }

  /** Two purchases get one key exactly when the digests of their messages begin with the same 18
      bytes; and the messages are the same only for one user and one nonce. */
  lemma KeysCoincideIff(sha256: Sha256, a: TelegramUserId, b: TelegramUserId, m: seq<Byte>, n: seq<Byte>)
    requires Normalize(a).Some? && Normalize(b).Some?
    ensures var u, v := Normalize(a).value, Normalize(b).value;
            var p, q := PurchaseMessage(u, m), PurchaseMessage(v, n);
            && (IdempotencyKey(sha256, u, m) == IdempotencyKey(sha256, v, n) <==> sha256(p)[..18] == sha256(q)[..18])
            && (p == q <==> u == v && m == n)
  {
    hide *;
    var u, v := Normalize(a).value, Normalize(b).value;
    var d, e := sha256(PurchaseMessage(u, m))[..18], sha256(PurchaseMessage(v, n))[..18];
    KeyIsDigest(sha256, u, m);
    KeyIsDigest(sha256, v, n);
    PurchaseMessagesDiffer(a, b, m, n);
    Base64Url.DecodeEncode(d);
    Base64Url.DecodeEncode(e);
    assert ("buy:v1:" + Base64Url.Encode(d))[7..] == Base64Url.Encode(d);
    assert ("buy:v1:" + Base64Url.Encode(e))[7..] == Base64Url.Encode(e);
  }

  // ----- The verdict, whatever is presented

  predicate IsBuyNowText(data: string) {
    "buy:" <= data && |data| == 64 && Base64Url.IsText(data[4..])
  }

  /** Malformed is the text alone, or the user; everything else is read in the 45 bytes. */
  lemma BuyNowTextDecides(config: CodecConfig, hmac: Hmac, sha256: Sha256, data: string, user: TelegramUserId,
                          nowMs: int)
    requires IsBuyNowConfig(config)
    ensures var r := VerifyBuyNow(config, hmac, sha256, data, user, nowMs);
            && (r == Err(Malformed) <==> Normalize(user).None? || !IsBuyNowText(data))
            && (r != Err(Malformed) ==>
                  && |Base64Url.Decode(data[4..])| == 45
                  && r == VerifyBuyNowRaw(config, hmac, sha256, Base64Url.Decode(data[4..]), Normalize(user).value,
                                          nowMs))
  {
    hide Normalize, Base64Url.Decode, BuyNowSignature, IdempotencyKey, Ulid.DecodeUlid, Value, Utf8Length;
    if IsBuyNowText(data) {
      Base64Url.ReencodeCheck(data[4..]);
      forall i | 0 <= i < |data| ensures data[i] < 128 as char {
        if i >= 4 {
          assert data[i] == data[4..][i - 4];
        }
      }
      Utf8LengthOfAscii(data);
    }
  }

  /** Which error the bytes give, in the order of the checks. */
  lemma BuyNowBytesDecide(config: CodecConfig, hmac: Hmac, sha256: Sha256, raw: seq<Byte>, user: string, nowMs: int)
    requires IsBuyNowConfig(config) && IsAscii(user) && |raw| == 45
    ensures var r := VerifyBuyNowRaw(config, hmac, sha256, raw, user, nowMs);
            var signed := raw[35..] == hmac(config.key, BuyNowMessage(user, raw[..35]))[..10];
            var expires, now := Value(raw[23..27], 256), ToUnixSeconds(nowMs);
            && (r == Err(UnsupportedVersion) <==> raw[0] < 64 || 128 <= raw[0])
            && (r == Err(WrongAction) <==> 64 <= raw[0] < 80 || 96 <= raw[0] < 128)
            && (r == Err(UnknownKeyVersion) <==> 80 <= raw[0] < 96 && raw[0] != 80 + config.keyVersion)
            && (r == Err(InvalidSignature) <==> raw[0] == 80 + config.keyVersion && !signed)
            && (raw[0] == 80 + config.keyVersion && signed ==>
                  r == BuyNowVerdict(config, Ulid.DecodeUlid(raw[1..17]), Value(raw[17..23], 256), expires,
                                     IdempotencyKey(sha256, user, raw[27..35]), now))
  {
    hide AsciiBytes, IdempotencyKey, Ulid.DecodeUlid, Value, ToUnixSeconds, BuyNowSignature, BuyNowMessage;
    BuyNowSignatureIs(hmac, config.key, user, raw[..35]);
    var payload := raw[..35];
    assert payload[23..27] == raw[23..27] && payload[1..17] == raw[1..17] && payload[17..23] == raw[17..23];
    assert payload[27..35] == raw[27..35];
  }

  lemma PayloadIs(config: CodecConfig, variant: seq<Byte>, price: nat, expires: nat, nonce: seq<Byte>, raw: seq<Byte>)
    requires IsBuyNowConfig(config) && |variant| == 16 && |nonce| == NONCE_BYTES
    requires BuyNowPayload(config.keyVersion, variant, price, expires, nonce) <= raw
    ensures BuyNowPayload(config.keyVersion, variant, price, expires, nonce)
            == [80 + config.keyVersion] + variant + Digits(price, 256, 6) + Digits(expires, 256, 4) + nonce
    ensures raw[0] == 80 + config.keyVersion && BuyNowText(raw) == "buy:" + Base64Url.Encode(raw)
    ensures 0 <= config.keyVersion <= 15
  {
    hide Digits, Base64Url.Encode;
  }

  /** An issued token byte by byte: header, variant, price, expiry, nonce, and the MAC's first ten bytes. */
  lemma IssuedBuyNowIs(config: CodecConfig, hmac: Hmac, user: TelegramUserId, variantId: string, price: int,
                       nonce: seq<Byte>, nowMs: int)
    returns (payload: seq<Byte>, signature: seq<Byte>)
    requires IsBuyNowConfig(config) && BuyNowInputsValid(config, user, variantId, price, nonce, nowMs)
    ensures Normalize(user).Some? && Ulid.EncodeUlid(variantId).Some? && 0 <= price
    ensures 0 <= ToUnixSeconds(nowMs) + config.ttlSeconds
    ensures payload == [80 + config.keyVersion] + Ulid.EncodeUlid(variantId).value + Digits(price, 256, 6)
                       + Digits(ToUnixSeconds(nowMs) + config.ttlSeconds, 256, 4) + nonce
    ensures signature == hmac(config.key, BuyNowMessage(Normalize(user).value, payload))[..10]
    ensures IssueBuyNow(config, hmac, user, variantId, price, nonce, nowMs)
            == Ok("buy:" + Base64Url.Encode(payload + signature))
  {
    hide *;
    ValidInputs(config, user, variantId, price, nonce, nowMs);
    payload := IssuedBuyNow(config, hmac, user, variantId, price, nonce, nowMs);
    signature := BuyNowSignature(hmac, config.key, Normalize(user).value, payload);
    BuyNowSignatureIs(hmac, config.key, Normalize(user).value, payload);
    PayloadIs(config, Ulid.EncodeUlid(variantId).value, price, ToUnixSeconds(nowMs) + config.ttlSeconds, nonce,
              payload + signature);
  }

  /** What a payload of one key version, signed with one key, is to a verifier with others. */
  lemma VerifyForeignBytes(issuer: CodecConfig, verifier: CodecConfig, hmac: Hmac, sha256: Sha256, user: string,
                           variantId: string, price: nat, expires: nat, nonce: seq<Byte>, presentedMs: int)
    requires IsBuyNowConfig(issuer) && IsBuyNowConfig(verifier) && IsAscii(user)
    requires Ulid.IsId(variantId) && variantId[0] <= '7'
    requires price <= MAX_CALLBACK_PRICE_VND && expires <= MAX_UINT32 && |nonce| == NONCE_BYTES
    ensures Ulid.EncodeUlid(variantId).Some? && 0 <= issuer.keyVersion <= 15
    ensures var payload := BuyNowPayload(issuer.keyVersion, Ulid.EncodeUlid(variantId).value, price, expires, nonce);
            var made, expected := BuyNowSignature(hmac, issuer.key, user, payload),
                                  BuyNowSignature(hmac, verifier.key, user, payload);
            VerifyBuyNowRaw(verifier, hmac, sha256, payload + made, user, presentedMs)
            == if issuer.keyVersion != verifier.keyVersion then Err(UnknownKeyVersion)
               else if made != expected then Err(InvalidSignature)
               else BuyNowVerdict(verifier, variantId, price, expires, IdempotencyKey(sha256, user, nonce),
                                  ToUnixSeconds(presentedMs))
  {
    hide BuyNowPayload, BuyNowSignature, VerifyBuyNowRaw, Ulid.EncodeUlid, IdempotencyKey, BuyNowVerdict, Ulid.IsId,
         ToUnixSeconds, SignedMessage, BuyNowMessage, AsciiBytes, Ulid.IsUlidText;
    Ulid.EncodesIff(variantId);
    var variant := Ulid.EncodeUlid(variantId).value;
    var payload := BuyNowPayload(issuer.keyVersion, variant, price, expires, nonce);
    var made := BuyNowSignature(hmac, issuer.key, user, payload);
    if issuer.keyVersion == verifier.keyVersion {
      VerifyBuyNowFields(verifier, hmac, sha256, user, variantId, price, expires, nonce, made, presentedMs);
    } else {
      PayloadIs(issuer, variant, price, expires, nonce, payload + made);
      BuyNowBytesDecide(verifier, hmac, sha256, payload + made, user, presentedMs);
    }
  }

  /** An issued token under another configuration: another lifetime or skew only moves the window, another
      key version or key is refused, unless the truncated MACs of the one message coincide. */
  lemma VerifyBuyNowElsewhere(issuer: CodecConfig, verifier: CodecConfig, hmac: Hmac, sha256: Sha256,
                              user: TelegramUserId, variantId: string, price: int, nonce: seq<Byte>, issuedMs: int,
                              presentedMs: int)
    returns (payload: seq<Byte>)
    requires IsBuyNowConfig(issuer) && IsBuyNowConfig(verifier)
    requires BuyNowInputsValid(issuer, user, variantId, price, nonce, issuedMs)
    ensures Normalize(user).Some?
    ensures IssueBuyNow(issuer, hmac, user, variantId, price, nonce, issuedMs).Ok?
    ensures var token := IssueBuyNow(issuer, hmac, user, variantId, price, nonce, issuedMs).value;
            var m := BuyNowMessage(Normalize(user).value, payload);
            && token == "buy:" + Base64Url.Encode(payload + hmac(issuer.key, m)[..10])
            && VerifyBuyNow(verifier, hmac, sha256, token, user, presentedMs)
               == if issuer.keyVersion != verifier.keyVersion then Err(UnknownKeyVersion)
                  else if hmac(issuer.key, m)[..10] != hmac(verifier.key, m)[..10] then Err(InvalidSignature)
                  else BuyNowVerdict(verifier, variantId, price, ToUnixSeconds(issuedMs) + issuer.ttlSeconds,
                                     IdempotencyKey(sha256, Normalize(user).value, nonce), ToUnixSeconds(presentedMs))
  {
    hide *;
    ValidInputs(issuer, user, variantId, price, nonce, issuedMs);
    payload := IssuedBuyNow(issuer, hmac, user, variantId, price, nonce, issuedMs);
    var name, expires := Normalize(user).value, ToUnixSeconds(issuedMs) + issuer.ttlSeconds;
    BuyNowSignatureIs(hmac, issuer.key, name, payload);
    BuyNowSignatureIs(hmac, verifier.key, name, payload);
    var made := BuyNowSignature(hmac, issuer.key, name, payload);
    TextIs(payload + made);
    VerifyBuyNowText(verifier, hmac, sha256, user, payload + made, presentedMs);
    VerifyForeignBytes(issuer, verifier, hmac, sha256, name, variantId, price, expires, nonce, presentedMs);
  }

  lemma TextIs(raw: seq<Byte>)
    ensures BuyNowText(raw) == "buy:" + Base64Url.Encode(raw)
  {
  }

  lemma PowersOfFields()
    ensures Pow(256, 4) == MAX_UINT32 + 1 && Pow(256, 6) == MAX_CALLBACK_PRICE_VND + 1
  {
    PowAdd(256, 1, 1);
    PowAdd(256, 2, 2);
    PowAdd(256, 4, 2);
  }

  /** Which inputs are refused, and with which of the errors: the first demand that is not met. */
  lemma BuyNowRefusals(config: CodecConfig, hmac: Hmac, user: TelegramUserId, variantId: string, price: int,
                       nonce: seq<Byte>, nowMs: int)
    requires IsBuyNowConfig(config)
    ensures var r := IssueBuyNow(config, hmac, user, variantId, price, nonce, nowMs);
            var known, priced := Normalize(user).Some? && Ulid.IsId(variantId), 1 <= price <= 281_474_976_710_655;
            var timed := 0 <= nowMs / 1000 && nowMs / 1000 + config.ttlSeconds <= 4_294_967_295;
            && (r == Err(BadUser) <==> Normalize(user).None?)
            && (r == Err(BadPrice) <==> known && !priced)
            && (r == Err(BadNonce) <==> known && priced && |nonce| != 8)
            && (r == Err(BadTimestamp) <==> known && priced && |nonce| == 8 && !timed)
            && (r == Err(BadVariant) <==>
                  && Normalize(user).Some?
                  && (!Ulid.IsId(variantId) || (priced && |nonce| == 8 && timed && variantId[0] > '7')))
  {
    hide Normalize, Ulid.EncodeUlid, BuyNowText, Utf8Length, Ulid.IsUlidText, BuyNowPayload, BuyNowSignature;
    IssueBuyNowSucceeds(config, hmac, user, variantId, price, nonce, nowMs);
    if Ulid.IsId(variantId) {
      Ulid.EncodesIff(variantId);
    }
  }

  /** The fields read from a payload build it again. */
  lemma BuyNowRebuilt(p: seq<Byte>)
    returns (price: nat, expires: nat)
    requires |p| == PAYLOAD_BYTES && 80 <= p[0] < 96
    ensures price == Value(p[17..23], 256) && expires == Value(p[23..27], 256)
    ensures price <= MAX_CALLBACK_PRICE_VND && expires <= MAX_UINT32
    ensures var id := Ulid.DecodeUlid(p[1..17]);
            && Ulid.IsId(id) && id[0] <= '7' && Ulid.EncodeUlid(id) == Some(p[1..17])
    ensures p == BuyNowPayload(p[0] - 80, p[1..17], price, expires, p[27..35])
  {
    hide Value, Digits, Pow, Ulid.EncodeUlid, Ulid.DecodeUlid, Ulid.IsId;
    price, expires := Value(p[17..23], 256), Value(p[23..27], 256);
    ValueBound(p[17..23], 256);
    ValueBound(p[23..27], 256);
    PowersOfFields();
    DigitsOfValue(p[17..23], 256);
    DigitsOfValue(p[23..27], 256);
    Ulid.EncodeDecode(p[1..17]);
    Ulid.EncodesIff(Ulid.DecodeUlid(p[1..17]));
    assert p == [p[0]] + p[1..17] + p[17..23] + p[23..27] + p[27..35];
  }

  lemma WholeSeconds(expires: int, ttl: int)
    ensures ToUnixSeconds(expires * 1000 - ttl * 1000) == expires - ttl
  {
  }

  /** Issuing from the fields of a signed payload gives that payload's text, or nothing. */
  lemma Reissued(config: CodecConfig, hmac: Hmac, user: TelegramUserId, raw: seq<Byte>)
    requires IsBuyNowConfig(config) && Normalize(user).Some? && |raw| == TOKEN_BYTES
    requires 0 <= config.keyVersion <= 15 && raw[0] == 80 + config.keyVersion
    requires raw[PAYLOAD_BYTES..] == BuyNowSignature(hmac, config.key, Normalize(user).value, raw[..PAYLOAD_BYTES])
    ensures var price, expires := Value(raw[17..23], 256), Value(raw[23..27], 256);
            var r := IssueBuyNow(config, hmac, user, Ulid.DecodeUlid(raw[1..17]), price, raw[27..35],
                                 expires * 1000 - config.ttlSeconds * 1000);
            && (r.Ok? <==> price > 0 && expires >= config.ttlSeconds)
            && (r.Ok? ==> r == Ok(BuyNowText(raw)))
  {
    hide IssueBuyNow, Normalize, BuyNowPayload, BuyNowSignature, BuyNowText, Ulid.EncodeUlid, Ulid.DecodeUlid, Value,
         ToUnixSeconds, Ulid.IsUlidText, Ulid.IsId;
    var p := raw[..PAYLOAD_BYTES];
    assert p[1..17] == raw[1..17] && p[17..23] == raw[17..23] && p[23..27] == raw[23..27] && p[27..35] == raw[27..35];
    var price, expires := BuyNowRebuilt(p);
    var id, issuedMs := Ulid.DecodeUlid(p[1..17]), expires * 1000 - config.ttlSeconds * 1000;
    WholeSeconds(expires, config.ttlSeconds);
    IssueBuyNowSucceeds(config, hmac, user, id, price, p[27..35], issuedMs);
    if BuyNowInputsValid(config, user, id, price, p[27..35], issuedMs) {
      var payload := IssuedBuyNow(config, hmac, user, id, price, p[27..35], issuedMs);
      assert payload + raw[PAYLOAD_BYTES..] == raw;
    }
  }

  lemma AcceptedParts(config: CodecConfig, hmac: Hmac, sha256: Sha256, raw: seq<Byte>, user: string, nowMs: int)
    requires IsBuyNowConfig(config) && IsAscii(user) && |raw| == TOKEN_BYTES
    requires VerifyBuyNowRaw(config, hmac, sha256, raw, user, nowMs).Ok?
    ensures 0 <= config.keyVersion <= 15 && raw[0] == 80 + config.keyVersion
    ensures raw[PAYLOAD_BYTES..] == BuyNowSignature(hmac, config.key, user, raw[..PAYLOAD_BYTES])
    ensures VerifyBuyNowRaw(config, hmac, sha256, raw, user, nowMs).value
            == VerifiedBuyNow(Ulid.DecodeUlid(raw[1..17]), Value(raw[17..23], 256), Value(raw[23..27], 256) * 1000,
                              IdempotencyKey(sha256, user, raw[27..35]))
  {
    hide BuyNowMessage, BuyNowSignature, Value, Ulid.DecodeUlid, IdempotencyKey, VerifyBuyNowRaw, ToUnixSeconds;
    BuyNowBytesDecide(config, hmac, sha256, raw, user, nowMs);
    BuyNowSignatureIs(hmac, config.key, user, raw[..35]);
  }

  lemma SameText(data: string)
    requires IsBuyNowText(data)
    ensures BuyNowText(Base64Url.Decode(data[4..])) == data
  {
    hide Base64Url.Decode, Base64Url.Encode, Base64Url.IsText;
    Base64Url.ReencodeCheck(data[4..]);
    assert data == data[..4] + data[4..];
  }

  lemma SecondsApart(expires: int, ttl: int)
    ensures expires >= ttl <==> expires * 1000 - ttl * 1000 >= 0
  {
  }

  lemma AcceptedRaw(config: CodecConfig, hmac: Hmac, sha256: Sha256, raw: seq<Byte>, user: TelegramUserId, nowMs: int)
    requires IsBuyNowConfig(config) && Normalize(user).Some? && |raw| == TOKEN_BYTES == 45
    requires VerifyBuyNowRaw(config, hmac, sha256, raw, Normalize(user).value, nowMs).Ok?
    ensures var v := VerifyBuyNowRaw(config, hmac, sha256, raw, Normalize(user).value, nowMs).value;
            var issuedMs := v.expiresAtMs - config.ttlSeconds * 1000;
            var r := IssueBuyNow(config, hmac, user, v.variantId, v.expectedPriceVnd, raw[27..35], issuedMs);
            && v.idempotencyKey == IdempotencyKey(sha256, Normalize(user).value, raw[27..35])
            && (r.Ok? <==> v.expectedPriceVnd > 0 && issuedMs >= 0) && (r.Ok? ==> r == Ok(BuyNowText(raw)))
  {
    hide *;
    AcceptedParts(config, hmac, sha256, raw, Normalize(user).value, nowMs);
    Reissued(config, hmac, user, raw);
    SecondsApart(Value(raw[23..27], 256), config.ttlSeconds);
  }

  /** Whatever is accepted is what issue makes of its own fields: of its variant, price and nonce, one
      lifetime before its expiry. The two that issue would refuse are a price of zero and an expiry
      that comes less than a lifetime after the epoch. */
  lemma AcceptedIsIssued(config: CodecConfig, hmac: Hmac, sha256: Sha256, data: string, user: TelegramUserId,
                         nowMs: int)
    requires IsBuyNowConfig(config)
    ensures var r := VerifyBuyNow(config, hmac, sha256, data, user, nowMs);
            r.Ok? ==>
              && Normalize(user).Some? && IsBuyNowText(data) && |Base64Url.Decode(data[4..])| == 45
              && var id, price := r.value.variantId, r.value.expectedPriceVnd;
                 var nonce := Base64Url.Decode(data[4..])[27..35];
                 var issuedMs := r.value.expiresAtMs - config.ttlSeconds * 1000;
                 && r.value.idempotencyKey == IdempotencyKey(sha256, Normalize(user).value, nonce)
                 && (IssueBuyNow(config, hmac, user, id, price, nonce, issuedMs) == Ok(data)
                     <==> price > 0 && issuedMs >= 0)
  {
    hide IsBuyNowConfig, VerifyBuyNow, VerifyBuyNowRaw, IssueBuyNow, Normalize, BuyNowText, IdempotencyKey,
         Base64Url.Decode, Base64Url.IsText;
    BuyNowTextDecides(config, hmac, sha256, data, user, nowMs);
    if VerifyBuyNow(config, hmac, sha256, data, user, nowMs).Ok? {
      var raw := Base64Url.Decode(data[4..]);
      AcceptedRaw(config, hmac, sha256, raw, user, nowMs);
      SameText(data);
    }
  }

  lemma BuyNowAssembled(head: Byte, variant: seq<Byte>, price: seq<Byte>, expires: seq<Byte>, nonce: seq<Byte>,
                        b0: seq<Byte>, b1: seq<Byte>, b2: seq<Byte>, b3: seq<Byte>, b4: seq<Byte>, b5: seq<Byte>)
    requires |b0| == 35 && |variant| == 16 && |price| == 6 && |expires| == 4 && |nonce| == 8
    requires b1 == b0[0 := head]
    requires b2 == b1[..1] + variant + b1[17..]
    requires b3 == b2[..17] + price + b2[23..]
    requires b4 == b3[..23] + expires + b3[27..]
    requires b5 == b4[..27] + nonce + b4[35..]
    ensures b5 == [head] + variant + price + expires + nonce
  {
    assert b2[..17] == [head] + variant;
    assert b3[..23] == [head] + variant + price;
    assert b4[..27] == [head] + variant + price + expires;
    assert b4[35..] == [];
  }

  method FillBuyNowPayload(keyVersion: int, variant: seq<Byte>, price: nat, expiresAtSeconds: nat, nonce: seq<Byte>)
    returns (payload: seq<Byte>)
    requires 0 <= keyVersion <= 15 && |variant| == 16 && |nonce| == NONCE_BYTES
    ensures payload == BuyNowPayload(keyVersion, variant, price, expiresAtSeconds, nonce)
  {
    var buffer := new Byte[PAYLOAD_BYTES](_ => 0);
    ghost var b0 := buffer[..];
    buffer[0] := FORMAT_VERSION * 64 + BUY_NOW_ACTION * 16 + keyVersion;
    ghost var b1 := buffer[..];
    CopyInto(variant, buffer, 1);
    ghost var b2 := buffer[..];
    WriteUIntBE(buffer, price, 17, 6);
    ghost var b3 := buffer[..];
    WriteUIntBE(buffer, expiresAtSeconds, 23, 4);
    ghost var b4 := buffer[..];
    CopyInto(nonce, buffer, 27);
    BuyNowAssembled(buffer[0], variant, Digits(price, 256, 6), Digits(expiresAtSeconds, 256, 4), nonce, b0, b1, b2, b3,
                    b4, buffer[..]);
    return buffer[..];
  }

  /** Buy Now's `issue`, with its payload filled in place. */
  method IssueBuyNowToken(config: CodecConfig, hmac: Hmac, user: TelegramUserId, variantId: string, price: int,
                          nonce: seq<Byte>, nowMs: int)
    returns (r: Result<string, BuyNowIssueError>)
    requires IsBuyNowConfig(config)
    ensures r == IssueBuyNow(config, hmac, user, variantId, price, nonce, nowMs)
  {
    hide Ulid.EncodeUlid, BuyNowPayload, BuyNowText, BuyNowSignature, Utf8Length;
    var normalized := Normalize(user);
    if normalized.None? {
      return Err(BadUser);
    }
    if !Ulid.IsId(variantId) {
      return Err(BadVariant);
    }
    if price <= 0 || price > MAX_CALLBACK_PRICE_VND {
      return Err(BadPrice);
    }
    if |nonce| != NONCE_BYTES {
      return Err(BadNonce);
    }
    var nowSeconds := ToUnixSeconds(nowMs);
    var expiresAtSeconds := nowSeconds + config.ttlSeconds;
    if nowSeconds < 0 || expiresAtSeconds > MAX_UINT32 {
      return Err(BadTimestamp);
    }
    var variant := Ulid.EncodeUlidBytes(variantId);
    if variant.None? {
      return Err(BadVariant);
    }
    var payload := FillBuyNowPayload(config.keyVersion, variant.value, price, expiresAtSeconds, nonce);
    var token := BuyNowText(payload + BuyNowSignature(hmac, config.key, normalized.value, payload));
    if Utf8Length(token) > MAX_CALLBACK_DATA_BYTES {
      return Err(TooLong);
    }
    return Ok(token);
  }
}
