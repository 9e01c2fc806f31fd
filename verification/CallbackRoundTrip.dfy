/** What verifying an issued token returns, for every action, payload, user and time. */
module CallbackRoundTrip {
  import opened Positional
  import opened Results
  import opened Platform
  import opened CallbackCodec
  import opened CallbackSchema
  import Base64Url
  import Ulid

  /** The fields a verifier can hope to see again: empty ids are dropped, the option is one
      byte, and an amount is carried by the wallet checkout only. */
  function Carried(action: CallbackAction, f: TokenFields): TokenFields {
    TokenFields(
      if Present(f.resourceId) then f.resourceId else None,
      if Present(f.secondaryResourceId) then f.secondaryResourceId else None,
      if f.option.Some? then Some(f.option.value % 256) else None,
      if action == CheckoutWallet then f.amountVnd else None)
  }

  /** Fields nothing of which is dropped or truncated. */
  predicate IsPlain(action: CallbackAction, f: TokenFields) {
    f.resourceId != Some("") && f.secondaryResourceId != Some("")
    && (f.option.Some? ==> 0 <= f.option.value < 256)
    && (f.amountVnd.Some? ==> action == CheckoutWallet)
  }

  lemma CarriedIsInput(action: CallbackAction, f: TokenFields)
    ensures Carried(action, f) == f <==> IsPlain(action, f)
  {
    if f.option.Some? {
      assert f.option.value % 256 == f.option.value <==> 0 <= f.option.value < 256;
    }
  }

  /** The resource id is one of the 26-character ids that are not ULIDs. */
  predicate HasRawId(f: TokenFields) {
    Present(f.resourceId) && !Ulid.IsId(f.resourceId.value)
  }

  predicate HasUlidsOnly(action: CallbackAction, f: TokenFields) {
    (Present(f.resourceId) ==> Ulid.IsId(f.resourceId.value))
    && (action == CatalogPage && Present(f.secondaryResourceId) ==> Ulid.IsId(f.secondaryResourceId.value))
  }

  /** The verdict on a frame read as intended, by its age and by what its payload decodes to. */
  function FrameVerdict(config: CodecConfig, action: CallbackAction, fields: Option<TokenFields>, expires: int,
                        presented: int)
    : Result<VerifiedToken, VerificationError>
  {
    if presented > expires + config.clockSkewSeconds then Err(Expired)
    else if presented < expires - config.ttlSeconds - config.clockSkewSeconds then Err(NotYetValid)
    else if fields.None? then Err(Malformed)
    else Ok(VerifiedToken(action, fields.value, expires * 1000))
  }

  /** What a raw id leaves of the fields: everything where the decoder knows its length. */
  function Recovered(action: CallbackAction, f: TokenFields): Option<TokenFields> {
    if HasRawId(f) && !DecodesOneResource(action) then None else Some(Carried(action, f))
  }

  /** The verdict on a token issued at one time and presented at another. */
  function Verdict(config: CodecConfig, action: CallbackAction, f: TokenFields, issuedMs: int, presentedMs: int)
    : Result<VerifiedToken, VerificationError>
  {
    if HasRawId(f) && action == SupportTicketView then Err(WrongAction)
    else FrameVerdict(config, action, Recovered(action, f), ToUnixSeconds(issuedMs) + config.ttlSeconds,
                      ToUnixSeconds(presentedMs))
  }

  // ----- The payload schemas

  lemma ResourceRoundTrip(id: string, utf8: Utf8Decoder)
    requires EncodeResourceId(id).Ok?
    ensures var b := EncodeResourceId(id).value;
            if Ulid.IsId(id) then Ulid.DecodeUlid(b) == id
            else IsAsciiBytes(b) && utf8(b) == id && 48 <= b[0] <= 90
  {
    if Ulid.IsId(id) {
      Ulid.DecodeEncode(id);
    } else {
      AsciiTextOfBytes(id);
    }
  }

  lemma AmountRoundTrip(n: nat)
    requires n <= MAX_CALLBACK_PRICE_VND
    ensures Value(Digits(n, 256, 6), 256) == n
  {
    PowAdd(256, 1, 1);
    PowAdd(256, 2, 2);
    PowAdd(256, 4, 2);
    ValueOfDigits(n, 256, 6);
  }

  lemma TimestampRoundTrip(n: nat)
    requires n <= MAX_UINT32
    ensures Value(Digits(n, 256, 4), 256) == n
  {
    PowAdd(256, 1, 1);
    PowAdd(256, 2, 2);
    ValueOfDigits(n, 256, 4);
  }

  lemma AttemptRoundTrip(value: string)
    ensures DecodeAttemptId(value).Some? <==> |value| == 8 && Base64Url.IsText(value)
    ensures DecodeAttemptId(value).Some? ==> Base64Url.Encode(DecodeAttemptId(value).value) == value
  {
    if |value| == 8 && Base64Url.IsText(value) {
      Base64Url.ReencodeCheck(value);
    }
  }

  lemma CheckoutBytesRoundTrip(id: seq<Byte>, amount: seq<Byte>, attempt: seq<Byte>, utf8: Utf8Decoder)
    requires |id| == 16 && |amount| == 6 && (|attempt| == 0 || |attempt| == 6)
    ensures DecodeActionPayload(CheckoutWallet, id + (amount + attempt), utf8)
            == Some(TokenFields(Some(Ulid.DecodeUlid(id)),
                                if attempt == [] then None else Some(Base64Url.Encode(attempt)),
                                None, Some(Value(amount, 256))))
  {
    hide Ulid.DecodeUlid, Base64Url.Encode, Value;
    var p := id + (amount + attempt);
    assert p[..16] == id && p[16..22] == amount;
    if attempt != [] {
      assert p[22..28] == attempt;
    }
  }

  lemma CheckoutRoundTrip(f: TokenFields, utf8: Utf8Decoder)
    requires HasUlidsOnly(CheckoutWallet, f) && EncodeActionPayload(CheckoutWallet, f).Ok?
    ensures DecodeActionPayload(CheckoutWallet, EncodeActionPayload(CheckoutWallet, f).value, utf8)
            == Some(Carried(CheckoutWallet, f))
  {
    var id := EncodeResourceId(f.resourceId.value).value;
    var amount: seq<Byte> := Digits(f.amountVnd.value, 256, 6);
    var attempt := if f.secondaryResourceId.None? then [] else DecodeAttemptId(f.secondaryResourceId.value).value;
    assert EncodeActionPayload(CheckoutWallet, f).value == id + (amount + attempt) by {
      assert amount + [] == amount;
    }
    ResourceRoundTrip(f.resourceId.value, utf8);
    AmountRoundTrip(f.amountVnd.value);
    if f.secondaryResourceId.Some? {
      AttemptRoundTrip(f.secondaryResourceId.value);
    }
    CheckoutBytesRoundTrip(id, amount, attempt, utf8);
  }

  lemma CatalogRoundTrip(f: TokenFields, utf8: Utf8Decoder)
    requires HasUlidsOnly(CatalogPage, f) && EncodeActionPayload(CatalogPage, f).Ok?
    ensures DecodeActionPayload(CatalogPage, EncodeActionPayload(CatalogPage, f).value, utf8)
            == Some(Carried(CatalogPage, f))
  {
    var p := EncodeActionPayload(CatalogPage, f).value;
    ResourceRoundTrip(f.resourceId.value, utf8);
    if Present(f.secondaryResourceId) {
      ResourceRoundTrip(f.secondaryResourceId.value, utf8);
      assert p[..16] == EncodeResourceId(f.resourceId.value).value;
      assert p[16..] == EncodeResourceId(f.secondaryResourceId.value).value;
    }
  }

  lemma OptionOnlyRoundTrip(action: CallbackAction, f: TokenFields, utf8: Utf8Decoder)
    requires action == CategoryView || action == SupportReason || action == AdminCommand
    requires !Present(f.resourceId) || f.option.None?
    requires HasUlidsOnly(action, f)
    ensures var encoded := EncodeActionPayload(action, f);
            encoded.Ok? ==> DecodeActionPayload(action, encoded.value, utf8) == Some(Carried(action, f))
  {
    if EncodeActionPayload(action, f).Ok? && Present(f.resourceId) {
      ResourceRoundTrip(f.resourceId.value, utf8);
      hide Ulid.DecodeUlid, Ulid.EncodeUlid, Ulid.IsUlidText, Digits, Value, EncodeCheckout, DecodeCheckout;
      assert EncodeActionPayload(action, f).value == EncodeResourceId(f.resourceId.value).value;
    }
  }

  lemma EncodesResourceAndOption(action: CallbackAction, f: TokenFields)
    requires action == CategoryView || action == SupportReason || action == AdminCommand
    requires Present(f.resourceId) && f.option.Some?
    ensures EncodeActionPayload(action, f).Ok? ==>
              && EncodeResourceId(f.resourceId.value).Ok? && f.secondaryResourceId.None?
              && EncodeActionPayload(action, f)
                 == Ok(EncodeResourceId(f.resourceId.value).value + [f.option.value % 256])
  {
    hide EncodeResourceId;
  }

  lemma DecodesResourceAndOption(action: CallbackAction, id: seq<Byte>, option: Byte, utf8: Utf8Decoder)
    requires action == CategoryView || action == SupportReason || action == AdminCommand
    requires |id| == 16
    ensures DecodeActionPayload(action, id + [option], utf8)
            == Some(TokenFields(Some(Ulid.DecodeUlid(id)), None, Some(option), None))
  {
    hide Ulid.DecodeUlid;
    assert (id + [option])[..16] == id;
  }

  lemma ResourceAndOptionRoundTrip(action: CallbackAction, f: TokenFields, utf8: Utf8Decoder)
    requires action == CategoryView || action == SupportReason || action == AdminCommand
    requires Present(f.resourceId) && Ulid.IsId(f.resourceId.value) && f.option.Some?
    ensures var encoded := EncodeActionPayload(action, f);
            encoded.Ok? ==> DecodeActionPayload(action, encoded.value, utf8) == Some(Carried(action, f))
  {
    hide EncodeActionPayload, DecodeActionPayload, EncodeResourceId, Ulid.DecodeUlid, Ulid.IsId;
    EncodesResourceAndOption(action, f);
    if EncodeActionPayload(action, f).Ok? {
      ResourceRoundTrip(f.resourceId.value, utf8);
      DecodesResourceAndOption(action, EncodeResourceId(f.resourceId.value).value, f.option.value % 256, utf8);
    }
  }

  lemma OptionRoundTrip(action: CallbackAction, f: TokenFields, utf8: Utf8Decoder)
    requires action == CategoryView || action == SupportReason || action == AdminCommand
    requires HasUlidsOnly(action, f)
    ensures var encoded := EncodeActionPayload(action, f);
            encoded.Ok? ==> DecodeActionPayload(action, encoded.value, utf8) == Some(Carried(action, f))
  {
    hide EncodeActionPayload, DecodeActionPayload, Carried;
    if Present(f.resourceId) && f.option.Some? {
      ResourceAndOptionRoundTrip(action, f, utf8);
    } else {
      OptionOnlyRoundTrip(action, f, utf8);
    }
  }

  lemma SmallRoundTrip(action: CallbackAction, f: TokenFields, utf8: Utf8Decoder)
    requires EncodesNothing(action) || action == CustomerTrustPage || (action == SupportMenu && !Present(f.resourceId))
    ensures var encoded := EncodeActionPayload(action, f);
            encoded.Ok? ==> DecodeActionPayload(action, encoded.value, utf8) == Some(Carried(action, f))
  {
    hide Ulid.DecodeUlid, EncodeResourceId;
  }

  lemma OneResourceRoundTrip(action: CallbackAction, f: TokenFields, utf8: Utf8Decoder)
    requires EncodesOneResource(action) || action == SupportMenu
    requires Present(f.resourceId) && Ulid.IsId(f.resourceId.value)
    ensures var encoded := EncodeActionPayload(action, f);
            encoded.Ok? ==> DecodeActionPayload(action, encoded.value, utf8) == Some(Carried(action, f))
  {
    hide Ulid.DecodeUlid, Ulid.IsId, EncodeResourceId;
    if EncodeActionPayload(action, f).Ok? {
      ResourceRoundTrip(f.resourceId.value, utf8);
    }
  }

  lemma NeedsResource(action: CallbackAction, f: TokenFields)
    requires EncodesOneResource(action) || action == CatalogPage
    ensures EncodeActionPayload(action, f).Ok? ==> Present(f.resourceId)
  {
    hide EncodeResourceId;
  }

  /** Decoding a payload of ULIDs gives back every carried field. */
  lemma DecodeEncodePayload(action: CallbackAction, f: TokenFields, utf8: Utf8Decoder)
    requires HasUlidsOnly(action, f) && EncodeActionPayload(action, f).Ok?
    ensures DecodeActionPayload(action, EncodeActionPayload(action, f).value, utf8) == Some(Carried(action, f))
  {
    hide EncodeActionPayload, DecodeActionPayload, Carried, Ulid.IsId;
    if action == CheckoutWallet {
      CheckoutRoundTrip(f, utf8);
    } else if action == CatalogPage {
      CatalogRoundTrip(f, utf8);
    } else if action == CategoryView || action == SupportReason || action == AdminCommand {
      OptionRoundTrip(action, f, utf8);
    } else if EncodesOneResource(action) {
      NeedsResource(action, f);
      OneResourceRoundTrip(action, f, utf8);
    } else if action == SupportMenu && Present(f.resourceId) {
      OneResourceRoundTrip(action, f, utf8);
    } else {
      SmallRoundTrip(action, f, utf8);
    }
  }

  lemma RawPayloadHead(action: CallbackAction, f: TokenFields, utf8: Utf8Decoder)
    requires HasRawId(f) && EncodeActionPayload(action, f).Ok?
    ensures var p := EncodeActionPayload(action, f).value; 26 <= |p| && 48 <= p[0] <= 90
    ensures EncodesOneResource(action) ==>
              var p := EncodeActionPayload(action, f).value;
              |p| == 26 && utf8(p) == f.resourceId.value && f.secondaryResourceId.None? && f.option.None?
  {
    ResourceRoundTrip(f.resourceId.value, utf8);
    hide Digits, DecodeAttemptId, Ulid.EncodeUlid, Ulid.IsUlidText, IsRawIdChar;
  }

  /** Decoding a payload that holds a raw id: by length alone, or not at all. */
  lemma DecodeRawPayload(action: CallbackAction, f: TokenFields, utf8: Utf8Decoder)
    requires HasRawId(f) && EncodeActionPayload(action, f).Ok?
    ensures var p := EncodeActionPayload(action, f).value;
            26 <= |p| && 48 <= p[0] <= 90
            && (action != CheckoutWallet && action != CatalogPage ==>
                DecodeActionPayload(action, p, utf8)
                == if EncodesOneResource(action) then Some(Carried(action, f)) else None)
            && (action == CatalogPage && |p| == 26 ==> DecodeActionPayload(action, p, utf8) == None)
  {
    RawPayloadHead(action, f, utf8);
    PayloadLength(action, f);
    hide EncodeActionPayload, Ulid.DecodeUlid, Ulid.IsId, DecodeCheckout;
    if EncodesNothing(action) || action == CustomerTrustPage {
      NoResource(action, f);
    }
  }

  lemma NoResource(action: CallbackAction, f: TokenFields)
    requires EncodesNothing(action) || action == CustomerTrustPage
    ensures EncodeActionPayload(action, f).Ok? ==> f.resourceId.None?
  {
  }

  /** The length a resource id takes up: 16 bytes a ULID, 26 a raw id. */
  function IdLength(id: Option<string>): nat {
    if !Present(id) then 0 else if Ulid.IsId(id.value) then 16 else 26
  }

  lemma IdLengthIs(id: Option<string>)
    ensures IdLength(id) == 0 <==> !Present(id)
    ensures Present(id) && EncodeResourceId(id.value).Ok? ==> |EncodeResourceId(id.value).value| == IdLength(id)
  {
    hide Ulid.IsUlidText, Ulid.EncodeUlid;
  }

  lemma PairLength(f: TokenFields)
    ensures EncodeCheckout(f).Ok? ==>
              |EncodeCheckout(f).value| == IdLength(f.resourceId) + if f.secondaryResourceId.None? then 6 else 12
    ensures EncodeCatalog(f).Ok? ==>
              |EncodeCatalog(f).value| == IdLength(f.resourceId) + IdLength(f.secondaryResourceId)
  {
    hide EncodeResourceId, DecodeAttemptId, Digits, IdLength;
    IdLengthIs(f.resourceId);
    IdLengthIs(f.secondaryResourceId);
  }

  /** Encoded lengths: those of the ids, and the fixed-width rest. */
  lemma PayloadLength(action: CallbackAction, f: TokenFields)
    requires EncodeActionPayload(action, f).Ok?
    ensures var n := |EncodeActionPayload(action, f).value|;
            var id := IdLength(f.resourceId);
            && (EncodesNothing(action) ==> n == 0)
            && (EncodesOneResource(action) ==> n == id && id != 0)
            && (action == SupportMenu ==> n == id)
            && (action == CustomerTrustPage ==> n == 1)
            && (action == SupportReason || action == AdminCommand ==> n == id + 1)
            && (action == CategoryView ==> n == id + if f.option.None? then 0 else 1)
            && (action == CheckoutWallet ==> n == id + if f.secondaryResourceId.None? then 6 else 12)
            && (action == CatalogPage ==> n == id + IdLength(f.secondaryResourceId))
  {
    hide EncodeResourceId, IdLength, EncodeCheckout, EncodeCatalog;
    PairLength(f);
    IdLengthIs(f.resourceId);
  }

  // ----- The frame

  lemma PayloadFields(config: CodecConfig, action: CallbackAction, expiresAtSeconds: nat, encoded: seq<Byte>)
    requires IsUnifiedConfig(config) && expiresAtSeconds <= MAX_UINT32
    ensures var p := Payload(config, action, expiresAtSeconds, encoded);
            var code := ActionCode(action);
            && |p| == 5 + |ActionFrame(action, encoded)|
            && p[0] / 16 == (if code < 15 then code else 15) && p[0] % 16 == config.keyVersion
            && Value(p[1..5], 256) == expiresAtSeconds
            && p[5..] == ActionFrame(action, encoded)
            && (code >= 16 ==> p[5] == code && p[6..] == encoded)
  {
    var p := Payload(config, action, expiresAtSeconds, encoded);
    TimestampRoundTrip(expiresAtSeconds);
    assert p[1..5] == Digits(expiresAtSeconds, 256, 4);
    assert p[5..] == ActionFrame(action, encoded);
    if ActionCode(action) >= 16 {
      assert p[5..][0] == ActionCode(action) && p[6..] == p[5..][1..];
    }
  }

  /** A payload whose length leads the sentinel-and-length test to the right reading. */
  predicate ReadsRight(action: CallbackAction, encoded: seq<Byte>) {
    if ActionCode(action) >= 16 then |encoded| != 15 else if ActionCode(action) == 15 then |encoded| == 16 else true
  }

  lemma ExtendedReading(config: CodecConfig, action: CallbackAction, expiresAtSeconds: nat, encoded: seq<Byte>)
    requires IsUnifiedConfig(config) && expiresAtSeconds <= MAX_UINT32
    ensures var p := Payload(config, action, expiresAtSeconds, encoded);
            ReadsRight(action, encoded) <==> (p[0] / 16 == 15 && |p| != 21 <==> ActionCode(action) >= 16)
  {
    PayloadFields(config, action, expiresAtSeconds, encoded);
  }

  /** The frame layout is unambiguous for every payload the schemas produce, with one exception:
      a support ticket with a raw id. */
  lemma FrameUnambiguous(action: CallbackAction, f: TokenFields)
    requires EncodeActionPayload(action, f).Ok?
    ensures ReadsRight(action, EncodeActionPayload(action, f).value) <==> !(action == SupportTicketView && HasRawId(f))
  {
    PayloadLength(action, f);
  }

  lemma RawTicketShape(f: TokenFields, action: CallbackAction, utf8: Utf8Decoder)
    requires EncodeActionPayload(action, f).Ok?
    ensures HasRawId(f) && action == SupportTicketView ==>
              var encoded := EncodeActionPayload(action, f).value; |encoded| == 26 && 48 <= encoded[0] <= 90
  {
    if HasRawId(f) && action == SupportTicketView {
      ResourceRoundTrip(f.resourceId.value, utf8);
    }
  }

  // ----- The token text

  lemma TokenTextRoundTrip(raw: seq<Byte>)
    ensures var token := TokenText(raw);
            && UNIFIED_PREFIX <= token && Base64Url.IsText(token[3..])
            && Base64Url.Decode(token[3..]) == raw && Base64Url.Encode(raw) == token[3..]
            && Utf8Length(token) == |token| == 3 + Base64Url.EncodedLength(|raw|)
  {
    var token := TokenText(raw);
    Base64Url.DecodeEncode(raw);
    assert token[3..] == Base64Url.Encode(raw);
    forall i | 0 <= i < |token| ensures token[i] < 128 as char {
      if i >= 3 {
        assert token[i] == token[3..][i - 3];
      }
    }
    Utf8LengthOfAscii(token);
  }

  lemma IssuedLength(config: CodecConfig, hmac: Hmac, user: string, action: CallbackAction, encoded: seq<Byte>,
                     nowMs: int)
    requires IsUnifiedConfig(config) && IsAscii(user)
    requires 0 <= ToUnixSeconds(nowMs) && ToUnixSeconds(nowMs) + config.ttlSeconds <= MAX_UINT32
    ensures var length := 3 + Base64Url.EncodedLength(13 + |ActionFrame(action, encoded)|);
            var r := IssueEncoded(config, hmac, user, action, encoded, nowMs);
            if length <= 64 then r.Ok? && |r.value| == length else r == Err(TokenTooLong)
  {
    hide Header, Digits, ActionFrame, ToUnixSeconds, Base64Url.EncodedLength, TokenText, Utf8Length, Sign;
    var expires := ToUnixSeconds(nowMs) + config.ttlSeconds;
    var payload := Payload(config, action, expires, encoded);
    TokenTextRoundTrip(payload + Sign(hmac, config.key, user, payload));
  }

  /** What `issue` makes of an encoded payload, by its length alone. */
  lemma IssuedIff(config: CodecConfig, hmac: Hmac, user: TelegramUserId, action: CallbackAction, f: TokenFields,
                  nowMs: int)
    requires IsUnifiedConfig(config)
    ensures var r := Issue(config, hmac, user, action, f, nowMs);
            var encoded := EncodeActionPayload(action, f);
            && (r.Ok? <==> && Normalize(user).Some? && encoded.Ok?
                           && 0 <= ToUnixSeconds(nowMs) && ToUnixSeconds(nowMs) + config.ttlSeconds <= MAX_UINT32
                           && TokenLength(action, encoded.value) <= 64)
            && (r.Ok? ==> |r.value| == TokenLength(action, encoded.value))
  {
    hide Normalize, EncodeActionPayload, Payload, TokenText, Sign, Utf8Length, ToUnixSeconds, ActionFrame,
         Base64Url.EncodedLength;
    if Normalize(user).Some? && EncodeActionPayload(action, f).Ok? {
      if 0 <= ToUnixSeconds(nowMs) && ToUnixSeconds(nowMs) + config.ttlSeconds <= MAX_UINT32 {
        IssuedLength(config, hmac, Normalize(user).value, action, EncodeActionPayload(action, f).value, nowMs);
      }
    }
  }

  /** How long the text of a token is. */
  function TokenLength(action: CallbackAction, encoded: seq<Byte>): nat {
    3 + Base64Url.EncodedLength(13 + |ActionFrame(action, encoded)|)
  }

  lemma TokenLengthFits(action: CallbackAction, encoded: seq<Byte>)
    ensures |encoded| <= 28 || (|encoded| == 32 && action == CatalogPage) ==> TokenLength(action, encoded) <= 63
    ensures |encoded| >= 42 || (|encoded| >= 32 && ActionCode(action) >= 16) ==> TokenLength(action, encoded) > 64
  {
  }

  /** Every token of ULIDs is at most 63 bytes: the 64-byte guard never fires for them, and the
      conforming payloads are all issued. */
  lemma UlidTokensFit(config: CodecConfig, hmac: Hmac, user: TelegramUserId, action: CallbackAction, f: TokenFields,
                      nowMs: int)
    requires IsUnifiedConfig(config) && HasUlidsOnly(action, f)
    ensures var r := Issue(config, hmac, user, action, f, nowMs);
            && (r.Ok? <==> Normalize(user).Some? && Conforms(action, f)
                           && 0 <= ToUnixSeconds(nowMs) && ToUnixSeconds(nowMs) + config.ttlSeconds <= MAX_UINT32)
            && (r.Ok? ==> |r.value| <= 63)
  {
    hide Issue, Normalize, EncodeActionPayload, TokenLength, ToUnixSeconds, Ulid.IsUlidText, Conforms;
    EncodesIffConforms(action, f);
    IssuedIff(config, hmac, user, action, f, nowMs);
    if EncodeActionPayload(action, f).Ok? {
      PayloadLength(action, f);
      TokenLengthFits(action, EncodeActionPayload(action, f).value);
    }
  }

  /** A raw id does not fit beside a checkout amount or a second id: `issue` refuses. */
  lemma RawIdsThatDoNotFit(config: CodecConfig, hmac: Hmac, user: TelegramUserId, action: CallbackAction,
                           f: TokenFields, nowMs: int)
    requires IsUnifiedConfig(config) && HasRawId(f)
    requires action == CheckoutWallet || (action == CatalogPage && Present(f.secondaryResourceId))
    ensures Issue(config, hmac, user, action, f, nowMs).Err?
  {
    hide Issue, Normalize, EncodeActionPayload, TokenLength, ToUnixSeconds, Ulid.IsUlidText;
    IssuedIff(config, hmac, user, action, f, nowMs);
    if EncodeActionPayload(action, f).Ok? {
      PayloadLength(action, f);
      TokenLengthFits(action, EncodeActionPayload(action, f).value);
    }
  }

  lemma SecondRawIdDoesNotFit(config: CodecConfig, hmac: Hmac, user: TelegramUserId, f: TokenFields, nowMs: int)
    requires IsUnifiedConfig(config)
    ensures Issue(config, hmac, user, CatalogPage, f, nowMs).Ok? && Present(f.secondaryResourceId) ==>
            HasUlidsOnly(CatalogPage, f)
  {
    hide Issue, Normalize, EncodeActionPayload, TokenLength, ToUnixSeconds, Ulid.IsUlidText;
    IssuedIff(config, hmac, user, CatalogPage, f, nowMs);
    NeedsResource(CatalogPage, f);
    if EncodeActionPayload(CatalogPage, f).Ok? {
      PayloadLength(CatalogPage, f);
      TokenLengthFits(CatalogPage, EncodeActionPayload(CatalogPage, f).value);
    }
  }

  /** Payloads whose token passes 64 bytes: a raw id beside an amount or a second id. */
  predicate IsTooLong(action: CallbackAction, f: TokenFields) {
    || (action == CheckoutWallet && HasRawId(f))
    || (action == CatalogPage && Present(f.secondaryResourceId) && !HasUlidsOnly(action, f))
  }

  lemma TooLongIff(action: CallbackAction, f: TokenFields)
    requires EncodeActionPayload(action, f).Ok?
    ensures TokenLength(action, EncodeActionPayload(action, f).value) > 64 <==> IsTooLong(action, f)
  {
    hide EncodeActionPayload, TokenLength, Ulid.IsUlidText;
    PayloadLength(action, f);
    if action == CatalogPage {
      NeedsResource(action, f);
    }
    TokenLengthFits(action, EncodeActionPayload(action, f).value);
  }

  /** What `issue` answers, from its input alone: the first of the four things that can be wrong, or
      a token. */
  lemma IssueDecides(config: CodecConfig, hmac: Hmac, user: TelegramUserId, action: CallbackAction, f: TokenFields,
                     nowMs: int)
    requires IsUnifiedConfig(config)
    ensures var r, now := Issue(config, hmac, user, action, f, nowMs), nowMs / 1000;
            && (Normalize(user).None? ==> r == Err(InvalidUserId))
            && (Normalize(user).Some? && !Conforms(action, f) ==> r == Err(Refusal(action, f)))
            && (Normalize(user).Some? && Conforms(action, f) ==>
                if now < 0 || now + config.ttlSeconds > 4_294_967_295 then r == Err(TimestampOutOfRange)
                else if IsTooLong(action, f) then r == Err(TokenTooLong)
                else r.Ok?)
  {
    hide Normalize, EncodeActionPayload, IssueEncoded, IsTooLong, Conforms, Refusal;
    EncodesIffConforms(action, f);
    if !Conforms(action, f) {
      RefusedBecause(action, f);
    } else if Normalize(user).Some? {
      TooLongIff(action, f);
      EncodedDecides(config, hmac, Normalize(user).value, action, EncodeActionPayload(action, f).value, nowMs);
    }
  }

  lemma EncodedDecides(config: CodecConfig, hmac: Hmac, user: string, action: CallbackAction, encoded: seq<Byte>,
                       nowMs: int)
    requires IsUnifiedConfig(config) && IsAscii(user)
    ensures var r, now := IssueEncoded(config, hmac, user, action, encoded, nowMs), ToUnixSeconds(nowMs);
            if now < 0 || now + config.ttlSeconds > MAX_UINT32 then r == Err(TimestampOutOfRange)
            else if TokenLength(action, encoded) > 64 then r == Err(TokenTooLong)
            else r.Ok?
  {
    hide Payload, TokenText, Sign, Utf8Length, ToUnixSeconds, ActionFrame, Base64Url.EncodedLength;
    if 0 <= ToUnixSeconds(nowMs) && ToUnixSeconds(nowMs) + config.ttlSeconds <= MAX_UINT32 {
      IssuedLength(config, hmac, user, action, encoded, nowMs);
    }
  }

  /** Decoding the payload of any token that was issued at all. */
  lemma DecodeIssued(config: CodecConfig, hmac: Hmac, utf8: Utf8Decoder, user: TelegramUserId,
                     action: CallbackAction, f: TokenFields, nowMs: int)
    requires IsUnifiedConfig(config)
    ensures Issue(config, hmac, user, action, f, nowMs).Ok? ==>
              EncodeActionPayload(action, f).Ok?
              && DecodeActionPayload(action, EncodeActionPayload(action, f).value, utf8) == Recovered(action, f)
  {
    if Issue(config, hmac, user, action, f, nowMs).Ok? {
      if action == CatalogPage {
        SecondRawIdDoesNotFit(config, hmac, user, f, nowMs);
      }
      if HasRawId(f) {
        if action == CheckoutWallet || (action == CatalogPage && Present(f.secondaryResourceId)) {
          RawIdsThatDoNotFit(config, hmac, user, action, f, nowMs);
        }
        PayloadLength(action, f);
        DecodeRawPayload(action, f, utf8);
      } else {
        DecodeEncodePayload(action, f, utf8);
      }
    }
  }

  /** A misread frame is refused, because no id starts with the byte of an extended action. */
  lemma VerifyMisread(config: CodecConfig, utf8: Utf8Decoder, encoded: seq<Byte>, expires: nat, presentedMs: int)
    requires IsUnifiedConfig(config) && expires <= MAX_UINT32
    requires |encoded| == 26 && 48 <= encoded[0] <= 90
    ensures VerifyPayload(config, utf8, Payload(config, SupportTicketView, expires, encoded), presentedMs)
            == Err(WrongAction)
  {
    var payload := Payload(config, SupportTicketView, expires, encoded);
    PayloadFields(config, SupportTicketView, expires, encoded);
    assert payload[5] == payload[5..][0] == encoded[0];
  }

  /** Reading back a frame that is not misread. */
  lemma VerifyFrame(config: CodecConfig, utf8: Utf8Decoder, action: CallbackAction, encoded: seq<Byte>,
                    fields: Option<TokenFields>, expires: nat, presentedMs: int)
    requires IsUnifiedConfig(config) && expires <= MAX_UINT32
    requires DecodeActionPayload(action, encoded, utf8) == fields
    requires ReadsRight(action, encoded)
    ensures VerifyPayload(config, utf8, Payload(config, action, expires, encoded), presentedMs)
            == FrameVerdict(config, action, fields, expires, ToUnixSeconds(presentedMs))
  {
    PayloadFields(config, action, expires, encoded);
    ExtendedReading(config, action, expires, encoded);
  }

  /** The verdict on a payload of which only the decoding and the shape are known. */
  lemma VerifyDecoded(config: CodecConfig, utf8: Utf8Decoder, action: CallbackAction, f: TokenFields,
                      encoded: seq<Byte>, issuedMs: int, presentedMs: int)
    requires IsUnifiedConfig(config)
    requires 0 <= ToUnixSeconds(issuedMs) && ToUnixSeconds(issuedMs) + config.ttlSeconds <= MAX_UINT32
    requires DecodeActionPayload(action, encoded, utf8)
             == Recovered(action, f)
    requires ReadsRight(action, encoded) <==> !(action == SupportTicketView && HasRawId(f))
    requires HasRawId(f) && action == SupportTicketView ==> |encoded| == 26 && 48 <= encoded[0] <= 90
    ensures VerifyPayload(config, utf8, Payload(config, action, ToUnixSeconds(issuedMs) + config.ttlSeconds, encoded),
                          presentedMs)
            == Verdict(config, action, f, issuedMs, presentedMs)
  {
    hide VerifyPayload, DecodeActionPayload, Payload, Carried, HasRawId;
    var expires := ToUnixSeconds(issuedMs) + config.ttlSeconds;
    if action == SupportTicketView && HasRawId(f) {
      VerifyMisread(config, utf8, encoded, expires, presentedMs);
    } else {
      VerifyFrame(config, utf8, action, encoded, Recovered(action, f), expires, presentedMs);
    }
  }

  /** The text of a token leaves its bytes to be read. */
  lemma VerifyText(config: CodecConfig, hmac: Hmac, utf8: Utf8Decoder, user: TelegramUserId, raw: seq<Byte>,
                   presentedMs: int)
    requires IsUnifiedConfig(config) && Normalize(user).Some? && |raw| >= 5 + UNIFIED_SIGNATURE_BYTES
    ensures Utf8Length(TokenText(raw)) <= 64 ==>
              Verify(config, hmac, utf8, TokenText(raw), user, presentedMs)
              == VerifyRaw(config, hmac, utf8, raw, Normalize(user).value, presentedMs)
  {
    hide VerifyRaw, Normalize, Utf8Length, Base64Url.Encode, Base64Url.Decode, TokenText;
    TokenTextRoundTrip(raw);
    assert |TokenText(raw)[3..]| == Base64Url.EncodedLength(|raw|) > 0;
  }

  /** A signature is accepted exactly where it is the user's own for the payload. */
  lemma SignatureMatches(config: CodecConfig, hmac: Hmac, utf8: Utf8Decoder, payload: seq<Byte>, signature: seq<Byte>,
                         user: string, nowMs: int)
    requires IsUnifiedConfig(config) && IsAscii(user) && |payload| >= 5 && |signature| == UNIFIED_SIGNATURE_BYTES
    ensures VerifyRaw(config, hmac, utf8, payload + signature, user, nowMs)
            == if signature == Sign(hmac, config.key, user, payload) then VerifyPayload(config, utf8, payload, nowMs)
               else Err(InvalidSignature)
  {
    hide VerifyPayload, Sign;
    var raw := payload + signature;
    assert raw[..|raw| - 8] == payload && raw[|raw| - 8..] == signature;
  }

  /** Text and signature of a freshly built token are accepted, leaving its payload to be read. */
  lemma VerifyTokenText(config: CodecConfig, hmac: Hmac, utf8: Utf8Decoder, user: TelegramUserId, payload: seq<Byte>,
                        presentedMs: int)
    requires IsUnifiedConfig(config) && Normalize(user).Some? && |payload| >= 5
    ensures var token := TokenText(payload + Sign(hmac, config.key, Normalize(user).value, payload));
            Utf8Length(token) <= 64 ==>
              Verify(config, hmac, utf8, token, user, presentedMs) == VerifyPayload(config, utf8, payload, presentedMs)
  {
    hide *;
    var signature := Sign(hmac, config.key, Normalize(user).value, payload);
    VerifyText(config, hmac, utf8, user, payload + signature, presentedMs);
    SignatureMatches(config, hmac, utf8, payload, signature, Normalize(user).value, presentedMs);
  }

  lemma IssuedShape(config: CodecConfig, hmac: Hmac, user: TelegramUserId, action: CallbackAction, f: TokenFields,
                    issuedMs: int)
    returns (payload: seq<Byte>)
    requires IsUnifiedConfig(config) && Issue(config, hmac, user, action, f, issuedMs).Ok?
    ensures Normalize(user).Some? && EncodeActionPayload(action, f).Ok? && 0 <= ToUnixSeconds(issuedMs)
    ensures ToUnixSeconds(issuedMs) + config.ttlSeconds <= MAX_UINT32
    ensures payload == Payload(config, action, ToUnixSeconds(issuedMs) + config.ttlSeconds,
                               EncodeActionPayload(action, f).value)
    ensures |payload| >= 5
    ensures var token := Issue(config, hmac, user, action, f, issuedMs).value;
            token == TokenText(payload + Sign(hmac, config.key, Normalize(user).value, payload))
                && Utf8Length(token) <= 64
  {
    hide EncodeActionPayload, TokenText, Sign, Utf8Length, Normalize, Digits;
    payload := Payload(config, action, ToUnixSeconds(issuedMs) + config.ttlSeconds,
                       EncodeActionPayload(action, f).value);
  }

  /** What reading the payload of an issued token gives. */
  lemma IssuedPayloadVerdict(config: CodecConfig, hmac: Hmac, utf8: Utf8Decoder, user: TelegramUserId,
                             action: CallbackAction, f: TokenFields, issuedMs: int, presentedMs: int)
    returns (payload: seq<Byte>)
    requires IsUnifiedConfig(config) && Issue(config, hmac, user, action, f, issuedMs).Ok?
    ensures Normalize(user).Some? && |payload| >= 5
    ensures var token := Issue(config, hmac, user, action, f, issuedMs).value;
            token == TokenText(payload + Sign(hmac, config.key, Normalize(user).value, payload))
                && Utf8Length(token) <= 64
    ensures VerifyPayload(config, utf8, payload, presentedMs) == Verdict(config, action, f, issuedMs, presentedMs)
  {
    hide *;
    payload := IssuedShape(config, hmac, user, action, f, issuedMs);
    DecodeIssued(config, hmac, utf8, user, action, f, issuedMs);
    FrameUnambiguous(action, f);
    RawTicketShape(f, action, utf8);
    VerifyDecoded(config, utf8, action, f, EncodeActionPayload(action, f).value, issuedMs, presentedMs);
  }

  /** The main theorem: for every token that is issued, whatever its action and ids, the same
      user presenting it gets exactly `Verdict`. */
  lemma VerifyIssued(config: CodecConfig, hmac: Hmac, utf8: Utf8Decoder, issuedTo: TelegramUserId,
                     presentedBy: TelegramUserId,
                     action: CallbackAction, f: TokenFields, issuedMs: int, presentedMs: int)
    requires IsUnifiedConfig(config) && Normalize(issuedTo) == Normalize(presentedBy)
    ensures var token := Issue(config, hmac, issuedTo, action, f, issuedMs);
            token.Ok? ==>
              Verify(config, hmac, utf8, token.value, presentedBy, presentedMs)
              == Verdict(config, action, f, issuedMs, presentedMs)
  {
    hide *;
    if Issue(config, hmac, issuedTo, action, f, issuedMs).Ok? {
      var payload := IssuedPayloadVerdict(config, hmac, utf8, issuedTo, action, f, issuedMs, presentedMs);
      VerifyTokenText(config, hmac, utf8, presentedBy, payload, presentedMs);
    }
  }

  /** The round trip the schemas promise: every conforming payload of ULIDs is issued, and comes
      back exactly, precisely between issue minus skew and issue plus lifetime plus skew. */
  lemma UlidRoundTrip(config: CodecConfig, hmac: Hmac, utf8: Utf8Decoder, user: TelegramUserId,
                      action: CallbackAction, f: TokenFields, issuedMs: int, presentedMs: int)
    requires IsUnifiedConfig(config) && Normalize(user).Some? && HasUlidsOnly(action, f) && IsPlain(action, f)
    requires Conforms(action, f)
    requires 0 <= ToUnixSeconds(issuedMs) && ToUnixSeconds(issuedMs) + config.ttlSeconds <= MAX_UINT32
    ensures var issued, presented := ToUnixSeconds(issuedMs), ToUnixSeconds(presentedMs);
            var token := Issue(config, hmac, user, action, f, issuedMs);
            && token.Ok?
            && (Verify(config, hmac, utf8, token.value, user, presentedMs)
                == Ok(VerifiedToken(action, f, (issued + config.ttlSeconds) * 1000))
                <==> && issued - config.clockSkewSeconds <= presented
                     && presented <= issued + config.ttlSeconds + config.clockSkewSeconds)
  {
    hide Verify, Issue, Conforms, Carried, Normalize;
    UlidTokensFit(config, hmac, user, action, f, issuedMs);
    VerifyIssued(config, hmac, utf8, user, user, action, f, issuedMs, presentedMs);
    CarriedIsInput(action, f);
  }

  /** Raw ids that no verifier can read back. */
  predicate Unreadable(action: CallbackAction, f: TokenFields) {
    && HasRawId(f)
    && action in {SupportTicketView, CategoryView, CatalogPage, SupportMenu, SupportReason, AdminCommand}
  }

  /** Which issued tokens their own user can redeem, and when: never the ones with an unreadable raw
      id, and any other exactly within its window. */
  lemma IrredeemableTokens(config: CodecConfig, hmac: Hmac, utf8: Utf8Decoder, user: TelegramUserId,
                           action: CallbackAction, f: TokenFields, issuedMs: int, presentedMs: int)
    requires IsUnifiedConfig(config)
    ensures var token := Issue(config, hmac, user, action, f, issuedMs);
            var issued, presented := ToUnixSeconds(issuedMs), ToUnixSeconds(presentedMs);
            token.Ok? ==>
              (Verify(config, hmac, utf8, token.value, user, presentedMs).Ok?
               <==> && !Unreadable(action, f)
                    && issued - config.clockSkewSeconds <= presented
                    && presented <= issued + config.ttlSeconds + config.clockSkewSeconds)
  {
    hide *;
    if Issue(config, hmac, user, action, f, issuedMs).Ok? {
      VerifyIssued(config, hmac, utf8, user, user, action, f, issuedMs, presentedMs);
      var payload := IssuedShape(config, hmac, user, action, f, issuedMs);
      if EncodesNothing(action) || action == CustomerTrustPage {
        NoResource(action, f);
      }
      if action == CheckoutWallet && HasRawId(f) {
        RawIdsThatDoNotFit(config, hmac, user, action, f, issuedMs);
      }
      VerdictOkIff(config, action, f, issuedMs, presentedMs);
    }
  }

  lemma VerdictOkIff(config: CodecConfig, action: CallbackAction, f: TokenFields, issuedMs: int, presentedMs: int)
    requires EncodesNothing(action) || action == CustomerTrustPage ==> f.resourceId.None?
    requires !(action == CheckoutWallet && HasRawId(f))
    ensures var issued, presented := ToUnixSeconds(issuedMs), ToUnixSeconds(presentedMs);
            Verdict(config, action, f, issuedMs, presentedMs).Ok?
            <==> && !Unreadable(action, f)
                 && issued - config.clockSkewSeconds <= presented
                 && presented <= issued + config.ttlSeconds + config.clockSkewSeconds
  {
    hide Carried, Ulid.IsId, ToUnixSeconds;
  }

  /** A support ticket with a raw id: issued, and never accepted. */
  lemma RawTicketNeverRedeems(config: CodecConfig, hmac: Hmac, utf8: Utf8Decoder, user: TelegramUserId, issuedMs: int,
                              presentedMs: int)
    requires IsUnifiedConfig(config) && Normalize(user).Some?
    requires 0 <= ToUnixSeconds(issuedMs) && ToUnixSeconds(issuedMs) + config.ttlSeconds <= MAX_UINT32
    ensures var f := NO_FIELDS.(resourceId := Some("IIIIIIIIIIIIIIIIIIIIIIIIII"));
            var token := Issue(config, hmac, user, SupportTicketView, f, issuedMs);
            token.Ok? && Verify(config, hmac, utf8, token.value, user, presentedMs).Err?
  {
    hide *;
    var f := NO_FIELDS.(resourceId := Some("IIIIIIIIIIIIIIIIIIIIIIIIII"));
    RawExample(f);
    IssuedIff(config, hmac, user, SupportTicketView, f, issuedMs);
    TokenLengthFits(SupportTicketView, EncodeActionPayload(SupportTicketView, f).value);
    IrredeemableTokens(config, hmac, utf8, user, SupportTicketView, f, issuedMs, presentedMs);
  }

  lemma RawExample(f: TokenFields)
    requires f == NO_FIELDS.(resourceId := Some("IIIIIIIIIIIIIIIIIIIIIIIIII"))
    ensures Unreadable(SupportTicketView, f) && EncodeActionPayload(SupportTicketView, f).Ok?
    ensures |EncodeActionPayload(SupportTicketView, f).value| == 26
  {
    var id := f.resourceId.value;
    assert id[0] == 'I' && !Ulid.IsUlidChar(id[0]);
    assert forall i | 0 <= i < |id| :: id[i] == 'I';
    assert IsRawId(id);
  }

  // ----- The three readings agree

  /** Whatever is accepted was peeked at as the same action. */
  lemma PeekAgreesWithVerify(config: CodecConfig, hmac: Hmac, utf8: Utf8Decoder, data: string, user: TelegramUserId,
                             nowMs: int)
    requires IsUnifiedConfig(config)
    ensures var r := Verify(config, hmac, utf8, data, user, nowMs);
            r.Ok? ==> PeekCallbackAction(data) == Some(r.value.action)
  {
  }

  lemma PeekPayload(config: CodecConfig, action: CallbackAction, encoded: seq<Byte>, expires: nat, signature: seq<Byte>)
    requires IsUnifiedConfig(config) && expires <= MAX_UINT32 && |signature| == 8
    requires Utf8Length(TokenText(Payload(config, action, expires, encoded) + signature)) <= 64
    requires ReadsRight(action, encoded) || (action == SupportTicketView && |encoded| == 26 && 48 <= encoded[0] <= 90)
    ensures PeekCallbackAction(TokenText(Payload(config, action, expires, encoded) + signature))
            == if ReadsRight(action, encoded) then Some(action) else None
  {
    hide Digits, Value, Base64Url.Encode, Base64Url.Decode, Utf8Length;
    var payload := Payload(config, action, expires, encoded);
    var raw := payload + signature;
    TokenTextRoundTrip(raw);
    assert |TokenText(raw)[3..]| == Base64Url.EncodedLength(|raw|) > 0;
    assert raw[..|raw| - 8] == payload;
    PayloadFields(config, action, expires, encoded);
    if !ReadsRight(action, encoded) {
      assert payload[5] == payload[5..][0] == encoded[0];
    }
  }

  /** Every issued token peeks at its own action, the irredeemable raw ticket at none. */
  lemma PeekIssued(config: CodecConfig, hmac: Hmac, utf8: Utf8Decoder, user: TelegramUserId, action: CallbackAction,
                   f: TokenFields, nowMs: int)
    requires IsUnifiedConfig(config)
    ensures var token := Issue(config, hmac, user, action, f, nowMs);
            token.Ok? ==>
              PeekCallbackAction(token.value) == if action == SupportTicketView && HasRawId(f) then None
                  else Some(action)
  {
    hide Issue, EncodeActionPayload, Payload, PeekCallbackAction, TokenText, Utf8Length, ReadsRight, HasRawId,
         Normalize, SignedMessage;
    if Issue(config, hmac, user, action, f, nowMs).Ok? {
      var payload := IssuedShape(config, hmac, user, action, f, nowMs);
      FrameUnambiguous(action, f);
      RawTicketShape(f, action, utf8);
      PeekPayload(config, action, EncodeActionPayload(action, f).value, ToUnixSeconds(nowMs) + config.ttlSeconds,
                  Sign(hmac, config.key, Normalize(user).value, payload));
    }
  }

  // ----- What a token is bound to

  predicate HasNoZero(s: string) {
    forall i | 0 <= i < |s| :: s[i] != '\0'
  }

  /** The signed message determines the user and the payload: an id has no zero byte. */
  lemma SignedMessageInjective(domain: string, u: string, v: string, p: seq<Byte>, q: seq<Byte>)
    requires IsAscii(domain) && IsAscii(u) && IsAscii(v)
    requires HasNoZero(u) && HasNoZero(v)
    requires SignedMessage(domain, u, p) == SignedMessage(domain, v, q)
    ensures u == v && p == q
  {
    var m, n := SignedMessage(domain, u, p), SignedMessage(domain, v, q);
    var d := |domain|;
    assert m[d + |u|] == 0 && n[d + |v|] == 0;
    assert forall i | 0 <= i < |u| :: m[d + i] == u[i] as int && m[d + i] != 0;
    assert forall i | 0 <= i < |v| :: n[d + i] == v[i] as int && n[d + i] != 0;
    assert |u| == |v|;
    forall i | 0 <= i < |u| ensures u[i] == v[i] {
      assert m[d + i] == n[d + i];
    }
    assert p == m[d + |u| + 1..] && q == n[d + |v| + 1..];
  }

  lemma NormalizedHasNoZero(user: TelegramUserId)
    requires Normalize(user).Some?
    ensures HasNoZero(Normalize(user).value)
  {
    NormalizeIdempotent(user);
  }

  lemma MessagesDiffer(domain: string, a: TelegramUserId, b: TelegramUserId, payload: seq<Byte>)
    requires IsAscii(domain) && Normalize(a).Some? && Normalize(b).Some? && Normalize(a) != Normalize(b)
    ensures SignedMessage(domain, Normalize(a).value, payload) != SignedMessage(domain, Normalize(b).value, payload)
  {
    hide *;
    NormalizedHasNoZero(a);
    NormalizedHasNoZero(b);
    var u, v := Normalize(a).value, Normalize(b).value;
    if SignedMessage(domain, u, payload) == SignedMessage(domain, v, payload) {
      SignedMessageInjective(domain, u, v, payload, payload);
    }
  }

  /** Two different messages, of two users and one payload, have the same truncated MAC. */
  predicate MacsCollide(hmac: Hmac, key: seq<Byte>, u: string, v: string, payload: seq<Byte>)
    requires IsAscii(u) && IsAscii(v)
  {
    && SignedMessage(SIGNING_DOMAIN, u, payload) != SignedMessage(SIGNING_DOMAIN, v, payload)
    && Sign(hmac, key, u, payload) == Sign(hmac, key, v, payload)
  }

  lemma CollideIffSame(hmac: Hmac, key: seq<Byte>, a: TelegramUserId, b: TelegramUserId, payload: seq<Byte>)
    requires Normalize(a).Some? && Normalize(b).Some? && Normalize(a) != Normalize(b)
    ensures var u, v := Normalize(a).value, Normalize(b).value;
            MacsCollide(hmac, key, u, v, payload) <==> Sign(hmac, key, u, payload) == Sign(hmac, key, v, payload)
  {
    hide Normalize, Sign, SignedMessage;
    MessagesDiffer(SIGNING_DOMAIN, a, b, payload);
  }

  /** What any other user gets for an issued token: a refused signature, unless the truncated MACs of
      two different messages coincide. */
  lemma BoundToItsUser(config: CodecConfig, hmac: Hmac, utf8: Utf8Decoder, issuedTo: TelegramUserId,
                       presentedBy: TelegramUserId,
                       action: CallbackAction, f: TokenFields, issuedMs: int, presentedMs: int)
    returns (payload: seq<Byte>)
    requires IsUnifiedConfig(config) && Issue(config, hmac, issuedTo, action, f, issuedMs).Ok?
    requires Normalize(presentedBy).Some? && Normalize(issuedTo) != Normalize(presentedBy)
    ensures Normalize(issuedTo).Some?
    ensures var token := Issue(config, hmac, issuedTo, action, f, issuedMs).value;
            var u, v := Normalize(issuedTo).value, Normalize(presentedBy).value;
            && token == TokenText(payload + Sign(hmac, config.key, u, payload))
            && Verify(config, hmac, utf8, token, presentedBy, presentedMs)
               == if MacsCollide(hmac, config.key, u, v, payload) then Verdict(config, action, f, issuedMs, presentedMs)
                  else Err(InvalidSignature)
  {
    hide *;
    payload := IssuedPayloadVerdict(config, hmac, utf8, issuedTo, action, f, issuedMs, presentedMs);
    var signature := Sign(hmac, config.key, Normalize(issuedTo).value, payload);
    VerifyText(config, hmac, utf8, presentedBy, payload + signature, presentedMs);
    SignatureMatches(config, hmac, utf8, payload, signature, Normalize(presentedBy).value, presentedMs);
    CollideIffSame(hmac, config.key, issuedTo, presentedBy, payload);
  }

  /** What is authenticated, byte for byte. */
  function Authenticated(user: string, payload: seq<Byte>): seq<Byte>
    requires IsAscii(user)
  {
    AsciiBytes("telegram-shop:callback:v1\0") + AsciiBytes(user) + [0] + payload
  }

  lemma SignatureIs(hmac: Hmac, key: seq<Byte>, user: string, payload: seq<Byte>)
    requires IsAscii(user)
    ensures Sign(hmac, key, user, payload) == hmac(key, Authenticated(user, payload))[..8]
  {
  }

  lemma SamePayload(a: CodecConfig, b: CodecConfig, action: CallbackAction, expires: nat, encoded: seq<Byte>)
    requires IsUnifiedConfig(a) && IsUnifiedConfig(b) && a.keyVersion == b.keyVersion
    ensures Payload(a, action, expires, encoded) == Payload(b, action, expires, encoded)
  {
  }

  lemma OtherVersion(issuer: CodecConfig, verifier: CodecConfig, utf8: Utf8Decoder, action: CallbackAction,
                     expires: nat, encoded: seq<Byte>, nowMs: int)
    requires IsUnifiedConfig(issuer) && IsUnifiedConfig(verifier) && issuer.keyVersion != verifier.keyVersion
    requires expires <= MAX_UINT32
    ensures |Payload(issuer, action, expires, encoded)| >= 5
    ensures VerifyPayload(verifier, utf8, Payload(issuer, action, expires, encoded), nowMs) == Err(UnknownKeyVersion)
  {
    PayloadFields(issuer, action, expires, encoded);
    hide Payload;
  }

  /** What a codec with another configuration makes of an issued token: a refused signature unless the
      truncated MACs under the two keys coincide, then an unknown version unless the versions do, and
      otherwise the verdict by the issuer's expiry and its own window. */
  lemma VerifyElsewhere(issuer: CodecConfig, verifier: CodecConfig, hmac: Hmac, utf8: Utf8Decoder,
                        user: TelegramUserId, action: CallbackAction, f: TokenFields, issuedMs: int, presentedMs: int)
    returns (payload: seq<Byte>)
    requires IsUnifiedConfig(issuer) && IsUnifiedConfig(verifier)
    requires Issue(issuer, hmac, user, action, f, issuedMs).Ok?
    ensures Normalize(user).Some?
    ensures var token := Issue(issuer, hmac, user, action, f, issuedMs).value;
            var m := Authenticated(Normalize(user).value, payload);
            && token == TokenText(payload + hmac(issuer.key, m)[..8])
            && Verify(verifier, hmac, utf8, token, user, presentedMs)
               == if hmac(verifier.key, m)[..8] != hmac(issuer.key, m)[..8] then Err(InvalidSignature)
                  else if verifier.keyVersion != issuer.keyVersion then Err(UnknownKeyVersion)
                  else if HasRawId(f) && action == SupportTicketView then Err(WrongAction)
                  else FrameVerdict(verifier, action, Recovered(action, f), ToUnixSeconds(issuedMs) + issuer.ttlSeconds,
                                    ToUnixSeconds(presentedMs))
  {
    hide *;
    payload := IssuedShape(issuer, hmac, user, action, f, issuedMs);
    var name := Normalize(user).value;
    var signature := Sign(hmac, issuer.key, name, payload);
    SignatureIs(hmac, issuer.key, name, payload);
    SignatureIs(hmac, verifier.key, name, payload);
    VerifyText(verifier, hmac, utf8, user, payload + signature, presentedMs);
    SignatureMatches(verifier, hmac, utf8, payload, signature, name, presentedMs);
    var encoded := EncodeActionPayload(action, f).value;
    var expires := ToUnixSeconds(issuedMs) + issuer.ttlSeconds;
    TtlIsPositive(issuer);
    if verifier.keyVersion != issuer.keyVersion {
      OtherVersion(issuer, verifier, utf8, action, expires, encoded, presentedMs);
    } else {
      SamePayload(issuer, verifier, action, expires, encoded);
      DecodeIssued(issuer, hmac, utf8, user, action, f, issuedMs);
      FrameUnambiguous(action, f);
      RawTicketShape(f, action, utf8);
      if HasRawId(f) && action == SupportTicketView {
        VerifyMisread(verifier, utf8, encoded, expires, presentedMs);
      } else {
        VerifyFrame(verifier, utf8, action, encoded, Recovered(action, f), expires, presentedMs);
      }
    }
  }

  lemma TtlIsPositive(config: CodecConfig)
    requires IsUnifiedConfig(config)
    ensures config.ttlSeconds >= 1
  {
  }

  /** A text that can be a token's: its prefix, at most 64 bytes, canonical base64url of at least 13. */
  predicate IsTokenText(data: string) {
    && "cb:" <= data && Utf8Length(data) <= 64 && Base64Url.IsText(data[3..]) && Base64Url.IsCanonical(data[3..])
    && Base64Url.DecodedLength(|data| - 3) >= 13
  }

  /** Any other text is malformed, to whomever it is presented, and peeks at nothing. */
  lemma TextDecides(config: CodecConfig, hmac: Hmac, utf8: Utf8Decoder, data: string, user: TelegramUserId, nowMs: int)
    requires IsUnifiedConfig(config)
    ensures !IsTokenText(data) ==> PeekCallbackAction(data) == None
    ensures Normalize(user).None? || !IsTokenText(data) ==>
              Verify(config, hmac, utf8, data, user, nowMs) == Err(Malformed)
    ensures Normalize(user).Some? && IsTokenText(data) ==>
              |Base64Url.Decode(data[3..])| >= 13
              && Verify(config, hmac, utf8, data, user, nowMs)
                 == VerifyRaw(config, hmac, utf8, Base64Url.Decode(data[3..]), Normalize(user).value, nowMs)
  {
    hide VerifyRaw, Normalize, Utf8Length, Base64Url.Encode, Base64Url.Decode, Base64Url.IsCanonical, ActionByCode;
    if "cb:" <= data && Base64Url.IsText(data[3..]) {
      Base64Url.ReencodeCheck(data[3..]);
    }
  }

  /** What a token text peeks at, by the first byte of its frame or the sixth. */
  lemma PeekDecides(data: string)
    requires IsTokenText(data)
    ensures |Base64Url.Decode(data[3..])| >= 13 && |ACTIONS| == 35
    ensures var p := Base64Url.Decode(data[3..])[..|Base64Url.Decode(data[3..])| - 8];
            PeekCallbackAction(data)
            == if p[0] < 240 || |p| == 21 then Some(ACTIONS[p[0] / 16])
               else if |p| > 5 && 16 <= p[5] < 35 then Some(ACTIONS[p[5]])
               else None
  {
    hide Utf8Length, Base64Url.Encode, Base64Url.Decode, Base64Url.IsCanonical, ACTIONS;
    Base64Url.ReencodeCheck(data[3..]);
    var raw := Base64Url.Decode(data[3..]);
    CodesAreListed(raw[0] / 16);
    CodesAreListed(raw[5]);
    hide ActionByCode;
  }

  /** The frames no action owns: an extended one without its code, or with a code out of range. */
  lemma WrongActionIff(config: CodecConfig, utf8: Utf8Decoder, payload: seq<Byte>, nowMs: int)
    requires IsUnifiedConfig(config) && |payload| >= 5
    ensures var r := VerifyPayload(config, utf8, payload, nowMs);
            && (r == Err(UnknownKeyVersion) <==> payload[0] % 16 != config.keyVersion)
            && (r == Err(WrongAction) <==>
                && payload[0] % 16 == config.keyVersion && payload[0] >= 240 && |payload| != 21
                && (|payload| == 5 || payload[5] < 16 || payload[5] >= 35))
  {
    hide DecodeActionPayload, Value;
    CodesAreListed(payload[0] / 16);
    if |payload| > 5 {
      CodesAreListed(payload[5]);
    }
    hide ActionByCode;
  }

  /** The lengths each action's payload may have. */
  lemma DecodesIff(action: CallbackAction, p: seq<Byte>, utf8: Utf8Decoder)
    ensures DecodeActionPayload(action, p, utf8).Some? <==>
            match action
            case SearchPrompt | MainMenu | CategoryList | OrderList | RestockList | ShopHome | ShopOpen
               | CustomerNotifications | CustomerWarranty | PreorderList | CustomerTrust => |p| == 0
            case CustomerTrustPage => |p| == 1
            case CheckoutWallet => |p| == 22 || |p| == 28
            case CatalogPage => |p| == 16 || |p| == 32
            case SupportMenu => |p| == 0 || |p| == 16
            case CategoryView => |p| == 16 || |p| == 17
            case SupportReason => |p| == 1 || |p| == 17
            case AdminCommand => |p| == 17
            case _ => |p| == 16 || |p| == 26
  {
    hide Ulid.DecodeUlid, Value, Base64Url.Encode;
  }

  /** An accepted token is the only text of its bytes: no second spelling is accepted. */
  lemma AcceptedTextIsUnique(config: CodecConfig, hmac: Hmac, utf8: Utf8Decoder, s: string, t: string,
                             user: TelegramUserId, nowMs: int)
    requires IsUnifiedConfig(config)
    ensures Verify(config, hmac, utf8, s, user, nowMs).Ok? && Verify(config, hmac, utf8, t, user, nowMs).Ok? ==>
              && |s| > 3 && |t| > 3 && Base64Url.IsText(s[3..]) && Base64Url.IsText(t[3..])
              && Base64Url.IsCanonical(s[3..])
              && (Base64Url.Decode(s[3..]) == Base64Url.Decode(t[3..]) <==> s == t)
  {
    hide VerifyRaw, Base64Url.Decode, Base64Url.Encode, Utf8Length, Normalize, Base64Url.IsCanonical;
    if Verify(config, hmac, utf8, s, user, nowMs).Ok? && Verify(config, hmac, utf8, t, user, nowMs).Ok? {
      Base64Url.ReencodeCheck(s[3..]);
      assert s == s[..3] + s[3..] && t == t[..3] + t[3..];
    }
  }
}
