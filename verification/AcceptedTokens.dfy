/** How far an accepted token is determined by what it verifies to. */
module AcceptedTokens {
  import opened Positional
  import opened Results
  import opened Platform
  import opened CallbackCodec
  import opened CallbackSchema
  import opened CallbackRoundTrip
  import Base64Url
  import Ulid
  import Utf8

  lemma CodeOfAction(code: Byte)
    ensures ActionByCode(Some(code)).Some? ==> ActionCode(ActionByCode(Some(code)).value) == code
  {
  }

  /** The action's own payload within a whole payload. */
  function Body(payload: seq<Byte>): seq<Byte>
    requires |payload| >= 5
  {
    if payload[0] / 16 == 15 && |payload| != 21 && |payload| > 5 then payload[6..] else payload[5..]
  }

  /** An accepted payload is the one its own action, expiry and body build. */
  lemma AcceptedPayload(config: CodecConfig, utf8: Utf8Decoder, payload: seq<Byte>, nowMs: int)
    requires IsUnifiedConfig(config) && |payload| >= 5
    ensures var r := VerifyPayload(config, utf8, payload, nowMs);
            r.Ok? ==>
              var expires := Value(payload[1..5], 256);
              && r.value.expiresAtMs == expires * 1000
              && DecodeActionPayload(r.value.action, Body(payload), utf8) == Some(r.value.fields)
              && payload == Payload(config, r.value.action, expires, Body(payload))
              && (r.value.action == SupportTicketView ==> |Body(payload)| == 16)
  {
    hide DecodeActionPayload, Value, Digits;
    var r := VerifyPayload(config, utf8, payload, nowMs);
    if r.Ok? {
      var nibble := payload[0] / 16;
      CodeOfAction(nibble);
      if nibble == 15 && |payload| != 21 {
        CodeOfAction(payload[5]);
        assert payload[5..] == [payload[5]] + payload[6..];
      }
      DigitsOfValue(payload[1..5], 256);
      assert payload == [payload[0]] + payload[1..5] + payload[5..];
    }
  }

  /** An accepted string is the token of its own payload. */
  lemma AcceptedToken(config: CodecConfig, hmac: Hmac, utf8: Utf8Decoder, s: string, user: TelegramUserId, nowMs: int)
    returns (payload: seq<Byte>)
    requires IsUnifiedConfig(config)
    ensures var r := Verify(config, hmac, utf8, s, user, nowMs);
            r.Ok? ==>
              && |payload| >= 5 && Normalize(user).Some? && r == VerifyPayload(config, utf8, payload, nowMs)
              && s == TokenText(payload + Sign(hmac, config.key, Normalize(user).value, payload))
              && |s| >= 3 && |payload| + UNIFIED_SIGNATURE_BYTES == Base64Url.DecodedLength(|s| - 3)
  {
    hide VerifyPayload, Normalize, Utf8Length, Base64Url.Encode, Base64Url.Decode, SignedMessage,
         Base64Url.DecodedLength;
    payload := [];
    if Verify(config, hmac, utf8, s, user, nowMs).Ok? {
      var raw := Base64Url.Decode(s[3..]);
      payload := raw[..|raw| - UNIFIED_SIGNATURE_BYTES];
      assert raw == payload + raw[|raw| - UNIFIED_SIGNATURE_BYTES..];
      assert s == s[..3] + s[3..];
      Base64Url.ReencodeCheck(s[3..]);
    }
  }

  lemma SameUlidBytes(p: seq<Byte>, q: seq<Byte>)
    requires |p| == 16 && |q| == 16 && Ulid.DecodeUlid(p) == Ulid.DecodeUlid(q)
    ensures p == q
  {
    Ulid.EncodeDecode(p);
    Ulid.EncodeDecode(q);
  }

  lemma SameNumberBytes(p: seq<Byte>, q: seq<Byte>)
    requires |p| == |q| && Value(p, 256) == Value(q, 256)
    ensures p == q
  {
    DigitsOfValue(p, 256);
    DigitsOfValue(q, 256);
  }

  /** Bytes of the decoded id were lost to a replacement character. */
  predicate HasLostBytes(f: TokenFields) {
    f.resourceId.Some? && Utf8.HasReplacement(f.resourceId.value)
  }

  lemma SameAttempt(p: seq<Byte>, q: seq<Byte>)
    requires |p| == |q| == 6 && Base64Url.Encode(p) == Base64Url.Encode(q)
    ensures p == q
  {
    hide Base64Url.Encode, Base64Url.Decode;
    Base64Url.DecodeEncode(p);
    Base64Url.DecodeEncode(q);
  }

  lemma CheckoutParts(p: seq<Byte>)
    requires DecodeCheckout(p).Some?
    ensures |p| == 22 || |p| == 28
    ensures p == p[..16] + p[16..22] + p[22..]
    ensures DecodeCheckout(p).value.resourceId == Some(Ulid.DecodeUlid(p[..16]))
            && DecodeCheckout(p).value.amountVnd == Some(Value(p[16..22], 256))
    ensures |p| == 28 ==> DecodeCheckout(p).value.secondaryResourceId == Some(Base64Url.Encode(p[22..28]))
  {
    hide Ulid.DecodeUlid, Value, Base64Url.Encode;
  }

  lemma SameCheckoutBytes(p: seq<Byte>, q: seq<Byte>)
    requires |p| == |q| && DecodeCheckout(p).Some? && DecodeCheckout(p) == DecodeCheckout(q)
    ensures p == q
  {
    hide *;
    CheckoutParts(p);
    CheckoutParts(q);
    SameUlidBytes(p[..16], q[..16]);
    SameNumberBytes(p[16..22], q[16..22]);
    if |p| == 28 {
      SameAttempt(p[22..28], q[22..28]);
    }
  }

  lemma SameOptionBytes(p: seq<Byte>, q: seq<Byte>)
    requires DecodeResourceAndOption(p).Some? && DecodeResourceAndOption(p) == DecodeResourceAndOption(q)
    ensures p == q
  {
    SameUlidBytes(p[..16], q[..16]);
    assert p == p[..16] + [p[16]] && q == q[..16] + [q[16]];
  }

  lemma SameCatalogBytes(p: seq<Byte>, q: seq<Byte>)
    requires |p| == |q| == 32
    requires Ulid.DecodeUlid(p[..16]) == Ulid.DecodeUlid(q[..16])
             && Ulid.DecodeUlid(p[16..]) == Ulid.DecodeUlid(q[16..])
    ensures p == q
  {
    SameUlidBytes(p[..16], q[..16]);
    SameUlidBytes(p[16..], q[16..]);
    assert p == p[..16] + p[16..] && q == q[..16] + q[16..];
  }

  lemma SameResourceBytes(action: CallbackAction, p: seq<Byte>, q: seq<Byte>, utf8: Utf8Decoder)
    requires DecodesOneResource(action) && |p| == |q|
    requires DecodeActionPayload(action, p, utf8).Some? && !HasLostBytes(DecodeActionPayload(action, p, utf8).value)
    requires DecodeActionPayload(action, p, utf8) == DecodeActionPayload(action, q, utf8)
    ensures p == q
  {
    hide Ulid.DecodeUlid, IsAscii, DecodeCheckout, DecodeResourceAndOption, Utf8.Encode, Utf8.HasReplacement;
    if |p| == 16 {
      SameUlidBytes(p, q);
    } else {
      assert TellsApart(p, q, utf8(p), utf8(q));
    }
  }

  lemma SamePageBytes(p: seq<Byte>, q: seq<Byte>, utf8: Utf8Decoder)
    requires |p| == |q| && DecodeActionPayload(CatalogPage, p, utf8).Some?
    requires DecodeActionPayload(CatalogPage, p, utf8) == DecodeActionPayload(CatalogPage, q, utf8)
    ensures p == q
  {
    hide Ulid.DecodeUlid;
    if |p| == 16 {
      SameUlidBytes(p, q);
    } else {
      SameCatalogBytes(p, q);
    }
  }

  lemma SameOtherBytes(action: CallbackAction, p: seq<Byte>, q: seq<Byte>, utf8: Utf8Decoder)
    requires action in {CategoryView, SupportMenu, SupportReason, AdminCommand} && |p| == |q|
    requires DecodeActionPayload(action, p, utf8).Some?
    requires DecodeActionPayload(action, p, utf8) == DecodeActionPayload(action, q, utf8)
    ensures p == q
  {
    hide Ulid.DecodeUlid, DecodeResourceAndOption;
    if |p| == 16 && (action == CategoryView || action == SupportMenu) {
      SameUlidBytes(p, q);
    } else if action != SupportMenu && !(action == SupportReason && |p| == 1) {
      SameOptionBytes(p, q);
    }
  }

  lemma SameSmallBytes(action: CallbackAction, p: seq<Byte>, q: seq<Byte>, utf8: Utf8Decoder)
    requires (DecodesNothing(action) || action == CustomerTrustPage) && |p| == |q|
    requires DecodeActionPayload(action, p, utf8).Some?
    requires DecodeActionPayload(action, p, utf8) == DecodeActionPayload(action, q, utf8)
    ensures p == q
  {
  }

  lemma CheckoutDecodes(p: seq<Byte>, utf8: Utf8Decoder)
    ensures DecodeActionPayload(CheckoutWallet, p, utf8) == DecodeCheckout(p)
  {
    hide DecodeCheckout;
  }

  /** Bodies of one length that decode alike are alike, unless their text has lost bytes. */
  lemma DecodingIsInjective(action: CallbackAction, p: seq<Byte>, q: seq<Byte>, utf8: Utf8Decoder)
    requires |p| == |q|
    ensures var f := DecodeActionPayload(action, p, utf8);
            f.Some? && f == DecodeActionPayload(action, q, utf8) && !HasLostBytes(f.value) ==> p == q
  {
    hide DecodeActionPayload, DecodeCheckout, HasLostBytes;
    var f := DecodeActionPayload(action, p, utf8);
    if f.Some? && f == DecodeActionPayload(action, q, utf8) && !HasLostBytes(f.value) {
      if DecodesOneResource(action) {
        SameResourceBytes(action, p, q, utf8);
      } else if action == CheckoutWallet {
        CheckoutDecodes(p, utf8);
        CheckoutDecodes(q, utf8);
        SameCheckoutBytes(p, q);
      } else if action == CatalogPage {
        SamePageBytes(p, q, utf8);
      } else if DecodesNothing(action) || action == CustomerTrustPage {
        SameSmallBytes(action, p, q, utf8);
      } else {
        SameOtherBytes(action, p, q, utf8);
      }
    }
  }

  /** An action whose one id can be spelt out or packed. */
  predicate HasTwoForms(action: CallbackAction, f: TokenFields) {
    && DecodesOneResource(action) && action != SupportTicketView
    && f.resourceId.Some? && Ulid.IsId(f.resourceId.value) && f.resourceId.value[0] <= '7'
  }

  /** Decoded fields tell the length of the body, except for an id that can be spelt out or packed. */
  lemma LengthIsDecoded(action: CallbackAction, p: seq<Byte>, q: seq<Byte>, utf8: Utf8Decoder)
    requires action == SupportTicketView ==> |p| == |q| == 16
    ensures var f := DecodeActionPayload(action, p, utf8);
            f.Some? && f == DecodeActionPayload(action, q, utf8) && !HasTwoForms(action, f.value) ==> |p| == |q|
  {
    hide DecodeCheckout, DecodeResourceAndOption, Ulid.DecodeUlid, Ulid.IsUlidText;
    var f := DecodeActionPayload(action, p, utf8);
    if f.Some? && f == DecodeActionPayload(action, q, utf8) {
      if DecodesOneResource(action) {
        if |p| == 16 {
          DecodedIsSmall(p);
        } else if |q| == 16 {
          DecodedIsSmall(q);
        }
      } else {
        OtherLengths(action, p, utf8);
        OtherLengths(action, q, utf8);
      }
    }
  }

  lemma DecodedIsSmall(p: seq<Byte>)
    requires |p| == 16
    ensures Ulid.IsId(Ulid.DecodeUlid(p)) && Ulid.DecodeUlid(p)[0] <= '7'
  {
    Ulid.EncodeDecode(p);
    Ulid.EncodesIff(Ulid.DecodeUlid(p));
  }

  /** Apart from the one-resource actions, which fields are there tells the length. */
  lemma OtherLengths(action: CallbackAction, p: seq<Byte>, utf8: Utf8Decoder)
    requires !DecodesOneResource(action) && DecodeActionPayload(action, p, utf8).Some?
    ensures var f := DecodeActionPayload(action, p, utf8).value;
            |p| == (if f.resourceId.Some? then 16 else 0) + (if f.option.Some? then 1 else 0)
                   + (if f.amountVnd.Some? then 6 else 0)
                   + (if f.secondaryResourceId.None? then 0 else if action == CheckoutWallet then 6 else 16)
  {
    hide Value, Base64Url.Encode, Ulid.DecodeUlid;
  }

  /** Two accepted strings that verify to the same action, fields and expiry are the same string,
      with two exceptions: an id that can be spelt out or packed leaves a choice of length, and an
      id that holds a replacement character one of bytes. */
  lemma AcceptedValueIsUnique(config: CodecConfig, hmac: Hmac, utf8: Utf8Decoder, s: string, t: string,
                              user: TelegramUserId, sMs: int, tMs: int)
    requires IsUnifiedConfig(config)
    ensures var rs, rt := Verify(config, hmac, utf8, s, user, sMs), Verify(config, hmac, utf8, t, user, tMs);
            rs.Ok? && rs == rt ==>
              && (!HasTwoForms(rs.value.action, rs.value.fields) ==> |s| == |t|)
              && (!HasLostBytes(rs.value.fields) ==> (|s| == |t| <==> s == t))
  {
    hide Verify, VerifyPayload, DecodeActionPayload, Payload, TokenText, Sign, Normalize, HasLostBytes, HasTwoForms,
         Value, Base64Url.DecodedLength;
    var r := Verify(config, hmac, utf8, s, user, sMs);
    if r.Ok? && r == Verify(config, hmac, utf8, t, user, tMs) {
      var p := AcceptedToken(config, hmac, utf8, s, user, sMs);
      var q := AcceptedToken(config, hmac, utf8, t, user, tMs);
      AcceptedPayload(config, utf8, p, sMs);
      AcceptedPayload(config, utf8, q, tMs);
      LengthIsDecoded(r.value.action, Body(p), Body(q), utf8);
      SameLength(config, hmac, Normalize(user).value, p, q, r.value.action);
      if |Body(p)| == |Body(q)| {
        DecodingIsInjective(r.value.action, Body(p), Body(q), utf8);
      }
    }
  }

  lemma SameLength(config: CodecConfig, hmac: Hmac, user: string, p: seq<Byte>, q: seq<Byte>, action: CallbackAction)
    requires IsUnifiedConfig(config) && IsAscii(user) && |p| >= 5 && |q| >= 5
    requires p == Payload(config, action, Value(p[1..5], 256), Body(p))
    requires q == Payload(config, action, Value(q[1..5], 256), Body(q))
    ensures |p| == |q| <==> |Body(p)| == |Body(q)|
    ensures |p| == |q| ==> |TokenText(p + Sign(hmac, config.key, user, p))|
                           == |TokenText(q + Sign(hmac, config.key, user, q))|
  {
    hide Value, Digits, Body, TokenText, Sign, Utf8Length, Base64Url.EncodedLength;
    TokenTextRoundTrip(p + Sign(hmac, config.key, user, p));
    TokenTextRoundTrip(q + Sign(hmac, config.key, user, q));
  }

  // ----- Both exceptions are real

  /** A body signed like any token. */
  function Signed(config: CodecConfig, hmac: Hmac, user: string, action: CallbackAction, body: seq<Byte>,
                  expires: nat): string
    requires IsUnifiedConfig(config) && IsAscii(user)
  {
    var payload := Payload(config, action, expires, body);
    TokenText(payload + Sign(hmac, config.key, user, payload))
  }

  lemma PayloadEnds(config: CodecConfig, action: CallbackAction, body: seq<Byte>, expires: nat)
    requires IsUnifiedConfig(config)
    ensures var payload := Payload(config, action, expires, body);
            var k := if ActionCode(action) >= 16 then 6 else 5;
            |payload| == k + |body| && payload[k..] == body
  {
    hide Digits, Header, ActionCode;
  }

  lemma SignedFits(config: CodecConfig, hmac: Hmac, user: string, action: CallbackAction, body: seq<Byte>,
                   expires: nat)
    requires IsUnifiedConfig(config) && IsAscii(user)
    ensures var token := Signed(config, hmac, user, action, body, expires);
            var n := |body| + if ActionCode(action) >= 16 then 14 else 13;
            |token| == 3 + Base64Url.EncodedLength(n) && Utf8Length(token) == |token|
  {
    hide Payload, Sign, TokenText, Utf8Length, ActionCode;
    var payload := Payload(config, action, expires, body);
    PayloadEnds(config, action, body, expires);
    TokenTextRoundTrip(payload + Sign(hmac, config.key, user, payload));
  }

  lemma SignedTellsBody(config: CodecConfig, hmac: Hmac, user: string, action: CallbackAction, p: seq<Byte>,
                        q: seq<Byte>, expires: nat)
    requires IsUnifiedConfig(config) && IsAscii(user)
    requires Signed(config, hmac, user, action, p, expires) == Signed(config, hmac, user, action, q, expires)
    ensures p == q
  {
    hide Payload, TokenText, Sign, ActionCode, Utf8Length;
    var pp, pq := Payload(config, action, expires, p), Payload(config, action, expires, q);
    PayloadEnds(config, action, p, expires);
    PayloadEnds(config, action, q, expires);
    SameText(pp, pq, Sign(hmac, config.key, user, pp), Sign(hmac, config.key, user, pq));
  }

  lemma SameText(p: seq<Byte>, q: seq<Byte>, sp: seq<Byte>, sq: seq<Byte>)
    requires |sp| == |sq| && TokenText(p + sp) == TokenText(q + sq)
    ensures p == q
  {
    TokenTextRoundTrip(p + sp);
    TokenTextRoundTrip(q + sq);
    assert p == (p + sp)[..|p|] && q == (q + sq)[..|q|];
  }

  /** The bodies `verify` may find an id in, whoever made them. */
  predicate IsIdBody(action: CallbackAction, body: seq<Byte>) {
    DecodesOneResource(action) && (|body| == 16 || (|body| == 26 && action != SupportTicketView))
  }

  /** A signed body that holds an id gets the verdict on its frame. */
  lemma VerifySigned(config: CodecConfig, hmac: Hmac, utf8: Utf8Decoder, user: TelegramUserId, action: CallbackAction,
                     body: seq<Byte>, expires: nat, nowMs: int)
    requires IsUnifiedConfig(config) && Normalize(user).Some? && expires <= MAX_UINT32 && IsIdBody(action, body)
    ensures Verify(config, hmac, utf8, Signed(config, hmac, Normalize(user).value, action, body, expires), user, nowMs)
            == FrameVerdict(config, action, DecodeActionPayload(action, body, utf8), expires, ToUnixSeconds(nowMs))
  {
    hide Verify, VerifyPayload, DecodeActionPayload, FrameVerdict, Normalize, Sign, TokenText, Utf8Length, Digits;
    SignedFits(config, hmac, Normalize(user).value, action, body, expires);
    VerifyTokenText(config, hmac, utf8, user, Payload(config, action, expires, body), nowMs);
    VerifyFrame(config, utf8, action, body, DecodeActionPayload(action, body, utf8), expires, nowMs);
  }

  lemma FreshVerdict(config: CodecConfig, action: CallbackAction, f: TokenFields, now: int)
    requires IsUnifiedConfig(config)
    ensures config.ttlSeconds >= 1 && config.clockSkewSeconds >= 0
    ensures FrameVerdict(config, action, Some(f), now + config.ttlSeconds, now)
            == Ok(VerifiedToken(action, f, (now + config.ttlSeconds) * 1000))
  {
  }

  lemma SpeltOutDecodes(action: CallbackAction, id: string, utf8: Utf8Decoder)
    requires DecodesOneResource(action) && Ulid.IsId(id)
    ensures IsAscii(id) && DecodeActionPayload(action, AsciiBytes(id), utf8) == Some(ResourceOnly(id))
  {
    AsciiTextOfBytes(id);
    hide Ulid.DecodeUlid;
  }

  /** The spelt-out form of an id, signed like any token, is accepted. */
  lemma SpeltOutVerifies(config: CodecConfig, hmac: Hmac, utf8: Utf8Decoder, user: TelegramUserId,
                         action: CallbackAction, id: string, nowMs: int)
    requires IsUnifiedConfig(config) && Normalize(user).Some? && 0 <= ToUnixSeconds(nowMs)
    requires ToUnixSeconds(nowMs) + config.ttlSeconds <= MAX_UINT32
    requires DecodesOneResource(action) && action != SupportTicketView && Ulid.IsId(id)
    ensures IsAscii(id)
    ensures var expires := ToUnixSeconds(nowMs) + config.ttlSeconds;
            var token := Signed(config, hmac, Normalize(user).value, action, AsciiBytes(id), expires);
            Verify(config, hmac, utf8, token, user, nowMs)
            == Ok(VerifiedToken(action, ResourceOnly(id), expires * 1000))
  {
    hide DecodeActionPayload, Verify, Signed, FrameVerdict, Normalize, Ulid.IsUlidText, IsAscii, ToUnixSeconds;
    var expires := ToUnixSeconds(nowMs) + config.ttlSeconds;
    SpeltOutDecodes(action, id, utf8);
    VerifySigned(config, hmac, utf8, user, action, AsciiBytes(id), expires, nowMs);
    FreshVerdict(config, action, ResourceOnly(id), ToUnixSeconds(nowMs));
  }

  lemma IssuedAsSigned(config: CodecConfig, hmac: Hmac, user: TelegramUserId, action: CallbackAction, f: TokenFields,
                       nowMs: int)
    requires IsUnifiedConfig(config) && Issue(config, hmac, user, action, f, nowMs).Ok?
    ensures Normalize(user).Some? && EncodeActionPayload(action, f).Ok?
    ensures 0 <= ToUnixSeconds(nowMs) + config.ttlSeconds <= MAX_UINT32
    ensures Issue(config, hmac, user, action, f, nowMs).value
            == Signed(config, hmac, Normalize(user).value, action, EncodeActionPayload(action, f).value,
                      ToUnixSeconds(nowMs) + config.ttlSeconds)
  {
    hide Issue, Payload, TokenText, Sign, Normalize, EncodeActionPayload, ToUnixSeconds, Utf8Length;
    var payload := IssuedShape(config, hmac, user, action, f, nowMs);
  }

  /** The choice of length is real: the token `issue` makes for a ULID and the spelt-out one, signed
      alike, verify to the same thing. */
  lemma TwoFormsOfOneId(config: CodecConfig, hmac: Hmac, utf8: Utf8Decoder, user: TelegramUserId,
                        action: CallbackAction, id: string, nowMs: int)
    returns (s: string, t: string)
    requires IsUnifiedConfig(config) && Normalize(user).Some? && 0 <= ToUnixSeconds(nowMs)
    requires ToUnixSeconds(nowMs) + config.ttlSeconds <= MAX_UINT32
    requires HasTwoForms(action, ResourceOnly(id))
    ensures Issue(config, hmac, user, action, ResourceOnly(id), nowMs) == Ok(s) && s != t
    ensures var value := VerifiedToken(action, ResourceOnly(id), (ToUnixSeconds(nowMs) + config.ttlSeconds) * 1000);
            Verify(config, hmac, utf8, s, user, nowMs) == Ok(value) == Verify(config, hmac, utf8, t, user, nowMs)
  {
    hide *;
    var f := ResourceOnly(id);
    PackedEncodes(action, id);
    FreshVerdict(config, action, f, ToUnixSeconds(nowMs));
    UlidRoundTrip(config, hmac, utf8, user, action, f, nowMs, nowMs);
    SpeltOutVerifies(config, hmac, utf8, user, action, id, nowMs);
    var expires: nat := ToUnixSeconds(nowMs) + config.ttlSeconds;
    s := Issue(config, hmac, user, action, f, nowMs).value;
    t := Signed(config, hmac, Normalize(user).value, action, AsciiBytes(id), expires);
    IssuedAsSigned(config, hmac, user, action, f, nowMs);
    if s == t {
      SignedTellsBody(config, hmac, Normalize(user).value, action, EncodeActionPayload(action, f).value, AsciiBytes(id),
                      expires);
    }
  }

  lemma PackedEncodes(action: CallbackAction, id: string)
    requires HasTwoForms(action, ResourceOnly(id))
    ensures DecodesOneResource(action) && action != SupportTicketView && Ulid.IsId(id)
    ensures var f := ResourceOnly(id);
            && HasUlidsOnly(action, f) && IsPlain(action, f) && Conforms(action, f)
            && EncodeActionPayload(action, f).Ok? && |EncodeActionPayload(action, f).value| == 16
  {
    Ulid.EncodesIff(id);
  }

  /** An accepted token of one id, and any whose id has two forms or lost bytes is one, is its own
      body, signed. */
  lemma AcceptedAsSigned(config: CodecConfig, hmac: Hmac, utf8: Utf8Decoder, s: string, user: TelegramUserId,
                         nowMs: int)
    returns (body: seq<Byte>, expires: nat)
    requires IsUnifiedConfig(config)
    ensures var r := Verify(config, hmac, utf8, s, user, nowMs);
            r.Ok? && (DecodesOneResource(r.value.action) || HasLostBytes(r.value.fields)) ==>
              && Normalize(user).Some? && expires <= MAX_UINT32 && IsIdBody(r.value.action, body)
              && DecodeActionPayload(r.value.action, body, utf8) == Some(r.value.fields)
              && s == Signed(config, hmac, Normalize(user).value, r.value.action, body, expires)
  {
    hide *;
    body, expires := [], 0;
    var r := Verify(config, hmac, utf8, s, user, nowMs);
    if r.Ok? && (DecodesOneResource(r.value.action) || HasLostBytes(r.value.fields)) {
      var payload := AcceptedToken(config, hmac, utf8, s, user, nowMs);
      AcceptedPayload(config, utf8, payload, nowMs);
      body, expires := Body(payload), Value(payload[1..5], 256);
      TimestampBound(payload[1..5]);
      if HasLostBytes(r.value.fields) {
        LostBytesWereSpeltOut(r.value.action, body, utf8);
      }
      IdBodyLength(r.value.action, body, utf8);
      SignedIs(config, hmac, Normalize(user).value, r.value.action, body, expires);
    }
  }

  lemma TimestampBound(field: seq<Byte>)
    requires |field| == 4
    ensures Value(field, 256) <= MAX_UINT32
  {
    ValueBound(field, 256);
    PowAdd(256, 1, 1);
    PowAdd(256, 2, 2);
  }

  lemma IdBodyLength(action: CallbackAction, body: seq<Byte>, utf8: Utf8Decoder)
    requires DecodesOneResource(action) && DecodeActionPayload(action, body, utf8).Some?
    requires action == SupportTicketView ==> |body| == 16
    ensures IsIdBody(action, body)
  {
    hide Ulid.DecodeUlid;
  }

  lemma SignedIs(config: CodecConfig, hmac: Hmac, user: string, action: CallbackAction, body: seq<Byte>,
                 expires: nat)
    requires IsUnifiedConfig(config) && IsAscii(user)
    ensures var payload := Payload(config, action, expires, body);
            Signed(config, hmac, user, action, body, expires)
                == TokenText(payload + Sign(hmac, config.key, user, payload))
  {
  }

  lemma LostBytesWereSpeltOut(action: CallbackAction, body: seq<Byte>, utf8: Utf8Decoder)
    requires DecodeActionPayload(action, body, utf8).Some?
    requires HasLostBytes(DecodeActionPayload(action, body, utf8).value)
    ensures DecodesOneResource(action) && |body| == 26
            && DecodeActionPayload(action, body, utf8) == Some(ResourceOnly(utf8(body)))
  {
    hide Ulid.DecodeUlid;
  }

  /** A second body for the same id: the other form of it, or other bytes for its replacements. */
  lemma OtherBody(action: CallbackAction, body: seq<Byte>, f: TokenFields)
    returns (other: seq<Byte>)
    requires IsIdBody(action, body) && DecodeActionPayload(action, body, RUNTIME) == Some(f)
    requires HasTwoForms(action, f) || HasLostBytes(f)
    ensures IsIdBody(action, other) && other != body && DecodeActionPayload(action, other, RUNTIME) == Some(f)
  {
    hide Ulid.DecodeUlid, Ulid.EncodeUlid, Ulid.IsUlidText, Utf8.HasReplacement, Utf8.Decode, Utf8.Twin;
    if HasTwoForms(action, f) {
      var id := f.resourceId.value;
      if |body| == 16 {
        SpeltOutDecodes(action, id, RUNTIME);
        other := AsciiBytes(id);
      } else {
        Ulid.EncodesIff(id);
        Ulid.DecodeEncode(id);
        other := Ulid.EncodeUlid(id).value;
      }
    } else {
      LostBytesWereSpeltOut(action, body, RUNTIME);
      Utf8.TwinDecodes(body);
      other := Utf8.Twin(body);
    }
  }

  lemma SecondString(config: CodecConfig, hmac: Hmac, s: string, user: TelegramUserId, nowMs: int)
    returns (t: string)
    requires IsUnifiedConfig(config)
    ensures var r := Verify(config, hmac, RUNTIME, s, user, nowMs);
            r.Ok? && (HasTwoForms(r.value.action, r.value.fields) || HasLostBytes(r.value.fields)) ==>
              t != s && Verify(config, hmac, RUNTIME, t, user, nowMs) == r
  {
    hide *;
    t := "";
    var r := Verify(config, hmac, RUNTIME, s, user, nowMs);
    if r.Ok? && (HasTwoForms(r.value.action, r.value.fields) || HasLostBytes(r.value.fields)) {
      var action := r.value.action;
      TwoFormsAreOneResource(action, r.value.fields);
      var body, expires := AcceptedAsSigned(config, hmac, RUNTIME, s, user, nowMs);
      var other := OtherBody(action, body, r.value.fields);
      t := Signed(config, hmac, Normalize(user).value, action, other, expires);
      VerifySigned(config, hmac, RUNTIME, user, action, body, expires, nowMs);
      VerifySigned(config, hmac, RUNTIME, user, action, other, expires, nowMs);
      if t == s {
        SignedTellsBody(config, hmac, Normalize(user).value, action, body, other, expires);
      }
    }
  }

  lemma TwoFormsAreOneResource(action: CallbackAction, f: TokenFields)
    ensures HasTwoForms(action, f) ==> DecodesOneResource(action)
  {
  }

  /** Both exceptions are exact: with the runtime's decoder, another string verifies to the same
      thing if and only if the id has two forms or holds a replacement character. */
  lemma SecondStringIff(config: CodecConfig, hmac: Hmac, s: string, user: TelegramUserId, nowMs: int)
    requires IsUnifiedConfig(config)
    ensures var r := Verify(config, hmac, RUNTIME, s, user, nowMs);
            r.Ok? ==>
              ((exists t :: t != s && Verify(config, hmac, RUNTIME, t, user, nowMs) == r)
               <==> HasTwoForms(r.value.action, r.value.fields) || HasLostBytes(r.value.fields))
  {
    hide *;
    var r := Verify(config, hmac, RUNTIME, s, user, nowMs);
    if r.Ok? {
      var t := SecondString(config, hmac, s, user, nowMs);
      forall t | Verify(config, hmac, RUNTIME, t, user, nowMs) == r
        ensures t == s || HasTwoForms(r.value.action, r.value.fields) || HasLostBytes(r.value.fields)
      {
        AcceptedValueIsUnique(config, hmac, RUNTIME, s, t, user, nowMs, nowMs);
      }
    }
  }

  lemma NeverDecodes(action: CallbackAction, x: Byte) returns (p: seq<Byte>)
    requires DecodesOneResource(action) && action != SupportTicketView && x >= 0xF5
    ensures |p| == 26 && p[0] == x && IsIdBody(action, p)
    ensures DecodeActionPayload(action, p, RUNTIME) == Some(ResourceOnly(seq(26, _ => Utf8.REPLACEMENT)))
  {
    p := seq(26, _ => x);
    Utf8.DecodeNever(x, 26);
    hide Utf8.Decode, Ulid.DecodeUlid;
  }

  /** A failing pair for the replacement characters: the same id from 26 bytes 0xFF and 26 bytes 0xFE. */
  lemma LostBytesPair(config: CodecConfig, hmac: Hmac, user: TelegramUserId, action: CallbackAction, nowMs: int)
    returns (s: string, t: string)
    requires IsUnifiedConfig(config) && Normalize(user).Some? && 0 <= ToUnixSeconds(nowMs)
    requires ToUnixSeconds(nowMs) + config.ttlSeconds <= MAX_UINT32
    requires DecodesOneResource(action) && action != SupportTicketView
    ensures s != t && |s| == |t|
    ensures var value := VerifiedToken(action, ResourceOnly(seq(26, _ => Utf8.REPLACEMENT)),
                                       (ToUnixSeconds(nowMs) + config.ttlSeconds) * 1000);
            Verify(config, hmac, RUNTIME, s, user, nowMs) == Ok(value) == Verify(config, hmac, RUNTIME, t, user, nowMs)
  {
    hide *;
    var p := NeverDecodes(action, 0xFF);
    var q := NeverDecodes(action, 0xFE);
    var f := ResourceOnly(seq(26, _ => Utf8.REPLACEMENT));
    FreshVerdict(config, action, f, ToUnixSeconds(nowMs));
    var expires: nat := ToUnixSeconds(nowMs) + config.ttlSeconds;
    var name := Normalize(user).value;
    s, t := Signed(config, hmac, name, action, p, expires), Signed(config, hmac, name, action, q, expires);
    VerifySigned(config, hmac, RUNTIME, user, action, p, expires, nowMs);
    VerifySigned(config, hmac, RUNTIME, user, action, q, expires, nowMs);
    SignedFits(config, hmac, name, action, p, expires);
    SignedFits(config, hmac, name, action, q, expires);
    if s == t {
      SignedTellsBody(config, hmac, name, action, p, q, expires);
    }
  }
}
