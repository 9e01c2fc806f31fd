/** The unified customer-scoped callback codec: the action schemas, and the three readings of
    the token layout (issue, verify and the pre-verification peek). */
module CallbackCodec {
  import opened Positional
  import opened Results
  import opened Platform
  import Base64Url
  import Ulid

  const UNIFIED_PREFIX := "cb:"
  const UNIFIED_SIGNATURE_BYTES: nat := 8
  const MAX_CALLBACK_DATA_BYTES: nat := 64
  const MAX_UINT32: int := 0xffff_ffff
  const MAX_CALLBACK_PRICE_VND: int := 0xffff_ffff_ffff
  const SIGNING_DOMAIN := "telegram-shop:callback:v1\0"

  datatype CallbackAction =
    | SearchPrompt | MainMenu | CategoryList | CategoryView | VariantView | CatalogPage | OrderList
    | OrderListPage | OrderView | PaymentRefresh | PaymentReminder | PaymentCancel | PaymentReopen
    | SupportMenu | SupportReason | AdminCommand | SupportTicketView | RestockSubscribe
    | RestockUnsubscribe | RestockList | ShopHome | ShopOpen | ShopProduct | ShopPage
    | CustomerNotifications | CustomerNotificationToggle | CustomerWarranty | PreorderConsent
    | PreorderCreate | CheckoutPreview | CheckoutWallet | PreorderList | PreorderPay | CustomerTrust
    | CustomerTrustPage

  function ActionCode(action: CallbackAction): (code: Byte)
    ensures ActionByCode(Some(code)) == Some(action)
  {
    match action
    case SearchPrompt => 0
    case MainMenu => 1
    case CategoryList => 2
    case CategoryView => 3
    case VariantView => 4
    case CatalogPage => 5
    case OrderList => 6
    case OrderListPage => 7
    case OrderView => 8
    case PaymentRefresh => 9
    case PaymentReminder => 34
    case PaymentCancel => 10
    case PaymentReopen => 11
    case SupportMenu => 12
    case SupportReason => 13
    case AdminCommand => 14
    case SupportTicketView => 15
    case RestockSubscribe => 16
    case RestockUnsubscribe => 17
    case RestockList => 18
    case ShopHome => 19
    case ShopOpen => 20
    case ShopProduct => 21
    case ShopPage => 22
    case CustomerNotifications => 23
    case CustomerNotificationToggle => 24
    case CustomerWarranty => 25
    case PreorderConsent => 26
    case PreorderCreate => 27
    case CheckoutPreview => 28
    case CheckoutWallet => 29
    case PreorderList => 30
    case PreorderPay => 31
    case CustomerTrust => 32
    case CustomerTrustPage => 33
  }

  /** Lookup in the inverted code table; a byte that is not there reads as `undefined`. */
  function ActionByCode(code: Option<Byte>): Option<CallbackAction> {
    if code.None? then None else
    match code.value
    case 0 => Some(SearchPrompt)
    case 1 => Some(MainMenu)
    case 2 => Some(CategoryList)
    case 3 => Some(CategoryView)
    case 4 => Some(VariantView)
    case 5 => Some(CatalogPage)
    case 6 => Some(OrderList)
    case 7 => Some(OrderListPage)
    case 8 => Some(OrderView)
    case 9 => Some(PaymentRefresh)
    case 10 => Some(PaymentCancel)
    case 11 => Some(PaymentReopen)
    case 12 => Some(SupportMenu)
    case 13 => Some(SupportReason)
    case 14 => Some(AdminCommand)
    case 15 => Some(SupportTicketView)
    case 16 => Some(RestockSubscribe)
    case 17 => Some(RestockUnsubscribe)
    case 18 => Some(RestockList)
    case 19 => Some(ShopHome)
    case 20 => Some(ShopOpen)
    case 21 => Some(ShopProduct)
    case 22 => Some(ShopPage)
    case 23 => Some(CustomerNotifications)
    case 24 => Some(CustomerNotificationToggle)
    case 25 => Some(CustomerWarranty)
    case 26 => Some(PreorderConsent)
    case 27 => Some(PreorderCreate)
    case 28 => Some(CheckoutPreview)
    case 29 => Some(CheckoutWallet)
    case 30 => Some(PreorderList)
    case 31 => Some(PreorderPay)
    case 32 => Some(CustomerTrust)
    case 33 => Some(CustomerTrustPage)
    case 34 => Some(PaymentReminder)
    case _ => None
  }

  /** The actions by code. */
  const ACTIONS: seq<CallbackAction> := [
    SearchPrompt, MainMenu, CategoryList, CategoryView, VariantView, CatalogPage, OrderList, OrderListPage, OrderView,
    PaymentRefresh, PaymentCancel, PaymentReopen, SupportMenu, SupportReason, AdminCommand, SupportTicketView,
    RestockSubscribe, RestockUnsubscribe, RestockList, ShopHome, ShopOpen, ShopProduct, ShopPage,
    CustomerNotifications, CustomerNotificationToggle, CustomerWarranty, PreorderConsent, PreorderCreate,
    CheckoutPreview, CheckoutWallet, PreorderList, PreorderPay, CustomerTrust, CustomerTrustPage, PaymentReminder]

  /** The codes are the positions in the list, and no other byte is one. */
  lemma CodesAreListed(code: Byte)
    ensures |ACTIONS| == 35
    ensures ActionByCode(Some(code)) == if code < 35 then Some(ACTIONS[code]) else None
    ensures code < 35 ==> ActionCode(ACTIONS[code]) == code
  {
  }

  /** What a token carries besides its action: on the way in, what the caller passes; on the
      way out, what was decoded. */
  datatype TokenFields = TokenFields(
    resourceId: Option<string>,
    secondaryResourceId: Option<string>,
    option: Option<int>,
    amountVnd: Option<int>)

  const NO_FIELDS := TokenFields(None, None, None, None)

  datatype CodecConfig = CodecConfig(key: seq<Byte>, keyVersion: int, ttlSeconds: int, clockSkewSeconds: int)

  /** What `createCallbackTokenCodec` accepts. */
  predicate IsUnifiedConfig(config: CodecConfig) {
    |config.key| >= 32 && 0 <= config.keyVersion <= 15 && 1 <= config.ttlSeconds <= 86400
    && 0 <= config.clockSkewSeconds <= 60
  }

  datatype IssueError =
    | InvalidUserId | PayloadNotAccepted | InvalidCategoryView | ResourceRequired
    | InvalidCheckoutWallet | InvalidCheckoutAmount | InvalidCheckoutAttempt | InvalidTrustPage
    | InvalidCatalogPage | InvalidSupportMenu | InvalidOption | InvalidResourceId | InvalidUlid
    | TimestampOutOfRange | TokenTooLong | UnsupportedAction

  datatype VerificationError =
    | Malformed | UnsupportedVersion | WrongAction | UnknownKeyVersion | InvalidSignature | Expired | NotYetValid

  datatype VerifiedToken = VerifiedToken(action: CallbackAction, fields: TokenFields, expiresAtMs: int)

  /** JavaScript truthiness of an optional string. */
  predicate Present(s: Option<string>) {
    s.Some? && s.value != ""
  }

  predicate IsRawIdChar(c: char) {
    '0' <= c <= '9' || 'A' <= c <= 'Z'
  }

  /** The looser resource pattern: 26 characters of 0-9 and A-Z. */
  predicate IsRawId(s: string) {
    |s| == 26 && forall i | 0 <= i < |s| :: IsRawIdChar(s[i])
  }

  function EncodeResourceId(id: string): (r: Result<seq<Byte>, IssueError>)
    ensures r.Ok? ==> |r.value| == if Ulid.IsId(id) then 16 else 26
    ensures r.Ok? ==> Ulid.IsId(id) || IsRawId(id)
  {
    if Ulid.IsId(id) then
      match Ulid.EncodeUlid(id)
      case Some(bytes) => Ok(bytes)
      case None => Err(InvalidUlid)
    else if IsRawId(id) then Ok(AsciiBytes(id))
    else Err(InvalidResourceId)
  }

  /** `Buffer.from([x])`: one byte, modulo 256. */
  function OneByte(x: int): (b: seq<Byte>)
    ensures |b| == 1
  {
    [x % 256]
  }

  function DecodeAttemptId(value: string): (r: Option<seq<Byte>>)
    ensures r.Some? ==> |r.value| == 6
  {
    if |value| == 8 && Base64Url.IsText(value) then
      var bytes := Base64Url.Decode(value);
      if |bytes| == 6 then Some(bytes) else None
    else None
  }

  function EncodeAll(id: string, rest: seq<Byte>): Result<seq<Byte>, IssueError> {
    match EncodeResourceId(id)
    case Ok(bytes) => Ok(bytes + rest)
    case Err(e) => Err(e)
  }

  /** The actions `encodeActionPayload` lets carry nothing. */
  predicate EncodesNothing(action: CallbackAction) {
    match action
    case SearchPrompt | MainMenu | CategoryList | OrderList | RestockList | ShopHome | ShopOpen
       | CustomerNotifications | CustomerWarranty | PreorderList | CustomerTrust => true
    case _ => false
  }

  /** The actions `encodeActionPayload` gives exactly one resource id. */
  predicate EncodesOneResource(action: CallbackAction) {
    match action
    case VariantView | OrderListPage | OrderView | PaymentRefresh | PaymentReminder | PaymentCancel
       | PaymentReopen | SupportTicketView | RestockSubscribe | RestockUnsubscribe | ShopProduct | ShopPage
       | PreorderConsent | PreorderCreate | PreorderPay | CheckoutPreview | CustomerNotificationToggle => true
    case _ => false
  }

  function EncodeCheckout(f: TokenFields): Result<seq<Byte>, IssueError> {
    if !Present(f.resourceId) || f.option.Some? then Err(InvalidCheckoutWallet)
    else if f.amountVnd.None? || f.amountVnd.value <= 0 || f.amountVnd.value > MAX_CALLBACK_PRICE_VND then
      Err(InvalidCheckoutAmount)
    else
      var amount: seq<Byte> := Digits(f.amountVnd.value, 256, 6);
      if f.secondaryResourceId.None? then EncodeAll(f.resourceId.value, amount)
      else
        var attempt := DecodeAttemptId(f.secondaryResourceId.value);
        if attempt.None? then Err(InvalidCheckoutAttempt)
        else EncodeAll(f.resourceId.value, amount + attempt.value)
  }

  function EncodeCatalog(f: TokenFields): Result<seq<Byte>, IssueError> {
    if !Present(f.resourceId) || f.option.Some? then Err(InvalidCatalogPage)
    else if Present(f.secondaryResourceId) then
      match EncodeResourceId(f.resourceId.value)
      case Err(e) => Err(e)
      case Ok(first) =>
        match EncodeResourceId(f.secondaryResourceId.value)
        case Err(e) => Err(e)
        case Ok(second) => Ok(first + second)
    else EncodeResourceId(f.resourceId.value)
  }

  function EncodeActionPayload(action: CallbackAction, f: TokenFields): Result<seq<Byte>, IssueError> {
    if EncodesNothing(action) then
      if f.resourceId.Some? || f.secondaryResourceId.Some? || f.option.Some? then Err(PayloadNotAccepted)
      else Ok([])
    else if action == CategoryView then
      if !Present(f.resourceId) || f.secondaryResourceId.Some? then Err(InvalidCategoryView)
      else EncodeAll(f.resourceId.value, if f.option.None? then [] else OneByte(f.option.value))
    else if EncodesOneResource(action) then
      if !Present(f.resourceId) || f.secondaryResourceId.Some? || f.option.Some? then Err(ResourceRequired)
      else EncodeResourceId(f.resourceId.value)
    else if action == CheckoutWallet then EncodeCheckout(f)
    else if action == CustomerTrustPage then
      if f.resourceId.Some? || f.secondaryResourceId.Some? || f.option.None? || f.option.value < 0
          || f.option.value > 255
      then Err(InvalidTrustPage)
      else Ok(OneByte(f.option.value))
    else if action == CatalogPage then EncodeCatalog(f)
    else if action == SupportMenu then
      if f.secondaryResourceId.Some? || f.option.Some? then Err(InvalidSupportMenu)
      else if Present(f.resourceId) then EncodeResourceId(f.resourceId.value)
      else Ok([])
    else // SupportReason and AdminCommand
      if f.secondaryResourceId.Some? || f.option.None? || f.option.value < 0 || f.option.value > 255
         || (action == AdminCommand && !Present(f.resourceId))
      then Err(InvalidOption)
      else if Present(f.resourceId) then EncodeAll(f.resourceId.value, OneByte(f.option.value))
      else Ok(OneByte(f.option.value))
  }

  function ResourceOnly(id: string): TokenFields {
    TokenFields(Some(id), None, None, None)
  }

  /** The actions `decodeActionPayload` lists as carrying nothing. */
  predicate DecodesNothing(action: CallbackAction) {
    match action
    case SearchPrompt | MainMenu | CategoryList | OrderList | RestockList | ShopHome | ShopOpen
       | CustomerNotifications | CustomerWarranty | PreorderList | CustomerTrust => true
    case _ => false
  }

  /** The actions `decodeActionPayload` lists as carrying one resource id. */
  predicate DecodesOneResource(action: CallbackAction) {
    match action
    case VariantView | OrderListPage | OrderView | PaymentRefresh | PaymentReminder | PaymentCancel
       | PaymentReopen | SupportTicketView | RestockSubscribe | RestockUnsubscribe | ShopProduct | ShopPage
       | PreorderConsent | PreorderCreate | PreorderPay | CustomerNotificationToggle | CheckoutPreview => true
    case _ => false
  }

  function DecodeCheckout(p: seq<Byte>): Option<TokenFields> {
    if |p| == 22 then
      Some(TokenFields(Some(Ulid.DecodeUlid(p[..16])), None, None, Some(Value(p[16..22], 256))))
    else if |p| == 28 then
      Some(TokenFields(Some(Ulid.DecodeUlid(p[..16])), Some(Base64Url.Encode(p[22..28])), None,
                       Some(Value(p[16..22], 256))))
    else None
  }

  function DecodeResourceAndOption(p: seq<Byte>): Option<TokenFields> {
    if |p| == 17 then Some(TokenFields(Some(Ulid.DecodeUlid(p[..16])), None, Some(p[16]), None)) else None
  }

  function DecodeActionPayload(action: CallbackAction, p: seq<Byte>, utf8: Utf8Decoder): Option<TokenFields> {
    if DecodesNothing(action) then
      if |p| == 0 then Some(NO_FIELDS) else None
    else if DecodesOneResource(action) then
      if |p| == 16 then Some(ResourceOnly(Ulid.DecodeUlid(p)))
      else if |p| == 26 then Some(ResourceOnly(utf8(p)))
      else None
    else if action == CustomerTrustPage then
      if |p| == 1 then Some(NO_FIELDS.(option := Some(p[0]))) else None
    else if action == CheckoutWallet then DecodeCheckout(p)
    else if action == CatalogPage then
      if |p| == 16 then Some(ResourceOnly(Ulid.DecodeUlid(p)))
      else if |p| == 32 then
        Some(TokenFields(Some(Ulid.DecodeUlid(p[..16])), Some(Ulid.DecodeUlid(p[16..])), None, None))
      else None
    else if action == SupportMenu then
      if |p| == 0 then Some(NO_FIELDS)
      else if |p| == 16 then Some(ResourceOnly(Ulid.DecodeUlid(p)))
      else None
    else if action == CategoryView then
      if |p| == 16 then Some(ResourceOnly(Ulid.DecodeUlid(p))) else DecodeResourceAndOption(p)
    else if action == SupportReason then
      if |p| == 1 then Some(NO_FIELDS.(option := Some(p[0]))) else DecodeResourceAndOption(p)
    else DecodeResourceAndOption(p) // AdminCommand
  }

  /** What is authenticated: the domain, the user's decimal id, a zero byte and the payload. */
  function SignedMessage(domain: string, user: string, payload: seq<Byte>): seq<Byte>
    requires IsAscii(domain) && IsAscii(user)
  {
    AsciiBytes(domain) + AsciiBytes(user) + [0] + payload
  }

  function Sign(hmac: Hmac, key: seq<Byte>, user: string, payload: seq<Byte>): (s: seq<Byte>)
    requires IsAscii(user)
    ensures |s| == UNIFIED_SIGNATURE_BYTES
  {
    hmac(key, SignedMessage(SIGNING_DOMAIN, user, payload))[..UNIFIED_SIGNATURE_BYTES]
  }

  function Normalize(user: TelegramUserId): (r: Option<string>)
    ensures r.Some? ==> IsAscii(r.value)
  {
    var r := NormalizeTelegramUserId(user);
    if r.Some? then NormalizeIdempotent(user); r else r
  }

  function ToUnixSeconds(ms: int): int {
    ms / 1000
  }

  /** Actions from 16 up carry their code in front of their payload. */
  function ActionFrame(action: CallbackAction, encoded: seq<Byte>): seq<Byte> {
    if ActionCode(action) >= 16 then [ActionCode(action)] + encoded else encoded
  }

  function Header(action: CallbackAction, keyVersion: int): (h: Byte)
    requires 0 <= keyVersion <= 15
  {
    (if ActionCode(action) < 15 then ActionCode(action) else 15) * 16 + keyVersion
  }

  function Payload(config: CodecConfig, action: CallbackAction, expiresAtSeconds: nat, encoded: seq<Byte>): seq<Byte>
    requires IsUnifiedConfig(config)
  {
    [Header(action, config.keyVersion)] + Digits(expiresAtSeconds, 256, 4) + ActionFrame(action, encoded)
  }

  function TokenText(raw: seq<Byte>): string {
    UNIFIED_PREFIX + Base64Url.Encode(raw)
  }

  /** The token of an encoded payload, once the user and the schema have been checked. */
  function IssueEncoded(config: CodecConfig, hmac: Hmac, user: string, action: CallbackAction, encoded: seq<Byte>,
                        nowMs: int)
    : Result<string, IssueError>
    requires IsUnifiedConfig(config) && IsAscii(user)
  {
    var nowSeconds := ToUnixSeconds(nowMs);
    var expiresAtSeconds := nowSeconds + config.ttlSeconds;
    if nowSeconds < 0 || expiresAtSeconds > MAX_UINT32 then Err(TimestampOutOfRange)
    else
      var payload := Payload(config, action, expiresAtSeconds, encoded);
      var token := TokenText(payload + Sign(hmac, config.key, user, payload));
      if Utf8Length(token) > MAX_CALLBACK_DATA_BYTES then Err(TokenTooLong) else Ok(token)
  }

  function Issue(config: CodecConfig, hmac: Hmac, user: TelegramUserId, action: CallbackAction, f: TokenFields,
                 nowMs: int)
    : Result<string, IssueError>
    requires IsUnifiedConfig(config)
  {
    var normalized := Normalize(user);
    if normalized.None? then Err(InvalidUserId)
    else
      var encoded := EncodeActionPayload(action, f);
      if encoded.Err? then Err(encoded.error)
      else IssueEncoded(config, hmac, normalized.value, action, encoded.value, nowMs)
  }

  function ByteAt(b: seq<Byte>, i: nat): Option<Byte> {
    if i < |b| then Some(b[i]) else None
  }

  function Verify(config: CodecConfig, hmac: Hmac, utf8: Utf8Decoder, data: string, user: TelegramUserId, nowMs: int)
    : Result<VerifiedToken, VerificationError>
    requires IsUnifiedConfig(config)
  {
    var normalized := Normalize(user);
    if normalized.None? then Err(Malformed)
    else if !(UNIFIED_PREFIX <= data) || Utf8Length(data) > MAX_CALLBACK_DATA_BYTES then Err(Malformed)
    else
      var encoded := data[|UNIFIED_PREFIX|..];
      if encoded == "" || !Base64Url.IsText(encoded) then Err(Malformed)
      else
        var raw := Base64Url.Decode(encoded);
        if |raw| < 5 + UNIFIED_SIGNATURE_BYTES || Base64Url.Encode(raw) != encoded then Err(Malformed)
        else VerifyRaw(config, hmac, utf8, raw, normalized.value, nowMs)
  }

  function VerifyRaw(config: CodecConfig, hmac: Hmac, utf8: Utf8Decoder, raw: seq<Byte>, user: string, nowMs: int)
    : Result<VerifiedToken, VerificationError>
    requires IsUnifiedConfig(config) && IsAscii(user) && |raw| >= 5 + UNIFIED_SIGNATURE_BYTES
  {
    var payload := raw[..|raw| - UNIFIED_SIGNATURE_BYTES];
    var signature := raw[|raw| - UNIFIED_SIGNATURE_BYTES..];
    if signature != Sign(hmac, config.key, user, payload) then Err(InvalidSignature)
    else VerifyPayload(config, utf8, payload, nowMs)
  }

  function VerifyPayload(config: CodecConfig, utf8: Utf8Decoder, payload: seq<Byte>, nowMs: int)
    : Result<VerifiedToken, VerificationError>
    requires IsUnifiedConfig(config) && |payload| >= 5
  {
    if payload[0] % 16 != config.keyVersion then Err(UnknownKeyVersion)
    else
      var extended := payload[0] / 16 == 15 && |payload| != 21;
      var action := ActionByCode(if extended then ByteAt(payload, 5) else Some(payload[0] / 16));
      if extended && |payload| > 5 && payload[5] < 16 then Err(WrongAction)
      else if action.None? then Err(WrongAction)
      else
        var expiresAtSeconds := Value(payload[1..5], 256);
        var nowSeconds := ToUnixSeconds(nowMs);
        if nowSeconds > expiresAtSeconds + config.clockSkewSeconds then Err(Expired)
        else if expiresAtSeconds > nowSeconds + config.ttlSeconds + config.clockSkewSeconds then Err(NotYetValid)
        else
          var decoded := DecodeActionPayload(action.value, payload[if extended then 6 else 5..], utf8);
          if decoded.None? then Err(Malformed)
          else Ok(VerifiedToken(action.value, decoded.value, expiresAtSeconds * 1000))
  }

  /** The action hint read from an unverified token. */
  function PeekCallbackAction(data: string): Option<CallbackAction> {
    if !(UNIFIED_PREFIX <= data) || Utf8Length(data) > MAX_CALLBACK_DATA_BYTES then None
    else
      var encoded := data[|UNIFIED_PREFIX|..];
      if encoded == "" || !Base64Url.IsText(encoded) then None
      else
        var raw := Base64Url.Decode(encoded);
        if |raw| < 5 + UNIFIED_SIGNATURE_BYTES || Base64Url.Encode(raw) != encoded then None
        else
          var payload := raw[..|raw| - UNIFIED_SIGNATURE_BYTES];
          var extended := payload[0] / 16 == 15 && |payload| != 21;
          var code := if extended then ByteAt(payload, 5) else Some(payload[0] / 16);
          if extended && code.Some? && code.value < 16 then None else ActionByCode(code)
  }

  /** Write `value` big-endian into `width` bytes of the buffer. */
  method WriteUIntBE(buffer: array<Byte>, value: nat, offset: nat, width: nat)
    requires offset + width <= buffer.Length
    modifies buffer
    ensures buffer[..] == old(buffer[..offset]) + Digits(value, 256, width) + old(buffer[offset + width..])
  {
    var rest := value;
    var i := width;
    while i > 0
      invariant 0 <= i <= width
      invariant buffer[..offset] == old(buffer[..offset])
      invariant buffer[offset + width..] == old(buffer[offset + width..])
      invariant Digits(value, 256, width) == Digits(rest, 256, i) + buffer[offset + i..offset + width]
    {
      i := i - 1;
      ghost var written := buffer[offset + i + 1..offset + width];
      buffer[offset + i] := rest % 256;
      assert buffer[offset + i..offset + width] == [rest % 256] + written;
      assert Digits(rest, 256, i + 1) == Digits(rest / 256, 256, i) + [rest % 256];
      rest := rest / 256;
    }
    assert Digits(rest, 256, 0) == [];
    assert buffer[..] == buffer[..offset] + buffer[offset..offset + width] + buffer[offset + width..];
  }

  /** Copy `source` into the buffer at `offset`. */
  method CopyInto(source: seq<Byte>, buffer: array<Byte>, offset: nat)
    requires offset + |source| <= buffer.Length
    modifies buffer
    ensures buffer[..] == old(buffer[..offset]) + source + old(buffer[offset + |source|..])
  {
    for i := 0 to |source|
      invariant buffer[..offset] == old(buffer[..offset])
      invariant buffer[offset..offset + i] == source[..i]
      invariant buffer[offset + |source|..] == old(buffer[offset + |source|..])
    {
      ghost var written := buffer[offset..offset + i];
      buffer[offset + i] := source[i];
      assert buffer[offset..offset + i + 1] == written + [source[i]];
      assert source[..i + 1] == source[..i] + [source[i]];
    }
    assert source[..|source|] == source;
    assert buffer[..] == buffer[..offset] + buffer[offset..offset + |source|] + buffer[offset + |source|..];
  }

  lemma BufferAssembled(head: Byte, field: seq<Byte>, body: seq<Byte>,
                        b0: seq<Byte>, b1: seq<Byte>, b2: seq<Byte>, b3: seq<Byte>)
    requires |b0| == 1 + |field| + |body|
    requires b1 == b0[0 := head]
    requires b2 == b1[..1] + field + b1[1 + |field|..]
    requires b3 == b2[..1 + |field|] + body + b2[1 + |field| + |body|..]
    ensures b3 == [head] + field + body
  {
    assert b1[..1] == [head];
    assert b2[..1 + |field|] == [head] + field;
    assert b2[1 + |field| + |body|..] == [];
  }

  /** The payload buffer of a token, filled in place. */
  method FillPayload(config: CodecConfig, action: CallbackAction, expiresAtSeconds: nat, encodedAction: seq<Byte>)
    returns (payload: seq<Byte>)
    requires IsUnifiedConfig(config)
    ensures payload == Payload(config, action, expiresAtSeconds, encodedAction)
  {
    var actionCode := ActionCode(action);
    var actionPayload := if actionCode >= 16 then [actionCode] + encodedAction else encodedAction;
    var head: Byte := (if actionCode < 15 then actionCode else 15) * 16 + config.keyVersion;
    assert head == Header(action, config.keyVersion) && actionPayload == ActionFrame(action, encodedAction);
    hide ActionCode, Header, ActionFrame, Digits, IsUnifiedConfig;
    var buffer := new Byte[5 + |actionPayload|](_ => 0);
    ghost var b0 := buffer[..];
    buffer[0] := head;
    ghost var b1 := buffer[..];
    WriteUIntBE(buffer, expiresAtSeconds, 1, 4);
    ghost var b2 := buffer[..];
    CopyInto(actionPayload, buffer, 5);
    BufferAssembled(head, Digits(expiresAtSeconds, 256, 4), actionPayload, b0, b1, b2, buffer[..]);
    return buffer[..];
  }

  method IssueEncodedToken(config: CodecConfig, hmac: Hmac, user: string, action: CallbackAction, encoded: seq<Byte>,
                           nowMs: int)
    returns (r: Result<string, IssueError>)
    requires IsUnifiedConfig(config) && IsAscii(user)
    ensures r == IssueEncoded(config, hmac, user, action, encoded, nowMs)
  {
    hide Payload, TokenText, Sign, Utf8Length;
    var nowSeconds := ToUnixSeconds(nowMs);
    var expiresAtSeconds := nowSeconds + config.ttlSeconds;
    if nowSeconds < 0 || expiresAtSeconds > MAX_UINT32 {
      return Err(TimestampOutOfRange);
    }
    var payload := FillPayload(config, action, expiresAtSeconds, encoded);
    var signature := Sign(hmac, config.key, user, payload);
    var token := TokenText(payload + signature);
    if Utf8Length(token) > MAX_CALLBACK_DATA_BYTES {
      return Err(TokenTooLong);
    }
    return Ok(token);
  }

  /** `issue`, with its payload filled in place. */
  method IssueToken(config: CodecConfig, hmac: Hmac, user: TelegramUserId, action: CallbackAction, f: TokenFields,
                    nowMs: int)
    returns (r: Result<string, IssueError>)
    requires IsUnifiedConfig(config)
    ensures r == Issue(config, hmac, user, action, f, nowMs)
  {
    var normalized := Normalize(user);
    if normalized.None? {
      return Err(InvalidUserId);
    }
    var encodedAction := EncodeActionPayload(action, f);
    if encodedAction.Err? {
      return Err(encodedAction.error);
    }
    r := IssueEncodedToken(config, hmac, normalized.value, action, encodedAction.value, nowMs);
  }
}
