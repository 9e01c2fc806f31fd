/** Sealing a presented message: every readable legacy callback becomes a signed token. */
module CallbackSealer {
  import opened Positional
  import opened Results
  import opened Platform
  import opened CallbackCodec
  import opened CallbackSchema
  import opened CallbackRoundTrip
  import Decimal
  import Ulid

  /** The parts of an inline button that sealing looks at; `face` is all the rest. */
  datatype Button = Button(face: string, callbackData: string, url: Option<string>, copyText: Option<string>)

  /** What sealing one message depends on: the codec, the customer, the clock, the order lookup,
      and the base64url-to-text decoding of pagination cursors. */
  datatype SealContext = SealContext(
    config: CodecConfig, hmac: Hmac, user: TelegramUserId, nowMs: int,
    resolveOrderId: string -> Option<string>, cursorText: string -> string)

  /** A legacy callback read as an action; or text that is none; or text naming a property every
      object inherits, which the lookup table mistakes for an action. */
  datatype Parsed = NotLegacy | Legacy(action: CallbackAction, fields: TokenFields) | InheritedName

  function IndexOf(s: string, c: char, from: nat): (i: int)
    requires from <= |s|
    ensures i == -1 || (from <= i < |s| && s[i] == c && c !in s[from..i])
    ensures i == -1 ==> c !in s[from..]
    decreases |s| - from
  {
    if from == |s| then -1
    else if s[from] == c then from
    else
      var i := IndexOf(s, c, from + 1);
      assert s[from..] == [s[from]] + s[from + 1..];
      assert i != -1 ==> s[from..i] == [s[from]] + s[from + 1..i];
      i
  }

  function LastIndexOf(s: string, c: char): (i: int)
    ensures -1 <= i < |s|
  {
    if s == "" then -1 else if s[|s| - 1] == c then |s| - 1 else LastIndexOf(s[..|s| - 1], c)
  }

  predicate StartsWith(s: string, prefix: string) {
    prefix <= s
  }

  function After(s: string, prefix: string): string
    requires StartsWith(s, prefix)
  {
    s[|prefix|..]
  }

  function Plain(action: CallbackAction): Parsed {
    Legacy(action, NO_FIELDS)
  }

  function WithResource(action: CallbackAction, id: string): Parsed {
    Legacy(action, NO_FIELDS.(resourceId := Some(id)))
  }

  /** The names the table lookup finds on every object. */
  predicate IsInheritedName(value: string) {
    value in ["constructor", "toString", "valueOf", "toLocaleString", "hasOwnProperty", "isPrototypeOf",
              "propertyIsEnumerable", "__proto__", "__defineGetter__", "__defineSetter__", "__lookupGetter__",
              "__lookupSetter__"]
  }

  /** The callbacks that stand for an action alone, and the actions, in the same order. */
  const NO_RESOURCE: seq<string> := [
    "menu:main", "cat:list", "cat:search", "ord:list", "sup:open", "supp:open",
    "shop:home", "shop:open", "cust:notify", "cust:warranty", "cust:preorders", "trust:home"]
  const NO_RESOURCE_ACTIONS: seq<CallbackAction> := [
    MainMenu, CategoryList, SearchPrompt, OrderList, SupportMenu, SupportMenu,
    ShopHome, ShopOpen, CustomerNotifications, CustomerWarranty, PreorderList, CustomerTrust]

  /** The prefixes followed by a resource id written out. */
  const RESOURCE_PREFIXES: seq<string> := [
    "var:view:", "sup:view:", "rst:sub:", "restock:sub:", "rst:unsub:",
    "shop:product:", "preorder:consent:", "preorder:create:", "preorder:pay:"]
  const RESOURCE_ACTIONS: seq<CallbackAction> := [
    VariantView, SupportTicketView, RestockSubscribe, RestockSubscribe, RestockUnsubscribe,
    ShopProduct, PreorderConsent, PreorderCreate, PreorderPay]

  /** The prefixes followed by an order number, which the lookup turns into an id. */
  const ORDER_PREFIXES: seq<string> := [
    "ord:view:", "pay:refresh:", "pay:remind:", "pay:cancel:", "pay:reopen:", "sup:open:"]
  const ORDER_ACTIONS: seq<CallbackAction> := [
    OrderView, PaymentRefresh, PaymentReminder, PaymentCancel, PaymentReopen, SupportMenu]

  /** The position of the text in the list, or -1. */
  function FindText(list: seq<string>, value: string): (i: int)
    ensures -1 <= i < |list| && (i >= 0 ==> list[i] == value)
    ensures i == -1 ==> value !in list
  {
    if list == [] then -1
    else if list[0] == value then 0
    else
      var i := FindText(list[1..], value);
      if i == -1 then -1 else i + 1
  }

  /** The position of the first prefix of the text, or -1. */
  function FindPrefix(prefixes: seq<string>, value: string): (i: int)
    ensures -1 <= i < |prefixes| && (i >= 0 ==> StartsWith(value, prefixes[i]))
    ensures forall j | 0 <= j < (if i == -1 then |prefixes| else i) :: !StartsWith(value, prefixes[j])
  {
    if prefixes == [] then -1
    else if StartsWith(value, prefixes[0]) then 0
    else
      var i := FindPrefix(prefixes[1..], value);
      if i == -1 then -1 else i + 1
  }

  /** The second of the colon-separated parts, if there is one. */
  function SecondPart(rest: string, colon: int): string
    requires -1 <= colon < |rest|
  {
    if colon == -1 then ""
    else
      var next := IndexOf(rest, ':', colon + 1);
      if next == -1 then rest[colon + 1..] else rest[colon + 1..next]
  }

  function ParseCategoryView(rest: string): Parsed {
    var colon := IndexOf(rest, ':', 0);
    var categoryId := if colon == -1 then rest else rest[..colon];
    var page := SecondPart(rest, colon);
    if !IsRawId(categoryId) then NotLegacy
    else if 1 <= |page| <= 6 && Decimal.AllDigits(page) then
      Legacy(CategoryView, NO_FIELDS.(resourceId := Some(categoryId), option := Some(Decimal.Parse(page))))
    else WithResource(CategoryView, categoryId)
  }

  function DecodeCursorId(raw: string, cursorText: string -> string): Option<string> {
    var decoded := cursorText(raw);
    var colon, bar := LastIndexOf(decoded, ':'), LastIndexOf(decoded, '|');
    var separator := if colon > bar then colon else bar;
    if separator < 0 then None
    else
      var id := decoded[separator + 1..];
      if Ulid.IsId(id) then Some(id) else None
  }

  const SUPPORT_REASON_CODES: seq<string> :=
    ["ASSET_NOT_WORKING", "PAYMENT_QUESTION", "DELIVERY_NOT_RECEIVED", "REFUND_REQUEST", "GENERAL_QUESTION", "OTHER"]

  function ParseSupportReason(rest: string, resolve: string -> Option<string>): Parsed {
    var separator := IndexOf(rest, ':', 0);
    var reason := if separator < 0 then rest else rest[..separator];
    var option := FindText(SUPPORT_REASON_CODES, reason);
    if option < 0 then NotLegacy
    else if separator < 0 then Legacy(SupportReason, NO_FIELDS.(option := Some(option)))
    else
      var orderId := resolve(rest[separator + 1..]);
      if Present(orderId) then Legacy(SupportReason, NO_FIELDS.(resourceId := orderId, option := Some(option)))
          else NotLegacy
  }

  function ParseAdmin(value: string): Parsed {
    if !StartsWith(value, "admin:") then NotLegacy
    else
      var rest := After(value, "admin:");
      var colon := IndexOf(rest, ':', 0);
      if colon == -1 then NotLegacy
      else
        var digits, id := rest[..colon], rest[colon + 1..];
        if 1 <= |digits| <= 3 && Decimal.AllDigits(digits) && IsRawId(id) && Decimal.Parse(digits) <= 255 then
          Legacy(AdminCommand, NO_FIELDS.(resourceId := Some(id), option := Some(Decimal.Parse(digits))))
        else NotLegacy
  }

  function ParseTrustPage(page: string): Parsed {
    if 1 <= |page| <= 3 && Decimal.AllDigits(page) && Decimal.Parse(page) <= 255 then
      Legacy(CustomerTrustPage, NO_FIELDS.(option := Some(Decimal.Parse(page))))
    else NotLegacy
  }

  function ParseShopPage(page: string): Parsed {
    if 1 <= |page| <= 9 && Decimal.AllDigits(page) then WithResource(ShopPage, page) else NotLegacy
  }

  function ParseToggle(rest: string): Parsed {
    if rest in ["marketing:on", "marketing:off", "social:on", "social:off"] then
        WithResource(CustomerNotificationToggle, rest)
    else NotLegacy
  }

  function ParseCursor(action: CallbackAction, raw: string, cursorText: string -> string): Parsed {
    var id := DecodeCursorId(raw, cursorText);
    if Present(id) then WithResource(action, id.value) else NotLegacy
  }

  function ParseOrder(action: CallbackAction, number: string, resolve: string -> Option<string>): Parsed {
    var id := resolve(number);
    if Present(id) then WithResource(action, id.value) else NotLegacy
  }

  function ParseLegacyCallback(value: string, resolve: string -> Option<string>, cursorText: string -> string): Parsed {
    var noResource := FindText(NO_RESOURCE, value);
    var resource := FindPrefix(RESOURCE_PREFIXES, value);
    var order := FindPrefix(ORDER_PREFIXES, value);
    if noResource >= 0 then Plain(NO_RESOURCE_ACTIONS[noResource])
    else if IsInheritedName(value) then InheritedName
    else if StartsWith(value, "cat:view:") then ParseCategoryView(After(value, "cat:view:"))
    else if resource >= 0 then
      var resourceId := After(value, RESOURCE_PREFIXES[resource]);
      if IsRawId(resourceId) then WithResource(RESOURCE_ACTIONS[resource], resourceId) else NotLegacy
    else if StartsWith(value, "shop:page:") then ParseShopPage(After(value, "shop:page:"))
    else if StartsWith(value, "trust:page:") then ParseTrustPage(After(value, "trust:page:"))
    else if StartsWith(value, "cust:notify:marketing:") || StartsWith(value, "cust:notify:social:") then
      ParseToggle(value[|"cust:notify:"|..])
    else if StartsWith(value, "var:page:") then ParseCursor(CatalogPage, After(value, "var:page:"), cursorText)
    else if StartsWith(value, "ord:list:") then ParseCursor(OrderListPage, After(value, "ord:list:"), cursorText)
    else if order >= 0 then ParseOrder(ORDER_ACTIONS[order], After(value, ORDER_PREFIXES[order]), resolve)
    else if StartsWith(value, "sup:reason:") then ParseSupportReason(After(value, "sup:reason:"), resolve)
    else ParseAdmin(value)
  }

  predicate IsTopupAmount(s: string) {
    1 <= |s| <= 13 && Decimal.AllDigits(s) && s[0] != '0'
  }

  /** The wallet callbacks that stay readable. */
  predicate IsWalletCallback(data: string) {
    data in ["wallet:account", "wallet:history", "wallet:topup", "wallet:topup:custom", "wallet:topup:confirm",
             "wallet:topup:status", "wallet:topup:change", "wallet:topup:cancel"]
    || (StartsWith(data, "wallet:topup:amount:") && IsTopupAmount(After(data, "wallet:topup:amount:")))
  }

  predicate IsReadableAdmin(data: string) {
    StartsWith(data, "admin:") && !(|data| > 6 && Decimal.IsDigit(data[6]))
  }

  /** The callbacks that pass through as they are. */
  predicate IsKept(data: string) {
    || IsReadableAdmin(data)
    || StartsWith(data, "buyagain:") || StartsWith(data, "warranty:") || StartsWith(data, "review:")
    || IsWalletCallback(data)
    || StartsWith(data, "buy:") || StartsWith(data, "cb:")
    || StartsWith(data, "shop:page:") || StartsWith(data, "cust:notify:marketing:")
    || StartsWith(data, "cust:notify:social:")
    || data == "delivery:delete"
  }

  /** One button: kept, dropped, or with its callback replaced by a token; or the error that
      aborts the whole message. */
  function SealButton(c: SealContext, b: Button): Result<Option<Button>, IssueError>
    requires IsUnifiedConfig(c.config)
  {
    if b.callbackData == "" then
      if Present(b.url) || Present(b.copyText) then Ok(Some(b)) else Ok(None)
    else if IsKept(b.callbackData) then Ok(Some(b))
    else
      match ParseLegacyCallback(b.callbackData, c.resolveOrderId, c.cursorText)
      case NotLegacy => Ok(None)
      case InheritedName => Err(if Normalize(c.user).None? then InvalidUserId else UnsupportedAction)
      case Legacy(action, fields) =>
        match Issue(c.config, c.hmac, c.user, action, fields, c.nowMs)
        case Ok(token) => Ok(Some(b.(callbackData := token)))
        case Err(e) => Err(e)
  }

  function SealRow(c: SealContext, row: seq<Button>): Result<seq<Button>, IssueError>
    requires IsUnifiedConfig(c.config)
  {
    if row == [] then Ok([])
    else
      match SealRow(c, row[..|row| - 1])
      case Err(e) => Err(e)
      case Ok(done) =>
        match SealButton(c, row[|row| - 1])
        case Err(e) => Err(e)
        case Ok(None) => Ok(done)
        case Ok(Some(b)) => Ok(done + [b])
  }

  function SealRows(c: SealContext, rows: seq<seq<Button>>): Result<seq<seq<Button>>, IssueError>
    requires IsUnifiedConfig(c.config)
  {
    if rows == [] then Ok([])
    else
      match SealRows(c, rows[..|rows| - 1])
      case Err(e) => Err(e)
      case Ok(done) =>
        match SealRow(c, rows[|rows| - 1])
        case Err(e) => Err(e)
        case Ok(row) => Ok(if row == [] then done else done + [row])
  }

  /** `sealPresentedMessageCallbacks`: push every surviving button, then every non-empty row. */
  method SealPresentedMessageCallbacks(c: SealContext, rows: seq<seq<Button>>)
    returns (r: Result<seq<seq<Button>>, IssueError>)
    requires IsUnifiedConfig(c.config)
    ensures r == SealRows(c, rows)
  {
    hide SealButton;
    var buttons: seq<seq<Button>> := [];
    for i := 0 to |rows|
      invariant SealRows(c, rows[..i]) == Ok(buttons)
      invariant SealRows(c, rows).Ok? ==> SealRows(c, rows[..i]).Ok?
    {
      ghost var upTo := rows[..i + 1];
      assert upTo[..|upTo| - 1] == rows[..i] && upTo[|upTo| - 1] == rows[i];
      var row := rows[i];
      var sealedRow: seq<Button> := [];
      for j := 0 to |row|
        invariant SealRow(c, row[..j]) == Ok(sealedRow)
      {
        ghost var rowUpTo := row[..j + 1];
        assert rowUpTo[..|rowUpTo| - 1] == row[..j] && rowUpTo[|rowUpTo| - 1] == row[j];
        match SealButton(c, row[j]) {
          case Err(e) =>
            RowErrorPropagates(c, row, j + 1, e);
            RowsErrorPropagates(c, rows, i + 1, e);
            return Err(e);
          case Ok(None) =>
          case Ok(Some(b)) => sealedRow := sealedRow + [b];
        }
      }
      assert row[..|row|] == row;
      if |sealedRow| > 0 {
        buttons := buttons + [sealedRow];
      }
    }
    assert rows[..|rows|] == rows;
    return Ok(buttons);
  }

  lemma {:induction false} RowErrorPropagates(c: SealContext, row: seq<Button>, n: nat, e: IssueError)
    requires IsUnifiedConfig(c.config) && n <= |row| && SealRow(c, row[..n]) == Err(e)
    ensures SealRow(c, row) == Err(e)
  {
    if n < |row| {
      assert row[..|row| - 1][..n] == row[..n];
      RowErrorPropagates(c, row[..|row| - 1], n, e);
    } else {
      assert row[..n] == row;
    }
  }

  lemma {:induction false} RowsErrorPropagates(c: SealContext, rows: seq<seq<Button>>, n: nat, e: IssueError)
    requires IsUnifiedConfig(c.config) && n <= |rows| && SealRows(c, rows[..n]) == Err(e)
    ensures SealRows(c, rows) == Err(e)
  {
    if n < |rows| {
      assert rows[..|rows| - 1][..n] == rows[..n];
      RowsErrorPropagates(c, rows[..|rows| - 1], n, e);
    } else {
      assert rows[..n] == rows;
    }
  }

  // ----- Idempotence, order, no empty row

  /** What sealing leaves in a button is left alone by any later sealing, whatever its context. */
  lemma SealedButtonIsStable(c: SealContext, later: SealContext, b: Button)
    requires IsUnifiedConfig(c.config) && IsUnifiedConfig(later.config)
    requires SealButton(c, b).Ok? && SealButton(c, b).value.Some?
    ensures SealButton(later, SealButton(c, b).value.value) == SealButton(c, b)
  {
    hide Issue, ParseLegacyCallback, IsReadableAdmin, IsWalletCallback, Normalize;
    if b.callbackData != "" && !IsKept(b.callbackData) {
      var parsed := ParseLegacyCallback(b.callbackData, c.resolveOrderId, c.cursorText);
      IssuedPrefix(c.config, c.hmac, c.user, parsed.action, parsed.fields, c.nowMs);
    }
  }

  lemma IssuedPrefix(config: CodecConfig, hmac: Hmac, user: TelegramUserId, action: CallbackAction, f: TokenFields,
                     nowMs: int)
    requires IsUnifiedConfig(config)
    ensures var token := Issue(config, hmac, user, action, f, nowMs); token.Ok? ==> "cb:" <= token.value
  {
    hide EncodeActionPayload, Payload, Sign, Utf8Length, Normalize, Digits;
  }

  lemma {:induction false} SealedRowIsStable(c: SealContext, later: SealContext, row: seq<Button>)
    requires IsUnifiedConfig(c.config) && IsUnifiedConfig(later.config) && SealRow(c, row).Ok?
    ensures SealRow(later, SealRow(c, row).value) == SealRow(c, row)
  {
    hide SealButton;
    if row != [] {
      var init, last := row[..|row| - 1], row[|row| - 1];
      SealedRowIsStable(c, later, init);
      var done := SealRow(c, init).value;
      var sealed := SealButton(c, last).value;
      if sealed.Some? {
        SealedButtonIsStable(c, later, last);
        assert (done + [sealed.value])[..|done|] == done;
      }
    }
  }

  /** Sealing a sealed message changes nothing; in particular sealing is idempotent. */
  lemma {:induction false} SealedMessageIsStable(c: SealContext, later: SealContext, rows: seq<seq<Button>>)
    requires IsUnifiedConfig(c.config) && IsUnifiedConfig(later.config) && SealRows(c, rows).Ok?
    ensures SealRows(later, SealRows(c, rows).value) == SealRows(c, rows)
  {
    hide SealButton, SealRow;
    if rows != [] {
      var init, last := rows[..|rows| - 1], rows[|rows| - 1];
      SealedMessageIsStable(c, later, init);
      var done := SealRows(c, init).value;
      var row := SealRow(c, last).value;
      if row != [] {
        SealedRowIsStable(c, later, last);
        assert (done + [row])[..|done|] == done;
      }
    }
  }

  lemma {:induction false} NoEmptyRow(c: SealContext, rows: seq<seq<Button>>)
    requires IsUnifiedConfig(c.config) && SealRows(c, rows).Ok?
    ensures [] !in SealRows(c, rows).value
  {
    hide SealRow;
    if rows != [] {
      NoEmptyRow(c, rows[..|rows| - 1]);
    }
  }

  function Flatten<T>(rows: seq<seq<T>>): seq<T> {
    if rows == [] then [] else Flatten(rows[..|rows| - 1]) + rows[|rows| - 1]
  }

  lemma SealNone(c: SealContext)
    requires IsUnifiedConfig(c.config)
    ensures SealRow(c, []) == Ok([])
  {
  }

  lemma SealRowAppend(c: SealContext, row: seq<Button>, b: Button)
    requires IsUnifiedConfig(c.config)
    ensures SealRow(c, row + [b]).Ok? <==> SealRow(c, row).Ok? && SealButton(c, b).Ok?
    ensures SealButton(c, b) == Ok(None) ==> SealRow(c, row + [b]) == SealRow(c, row)
    ensures SealRow(c, row).Ok? && SealButton(c, b).Ok? && SealButton(c, b).value.Some? ==>
              SealRow(c, row + [b]) == Ok(SealRow(c, row).value + [SealButton(c, b).value.value])
  {
    hide SealButton, IsUnifiedConfig;
    assert (row + [b])[..|row|] == row;
  }

  lemma {:induction false} SealRowConcat(c: SealContext, a: seq<Button>, b: seq<Button>)
    requires IsUnifiedConfig(c.config) && SealRow(c, a).Ok? && SealRow(c, b).Ok?
    ensures SealRow(c, a + b) == Ok(SealRow(c, a).value + SealRow(c, b).value)
  {
    hide *;
    if b == [] {
      SealNone(c);
      assert a + b == a && SealRow(c, a).value + [] == SealRow(c, a).value;
    } else {
      var init, last := b[..|b| - 1], b[|b| - 1];
      assert b == init + [last] && a + b == (a + init) + [last];
      SealRowAppend(c, init, last);
      SealRowConcat(c, a, init);
      SealRowAppend(c, a + init, last);
      if SealButton(c, last).value.Some? {
        var x := SealButton(c, last).value.value;
        assert SealRow(c, a).value + (SealRow(c, init).value + [x])
            == (SealRow(c, a).value + SealRow(c, init).value) + [x];
      }
    }
  }

  /** Order and content: read row after row, the sealed message is the original buttons in their
      order, each sealed on its own and the dropped ones left out. */
  lemma {:induction false} OrderPreserved(c: SealContext, rows: seq<seq<Button>>)
    requires IsUnifiedConfig(c.config) && SealRows(c, rows).Ok?
    ensures SealRow(c, Flatten(rows)) == Ok(Flatten(SealRows(c, rows).value))
  {
    hide SealButton;
    if rows != [] {
      var init, last := rows[..|rows| - 1], rows[|rows| - 1];
      OrderPreserved(c, init);
      SealRowConcat(c, Flatten(init), last);
      var done := SealRows(c, init).value;
      var row := SealRow(c, last).value;
      if row == [] {
        assert Flatten(done) + row == Flatten(done);
      } else {
        assert (done + [row])[..|done|] == done;
      }
    }
  }

  // ----- What a sealed token means

  /** The payloads the legacy parser builds. */
  predicate IsLegacyPayload(action: CallbackAction, f: TokenFields) {
    && f.secondaryResourceId.None? && f.amountVnd.None? && f.resourceId != Some("")
    && (f.option.Some? ==> 0 <= f.option.value <= 999_999 && (action != CategoryView ==> f.option.value <= 255))
    && if EncodesNothing(action) then f == NO_FIELDS
       else if EncodesOneResource(action) || action == CatalogPage then f.resourceId.Some? && f.option.None?
       else if action == CategoryView then f.resourceId.Some?
       else if action == SupportMenu then f.option.None?
       else if action == CustomerTrustPage then f.resourceId.None? && f.option.Some?
       else if action == SupportReason then f.option.Some?
       else action == AdminCommand && f.resourceId.Some? && f.option.Some?
  }

  lemma ParseBound(s: string)
    requires 1 <= |s| <= 6 && Decimal.AllDigits(s)
    ensures Decimal.Parse(s) <= 999_999
  {
    ValueBound(Decimal.DigitsOf(s), 10);
    assert Pow(10, 1) == 10 && Pow(10, 2) == 100 && Pow(10, 3) == 1000 by {
      PowAdd(10, 1, 1);
      PowAdd(10, 2, 1);
    }
    PowAdd(10, 3, 1);
    PowAdd(10, 3, 2);
    PowAdd(10, 3, 3);
  }

  /** What the parser builds, where it builds anything, is a legacy payload. */
  predicate IsWellFormed(p: Parsed) {
    p.Legacy? ==> IsLegacyPayload(p.action, p.fields)
  }

  lemma CategoryPayload(rest: string)
    ensures IsWellFormed(ParseCategoryView(rest))
  {
    hide Decimal.Parse;
    var page := SecondPart(rest, IndexOf(rest, ':', 0));
    if 1 <= |page| <= 6 && Decimal.AllDigits(page) {
      ParseBound(page);
    }
  }

  lemma TrustPagePayload(page: string)
    ensures IsWellFormed(ParseTrustPage(page))
  {
    hide Decimal.Parse;
  }

  lemma SupportReasonPayload(rest: string, resolve: string -> Option<string>)
    ensures IsWellFormed(ParseSupportReason(rest, resolve))
  {
    hide FindText, IndexOf;
    assert |SUPPORT_REASON_CODES| == 6;
  }

  lemma AdminPayload(value: string)
    ensures IsWellFormed(ParseAdmin(value))
  {
    hide Decimal.Parse, IndexOf, Decimal.AllDigits;
  }

  lemma PartPayloads(action: CallbackAction, rest: string)
    ensures IsWellFormed(ParseShopPage(rest)) && IsWellFormed(ParseToggle(rest))
    ensures EncodesOneResource(action) && IsRawId(rest) ==> IsWellFormed(WithResource(action, rest))
    ensures EncodesNothing(action) || action == SupportMenu ==> IsWellFormed(Plain(action))
  {
  }

  lemma CursorPayload(action: CallbackAction, rest: string, cursorText: string -> string)
    requires EncodesOneResource(action) || action == CatalogPage
    ensures IsWellFormed(ParseCursor(action, rest, cursorText))
  {
    hide DecodeCursorId;
  }

  lemma OrderPayload(action: CallbackAction, rest: string, resolve: string -> Option<string>)
    requires EncodesOneResource(action) || action == SupportMenu
    ensures IsWellFormed(ParseOrder(action, rest, resolve))
  {
  }

  lemma TableActions()
    ensures |NO_RESOURCE| == |NO_RESOURCE_ACTIONS| && |RESOURCE_PREFIXES| == |RESOURCE_ACTIONS|
            && |ORDER_PREFIXES| == |ORDER_ACTIONS|
    ensures forall i | 0 <= i < |NO_RESOURCE_ACTIONS| ::
              EncodesNothing(NO_RESOURCE_ACTIONS[i]) || NO_RESOURCE_ACTIONS[i] == SupportMenu
    ensures forall i | 0 <= i < |RESOURCE_ACTIONS| :: EncodesOneResource(RESOURCE_ACTIONS[i])
    ensures forall i | 0 <= i < |ORDER_ACTIONS| ::
              EncodesOneResource(ORDER_ACTIONS[i]) || ORDER_ACTIONS[i] == SupportMenu
  {
  }

  lemma LegacyPayload(value: string, resolve: string -> Option<string>, cursorText: string -> string)
    ensures IsWellFormed(ParseLegacyCallback(value, resolve, cursorText))
  {
    hide ParseCategoryView, ParseTrustPage, ParseSupportReason, ParseAdmin, ParseShopPage, ParseToggle, Plain,
         ParseCursor, ParseOrder, FindText, FindPrefix, IsInheritedName, EncodesNothing, EncodesOneResource,
         WithResource, IsLegacyPayload;
    TableActions();
    var noResource := FindText(NO_RESOURCE, value);
    var resource := FindPrefix(RESOURCE_PREFIXES, value);
    var order := FindPrefix(ORDER_PREFIXES, value);
    if noResource >= 0 {
      PartPayloads(NO_RESOURCE_ACTIONS[noResource], value);
    } else if StartsWith(value, "cat:view:") {
      CategoryPayload(After(value, "cat:view:"));
    } else if resource >= 0 {
      PartPayloads(RESOURCE_ACTIONS[resource], After(value, RESOURCE_PREFIXES[resource]));
    } else if StartsWith(value, "shop:page:") {
      PartPayloads(ShopPage, After(value, "shop:page:"));
    } else if StartsWith(value, "trust:page:") {
      TrustPagePayload(After(value, "trust:page:"));
    } else if StartsWith(value, "cust:notify:marketing:") || StartsWith(value, "cust:notify:social:") {
      PartPayloads(CustomerNotificationToggle, value[|"cust:notify:"|..]);
    } else if StartsWith(value, "var:page:") {
      CursorPayload(CatalogPage, After(value, "var:page:"), cursorText);
    } else if StartsWith(value, "ord:list:") {
      ListPagePayload(After(value, "ord:list:"), resolve, cursorText);
    } else if order >= 0 {
      OrderPayload(ORDER_ACTIONS[order], After(value, ORDER_PREFIXES[order]), resolve);
    } else if StartsWith(value, "sup:reason:") {
      SupportReasonPayload(After(value, "sup:reason:"), resolve);
    } else {
      AdminPayload(value);
    }
  }

  lemma ListPagePayload(rest: string, resolve: string -> Option<string>, cursorText: string -> string)
    ensures IsWellFormed(ParseCursor(OrderListPage, rest, cursorText))
  {
    CursorPayload(OrderListPage, rest, cursorText);
  }

  /** A legacy payload encodes exactly when its resource id, if any, encodes. */
  lemma LegacyEncodes(action: CallbackAction, f: TokenFields)
    requires IsLegacyPayload(action, f)
    ensures EncodeActionPayload(action, f).Ok? <==> (f.resourceId.Some? ==> EncodeResourceId(f.resourceId.value).Ok?)
    ensures EncodeActionPayload(action, f).Ok? ==> |EncodeActionPayload(action, f).value| <= 27
  {
  }

  /** Every legacy callback the sealer reaches is issued exactly when its resource id is encodable
      (and the user and the clock are in range), and its token then verifies back to the parsed
      action and fields, the category page modulo 256. */
  lemma SealedLegacyRedeems(c: SealContext, utf8: Utf8Decoder, b: Button, presentedMs: int)
    requires IsUnifiedConfig(c.config) && Normalize(c.user).Some?
    requires 0 <= ToUnixSeconds(c.nowMs) && ToUnixSeconds(c.nowMs) + c.config.ttlSeconds <= MAX_UINT32
    requires b.callbackData != "" && !IsKept(b.callbackData)
    ensures var parsed := ParseLegacyCallback(b.callbackData, c.resolveOrderId, c.cursorText);
            parsed.Legacy? ==>
            var f := parsed.fields;
            var sealed := SealButton(c, b);
            && (sealed.Ok? <==> (f.resourceId.Some? ==> IsEncodableId(f.resourceId.value)))
            && (sealed.Ok? ==>
                && sealed.value.Some? && sealed.value.value == b.(callbackData := sealed.value.value.callbackData)
                && Verify(c.config, c.hmac, utf8, sealed.value.value.callbackData, c.user, presentedMs)
                   == Verdict(c.config, parsed.action, f, c.nowMs, presentedMs)
                && Carried(parsed.action, f)
                   == f.(option := if f.option.Some? then Some(f.option.value % 256) else None))
  {
    hide Verify, Issue, ParseLegacyCallback, EncodeActionPayload, EncodeResourceId, Verdict, IsKept, IsEncodableId,
         Normalize;
    var parsed := ParseLegacyCallback(b.callbackData, c.resolveOrderId, c.cursorText);
    if parsed.Legacy? {
      var f := parsed.fields;
      LegacyPayload(b.callbackData, c.resolveOrderId, c.cursorText);
      assert IsLegacyPayload(parsed.action, f);
      if f.resourceId.Some? {
        EncodableIff(f.resourceId.value);
      }
      LegacyEncodes(parsed.action, f);
      LegacyFits(c, parsed.action, f);
      if Issue(c.config, c.hmac, c.user, parsed.action, f, c.nowMs).Ok? {
        VerifyIssued(c.config, c.hmac, utf8, c.user, c.user, parsed.action, f, c.nowMs, presentedMs);
      }
    }
  }

  lemma LegacyFits(c: SealContext, action: CallbackAction, f: TokenFields)
    requires IsUnifiedConfig(c.config) && Normalize(c.user).Some? && IsLegacyPayload(action, f)
    requires 0 <= ToUnixSeconds(c.nowMs) && ToUnixSeconds(c.nowMs) + c.config.ttlSeconds <= MAX_UINT32
    ensures Issue(c.config, c.hmac, c.user, action, f, c.nowMs).Ok? <==> EncodeActionPayload(action, f).Ok?
  {
    hide EncodeActionPayload, IsLegacyPayload, Normalize, IssueEncoded;
    LegacyEncodes(action, f);
    if EncodeActionPayload(action, f).Ok? {
      IssuedLength(c.config, c.hmac, Normalize(c.user).value, action, EncodeActionPayload(action, f).value, c.nowMs);
    }
  }

  // ----- When a whole message seals

  /** The user and the clock let tokens be issued at all. */
  predicate CanIssue(c: SealContext)
    requires IsUnifiedConfig(c.config)
  {
    && Normalize(c.user).Some?
    && 0 <= ToUnixSeconds(c.nowMs) && ToUnixSeconds(c.nowMs) + c.config.ttlSeconds <= MAX_UINT32
  }

  /** A button that aborts its message: its callback is neither kept nor plainly unreadable, and it
      names an inherited property or cannot be issued. */
  predicate Aborts(c: SealContext, b: Button)
    requires IsUnifiedConfig(c.config)
  {
    b.callbackData != "" && !IsKept(b.callbackData) &&
    match ParseLegacyCallback(b.callbackData, c.resolveOrderId, c.cursorText)
    case NotLegacy => false
    case InheritedName => true
    case Legacy(_, f) => !CanIssue(c) || (f.resourceId.Some? && !IsEncodableId(f.resourceId.value))
  }

  lemma CannotIssue(c: SealContext, action: CallbackAction, f: TokenFields)
    requires IsUnifiedConfig(c.config) && !CanIssue(c)
    ensures Issue(c.config, c.hmac, c.user, action, f, c.nowMs).Err?
  {
    hide EncodeActionPayload, Normalize, Payload, TokenText, Utf8Length;
  }

  lemma ButtonSealsIff(c: SealContext, b: Button)
    requires IsUnifiedConfig(c.config)
    ensures SealButton(c, b).Ok? <==> !Aborts(c, b)
  {
    hide Issue, ParseLegacyCallback, EncodeActionPayload, EncodeResourceId, IsKept, IsEncodableId, CanIssue,
         IsLegacyPayload;
    var parsed := ParseLegacyCallback(b.callbackData, c.resolveOrderId, c.cursorText);
    if parsed.Legacy? {
      if CanIssue(c) {
        IssuableIff(c, b.callbackData);
      } else {
        CannotIssue(c, parsed.action, parsed.fields);
      }
    }
  }

  lemma IssuableIff(c: SealContext, value: string)
    requires IsUnifiedConfig(c.config) && CanIssue(c)
    ensures var parsed := ParseLegacyCallback(value, c.resolveOrderId, c.cursorText);
            parsed.Legacy? ==>
              (Issue(c.config, c.hmac, c.user, parsed.action, parsed.fields, c.nowMs).Ok?
               <==> (parsed.fields.resourceId.Some? ==> IsEncodableId(parsed.fields.resourceId.value)))
  {
    hide Issue, ParseLegacyCallback, EncodeActionPayload, EncodeResourceId, IsEncodableId, Normalize, IsLegacyPayload;
    var parsed := ParseLegacyCallback(value, c.resolveOrderId, c.cursorText);
    if parsed.Legacy? {
      var f := parsed.fields;
      LegacyPayload(value, c.resolveOrderId, c.cursorText);
      WellFormedLegacy(parsed);
      if f.resourceId.Some? {
        EncodableIff(f.resourceId.value);
      }
      LegacyEncodes(parsed.action, f);
      LegacyFits(c, parsed.action, f);
    }
  }

  lemma WellFormedLegacy(p: Parsed)
    requires IsWellFormed(p) && p.Legacy?
    ensures IsLegacyPayload(p.action, p.fields)
  {
  }

  lemma {:induction false} RowSealsIff(c: SealContext, row: seq<Button>)
    requires IsUnifiedConfig(c.config)
    ensures SealRow(c, row).Ok? <==> forall b | b in row :: !Aborts(c, b)
  {
    hide SealButton, Aborts;
    if row != [] {
      RowSealsIff(c, row[..|row| - 1]);
      ButtonSealsIff(c, row[|row| - 1]);
      assert row == row[..|row| - 1] + [row[|row| - 1]];
    }
  }

  /** A message seals exactly when none of its buttons aborts it. */
  lemma {:induction false} MessageSealsIff(c: SealContext, rows: seq<seq<Button>>)
    requires IsUnifiedConfig(c.config)
    ensures SealRows(c, rows).Ok? <==> forall row, b | row in rows && b in row :: !Aborts(c, b)
  {
    hide SealRow, Aborts;
    if rows != [] {
      MessageSealsIff(c, rows[..|rows| - 1]);
      RowSealsIff(c, rows[|rows| - 1]);
      assert rows == rows[..|rows| - 1] + [rows[|rows| - 1]];
    }
  }

  // ----- Names every object inherits

  /** The first two characters of a text. */
  predicate Heads(s: string, head: string) {
    |head| == 2 && |s| >= 2 && s[0] == head[0] && s[1] == head[1]
  }

  /** What keeps a text out of the action table, by its first characters. */
  predicate TableLike(value: string) {
    && |value| >= 5 && value[0] in ['m', 'c', 'o', 's', 't'] && value[1] in ['e', 'a', 'r', 'u', 'h']
    && (value[0] == 'c' && value[1] == 'a' ==> value[4] != 'v')
    && (value[0] == 's' && value[1] == 'u' ==> (value[3] == ':' && value[4] != 'v') || value[4] == ':')
    && (value[0] == 'o' ==> value[3] == ':')
  }

  lemma TableEntries()
    ensures |NO_RESOURCE| == 12
    ensures TableLike(NO_RESOURCE[0]) && TableLike(NO_RESOURCE[1]) && TableLike(NO_RESOURCE[2])
            && TableLike(NO_RESOURCE[3])
    ensures TableLike(NO_RESOURCE[4]) && TableLike(NO_RESOURCE[5]) && TableLike(NO_RESOURCE[6])
            && TableLike(NO_RESOURCE[7])
    ensures TableLike(NO_RESOURCE[8]) && TableLike(NO_RESOURCE[9]) && TableLike(NO_RESOURCE[10])
            && TableLike(NO_RESOURCE[11])
  {
  }

  lemma TableHeads(value: string)
    requires FindText(NO_RESOURCE, value) >= 0
    ensures TableLike(value)
  {
    hide FindText, TableLike;
    TableEntries();
    var i := FindText(NO_RESOURCE, value);
    assert i in [0, 1, 2, 3, 4, 5, 6, 7, 8, 9, 10, 11];
  }

  /** What the callbacks that are kept have in common, by their first characters. */
  predicate KeptLike(value: string) {
    && |value| >= 2 && value[0] in ['a', 'b', 'c', 'd', 'r', 's', 'w'] && value[1] in ['a', 'b', 'd', 'e', 'h', 'u']
    && !Heads(value, "ca") && !Heads(value, "va") && !Heads(value, "su")
  }

  lemma WalletHeads(value: string)
    requires IsWalletCallback(value)
    ensures Heads(value, "wa")
  {
    hide IsTopupAmount;
  }

  lemma KeptHeads(value: string)
    requires IsKept(value)
    ensures KeptLike(value)
  {
    hide IsWalletCallback;
    if IsWalletCallback(value) {
      WalletHeads(value);
    }
  }

  lemma InheritedHeads(name: string)
    requires IsInheritedName(name)
    ensures |name| >= 2 && name[0] in ['c', 't', 'v', 'h', 'i', 'p', '_'] && name[1] in ['o', 'a', 's', 'r', '_']
    ensures name[0] == 'c' || name[0] == 't' ==> name[1] == 'o'
    ensures name[0] == 'v' || name[0] == 'h' ==> name[1] == 'a'
    ensures name[0] == 'i' ==> name[1] == 's'
    ensures name[0] == 'p' ==> name[1] == 'r'
  {
  }

  /** An inherited name is neither kept nor in the table. */
  lemma InheritedNameParses(name: string, resolve: string -> Option<string>, cursorText: string -> string)
    requires IsInheritedName(name)
    ensures name != "" && !IsKept(name) && ParseLegacyCallback(name, resolve, cursorText) == InheritedName
  {
    hide FindText, FindPrefix, IsKept, IsInheritedName, ParseCategoryView, ParseTrustPage, ParseSupportReason,
         ParseAdmin, ParseShopPage, ParseToggle, ParseCursor, ParseOrder, StartsWith;
    InheritedHeads(name);
    if IsKept(name) {
      KeptHeads(name);
    }
    if FindText(NO_RESOURCE, name) >= 0 {
      TableHeads(name);
    }
  }

  lemma OnlyNamesInherit(value: string, resolve: string -> Option<string>, cursorText: string -> string)
    requires ParseLegacyCallback(value, resolve, cursorText) == InheritedName
    ensures IsInheritedName(value)
  {
    hide FindText, FindPrefix, IsInheritedName, StartsWith, IndexOf, Decimal.Parse, IsRawId, SecondPart, DecodeCursorId;
  }

  /** The callbacks that fall to the table's own inherited properties are these twelve. */
  lemma InheritedIff(value: string, resolve: string -> Option<string>, cursorText: string -> string)
    ensures ParseLegacyCallback(value, resolve, cursorText) == InheritedName <==>
            value in {"constructor", "toString", "valueOf", "toLocaleString", "hasOwnProperty", "isPrototypeOf",
                      "propertyIsEnumerable", "__proto__", "__defineGetter__", "__defineSetter__", "__lookupGetter__",
                      "__lookupSetter__"}
  {
    hide ParseLegacyCallback, IsKept;
    if IsInheritedName(value) {
      InheritedNameParses(value, resolve, cursorText);
    } else if ParseLegacyCallback(value, resolve, cursorText) == InheritedName {
      OnlyNamesInherit(value, resolve, cursorText);
    }
  }

  /** So such a button is refused as an unsupported action, after its user, and a message with one
      does not seal at all. */
  lemma InheritedNameAborts(c: SealContext, rows: seq<seq<Button>>, row: seq<Button>, b: Button)
    requires IsUnifiedConfig(c.config) && row in rows && b in row && IsInheritedName(b.callbackData)
    ensures Normalize(c.user).None? ==> SealButton(c, b) == Err(InvalidUserId)
    ensures Normalize(c.user).Some? ==> SealButton(c, b) == Err(UnsupportedAction)
    ensures SealRows(c, rows).Err?
  {
    InheritedNameParses(b.callbackData, c.resolveOrderId, c.cursorText);
    hide IsKept, ParseLegacyCallback, SealRows;
    MessageSealsIff(c, rows);
    assert Aborts(c, b);
  }

  /** The smallest such message. */
  lemma ConstructorAborts(c: SealContext, face: string)
    requires IsUnifiedConfig(c.config)
    ensures SealRows(c, [[Button(face, "constructor", None, None)]]).Err?
  {
    var b := Button(face, "constructor", None, None);
    assert b in [b] && [b] in [[b]];
    InheritedNameAborts(c, [[b]], [b], b);
  }

  // ----- Category pages

  lemma {:induction false} IndexOfFirst(s: string, c: char, from: nat, k: nat)
    requires from <= k < |s| && s[k] == c && forall i | from <= i < k :: s[i] != c
    ensures IndexOf(s, c, from) == k
    decreases k - from
  {
    if from < k {
      IndexOfFirst(s, c, from + 1, k);
    }
  }

  /** The page of a category callback is read in full and carried modulo 256. */
  lemma CategoryPageModulo(id: string, page: string)
    requires IsRawId(id) && 1 <= |page| <= 6 && Decimal.AllDigits(page)
    ensures ParseCategoryView(id + ":" + page)
            == Legacy(CategoryView, NO_FIELDS.(resourceId := Some(id), option := Some(Decimal.Parse(page))))
    ensures var f := ParseCategoryView(id + ":" + page).fields;
            Carried(CategoryView, f).option == Some(Decimal.Parse(page) % 256)
            && (Carried(CategoryView, f) == f <==> Decimal.Parse(page) < 256)
  {
    var rest := id + ":" + page;
    assert rest[26] == ':' && forall i | 0 <= i < 26 :: rest[i] == id[i] && rest[i] != ':';
    IndexOfFirst(rest, ':', 0, 26);
    assert rest[..26] == id && rest[27..] == page;
    assert IndexOf(rest, ':', 27) == -1 by {
      assert forall i | 27 <= i < |rest| :: rest[i] == page[i - 27] && rest[i] != ':';
    }
    CarriedIsInput(CategoryView, ParseCategoryView(rest).fields);
  }

  lemma CategoryCallbackParses(rest: string, resolve: string -> Option<string>, cursorText: string -> string)
    ensures !IsKept("cat:view:" + rest)
    ensures ParseLegacyCallback("cat:view:" + rest, resolve, cursorText) == ParseCategoryView(rest)
  {
    var value := "cat:view:" + rest;
    assert value[0] == 'c' && value[1] == 'a' && value[4] == 'v' && Heads(value, "ca");
    assert StartsWith(value, "cat:view:") && After(value, "cat:view:") == rest;
    if IsKept(value) {
      KeptHeads(value);
    }
    if IsInheritedName(value) {
      InheritedHeads(value);
    }
    if FindText(NO_RESOURCE, value) >= 0 {
      TableHeads(value);
    }
    hide FindText, FindPrefix, IsKept, IsInheritedName, ParseCategoryView, ParseTrustPage, ParseSupportReason,
         ParseAdmin, ParseShopPage, ParseToggle, ParseCursor, ParseOrder, StartsWith;
  }

  /** A category page survives sealing and verification exactly when its category is a ULID below
      2^128, the page is below 256, and the token is presented within its window. */
  lemma CategoryPageSurvivesIff(c: SealContext, utf8: Utf8Decoder, b: Button, id: string, page: string,
                                presentedMs: int)
    requires IsUnifiedConfig(c.config) && CanIssue(c)
    requires IsRawId(id) && 1 <= |page| <= 6 && Decimal.AllDigits(page)
             && b.callbackData == "cat:view:" + (id + ":" + page)
    ensures var sealed := SealButton(c, b);
            var read := NO_FIELDS.(resourceId := Some(id), option := Some(Decimal.Parse(page)));
            var issued, presented := ToUnixSeconds(c.nowMs), ToUnixSeconds(presentedMs);
            && sealed != Ok(None)
            && (sealed.Ok? && Verify(c.config, c.hmac, utf8, sealed.value.value.callbackData, c.user, presentedMs)
                              == Ok(VerifiedToken(CategoryView, read, (issued + c.config.ttlSeconds) * 1000))
                <==> && Ulid.IsId(id) && id[0] <= '7' && Decimal.Parse(page) < 256
                     && issued - c.config.clockSkewSeconds <= presented
                     && presented <= issued + c.config.ttlSeconds + c.config.clockSkewSeconds)
  {
    hide Verify, Issue, ParseLegacyCallback, ParseCategoryView, IsKept, Decimal.Parse, Normalize, Carried;
    CategoryCallbackParses(id + ":" + page, c.resolveOrderId, c.cursorText);
    CategoryPageModulo(id, page);
    SealedLegacyRedeems(c, utf8, b, presentedMs);
  }
}
