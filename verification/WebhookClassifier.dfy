/** The pre-verification classification of an incoming update. */
module WebhookClassifier {
  import opened Results
  import opened Platform
  import opened CallbackCodec
  import opened CallbackSchema
  import opened CallbackRoundTrip
  import opened CallbackSealer
  import Decimal
  import Ulid

  datatype CommandClass =
    | BuyNow | PaymentCheck | Cancel | Support | Admin | PaidOrderRecovery | Catalog | Unknown

  predicate Begins(data: Option<string>, prefix: string) {
    data.Some? && prefix <= data.value
  }

  function ClassifyCommand(command: Option<string>): CommandClass {
    if command.None? then Unknown
    else if command.value in ["/support", "/warranty"] then Support
    else if command.value in ["/admin", "/products", "/inventory", "/customers", "/broadcast", "/health",
                              "/confirm", "/verify", "/enroll_2fa"] then Admin
    else if command.value == "/cancel" then Cancel
    else if command.value in ["/start", "/catalog", "/shop", "/search", "/tim", "/hot", "/new", "/stock",
                              "/orders", "/help", "/settings", "/account"] then Catalog
    else Unknown
  }

  function ClassifyAction(data: Option<string>, command: Option<string>): CommandClass {
    if Begins(data, "buy:") then BuyNow
    else if Begins(data, "cb:") then
      var action := PeekCallbackAction(data.value);
      if action == Some(PaymentRefresh) then PaymentCheck
      else if action == Some(PaymentCancel) then Cancel
      else if action in {Some(SupportMenu), Some(SupportReason), Some(SupportTicketView)} then Support
      else if action == Some(AdminCommand) then Admin
      else if action.Some? then Catalog
      else Unknown
    else if Begins(data, "pay:refresh:") || Begins(data, "pay:remind:") then PaymentCheck
    else if Begins(data, "pay:cancel:") then Cancel
    else if Begins(data, "support:") then Support
    else if Begins(data, "admin:") then Admin
    else if Begins(data, "order:recover:") then PaidOrderRecovery
    else if Begins(data, "delivery:open") then Catalog
    else ClassifyCommand(command)
  }

  // ----- Which updates fall into each class

  /** A token that peeks at one of `actions`. */
  predicate PeeksAt(data: Option<string>, actions: set<CallbackAction>) {
    Begins(data, "cb:") && var peeked := PeekCallbackAction(data.value); peeked.Some? && peeked.value in actions
  }

  /** Callback data that decides the class by itself, whatever the command. */
  predicate DecidesAlone(data: Option<string>) {
    || Begins(data, "cb:") || Begins(data, "buy:") || Begins(data, "admin:") || Begins(data, "support:")
    || Begins(data, "pay:refresh:") || Begins(data, "pay:remind:") || Begins(data, "pay:cancel:")
    || Begins(data, "order:recover:") || Begins(data, "delivery:open")
  }

  predicate Commands(data: Option<string>, command: Option<string>, names: set<string>) {
    !DecidesAlone(data) && command.Some? && command.value in names
  }

  lemma BeginsApart(data: Option<string>)
    ensures Begins(data, "buy:") ==> data.value[..1] == "b"
    ensures Begins(data, "cb:") ==> data.value[..1] == "c"
    ensures Begins(data, "support:") ==> data.value[..1] == "s"
    ensures Begins(data, "admin:") ==> data.value[..1] == "a"
    ensures Begins(data, "order:recover:") ==> data.value[..1] == "o"
    ensures Begins(data, "delivery:open") ==> data.value[..1] == "d"
    ensures Begins(data, "pay:refresh:") ==> data.value[..1] == "p" && data.value[..7] == "pay:ref"
    ensures Begins(data, "pay:remind:") ==> data.value[..1] == "p" && data.value[..7] == "pay:rem"
    ensures Begins(data, "pay:cancel:") ==> data.value[..1] == "p" && data.value[..7] == "pay:can"
  {
  }

  /** Exactly which updates fall into each class: no prefix excludes another, so the order of the tests does
      not show, except that callback data of a known family silences the command. */
  lemma ClassIff(data: Option<string>, command: Option<string>)
    ensures var c := ClassifyAction(data, command);
            && (c == BuyNow <==> Begins(data, "buy:"))
            && (c == PaidOrderRecovery <==> Begins(data, "order:recover:"))
            && (c == PaymentCheck <==>
                  || Begins(data, "pay:refresh:") || Begins(data, "pay:remind:") || PeeksAt(data, {PaymentRefresh}))
            && (c == Cancel <==>
                  || Begins(data, "pay:cancel:") || PeeksAt(data, {PaymentCancel})
                  || Commands(data, command, {"/cancel"}))
            && (c == Support <==>
                  || Begins(data, "support:") || PeeksAt(data, {SupportMenu, SupportReason, SupportTicketView})
                  || Commands(data, command, {"/support", "/warranty"}))
            && (c == Admin <==>
                  || Begins(data, "admin:") || PeeksAt(data, {AdminCommand})
                  || Commands(data, command, {"/admin", "/products", "/inventory", "/customers", "/broadcast",
                                              "/health", "/confirm", "/verify", "/enroll_2fa"}))
  {
    hide PeekCallbackAction;
    BeginsApart(data);
  }

  /** The last two classes: a token of any other action, an opened delivery or a shop command is the catalog;
      the rest is unknown, with every token that does not peek. */
  lemma CatalogIff(data: Option<string>, command: Option<string>)
    ensures var c := ClassifyAction(data, command);
            && (c == Catalog <==>
                  || Begins(data, "delivery:open")
                  || (Begins(data, "cb:") && PeekCallbackAction(data.value).Some?
                      && !PeeksAt(data, {PaymentRefresh, PaymentCancel, SupportMenu, SupportReason, SupportTicketView,
                                         AdminCommand}))
                  || Commands(data, command, {"/start", "/catalog", "/shop", "/search", "/tim", "/hot", "/new",
                                              "/stock", "/orders", "/help", "/settings", "/account"}))
            && (Begins(data, "cb:") ==> (c == Unknown <==> PeekCallbackAction(data.value).None?))
  {
    hide PeekCallbackAction;
    BeginsApart(data);
  }

  /** The class of a verified action. */
  function ClassOf(action: CallbackAction): CommandClass {
    match action
    case PaymentRefresh => PaymentCheck
    case PaymentCancel => Cancel
    case SupportMenu => Support
    case SupportReason => Support
    case SupportTicketView => Support
    case AdminCommand => Admin
    case _ => Catalog
  }

  lemma OnePrefix(s: string)
    requires "cb:" <= s
    ensures !("buy:" <= s)
  {
    assert s[0] == 'c' && "buy:"[0] == 'b';
  }

  lemma PeekedBegins(data: string)
    ensures PeekCallbackAction(data).Some? ==> "cb:" <= data
  {
    hide ActionByCode, Utf8Length;
  }

  /** The class chosen before verification is the class of the action verification yields. */
  lemma ClassSurvivesVerification(config: CodecConfig, hmac: Hmac, utf8: Utf8Decoder, data: string,
                                  user: TelegramUserId, nowMs: int, command: Option<string>)
    requires IsUnifiedConfig(config)
    ensures var r := Verify(config, hmac, utf8, data, user, nowMs);
            r.Ok? ==> ClassifyAction(Some(data), command) == ClassOf(r.value.action)
  {
    hide Verify, PeekCallbackAction, ClassifyCommand;
    if Verify(config, hmac, utf8, data, user, nowMs).Ok? {
      PeekAgreesWithVerify(config, hmac, utf8, data, user, nowMs);
      PeekedBegins(data);
      OnePrefix(data);
    }
  }

  lemma IssuedBegins(config: CodecConfig, hmac: Hmac, user: TelegramUserId, action: CallbackAction, f: TokenFields,
                     nowMs: int)
    requires IsUnifiedConfig(config)
    ensures var token := Issue(config, hmac, user, action, f, nowMs);
            token.Ok? ==> "cb:" <= token.value && !("buy:" <= token.value)
  {
    hide EncodeActionPayload, Payload, Sign, Utf8Length, Normalize;
    var token := Issue(config, hmac, user, action, f, nowMs);
    if token.Ok? {
      OnePrefix(token.value);
    }
  }

  /** Every issued token is classified as its action, whether or not it has been verified; the
      raw support ticket, which no verifier accepts, is unknown. */
  lemma IssuedClass(config: CodecConfig, hmac: Hmac, utf8: Utf8Decoder, user: TelegramUserId, action: CallbackAction,
                    f: TokenFields, nowMs: int, command: Option<string>)
    requires IsUnifiedConfig(config)
    ensures var token := Issue(config, hmac, user, action, f, nowMs);
            token.Ok? ==>
              ClassifyAction(Some(token.value), command)
              == if action == SupportTicketView && HasRawId(f) then Unknown else ClassOf(action)
  {
    hide *;
    PeekIssued(config, hmac, utf8, user, action, f, nowMs);
    IssuedBegins(config, hmac, user, action, f, nowMs);
    if Issue(config, hmac, user, action, f, nowMs).Ok? {
      ClassOfPeeked(Issue(config, hmac, user, action, f, nowMs).value, action, command);
    }
  }

  lemma ClassOfPeeked(data: string, action: CallbackAction, command: Option<string>)
    requires "cb:" <= data && !("buy:" <= data)
    ensures PeekCallbackAction(data) == Some(action) ==> ClassifyAction(Some(data), command) == ClassOf(action)
    ensures PeekCallbackAction(data) == None ==> ClassifyAction(Some(data), command) == Unknown
  {
    hide PeekCallbackAction, ClassifyCommand;
  }

  // ----- What sealing does to the class

  /** The callback families the classifier tells apart, against what a legacy callback is read as. */
  predicate FamilyOf(value: string, action: CallbackAction, f: TokenFields) {
    && ("pay:refresh:" <= value <==> action == PaymentRefresh)
    && ("pay:remind:" <= value <==> action == PaymentReminder)
    && ("pay:cancel:" <= value <==> action == PaymentCancel)
    && ("admin:" <= value <==> action == AdminCommand)
    && ("sup:view:" <= value <==> action == SupportTicketView)
    && (action == SupportTicketView ==> f.resourceId == Some(value[9..]))
    && !("support:" <= value) && !("order:recover:" <= value) && !("delivery:open" <= value)
  }

  predicate ReadByFamily(value: string, p: Parsed) {
    p.Legacy? ==> FamilyOf(value, p.action, p.fields)
  }

  /** An action that stands for none of the families. */
  predicate IsOther(action: CallbackAction) {
    action !in {PaymentRefresh, PaymentReminder, PaymentCancel, AdminCommand, SupportTicketView}
  }

  /** Text that begins like none of the families, by its first five characters. */
  predicate Elsewhere(value: string) {
    && |value| >= 5 && value[0] != 'a' && !Heads(value, "pa") && !Heads(value, "de")
    && (Heads(value, "su") ==> (value[3] == ':' && value[4] != 'v') || value[4] == ':')
    && (Heads(value, "or") ==> value[3] == ':')
  }

  lemma BeginsElsewhere(value: string)
    requires Elsewhere(value)
    ensures !("pay:refresh:" <= value) && !("pay:remind:" <= value) && !("pay:cancel:" <= value)
    ensures !("admin:" <= value) && !("delivery:open" <= value)
    ensures !("sup:view:" <= value) && !("support:" <= value) && !("order:recover:" <= value)
  {
  }

  lemma ElsewhereIsOther(value: string, action: CallbackAction, f: TokenFields)
    requires Elsewhere(value) && IsOther(action)
    ensures FamilyOf(value, action, f)
  {
    hide Elsewhere;
    BeginsElsewhere(value);
  }

  lemma ElsewherePrefix(value: string, prefix: string, p: Parsed)
    requires StartsWith(value, prefix) && Elsewhere(prefix) && (p.Legacy? ==> IsOther(p.action))
    ensures ReadByFamily(value, p)
  {
    assert Elsewhere(value);
    if p.Legacy? {
      ElsewhereIsOther(value, p.action, p.fields);
    }
  }

  lemma TableFamily(value: string, i: nat)
    requires i == FindText(NO_RESOURCE, value)
    ensures i < |NO_RESOURCE_ACTIONS| && ReadByFamily(value, Plain(NO_RESOURCE_ACTIONS[i]))
  {
    hide *;
    TableHeads(value);
    TableLikeElsewhere(value);
    TableActions();
    PlainFamily(value, NO_RESOURCE_ACTIONS[i]);
    ElsewhereIsOther(value, NO_RESOURCE_ACTIONS[i], NO_FIELDS);
  }

  lemma TableLikeElsewhere(value: string)
    requires TableLike(value)
    ensures Elsewhere(value)
  {
  }

  lemma PlainFamily(value: string, action: CallbackAction)
    requires EncodesNothing(action) || action == SupportMenu
    ensures IsOther(action)
    ensures FamilyOf(value, action, NO_FIELDS) ==> ReadByFamily(value, Plain(action))
  {
  }

  lemma ResourcePrefixesElsewhere(k: nat)
    requires k < |RESOURCE_PREFIXES| && k != 1
    ensures |RESOURCE_ACTIONS| == |RESOURCE_PREFIXES| && Elsewhere(RESOURCE_PREFIXES[k]) && IsOther(RESOURCE_ACTIONS[k])
  {
    assert k in [0, 2, 3, 4, 5, 6, 7, 8];
  }

  lemma SupportViewFamily(value: string)
    requires StartsWith(value, "sup:view:")
    ensures FamilyOf(value, SupportTicketView, NO_FIELDS.(resourceId := Some(value[9..])))
  {
    assert value[0] == 's' && value[3] == ':';
  }

  lemma ResourceFamily(value: string, k: nat)
    requires k < |RESOURCE_PREFIXES| && StartsWith(value, RESOURCE_PREFIXES[k])
    ensures |RESOURCE_ACTIONS| == |RESOURCE_PREFIXES|
    ensures ReadByFamily(value, WithResource(RESOURCE_ACTIONS[k], After(value, RESOURCE_PREFIXES[k])))
  {
    if k == 1 {
      SupportViewFamily(value);
    } else {
      ResourcePrefixesElsewhere(k);
      var p := WithResource(RESOURCE_ACTIONS[k], After(value, RESOURCE_PREFIXES[k]));
      ElsewherePrefix(value, RESOURCE_PREFIXES[k], p);
    }
  }

  lemma PaymentFamily(value: string, action: CallbackAction, f: TokenFields)
    requires || (StartsWith(value, "pay:refresh:") && action == PaymentRefresh)
             || (StartsWith(value, "pay:remind:") && action == PaymentReminder)
             || (StartsWith(value, "pay:cancel:") && action == PaymentCancel)
             || (StartsWith(value, "pay:reopen:") && action == PaymentReopen)
    ensures FamilyOf(value, action, f)
  {
    assert value[0] == 'p' && value[4] in ['r', 'c'];
    assert value[4] == 'r' ==>
        value[6] == if action == PaymentRefresh then 'f' else if action == PaymentReminder then 'm' else 'o';
  }

  lemma OrderFamily(value: string, k: nat, resolve: string -> Option<string>)
    requires k < |ORDER_PREFIXES| && StartsWith(value, ORDER_PREFIXES[k])
    ensures |ORDER_ACTIONS| == |ORDER_PREFIXES|
    ensures ReadByFamily(value, ParseOrder(ORDER_ACTIONS[k], After(value, ORDER_PREFIXES[k]), resolve))
  {
    var p := ParseOrder(ORDER_ACTIONS[k], After(value, ORDER_PREFIXES[k]), resolve);
    if k == 0 {
      ElsewherePrefix(value, "ord:view:", p);
    } else if k == 5 {
      ElsewherePrefix(value, "sup:open:", p);
    } else if p.Legacy? {
      assert k in [1, 2, 3, 4];
      PaymentFamily(value, p.action, p.fields);
    }
  }

  lemma AdminFamily(value: string)
    ensures ReadByFamily(value, ParseAdmin(value))
  {
    hide IndexOf, Decimal.Parse, Decimal.AllDigits, IsRawId;
    if StartsWith(value, "admin:") {
      assert value[0] == 'a';
    }
  }

  /** A legacy callback is read as one of the telling actions exactly when it begins so. */
  lemma LegacyFamily(value: string, resolve: string -> Option<string>, cursorText: string -> string)
    ensures ReadByFamily(value, ParseLegacyCallback(value, resolve, cursorText))
  {
    hide ParseAdmin, FindText, FindPrefix, IsInheritedName, FamilyOf, Elsewhere, DecodeCursorId, IndexOf;
    var noResource := FindText(NO_RESOURCE, value);
    var resource := FindPrefix(RESOURCE_PREFIXES, value);
    var order := FindPrefix(ORDER_PREFIXES, value);
    if noResource >= 0 {
      TableFamily(value, noResource);
    } else if StartsWith(value, "cat:view:") {
      ElsewhereByPrefix(value, "cat:view:", ParseCategoryView(After(value, "cat:view:")));
    } else if resource >= 0 {
      ResourceFamily(value, resource);
    } else if StartsWith(value, "shop:page:") {
      ElsewhereByPrefix(value, "shop:page:", ParseShopPage(After(value, "shop:page:")));
    } else if StartsWith(value, "trust:page:") {
      ElsewhereByPrefix(value, "trust:page:", ParseTrustPage(After(value, "trust:page:")));
    } else if StartsWith(value, "cust:notify:marketing:") {
      ElsewhereByPrefix(value, "cust:notify:marketing:", ParseToggle(value[|"cust:notify:"|..]));
    } else if StartsWith(value, "cust:notify:social:") {
      ElsewhereByPrefix(value, "cust:notify:social:", ParseToggle(value[|"cust:notify:"|..]));
    } else if StartsWith(value, "var:page:") {
      ElsewhereByPrefix(value, "var:page:", ParseCursor(CatalogPage, After(value, "var:page:"), cursorText));
    } else if StartsWith(value, "ord:list:") {
      ElsewhereByPrefix(value, "ord:list:", ParseCursor(OrderListPage, After(value, "ord:list:"), cursorText));
    } else if order >= 0 {
      OrderFamily(value, order, resolve);
    } else if StartsWith(value, "sup:reason:") {
      ElsewhereByPrefix(value, "sup:reason:", ParseSupportReason(After(value, "sup:reason:"), resolve));
    } else {
      AdminFamily(value);
    }
  }

  lemma ElsewhereByPrefix(value: string, prefix: string, p: Parsed)
    requires StartsWith(value, prefix) && (p.Legacy? ==> IsOther(p.action))
    requires prefix in ["cat:view:", "shop:page:", "trust:page:", "cust:notify:marketing:", "cust:notify:social:",
                        "var:page:", "ord:list:", "sup:reason:"]
    ensures ReadByFamily(value, p)
  {
    assert Elsewhere(prefix);
    ElsewherePrefix(value, prefix, p);
  }

  /** The class of a legacy callback before it is sealed; callback updates carry no command. */
  lemma ClassBeforeSealing(value: string, action: CallbackAction, f: TokenFields)
    requires FamilyOf(value, action, f) && !("buy:" <= value) && !("cb:" <= value)
    ensures ClassifyAction(Some(value), None)
            == if action == PaymentRefresh || action == PaymentReminder then PaymentCheck
               else if action == PaymentCancel then Cancel
               else if action == AdminCommand then Admin
               else Unknown
  {
    hide PeekCallbackAction;
  }

  lemma SealedIsIssued(c: SealContext, b: Button)
    requires IsUnifiedConfig(c.config) && b.callbackData != "" && !IsKept(b.callbackData)
    ensures !("buy:" <= b.callbackData) && !("cb:" <= b.callbackData)
    ensures var parsed := ParseLegacyCallback(b.callbackData, c.resolveOrderId, c.cursorText);
            var sealed := SealButton(c, b);
            sealed.Ok? && sealed.value.Some? ==>
              && parsed.Legacy?
              && Issue(c.config, c.hmac, c.user, parsed.action, parsed.fields, c.nowMs)
                  == Ok(sealed.value.value.callbackData)
    ensures var parsed := ParseLegacyCallback(b.callbackData, c.resolveOrderId, c.cursorText);
            parsed.Legacy? && SealButton(c, b).Ok? ==> SealButton(c, b).value.Some?
  {
    hide Issue, ParseLegacyCallback, IsReadableAdmin, IsWalletCallback, Normalize;
  }

  /** Sealing a callback keeps its rate class exactly for payment refreshes and cancellations, admin
      commands, and support tickets whose id is not a ULID. */
  lemma SealingKeepsClassIff(c: SealContext, utf8: Utf8Decoder, b: Button)
    requires IsUnifiedConfig(c.config) && b.callbackData != "" && !IsKept(b.callbackData)
    ensures var sealed, data := SealButton(c, b), b.callbackData;
            sealed.Ok? && sealed.value.Some? ==>
              (ClassifyAction(Some(sealed.value.value.callbackData), None) == ClassifyAction(Some(data), None)
               <==> "pay:refresh:" <= data || "pay:cancel:" <= data || "admin:" <= data
                    || ("sup:view:" <= data && !Ulid.IsId(data[9..])))
  {
    hide Issue, ParseLegacyCallback, ClassifyAction, SealButton, IsKept, Ulid.IsId;
    var sealed, data := SealButton(c, b), b.callbackData;
    if sealed.Ok? && sealed.value.Some? {
      SealedIsIssued(c, b);
      var parsed := ParseLegacyCallback(data, c.resolveOrderId, c.cursorText);
      LegacyFamily(data, c.resolveOrderId, c.cursorText);
      LegacyPayload(data, c.resolveOrderId, c.cursorText);
      ClassBeforeSealing(data, parsed.action, parsed.fields);
      IssuedClass(c.config, c.hmac, utf8, c.user, parsed.action, parsed.fields, c.nowMs, None);
    }
  }

  /** A payment reminder for a known order seals, and moves from the payment-check class to the
      catalog class. */
  lemma SealedReminderChangesClass(c: SealContext, utf8: Utf8Decoder, face: string, number: string)
    requires IsUnifiedConfig(c.config) && CanIssue(c)
    requires c.resolveOrderId(number).Some? && IsEncodableId(c.resolveOrderId(number).value)
    ensures var b := Button(face, "pay:remind:" + number, None, None);
            var sealed := SealButton(c, b);
            && sealed.Ok? && sealed.value.Some?
            && ClassifyAction(Some(b.callbackData), None) == PaymentCheck
            && ClassifyAction(Some(sealed.value.value.callbackData), None) == Catalog
  {
    var b := Button(face, "pay:remind:" + number, None, None);
    var id := c.resolveOrderId(number).value;
    ReminderParses(number, c.resolveOrderId, c.cursorText);
    assert Present(Some(id));
    var parsed := WithResource(PaymentReminder, id);
    hide Issue, ParseLegacyCallback, ClassifyAction, SealButton, IsKept, IsEncodableId, CanIssue, Normalize;
    assert ParseLegacyCallback(b.callbackData, c.resolveOrderId, c.cursorText) == parsed;
    ButtonSealsIff(c, b);
    SealedIsIssued(c, b);
    LegacyFamily(b.callbackData, c.resolveOrderId, c.cursorText);
    ClassBeforeSealing(b.callbackData, parsed.action, parsed.fields);
    IssuedClass(c.config, c.hmac, utf8, c.user, parsed.action, parsed.fields, c.nowMs, None);
  }

  lemma ReminderParses(number: string, resolve: string -> Option<string>, cursorText: string -> string)
    ensures !IsKept("pay:remind:" + number)
    ensures ParseLegacyCallback("pay:remind:" + number, resolve, cursorText)
            == ParseOrder(PaymentReminder, number, resolve)
  {
    hide FindText, FindPrefix, IsKept, IsInheritedName, ParseCategoryView, ParseTrustPage, ParseSupportReason,
         ParseAdmin, ParseShopPage, ParseToggle, ParseCursor, ParseOrder;
    var value := "pay:remind:" + number;
    assert StartsWith(value, "pay:remind:") && After(value, "pay:remind:") == number;
    assert value[0] == 'p' && value[1] == 'a' && value[4] == 'r' && value[6] == 'm';
    if IsKept(value) {
      KeptHeads(value);
    }
    if IsInheritedName(value) {
      InheritedHeads(value);
    }
    if FindText(NO_RESOURCE, value) >= 0 {
      TableHeads(value);
    }
    ReminderPrefix(value);
  }

  lemma ReminderPrefix(value: string)
    requires StartsWith(value, "pay:remind:")
    ensures FindPrefix(RESOURCE_PREFIXES, value) == -1 && FindPrefix(ORDER_PREFIXES, value) == 2
  {
    assert value[0] == 'p' && value[1] == 'a' && value[4] == 'r' && value[6] == 'm';
    assert StartsWith(value, ORDER_PREFIXES[2]);
    hide FindPrefix;
    forall k | 0 <= k < |RESOURCE_PREFIXES| ensures !StartsWith(value, RESOURCE_PREFIXES[k]) {
      assert |RESOURCE_PREFIXES[k]| >= 2 && (RESOURCE_PREFIXES[k][0] != 'p' || RESOURCE_PREFIXES[k][1] != 'a');
    }
    assert FindPrefix(ORDER_PREFIXES, value) in [0, 1, 2, 3, 4, 5];
  }
}
