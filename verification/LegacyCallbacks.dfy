/** The readable callbacks the presenters print, against what the sealer's parser reads in them. */
module LegacyCallbacks {
  import opened Results
  import opened Platform
  import opened CallbackCodec
  import opened CallbackSchema
  import opened CallbackRoundTrip
  import opened CallbackSealer
  import Decimal
  import Ulid

  // ----- The printed forms

  datatype Word =
    | MenuMain | CatList | CatSearch | OrdList | SupOpen | SuppOpen | HomeWord | OpenWord | NotifyWord | WarrantyWord
    | PreordersWord | TrustWord

  datatype IdPrefix =
    | VarView | SupView | RstSub | RestockSub | RstUnsub | ProductPrefix | ConsentPrefix | CreatePrefix | PayPrefix

  datatype OrderPrefix = OrdView | PayRefresh | PayRemind | PayCancel | PayReopen | SupOpenFor

  datatype CursorPrefix = VarPage | OrdListFrom

  datatype Reason =
    | AssetNotWorking | PaymentQuestion | DeliveryNotReceived | RefundRequest | GeneralQuestion | OtherReason

  /** A readable callback. The part after the first page of a category is ignored, and so is a page
      that is no number. */
  datatype Readable =
    | OfWord(word: Word)
    | OfId(prefix: IdPrefix, id: string)
    | OfOrder(order: OrderPrefix, number: string)
    | OfCursor(list: CursorPrefix, cursor: string)
    | OfCategory(category: string, tail: string)
    | OfCategoryPage(category: string, page: string, tail: string)
    | OfShopPage(page: string)
    | OfTrustPage(page: string)
    | OfToggle(social: bool, on: bool)
    | OfReason(reason: Reason)
    | OfReasonAndOrder(reason: Reason, number: string)
    | OfAdmin(digits: string, id: string)

  function WordText(w: Word): string {
    match w
    case MenuMain => "menu:main"
    case CatList => "cat:list"
    case CatSearch => "cat:search"
    case OrdList => "ord:list"
    case SupOpen => "sup:open"
    case SuppOpen => "supp:open"
    case HomeWord => "shop:home"
    case OpenWord => "shop:open"
    case NotifyWord => "cust:notify"
    case WarrantyWord => "cust:warranty"
    case PreordersWord => "cust:preorders"
    case TrustWord => "trust:home"
  }

  function WordAction(w: Word): CallbackAction {
    match w
    case MenuMain => MainMenu
    case CatList => CategoryList
    case CatSearch => SearchPrompt
    case OrdList => OrderList
    case SupOpen => SupportMenu
    case SuppOpen => SupportMenu
    case HomeWord => ShopHome
    case OpenWord => ShopOpen
    case NotifyWord => CustomerNotifications
    case WarrantyWord => CustomerWarranty
    case PreordersWord => PreorderList
    case TrustWord => CustomerTrust
  }

  function IdText(p: IdPrefix): string {
    match p
    case VarView => "var:view:"
    case SupView => "sup:view:"
    case RstSub => "rst:sub:"
    case RestockSub => "restock:sub:"
    case RstUnsub => "rst:unsub:"
    case ProductPrefix => "shop:product:"
    case ConsentPrefix => "preorder:consent:"
    case CreatePrefix => "preorder:create:"
    case PayPrefix => "preorder:pay:"
  }

  function IdAction(p: IdPrefix): CallbackAction {
    match p
    case VarView => VariantView
    case SupView => SupportTicketView
    case RstSub => RestockSubscribe
    case RestockSub => RestockSubscribe
    case RstUnsub => RestockUnsubscribe
    case ProductPrefix => ShopProduct
    case ConsentPrefix => PreorderConsent
    case CreatePrefix => PreorderCreate
    case PayPrefix => PreorderPay
  }

  function OrderText(p: OrderPrefix): string {
    match p
    case OrdView => "ord:view:"
    case PayRefresh => "pay:refresh:"
    case PayRemind => "pay:remind:"
    case PayCancel => "pay:cancel:"
    case PayReopen => "pay:reopen:"
    case SupOpenFor => "sup:open:"
  }

  function OrderAction(p: OrderPrefix): CallbackAction {
    match p
    case OrdView => OrderView
    case PayRefresh => PaymentRefresh
    case PayRemind => PaymentReminder
    case PayCancel => PaymentCancel
    case PayReopen => PaymentReopen
    case SupOpenFor => SupportMenu
  }

  function CursorText(p: CursorPrefix): string {
    match p
    case VarPage => "var:page:"
    case OrdListFrom => "ord:list:"
  }

  function CursorAction(p: CursorPrefix): CallbackAction {
    match p
    case VarPage => CatalogPage
    case OrdListFrom => OrderListPage
  }

  function ReasonText(r: Reason): string {
    match r
    case AssetNotWorking => "ASSET_NOT_WORKING"
    case PaymentQuestion => "PAYMENT_QUESTION"
    case DeliveryNotReceived => "DELIVERY_NOT_RECEIVED"
    case RefundRequest => "REFUND_REQUEST"
    case GeneralQuestion => "GENERAL_QUESTION"
    case OtherReason => "OTHER"
  }

  function ReasonNumber(r: Reason): int {
    match r
    case AssetNotWorking => 0
    case PaymentQuestion => 1
    case DeliveryNotReceived => 2
    case RefundRequest => 3
    case GeneralQuestion => 4
    case OtherReason => 5
  }

  function ToggleText(social: bool, on: bool): string {
    if social then (if on then "social:on" else "social:off") else (if on then "marketing:on" else "marketing:off")
  }

  function Print(r: Readable): string {
    match r
    case OfWord(w) => WordText(w)
    case OfId(p, id) => IdText(p) + id
    case OfOrder(p, number) => OrderText(p) + number
    case OfCursor(p, cursor) => CursorText(p) + cursor
    case OfCategory(id, tail) => "cat:view:" + (id + tail)
    case OfCategoryPage(id, page, tail) => "cat:view:" + (id + ":" + page + tail)
    case OfShopPage(page) => "shop:page:" + page
    case OfTrustPage(page) => "trust:page:" + page
    case OfToggle(social, on) => "cust:notify:" + ToggleText(social, on)
    case OfReason(reason) => "sup:reason:" + ReasonText(reason)
    case OfReasonAndOrder(reason, number) => "sup:reason:" + (ReasonText(reason) + ":" + number)
    case OfAdmin(digits, id) => "admin:" + (digits + ":" + id)
  }

  /** A number of at most `most` digits. */
  predicate IsNumber(s: string, most: nat) {
    1 <= |s| <= most && Decimal.AllDigits(s)
  }

  /** Nothing more, or more parts. */
  predicate IsTail(s: string) {
    s == "" || s[0] == ':'
  }

  /** A tail whose first part is no page number. */
  predicate HasNoPage(tail: string) {
    IsTail(tail) && forall n | 1 <= n <= |tail| && IsTail(tail[n..]) && ':' !in tail[1..n] :: !IsNumber(tail[1..n], 6)
  }

  /** The ids, numbers and pages a readable callback must hold to be read at all. */
  predicate IsReadable(r: Readable) {
    match r
    case OfId(_, id) => IsRawId(id)
    case OfCategory(id, tail) => IsRawId(id) && HasNoPage(tail)
    case OfCategoryPage(id, page, tail) => IsRawId(id) && IsNumber(page, 6) && IsTail(tail)
    case OfShopPage(page) => IsNumber(page, 9)
    case OfTrustPage(page) => IsNumber(page, 3) && Decimal.Parse(page) <= 255
    case OfAdmin(digits, id) => IsNumber(digits, 3) && Decimal.Parse(digits) <= 255 && IsRawId(id)
    case _ => true
  }

  /** A pagination cursor holds an id behind its last separator, and nothing else is read of it. */
  predicate CursorHolds(text: string, id: string) {
    && Ulid.IsId(id) && |text| > 26 && text[|text| - 26..] == id
    && (text[|text| - 27] == ':' || text[|text| - 27] == '|')
  }

  /** What a readable callback stands for: its action, its id or number, and for an order the id that
      the lookup answers; or nothing, where the lookup or the cursor yields no id. */
  ghost predicate StandsFor(r: Readable, resolve: string -> Option<string>, cursorText: string -> string, p: Parsed)
    requires IsReadable(r)
  {
    match r
    case OfWord(w) => p == Legacy(WordAction(w), NO_FIELDS)
    case OfId(x, id) => p == Legacy(IdAction(x), ResourceOnly(id))
    case OfOrder(x, number) =>
      p == if Present(resolve(number)) then Legacy(OrderAction(x), ResourceOnly(resolve(number).value)) else NotLegacy
    case OfCursor(x, cursor) =>
      || (exists id :: CursorHolds(cursorText(cursor), id) && p == Legacy(CursorAction(x), ResourceOnly(id)))
      || (p == NotLegacy && forall id :: !CursorHolds(cursorText(cursor), id))
    case OfCategory(id, _) => p == Legacy(CategoryView, ResourceOnly(id))
    case OfCategoryPage(id, page, _) =>
      p == Legacy(CategoryView, TokenFields(Some(id), None, Some(Decimal.Parse(page)), None))
    case OfShopPage(page) => p == Legacy(ShopPage, ResourceOnly(page))
    case OfTrustPage(page) => p == Legacy(CustomerTrustPage, TokenFields(None, None, Some(Decimal.Parse(page)), None))
    case OfToggle(social, on) => p == Legacy(CustomerNotificationToggle, ResourceOnly(ToggleText(social, on)))
    case OfReason(reason) => p == Legacy(SupportReason, TokenFields(None, None, Some(ReasonNumber(reason)), None))
    case OfReasonAndOrder(reason, number) =>
      p == if Present(resolve(number)) then
             Legacy(SupportReason, TokenFields(resolve(number), None, Some(ReasonNumber(reason)), None))
           else NotLegacy
    case OfAdmin(digits, id) =>
      p == Legacy(AdminCommand, TokenFields(Some(id), None, Some(Decimal.Parse(digits)), None))
  }

  // ----- What tells the forms apart: four of their characters

  function Key(s: string): (char, char, char, char)
    requires |s| >= 8
  {
    (s[0], s[1], s[4], s[6])
  }

  lemma WordTable()
    ensures |NO_RESOURCE| == |NO_RESOURCE_ACTIONS| == 12
    ensures forall k | 0 <= k < 12 :: 8 <= |NO_RESOURCE[k]| <= 14
    ensures |NO_RESOURCE[3]| == 8 && |NO_RESOURCE[4]| == 8 && |NO_RESOURCE[8]| == 11
    ensures Key(NO_RESOURCE[0]) == ('m', 'e', ':', 'a')
    ensures Key(NO_RESOURCE[1]) == ('c', 'a', 'l', 's')
    ensures Key(NO_RESOURCE[2]) == ('c', 'a', 's', 'a')
    ensures Key(NO_RESOURCE[3]) == ('o', 'r', 'l', 's')
    ensures Key(NO_RESOURCE[4]) == ('s', 'u', 'o', 'e')
    ensures Key(NO_RESOURCE[5]) == ('s', 'u', ':', 'p')
    ensures Key(NO_RESOURCE[6]) == ('s', 'h', ':', 'o')
    ensures Key(NO_RESOURCE[7]) == ('s', 'h', ':', 'p')
    ensures Key(NO_RESOURCE[8]) == ('c', 'u', ':', 'o')
    ensures Key(NO_RESOURCE[9]) == ('c', 'u', ':', 'a')
    ensures Key(NO_RESOURCE[10]) == ('c', 'u', ':', 'r')
    ensures Key(NO_RESOURCE[11]) == ('t', 'r', 't', 'h')
  {
    assert forall k | 0 <= k < 12 :: k in [0, 1, 2, 3, 4, 5, 6, 7, 8, 9, 10, 11];
  }

  lemma IdTable()
    ensures |RESOURCE_PREFIXES| == |RESOURCE_ACTIONS| == 9
    ensures forall k | 0 <= k < 9 :: |RESOURCE_PREFIXES[k]| >= 8
    ensures Key(RESOURCE_PREFIXES[0]) == ('v', 'a', 'v', 'e')
    ensures Key(RESOURCE_PREFIXES[1]) == ('s', 'u', 'v', 'e')
    ensures Key(RESOURCE_PREFIXES[2]) == ('r', 's', 's', 'b')
    ensures Key(RESOURCE_PREFIXES[3]) == ('r', 'e', 'o', 'k')
    ensures Key(RESOURCE_PREFIXES[4]) == ('r', 's', 'u', 's')
    ensures Key(RESOURCE_PREFIXES[5]) == ('s', 'h', ':', 'r')
    ensures Key(RESOURCE_PREFIXES[6]) == ('p', 'r', 'r', 'e')
    ensures Key(RESOURCE_PREFIXES[7]) == ('p', 'r', 'r', 'e')
    ensures Key(RESOURCE_PREFIXES[8]) == ('p', 'r', 'r', 'e')
  {
    assert forall k | 0 <= k < 9 :: k in [0, 1, 2, 3, 4, 5, 6, 7, 8];
  }

  /** The three prefixes that part only at their tenth and eleventh character. */
  lemma PreorderTable()
    ensures |RESOURCE_PREFIXES| == 9 && forall k | 6 <= k < 9 :: |RESOURCE_PREFIXES[k]| >= 11
    ensures RESOURCE_PREFIXES[6][9] == 'c' && RESOURCE_PREFIXES[6][10] == 'o'
    ensures RESOURCE_PREFIXES[7][9] == 'c' && RESOURCE_PREFIXES[7][10] == 'r'
    ensures RESOURCE_PREFIXES[8][9] == 'p' && RESOURCE_PREFIXES[8][10] == 'a'
  {
    assert forall k | 6 <= k < 9 :: k in [6, 7, 8];
  }

  lemma OrderTable()
    ensures |ORDER_PREFIXES| == |ORDER_ACTIONS| == 6
    ensures forall k | 0 <= k < 6 :: |ORDER_PREFIXES[k]| >= 8
    ensures Key(ORDER_PREFIXES[0]) == ('o', 'r', 'v', 'e')
    ensures Key(ORDER_PREFIXES[1]) == ('p', 'a', 'r', 'f')
    ensures Key(ORDER_PREFIXES[2]) == ('p', 'a', 'r', 'm')
    ensures Key(ORDER_PREFIXES[3]) == ('p', 'a', 'c', 'n')
    ensures Key(ORDER_PREFIXES[4]) == ('p', 'a', 'r', 'o')
    ensures Key(ORDER_PREFIXES[5]) == ('s', 'u', 'o', 'e')
  {
    assert forall k | 0 <= k < 6 :: k in [0, 1, 2, 3, 4, 5];
  }

  lemma KeyOf(value: string, prefix: string)
    requires |prefix| >= 8
    ensures StartsWith(value, prefix) ==> |value| >= 8 && Key(value) == Key(prefix)
  {
  }

  /** The fixed prefixes, by their keys. */
  lemma FixedKeys(value: string)
    requires |value| >= 8
    ensures StartsWith(value, "cat:view:") ==> Key(value) == ('c', 'a', 'v', 'e')
    ensures StartsWith(value, "shop:page:") ==> Key(value) == ('s', 'h', ':', 'a')
    ensures StartsWith(value, "trust:page:") ==> Key(value) == ('t', 'r', 't', 'p')
    ensures StartsWith(value, "cust:notify:marketing:") ==> Key(value) == ('c', 'u', ':', 'o')
    ensures StartsWith(value, "cust:notify:social:") ==> Key(value) == ('c', 'u', ':', 'o')
    ensures StartsWith(value, "var:page:") ==> Key(value) == ('v', 'a', 'p', 'g')
    ensures StartsWith(value, "ord:list:") ==> Key(value) == ('o', 'r', 'l', 's')
    ensures StartsWith(value, "sup:reason:") ==> Key(value) == ('s', 'u', 'r', 'a')
  {
    KeyOf(value, "cat:view:");
    KeyOf(value, "shop:page:");
    KeyOf(value, "trust:page:");
    KeyOf(value, "cust:notify:marketing:");
    KeyOf(value, "cust:notify:social:");
    KeyOf(value, "var:page:");
    KeyOf(value, "ord:list:");
    KeyOf(value, "sup:reason:");
  }

  /** The keys the three lookups answer to. */
  lemma LookupKeys(value: string)
    requires |value| >= 8
    ensures var i := FindText(NO_RESOURCE, value);
            i >= 0 ==> |value| <= 14 && Key(value) == Key(NO_RESOURCE[i])
    ensures var i := FindPrefix(RESOURCE_PREFIXES, value);
            i >= 0 ==> |RESOURCE_PREFIXES[i]| >= 8 && Key(value) == Key(RESOURCE_PREFIXES[i])
    ensures var i := FindPrefix(ORDER_PREFIXES, value);
            i >= 0 ==> |ORDER_PREFIXES[i]| >= 8 && Key(value) == Key(ORDER_PREFIXES[i])
  {
    hide FindText, FindPrefix, Key;
    WordTable();
    IdTable();
    OrderTable();
    if FindPrefix(RESOURCE_PREFIXES, value) >= 0 {
      KeyOf(value, RESOURCE_PREFIXES[FindPrefix(RESOURCE_PREFIXES, value)]);
    }
    if FindPrefix(ORDER_PREFIXES, value) >= 0 {
      KeyOf(value, ORDER_PREFIXES[FindPrefix(ORDER_PREFIXES, value)]);
    }
  }

  /** No inherited name has a colon. */
  lemma NotInherited(value: string, i: nat)
    requires i < |value| && value[i] == ':'
    ensures !IsInheritedName(value)
  {
  }

  // ----- Each form is read as what it stands for

  function WordIndex(w: Word): (k: nat)
    ensures k < 12
  {
    match w
    case MenuMain => 0
    case CatList => 1
    case CatSearch => 2
    case OrdList => 3
    case SupOpen => 4
    case SuppOpen => 5
    case HomeWord => 6
    case OpenWord => 7
    case NotifyWord => 8
    case WarrantyWord => 9
    case PreordersWord => 10
    case TrustWord => 11
  }

  lemma WordAt(w: Word)
    ensures |NO_RESOURCE| == |NO_RESOURCE_ACTIONS| == 12
    ensures NO_RESOURCE[WordIndex(w)] == WordText(w) && NO_RESOURCE_ACTIONS[WordIndex(w)] == WordAction(w)
  {
  }

  lemma SameWordKey(i: nat, k: nat)
    requires i < |NO_RESOURCE| && k < |NO_RESOURCE| && |NO_RESOURCE[i]| >= 8 && |NO_RESOURCE[k]| >= 8
    requires Key(NO_RESOURCE[i]) == Key(NO_RESOURCE[k])
    ensures i == k
  {
    hide Key;
    WordTable();
    assert i in [0, 1, 2, 3, 4, 5, 6, 7, 8, 9, 10, 11] && k in [0, 1, 2, 3, 4, 5, 6, 7, 8, 9, 10, 11];
  }

  lemma WordBranch(value: string, resolve: string -> Option<string>, cursorText: string -> string)
    requires FindText(NO_RESOURCE, value) >= 0 && |NO_RESOURCE_ACTIONS| == |NO_RESOURCE|
    ensures ParseLegacyCallback(value, resolve, cursorText)
            == Plain(NO_RESOURCE_ACTIONS[FindText(NO_RESOURCE, value)])
  {
    hide FindText, FindPrefix, IsInheritedName, StartsWith, ParseCategoryView, ParseSupportReason, ParseAdmin, Plain;
  }

  lemma WordReads(w: Word, resolve: string -> Option<string>, cursorText: string -> string)
    ensures ParseLegacyCallback(WordText(w), resolve, cursorText) == Plain(WordAction(w))
  {
    hide *;
    WordTable();
    WordAt(w);
    var k, i := WordIndex(w), FindText(NO_RESOURCE, WordText(w));
    assert NO_RESOURCE[k] in NO_RESOURCE;
    SameWordKey(i, k);
    WordBranch(WordText(w), resolve, cursorText);
  }

  function IdIndex(p: IdPrefix): (k: nat)
    ensures k < 9
  {
    match p
    case VarView => 0
    case SupView => 1
    case RstSub => 2
    case RestockSub => 3
    case RstUnsub => 4
    case ProductPrefix => 5
    case ConsentPrefix => 6
    case CreatePrefix => 7
    case PayPrefix => 8
  }

  lemma IdAt(p: IdPrefix)
    ensures |RESOURCE_PREFIXES| == |RESOURCE_ACTIONS| == 9
    ensures RESOURCE_PREFIXES[IdIndex(p)] == IdText(p) && RESOURCE_ACTIONS[IdIndex(p)] == IdAction(p)
    ensures |IdText(p)| >= 8 && IdText(p)[|IdText(p)| - 1] == ':'
  {
  }

  lemma SameIdKey(i: nat, k: nat)
    requires i < |RESOURCE_PREFIXES| && k < |RESOURCE_PREFIXES|
    requires |RESOURCE_PREFIXES[i]| >= 8 && |RESOURCE_PREFIXES[k]| >= 8
    requires Key(RESOURCE_PREFIXES[i]) == Key(RESOURCE_PREFIXES[k])
    ensures i == k || (i >= 6 && k >= 6)
  {
    hide Key;
    IdTable();
    assert i in [0, 1, 2, 3, 4, 5, 6, 7, 8] && k in [0, 1, 2, 3, 4, 5, 6, 7, 8];
  }

  lemma OnePreorder(value: string, i: nat, k: nat)
    requires 6 <= i < |RESOURCE_PREFIXES| && 6 <= k < |RESOURCE_PREFIXES|
    requires StartsWith(value, RESOURCE_PREFIXES[i]) && StartsWith(value, RESOURCE_PREFIXES[k])
    ensures i == k
  {
    PreorderTable();
    var p, q := RESOURCE_PREFIXES[i], RESOURCE_PREFIXES[k];
    assert value[9] == p[9] == q[9] && value[10] == p[10] == q[10];
    assert i in [6, 7, 8] && k in [6, 7, 8];
  }

  lemma IdFound(p: IdPrefix, value: string)
    requires StartsWith(value, IdText(p))
    ensures |value| >= 8 && FindPrefix(RESOURCE_PREFIXES, value) == IdIndex(p)
  {
    hide *;
    IdAt(p);
    KeyOf(value, IdText(p));
    LookupKeys(value);
    var k, i := IdIndex(p), FindPrefix(RESOURCE_PREFIXES, value);
    assert StartsWith(value, RESOURCE_PREFIXES[k]);
    SameIdKey(i, k);
    if i >= 6 && k >= 6 {
      OnePreorder(value, i, k);
    }
  }

  /** Long callbacks with a colon are no words and no inherited names. */
  lemma LongIsNoWord(value: string, i: nat)
    requires |value| > 14 && i < |value| && value[i] == ':'
    ensures FindText(NO_RESOURCE, value) == -1 && !IsInheritedName(value)
  {
    hide FindText, FindPrefix, IsInheritedName;
    LookupKeys(value);
    NotInherited(value, i);
  }

  const ID_KEYS := [
    ('v', 'a', 'v', 'e'), ('s', 'u', 'v', 'e'), ('r', 's', 's', 'b'), ('r', 'e', 'o', 'k'), ('r', 's', 'u', 's'),
    ('s', 'h', ':', 'r'), ('p', 'r', 'r', 'e')]
  const LONG_WORD_KEYS := [
    ('m', 'e', ':', 'a'), ('c', 'a', 's', 'a'), ('s', 'u', ':', 'p'), ('s', 'h', ':', 'o'), ('s', 'h', ':', 'p'),
    ('c', 'u', ':', 'o'), ('c', 'u', ':', 'a'), ('c', 'u', ':', 'r'), ('t', 'r', 't', 'h')]

  lemma IdKeysAre(k: nat)
    requires k < |RESOURCE_PREFIXES|
    ensures |RESOURCE_PREFIXES[k]| >= 8 && Key(RESOURCE_PREFIXES[k]) in ID_KEYS
  {
    hide Key;
    IdTable();
    assert k in [0, 1, 2, 3, 4, 5, 6, 7, 8];
  }

  lemma WordKeysAre(k: nat)
    requires k < |NO_RESOURCE|
    ensures |NO_RESOURCE[k]| == 8 || (8 <= |NO_RESOURCE[k]| <= 14 && Key(NO_RESOURCE[k]) in LONG_WORD_KEYS)
  {
    hide Key;
    WordTable();
    assert k in [0, 1, 2, 3, 4, 5, 6, 7, 8, 9, 10, 11];
  }

  /** The first four questions of the parser, all answered no. */
  lemma Skips(value: string, i: nat)
    requires |value| >= 9 && i < |value| && value[i] == ':'
    requires Key(value) !in ID_KEYS && Key(value) != ('c', 'a', 'v', 'e')
    requires |value| > 14 || Key(value) !in LONG_WORD_KEYS
    ensures FindText(NO_RESOURCE, value) == -1 && !IsInheritedName(value) && !StartsWith(value, "cat:view:")
    ensures FindPrefix(RESOURCE_PREFIXES, value) == -1
  {
    hide FindText, FindPrefix, IsInheritedName, Key, StartsWith;
    NotInherited(value, i);
    FixedKeys(value);
    LookupKeys(value);
    if FindText(NO_RESOURCE, value) >= 0 {
      WordKeysAre(FindText(NO_RESOURCE, value));
    }
    if FindPrefix(RESOURCE_PREFIXES, value) >= 0 {
      IdKeysAre(FindPrefix(RESOURCE_PREFIXES, value));
    }
  }

  lemma IdBranch(value: string, resolve: string -> Option<string>, cursorText: string -> string)
    requires FindText(NO_RESOURCE, value) == -1 && !IsInheritedName(value) && !StartsWith(value, "cat:view:")
    requires FindPrefix(RESOURCE_PREFIXES, value) >= 0 && |RESOURCE_ACTIONS| == |RESOURCE_PREFIXES|
    ensures var k := FindPrefix(RESOURCE_PREFIXES, value);
            var id := After(value, RESOURCE_PREFIXES[k]);
            IsRawId(id) ==> ParseLegacyCallback(value, resolve, cursorText) == WithResource(RESOURCE_ACTIONS[k], id)
  {
    hide FindText, FindPrefix, IsInheritedName, StartsWith, ParseCategoryView, ParseSupportReason, ParseAdmin, Plain,
         WithResource, IsRawId;
  }

  lemma IdReads(p: IdPrefix, id: string, resolve: string -> Option<string>, cursorText: string -> string)
    requires IsRawId(id)
    ensures ParseLegacyCallback(IdText(p) + id, resolve, cursorText) == WithResource(IdAction(p), id)
  {
    var value := IdText(p) + id;
    assert |id| == 26 && StartsWith(value, IdText(p)) && After(value, IdText(p)) == id;
    hide *;
    IdAt(p);
    IdFound(p, value);
    LongIsNoWord(value, |IdText(p)| - 1);
    IdKeysAre(IdIndex(p));
    KeyOf(value, IdText(p));
    FixedKeys(value);
    NoIdKey();
    IdBranch(value, resolve, cursorText);
  }

  lemma NoIdKey()
    ensures ('c', 'a', 'v', 'e') !in ID_KEYS
  {
  }

  function OrderIndex(p: OrderPrefix): (k: nat)
    ensures k < 6
  {
    match p
    case OrdView => 0
    case PayRefresh => 1
    case PayRemind => 2
    case PayCancel => 3
    case PayReopen => 4
    case SupOpenFor => 5
  }

  lemma OrderAt(p: OrderPrefix)
    ensures |ORDER_PREFIXES| == |ORDER_ACTIONS| == 6
    ensures ORDER_PREFIXES[OrderIndex(p)] == OrderText(p) && ORDER_ACTIONS[OrderIndex(p)] == OrderAction(p)
    ensures |OrderText(p)| >= 9 && OrderText(p)[|OrderText(p)| - 1] == ':'
    ensures Key(OrderText(p)) !in ID_KEYS && Key(OrderText(p)) !in LONG_WORD_KEYS
  {
  }

  lemma OrderFound(p: OrderPrefix, value: string)
    requires StartsWith(value, OrderText(p))
    ensures FindPrefix(ORDER_PREFIXES, value) == OrderIndex(p)
  {
    hide FindPrefix, Key, OrderIndex, OrderText, OrderAction, StartsWith;
    OrderAt(p);
    KeyOf(value, OrderText(p));
    LookupKeys(value);
    OrderTable();
    var k, i := OrderIndex(p), FindPrefix(ORDER_PREFIXES, value);
    assert StartsWith(value, ORDER_PREFIXES[k]);
    assert i in [0, 1, 2, 3, 4, 5] && k in [0, 1, 2, 3, 4, 5];
  }

  /** None of the questions asked before the order prefixes. */
  lemma OrderIsNoneElse(p: OrderPrefix, value: string)
    requires |value| >= 8 && Key(value) == Key(OrderText(p))
    ensures !StartsWith(value, "shop:page:") && !StartsWith(value, "trust:page:")
    ensures !StartsWith(value, "cust:notify:marketing:") && !StartsWith(value, "cust:notify:social:")
    ensures !StartsWith(value, "var:page:") && !StartsWith(value, "ord:list:")
    ensures Key(value) != ('c', 'a', 'v', 'e')
  {
    hide StartsWith;
    FixedKeys(value);
  }

  lemma OrderReads(p: OrderPrefix, number: string, resolve: string -> Option<string>, cursorText: string -> string)
    ensures ParseLegacyCallback(OrderText(p) + number, resolve, cursorText)
            == ParseOrder(OrderAction(p), number, resolve)
  {
    var value := OrderText(p) + number;
    OrderAt(p);
    hide FindText, FindPrefix, Key, OrderIndex, OrderText, OrderAction, IsInheritedName, ParseOrder;
    assert StartsWith(value, OrderText(p)) && After(value, OrderText(p)) == number;
    assert value[|OrderText(p)| - 1] == ':';
    KeyOf(value, OrderText(p));
    OrderFound(p, value);
    OrderIsNoneElse(p, value);
    Skips(value, |OrderText(p)| - 1);
  }

  // ----- Cursors

  lemma {:induction false} LastIndexIs(s: string, c: char, at: nat)
    requires at < |s| && c !in s[at + 1..]
    ensures LastIndexOf(s, c) <= at && (s[at] == c ==> LastIndexOf(s, c) == at)
  {
    if at < |s| - 1 {
      var init := s[..|s| - 1];
      assert s[at + 1..] == init[at + 1..] + [s[|s| - 1]];
      LastIndexIs(init, c, at);
    }
  }

  lemma IdsHaveNoSeparator(id: string)
    requires Ulid.IsId(id)
    ensures ':' !in id && '|' !in id
  {
  }

  /** What is read of a cursor is the part behind its last separator, if that is an id. */
  lemma CursorReads(raw: string, cursorText: string -> string)
    ensures var text := cursorText(raw);
            && (forall id :: CursorHolds(text, id) ==> DecodeCursorId(raw, cursorText) == Some(id))
            && (DecodeCursorId(raw, cursorText).Some? ==> CursorHolds(text, DecodeCursorId(raw, cursorText).value))
  {
    var text := cursorText(raw);
    forall id | CursorHolds(text, id) ensures DecodeCursorId(raw, cursorText) == Some(id) {
      IdsHaveNoSeparator(id);
      var at := |text| - 27;
      assert text[at + 1..] == id;
      LastIndexIs(text, ':', at);
      LastIndexIs(text, '|', at);
    }
    CursorIsRead(raw, cursorText);
  }

  lemma {:induction false} LastIndexFound(s: string, c: char)
    ensures var i := LastIndexOf(s, c); i >= 0 ==> s[i] == c
  {
    if s != "" && s[|s| - 1] != c {
      LastIndexFound(s[..|s| - 1], c);
    }
  }

  lemma CursorIsRead(raw: string, cursorText: string -> string)
    ensures DecodeCursorId(raw, cursorText).Some? ==>
              CursorHolds(cursorText(raw), DecodeCursorId(raw, cursorText).value)
  {
    hide LastIndexOf, Ulid.IsUlidText;
    LastIndexFound(cursorText(raw), ':');
    LastIndexFound(cursorText(raw), '|');
  }

  lemma CursorFormReads(p: CursorPrefix, raw: string, resolve: string -> Option<string>, cursorText: string -> string)
    ensures ParseLegacyCallback(CursorText(p) + raw, resolve, cursorText)
            == ParseCursor(CursorAction(p), raw, cursorText)
  {
    var value := CursorText(p) + raw;
    assert StartsWith(value, CursorText(p)) && After(value, CursorText(p)) == raw && value[8] == ':';
    assert Key(value) == if p.VarPage? then ('v', 'a', 'p', 'g') else ('o', 'r', 'l', 's');
    hide FindText, FindPrefix, Key, IsInheritedName, ParseCursor;
    Skips(value, 8);
    FixedKeys(value);
  }

  // ----- Pages, toggles, reasons and admin commands

  lemma ShopPageReads(page: string, resolve: string -> Option<string>, cursorText: string -> string)
    ensures ParseLegacyCallback("shop:page:" + page, resolve, cursorText) == ParseShopPage(page)
  {
    var value := "shop:page:" + page;
    assert StartsWith(value, "shop:page:") && After(value, "shop:page:") == page && value[9] == ':';
    assert Key(value) == ('s', 'h', ':', 'a');
    hide FindText, FindPrefix, Key, IsInheritedName, ParseShopPage;
    Skips(value, 9);
  }

  lemma TrustPageReads(page: string, resolve: string -> Option<string>, cursorText: string -> string)
    ensures ParseLegacyCallback("trust:page:" + page, resolve, cursorText) == ParseTrustPage(page)
  {
    var value := "trust:page:" + page;
    assert StartsWith(value, "trust:page:") && After(value, "trust:page:") == page && value[10] == ':';
    assert Key(value) == ('t', 'r', 't', 'p');
    hide FindText, FindPrefix, Key, IsInheritedName, ParseTrustPage;
    Skips(value, 10);
    FixedKeys(value);
  }

  lemma ToggleBranch(value: string, resolve: string -> Option<string>, cursorText: string -> string)
    requires FindText(NO_RESOURCE, value) == -1 && !IsInheritedName(value) && !StartsWith(value, "cat:view:")
    requires FindPrefix(RESOURCE_PREFIXES, value) == -1 && |value| >= 12
    requires !StartsWith(value, "shop:page:") && !StartsWith(value, "trust:page:")
    requires StartsWith(value, "cust:notify:marketing:") || StartsWith(value, "cust:notify:social:")
    ensures ParseLegacyCallback(value, resolve, cursorText) == ParseToggle(value[12..])
  {
    hide FindText, FindPrefix, IsInheritedName, StartsWith, ParseCategoryView, ParseSupportReason, ParseAdmin,
         ParseToggle;
  }

  lemma ToggleBegins(social: bool, on: bool)
    ensures var value := "cust:notify:" + ToggleText(social, on);
            && |value| > 14 && value[11] == ':' && value[12..] == ToggleText(social, on)
            && (StartsWith(value, "cust:notify:social:") || StartsWith(value, "cust:notify:marketing:"))
            && Key(value) == ('c', 'u', ':', 'o')
  {
    var value := "cust:notify:" + ToggleText(social, on);
    assert StartsWith(value, if social then "cust:notify:social:" else "cust:notify:marketing:");
  }

  lemma ToggleReads(social: bool, on: bool, resolve: string -> Option<string>, cursorText: string -> string)
    ensures ParseLegacyCallback("cust:notify:" + ToggleText(social, on), resolve, cursorText)
            == WithResource(CustomerNotificationToggle, ToggleText(social, on))
  {
    hide FindText, FindPrefix, Key, IsInheritedName, WithResource, ToggleText, StartsWith, ParseToggle,
         ParseLegacyCallback;
    var value := "cust:notify:" + ToggleText(social, on);
    ToggleBegins(social, on);
    Skips(value, 11);
    FixedKeys(value);
    ToggleBranch(value, resolve, cursorText);
    ToggleParses(social, on);
  }

  lemma ToggleParses(social: bool, on: bool)
    ensures ParseToggle(ToggleText(social, on)) == WithResource(CustomerNotificationToggle, ToggleText(social, on))
  {
  }

  lemma ReasonFormReads(rest: string, resolve: string -> Option<string>, cursorText: string -> string)
    ensures ParseLegacyCallback("sup:reason:" + rest, resolve, cursorText) == ParseSupportReason(rest, resolve)
  {
    var value := "sup:reason:" + rest;
    assert StartsWith(value, "sup:reason:") && After(value, "sup:reason:") == rest && value[10] == ':';
    assert Key(value) == ('s', 'u', 'r', 'a');
    hide FindText, FindPrefix, Key, IsInheritedName, ParseSupportReason;
    Skips(value, 10);
    FixedKeys(value);
    LookupKeys(value);
    OrderTable();
    assert FindPrefix(ORDER_PREFIXES, value) in [-1, 0, 1, 2, 3, 4, 5];
  }

  lemma AdminFormReads(rest: string, resolve: string -> Option<string>, cursorText: string -> string)
    requires |rest| >= 3
    ensures ParseLegacyCallback("admin:" + rest, resolve, cursorText) == ParseAdmin("admin:" + rest)
  {
    var value := "admin:" + rest;
    assert value[5] == ':' && Key(value).0 == 'a';
    hide FindText, FindPrefix, Key, IsInheritedName, ParseAdmin;
    Skips(value, 5);
    FixedKeys(value);
    LookupKeys(value);
    OrderTable();
    assert FindPrefix(ORDER_PREFIXES, value) in [-1, 0, 1, 2, 3, 4, 5];
  }

  lemma {:induction false} FirstColon(s: string, rest: string, from: nat)
    requires from <= |s| && ':' !in s && (rest == "" || rest[0] == ':')
    ensures IndexOf(s + rest, ':', from) == if rest == "" then -1 else |s|
    decreases |s| - from
  {
    if from < |s| {
      assert (s + rest)[from] == s[from] && s[from] in s;
      FirstColon(s, rest, from + 1);
    } else if rest == "" {
      assert s + rest == s;
    }
  }

  lemma DigitsHaveNoColon(s: string)
    requires Decimal.AllDigits(s)
    ensures ':' !in s
  {
  }

  lemma AdminReads(digits: string, id: string)
    requires IsNumber(digits, 3) && Decimal.Parse(digits) <= 255 && IsRawId(id)
    ensures ParseAdmin("admin:" + (digits + ":" + id))
            == Legacy(AdminCommand, TokenFields(Some(id), None, Some(Decimal.Parse(digits)), None))
  {
    hide Decimal.Parse, IsRawId;
    var rest := digits + ":" + id;
    assert rest == digits + (":" + id);
    DigitsHaveNoColon(digits);
    FirstColon(digits, ":" + id, 0);
    assert After("admin:" + rest, "admin:") == rest && rest[..|digits|] == digits && rest[|digits| + 1..] == id;
  }

  lemma ReasonAt(r: Reason)
    ensures |SUPPORT_REASON_CODES| == 6 && 0 <= ReasonNumber(r) < 6
    ensures SUPPORT_REASON_CODES[ReasonNumber(r)] == ReasonText(r) && ':' !in ReasonText(r)
  {
  }

  /** The reasons differ in their first letter. */
  lemma ReasonLetters()
    ensures |SUPPORT_REASON_CODES| == 6 && forall k | 0 <= k < 6 :: |SUPPORT_REASON_CODES[k]| > 0
    ensures SUPPORT_REASON_CODES[0][0] == 'A' && SUPPORT_REASON_CODES[1][0] == 'P'
            && SUPPORT_REASON_CODES[2][0] == 'D'
    ensures SUPPORT_REASON_CODES[3][0] == 'R' && SUPPORT_REASON_CODES[4][0] == 'G'
            && SUPPORT_REASON_CODES[5][0] == 'O'
  {
    assert forall k | 0 <= k < 6 :: k in [0, 1, 2, 3, 4, 5];
  }

  lemma ReasonFound(r: Reason)
    ensures FindText(SUPPORT_REASON_CODES, ReasonText(r)) == ReasonNumber(r)
  {
    hide FindText, ReasonText, ReasonNumber;
    ReasonAt(r);
    ReasonLetters();
    var i, k := FindText(SUPPORT_REASON_CODES, ReasonText(r)), ReasonNumber(r);
    assert SUPPORT_REASON_CODES[k] in SUPPORT_REASON_CODES;
    assert SUPPORT_REASON_CODES[i] == SUPPORT_REASON_CODES[k];
    assert i in [0, 1, 2, 3, 4, 5] && k in [0, 1, 2, 3, 4, 5];
  }

  lemma ReasonReads(r: Reason, number: string, resolve: string -> Option<string>)
    ensures ParseSupportReason(ReasonText(r), resolve)
            == Legacy(SupportReason, TokenFields(None, None, Some(ReasonNumber(r)), None))
    ensures ParseSupportReason(ReasonText(r) + ":" + number, resolve)
            == if Present(resolve(number)) then
                 Legacy(SupportReason, TokenFields(resolve(number), None, Some(ReasonNumber(r)), None))
               else NotLegacy
  {
    hide FindText, ReasonText, ReasonNumber, IndexOf;
    ReasonAt(r);
    ReasonFound(r);
    var text := ReasonText(r);
    FirstColon(text, "", 0);
    FirstColon(text, ":" + number, 0);
    assert text + "" == text;
    var rest := text + ":" + number;
    assert rest == text + (":" + number) && rest[..|text|] == text && rest[|text| + 1..] == number;
  }

  // ----- Categories

  lemma CategoryFormReads(rest: string, resolve: string -> Option<string>, cursorText: string -> string)
    requires |rest| >= 26
    ensures ParseLegacyCallback("cat:view:" + rest, resolve, cursorText) == ParseCategoryView(rest)
  {
    var value := "cat:view:" + rest;
    assert StartsWith(value, "cat:view:") && After(value, "cat:view:") == rest && value[8] == ':';
    hide FindText, FindPrefix, IsInheritedName, ParseCategoryView;
    LongIsNoWord(value, 8);
  }

  lemma IdHasNoColon(id: string)
    requires IsRawId(id)
    ensures ':' !in id
  {
  }

  lemma PageReads(id: string, page: string, tail: string)
    requires IsRawId(id) && IsNumber(page, 6) && IsTail(tail)
    ensures ParseCategoryView(id + ":" + page + tail)
            == Legacy(CategoryView, TokenFields(Some(id), None, Some(Decimal.Parse(page)), None))
  {
    hide Decimal.Parse, IndexOf;
    var rest := id + ":" + page + tail;
    IdHasNoColon(id);
    DigitsHaveNoColon(page);
    assert rest == id + (":" + page + tail);
    FirstColon(id, ":" + page + tail, 0);
    PartAfter(id, page, tail);
    assert rest[..26] == id;
    hide IsRawId, IsNumber;
  }

  /** The second colon-separated part of a text. */
  lemma PartAfter(id: string, page: string, tail: string)
    requires ':' !in id && ':' !in page && IsTail(tail)
    ensures SecondPart(id + ":" + page + tail, |id|) == page
  {
    hide IndexOf;
    var rest := id + ":" + page + tail;
    NextColon(id + ":", page, tail, 0);
    assert rest == (id + ":") + page + tail;
    assert rest[|id| + 1..] == page + tail;
    assert tail == "" ==> rest[|id| + 1..] == page;
    assert rest[|id| + 1..|id| + 1 + |page|] == page;
  }

  lemma {:induction false} NextColon(head: string, s: string, tail: string, from: nat)
    requires from <= |s| && ':' !in s && IsTail(tail)
    ensures IndexOf(head + s + tail, ':', |head| + from) == if tail == "" then -1 else |head| + |s|
    decreases |s| - from
  {
    var all := head + s + tail;
    if from < |s| {
      assert all[|head| + from] == s[from] && s[from] in s;
      NextColon(head, s, tail, from + 1);
    }
  }

  lemma NoPageReads(id: string, tail: string)
    requires IsRawId(id) && HasNoPage(tail)
    ensures ParseCategoryView(id + tail) == WithResource(CategoryView, id)
  {
    var rest := id + tail;
    IdHasNoColon(id);
    FirstColon(id, tail, 0);
    if tail == "" {
      assert rest == id;
    } else {
      var next := IndexOf(rest, ':', 27);
      var n := if next == -1 then |tail| else next - 26;
      assert rest[..26] == id && rest[27..] == tail[1..];
      assert SecondPart(rest, 26) == tail[1..n];
      assert IsTail(tail[n..]) && ':' !in tail[1..n];
      hide IndexOf, IsRawId;
    }
  }

  /** Every readable callback is read as what it stands for. */
  lemma PrintedReads(r: Readable, resolve: string -> Option<string>, cursorText: string -> string)
    requires IsReadable(r)
    ensures StandsFor(r, resolve, cursorText, ParseLegacyCallback(Print(r), resolve, cursorText))
  {
    hide ParseLegacyCallback, WordText, WordAction, IdText, IdAction, OrderText, OrderAction, CursorText, CursorAction,
         ReasonText, ReasonNumber, ToggleText, Decimal.Parse, IsRawId, HasNoPage, IsTail, CursorHolds, DecodeCursorId,
         Decimal.AllDigits, ParseSupportReason, ParseAdmin, ParseCategoryView;
    match r
    case OfWord(w) => WordReads(w, resolve, cursorText);
    case OfId(p, id) => IdReads(p, id, resolve, cursorText);
    case OfOrder(p, number) => OrderReads(p, number, resolve, cursorText);
    case OfCursor(p, cursor) =>
      CursorFormReads(p, cursor, resolve, cursorText);
      CursorReads(cursor, cursorText);
      CursorIsPresent(cursor, cursorText);
    case OfCategory(id, tail) =>
      IdIsLong(id);
      CategoryFormReads(id + tail, resolve, cursorText);
      NoPageReads(id, tail);
    case OfCategoryPage(id, page, tail) =>
      IdIsLong(id);
      CategoryFormReads(id + ":" + page + tail, resolve, cursorText);
      PageReads(id, page, tail);
    case OfShopPage(page) => ShopPageReads(page, resolve, cursorText);
    case OfTrustPage(page) => TrustPageReads(page, resolve, cursorText);
    case OfToggle(social, on) => ToggleReads(social, on, resolve, cursorText);
    case OfReason(reason) =>
      ReasonFormReads(ReasonText(reason), resolve, cursorText);
      ReasonReads(reason, "", resolve);
    case OfReasonAndOrder(reason, number) =>
      ReasonFormReads(ReasonText(reason) + ":" + number, resolve, cursorText);
      ReasonReads(reason, number, resolve);
    case OfAdmin(digits, id) =>
      IdIsLong(id);
      AdminFormReads(digits + ":" + id, resolve, cursorText);
      AdminReads(digits, id);
  }

  lemma IdIsLong(id: string)
    requires IsRawId(id)
    ensures |id| == 26
  {
  }

  lemma CursorIsPresent(raw: string, cursorText: string -> string)
    ensures DecodeCursorId(raw, cursorText).Some? ==> Present(DecodeCursorId(raw, cursorText))
  {
    hide LastIndexOf;
  }

  // ----- Nothing else is read

  function WordOf(k: nat): Word
    requires k < 12
  {
    [MenuMain, CatList, CatSearch, OrdList, SupOpen, SuppOpen, HomeWord, OpenWord, NotifyWord, WarrantyWord,
     PreordersWord, TrustWord][k]
  }

  function IdPrefixOf(k: nat): IdPrefix
    requires k < 9
  {
    [VarView, SupView, RstSub, RestockSub, RstUnsub, ProductPrefix, ConsentPrefix, CreatePrefix, PayPrefix][k]
  }

  function OrderPrefixOf(k: nat): OrderPrefix
    requires k < 6
  {
    [OrdView, PayRefresh, PayRemind, PayCancel, PayReopen, SupOpenFor][k]
  }

  function ReasonOf(k: nat): Reason
    requires k < 6
  {
    [AssetNotWorking, PaymentQuestion, DeliveryNotReceived, RefundRequest, GeneralQuestion, OtherReason][k]
  }

  lemma Numbered(k: nat)
    ensures k < 12 ==> WordIndex(WordOf(k)) == k
    ensures k < 9 ==> IdIndex(IdPrefixOf(k)) == k
    ensures k < 6 ==> OrderIndex(OrderPrefixOf(k)) == k && ReasonNumber(ReasonOf(k)) == k
  {
  }

  lemma SplitAt(value: string, prefix: string)
    requires StartsWith(value, prefix)
    ensures value == prefix + After(value, prefix)
  {
  }

  /** Where the second part of a text ends. */
  function PartEnd(rest: string, colon: nat): (n: nat)
    requires colon < |rest|
    ensures 1 <= n <= |rest| - colon
  {
    var next := IndexOf(rest, ':', colon + 1);
    if next == -1 then |rest| - colon else next - colon
  }

  lemma SecondPartIs(rest: string, colon: nat)
    requires colon < |rest| && rest[colon] == ':'
    ensures var tail, n := rest[colon..], PartEnd(rest, colon);
            && SecondPart(rest, colon) == tail[1..n] && IsTail(tail[n..])
            && tail == ":" + tail[1..n] + tail[n..]
  {
    hide IndexOf;
    var tail, n := rest[colon..], PartEnd(rest, colon);
    assert tail[1..n] == rest[colon + 1..colon + n];
    assert n < |tail| ==> tail[n..][0] == rest[colon + n];
    assert rest[colon + 1..|rest|] == rest[colon + 1..];
  }

  /** A part ends at the next colon, or with the text. */
  lemma TailEnds(rest: string, colon: nat, m: nat)
    requires colon < |rest|
    requires var tail := rest[colon..]; 1 <= m <= |tail| && IsTail(tail[m..]) && ':' !in tail[1..m]
    ensures m == PartEnd(rest, colon)
  {
    hide IndexOf;
    var next := IndexOf(rest, ':', colon + 1);
    var tail := rest[colon..];
    assert m < |tail| ==> tail[m..][0] == rest[colon + m];
    forall i | colon + 1 <= i < colon + m ensures rest[i] != ':' {
      assert tail[1..m][i - colon - 1] == rest[i];
    }
    var end := if next == -1 then |rest| else next;
    forall i | colon + 1 <= i < end ensures rest[i] != ':' {
      assert rest[colon + 1..end][i - colon - 1] == rest[i];
      assert next == -1 ==> rest[colon + 1..end] == rest[colon + 1..];
    }
  }

  lemma NoPageAfter(rest: string, colon: nat)
    requires colon < |rest| && rest[colon] == ':' && !IsNumber(SecondPart(rest, colon), 6)
    ensures HasNoPage(rest[colon..])
  {
    hide SecondPart, PartEnd, IsNumber;
    var tail := rest[colon..];
    SecondPartIs(rest, colon);
    forall m | 1 <= m <= |tail| && IsTail(tail[m..]) && ':' !in tail[1..m] ensures m == PartEnd(rest, colon) {
      TailEnds(rest, colon, m);
    }
  }

  lemma CategoryIsPrinted(rest: string) returns (r: Readable)
    requires ParseCategoryView(rest).Legacy?
    ensures IsReadable(r) && Print(r) == "cat:view:" + rest
  {
    hide IndexOf, Decimal.Parse, Decimal.AllDigits, IsRawId, PartEnd, SecondPart, HasNoPage, IsTail;
    var colon := IndexOf(rest, ':', 0);
    if colon == -1 {
      EmptyTail();
      assert rest + "" == rest;
      r := OfCategory(rest, "");
    } else {
      var id, tail, n := rest[..colon], rest[colon..], PartEnd(rest, colon);
      SecondPartIs(rest, colon);
      assert rest == id + tail;
      if IsNumber(SecondPart(rest, colon), 6) {
        assert id + ":" + tail[1..n] + tail[n..] == id + (":" + tail[1..n] + tail[n..]);
        r := OfCategoryPage(id, tail[1..n], tail[n..]);
      } else {
        NoPageAfter(rest, colon);
        r := OfCategory(id, tail);
      }
    }
  }

  lemma EmptyTail()
    ensures HasNoPage("")
  {
  }

  lemma ReasonParts(rest: string, resolve: string -> Option<string>) returns (k: nat, separator: int)
    requires ParseSupportReason(rest, resolve).Legacy?
    ensures k < |SUPPORT_REASON_CODES| && -1 <= separator < |rest|
    ensures separator == -1 ==> SUPPORT_REASON_CODES[k] == rest
    ensures separator >= 0 ==> rest == SUPPORT_REASON_CODES[k] + ":" + rest[separator + 1..]
  {
    hide FindText, IndexOf;
    separator := IndexOf(rest, ':', 0);
    var text := if separator < 0 then rest else rest[..separator];
    k := FindText(SUPPORT_REASON_CODES, text);
    if separator >= 0 {
      assert rest == text + ":" + rest[separator + 1..];
    }
  }

  lemma ReasonNumbered(k: nat)
    requires k < |SUPPORT_REASON_CODES|
    ensures ReasonText(ReasonOf(k)) == SUPPORT_REASON_CODES[k]
  {
    hide ReasonText, ReasonNumber, ReasonOf, WordIndex, IdIndex, OrderIndex;
    ReasonLetters();
    Numbered(k);
    ReasonAt(ReasonOf(k));
  }

  lemma ReasonPrints(reason: Reason, number: string)
    ensures IsReadable(OfReason(reason)) && Print(OfReason(reason)) == "sup:reason:" + ReasonText(reason)
    ensures IsReadable(OfReasonAndOrder(reason, number))
    ensures Print(OfReasonAndOrder(reason, number)) == "sup:reason:" + (ReasonText(reason) + ":" + number)
  {
    hide ReasonText, WordText, IdText, OrderText, CursorText, ToggleText, IsRawId, Decimal.Parse, IsNumber, IsTail;
  }

  lemma ReasonIsPrinted(rest: string, resolve: string -> Option<string>) returns (r: Readable)
    requires ParseSupportReason(rest, resolve).Legacy?
    ensures IsReadable(r) && Print(r) == "sup:reason:" + rest
  {
    hide *;
    var k, separator := ReasonParts(rest, resolve);
    ReasonLetters();
    ReasonNumbered(k);
    ReasonPrints(ReasonOf(k), rest[separator + 1..]);
    r := if separator == -1 then OfReason(ReasonOf(k)) else OfReasonAndOrder(ReasonOf(k), rest[separator + 1..]);
  }

  lemma AdminIsPrinted(value: string) returns (r: Readable)
    requires ParseAdmin(value).Legacy?
    ensures IsReadable(r) && Print(r) == value
  {
    hide IndexOf, Decimal.Parse, IsRawId;
    var rest := After(value, "admin:");
    var colon := IndexOf(rest, ':', 0);
    SplitAt(value, "admin:");
    assert rest == rest[..colon] + ":" + rest[colon + 1..];
    r := OfAdmin(rest[..colon], rest[colon + 1..]);
  }

  lemma ToggleIsPrinted(rest: string) returns (r: Readable)
    requires ParseToggle(rest).Legacy?
    ensures IsReadable(r) && Print(r) == "cust:notify:" + rest
  {
    r := OfToggle(rest in ["social:on", "social:off"], rest in ["marketing:on", "social:on"]);
  }

  lemma WordIsPrinted(value: string) returns (r: Readable)
    requires FindText(NO_RESOURCE, value) >= 0
    ensures IsReadable(r) && Print(r) == value
  {
    hide FindText, WordText, WordIndex, WordOf, NO_RESOURCE;
    var k := FindText(NO_RESOURCE, value);
    WordTable();
    Numbered(k);
    WordAt(WordOf(k));
    r := OfWord(WordOf(k));
  }

  lemma IdIsPrinted(value: string) returns (r: Readable)
    requires FindPrefix(RESOURCE_PREFIXES, value) >= 0
    requires IsRawId(After(value, RESOURCE_PREFIXES[FindPrefix(RESOURCE_PREFIXES, value)]))
    ensures IsReadable(r) && Print(r) == value
  {
    hide FindPrefix, IdText, IdIndex, IdPrefixOf, IsRawId, StartsWith, RESOURCE_PREFIXES;
    var k := FindPrefix(RESOURCE_PREFIXES, value);
    IdTable();
    Numbered(k);
    IdAt(IdPrefixOf(k));
    SplitAt(value, RESOURCE_PREFIXES[k]);
    r := OfId(IdPrefixOf(k), After(value, RESOURCE_PREFIXES[k]));
  }

  lemma OrderIsPrinted(value: string) returns (r: Readable)
    requires FindPrefix(ORDER_PREFIXES, value) >= 0
    ensures IsReadable(r) && Print(r) == value
  {
    hide FindPrefix, OrderText, OrderIndex, OrderPrefixOf, StartsWith, ORDER_PREFIXES;
    var k := FindPrefix(ORDER_PREFIXES, value);
    OrderTable();
    Numbered(k);
    OrderAt(OrderPrefixOf(k));
    SplitAt(value, ORDER_PREFIXES[k]);
    r := OfOrder(OrderPrefixOf(k), After(value, ORDER_PREFIXES[k]));
  }

  lemma PagesArePrinted(page: string, cursor: string)
    ensures ParseShopPage(page).Legacy? ==> IsReadable(OfShopPage(page))
    ensures ParseTrustPage(page).Legacy? ==> IsReadable(OfTrustPage(page))
    ensures Print(OfShopPage(page)) == "shop:page:" + page && Print(OfTrustPage(page)) == "trust:page:" + page
    ensures IsReadable(OfCursor(VarPage, cursor)) && Print(OfCursor(VarPage, cursor)) == "var:page:" + cursor
    ensures IsReadable(OfCursor(OrdListFrom, cursor)) && Print(OfCursor(OrdListFrom, cursor)) == "ord:list:" + cursor
  {
    hide Decimal.Parse;
  }

  /** Whatever the parser reads as an action is the print of a readable callback. */
  lemma ReadIsPrinted(value: string, resolve: string -> Option<string>, cursorText: string -> string)
    returns (r: Readable)
    requires ParseLegacyCallback(value, resolve, cursorText).Legacy?
    ensures IsReadable(r) && Print(r) == value
  {
    hide FindText, FindPrefix, IsInheritedName, ParseCategoryView, ParseSupportReason, ParseAdmin, ParseToggle,
         ParseCursor, ParseOrder, ParseShopPage, ParseTrustPage, IsRawId, Print, IsReadable, StartsWith, Plain;
    if FindText(NO_RESOURCE, value) >= 0 {
      r := WordIsPrinted(value);
    } else if StartsWith(value, "cat:view:") {
      SplitAt(value, "cat:view:");
      r := CategoryIsPrinted(After(value, "cat:view:"));
    } else if FindPrefix(RESOURCE_PREFIXES, value) >= 0 {
      r := IdIsPrinted(value);
    } else if StartsWith(value, "shop:page:") {
      SplitAt(value, "shop:page:");
      r := OfShopPage(After(value, "shop:page:"));
      PagesArePrinted(After(value, "shop:page:"), "");
    } else if StartsWith(value, "trust:page:") {
      SplitAt(value, "trust:page:");
      r := OfTrustPage(After(value, "trust:page:"));
      PagesArePrinted(After(value, "trust:page:"), "");
    } else if StartsWith(value, "cust:notify:marketing:") || StartsWith(value, "cust:notify:social:") {
      ToggleFamily(value);
      SplitAt(value, "cust:notify:");
      r := ToggleIsPrinted(After(value, "cust:notify:"));
    } else if StartsWith(value, "var:page:") {
      SplitAt(value, "var:page:");
      r := OfCursor(VarPage, After(value, "var:page:"));
      PagesArePrinted("", After(value, "var:page:"));
    } else if StartsWith(value, "ord:list:") {
      SplitAt(value, "ord:list:");
      r := OfCursor(OrdListFrom, After(value, "ord:list:"));
      PagesArePrinted("", After(value, "ord:list:"));
    } else if FindPrefix(ORDER_PREFIXES, value) >= 0 {
      r := OrderIsPrinted(value);
    } else if StartsWith(value, "sup:reason:") {
      SplitAt(value, "sup:reason:");
      r := ReasonIsPrinted(After(value, "sup:reason:"), resolve);
    } else {
      r := AdminIsPrinted(value);
    }
  }

  lemma ToggleFamily(value: string)
    requires StartsWith(value, "cust:notify:marketing:") || StartsWith(value, "cust:notify:social:")
    ensures StartsWith(value, "cust:notify:")
  {
  }

  // ----- Which callbacks stay, and what the sealed ones mean

  /** How the callbacks that stay begin. */
  predicate BeginsKept(value: string) {
    && |value| >= 3
    && (value[0], value[1]) in [('a', 'd'), ('b', 'u'), ('w', 'a'), ('r', 'e'), ('c', 'b'), ('s', 'h'), ('c', 'u'),
                                ('d', 'e')]
    && (value[0] == 'r' ==> value[2] == 'v')
    && (value[0] == 's' ==> StartsWith(value, "shop:page:"))
    && (value[0] == 'c' && value[1] == 'u' ==>
        StartsWith(value, "cust:notify:marketing:") || StartsWith(value, "cust:notify:social:"))
    && (value[0] == 'a' ==> IsReadableAdmin(value))
  }

  lemma WalletBegins(value: string)
    ensures IsWalletCallback(value) ==> |value| >= 3 && value[0] == 'w' && value[1] == 'a'
  {
    hide IsTopupAmount;
  }

  lemma KeptBegins(value: string)
    ensures IsKept(value) ==> BeginsKept(value)
  {
    hide IsWalletCallback, Decimal.IsDigit;
    WalletBegins(value);
  }

  lemma KeptByKey(value: string)
    requires |value| >= 8 && IsKept(value)
    ensures Key(value).0 !in {'m', 'o', 't'}
    ensures Key(value).0 == 's' ==> Key(value) == ('s', 'h', ':', 'a')
    ensures Key(value).0 == 'c' ==>
              Key(value).1 != 'a' && (Key(value).1 == 'u' ==> Key(value) == ('c', 'u', ':', 'o') && |value| > 14)
  {
    KeptBegins(value);
    FixedKeys(value);
    hide IsKept, IsReadableAdmin;
  }

  lemma WordIsSealed(w: Word)
    ensures !IsKept(WordText(w))
  {
    hide *;
    WordAt(w);
    WordTable();
    assert WordIndex(w) in [0, 1, 2, 3, 4, 5, 6, 7, 8, 9, 10, 11];
    if IsKept(WordText(w)) {
      KeptByKey(WordText(w));
    }
  }

  lemma PrefixIsSealed(value: string, prefix: string)
    requires StartsWith(value, prefix) && SealsByKey(prefix)
    ensures !IsKept(value)
  {
    KeptBegins(value);
    FixedKeys(value);
    hide IsKept;
  }

  predicate SealsByKey(prefix: string) {
    && |prefix| >= 8 && !BeginsKept(prefix)
    && Key(prefix) != ('s', 'h', ':', 'a') && Key(prefix) != ('c', 'u', ':', 'o')
  }

  lemma IdIsSealed(p: IdPrefix)
    ensures SealsByKey(IdText(p))
  {
    IdAt(p);
    FixedKeys(IdText(p));
    hide IsReadableAdmin, StartsWith;
  }

  lemma OrderIsSealed(p: OrderPrefix)
    ensures SealsByKey(OrderText(p))
  {
    hide IsReadableAdmin;
  }

  lemma FormIsSealed(p: CursorPrefix)
    ensures SealsByKey(CursorText(p))
    ensures SealsByKey("cat:view:") && SealsByKey("trust:page:") && SealsByKey("sup:reason:")
  {
    hide IsReadableAdmin;
  }

  lemma AdminIsSealed(digits: string, rest: string)
    requires IsNumber(digits, 3)
    ensures !IsKept("admin:" + (digits + rest))
  {
    var value := "admin:" + (digits + rest);
    assert value[6] == digits[0];
    assert !IsReadableAdmin(value);
    KeptBegins(value);
    hide IsKept, IsReadableAdmin;
  }

  /** Of the readable callbacks only shop pages and toggles stay as they are. */
  lemma KeptIff(r: Readable)
    requires IsReadable(r)
    ensures IsKept(Print(r)) <==> r.OfShopPage? || r.OfToggle?
  {
    hide IsKept, WordText, IdText, OrderText, CursorText, ReasonText, Decimal.Parse, IsRawId, SealsByKey, ToggleText;
    FormIsSealed(if r.OfCursor? then r.list else VarPage);
    match r
    case OfWord(w) => WordIsSealed(w);
    case OfId(p, _) =>
      IdIsSealed(p);
      PrefixIsSealed(Print(r), IdText(p));
    case OfOrder(p, _) =>
      OrderIsSealed(p);
      PrefixIsSealed(Print(r), OrderText(p));
    case OfCursor(p, _) => PrefixIsSealed(Print(r), CursorText(p));
    case OfCategory(_, _) => PrefixIsSealed(Print(r), "cat:view:");
    case OfCategoryPage(_, _, _) => PrefixIsSealed(Print(r), "cat:view:");
    case OfShopPage(page) => PagesStay(page, false, false);
    case OfTrustPage(_) => PrefixIsSealed(Print(r), "trust:page:");
    case OfToggle(social, on) => PagesStay("", social, on);
    case OfReason(_) => PrefixIsSealed(Print(r), "sup:reason:");
    case OfReasonAndOrder(_, _) => PrefixIsSealed(Print(r), "sup:reason:");
    case OfAdmin(digits, id) =>
      assert digits + ":" + id == digits + (":" + id);
      AdminIsSealed(digits, ":" + id);
  }

  lemma PagesStay(page: string, social: bool, on: bool)
    ensures IsKept("shop:page:" + page) && IsKept("cust:notify:" + ToggleText(social, on))
  {
    hide IsReadableAdmin, IsWalletCallback;
    assert StartsWith("shop:page:" + page, "shop:page:");
    assert StartsWith("cust:notify:" + ToggleText(social, on),
                      if social then "cust:notify:social:" else "cust:notify:marketing:");
  }

  /** The buttons that other handlers read: repeat purchases, warranty, reviews, tokens of either codec,
      pages and toggles, whatever follows their prefix; admin commands that do not begin with a digit; the
      wallet's own words, and its amounts of at most thirteen digits; and without a callback those that
      open or copy something. */
  predicate Stays(b: Button) {
    var data := b.callbackData;
    if data == "" then b.url !in {None, Some("")} || b.copyText !in {None, Some("")}
    else
      || "buyagain:" <= data || "warranty:" <= data || "review:" <= data || "buy:" <= data || "cb:" <= data
      || "shop:page:" <= data || "cust:notify:marketing:" <= data || "cust:notify:social:" <= data
      || ("admin:" <= data && (|data| == 6 || !('0' <= data[6] <= '9')))
      || data == "delivery:delete" || IsOfWallet(data)
  }

  predicate IsOfWallet(data: string) {
    || data in {"wallet:account", "wallet:history", "wallet:topup", "wallet:topup:custom", "wallet:topup:confirm",
                "wallet:topup:status", "wallet:topup:change", "wallet:topup:cancel"}
    || ("wallet:topup:amount:" <= data && IsNumber(data[20..], 13) && data[20] != '0')
  }

  lemma WalletStays(data: string)
    ensures IsWalletCallback(data) <==> IsOfWallet(data)
  {
    hide Decimal.AllDigits;
    assert "wallet:topup:amount:" <= data ==> After(data, "wallet:topup:amount:") == data[20..];
  }

  lemma KeptStays(b: Button)
    requires b.callbackData != ""
    ensures IsKept(b.callbackData) <==> Stays(b)
  {
    WalletStays(b.callbackData);
    hide IsWalletCallback, IsOfWallet;
  }

  /** Sealing leaves exactly those buttons as they are, and drops the others that have no callback. */
  lemma StaysIff(c: SealContext, b: Button)
    requires IsUnifiedConfig(c.config)
    ensures SealButton(c, b) == Ok(Some(b)) <==> Stays(b)
    ensures b.callbackData == "" && !Stays(b) ==> SealButton(c, b) == Ok(None)
  {
    if b.callbackData != "" {
      KeptStays(b);
      hide Stays, ParseLegacyCallback, Issue, IsReadableAdmin, IsWalletCallback;
      if !IsKept(b.callbackData) && ParseLegacyCallback(b.callbackData, c.resolveOrderId, c.cursorText).Legacy? {
        var parsed := ParseLegacyCallback(b.callbackData, c.resolveOrderId, c.cursorText);
        IssuedPrefix(c.config, c.hmac, c.user, parsed.action, parsed.fields, c.nowMs);
      }
    }
  }

  /** End to end: a button with a readable callback that does not stay seals to what the callback
      stands for. With no id it is dropped; with an id no token can carry it aborts; and otherwise
      its token verifies to the printed action with the printed id and number, at any time within
      its window, if the id is a ULID and the number one byte. */
  lemma SealedMeansPrinted(c: SealContext, utf8: Utf8Decoder, b: Button, r: Readable, presentedMs: int)
    returns (p: Parsed)
    requires IsUnifiedConfig(c.config) && CanIssue(c) && IsReadable(r) && b.callbackData == Print(r)
    requires !r.OfShopPage? && !r.OfToggle?
    ensures StandsFor(r, c.resolveOrderId, c.cursorText, p) && !p.InheritedName?
    ensures p == NotLegacy ==> SealButton(c, b) == Ok(None)
    ensures p.Legacy? ==>
              var sealed, f := SealButton(c, b), p.fields;
              && (sealed.Ok? <==> (f.resourceId.Some? ==> IsEncodableId(f.resourceId.value)))
              && (sealed.Ok? ==> sealed.value.Some?)
              && (sealed.Ok? && (f.resourceId.Some? ==> Ulid.IsId(f.resourceId.value))
                  && (f.option.Some? ==> f.option.value <= 255) ==>
                  var issued, presented := ToUnixSeconds(c.nowMs), ToUnixSeconds(presentedMs);
                  (Verify(c.config, c.hmac, utf8, sealed.value.value.callbackData, c.user, presentedMs)
                   == Ok(VerifiedToken(p.action, f, (issued + c.config.ttlSeconds) * 1000))
                   <==> && issued - c.config.clockSkewSeconds <= presented
                        && presented <= issued + c.config.ttlSeconds + c.config.clockSkewSeconds))
  {
    hide *;
    p := ParseLegacyCallback(b.callbackData, c.resolveOrderId, c.cursorText);
    PrintedReads(r, c.resolveOrderId, c.cursorText);
    KeptIff(r);
    StandsForSomething(r, c.resolveOrderId, c.cursorText, p);
    SealsAsParsed(c, utf8, b, presentedMs);
  }

  lemma StandsForSomething(r: Readable, resolve: string -> Option<string>, cursorText: string -> string, p: Parsed)
    requires IsReadable(r) && StandsFor(r, resolve, cursorText, p)
    ensures Print(r) != "" && !p.InheritedName?
  {
    hide CursorHolds, Decimal.Parse, IsRawId;
  }

  lemma SealsAsParsed(c: SealContext, utf8: Utf8Decoder, b: Button, presentedMs: int)
    requires IsUnifiedConfig(c.config) && CanIssue(c) && b.callbackData != "" && !IsKept(b.callbackData)
    ensures var p := ParseLegacyCallback(b.callbackData, c.resolveOrderId, c.cursorText);
            var sealed := SealButton(c, b);
            && (p == NotLegacy ==> sealed == Ok(None))
            && (p.Legacy? ==>
                var f := p.fields;
                && (sealed.Ok? <==> (f.resourceId.Some? ==> IsEncodableId(f.resourceId.value)))
                && (sealed.Ok? ==> sealed.value.Some?)
                && (sealed.Ok? && (f.resourceId.Some? ==> Ulid.IsId(f.resourceId.value))
                    && (f.option.Some? ==> f.option.value <= 255) ==>
                    var issued, presented := ToUnixSeconds(c.nowMs), ToUnixSeconds(presentedMs);
                    (Verify(c.config, c.hmac, utf8, sealed.value.value.callbackData, c.user, presentedMs)
                     == Ok(VerifiedToken(p.action, f, (issued + c.config.ttlSeconds) * 1000))
                     <==> && issued - c.config.clockSkewSeconds <= presented
                          && presented <= issued + c.config.ttlSeconds + c.config.clockSkewSeconds)))
  {
    hide ParseLegacyCallback, IsKept, Issue, Verify, Normalize, IsEncodableId, Ulid.IsUlidText, IsLegacyPayload,
         ToUnixSeconds, Carried;
    var p := ParseLegacyCallback(b.callbackData, c.resolveOrderId, c.cursorText);
    if p.Legacy? {
      SealedLegacyRedeems(c, utf8, b, presentedMs);
      LegacyPayload(b.callbackData, c.resolveOrderId, c.cursorText);
      WellFormedLegacy(p);
      LegacyIsPlain(p.action, p.fields);
    }
  }

  lemma LegacyIsPlain(action: CallbackAction, f: TokenFields)
    requires IsLegacyPayload(action, f)
    ensures (f.option.Some? ==> f.option.value <= 255) ==> Carried(action, f) == f
    ensures (f.resourceId.Some? ==> Ulid.IsId(f.resourceId.value)) ==> !HasRawId(f)
  {
  }
}
