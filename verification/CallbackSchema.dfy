/** What each action's token may carry: the schemas of `encodeActionPayload`, written down as
    conditions on the input, against what the encoder accepts, refuses and writes. */
module CallbackSchema {
  import opened Positional
  import opened Results
  import opened Platform
  import opened CallbackCodec
  import Base64Url
  import Ulid

  /** The ids a token can carry: ULIDs below 2^128, and the other 26-character ids. */
  predicate IsEncodableId(id: string) {
    if Ulid.IsId(id) then id[0] <= '7' else IsRawId(id)
  }

  lemma EncodableIff(id: string)
    ensures EncodeResourceId(id).Ok? <==> IsEncodableId(id)
    ensures EncodeResourceId(id).Err? ==>
              EncodeResourceId(id).error == if Ulid.IsId(id) then InvalidUlid else InvalidResourceId
  {
    if Ulid.IsId(id) {
      Ulid.EncodesIff(id);
    }
  }

  /** By their characters: digits and capitals, and without an I, L, O or U a first character of at
      most '7', since then the id is a ULID. */
  lemma EncodableByCharacters(id: string)
    ensures IsEncodableId(id) <==>
            && |id| == 26 && (forall c | c in id :: '0' <= c <= '9' || 'A' <= c <= 'Z')
            && ('I' in id || 'L' in id || 'O' in id || 'U' in id || id[0] <= '7')
  {
    if |id| == 26 {
      assert Ulid.IsId(id) ==> forall c | c in id :: Ulid.IsUlidChar(c);
      if forall c | c in id :: '0' <= c <= '9' || 'A' <= c <= 'Z' {
        assert forall i | 0 <= i < |id| :: id[i] in id;
        if i :| 0 <= i < |id| && !Ulid.IsUlidChar(id[i]) {
          assert id[i] in {'I', 'L', 'O', 'U'} && id[i] in id;
        }
      }
    }
  }

  /** Eight characters of the base64url alphabet. */
  predicate IsAttemptId(s: string) {
    |s| == 8 && forall i | 0 <= i < 8 ::
      'A' <= s[i] <= 'Z' || 'a' <= s[i] <= 'z' || '0' <= s[i] <= '9' || s[i] == '-' || s[i] == '_'
  }

  predicate NeedsId(id: Option<string>) {
    id.Some? && IsEncodableId(id.value)
  }

  predicate MayHaveId(id: Option<string>) {
    id.None? || id.value == "" || IsEncodableId(id.value)
  }

  predicate NeedsByte(option: Option<int>) {
    option.Some? && 0 <= option.value <= 255
  }

  /** The payloads of each action. Amounts are looked at by the wallet checkout only. */
  predicate Conforms(action: CallbackAction, f: TokenFields) {
    match action
    case SearchPrompt | MainMenu | CategoryList | OrderList | RestockList | ShopHome | ShopOpen
       | CustomerNotifications | CustomerWarranty | PreorderList | CustomerTrust =>
      f.resourceId == None && f.secondaryResourceId == None && f.option == None
    case VariantView | OrderListPage | OrderView | PaymentRefresh | PaymentReminder | PaymentCancel | PaymentReopen
       | SupportTicketView | RestockSubscribe | RestockUnsubscribe | ShopProduct | ShopPage | PreorderConsent
       | PreorderCreate | PreorderPay | CheckoutPreview | CustomerNotificationToggle =>
      NeedsId(f.resourceId) && f.secondaryResourceId == None && f.option == None
    case CategoryView => NeedsId(f.resourceId) && f.secondaryResourceId == None
    case CatalogPage => NeedsId(f.resourceId) && MayHaveId(f.secondaryResourceId) && f.option == None
    case CheckoutWallet =>
      && NeedsId(f.resourceId) && f.option == None
      && f.amountVnd.Some? && 1 <= f.amountVnd.value <= 281_474_976_710_655
      && (f.secondaryResourceId == None || IsAttemptId(f.secondaryResourceId.value))
    case SupportMenu => MayHaveId(f.resourceId) && f.secondaryResourceId == None && f.option == None
    case SupportReason => MayHaveId(f.resourceId) && f.secondaryResourceId == None && NeedsByte(f.option)
    case AdminCommand => NeedsId(f.resourceId) && f.secondaryResourceId == None && NeedsByte(f.option)
    case CustomerTrustPage => f.resourceId == None && f.secondaryResourceId == None && NeedsByte(f.option)
  }

  lemma AttemptIff(value: string)
    ensures DecodeAttemptId(value).Some? <==> IsAttemptId(value)
  {
    if IsAttemptId(value) {
      Base64Url.ReencodeCheck(value);
    }
  }

  lemma NoEmptyId()
    ensures !IsEncodableId("")
  {
  }

  lemma CheckoutConforms(f: TokenFields)
    ensures EncodeCheckout(f).Ok? <==> Conforms(CheckoutWallet, f)
  {
    hide EncodeResourceId, IsEncodableId, IsAttemptId, DecodeAttemptId, Digits;
    NoEmptyId();
    if f.resourceId.Some? {
      EncodableIff(f.resourceId.value);
    }
    if f.secondaryResourceId.Some? {
      AttemptIff(f.secondaryResourceId.value);
    }
  }

  lemma CatalogConforms(f: TokenFields)
    ensures EncodeCatalog(f).Ok? <==> Conforms(CatalogPage, f)
  {
    hide EncodeResourceId, IsEncodableId;
    NoEmptyId();
    if f.resourceId.Some? {
      EncodableIff(f.resourceId.value);
    }
    if f.secondaryResourceId.Some? {
      EncodableIff(f.secondaryResourceId.value);
    }
  }

  lemma PlainConforms(action: CallbackAction, f: TokenFields)
    requires EncodesNothing(action) || EncodesOneResource(action)
    ensures EncodeActionPayload(action, f).Ok? <==> Conforms(action, f)
  {
    hide EncodeCheckout, EncodeCatalog, EncodeResourceId, IsEncodableId, IsAttemptId;
    NoEmptyId();
    if f.resourceId.Some? {
      EncodableIff(f.resourceId.value);
    }
  }

  lemma OptionConforms(action: CallbackAction, f: TokenFields)
    requires action in {CategoryView, SupportMenu, SupportReason, AdminCommand, CustomerTrustPage}
    ensures EncodeActionPayload(action, f).Ok? <==> Conforms(action, f)
  {
    hide EncodeCheckout, EncodeCatalog, EncodeResourceId, IsEncodableId, IsAttemptId;
    NoEmptyId();
    if f.resourceId.Some? {
      EncodableIff(f.resourceId.value);
    }
  }

  lemma PairEncoders(f: TokenFields)
    ensures EncodeActionPayload(CheckoutWallet, f) == EncodeCheckout(f)
    ensures EncodeActionPayload(CatalogPage, f) == EncodeCatalog(f)
  {
    hide EncodeCheckout, EncodeCatalog;
  }

  /** The encoder accepts exactly the conforming payloads, for every action. */
  lemma EncodesIffConforms(action: CallbackAction, f: TokenFields)
    ensures EncodeActionPayload(action, f).Ok? <==> Conforms(action, f)
  {
    hide EncodeActionPayload, EncodeCheckout, EncodeCatalog, Conforms;
    PairEncoders(f);
    if action == CheckoutWallet {
      CheckoutConforms(f);
    } else if action == CatalogPage {
      CatalogConforms(f);
    } else if EncodesNothing(action) || EncodesOneResource(action) {
      PlainConforms(action, f);
    } else {
      OptionConforms(action, f);
    }
  }

  // ----- Why a payload is refused

  /** The complaint about an id that is there but cannot be encoded. */
  function IdRefusal(id: string): IssueError {
    if Ulid.IsId(id) then InvalidUlid else InvalidResourceId
  }

  /** The first id that is there but cannot be encoded, if there is one. */
  function FirstBadId(f: TokenFields): string {
    if f.resourceId.Some? && !IsEncodableId(f.resourceId.value) then f.resourceId.value
    else if f.secondaryResourceId.Some? then f.secondaryResourceId.value
    else ""
  }

  /** The complaint about a payload with a field too many, too few or out of range. */
  function ShapeRefusal(action: CallbackAction, f: TokenFields): Option<IssueError> {
    var noId, noSecond, noOption := !Present(f.resourceId), f.secondaryResourceId == None, f.option == None;
    match action
    case SearchPrompt | MainMenu | CategoryList | OrderList | RestockList | ShopHome | ShopOpen
       | CustomerNotifications | CustomerWarranty | PreorderList | CustomerTrust =>
      if f.resourceId == None && noSecond && noOption then None else Some(PayloadNotAccepted)
    case VariantView | OrderListPage | OrderView | PaymentRefresh | PaymentReminder | PaymentCancel | PaymentReopen
       | SupportTicketView | RestockSubscribe | RestockUnsubscribe | ShopProduct | ShopPage | PreorderConsent
       | PreorderCreate | PreorderPay | CheckoutPreview | CustomerNotificationToggle =>
      if !noId && noSecond && noOption then None else Some(ResourceRequired)
    case CategoryView => if !noId && noSecond then None else Some(InvalidCategoryView)
    case CatalogPage => if !noId && noOption then None else Some(InvalidCatalogPage)
    case CheckoutWallet =>
      if noId || !noOption then Some(InvalidCheckoutWallet)
      else if f.amountVnd.None? || !(1 <= f.amountVnd.value <= 281_474_976_710_655) then Some(InvalidCheckoutAmount)
      else if f.secondaryResourceId.Some? && !IsAttemptId(f.secondaryResourceId.value) then
        Some(InvalidCheckoutAttempt)
      else None
    case SupportMenu => if noSecond && noOption then None else Some(InvalidSupportMenu)
    case SupportReason => if noSecond && NeedsByte(f.option) then None else Some(InvalidOption)
    case AdminCommand => if !noId && noSecond && NeedsByte(f.option) then None else Some(InvalidOption)
    case CustomerTrustPage =>
      if f.resourceId == None && noSecond && NeedsByte(f.option) then None else Some(InvalidTrustPage)
  }

  function Refusal(action: CallbackAction, f: TokenFields): IssueError {
    var shape := ShapeRefusal(action, f);
    if shape.Some? then shape.value else IdRefusal(FirstBadId(f))
  }

  lemma PairRefusals(f: TokenFields)
    ensures ShapeRefusal(CheckoutWallet, f).Some? ==> EncodeCheckout(f) == Err(ShapeRefusal(CheckoutWallet, f).value)
    ensures ShapeRefusal(CatalogPage, f).Some? ==> EncodeCatalog(f) == Err(ShapeRefusal(CatalogPage, f).value)
    ensures ShapeRefusal(CheckoutWallet, f).None? && EncodeCheckout(f).Err? ==>
              EncodeCheckout(f) == Err(IdRefusal(FirstBadId(f)))
    ensures ShapeRefusal(CatalogPage, f).None? && EncodeCatalog(f).Err? ==>
              EncodeCatalog(f) == Err(IdRefusal(FirstBadId(f)))
  {
    hide EncodeResourceId, IsEncodableId, IsAttemptId, DecodeAttemptId, Digits;
    if f.resourceId.Some? {
      EncodableIff(f.resourceId.value);
    }
    if f.secondaryResourceId.Some? {
      EncodableIff(f.secondaryResourceId.value);
      AttemptIff(f.secondaryResourceId.value);
    }
  }

  lemma PlainRefusals(action: CallbackAction, f: TokenFields)
    requires EncodesNothing(action) || EncodesOneResource(action)
    ensures var r, shape := EncodeActionPayload(action, f), ShapeRefusal(action, f);
            r.Err? ==> r.error == if shape.Some? then shape.value else IdRefusal(FirstBadId(f))
  {
    hide EncodeResourceId, EncodeCheckout, EncodeCatalog, IsEncodableId, IsAttemptId;
    if f.resourceId.Some? {
      EncodableIff(f.resourceId.value);
    }
  }

  lemma OptionRefusals(action: CallbackAction, f: TokenFields)
    requires action in {CategoryView, SupportMenu, SupportReason, AdminCommand, CustomerTrustPage}
    ensures var r, shape := EncodeActionPayload(action, f), ShapeRefusal(action, f);
            r.Err? ==> r.error == if shape.Some? then shape.value else IdRefusal(FirstBadId(f))
  {
    hide EncodeResourceId, EncodeCheckout, EncodeCatalog, IsEncodableId, IsAttemptId;
    if f.resourceId.Some? {
      EncodableIff(f.resourceId.value);
    }
  }

  /** Which complaint a payload that does not conform gets: one about its shape comes before one
      about an id, and the first id before the second. */
  lemma RefusedBecause(action: CallbackAction, f: TokenFields)
    requires !Conforms(action, f)
    ensures EncodeActionPayload(action, f) == Err(Refusal(action, f))
  {
    hide EncodeActionPayload, EncodeCheckout, EncodeCatalog, IsEncodableId, IsAttemptId;
    EncodesIffConforms(action, f);
    PairEncoders(f);
    if action == CheckoutWallet || action == CatalogPage {
      PairRefusals(f);
    } else if EncodesNothing(action) || EncodesOneResource(action) {
      PlainRefusals(action, f);
    } else {
      OptionRefusals(action, f);
    }
  }

  // ----- What is written

  function IdBytes(id: string): seq<Byte>
    requires IsEncodableId(id)
  {
    if Ulid.IsId(id) then Ulid.EncodesIff(id); Ulid.EncodeUlid(id).value else AsciiBytes(id)
  }

  /** The bytes of an id that may be absent. */
  function MaybeIdBytes(id: Option<string>): seq<Byte>
    requires MayHaveId(id)
  {
    if Present(id) then IdBytes(id.value) else []
  }

  lemma WritesId(id: string)
    requires IsEncodableId(id)
    ensures EncodeResourceId(id) == Ok(IdBytes(id))
  {
    EncodableIff(id);
  }

  lemma CheckoutParts(f: TokenFields) returns (attempt: seq<Byte>)
    requires Conforms(CheckoutWallet, f)
    ensures EncodeCheckout(f) == Ok(IdBytes(f.resourceId.value) + (Digits(f.amountVnd.value, 256, 6) + attempt))
    ensures f.secondaryResourceId.None? ==> attempt == []
    ensures f.secondaryResourceId.Some? ==> Base64Url.Encode(attempt) == f.secondaryResourceId.value
  {
    WritesId(f.resourceId.value);
    NoEmptyId();
    if f.secondaryResourceId.Some? {
      AttemptIff(f.secondaryResourceId.value);
      Base64Url.ReencodeCheck(f.secondaryResourceId.value);
    }
    hide IdBytes, IsEncodableId, EncodeResourceId, Digits, Base64Url.Encode, Base64Url.Decode, IsAttemptId;
    attempt := if f.secondaryResourceId.None? then [] else DecodeAttemptId(f.secondaryResourceId.value).value;
    assert Digits(f.amountVnd.value, 256, 6) + [] == Digits(f.amountVnd.value, 256, 6);
  }

  /** A wallet checkout is its id, six bytes of amount and six of attempt. */
  lemma CheckoutLayout(f: TokenFields)
    requires Conforms(CheckoutWallet, f)
    ensures EncodeCheckout(f).Ok? && |EncodeCheckout(f).value| >= |IdBytes(f.resourceId.value)| + 6
    ensures var p, k := EncodeCheckout(f).value, |IdBytes(f.resourceId.value)|;
            && p[..k] == IdBytes(f.resourceId.value) && p[k..k + 6] == Digits(f.amountVnd.value, 256, 6)
            && (f.secondaryResourceId.None? ==> p[k + 6..] == [])
            && (f.secondaryResourceId.Some? ==> Base64Url.Encode(p[k + 6..]) == f.secondaryResourceId.value)
  {
    hide IdBytes, IsEncodableId, EncodeCheckout, Digits, Base64Url.Encode, IsAttemptId;
    var attempt := CheckoutParts(f);
    Sliced(IdBytes(f.resourceId.value), Digits(f.amountVnd.value, 256, 6), attempt);
  }

  lemma Sliced(a: seq<Byte>, b: seq<Byte>, c: seq<Byte>)
    ensures var p := a + (b + c);
            p[..|a|] == a && p[|a|..|a| + |b|] == b && p[|a| + |b|..] == c
  {
  }

  /** Every other payload is its ids in order and at most one byte of option, modulo 256. */
  lemma PayloadLayout(action: CallbackAction, f: TokenFields)
    requires Conforms(action, f) && action != CheckoutWallet
    ensures MayHaveId(f.resourceId) && MayHaveId(f.secondaryResourceId)
    ensures EncodeActionPayload(action, f)
            == Ok(MaybeIdBytes(f.resourceId) + MaybeIdBytes(f.secondaryResourceId)
                  + if f.option.Some? then [f.option.value % 256] else [])
  {
    hide IsEncodableId, EncodeResourceId, IdBytes, EncodeCheckout, EncodeCatalog;
    if Present(f.resourceId) {
      WritesId(f.resourceId.value);
    }
    NoEmptyId();
    if action == CatalogPage {
      PairEncoders(f);
      CatalogLayout(f);
    } else if EncodesNothing(action) || EncodesOneResource(action) {
      PlainLayout(action, f);
    } else {
      OptionLayout(action, f);
    }
  }

  lemma CatalogLayout(f: TokenFields)
    requires Conforms(CatalogPage, f)
    ensures EncodeCatalog(f) == Ok(MaybeIdBytes(f.resourceId) + MaybeIdBytes(f.secondaryResourceId) + [])
  {
    hide IsEncodableId, EncodeResourceId, IdBytes;
    NoEmptyId();
    WritesId(f.resourceId.value);
    if Present(f.secondaryResourceId) {
      WritesId(f.secondaryResourceId.value);
    }
    var first, second := MaybeIdBytes(f.resourceId), MaybeIdBytes(f.secondaryResourceId);
    assert first + second + [] == first + second && first + [] == first;
  }

  lemma PlainLayout(action: CallbackAction, f: TokenFields)
    requires Conforms(action, f) && (EncodesNothing(action) || EncodesOneResource(action))
    ensures EncodeActionPayload(action, f) == Ok(MaybeIdBytes(f.resourceId) + [] + [])
    ensures f.secondaryResourceId.None? && f.option.None?
  {
    hide IsEncodableId, EncodeResourceId, IdBytes, EncodeCheckout, EncodeCatalog;
    NoEmptyId();
    if f.resourceId.Some? {
      WritesId(f.resourceId.value);
    }
    assert MaybeIdBytes(f.resourceId) + [] + [] == MaybeIdBytes(f.resourceId);
  }

  lemma OptionLayout(action: CallbackAction, f: TokenFields)
    requires Conforms(action, f)
    requires action in {CategoryView, SupportMenu, SupportReason, AdminCommand, CustomerTrustPage}
    ensures f.secondaryResourceId.None?
    ensures EncodeActionPayload(action, f)
            == Ok(MaybeIdBytes(f.resourceId) + [] + if f.option.Some? then [f.option.value % 256] else [])
  {
    hide IsEncodableId, EncodeResourceId, IdBytes, EncodeCheckout, EncodeCatalog;
    NoEmptyId();
    if Present(f.resourceId) {
      WritesId(f.resourceId.value);
    }
    var id := MaybeIdBytes(f.resourceId);
    var option: seq<Byte> := if f.option.Some? then [f.option.value % 256] else [];
    assert id + [] + option == id + option;
    assert option == [] ==> id + option == id;
    assert id == [] ==> id + option == option;
  }
}
