# Callback tokens, wallet reconciliation, worker concurrency and delivery: a verified model

This project models, in Dafny, four parts of the shop bot that carry protocol-like promises, and
proves what holds of them over all inputs, all runs and all interleavings. Where a promise fails,
the code is modelled as it is, a lemma exhibits the failing input or run, and another states the
exact condition under which the promise holds.

`dafny verify dfyconfig.toml` checks everything.

## What is modelled

**The signed callback tokens** (`src/bot/callback-codec.ts`, `src/bot/callback-sealer.ts`,
`src/bot/webhook.ts`).

- `Positional.dfy`: big-endian numerals in any base, of which every number format below is an
  instance. `Base64Url.dfy`: section 5 of RFC 4648 without padding, and the canonical form of its
  section 3.5. `Ulid.dfy`: 26-character ids against 16 bytes. `Decimal.dfy`: printed numbers.
- `Platform.dfy`: what the runtime supplies. HMAC and SHA-256 are arbitrary functions of which only
  the output length is known; UTF-8 decoding is any function that reads ASCII and loses nothing but what
  it replaces by U+FFFD. `Utf8.dfy`: the runtime's own decoder, which is one of these.
- `CallbackCodec.dfy`: the action table, the two payload schemas, `issue`, `verify` and
  `peekCallbackAction`. `encodeActionPayload` and `decodeActionPayload` are kept as two separate
  readings. `CallbackSchema.dfy` writes out what each action may carry, and proves that this is what is
  encoded. `CallbackRoundTrip.dfy` proves what verifying an issued token returns (`VerifyIssued`,
  for everything that can be issued; `UlidRoundTrip`, the promise for schema-conforming ULID payloads).
- `AcceptedTokens.dfy`: how far an accepted token is determined by what it verifies to.
- `BuyNowCodec.dfy`: the fixed 35-byte Buy Now payload.
- `CallbackSealer.dfy`: the legacy-callback parser and the message sealer, as a compiler into tokens.
  `LegacyCallbacks.dfy`: the printer of those callbacks, of which the parser is the inverse.
- `WebhookClassifier.dfy`: the rate-limit class chosen before verification.

**Wallet reconciliation** (`scripts/wallet-reconciliation.ts`). `WalletReconciliation.dfy`: ledger
arithmetic, validation, the plan, one APPLY against a store. `ReconciliationProtocol.dfy`: any number
of APPLY runs as three database steps each, interleaved with crashes and with other writers under one
of three disciplines: they never lower a version; or also raise it whenever they touch a wallet; or
also move cache and ledger together. `ReconciliationExamples.dfy`: the runs that show which promises
need which discipline.

**Worker concurrency** (`src/worker.ts`). Every uninterrupted stretch of code between two awaits is
one step, and the steps interleave arbitrarily. `WorkerScheduler.dfy`: the lane scheduler, its stop,
and the wake-ups that go round it. `SheetsLane.dfy`: the spreadsheet lane's own guard.
`NotificationLane.dfy`: the workers that share one index.

**Delivery and bounded windows** (`src/bot/grammy-responder.ts`, `scripts/phase2-soak.ts`).
`TelegramResponder.dfy`: one delivery, and a caller that retries it, against an arbitrary script of
API outcomes. `AckSet.dfy`: the bounded set of answered callbacks. `Percentiles.dfy` and
`SoakWindows.dfy`: nearest-rank percentiles and the two sample buffers.

Code that changes state in place is modelled by methods over arrays, loops and class fields, each
proved against a function or a relation whose own properties are proved as lemmas.

## Where the code does less than one may expect

Each entry names the lemma with the exact condition and the one with a failing input or run.

- **Raw ids.** Besides ULIDs the codec accepts any 26 characters of 0-9 and A-Z. Tokens with such an
  id are issued but can never be redeemed for exactly six actions (`IrredeemableTokens`,
  `RawTicketNeverRedeems`): the support ticket is misread as an extended frame, and the category view,
  catalog page, support menu, support reason and admin command have no decode length for it. For a
  wallet checkout, or beside a second id, `issue` itself refuses (`RawIdsThatDoNotFit`). The comment at
  `src/bot/callback-codec.ts:317-323` has the action schemas determine the payload length;
  `FrameUnambiguous` says for which payloads that tells the frames apart.
- **Two strings for one value.** `verify` accepts a ULID packed in 16 bytes or spelt out in 26, though
  `issue` only packs it (`TwoFormsOfOneId`). A spelt-out body need not be a ULID, nor ASCII: bytes that are
  not UTF-8 become U+FFFD, whichever they were (`LostBytesPair`). An accepted token is determined by what
  it verifies to exactly where the id has one form only and holds no U+FFFD (`SecondStringIff`;
  `AcceptedValueIsUnique` for any decoder and any two times).
- **Ids past 2^128.** `isId` (`src/shared/ids/index.ts:36-41`) checks only the pattern; the encoder
  refuses the rest (`EncodesIff`, `TooLargeId`).
- **Category pages** above 255 are accepted by the sealer and stored in one byte; a page survives only
  for a ULID below 2^128 (`CategoryPageSurvivesIff`, `CategoryPageModulo`).
- **Inherited names.** The sealer's lookup table answers for names such as `constructor` or
  `toString`, so a button with such a callback aborts its message instead of being dropped
  (`InheritedIff`, `MessageSealsIff`, `ConstructorAborts`).
- **Sealing changes the rate class** of most callbacks that are sealed at all
  (`SealingKeepsClassIff`, `SealedReminderChangesClass`).
- **Idempotency keys** are unique per wallet, not by themselves: two runs can race (`KeyRepeatedIff`,
  `KeyUniqueWithoutOverlap`, `OneKeyTwoWallets`). The plan is checked before the key is looked up, so
  a verbatim replay is refused as a version change instead of answered `idempotent`, unless both
  runs were under way at once (`IdempotentDichotomy`, `IdempotentAtSameVersion`).
- **A correction can miss the ledger** when someone posts to it without raising the version
  (`CorrectionMeetsLedgerIff`, `UnversionedWriterMissed`).
- **A failing wake listener** makes the first `stop()` reject with its timers armed for good and the work
  under way not waited for (`StopOutcomeIff`, `RejectedKeepsTimers`, `RejectedWhileRunning`).
- **Stopping the worker** waits for scheduled bodies only, and only the first time
  (`DrainedHonestIff`, `StopLeavesWakesRunning`; `RepeatedStopAnswersTrue`, `RepeatedStopDoesNotWait`).
- **The spreadsheet lane**: a call that arrives after a body is over but before its owner resumed
  joins the finished run and begins none (`CallOutcome`, `CallJoinsFinishedRun`).
- **The notification lane** rejects at the first failing worker while others go on sending
  (`SettledEarlyIff`, `RejectedWhileSending`), and with no workers resolves at once with everything
  claimed (`ResolvedMeansCompleted`).
- **The persistent keyboard** can post a message twice: by a retry (`AtMostOnePost`,
  `KeyboardDoublePost`), and for photos within one delivery (`SinglePost`, `PhotoThenText`), although
  the comment at `src/bot/grammy-responder.ts:554-557` intends the text fallback for rejected photos
  only.
- **The empty callback id** is never forgotten once remembered (`LatestIff`, `EmptyIdIsKept`).
- **The event-loop lag buffer** starts writing at the wrong slot (`LagRingIsLatestIff`,
  `LagRingKeepsFirst`).

## Assumptions

- A configuration passed the checks of the codec's constructor; keys are given as bytes.
- The wallet update and its audit row commit together, each database step reads what is committed at
  that moment, and audit rows are never removed. The key lookup may return any row with the key.
- The other writers of the wallet tables keep to one of the three disciplines; `OneWalletWritten` spells them out for
  a writer of one wallet.
- A start of a reconciliation history has nothing running and satisfies the claims made of it.
- Wake-ups arrive only between the start of the scheduler and the end of its listener.
- A callback update carries no command, so its class is asked for without one.
- The runtime decodes UTF-8 as the WHATWG Encoding Standard does; only `SecondStringIff` and
  `LostBytesPair` depend on which bytes it replaces.
- For retries, a rate-limited, 5xx or rejected API call did not deliver.

## Model

| member | source | states |
|---|---|---|
| Ulid.CharOfIsAlphabet | src/bot/callback-codec.ts:15 | the digit-to-character function is the alphabet string, position by position |
| Ulid.EncodeDecode | src/bot/callback-codec.ts:210-237 | every 16-byte string is the encoding of the id it decodes to |
| Ulid.DecodeEncode | src/bot/callback-codec.ts:210-237 | an id that encodes comes back unchanged |
| Ulid.EncodesIff | src/bot/callback-codec.ts:217-219 | the overflow check refuses exactly the ids whose first character is above 7, although the id pattern allows them |
| Ulid.TooLargeId | src/bot/callback-codec.ts:217-219 | the first id that does not encode |
| Ulid.OrderPreserved | src/bot/callback-codec.ts:210-237 | text order of ids is byte order of their encodings |
| Ulid.EncodeUlidBytes | src/bot/callback-codec.ts:210-226 | the two loops over `numeric` and the byte buffer compute `EncodeUlid`, errors included |
| Ulid.DecodeUlidText | src/bot/callback-codec.ts:228-237 | the two loops over bytes and digits compute `DecodeUlid` |
| Base64Url.CharOfIsAlphabet | src/bot/callback-codec.ts:348-367 | the digit-to-character function is the base64url alphabet, position by position |
| Base64Url.GroupBits | src/bot/callback-codec.ts:348-367 | the digits of a group are its bits, six by six from the left, the last filled up with zeros |
| Base64Url.DecodeEncode | src/bot/callback-codec.ts:348-367 | decoding undoes encoding at every length, and the encoded length is known |
| Base64Url.ReencodeCheck | src/bot/callback-codec.ts:365-370 | the re-encode check accepts exactly the canonical texts: whole groups, or zero unused bits |
| Base64Url.WholeGroupsBijective | src/bot/callback-codec.ts:125-129 | texts of whole groups need no such check: decoding them is injective |
| Utf8.DecodeEncode | src/bot/callback-codec.ts:584 | the decoder reads every text back from its encoding |
| Utf8.EncodeDecode | src/bot/callback-codec.ts:584 | bytes that decode without a replacement character are the encoding of what they decode to |
| Utf8.TwinDecodes | src/bot/callback-codec.ts:584 | bytes that decode with one are not determined: other bytes, as many, decode to the same text |
| Platform.LengthIsEncoded | src/bot/callback-codec.ts:118-122 | the byte length that is compared with 64 is the number of bytes of the UTF-8 encoding |
| Platform.RuntimeDecodes | src/bot/callback-codec.ts:584 | the runtime's decoder is one of those the token theorems speak of: it reads ASCII, and two byte strings share a text only where something was replaced |
| Platform.NormalizeAgrees | src/bot/callback-codec.ts:191-202 | text, bigint and number spellings of one user id normalize alike, exactly on 1..2^64-1, and numbers exactly on 1..2^53-1 |
| Platform.NormalizeIdempotent | src/bot/callback-codec.ts:191-202 | normalized text is a fixed point, digits only, and a text that normalizes is its own normal form |
| CallbackCodec.ActionCode | src/bot/callback-codec.ts:242-278 | the code table and its inverse agree on every action |
| CallbackCodec.CodesAreListed | src/bot/callback-codec.ts:242-278 | the codes 0 to 34 are the 35 actions in the order of a written-out list, and no other byte is a code |
| CallbackCodec.EncodeResourceId | src/bot/callback-codec.ts:658-662 | 16 bytes for an id, 26 for the looser pattern, nothing else accepted |
| CallbackCodec.WriteUIntBE | src/bot/callback-codec.ts:345 | the in-place big-endian write changes just its field, to the digits of the value |
| CallbackCodec.CopyInto | src/bot/callback-codec.ts:346 | the in-place copy changes just its range |
| CallbackCodec.FillPayload | src/bot/callback-codec.ts:332-346 | the buffer filled in place is header, expiry, optional action byte and encoded payload |
| CallbackCodec.IssueEncodedToken | src/bot/callback-codec.ts:338-352 | the rest of `issue` after the schema check, as a function, errors included |
| CallbackCodec.IssueToken | src/bot/callback-codec.ts:329-353 | `issue` as a function of its inputs, first failing check first |
| CallbackSchema.EncodableIff | src/bot/callback-codec.ts:658-662 | the encodable ids: ULIDs below 2^128 and the other 26-character ids |
| CallbackSchema.EncodableByCharacters | src/bot/callback-codec.ts:658-662 | which these are, by their characters |
| CallbackSchema.EncodesIffConforms | src/bot/callback-codec.ts:422-539 | for every action, the encoder accepts exactly the payloads written out for it: which ids must, may or must not be there, an option from 0 to 255 or none, and for a wallet checkout an amount from 1 to 2^48-1 and an attempt of 8 base64url characters or none |
| CallbackSchema.RefusedBecause | src/bot/callback-codec.ts:422-539 | a payload that does not conform is refused for its shape before its ids, and for the first bad id before the second |
| CallbackSchema.CheckoutLayout | src/bot/callback-codec.ts:470-488 | a wallet checkout is its id, six bytes of amount, and six bytes that spell the attempt |
| CallbackSchema.PayloadLayout | src/bot/callback-codec.ts:422-539 | every other payload is its ids in order and at most one byte of option |
| CallbackRoundTrip.CarriedIsInput | src/bot/callback-codec.ts:422-539 | what a token can carry is the whole input exactly when ids are non-empty, the option is a byte and only a wallet checkout names an amount |
| CallbackRoundTrip.ResourceRoundTrip | src/bot/callback-codec.ts:658-662 | a resource id is recovered from its bytes; a raw id starts with a byte no action code has |
| CallbackRoundTrip.AmountRoundTrip | src/bot/callback-codec.ts:422-634 | 48-bit amounts survive |
| CallbackRoundTrip.TimestampRoundTrip | src/bot/callback-codec.ts:345-383 | 32-bit expiries survive |
| CallbackRoundTrip.AttemptRoundTrip | src/bot/callback-codec.ts:646-650 | attempt ids are exactly the 8-character base64url texts, and survive |
| CallbackRoundTrip.CheckoutRoundTrip | src/bot/callback-codec.ts:422-634 | wallet checkout payloads of ULIDs survive: id, amount and optional attempt |
| CallbackRoundTrip.CatalogRoundTrip | src/bot/callback-codec.ts:422-634 | catalog pages of one or two ULIDs survive |
| CallbackRoundTrip.OptionRoundTrip | src/bot/callback-codec.ts:422-634 | the optional option byte of category, support reason and admin payloads survives |
| CallbackRoundTrip.DecodeEncodePayload | src/bot/callback-codec.ts:422-634 | decoding the encoded payload of ULIDs gives back every carried field, for every action |
| CallbackRoundTrip.DecodeRawPayload | src/bot/callback-codec.ts:541-634 | a payload with a raw id decodes exactly for the one-resource actions |
| CallbackRoundTrip.PayloadLength | src/bot/callback-codec.ts:422-539 | the length of every payload the schemas produce |
| CallbackRoundTrip.FrameUnambiguous | src/bot/callback-codec.ts:333-346 | nibble and length read every issued frame as intended, except a support ticket with a raw id |
| CallbackRoundTrip.ExtendedReading | src/bot/callback-codec.ts:379 | the sentinel-and-length test recognises extended frames exactly where the payload length permits |
| CallbackRoundTrip.UlidTokensFit | src/bot/callback-codec.ts:338-352 | tokens of ULIDs are issued exactly when the user is valid, the payload conforms and the clock allows, in at most 63 bytes, so the size guard never fires |
| CallbackRoundTrip.IssueDecides | src/bot/callback-codec.ts:329-353 | what `issue` answers, from its input alone: which of user, payload, clock and length is at fault first, or a token |
| CallbackRoundTrip.RawIdsThatDoNotFit | src/bot/callback-codec.ts:349-351 | raw ids beside a checkout amount or a second id never fit in 64 bytes |
| CallbackRoundTrip.DecodeIssued | src/bot/callback-codec.ts:541-634 | the payload of any issued token decodes to its carried fields, or not at all for raw ids the decoder has no length for |
| CallbackRoundTrip.VerifyFrame | src/bot/callback-codec.ts:377-400 | verdict on a frame that is read as intended, by age and content |
| CallbackRoundTrip.VerifyMisread | src/bot/callback-codec.ts:379-382 | a raw support ticket is read as an extended frame and refused as a wrong action |
| CallbackRoundTrip.VerifyTokenText | src/bot/callback-codec.ts:355-376 | text, canonical form and signature of a fresh token are accepted |
| CallbackRoundTrip.VerifyIssued | src/bot/callback-codec.ts:329-401 | for every issued token, whatever its action, ids and times, what the same user gets back: the fields, or which error |
| CallbackRoundTrip.UlidRoundTrip | src/bot/callback-codec.ts:329-401 | every payload of ULIDs that conforms to its schema is issued and verifies to exactly its action, fields and expiry, precisely from issue minus skew to issue plus lifetime plus skew |
| CallbackRoundTrip.VerifyElsewhere | src/bot/callback-codec.ts:355-400 | an issued token under any other configuration: a refused signature unless the truncated MACs of its message under the two keys coincide, then an unknown version unless the versions do, else the verdict by the issuer's expiry and the verifier's window |
| CallbackRoundTrip.TextDecides | src/bot/callback-codec.ts:355-370 | malformed is decided by the text and the user alone: every other text is read in its bytes |
| CallbackRoundTrip.PeekDecides | src/bot/callback-codec.ts:680-704 | what every token text peeks at, by the first byte of its frame or the sixth |
| CallbackRoundTrip.WrongActionIff | src/bot/callback-codec.ts:377-382 | the signed frames that no action owns, and those of another key version, by their bytes |
| CallbackRoundTrip.DecodesIff | src/bot/callback-codec.ts:541-634 | the payload lengths each action decodes, and no others |
| CallbackRoundTrip.IrredeemableTokens | src/bot/callback-codec.ts:329-401 | which issued tokens their own user can redeem, at every presentation time: all but six actions with raw ids, exactly within the window |
| CallbackRoundTrip.RawTicketNeverRedeems | src/bot/callback-codec.ts:379-382 | a support ticket with a raw id is issued and never accepted |
| CallbackRoundTrip.PeekAgreesWithVerify | src/bot/callback-codec.ts:680-704 | whatever `verify` accepts, `peekCallbackAction` reads as the same action |
| CallbackRoundTrip.PeekIssued | src/bot/callback-codec.ts:680-704 | every issued token peeks at its own action, the raw support ticket at none |
| CallbackRoundTrip.SignedMessageInjective | src/bot/callback-codec.ts:664-672 | the signed bytes determine user and payload |
| CallbackRoundTrip.BoundToItsUser | src/bot/callback-codec.ts:329-401 | what another user gets for any issued token: a refused signature, unless the truncated MACs of two different messages coincide, and then the verdict of its own user |
| CallbackRoundTrip.AcceptedTextIsUnique | src/bot/callback-codec.ts:365-370 | two accepted strings with the same bytes are the same string, and it is canonical |
| AcceptedTokens.AcceptedPayload | src/bot/callback-codec.ts:377-400 | an accepted payload is the one its own action, expiry and body build |
| AcceptedTokens.AcceptedToken | src/bot/callback-codec.ts:355-376 | an accepted string is the signed token of its own payload |
| AcceptedTokens.DecodingIsInjective | src/bot/callback-codec.ts:541-634 | bodies of one length that decode alike are alike, for every action, unless the decoded id holds a replacement character |
| AcceptedTokens.LengthIsDecoded | src/bot/callback-codec.ts:541-634 | decoded fields tell the length of the body, except for a ULID below 2^128 that can be packed or spelt out |
| AcceptedTokens.AcceptedValueIsUnique | src/bot/callback-codec.ts:355-401 | two accepted strings with equal action, fields and expiry are equally long unless the id has two forms, and equally long ones are the same string unless the id holds a replacement character; at any times and for any decoder that loses nothing else |
| AcceptedTokens.SecondStringIff | src/bot/callback-codec.ts:355-401 | for every accepted string: another one verifies to the same thing if and only if the id has two forms or holds a replacement character |
| AcceptedTokens.SpeltOutVerifies | src/bot/callback-codec.ts:541-634 | a ULID spelt out in 26 bytes and signed like a token is accepted |
| AcceptedTokens.TwoFormsOfOneId | src/bot/callback-codec.ts:541-634 | so the issued token and the spelt-out one verify to the same thing |
| AcceptedTokens.LostBytesPair | src/bot/callback-codec.ts:584 | 26 bytes 0xFF and 26 bytes 0xFE, signed like tokens, are two equally long accepted strings that verify to the same thing |
| BuyNowCodec.IssuedBuyNowIs | src/bot/callback-codec.ts:81-114 | an issued token byte by byte: header 80 plus key version, variant, price, expiry, nonce, and ten bytes of the MAC of the written-out message |
| BuyNowCodec.BuyNowRefusals | src/bot/callback-codec.ts:83-98 | which inputs are refused, and with which error: the first demand that is not met |
| BuyNowCodec.BuyNowTextDecides | src/bot/callback-codec.ts:117-130 | malformed is decided by the text and the user alone: `buy:` and 60 base64url characters |
| BuyNowCodec.BuyNowBytesDecide | src/bot/callback-codec.ts:131-172 | which error 45 bytes give, by the value of the first and by the signature, or which fields they are |
| BuyNowCodec.VerifyBuyNowElsewhere | src/bot/callback-codec.ts:117-177 | an issued token under any other configuration: an unknown version unless the versions coincide, then a refused signature unless the truncated MACs of its message do, else its verdict |
| BuyNowCodec.AcceptedIsIssued | src/bot/callback-codec.ts:81-177 | whatever is accepted is what `issue` makes of its own variant, price, nonce and time, exactly unless its price is zero or its expiry too early |
| BuyNowCodec.KeyIsDigest | src/bot/callback-codec.ts:156-163 | the idempotency key is 18 bytes of the digest of the written-out message of user and nonce |
| BuyNowCodec.KeysCoincideIff | src/bot/callback-codec.ts:156-163 | two purchases get one key exactly when those digests begin alike, and only one user and one nonce have one message |
| BuyNowCodec.BuyNowFields | src/bot/callback-codec.ts:100-105 | every field of the 35-byte payload reads back |
| BuyNowCodec.IssueBuyNowSucceeds | src/bot/callback-codec.ts:81-113 | issuing succeeds exactly on valid inputs, always with 64 bytes: the size guard never fires |
| BuyNowCodec.VerifyBuyNowFields | src/bot/callback-codec.ts:131-172 | verdict on a payload with any signature at every time, down to the idempotency key |
| BuyNowCodec.BuyNowRoundTrip | src/bot/callback-codec.ts:81-177 | an issued token verifies to its variant, price, expiry and a key of user and nonce alone, exactly within its time window |
| BuyNowCodec.DomainsApart | src/bot/callback-codec.ts:181-188 | no message signed by one codec is a message signed by the other, whatever the users and payloads |
| BuyNowCodec.BuyNowBoundToItsUser | src/bot/callback-codec.ts:81-177 | what another user gets for any issued Buy Now token: a refused signature, unless the truncated MACs of two different messages coincide |
| BuyNowCodec.BuyNowTextIsUnique | src/bot/callback-codec.ts:118-129 | 60 characters and 45 bytes are in bijection, so no re-encode check is needed |
| BuyNowCodec.FillBuyNowPayload | src/bot/callback-codec.ts:100-105 | the buffer filled in place is the payload |
| BuyNowCodec.IssueBuyNowToken | src/bot/callback-codec.ts:81-113 | `issue` as a function of its inputs, first failing check first |
| CallbackSealer.SealPresentedMessageCallbacks | src/bot/callback-sealer.ts:18-82 | the nested loops compute row-by-row sealing, and the first failing button aborts the message |
| CallbackSealer.SealedButtonIsStable | src/bot/callback-sealer.ts:25-77 | a sealed button is left alone by any later sealing |
| CallbackSealer.SealedMessageIsStable | src/bot/callback-sealer.ts:18-82 | sealing a sealed message changes nothing, whatever the later context |
| CallbackSealer.NoEmptyRow | src/bot/callback-sealer.ts:79 | no empty row is left |
| CallbackSealer.OrderPreserved | src/bot/callback-sealer.ts:22-81 | the sealed message is the original buttons in order, each sealed on its own, dropped ones left out |
| CallbackSealer.LegacyPayload | src/bot/callback-sealer.ts:84-187 | everything the legacy parser builds has one of the payload shapes the codec accepts |
| CallbackSealer.LegacyEncodes | src/bot/callback-sealer.ts:84-187 | a parsed callback encodes exactly when its resource id does |
| CallbackSealer.SealedLegacyRedeems | src/bot/callback-sealer.ts:72-77 | every parsed callback with an encodable id seals to a token that verifies back to the parsed action and fields, option modulo 256 |
| CallbackSealer.CategoryPageModulo | src/bot/callback-sealer.ts:104-112 | a category page up to six digits is read in full and carried modulo 256 |
| CallbackSealer.CategoryPageSurvivesIff | src/bot/callback-sealer.ts:72-77 | a category page survives sealing and verification exactly for a ULID below 2^128, a page below 256, and a time within the window |
| CallbackSealer.ButtonSealsIff | src/bot/callback-sealer.ts:24-77 | a button seals or is dropped exactly unless it aborts: an inherited name, or a callback that cannot be issued |
| CallbackSealer.MessageSealsIff | src/bot/callback-sealer.ts:18-82 | a message seals exactly when none of its buttons aborts it |
| CallbackSealer.InheritedIff | src/bot/callback-sealer.ts:88-102 | the callbacks that fall to properties every object inherits are these twelve names |
| CallbackSealer.InheritedNameParses | src/bot/callback-sealer.ts:88-102 | every name the table lookup finds on all objects is neither kept nor dropped |
| CallbackSealer.InheritedNameAborts | src/bot/callback-sealer.ts:72-77 | such a button is refused as an unsupported action, after its user, and its message does not seal |
| CallbackSealer.ConstructorAborts | src/bot/callback-sealer.ts:102 | the smallest such message |
| LegacyCallbacks.PrintedReads | src/bot/callback-sealer.ts:84-187 | each of the twelve printed forms of a legacy callback, for every word, prefix, id, number and page, is read as the action and fields it stands for |
| LegacyCallbacks.ReadIsPrinted | src/bot/callback-sealer.ts:84-187 | and nothing else is read as an action: whatever the parser reads is the print of such a form |
| LegacyCallbacks.CursorReads | src/bot/callback-sealer.ts:189-199 | what is read of a cursor is the part behind its last separator, if that is an id |
| LegacyCallbacks.KeptIff | src/bot/callback-sealer.ts:31-66 | of the readable callbacks only shop pages and toggles stay as they are |
| LegacyCallbacks.StaysIff | src/bot/callback-sealer.ts:24-66 | sealing leaves exactly the written-out buttons of other handlers as they are, and drops the others that have no callback |
| LegacyCallbacks.SealedMeansPrinted | src/bot/callback-sealer.ts:24-77 | end to end: a button with a printed callback seals to a token that verifies to exactly the printed action, id and number, is dropped without an id, and aborts with an id that no token can carry |
| WebhookClassifier.ClassIff | src/bot/webhook.ts:571-620 | for each class but the last two, exactly which callback prefixes, token actions and commands fall into it |
| WebhookClassifier.CatalogIff | src/bot/webhook.ts:571-620 | and which updates are the catalog or unknown |
| WebhookClassifier.ClassSurvivesVerification | src/bot/webhook.ts:571-589 | the class chosen before verification is the class of the action verification yields |
| WebhookClassifier.IssuedClass | src/bot/webhook.ts:571-589 | every issued token is classified as its action; the raw support ticket as unknown |
| WebhookClassifier.LegacyFamily | src/bot/webhook.ts:571-600 | a legacy callback is read as one of the actions the classifier tells apart exactly when it begins so |
| WebhookClassifier.SealingKeepsClassIff | src/bot/webhook.ts:571-600 | sealing a callback keeps its class exactly for payment refreshes and cancellations, admin commands, and support tickets whose id is not a ULID |
| WebhookClassifier.SealedReminderChangesClass | src/bot/webhook.ts:574-592 | a payment reminder for a known order seals and moves from payment-check to catalog |
| WalletReconciliation.SumTelescopes | scripts/wallet-reconciliation.ts:226-259 | the signed ledger sum is last balance minus first balance minus the gaps |
| WalletReconciliation.SumIsCreditsLessDebits | scripts/wallet-reconciliation.ts:226-243 | the signed sum is the credits less the debits |
| WalletReconciliation.ChainBreaksCount | scripts/wallet-reconciliation.ts:230-243 | the chain-break count is the number of rows whose lagged balance differs |
| WalletReconciliation.UnbrokenSumIsBalanceChange | scripts/wallet-reconciliation.ts:226-259 | without breaks the sum is the balance change |
| WalletReconciliation.PlanIff | scripts/wallet-reconciliation.ts:165-212 | a plan exists exactly when all expectations match the snapshot, and then removes the positive excess of cache over ledger |
| WalletReconciliation.RefusedByFirstDemand | scripts/wallet-reconciliation.ts:131-212 | a plan is refused by the first of 21 written-out demands that is not met, the first fourteen without a snapshot |
| WalletReconciliation.ApplyDecides | scripts/wallet-reconciliation.ts:399-439 | what APPLY answers, nothing else running: a correction, `idempotent` or key reuse by what the found row is of, or the double entry; in every other case an error and no change |
| WalletReconciliation.AppliedEffects | scripts/wallet-reconciliation.ts:284-291 | a successful APPLY sets the cache to the ledger, raises the version by one, and adds one audit row with the operator's input and with the cache before, the cache after, the ledger sum, the version and the chain breaks of the wallet as it was |
| WalletReconciliation.ReplayRefused | scripts/wallet-reconciliation.ts:399-419 | replaying an applied command verbatim is always refused, at the version check or before it |
| WalletReconciliation.IdempotentNeedsNewMismatch | scripts/wallet-reconciliation.ts:402-418 | run alone, `idempotent` needs a newer expected version with an equal new mismatch |
| WalletReconciliation.Store.UpdateWallet | scripts/wallet-reconciliation.ts:274-292 | the guarded update, refused on double entry or when it would not hit one row |
| WalletReconciliation.Store.AppendAuditEvent | scripts/wallet-reconciliation.ts:421-439 | one audit row is added at the end |
| WalletReconciliation.Store.FindExistingApply | scripts/wallet-reconciliation.ts:365-383 | the lookup finds a row with the key exactly when there is one |
| WalletReconciliation.Store.Run | scripts/wallet-reconciliation.ts:399-439 | one APPLY, step by step, against its transition relation, error order included |
| ReconciliationProtocol.RunKeepsInvariant | scripts/wallet-reconciliation.ts:399-439 | over every interleaving: one correction per wallet and key, and what each unfinished run may rely on |
| ReconciliationProtocol.AtMostOneCorrection | scripts/wallet-reconciliation.ts:399-439 | with other writers that never lower a version, a wallet and a key have at most one audited correction |
| ReconciliationProtocol.KeyUniqueIffOneWallet | scripts/wallet-reconciliation.ts:365-383 | in every reachable audit log, corrections that share a key are exactly corrections of different wallets |
| ReconciliationProtocol.StepTells | scripts/wallet-reconciliation.ts:399-439 | what a run is told at each of its three steps, from the store at that step and what it has read |
| ReconciliationProtocol.AuditRecordsCommand | scripts/wallet-reconciliation.ts:399-439 | every successful swap of every run adds one row, which records the command the run was begun with and the wallet as the run read it |
| ReconciliationProtocol.AuditsBalance | scripts/wallet-reconciliation.ts:421-439 | every row committed in a run has as amount the cache before less the cache after, which is the ledger |
| ReconciliationProtocol.LookupRecorded | scripts/wallet-reconciliation.ts:402 | what a run remembers of its lookup is what was committed at that step |
| ReconciliationProtocol.StepRepeatsIff | scripts/wallet-reconciliation.ts:402-439 | a step repeats a key exactly by committing after a lookup that came before an earlier row with it |
| ReconciliationProtocol.KeyRepeatedIff | scripts/wallet-reconciliation.ts:402-439 | over every run, two corrections come to carry one key exactly when some run loses that race |
| ReconciliationProtocol.KeyUniqueWithoutOverlap | scripts/wallet-reconciliation.ts:399-439 | if no two runs with a key are under way together and none carries it at the start, the key alone is unique |
| ReconciliationProtocol.ReplayNeverPlans | scripts/wallet-reconciliation.ts:399-401 | once a command is audited no later run of it gets past planning, in any interleaving |
| ReconciliationProtocol.IdempotentDichotomy | scripts/wallet-reconciliation.ts:402-418 | an `idempotent` answer names a row of the same correction, at an older version exactly when committed before the run read its snapshot |
| ReconciliationProtocol.CorrectionMeetsLedger | scripts/wallet-reconciliation.ts:274-291 | where every writer that touches a wallet raises its version, each correction leaves the cache equal to the ledger as it stands then |
| ReconciliationProtocol.CorrectionMeetsLedgerIff | scripts/wallet-reconciliation.ts:274-291 | with writers that only keep versions from going down, a correction leaves cache and ledger equal exactly when the ledger still sums to what it summed to at the step the run read it |
| ReconciliationProtocol.DriftIsConserved | scripts/wallet-reconciliation.ts:274-291 | with writers that post cache and ledger together, initial drift is drift now plus the audited corrections |
| ReconciliationExamples.OneKeyTwoWallets | scripts/wallet-reconciliation.ts:365-383 | a run in which one key corrects two wallets |
| ReconciliationExamples.IdempotentAtSameVersion | scripts/wallet-reconciliation.ts:402-418 | two simultaneous runs of one command: the second is `idempotent` at the version the first corrected |
| ReconciliationExamples.UnversionedWriterMissed | scripts/wallet-reconciliation.ts:284-291 | a ledger posting without a version bump makes a correction miss the ledger |
| WorkerScheduler.StepKeepsInvariant | src/worker.ts:733-795 | every step keeps: the in-flight map is exactly the jobs not yet cleared, and a stop has every running job in its snapshot |
| WorkerScheduler.RunKeepsInvariant | src/worker.ts:733-795 | the same over every run |
| WorkerScheduler.SingleFlight | src/worker.ts:733-757 | at most one scheduled body per lane, bookkeeping included, over every interleaving |
| WorkerScheduler.TickBeginsIff | src/worker.ts:733-735 | a tick begins a body exactly when the scheduler is not stopping and the lane has none |
| WorkerScheduler.StartBeginsEveryLane | src/worker.ts:760-776 | the first start leaves every lane with a body and a timer, in order |
| WorkerScheduler.NothingBeginsAfterStop | src/worker.ts:777-779 | no body begins once stop has been called |
| WorkerScheduler.StopOutcomeIff | src/worker.ts:777-795 | what became of the first stop, read off the events: rejected exactly when stopping the listener failed, false exactly when the timeout came first, true exactly when nothing was in flight or every pending job settled |
| WorkerScheduler.AnswersByEvents | src/worker.ts:777-795 | the answers of all calls of stop, in order, read off the events |
| WorkerScheduler.FirstAnswer | src/worker.ts:783-795 | a caller has been told false exactly when the timeout came first; the step that ends the first stop adds one answer, true exactly for settled jobs or none in flight, and then every scheduled body is over |
| WorkerScheduler.CanDrain | src/worker.ts:733-795 | from every reachable state the bodies under way can end and a stop under way can answer true: nothing gets stuck |
| WorkerScheduler.ListeningByEvents | src/worker.ts:760-782 | the wake listener is up exactly from a start before any stop until it has been stopped |
| WorkerScheduler.TimersWhileStopping | src/worker.ts:777-782 | from the call of stop on, the timers are the ones armed then until the listener stops, and none after |
| WorkerScheduler.TimersStayCleared | src/worker.ts:780-782 | once the wake listener has stopped no timer is armed again |
| WorkerScheduler.RejectedKeepsTimers | src/worker.ts:780 | after a rejected stop the timers stay armed for good |
| WorkerScheduler.RejectedWhileRunning | src/worker.ts:780 | a run whose stop rejects with a timer armed and a body under way |
| WorkerScheduler.DrainedMeansDrained | src/worker.ts:783-795 | a first stop that resolved true did so with every scheduled body over, and it stays so |
| WorkerScheduler.RunKeepsRunningByEvents | src/worker.ts:733-795 | which bodies run, scheduled or woken, is read off the past events |
| WorkerScheduler.DrainedHonestIff | src/worker.ts:777-795 | when the first stop has resolved true, something runs exactly when a wake-up that fired has not settled |
| WorkerScheduler.DrainedWithoutWakes | src/worker.ts:777-795 | without wake-ups a true answer of the first stop means that nothing runs |
| WorkerScheduler.RepeatedStopAnswersTrue | src/worker.ts:778 | every repeated stop answers true at once; something runs behind it exactly when a body scheduled before the first stop, or a wake-up, has not settled |
| WorkerScheduler.RepeatedStopDoesNotWait | src/worker.ts:778 | a run in which that answer is false comfort |
| WorkerScheduler.WakeBypassesGuard | src/worker.ts:9936-9945 | a wake-up runs a lane beside the scheduler's own body of it |
| WorkerScheduler.StopLeavesWakesRunning | src/worker.ts:763-795 | a started scheduler whose first stop resolves true with a woken lane still running |
| WorkerScheduler.Scheduler.Run | src/worker.ts:733-757 | `run` up to its first await, on the fields |
| WorkerScheduler.Scheduler.StartAll | src/worker.ts:760-776 | `start` with its loop over the lanes |
| WorkerScheduler.Scheduler.OnSettled | src/worker.ts:737-752 | a lane promise settles |
| WorkerScheduler.Scheduler.OnFinally | src/worker.ts:754-756 | the chained bookkeeping removes only its own entry |
| WorkerScheduler.Scheduler.BeginStop | src/worker.ts:777-780 | `stop` up to its first await |
| WorkerScheduler.Scheduler.SnapshotPending | src/worker.ts:781-784 | `stop` clears the timers and takes its snapshot |
| WorkerScheduler.Scheduler.EndRace | src/worker.ts:789-794 | the race is over and `stop` answers |
| SheetsLane.StepKeepsInvariant | src/worker.ts:9919-9930 | every step keeps: the guard names the one run not yet released, and each run was begun by exactly one call |
| SheetsLane.SingleFlight | src/worker.ts:9919-9930 | at most one body, whoever calls |
| SheetsLane.CallOutcome | src/worker.ts:9919-9930 | a call begins a body exactly when the spreadsheet is configured and every earlier owner has resumed; otherwise it joins the unreleased run, which may be over already |
| SheetsLane.CallJoinsFinishedRun | src/worker.ts:9922 | a run in which a call joins a body that is over |
| SheetsLane.Guard.Begin | src/worker.ts:9920-9924 | a call up to its first await |
| SheetsLane.Guard.OnBodyEnds | src/worker.ts:9923 | the body's promise settles |
| SheetsLane.Guard.OnOwnerResumes | src/worker.ts:9927-9929 | the `finally` empties the guard only of its own run |
| NotificationLane.StepKeepsInvariant | src/worker.ts:877-903 | every step keeps: fates and holders match, sends are distinct, idle workers mean an exhausted list |
| NotificationLane.TakenOnceInOrder | src/worker.ts:880-881 | deliveries are taken in index order, each exactly once, even if workers throw |
| NotificationLane.SentAtMostOnce | src/worker.ts:880-898 | no delivery is handed to the responder twice |
| NotificationLane.NothingMislaid | src/worker.ts:879-902 | every taken delivery has one holder, an outcome, or a worker that threw |
| NotificationLane.WorkersKeepPace | src/worker.ts:880-889 | each worker waits out its reserved slot and every pause it reads, and sends only on a pause reading of zero |
| NotificationLane.OneSurvivorTakesAll | src/worker.ts:879-903 | if all workers ended and one never threw, every delivery was taken and all but at most one per failed worker have an outcome |
| NotificationLane.CanFinish | src/worker.ts:879-903 | every run can be finished without anything more being thrown: no worker waits for what cannot happen |
| NotificationLane.CanComplete | src/worker.ts:879-903 | a lane with a worker in which nothing has been thrown can still complete every delivery |
| NotificationLane.ResolvedMeansCompleted | src/worker.ts:903 | a lane that resolves has processed everything, exactly unless it had no workers |
| NotificationLane.SettledIff | src/worker.ts:903 | the lane is rejected exactly after a throw, and settled exactly then or when all workers have ended |
| NotificationLane.SettledEarlyIff | src/worker.ts:903 | the lane settles with a worker still at work exactly when the first worker to fail does so while another has not ended |
| NotificationLane.RejectedWhileSending | src/worker.ts:903 | a run in which it is rejected while another worker is sending |
| NotificationLane.Workers.TakeNext | src/worker.ts:880-881 | the loop test and the shared index, read and bumped in one step |
| NotificationLane.Workers.StartAll | src/worker.ts:903 | the workers begin one after the other, each to its first await |
| NotificationLane.Workers.OnReserved | src/worker.ts:882-883 | after the slot reservation |
| NotificationLane.Workers.OnWoke | src/worker.ts:883-887 | after a sleep |
| NotificationLane.Workers.OnPauseAnswered | src/worker.ts:884-889 | after a pause reading: sleep again or send |
| NotificationLane.Workers.OnProcessed | src/worker.ts:889-901 | after the outcome: loop, or fail on a throwing callback |
| NotificationLane.Workers.OnThrew | src/worker.ts:879-902 | any awaited call throws out of the worker |
| TelegramResponder.AtMostOnePost | src/bot/grammy-responder.ts:483-616 | without a pending keyboard, a caller retrying only retryable errors posts at most once, for every sequence of outcomes and any number of tries |
| TelegramResponder.KeyboardDoublePost | src/bot/grammy-responder.ts:508-520 | with one pending, two tries can post twice, for every request |
| TelegramResponder.SinglePost | src/bot/grammy-responder.ts:483-616 | one delivery alone posts at most once, except a photo with a keyboard pending |
| TelegramResponder.PhotoThenText | src/bot/grammy-responder.ts:540-572 | for every such photo a rejected keyboard makes the one delivery post photo and text both |
| TelegramResponder.DeliveryWalks | src/bot/grammy-responder.ts:483-616 | every call and the answer of every delivery, from the request and the outcomes alone: which method comes first, after which outcomes which one follows, and what the caller is told |
| TelegramResponder.DocumentIsSent | src/bot/grammy-responder.ts:508-520 | a document is sent as a document, with its keyboard behind it, and as nothing else |
| TelegramResponder.LadderIsProper | src/bot/grammy-responder.ts:508-615 | the last method of every ladder, and only the last, posts unconditionally |
| TelegramResponder.ClimbPosts | src/bot/grammy-responder.ts:508-615 | without a keyboard a failed delivery has posted nothing and a successful one once, or ended on an edit |
| TelegramResponder.NothingAfterAmbiguous | src/bot/grammy-responder.ts:139-160 | nothing is called after a send whose outcome is unknown, over any number of tries |
| TelegramResponder.ClimbIsPrefix | src/bot/grammy-responder.ts:508-615 | a delivery walks a prefix of its ladder, each method at most once |
| TelegramResponder.ProtectedNeverEdited | src/bot/grammy-responder.ts:521-573 | protected content is never sent by an edit, over any number of tries |
| TelegramResponder.OwnedMessageIsNamed | src/bot/grammy-responder.ts:490-493 | a delivery that ends on an edit always names the message it owns |
| TelegramResponder.DeliveryAnsweredByLast | src/bot/grammy-responder.ts:112-160 | a delivery succeeds, is ambiguous or asks for a retry exactly by how its last call ended |
| TelegramResponder.Responder.Call | src/bot/grammy-responder.ts:139-160 | one API call and what it is turned into |
| TelegramResponder.Responder.Post | src/bot/grammy-responder.ts:508-519 | a post and the keyboard that rides behind it |
| TelegramResponder.Responder.Edit | src/bot/grammy-responder.ts:522-536 | an edit and its message-id fallbacks |
| TelegramResponder.Responder.TryEdit | src/bot/grammy-responder.ts:521-539 | an edit attempt decides the delivery unless nothing was editable |
| TelegramResponder.Responder.TryPhoto | src/bot/grammy-responder.ts:540-572 | a photo attempt decides the delivery unless rejected for good |
| TelegramResponder.Responder.PostLast | src/bot/grammy-responder.ts:606-615 | the last attempt decides |
| TelegramResponder.Responder.Deliver | src/bot/grammy-responder.ts:483-616 | the nested attempts in place follow the ladder reading, call by call |
| AckSet.AckKeepsRemembered | src/bot/grammy-responder.ts:431-437 | one acknowledgement moves the remembered window as specified |
| AckSet.HoldsRemembered | src/bot/grammy-responder.ts:430-441 | the set is always the remembered part of what was sent, in order, each id once |
| AckSet.LatestIff | src/bot/grammy-responder.ts:430-441 | it is the last 4000 ids exactly while no empty id is among those due to be forgotten |
| AckSet.NonEmptyIdsKeepLatest | src/bot/grammy-responder.ts:430-486 | callers that pass no empty id get exactly the last min(4000, n) |
| AckSet.EmptyIdIsKept | src/bot/grammy-responder.ts:434-437 | an empty id followed by 4000 others leaves 4001 in the set |
| AckSet.SentAgainOnlyAfterLimit | src/bot/grammy-responder.ts:432-439 | an id goes to Telegram again only after 4000 different other ids went in between |
| AckSet.Answered.Acknowledge | src/bot/grammy-responder.ts:431-439 | the set after one call, and whether Telegram is asked |
| Percentiles.Sorted | scripts/phase2-soak.ts:93 | what the library sort returns: ordered, same values |
| Percentiles.PercentileIsLeastCover | scripts/phase2-soak.ts:93-95 | the percentile is a sample, and the least value that covers the fraction p of the samples |
| Percentiles.PercentileIsMonotone | scripts/phase2-soak.ts:93-101 | percentiles grow with p |
| SoakWindows.RingAdds | scripts/phase2-soak.ts:62-66 | overwriting slot (count - 1) % 2048 keeps the ring |
| SoakWindows.RingIsLatest | scripts/phase2-soak.ts:57-67 | the latency buffer holds exactly the last min(n, 2048) values |
| SoakWindows.LagRingAdds | scripts/phase2-soak.ts:269-273 | overwriting slot samples % 2048 keeps the lag ring |
| SoakWindows.LagRingIsLatestIff | scripts/phase2-soak.ts:263-274 | the lag buffer holds the last min(n, 2048) values exactly when n is at most 2048, at least 4096, or the first value happens to equal the one it displaces |
| SoakWindows.LagRingKeepsFirst | scripts/phase2-soak.ts:272 | one value past the limit it can be wrong |
| SoakWindows.PercentileWithinMax | scripts/phase2-soak.ts:93-104 | no percentile exceeds the maximum ever seen |
| SoakWindows.RankOfRing | scripts/phase2-soak.ts:93-101 | percentiles depend on which values are held, not where: they are ranks of the latest values |
| SoakWindows.BoundedLatency.Add | scripts/phase2-soak.ts:57-67 | the buffer, count, total, minimum and maximum after one value |
| SoakWindows.BoundedLatency.AddError | scripts/phase2-soak.ts:69-71 | only the error count changes |
| SoakWindows.BoundedLatency.Summarize | scripts/phase2-soak.ts:73-105 | every figure of the summary in terms of the values added: ordered ranks of the latest, maximum and mean of all |
| SoakWindows.EventLoop.Sample | scripts/phase2-soak.ts:263-274 | the lag buffer, count, total and maximum after one non-negative lag |
| SoakWindows.EventLoop.LagPercentile | scripts/phase2-soak.ts:276-281 | a percentile of the lags held: the least that covers the fraction |

## Left out

- Numbers are integers and times whole milliseconds: options, prices, amounts and dates that are not
  (fractions, NaN) are refused or truncated by branches not modelled here.
- Times and lags of the soak script are exact reals: `toFixed` and floating-point rounding are not modelled.
- Cryptographic strength and constant-time comparison: only determinism and output lengths are used.
- The random nonce of Buy Now is a parameter; the clock is a parameter, read once per sealed message
  where the original reads it once per button.
- The order lookup and the base64url-to-text decoding of pagination cursors are parameters of the
  sealer, and the lookup answers the same for the same number within one message.
- Button faces, texts and every other part of a message the sealer copies: one opaque field.
- SQL, transactions and row locking: a store of wallets and audit rows with three atomic steps per run.
- Command-line parsing (among it the required form of idempotency keys), DRY-RUN, `summarizeWallets`,
  reports, redaction and the production target checks of the reconciliation script.
- Lane bodies, their logging and metrics, timer intervals, and the connection logic of the wake
  listener: a wake-up may fire whenever the listener can be up.
- Claiming deliveries and recording their outcome: database services that are not part of this model;
  a claim that fails before any worker begins is not modelled.
- A pause set by another worker after a pause reading of zero is not seen by the send that follows, in
  the model as in the code; freshness of the reading is not claimed.
- Trace output, message texts, markup construction and file resolution of the responder; error
  messages; the failure of the acknowledgement call itself, which the original swallows.
- `Number(messageId)` in edits and the conversion of returned message ids to text: ids are text.
- The other methods of the responder and the document sender: single calls with nothing to relate.
- The rest of `src/worker.ts`, the in-memory inbox of `src/bot/webhook.ts`, and the other scripts.
