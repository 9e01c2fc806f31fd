/** Delivery of one presented message through the Bot API, and a caller that retries it.

    `Ladder` says which API methods a message may fall through, in order. `Climb` is the reference
    reading of a delivery: try each in turn until one answers. The class performs the original's
    nested attempts in place and is proved to follow `Climb`. */
module TelegramResponder {

  import opened Results

  /** The API methods used. `SendKeyboard` is the follow-up `sendMessage` that carries the
      persistent keyboard. */
  datatype Method = EditMedia | EditText | EditCaption | SendDocument | SendPhoto | SendMessage | SendKeyboard

  /** How an API call ends: a result that may name a message; error 400 with "message is not
      modified"; another 400; 429; 500 and above; another API error; or no answer from the API. */
  datatype Outcome =
    | Delivered(id: Option<string>) | NotModified | BadRequest | RateLimited | ServerError | OtherRejection
    | Unreachable

  type Failure = o: Outcome | !o.Delivered? witness NotModified

  datatype Error = Retryable | Ambiguous | Rejected(outcome: Failure)

  type Answer = Result<Option<string>, Error>

  datatype Kind = MessageNotModified | NonEditableOrMissing | RateLimit | Transient | Permanent

  /** `messageId` is the message to edit, if any; `keyboard` that a persistent keyboard is pending;
      `canEditCaption` that the API object has `editMessageCaption`. */
  datatype Request = Request(
    document: bool, photo: bool, protectContent: bool, messageId: Option<string>, keyboard: bool, canEditCaption: bool)

  predicate IsSend(m: Method) {
    m.SendDocument? || m.SendPhoto? || m.SendMessage? || m.SendKeyboard?
  }

  predicate IsEdit(m: Method) {
    m.EditMedia? || m.EditText? || m.EditCaption?
  }

  /** A method that posts the presented message itself. */
  predicate IsPost(m: Method) {
    m.SendDocument? || m.SendPhoto? || m.SendMessage?
  }

  function ClassifyOutcome(o: Failure): Kind {
    match o
    case NotModified => MessageNotModified
    case BadRequest => NonEditableOrMissing
    case RateLimited => RateLimit
    case ServerError => Transient
    case Unreachable => Transient
    case OtherRejection => Permanent
  }

  /** The errors thrown by `CallTelegram` are classified again by whoever catches them; its own two
      are not API errors, so they read as transient. */
  function Classify(e: Error): Kind {
    match e
    case Retryable => Transient
    case Ambiguous => Transient
    case Rejected(o) => ClassifyOutcome(o)
  }

  function CallTelegram(m: Method, o: Outcome): Answer {
    if o.Delivered? then Ok(o.id)
    else if o.RateLimited? then Err(Retryable)
    else if IsSend(m) && o.Unreachable? then Err(Ambiguous)
    else if ClassifyOutcome(o).Transient? then Err(Retryable)
    else Err(Rejected(o))
  }

  // ----- The reference reading

  /** An empty message id reads as none. */
  predicate HasMessage(q: Request) {
    q.messageId.Some? && q.messageId.value != ""
  }

  predicate Editable(q: Request) {
    HasMessage(q) && !q.protectContent
  }

  /** What an edit that changed nothing leaves the caller owning. */
  function Unchanged(q: Request): Option<string> {
    if HasMessage(q) then q.messageId else None
  }

  function TextRungs(q: Request): (rungs: seq<Method>)
    ensures rungs != []
  {
    (if Editable(q) then [EditText] + if q.canEditCaption then [EditCaption] else [] else []) + [SendMessage]
  }

  function PhotoRungs(q: Request): (rungs: seq<Method>)
    ensures rungs != []
  {
    (if q.photo then [SendPhoto] else []) + TextRungs(q)
  }

  /** The API methods a request may fall through. Protected content is never edited. */
  function Ladder(q: Request): (rungs: seq<Method>)
    ensures rungs != []
  {
    if q.document then [SendDocument]
    else (if q.photo && Editable(q) then [EditMedia] else []) + PhotoRungs(q)
  }

  datatype Trace = Trace(calls: seq<Method>, answer: Answer)

  /** One rung: the call, the keyboard follow-up of a successful post, and the message a successful
      or needless edit leaves the caller owning. Outcome number `k` of the script answers first. */
  function Attempt(q: Request, m: Method, api: nat -> Outcome, k: nat): Trace {
    var first := CallTelegram(m, api(k));
    if IsEdit(m) then
      Trace([m], match first
                 case Ok(id) => Ok(if id.Some? then id else Unchanged(q))
                 case Err(e) => if Classify(e).MessageNotModified? then Ok(Unchanged(q)) else first)
    else if first.Ok? && q.keyboard then
      var followUp := CallTelegram(SendKeyboard, api(k + 1));
      Trace([m, SendKeyboard], if followUp.Ok? then first else followUp)
    else
      Trace([m], first)
  }

  /** Which errors of a rung send the delivery on to the next. The photo's also catches the errors
      of its keyboard follow-up. */
  predicate FallsThrough(m: Method, e: Error) {
    match m
    case EditMedia => Classify(e).NonEditableOrMissing?
    case EditText => Classify(e).NonEditableOrMissing?
    case EditCaption => Classify(e).NonEditableOrMissing?
    case SendPhoto => Classify(e).NonEditableOrMissing? || Classify(e).Permanent?
    case _ => false
  }

  function Climb(q: Request, rungs: seq<Method>, api: nat -> Outcome, k: nat): Trace
    requires rungs != []
  {
    var attempt := Attempt(q, rungs[0], api, k);
    if |rungs| > 1 && attempt.answer.Err? && FallsThrough(rungs[0], attempt.answer.error) then
      var rest := Climb(q, rungs[1..], api, k + |attempt.calls|);
      Trace(attempt.calls + rest.calls, rest.answer)
    else attempt
  }

  /** One step of a climb. */
  lemma ClimbStep(q: Request, rungs: seq<Method>, api: nat -> Outcome, k: nat)
    requires rungs != []
    ensures var t := Attempt(q, rungs[0], api, k);
            if |rungs| > 1 && t.answer.Err? && FallsThrough(rungs[0], t.answer.error) then
              var rest := Climb(q, rungs[1..], api, k + |t.calls|);
              Climb(q, rungs, api, k) == Trace(t.calls + rest.calls, rest.answer)
            else
              Climb(q, rungs, api, k) == t
  {
  }

  function Send(q: Request, api: nat -> Outcome, k: nat): Trace {
    Climb(q, Ladder(q), api, k)
  }

  /** A caller that sends at most `tries` times, and again only after a retryable error. */
  function SendWithRetries(q: Request, api: nat -> Outcome, k: nat, tries: nat): Trace
    requires tries > 0
    decreases tries
  {
    var first := Send(q, api, k);
    if tries > 1 && first.answer == Err(Retryable) then
      var rest := SendWithRetries(q, api, k + |first.calls|, tries - 1);
      Trace(first.calls + rest.calls, rest.answer)
    else first
  }

  /** How many calls posted the presented message. */
  function Posts(calls: seq<Method>, api: nat -> Outcome, k: nat): nat {
    if calls == [] then 0
    else (if IsPost(calls[0]) && api(k).Delivered? then 1 else 0) + Posts(calls[1..], api, k + 1)
  }

  lemma {:induction false} PostsOfTwo(a: seq<Method>, b: seq<Method>, api: nat -> Outcome, k: nat)
    ensures Posts(a + b, api, k) == Posts(a, api, k) + Posts(b, api, k + |a|)
  {
    if a == [] {
      assert a + b == b;
    } else {
      assert (a + b)[1..] == a[1..] + b;
      PostsOfTwo(a[1..], b, api, k + 1);
    }
  }

  // ----- One delivery

  /** The last rung, and only the last, posts unconditionally. */
  predicate ProperLadder(rungs: seq<Method>) {
    && rungs != []
    && (rungs[|rungs| - 1].SendDocument? || rungs[|rungs| - 1].SendMessage?)
    && forall j | 0 <= j < |rungs| - 1 :: IsEdit(rungs[j]) || rungs[j].SendPhoto?
  }

  lemma LadderIsProper(q: Request)
    ensures ProperLadder(Ladder(q))
  {
  }

  // ----- Which method follows which, by the request and the outcomes alone

  /** The method a delivery begins with. */
  function FirstMethod(q: Request): Method {
    var edits := q.messageId.Some? && q.messageId.value != "" && !q.protectContent;
    if q.document then SendDocument
    else if q.photo then (if edits then EditMedia else SendPhoto)
    else if edits then EditText
    else SendMessage
  }

  /** The method below another, for a message that is not a document. */
  function Below(q: Request, m: Method): Method {
    match m
    case EditMedia => SendPhoto
    case SendPhoto =>
      if q.messageId.Some? && q.messageId.value != "" && !q.protectContent then EditText else SendMessage
    case EditText => if q.canEditCaption then EditCaption else SendMessage
    case _ => SendMessage
  }

  /** A call that has ended. */
  datatype Ended = Ended(m: Method, o: Outcome)

  /** The call after one that ended, if any; `before` is the one before it. An edit gives way on
      another 400 only. A photo, or the keyboard behind it, gives way on that and on any other
      rejection except "not modified". */
  function Follow(q: Request, before: Option<Ended>, m: Method, o: Outcome): Option<Method> {
    match m
    case EditMedia => if o == BadRequest then Some(Below(q, m)) else None
    case EditText => if o == BadRequest then Some(Below(q, m)) else None
    case EditCaption => if o == BadRequest then Some(Below(q, m)) else None
    case SendPhoto =>
      if o.Delivered? then (if q.keyboard then Some(SendKeyboard) else None)
      else if o == BadRequest || o == OtherRejection then Some(Below(q, m))
      else None
    case SendKeyboard =>
      if before.Some? && before.value.m == SendPhoto && (o == BadRequest || o == OtherRejection) then
        Some(Below(q, SendPhoto))
      else None
    case SendDocument => if o.Delivered? && q.keyboard then Some(SendKeyboard) else None
    case SendMessage => if o.Delivered? && q.keyboard then Some(SendKeyboard) else None
  }

  /** How a call that ended in failure is reported. */
  function Report(m: Method, o: Failure): Error {
    match o
    case RateLimited => Retryable
    case ServerError => Retryable
    case Unreachable => if m in {EditMedia, EditText, EditCaption} then Retryable else Ambiguous
    case _ => Rejected(o)
  }

  /** The answer of a delivery whose last call was `m` and ended in `o`: the message posted, not the
      keyboard behind it; or the message edited, even if nothing changed. */
  function AnswerOf(q: Request, before: Option<Ended>, m: Method, o: Outcome): Answer {
    var own := if q.messageId == Some("") then None else q.messageId;
    match m
    case SendKeyboard =>
      if !o.Delivered? then Err(Report(m, o))
      else if before.Some? && before.value.o.Delivered? then Ok(before.value.o.id)
      else Ok(None)
    case SendDocument => if o.Delivered? then Ok(o.id) else Err(Report(m, o))
    case SendPhoto => if o.Delivered? then Ok(o.id) else Err(Report(m, o))
    case SendMessage => if o.Delivered? then Ok(o.id) else Err(Report(m, o))
    case _ =>
      if o.Delivered? then Ok(if o.id.Some? then o.id else own)
      else if o == NotModified then Ok(own)
      else Err(Report(m, o))
  }

  /** Each call is the one that follows the call before it, and the answer that of the last call. */
  predicate IsDelivered(q: Request, before: Option<Ended>, t: Trace, api: nat -> Outcome, k: nat)
    decreases |t.calls|
  {
    && t.calls != []
    && var m, o := t.calls[0], api(k);
       match Follow(q, before, m, o)
       case None => |t.calls| == 1 && t.answer == AnswerOf(q, before, m, o)
       case Some(next) =>
         && |t.calls| > 1 && t.calls[1] == next
         && IsDelivered(q, Some(Ended(m, o)), Trace(t.calls[1..], t.answer), api, k + 1)
  }

  /** Each rung is the one below the one before it. */
  predicate RungsFit(q: Request, rungs: seq<Method>) {
    && ProperLadder(rungs)
    && forall j | 0 < j < |rungs| :: rungs[j] == Below(q, rungs[j - 1]) && !rungs[j].SendKeyboard?
  }

  lemma FitOne(q: Request, m: Method)
    requires m.SendDocument? || m.SendMessage?
    ensures RungsFit(q, [m])
  {
  }

  lemma FitAbove(q: Request, m: Method, rungs: seq<Method>)
    requires RungsFit(q, rungs) && rungs[0] == Below(q, m) && !rungs[0].SendKeyboard? && (IsEdit(m) || m.SendPhoto?)
    ensures RungsFit(q, [m] + rungs) && ([m] + rungs)[0] == m
  {
    hide Below;
    var all := [m] + rungs;
    assert forall j | 0 < j < |all| :: all[j] == rungs[j - 1];
  }

  lemma TextFits(q: Request)
    ensures RungsFit(q, TextRungs(q))
    ensures TextRungs(q)[0] == if q.messageId.Some? && q.messageId.value != "" && !q.protectContent then EditText
                               else SendMessage
  {
    hide RungsFit;
    FitOne(q, SendMessage);
    if Editable(q) && q.canEditCaption {
      FitAbove(q, EditCaption, [SendMessage]);
      FitAbove(q, EditText, [EditCaption] + [SendMessage]);
      assert TextRungs(q) == [EditText] + ([EditCaption] + [SendMessage]);
    } else if Editable(q) {
      FitAbove(q, EditText, [SendMessage]);
      assert TextRungs(q) == [EditText] + [SendMessage];
    } else {
      assert TextRungs(q) == [SendMessage];
    }
  }

  lemma LadderFits(q: Request)
    ensures RungsFit(q, Ladder(q)) && Ladder(q)[0] == FirstMethod(q)
  {
    hide RungsFit, TextRungs;
    TextFits(q);
    if q.document {
      FitOne(q, SendDocument);
    } else if q.photo {
      FitAbove(q, SendPhoto, TextRungs(q));
      if Editable(q) {
        FitAbove(q, EditMedia, [SendPhoto] + TextRungs(q));
      } else {
        assert Ladder(q) == [SendPhoto] + TextRungs(q);
      }
    } else {
      assert Ladder(q) == TextRungs(q);
    }
  }

  /** A delivery does not depend on what came before, unless it begins with a keyboard. */
  lemma AnyBefore(q: Request, before: Option<Ended>, t: Trace, api: nat -> Outcome, k: nat)
    requires IsDelivered(q, None, t, api, k) && !t.calls[0].SendKeyboard?
    ensures IsDelivered(q, before, t, api, k)
  {
  }

  /** A rung that is the last, or does not give way, ends the delivery. */
  lemma RungEnds(q: Request, m: Method, api: nat -> Outcome, k: nat)
    requires !m.SendKeyboard?
    ensures var t := Attempt(q, m, api, k);
            !(t.answer.Err? && FallsThrough(m, t.answer.error)) ==> IsDelivered(q, None, t, api, k)
  {
    var t := Attempt(q, m, api, k);
    if |t.calls| == 2 {
      assert t.calls[1..] == [SendKeyboard];
    }
  }

  lemma GivesWay(q: Request, m: Method, api: nat -> Outcome, k: nat)
    requires var t := Attempt(q, m, api, k); !m.SendKeyboard? && t.answer.Err? && FallsThrough(m, t.answer.error)
    ensures var calls, first := Attempt(q, m, api, k).calls, Follow(q, None, m, api(k));
            || (calls == [m] && first == Some(Below(q, m)))
            || (calls == [m, SendKeyboard] && first == Some(SendKeyboard)
                && Follow(q, Some(Ended(m, api(k))), SendKeyboard, api(k + 1)) == Some(Below(q, m)))
  {
  }

  lemma CallBefore(q: Request, before: Option<Ended>, m: Method, t: Trace, api: nat -> Outcome, k: nat)
    requires t.calls != [] && Follow(q, before, m, api(k)) == Some(t.calls[0])
    requires IsDelivered(q, Some(Ended(m, api(k))), t, api, k + 1)
    ensures IsDelivered(q, before, Trace([m] + t.calls, t.answer), api, k)
  {
    hide Follow, AnswerOf;
    assert ([m] + t.calls)[1..] == t.calls;
  }

  /** A rung that gives way is followed by the rung below. */
  lemma RungGivesWay(q: Request, m: Method, rest: Trace, api: nat -> Outcome, k: nat)
    requires var t := Attempt(q, m, api, k);
             && !m.SendKeyboard? && t.answer.Err? && FallsThrough(m, t.answer.error)
             && IsDelivered(q, None, rest, api, k + |t.calls|)
             && rest.calls[0] == Below(q, m) && !rest.calls[0].SendKeyboard?
    ensures IsDelivered(q, None, Trace(Attempt(q, m, api, k).calls + rest.calls, rest.answer), api, k)
  {
    GivesWay(q, m, api, k);
    hide Attempt, Follow, FallsThrough, AnswerOf, IsDelivered, Below;
    var calls := Attempt(q, m, api, k).calls;
    if |calls| == 1 {
      AnyBefore(q, Some(Ended(m, api(k))), rest, api, k + 1);
      CallBefore(q, None, m, rest, api, k);
      assert calls == [m];
    } else {
      AnyBefore(q, Some(Ended(SendKeyboard, api(k + 1))), rest, api, k + 2);
      CallBefore(q, Some(Ended(m, api(k))), SendKeyboard, rest, api, k + 1);
      CallBefore(q, None, m, Trace([SendKeyboard] + rest.calls, rest.answer), api, k);
      assert calls + rest.calls == [m] + ([SendKeyboard] + rest.calls);
    }
  }

  lemma {:induction false} ClimbIsDelivered(q: Request, rungs: seq<Method>, api: nat -> Outcome, k: nat)
    requires RungsFit(q, rungs) && !rungs[0].SendKeyboard?
    ensures var t := Climb(q, rungs, api, k); IsDelivered(q, None, t, api, k) && t.calls[0] == rungs[0]
  {
    hide *;
    FitRest(q, rungs);
    ClimbStep(q, rungs, api, k);
    var t := Attempt(q, rungs[0], api, k);
    AttemptBegins(q, rungs[0], api, k);
    if t.answer.Err? && FallsThrough(rungs[0], t.answer.error) {
      var rest := Climb(q, rungs[1..], api, k + |t.calls|);
      ClimbIsDelivered(q, rungs[1..], api, k + |t.calls|);
      RungGivesWay(q, rungs[0], rest, api, k);
    } else {
      RungEnds(q, rungs[0], api, k);
    }
  }

  lemma AttemptBegins(q: Request, m: Method, api: nat -> Outcome, k: nat)
    ensures var t := Attempt(q, m, api, k); t.calls != [] && t.calls[0] == m
  {
  }

  /** Only a last rung never gives way. */
  lemma FitRest(q: Request, rungs: seq<Method>)
    requires RungsFit(q, rungs)
    ensures rungs != []
    ensures |rungs| > 1 ==> rungs[1] == Below(q, rungs[0]) && RungsFit(q, rungs[1..]) && !rungs[1].SendKeyboard?
    ensures |rungs| == 1 ==> forall e :: !FallsThrough(rungs[0], e)
  {
  }

  /** Every call of every delivery, and its answer, from the request and the outcomes alone. */
  lemma DeliveryWalks(q: Request, api: nat -> Outcome, k: nat)
    ensures var t := Send(q, api, k); IsDelivered(q, None, t, api, k) && t.calls[0] == FirstMethod(q)
  {
    LadderFits(q);
    ClimbIsDelivered(q, Ladder(q), api, k);
  }

  /** A document is sent as a document, with its keyboard behind it, and as nothing else. */
  lemma DocumentIsSent(q: Request, api: nat -> Outcome, k: nat)
    requires q.document
    ensures Send(q, api, k).calls
            == if api(k).Delivered? && q.keyboard then [SendDocument, SendKeyboard] else [SendDocument]
  {
  }

  lemma AttemptPosts(q: Request, m: Method, api: nat -> Outcome, k: nat)
    requires !m.SendKeyboard?
    ensures var t := Attempt(q, m, api, k);
            Posts(t.calls, api, k) == if IsPost(m) && api(k).Delivered? then 1 else 0
  {
    var t := Attempt(q, m, api, k);
    if |t.calls| == 2 {
      assert t.calls[1..] == [SendKeyboard];
      assert Posts([SendKeyboard], api, k + 1) == 0;
    } else {
      assert t.calls[1..] == [];
    }
  }

  lemma PlainAttemptPosts(q: Request, m: Method, api: nat -> Outcome, k: nat)
    requires !m.SendKeyboard? && !q.keyboard
    ensures var t := Attempt(q, m, api, k);
            t.calls == [m] && PostsAsAnswered(t, api, k) && (t.answer.Err? ==> Posts(t.calls, api, k) == 0)
  {
    AttemptPosts(q, m, api, k);
  }

  /** A failure has posted nothing; a success has posted once, or else ended on an edit. */
  predicate PostsAsAnswered(t: Trace, api: nat -> Outcome, k: nat) {
    t.calls != [] && Posts(t.calls, api, k) == if t.answer.Ok? && IsPost(t.calls[|t.calls| - 1]) then 1 else 0
  }

  lemma PostsAfter(calls: seq<Method>, rest: Trace, api: nat -> Outcome, k: nat)
    requires Posts(calls, api, k) == 0 && PostsAsAnswered(rest, api, k + |calls|)
    ensures PostsAsAnswered(Trace(calls + rest.calls, rest.answer), api, k)
  {
    PostsOfTwo(calls, rest.calls, api, k);
    hide Posts;
    assert (calls + rest.calls)[|calls + rest.calls| - 1] == rest.calls[|rest.calls| - 1];
  }

  lemma ProperRest(rungs: seq<Method>)
    requires ProperLadder(rungs)
    ensures rungs != [] && !rungs[0].SendKeyboard?
    ensures |rungs| > 1 ==> ProperLadder(rungs[1..])
  {
  }

  lemma {:induction false} ClimbPosts(q: Request, rungs: seq<Method>, api: nat -> Outcome, k: nat)
    requires ProperLadder(rungs) && !q.keyboard
    ensures PostsAsAnswered(Climb(q, rungs, api, k), api, k)
  {
    hide *;
    ProperRest(rungs);
    PlainAttemptPosts(q, rungs[0], api, k);
    ClimbStep(q, rungs, api, k);
    var attempt := Attempt(q, rungs[0], api, k);
    if |rungs| > 1 && attempt.answer.Err? && FallsThrough(rungs[0], attempt.answer.error) {
      ClimbPosts(q, rungs[1..], api, k + |attempt.calls|);
      PostsAfter(attempt.calls, Climb(q, rungs[1..], api, k + |attempt.calls|), api, k);
    }
  }

  lemma PostsBound(t: Trace, api: nat -> Outcome, k: nat)
    requires PostsAsAnswered(t, api, k)
    ensures Posts(t.calls, api, k) <= 1 && (t.answer.Err? ==> Posts(t.calls, api, k) == 0)
  {
  }

  /** One step of a run of retries. */
  lemma RetryStep(q: Request, api: nat -> Outcome, k: nat, tries: nat)
    requires tries > 0
    ensures var first := Send(q, api, k);
            if tries > 1 && first.answer == Err(Retryable) then
              var rest := SendWithRetries(q, api, k + |first.calls|, tries - 1);
              SendWithRetries(q, api, k, tries) == Trace(first.calls + rest.calls, rest.answer)
            else
              SendWithRetries(q, api, k, tries) == first
  {
    hide Send;
  }

  lemma SendPosts(q: Request, api: nat -> Outcome, k: nat)
    requires !q.keyboard
    ensures PostsAsAnswered(Send(q, api, k), api, k)
  {
    LadderIsProper(q);
    ClimbPosts(q, Ladder(q), api, k);
  }

  /** A caller that retries only retryable errors never posts the message twice, provided no
      persistent keyboard is pending. */
  lemma {:induction false} AtMostOnePost(q: Request, api: nat -> Outcome, k: nat, tries: nat)
    requires tries > 0 && !q.keyboard
    ensures Posts(SendWithRetries(q, api, k, tries).calls, api, k) <= 1
    decreases tries
  {
    hide *;
    SendPosts(q, api, k);
    RetryStep(q, api, k, tries);
    var first := Send(q, api, k);
    PostsBound(first, api, k);
    if tries > 1 && first.answer == Err(Retryable) {
      AtMostOnePost(q, api, k + |first.calls|, tries - 1);
      PostsOfTwo(first.calls, SendWithRetries(q, api, k + |first.calls|, tries - 1).calls, api, k);
    }
  }

  // ----- With a keyboard pending

  /** A script that rejects every rung but the last, posts on it and rate-limits the keyboard. */
  ghost predicate KeyboardLimited(api: nat -> Outcome, k: nat, length: nat) {
    && length > 0
    && (forall j: nat | k <= j < k + length - 1 :: api(j) == BadRequest)
    && api(k + length - 1) == Delivered(None) && api(k + length) == RateLimited
  }

  lemma LastRungPosts(q: Request, m: Method, api: nat -> Outcome, k: nat)
    requires (m.SendDocument? || m.SendMessage?) && q.keyboard && api(k) == Delivered(None) && api(k + 1) == RateLimited
    ensures Climb(q, [m], api, k) == Trace([m, SendKeyboard], Err(Retryable))
    ensures Posts([m, SendKeyboard], api, k) == 1
  {
    AttemptPosts(q, m, api, k);
  }

  lemma RejectedRungFalls(q: Request, rungs: seq<Method>, api: nat -> Outcome, k: nat)
    requires |rungs| > 1 && (IsEdit(rungs[0]) || rungs[0].SendPhoto?) && api(k) == BadRequest
    ensures var rest := Climb(q, rungs[1..], api, k + 1);
            Climb(q, rungs, api, k) == Trace([rungs[0]] + rest.calls, rest.answer)
    ensures Posts([rungs[0]], api, k) == 0
  {
    assert Attempt(q, rungs[0], api, k) == Trace([rungs[0]], Err(Rejected(BadRequest)));
    assert [rungs[0]][1..] == [];
  }

  lemma {:induction false} ClimbToTheTop(q: Request, rungs: seq<Method>, api: nat -> Outcome, k: nat)
    requires ProperLadder(rungs) && q.keyboard && KeyboardLimited(api, k, |rungs|)
    ensures Climb(q, rungs, api, k) == Trace(rungs + [SendKeyboard], Err(Retryable))
    ensures Posts(rungs + [SendKeyboard], api, k) == 1
  {
    hide Climb, Posts;
    if |rungs| == 1 {
      LastRungPosts(q, rungs[0], api, k);
      assert rungs == [rungs[0]];
      assert rungs + [SendKeyboard] == [rungs[0], SendKeyboard];
    } else {
      RejectedRungFalls(q, rungs, api, k);
      ClimbToTheTop(q, rungs[1..], api, k + 1);
      assert [rungs[0]] + (rungs[1..] + [SendKeyboard]) == rungs + [SendKeyboard];
      PostsOfTwo([rungs[0]], rungs[1..] + [SendKeyboard], api, k);
    }
  }

  lemma SecondTry(q: Request, api: nat -> Outcome, k: nat)
    requires Send(q, api, k).answer == Err(Retryable)
    ensures var first := Send(q, api, k);
            SendWithRetries(q, api, k, 2).calls == first.calls + Send(q, api, k + |first.calls|).calls
  {
    hide Send;
    var first := Send(q, api, k);
    assert SendWithRetries(q, api, k + |first.calls|, 1) == Send(q, api, k + |first.calls|);
  }

  /** With a keyboard pending two tries can post the message twice, whatever the request: the first
      posts it, its keyboard is rate-limited, and the error asks for the retry that posts it again. */
  lemma KeyboardDoublePost(q: Request) returns (api: nat -> Outcome)
    requires q.keyboard
    ensures Posts(SendWithRetries(q, api, 0, 2).calls, api, 0) == 2
  {
    LadderIsProper(q);
    var rungs := Ladder(q);
    var n := |rungs|;
    hide Ladder, Climb, Posts, ProperLadder, SendWithRetries;
    api := (j: nat) =>
      if j == n - 1 || j == 2 * n then Delivered(None)
      else if j == n || j == 2 * n + 1 then RateLimited
      else BadRequest;
    ClimbToTheTop(q, rungs, api, 0);
    ClimbToTheTop(q, rungs, api, n + 1);
    SecondTry(q, api, 0);
    PostsOfTwo(rungs + [SendKeyboard], rungs + [SendKeyboard], api, 0);
  }

  /** A rung falls through without having posted, unless it is a photo with a keyboard behind it. */
  lemma FallingRungPostsNothing(q: Request, m: Method, api: nat -> Outcome, k: nat)
    requires !m.SendKeyboard? && (q.keyboard ==> m != SendPhoto)
    ensures var t := Attempt(q, m, api, k);
            && Posts(t.calls, api, k) <= 1
            && (t.answer.Err? && FallsThrough(m, t.answer.error) ==> Posts(t.calls, api, k) == 0)
  {
    AttemptPosts(q, m, api, k);
  }

  lemma {:induction false} ClimbPostsOnce(q: Request, rungs: seq<Method>, api: nat -> Outcome, k: nat)
    requires ProperLadder(rungs) && (q.keyboard ==> SendPhoto !in rungs)
    ensures Posts(Climb(q, rungs, api, k).calls, api, k) <= 1
  {
    hide *;
    ProperRest(rungs);
    FallingRungPostsNothing(q, rungs[0], api, k);
    ClimbStep(q, rungs, api, k);
    var attempt := Attempt(q, rungs[0], api, k);
    if |rungs| > 1 && attempt.answer.Err? && FallsThrough(rungs[0], attempt.answer.error) {
      ClimbPostsOnce(q, rungs[1..], api, k + |attempt.calls|);
      PostsOfTwo(attempt.calls, Climb(q, rungs[1..], api, k + |attempt.calls|).calls, api, k);
    }
  }

  /** One delivery alone posts at most once, except a photo with a keyboard pending. */
  lemma SinglePost(q: Request, api: nat -> Outcome, k: nat)
    requires !(q.keyboard && q.photo && !q.document)
    ensures Posts(Send(q, api, k).calls, api, k) <= 1
  {
    LadderIsProper(q);
    ClimbPostsOnce(q, Ladder(q), api, k);
  }

  lemma PhotoThenTextFrom(q: Request, api: nat -> Outcome, k: nat)
    requires q.keyboard && q.photo
    requires api(k) == Delivered(None) && api(k + 1) == BadRequest && KeyboardLimited(api, k + 2, |TextRungs(q)|)
    ensures Posts(Climb(q, PhotoRungs(q), api, k).calls, api, k) == 2
  {
    var rungs := TextRungs(q);
    assert ProperLadder(rungs);
    ClimbToTheTop(q, rungs, api, k + 2);
    AttemptPosts(q, SendPhoto, api, k);
    assert PhotoRungs(q)[1..] == rungs;
    hide TextRungs, KeyboardLimited, Posts;
    assert Attempt(q, SendPhoto, api, k).calls == [SendPhoto, SendKeyboard];
    assert Climb(q, PhotoRungs(q), api, k).calls == [SendPhoto, SendKeyboard] + (rungs + [SendKeyboard]);
    PostsOfTwo([SendPhoto, SendKeyboard], rungs + [SendKeyboard], api, k);
  }

  /** A posted photo whose keyboard follow-up is rejected is taken for a rejected photo, and the
      text is posted as well, within the one delivery. */
  lemma PhotoThenText(q: Request) returns (api: nat -> Outcome)
    requires q.keyboard && q.photo && !q.document
    ensures Posts(Send(q, api, 0).calls, api, 0) == 2
  {
    // The photo is outcome p, its keyboard p + 1, and the text that follows starts at p + 2.
    var p := if Editable(q) then 1 else 0;
    var n := p + 2 + |TextRungs(q)|;
    api := (j: nat) => if j == p || j == n - 1 then Delivered(None) else if j == n then RateLimited else BadRequest;
    hide Climb, Posts, TextRungs;
    PhotoThenTextFrom(q, api, p);
    hide PhotoRungs;
    if p == 1 {
      assert Ladder(q)[1..] == PhotoRungs(q);
      RejectedRungFalls(q, Ladder(q), api, 0);
      PostsOfTwo([EditMedia], Climb(q, PhotoRungs(q), api, 1).calls, api, 0);
    } else {
      assert Ladder(q) == PhotoRungs(q);
    }
  }

  // ----- Ambiguity, protection, identity

  /** A send whose outcome is unknown. */
  predicate Unknown(m: Method, o: Outcome) {
    IsSend(m) && o.Unreachable?
  }

  predicate NoneUnknown(calls: seq<Method>, api: nat -> Outcome, k: nat) {
    forall j | 0 <= j < |calls| :: !Unknown(calls[j], api(k + j))
  }

  /** Nothing is called after a send whose outcome is unknown. */
  predicate UnknownIsLast(calls: seq<Method>, api: nat -> Outcome, k: nat) {
    forall j | 0 <= j < |calls| - 1 :: !Unknown(calls[j], api(k + j))
  }

  lemma UnknownOfTwo(a: seq<Method>, b: seq<Method>, api: nat -> Outcome, k: nat)
    requires NoneUnknown(a, api, k) && UnknownIsLast(b, api, k + |a|) && b != []
    ensures a + b != [] && UnknownIsLast(a + b, api, k)
    ensures NoneUnknown(b, api, k + |a|) ==> NoneUnknown(a + b, api, k)
  {
    forall j | 0 <= j < |a + b| && (j < |a + b| - 1 || NoneUnknown(b, api, k + |a|))
      ensures !Unknown((a + b)[j], api(k + j))
    {
      if j < |a| {
        assert (a + b)[j] == a[j];
      } else {
        assert (a + b)[j] == b[j - |a|];
        assert !Unknown(b[j - |a|], api(k + |a| + (j - |a|)));
      }
    }
  }

  lemma AttemptUnknown(q: Request, m: Method, api: nat -> Outcome, k: nat)
    ensures var t := Attempt(q, m, api, k);
            && t.calls != [] && UnknownIsLast(t.calls, api, k)
            && (t.answer != Err(Ambiguous) ==> NoneUnknown(t.calls, api, k))
            && !FallsThrough(m, Ambiguous)
  {
    assert api(k + 0) == api(k);
  }

  lemma {:induction false} ClimbStopsOnUnknown(q: Request, rungs: seq<Method>, api: nat -> Outcome, k: nat)
    requires rungs != []
    ensures var t := Climb(q, rungs, api, k);
            && t.calls != [] && UnknownIsLast(t.calls, api, k)
            && (t.answer != Err(Ambiguous) ==> NoneUnknown(t.calls, api, k))
  {
    hide *;
    AttemptUnknown(q, rungs[0], api, k);
    ClimbStep(q, rungs, api, k);
    var attempt := Attempt(q, rungs[0], api, k);
    if |rungs| > 1 && attempt.answer.Err? && FallsThrough(rungs[0], attempt.answer.error) {
      var next := k + |attempt.calls|;
      ClimbStopsOnUnknown(q, rungs[1..], api, next);
      UnknownOfTwo(attempt.calls, Climb(q, rungs[1..], api, next).calls, api, k);
    }
  }

  /** Over a whole run of retries, an unknown send outcome ends the run. */
  lemma {:induction false} NothingAfterAmbiguous(q: Request, api: nat -> Outcome, k: nat, tries: nat)
    requires tries > 0
    ensures var t := SendWithRetries(q, api, k, tries); t.calls != [] && UnknownIsLast(t.calls, api, k)
    decreases tries
  {
    ClimbStopsOnUnknown(q, Ladder(q), api, k);
    hide Climb, Ladder, UnknownIsLast, NoneUnknown;
    var first := Send(q, api, k);
    if tries > 1 && first.answer == Err(Retryable) {
      var next := k + |first.calls|;
      NothingAfterAmbiguous(q, api, next, tries - 1);
      UnknownOfTwo(first.calls, SendWithRetries(q, api, next, tries - 1).calls, api, k);
    }
  }

  lemma LadderHasNoKeyboard(q: Request)
    ensures SendKeyboard !in Ladder(q)
  {
  }

  /** The calls of a delivery without its keyboard follow-ups. */
  function WithoutKeyboards(calls: seq<Method>): seq<Method> {
    if calls == [] then []
    else (if calls[0].SendKeyboard? then [] else [calls[0]]) + WithoutKeyboards(calls[1..])
  }

  lemma {:induction false} WithoutKeyboardsOfTwo(a: seq<Method>, b: seq<Method>)
    ensures WithoutKeyboards(a + b) == WithoutKeyboards(a) + WithoutKeyboards(b)
  {
    if a == [] {
      assert a + b == b;
    } else {
      assert (a + b)[1..] == a[1..] + b;
      WithoutKeyboardsOfTwo(a[1..], b);
    }
  }

  lemma AttemptIsOneRung(q: Request, m: Method, api: nat -> Outcome, k: nat)
    requires !m.SendKeyboard?
    ensures WithoutKeyboards(Attempt(q, m, api, k).calls) == [m]
  {
    var t := Attempt(q, m, api, k);
    if |t.calls| == 2 {
      assert t.calls[1..] == [SendKeyboard];
      assert WithoutKeyboards([SendKeyboard]) == [];
    } else {
      assert t.calls[1..] == [];
    }
  }

  lemma PrefixGrows(rungs: seq<Method>, rest: seq<Method>)
    requires rungs != [] && rest <= rungs[1..]
    ensures [rungs[0]] + rest <= rungs
  {
    assert rungs == [rungs[0]] + rungs[1..];
  }

  /** A delivery walks a prefix of its ladder, so it calls each method at most once. */
  lemma {:induction false} ClimbIsPrefix(q: Request, rungs: seq<Method>, api: nat -> Outcome, k: nat)
    requires rungs != [] && SendKeyboard !in rungs
    ensures WithoutKeyboards(Climb(q, rungs, api, k).calls) <= rungs
  {
    hide *;
    AttemptIsOneRung(q, rungs[0], api, k);
    ClimbStep(q, rungs, api, k);
    var attempt := Attempt(q, rungs[0], api, k);
    if |rungs| > 1 && attempt.answer.Err? && FallsThrough(rungs[0], attempt.answer.error) {
      var rest := Climb(q, rungs[1..], api, k + |attempt.calls|);
      ClimbIsPrefix(q, rungs[1..], api, k + |attempt.calls|);
      WithoutKeyboardsOfTwo(attempt.calls, rest.calls);
      PrefixGrows(rungs, WithoutKeyboards(rest.calls));
    }
  }

  lemma {:induction false} KeptCalls(calls: seq<Method>, m: Method)
    requires m in calls && !m.SendKeyboard?
    ensures m in WithoutKeyboards(calls)
  {
    if calls[0] != m {
      KeptCalls(calls[1..], m);
    }
  }

  /** Protected content is never sent by an edit, over any number of tries. */
  lemma {:induction false} ProtectedNeverEdited(q: Request, api: nat -> Outcome, k: nat, tries: nat, m: Method)
    requires tries > 0 && q.protectContent && m in SendWithRetries(q, api, k, tries).calls
    ensures !IsEdit(m)
    decreases tries
  {
    var first := Send(q, api, k);
    if m in first.calls {
      if !m.SendKeyboard? {
        LadderHasNoKeyboard(q);
        ClimbIsPrefix(q, Ladder(q), api, k);
        KeptCalls(first.calls, m);
        assert m in Ladder(q);
      }
    } else {
      ProtectedNeverEdited(q, api, k + |first.calls|, tries - 1, m);
    }
  }

  predicate NamesEdited(t: Trace) {
    t.calls != [] && (t.answer.Ok? && IsEdit(t.calls[|t.calls| - 1]) ==> t.answer.value.Some?)
  }

  lemma AttemptNamesEdited(q: Request, m: Method, api: nat -> Outcome, k: nat)
    requires IsEdit(m) ==> HasMessage(q)
    ensures NamesEdited(Attempt(q, m, api, k))
  {
  }

  lemma NamesEditedAfter(calls: seq<Method>, rest: Trace)
    requires NamesEdited(rest)
    ensures NamesEdited(Trace(calls + rest.calls, rest.answer))
  {
    assert (calls + rest.calls)[|calls + rest.calls| - 1] == rest.calls[|rest.calls| - 1];
  }

  lemma {:induction false} ClimbNamesEdited(q: Request, rungs: seq<Method>, api: nat -> Outcome, k: nat)
    requires rungs != [] && (forall m | m in rungs && IsEdit(m) :: HasMessage(q))
    ensures NamesEdited(Climb(q, rungs, api, k))
  {
    hide *;
    AttemptNamesEdited(q, rungs[0], api, k);
    ClimbStep(q, rungs, api, k);
    var attempt := Attempt(q, rungs[0], api, k);
    if |rungs| > 1 && attempt.answer.Err? && FallsThrough(rungs[0], attempt.answer.error) {
      ClimbNamesEdited(q, rungs[1..], api, k + |attempt.calls|);
      NamesEditedAfter(attempt.calls, Climb(q, rungs[1..], api, k + |attempt.calls|));
    }
  }

  /** A delivery that ends on an edit always tells its caller which message it owns. */
  lemma OwnedMessageIsNamed(q: Request, api: nat -> Outcome, k: nat)
    ensures NamesEdited(Send(q, api, k))
  {
    ClimbNamesEdited(q, Ladder(q), api, k);
  }

  // ----- What the answer says

  /** The answer is decided by the last call and its outcome alone. */
  predicate AnsweredByLast(t: Trace, api: nat -> Outcome, k: nat) {
    && t.calls != []
    && var m, o := t.calls[|t.calls| - 1], api(k + |t.calls| - 1);
       && (t.answer.Ok? <==> o.Delivered? || (IsEdit(m) && o.NotModified?))
       && (t.answer == Err(Ambiguous) <==> IsSend(m) && o.Unreachable?)
       && (t.answer == Err(Retryable) <==> o.RateLimited? || o.ServerError? || (IsEdit(m) && o.Unreachable?))
  }

  lemma AttemptAnsweredByLast(q: Request, m: Method, api: nat -> Outcome, k: nat)
    ensures AnsweredByLast(Attempt(q, m, api, k), api, k)
  {
  }

  lemma AnsweredAfter(calls: seq<Method>, rest: Trace, api: nat -> Outcome, k: nat)
    requires AnsweredByLast(rest, api, k + |calls|)
    ensures AnsweredByLast(Trace(calls + rest.calls, rest.answer), api, k)
  {
    assert (calls + rest.calls)[|calls + rest.calls| - 1] == rest.calls[|rest.calls| - 1];
    assert k + |calls + rest.calls| - 1 == k + |calls| + |rest.calls| - 1;
  }

  lemma {:induction false} ClimbAnsweredByLast(q: Request, rungs: seq<Method>, api: nat -> Outcome, k: nat)
    requires rungs != []
    ensures AnsweredByLast(Climb(q, rungs, api, k), api, k)
  {
    hide *;
    AttemptAnsweredByLast(q, rungs[0], api, k);
    ClimbStep(q, rungs, api, k);
    var attempt := Attempt(q, rungs[0], api, k);
    if |rungs| > 1 && attempt.answer.Err? && FallsThrough(rungs[0], attempt.answer.error) {
      ClimbAnsweredByLast(q, rungs[1..], api, k + |attempt.calls|);
      AnsweredAfter(attempt.calls, Climb(q, rungs[1..], api, k + |attempt.calls|), api, k);
    }
  }

  /** A delivery succeeds, is ambiguous or asks for a retry exactly by how its last call ended. */
  lemma DeliveryAnsweredByLast(q: Request, api: nat -> Outcome, k: nat)
    ensures AnsweredByLast(Send(q, api, k), api, k)
  {
    ClimbAnsweredByLast(q, Ladder(q), api, k);
  }

  // ----- The object

  /** The calls made so far, and what is left of the ladder, make up the whole delivery. */
  ghost predicate OnTheWay(q: Request, api: nat -> Outcome, k: nat, climbed: seq<Method>, rungs: seq<Method>) {
    && rungs != []
    && var rest := Climb(q, rungs, api, k + |climbed|);
       Send(q, api, k) == Trace(climbed + rest.calls, rest.answer)
  }

  lemma AtTheFoot(q: Request, api: nat -> Outcome, k: nat)
    ensures OnTheWay(q, api, k, [], Ladder(q))
  {
    assert [] + Send(q, api, k).calls == Send(q, api, k).calls;
  }

  lemma RungDecides(q: Request, api: nat -> Outcome, k: nat, climbed: seq<Method>, rungs: seq<Method>)
    requires OnTheWay(q, api, k, climbed, rungs)
    requires var t := Attempt(q, rungs[0], api, k + |climbed|);
             |rungs| == 1 || t.answer.Ok? || !FallsThrough(rungs[0], t.answer.error)
    ensures var t := Attempt(q, rungs[0], api, k + |climbed|);
            Send(q, api, k) == Trace(climbed + t.calls, t.answer)
  {
  }

  lemma RungFalls(q: Request, api: nat -> Outcome, k: nat, climbed: seq<Method>, rungs: seq<Method>)
    requires OnTheWay(q, api, k, climbed, rungs)
    requires var t := Attempt(q, rungs[0], api, k + |climbed|);
             |rungs| > 1 && t.answer.Err? && FallsThrough(rungs[0], t.answer.error)
    ensures OnTheWay(q, api, k, climbed + Attempt(q, rungs[0], api, k + |climbed|).calls, rungs[1..])
  {
    hide Send, Attempt, FallsThrough;
    var t := Attempt(q, rungs[0], api, k + |climbed|);
    var rest := Climb(q, rungs[1..], api, k + |climbed| + |t.calls|);
    assert climbed + (t.calls + rest.calls) == climbed + t.calls + rest.calls;
  }

  /** The responder over a scripted API; `calls` is everything it has called. */
  class Responder {
    const api: nat -> Outcome
    var calls: seq<Method>

    constructor (api: nat -> Outcome)
      ensures this.api == api && calls == []
    {
      this.api := api;
      calls := [];
    }

    method Call(m: Method) returns (answer: Answer)
      modifies this
      ensures calls == old(calls) + [m]
      ensures answer == CallTelegram(m, api(|old(calls)|))
    {
      var outcome := api(|calls|);
      calls := calls + [m];
      answer := CallTelegram(m, outcome);
    }

    /** A post and, when it succeeds, the keyboard that rides behind it. */
    method Post(q: Request, m: Method) returns (answer: Answer)
      requires IsPost(m)
      modifies this
      ensures var t := Attempt(q, m, api, |old(calls)|); calls == old(calls) + t.calls && answer == t.answer
    {
      answer := Call(m);
      if answer.Err? {
        return;
      }
      if q.keyboard {
        var followUp := Call(SendKeyboard);
        if followUp.Err? {
          return followUp;
        }
      }
    }

    /** An edit; a success without a message id, or a needless edit, answers with the edited one. */
    method Edit(q: Request, m: Method) returns (answer: Answer)
      requires IsEdit(m)
      modifies this
      ensures var t := Attempt(q, m, api, |old(calls)|); calls == old(calls) + t.calls && answer == t.answer
    {
      answer := Call(m);
      if answer.Ok? {
        if answer.value.None? {
          answer := Ok(Unchanged(q));
        }
      } else if Classify(answer.error).MessageNotModified? {
        answer := Ok(Unchanged(q));
      }
    }

    /** The delivery begun after `start` has made the calls `made` and has `rungs` left. */
    ghost predicate Climbing(q: Request, start: seq<Method>, made: seq<Method>, rungs: seq<Method>)
      reads this
    {
      calls == start + made && OnTheWay(q, api, |start|, made, rungs)
    }

    ghost predicate Finished(q: Request, start: seq<Method>, answer: Answer)
      reads this
    {
      var t := Send(q, api, |start|);
      calls == start + t.calls && answer == t.answer
    }

    /** Try an edit; undecided when Telegram says there is nothing it can edit. */
    method TryEdit(q: Request, m: Method, ghost start: seq<Method>, ghost made: seq<Method>, ghost rungs: seq<Method>)
      returns (answer: Answer, decided: bool, ghost madeNow: seq<Method>)
      requires IsEdit(m) && |rungs| > 1 && rungs[0] == m && Climbing(q, start, made, rungs)
      modifies this
      ensures if decided then Finished(q, start, answer) else Climbing(q, start, madeNow, rungs[1..])
    {
      hide OnTheWay, Attempt, Send, Climb, Classify;
      ghost var t := Attempt(q, m, api, |start| + |made|);
      assert start + made + t.calls == start + (made + t.calls);
      answer := Edit(q, m);
      madeNow := made + t.calls;
      decided := answer.Ok? || !Classify(answer.error).NonEditableOrMissing?;
      if decided {
        RungDecides(q, api, |start|, made, rungs);
      } else {
        RungFalls(q, api, |start|, made, rungs);
      }
    }

    /** Try a photo; undecided when Telegram rejects it for good. */
    method TryPhoto(q: Request, ghost start: seq<Method>, ghost made: seq<Method>, ghost rungs: seq<Method>)
      returns (answer: Answer, decided: bool, ghost madeNow: seq<Method>)
      requires |rungs| > 1 && rungs[0] == SendPhoto && Climbing(q, start, made, rungs)
      modifies this
      ensures if decided then Finished(q, start, answer) else Climbing(q, start, madeNow, rungs[1..])
    {
      hide OnTheWay, Attempt, Send, Climb;
      ghost var t := Attempt(q, SendPhoto, api, |start| + |made|);
      assert start + made + t.calls == start + (made + t.calls);
      answer := Post(q, SendPhoto);
      madeNow := made + t.calls;
      if answer.Ok? || answer.error.Retryable? || answer.error.Ambiguous? {
        decided := true;
      } else {
        decided := !Classify(answer.error).Permanent? && !Classify(answer.error).NonEditableOrMissing?;
      }
      if decided {
        RungDecides(q, api, |start|, made, rungs);
      } else {
        RungFalls(q, api, |start|, made, rungs);
      }
    }

    /** The last rung. */
    method PostLast(q: Request, m: Method, ghost start: seq<Method>, ghost made: seq<Method>) returns (answer: Answer)
      requires IsPost(m) && Climbing(q, start, made, [m])
      modifies this
      ensures Finished(q, start, answer)
    {
      hide OnTheWay, Attempt, Send, Climb;
      ghost var t := Attempt(q, m, api, |start| + |made|);
      assert start + made + t.calls == start + (made + t.calls);
      answer := Post(q, m);
      RungDecides(q, api, |start|, made, [m]);
    }

    /** `send`, after the callback's acknowledgement. */
    method Deliver(q: Request) returns (answer: Answer)
      modifies this
      ensures Finished(q, old(calls), answer)
    {
      ghost var start, made, rungs := calls, [], Ladder(q);
      var decided: bool;
      AtTheFoot(q, api, |start|);
      assert calls == start + made;
      hide OnTheWay, Finished;
      if q.document {
        answer := PostLast(q, SendDocument, start, made);
        return;
      }
      if q.photo && HasMessage(q) && !q.protectContent {
        answer, decided, made := TryEdit(q, EditMedia, start, made, rungs);
        if decided {
          return;
        }
        rungs := rungs[1..];
      }
      assert rungs == PhotoRungs(q);
      if q.photo {
        answer, decided, made := TryPhoto(q, start, made, rungs);
        if decided {
          return;
        }
        rungs := rungs[1..];
      }
      assert rungs == TextRungs(q);
      if HasMessage(q) && !q.protectContent {
        answer, decided, made := TryEdit(q, EditText, start, made, rungs);
        if decided {
          return;
        }
        rungs := rungs[1..];
        if q.canEditCaption {
          answer, decided, made := TryEdit(q, EditCaption, start, made, rungs);
          if decided {
            return;
          }
          rungs := rungs[1..];
        }
      }
      assert rungs == [SendMessage];
      answer := PostLast(q, SendMessage, start, made);
    }
  }
}
