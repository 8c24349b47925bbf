/**
 * The bill-splitting session of both pages (src/app/app/page.tsx and
 * src/app/page.tsx) as one state record and pure transitions. Each
 * transition returns the next state; a refused action returns the state it
 * was given. Network replies are parameters.
 */
module Session {
  import opened Wrappers
  import opened Receipts
  import opened Ledgers
  import opened People
  import opened Split

  /** `activeStep`: 0 upload, 1 receipt details, 2 split options, 3 result. */
  datatype Step = Upload | Details | SplitOptions | Result {
    function Index(): nat {
      match this
      case Upload => 0
      case Details => 1
      case SplitOptions => 2
      case Result => 3
    }
  }

  /** A pending edit of one receipt line (`editedItems[index]`). */
  datatype Edit = Edit(name: string, price: real)

  /**
   * What `fetch('/api/extract-receipt')` yields: no response at all (network
   * failure or a body that is not JSON), or a response with its `ok` flag and
   * its parsed body.
   */
  datatype ExtractionReply = ExtractionUnreachable | ExtractionResponse(ok: bool, body: Option<RawReceipt>)

  /** What `fetch('/api/suggest-split')` yields; the text is absent when the body has no `suggestedSplit`. */
  datatype SuggestionReply = SuggestionUnreachable | SuggestionResponse(ok: bool, text: Option<string>)

  datatype Session = Session(
    step: Step,
    receipt: Option<Receipt>,
    suggestedSplit: Option<string>,
    image: Option<string>,
    people: seq<Person>,
    ledger: Ledger,
    advancedDone: bool,
    extracted: bool,
    editing: Option<int>,
    edits: map<int, Edit>,
    hasSplitBill: bool,
    user: bool,
    showOnlyResult: bool)

  /** The receipt's lines, or none when there is no receipt. */
  function Items(s: Session): seq<Item> {
    if s.receipt.Some? then s.receipt.value.items else []
  }

  /**
   * The state on page load; `usedBefore` is the stored `hasUsedSplitBill`
   * flag, `user` the auth state. It satisfies the session invariant, and it
   * is one the redirect effect leaves at once exactly when the visitor is
   * anonymous and has used the app before.
   */
  function Initial(user: bool, usedBefore: bool): (s: Session)
    ensures Valid(s)
    ensures SignInRequired(s) <==> !user && usedBefore
  {
    Session(Upload, None, None, None, [], Ledger([], map[]), false, false, None, map[], usedBefore, user, false)
  }

  /** An anonymous visitor who has already split one bill must sign in first. */
  predicate SignInRequired(s: Session) {
    !s.user && s.hasSplitBill
  }

  /** The receipt an extraction reply delivers, if the response is ok and passes the client check. */
  function Extracted(reply: ExtractionReply): Option<Receipt> {
    match reply
    case ExtractionUnreachable => None
    case ExtractionResponse(ok, body) => if ok then ClientAccept(body) else None
  }

  /**
   * `onSubmit` of the root page. Refused outright when sign-in is required.
   * Otherwise the people are created first; with no image that is all.
   * A delivered receipt installs a fresh ledger and moves to the details
   * step (and marks an anonymous visitor as having used the app); any other
   * reply clears the receipt and returns to the upload step, keeping the
   * ledger.
   */
  function Submit(s: Session, n: nat, reply: ExtractionReply): (t: Session)
    ensures SignInRequired(s) ==> t == s
    ensures !SignInRequired(s) ==> t.people == InitPeople(n)
    ensures !SignInRequired(s) && s.image.None? ==> t == s.(people := InitPeople(n))
    ensures !SignInRequired(s) && s.image.Some? && Extracted(reply).None? ==>
              t == s.(people := InitPeople(n), receipt := None, step := Upload)
    ensures !SignInRequired(s) && s.image.Some? && Extracted(reply).Some? ==>
              && t.receipt == Extracted(reply)
              && t.step == Details
              && t.ledger.entries == []
              && (forall i :: i in t.ledger.remaining <==> 0 <= i < |Items(t)|)
              && (forall i :: 0 <= i < |Items(t)| ==> t.ledger.remaining[i] == Items(t)[i].quantity as real)
              && !t.advancedDone && t.extracted
              && t.hasSplitBill == (s.hasSplitBill || !s.user)
              && t.user == s.user && t.image == s.image && t.suggestedSplit == s.suggestedSplit
              && t.editing == s.editing && t.edits == s.edits && t.showOnlyResult == s.showOnlyResult
  {
    if SignInRequired(s) then s
    else
      var s1 := s.(people := InitPeople(n));
      if s.image.None? then s1
      else
        match Extracted(reply)
        case None => s1.(receipt := None, step := Upload)
        case Some(r) =>
          s1.(receipt := Some(r),
              ledger := Fresh(Quantities(r.items)),
              advancedDone := false,
              extracted := true,
              hasSplitBill := s.hasSplitBill || !s.user,
              step := Details)
  }

  /** `onSubmit` of the app page: a failed reCAPTCHA check refuses before anything else. */
  function SubmitVerified(s: Session, captchaToken: bool, n: nat, reply: ExtractionReply): (t: Session)
    ensures !captchaToken ==> t == s
    ensures captchaToken ==> t == Submit(s, n, reply)
  {
    if !captchaToken then s else Submit(s, n, reply)
  }

  /** `onSuggestSplit` of the app page: needs a receipt and an ok response. */
  function SuggestChecked(s: Session, reply: SuggestionReply): (t: Session)
    ensures s.receipt.None? || reply.SuggestionUnreachable? || !reply.ok ==> t == s
    ensures s.receipt.Some? && reply.SuggestionResponse? && reply.ok ==>
              t == s.(suggestedSplit := reply.text, showOnlyResult := true, step := Result)
  {
    if s.receipt.None? then s
    else
      match reply
      case SuggestionUnreachable => s
      case SuggestionResponse(ok, text) =>
        if !ok then s else s.(suggestedSplit := text, showOnlyResult := true, step := Result)
  }

  /** `onSuggestSplit` of the root page: any response body is shown, whatever its status. */
  function SuggestUnchecked(s: Session, reply: SuggestionReply): (t: Session)
    ensures s.receipt.None? || reply.SuggestionUnreachable? ==> t == s
    ensures s.receipt.Some? && reply.SuggestionResponse? ==>
              t == s.(suggestedSplit := reply.text, showOnlyResult := true, step := Result)
  {
    if s.receipt.None? then s
    else
      match reply
      case SuggestionUnreachable => s
      case SuggestionResponse(_, text) => s.(suggestedSplit := text, showOnlyResult := true, step := Result)
  }

  /** `handleItemAssignment`: only the ledger changes, by Ledgers.Assign. */
  function AssignItem(s: Session, personId: int, itemId: int, quantity: int): (t: Session)
    ensures t.ledger == Assign(s.ledger, personId, itemId, quantity)
    ensures t.(ledger := s.ledger) == s
  {
    s.(ledger := Assign(s.ledger, personId, itemId, quantity))
  }

  /**
   * A person's button on an item line is enabled only after a successful
   * extraction, before the split is marked done, and while the item has
   * units remaining.
   */
  predicate AssignEnabled(s: Session, itemId: int) {
    s.extracted && !s.advancedDone && itemId in s.ledger.remaining && s.ledger.remaining[itemId] > 0.0
  }

  /**
   * In a valid session with a receipt, an enabled person button sits on a
   * receipt line that still has units no one holds.
   */
  lemma EnabledLineHasRoom(s: Session, itemId: int)
    requires Valid(s) && s.receipt.Some? && AssignEnabled(s, itemId)
    ensures 0 <= itemId < |Items(s)|
    ensures AssignedQty(s.ledger.entries, itemId) < Items(s)[itemId].quantity as real
  {
  }

  /** `handleDone`: with no item left unassigned the split is marked done and step 2 shown; else nothing changes. */
  function MarkDone(s: Session): (t: Session)
    ensures AllAssigned(s.ledger.remaining) ==> t == s.(advancedDone := true, step := SplitOptions)
    ensures !AllAssigned(s.ledger.remaining) ==> t == s
  {
    if AllAssigned(s.ledger.remaining) then s.(advancedDone := true, step := SplitOptions) else s
  }

  /** `confirmAdvancedSplit`: the summary becomes the shown result. */
  function ConfirmAdvanced(s: Session): (t: Session)
    ensures t.suggestedSplit == Some(Summary(Items(s), s.ledger.entries, s.people))
    ensures t.showOnlyResult && t.step == Result
    ensures t.(suggestedSplit := s.suggestedSplit, showOnlyResult := s.showOnlyResult, step := s.step) == s
  {
    s.(suggestedSplit := Some(Summary(Items(s), s.ledger.entries, s.people)), showOnlyResult := true, step := Result)
  }

  /**
   * `handleStartOver`: back to the upload step with no receipt, result,
   * people, assignments, remaining units, flags or image. The sign-in state,
   * the used-once flag, the edit buffer and the result-only view are kept.
   */
  function StartOver(s: Session): (t: Session)
    ensures t.step == Upload && t.receipt.None? && t.suggestedSplit.None? && t.image.None?
    ensures t.people == [] && t.ledger.entries == [] && t.ledger.remaining == map[]
    ensures !t.advancedDone && !t.extracted
    ensures t.user == s.user && t.hasSplitBill == s.hasSplitBill && t.showOnlyResult == s.showOnlyResult
    ensures t.editing == s.editing && t.edits == s.edits
  {
    s.(step := Upload, receipt := None, suggestedSplit := None, people := [], ledger := Ledger([], map[]),
       advancedDone := false, extracted := false, image := None)
  }

  /** The result view's Start Over button: leaves the result-only view, then `handleStartOver`. */
  function StartOverFromResult(s: Session): Session {
    StartOver(s).(showOnlyResult := false)
  }

  /** Whatever the prior state, Start Over depends only on what it keeps. */
  lemma StartOverForgets(s1: Session, s2: Session)
    requires s1.user == s2.user && s1.hasSplitBill == s2.hasSplitBill && s1.showOnlyResult == s2.showOnlyResult
    requires s1.editing == s2.editing && s1.edits == s2.edits
    ensures StartOver(s1) == StartOver(s2)
  {
  }

  /** From the result view, Start Over is the page-load state apart from the edit buffer it does not clear. */
  lemma StartOverFromResultIsInitial(s: Session)
    ensures StartOverFromResult(s) == Initial(s.user, s.hasSplitBill).(editing := s.editing, edits := s.edits)
  {
  }

  /**
   * `handleEditItem`: the item enters edit mode, and its buffer is seeded
   * from the receipt (or empty values without one) unless a buffer already
   * exists. Seeding from an index past the receipt's lines throws in the
   * source; that case is left unchanged here.
   */
  function EditItem(s: Session, index: int): (t: Session)
    ensures Valid(s) ==> Valid(t)
    ensures index in s.edits ==> t == s.(editing := Some(index))
    ensures index !in s.edits && s.receipt.None? ==> t == s.(editing := Some(index), edits := s.edits[index := Edit("", 0.0)])
    ensures index !in s.edits && s.receipt.Some? && 0 <= index < |Items(s)| ==>
              t == s.(editing := Some(index), edits := s.edits[index := Edit(Items(s)[index].name, Items(s)[index].price)])
  {
    if index in s.edits then s.(editing := Some(index))
    else if s.receipt.None? then s.(editing := Some(index), edits := s.edits[index := Edit("", 0.0)])
    else if 0 <= index < |Items(s)| then
      s.(editing := Some(index), edits := s.edits[index := Edit(Items(s)[index].name, Items(s)[index].price)])
    else s
  }

  /**
   * `handleSaveEdit`: without a receipt, or without a buffer for the index
   * (a thrown TypeError in the source), nothing changes. Otherwise the
   * buffered name and price replace the item's and edit mode ends.
   */
  function SaveEdit(s: Session, index: int): (t: Session)
    ensures s.receipt.None? || index !in s.edits ==> t == s
    ensures s.receipt.Some? && index in s.edits ==>
              && t.receipt == Some(SetNameAndPrice(s.receipt.value, index, s.edits[index].name, s.edits[index].price))
              && t.editing.None?
              && t.(receipt := s.receipt, editing := s.editing) == s
  {
    if s.receipt.None? || index !in s.edits then s
    else
      var e := s.edits[index];
      s.(receipt := Some(SetNameAndPrice(s.receipt.value, index, e.name, e.price)), editing := None)
  }

  /** The name input of the open edit: only that buffer's name changes. */
  function TypeName(s: Session, index: int, name: string): (t: Session)
    ensures Valid(s) ==> Valid(t)
    ensures t.(edits := s.edits) == s
    ensures t.edits.Keys == s.edits.Keys
    ensures index in s.edits ==> t.edits[index] == Edit(name, s.edits[index].price)
    ensures forall k :: k in s.edits && k != index ==> t.edits[k] == s.edits[k]
  {
    if index in s.edits then s.(edits := s.edits[index := s.edits[index].(name := name)]) else s
  }

  /** The price input of the open edit: only that buffer's price changes. */
  function TypePrice(s: Session, index: int, price: real): (t: Session)
    ensures Valid(s) ==> Valid(t)
    ensures t.(edits := s.edits) == s
    ensures t.edits.Keys == s.edits.Keys
    ensures index in s.edits ==> t.edits[index] == Edit(s.edits[index].name, price)
    ensures forall k :: k in s.edits && k != index ==> t.edits[k] == s.edits[k]
  {
    if index in s.edits then s.(edits := s.edits[index := s.edits[index].(price := price)]) else s
  }

  /** `handleCancelEdit`: edit mode ends and the index's buffer is dropped; the receipt is untouched. */
  function CancelEdit(s: Session, index: int): (t: Session)
    ensures Valid(s) ==> Valid(t)
    ensures t.editing.None? && index !in t.edits
    ensures forall k :: k in s.edits && k != index ==> k in t.edits && t.edits[k] == s.edits[k]
    ensures t.(editing := s.editing, edits := s.edits) == s
  {
    s.(editing := None, edits := s.edits - {index})
  }

  /** A user action on either page, with the network reply it receives where it makes a request. */
  datatype Event =
    | ImageDropped(dataUrl: string)
    | FormSubmitted(headCount: nat, reply: ExtractionReply)
    | VerifiedFormSubmitted(captchaToken: bool, headCount: nat, reply: ExtractionReply)
    | NextClicked
    | SuggestClicked(suggestion: SuggestionReply)
    | UncheckedSuggestClicked(suggestion: SuggestionReply)
    | PersonClicked(personId: int, itemId: int)
    | DoneClicked
    | ConfirmClicked
    | StartOverClicked
    | ResultStartOverClicked
    | EditClicked(index: int)
    | NameTyped(index: int, name: string)
    | PriceTyped(index: int, price: real)
    | SaveClicked(index: int)
    | CancelClicked(index: int)
    | PersonRenamed(id: int, newName: string)

  /** The event is an upload that installs a receipt: an image is present and the reply delivers one. */
  predicate Delivers(s: Session, e: Event) {
    match e
    case FormSubmitted(_, reply) => s.image.Some? && Extracted(reply).Some?
    case VerifiedFormSubmitted(token, _, reply) => token && s.image.Some? && Extracted(reply).Some?
    case _ => false
  }

  /**
   * The handler one event runs. An enabled person button assigns one unit.
   * Typing into an edit field updates an existing buffer (the fields only
   * show while one exists). Cancel ends edit mode and drops the buffer. No
   * handler changes the sign-in state, and only an anonymous visitor's
   * delivered upload sets the used-once flag.
   */
  function Handle(s: Session, e: Event): (t: Session)
    ensures t.user == s.user
    ensures t.hasSplitBill <==> s.hasSplitBill || (!s.user && Delivers(s, e))
  {
    match e
    case ImageDropped(url) => s.(image := Some(url))
    case FormSubmitted(n, reply) => Submit(s, n, reply)
    case VerifiedFormSubmitted(token, n, reply) => SubmitVerified(s, token, n, reply)
    case NextClicked => s.(step := SplitOptions)
    case SuggestClicked(reply) => SuggestChecked(s, reply)
    case UncheckedSuggestClicked(reply) => SuggestUnchecked(s, reply)
    case PersonClicked(p, i) => if AssignEnabled(s, i) then AssignItem(s, p, i, 1) else s
    case DoneClicked => MarkDone(s)
    case ConfirmClicked => ConfirmAdvanced(s)
    case StartOverClicked => StartOver(s)
    case ResultStartOverClicked => StartOverFromResult(s)
    case EditClicked(i) => EditItem(s, i)
    case NameTyped(i, name) => TypeName(s, i, name)
    case PriceTyped(i, price) => TypePrice(s, i, price)
    case SaveClicked(i) => SaveEdit(s, i)
    case CancelClicked(i) => CancelEdit(s, i)
    case PersonRenamed(id, name) => s.(people := Rename(s.people, id, name))
  }

  /**
   * The redirect effect both pages run whenever `hasSplitBill` changes: an
   * anonymous visitor who has used the app once is sent to `/auth` and the
   * page's state is lost. Coming back mounts the page afresh with the stored
   * flag set, which redirects again at once.
   */
  function Redirect(t: Session): Session {
    if SignInRequired(t) then Initial(t.user, true) else t
  }

  /**
   * One event: its handler, then the redirect effect. A page that has
   * redirected receives no further events. A signed-in visitor is never
   * redirected; an anonymous first-time visitor leaves the page exactly on
   * the upload that delivers a receipt, and nothing of the session is kept.
   */
  function Apply(s: Session, e: Event): (t: Session)
    ensures SignInRequired(s) ==> t == s
    ensures s.user ==> t == Handle(s, e)
    ensures !SignInRequired(s) && !s.user ==> (SignInRequired(t) <==> Delivers(s, e))
    ensures !SignInRequired(s) && SignInRequired(t) ==> t == Initial(false, true)
  {
    if SignInRequired(s) then s else Redirect(Handle(s, e))
  }

  function Run(s: Session, events: seq<Event>): Session
    decreases |events|
  {
    if |events| == 0 then s else Run(Apply(s, events[0]), events[1..])
  }

  /**
   * The session invariant: the ledger is well formed (remaining units never
   * negative, one entry per pair), with a receipt its assigned plus remaining
   * units stay within each line's quantity, a finished split has nothing
   * left to assign, and the item in edit mode has a buffer.
   */
  predicate Valid(s: Session) {
    && WellFormed(s.ledger)
    && (s.receipt.Some? ==> Bounded(s.ledger, Quantities(s.receipt.value.items)))
    && (s.advancedDone ==> AllAssigned(s.ledger.remaining))
    && (s.editing.Some? ==> s.editing.value in s.edits)
  }

  /** A finished ledger refuses every further positive assignment. */
  lemma DoneLedgerRefuses(l: Ledger, personId: int, itemId: int, quantity: int)
    requires AllAssigned(l.remaining) && quantity > 0
    ensures Assign(l, personId, itemId, quantity) == l
  {
  }

  /**
   * Once a receipt has been extracted, a disabled button only hides a click
   * the ledger would refuse anyway: after Done every count is at zero, and an
   * item with no units left refuses a unit.
   */
  lemma DisabledClickIsRefused(s: Session, personId: int, itemId: int)
    requires Valid(s) && s.extracted && !AssignEnabled(s, itemId)
    ensures AssignItem(s, personId, itemId, 1) == s
  {
    if s.advancedDone {
      DoneLedgerRefuses(s.ledger, personId, itemId, 1);
    }
  }

  lemma SubmitKeepsValid(s: Session, n: nat, reply: ExtractionReply)
    requires Valid(s)
    ensures Valid(Submit(s, n, reply))
  {
    var t := Submit(s, n, reply);
    if SignInRequired(s) {
      assert t == s;
    } else if s.image.None? {
      assert t == s.(people := InitPeople(n));
    } else if Extracted(reply).None? {
      assert t == s.(people := InitPeople(n), receipt := None, step := Upload);
    } else {
      var r := Extracted(reply).value;
      var caps := Quantities(r.items);
      FreshConserved(caps);
      assert t.ledger == Fresh(caps);
      assert t.receipt == Some(r);
      assert t.editing == s.editing && t.edits == s.edits && !t.advancedDone;
    }
  }

  lemma AssignItemKeepsValid(s: Session, personId: int, itemId: int, quantity: int)
    requires Valid(s) && quantity > 0
    ensures Valid(AssignItem(s, personId, itemId, quantity))
  {
    AssignKeepsWellFormed(s.ledger, personId, itemId, quantity);
    if s.receipt.Some? {
      AssignKeepsBounded(s.ledger, Quantities(s.receipt.value.items), personId, itemId, quantity);
    }
    if s.advancedDone {
      DoneLedgerRefuses(s.ledger, personId, itemId, quantity);
    }
  }

  lemma SaveEditKeepsValid(s: Session, index: int)
    requires Valid(s)
    ensures Valid(SaveEdit(s, index))
  {
    if s.receipt.Some? && index in s.edits {
      var r := s.receipt.value;
      var e := SetNameAndPrice(r, index, s.edits[index].name, s.edits[index].price);
      assert Quantities(e.items) == Quantities(r.items);
    }
  }

  /** A step that keeps the ledger and the receipt, sets no new Done flag and keeps the open edit in the buffer keeps the invariant. */
  lemma SameLedgerKeepsValid(s: Session, t: Session)
    requires Valid(s)
    requires t.ledger == s.ledger && t.receipt == s.receipt
    requires t.advancedDone ==> s.advancedDone
    requires t.editing.Some? ==> t.editing.value in t.edits
    ensures Valid(t)
  {
  }

  lemma MarkDoneKeepsValid(s: Session)
    requires Valid(s)
    ensures Valid(MarkDone(s))
  {
  }

  lemma StartOverKeepsValid(s: Session)
    requires Valid(s)
    ensures Valid(StartOver(s)) && Valid(StartOverFromResult(s))
  {
  }

  /** Navigation, the suggestion, the summary and renaming leave the ledger, the receipt and the edit buffer alone. */
  lemma NavigationKeepsValid(s: Session, e: Event)
    requires Valid(s)
    requires e.ImageDropped? || e.NextClicked? || e.SuggestClicked? || e.UncheckedSuggestClicked? || e.ConfirmClicked? || e.PersonRenamed?
    ensures Valid(Handle(s, e))
  {
    match e
    case ImageDropped(url) => SameLedgerKeepsValid(s, s.(image := Some(url)));
    case NextClicked => SameLedgerKeepsValid(s, s.(step := SplitOptions));
    case SuggestClicked(reply) => SameLedgerKeepsValid(s, SuggestChecked(s, reply));
    case UncheckedSuggestClicked(reply) => SameLedgerKeepsValid(s, SuggestUnchecked(s, reply));
    case ConfirmClicked => SameLedgerKeepsValid(s, ConfirmAdvanced(s));
    case PersonRenamed(id, name) => SameLedgerKeepsValid(s, s.(people := Rename(s.people, id, name)));
  }

  /** Opening, typing into and cancelling an edit touch only the edit buffer and keep the open index in it. */
  lemma EditEventKeepsValid(s: Session, e: Event)
    requires Valid(s)
    requires e.EditClicked? || e.NameTyped? || e.PriceTyped? || e.CancelClicked?
    ensures Valid(Handle(s, e))
  {
    match e
    case EditClicked(i) =>
    case NameTyped(i, name) =>
    case PriceTyped(i, price) =>
    case CancelClicked(i) =>
  }

  /** Every handler keeps the session invariant. */
  lemma HandleKeepsValid(s: Session, e: Event)
    requires Valid(s)
    ensures Valid(Handle(s, e))
  {
    match e
    case FormSubmitted(n, reply) => SubmitKeepsValid(s, n, reply);
    case VerifiedFormSubmitted(token, n, reply) => SubmitKeepsValid(s, n, reply);
    case PersonClicked(p, i) =>
      if AssignEnabled(s, i) {
        AssignItemKeepsValid(s, p, i, 1);
      }
    case DoneClicked => MarkDoneKeepsValid(s);
    case StartOverClicked => StartOverKeepsValid(s);
    case ResultStartOverClicked => StartOverKeepsValid(s);
    case SaveClicked(i) => SaveEditKeepsValid(s, i);
    case EditClicked(_) => EditEventKeepsValid(s, e);
    case NameTyped(_, _) => EditEventKeepsValid(s, e);
    case PriceTyped(_, _) => EditEventKeepsValid(s, e);
    case CancelClicked(_) => EditEventKeepsValid(s, e);
    case _ => NavigationKeepsValid(s, e);
  }

  /** Every event keeps the session invariant, the redirect included: the page-load state is valid. */
  lemma ApplyKeepsValid(s: Session, e: Event)
    requires Valid(s)
    ensures Valid(Apply(s, e))
  {
    if !SignInRequired(s) {
      HandleKeepsValid(s, e);
    }
  }

  /** Nothing of a split is loaded: no receipt, no extraction, an empty ledger. */
  predicate NothingLoaded(s: Session) {
    s.receipt.None? && !s.extracted && s.ledger == Ledger([], map[])
  }

  /** One event leaves an anonymous visitor with nothing loaded: a delivered receipt is lost to the redirect. */
  lemma AnonymousStep(s: Session, e: Event)
    requires !s.user && NothingLoaded(s)
    ensures !Apply(s, e).user && NothingLoaded(Apply(s, e))
  {
    if !SignInRequired(s) && !Delivers(s, e) {
      var t := Handle(s, e);
      assert !SignInRequired(t);
      match e
      case FormSubmitted(n, reply) =>
      case VerifiedFormSubmitted(token, n, reply) =>
      case PersonClicked(p, i) =>
      case _ =>
    }
  }

  /**
   * An anonymous visitor never gets to split a receipt: whatever they do,
   * no receipt stays loaded and no unit is ever assigned. Only a signed-in
   * session reaches the assignment, Done and summary steps with a receipt.
   */
  lemma {:induction false} AnonymousNeverSplits(s: Session, events: seq<Event>)
    requires !s.user && NothingLoaded(s)
    ensures !Run(s, events).user && NothingLoaded(Run(s, events))
    decreases |events|
  {
    if |events| > 0 {
      AnonymousStep(s, events[0]);
      AnonymousNeverSplits(Apply(s, events[0]), events[1..]);
    }
  }

  /**
   * Every state reachable from a valid one satisfies the invariant: in
   * particular no remaining count goes negative, and with a receipt each
   * line's assigned plus remaining units never exceed its quantity.
   */
  lemma {:induction false} ReachableValid(s: Session, events: seq<Event>)
    requires Valid(s)
    ensures Valid(Run(s, events))
    decreases |events|
  {
    if |events| > 0 {
      ApplyKeepsValid(s, events[0]);
      ReachableValid(Apply(s, events[0]), events[1..]);
    }
  }

  /** In a valid session, the Done check passes exactly when every remaining count is exactly zero. */
  lemma DoneIffNothingRemains(s: Session)
    requires Valid(s)
    ensures AllAssigned(s.ledger.remaining) <==> forall k :: k in s.ledger.remaining ==> s.ledger.remaining[k] == 0.0
    ensures MarkDone(s).advancedDone <==> s.advancedDone || forall k :: k in s.ledger.remaining ==> s.ledger.remaining[k] == 0.0
  {
  }

  /** With a receipt, the cost of what a valid session has assigned never exceeds the line prices (for non-negative prices). */
  lemma ValidCostWithinReceipt(s: Session)
    requires Valid(s) && s.receipt.Some?
    requires forall i :: 0 <= i < |Items(s)| ==> Items(s)[i].price >= 0.0
    ensures TotalCost(Items(s), s.ledger.entries) <= PriceSum(Items(s), |Items(s)|)
  {
    CostWithinReceipt(Items(s), s.ledger);
  }
}
