/**
 * Concrete sessions of a signed-in visitor: the even split of a two-unit
 * line between two people, and the re-assignment that lets the Done check
 * pass with a unit unassigned. An anonymous visitor's upload ends the page.
 */
module Scenarios {
  import opened Wrappers
  import opened Text
  import opened Receipts
  import opened Ledgers
  import opened People
  import opened Split
  import opened Session

  /** One line, "Coffee", two units for 10.00 in all. */
  function CoffeeReply(): ExtractionReply {
    ExtractionResponse(true, Some(RawReceipt(Some([RawItem(Some("Coffee"), Some(10.0), Some(2.0))]), Some(10.0))))
  }

  /** A signed-in visitor's enabled person button assigns one unit. */
  lemma ClickStep(s: Session, personId: int, itemId: int)
    requires s.user && AssignEnabled(s, itemId)
    ensures Apply(s, PersonClicked(personId, itemId)) == AssignItem(s, personId, itemId, 1)
  {
  }

  lemma DoneStep(s: Session)
    requires s.user
    ensures Apply(s, DoneClicked) == MarkDone(s)
  {
  }

  lemma ConfirmStep(s: Session)
    requires s.user
    ensures Apply(s, ConfirmClicked) == ConfirmAdvanced(s)
  {
  }

  /** A signed-in visitor drops the receipt photo and uploads it for two people. */
  function Loaded(): Session {
    Apply(Apply(Initial(true, false), ImageDropped("receipt.jpg")), FormSubmitted(2, CoffeeReply()))
  }

  lemma LoadedState()
    ensures var s := Loaded();
            && s.step == Details && s.user && !s.hasSplitBill && s.extracted && !s.advancedDone
            && Items(s) == [Item("Coffee", 10.0, 2.0)]
            && s.people == [Person(1, "Person 1", []), Person(2, "Person 2", [])]
            && s.ledger == Ledger([], map[0 := 2.0])
  {
    var s := Loaded();
    var raw := RawReceipt(Some([RawItem(Some("Coffee"), Some(10.0), Some(2.0))]), Some(10.0));
    assert AllItemsValid(raw.items.value);
    assert Items(s) == [Item("Coffee", 10.0, 2.0)];
    assert DefaultName(1) == "Person 1" && DefaultName(2) == "Person 2";
    assert InitPeople(1) == [Person(1, "Person 1", [])];
    assert s.people == InitPeople(2);
    assert s.ledger.remaining == map[0 := 2.0];
  }

  function CoffeeItems(): seq<Item> {
    [Item("Coffee", 10.0, 2.0)]
  }

  function TwoPeople(): seq<Person> {
    [Person(1, "Person 1", []), Person(2, "Person 2", [])]
  }

  function OneEach(): seq<Assignment> {
    [Assignment(0, 1, 1), Assignment(0, 2, 1)]
  }

  lemma FiveDollars()
    ensures ToFixed2(5.0) == "5.00"
  {
    assert Cents(5.0) == 500;
    assert NatText(5) == "5";
  }

  lemma CoffeeTotals()
    ensures PersonTotal(CoffeeItems(), OneEach(), 1) == 5.0 && PersonTotal(CoffeeItems(), OneEach(), 2) == 5.0
  {
    var a := OneEach();
    assert a[..1] == [Assignment(0, 1, 1)];
    assert a[..1][..0] == [];
  }

  lemma CoffeeLines()
    ensures ItemLines(CoffeeItems(), OneEach(), 1) == "  1 x Coffee\n"
    ensures ItemLines(CoffeeItems(), OneEach(), 2) == "  1 x Coffee\n"
  {
    var a := OneEach();
    assert a[..1] == [Assignment(0, 1, 1)];
    assert a[..1][..0] == [];
    assert IntText(1) == "1";
  }

  lemma CoffeeBlocks()
    ensures Block(CoffeeItems(), OneEach(), TwoPeople()[0]) == "Person 1: $5.00\n  1 x Coffee\n"
    ensures Block(CoffeeItems(), OneEach(), TwoPeople()[1]) == "Person 2: $5.00\n  1 x Coffee\n"
  {
    CoffeeTotals();
    CoffeeLines();
    FiveDollars();
    var line := "  1 x Coffee\n";
    assert Block(CoffeeItems(), OneEach(), TwoPeople()[0]) == "Person 1" + ": $" + "5.00" + "\n" + line;
    assert Block(CoffeeItems(), OneEach(), TwoPeople()[1]) == "Person 2" + ": $" + "5.00" + "\n" + line;
    BlockText();
  }

  lemma BlockText()
    ensures "Person 1" + ": $" + "5.00" + "\n" + "  1 x Coffee\n" == "Person 1: $5.00\n  1 x Coffee\n"
    ensures "Person 2" + ": $" + "5.00" + "\n" + "  1 x Coffee\n" == "Person 2: $5.00\n  1 x Coffee\n"
  {
  }

  lemma CoffeeSummary()
    ensures Summary(CoffeeItems(), OneEach(), TwoPeople()) == "Person 1: $5.00\n  1 x Coffee\nPerson 2: $5.00\n  1 x Coffee\n"
  {
    var items, a, ps := CoffeeItems(), OneEach(), TwoPeople();
    CoffeeBlocks();
    var b0, b1 := Block(items, a, ps[0]), Block(items, a, ps[1]);
    assert ps[1..][1..] == [];
    assert Summary(items, a, ps[1..]) == b1 + Summary(items, a, []);
    assert Summary(items, a, ps) == b0 + b1 + "";
    TwoLines();
  }

  lemma TwoLines()
    ensures "Person 1: $5.00\n  1 x Coffee\n" + "Person 2: $5.00\n  1 x Coffee\n" + "" == "Person 1: $5.00\n  1 x Coffee\nPerson 2: $5.00\n  1 x Coffee\n"
  {
  }

  /** The clicks on "Person 1" and then "Person 2" on the coffee line. */
  function EvenClicks(): Session {
    Apply(Apply(Loaded(), PersonClicked(1, 0)), PersonClicked(2, 0))
  }

  /** Both buttons are enabled when clicked, so each person takes one unit. */
  lemma CoffeeAssigned()
    ensures var s := EvenClicks();
            && s.ledger == Ledger(OneEach(), map[0 := 0.0])
            && Items(s) == CoffeeItems() && s.people == TwoPeople()
            && s.user && !s.hasSplitBill && !s.advancedDone
  {
    LoadedState();
    var s0 := Loaded();
    assert AssignEnabled(s0, 0);
    ClickStep(s0, 1, 0);
    var s1 := Apply(s0, PersonClicked(1, 0));
    assert s1.ledger == Ledger([Assignment(0, 1, 1)], map[0 := 1.0]);
    assert AssignEnabled(s1, 0);
    ClickStep(s1, 2, 0);
  }

  lemma CoffeeDone()
    ensures var d := Apply(EvenClicks(), DoneClicked);
            && d.user && !d.hasSplitBill
            && Items(d) == CoffeeItems() && d.ledger.entries == OneEach() && d.people == TwoPeople()
  {
    CoffeeAssigned();
    var s := EvenClicks();
    assert AllAssigned(s.ledger.remaining);
    DoneStep(s);
  }

  /** One unit to each person, Done, Confirm: both owe 5.00 and the summary lists one coffee each. */
  lemma CoffeeSplitEvenly()
    ensures var s := Apply(Apply(EvenClicks(), DoneClicked), ConfirmClicked);
            && s.step == Result && s.showOnlyResult
            && s.suggestedSplit == Some("Person 1: $5.00\n  1 x Coffee\nPerson 2: $5.00\n  1 x Coffee\n")
  {
    CoffeeDone();
    var d := Apply(EvenClicks(), DoneClicked);
    CoffeeSummary();
    ConfirmStep(d);
  }

  /**
   * Clicking the first person twice: the second click overwrites the entry's
   * quantity with the same 1 but still takes a unit from the remaining count,
   * so the Done check passes with one of the two units unassigned and the
   * assigned cost is half the line price.
   */
  lemma ReassignFinishesEarly()
    ensures var s := Apply(TwiceClicks(), DoneClicked);
            && s.advancedDone && s.step == SplitOptions
            && s.ledger.entries == [Assignment(0, 1, 1)]
            && AssignedQty(s.ledger.entries, 0) == 1.0
            && Items(s)[0].quantity as real == 2.0
            && TotalCost(Items(s), s.ledger.entries) == 5.0
            && Items(s)[0].price == 10.0
  {
    TwiceClicked();
    var s := TwiceClicks();
    assert AllAssigned(s.ledger.remaining);
    DoneStep(s);
  }

  /** The clicks on "Person 1" twice on the coffee line. */
  function TwiceClicks(): Session {
    Apply(Apply(Loaded(), PersonClicked(1, 0)), PersonClicked(1, 0))
  }

  /** Both clicks find the button enabled; the second overwrites the entry and empties the line. */
  lemma TwiceClicked()
    ensures var s := TwiceClicks();
            && s.ledger == Ledger([Assignment(0, 1, 1)], map[0 := 0.0])
            && Items(s) == CoffeeItems() && s.user
  {
    LoadedState();
    var s0 := Loaded();
    assert AssignEnabled(s0, 0);
    ClickStep(s0, 1, 0);
    var s1 := Apply(s0, PersonClicked(1, 0));
    assert s1.ledger == Ledger([Assignment(0, 1, 1)], map[0 := 1.0]);
    assert AssignEnabled(s1, 0);
    ClickStep(s1, 1, 0);
    assert FindPair(s1.ledger.entries, 1, 0) == 0;
  }

  /**
   * The same upload by an anonymous first-time visitor: the delivered
   * receipt sets the used-once flag, the redirect to `/auth` follows, and
   * the page's state is gone. A later click reaches nothing.
   */
  lemma AnonymousUploadLeaves()
    ensures var s := Apply(Apply(Initial(false, false), ImageDropped("receipt.jpg")), FormSubmitted(2, CoffeeReply()));
            && s == Initial(false, true)
            && Apply(s, PersonClicked(1, 0)) == s
  {
    var raw := RawReceipt(Some([RawItem(Some("Coffee"), Some(10.0), Some(2.0))]), Some(10.0));
    assert AllItemsValid(raw.items.value);
    assert Extracted(CoffeeReply()).Some?;
  }

  /** The corrected assignment on the same clicks keeps one unit open, so the Done check refuses. */
  lemma CorrectedReassignKeepsUnitOpen()
    ensures var l := AssignCorrected(AssignCorrected(Fresh([2.0]), 1, 0, 1), 1, 0, 1);
            && l == Ledger([Assignment(0, 1, 1)], map[0 := 1.0])
            && !AllAssigned(l.remaining)
  {
    var l0 := Fresh([2.0]);
    assert l0.remaining == map[0 := 2.0];
    var l1 := AssignCorrected(l0, 1, 0, 1);
    assert Prior(l0.entries, 1, 0) == 0;
    assert l1 == Ledger([Assignment(0, 1, 1)], map[0 := 1.0]);
    assert FindPair(l1.entries, 1, 0) == 0;
    assert Prior(l1.entries, 1, 0) == 1;
  }
}
