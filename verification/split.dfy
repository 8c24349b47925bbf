/**
 * The manual split's results: each person's total (`calculatePersonTotal`)
 * and the plain-text summary `confirmAdvancedSplit` builds from it.
 */
module Split {
  import opened Text
  import opened Receipts
  import opened Ledgers
  import opened People

  /** `receiptData?.items[itemId]` names an item of the receipt. */
  predicate Listed(items: seq<Item>, itemId: int) {
    0 <= itemId < |items|
  }

  /** The price of one unit: the line price divided by its quantity. */
  function UnitPrice(it: Item): real {
    it.price / it.quantity
  }

  /** The cost of one assignment; an assignment whose item is not on the receipt costs nothing. */
  function Cost(items: seq<Item>, a: Assignment): real {
    if Listed(items, a.itemId) then UnitPrice(items[a.itemId]) * a.quantity as real else 0.0
  }

  /** The person's own assignments, in list order. */
  function Own(s: seq<Assignment>, personId: int): (o: seq<Assignment>)
    ensures |o| <= |s|
    ensures forall j :: 0 <= j < |o| ==> o[j].personId == personId
  {
    if |s| == 0 then []
    else Own(s[..|s| - 1], personId) + (if s[|s| - 1].personId == personId then [s[|s| - 1]] else [])
  }

  /** `calculatePersonTotal`: the costs of the person's assignments, accumulated in list order. */
  function PersonTotal(items: seq<Item>, s: seq<Assignment>, personId: int): real {
    if |s| == 0 then 0.0
    else
      var a := s[|s| - 1];
      PersonTotal(items, s[..|s| - 1], personId) + (if a.personId == personId then Cost(items, a) else 0.0)
  }

  /** The cost of every assignment, whoever it belongs to. */
  function TotalCost(items: seq<Item>, s: seq<Assignment>): real {
    if |s| == 0 then 0.0 else TotalCost(items, s[..|s| - 1]) + Cost(items, s[|s| - 1])
  }

  /** A person's total is the total cost of the sub-list of their own assignments. */
  lemma {:induction false} PersonTotalIsOwnCost(items: seq<Item>, s: seq<Assignment>, personId: int)
    ensures PersonTotal(items, s, personId) == TotalCost(items, Own(s, personId))
    decreases |s|
  {
    if |s| > 0 {
      var t, a := s[..|s| - 1], s[|s| - 1];
      var o := Own(t, personId);
      PersonTotalIsOwnCost(items, t, personId);
      if a.personId == personId {
        assert (o + [a])[..|o|] == o;
      } else {
        assert Own(s, personId) == o + [];
        assert o + [] == o;
      }
    }
  }

  /** The sum of the totals of a list of people. */
  function PeopleTotal(items: seq<Item>, s: seq<Assignment>, ps: seq<Person>): real {
    if |ps| == 0 then 0.0 else PersonTotal(items, s, ps[0].id) + PeopleTotal(items, s, ps[1..])
  }

  function Ids(ps: seq<Person>): set<int> {
    set k | 0 <= k < |ps| :: ps[k].id
  }

  /** How many of the people carry an id. */
  function Holders(ps: seq<Person>, id: int): nat {
    if |ps| == 0 then 0 else (if ps[0].id == id then 1 else 0) + Holders(ps[1..], id)
  }

  lemma {:induction false} HoldersOfListedId(ps: seq<Person>, id: int)
    requires DistinctIds(ps) && id in Ids(ps)
    ensures Holders(ps, id) == 1
  {
    if ps[0].id == id {
      HoldersOfAbsentId(ps[1..], id);
    } else {
      var k :| 0 <= k < |ps| && ps[k].id == id;
      assert ps[1..][k - 1].id == id;
      HoldersOfListedId(ps[1..], id);
    }
  }

  lemma {:induction false} HoldersOfAbsentId(ps: seq<Person>, id: int)
    requires id !in Ids(ps)
    ensures Holders(ps, id) == 0
  {
    if |ps| > 0 {
      assert ps[0].id in Ids(ps);
      assert Ids(ps[1..]) <= Ids(ps) by {
        forall x | x in Ids(ps[1..]) ensures x in Ids(ps) {
          var k :| 0 <= k < |ps[1..]| && ps[1..][k].id == x;
          assert ps[k + 1].id == x;
        }
      }
      HoldersOfAbsentId(ps[1..], id);
    }
  }

  /** Adding one assignment adds its cost once for every person holding its person id. */
  lemma {:induction false} PeopleTotalStep(items: seq<Item>, s: seq<Assignment>, ps: seq<Person>)
    requires |s| > 0
    ensures var a := s[|s| - 1];
            PeopleTotal(items, s, ps) == PeopleTotal(items, s[..|s| - 1], ps) + Holders(ps, a.personId) as real * Cost(items, a)
  {
    if |ps| > 0 {
      var a, t := s[|s| - 1], s[..|s| - 1];
      var c := Cost(items, a);
      PeopleTotalStep(items, s, ps[1..]);
      assert PersonTotal(items, s, ps[0].id) == PersonTotal(items, t, ps[0].id) + (if a.personId == ps[0].id then c else 0.0);
      var h0 := if ps[0].id == a.personId then 1.0 else 0.0;
      var h := Holders(ps[1..], a.personId) as real;
      assert Holders(ps, a.personId) as real == h0 + h;
      assert (h0 + h) * c == h0 * c + h * c;
    }
  }

  /**
   * When ids are distinct and every assignment belongs to a listed person,
   * the people's totals add up to the cost of all assignments: nothing is
   * counted twice and nothing is dropped.
   */
  lemma {:induction false} PeopleTotalIsTotalCost(items: seq<Item>, s: seq<Assignment>, ps: seq<Person>)
    requires DistinctIds(ps)
    requires forall j :: 0 <= j < |s| ==> s[j].personId in Ids(ps)
    ensures PeopleTotal(items, s, ps) == TotalCost(items, s)
    decreases |s|
  {
    if |s| == 0 {
      PeopleTotalEmpty(items, ps);
    } else {
      PeopleTotalStep(items, s, ps);
      HoldersOfListedId(ps, s[|s| - 1].personId);
      PeopleTotalIsTotalCost(items, s[..|s| - 1], ps);
    }
  }

  lemma {:induction false} PeopleTotalEmpty(items: seq<Item>, ps: seq<Person>)
    ensures PeopleTotal(items, [], ps) == 0.0
  {
    if |ps| > 0 {
      PeopleTotalEmpty(items, ps[1..]);
    }
  }

  /** The cost of the assignments regrouped by item: unit price times assigned units, over the first n items. */
  function ByItem(items: seq<Item>, s: seq<Assignment>, n: nat): real
    requires n <= |items|
  {
    if n == 0 then 0.0 else ByItem(items, s, n - 1) + UnitPrice(items[n - 1]) * AssignedQty(s, n - 1)
  }

  /** The line prices of the first n items. */
  function PriceSum(items: seq<Item>, n: nat): real
    requires n <= |items|
  {
    if n == 0 then 0.0 else PriceSum(items, n - 1) + items[n - 1].price
  }

  lemma {:induction false} ByItemAppend(items: seq<Item>, s: seq<Assignment>, a: Assignment, n: nat)
    requires n <= |items|
    ensures ByItem(items, s + [a], n) == ByItem(items, s, n) + (if 0 <= a.itemId < n then Cost(items, a) else 0.0)
  {
    if n > 0 {
      ByItemAppend(items, s, a, n - 1);
      AssignedQtyAppend(s, a, n - 1);
      var u := UnitPrice(items[n - 1]);
      assert u * AssignedQty(s + [a], n - 1) == u * AssignedQty(s, n - 1) + u * Units(a, n - 1);
    }
  }

  /** Summing assignment by assignment and summing item by item give the same cost. */
  lemma {:induction false} TotalCostByItem(items: seq<Item>, s: seq<Assignment>)
    ensures TotalCost(items, s) == ByItem(items, s, |items|)
    decreases |s|
  {
    if |s| == 0 {
      ByItemEmpty(items, |items|);
    } else {
      var t := s[..|s| - 1];
      assert s == t + [s[|s| - 1]];
      TotalCostByItem(items, t);
      ByItemAppend(items, t, s[|s| - 1], |items|);
    }
  }

  lemma {:induction false} ByItemEmpty(items: seq<Item>, n: nat)
    requires n <= |items|
    ensures ByItem(items, [], n) == 0.0
  {
    if n > 0 {
      ByItemEmpty(items, n - 1);
    }
  }

  lemma {:induction false} ByItemWithinPrices(items: seq<Item>, s: seq<Assignment>, n: nat)
    requires n <= |items|
    requires forall i :: 0 <= i < |items| ==> items[i].price >= 0.0 && AssignedQty(s, i) <= items[i].quantity as real
    ensures ByItem(items, s, n) <= PriceSum(items, n)
  {
    if n > 0 {
      ByItemWithinPrices(items, s, n - 1);
      var it := items[n - 1];
      var u := UnitPrice(it);
      assert ByItem(items, s, n) == ByItem(items, s, n - 1) + u * AssignedQty(s, n - 1);
      assert PriceSum(items, n) == PriceSum(items, n - 1) + it.price;
      assert u >= 0.0;
      assert u * AssignedQty(s, n - 1) <= u * it.quantity as real;
      assert u * it.quantity as real == it.price;
    }
  }

  lemma {:induction false} ByItemAllPrices(items: seq<Item>, s: seq<Assignment>, n: nat)
    requires n <= |items|
    requires forall i :: 0 <= i < |items| ==> AssignedQty(s, i) == items[i].quantity as real
    ensures ByItem(items, s, n) == PriceSum(items, n)
  {
    if n > 0 {
      ByItemAllPrices(items, s, n - 1);
      var it := items[n - 1];
      assert UnitPrice(it) * it.quantity as real == it.price;
    }
  }

  /**
   * With the as-written ledger's conservation and non-negative prices, the
   * assigned cost never exceeds the sum of the receipt's line prices.
   */
  lemma {:induction false} CostWithinReceipt(items: seq<Item>, l: Ledger)
    requires Bounded(l, Quantities(items))
    requires forall i :: 0 <= i < |items| ==> items[i].price >= 0.0
    ensures TotalCost(items, l.entries) <= PriceSum(items, |items|)
  {
    TotalCostByItem(items, l.entries);
    CompleteBounded(l, Quantities(items));
    ByItemWithinPrices(items, l.entries, |items|);
  }

  /**
   * With the corrected ledger's exact conservation, a ledger that passes the
   * completion test costs exactly the sum of the receipt's line prices.
   */
  lemma {:induction false} CompleteCostsReceipt(items: seq<Item>, l: Ledger)
    requires Conserved(l, Quantities(items))
    requires AllAssigned(l.remaining)
    ensures TotalCost(items, l.entries) == PriceSum(items, |items|)
  {
    TotalCostByItem(items, l.entries);
    CompleteIffFullyAssigned(l, Quantities(items));
    ByItemAllPrices(items, l.entries, |items|);
  }

  /** The line `"  <quantity> x <item name>"` of one assignment. */
  function ItemLine(it: Item, a: Assignment): string {
    "  " + IntText(a.quantity) + " x " + it.name + "\n"
  }

  /** The line an assignment contributes to a person's block: its item line if it is theirs and listed. */
  function LineFor(items: seq<Item>, a: Assignment, personId: int): string {
    if a.personId == personId && Listed(items, a.itemId) then ItemLine(items[a.itemId], a) else ""
  }

  /** A person's item lines, one per assignment of theirs whose item is listed, in assignment order. */
  function ItemLines(items: seq<Item>, s: seq<Assignment>, personId: int): string {
    if |s| == 0 then "" else ItemLines(items, s[..|s| - 1], personId) + LineFor(items, s[|s| - 1], personId)
  }

  /** The header `"<name>: $<total, 2 decimals>"` and the person's item lines. */
  function Block(items: seq<Item>, s: seq<Assignment>, p: Person): string {
    p.name + ": $" + ToFixed2(PersonTotal(items, s, p.id)) + "\n" + ItemLines(items, s, p.id)
  }

  /** `confirmAdvancedSplit`'s text: one block per person, in list order. */
  function Summary(items: seq<Item>, s: seq<Assignment>, ps: seq<Person>): string {
    if |ps| == 0 then "" else Block(items, s, ps[0]) + Summary(items, s, ps[1..])
  }

  /** A person's item lines are the lines of their own assignments: the others contribute nothing. */
  lemma {:induction false} ItemLinesOfOwn(items: seq<Item>, s: seq<Assignment>, personId: int)
    ensures ItemLines(items, s, personId) == ItemLines(items, Own(s, personId), personId)
    decreases |s|
  {
    if |s| > 0 {
      var t, a := s[..|s| - 1], s[|s| - 1];
      ItemLinesOfOwn(items, t, personId);
      if a.personId == personId {
        ItemLinesSnoc(items, Own(t, personId), a, personId);
      } else {
        assert Own(s, personId) == Own(t, personId) + [];
        assert Own(t, personId) + [] == Own(t, personId);
      }
    }
  }

  /**
   * A person's block is the header with the cost of their own assignments,
   * written with two decimals, followed by the lines of those assignments.
   */
  lemma BlockOfOwn(items: seq<Item>, s: seq<Assignment>, p: Person)
    ensures Block(items, s, p) ==
              p.name + ": $" + ToFixed2(TotalCost(items, Own(s, p.id))) + "\n" + ItemLines(items, Own(s, p.id), p.id)
  {
    ItemLinesOfOwn(items, s, p.id);
    PersonTotalIsOwnCost(items, s, p.id);
  }

  /** The k-th person's block sits in the summary between the blocks of the people before and after them. */
  lemma SummaryBlockAt(items: seq<Item>, s: seq<Assignment>, ps: seq<Person>, k: int)
    requires 0 <= k < |ps|
    ensures Summary(items, s, ps) == Summary(items, s, ps[..k]) + Block(items, s, ps[k]) + Summary(items, s, ps[k + 1..])
  {
    assert ps == ps[..k] + ps[k..];
    SummaryConcat(items, s, ps[..k], ps[k..]);
    assert ps[k..][1..] == ps[k + 1..];
    ConcatAssoc(Summary(items, s, ps[..k]), Block(items, s, ps[k]), Summary(items, s, ps[k + 1..]));
  }

  /** The summary of two lists of people is the first one's summary followed by the second's. */
  lemma {:induction false} SummaryConcat(items: seq<Item>, s: seq<Assignment>, ps: seq<Person>, qs: seq<Person>)
    ensures Summary(items, s, ps + qs) == Summary(items, s, ps) + Summary(items, s, qs)
  {
    if |ps| == 0 {
      assert ps + qs == qs;
    } else {
      assert (ps + qs)[1..] == ps[1..] + qs;
      SummaryConcat(items, s, ps[1..], qs);
    }
  }

  lemma ItemLinesSnoc(items: seq<Item>, s: seq<Assignment>, x: Assignment, personId: int)
    ensures ItemLines(items, s + [x], personId) == ItemLines(items, s, personId) + LineFor(items, x, personId)
  {
    assert (s + [x])[..|s|] == s;
  }

  /** Item lines follow creation order: older assignments' lines come first. */
  lemma {:induction false} ItemLinesConcat(items: seq<Item>, s: seq<Assignment>, t: seq<Assignment>, personId: int)
    ensures ItemLines(items, s + t, personId) == ItemLines(items, s, personId) + ItemLines(items, t, personId)
    decreases |t|
  {
    if |t| == 0 {
      assert s + t == s;
    } else {
      var u := t[..|t| - 1];
      assert t == u + [t[|t| - 1]];
      ItemLinesConcat(items, s, u, personId);
      ItemLinesConcatStep(items, s, u, t[|t| - 1], personId);
    }
  }

  lemma ItemLinesConcatStep(items: seq<Item>, s: seq<Assignment>, u: seq<Assignment>, x: Assignment, personId: int)
    requires ItemLines(items, s + u, personId) == ItemLines(items, s, personId) + ItemLines(items, u, personId)
    ensures ItemLines(items, s + (u + [x]), personId) == ItemLines(items, s, personId) + ItemLines(items, u + [x], personId)
  {
    var a, b, c := ItemLines(items, s, personId), ItemLines(items, u, personId), LineFor(items, x, personId);
    assert s + (u + [x]) == (s + u) + [x];
    calc {
      ItemLines(items, (s + u) + [x], personId);
      { ItemLinesSnoc(items, s + u, x, personId); }
      ItemLines(items, s + u, personId) + c;
      (a + b) + c;
      { ConcatAssoc(a, b, c); }
      a + (b + c);
      { ItemLinesSnoc(items, u, x, personId); }
      a + ItemLines(items, u + [x], personId);
    }
  }

  lemma ConcatAssoc(a: string, b: string, c: string)
    ensures (a + b) + c == a + (b + c)
  {
  }

  /** Another person's assignments, or ones for items not on the receipt, add nothing to a person's block. */
  lemma {:induction false} OthersDoNotShow(items: seq<Item>, s: seq<Assignment>, a: Assignment, p: Person)
    requires a.personId != p.id || !Listed(items, a.itemId)
    ensures Block(items, s + [a], p) == Block(items, s, p)
  {
    assert (s + [a])[..|s|] == s;
  }
}
