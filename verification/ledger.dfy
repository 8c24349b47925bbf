/**
 * The assignment ledger of the advanced split: the list of
 * (item, person, quantity) assignments and the map of remaining units per
 * item (`assignedItems` and `remainingQuantities` in both pages).
 */
module Ledgers {

  datatype Assignment = Assignment(itemId: int, personId: int, quantity: int)

  datatype Ledger = Ledger(entries: seq<Assignment>, remaining: map<int, real>)

  /** `remainingQuantities[itemId] || 0`: a missing key reads as zero. */
  function Rem(remaining: map<int, real>, itemId: int): real {
    if itemId in remaining then remaining[itemId] else 0.0
  }

  predicate IsPair(a: Assignment, personId: int, itemId: int) {
    a.personId == personId && a.itemId == itemId
  }

  predicate HasPair(s: seq<Assignment>, personId: int, itemId: int) {
    exists j :: 0 <= j < |s| && IsPair(s[j], personId, itemId)
  }

  /** At most one assignment per (person, item) pair. */
  predicate Unique(s: seq<Assignment>) {
    forall j, k :: 0 <= j < k < |s| ==> !(s[j].personId == s[k].personId && s[j].itemId == s[k].itemId)
  }

  /** `findIndex` of the pair: the first matching position, or -1. */
  function FindPair(s: seq<Assignment>, personId: int, itemId: int): (r: int)
    ensures -1 <= r < |s|
    ensures r == -1 <==> !HasPair(s, personId, itemId)
    ensures r >= 0 ==> IsPair(s[r], personId, itemId)
    ensures r >= 0 ==> forall j :: 0 <= j < r ==> !IsPair(s[j], personId, itemId)
  {
    if |s| == 0 then -1
    else if IsPair(s[0], personId, itemId) then 0
    else
      var k := FindPair(s[1..], personId, itemId);
      if k == -1 then
        assert forall j :: 1 <= j < |s| ==> s[j] == s[1..][j - 1];
        -1
      else
        k + 1
  }

  /**
   * The replace-or-append step of `handleItemAssignment`: an existing entry
   * for the pair gets the new quantity in place; otherwise a new entry goes
   * at the end.
   */
  function Place(s: seq<Assignment>, personId: int, itemId: int, quantity: int): (r: seq<Assignment>)
    ensures HasPair(s, personId, itemId) ==>
              && |r| == |s|
              && forall j :: 0 <= j < |s| ==>
                   r[j] == (if j == FindPair(s, personId, itemId) then s[j].(quantity := quantity) else s[j])
    ensures !HasPair(s, personId, itemId) ==> r == s + [Assignment(itemId, personId, quantity)]
    ensures Unique(s) ==> Unique(r)
  {
    var j := FindPair(s, personId, itemId);
    if j != -1 then s[j := s[j].(quantity := quantity)] else s + [Assignment(itemId, personId, quantity)]
  }

  /**
   * `handleItemAssignment` as written: refused (nothing changes) when the
   * quantity exceeds the remaining units of the item; otherwise the pair is
   * placed and the FULL new quantity is subtracted from the remaining units,
   * even when it overwrites an earlier quantity for the same pair.
   */
  function Assign(l: Ledger, personId: int, itemId: int, quantity: int): (r: Ledger)
    ensures quantity as real > Rem(l.remaining, itemId) ==> r == l
    ensures quantity as real <= Rem(l.remaining, itemId) ==>
              && r.entries == Place(l.entries, personId, itemId, quantity)
              && itemId in r.remaining
              && r.remaining[itemId] == Rem(l.remaining, itemId) - quantity as real
    ensures forall k :: k != itemId ==> (k in r.remaining <==> k in l.remaining)
    ensures forall k :: k != itemId && k in l.remaining ==> r.remaining[k] == l.remaining[k]
  {
    var left := Rem(l.remaining, itemId);
    if quantity as real > left then l
    else Ledger(Place(l.entries, personId, itemId, quantity), l.remaining[itemId := left - quantity as real])
  }

  /** What a pair holds now: its stored quantity, or 0 when it has no entry. */
  function Prior(s: seq<Assignment>, personId: int, itemId: int): int {
    var j := FindPair(s, personId, itemId);
    if j == -1 then 0 else s[j].quantity
  }

  /**
   * The evidently intended assignment: the quantity may use the
   * remaining units plus what the pair already holds, and the remaining units
   * drop by the difference between the new and the old quantity.
   */
  function AssignCorrected(l: Ledger, personId: int, itemId: int, quantity: int): (r: Ledger)
    ensures var avail := Rem(l.remaining, itemId) + Prior(l.entries, personId, itemId) as real;
            && (quantity as real > avail ==> r == l)
            && (quantity as real <= avail ==>
                  && r.entries == Place(l.entries, personId, itemId, quantity)
                  && itemId in r.remaining && r.remaining[itemId] == avail - quantity as real)
    ensures forall k :: k != itemId ==> (k in r.remaining <==> k in l.remaining)
    ensures forall k :: k != itemId && k in l.remaining ==> r.remaining[k] == l.remaining[k]
  {
    var avail := Rem(l.remaining, itemId) + Prior(l.entries, personId, itemId) as real;
    if quantity as real > avail then l
    else Ledger(Place(l.entries, personId, itemId, quantity), l.remaining[itemId := avail - quantity as real])
  }

  /** The units of an item one assignment accounts for. */
  function Units(a: Assignment, itemId: int): real {
    if a.itemId == itemId then a.quantity as real else 0.0
  }

  /** The units of an item over all assignments. */
  function AssignedQty(s: seq<Assignment>, itemId: int): real {
    if |s| == 0 then 0.0 else AssignedQty(s[..|s| - 1], itemId) + Units(s[|s| - 1], itemId)
  }

  lemma AssignedQtyAppend(s: seq<Assignment>, a: Assignment, itemId: int)
    ensures AssignedQty(s + [a], itemId) == AssignedQty(s, itemId) + Units(a, itemId)
  {
    assert (s + [a])[..|s|] == s;
  }

  lemma {:induction false} AssignedQtyUpdate(s: seq<Assignment>, j: int, a: Assignment, itemId: int)
    requires 0 <= j < |s|
    ensures AssignedQty(s[j := a], itemId) == AssignedQty(s, itemId) - Units(s[j], itemId) + Units(a, itemId)
    decreases |s|
  {
    var t := s[j := a];
    var n := |s| - 1;
    if j == n {
      assert t[..n] == s[..n];
    } else {
      assert t[..n] == s[..n][j := a];
      AssignedQtyUpdate(s[..n], j, a, itemId);
    }
  }

  /** Placing a pair moves that item's assigned units from the pair's prior quantity to the new one. */
  lemma PlaceAssignedQty(s: seq<Assignment>, personId: int, itemId: int, quantity: int, k: int)
    ensures AssignedQty(Place(s, personId, itemId, quantity), k)
            == AssignedQty(s, k) + (if k == itemId then (quantity - Prior(s, personId, itemId)) as real else 0.0)
  {
    var j := FindPair(s, personId, itemId);
    if j == -1 {
      AssignedQtyAppend(s, Assignment(itemId, personId, quantity), k);
    } else {
      AssignedQtyUpdate(s, j, s[j].(quantity := quantity), k);
    }
  }

  /** Remaining units never negative, pairs unique, stored quantities positive. */
  predicate WellFormed(l: Ledger) {
    && (forall k :: k in l.remaining ==> l.remaining[k] >= 0.0)
    && Unique(l.entries)
    && (forall j :: 0 <= j < |l.entries| ==> l.entries[j].quantity > 0)
  }

  predicate Keys(l: Ledger, caps: seq<real>) {
    && (forall i :: 0 <= i < |caps| ==> i in l.remaining)
    && (forall k :: k in l.remaining ==> 0 <= k < |caps|)
    && (forall j :: 0 <= j < |l.entries| ==> 0 <= l.entries[j].itemId < |caps|)
  }

  /**
   * The conservation the as-written ledger keeps for item quantities `caps`:
   * assigned plus remaining units never exceed the item's quantity.
   */
  predicate Bounded(l: Ledger, caps: seq<real>) {
    && WellFormed(l)
    && Keys(l, caps)
    && forall i :: 0 <= i < |caps| ==> AssignedQty(l.entries, i) + l.remaining[i] <= caps[i]
  }

  /** The exact conservation the Done check relies on: assigned plus remaining units equal the item's quantity. */
  predicate Conserved(l: Ledger, caps: seq<real>) {
    && WellFormed(l)
    && Keys(l, caps)
    && forall i :: 0 <= i < |caps| ==> AssignedQty(l.entries, i) + l.remaining[i] == caps[i]
  }

  /** The ledger `onSubmit` installs for a fresh receipt: nothing assigned, every item fully remaining. */
  function Fresh(caps: seq<real>): (l: Ledger)
    ensures l.entries == []
    ensures forall i :: 0 <= i < |caps| <==> i in l.remaining
    ensures forall i :: 0 <= i < |caps| ==> l.remaining[i] == caps[i]
  {
    Ledger([], map i | 0 <= i < |caps| :: caps[i])
  }

  lemma FreshConserved(caps: seq<real>)
    requires forall i :: 0 <= i < |caps| ==> caps[i] >= 0.0
    ensures Conserved(Fresh(caps), caps) && Bounded(Fresh(caps), caps)
  {
  }

  lemma PriorNonNeg(l: Ledger, personId: int, itemId: int)
    requires WellFormed(l)
    ensures Prior(l.entries, personId, itemId) >= 0
  {
  }

  /** A positive assignment keeps remaining units non-negative, pairs unique and quantities positive. */
  lemma AssignKeepsWellFormed(l: Ledger, personId: int, itemId: int, quantity: int)
    requires WellFormed(l) && quantity > 0
    ensures WellFormed(Assign(l, personId, itemId, quantity))
  {
  }

  /** A positive assignment keeps assigned plus remaining units within each item's quantity. */
  lemma AssignKeepsBounded(l: Ledger, caps: seq<real>, personId: int, itemId: int, quantity: int)
    requires Bounded(l, caps) && quantity > 0
    ensures Bounded(Assign(l, personId, itemId, quantity), caps)
  {
    var r := Assign(l, personId, itemId, quantity);
    AssignKeepsWellFormed(l, personId, itemId, quantity);
    if quantity as real <= Rem(l.remaining, itemId) {
      assert itemId in l.remaining;
      forall i | 0 <= i < |caps|
        ensures AssignedQty(r.entries, i) + r.remaining[i] <= caps[i]
      {
        PlaceAssignedQty(l.entries, personId, itemId, quantity, i);
        PriorNonNeg(l, personId, itemId);
      }
    }
  }

  /** The corrected assignment also keeps remaining units non-negative, pairs unique and quantities positive. */
  lemma AssignCorrectedKeepsWellFormed(l: Ledger, personId: int, itemId: int, quantity: int)
    requires WellFormed(l) && quantity > 0
    ensures WellFormed(AssignCorrected(l, personId, itemId, quantity))
  {
  }

  /** The corrected assignment keeps the exact conservation. */
  lemma AssignCorrectedConserves(l: Ledger, caps: seq<real>, personId: int, itemId: int, quantity: int)
    requires Conserved(l, caps) && quantity > 0
    ensures Conserved(AssignCorrected(l, personId, itemId, quantity), caps)
  {
    var r := AssignCorrected(l, personId, itemId, quantity);
    var avail := Rem(l.remaining, itemId) + Prior(l.entries, personId, itemId) as real;
    AssignCorrectedKeepsWellFormed(l, personId, itemId, quantity);
    if quantity as real <= avail {
      assert itemId in l.remaining;
      forall i | 0 <= i < |caps|
        ensures AssignedQty(r.entries, i) + r.remaining[i] == caps[i]
      {
        PlaceAssignedQty(l.entries, personId, itemId, quantity, i);
      }
    }
  }

  /**
   * The as-written assignment loses units: re-assigning a pair that already
   * holds units overwrites them, yet the full new quantity still leaves the
   * remaining count, so assigned plus remaining falls short of the item's
   * quantity by exactly what the pair held before.
   */
  lemma ReassignLosesUnits(l: Ledger, caps: seq<real>, personId: int, itemId: int, quantity: int)
    requires Conserved(l, caps) && quantity > 0 && 0 <= itemId < |caps|
    requires Prior(l.entries, personId, itemId) > 0 && quantity as real <= Rem(l.remaining, itemId)
    ensures var r := Assign(l, personId, itemId, quantity);
            AssignedQty(r.entries, itemId) + r.remaining[itemId] == caps[itemId] - Prior(l.entries, personId, itemId) as real
  {
    PlaceAssignedQty(l.entries, personId, itemId, quantity, itemId);
  }

  /** No remaining entry above zero: the completion test of `handleDone`. */
  predicate AllAssigned(remaining: map<int, real>) {
    forall k :: k in remaining ==> remaining[k] <= 0.0
  }

  lemma NonEmptyHasKey(s: set<int>)
    requires s != {}
    ensures exists k :: k in s
  {
    if forall k :: k !in s {
      assert false;
    }
  }

  /** The `for … in` loop of `handleDone`, stopping at the first item with units left. */
  method CheckAllAssigned(remaining: map<int, real>) returns (allAssigned: bool)
    ensures allAssigned <==> AllAssigned(remaining)
  {
    allAssigned := true;
    var pending := remaining.Keys;
    while pending != {}
      invariant pending <= remaining.Keys
      invariant forall k :: k in remaining && k !in pending ==> remaining[k] <= 0.0
      decreases pending
    {
      NonEmptyHasKey(pending);
      var k :| k in pending;
      if Rem(remaining, k) > 0.0 {
        allAssigned := false;
        break;
      }
      pending := pending - {k};
    }
  }

  /** Under the exact conservation, the completion test passes exactly when every unit is assigned. */
  lemma {:induction false} CompleteIffFullyAssigned(l: Ledger, caps: seq<real>)
    requires Conserved(l, caps)
    ensures AllAssigned(l.remaining) <==> forall i :: 0 <= i < |caps| ==> AssignedQty(l.entries, i) == caps[i]
  {
    if forall i :: 0 <= i < |caps| ==> AssignedQty(l.entries, i) == caps[i] {
      forall k | k in l.remaining
        ensures l.remaining[k] <= 0.0
      {
        assert 0 <= k < |caps|;
      }
    }
  }

  /** Under the weaker conservation, completion only says that no item is over-assigned. */
  lemma CompleteBounded(l: Ledger, caps: seq<real>)
    requires Bounded(l, caps)
    ensures forall i :: 0 <= i < |caps| ==> AssignedQty(l.entries, i) <= caps[i]
    ensures AllAssigned(l.remaining) <==> forall i :: 0 <= i < |caps| ==> l.remaining[i] == 0.0
  {
  }
}
