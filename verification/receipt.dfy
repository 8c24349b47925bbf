/**
 * The receipt as the session holds it, the raw shape the extraction endpoint
 * returns, and the client-side acceptance check that turns one into the other
 * (the validation block of `onSubmit`, identical in both pages).
 */
module Receipts {
  import opened Wrappers

  /** A strictly positive amount: the type of every accepted item's quantity. */
  type Positive = x: real | x > 0.0 witness 1.0

  /** A line item; `price` is the price of the whole line, for all its units. */
  datatype Item = Item(name: string, price: real, quantity: Positive)

  datatype Receipt = Receipt(items: seq<Item>, totalAmount: real)

  /**
   * An item as it arrives over the wire. `None` stands for a field that is
   * absent, `null`, or (for the numeric fields) not of type number.
   */
  datatype RawItem = RawItem(name: Option<string>, price: Option<real>, quantity: Option<real>)

  datatype RawReceipt = RawReceipt(items: Option<seq<RawItem>>, totalAmount: Option<real>)

  /** JavaScript truthiness of a numeric field: present and not zero. */
  predicate Truthy(x: Option<real>) {
    x.Some? && x.value != 0.0
  }

  /** The per-item test: a non-empty name, and a price and quantity that are numbers above zero. */
  predicate ItemValid(it: RawItem) {
    && it.name.Some? && it.name.value != ""
    && it.price.Some? && it.price.value > 0.0
    && it.quantity.Some? && it.quantity.value > 0.0
  }

  predicate AllItemsValid(items: seq<RawItem>) {
    forall i :: 0 <= i < |items| ==> ItemValid(items[i])
  }

  /** The wire form of a typed item. */
  function FromItem(it: Item): RawItem {
    RawItem(Some(it.name), Some(it.price), Some(it.quantity))
  }

  /** The wire form of a typed receipt. */
  function FromReceipt(r: Receipt): RawReceipt {
    RawReceipt(Some(seq(|r.items|, i requires 0 <= i < |r.items| => FromItem(r.items[i]))), Some(r.totalAmount))
  }

  function ToItem(it: RawItem): (r: Item)
    requires ItemValid(it)
    ensures FromItem(r) == it
  {
    Item(it.name.value, it.price.value, it.quantity.value)
  }

  /**
   * The client check of an extraction response body: refused when the body
   * or its items are missing, the item list is empty, the total is falsy, or
   * some item fails ItemValid. A negative total is truthy and passes.
   * An accepted body is stored as it is.
   */
  function ClientAccept(body: Option<RawReceipt>): (r: Option<Receipt>)
    ensures r.Some? <==>
              && body.Some? && body.value.items.Some? && |body.value.items.value| > 0
              && Truthy(body.value.totalAmount) && AllItemsValid(body.value.items.value)
    ensures r.Some? ==> FromReceipt(r.value) == body.value
  {
    if body.None? || body.value.items.None? || |body.value.items.value| == 0 || !Truthy(body.value.totalAmount) then
      None
    else
      var items := body.value.items.value;
      if exists i :: 0 <= i < |items| && !ItemValid(items[i]) then
        None
      else
        var r := Receipt(seq(|items|, i requires 0 <= i < |items| => ToItem(items[i])), body.value.totalAmount.value);
        assert FromReceipt(r).items.value == items;
        Some(r)
  }

  /** What a receipt must look like for the client check to take it back. */
  predicate Acceptable(r: Receipt) {
    && |r.items| > 0
    && r.totalAmount != 0.0
    && forall i :: 0 <= i < |r.items| ==> r.items[i].name != "" && r.items[i].price > 0.0
  }

  /** Sending a receipt over the wire and checking it again returns it exactly when it is Acceptable. */
  lemma AcceptRoundTrip(r: Receipt)
    ensures ClientAccept(Some(FromReceipt(r))) == (if Acceptable(r) then Some(r) else None)
  {
    var raw := FromReceipt(r);
    var items := raw.items.value;
    assert forall i :: 0 <= i < |r.items| ==> items[i] == FromItem(r.items[i]);
    if Acceptable(r) {
      var a := ClientAccept(Some(raw));
      assert a.Some?;
      assert |a.value.items| == |r.items|;
      forall i | 0 <= i < |r.items|
        ensures a.value.items[i] == r.items[i]
      {
        assert FromItem(a.value.items[i]) == items[i];
      }
      assert a.value.items == r.items;
    } else if |r.items| > 0 && r.totalAmount != 0.0 {
      var i :| 0 <= i < |r.items| && !(r.items[i].name != "" && r.items[i].price > 0.0);
      assert !ItemValid(items[i]);
    }
  }

  /** The unit count of each line, by index: the quantities the ledger hands out. */
  function Quantities(items: seq<Item>): (caps: seq<real>)
    ensures |caps| == |items|
    ensures forall i :: 0 <= i < |items| ==> caps[i] == items[i].quantity as real && caps[i] > 0.0
  {
    seq(|items|, i requires 0 <= i < |items| => items[i].quantity as real)
  }

  /**
   * The item edit of `handleSaveEdit`: the name and price of the item at
   * `index` are replaced and its quantity kept. An index outside the list
   * leaves the receipt as it is.
   */
  function SetNameAndPrice(r: Receipt, index: int, name: string, price: real): (e: Receipt)
    ensures |e.items| == |r.items| && e.totalAmount == r.totalAmount
    ensures forall i :: 0 <= i < |r.items| ==> e.items[i].quantity == r.items[i].quantity
    ensures forall i :: 0 <= i < |r.items| && i != index ==> e.items[i] == r.items[i]
    ensures 0 <= index < |r.items| ==> e.items[index].name == name && e.items[index].price == price
  {
    if 0 <= index < |r.items| then
      r.(items := r.items[index := r.items[index].(name := name, price := price)])
    else
      r
  }
}
