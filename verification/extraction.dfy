/**
 * The server-side checks that `extractReceiptDataFlow` runs on the model's
 * output before returning it (src/ai/flows/extract-receipt-data.ts). The
 * prompt call itself is an opaque input: its output is a parameter.
 */
module ExtractionFlow {
  import opened Wrappers
  import opened Receipts

  /** Why the flow refused an output; one per thrown error, in check order. */
  datatype Rejection = NoOutput | NoItems | BadTotal | BadItem

  /** The error message each refusal carries. */
  function Message(e: Rejection): string {
    match e
    case NoOutput => "Failed to extract receipt data. Please make sure you uploaded a clear receipt image."
    case NoItems => "No items found in the receipt. Please make sure you uploaded a clear receipt image."
    case BadTotal => "Invalid total amount. Please make sure you uploaded a clear receipt image."
    case BadItem => "Invalid item data detected. Please make sure you uploaded a clear receipt image."
  }

  predicate HasItems(o: RawReceipt) {
    o.items.Some? && |o.items.value| > 0
  }

  /** The total must be a number above zero (stricter than the client's truthiness test). */
  predicate TotalPositive(o: RawReceipt) {
    o.totalAmount.Some? && o.totalAmount.value > 0.0
  }

  /**
   * The checks in source order; the first that fails decides the refusal,
   * and an output that passes them all is handed back unchanged.
   */
  function Validate(output: Option<RawReceipt>): (r: Result<RawReceipt, Rejection>)
    ensures r == Err(NoOutput) <==> output.None?
    ensures r == Err(NoItems) <==> output.Some? && !HasItems(output.value)
    ensures r == Err(BadTotal) <==> output.Some? && HasItems(output.value) && !TotalPositive(output.value)
    ensures r == Err(BadItem) <==>
              && output.Some? && HasItems(output.value) && TotalPositive(output.value)
              && !AllItemsValid(output.value.items.value)
    ensures r.Ok? <==>
              && output.Some? && HasItems(output.value) && TotalPositive(output.value)
              && AllItemsValid(output.value.items.value)
    ensures r.Ok? ==> r.value == output.value
  {
    if output.None? then Err(NoOutput)
    else if !HasItems(output.value) then Err(NoItems)
    else if !TotalPositive(output.value) then Err(BadTotal)
    else if !AllItemsValid(output.value.items.value) then Err(BadItem)
    else Ok(output.value)
  }

  /** The flow's body as written: the guards, then the `for … of` loop over the items. */
  method CheckOutput(output: Option<RawReceipt>) returns (r: Result<RawReceipt, Rejection>)
    ensures r == Validate(output)
  {
    if output.None? {
      return Err(NoOutput);
    }
    var o := output.value;
    if o.items.None? || |o.items.value| == 0 {
      return Err(NoItems);
    }
    if o.totalAmount.None? || o.totalAmount.value <= 0.0 {
      return Err(BadTotal);
    }
    var items := o.items.value;
    for i := 0 to |items|
      invariant forall j :: 0 <= j < i ==> ItemValid(items[j])
    {
      var it := items[i];
      if it.name.None? || it.name.value == "" || it.price.None? || it.price.value <= 0.0
         || it.quantity.None? || it.quantity.value <= 0.0 {
        return Err(BadItem);
      }
    }
    return Ok(o);
  }

  /** Whatever the flow accepts also passes the client's own check. */
  lemma ServerAcceptedPassesClient(output: Option<RawReceipt>)
    requires Validate(output).Ok?
    ensures ClientAccept(output).Some?
    ensures FromReceipt(ClientAccept(output).value) == output.value
  {
  }

  /** The converse fails: the client takes a negative total that the flow refuses. */
  lemma ClientTakesNegativeTotal()
    ensures var o := RawReceipt(Some([RawItem(Some("Coffee"), Some(10.0), Some(2.0))]), Some(-10.0));
            ClientAccept(Some(o)).Some? && Validate(Some(o)) == Err(BadTotal)
  {
    var o := RawReceipt(Some([RawItem(Some("Coffee"), Some(10.0), Some(2.0))]), Some(-10.0));
    assert AllItemsValid(o.items.value);
  }
}
