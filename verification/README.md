# Bilbul bill splitting, modelled in Dafny

Bilbul splits a restaurant bill. A user uploads a photo of a receipt. A
server flow asks a language model for the items and the total, and checks
what comes back. The page then runs a split session:

- it creates the participants;
- it keeps a ledger of which person takes how many units of which item;
- it refuses to finish while units remain;
- it renders a plain-text summary with each person's total, written with
  `toFixed(2)`.

This project models that core:

- `src/ai/flows/extract-receipt-data.ts`, the server validator;
- the two session pages, `src/app/app/page.tsx` and `src/app/page.tsx`. They
  share one state record; where they differ, the model has one transition
  per variant.

Every operation is a pure function from a state to the next state. The
project proves:

- what each operation does;
- an invariant that every event preserves;
- that an anonymous visitor is redirected to sign in on the upload that delivers their first receipt, so only a signed-in session reaches the split;
- the round trip between the client's check and the wire form of a receipt;
- that the per-person totals add up to the whole assigned cost;
- one defect in the assignment ledger (see "## Findings").

Modules, one per file:

| file | module | models |
|---|---|---|
| `wrappers.dfy` | `Wrappers` | `Option` and `Result` |
| `text.dfy` | `Text` | decimal rendering of integers, `toFixed(2)` on exact reals |
| `receipt.dfy` | `Receipts` | the receipt, the raw JSON body, the client-side check, the item edit |
| `extraction.dfy` | `ExtractionFlow` | the server flow's checks and error messages |
| `people.dfy` | `People` | participant creation and renaming |
| `ledger.dfy` | `Ledgers` | assignments, remaining units, the Done check, and the corrected assignment |
| `split.dfy` | `Split` | per-person totals and the summary text |
| `session.dfy` | `Session` | the page state, every event handler, and the session invariant |
| `slider.dfy` | `Slider` | the "how it works" slider's wrap-around |
| `scenarios.dfy` | `Scenarios` | concrete runs: an even split, and the re-assignment defect |

JavaScript numbers are modelled as exact `real`s. Assignment quantities are
`int`s, because the only caller passes the literal `1`. A missing map key
reads as zero (`|| 0`). `%` truncates toward zero (`Slider.JsRem`).
`toFixed(2)` rounds to the nearest cent, and a tie goes to the larger value
(section 21.1.3.3 of ECMA-262). The network replies, the reCAPTCHA outcome,
the signed-in state and the stored "used once" flag are parameters of the
transitions.

## Model

| member | source | states |
|---|---|---|
| Text.NatText | src/app/page.tsx:242-246 | The decimal text of a whole number has at least one character, holds only digits, and has no leading zero. |
| Text.NatTextRoundTrip | src/app/page.tsx:242-246 | Reading the decimal text back gives the number it was written from. |
| Text.Cents | src/app/page.tsx:456 | The cents chosen by `toFixed(2)` are within half a cent of 100·x, and a tie goes to the larger value. |
| Text.ToFixed2Value | src/app/page.tsx:456 | For x ≥ 0 the output has a whole part, a '.' and exactly two digits. Read back, whole·100 + fraction equals the rounded cents of x. |
| Receipts.ToItem | src/app/page.tsx:288 | An item that passes the per-item test is stored as it was sent: its wire form is the raw item. |
| Receipts.ClientAccept | src/app/page.tsx:270-288 | A body is accepted if and only if: it is present, it has a non-empty item list, its total is truthy (present and non-zero), and every item has a name and a price and quantity above zero. An accepted body is stored unchanged: its wire form is the body. |
| Receipts.AcceptRoundTrip | src/app/app/page.tsx:197-215 | Send a receipt and check it again: the result is the same receipt exactly when it has items, a non-zero total, and named items with positive prices. Otherwise the result is rejection. |
| Receipts.SetNameAndPrice | src/app/page.tsx:530-545 | Saving an edit sets the name and price of the indexed line. It keeps that line's quantity, every other line, the line count and the total. |
| ExtractionFlow.Validate | src/ai/flows/extract-receipt-data.ts:74-94 | Each of the four errors is raised exactly when its check is the first to fail, in source order: no output; no items; total missing or ≤ 0; a bad item. The output is returned unchanged if and only if all checks pass. |
| ExtractionFlow.CheckOutput | src/ai/flows/extract-receipt-data.ts:74-94 | The guards and the item loop, stopping at the first bad item, compute exactly Validate's verdict. |
| ExtractionFlow.ServerAcceptedPassesClient | src/ai/flows/extract-receipt-data.ts:79-92 | Whatever the server flow returns also passes the client check, and it is stored unchanged. |
| ExtractionFlow.ClientTakesNegativeTotal | src/app/page.tsx:271 | The converse fails: a body with total -10 passes the client's truthiness test but is refused by the server with the total error. |
| People.InitPeople | src/app/page.tsx:242-246 | n people with ids 1..n in order, names "Person <id>", empty item lists and distinct ids. |
| People.Rename | src/app/page.tsx:495-501 | Every person with the id gets the new name. Ids, item lists, the list length and every other person are unchanged. |
| People.RenameLastWins | src/app/page.tsx:495-501 | Of two renames of one id, the second stays. Renaming keeps ids distinct. |
| People.RenameToSameName | src/app/page.tsx:495-501 | With distinct ids, renaming a person to their current name changes nothing. |
| Ledgers.FindPair | src/app/app/page.tsx:319-321 | `findIndex` returns -1 if and only if no entry has the (person, item) pair. Otherwise it returns an index holding the pair, and no earlier index holds it. |
| Ledgers.Place | src/app/app/page.tsx:317-331 | An existing entry for the pair gets the new quantity in place and nothing else moves. Otherwise exactly one entry is appended. Unique pairs stay unique. |
| Ledgers.Assign | src/app/app/page.tsx:307-337 | A quantity above the remaining units (missing reads as 0) is refused with no change. Otherwise the pair is placed and the remaining count drops by the full quantity. Other items' counts are unchanged. |
| Ledgers.AssignCorrected | src/app/app/page.tsx:307-337 | Corrected assignment: the units available are the remaining count plus what the pair already holds. The remaining count becomes available minus the new quantity. Other items are unchanged. |
| Ledgers.PlaceAssignedQty | src/app/app/page.tsx:317-331 | Placing changes the assigned units of the item by (new − previous quantity of the pair), and those of every other item by nothing. |
| Ledgers.Fresh | src/app/app/page.tsx:216-222 | The ledger installed after extraction has no assignments. It holds a remaining count for exactly the receipt's line indices, and line i's count is line i's quantity. |
| Ledgers.FreshConserved | src/app/page.tsx:290-296 | The ledger installed after extraction has assigned + remaining equal to the quantity of every line. |
| Ledgers.AssignKeepsWellFormed | src/app/page.tsx:375-405 | A positive assignment keeps remaining counts non-negative, pairs unique and stored quantities positive. |
| Ledgers.AssignKeepsBounded | src/app/page.tsx:375-405 | The assignment as written keeps assigned + remaining ≤ quantity for every line. |
| Ledgers.AssignCorrectedKeepsWellFormed | src/app/page.tsx:375-405 | The corrected assignment also keeps counts non-negative, pairs unique and quantities positive. |
| Ledgers.AssignCorrectedConserves | src/app/page.tsx:375-405 | The corrected assignment keeps assigned + remaining exactly equal to each line's quantity. |
| Ledgers.ReassignLosesUnits | src/app/app/page.tsx:323-336 | As written, re-assigning a pair that already holds units breaks conservation: afterwards assigned + remaining for the item is its quantity minus what the pair held before. |
| Ledgers.CheckAllAssigned | src/app/app/page.tsx:356-364 | The `for … in` loop with early exit reports "all assigned" if and only if no remaining count is above zero. |
| Ledgers.CompleteIffFullyAssigned | src/app/page.tsx:424-443 | Under exact conservation, the Done check passes if and only if every line's units are all assigned. |
| Ledgers.CompleteBounded | src/app/page.tsx:424-443 | Under the weaker bound, no line is over-assigned, and the Done check passes if and only if every remaining count is exactly 0. |
| Split.PersonTotalIsOwnCost | src/app/app/page.tsx:435-447 | A person's total is the summed cost of the sub-list of their own assignments: unit price × quantity for each one whose item is on the receipt. |
| Split.ItemLinesOfOwn | src/app/app/page.tsx:389-397 | A person's item lines are the lines of their own assignments, in list order. Nobody else's assignments contribute. |
| Split.BlockOfOwn | src/app/app/page.tsx:386-397 | A person's block is "<name>: $" with the cost of their own assignments to two decimals, then a newline, then those assignments' item lines. |
| Split.SummaryBlockAt | src/app/app/page.tsx:385-398 | In the summary, the k-th person's block comes after the blocks of everyone before them in the list and before the blocks of everyone after them. |
| Split.PeopleTotalIsTotalCost | src/app/page.tsx:503-515 | With distinct ids and every assignment's person listed, the sum of the people's totals equals the cost of all assignments. |
| Split.TotalCostByItem | src/app/page.tsx:503-515 | Summing cost per assignment equals summing unit price × assigned units per line. |
| Split.CostWithinReceipt | src/app/page.tsx:503-515 | With assigned + remaining ≤ quantity and non-negative prices, the assigned cost never exceeds the sum of line prices. |
| Split.CompleteCostsReceipt | src/app/page.tsx:503-515 | With exact conservation and the Done check passed, the assigned cost equals the sum of line prices. |
| Split.SummaryConcat | src/app/page.tsx:451-465 | The summary of two lists of people is the first list's summary followed by the second's: one block per person, in list order. |
| Split.ItemLinesConcat | src/app/page.tsx:457-464 | A person's item lines follow assignment order: older assignments' lines come first. |
| Split.OthersDoNotShow | src/app/page.tsx:457-464 | Another person's assignment, or one for an unlisted item, changes neither a person's total nor their lines. |
| Session.Initial | src/app/app/page.tsx:51-89 | The page-load state satisfies the session invariant. It is one the redirect leaves at once exactly when the visitor is anonymous and the stored used-once flag is set. |
| Session.Handle | src/app/app/page.tsx:226-231 | No handler changes the sign-in state. The used-once flag is set after a handler exactly when it was set before, or an anonymous visitor's upload delivered a receipt. |
| Session.Apply | src/app/app/page.tsx:91-96 | A page that has redirected takes no events. A signed-in visitor's event is just its handler. An anonymous first-time visitor is redirected exactly on the upload that delivers a receipt, and the page's state is then lost. |
| Session.AnonymousNeverSplits | src/app/app/page.tsx:91-96 | Whatever an anonymous visitor does, no receipt stays loaded, no extraction is recorded and the ledger stays empty. |
| Session.EnabledLineHasRoom | src/app/app/page.tsx:754 | In a valid session with a receipt, an enabled person button is on a receipt line whose units are not all held. |
| Session.Submit | src/app/page.tsx:226-323 | Refused when sign-in is required. Otherwise the people are created. With no image nothing else changes. A failed reply clears the receipt and returns to the upload step. A delivered receipt installs a fresh ledger, moves to the details step and marks an anonymous visitor; the other fields are kept. |
| Session.SubmitVerified | src/app/app/page.tsx:144-153 | Without a captcha token nothing changes. With one, it is Submit. |
| Session.SuggestChecked | src/app/app/page.tsx:252-292 | Without a receipt, without a response, or with a non-ok response, nothing changes. Otherwise the reply's text is shown in the result-only view at step 3. |
| Session.SuggestUnchecked | src/app/page.tsx:325-360 | Any response body is shown, whatever its status. With no receipt or no response nothing changes. |
| Session.AssignItem | src/app/page.tsx:375-405 | Only the ledger changes, and it changes by Ledgers.Assign. |
| Session.MarkDone | src/app/page.tsx:424-449 | With no remaining count above zero, the split is marked done at step 2. Otherwise nothing changes. |
| Session.ConfirmAdvanced | src/app/page.tsx:451-474 | The summary of the people, assignments and lines becomes the shown result, in the result-only view at step 3. Nothing else changes. |
| Session.StartOver | src/app/page.tsx:407-422 | Receipt, result, people, ledger, flags and image are cleared, and the page returns to the upload step. Sign-in state, the used-once flag, the result-only view and the edit buffer are kept. |
| Session.StartOverForgets | src/app/page.tsx:407-422 | Two sessions that agree on the kept fields are equal after Start Over. |
| Session.StartOverFromResultIsInitial | src/app/app/page.tsx:829-833 | Start Over from the result view gives the page-load state, apart from the edit buffer. |
| Session.EditItem | src/app/app/page.tsx:449-460 | An existing buffer is reopened unchanged. A new buffer takes the line's name and price, or "" and 0 without a receipt. The session invariant is kept. |
| Session.SaveEdit | src/app/page.tsx:530-545 | Without a receipt or a buffer nothing changes. Otherwise the buffer's name and price go into the line and edit mode ends. |
| Session.TypeName | src/app/app/page.tsx:603-608 | Only the open buffer's name changes. Its keys and the other buffers are unchanged. |
| Session.TypePrice | src/app/app/page.tsx:612-618 | Only the open buffer's price changes. Its keys and the other buffers are unchanged. |
| Session.CancelEdit | src/app/page.tsx:547-554 | Edit mode ends and the index's buffer is dropped. The other buffers and the rest of the state are kept. |
| Session.DisabledClickIsRefused | src/app/app/page.tsx:749-754 | After extraction, a disabled person button only hides a click the ledger would refuse anyway. |
| Session.HandleKeepsValid | src/app/app/page.tsx:307-486 | Every handler keeps the invariant: counts non-negative, pairs unique, assigned + remaining ≤ quantity with a receipt, nothing remaining once done, and the open edit has a buffer. |
| Session.ApplyKeepsValid | src/app/app/page.tsx:91-96 | Every event keeps the invariant, including one that ends in the redirect. |
| Session.ReachableValid | src/app/app/page.tsx:307-486 | Every state reachable by any event sequence from a valid state is valid. |
| Session.DoneIffNothingRemains | src/app/app/page.tsx:356-381 | In a valid session the Done check passes if and only if every remaining count is exactly 0. |
| Session.ValidCostWithinReceipt | src/app/app/page.tsx:435-447 | In a valid session with non-negative prices, the assigned cost never exceeds the sum of line prices. |
| Slider.JsRem | src/app/page.tsx:102-108 | JavaScript `%`: dividend = truncated quotient × divisor + result. The result has the dividend's sign and a smaller magnitude than the divisor. |
| Slider.Next | src/app/page.tsx:102-104 | From a slide index, the next index stays among the three slides. |
| Slider.Prev | src/app/page.tsx:106-108 | From a slide index, the previous index stays among the three slides. |
| Slider.PrevUndoesNext | src/app/page.tsx:102-108 | For every slide, previous after next and next after previous give back the same slide. |
| Slider.AddedLengthIsNeeded | src/app/page.tsx:107 | Without the added length, the previous of slide 0 would be -1. With it, it is the last slide. |
| Scenarios.LoadedState | src/app/app/page.tsx:144-231 | A signed-in visitor drops a photo and uploads one two-unit coffee line for two people. The page reaches step 1 with "Person 1", "Person 2", no assignments and 2 units remaining, and stays. |
| Scenarios.CoffeeSplitEvenly | src/app/app/page.tsx:383-404 | The signed-in session continues: click each person once on the coffee line (both buttons enabled), Done, Confirm. The result text is "Person 1: $5.00", one coffee line, "Person 2: $5.00", one coffee line. |
| Scenarios.ReassignFinishesEarly | src/app/app/page.tsx:307-381 | In the signed-in session, clicking "Person 1" twice (enabled both times) leaves one stored unit but zero remaining. Done then passes with one of the two units unassigned, and the assigned cost is 5.00 of 10.00. |
| Scenarios.AnonymousUploadLeaves | src/app/app/page.tsx:91-96 | The same upload by an anonymous first-time visitor ends in the page-load state with the used-once flag set. A click afterwards changes nothing. |
| Scenarios.CorrectedReassignKeepsUnitOpen | src/app/app/page.tsx:307-337 | With the corrected assignment the same clicks leave one unit remaining, so Done refuses. |

## Left out

- The language-model prompt and the `suggest-split` flow are not part of this model. Their outputs are parameters: the extraction output and the suggestion reply.
- The model does not include network I/O, `response.json()` parse failures or the reCAPTCHA script. Each becomes a parameter. A reply that does not arrive or does not parse is `ExtractionUnreachable` or `SuggestionUnreachable`.
- The redirect to `/auth` is modelled as the end of the page's state (`Session.Redirect`): every event goes through `Session.Apply`, which runs the handler and then the redirect. The `/auth` page itself, and the page mounting again after sign-in, are not modelled. A later mount is a new `Initial`.
- Signing in or out while the page is open is not modelled. `user` is fixed when the page loads, and the auth provider renders the page only after loading, so `authLoading` is always false.
- The `localStorage` read and write, toasts, confetti, the loading flag, the clipboard, window resizing and smooth scrolling are left out. The stored flag enters as `Initial`'s `usedBefore`. The write is implied by setting `hasSplitBill`.
- Error message texts on the client are left out. The server flow's messages are modelled (`ExtractionFlow.Message`).
- The model does not cover which cards and buttons are visible at which step. The exception is the person button's enabled test, which guards the ledger (`Session.AssignEnabled`).
- JavaScript floating point is modelled as exact reals. Rounding error in `price / quantity`, NaN, infinities and `toFixed` switching to exponent form at 1e21 are not modelled.
- Raw JSON fields of other types (a string price, a non-array `items`) are not modelled. A field is either absent or of the declared type.
- Fractional or non-positive assignment quantities are not modelled. The only caller passes 1.
- Session.EditItem: an out-of-range index with a receipt (a TypeError in the source) is modelled as no change.
- Session.SaveEdit: an index past the end with a buffer makes a sparse array in the source. In the model the receipt is unchanged and edit mode ends. A missing buffer (a TypeError in the source) is modelled as no change.
- Session.TypeName and Session.TypePrice: typing with no buffer creates a partial buffer in the source. The model makes no change. The inputs only render for the open edit, which always has a buffer in a valid session.
- The `Person.items` share list is declared but never filled by either page. It is kept empty.
- `handleStartOver` does not reset `editingItem`, `editedItems` or `showOnlyResult`, and the model keeps that behaviour. Only the result view's own button clears `showOnlyResult`.
- The two pages' events share one `Event` type. The root page's `Home` renders only the upload form, and only when the screen is not mobile. It never renders `HowItWorksSlider` or the split cards. Its handlers are modelled because they match the app page's. The slider is modelled as the component defines it, although nothing renders it.

## Findings

| source | as written | input that shows it | evidently intended | confidence | as-written member | corrected member |
|---|---|---|---|---|---|---|
| src/app/app/page.tsx:323-336 (same in src/app/page.tsx:391-404) | Re-assigning a (person, item) pair overwrites the stored quantity but still subtracts the full new quantity from `remainingQuantities`. | A signed-in user uploads one line with quantity 2 for two people and clicks "Person 1" twice. The entry holds 1 unit but 0 remain, so "Mark as Done" succeeds with one unit unassigned and only 5.00 of 10.00 distributed. | The remaining count drops by the difference between the new and the old quantity, and the availability test counts the pair's current units. Then assigned + remaining = quantity always holds, and Done means fully assigned. | not executed | Ledgers.ReassignLosesUnits | Ledgers.AssignCorrectedConserves |

`Ledgers.Assign` is the as-written behaviour, and it is the one the session
uses, so the session model stays faithful to the pages.
`Ledgers.ReassignLosesUnits` states the loss for every ledger, and
`Scenarios.ReassignFinishesEarly` replays it on a concrete receipt in a signed-in session. An anonymous visitor cannot reach it: the redirect ends their page on the upload that delivers a receipt (`Session.AnonymousNeverSplits`). What stays
true of the as-written assignment is `Ledgers.AssignKeepsBounded`: assigned +
remaining ≤ quantity. The
corrected `Ledgers.AssignCorrected` keeps exact conservation
(`Ledgers.AssignCorrectedConserves`). Under exact conservation the Done check
means "everything assigned" (`Ledgers.CompleteIffFullyAssigned`), and the
assigned cost then equals the receipt's line prices
(`Split.CompleteCostsReceipt`). `Scenarios.CorrectedReassignKeepsUnitOpen`
replays the same clicks on the corrected ledger.
