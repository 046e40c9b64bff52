# Email pipeline: a Dafny model of its decision logic

The email pipeline classifies incoming shopping emails and routes each one to
one of six extraction nodes:

- order confirmation;
- shipping confirmation;
- shipping update;
- refund;
- return confirmation;
- return update.

Each node asks a language model for structured JSON. It then matches the
extracted items against rows already in the store. Finally it updates those
rows or inserts new ones.

This project models the deterministic part of that pipeline:

- the category router and the workflow graph;
- the item-description normaliser;
- the reply clean-up and the two match guards of the model client;
- the returns reconciliation cascade that the three returns nodes share;
- the shipping-confirmation and shipping-update matchers;
- the order row builder;
- the derivation of the realtime endpoint URL.

Outside effects are replaced as follows:

- The language model is a parameter. A `Decoder` stands for JSON decoding, and a `Reply` for the chat request.
- Reads from the store are a function from (writes issued so far, query) to rows. So a later item sees the updates of an earlier one.
- Writes are returned as values: `Insert(table, rows)` or `Update(table, equalities, payload)`. They are never performed.
- A node's run is `Returned(result, writes)` or `Raised(writes)`. An exception the node does not catch ends it after the writes already issued. Examples are `.get` on a reply that is not an object, `.lower()` or `.strip()` on a value that is not a string, and `{**a, **b}` on values that are not objects.

The modules are:

| file | module | models |
|---|---|---|
| text.dfy | `Text` | ASCII `lower`, `strip`, substring tests |
| values.dfy | `Values` | JSON values, records, Python truthiness, `dict.get`, `or` |
| store.dfy | `Store` | queries, filters (`eq`, `ilike`), write operations, a faithful store, a node's run |
| extractor.dfy | `Extractor` | `query_openai` clean-up and failure contract, the two match guards |
| router.dfy | `Router` | `router` and the edge table |
| item_details.dfy | `ItemDetails` | `parse_item_details` |
| returns.dfy | `Returns` | the refund, return-confirmation and return-update nodes |
| shipping.dfy | `Shipping` | the shipping-confirmation node |
| shipping_update.dfy | `ShippingUpdate` | `clean_field` and the shipping-update node |
| order.dfy | `Order` | the order-confirmation node |
| realtime.dfy | `Realtime` | `get_realtime_url` |

`Faithful(store)` says that every row the store returns satisfies every filter of the query. Properties about what a query found assume it. The rest hold for any store.

Behaviours of the code worth knowing:

- **Id fields are not converted to strings.** The returns nodes replace each id with `v or ""`. A truthy non-string id is kept as it is (`Returns.Merge`).
- **The model's returns match is checked with Python's `==`, not identity.** An answer is accepted when it equals a candidate, with `True == 1`, and the answer itself is returned (`Extractor.BoolAsNumberAccepted`).
- **The deterministic pass tests containment, not similarity.** An item description "hoodie, blue" is not contained in "Blue Hoodie" (`Returns.ReorderedDescriptionNoMatch`). So such an item goes to the language model and is not matched field by field.
- **Layout 1 does not split at the first period.** It splits at the first period for which the rest of the pattern matches. The lazy group backtracks to later periods (`ItemDetails.Layout1Characterised`).

## Model

| member | source | states |
|---|---|---|
| Router.RouteIgnoresCase | email_pipeline/workflow/graph.py:44 | the route depends only on the lower-cased category |
| Router.RouteOfAbsent | email_pipeline/workflow/graph.py:44 | an absent or empty category goes to END |
| Router.OrderConfirmationFirst | email_pipeline/workflow/graph.py:46-47 | a category containing "order confirmation" goes to the order node, whatever else it contains |
| Router.RefundBeatsShippingAndReturns | email_pipeline/workflow/graph.py:48-49 | without "order confirmation", "refund" goes to the refund node |
| Router.OrderUpdateBeforeShippingUpdate | email_pipeline/workflow/graph.py:50-53 | "order update" or "shipping confirmation" goes to the shipping node before "shipping update" is checked |
| Router.SharedExample | email_pipeline/workflow/graph.py:50-53 | "we've shipped your order update" goes to the shipping node |
| Router.ReturnUpdateNeverConfirmation | email_pipeline/workflow/graph.py:54-57 | a category containing "return update" never reaches the return-confirmation node |
| Router.ReturnUpdateBeforeConfirmation | email_pipeline/workflow/graph.py:54-57 | with no earlier key, "return update" goes to the return-update node |
| Router.ReturnUpdateExample | email_pipeline/workflow/graph.py:54-55 | "return update requested" goes to the return-update node |
| Router.EndIffNoKey | email_pipeline/workflow/graph.py:46-63 | END exactly when the lower-cased category contains none of the seven key phrases |
| Router.NoKeyWithoutLetters | email_pipeline/workflow/graph.py:46-63 | a lower-case category lacking the letters every key needs goes to END |
| Router.IgnoredCategoriesEnd | email_pipeline/workflow/graph.py:60-61 | "promos", "goods receipt" and "services receipt" go to END |
| Router.UnknownEnd | email_pipeline/workflow/graph.py:63 | "unknown", the classifier's fallback, goes to END |
| Router.RouteOfLowerCase | email_pipeline/workflow/graph.py:44 | a category without upper-case letters is routed as it is |
| Router.EdgesDescend | email_pipeline/workflow/graph.py:67-73 | every edge lowers the distance to END; pipeline nodes lead only to END; nothing leads back to classify |
| Router.ClassifyEdgeIsRouter | email_pipeline/workflow/graph.py:67 | the classifier's conditional edge reaches the node the router names |
| Router.PathDescends | email_pipeline/workflow/graph.py:67-73 | along any path the distance to END drops by one per step |
| Router.PathsAreShort | email_pipeline/workflow/graph.py:67-73 | no path has more than three nodes: classify, one pipeline node, END |
| ItemDetails.ParseItemDetailsShape | email_pipeline/parser/email_parser.py:32-50 | an empty description gives ("", "", ""); every part is stripped; base and size never contain a newline |
| ItemDetails.Layout1Characterised | email_pipeline/parser/email_parser.py:36 | the computed match succeeds exactly when the pattern `^(.*?)\.\s*([^,]+),\s*(.+)$` matches |
| ItemDetails.Layout1Shape | email_pipeline/parser/email_parser.py:38-41 | the three stripped groups of a layout 1 match are trimmed; base and size have no newline |
| ItemDetails.SimpleLayout1 | email_pipeline/parser/email_parser.py:36-41 | "Name. Colour, Size" with a period-free one-line name splits into exactly those parts |
| ItemDetails.OneLineExample | email_pipeline/parser/email_parser.py:36-41 | "Men's Slim Jeans. Blue, 32" gives ("Men's Slim Jeans", "Blue", "32") |
| ItemDetails.FirstLine | email_pipeline/parser/email_parser.py:44 | the first line is a prefix of the text that contains no newline, and it ends at the first newline or at the end |
| ItemDetails.NoLayout1BeforeNewline | email_pipeline/parser/email_parser.py:36 | a first line without a period rules layout 1 out |
| ItemDetails.LabelValueAtFirstOccurrence | email_pipeline/parser/email_parser.py:45-48 | the first case-insensitive occurrence of the label decides; its value is the rest of the line after the following whitespace, stripped |
| ItemDetails.LabelValueBlankAtFirstOccurrence | email_pipeline/parser/email_parser.py:45-48 | when only whitespace follows the first occurrence of the label, the value is "" |
| ItemDetails.MissingLabelIsEmpty | email_pipeline/parser/email_parser.py:47-48 | a label that occurs nowhere gives "" |
| ItemDetails.LabelOnAnyLine | email_pipeline/parser/email_parser.py:45-48 | a label on any line, in any case, yields that line's value, stripped |
| ItemDetails.MultiLineExample | email_pipeline/parser/email_parser.py:24 | "Product Name\nColor: xyz\nSize: abc" gives ("Product Name", "xyz", "abc") |
| ItemDetails.MultiLineColor | email_pipeline/parser/email_parser.py:45-47 | the colour label of the multi-line example is found on the second line |
| ItemDetails.MultiLineSize | email_pipeline/parser/email_parser.py:46-48 | the size label of the multi-line example is found on the third line |
| Extractor.StripTrailingCommas | email_pipeline/LLM/extractor.py:47 | the clean-up never lengthens the text |
| Extractor.CleanupErases | email_pipeline/LLM/extractor.py:47 | the clean-up output is exactly the characters of the input that lie in no match of `,\s*([}\]])` other than the match's bracket (`Survivors`, defined position by position through `Deleted`), in order |
| Extractor.CommaRunBracket | email_pipeline/LLM/extractor.py:47 | a comma, any whitespace run and a closing bracket leave only the bracket, and the scan resumes after it |
| Extractor.KeepsNonComma | email_pipeline/LLM/extractor.py:47 | a character other than a comma is kept where it is |
| Extractor.RunAfterCommaErased | email_pipeline/LLM/extractor.py:47 | whitespace after a comma goes with it: `,], ]` becomes `]]` (and likewise with `}`) |
| Extractor.SpaceAfterBracketKept | email_pipeline/LLM/extractor.py:47 | whitespace not preceded by a deleted comma stays: `,] ]` becomes `] ]` (and likewise with `}`) |
| Extractor.CleanupKeepsOtherCommas | email_pipeline/LLM/extractor.py:47 | the commas left are exactly those not followed by whitespace and a closing bracket |
| Extractor.CleanupIdentity | email_pipeline/LLM/extractor.py:47 | text without a trailing comma passes unchanged |
| Extractor.CleanupKeepsEnds | email_pipeline/LLM/extractor.py:47 | the last character is kept; the first is kept or replaced by a closing bracket |
| Extractor.CleanupKeepsTrimmed | email_pipeline/LLM/extractor.py:44-47 | a stripped reply stays stripped after the clean-up |
| Extractor.CleanupCommaFreePrefix | email_pipeline/LLM/extractor.py:47 | text before the first comma passes unchanged |
| Extractor.ObjectExample | email_pipeline/LLM/extractor.py:47 | `{"a": 1,}` becomes `{"a": 1}` |
| Extractor.SinglePassExample | email_pipeline/LLM/extractor.py:47 | one pass only: `,,]` becomes `,]` |
| Extractor.QueryDecodesCleanedReply | email_pipeline/LLM/extractor.py:44-49 | the decoder receives exactly the surviving characters of the stripped reply; it is stripped and keeps exactly the commas not followed by whitespace and a closing bracket |
| Extractor.QueryFailureIsNone | email_pipeline/LLM/extractor.py:51-58 | a failed request gives None |
| Extractor.MatchItem | email_pipeline/LLM/extractor.py:72-81 | no candidates gives {}; a non-empty result is the model's object answer and has an `entry_id` |
| Extractor.MatchItemAccepts | email_pipeline/LLM/extractor.py:81 | any object answer with an `entry_id` is accepted, candidate or not |
| Extractor.MatchReturnItem | email_pipeline/LLM/extractor.py:97-113 | no candidates gives {}; a non-empty result is the model's own answer, and it equals one of the candidates under Python's `==` |
| Extractor.MatchReturnItemAccepts | email_pipeline/LLM/extractor.py:107-110 | conversely, an answer equal to one of the candidates under `==` is accepted |
| Extractor.MemberIsPyIn | email_pipeline/LLM/extractor.py:108 | a candidate itself passes the membership test |
| Extractor.BoolAsNumberAccepted | email_pipeline/LLM/extractor.py:107-110 | an answer with `1` where the candidate has `true` is accepted, and the answer, not the candidate, is returned |
| Values.PyEqReflexive | email_pipeline/LLM/extractor.py:108 | every value equals itself under Python's `==` |
| Values.PyEqSymmetric | email_pipeline/LLM/extractor.py:108 | Python's `==` on decoded JSON is symmetric |
| Values.PyEqKeepsTruth | email_pipeline/LLM/extractor.py:108 | values equal under `==` are equally truthy |
| Values.TrueEqualsOne | email_pipeline/LLM/extractor.py:108 | `True == 1` although the two values differ, and so do dicts that hold them |
| Returns.Merge | email_pipeline/nodes/refund.py:49-52 | item fields override order-level fields; the three id fields are always present, truthy or "" |
| Returns.BlankIds | email_pipeline/nodes/refund.py:50-52 | each id field is made present: a truthy value is kept, anything else becomes ""; no other key changes |
| Returns.TierFilters | email_pipeline/nodes/refund.py:61-66 | one case-insensitive substring filter per tier field whose merged value is truthy, and no other |
| Returns.CandidatesContainIds | email_pipeline/nodes/return_confirmation.py:58-64 | under a faithful store every candidate contains each of its tier's ids that is a non-empty string, ignoring case |
| Returns.FieldTest | email_pipeline/nodes/refund.py:72 | a test raises exactly when the item's value is truthy and either it is not a string or the row's value is truthy and not a string; on text values it passes exactly when the item's value is empty or contained in the row's, ignoring case |
| Returns.FirstOther | email_pipeline/nodes/refund.py:71-74 | the first element other than the default decides, and the default comes out only when every element is the default: Python's short-circuiting `all`, and a chain of fallbacks |
| Returns.RowTestOfText | email_pipeline/nodes/refund.py:71-74 | on text values no test raises, and a row passes exactly when description, colour and size each match |
| Returns.FirstHit | email_pipeline/nodes/refund.py:70-77 | the scan stops at the first test that does not fail: at its index when it passes, with a raise when it raises, and past the end when every test fails |
| Returns.Pick | email_pipeline/nodes/refund.py:69-79 | the pick raises exactly when the field match raises; a row picked is {} or equals one of the candidates under Python's `==` |
| Returns.PickFirstMatch | email_pipeline/nodes/return_update.py:62-70 | the first field-by-field match is picked, whatever the model would say |
| Returns.PickAsksModel | email_pipeline/nodes/return_confirmation.py:66-77 | when every candidate fails the field match without raising, the model decides, given the item's description or the node's default |
| Returns.PickRaises | email_pipeline/nodes/refund.py:70-74 | a test that raises before any candidate has matched makes the pick raise |
| Returns.TierResult | email_pipeline/nodes/refund.py:82-91 | a tier whose ids are not all truthy yields nothing; a row a tier yields equals one of its candidates under `==` |
| Returns.GuardedChain | email_pipeline/nodes/refund.py:82-91 | three guarded assignments, each run only while nothing has been found, give the first result that is not "nothing" |
| Returns.CascadeIsChain | email_pipeline/nodes/refund.py:82-91 | the cascade equals the three guarded assignments of the code, a raise included |
| Returns.MatchedFromItsTier | email_pipeline/nodes/refund.py:70-91 | a matched row equals, under `==`, a candidate of a tier whose ids are all truthy, and every earlier tier yielded nothing |
| Returns.NoIdsNoMatch | email_pipeline/nodes/return_confirmation.py:80-89 | with neither a return id nor an order id no row is matched and nothing raises, whatever the other fields hold |
| Returns.TextNeverRaises | email_pipeline/nodes/refund.py:70-91 | when the item's match fields and the table's match columns hold text or nothing, the matching never raises |
| Returns.TierOfTextNeverRaises | email_pipeline/nodes/refund.py:83-91 | the same for each tier |
| Returns.SizeTestRaises | email_pipeline/nodes/refund.py:71-73 | with no description or colour in the item, a truthy size that is not a string raises against any row |
| Returns.NonTextSizeRaises | email_pipeline/nodes/refund.py:70-85 | with both ids and a first-tier candidate, such a size makes the matching raise |
| Returns.ReorderedDescriptionNoMatch | email_pipeline/nodes/refund.py:71-73 | "hoodie, blue" is not contained in "Blue Hoodie", ignoring case |
| Returns.Clean | email_pipeline/nodes/refund.py:94-97 | None values and a blank description are dropped; every other entry is kept unchanged |
| Returns.CleanIdempotent | email_pipeline/nodes/return_update.py:86-89 | cleaning a cleaned payload changes nothing |
| Returns.DropProtected | email_pipeline/nodes/refund.py:103-108 | a field is removed exactly when it is protected and truthy in the matched row |
| Returns.KeyWhere | email_pipeline/nodes/refund.py:111-116 | an equality on a key field is in the update filter exactly when the field is truthy in the matched row, with the row's value |
| Returns.WhereHoldsOfRow | email_pipeline/nodes/return_confirmation.py:107-113 | the matched row satisfies its own update filter |
| Returns.StepFor | email_pipeline/nodes/refund.py:93-126 | a raise in the matching propagates; nothing found queues the item; a row found is updated in the returns table; a queued row has no None |
| Returns.Reconcile | email_pipeline/nodes/refund.py:82-126 | the item raises exactly when the matching raised, and is queued exactly when nothing matched; an update targets the returns table; a queued row has no None |
| Returns.NoIdsQueued | email_pipeline/nodes/return_confirmation.py:120-122 | an item with neither id is queued, cleaned, whatever its other fields hold |
| Returns.UpdateKeepsProtected | email_pipeline/nodes/return_update.py:95-108 | a protected field reaches the payload only when the filter does not constrain it; a dropped one is constrained |
| Returns.UpdateOfRowKeepsProtected | email_pipeline/nodes/refund.py:102-116 | the same for the update of any matched row |
| Returns.ItemStep | email_pipeline/nodes/refund.py:49-126 | the merge raises unless the return info and the item are both objects; otherwise the merged item is reconciled |
| Returns.Loop | email_pipeline/nodes/refund.py:45-126 | without a raise every item gives exactly one update or one queued row; a raise ends the loop before the remaining items |
| Returns.LoopWrites | email_pipeline/nodes/refund.py:110-126 | the loop's updates target the returns table and its queued rows have no None |
| Returns.LoopAgrees | email_pipeline/nodes/refund.py:45-126 | two steps that agree on every item give the same loop |
| Returns.StepOfWellFormed | email_pipeline/nodes/refund.py:93-126 | on every item, an update the step issues targets the returns table and a row it queues has no None |
| Values.GetOrEmpty | email_pipeline/nodes/refund.py:36-37 | `get(k, empty) or empty`: the value when present and truthy, otherwise the empty default |
| Returns.Batch | email_pipeline/nodes/refund.py:129-131 | one insert of every queued row after the updates, and no insert when there is none |
| Returns.BatchShape | email_pipeline/nodes/refund.py:129-131 | after updates of the returns table, every write targets that table, only the last can be an insert, and an insert is never empty |
| Returns.ItemsRun | email_pipeline/nodes/refund.py:45-138 | the updates and then the batched insert, with the return info and the items returned; after a raise, only the updates issued before it |
| Returns.Node | email_pipeline/nodes/refund.py:32-138 | no extraction gives {} and no write; a truthy extraction that is not an object, or items that are not a list, raise before any write; otherwise the return info and items are returned; every write targets the returns table; only the last can be the insert, which is never empty, and a raise leaves no insert |
| Returns.NodeIsItemsRun | email_pipeline/nodes/refund.py:36-45 | for an object whose items are a list, the node is the loop over them |
| Returns.OneWritePerItem | email_pipeline/nodes/return_update.py:116-124 | the writes are the updates plus one batched insert, and updates plus queued rows number the items; after a raise, only updates were written and fewer than all items were handled |
| Returns.NumericSizeQueued | email_pipeline/nodes/refund.py:45-131 | `{"items": [{"return_item_size": 32}]}` is inserted as one cleaned row: without ids no tier runs, so the numeric size is never lowered |
| Returns.RefundNode | email_pipeline/nodes/refund.py:32-138 | no extraction gives {} and no write; a truthy non-object raises; a returned result holds the return info and the items; every write targets the returns table, and only the last can be the insert |
| Returns.ReturnConfirmationNode | email_pipeline/nodes/return_confirmation.py:32-135 | the same for the return-confirmation node |
| Returns.ReturnUpdateNode | email_pipeline/nodes/return_update.py:29-129 | the same for the return-update node |
| Returns.ConfirmationIsUpdate | email_pipeline/nodes/return_confirmation.py:40-135 | the return-confirmation and return-update nodes behave identically |
| Returns.MatchedSameUnderDefault | email_pipeline/nodes/return_confirmation.py:53 | with a description in the merged item, the description default does not change the match |
| Returns.StepSameUnderDefault | email_pipeline/nodes/return_confirmation.py:46-53 | an item whose merge carries a description steps the same under either default |
| Returns.RefundAgreesWhenDescPresent | email_pipeline/nodes/refund.py:56 | when every item has a description, the refund node behaves like the other two |
| Shipping.RawDesc | email_pipeline/nodes/shipping.py:39 | the item's description, stripped, or "" when absent |
| Shipping.ItemKeys | email_pipeline/nodes/shipping.py:35-44 | extracted colour and size win over the parsed ones; ids and base are stripped; the base is the parsed base |
| Shipping.Flexible | email_pipeline/nodes/shipping.py:56-59 | a substring filter exactly when the value is truthy |
| Shipping.PrimaryFilters | email_pipeline/nodes/shipping.py:51-63 | equality on order, base description and user, plus a substring filter for each known colour, size and SKU, and no other |
| Shipping.MatchedRows | email_pipeline/nodes/shipping.py:65-80 | the primary rows when there are any; otherwise at most the model's one answer, which has an `entry_id` |
| Shipping.FallbackTakesAnyEntry | email_pipeline/nodes/shipping.py:69-77 | with no primary row, the model's answer is taken whenever it has an `entry_id` |
| Shipping.Payload | email_pipeline/nodes/shipping.py:83-89 | exactly the nine shipping fields of the item and the address and zip code of the order, None included |
| Shipping.PayloadHasNoIdentity | email_pipeline/nodes/shipping.py:83-89 | the payload never writes an identifying column |
| Shipping.RowUpdates | email_pipeline/nodes/shipping.py:96-99 | one update per row by its `entry_id`, in order, stopping at the first row without one |
| Shipping.AllRowsUpdated | email_pipeline/nodes/shipping.py:96-99 | when every row has an `entry_id`, every row is updated |
| Shipping.ShipItem | email_pipeline/nodes/shipping.py:34-99 | no write without user, order and base; no write for an all-None payload; every write updates one row by `entry_id` with the payload |
| Shipping.ShipItemUpdatesPrimary | email_pipeline/nodes/shipping.py:51-99 | with all keys, primary rows and a non-empty payload, exactly the primary rows are updated |
| Shipping.ShipItems | email_pipeline/nodes/shipping.py:34-44 | the loop raises exactly when some item is not an object or holds a value its `strip` calls cannot take, stopping at the first such item |
| Shipping.ShipItemsByEntry | email_pipeline/nodes/shipping.py:34-99 | every write of the loop updates one row by its `entry_id` |
| Shipping.Node | email_pipeline/nodes/shipping.py:27-107 | returns {}; no extraction gives no write; a truthy non-object, or items that are not a list, raise before any write; otherwise the node raises exactly when some item raises; every write updates one row by its `entry_id` |
| ShippingUpdate.CleanField | email_pipeline/nodes/shipping_update.py:20-28 | non-strings unchanged; a string becomes None exactly when it strips to "null" in any case; otherwise a trimmed prefix of the stripped text, the ten-character date when it starts with one |
| ShippingUpdate.CleanFieldIdempotent | email_pipeline/nodes/shipping_update.py:20-28 | cleaning is idempotent and never leaves the text "null" |
| ShippingUpdate.CleanOfDate | email_pipeline/nodes/shipping_update.py:26-27 | text starting with a date is cut to the date |
| ShippingUpdate.CleanOfPaddedDate | email_pipeline/nodes/shipping_update.py:22-27 | a timestamp padded with whitespace that starts with a date is cleaned to the date |
| ShippingUpdate.CleanOfText | email_pipeline/nodes/shipping_update.py:23-28 | other text is only stripped |
| ShippingUpdate.CleanDateExample | email_pipeline/nodes/shipping_update.py:26-27 | " 2024-05-01T10:00:00Z " becomes "2024-05-01" |
| ShippingUpdate.CleanNullExample | email_pipeline/nodes/shipping_update.py:24-25 | " NULL" becomes None |
| ShippingUpdate.CleanTextExample | email_pipeline/nodes/shipping_update.py:22-28 | "  UPS " becomes "UPS"; a number is unchanged |
| ShippingUpdate.UpdatePayload | email_pipeline/nodes/shipping_update.py:76-81 | a key is in the payload exactly when it is extracted, not immutable and does not clean to None; values are cleaned |
| ShippingUpdate.UpdatePayloadStable | email_pipeline/nodes/shipping_update.py:76-81 | building a payload from a payload gives it back |
| ShippingUpdate.IdsOf | email_pipeline/nodes/shipping_update.py:31-44 | the user of the record and the stripped order id and tracking number |
| ShippingUpdate.FindRows | email_pipeline/nodes/shipping_update.py:50-67 | the lookup by order counts only with an order id and a non-empty answer; otherwise the lookup by user and tracking number |
| ShippingUpdate.FoundRowsMatch | email_pipeline/nodes/shipping_update.py:53-67 | under a faithful store every row found has the user and tracking number, and the order id when found by order |
| ShippingUpdate.Updates | email_pipeline/nodes/shipping_update.py:83-90 | one update per row filtered by user, tracking number and `entry_id`, stopping at the first row without one |
| ShippingUpdate.WritesAsWritten | email_pipeline/nodes/shipping_update.py:83-90 | the code's updates carry the cleaned payload |
| ShippingUpdate.AsWrittenNeedsOrderId | email_pipeline/nodes/shipping_update.py:61-67 | after an empty lookup by order, an update as written reaches its row exactly when that row has the order id |
| ShippingUpdate.FallbackExample | email_pipeline/nodes/shipping_update.py:83-90 | a row found by tracking number under another order is not reached as written, and is reached after the correction |
| ShippingUpdate.Writes | email_pipeline/nodes/shipping_update.py:83-90 | the corrected updates target `order_details` with the cleaned payload |
| ShippingUpdate.WritesReachTheirRows | email_pipeline/nodes/shipping_update.py:83-90 | under a faithful store every corrected update reaches the row it was issued for |
| ShippingUpdate.WritesAgreeOutsideFallback | email_pipeline/nodes/shipping_update.py:53-59 | without an order id, or with rows found by order, the correction changes nothing |
| ShippingUpdate.ExampleStore | email_pipeline/nodes/shipping_update.py:61-67 | the one-row example store answers faithfully |
| ShippingUpdate.Admit | email_pipeline/nodes/shipping_update.py:39-48 | a truthy non-object extraction, non-object shipping info, or an order id or tracking number that is truthy and not a string raises; without a user or a tracking number the node stops; otherwise the lookup runs with a user and a tracking number |
| ShippingUpdate.Node | email_pipeline/nodes/shipping_update.py:39-101 | returns {}; raises exactly when the checks before the lookup raise, and then writes nothing; no write when the node stops early; otherwise the updates as the code issues them |
| ShippingUpdate.NodeIntended | email_pipeline/nodes/shipping_update.py:39-101 | the node with the corrected updates: it raises and stops exactly as the code does |
| ShippingUpdate.NodeIntendedReaches | email_pipeline/nodes/shipping_update.py:50-90 | under a faithful store each update of the corrected node reaches the row found for it |
| ShippingUpdate.NodeIntendedAgrees | email_pipeline/nodes/shipping_update.py:53-90 | without an order id, or with rows found by order, the corrected node equals the code |
| Order.Pick | email_pipeline/nodes/order.py:66-67 | the extracted value when truthy, else the parsed one when non-empty, else None |
| Order.FieldListsDisjoint | email_pipeline/nodes/order.py:40-49 | no column is both an order field and an item field |
| Order.UserOutsideFieldLists | email_pipeline/nodes/order.py:71-76 | the user columns are neither order nor item fields |
| Order.Assemble | email_pipeline/nodes/order.py:71-76 | the merged row's keys and which part each value comes from |
| Order.UserPart | email_pipeline/nodes/order.py:72-73 | the user part holds exactly the email and the id of the email record |
| Order.Fixed | email_pipeline/nodes/order.py:62-68 | the four normalised item columns: base description, colour, size, SKU |
| Order.BuildRow | email_pipeline/nodes/order.py:45-76 | every row has exactly the user columns, the ten order fields and the sixteen item fields |
| Order.BuildRowNormalises | email_pipeline/nodes/order.py:62-68 | the description is the parsed base; colour and size follow the precedence; the SKU is never None |
| Order.BuildRowCopiesUser | email_pipeline/nodes/order.py:72-73 | the user columns come from the email record |
| Order.BuildRowCopiesOrder | email_pipeline/nodes/order.py:51-52 | the order columns come from the order info, absent ones as None |
| Order.BuildRowCopiesItem | email_pipeline/nodes/order.py:59 | the other item columns come from the item, absent ones as None |
| Order.OrderPartRecovered | email_pipeline/nodes/order.py:52 | the order part of a row is the projection of the order info |
| Order.RowDescriptionNormalised | email_pipeline/nodes/order.py:62-65 | the stored description is trimmed and one line; an empty one gives empty parts |
| Order.BuildRows | email_pipeline/nodes/order.py:57-77 | one row per item, in order |
| Order.Node | email_pipeline/nodes/order.py:33-89 | returns {}; raises, before any write, exactly when the extraction is a truthy non-object, the order info or the items have the wrong shape, or a description cannot be stripped; otherwise one insert of one row per item when there are items, and no write otherwise |
| Order.RowsShareOrder | email_pipeline/nodes/order.py:51-76 | all rows of one insert agree on the user and the order fields |
| Order.JeansRowExample | email_pipeline/nodes/order.py:62-68 | "Men's Slim Jeans. Blue, 32" gives a row with base, colour and size split out and SKU "" |
| Realtime.NextSlashes | email_pipeline/main.py:21 | the first `//` at or after a position, or the end |
| Realtime.SplitSlashes | email_pipeline/main.py:21 | the first piece is the text before the first `//`; there is one piece exactly when there is no `//` |
| Realtime.JoinSplit | email_pipeline/main.py:21 | joining the pieces with `//` gives the text back |
| Realtime.SplitPiecesFree | email_pipeline/main.py:21 | no piece contains `//` |
| Realtime.RealtimeUrl | email_pipeline/main.py:17-21 | `wss://`, then the text between the first and the second `//`, then `/realtime/v1` |
| Realtime.SupabaseExample | email_pipeline/main.py:19-21 | "https://abc.supabase.co" gives "wss://abc.supabase.co/realtime/v1" |
| Realtime.OneSeparator | email_pipeline/main.py:21 | with one `//`, the scheme is replaced and the host kept |
| Realtime.SecondSeparatorDrops | email_pipeline/main.py:21 | text after a second `//` is dropped |

## Left out

- The HTML-to-text conversion (email_pipeline/parser/email_parser.py:5-15) is left out because it calls an HTML library.
- The chat request of `query_openai` is a parameter (`Extractor.Reply`), as is `json.loads` (`Extractor.Decoder`). The prompts in prompts/templates.py are constant text the model consumes, so they are left out.
- The classifier (nodes/classify.py) is left out. It is a language-model call, and the router accepts any category string in its place.
- Everything in main.py except `get_realtime_url` is left out: the realtime subscription, the load tests, asyncio tasks and timings. These are concurrency, I/O and floating point.
- The store client construction and the graph compilation with its checkpointer (email_pipeline/workflow/graph.py:76) are left out because they hold no decision logic.
- Reads are not recorded as operations; only writes are returned.
- Store errors are not modelled. The response data of updates and inserts only decides what is logged.
- `print` logging is left out.
- `ilike '%v%'` is modelled as case-insensitive containment. The meaning of `%` and `_` inside the value is ignored.
- Store.Holds: an `ilike` filter whose value is not a string is sent as its Python `str` rendering, which is not modelled; such a filter constrains nothing in a faithful store.
- Values.PyEq: numbers compare as exact reals. Python compares the doubles that `json.loads` parses, so two decimal texts that round to the same double are equal there and unequal here.
- `lower`, `strip` and the regular expressions' `\s` and `\d` are modelled over ASCII. Unicode case folding, Unicode whitespace and Unicode digits are ignored.
- Python's `split("//")` is modelled only for the separator `//`.
- Shipping.RowUpdates: a row without `entry_id` raises inside the `try`. This is modelled as ending the item's updates; the exception object and its log line are left out.
- Exceptions that end a node are modelled as `Raised` with the writes issued before them. Their type, message and any log output are left out.
- Order.Node: an insert error is caught and logged by the source. The model returns the insert operation either way.
- Realtime.RealtimeUrl: requires a `//` in the URL. Without one the source raises an index error.

## Findings

| source | as written | input that shows it | evidently intended | confidence | as-written member | corrected member |
|---|---|---|---|---|---|---|
| email_pipeline/nodes/shipping_update.py:83-90 | every update adds `order_id = <extracted order id>` to its filter whenever an order id was extracted, including for rows found by the fallback lookup (lines 61-67) that ignores the order id | order info `{order_id: "A1", tracking_num: "T9"}` for user `u1`, and a table whose only row has user `u1`, order `B2`, tracking `T9`: the fallback finds the row, but the update filters on order `A1` and reaches nothing | the order id narrows the update only for rows found by the lookup by order, so every update reaches the row it was issued for | not executed | ShippingUpdate.Node, ShippingUpdate.WritesAsWritten, ShippingUpdate.AsWrittenNeedsOrderId, ShippingUpdate.FallbackExample | ShippingUpdate.NodeIntended, ShippingUpdate.NodeIntendedReaches, ShippingUpdate.Writes, ShippingUpdate.WritesReachTheirRows |
