# Settle-down expense allocation, modelled in Dafny

settle-down records a receipt and posts it to Settle Up. Each receipt line
item is charged either to one group member or to the whole group. The backend
then decides what each member owes.

1. **Direct costs.** Every line charged to one member is added to that
   member's running total. The totals keep the order in which the members
   first appear.
2. **Tax.** Each member's consolidated subtotal gets a tax, truncated to an
   integer. The tax is computed once per subtotal, not per item.
3. **Tax decision.** The backend sums all these taxes, all the subtotals and
   every shared item with its own truncated tax. Tax is added to the members
   only when this sum equals the receipt's total exactly.
4. **Shared items.** Each shared item is split equally among the group's
   members. Each piece also gets its own truncated tax when tax is being
   added.
5. **Weights.** The per-member amounts are scaled by 100, rounded and
   divided by their greatest common divisor. This gives the smallest integer
   weights with the same proportions as the rounded, scaled amounts.
6. **For whom.** The members whose weight is positive are listed, paired
   with their weights, as the transaction's `forWhom` entries.

With tax added and shared items present, the amounts need not add up to the
receipt's total. The decision counts the truncated tax of each whole shared
item, while each member's piece is credited the truncated tax of the piece.
For 90 shared by two at 10%, the decision counts 9, but the members are
credited 4 + 4. The regression case with a declared total of 198 therefore
allocates 197 (`Fixtures.SplitTaxExcludedShortfall`).

Separately, an uploaded receipt image is stored as
`media/<identifier>.<extension>`. Only the uploaded name's extension is kept.

Modules:

- `Numeric`: the Python built-ins the engine relies on, as exact functions.
  - `int()` of a float truncates toward zero.
  - `round()` rounds half to even.
  - `//` is floor division.
  - `math.gcd`, with its specification.
- `Allocation`: `_compute_transaction`.
  - It is imperative: one method per loop of the source, composed into
    `ComputeTransaction`.
  - The two `defaultdict`s are modelled as a `Ledger`: the insertion-ordered
    key sequence plus a map.
  - Every method is proved against the declarative reference `Allocate`.
- `AllocationFacts`: what the reference allocation guarantees.
  - Key order, and the tax decision.
  - What each member receives, with and without shared items.
  - Conservation of money.
- `Fixtures`: the seven regression cases of the repository's transaction
  tests, as equalities about `Allocate`.
- `Weights`: `_compute_weights`.
  - Its two failure modes (no shares; every share rounds to zero) are an
    explicit `Result`.
- `Splits`: the `for_whom` filter and its composition with the weights.
- `Storage`: `_get_file_destination`.
  - Python's `str.split` and `str.join` for one separator, with their round
    trips.
  - The extension and the destination path.

## Model

| member | source | states |
|---|---|---|
| Allocation.ComputeTransaction | backend_api/settleup_utils.py:110-156 | Given distinct group members, the amount map returned is exactly the reference allocation `Allocate`: the keys in insertion order and every amount. |
| Allocation.AccumulateCosts | backend_api/settleup_utils.py:127-128 | After the first loop, the keys are the members with a direct cost, in order of first appearance. Each amount is the sum of all that member's costs. |
| Allocation.ConsolidatedTaxes | backend_api/settleup_utils.py:131-132 | The tax map has exactly the keys of the totals. Each tax is the truncation of the member's consolidated subtotal times the rate. |
| Allocation.SharedTaxEstimate | backend_api/settleup_utils.py:135-139 | The accumulated shared estimate is the sum over shared items of the item plus its truncated tax, whether or not the group has members. |
| Allocation.ReconciliationCheck | backend_api/settleup_utils.py:141 | The flag is true exactly when the taxes, the subtotals and the shared estimate add up to the declared total. |
| Allocation.FoldTaxes | backend_api/settleup_utils.py:142-144 | The keys stay the same. Each direct-cost member's amount becomes their subtotal plus their own tax. |
| Allocation.CreditShare | backend_api/settleup_utils.py:149-154 | Crediting one member adds a portion of `s / n` to the dict entry (created at 0 if missing), plus the truncated tax of the portion when tax is folded. |
| Allocation.CreditGroup | backend_api/settleup_utils.py:148-154 | After the inner loop over the group, the ledger is the one before it with one `Piece` added to every group member. Members not yet present are appended in group order; other keys and amounts are unchanged. |
| Allocation.SplitOne | backend_api/settleup_utils.py:147-154 | One pass of the outer shared loop takes the ledger owed for the first `s` shared items to the ledger owed for the first `s + 1`, keys and amounts. |
| Allocation.SplitShared | backend_api/settleup_utils.py:147-154 | After the nested shared loop, the keys are the direct-cost members followed by the new group members. Each amount is the member's direct part plus, for group members, one portion of every shared item. |
| Allocation.AddTwice | backend_api/settleup_utils.py:151-154 | Two successive `+=` on a dict entry equal a single `+=` of the sum: the portion and its tax may be credited in two steps. |
| Allocation.AddTo | backend_api/settleup_utils.py:128 | `d[k] += x` on a `defaultdict(float)`: a missing key is appended with 0 + x; other keys and their order are untouched. |
| Allocation.AddToCount | backend_api/settleup_utils.py:132 | `d[k] += x` on a `defaultdict(int)`: a missing key starts at 0 and gets 0 + x; other keys keep their values. |
| Allocation.Dedup | backend_api/settleup_utils.py:127-128 | The insertion-ordered keys of a dict filled from a sequence: no repeats, and exactly the elements of the sequence. |
| AllocationFacts.DedupOrder | backend_api/settleup_utils.py:127-128 | Dict keys appear in order of first occurrence in the sequence that filled them. |
| AllocationFacts.DirectKeysOrder | backend_api/settleup_utils.py:127-128 | The direct-cost keys are distinct, are exactly the members named by some item, and are in order of first appearance among the items. |
| AllocationFacts.ResultKeysOrder | backend_api/settleup_utils.py:143-151 | The result's keys are the direct-cost members, then, only when there are shared items, the group members that have no direct cost, in group order. |
| AllocationFacts.DirectSubtotalsSum | backend_api/settleup_utils.py:127-128 | The direct totals over all keys add up to the cost of all items. |
| AllocationFacts.FoldDecision | backend_api/settleup_utils.py:135-141 | Tax is folded in exactly when the per-member taxes, the total cost of all items and the shared estimate equal the declared total. |
| AllocationFacts.ConsolidatedTaxExample | backend_api/settleup_utils.py:131-132 | The tax is taken on the consolidated subtotal: two items of 5 at 10% give a tax of 1, where taxing per item would give 0 + 0; against a total of 11 the member owes 11. |
| AllocationFacts.UntaxedWithoutShared | backend_api/settleup_utils.py:141-144 | Without tax and without shared items, each member owes exactly their subtotal, nobody else appears, and the amounts add up to the item costs. |
| AllocationFacts.TaxedWithoutShared | backend_api/settleup_utils.py:141-144 | With tax folded and no shared items, each direct-cost member owes their subtotal plus their own tax and nothing else; the amounts add up to the declared total. |
| AllocationFacts.NoSharedShape | backend_api/settleup_utils.py:142-156 | Without shared items, the result lists only the direct-cost members, each owing their direct part. |
| AllocationFacts.SharedSplit | backend_api/settleup_utils.py:147-154 | With shared items and a non-empty group, every group member owes their direct part plus the same shared portion. A direct-cost member outside the group owes only their direct part. The keys are in the order above. |
| AllocationFacts.EmptyGroupDropsShared | backend_api/settleup_utils.py:147-150 | With an empty group the shared loop credits nobody: the result holds only the direct parts, although the shared items entered the tax decision. |
| AllocationFacts.SharedPortionExact | backend_api/settleup_utils.py:150-151 | Without tax, n portions of the shared items give back the shared total exactly. |
| AllocationFacts.Conservation | backend_api/settleup_utils.py:127-156 | The amounts owed add up to the cost of all items, plus the members' own taxes when tax is folded, plus one shared portion per group member when there are shared items and members. |
| AllocationFacts.AllocateNonNeg | backend_api/settleup_utils.py:127-154 | With non-negative costs, shared amounts and tax percentage, every amount of the allocation is non-negative. |
| AllocationFacts.UntaxedConservation | backend_api/settleup_utils.py:127-156 | Without tax and with a non-empty group, the amounts owed add up to all item costs plus all shared amounts: no money is lost or created. |
| Fixtures.SingleMemberTaxExcluded | backend_api/tests/test_transaction.py:13-29 | 90 at 10% against 99 gives {m1: 99}. |
| Fixtures.SingleMemberTaxIncluded | backend_api/tests/test_transaction.py:31-47 | 100 at 10% against 100 gives {m1: 100}. |
| Fixtures.SplitTaxIncluded | backend_api/tests/test_transaction.py:49-66 | 100 direct plus 100 shared against 200 gives {m1: 150, m2: 50}. |
| Fixtures.SplitTaxExcluded | backend_api/tests/test_transaction.py:68-85 | 90 direct plus 90 shared at 10% against 198 gives {m1: 148, m2: 49}. |
| Fixtures.TwoMembersTaxIncluded | backend_api/tests/test_transaction.py:87-104 | 100 and 100 against 200 gives 100 each. |
| Fixtures.TwoMembersTaxExcluded | backend_api/tests/test_transaction.py:106-123 | 90 and 90 at 10% against 198 gives 99 each. |
| Fixtures.SplitTaxExcludedShortfall | backend_api/settleup_utils.py:139-154 | In the `SplitTaxExcluded` case, the allocated amounts add up to 197, one short of the declared 198. The reconciliation counts `int(90 * 0.1)` once, but each half is credited `int(45 * 0.1)`. |
| Fixtures.TwoMembersSplitTaxExcluded | backend_api/tests/test_transaction.py:125-143 | 90 and 90 plus 90 shared at 10% against 297 gives 148 each. |
| Numeric.Trunc | backend_api/settleup_utils.py:132 | `int()` of a number is its integer part toward zero: within 1 of the number and not past it. |
| Numeric.RoundHalfEven | backend_api/settleup_utils.py:100 | `round()` lands within 1/2 of the number, and on an exact tie it picks the even neighbour. |
| Numeric.FloorDiv | backend_api/settleup_utils.py:106 | `a // b` is the floor of the quotient, for either sign of the divisor. |
| Numeric.GcdSpec | backend_api/settleup_utils.py:103 | `math.gcd` divides both arguments, every common divisor divides it, and it is 0 only for (0, 0). |
| Weights.Scale | backend_api/settleup_utils.py:100 | Each scaled value is within 1/2 of 100 times the share; zero stays zero and non-negative stays non-negative. |
| Weights.GcdAll | backend_api/settleup_utils.py:103 | `reduce(math.gcd, ...)` divides every value and is 0 exactly when all values are 0. |
| Weights.GcdAllGreatest | backend_api/settleup_utils.py:103 | Every common divisor of the values divides the reduced GCD. |
| Weights.ComputeWeights | backend_api/settleup_utils.py:91-108 | The computation fails exactly for an empty input (`reduce` of nothing) or when every scaled share is 0 (division by a zero GCD); otherwise there is one weight per share. |
| Weights.WeightsExact | backend_api/settleup_utils.py:100-106 | Each weight times the GCD is its scaled share, and the weights are in the same proportions as the scaled shares. |
| Weights.WeightsMinimal | backend_api/settleup_utils.py:103-106 | The weights cannot be reduced further: their GCD is 1. |
| Weights.WeightSign | backend_api/settleup_utils.py:100-106 | For non-negative shares, a zero share has weight 0, every weight is non-negative, and a weight is positive exactly when the rounded scaled share is. |
| Weights.DocExample | backend_api/settleup_utils.py:96-97 | The docstring example: shares 36 and 64 give weights 9 and 16. |
| Weights.EqualSharesExample | backend_api/settleup_utils.py:100-106 | Equal shares give unit weights. |
| Splits.ForWhom | backend_api/settleup_utils.py:177 | No longer than either input, and every listed weight is positive. |
| Splits.ForWhomMembers | backend_api/settleup_utils.py:177 | An entry is listed exactly when some position pairs that member id with that weight and the weight is positive. |
| Splits.ForWhomAppend | backend_api/settleup_utils.py:177 | The filter keeps key order: on aligned blocks it distributes over concatenation. |
| Splits.ForWhomDistinct | backend_api/settleup_utils.py:177 | Distinct keys yield at most one entry per member. |
| Splits.BuildSplits | backend_api/settleup_utils.py:174-177 | Fails exactly when the weights fail; on success no member is listed twice. |
| Splits.ZeroNeverListed | backend_api/settleup_utils.py:174-177 | A member whose amount is exactly 0 gets weight 0 and is never listed, whatever the sign of the other amounts. |
| Splits.AllocationSplits | backend_api/settleup_utils.py:166-177 | For the ledger `_compute_transaction` returns on non-negative costs, shared amounts and tax percentage: a member is listed exactly when 100 times their amount rounds to a positive integer, and a member owing 0 is never listed. |
| Splits.SplitsListPositive | backend_api/settleup_utils.py:174-177 | For non-negative amounts, a member is listed exactly when 100 times their amount rounds to a positive integer; a member owing 0 is never listed. |
| Splits.SplitsExample | backend_api/settleup_utils.py:174-177 | Amounts 148 and 49 give weights 148 and 49, both listed in key order. |
| Storage.SplitOn | backend_api/models.py:17 | `split` gives at least one piece, and no piece contains the separator. |
| Storage.JoinSplit | backend_api/models.py:17 | Joining the pieces of a split with the separator rebuilds the text. |
| Storage.SplitJoin | backend_api/models.py:17 | Splitting a join of separator-free pieces gives the pieces back. |
| Storage.SplitAround | backend_api/models.py:17 | Splitting at one separator concatenates the pieces of the two sides. |
| Storage.Extension | backend_api/models.py:17 | The extension contains no dot and is no longer than the name. |
| Storage.ExtensionNoDot | backend_api/models.py:17 | A name with no dot is its own extension. |
| Storage.ExtensionAfterLastDot | backend_api/models.py:17 | The extension of `stem.ext` with a dot-free `ext` is `ext`: the text after the last dot. |
| Storage.ExtensionSuffix | backend_api/models.py:17 | The extension is either the whole name or a suffix preceded by a dot. |
| Storage.FileDestination | backend_api/models.py:16-19 | The path always starts with `media/` and is longer than it. |
| Storage.DestinationShape | backend_api/models.py:16-19 | The stored path keeps the uploaded extension. With a dot-free identifier it splits at its only dot into `media/<identifier>` and the extension. |
| Storage.StemDiscarded | backend_api/models.py:17-19 | Two names with the same final segment go to the same path, `media/<identifier>.<ext>`, for the same identifier. |
| Storage.DestinationExample | backend_api/models.py:16-19 | `receipt.final.JPG` under identifier `abc` is stored at `media/abc.JPG`. |

## Left out

- The group-member lookup (`get_group_members_by_group`, backend_api/settleup_utils.py:136) is a parameter: the ordered sequence of member ids.
  - The source calls it even when there are no shared items. The model does not represent that call.
  - With it go Firebase authentication, the HTTP requests and the Django cache (lines 19-89).
- The group's member ids are assumed distinct (`ComputeTransaction` requires it). They are the keys of a JSON object, so they cannot repeat.
- Python floats are replaced by exact reals, and the tax rate by `p / 100` exactly.
  - Rounding effects of IEEE-754 arithmetic are not modelled.
  - In particular, the exact-equality test of line 141 compares exact sums here. Floating-point sums could differ in the last bit.
- The empty-group case follows the code. With shared items but no group members, the inner loop of lines 148-154 never runs.
  - So there is no division by zero.
  - The shared items are silently left out of the amounts. Their estimate still takes part in the tax decision of line 141.
- Weights are always scaled by 100, as the code does. There is no unscaled mode.
- The rest of `create_transaction` is not modelled:
  - the millisecond timestamps (lines 160-164);
  - the `str()` of each weight in the payload;
  - the payload assembly and `requests.post`.
  - `Splits.Split` keeps the weight as an integer, not as its decimal string.
- `_get_file_destination` receives the identifier as a parameter. The randomness of `uuid.uuid4()` is not modelled; `DestinationShape` only assumes the identifier contains no dot.
- Not part of this model:
  - backend_api/api.py, backend_api/settleup_api.py and settledown/api.py (HTTP routing, ORM queries, OCR through a language model, token authentication);
  - the pydantic schemas in backend_api/serializer.py and backend_api/dataclasses/;
  - the Django field declarations in backend_api/models.py.
