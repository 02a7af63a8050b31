/** `SettleUpClient._compute_transaction`: allocate a receipt to the members of a
    group. Direct item costs are summed per member, a truncated tax is computed on
    each member's subtotal, an exact-equality check against the caller's total
    decides whether tax is to be added, and every shared item is split equally
    over the whole group. */
module Allocation {
  import opened Numeric

  /** One `UserTransactionSchema`: a cost attributed to one member. */
  datatype ReceiptItem = ReceiptItem(memberId: string, cost: real)

  /** An insertion-ordered dictionary from member id to amount, as a Python
      `dict`: the keys in insertion order, and the amount of each key. */
  datatype Ledger = Ledger(keys: seq<string>, amounts: map<string, real>)

  predicate Distinct(s: seq<string>)
  {
    forall i, j :: 0 <= i < j < |s| ==> s[i] != s[j]
  }

  lemma DistinctInit(s: seq<string>)
    requires Distinct(s) && |s| > 0
    ensures Distinct(s[..|s| - 1]) && s[|s| - 1] !in s[..|s| - 1]
  {
    var init := s[..|s| - 1];
    forall i, j | 0 <= i < j < |init| ensures init[i] != init[j] {
      assert init[i] == s[i] && init[j] == s[j];
    }
  }

  lemma DistinctTail(s: seq<string>)
    requires Distinct(s) && |s| > 0
    ensures Distinct(s[1..])
  {
    forall i, j | 0 <= i < j < |s[1..]| ensures s[1..][i] != s[1..][j] {
      assert s[1..][i] == s[i + 1] && s[1..][j] == s[j + 1];
    }
  }

  ghost predicate WellFormed(l: Ledger)
  {
    Distinct(l.keys) && forall k :: k in l.amounts <==> k in l.keys
  }

  /** `d[k] += x` on a `defaultdict(float)`: a missing key starts at 0 and is
      appended to the key order. */
  function AddTo(l: Ledger, k: string, x: real): (r: Ledger)
    requires WellFormed(l)
    ensures WellFormed(r)
    ensures r.keys == if k in l.keys then l.keys else l.keys + [k]
    ensures k in r.amounts && r.amounts[k] == (if k in l.amounts then l.amounts[k] else 0.0) + x
    ensures forall j :: j in l.amounts && j != k ==> j in r.amounts && r.amounts[j] == l.amounts[j]
  {
    if k in l.amounts then Ledger(l.keys, l.amounts[k := l.amounts[k] + x])
    else Ledger(l.keys + [k], l.amounts[k := 0.0 + x])
  }

  /** `d[k] += x` on a `defaultdict(int)`. */
  function AddToCount(m: map<string, int>, k: string, x: int): (r: map<string, int>)
    ensures r.Keys == m.Keys + {k}
    ensures r[k] == (if k in m then m[k] else 0) + x
    ensures forall j :: j in m && j != k ==> r[j] == m[j]
  {
    m[k := (if k in m then m[k] else 0) + x]
  }

  // ---------------------------------------------------------------------------
  // Reference definition of the allocation

  /** The member ids of the items, in item order. */
  function Ids(items: seq<ReceiptItem>): (ids: seq<string>)
    ensures |ids| == |items|
    ensures forall i :: 0 <= i < |items| ==> ids[i] == items[i].memberId
  {
    if |items| == 0 then [] else Ids(items[..|items| - 1]) + [items[|items| - 1].memberId]
  }

  /** The distinct elements of `s`, each at the position of its first occurrence. */
  function Dedup(s: seq<string>): (r: seq<string>)
    ensures Distinct(r)
    ensures forall x :: x in r <==> x in s
  {
    if |s| == 0 then []
    else
      var d := Dedup(s[..|s| - 1]);
      assert forall x :: x in s <==> x in s[..|s| - 1] || x == s[|s| - 1] by {
        assert s == s[..|s| - 1] + [s[|s| - 1]];
      }
      if s[|s| - 1] in d then d else d + [s[|s| - 1]]
  }

  /** The members with a direct cost, in order of first appearance. */
  function DirectKeys(items: seq<ReceiptItem>): seq<string>
  {
    Dedup(Ids(items))
  }

  /** Sum of the costs of the items attributed to member `k`. */
  function Subtotal(items: seq<ReceiptItem>, k: string): real
  {
    if |items| == 0 then 0.0
    else
      var last := items[|items| - 1];
      Subtotal(items[..|items| - 1], k) + (if last.memberId == k then last.cost else 0.0)
  }

  /** Sum of all item costs. */
  function CostSum(items: seq<ReceiptItem>): real
  {
    if |items| == 0 then 0.0 else CostSum(items[..|items| - 1]) + items[|items| - 1].cost
  }

  /** `tax_percentage / 100`. */
  function TaxRate(taxPercentage: int): real
  {
    taxPercentage as real / 100.0
  }

  /** `int(amount * tax_percentage / 100)`. */
  function TaxOf(amount: real, taxPercentage: int): int
  {
    Trunc(amount * TaxRate(taxPercentage))
  }

  /** The per-member subtotals of `keys`, summed in key order. */
  function SubtotalSum(items: seq<ReceiptItem>, keys: seq<string>): real
  {
    if |keys| == 0 then 0.0
    else SubtotalSum(items, keys[..|keys| - 1]) + Subtotal(items, keys[|keys| - 1])
  }

  /** The per-member taxes of `keys`, summed in key order. */
  function TaxSum(items: seq<ReceiptItem>, keys: seq<string>, taxPercentage: int): int
  {
    if |keys| == 0 then 0
    else TaxSum(items, keys[..|keys| - 1], taxPercentage) + TaxOf(Subtotal(items, keys[|keys| - 1]), taxPercentage)
  }

  /** `shared_tax`: every shared amount plus its truncated tax. */
  function SharedCheck(shared: seq<real>, taxPercentage: int): real
  {
    if |shared| == 0 then 0.0
    else
      var s := shared[|shared| - 1];
      SharedCheck(shared[..|shared| - 1], taxPercentage) + (s + TaxOf(s, taxPercentage) as real)
  }

  /** `should_compute_tax`: the member taxes, the member subtotals and the shared
      estimate add up to exactly the caller's total. */
  predicate ShouldFold(items: seq<ReceiptItem>, taxPercentage: int, totalAmount: real, shared: seq<real>)
  {
    var keys := DirectKeys(items);
    TaxSum(items, keys, taxPercentage) as real + SubtotalSum(items, keys) + SharedCheck(shared, taxPercentage) == totalAmount
  }

  /** What one group member receives for one shared amount `s` split `n` ways. */
  function Piece(s: real, n: nat, taxPercentage: int, fold: bool): real
    requires n > 0
  {
    var portion := s / n as real;
    portion + if fold then TaxOf(portion, taxPercentage) as real else 0.0
  }

  /** What one group member receives for all the shared amounts. */
  function SharedPortion(shared: seq<real>, n: nat, taxPercentage: int, fold: bool): real
    requires n > 0
  {
    if |shared| == 0 then 0.0
    else SharedPortion(shared[..|shared| - 1], n, taxPercentage, fold) + Piece(shared[|shared| - 1], n, taxPercentage, fold)
  }

  /** A member's direct cost, with their own tax when tax is folded in. */
  function DirectPart(items: seq<ReceiptItem>, taxPercentage: int, fold: bool, k: string): real
  {
    if k in Ids(items) then
      Subtotal(items, k) + if fold then TaxOf(Subtotal(items, k), taxPercentage) as real else 0.0
    else 0.0
  }

  /** The final amount of member `k`. */
  function Owed(items: seq<ReceiptItem>, taxPercentage: int, members: seq<string>, shared: seq<real>, fold: bool, k: string): real
  {
    DirectPart(items, taxPercentage, fold, k) +
    if k in members then SharedPortion(shared, |members|, taxPercentage, fold) else 0.0
  }

  /** The keys of the result: direct-cost members by first appearance, then,
      when there are shared items, the group members not yet present. */
  function ResultKeys(items: seq<ReceiptItem>, members: seq<string>, shared: seq<real>): seq<string>
  {
    Dedup(Ids(items) + if |shared| > 0 then members else [])
  }

  /** Reference definition of the allocation result. */
  function Allocate(items: seq<ReceiptItem>, taxPercentage: int, members: seq<string>, totalAmount: real, shared: seq<real>): (r: Ledger)
    ensures WellFormed(r)
  {
    var fold := ShouldFold(items, taxPercentage, totalAmount, shared);
    var keys := ResultKeys(items, members, shared);
    Ledger(keys, map k | k in keys :: Owed(items, taxPercentage, members, shared, fold, k))
  }

  lemma TakeOne<T>(b: seq<T>, m: nat)
    requires m < |b|
    ensures b[..m + 1] == b[..m] + [b[m]]
  {
  }

  lemma TakeSnoc<T>(a: seq<T>, b: seq<T>, m: nat)
    requires m < |b|
    ensures a + b[..m + 1] == (a + b[..m]) + [b[m]]
  {
    assert b[..m + 1] == b[..m] + [b[m]];
  }

  lemma DedupSnoc(xs: seq<string>, y: string)
    ensures Dedup(xs + [y]) == if y in xs then Dedup(xs) else Dedup(xs) + [y]
  {
    assert (xs + [y])[..|xs|] == xs;
  }

  /** A member with no item has a zero subtotal. */
  lemma {:induction false} SubtotalAbsent(items: seq<ReceiptItem>, k: string)
    requires k !in Ids(items)
    ensures Subtotal(items, k) == 0.0
  {
    if |items| > 0 {
      assert Ids(items) == Ids(items[..|items| - 1]) + [items[|items| - 1].memberId];
      SubtotalAbsent(items[..|items| - 1], k);
    }
  }

  // ---------------------------------------------------------------------------
  // Python's sum() over dict values

  function Sum(xs: seq<real>): real
  {
    if |xs| == 0 then 0.0 else Sum(xs[..|xs| - 1]) + xs[|xs| - 1]
  }

  /** `d.values()` for the keys `keys` of `d`. */
  function Values(keys: seq<string>, m: map<string, real>): (vs: seq<real>)
    requires forall k :: k in keys ==> k in m
    ensures |vs| == |keys|
  {
    if |keys| == 0 then [] else Values(keys[..|keys| - 1], m) + [m[keys[|keys| - 1]]]
  }

  /** `d.values()` of a `defaultdict(int)`, as numbers to be summed with floats. */
  function IntValues(keys: seq<string>, m: map<string, int>): (vs: seq<real>)
    requires forall k :: k in keys ==> k in m
    ensures |vs| == |keys|
  {
    if |keys| == 0 then [] else IntValues(keys[..|keys| - 1], m) + [m[keys[|keys| - 1]] as real]
  }

  lemma {:induction false} SumAppend(a: seq<real>, b: seq<real>)
    ensures Sum(a + b) == Sum(a) + Sum(b)
    decreases |b|
  {
    if |b| > 0 {
      assert (a + b)[..|a + b| - 1] == a + b[..|b| - 1];
      assert (a + b)[|a + b| - 1] == b[|b| - 1];
      SumAppend(a, b[..|b| - 1]);
    } else {
      assert a + b == a;
    }
  }

  lemma {:induction false} SumValues(items: seq<ReceiptItem>, keys: seq<string>, m: map<string, real>)
    requires forall k :: k in keys ==> k in m && m[k] == Subtotal(items, k)
    ensures Sum(Values(keys, m)) == SubtotalSum(items, keys)
    decreases |keys|
  {
    if |keys| > 0 {
      var vs := Values(keys, m);
      assert vs[..|vs| - 1] == Values(keys[..|keys| - 1], m);
      SumValues(items, keys[..|keys| - 1], m);
    }
  }

  lemma {:induction false} SumIntValues(items: seq<ReceiptItem>, keys: seq<string>, m: map<string, int>, taxPercentage: int)
    requires forall k :: k in keys ==> k in m && m[k] == TaxOf(Subtotal(items, k), taxPercentage)
    ensures Sum(IntValues(keys, m)) == TaxSum(items, keys, taxPercentage) as real
    decreases |keys|
  {
    if |keys| > 0 {
      var vs := IntValues(keys, m);
      assert vs[..|vs| - 1] == IntValues(keys[..|keys| - 1], m);
      SumIntValues(items, keys[..|keys| - 1], m, taxPercentage);
    }
  }

  // ---------------------------------------------------------------------------
  // The imperative engine

  /** Lines 127-128: sum each member's item costs into an insertion-ordered map. */
  method AccumulateCosts(items: seq<ReceiptItem>) returns (totals: Ledger)
    ensures WellFormed(totals)
    ensures totals.keys == DirectKeys(items)
    ensures forall k :: k in totals.amounts ==> totals.amounts[k] == Subtotal(items, k)
  {
    totals := Ledger([], map[]);
    for i := 0 to |items|
      invariant WellFormed(totals)
      invariant totals.keys == Dedup(Ids(items[..i]))
      invariant forall k :: k in totals.amounts ==> totals.amounts[k] == Subtotal(items[..i], k)
    {
      var item := items[i];
      AccumulateStep(items, i, totals);
      totals := AddTo(totals, item.memberId, item.cost);
    }
    assert items[..|items|] == items;
  }

  /** One pass of line 128 keeps the keys and amounts of the prefix read so far. */
  lemma AccumulateStep(items: seq<ReceiptItem>, i: nat, before: Ledger)
    requires i < |items| && WellFormed(before)
    requires before.keys == Dedup(Ids(items[..i]))
    requires forall k :: k in before.amounts ==> before.amounts[k] == Subtotal(items[..i], k)
    ensures var next := AddTo(before, items[i].memberId, items[i].cost);
      next.keys == Dedup(Ids(items[..i + 1])) &&
      forall k :: k in next.amounts ==> next.amounts[k] == Subtotal(items[..i + 1], k)
  {
    var prefix, longer := items[..i], items[..i + 1];
    assert longer == prefix + [items[i]];
    DirectKeysSnoc(prefix, items[i]);
    assert forall k :: k !in before.amounts ==> k !in Ids(prefix);
    AccumulateAmounts(prefix, items[i], before);
  }

  /** Appending one item adds its member to the direct keys unless already there. */
  lemma DirectKeysSnoc(items: seq<ReceiptItem>, x: ReceiptItem)
    ensures DirectKeys(items + [x]) ==
      if x.memberId in DirectKeys(items) then DirectKeys(items) else DirectKeys(items) + [x.memberId]
    ensures x.memberId !in DirectKeys(items) ==> x.memberId !in Ids(items)
  {
    assert (items + [x])[..|items|] == items;
    assert Ids(items + [x]) == Ids(items) + [x.memberId];
    DedupSnoc(Ids(items), x.memberId);
  }

  lemma AccumulateAmounts(prefix: seq<ReceiptItem>, item: ReceiptItem, before: Ledger)
    requires WellFormed(before)
    requires forall k :: k !in before.amounts ==> k !in Ids(prefix)
    requires forall k :: k in before.amounts ==> before.amounts[k] == Subtotal(prefix, k)
    ensures var next := AddTo(before, item.memberId, item.cost);
      forall k :: k in next.amounts ==> next.amounts[k] == Subtotal(prefix + [item], k)
  {
    var next := AddTo(before, item.memberId, item.cost);
    var longer := prefix + [item];
    assert longer[..|prefix|] == prefix && longer[|prefix|] == item;
    forall k | k in next.amounts ensures next.amounts[k] == Subtotal(longer, k) {
      assert Subtotal(longer, k) == Subtotal(prefix, k) + if item.memberId == k then item.cost else 0.0;
      if k !in before.amounts {
        SubtotalAbsent(prefix, k);
      }
    }
  }

  /** Lines 131-132: the truncated tax of every member's consolidated subtotal. */
  method ConsolidatedTaxes(items: seq<ReceiptItem>, totals: Ledger, taxPercentage: int)
    returns (taxes: map<string, int>)
    requires WellFormed(totals)
    requires forall k :: k in totals.amounts ==> totals.amounts[k] == Subtotal(items, k)
    ensures forall k :: k in taxes <==> k in totals.keys
    ensures forall k :: k in taxes ==> taxes[k] == TaxOf(Subtotal(items, k), taxPercentage)
  {
    taxes := map[];
    for j := 0 to |totals.keys|
      invariant forall k :: k in taxes <==> k in totals.keys[..j]
      invariant forall k :: k in taxes ==> taxes[k] == TaxOf(Subtotal(items, k), taxPercentage)
    {
      var k := totals.keys[j];
      assert k !in totals.keys[..j];
      assert totals.keys[..j + 1] == totals.keys[..j] + [k];
      var tax := TaxOf(totals.amounts[k], taxPercentage);
      taxes := AddToCount(taxes, k, tax);
    }
    assert totals.keys[..|totals.keys|] == totals.keys;
  }

  /** Lines 135-139: `shared_tax`, every shared amount plus its truncated tax. */
  method SharedTaxEstimate(shared: seq<real>, taxPercentage: int) returns (sharedTax: real)
    ensures sharedTax == SharedCheck(shared, taxPercentage)
  {
    sharedTax := 0.0;
    if |shared| > 0 {
      for t := 0 to |shared|
        invariant sharedTax == SharedCheck(shared[..t], taxPercentage)
      {
        assert shared[..t + 1][..t] == shared[..t];
        sharedTax := sharedTax + (shared[t] + TaxOf(shared[t], taxPercentage) as real);
      }
      assert shared[..|shared|] == shared;
    }
  }

  /** Lines 142-144: add every direct-cost member's own tax to their total. */
  method FoldTaxes(items: seq<ReceiptItem>, totals: Ledger, taxes: map<string, int>, taxPercentage: int)
    returns (folded: Ledger)
    requires WellFormed(totals)
    requires forall k :: k in totals.amounts ==> totals.amounts[k] == Subtotal(items, k)
    requires forall k :: k in taxes ==> taxes[k] == TaxOf(Subtotal(items, k), taxPercentage)
    ensures WellFormed(folded) && folded.keys == totals.keys
    ensures forall k :: k in folded.amounts ==>
      folded.amounts[k] == Subtotal(items, k) + if k in taxes then TaxOf(Subtotal(items, k), taxPercentage) as real else 0.0
  {
    folded := totals;
    var keys := totals.keys;
    for j := 0 to |keys|
      invariant Folded(totals, taxes, j, folded)
    {
      var k := keys[j];
      FoldStep(totals, taxes, j, folded);
      folded := AddTo(folded, k, (if k in taxes then taxes[k] else 0) as real);
    }
    assert keys[..|keys|] == keys;
    forall k | k in folded.amounts
      ensures folded.amounts[k] == Subtotal(items, k) + if k in taxes then TaxOf(Subtotal(items, k), taxPercentage) as real else 0.0
    {
      assert k in totals.amounts;
    }
  }

  /** The ledger during lines 142-144, once the first `j` keys have had their tax added. */
  ghost predicate Folded(totals: Ledger, taxes: map<string, int>, j: nat, l: Ledger)
  {
    WellFormed(totals) && j <= |totals.keys| && WellFormed(l) && l.keys == totals.keys &&
    FoldedAmounts(totals, taxes, j, l)
  }

  ghost predicate FoldedAmounts(totals: Ledger, taxes: map<string, int>, j: nat, l: Ledger)
    requires j <= |totals.keys|
  {
    forall k :: k in l.amounts ==>
      k in totals.amounts &&
      l.amounts[k] == totals.amounts[k] + if k in totals.keys[..j] && k in taxes then taxes[k] as real else 0.0
  }

  lemma FoldStep(totals: Ledger, taxes: map<string, int>, j: nat, l: Ledger)
    requires j < |totals.keys| && Folded(totals, taxes, j, l)
    ensures var k := totals.keys[j];
      Folded(totals, taxes, j + 1, AddTo(l, k, (if k in taxes then taxes[k] else 0) as real))
  {
    var keys, k := totals.keys, totals.keys[j];
    var next := AddTo(l, k, (if k in taxes then taxes[k] else 0) as real);
    assert k in l.amounts;
    assert next.keys == keys;
    FoldAmountsStep(totals, taxes, j, l, next);
  }

  lemma FoldAmountsStep(totals: Ledger, taxes: map<string, int>, j: nat, l: Ledger, next: Ledger)
    requires WellFormed(totals) && j < |totals.keys| && l.amounts.Keys == totals.amounts.Keys
    requires FoldedAmounts(totals, taxes, j, l)
    requires var k := totals.keys[j];
      next.amounts == l.amounts[k := l.amounts[k] + (if k in taxes then taxes[k] else 0) as real]
    ensures FoldedAmounts(totals, taxes, j + 1, next)
  {
    var keys, k := totals.keys, totals.keys[j];
    assert k !in keys[..j];
    assert keys[..j + 1] == keys[..j] + [k];
    forall x | x in next.amounts
      ensures x in totals.amounts &&
        next.amounts[x] == totals.amounts[x] + if x in keys[..j + 1] && x in taxes then taxes[x] as real else 0.0
    {
      assert x in l.amounts;
      if x != k {
        assert (x in keys[..j + 1]) == (x in keys[..j]);
      }
    }
  }

  /** One pass of lines 148-154: split the shared amount `shared[s]` over the group. */
  method SplitOne(items: seq<ReceiptItem>, taxPercentage: int, fold: bool, members: seq<string>,
                  shared: seq<real>, s: nat, totals: Ledger)
    returns (next: Ledger)
    requires Distinct(members) && s < |shared|
    requires WellFormed(totals)
    requires totals.keys == ResultKeys(items, members, shared[..s])
    requires forall k :: k in totals.amounts ==> totals.amounts[k] == Owed(items, taxPercentage, members, shared[..s], fold, k)
    ensures WellFormed(next)
    ensures next.keys == ResultKeys(items, members, shared[..s + 1])
    ensures forall k :: k in next.amounts ==> next.amounts[k] == Owed(items, taxPercentage, members, shared[..s + 1], fold, k)
  {
    ghost var piece := if |members| > 0 then Piece(shared[s], |members|, taxPercentage, fold) else 0.0;
    next := CreditGroup(members, shared[s], taxPercentage, fold, piece, totals);
    SplitOneExit(items, taxPercentage, fold, members, shared, s, totals, next, piece);
  }

  /** Lines 148-154: credit one shared amount to every group member in turn;
      a member not yet in the ledger is appended to its key order. */
  method CreditGroup(members: seq<string>, sharedItem: real, taxPercentage: int, fold: bool,
                     ghost piece: real, totals: Ledger)
    returns (next: Ledger)
    requires Distinct(members) && WellFormed(totals)
    requires piece == if |members| > 0 then Piece(sharedItem, |members|, taxPercentage, fold) else 0.0
    ensures Credited(totals, members, piece, |members|, next)
  {
    var n := |members|;
    next := totals;
    CreditedStart(totals, members, piece);
    for m := 0 to n
      invariant Credited(totals, members, piece, m, next)
    {
      ghost var prev := next;
      next := CreditShare(next, members[m], sharedItem, n, taxPercentage, fold);
      SplitStep(totals, members, piece, m, prev);
    }
  }

  /** The ledger `l` is `init` with `piece` added for each of the first `m`
      group members. */
  ghost predicate Credited(init: Ledger, members: seq<string>, piece: real, m: nat, l: Ledger)
  {
    m <= |members| && WellFormed(l) && l.keys == Dedup(init.keys + members[..m]) &&
    CreditedAmounts(init, members, piece, m, l)
  }

  ghost predicate CreditedAmounts(init: Ledger, members: seq<string>, piece: real, m: nat, l: Ledger)
    requires m <= |members|
  {
    forall k :: k in l.amounts ==>
      l.amounts[k] == (if k in init.amounts then init.amounts[k] else 0.0) + (if k in members[..m] then piece else 0.0)
  }

  lemma CreditedStart(init: Ledger, members: seq<string>, piece: real)
    requires WellFormed(init)
    ensures Credited(init, members, piece, 0, init)
  {
    assert init.keys + members[..0] == init.keys;
    DedupDistinct(init.keys);
  }

  /** A sequence without repetitions is its own `Dedup`. */
  lemma {:induction false} DedupDistinct(s: seq<string>)
    requires Distinct(s)
    ensures Dedup(s) == s
  {
    if |s| > 0 {
      var init := s[..|s| - 1];
      DedupDistinct(init);
      assert s[|s| - 1] !in init;
      assert init + [s[|s| - 1]] == s;
    }
  }

  /** Removing repetitions from a prefix first changes nothing. */
  lemma {:induction false} DedupAppendDedup(a: seq<string>, b: seq<string>)
    ensures Dedup(Dedup(a) + b) == Dedup(a + b)
    decreases |b|
  {
    if |b| == 0 {
      assert a + b == a && Dedup(a) + b == Dedup(a);
      DedupDistinct(Dedup(a));
    } else {
      var init, y := b[..|b| - 1], b[|b| - 1];
      assert b == init + [y];
      DedupAppendDedup(a, init);
      assert Dedup(a) + b == (Dedup(a) + init) + [y];
      assert a + b == (a + init) + [y];
      DedupSnoc(Dedup(a) + init, y);
      DedupSnoc(a + init, y);
    }
  }

  /** After the inner loop every group member has been credited `shared[s]`. */
  lemma SplitOneExit(items: seq<ReceiptItem>, taxPercentage: int, fold: bool, members: seq<string>,
                     shared: seq<real>, s: nat, totals: Ledger, next: Ledger, piece: real)
    requires s < |shared|
    requires piece == if |members| > 0 then Piece(shared[s], |members|, taxPercentage, fold) else 0.0
    requires WellFormed(totals) && totals.keys == ResultKeys(items, members, shared[..s])
    requires forall k :: k in totals.amounts ==> totals.amounts[k] == Owed(items, taxPercentage, members, shared[..s], fold, k)
    requires Credited(totals, members, piece, |members|, next)
    ensures WellFormed(next)
    ensures next.keys == ResultKeys(items, members, shared[..s + 1])
    ensures forall k :: k in next.amounts ==> next.amounts[k] == Owed(items, taxPercentage, members, shared[..s + 1], fold, k)
  {
    var ids := Ids(items);
    assert members[..|members|] == members;
    assert |shared[..s]| == s && |shared[..s + 1]| > 0;
    ExitKeys(ids, members, s);
    forall k | k in next.amounts
      ensures next.amounts[k] == Owed(items, taxPercentage, members, shared[..s + 1], fold, k)
    {
      var prior := if k in totals.amounts then totals.amounts[k] else 0.0;
      if k !in totals.amounts {
        OwedAbsent(items, taxPercentage, fold, members, shared[..s], k);
      }
      ExitAmount(items, taxPercentage, fold, members, shared, s, piece, k, prior, next.amounts[k]);
    }
  }

  lemma ExitKeys(ids: seq<string>, members: seq<string>, s: nat)
    ensures Dedup(Dedup(ids + if s > 0 then members else []) + members) == Dedup(ids + members)
  {
    if s == 0 {
      assert ids + [] == ids;
      DedupAppendDedup(ids, members);
    } else {
      DedupAbsorb(Dedup(ids + members), members);
    }
  }

  /** Appending elements already present changes nothing. */
  lemma {:induction false} DedupAbsorb(d: seq<string>, b: seq<string>)
    requires Distinct(d)
    requires forall x :: x in b ==> x in d
    ensures Dedup(d + b) == d
    decreases |b|
  {
    if |b| == 0 {
      assert d + b == d;
      DedupDistinct(d);
    } else {
      var init, y := b[..|b| - 1], b[|b| - 1];
      assert b == init + [y];
      assert d + b == (d + init) + [y];
      DedupAbsorb(d, init);
      DedupSnoc(d + init, y);
    }
  }

  /** The final amount of one member after `shared[s]` has been split. */
  lemma ExitAmount(items: seq<ReceiptItem>, taxPercentage: int, fold: bool, members: seq<string>,
                   shared: seq<real>, s: nat, piece: real, k: string, prior: real, now: real)
    requires s < |shared|
    requires piece == if |members| > 0 then Piece(shared[s], |members|, taxPercentage, fold) else 0.0
    requires prior == Owed(items, taxPercentage, members, shared[..s], fold, k)
    requires now == prior + if k in members then piece else 0.0
    ensures now == Owed(items, taxPercentage, members, shared[..s + 1], fold, k)
  {
    if |members| > 0 {
      assert shared[..s + 1][..s] == shared[..s];
      assert SharedPortion(shared[..s + 1], |members|, taxPercentage, fold) ==
        SharedPortion(shared[..s], |members|, taxPercentage, fold) + piece;
    }
  }

  /** Nobody outside the result keys is owed anything. */
  lemma OwedAbsent(items: seq<ReceiptItem>, taxPercentage: int, fold: bool, members: seq<string>, shared: seq<real>, k: string)
    requires k !in ResultKeys(items, members, shared)
    ensures Owed(items, taxPercentage, members, shared, fold, k) == 0.0
  {
    if |shared| == 0 && |members| > 0 {
      assert shared == [];
    }
  }

  /** Two increments of the same key add up. */
  lemma AddTwice(l: Ledger, k: string, a: real, b: real)
    requires WellFormed(l)
    ensures AddTo(AddTo(l, k, a), k, b) == AddTo(l, k, a + b)
  {
    if k in l.amounts {
      AddTwicePresent(l, k, a, b);
    } else {
      AddTwiceAbsent(l, k, a, b);
    }
  }

  lemma AddTwicePresent(l: Ledger, k: string, a: real, b: real)
    requires WellFormed(l) && k in l.amounts
    ensures AddTo(AddTo(l, k, a), k, b) == AddTo(l, k, a + b)
  {
    var v := l.amounts[k];
    var once := AddTo(l, k, a);
    assert once == Ledger(l.keys, l.amounts[k := v + a]);
    assert k in once.amounts && once.amounts[k] == v + a;
    assert (v + a) + b == v + (a + b);
    UpdateTwice(l.amounts, k, v + a, v + (a + b));
    assert AddTo(once, k, b) == Ledger(l.keys, l.amounts[k := v + (a + b)]);
  }

  lemma AddTwiceAbsent(l: Ledger, k: string, a: real, b: real)
    requires WellFormed(l) && k !in l.amounts
    ensures AddTo(AddTo(l, k, a), k, b) == AddTo(l, k, a + b)
  {
    assert AddTo(l, k, a) == Ledger(l.keys + [k], l.amounts[k := 0.0 + a]);
    UpdateTwice(l.amounts, k, 0.0 + a, 0.0 + (a + b));
  }

  lemma UpdateTwice(m: map<string, real>, k: string, x: real, y: real)
    ensures m[k := x][k := y] == m[k := y]
  {
  }

  /** Lines 149-154 for one member: add an equal portion of a shared amount,
      and its truncated tax when tax is folded in. */
  method CreditShare(totals: Ledger, id: string, sharedItem: real, n: nat, taxPercentage: int, fold: bool)
    returns (next: Ledger)
    requires WellFormed(totals) && n > 0
    ensures next == AddTo(totals, id, Piece(sharedItem, n, taxPercentage, fold))
  {
    var portion := sharedItem / (n as real);
    next := AddTo(totals, id, portion);
    if fold {
      AddTwice(totals, id, portion, TaxOf(portion, taxPercentage) as real);
      next := AddTo(next, id, TaxOf(portion, taxPercentage) as real);
    } else {
      assert portion + 0.0 == portion;
    }
  }

  /** One member's share of one shared amount keeps the shape of the split. */
  lemma SplitStep(init: Ledger, members: seq<string>, piece: real, m: nat, prev: Ledger)
    requires Distinct(members) && m < |members| && WellFormed(init)
    requires Credited(init, members, piece, m, prev)
    ensures Credited(init, members, piece, m + 1, AddTo(prev, members[m], piece))
  {
    var next := AddTo(prev, members[m], piece);
    StepKeys(init.keys, members, m, prev.keys);
    StepAmounts(init, members, piece, m, prev, next);
  }

  lemma StepKeys(keys: seq<string>, members: seq<string>, m: nat, prevKeys: seq<string>)
    requires m < |members|
    requires prevKeys == Dedup(keys + members[..m])
    ensures (if members[m] in prevKeys then prevKeys else prevKeys + [members[m]]) == Dedup(keys + members[..m + 1])
  {
    TakeSnoc(keys, members, m);
    DedupSnoc(keys + members[..m], members[m]);
  }

  lemma StepAmounts(init: Ledger, members: seq<string>, piece: real, m: nat, prev: Ledger, next: Ledger)
    requires Distinct(members) && m < |members| && WellFormed(init) && WellFormed(prev)
    requires prev.keys == Dedup(init.keys + members[..m])
    requires CreditedAmounts(init, members, piece, m, prev)
    requires next == AddTo(prev, members[m], piece)
    ensures CreditedAmounts(init, members, piece, m + 1, next)
  {
    forall k | k in next.amounts
      ensures next.amounts[k] == (if k in init.amounts then init.amounts[k] else 0.0) + (if k in members[..m + 1] then piece else 0.0)
    {
      StepAmountAt(init, members, piece, m, prev, next, k);
    }
  }

  lemma StepAmountAt(init: Ledger, members: seq<string>, piece: real, m: nat, prev: Ledger, next: Ledger, k: string)
    requires Distinct(members) && m < |members| && WellFormed(init) && WellFormed(prev)
    requires prev.keys == Dedup(init.keys + members[..m])
    requires CreditedAmounts(init, members, piece, m, prev)
    requires next == AddTo(prev, members[m], piece)
    requires k in next.amounts
    ensures next.amounts[k] == (if k in init.amounts then init.amounts[k] else 0.0) + (if k in members[..m + 1] then piece else 0.0)
  {
    var id := members[m];
    TakeOne(members, m);
    if k != id {
      assert k in prev.amounts;
      assert (k in members[..m + 1]) == (k in members[..m]);
    } else {
      assert id !in members[..m];
      if id in prev.amounts {
        assert next.amounts[id] == prev.amounts[id] + piece;
      } else {
        assert id !in init.keys + members[..m];
        assert id !in init.amounts;
      }
    }
  }

  /** Line 141: `should_compute_tax`, the exact comparison of the summed dict
      values and the shared estimate with the caller's total. */
  method ReconciliationCheck(items: seq<ReceiptItem>, taxPercentage: int, totals: Ledger,
                             taxes: map<string, int>, sharedTax: real, totalAmount: real, shared: seq<real>)
    returns (shouldComputeTax: bool)
    requires WellFormed(totals) && totals.keys == DirectKeys(items)
    requires forall k :: k in totals.amounts ==> totals.amounts[k] == Subtotal(items, k)
    requires forall k :: k in taxes <==> k in totals.keys
    requires forall k :: k in taxes ==> taxes[k] == TaxOf(Subtotal(items, k), taxPercentage)
    requires sharedTax == SharedCheck(shared, taxPercentage)
    ensures shouldComputeTax == ShouldFold(items, taxPercentage, totalAmount, shared)
  {
    var taxValues := IntValues(totals.keys, taxes);
    var totalValues := Values(totals.keys, totals.amounts);
    shouldComputeTax := Sum(taxValues + totalValues + [sharedTax]) == totalAmount;
    SumThree(taxValues, totalValues, sharedTax);
    SumIntValues(items, totals.keys, taxes, taxPercentage);
    SumValues(items, totals.keys, totals.amounts);
  }

  /** `sum([*a, *b, c])`. */
  lemma SumThree(a: seq<real>, b: seq<real>, c: real)
    ensures Sum(a + b + [c]) == Sum(a) + Sum(b) + c
  {
    SumAppend(a + b, [c]);
    SumAppend(a, b);
    assert [c][..0] == [];
  }

  /** Lines 147-154: split every shared amount equally over the whole group. */
  method SplitShared(items: seq<ReceiptItem>, taxPercentage: int, fold: bool, members: seq<string>,
                     shared: seq<real>, totals: Ledger)
    returns (result: Ledger)
    requires Distinct(members)
    requires WellFormed(totals) && totals.keys == DirectKeys(items)
    requires forall k :: k in totals.amounts ==> totals.amounts[k] == DirectPart(items, taxPercentage, fold, k)
    ensures WellFormed(result)
    ensures result.keys == ResultKeys(items, members, shared)
    ensures forall k :: k in result.amounts ==> result.amounts[k] == Owed(items, taxPercentage, members, shared, fold, k)
  {
    assert Ids(items) + [] == Ids(items);
    assert shared[..0] == [];
    result := totals;
    for s := 0 to |shared|
      invariant WellFormed(result)
      invariant result.keys == ResultKeys(items, members, shared[..s])
      invariant forall k :: k in result.amounts ==> result.amounts[k] == Owed(items, taxPercentage, members, shared[..s], fold, k)
    {
      result := SplitOne(items, taxPercentage, fold, members, shared, s, result);
    }
    assert shared[..|shared|] == shared;
  }

  /** A well-formed ledger with the keys and amounts of the reference definition is it. */
  lemma AllocateIntro(items: seq<ReceiptItem>, taxPercentage: int, members: seq<string>,
                      totalAmount: real, shared: seq<real>, l: Ledger)
    requires WellFormed(l) && l.keys == ResultKeys(items, members, shared)
    requires forall k :: k in l.amounts ==>
      l.amounts[k] == Owed(items, taxPercentage, members, shared, ShouldFold(items, taxPercentage, totalAmount, shared), k)
    ensures l == Allocate(items, taxPercentage, members, totalAmount, shared)
  {
    var expected := Allocate(items, taxPercentage, members, totalAmount, shared);
    assert l.amounts == expected.amounts by {
      forall k | k in l.amounts ensures k in expected.amounts && l.amounts[k] == expected.amounts[k] {
        assert k in l.keys;
      }
      forall k | k in expected.amounts ensures k in l.amounts {
        assert k in expected.keys;
      }
    }
  }

  /** After line 144 every direct-cost member holds their direct part. */
  lemma DirectTotals(items: seq<ReceiptItem>, taxPercentage: int, fold: bool, totals: Ledger, taxes: map<string, int>)
    requires WellFormed(totals) && totals.keys == DirectKeys(items)
    requires forall k :: k in taxes <==> k in totals.keys
    requires forall k :: k in totals.amounts ==>
      totals.amounts[k] == Subtotal(items, k) + if fold && k in taxes then TaxOf(Subtotal(items, k), taxPercentage) as real else 0.0
    ensures forall k :: k in totals.amounts ==> totals.amounts[k] == DirectPart(items, taxPercentage, fold, k)
  {
    forall k | k in totals.amounts ensures totals.amounts[k] == DirectPart(items, taxPercentage, fold, k) {
      assert k in totals.keys && k in taxes;
      assert k in Ids(items);
    }
  }

  /** `_compute_transaction`, with the group-member lookup replaced by the
      sequence `members` of the group's member ids (distinct, as the keys of the
      membership record are). */
  method ComputeTransaction(items: seq<ReceiptItem>, taxPercentage: int, members: seq<string>,
                            totalAmount: real, shared: seq<real>)
    returns (result: Ledger)
    requires Distinct(members)
    ensures result == Allocate(items, taxPercentage, members, totalAmount, shared)
  {
    var totals := AccumulateCosts(items);
    var taxes := ConsolidatedTaxes(items, totals, taxPercentage);
    var sharedTax := SharedTaxEstimate(shared, taxPercentage);
    var shouldComputeTax := ReconciliationCheck(items, taxPercentage, totals, taxes, sharedTax, totalAmount, shared);
    if shouldComputeTax {
      totals := FoldTaxes(items, totals, taxes, taxPercentage);
    }
    DirectTotals(items, taxPercentage, shouldComputeTax, totals, taxes);
    result := SplitShared(items, taxPercentage, shouldComputeTax, members, shared, totals);
    AllocateIntro(items, taxPercentage, members, totalAmount, shared, result);
  }
}
