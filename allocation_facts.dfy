/** Properties of the reference allocation `Allocation.Allocate`, which the
    imperative `Allocation.ComputeTransaction` is proved to compute: the order of
    the result keys, how the tax decision is taken, what each member receives,
    where the money goes, and the regression fixtures of the repository. */
module AllocationFacts {
  import opened Allocation

  /** `sum(d.values())` of an insertion-ordered dictionary. */
  function LedgerTotal(l: Ledger): real
    requires WellFormed(l)
  {
    Sum(Values(l.keys, l.amounts))
  }

  // ---------------------------------------------------------------------------
  // Order of the keys

  /** The elements of `ys` that are not in `xs`, in their order in `ys`. */
  function Fresh(ys: seq<string>, xs: seq<string>): (r: seq<string>)
    ensures forall y :: y in r <==> y in ys && y !in xs
  {
    if |ys| == 0 then []
    else
      var init, y := ys[..|ys| - 1], ys[|ys| - 1];
      assert forall z :: z in ys <==> z in init || z == y by {
        assert ys == init + [y];
      }
      Fresh(init, xs) + if y in xs then [] else [y]
  }

  /** Position of the first occurrence of `x` in `s`. */
  function FirstIndex(s: seq<string>, x: string): (i: nat)
    requires x in s
    ensures i < |s| && s[i] == x && x !in s[..i]
  {
    if s[0] == x then 0
    else
      var j := FirstIndex(s[1..], x);
      assert s[..j + 1] == [s[0]] + s[1..][..j];
      j + 1
  }

  lemma FirstIndexUnique(s: seq<string>, x: string, i: nat)
    requires i < |s| && s[i] == x && x !in s[..i]
    ensures FirstIndex(s, x) == i
  {
  }

  lemma FirstIndexSnoc(p: seq<string>, y: string, x: string)
    requires x in p + [y]
    ensures x in p ==> FirstIndex(p + [y], x) == FirstIndex(p, x)
    ensures x !in p ==> FirstIndex(p + [y], x) == |p|
  {
    var s := p + [y];
    if x in p {
      var i := FirstIndex(p, x);
      assert s[..i] == p[..i];
      FirstIndexUnique(s, x, i);
    } else {
      assert s[..|p|] == p;
      FirstIndexUnique(s, x, |p|);
    }
  }

  /** `Dedup` lists every element at its first occurrence, in order of first
      occurrence: the key order of a `defaultdict` filled from `s`. */
  lemma {:induction false} DedupOrder(s: seq<string>)
    ensures forall i, j :: 0 <= i < j < |Dedup(s)| ==>
      FirstIndex(s, Dedup(s)[i]) < FirstIndex(s, Dedup(s)[j])
  {
    if |s| > 0 {
      var p, y := s[..|s| - 1], s[|s| - 1];
      assert s == p + [y];
      DedupOrder(p);
      var d, r := Dedup(p), Dedup(s);
      forall i, j | 0 <= i < j < |r| ensures FirstIndex(s, r[i]) < FirstIndex(s, r[j]) {
        assert r[i] in d;
        FirstIndexSnoc(p, y, r[i]);
        FirstIndexSnoc(p, y, r[j]);
        if j < |d| {
          assert r[i] == d[i] && r[j] == d[j];
        }
      }
    }
  }

  /** Direct-cost members are keyed in order of their first item. */
  lemma DirectKeysOrder(items: seq<ReceiptItem>)
    ensures var keys, ids := DirectKeys(items), Ids(items);
      Distinct(keys) &&
      (forall k :: k in keys <==> exists i :: 0 <= i < |items| && items[i].memberId == k) &&
      (forall i, j :: 0 <= i < j < |keys| ==> FirstIndex(ids, keys[i]) < FirstIndex(ids, keys[j]))
  {
    var ids := Ids(items);
    DedupOrder(ids);
    forall k ensures k in ids <==> exists i :: 0 <= i < |items| && items[i].memberId == k {
      if k in ids {
        var i :| 0 <= i < |ids| && ids[i] == k;
        assert items[i].memberId == k;
      }
    }
  }

  lemma FreshSnoc(init: seq<string>, y: string, xs: seq<string>)
    ensures Fresh(init + [y], xs) == Fresh(init, xs) + if y in xs then [] else [y]
  {
    assert (init + [y])[..|init|] == init;
  }

  lemma {:induction false} DedupAppend(xs: seq<string>, ys: seq<string>)
    requires Distinct(ys)
    ensures Dedup(xs + ys) == Dedup(xs) + Fresh(ys, xs)
    decreases |ys|
  {
    if |ys| == 0 {
      assert xs + ys == xs;
    } else {
      var init, y := ys[..|ys| - 1], ys[|ys| - 1];
      assert ys == init + [y];
      DistinctInit(ys);
      DedupAppend(xs, init);
      assert xs + ys == (xs + init) + [y];
      DedupSnoc(xs + init, y);
      FreshSnoc(init, y, xs);
      assert (y in xs + init) == (y in xs);
      SnocRegroup(Dedup(xs + init), Dedup(xs), Fresh(init, xs), y, y in xs);
    }
  }

  lemma SnocRegroup(a: seq<string>, d: seq<string>, f: seq<string>, y: string, present: bool)
    requires a == d + f
    ensures (if present then a else a + [y]) == d + (f + if present then [] else [y])
  {
    assert f + [] == f;
  }

  /** With shared items, the result lists the direct-cost members first and then
      the group members without a direct cost, in group order; without shared
      items it lists only the direct-cost members. */
  lemma ResultKeysOrder(items: seq<ReceiptItem>, members: seq<string>, shared: seq<real>)
    requires Distinct(members)
    ensures ResultKeys(items, members, shared) ==
      DirectKeys(items) + if |shared| > 0 then Fresh(members, Ids(items)) else []
  {
    if |shared| > 0 {
      DedupAppend(Ids(items), members);
    } else {
      assert Ids(items) + [] == Ids(items);
    }
  }

  // ---------------------------------------------------------------------------
  // The tax decision

  lemma {:induction false} SubtotalSnoc(items: seq<ReceiptItem>, x: ReceiptItem, k: string)
    ensures Subtotal(items + [x], k) == Subtotal(items, k) + if x.memberId == k then x.cost else 0.0
  {
    assert (items + [x])[..|items|] == items;
  }

  lemma {:induction false} SubtotalSumSnoc(items: seq<ReceiptItem>, x: ReceiptItem, keys: seq<string>)
    requires Distinct(keys)
    ensures SubtotalSum(items + [x], keys) == SubtotalSum(items, keys) + if x.memberId in keys then x.cost else 0.0
    decreases |keys|
  {
    if |keys| > 0 {
      var init, k := keys[..|keys| - 1], keys[|keys| - 1];
      assert keys == init + [k];
      DistinctInit(keys);
      SubtotalSumSnoc(items, x, init);
      SubtotalSnoc(items, x, k);
    }
  }

  /** The subtotals of the direct-cost members add up to the cost of all items. */
  lemma {:induction false} DirectSubtotalsSum(items: seq<ReceiptItem>)
    ensures SubtotalSum(items, DirectKeys(items)) == CostSum(items)
  {
    if |items| > 0 {
      var init, x := items[..|items| - 1], items[|items| - 1];
      assert items == init + [x];
      DirectSubtotalsSum(init);
      NewKeySubtotals(init, x);
    }
  }

  lemma NewKeySubtotals(init: seq<ReceiptItem>, x: ReceiptItem)
    ensures SubtotalSum(init + [x], DirectKeys(init + [x])) == SubtotalSum(init, DirectKeys(init)) + x.cost
    ensures CostSum(init + [x]) == CostSum(init) + x.cost
  {
    assert (init + [x])[..|init|] == init;
    var d := DirectKeys(init);
    var j := x.memberId;
    DirectKeysSnoc(init, x);
    SubtotalSumSnoc(init, x, d);
    if j !in d {
      assert (d + [j])[..|d|] == d;
      assert SubtotalSum(init + [x], d + [j]) == SubtotalSum(init + [x], d) + Subtotal(init + [x], j);
      SubtotalSnoc(init, x, j);
      SubtotalAbsent(init, j);
    }
  }

  /** Tax is folded in exactly when the members' taxes, the cost of all items and
      the shared estimate add up to the total. */
  lemma FoldDecision(items: seq<ReceiptItem>, taxPercentage: int, totalAmount: real, shared: seq<real>)
    ensures ShouldFold(items, taxPercentage, totalAmount, shared) <==>
      TaxSum(items, DirectKeys(items), taxPercentage) as real + CostSum(items) + SharedCheck(shared, taxPercentage) == totalAmount
  {
    DirectSubtotalsSum(items);
  }

  /** The truncated tax is taken once per member on the member's summed cost,
      not item by item: two items of 5 at 10% give a tax of 1, not 0 + 0. */
  lemma ConsolidatedTaxExample()
    ensures var items := [ReceiptItem("m", 5.0), ReceiptItem("m", 5.0)];
      TaxSum(items, DirectKeys(items), 10) == 1 &&
      TaxOf(5.0, 10) + TaxOf(5.0, 10) == 0 &&
      Allocate(items, 10, ["m"], 11.0, []) == Ledger(["m"], map["m" := 11.0])
  {
    var items := [ReceiptItem("m", 5.0), ReceiptItem("m", 5.0)];
    assert items[..1] == [ReceiptItem("m", 5.0)];
    assert Ids(items) == ["m", "m"];
    assert DirectKeys(items) == ["m"] by {
      DedupSnoc([], "m");
      assert [] + ["m"] == ["m"];
      DedupSnoc(["m"], "m");
      assert ["m"] + ["m"] == ["m", "m"];
    }
    assert Subtotal(items, "m") == 10.0;
    assert TaxOf(10.0, 10) == 1;
    assert TaxOf(5.0, 10) == 0;
    assert ["m"][..0] == [];
    assert ShouldFold(items, 10, 11.0, []);
    assert ResultKeys(items, ["m"], []) == ["m"] by {
      assert Ids(items) + [] == Ids(items);
    }
    var r := Allocate(items, 10, ["m"], 11.0, []);
    assert r.amounts["m"] == 11.0;
    assert r.amounts == map["m" := 11.0];
  }

  // ---------------------------------------------------------------------------
  // What each member receives

  /** Without shared items the result keys are the direct-cost members and each
      owes their direct part. */
  lemma NoSharedShape(items: seq<ReceiptItem>, taxPercentage: int, members: seq<string>, totalAmount: real)
    ensures var r, fold := Allocate(items, taxPercentage, members, totalAmount, []), ShouldFold(items, taxPercentage, totalAmount, []);
      r.keys == DirectKeys(items) &&
      forall k :: k in r.amounts ==> k in Ids(items) && r.amounts[k] == DirectPart(items, taxPercentage, fold, k)
  {
    assert Ids(items) + [] == Ids(items);
  }

  /** Without shared items and without tax, every direct-cost member owes their
      subtotal and nobody else appears. */
  lemma UntaxedWithoutShared(items: seq<ReceiptItem>, taxPercentage: int, members: seq<string>, totalAmount: real)
    requires !ShouldFold(items, taxPercentage, totalAmount, [])
    ensures var r := Allocate(items, taxPercentage, members, totalAmount, []);
      r.keys == DirectKeys(items) &&
      (forall k :: k in r.amounts ==> r.amounts[k] == Subtotal(items, k)) &&
      LedgerTotal(r) == CostSum(items)
  {
    var r := Allocate(items, taxPercentage, members, totalAmount, []);
    NoSharedShape(items, taxPercentage, members, totalAmount);
    DirectSubtotalsSum(items);
    SumValues(items, r.keys, r.amounts);
  }

  lemma {:induction false} SumFolded(items: seq<ReceiptItem>, keys: seq<string>, m: map<string, real>, taxPercentage: int)
    requires forall k :: k in keys ==> k in m && m[k] == Subtotal(items, k) + TaxOf(Subtotal(items, k), taxPercentage) as real
    ensures Sum(Values(keys, m)) == SubtotalSum(items, keys) + TaxSum(items, keys, taxPercentage) as real
    decreases |keys|
  {
    if |keys| > 0 {
      var vs := Values(keys, m);
      assert vs[..|vs| - 1] == Values(keys[..|keys| - 1], m);
      SumFolded(items, keys[..|keys| - 1], m, taxPercentage);
    }
  }

  /** Without shared items and with tax, every direct-cost member owes their
      subtotal plus their own tax, and the amounts add up to the total. */
  lemma TaxedWithoutShared(items: seq<ReceiptItem>, taxPercentage: int, members: seq<string>, totalAmount: real)
    requires ShouldFold(items, taxPercentage, totalAmount, [])
    ensures var r := Allocate(items, taxPercentage, members, totalAmount, []);
      r.keys == DirectKeys(items) &&
      (forall k :: k in r.amounts ==> r.amounts[k] == Subtotal(items, k) + TaxOf(Subtotal(items, k), taxPercentage) as real) &&
      LedgerTotal(r) == totalAmount
  {
    var r := Allocate(items, taxPercentage, members, totalAmount, []);
    NoSharedShape(items, taxPercentage, members, totalAmount);
    SumFolded(items, r.keys, r.amounts, taxPercentage);
  }

  /** With shared items and a non-empty group: every group member receives the
      same shared portion on top of their direct part, and direct-cost members
      outside the group receive their direct part only. */
  lemma SharedSplit(items: seq<ReceiptItem>, taxPercentage: int, members: seq<string>, totalAmount: real, shared: seq<real>)
    requires Distinct(members) && |members| > 0 && |shared| > 0
    ensures var r, fold := Allocate(items, taxPercentage, members, totalAmount, shared), ShouldFold(items, taxPercentage, totalAmount, shared);
      r.keys == DirectKeys(items) + Fresh(members, Ids(items)) &&
      (forall k :: k in members ==>
        k in r.amounts && r.amounts[k] == DirectPart(items, taxPercentage, fold, k) + SharedPortion(shared, |members|, taxPercentage, fold)) &&
      (forall k :: k in r.amounts && k !in members ==> k in Ids(items) && r.amounts[k] == DirectPart(items, taxPercentage, fold, k))
  {
    ResultKeysOrder(items, members, shared);
  }

  /** With an empty group the shared items are dropped: nobody receives any part
      of them, although they still entered the tax decision. */
  lemma EmptyGroupDropsShared(items: seq<ReceiptItem>, taxPercentage: int, totalAmount: real, shared: seq<real>)
    ensures var r, fold := Allocate(items, taxPercentage, [], totalAmount, shared), ShouldFold(items, taxPercentage, totalAmount, shared);
      r.keys == DirectKeys(items) &&
      forall k :: k in r.amounts ==> r.amounts[k] == DirectPart(items, taxPercentage, fold, k)
  {
    assert Ids(items) + [] == Ids(items);
  }

  /** `n` copies of `x` added up. */
  function Times(n: nat, x: real): (r: real)
  {
    if n == 0 then 0.0 else Times(n - 1, x) + x
  }

  lemma {:induction false} TimesProduct(n: nat, x: real)
    ensures Times(n, x) == n as real * x
  {
    if n > 0 {
      TimesProduct(n - 1, x);
      assert n as real * x == (n - 1) as real * x + x;
    }
  }

  lemma {:induction false} TimesAdd(n: nat, x: real, y: real)
    ensures Times(n, x + y) == Times(n, x) + Times(n, y)
  {
    if n > 0 {
      TimesAdd(n - 1, x, y);
    }
  }

  lemma {:induction false} TimesZero(n: nat)
    ensures Times(n, 0.0) == 0.0
  {
    if n > 0 {
      TimesZero(n - 1);
    }
  }

  lemma TimesQuotient(n: nat, s: real)
    requires n > 0
    ensures Times(n, s / n as real) == s
  {
    TimesProduct(n, s / n as real);
  }

  /** Without tax, the `n` portions of the shared amounts add back up to them. */
  lemma {:induction false} SharedPortionExact(shared: seq<real>, n: nat, taxPercentage: int)
    requires n > 0
    ensures Times(n, SharedPortion(shared, n, taxPercentage, false)) == Sum(shared)
  {
    if |shared| > 0 {
      var init, s := shared[..|shared| - 1], shared[|shared| - 1];
      SharedPortionExact(init, n, taxPercentage);
      var p := SharedPortion(init, n, taxPercentage, false);
      assert Piece(s, n, taxPercentage, false) == s / n as real;
      TimesAdd(n, p, s / n as real);
      TimesQuotient(n, s);
    } else {
      TimesZero(n);
    }
  }

  // ---------------------------------------------------------------------------
  // Where the money goes

  /** Sum over `keys` of the direct parts. */
  function DirectSum(items: seq<ReceiptItem>, taxPercentage: int, fold: bool, keys: seq<string>): real
  {
    if |keys| == 0 then 0.0
    else DirectSum(items, taxPercentage, fold, keys[..|keys| - 1]) + DirectPart(items, taxPercentage, fold, keys[|keys| - 1])
  }

  /** How many of `keys` are group members. */
  function CountIn(keys: seq<string>, members: seq<string>): nat
  {
    if |keys| == 0 then 0
    else CountIn(keys[..|keys| - 1], members) + if keys[|keys| - 1] in members then 1 else 0
  }

  lemma {:induction false} SumOwed(keys: seq<string>, m: map<string, real>, items: seq<ReceiptItem>, taxPercentage: int,
                                   fold: bool, members: seq<string>, p: real)
    requires forall k :: k in keys ==> k in m && m[k] == DirectPart(items, taxPercentage, fold, k) + if k in members then p else 0.0
    ensures Sum(Values(keys, m)) == DirectSum(items, taxPercentage, fold, keys) + Times(CountIn(keys, members), p)
    decreases |keys|
  {
    if |keys| > 0 {
      var init, k := keys[..|keys| - 1], keys[|keys| - 1];
      var vs := Values(keys, m);
      assert vs[..|vs| - 1] == Values(init, m);
      SumOwed(init, m, items, taxPercentage, fold, members, p);
      var c := CountIn(init, members);
      assert Sum(vs) == Sum(Values(init, m)) + m[k];
      assert DirectSum(items, taxPercentage, fold, keys) == DirectSum(items, taxPercentage, fold, init) + DirectPart(items, taxPercentage, fold, k);
      if k in members {
        assert CountIn(keys, members) == c + 1;
        assert Times(c + 1, p) == Times(c, p) + p;
      } else {
        assert CountIn(keys, members) == c;
      }
    }
  }

  lemma {:induction false} DirectSumAppend(items: seq<ReceiptItem>, taxPercentage: int, fold: bool, a: seq<string>, b: seq<string>)
    ensures DirectSum(items, taxPercentage, fold, a + b) == DirectSum(items, taxPercentage, fold, a) + DirectSum(items, taxPercentage, fold, b)
    decreases |b|
  {
    if |b| == 0 {
      assert a + b == a;
    } else {
      assert (a + b)[..|a + b| - 1] == a + b[..|b| - 1];
      DirectSumAppend(items, taxPercentage, fold, a, b[..|b| - 1]);
    }
  }

  lemma {:induction false} DirectSumAbsent(items: seq<ReceiptItem>, taxPercentage: int, fold: bool, keys: seq<string>)
    requires forall k :: k in keys ==> k !in Ids(items)
    ensures DirectSum(items, taxPercentage, fold, keys) == 0.0
    decreases |keys|
  {
    if |keys| > 0 {
      DirectSumAbsent(items, taxPercentage, fold, keys[..|keys| - 1]);
    }
  }

  lemma {:induction false} DirectSumPresent(items: seq<ReceiptItem>, taxPercentage: int, fold: bool, keys: seq<string>)
    requires forall k :: k in keys ==> k in Ids(items)
    ensures DirectSum(items, taxPercentage, fold, keys) ==
      SubtotalSum(items, keys) + if fold then TaxSum(items, keys, taxPercentage) as real else 0.0
    decreases |keys|
  {
    if |keys| > 0 {
      DirectSumPresent(items, taxPercentage, fold, keys[..|keys| - 1]);
    }
  }

  lemma {:induction false} CountInSet(keys: seq<string>, members: seq<string>)
    requires Distinct(keys)
    ensures CountIn(keys, members) == |set k | k in keys && k in members|
    decreases |keys|
  {
    if |keys| > 0 {
      var init, x := keys[..|keys| - 1], keys[|keys| - 1];
      assert keys == init + [x];
      DistinctInit(keys);
      CountInSet(init, members);
      var a := set k | k in init && k in members;
      assert x !in a;
      MembersInSnoc(init, x, members);
    }
  }

  lemma MembersInSnoc(init: seq<string>, x: string, members: seq<string>)
    ensures (set k | k in init + [x] && k in members) ==
      (set k | k in init && k in members) + if x in members then {x} else {}
  {
  }

  lemma {:induction false} DistinctCard(s: seq<string>)
    requires Distinct(s)
    ensures |set k | k in s| == |s|
    decreases |s|
  {
    if |s| > 0 {
      var init, x := s[..|s| - 1], s[|s| - 1];
      assert s == init + [x];
      DistinctInit(s);
      DistinctCard(init);
      assert (set k | k in s) == (set k | k in init) + {x};
    }
  }

  /** The share of each group member, or 0 when there is nobody to share with. */
  function GroupPortion(shared: seq<real>, members: seq<string>, taxPercentage: int, fold: bool): real
  {
    if |members| > 0 then SharedPortion(shared, |members|, taxPercentage, fold) else 0.0
  }

  lemma AllocateAmounts(items: seq<ReceiptItem>, taxPercentage: int, members: seq<string>, totalAmount: real, shared: seq<real>)
    ensures var r, fold := Allocate(items, taxPercentage, members, totalAmount, shared), ShouldFold(items, taxPercentage, totalAmount, shared);
      forall k :: k in r.keys ==>
        k in r.amounts &&
        r.amounts[k] == DirectPart(items, taxPercentage, fold, k) + if k in members then GroupPortion(shared, members, taxPercentage, fold) else 0.0
  {
  }

  lemma DirectSumOfResult(items: seq<ReceiptItem>, taxPercentage: int, fold: bool, members: seq<string>, shared: seq<real>)
    requires Distinct(members)
    ensures DirectSum(items, taxPercentage, fold, ResultKeys(items, members, shared)) ==
      CostSum(items) + if fold then TaxSum(items, DirectKeys(items), taxPercentage) as real else 0.0
  {
    ResultKeysOrder(items, members, shared);
    var added := if |shared| > 0 then Fresh(members, Ids(items)) else [];
    DirectSumAppend(items, taxPercentage, fold, DirectKeys(items), added);
    DirectSumAbsent(items, taxPercentage, fold, added);
    DirectSumPresent(items, taxPercentage, fold, DirectKeys(items));
    DirectSubtotalsSum(items);
  }

  /** With shared items, every group member is a result key exactly once. */
  lemma CountMembers(items: seq<ReceiptItem>, members: seq<string>, shared: seq<real>)
    requires Distinct(members) && |shared| > 0
    ensures CountIn(ResultKeys(items, members, shared), members) == |members|
  {
    var keys := ResultKeys(items, members, shared);
    assert forall x :: x in members ==> x in keys;
    CountAll(keys, members);
  }

  lemma CountAll(keys: seq<string>, members: seq<string>)
    requires Distinct(keys) && Distinct(members)
    requires forall x :: x in members ==> x in keys
    ensures CountIn(keys, members) == |members|
  {
    CountInSet(keys, members);
    assert (set k | k in keys && k in members) == set k | k in members;
    DistinctCard(members);
  }

  lemma GroupPortionZero(shared: seq<real>, members: seq<string>, taxPercentage: int, fold: bool)
    requires |shared| == 0 || |members| == 0
    ensures GroupPortion(shared, members, taxPercentage, fold) == 0.0
  {
  }

  lemma LedgerTotalOwed(items: seq<ReceiptItem>, taxPercentage: int, fold: bool, members: seq<string>,
                        shared: seq<real>, p: real, r: Ledger)
    requires Distinct(members) && WellFormed(r)
    requires r.keys == ResultKeys(items, members, shared)
    requires forall k :: k in r.keys ==>
      k in r.amounts && r.amounts[k] == DirectPart(items, taxPercentage, fold, k) + if k in members then p else 0.0
    ensures LedgerTotal(r) ==
      CostSum(items) + (if fold then TaxSum(items, DirectKeys(items), taxPercentage) as real else 0.0) +
      Times(CountIn(r.keys, members), p)
  {
    SumOwed(r.keys, r.amounts, items, taxPercentage, fold, members, p);
    DirectSumOfResult(items, taxPercentage, fold, members, shared);
  }

  lemma ConservationOf(items: seq<ReceiptItem>, taxPercentage: int, fold: bool, members: seq<string>,
                      shared: seq<real>, r: Ledger, p: real, q: real)
    requires Distinct(members) && WellFormed(r)
    requires r.keys == ResultKeys(items, members, shared)
    requires forall k :: k in r.keys ==>
      k in r.amounts && r.amounts[k] == DirectPart(items, taxPercentage, fold, k) + if k in members then p else 0.0
    requires if |shared| > 0 && |members| > 0 then p == q else p == 0.0
    ensures LedgerTotal(r) ==
      CostSum(items) +
      (if fold then TaxSum(items, DirectKeys(items), taxPercentage) as real else 0.0) +
      (if |shared| > 0 && |members| > 0 then Times(|members|, q) else 0.0)
  {
    LedgerTotalOwed(items, taxPercentage, fold, members, shared, p, r);
    if |shared| > 0 && |members| > 0 {
      CountMembers(items, members, shared);
    } else {
      TimesZero(CountIn(r.keys, members));
    }
  }

  /** Every result amount comes from an item, a tax or a shared portion: the
      amounts add up to the cost of all items, plus the members' own taxes when
      tax is folded in, plus one shared portion per group member. */
  lemma Conservation(items: seq<ReceiptItem>, taxPercentage: int, members: seq<string>, totalAmount: real, shared: seq<real>)
    requires Distinct(members)
    ensures var r, fold := Allocate(items, taxPercentage, members, totalAmount, shared), ShouldFold(items, taxPercentage, totalAmount, shared);
      LedgerTotal(r) ==
        CostSum(items) +
        (if fold then TaxSum(items, DirectKeys(items), taxPercentage) as real else 0.0) +
        (if |shared| > 0 && |members| > 0 then Times(|members|, SharedPortion(shared, |members|, taxPercentage, fold)) else 0.0)
  {
    var fold := ShouldFold(items, taxPercentage, totalAmount, shared);
    AllocateAmounts(items, taxPercentage, members, totalAmount, shared);
    if !(|shared| > 0 && |members| > 0) {
      GroupPortionZero(shared, members, taxPercentage, fold);
    }
    ConservationOf(items, taxPercentage, fold, members, shared,
                   Allocate(items, taxPercentage, members, totalAmount, shared),
                   GroupPortion(shared, members, taxPercentage, fold),
                   if |members| > 0 then SharedPortion(shared, |members|, taxPercentage, fold) else 0.0);
  }

  /** Without tax and with a non-empty group, the amounts add up to the cost of
      all items plus all shared amounts. */
  lemma UntaxedConservation(items: seq<ReceiptItem>, taxPercentage: int, members: seq<string>, totalAmount: real, shared: seq<real>)
    requires Distinct(members) && |members| > 0
    requires !ShouldFold(items, taxPercentage, totalAmount, shared)
    ensures LedgerTotal(Allocate(items, taxPercentage, members, totalAmount, shared)) == CostSum(items) + Sum(shared)
  {
    Conservation(items, taxPercentage, members, totalAmount, shared);
    SharedPortionExact(shared, |members|, taxPercentage);
    if |shared| == 0 {
      assert shared == [];
    }
  }

  // ---------------------------------------------------------------------------
  // No negative amounts

  /** The tax of a non-negative amount at a non-negative rate is non-negative. */
  lemma TaxOfNonNeg(amount: real, taxPercentage: int)
    requires amount >= 0.0 && taxPercentage >= 0
    ensures TaxOf(amount, taxPercentage) >= 0
  {
    assert amount * TaxRate(taxPercentage) >= 0.0;
  }

  lemma {:induction false} SubtotalNonNeg(items: seq<ReceiptItem>, k: string)
    requires forall i :: 0 <= i < |items| ==> items[i].cost >= 0.0
    ensures Subtotal(items, k) >= 0.0
  {
    if |items| > 0 {
      SubtotalNonNeg(items[..|items| - 1], k);
    }
  }

  lemma PieceNonNeg(s: real, n: nat, taxPercentage: int, fold: bool)
    requires n > 0 && s >= 0.0 && taxPercentage >= 0
    ensures Piece(s, n, taxPercentage, fold) >= 0.0
  {
    TaxOfNonNeg(s / n as real, taxPercentage);
  }

  lemma {:induction false} SharedPortionNonNeg(shared: seq<real>, n: nat, taxPercentage: int, fold: bool)
    requires n > 0 && taxPercentage >= 0
    requires forall i :: 0 <= i < |shared| ==> shared[i] >= 0.0
    ensures SharedPortion(shared, n, taxPercentage, fold) >= 0.0
  {
    if |shared| > 0 {
      SharedPortionNonNeg(shared[..|shared| - 1], n, taxPercentage, fold);
      PieceNonNeg(shared[|shared| - 1], n, taxPercentage, fold);
    }
  }

  /** With non-negative costs, shared amounts and tax percentage, nobody is owed
      a negative amount. */
  lemma AllocateNonNeg(items: seq<ReceiptItem>, taxPercentage: int, members: seq<string>, totalAmount: real, shared: seq<real>)
    requires taxPercentage >= 0
    requires forall i :: 0 <= i < |items| ==> items[i].cost >= 0.0
    requires forall i :: 0 <= i < |shared| ==> shared[i] >= 0.0
    ensures var r := Allocate(items, taxPercentage, members, totalAmount, shared);
      forall k :: k in r.amounts ==> r.amounts[k] >= 0.0
  {
    var fold := ShouldFold(items, taxPercentage, totalAmount, shared);
    forall k | k in ResultKeys(items, members, shared)
      ensures Owed(items, taxPercentage, members, shared, fold, k) >= 0.0
    {
      SubtotalNonNeg(items, k);
      TaxOfNonNeg(Subtotal(items, k), taxPercentage);
      if k in members {
        SharedPortionNonNeg(shared, |members|, taxPercentage, fold);
      }
    }
  }
}
