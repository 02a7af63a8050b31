/** The regression cases of backend_api/tests/test_transaction.py, stated about
    the reference allocation that `Allocation.ComputeTransaction` computes. The
    group of every case has the two members below, in this order. */
module Fixtures {
  import opened Allocation
  import opened AllocationFacts

  const M1: string := "-O_65sO85eKnYhJ4mfUh"
  const M2: string := "-O_65vk76uxDTYDTHDku"
  const Group: seq<string> := [M1, M2]

  lemma OneItem(m: string, c: real)
    ensures Ids([ReceiptItem(m, c)]) == [m]
    ensures DirectKeys([ReceiptItem(m, c)]) == [m]
    ensures Subtotal([ReceiptItem(m, c)], m) == c
  {
    var items := [ReceiptItem(m, c)];
    assert items[..0] == [];
    assert Ids(items) == [m];
    DedupSnoc([], m);
    assert [] + [m] == [m];
  }

  lemma TwoItems(m1: string, c1: real, m2: string, c2: real)
    requires m1 != m2
    ensures var items := [ReceiptItem(m1, c1), ReceiptItem(m2, c2)];
      Ids(items) == [m1, m2] && DirectKeys(items) == [m1, m2] &&
      Subtotal(items, m1) == c1 && Subtotal(items, m2) == c2
  {
    var items := [ReceiptItem(m1, c1), ReceiptItem(m2, c2)];
    assert items[..1] == [ReceiptItem(m1, c1)];
    OneItem(m1, c1);
    assert Ids(items) == [m1] + [m2];
    DedupSnoc([m1], m2);
    assert Subtotal([ReceiptItem(m1, c1)], m2) == 0.0 by {
      assert [ReceiptItem(m1, c1)][..0] == [];
    }
  }

  lemma OneShared(x: real, n: nat, taxPercentage: int, fold: bool)
    requires n > 0
    ensures SharedCheck([x], taxPercentage) == x + TaxOf(x, taxPercentage) as real
    ensures SharedPortion([x], n, taxPercentage, fold) == Piece(x, n, taxPercentage, fold)
  {
    assert [x][..0] == [];
  }

  lemma FreshGroup(ids: seq<string>)
    requires M1 in ids
    ensures Fresh(Group, ids) == if M2 in ids then [] else [M2]
  {
    assert Group == [M1] + [M2] && [M1] == [] + [M1];
    FreshSnoc([], M1, ids);
    FreshSnoc([M1], M2, ids);
  }

  lemma GroupKeysFrom(ids: seq<string>)
    requires ids == [M1] || ids == [M1, M2]
    ensures ids + Fresh(Group, ids) == [M1, M2]
  {
    FreshGroup(ids);
    if ids == [M1] {
      assert M2 !in ids;
    } else {
      assert M2 in ids;
    }
  }

  lemma GroupKeys(items: seq<ReceiptItem>, shared: seq<real>)
    requires |shared| > 0
    requires Ids(items) == DirectKeys(items)
    requires Ids(items) == [M1] || Ids(items) == [M1, M2]
    ensures ResultKeys(items, Group, shared) == [M1, M2]
  {
    GroupDistinct();
    ResultKeysOrder(items, Group, shared);
    var ids := Ids(items);
    assert ResultKeys(items, Group, shared) == ids + Fresh(Group, ids);
    GroupKeysFrom(ids);
  }

  lemma GroupDistinct()
    ensures Distinct(Group)
  {
    assert M1[5] == 's' && M2[5] == 'v';
  }

  /** The two-key sums over `[M1, M2]`. */
  lemma TwoKeySums(items: seq<ReceiptItem>, taxPercentage: int)
    ensures TaxSum(items, [M1, M2], taxPercentage) ==
      TaxOf(Subtotal(items, M1), taxPercentage) + TaxOf(Subtotal(items, M2), taxPercentage)
    ensures SubtotalSum(items, [M1, M2]) == Subtotal(items, M1) + Subtotal(items, M2)
  {
    var keys := [M1, M2];
    assert keys[..1] == [M1];
    assert [M1][..0] == [];
    assert TaxSum(items, [M1], taxPercentage) == TaxOf(Subtotal(items, M1), taxPercentage);
    assert SubtotalSum(items, [M1]) == Subtotal(items, M1);
    assert TaxSum(items, keys, taxPercentage) == TaxSum(items, [M1], taxPercentage) + TaxOf(Subtotal(items, M2), taxPercentage);
  }

  lemma NoSharedKeys(items: seq<ReceiptItem>)
    ensures ResultKeys(items, Group, []) == DirectKeys(items)
  {
    assert Ids(items) + [] == Ids(items);
  }

  lemma MapOfKeys(keys: seq<string>, m: map<string, real>, a1: real, a2: real)
    requires forall k :: k in m <==> k in keys
    requires keys == [M1] || keys == [M1, M2]
    requires M1 in m && m[M1] == a1
    requires keys == [M1, M2] ==> M2 in m && m[M2] == a2
    ensures keys == [M1] ==> m == map[M1 := a1]
    ensures keys == [M1, M2] ==> m == map[M1 := a1, M2 := a2]
  {
  }

  /** The reference allocation with one key, from that key's amount. */
  lemma OneKeyLedger(items: seq<ReceiptItem>, taxPercentage: int, totalAmount: real, shared: seq<real>, a1: real)
    requires ResultKeys(items, Group, shared) == [M1]
    requires Owed(items, taxPercentage, Group, shared, ShouldFold(items, taxPercentage, totalAmount, shared), M1) == a1
    ensures Allocate(items, taxPercentage, Group, totalAmount, shared) == Ledger([M1], map[M1 := a1])
  {
    var r := Allocate(items, taxPercentage, Group, totalAmount, shared);
    assert r.keys == [M1];
    assert M1 in r.amounts && r.amounts[M1] == a1;
    MapOfKeys(r.keys, r.amounts, a1, 0.0);
  }

  /** The reference allocation with the two keys, from their amounts. */
  lemma TwoKeyLedger(items: seq<ReceiptItem>, taxPercentage: int, totalAmount: real, shared: seq<real>, a1: real, a2: real)
    requires ResultKeys(items, Group, shared) == [M1, M2]
    requires Owed(items, taxPercentage, Group, shared, ShouldFold(items, taxPercentage, totalAmount, shared), M1) == a1
    requires Owed(items, taxPercentage, Group, shared, ShouldFold(items, taxPercentage, totalAmount, shared), M2) == a2
    ensures Allocate(items, taxPercentage, Group, totalAmount, shared) == Ledger([M1, M2], map[M1 := a1, M2 := a2])
  {
    var r := Allocate(items, taxPercentage, Group, totalAmount, shared);
    assert r.keys == [M1, M2];
    assert M1 in r.amounts && r.amounts[M1] == a1;
    assert M2 in r.amounts && r.amounts[M2] == a2;
    MapOfKeys(r.keys, r.amounts, a1, a2);
  }

  /** The one-key sums over `[M1]`. */
  lemma OneKeySums(items: seq<ReceiptItem>, taxPercentage: int)
    ensures TaxSum(items, [M1], taxPercentage) == TaxOf(Subtotal(items, M1), taxPercentage)
    ensures SubtotalSum(items, [M1]) == Subtotal(items, M1)
  {
    assert [M1][..0] == [];
  }

  /** 90 at 10% against a total of 99: the tax is folded in. */
  lemma SingleMemberTaxExcluded()
    ensures Allocate([ReceiptItem(M1, 90.0)], 10, Group, 99.0, []) == Ledger([M1], map[M1 := 99.0])
  {
    var items := [ReceiptItem(M1, 90.0)];
    OneItem(M1, 90.0);
    OneKeySums(items, 10);
    assert TaxOf(90.0, 10) == 9;
    assert ShouldFold(items, 10, 99.0, []);
    NoSharedKeys(items);
    assert Owed(items, 10, Group, [], true, M1) == 99.0;
    OneKeyLedger(items, 10, 99.0, [], 99.0);
  }

  /** 100 at 10% against a total of 100: the tax is already included. */
  lemma SingleMemberTaxIncluded()
    ensures Allocate([ReceiptItem(M1, 100.0)], 10, Group, 100.0, []) == Ledger([M1], map[M1 := 100.0])
  {
    var items := [ReceiptItem(M1, 100.0)];
    OneItem(M1, 100.0);
    OneKeySums(items, 10);
    assert TaxOf(100.0, 10) == 10;
    assert !ShouldFold(items, 10, 100.0, []);
    NoSharedKeys(items);
    assert Owed(items, 10, Group, [], false, M1) == 100.0;
    OneKeyLedger(items, 10, 100.0, [], 100.0);
  }

  /** 100 direct and 100 shared at 10% against 200: no tax, 50 each shared. */
  lemma SplitTaxIncluded()
    ensures Allocate([ReceiptItem(M1, 100.0)], 10, Group, 200.0, [100.0]) == Ledger([M1, M2], map[M1 := 150.0, M2 := 50.0])
  {
    var items := [ReceiptItem(M1, 100.0)];
    OneItem(M1, 100.0);
    OneKeySums(items, 10);
    assert TaxOf(100.0, 10) == 10;
    OneShared(100.0, 2, 10, false);
    assert !ShouldFold(items, 10, 200.0, [100.0]);
    assert Piece(100.0, 2, 10, false) == 50.0;
    GroupKeys(items, [100.0]);
    assert Owed(items, 10, Group, [100.0], false, M1) == 150.0;
    assert Owed(items, 10, Group, [100.0], false, M2) == 50.0;
    TwoKeyLedger(items, 10, 200.0, [100.0], 150.0, 50.0);
  }

  /** 90 direct and 90 shared at 10% against 198: tax folded in, and the
      truncated tax of each 45 portion is 4. */
  lemma SplitTaxExcluded()
    ensures Allocate([ReceiptItem(M1, 90.0)], 10, Group, 198.0, [90.0]) == Ledger([M1, M2], map[M1 := 148.0, M2 := 49.0])
  {
    var items := [ReceiptItem(M1, 90.0)];
    OneItem(M1, 90.0);
    OneKeySums(items, 10);
    assert TaxOf(90.0, 10) == 9;
    OneShared(90.0, 2, 10, true);
    assert ShouldFold(items, 10, 198.0, [90.0]);
    assert TaxOf(45.0, 10) == 4;
    assert Piece(90.0, 2, 10, true) == 49.0;
    GroupKeys(items, [90.0]);
    assert Owed(items, 10, Group, [90.0], true, M1) == 148.0;
    assert Owed(items, 10, Group, [90.0], true, M2) == 49.0;
    TwoKeyLedger(items, 10, 198.0, [90.0], 148.0, 49.0);
  }

  /** The check behind the fold adds the truncated tax of the whole shared item
      (9), but each half is credited only the truncated tax of the half (4): the
      amounts of the case above add up to 197, one short of the declared 198. */
  lemma SplitTaxExcludedShortfall()
    ensures LedgerTotal(Allocate([ReceiptItem(M1, 90.0)], 10, Group, 198.0, [90.0])) == 197.0
  {
    SplitTaxExcluded();
    GroupDistinct();
    TwoKeyTotal(148.0, 49.0);
  }

  lemma TwoKeyTotal(a: real, b: real)
    requires M1 != M2
    ensures LedgerTotal(Ledger([M1, M2], map[M1 := a, M2 := b])) == a + b
  {
    var l := Ledger([M1, M2], map[M1 := a, M2 := b]);
    assert l.keys[..1] == [M1] && [M1][..0] == [];
    assert l.amounts[M1] == a && l.amounts[M2] == b;
    assert Values([M1], l.amounts) == [] + [a];
    var vs := Values(l.keys, l.amounts);
    assert vs == [a] + [b];
    assert vs[..1] == [a] && [a][..0] == [];
    assert Sum([a]) == 0.0 + a;
    assert Sum(vs) == Sum([a]) + b;
  }

  /** Two members with 100 each at 10% against 200: no tax. */
  lemma TwoMembersTaxIncluded()
    ensures Allocate([ReceiptItem(M1, 100.0), ReceiptItem(M2, 100.0)], 10, Group, 200.0, []) ==
      Ledger([M1, M2], map[M1 := 100.0, M2 := 100.0])
  {
    var items := [ReceiptItem(M1, 100.0), ReceiptItem(M2, 100.0)];
    TwoItems(M1, 100.0, M2, 100.0);
    TwoKeySums(items, 10);
    assert TaxOf(100.0, 10) == 10;
    assert !ShouldFold(items, 10, 200.0, []);
    NoSharedKeys(items);
    assert Owed(items, 10, Group, [], false, M1) == 100.0;
    assert Owed(items, 10, Group, [], false, M2) == 100.0;
    TwoKeyLedger(items, 10, 200.0, [], 100.0, 100.0);
  }

  /** Two members with 90 each at 10% against 198: tax folded in. */
  lemma TwoMembersTaxExcluded()
    ensures Allocate([ReceiptItem(M1, 90.0), ReceiptItem(M2, 90.0)], 10, Group, 198.0, []) ==
      Ledger([M1, M2], map[M1 := 99.0, M2 := 99.0])
  {
    var items := [ReceiptItem(M1, 90.0), ReceiptItem(M2, 90.0)];
    TwoItems(M1, 90.0, M2, 90.0);
    TwoKeySums(items, 10);
    assert TaxOf(90.0, 10) == 9;
    assert ShouldFold(items, 10, 198.0, []);
    NoSharedKeys(items);
    assert Owed(items, 10, Group, [], true, M1) == 99.0;
    assert Owed(items, 10, Group, [], true, M2) == 99.0;
    TwoKeyLedger(items, 10, 198.0, [], 99.0, 99.0);
  }

  /** Two members with 90 each plus 90 shared at 10% against 297: tax folded in. */
  lemma TwoMembersSplitTaxExcluded()
    ensures Allocate([ReceiptItem(M1, 90.0), ReceiptItem(M2, 90.0)], 10, Group, 297.0, [90.0]) ==
      Ledger([M1, M2], map[M1 := 148.0, M2 := 148.0])
  {
    var items := [ReceiptItem(M1, 90.0), ReceiptItem(M2, 90.0)];
    TwoItems(M1, 90.0, M2, 90.0);
    TwoKeySums(items, 10);
    assert TaxOf(90.0, 10) == 9;
    OneShared(90.0, 2, 10, true);
    assert ShouldFold(items, 10, 297.0, [90.0]);
    assert TaxOf(45.0, 10) == 4;
    assert Piece(90.0, 2, 10, true) == 49.0;
    GroupKeys(items, [90.0]);
    assert Owed(items, 10, Group, [90.0], true, M1) == 148.0;
    assert Owed(items, 10, Group, [90.0], true, M2) == 148.0;
    TwoKeyLedger(items, 10, 297.0, [90.0], 148.0, 148.0);
  }
}
