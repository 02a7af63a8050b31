/** The `for_whom` list of `create_transaction`: member ids paired with their
    integer weights by position, keeping only the members with a positive weight. */
module Splits {
  import opened Numeric
  import opened Weights
  import opened Allocation
  import opened AllocationFacts

  /** One `{"memberId": ..., "weight": ...}` entry. */
  datatype Split = Split(memberId: string, weight: int)

  /** `[... for member_id, w in zip(keys, weights) if w > 0]`; `zip` stops at the
      shorter of the two. */
  function ForWhom(keys: seq<string>, weights: seq<int>): (r: seq<Split>)
    ensures |r| <= |keys| && |r| <= |weights|
    ensures forall e :: e in r ==> e.weight > 0
  {
    if |keys| == 0 || |weights| == 0 then []
    else
      (if weights[0] > 0 then [Split(keys[0], weights[0])] else []) + ForWhom(keys[1..], weights[1..])
  }

  /** An entry is in the list exactly when some position pairs its member with
      its positive weight. */
  lemma {:induction false} ForWhomMembers(keys: seq<string>, weights: seq<int>, e: Split)
    ensures e in ForWhom(keys, weights) <==>
      exists i :: 0 <= i < |keys| && i < |weights| && keys[i] == e.memberId && weights[i] == e.weight && e.weight > 0
    decreases |keys|
  {
    if |keys| > 0 && |weights| > 0 {
      ForWhomMembers(keys[1..], weights[1..], e);
      var head := if weights[0] > 0 then [Split(keys[0], weights[0])] else [];
      assert ForWhom(keys, weights) == head + ForWhom(keys[1..], weights[1..]);
      if e in ForWhom(keys[1..], weights[1..]) {
        var i :| 0 <= i < |keys[1..]| && i < |weights[1..]| && keys[1..][i] == e.memberId && weights[1..][i] == e.weight && e.weight > 0;
        assert keys[i + 1] == e.memberId && weights[i + 1] == e.weight;
      }
      if exists i :: 0 <= i < |keys| && i < |weights| && keys[i] == e.memberId && weights[i] == e.weight && e.weight > 0 {
        var i :| 0 <= i < |keys| && i < |weights| && keys[i] == e.memberId && weights[i] == e.weight && e.weight > 0;
        if i > 0 {
          assert keys[1..][i - 1] == e.memberId && weights[1..][i - 1] == e.weight;
        }
      }
    }
  }

  /** The list follows the key order: filtering the concatenation of two aligned
      blocks gives the two filtered blocks in the same order. */
  lemma {:induction false} ForWhomAppend(k1: seq<string>, w1: seq<int>, k2: seq<string>, w2: seq<int>)
    requires |k1| == |w1|
    ensures ForWhom(k1 + k2, w1 + w2) == ForWhom(k1, w1) + ForWhom(k2, w2)
    decreases |k1|
  {
    if |k1| == 0 {
      assert k1 + k2 == k2 && w1 + w2 == w2;
    } else {
      var k, w := k1 + k2, w1 + w2;
      assert k[0] == k1[0] && w[0] == w1[0];
      assert k[1..] == k1[1..] + k2;
      assert w[1..] == w1[1..] + w2;
      var h := if w1[0] > 0 then [Split(k1[0], w1[0])] else [];
      var a, b := ForWhom(k1[1..], w1[1..]), ForWhom(k2, w2);
      calc {
        ForWhom(k, w);
        { ForWhomCons(k, w); }
        h + ForWhom(k1[1..] + k2, w1[1..] + w2);
        { ForWhomAppend(k1[1..], w1[1..], k2, w2); }
        h + (a + b);
        (h + a) + b;
        { ForWhomCons(k1, w1); }
        ForWhom(k1, w1) + b;
      }
    }
  }

  lemma ForWhomCons(keys: seq<string>, weights: seq<int>)
    requires |keys| > 0 && |weights| > 0
    ensures ForWhom(keys, weights) ==
      (if weights[0] > 0 then [Split(keys[0], weights[0])] else []) + ForWhom(keys[1..], weights[1..])
  {
  }

  predicate DistinctMembers(r: seq<Split>)
  {
    forall i, j :: 0 <= i < j < |r| ==> r[i].memberId != r[j].memberId
  }

  /** Distinct keys give at most one entry per member. */
  lemma {:induction false} ForWhomDistinct(keys: seq<string>, weights: seq<int>)
    requires Distinct(keys)
    ensures DistinctMembers(ForWhom(keys, weights))
    decreases |keys|
  {
    if |keys| > 0 && |weights| > 0 {
      var tail := ForWhom(keys[1..], weights[1..]);
      DistinctTail(keys);
      ForWhomDistinct(keys[1..], weights[1..]);
      if weights[0] > 0 {
        HeadNotListedAgain(keys, weights);
        ConsDistinct(Split(keys[0], weights[0]), tail);
      } else {
        assert ForWhom(keys, weights) == [] + tail;
      }
    }
  }

  /** The first member of distinct keys has no entry among the later positions. */
  lemma HeadNotListedAgain(keys: seq<string>, weights: seq<int>)
    requires Distinct(keys) && |keys| > 0 && |weights| > 0
    ensures forall e :: e in ForWhom(keys[1..], weights[1..]) ==> e.memberId != keys[0]
  {
    forall e | e in ForWhom(keys[1..], weights[1..]) ensures e.memberId != keys[0] {
      ForWhomMembers(keys[1..], weights[1..], e);
      var i :| 0 <= i < |keys[1..]| && i < |weights[1..]| && keys[1..][i] == e.memberId && weights[1..][i] == e.weight && e.weight > 0;
      assert keys[i + 1] == e.memberId;
    }
  }

  lemma ConsDistinct(x: Split, tail: seq<Split>)
    requires DistinctMembers(tail)
    requires forall e :: e in tail ==> e.memberId != x.memberId
    ensures DistinctMembers([x] + tail)
  {
    var r := [x] + tail;
    forall i, j | 0 <= i < j < |r| ensures r[i].memberId != r[j].memberId {
      assert r[j] == tail[j - 1];
      if i > 0 {
        assert r[i] == tail[i - 1];
      }
    }
  }

  /** Lines 174-177: weights of the result amounts in key order, then the
      `for_whom` filter. */
  function BuildSplits(l: Ledger): (r: Result<seq<Split>>)
    requires WellFormed(l)
    ensures r.Failure? <==> ComputeWeights(Values(l.keys, l.amounts)).Failure?
    ensures r.Success? ==> DistinctMembers(r.value)
  {
    match ComputeWeights(Values(l.keys, l.amounts))
    case Success(w) =>
      ForWhomDistinct(l.keys, w);
      Success(ForWhom(l.keys, w))
    case Failure(e) => Failure(e)
  }

  lemma ValuesAt(keys: seq<string>, m: map<string, real>, i: nat)
    requires forall k :: k in keys ==> k in m
    requires i < |keys|
    ensures Values(keys, m)[i] == m[keys[i]]
    decreases |keys|
  {
    if i < |keys| - 1 {
      ValuesAt(keys[..|keys| - 1], m, i);
    }
  }

  lemma ValuesNonNegative(l: Ledger)
    requires WellFormed(l)
    requires forall j :: j in l.amounts ==> l.amounts[j] >= 0.0
    ensures forall i :: 0 <= i < |Values(l.keys, l.amounts)| ==> Values(l.keys, l.amounts)[i] >= 0.0
  {
    forall i | 0 <= i < |Values(l.keys, l.amounts)| ensures Values(l.keys, l.amounts)[i] >= 0.0 {
      ValuesAt(l.keys, l.amounts, i);
    }
  }

  /** One position of `WeightSign`. */
  lemma PositiveWeightAt(vs: seq<real>, w: seq<int>, i: nat)
    requires ComputeWeights(vs) == Success(w) && i < |vs|
    requires forall j :: 0 <= j < |vs| ==> vs[j] >= 0.0
    ensures i < |w| && (w[i] > 0 <==> RoundHalfEven(100.0 * vs[i]) > 0)
  {
    WeightSign(vs);
    assert Scale(vs)[i] == RoundHalfEven(100.0 * vs[i]);
  }

  /** The weight at position `i` is positive exactly when the amount of the
      key at `i` is positive once scaled and rounded. */
  lemma WeightAtKey(l: Ledger, w: seq<int>, i: nat)
    requires WellFormed(l) && ComputeWeights(Values(l.keys, l.amounts)) == Success(w)
    requires forall j :: j in l.amounts ==> l.amounts[j] >= 0.0
    requires i < |l.keys|
    ensures l.keys[i] in l.amounts
    ensures i < |w| && (w[i] > 0 <==> RoundHalfEven(100.0 * l.amounts[l.keys[i]]) > 0)
  {
    var vs := Values(l.keys, l.amounts);
    ValuesAt(l.keys, l.amounts, i);
    ValuesNonNegative(l);
    PositiveWeightAt(vs, w, i);
  }

  /** A listed member has a positive rounded, scaled amount. */
  lemma ListedOnlyIfPositive(l: Ledger, w: seq<int>, e: Split)
    requires WellFormed(l) && ComputeWeights(Values(l.keys, l.amounts)) == Success(w)
    requires forall j :: j in l.amounts ==> l.amounts[j] >= 0.0
    requires e in ForWhom(l.keys, w)
    ensures e.memberId in l.amounts && RoundHalfEven(100.0 * l.amounts[e.memberId]) > 0
  {
    ForWhomMembers(l.keys, w, e);
    var i :| 0 <= i < |l.keys| && i < |w| && l.keys[i] == e.memberId && w[i] == e.weight && e.weight > 0;
    WeightAtKey(l, w, i);
  }

  /** A member with a positive rounded, scaled amount is listed. */
  lemma ListedIfPositive(l: Ledger, w: seq<int>, k: string)
    requires WellFormed(l) && ComputeWeights(Values(l.keys, l.amounts)) == Success(w)
    requires forall j :: j in l.amounts ==> l.amounts[j] >= 0.0
    requires k in l.amounts && RoundHalfEven(100.0 * l.amounts[k]) > 0
    ensures exists e :: e in ForWhom(l.keys, w) && e.memberId == k
  {
    var i :| 0 <= i < |l.keys| && l.keys[i] == k;
    WeightAtKey(l, w, i);
    ForWhomMembers(l.keys, w, Split(k, w[i]));
  }

  /** With non-negative amounts, a member is listed exactly when its amount,
      scaled by 100 and rounded, is positive; and a member owing nothing is
      never listed. */
  lemma SplitsListPositive(l: Ledger, k: string)
    requires WellFormed(l) && BuildSplits(l).Success?
    requires forall j :: j in l.amounts ==> l.amounts[j] >= 0.0
    ensures (exists e :: e in BuildSplits(l).value && e.memberId == k) <==>
      k in l.amounts && RoundHalfEven(100.0 * l.amounts[k]) > 0
    ensures k in l.amounts && l.amounts[k] == 0.0 ==> forall e :: e in BuildSplits(l).value ==> e.memberId != k
  {
    var w := ComputeWeights(Values(l.keys, l.amounts)).value;
    assert BuildSplits(l).value == ForWhom(l.keys, w);
    forall e | e in ForWhom(l.keys, w) && e.memberId == k
      ensures k in l.amounts && RoundHalfEven(100.0 * l.amounts[k]) > 0
    {
      ListedOnlyIfPositive(l, w, e);
    }
    if k in l.amounts && RoundHalfEven(100.0 * l.amounts[k]) > 0 {
      ListedIfPositive(l, w, k);
    }
    if k in l.amounts && l.amounts[k] == 0.0 {
      ZeroNeverListed(l, k);
    }
  }

  /** A member owing exactly 0 is never listed, whatever the sign of the other
      amounts: its scaled amount is 0, and so is its weight. */
  lemma ZeroNeverListed(l: Ledger, k: string)
    requires WellFormed(l) && BuildSplits(l).Success?
    requires k in l.amounts && l.amounts[k] == 0.0
    ensures forall e :: e in BuildSplits(l).value ==> e.memberId != k
  {
    var vs := Values(l.keys, l.amounts);
    var w := ComputeWeights(vs).value;
    assert BuildSplits(l).value == ForWhom(l.keys, w);
    forall e | e in ForWhom(l.keys, w) ensures e.memberId != k {
      ForWhomMembers(l.keys, w, e);
      var i :| 0 <= i < |l.keys| && i < |w| && l.keys[i] == e.memberId && w[i] == e.weight && e.weight > 0;
      if e.memberId == k {
        ValuesAt(l.keys, l.amounts, i);
        ZeroWeight(vs, i);
      }
    }
  }

  /** The weight of a zero amount is 0. */
  lemma ZeroWeight(vs: seq<real>, i: nat)
    requires ComputeWeights(vs).Success? && i < |vs| && vs[i] == 0.0
    ensures ComputeWeights(vs).value[i] == 0
  {
    var s := Scale(vs);
    assert s[i] == 0;
    var g := GcdAll(s);
    assert ComputeWeights(vs).value[i] == FloorDiv(s[i], g);
  }

  /** A member is listed exactly when 100 times their amount rounds to a
      positive integer, and a member owing 0 is never listed. */
  ghost predicate ListedExactlyPositive(l: Ledger)
    requires WellFormed(l) && BuildSplits(l).Success?
  {
    forall k ::
        ((exists e :: e in BuildSplits(l).value && e.memberId == k) <==>
          k in l.amounts && RoundHalfEven(100.0 * l.amounts[k]) > 0) &&
        (k in l.amounts && l.amounts[k] == 0.0 ==> forall e :: e in BuildSplits(l).value ==> e.memberId != k)
  }

  /** The splits list of the allocation `ComputeTransaction` returns: with
      non-negative costs, shared amounts and tax percentage, a member is listed
      exactly when their amount, scaled by 100 and rounded, is positive, and a
      member owing nothing is never listed. */
  lemma AllocationSplits(items: seq<ReceiptItem>, taxPercentage: int, members: seq<string>, totalAmount: real, shared: seq<real>)
    requires taxPercentage >= 0
    requires forall i :: 0 <= i < |items| ==> items[i].cost >= 0.0
    requires forall i :: 0 <= i < |shared| ==> shared[i] >= 0.0
    requires BuildSplits(Allocate(items, taxPercentage, members, totalAmount, shared)).Success?
    ensures ListedExactlyPositive(Allocate(items, taxPercentage, members, totalAmount, shared))
  {
    var r := Allocate(items, taxPercentage, members, totalAmount, shared);
    AllocateNonNeg(items, taxPercentage, members, totalAmount, shared);
    assert WellFormed(r) && forall j :: j in r.amounts ==> r.amounts[j] >= 0.0;
    NonNegativeSplits(r);
  }

  lemma NonNegativeSplits(l: Ledger)
    requires WellFormed(l) && BuildSplits(l).Success?
    requires forall j :: j in l.amounts ==> l.amounts[j] >= 0.0
    ensures ListedExactlyPositive(l)
  {
    forall k
      ensures ((exists e :: e in BuildSplits(l).value && e.memberId == k) <==>
          k in l.amounts && RoundHalfEven(100.0 * l.amounts[k]) > 0) &&
        (k in l.amounts && l.amounts[k] == 0.0 ==> forall e :: e in BuildSplits(l).value ==> e.memberId != k)
    {
      SplitsListPositive(l, k);
    }
  }

  /** The weights of the fixture with amounts 148 and 49 are 148 and 49, and
      both members are listed. */
  lemma SplitsExample()
    ensures BuildSplits(Ledger(["a", "b"], map["a" := 148.0, "b" := 49.0])) ==
      Success([Split("a", 148), Split("b", 49)])
  {
    var l := Ledger(["a", "b"], map["a" := 148.0, "b" := 49.0]);
    var vs := Values(l.keys, l.amounts);
    assert l.keys[..1] == ["a"] && ["a"][..0] == [];
    assert vs == [148.0, 49.0];
    var s := Scale(vs);
    assert s[0] == RoundHalfEven(14800.0) == 14800;
    assert s[1] == RoundHalfEven(4900.0) == 4900;
    assert s == [14800, 4900];
    assert GcdAll(s) == 100 by {
      assert s[..1] == [14800];
      assert EuclidGcd(14800, 4900) == EuclidGcd(4900, 100);
      assert EuclidGcd(4900, 100) == EuclidGcd(100, 0);
    }
    assert FloorDiv(14800, 100) == 148 && FloorDiv(4900, 100) == 49;
    var w := ComputeWeights(vs).value;
    assert w == [148, 49];
    assert ForWhom(l.keys, w) == [Split("a", 148)] + ForWhom(["b"], [49]);
    assert ForWhom(["b"], [49]) == [Split("b", 49)] + ForWhom([], []);
    assert ForWhom(l.keys, w) == [Split("a", 148), Split("b", 49)];
    assert ComputeWeights(vs) == Success(w);
  }
}
