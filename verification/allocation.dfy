/** What the optimal mint quantities mean, under the documented facts about the math
    helpers: a basset with ratio 1e8 receives its maximum weight's share of the exact
    mint input, and over a registry whose weights add up to 100% the shares add up to
    the mint input, short by less than one unit per basset. */
module Allocation {
  import opened FixedPoint
  import opened Bassets
  import opened BassetsData
  import opened Minter

  function Sum(s: seq<int>): int {
    if s == [] then 0 else s[0] + Sum(s[1..])
  }

  /** With ratio 1e8 ("straight up") the quantity is the floor of the weight's share. */
  lemma StraightUpQuantity(lib: MathLib, mintInputExact: int, maxWeight: nat)
    requires Documented(lib)
    requires 0 <= mintInputExact
    ensures OptimalQuantity(lib, mintInputExact, maxWeight, RatioScale)
            == mintInputExact * maxWeight / WeightScale
  {
  }

  /** A maximum weight of 40e16 yields exactly 40% of the exact mint input, rounded down. */
  lemma FortyPercentWeight(lib: MathLib, mintInputExact: int)
    requires Documented(lib)
    requires 0 <= mintInputExact
    ensures OptimalQuantity(lib, mintInputExact, 400_000_000_000_000_000, RatioScale)
            == mintInputExact * 2 / 5
  {
  }

  /** With ratio 1e8, a larger maximum weight never yields a smaller quantity, and a zero
      weight yields nothing. */
  lemma StraightUpMonotoneInWeight(lib: MathLib, mintInputExact: int, w1: nat, w2: nat)
    requires Documented(lib)
    requires 0 <= mintInputExact
    requires w1 <= w2
    ensures OptimalQuantity(lib, mintInputExact, 0, RatioScale) == 0
    ensures OptimalQuantity(lib, mintInputExact, w1, RatioScale)
            <= OptimalQuantity(lib, mintInputExact, w2, RatioScale)
  {
    StraightUpQuantity(lib, mintInputExact, w1);
    StraightUpQuantity(lib, mintInputExact, w2);
    var d: nat := w2 - w1;
    assert mintInputExact * w2 == mintInputExact * w1 + mintInputExact * d;
    assert 0 <= mintInputExact * d;
  }

  /** Floor shares of `x` by the weights `ws`: scaled back up they never exceed `x`
      times the total weight, and fall short of it by at most `WeightScale - 1` per share. */
  lemma {:induction false} FloorSharesBounds(x: int, ws: seq<nat>, q: seq<int>)
    requires 0 <= x
    requires |q| == |ws|
    requires forall i :: 0 <= i < |q| ==> q[i] == x * ws[i] / WeightScale
    ensures WeightScale * Sum(q) <= x * Sum(ws)
    ensures x * Sum(ws) - WeightScale * Sum(q) <= (WeightScale - 1) * |q|
  {
    if q != [] {
      FloorSharesBounds(x, ws[1..], q[1..]);
      var a := x * ws[0];
      assert 0 <= a;
      assert q[0] == a / WeightScale;
      assert x * Sum(ws) == a + x * Sum(ws[1..]);
    }
  }

  /** Over a registry that the local list covers exactly, with every ratio 1e8 and
      maximum weights adding up to 100%, `mintAllBassets` splits the exact mint input
      into quantities whose sum is at most the input and short of it by less than the
      number of bassets. */
  lemma MintAllBassetsSplitsInput(
    lib: MathLib, bassets: seq<BassetToken>, reg: RegistryArrays,
    bitmapFor: seq<Address> -> nat, massetDecimals: nat, mintInput: int,
    musdRecipient: Address, rewardRecipient: Address)
    requires Documented(lib)
    requires reg.Parallel()
    requires |bassets| == reg.Length()
    requires forall i :: 0 <= i < |reg.ratios| ==> reg.ratios[i] == RatioScale
    requires Sum(reg.maxWeights) == WeightScale
    requires 0 <= MintInputExact(lib, massetDecimals, mintInput)
    ensures var r := MintAllBassets(lib, bassets, reg, bitmapFor, massetDecimals, mintInput,
                                    musdRecipient, rewardRecipient);
      var x := MintInputExact(lib, massetDecimals, mintInput);
      && r.Ok?
      && Sum(r.value.quantities) <= x
      && x - |bassets| < Sum(r.value.quantities)
  {
    var r := MintAllBassets(lib, bassets, reg, bitmapFor, massetDecimals, mintInput,
                            musdRecipient, rewardRecipient);
    var x := MintInputExact(lib, massetDecimals, mintInput);
    var q := r.value.quantities;
    forall i | 0 <= i < |q|
      ensures q[i] == x * reg.maxWeights[i] / WeightScale
    {
      StraightUpQuantity(lib, x, reg.maxWeights[i]);
    }
    FloorSharesBounds(x, reg.maxWeights, q);
  }
}
