/** The operations of `ForgeRewardsMUSDMinter`, with every remote read as a parameter:
    the registry read (`RegistryArrays`), the masset's decimals, and the contract's
    bitmap for a list of addresses (`bitmapFor`). The results are the calls the
    minter would issue: token approvals and one `mintTo`. */
module Minter {
  import opened Wrappers
  import opened FixedPoint
  import opened Bassets
  import opened BassetsData

  /** An `approve(spender, amount)` call on the token at `token`. */
  datatype Approval = Approval(token: Address, spender: Address, amount: int)

  /** A `mintTo(bitmap, quantities, musdRecipient, rewardRecipient)` call on the forge. */
  datatype MintCall = MintCall(
    bitmap: nat,
    quantities: seq<int>,
    musdRecipient: Address,
    rewardRecipient: Address)

  /** An omitted selection stands for every local basset, in list order. */
  function Selected(bassets: seq<BassetToken>, selection: Option<seq<Address>>): (sel: seq<Address>)
    ensures selection.None? ==> sel == BassetAddresses(bassets)
    ensures selection.Some? ==> sel == selection.value
  {
    selection.GetOr(BassetAddresses(bassets))
  }

  /** `approve`: one approval of the forge per selected address, in selection order,
      for `amount` scaled to that token's own decimals. One unknown address fails the
      whole operation, before any approval is issued. */
  function Approve(lib: MathLib, bassets: seq<BassetToken>, forge: Address,
                   selection: Option<seq<Address>>, amount: int): (r: Result<seq<Approval>, Error>)
    ensures r.Ok? <==> AllKnown(bassets, Selected(bassets, selection))
    ensures r.Ok? ==> var sel := Selected(bassets, selection);
      && |r.value| == |sel|
      && forall i :: 0 <= i < |sel| ==>
           && r.value[i].token == sel[i]
           && r.value[i].spender == forge
           && r.value[i].amount == lib.simpleToExact(amount, DecimalsOf(bassets, sel[i]))
    ensures r.Err? ==> var sel := Selected(bassets, selection);
      exists k :: FirstUnknown(bassets, sel, k) && r.error == BassetNotFound(sel[k])
  {
    var sel := Selected(bassets, selection);
    var decimals :- GetDecimals(bassets, sel);
    Ok(seq(|sel|, i requires 0 <= i < |sel| =>
      Approval(sel[i], forge, lib.simpleToExact(amount, decimals[i]))))
  }

  /** `approveAllBassets`: never fails; approval `i` is for local basset `i`, and when
      local addresses are unique it is scaled by that basset's own decimals. */
  function ApproveAllBassets(lib: MathLib, bassets: seq<BassetToken>, forge: Address, amount: int)
    : (r: Result<seq<Approval>, Error>)
    ensures r.Ok?
    ensures |r.value| == |bassets|
    ensures forall i :: 0 <= i < |bassets| ==>
      r.value[i].token == bassets[i].address && r.value[i].spender == forge
    ensures UniqueAddresses(bassets) ==> forall i :: 0 <= i < |bassets| ==>
      r.value[i].amount == lib.simpleToExact(amount, bassets[i].decimals)
  {
    OwnAddressesAreKnown(bassets);
    var r := Approve(lib, bassets, forge, None, amount);
    assert UniqueAddresses(bassets) ==> forall i :: 0 <= i < |bassets| ==>
      r.value[i].amount == lib.simpleToExact(amount, bassets[i].decimals) by {
      if UniqueAddresses(bassets) {
        forall i | 0 <= i < |bassets|
          ensures r.value[i].amount == lib.simpleToExact(amount, bassets[i].decimals)
        {
          LookupOwnAddress(bassets, i);
        }
      }
    }
    r
  }

  /** `mint`: the selection and the quantities must have one length, otherwise it fails
      with `LengthMismatch` and nothing else happens. Quantity `i` is scaled by the
      decimals of selected address `i`; the bitmap is the contract's for the selection. */
  function Mint(lib: MathLib, bassets: seq<BassetToken>, reg: RegistryArrays,
                bitmapFor: seq<Address> -> nat, selection: Option<seq<Address>>,
                quantities: seq<int>, musdRecipient: Address, rewardRecipient: Address)
    : (r: Result<MintCall, Error>)
    requires reg.Parallel()
    ensures |Selected(bassets, selection)| != |quantities| ==> r == Err(LengthMismatch)
    ensures r.Ok? <==> var sel := Selected(bassets, selection);
      |sel| == |quantities| && AllKnown(bassets, sel) && |sel| <= reg.Length()
    ensures r.Ok? ==> var sel := Selected(bassets, selection);
      && r.value.bitmap == bitmapFor(sel)
      && r.value.musdRecipient == musdRecipient
      && r.value.rewardRecipient == rewardRecipient
      && |r.value.quantities| == |quantities|
      && forall i :: 0 <= i < |quantities| ==>
           r.value.quantities[i] == lib.simpleToExact(quantities[i], DecimalsOf(bassets, sel[i]))
  {
    var sel := Selected(bassets, selection);
    if |sel| != |quantities| then
      Err(LengthMismatch)
    else
      var bitmap := bitmapFor(sel);
      var data :- GetBassetsData(bassets, reg, sel);
      var exact := seq(|quantities|, i requires 0 <= i < |quantities| =>
        lib.simpleToExact(quantities[i], data[i].decimals));
      Ok(MintCall(bitmap, exact, musdRecipient, rewardRecipient))
  }

  /** The masset amount to mint, in the masset's exact units. */
  function MintInputExact(lib: MathLib, massetDecimals: nat, mintInput: int): int {
    lib.simpleToExact(mintInput, massetDecimals)
  }

  /** The optimal quantity for one basset: the exact mint input times the basset's
      maximum weight, taken back from 18 decimals, then through the basset's ratio. */
  function OptimalQuantity(lib: MathLib, mintInputExact: int, maxWeight: nat, ratio: nat): int {
    lib.massetToBasset(lib.exactToSimple(mintInputExact * maxWeight, FullDecimals), ratio)
  }

  /** `calcOptimalBassetQuantitiesForMint`: one quantity per local basset, taken from
      registry entry `i` in registry order. Fails only when the registry has fewer
      entries than the local list. */
  function CalcOptimalBassetQuantitiesForMint(lib: MathLib, bassets: seq<BassetToken>,
                                              reg: RegistryArrays, massetDecimals: nat, mintInput: int)
    : (r: Result<seq<int>, Error>)
    requires reg.Parallel()
    ensures r.Ok? <==> |bassets| <= reg.Length()
    ensures r.Err? ==> r.error == MissingRegistryEntry(reg.Length())
    ensures r.Ok? ==> |r.value| == |bassets|
    ensures r.Ok? ==> forall i :: 0 <= i < |bassets| ==>
      r.value[i] == OptimalQuantity(lib, MintInputExact(lib, massetDecimals, mintInput),
                                    reg.maxWeights[i], reg.ratios[i])
  {
    OwnAddressesAreKnown(bassets);
    var mintInputExact := MintInputExact(lib, massetDecimals, mintInput);
    var data :- GetBassetsData(bassets, reg, BassetAddresses(bassets));
    Ok(seq(|data|, i requires 0 <= i < |data| =>
      OptimalQuantity(lib, mintInputExact, data[i].maxWeight, data[i].ratio)))
  }

  /** `mintAllBassets`: the bitmap of the full local address list, paired with the
      optimal quantities. */
  function MintAllBassets(lib: MathLib, bassets: seq<BassetToken>, reg: RegistryArrays,
                          bitmapFor: seq<Address> -> nat, massetDecimals: nat, mintInput: int,
                          musdRecipient: Address, rewardRecipient: Address)
    : (r: Result<MintCall, Error>)
    requires reg.Parallel()
    ensures r.Ok? <==> |bassets| <= reg.Length()
    ensures r.Err? ==> r.error == MissingRegistryEntry(reg.Length())
    ensures r.Ok? ==>
      && r.value.bitmap == bitmapFor(BassetAddresses(bassets))
      && |r.value.quantities| == |bassets|
      && r.value.musdRecipient == musdRecipient
      && r.value.rewardRecipient == rewardRecipient
      && forall i :: 0 <= i < |bassets| ==>
           r.value.quantities[i] == OptimalQuantity(lib, MintInputExact(lib, massetDecimals, mintInput),
                                                    reg.maxWeights[i], reg.ratios[i])
  {
    var bitmap := bitmapFor(BassetAddresses(bassets));
    var quantities :- CalcOptimalBassetQuantitiesForMint(lib, bassets, reg, massetDecimals, mintInput);
    Ok(MintCall(bitmap, quantities, musdRecipient, rewardRecipient))
  }

  /** `getMUSDBalance`: the exact balance read taken to simple units at the masset's
      decimals; at 18 decimals that is a division by 1e18. */
  function GetMUSDBalance(lib: MathLib, massetDecimals: nat, balance: int): (r: int)
    ensures Documented(lib) && massetDecimals == FullDecimals && 0 <= balance ==>
      r == balance / WeightScale
  {
    lib.exactToSimple(balance, massetDecimals)
  }
}
