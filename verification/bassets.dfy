/** The minter's locally held, ordered list of basset token instances: address lookup,
    the address projection, and the per-address decimals read. */
module Bassets {
  import opened Wrappers

  type Address = string

  /** A basset token instance. `decimals` is the value the token's `decimals()` read
      returns; reads are deterministic, so it is stored with the token. */
  datatype BassetToken = BassetToken(address: Address, decimals: nat)

  /** The errors the minter throws. `MissingRegistryEntry(i)` is the failure of reading
      the status of registry index `i` when the registry has no such index. */
  datatype Error =
    | BassetNotFound(address: Address)
    | LengthMismatch
    | MissingRegistryEntry(index: nat)

  /** The addresses of the local bassets, in list order (the `bassetAddresses` getter). */
  function BassetAddresses(bassets: seq<BassetToken>): (addrs: seq<Address>)
    ensures |addrs| == |bassets|
    ensures forall i :: 0 <= i < |bassets| ==> addrs[i] == bassets[i].address
  {
    if bassets == [] then [] else [bassets[0].address] + BassetAddresses(bassets[1..])
  }

  /** Index `i` holds the first basset of the list whose address is `address`. */
  ghost predicate FirstWithAddress(bassets: seq<BassetToken>, address: Address, i: int) {
    && 0 <= i < |bassets|
    && bassets[i].address == address
    && forall j :: 0 <= j < i ==> bassets[j].address != address
  }

  /** Looks `address` up in the local list; fails with `BassetNotFound` when it is absent. */
  function GetBassetByAddress(bassets: seq<BassetToken>, address: Address): (r: Result<BassetToken, Error>)
    ensures r.Ok? <==> address in BassetAddresses(bassets)
    ensures r.Ok? ==> r.value.address == address
    ensures r.Ok? ==> exists i :: FirstWithAddress(bassets, address, i) && bassets[i] == r.value
    ensures r.Err? ==> r.error == BassetNotFound(address)
  {
    if bassets == [] then Err(BassetNotFound(address))
    else if bassets[0].address == address then
      assert FirstWithAddress(bassets, address, 0);
      Ok(bassets[0])
    else
      var r := GetBassetByAddress(bassets[1..], address);
      assert BassetAddresses(bassets) == [bassets[0].address] + BassetAddresses(bassets[1..]);
      assert r.Ok? ==> exists i :: FirstWithAddress(bassets, address, i) && bassets[i] == r.value by {
        if r.Ok? {
          var i :| FirstWithAddress(bassets[1..], address, i) && bassets[1..][i] == r.value;
          assert FirstWithAddress(bassets, address, i + 1);
        }
      }
      r
  }

  /** The decimals of the first local basset with address `address`. */
  function DecimalsOf(bassets: seq<BassetToken>, address: Address): nat
    requires address in BassetAddresses(bassets)
  {
    GetBassetByAddress(bassets, address).value.decimals
  }

  /** Every address of `request` is held locally. */
  ghost predicate AllKnown(bassets: seq<BassetToken>, request: seq<Address>) {
    forall i :: 0 <= i < |request| ==> request[i] in BassetAddresses(bassets)
  }

  /** `request[k]` is the first address of the request that is not held locally. */
  ghost predicate FirstUnknown(bassets: seq<BassetToken>, request: seq<Address>, k: int) {
    && 0 <= k < |request|
    && request[k] !in BassetAddresses(bassets)
    && forall j :: 0 <= j < k ==> request[j] in BassetAddresses(bassets)
  }

  /** The decimals of each requested address, in request order (`getDecimals`). The
      lookups run in request order, so the first unknown address is the one reported. */
  function GetDecimals(bassets: seq<BassetToken>, request: seq<Address>): (r: Result<seq<nat>, Error>)
    ensures r.Ok? <==> AllKnown(bassets, request)
    ensures r.Ok? ==> |r.value| == |request|
    ensures r.Ok? ==> forall i :: 0 <= i < |request| ==> r.value[i] == DecimalsOf(bassets, request[i])
    ensures r.Err? ==> exists k :: FirstUnknown(bassets, request, k) && r.error == BassetNotFound(request[k])
  {
    if request == [] then Ok([])
    else
      match GetBassetByAddress(bassets, request[0])
      case Err(e) =>
        assert FirstUnknown(bassets, request, 0);
        Err(e)
      case Ok(b) =>
        var rest := GetDecimals(bassets, request[1..]);
        if rest.Err? then
          assert exists k :: FirstUnknown(bassets, request, k) && rest.error == BassetNotFound(request[k]) by {
            var k :| FirstUnknown(bassets, request[1..], k) && rest.error == BassetNotFound(request[1..][k]);
            assert FirstUnknown(bassets, request, k + 1);
          }
          Err(rest.error)
        else
          var r := [b.decimals] + rest.value;
          assert forall i :: 1 <= i < |request| ==> request[i] == request[1..][i - 1];
          Ok(r)
  }

  /** Every address the local list itself yields can be looked up. */
  lemma OwnAddressesAreKnown(bassets: seq<BassetToken>)
    ensures AllKnown(bassets, BassetAddresses(bassets))
  {
  }

  /** No two local bassets share an address. */
  ghost predicate UniqueAddresses(bassets: seq<BassetToken>) {
    forall i, j :: 0 <= i < j < |bassets| ==> bassets[i].address != bassets[j].address
  }

  /** With unique addresses, looking up basset `i`'s address yields basset `i`. */
  lemma LookupOwnAddress(bassets: seq<BassetToken>, i: nat)
    requires UniqueAddresses(bassets)
    requires i < |bassets|
    ensures GetBassetByAddress(bassets, bassets[i].address) == Ok(bassets[i])
    ensures DecimalsOf(bassets, bassets[i].address) == bassets[i].decimals
  {
  }
}
