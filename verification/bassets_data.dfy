/** Assembly of per-basset records from the basset registry that the mUSD contract
    returns as six parallel arrays (`getBassetsData`). */
module BassetsData {
  import opened Wrappers
  import opened Bassets

  /** The registry read, in the contract's own order: addresses, ratio keys, ratios,
      maximum weights (scale 1e18), vault balances and raw status codes. */
  datatype RegistryArrays = RegistryArrays(
    addresses: seq<Address>,
    keys: seq<string>,
    ratios: seq<nat>,
    maxWeights: seq<nat>,
    vaultBalances: seq<nat>,
    statuses: seq<nat>)
  {
    /** The six arrays describe the same bassets, so they have one length. */
    predicate Parallel() {
      && |keys| == |addresses|
      && |ratios| == |addresses|
      && |maxWeights| == |addresses|
      && |vaultBalances| == |addresses|
      && |statuses| == |addresses|
    }

    function Length(): nat {
      |addresses|
    }
  }

  /** One assembled basset record. `status` is kept as the raw code. */
  datatype BassetData = BassetData(
    addr: Address,
    key: string,
    ratio: nat,
    decimals: nat,
    maxWeight: nat,
    vaultBalance: nat,
    status: nat)

  /** Record `i` takes every registry field from registry index `i` and its decimals
      from `decimals[i]`. */
  ghost predicate RecordFrom(reg: RegistryArrays, decimals: seq<nat>, i: int, d: BassetData)
    requires reg.Parallel()
  {
    && 0 <= i < reg.Length()
    && 0 <= i < |decimals|
    && d.addr == reg.addresses[i]
    && d.key == reg.keys[i]
    && d.ratio == reg.ratios[i]
    && d.decimals == decimals[i]
    && d.maxWeight == reg.maxWeights[i]
    && d.vaultBalance == reg.vaultBalances[i]
    && d.status == reg.statuses[i]
  }

  /** The `reduce` over the request: appends one record per index, starting from the
      records already built in `acc`. */
  function Assemble(reg: RegistryArrays, decimals: seq<nat>, acc: seq<BassetData>): (data: seq<BassetData>)
    requires reg.Parallel()
    requires |acc| <= |decimals| <= reg.Length()
    requires forall i :: 0 <= i < |acc| ==> RecordFrom(reg, decimals, i, acc[i])
    ensures |data| == |decimals|
    ensures forall i :: 0 <= i < |data| ==> RecordFrom(reg, decimals, i, data[i])
    decreases |decimals| - |acc|
  {
    if |acc| == |decimals| then acc
    else
      var i := |acc|;
      var record := BassetData(reg.addresses[i], reg.keys[i], reg.ratios[i], decimals[i],
                               reg.maxWeights[i], reg.vaultBalances[i], reg.statuses[i]);
      Assemble(reg, decimals, acc + [record])
  }

  /** `getBassetsData`: one record per requested address. Registry fields come from the
      registry index equal to the request index, decimals from the requested address.
      Fails with the first unknown address, or when the request is longer than the
      registry. */
  function GetBassetsData(bassets: seq<BassetToken>, reg: RegistryArrays, request: seq<Address>)
    : (r: Result<seq<BassetData>, Error>)
    requires reg.Parallel()
    ensures r.Ok? <==> AllKnown(bassets, request) && |request| <= reg.Length()
    ensures r.Ok? ==> |r.value| == |request|
    ensures r.Ok? ==> forall i :: 0 <= i < |request| ==>
      && r.value[i].addr == reg.addresses[i]
      && r.value[i].key == reg.keys[i]
      && r.value[i].ratio == reg.ratios[i]
      && r.value[i].maxWeight == reg.maxWeights[i]
      && r.value[i].vaultBalance == reg.vaultBalances[i]
      && r.value[i].status == reg.statuses[i]
      && r.value[i].decimals == DecimalsOf(bassets, request[i])
    ensures r.Err? && !AllKnown(bassets, request) ==>
      exists k :: FirstUnknown(bassets, request, k) && r.error == BassetNotFound(request[k])
    ensures r.Err? && AllKnown(bassets, request) ==> r.error == MissingRegistryEntry(reg.Length())
  {
    var decimals :- GetDecimals(bassets, request);
    if |request| > |reg.statuses| then
      Err(MissingRegistryEntry(|reg.statuses|))
    else
      Ok(Assemble(reg, decimals, []))
  }

  /** Record `i`'s address is the requested address `i` for every `i` exactly when the
      request lists the registry's addresses in registry order (possibly stopping early). */
  lemma AlignedIffRegistryPrefix(bassets: seq<BassetToken>, reg: RegistryArrays, request: seq<Address>)
    requires reg.Parallel()
    requires GetBassetsData(bassets, reg, request).Ok?
    ensures var data := GetBassetsData(bassets, reg, request).value;
      (forall i :: 0 <= i < |request| ==> data[i].addr == request[i])
      <==> request == reg.addresses[..|request|]
  {
  }

  /** The full-registry request of `mintAllBassets`: when the local list holds the
      registry's addresses in registry order, the read succeeds and record `i`
      carries local basset `i`'s address with registry entry `i`'s ratio and weight, and
      with unique local addresses also basset `i`'s own decimals. */
  lemma FullRegistryOrderAligns(bassets: seq<BassetToken>, reg: RegistryArrays)
    requires reg.Parallel()
    requires BassetAddresses(bassets) == reg.addresses
    ensures GetBassetsData(bassets, reg, BassetAddresses(bassets)).Ok?
    ensures var data := GetBassetsData(bassets, reg, BassetAddresses(bassets)).value;
      forall i :: 0 <= i < |bassets| ==>
        && data[i].addr == bassets[i].address
        && data[i].ratio == reg.ratios[i]
        && data[i].maxWeight == reg.maxWeights[i]
    ensures var data := GetBassetsData(bassets, reg, BassetAddresses(bassets)).value;
      UniqueAddresses(bassets) ==> forall i :: 0 <= i < |bassets| ==> data[i].decimals == bassets[i].decimals
  {
  }

  /** The ordering hazard: a request naming registry bassets in another order succeeds,
      yet its first record carries the first registry address together with the decimals
      of the first requested basset. */
  lemma ReorderedRequestMisaligns()
    ensures var a := BassetToken("A", 18);
      var b := BassetToken("B", 6);
      var reg := RegistryArrays(["A", "B"], ["kA", "kB"], [100_000_000, 1_000_000_000_000],
                                [500_000_000_000_000_000, 500_000_000_000_000_000], [0, 0], [0, 0]);
      var r := GetBassetsData([a, b], reg, ["B", "A"]);
      && r.Ok?
      && r.value[0].addr == "A"
      && r.value[0].decimals == 6
  {
  }
}
