# ForgeRewardsMUSDMinter — a Dafny model

This project models the pure data logic of the `ForgeRewardsMUSDMinter` helper of the
mStable contracts scripts: the class that approves and mints through the
`ForgeRewardsMUSD` contract on behalf of a set of basset (reserve asset) tokens.
It covers

- address lookup over the locally held, ordered basset list and the `bassetAddresses` projection;
- the "omitted selection means every basset" default of `approve` and `mint`;
- the length check of `mint` and the scaling of its simple-unit quantities into each basset's exact units;
- the index-by-index assembly of per-basset records from the six parallel arrays of the mUSD registry read (`getBassetsData`), including the ordering hazard it carries;
- the optimal per-basset mint quantities of `mintAllBassets`: exact mint input times `maxWeight`, divided back by 1e18, then passed through the basset's ratio.

Modules, leaves first:

- `Wrappers` (`wrappers.dfy`): `Option` for omitted arguments, `Result` for thrown errors.
- `FixedPoint` (`fixed_point.dfy`): the scales (ratio 1e8, weight 1e18) and the imported math helpers as a record of opaque functions, `MathLib`. The predicate `Documented` holds the only facts the source's comments state about them: exact-to-simple at 18 decimals divides by 1e18, and a ratio of 1e8 is the identity. `WitnessIsDocumented` shows these facts are consistent.
- `Bassets` (`bassets.dfy`): the local token list, lookup, addresses, per-address decimals, and the error type.
- `BassetsData` (`bassets_data.dfy`): the registry arrays and record assembly.
- `Minter` (`minter.dfy`): `approve`, `approveAllBassets`, `mint`, `calcOptimalBassetQuantitiesForMint`, `mintAllBassets` and `getMUSDBalance`. The results are the calls the minter would issue.
- `Allocation` (`allocation.dfy`): what the optimal quantities mean when the documented facts hold.

Every remote read is a parameter. These are the registry read `getBassets()`, each token's `decimals()` (stored with the local token), the masset's `decimals()`, the masset's `balanceOf` (the `balance` argument of `GetMUSDBalance`) and the contract's `getBitmapFor` (an opaque function `bitmapFor` of the address list). The bitmap is never computed locally.

The ordering hazard: `getBassetsData` pairs registry index *i* with requested address *i*. Its records agree with the request exactly when the request lists registry addresses in registry order (`AlignedIffRegistryPrefix`). `ReorderedRequestMisaligns` exhibits a reordered request whose first record mixes one basset's address with another basset's decimals. `mint` only uses the records' decimals, and those come from the request, so its quantities are scaled correctly for any selection. `mintAllBassets` requests the full local list; its quantities follow registry order, and they describe the local bassets when the local list is in registry order (`FullRegistryOrderAligns`).

## Model

| member | source | states |
|---|---|---|
| `Bassets.BassetAddresses` | scripts/src/utils/forgeRewardsMUSDMinter.ts:136-138 | one address per local basset, same length, element *i* is basset *i*'s address |
| `Bassets.GetBassetByAddress` | scripts/src/utils/forgeRewardsMUSDMinter.ts:128-134 | succeeds iff the address is held locally; the result has the queried address and is the first such basset in list order; otherwise fails with "not found" for that address |
| `Bassets.GetDecimals` | scripts/src/utils/forgeRewardsMUSDMinter.ts:121-126 | succeeds iff every requested address is known; one decimals value per request, in request order, from that address's token; otherwise reports the first unknown requested address |
| `Bassets.OwnAddressesAreKnown` | scripts/src/utils/forgeRewardsMUSDMinter.ts:128-138 | every address of `bassetAddresses` is found by the lookup, so the default selection never fails with "not found" |
| `Bassets.LookupOwnAddress` | scripts/src/utils/forgeRewardsMUSDMinter.ts:128-134 | with unique addresses, looking up basset *i*'s address returns basset *i* and its decimals |
| `BassetsData.Assemble` | scripts/src/utils/forgeRewardsMUSDMinter.ts:82-96 | the reduce builds one record per index, record *i* from registry index *i* and decimals *i* |
| `BassetsData.GetBassetsData` | scripts/src/utils/forgeRewardsMUSDMinter.ts:79-97 | succeeds iff every requested address is known and the registry has an entry at every request index; record *i* takes addr, key, ratio, maxWeight, vaultBalance and status from registry index *i* and decimals from requested address *i*; errors report the first unknown address, else the first missing registry index |
| `BassetsData.AlignedIffRegistryPrefix` | scripts/src/utils/forgeRewardsMUSDMinter.ts:80-96 | record *i*'s address equals requested address *i* for all *i* iff the request is the registry's address list in registry order (a prefix of it) |
| `BassetsData.FullRegistryOrderAligns` | scripts/src/utils/forgeRewardsMUSDMinter.ts:99-103 | when the local list is in registry order, the full-list read succeeds and record *i* carries local basset *i*'s address and registry entry *i*'s ratio and weight; with unique local addresses it also carries basset *i*'s own decimals |
| `BassetsData.ReorderedRequestMisaligns` | scripts/src/utils/forgeRewardsMUSDMinter.ts:80-96 | a reordered request succeeds but its first record pairs registry address A with the decimals of requested basset B |
| `Minter.Selected` | scripts/src/utils/forgeRewardsMUSDMinter.ts:15-16 | an omitted selection is the full local address list; a given one is used as is |
| `Minter.Approve` | scripts/src/utils/forgeRewardsMUSDMinter.ts:15-30 | succeeds iff every selected address is known; one approval of the forge per selected address in selection order, each for the amount scaled by that address's decimals; otherwise fails with the first unknown address |
| `Minter.ApproveAllBassets` | scripts/src/utils/forgeRewardsMUSDMinter.ts:32-34 | never fails; approval *i* is for local basset *i*; with unique addresses its amount uses basset *i*'s own decimals |
| `Minter.Mint` | scripts/src/utils/forgeRewardsMUSDMinter.ts:36-60 | differing lengths fail with `LengthMismatch` and no call; succeeds iff lengths agree, all addresses are known and the registry is long enough; quantity *i* is scaled by selected address *i*'s decimals; the bitmap is the contract's for the selection |
| `Minter.CalcOptimalBassetQuantitiesForMint` | scripts/src/utils/forgeRewardsMUSDMinter.ts:99-114 | succeeds iff the registry has an entry per local basset; one quantity per local basset, quantity *i* from registry index *i*'s maxWeight and ratio applied to the exact mint input |
| `Minter.MintAllBassets` | scripts/src/utils/forgeRewardsMUSDMinter.ts:62-71 | the bitmap of the full local address list is paired with the optimal quantities, one per local basset, in registry order |
| `Minter.GetMUSDBalance` | scripts/src/utils/forgeRewardsMUSDMinter.ts:73-77 | at 18 masset decimals the simple balance is the exact balance divided by 1e18 |
| `Allocation.StraightUpQuantity` | scripts/src/utils/forgeRewardsMUSDMinter.ts:104-112 | with ratio 1e8 the optimal quantity is floor(mintInputExact * maxWeight / 1e18) |
| `Allocation.FortyPercentWeight` | scripts/src/utils/forgeRewardsMUSDMinter.ts:108-111 | a maxWeight of 40e16 yields exactly 40% of the exact mint input, rounded down |
| `Allocation.StraightUpMonotoneInWeight` | scripts/src/utils/forgeRewardsMUSDMinter.ts:108-112 | with ratio 1e8 a zero weight yields zero and a larger weight never yields a smaller quantity |
| `Allocation.MintAllBassetsSplitsInput` | scripts/src/utils/forgeRewardsMUSDMinter.ts:99-114 | over a fully covered registry with ratios 1e8 and weights summing to 1e18, the quantities sum to at most the exact mint input and fall short by less than the number of bassets |

## Left out

- `tasks/deployMbtc.ts`: deployment sequencing (factories, proxies, linked libraries, address tables, transaction flows, logging); not pure data logic.
- Remote calls (`getBassets`, `decimals`, `balanceOf`, `getBitmapFor`, token `approve`, `forge.mintTo`): their results are parameters and the issued calls are returned as values; what the contracts compute is not modelled. A revert inside them is not modelled.
- The bitmap: computed by the contract; no local encoding exists, so none is modelled.
- `Promise.all` and async sequencing: the model is sequential; results are taken in input order, which `Promise.all` guarantees.
- `simpleToExactAmount`, `exactAmountToSimple`, `applyRatioMassetToBasset`: their code is not part of this model. They are opaque total functions constrained only by `Documented`; a failure inside them is not modelled.
- `Documented`: states exact-to-simple at 18 decimals only for non-negative amounts, where truncating and flooring division agree. A negative `mintInput`, which `mintAllBassets` accepts without a check, is not covered: the `Allocation` lemmas require `0 <= MintInputExact(...)`.
- `BN.toNumber()` conversions of decimals, statuses and the bitmap and their overflow; decimals and statuses are unbounded naturals here.
- The `BassetStatus` name mapping: status is kept as the raw code.
- Truffle `TransactionDetails`, the forge's own address beyond its use as spender, and the constructor wiring.
- `BassetsData.GetBassetsData`: requires the registry's six arrays to have one length, as one registry read returns them; the JavaScript `undefined` fields that a shorter non-status array would give are not modelled.
- Minter.Mint: quantities are modelled as integers; the fractional or non-finite JavaScript numbers that `number[]` also admits are not modelled, since the conversion helper that receives them is opaque here.
