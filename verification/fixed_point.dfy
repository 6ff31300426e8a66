/** The fixed-point conventions of the minter and the three conversion helpers it
    imports from its math library.

    The helpers' bodies are not part of this model, so they are carried as
    function-valued fields of `MathLib` and the minter is parameterised over them.
    `Documented` states the only facts the minter's own comments promise about them. */
module FixedPoint {

  /** Scale of a basset ratio: a ratio of 1e8 converts one-to-one. */
  const RatioScale: nat := 100_000_000

  /** Scale of a basset's maximum weight: 1e18 is 100%, 40e16 is 40%. */
  const WeightScale: nat := 1_000_000_000_000_000_000

  /** Decimal count at which exact-to-simple divides by `WeightScale`. */
  const FullDecimals: nat := 18

  /** The imported helpers `simpleToExactAmount`, `exactAmountToSimple` and
      `applyRatioMassetToBasset`, as opaque total functions. */
  datatype MathLib = MathLib(
    simpleToExact: (int, nat) -> int,
    exactToSimple: (int, nat) -> int,
    massetToBasset: (int, nat) -> int)

  /** What the minter's comments say about the helpers: exact-to-simple at 18 decimals
      divides by 1e18 (stated for non-negative amounts, where truncating and flooring
      division agree), and a ratio of 1e8 leaves an amount unchanged. */
  ghost predicate Documented(lib: MathLib) {
    && (forall x: int :: 0 <= x ==> lib.exactToSimple(x, FullDecimals) == x / WeightScale)
    && (forall x: int :: lib.massetToBasset(x, RatioScale) == x)
  }

  /** The `n`-th power of ten. */
  function Pow10(n: nat): (p: nat)
    ensures 1 <= p
  {
    if n == 0 then 1 else 10 * Pow10(n - 1)
  }

  /** One library that meets `Documented`: scaling by powers of ten and dividing by the
      ratio, the textbook reading of the helpers' names. Used only to show that the
      assumptions made about the helpers are consistent. */
  function WitnessLib(): MathLib {
    MathLib(
      (x: int, d: nat) => x * Pow10(d),
      (x: int, d: nat) => x / Pow10(d),
      (x: int, ratio: nat) => if ratio == 0 then 0 else x * RatioScale / ratio)
  }

  lemma Pow10At18()
    ensures Pow10(FullDecimals) == WeightScale
  {
    assert Pow10(3) == 1000;
    assert Pow10(6) == 1000_000;
    assert Pow10(9) == 1000_000_000;
    assert Pow10(12) == 1000_000_000_000;
    assert Pow10(15) == 1000_000_000_000_000;
  }

  /** The documented facts do not contradict each other. */
  lemma WitnessIsDocumented()
    ensures Documented(WitnessLib())
  {
    Pow10At18();
    var lib := WitnessLib();
    forall x: int
      ensures lib.massetToBasset(x, RatioScale) == x
    {
      assert x * RatioScale / RatioScale == x;
    }
  }
}
