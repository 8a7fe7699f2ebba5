/** The context window: one resolver, capped to what fits the host's memory. */
module ContextFit {
  import opened Text
  import opened Profile
  import opened FitMeaning

  const DEFAULT_CTX := 32768
  const SERVE_RESERVE := 6 * GIB

  function Ladder(): seq<int> { [32768, 24576, 16384, 12288, 8192, 4096] }

  predicate Fits(size: nat, path: string, budget: int, ctx: int) {
    size + KvBytes(TotalParams(size, BytesPerParam(path)), ctx) <= budget
  }

  /** The first rung from i on that is allowed and fits, else the last. */
  function FirstFit(desired: int, size: nat, path: string, budget: int, i: nat): int
    requires i <= 6
    decreases 6 - i
  {
    if i == 6 then 4096
    else if Ladder()[i] <= desired && Fits(size, path, budget, Ladder()[i]) then Ladder()[i]
    else FirstFit(desired, size, path, budget, i + 1)
  }

  function Desired(desired: int): int { if desired <= 0 then DEFAULT_CTX else desired }

  predicate Known(size: nat, ram: nat) { size != 0 && ram != 0 && ram > SERVE_RESERVE }

  /** fitCtxTokens. */
  function FitCtxTokens(desired: int, size: nat, ram: nat, path: string): int {
    if !Known(size, ram) then Desired(desired)
    else FirstFit(Desired(desired), size, path, ram - SERVE_RESERVE, 0)
  }

  // ---------------------------------------------------------------- the memory estimate is monotone

  lemma ProductAtMost(x: real, y: real, u: real, v: real)
    requires 0.0 <= x <= y && 0.0 <= u <= v
    ensures x * u <= y * v
  {
    assert x * u <= y * u;
    assert y * u <= y * v;
  }

  lemma KvGrows(total: nat, total': nat, ctx: int, ctx': int)
    requires total <= total' && 0 < ctx <= ctx'
    ensures KvBytes(total, ctx) <= KvBytes(total', ctx')
  {
    var x, y := KV_PER_BILLION * (total as real / 1_000_000_000.0), KV_PER_BILLION * (total' as real / 1_000_000_000.0);
    ProductAtMost(x, y, ctx as real, ctx' as real);
  }

  lemma FitsShrinks(size: nat, size': nat, path: string, budget: int, budget': int, ctx: int, ctx': int)
    requires size <= size' && budget' <= budget && 0 < ctx <= ctx'
    requires Fits(size', path, budget', ctx')
    ensures Fits(size, path, budget, ctx)
  {
    var bpp := BytesPerParam(path);
    QuotientAtMost(size as real, size' as real, bpp);
    assert TotalParams(size, bpp) <= TotalParams(size', bpp);
    KvGrows(TotalParams(size, bpp), TotalParams(size', bpp), ctx, ctx');
  }

  // ---------------------------------------------------------------- the fit

  predicate Suitable(desired: int, size: nat, path: string, budget: int, c: int) {
    c in Ladder() && c <= desired && Fits(size, path, budget, c)
  }

  lemma {:induction false} FirstFitIsLargest(desired: int, size: nat, path: string, budget: int, i: nat)
    requires i <= 6
    ensures var r := FirstFit(desired, size, path, budget, i);
            if exists j :: i <= j < 6 && Suitable(desired, size, path, budget, Ladder()[j])
            then Suitable(desired, size, path, budget, r)
                 && forall j :: i <= j < 6 && Suitable(desired, size, path, budget, Ladder()[j]) ==> Ladder()[j] <= r
            else r == 4096
    decreases 6 - i
  {
    hide Fits;
    if i < 6 {
      FirstFitIsLargest(desired, size, path, budget, i + 1);
      LadderDescends();
      hide Ladder;
    }
  }

  lemma LadderDescends()
    ensures |Ladder()| == 6 && forall i, j :: 0 <= i < j < 6 ==> Ladder()[i] > Ladder()[j] >= 4096
  {
  }

  /** On a known model and host: the largest suitable rung, or the smallest rung when none is. */
  lemma FitIsLargestSuitable(desired: int, size: nat, ram: nat, path: string)
    requires Known(size, ram)
    ensures var r, d, b := FitCtxTokens(desired, size, ram, path), Desired(desired), ram - SERVE_RESERVE;
            if exists c :: Suitable(d, size, path, b, c)
            then Suitable(d, size, path, b, r) && forall c :: Suitable(d, size, path, b, c) ==> c <= r
            else r == 4096
  {
    var d, b := Desired(desired), ram - SERVE_RESERVE;
    FirstFitIsLargest(d, size, path, b, 0);
    LadderDescends();
    hide Fits, Ladder, FirstFit;
    forall c | Suitable(d, size, path, b, c) ensures exists j :: 0 <= j < 6 && Ladder()[j] == c {
      assert c in Ladder();
    }
  }

  ghost predicate IsRung(c: int) { c == 32768 || c == 24576 || c == 16384 || c == 12288 || c == 8192 || c == 4096 }

  /** A rung no wider than wanted that leaves 6 GiB of the memory beside the model and its cache. */
  ghost predicate Good(wanted: int, size: nat, ram: nat, path: string, c: int) {
    IsRung(c) && c <= wanted && size + Cache(Weights(size, path), c) + 6_442_450_944 <= ram
  }

  /** The largest good window, the smallest rung when none is good, and what is wanted when nothing is known. */
  ghost predicate IsWindow(wanted: int, size: nat, ram: nat, path: string, r: int) {
    if size == 0 || ram <= 6_442_450_944 then r == wanted
    else if exists c :: Good(wanted, size, ram, path, c)
    then Good(wanted, size, ram, path, r) && forall c :: Good(wanted, size, ram, path, c) ==> c <= r
    else r == 4096
  }

  /** The fitted window in numbers; 32768 is wanted unless more than zero is. */
  lemma WindowReads(desired: int, size: nat, ram: nat, path: string)
    ensures IsWindow(if desired <= 0 then 32768 else desired, size, ram, path, FitCtxTokens(desired, size, ram, path))
  {
    if Known(size, ram) {
      FitIsLargestSuitable(desired, size, ram, path);
      var d, b := Desired(desired), ram - SERVE_RESERVE;
      forall c ensures Suitable(d, size, path, b, c) <==> Good(d, size, ram, path, c) {
        WeightsRead(size, path);
        hide BytesPerParam, TotalParams, KvBytes, Weights, Cache;
        CacheReads(Weights(size, path), c);
      }
      hide FitCtxTokens, Suitable, Good;
    }
  }

  /** More memory never shrinks the window, and a bigger model never widens it, above the reserve. */
  lemma FitIsMonotone(desired: int, size: nat, size': nat, ram: nat, ram': nat, path: string)
    requires Known(size', ram) && 0 < size <= size' && ram <= ram'
    ensures FitCtxTokens(desired, size', ram, path) <= FitCtxTokens(desired, size, ram', path)
  {
    var d, b, b' := Desired(desired), ram - SERVE_RESERVE, ram' - SERVE_RESERVE;
    FitIsLargestSuitable(desired, size', ram, path);
    FitIsLargestSuitable(desired, size, ram', path);
    var r := FitCtxTokens(desired, size', ram, path);
    LadderBounds();
    if Suitable(d, size', path, b, r) {
      FitsShrinks(size, size', path, b', b, r, r);
      assert Suitable(d, size, path, b', r);
    }
    hide Fits, FitCtxTokens;
  }

  lemma LadderBounds()
    ensures forall c :: c in Ladder() ==> c >= 4096
  {
  }

  // ---------------------------------------------------------------- one window everywhere

  /** AEGIS_CTX_SIZE: unset or empty, or set, with its value when it parses. */
  datatype Env = Unset | Pinned(value: Option<int>)

  /** ResolveCtxSize. */
  function Resolve(env: Env, hint: int): int {
    if env.Pinned? && env.value.Some? && env.value.value >= 512 then env.value.value
    else if hint >= 512 then hint
    else DEFAULT_CTX
  }

  /** fitCtxSize; no size stands for a model file that cannot be measured. */
  function FitCtxSize(env: Env, desired: int, size: Option<int>, ram: nat, path: string): int {
    if env.Pinned? then desired
    else if size.None? || size.value <= 0 then desired
    else FitCtxTokens(desired, size.value, ram, path)
  }

  /** A pinned number from 512 up is what is resolved; else a hint from 512 up is; else 32768. */
  lemma ResolveReads(env: Env, hint: int)
    ensures var r := Resolve(env, hint);
            && r >= 512
            && (forall v :: v >= 512 && env == Pinned(Some(v)) ==> r == v)
            && ((forall v :: env == Pinned(Some(v)) ==> v < 512) ==> r == if hint < 512 then 32768 else hint)
  {
    assert env.Pinned? && env.value.Some? ==> env == Pinned(Some(env.value.value));
  }

  /** Without a pin and for a measured model, what is served is the fitted window of what was resolved. */
  lemma ServedReads(env: Env, desired: int, size: Option<int>, ram: nat, path: string)
    requires desired > 0
    ensures var r := FitCtxSize(env, desired, size, ram, path);
            if env == Unset && size.Some? && size.value > 0 then IsWindow(desired, size.value, ram, path, r)
            else r == desired
  {
    hide FitCtxTokens, IsWindow;
    if size.Some? && size.value > 0 {
      WindowReads(desired, size.value, ram, path);
    }
  }

  /**
   * The launch resolves the fitted window again, and gets it back: what is served is what the accounting falls back to.
   */
  lemma NoDrift(env: Env, hint: int, size: Option<int>, ram: nat, path: string)
    ensures var fitted := FitCtxSize(env, Resolve(env, hint), size, ram, path); Resolve(env, fitted) == fitted
  {
    if env.Unset? && size.Some? && size.value > 0 && Known(size.value, ram) {
      FitIsLargestSuitable(Resolve(env, hint), size.value, ram, path);
      LadderBounds();
    }
    hide FirstFit;
  }
}
