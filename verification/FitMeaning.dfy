/** The estimates of a model on a host, in numbers. */
module FitMeaning {
  import opened Text
  import opened Profile

  /** The word stands somewhere in the name, in letters of either case. */
  ghost predicate HasWord(name: string, word: string) {
    exists k :: WordAt(name, word, k)
  }

  ghost predicate WordAt(name: string, word: string, k: nat) {
    k + |word| <= |name| && forall i :: 0 <= i < |word| ==> EitherCase(name[k + i], word[i])
  }

  predicate EitherCase(c: char, small: char) {
    if 'A' <= c <= 'Z' then c as int + 32 == small as int else c == small
  }

  /** Bytes for each weight, by the quantisation the file's name tells. */
  ghost function Weight(file: string): (w: real)
    ensures w > 0.0
  {
    if HasWord(file, "f16") then 2.0
    else if HasWord(file, "q8") then 1.06
    else if HasWord(file, "q6") then 0.82
    else if HasWord(file, "q5") then 0.71
    else 0.58
  }

  ghost function Weights(size: nat, file: string): int { (size as real / Weight(file)).Floor }

  /** Seven bytes for a million weights and each token. */
  ghost function Cache(weights: int, ctx: int): int { 7 * weights * (if ctx <= 0 then 4096 else ctx) / 1_000_000 }

  ghost function Active(s: ModelSpec): int {
    if s.activeParams > 0 then s.activeParams
    else if s.hint.Some? && s.hint.value > 0.0 then (s.hint.value * 1_000_000_000.0).Floor
    else Weights(s.size, s.file)
  }

  /** What the model takes: itself, its cache and 1 GiB. */
  ghost function Takes(s: ModelSpec, ctx: int): int { s.size + Cache(Weights(s.size, s.file), ctx) + 1_073_741_824 }

  /** 3 GiB are left to others. */
  ghost predicate Runs(s: ModelSpec, p: Host, ctx: int) { Takes(s, ctx) + 3_221_225_472 <= p.available }

  /** The bytes of the active weights. */
  ghost function TokenBytes(s: ModelSpec): real { Active(s) as real * Weight(s.file) }

  /** Every token reads all active weights, at 65 hundredths of the bandwidth. */
  ghost predicate IsPace(s: ModelSpec, p: Host, pace: real) {
    if Active(s) > 0 then Makes(pace, TokenBytes(s), p.bandwidth as real * 0.65) else pace == 0.0
  }

  ghost predicate Makes(x: real, y: real, z: real) { x * y == z }

  // ---------------------------------------------------------------- names

  lemma LowerMeans(name: string, word: string, k: nat)
    requires forall i :: 0 <= i < |word| ==> !('A' <= word[i] <= 'Z')
    ensures k <= |name| && word <= ToLower(name)[k..] <==> WordAt(name, word, k)
  {
    var low := ToLower(name);
    if k + |word| <= |name| {
      forall i | 0 <= i < |word| ensures low[k..][i] == word[i] <==> EitherCase(name[k + i], word[i]) {
        assert low[k..][i] == Lower(name[k + i]);
      }
    }
  }

  lemma {:induction false} ContainsAt(s: string, sub: string)
    ensures Contains(s, sub) <==> exists k: nat :: k <= |s| && sub <= s[k..]
  {
    ContainsMeans(s, sub);
    hide Contains;
    if Contains(s, sub) {
      var a, b :| s == a + sub + b;
      assert s[|a|..] == sub + b;
    }
    forall k: nat | k <= |s| && sub <= s[k..] ensures Contains(s, sub) {
      assert s == s[..k] + sub + s[k + |sub|..];
    }
  }

  lemma HasWordMeans(name: string, word: string)
    requires forall i :: 0 <= i < |word| ==> !('A' <= word[i] <= 'Z')
    ensures Contains(ToLower(name), word) <==> HasWord(name, word)
  {
    ContainsAt(ToLower(name), word);
    forall k: nat ensures k <= |name| && word <= ToLower(name)[k..] <==> WordAt(name, word, k) {
      LowerMeans(name, word, k);
    }
    hide Contains, WordAt;
    assert |ToLower(name)| == |name|;
  }

  lemma LongerWord(name: string)
    ensures Contains(ToLower(name), "bf16") ==> Contains(ToLower(name), "f16")
  {
    var low := ToLower(name);
    ContainsMeans(low, "bf16");
    ContainsMeans(low, "f16");
    hide Contains;
    if Contains(low, "bf16") {
      var a, b :| low == a + "bf16" + b;
      assert "bf16" == "b" + "f16";
      assert low == (a + "b") + "f16" + b;
    }
  }

  /** A file's bytes for each weight, by the words in its name, in either case. */
  lemma WeightReads(file: string)
    ensures BytesPerParam(file) == Weight(file)
  {
    HasWordMeans(file, "f16");
    HasWordMeans(file, "q8");
    HasWordMeans(file, "q6");
    HasWordMeans(file, "q5");
    LongerWord(file);
    hide Contains, HasWord, ToLower;
  }

  // ---------------------------------------------------------------- numbers

  lemma FloorOfQuotient(x: int)
    ensures (x as real / 1_000_000.0).Floor == x / 1_000_000
  {
    var q := x / 1_000_000;
    assert 1_000_000 * q <= x < 1_000_000 * q + 1_000_000;
  }

  lemma Rearrange(n: real, c: real)
    ensures 7000.0 * (n / 1_000_000_000.0) * c == 7.0 * (n * c) / 1_000_000.0
  {
  }

  lemma Reals(n: int, c: int)
    ensures 7.0 * (n as real * c as real) == (7 * n * c) as real
  {
    RealProduct(n, c);
    assert 7 * n * c == 7 * (n * c);
  }

  lemma {:induction false} RealProduct(n: int, c: int)
    ensures n as real * c as real == (n * c) as real
  {
  }

  /** The cache estimate in whole numbers. */
  lemma CacheReads(weights: nat, ctx: int)
    ensures KvBytes(weights, ctx) == Cache(weights, ctx)
  {
    var c := if ctx <= 0 then 4096 else ctx;
    Rearrange(weights as real, c as real);
    Reals(weights, c);
    FloorOfQuotient(7 * weights * c);
  }

  lemma WeightsRead(size: nat, file: string)
    ensures TotalParams(size, BytesPerParam(file)) == Weights(size, file) >= 0
  {
    WeightReads(file);
    hide BytesPerParam, Weight;
  }

  lemma TakesReads(s: ModelSpec, p: Host, ctx: int)
    ensures Required(s, ctx) == Takes(s, ctx) && (Required(s, ctx) <= Usable(p) <==> Runs(s, p, ctx))
  {
    WeightsRead(s.size, s.file);
    hide Weights, TotalParams, BytesPerParam, KvBytes, Cache;
    CacheReads(Weights(s.size, s.file), ctx);
  }

  lemma ActiveReads(s: ModelSpec)
    ensures ActiveParams(s, TotalParams(s.size, BytesPerParam(s.file))) == Active(s)
  {
    WeightsRead(s.size, s.file);
    hide Weights, TotalParams, BytesPerParam;
  }

  lemma Positive(x: real, y: real)
    requires 0.0 < x && 0.0 < y
    ensures 0.0 < x * y
  {
  }

  lemma DividesBack(x: real, y: real)
    requires y > 0.0
    ensures x * y / y == x
  {
  }

  lemma Divides(x: real, y: real)
    requires y > 0.0
    ensures x / y * y == x
  {
  }

  lemma PaceReads(s: ModelSpec, p: Host)
    ensures IsPace(s, p, Speed(s, p))
  {
    ActiveReads(s);
    WeightReads(s.file);
    hide Active, Weight, ActiveParams, TotalParams, BytesPerParam, Makes;
    if Active(s) > 0 {
      Positive(Active(s) as real, Weight(s.file));
      var d := TokenBytes(s);
      assert Speed(s, p) == if p.bandwidth > 0 then p.bandwidth as real * 0.65 / d else 0.0;
      QuotientMakes(p.bandwidth as real * 0.65, d);
    }
  }

  lemma QuotientMakes(z: real, d: real)
    requires d > 0.0
    ensures Makes(z / d, d, z) && (z == 0.0 ==> Makes(0.0, d, z))
  {
    Divides(z, d);
  }

  /** A model's row: what it takes, whether it runs, its pace, and each floor against that pace. */
  lemma FitReads(s: ModelSpec, p: Host, ctx: int, fl: Floors)
    ensures var f := Fit(s, p, ctx, fl);
            && f.id == s.id && !f.measured && f.required == Takes(s, ctx) && IsPace(s, p, f.tokPerSec)
            && (f.fitsCapacity <==> Runs(s, p, ctx))
            && (f.fitsInteractive <==> Runs(s, p, ctx) && f.tokPerSec >= fl.interactive)
            && (f.fitsUnattended <==> Runs(s, p, ctx) && f.tokPerSec >= fl.unattended)
  {
    TakesReads(s, p, ctx);
    PaceReads(s, p);
    hide Required, Usable, Speed, Takes, Runs, IsPace;
  }

  /** An allowed model with a name that runs, and no slower than the floor. */
  ghost predicate Good(s: ModelSpec, allowed: string -> bool, p: Host, ctx: int, floor: real) {
    allowed(s.origin) && s.id != "" && Runs(s, p, ctx) && exists pace :: IsPace(s, p, pace) && pace >= floor
  }

  lemma PaceIsOne(s: ModelSpec, p: Host, a: real, b: real)
    requires IsPace(s, p, a) && IsPace(s, p, b)
    ensures a == b
  {
    if Active(s) > 0 {
      Positive(Active(s) as real, Weight(s.file));
      assert TokenBytes(s) > 0.0;
      hide Active, Weight, TokenBytes, Makes;
      Cancel(a, b, TokenBytes(s), p.bandwidth as real * 0.65);
    }
  }

  lemma Cancel(a: real, b: real, d: real, z: real)
    requires d > 0.0 && Makes(a, d, z) && Makes(b, d, z)
    ensures a == b
  {
    DividesBack(a, d);
    DividesBack(b, d);
  }

  lemma GoodMeans(s: ModelSpec, allowed: string -> bool, p: Host, ctx: int, fl: Floors)
    ensures var f := Fit(s, p, ctx, fl);
            && (Good(s, allowed, p, ctx, fl.interactive) <==> allowed(s.origin) && s.id != "" && f.fitsInteractive)
            && (Good(s, allowed, p, ctx, fl.unattended) <==> allowed(s.origin) && s.id != "" && f.fitsUnattended)
  {
    FitReads(s, p, ctx, fl);
    var f := Fit(s, p, ctx, fl);
    hide Fit, Runs, IsPace;
    forall pace | IsPace(s, p, pace) ensures pace == f.tokPerSec {
      PaceIsOne(s, p, pace, f.tokPerSec);
    }
  }

  /** The name of a largest good model, or none when there is no good one. */
  ghost predicate IsBest(specs: seq<ModelSpec>, allowed: string -> bool, p: Host, ctx: int, floor: real, pick: string) {
    if pick == "" then forall s :: s in specs ==> !Good(s, allowed, p, ctx, floor)
    else exists s :: && s in specs && s.id == pick && Good(s, allowed, p, ctx, floor)
                     && forall t :: t in specs && Good(t, allowed, p, ctx, floor) ==> t.size <= s.size
  }
}
