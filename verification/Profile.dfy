/** Which models fit a host, and which to recommend. */
module Profile {
  import opened Text

  /** A catalog model; hint is the active-parameter count its id names, in billions. */
  datatype ModelSpec = ModelSpec(id: string, file: string, size: nat, origin: string, activeParams: nat,
                                 hint: Option<real>)

  datatype Host = Host(available: nat, bandwidth: nat)

  datatype Floors = Floors(interactive: real, unattended: real)

  datatype ModelFit = ModelFit(id: string, originAllowed: bool, required: nat, fitsCapacity: bool, tokPerSec: real,
                               measured: bool,
                               fitsInteractive: bool, fitsUnattended: bool)

  const GIB := 0x4000_0000
  const RESERVE := 3 * GIB
  const COMPUTE_BUFFER := GIB
  const EFFICIENCY := 0.65
  const KV_PER_BILLION := 7000.0

  function Lower(c: char): char { if 'A' <= c <= 'Z' then (c as int + 32) as char else c }

  function ToLower(s: string): string { seq(|s|, i requires 0 <= i < |s| => Lower(s[i])) }

  function BytesPerParam(file: string): (r: real)
    ensures r > 0.0
  {
    var f := ToLower(file);
    if Contains(f, "f16") || Contains(f, "bf16") then 2.0
    else if Contains(f, "q8") then 1.06
    else if Contains(f, "q6") then 0.82
    else if Contains(f, "q5") then 0.71
    else 0.58
  }

  /** uint64 of a non-negative float. */
  function Truncate(x: real): nat
    requires 0.0 <= x
  {
    x.Floor
  }

  function TotalParams(size: nat, bpp: real): nat
    requires bpp > 0.0
  {
    Quotient(size as real, bpp);
    Truncate(size as real / bpp)
  }

  lemma Quotient(x: real, y: real)
    requires 0.0 <= x && 0.0 < y
    ensures 0.0 <= x / y
  {
  }

  lemma QuotientAtMost(x: real, y: real, d: real)
    requires x <= y && d > 0.0
    ensures x / d <= y / d
  {
  }

  lemma Product(x: real, y: real)
    requires 0.0 <= x && 0.0 <= y
    ensures 0.0 <= x * y
  {
  }

  /** kvBytes. */
  function KvBytes(totalParams: nat, ctxTokens: int): nat {
    var ctx := if ctxTokens <= 0 then 4096 else ctxTokens;
    var perToken := KV_PER_BILLION * (totalParams as real / 1_000_000_000.0);
    Product(perToken, ctx as real);
    Truncate(perToken * ctx as real)
  }

  function ActiveParams(spec: ModelSpec, total: nat): nat {
    if spec.activeParams > 0 then spec.activeParams
    else if spec.hint.Some? && spec.hint.value > 0.0 then Truncate(spec.hint.value * 1_000_000_000.0)
    else total
  }

  function Required(spec: ModelSpec, ctxTokens: int): nat {
    spec.size + KvBytes(TotalParams(spec.size, BytesPerParam(spec.file)), ctxTokens) + COMPUTE_BUFFER
  }

  function Usable(p: Host): nat { if p.available > RESERVE then p.available - RESERVE else 0 }

  function Speed(spec: ModelSpec, p: Host): real {
    var bpp := BytesPerParam(spec.file);
    var bytesPerTok := ActiveParams(spec, TotalParams(spec.size, bpp)) as real * bpp;
    if bytesPerTok > 0.0 && p.bandwidth > 0 then p.bandwidth as real * EFFICIENCY / bytesPerTok else 0.0
  }

  function Fit(spec: ModelSpec, p: Host, ctxTokens: int, f: Floors): ModelFit {
    var cap, tps := Required(spec, ctxTokens) <= Usable(p), Speed(spec, p);
    ModelFit(spec.id, false, Required(spec, ctxTokens), cap, tps, false, cap && tps >= f.interactive,
             cap && tps >= f.unattended)
  }

  // ---------------------------------------------------------------- largest first, stably

  function InsertDesc(s: seq<ModelSpec>, x: ModelSpec): (r: seq<ModelSpec>)
    ensures |r| == |s| + 1
  {
    if s == [] || s[|s| - 1].size >= x.size then s + [x] else InsertDesc(s[..|s| - 1], x) + [s[|s| - 1]]
  }

  function SortDesc(s: seq<ModelSpec>): (r: seq<ModelSpec>)
    ensures |r| == |s|
  {
    if s == [] then [] else InsertDesc(SortDesc(s[..|s| - 1]), s[|s| - 1])
  }

  /** One element sinks to its place, by swaps. */
  method Sink(a: array<ModelSpec>, i: nat)
    requires i < a.Length
    modifies a
    ensures a[..i + 1] == InsertDesc(old(a[..i]), old(a[i])) && a[i + 1..] == old(a[i + 1..])
  {
    ghost var x := a[i];
    var j := i;
    assert a[j + 1..i + 1] == [];
    while j > 0 && a[j - 1].size < a[j].size
      invariant 0 <= j <= i && a[j] == x
      invariant a[..j] == old(a[..j]) && a[i + 1..] == old(a[i + 1..])
      invariant InsertDesc(a[..j], x) + a[j + 1..i + 1] == InsertDesc(old(a[..i]), x)
    {
      ghost var before, after := a[..j], a[j + 1..i + 1];
      InsertStep(before, x, after);
      a[j - 1], a[j] := a[j], a[j - 1];
      assert a[..j - 1] == before[..j - 1];
      assert a[j..i + 1] == [before[j - 1]] + after;
      j := j - 1;
    }
    assert a[..i + 1] == a[..j] + [x] + a[j + 1..i + 1];
  }

  lemma InsertStep(s: seq<ModelSpec>, x: ModelSpec, rest: seq<ModelSpec>)
    requires s != [] && s[|s| - 1].size < x.size
    ensures InsertDesc(s, x) + rest == InsertDesc(s[..|s| - 1], x) + ([s[|s| - 1]] + rest)
  {
  }

  /** sortBySizeDesc. */
  method SortBySizeDesc(a: array<ModelSpec>)
    modifies a
    ensures a[..] == SortDesc(old(a[..]))
  {
    if a.Length == 0 {
      return;
    }
    assert a[..1][..0] == [] && SortDesc([]) == [];
    assert InsertDesc([], a[0]) == [a[0]];
    assert SortDesc(a[..1]) == a[..1];
    for i := 1 to a.Length
      invariant a[..i] == SortDesc(old(a[..i])) && a[i..] == old(a[i..])
    {
      ghost var before := a[..];
      assert old(a[..i + 1])[..i] == old(a[..i]) && a[i] == old(a[i]);
      Sink(a, i);
      assert a[i + 1..] == before[i + 1..] == before[i..][1..] == old(a[i + 1..]);
    }
    assert old(a[..a.Length]) == old(a[..]);
    assert a[..a.Length] == a[..];
  }

  ghost predicate Descending(s: seq<ModelSpec>) { forall i, j :: 0 <= i < j < |s| ==> s[i].size >= s[j].size }

  /** The models of one size, in order. */
  function OfSize(s: seq<ModelSpec>, z: nat): seq<ModelSpec> {
    if s == [] then [] else OfSize(s[..|s| - 1], z) + (if s[|s| - 1].size == z then [s[|s| - 1]] else [])
  }

  lemma OfSizeSnoc(s: seq<ModelSpec>, x: ModelSpec, z: nat)
    ensures OfSize(s + [x], z) == OfSize(s, z) + (if x.size == z then [x] else [])
  {
    assert (s + [x])[..|s|] == s;
  }

  lemma {:induction false} InsertMembers(s: seq<ModelSpec>, x: ModelSpec, y: ModelSpec)
    ensures y in InsertDesc(s, x) <==> y in s || y == x
  {
    if !(s == [] || s[|s| - 1].size >= x.size) {
      InsertMembers(s[..|s| - 1], x, y);
      assert s == s[..|s| - 1] + [s[|s| - 1]];
    }
  }

  lemma {:induction false} InsertDescends(s: seq<ModelSpec>, x: ModelSpec)
    requires Descending(s)
    ensures Descending(InsertDesc(s, x))
  {
    if !(s == [] || s[|s| - 1].size >= x.size) {
      var front, last := s[..|s| - 1], s[|s| - 1];
      InsertDescends(front, x);
      var r := InsertDesc(front, x);
      forall i | 0 <= i < |r| ensures r[i].size >= last.size {
        InsertMembers(front, x, r[i]);
      }
    }
  }

  lemma {:induction false} InsertOfSize(s: seq<ModelSpec>, x: ModelSpec, z: nat)
    requires Descending(s)
    ensures OfSize(InsertDesc(s, x), z) == OfSize(s, z) + (if x.size == z then [x] else [])
  {
    if s == [] || s[|s| - 1].size >= x.size {
      OfSizeSnoc(s, x, z);
    } else {
      var front, last := s[..|s| - 1], s[|s| - 1];
      InsertOfSize(front, x, z);
      OfSizeSnoc(InsertDesc(front, x), last, z);
    }
  }

  /** The sort is a stable permutation into descending order: each size keeps its models, in their order. */
  lemma {:induction false} SortIsStable(s: seq<ModelSpec>, z: nat)
    ensures Descending(SortDesc(s)) && OfSize(SortDesc(s), z) == OfSize(s, z)
  {
    if s != [] {
      var front, last := s[..|s| - 1], s[|s| - 1];
      SortIsStable(front, z);
      InsertDescends(SortDesc(front), last);
      InsertOfSize(SortDesc(front), last, z);
    }
  }

  lemma {:induction false} SortMembers(s: seq<ModelSpec>, y: ModelSpec)
    ensures y in SortDesc(s) <==> y in s
  {
    if s != [] {
      SortMembers(s[..|s| - 1], y);
      InsertMembers(SortDesc(s[..|s| - 1]), s[|s| - 1], y);
      assert s == s[..|s| - 1] + [s[|s| - 1]];
    }
  }
}
