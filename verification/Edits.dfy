/** The model's reply: file blocks, read line by line. */
module Edits {
  import opened Text

  datatype Edit = Edit(path: string, content: string)

  datatype ParseError = MissingPath | Unterminated(path: string) | NoEdits

  datatype Parsed = Found(edits: seq<Edit>) | Failed(error: ParseError)

  const FENCE := "```"
  const HEADER := "```file"

  predicate IsHeader(line: string) { HEADER <= TrimSpace(TrimReturns(line)) }

  function HeaderPath(line: string): string
    requires IsHeader(line)
  {
    TrimSpace(TrimSpace(TrimReturns(line))[|HEADER|..])
  }

  predicate IsFence(line: string) { TrimSpace(TrimReturns(line)) == FENCE }

  /** The first closing fence, or |lines|. */
  function FenceAt(lines: seq<string>): (k: nat)
    ensures k <= |lines|
    ensures k < |lines| ==> IsFence(lines[k])
    ensures forall j :: 0 <= j < k ==> !IsFence(lines[j])
  {
    if lines == [] || IsFence(lines[0]) then 0
    else
      var k := FenceAt(lines[1..]);
      assert forall j :: 0 < j < k + 1 ==> lines[j] == lines[1..][j - 1];
      k + 1
  }

  function Body(lines: seq<string>): string { if lines == [] then "" else Join(lines) + "\n" }

  function After(e: seq<Edit>, p: Parsed): Parsed { if p.Found? then Found(e + p.edits) else p }

  /** The blocks of a sequence of lines; the first malformed block fails the whole. */
  function ParseLines(lines: seq<string>): Parsed {
    if lines == [] then Found([])
    else if !IsHeader(lines[0]) then ParseLines(lines[1..])
    else
      var path := HeaderPath(lines[0]);
      var rest := lines[1..];
      var k := FenceAt(rest);
      if path == "" then Failed(MissingPath)
      else if k == |rest| then Failed(Unterminated(path))
      else After([Edit(path, Body(rest[..k]))], ParseLines(rest[k + 1..]))
  }

  function Parse(content: string): Parsed {
    var p := ParseLines(Split(content));
    if p == Found([]) then Failed(NoEdits) else p
  }

  lemma AfterAfter(a: seq<Edit>, b: seq<Edit>, p: Parsed)
    ensures After(a, After(b, p)) == After(a + b, p)
    ensures After([], p) == p
  {
    if p.Found? {
      assert a + (b + p.edits) == a + b + p.edits;
      assert [] + p.edits == p.edits;
    }
  }

  /** parseEdits: the inner loop moves the outer index past the closing fence. */
  method ParseEdits(content: string) returns (p: Parsed)
    ensures p == Parse(content)
  {
    hide IsHeader, IsFence, HeaderPath, Body, FenceAt, ParseLines, Split;
    var lines := Split(content);
    var edits: seq<Edit> := [];
    var i := 0;
    AfterAfter([], [], ParseLines(lines));
    assert lines[0..] == lines;
    NoLines();
    while i < |lines|
      invariant 0 <= i <= |lines|
      invariant After(edits, ParseLines(lines[i..])) == ParseLines(lines)
    {
      ParseStep(lines, i);
      if !IsHeader(lines[i]) {
        i := i + 1;
        continue;
      }
      var path := HeaderPath(lines[i]);
      if path == "" {
        return Failed(MissingPath);
      }
      var k := ScanBody(lines, i + 1);
      if k == |lines| {
        return Failed(Unterminated(path));
      }
      AfterAfter(edits, [Edit(path, Body(lines[i + 1..k]))], ParseLines(lines[k + 1..]));
      edits := edits + [Edit(path, Body(lines[i + 1..k]))];
      i := k + 1;
    }
    assert lines[i..] == [];
    p := if |edits| == 0 then Failed(NoEdits) else Found(edits);
  }

  lemma NoLines()
    ensures ParseLines([]) == Found([])
  {
  }

  /** What the specification does at line i, in terms of the whole sequence. */
  lemma ParseStep(lines: seq<string>, i: nat)
    requires i < |lines|
    ensures !IsHeader(lines[i]) ==> ParseLines(lines[i..]) == ParseLines(lines[i + 1..])
    ensures IsHeader(lines[i]) ==>
              var path, k := HeaderPath(lines[i]), i + 1 + FenceAt(lines[i + 1..]);
              ParseLines(lines[i..]) == if path == "" then Failed(MissingPath)
                                        else if k == |lines| then Failed(Unterminated(path))
                                        else After([Edit(path, Body(lines[i + 1..k]))], ParseLines(lines[k + 1..]))
  {
    hide IsHeader, HeaderPath, Body, FenceAt;
    var tail := lines[i..];
    assert tail[0] == lines[i] && tail[1..] == lines[i + 1..];
    var k := FenceAt(lines[i + 1..]);
    if k < |lines[i + 1..]| {
      assert tail[1..][..k] == lines[i + 1..i + 1 + k] && tail[1..][k + 1..] == lines[i + 1 + k + 1..];
    }
  }

  method ScanBody(lines: seq<string>, from: nat) returns (k: nat)
    requires from <= |lines|
    ensures k == from + FenceAt(lines[from..])
  {
    k := from;
    while k < |lines|
      invariant from <= k <= |lines|
      invariant from + FenceAt(lines[from..]) == k + FenceAt(lines[k..])
    {
      if IsFence(lines[k]) {
        return;
      }
      assert lines[k..][1..] == lines[k + 1..];
      k := k + 1;
    }
  }
}
