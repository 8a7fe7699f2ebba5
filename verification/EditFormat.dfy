/** The format of a reply, and that the parser reads it: what parses, to what, and what fails how. */
module EditFormat {
  import opened Text
  import opened Edits

  // ---------------------------------------------------------------- the lines that matter

  /** A bare fence amid space. */
  ghost predicate FenceShape(line: string) {
    exists pre, post :: Blank(pre) && Blank(post) && line == pre + "```" + post
  }

  /** A line that opens a block: after space, the opening and whatever follows it. */
  ghost predicate HeaderShape(line: string) { exists pre, rest :: Blank(pre) && line == pre + "```file" + rest }

  /** A line that opens the block of this path, which may be empty. */
  ghost predicate Opens(line: string, path: string) {
    && Trimmed(path)
    && exists pre, gap, post :: Blank(pre) && Blank(gap) && Blank(post) && line == pre + "```file" + gap + path + post
  }

  lemma FenceMeans(line: string)
    ensures IsFence(line) <==> FenceShape(line)
  {
    TrimReturnsFirst(line);
    assert Trimmed(FENCE);
    hide TrimSpace, TrimReturns, IsSpace;
    TrimMeans(line, FENCE);
  }

  lemma HeaderOnTrimmed(pre: string, rest: string)
    requires Blank(pre)
    ensures exists tail, post ::
              Blank(post) && rest == tail + post && TrimSpace(pre + "```file" + rest) == "```file" + tail
  {
    var j := TrimRightShape(rest);
    var tail, post := rest[..j], rest[j..];
    var mid := "```file" + tail;
    assert Trimmed(mid) by {
      assert mid[0] == '`' && (j == 0 ==> mid[|mid| - 1] == 'e') && (j > 0 ==> mid[|mid| - 1] == tail[j - 1]);
    }
    assert Blank(post);
    hide IsSpace, TrimSpace, Trimmed;
    TrimUnique(pre, mid, post);
    assert pre + "```file" + rest == pre + mid + post && rest == tail + post;
  }

  lemma HeaderMeans(line: string)
    ensures IsHeader(line) <==> HeaderShape(line)
  {
    TrimReturnsFirst(line);
    hide IsSpace, TrimSpace, TrimReturns;
    if IsHeader(line) {
      var pre, post := TrimSpaceParts(line);
      var t := TrimSpace(line);
      assert Blank(pre) && line == pre + "```file" + (t[7..] + post);
    }
    forall pre, rest | Blank(pre) && line == pre + "```file" + rest ensures IsHeader(line) {
      HeaderOnTrimmed(pre, rest);
    }
  }

  lemma OpensReads(line: string, path: string)
    requires Opens(line, path)
    ensures IsHeader(line) && HeaderPath(line) == path
  {
    TrimReturnsFirst(line);
    hide IsSpace, TrimSpace, TrimReturns, Trimmed;
    var pre, gap, post :| Blank(pre) && Blank(gap) && Blank(post) && line == pre + "```file" + gap + path + post;
    var rest := gap + path + post;
    assert line == pre + "```file" + rest;
    HeaderOnTrimmed(pre, rest);
    var tail, post' :| Blank(post') && rest == tail + post' && TrimSpace(pre + "```file" + rest) == "```file" + tail;
    TrimUnique(gap, path, post);
    TailTrims(tail, post');
  }

  lemma TailTrims(tail: string, post: string)
    requires Blank(post)
    ensures TrimSpace(tail + post) == TrimSpace(tail)
  {
    var a, b := TrimSpaceParts(tail);
    TrimSpaceTrimmed(tail);
    hide IsSpace, TrimSpace, Trimmed;
    assert tail + post == a + TrimSpace(tail) + (b + post);
    TrimUnique(a, TrimSpace(tail), b + post);
  }

  lemma Regroup(a: string, h: string, b: string, c: string, d: string, e: string)
    ensures a + (h + (b + c + d)) + e == a + h + b + c + (d + e)
  {
  }

  /** Every line that opens a block opens that of the path read from it. */
  lemma HeaderOpens(line: string)
    requires IsHeader(line)
    ensures Opens(line, HeaderPath(line))
  {
    TrimReturnsFirst(line);
    var t := TrimSpace(line);
    TrimSpaceTrimmed(t[7..]);
    hide IsSpace, TrimSpace, TrimReturns, Trimmed;
    var pre, post := TrimSpaceParts(line);
    var gap, post' := TrimSpaceParts(t[7..]);
    var path := HeaderPath(line);
    assert t == "```file" + t[7..];
    assert Blank(pre) && Blank(gap) && Blank(post' + post);
    Regroup(pre, "```file", gap, path, post', post);
  }

  // ---------------------------------------------------------------- the documented format

  /** The lines between the fences. */
  function BodyLines(content: string): seq<string> {
    if content == "" then [] else Split(content[..|content| - 1])
  }

  ghost predicate NoFence(lines: seq<string>) { forall i :: 0 <= i < |lines| ==> !FenceShape(lines[i]) }

  /**
   * An edit the format can carry: a trimmed path on one line, contents empty or newline-terminated, no line of the body
   * a bare fence amid space.
   */
  ghost predicate Printable(e: Edit) {
    && e.path != "" && Trimmed(e.path) && OneLine(e.path)
    && (e.content == "" || e.content[|e.content| - 1] == '\n')
    && NoFence(BodyLines(e.content))
  }

  /** A reply: blocks between their opening and closing lines, and lines of prose that do not open one. */
  datatype Segment = Prose(line: string) | Block(open: string, edit: Edit, close: string)

  ghost predicate Legible(s: Segment) {
    match s
    case Prose(line) => OneLine(line) && !HeaderShape(line)
    case Block(open, e, close) =>
      Printable(e) && OneLine(open) && Opens(open, e.path) && OneLine(close) && FenceShape(close)
  }

  ghost predicate AllLegible(doc: seq<Segment>) { forall i :: 0 <= i < |doc| ==> Legible(doc[i]) }

  function LinesOf(s: Segment): seq<string> {
    match s
    case Prose(line) => [line]
    case Block(open, e, close) => [open] + BodyLines(e.content) + [close]
  }

  function Lines(doc: seq<Segment>): seq<string> { if doc == [] then [] else LinesOf(doc[0]) + Lines(doc[1..]) }

  function EditsOf(doc: seq<Segment>): seq<Edit> {
    if doc == [] then [] else (match doc[0] case Prose(_) => [] case Block(_, e, _) => [e]) + EditsOf(doc[1..])
  }

  function Print(doc: seq<Segment>): string { Join(Lines(doc)) }

  lemma FenceFound(body: seq<string>, close: string, rest: seq<string>)
    requires NoFence(body) && FenceShape(close)
    ensures FenceAt(body + [close] + rest) == |body|
  {
    hide IsFence, FenceShape;
    var all := body + [close] + rest;
    FenceMeans(close);
    assert all[|body|] == close;
    forall j | 0 <= j < |body| ensures !IsFence(all[j]) {
      assert all[j] == body[j];
      FenceMeans(body[j]);
    }
    var k := FenceAt(all);
  }

  lemma NoFenceFound(lines: seq<string>)
    ensures NoFence(lines) <==> FenceAt(lines) == |lines|
  {
    hide IsFence, FenceShape;
    forall j | 0 <= j < |lines| ensures IsFence(lines[j]) <==> FenceShape(lines[j]) {
      FenceMeans(lines[j]);
    }
    var k := FenceAt(lines);
  }

  lemma BodyRoundTrip(content: string)
    requires content == "" || content[|content| - 1] == '\n'
    ensures Body(BodyLines(content)) == content
  {
    if content != "" {
      JoinSplit(content[..|content| - 1]);
    }
  }

  lemma ParseHeaded(header: string, body: seq<string>, close: string, rest: seq<string>)
    requires IsHeader(header) && HeaderPath(header) != "" && FenceAt(body + [close] + rest) == |body|
    ensures ParseLines([header] + body + [close] + rest)
            == After([Edit(HeaderPath(header), Body(body))], ParseLines(rest))
  {
    hide IsHeader, HeaderPath, Body, FenceAt;
    var tail := body + [close] + rest;
    assert [header] + body + [close] + rest == [header] + tail;
    assert ([header] + tail)[1..] == tail;
    assert tail[..|body|] == body && tail[|body| + 1..] == rest;
  }

  /** Whatever space stands around them, an opening line, a body and a closing line parse to their edit. */
  lemma ParseBlock(open: string, e: Edit, close: string, rest: seq<string>)
    requires Legible(Block(open, e, close))
    ensures ParseLines([open] + BodyLines(e.content) + [close] + rest) == After([e], ParseLines(rest))
  {
    hide Opens, FenceShape, IsHeader, HeaderPath, NoFence;
    OpensReads(open, e.path);
    BodyRoundTrip(e.content);
    FenceFound(BodyLines(e.content), close, rest);
    hide *;
    ParseHeaded(open, BodyLines(e.content), close, rest);
  }

  lemma ParseProse(line: string, rest: seq<string>)
    requires !HeaderShape(line)
    ensures ParseLines([line] + rest) == ParseLines(rest)
  {
    HeaderMeans(line);
    hide IsHeader;
    assert ([line] + rest)[1..] == rest;
  }

  /** A legible reply parses to its edits, and then goes on with whatever follows. */
  lemma {:induction false} ParseDoc(doc: seq<Segment>, tail: seq<string>)
    requires AllLegible(doc)
    ensures ParseLines(Lines(doc) + tail) == After(EditsOf(doc), ParseLines(tail))
  {
    if doc == [] {
      assert [] + tail == tail;
      AfterAfter([], [], ParseLines(tail));
    } else {
      var rest := Lines(doc[1..]) + tail;
      assert Legible(doc[0]);
      assert Lines(doc) + tail == LinesOf(doc[0]) + rest;
      hide Legible, Lines;
      ParseDoc(doc[1..], tail);
      ParseSegment(doc[0], rest);
      AfterAfter(if doc[0].Block? then [doc[0].edit] else [], EditsOf(doc[1..]), ParseLines(tail));
    }
  }

  lemma ParseSegment(s: Segment, rest: seq<string>)
    requires Legible(s)
    ensures ParseLines(LinesOf(s) + rest) == After(if s.Block? then [s.edit] else [], ParseLines(rest))
  {
    hide HeaderShape, ParseLines;
    match s
    case Prose(line) =>
      ParseProse(line, rest);
      AfterAfter([], [], ParseLines(rest));
    case Block(open, e, close) =>
      ParseBlock(open, e, close, rest);
  }

  lemma BodyLinesAreLines(content: string)
    ensures AllOneLine(BodyLines(content))
  {
    SplitOneLine(if content == "" then "" else content[..|content| - 1]);
  }

  lemma SegmentLinesAreLines(s: Segment)
    requires Legible(s)
    ensures AllOneLine(LinesOf(s))
  {
    hide HeaderShape, FenceShape, Opens, BodyLines;
    if s.Block? {
      BodyLinesAreLines(s.edit.content);
    }
  }

  lemma AppendedLines(a: seq<string>, b: seq<string>)
    requires AllOneLine(a) && AllOneLine(b)
    ensures AllOneLine(a + b)
  {
    hide OneLine;
  }

  lemma {:induction false} DocLinesAreLines(doc: seq<Segment>)
    requires AllLegible(doc)
    ensures AllOneLine(Lines(doc))
  {
    hide OneLine, Legible;
    if doc != [] {
      DocLinesAreLines(doc[1..]);
      SegmentLinesAreLines(doc[0]);
      hide AllOneLine;
      AppendedLines(LinesOf(doc[0]), Lines(doc[1..]));
    }
  }

  /** Parsing undoes printing, whatever prose and space stand around the blocks, openings inside the bodies included. */
  lemma ParseUndoesPrint(doc: seq<Segment>)
    requires AllLegible(doc)
    ensures Parse(Print(doc)) == if EditsOf(doc) == [] then Failed(NoEdits) else Found(EditsOf(doc))
  {
    ParseDoc(doc, []);
    DocLinesAreLines(doc);
    assert Lines(doc) + [] == Lines(doc);
    NoLines();
    if Lines(doc) == [] {
      EmptyReply();
    } else {
      SplitJoin(Lines(doc));
    }
  }

  lemma EmptyReply()
    ensures Parse("") == Failed(NoEdits)
  {
    assert TrimReturns("") == "" && TrimSpace("") == "";
    assert !IsHeader("");
    assert Split("") == [""] && Split("")[1..] == [];
  }

  // ---------------------------------------------------------------- every reply

  lemma BodyLinesOfBody(lines: seq<string>)
    requires AllOneLine(lines)
    ensures BodyLines(Body(lines)) == lines
    ensures var c := Body(lines); c == "" || c[|c| - 1] == '\n'
  {
    if lines != [] {
      SplitJoin(lines);
      var content := Body(lines);
      assert content[..|content| - 1] == Join(lines);
    }
  }

  lemma HeadPathOneLine(line: string)
    requires IsHeader(line) && OneLine(line)
    ensures OneLine(HeaderPath(line)) && Trimmed(HeaderPath(line))
  {
    TrimReturnsFirst(line);
    TrimSpaceTrimmed(line);
    TrimSpaceTrimmed(TrimSpace(line)[7..]);
    var t := TrimSpace(line);
    assert forall c :: c in t[7..] ==> c in t;
  }

  lemma BodyIsPrintable(path: string, body: seq<string>)
    requires path != "" && Trimmed(path) && OneLine(path) && AllOneLine(body)
    requires forall i :: 0 <= i < |body| ==> !IsFence(body[i])
    ensures Printable(Edit(path, Body(body))) && BodyLines(Body(body)) == body
  {
    hide FenceShape, Body, BodyLines, IsFence, OneLine, Trimmed;
    BodyLinesOfBody(body);
    forall i | 0 <= i < |body| ensures !FenceShape(body[i]) {
      FenceMeans(body[i]);
    }
  }

  /** The block that opens a list of lines, when it is closed. */
  lemma FirstBlock(lines: seq<string>) returns (block: Segment)
    requires lines != [] && AllOneLine(lines) && IsHeader(lines[0]) && HeaderPath(lines[0]) != ""
    requires FenceAt(lines[1..]) < |lines| - 1
    ensures block.Block? && Legible(block) && lines == LinesOf(block) + lines[FenceAt(lines[1..]) + 2..]
  {
    var k := FenceAt(lines[1..]);
    var body, close := lines[1..][..k], lines[1..][k];
    block := Block(lines[0], Edit(HeaderPath(lines[0]), Body(body)), close);
    hide IsHeader, HeaderPath, FenceShape, Opens, Body, BodyLines, Printable, OneLine, Trimmed, IsFence, FenceAt;
    HeaderOpens(lines[0]);
    HeadPathOneLine(lines[0]);
    FenceMeans(close);
    BodyIsPrintable(HeaderPath(lines[0]), body);
    hide Legible;
    FirstBlockLines(lines, k, block.edit.content);
  }

  lemma FirstBlockLines(lines: seq<string>, k: nat, content: string)
    requires k + 1 < |lines| && BodyLines(content) == lines[1..][..k]
    ensures lines == [lines[0]] + BodyLines(content) + [lines[1..][k]] + lines[k + 2..]
  {
    hide BodyLines;
  }

  /** A line that opens no path, or a block that is never closed. */
  ghost predicate Bad(tail: seq<string>) {
    && tail != [] && exists path :: Opens(tail[0], path) && (path == "" || NoFence(tail[1..]))
  }

  lemma FirstProse(lines: seq<string>) returns (prose: Segment)
    requires lines != [] && OneLine(lines[0]) && !IsHeader(lines[0])
    ensures Legible(prose) && lines == LinesOf(prose) + lines[1..]
  {
    HeaderMeans(lines[0]);
    hide IsHeader, HeaderShape, OneLine;
    prose := Prose(lines[0]);
  }

  lemma BadHere(lines: seq<string>)
    requires lines != [] && IsHeader(lines[0])
    requires HeaderPath(lines[0]) == "" || FenceAt(lines[1..]) == |lines| - 1
    ensures Bad(lines)
  {
    HeaderOpens(lines[0]);
    NoFenceFound(lines[1..]);
    hide IsHeader, HeaderPath, Opens, NoFence, FenceAt;
  }

  /** Every list of lines is a legible reply, and then ends or goes wrong. */
  lemma {:induction false} Decompose(lines: seq<string>) returns (doc: seq<Segment>, tail: seq<string>)
    requires AllOneLine(lines)
    ensures AllLegible(doc) && lines == Lines(doc) + tail && (tail == [] || Bad(tail))
    decreases |lines|
  {
    hide IsHeader, HeaderPath, FenceAt, Legible, LinesOf, Lines, AllLegible, Bad, OneLine;
    doc, tail := [], lines;
    NoSegments(tail);
    if lines != [] {
      var first, more;
      if !IsHeader(lines[0]) {
        first := FirstProse(lines);
        more := lines[1..];
      } else if HeaderPath(lines[0]) != "" && FenceAt(lines[1..]) < |lines| - 1 {
        first := FirstBlock(lines);
        more := lines[FenceAt(lines[1..]) + 2..];
      } else {
        BadHere(lines);
        return;
      }
      doc, tail := Decompose(more);
      doc := OneMore(first, doc);
    }
  }

  lemma NoSegments(tail: seq<string>)
    ensures AllLegible([]) && Lines([]) + tail == tail
  {
  }

  lemma OneMore(s: Segment, doc: seq<Segment>) returns (more: seq<Segment>)
    requires Legible(s) && AllLegible(doc)
    ensures AllLegible(more) && Lines(more) == LinesOf(s) + Lines(doc)
    ensures forall tail: seq<string> :: Lines(more) + tail == LinesOf(s) + (Lines(doc) + tail)
  {
    hide Legible, LinesOf;
    more := [s] + doc;
    assert more[1..] == doc;
  }

  /** The reply's lines are those of doc, and then tail. */
  ghost predicate Reads(content: string, doc: seq<Segment>, tail: seq<string>) {
    AllLegible(doc) && Split(content) == Lines(doc) + tail
  }

  ghost predicate PathMissing(tail: seq<string>) { tail != [] && Opens(tail[0], "") }

  ghost predicate NeverClosed(tail: seq<string>, path: string) {
    tail != [] && path != "" && Opens(tail[0], path) && NoFence(tail[1..])
  }

  lemma BadParses(tail: seq<string>, path: string)
    ensures PathMissing(tail) ==> ParseLines(tail) == Failed(MissingPath)
    ensures NeverClosed(tail, path) ==> ParseLines(tail) == Failed(Unterminated(path))
  {
    hide IsHeader, HeaderPath, Opens, FenceShape, NoFence;
    if PathMissing(tail) {
      OpensReads(tail[0], "");
    }
    if NeverClosed(tail, path) {
      OpensReads(tail[0], path);
      NoFenceFound(tail[1..]);
    }
  }

  lemma ReadsParses(content: string, doc: seq<Segment>, tail: seq<string>)
    requires Reads(content, doc, tail)
    ensures var p := After(EditsOf(doc), ParseLines(tail));
            Parse(content) == if p == Found([]) then Failed(NoEdits) else p
  {
    hide Split, Legible, ParseLines, Lines;
    ParseDoc(doc, tail);
  }

  lemma EveryReplyReads(content: string) returns (doc: seq<Segment>, tail: seq<string>)
    ensures Reads(content, doc, tail)
    ensures tail == [] || PathMissing(tail) || exists path :: NeverClosed(tail, path)
  {
    SplitOneLine(content);
    hide Split, Legible, Lines, Opens, NoFence;
    doc, tail := Decompose(Split(content));
    if tail != [] {
      var path :| Opens(tail[0], path) && (path == "" || NoFence(tail[1..]));
      assert path != "" ==> NeverClosed(tail, path);
    }
  }

  /**
   * What every reply parses to: the edits of its blocks when its lines are legible to the end and there is a block;
   * else the first thing wrong, an opening without a path or a block without a closing line, or that there is no block.
   */
  lemma ParsesExactly(content: string)
    ensures forall es ::
              Parse(content) == Found(es) <==> es != [] && exists doc :: Reads(content, doc, []) && EditsOf(doc) == es
    ensures Parse(content) == Failed(NoEdits) <==> exists doc :: Reads(content, doc, []) && EditsOf(doc) == []
    ensures Parse(content) == Failed(MissingPath)
       <==> exists doc, tail :: Reads(content, doc, tail) && PathMissing(tail)
    ensures forall path ::
              Parse(content) == Failed(Unterminated(path))
              <==> exists doc, tail :: Reads(content, doc, tail) && NeverClosed(tail, path)
  {
    var doc, tail := EveryReplyReads(content);
    hide Reads, PathMissing, NeverClosed, Parse, ParseLines;
    ReadsParses(content, doc, tail);
    NoLines();
    forall d | Reads(content, d, [])
      ensures Parse(content) == if EditsOf(d) == [] then Failed(NoEdits) else Found(EditsOf(d))
    {
      ReadsParses(content, d, []);
    }
    forall d, t | Reads(content, d, t) && PathMissing(t) ensures Parse(content) == Failed(MissingPath) {
      ReadsParses(content, d, t);
      BadParses(t, "");
    }
    forall d, t, path | Reads(content, d, t) && NeverClosed(t, path)
      ensures Parse(content) == Failed(Unterminated(path))
    {
      ReadsParses(content, d, t);
      BadParses(t, path);
    }
    if tail != [] && !PathMissing(tail) {
      var path :| NeverClosed(tail, path);
      assert Parse(content) == Failed(Unterminated(path));
    }
  }

  // ---------------------------------------------------------------- the edits a reply can carry

  lemma {:induction false} EditsArePrintable(doc: seq<Segment>)
    requires AllLegible(doc)
    ensures forall e :: e in EditsOf(doc) ==> Printable(e)
  {
    hide Printable, HeaderShape, FenceShape, Opens;
    if doc != [] {
      assert Legible(doc[0]);
      EditsArePrintable(doc[1..]);
    }
  }

  function Plainly(e: Edit): Segment { Block("```file " + e.path, e, "```") }

  lemma PlainlyIsLegible(e: Edit)
    requires Printable(e)
    ensures Legible(Plainly(e))
  {
    hide NoFence;
    assert Blank("") && Blank(" ");
    assert "```file " + e.path == "" + "```file" + " " + e.path + "";
    assert "```" == "" + "```" + "";
  }

  lemma {:induction false} PlainEdits(es: seq<Edit>, doc: seq<Segment>)
    requires |doc| == |es| && forall i :: 0 <= i < |es| ==> doc[i] == Plainly(es[i])
    ensures EditsOf(doc) == es
  {
    if es != [] {
      PlainEdits(es[1..], doc[1..]);
      assert [es[0]] + es[1..] == es;
    }
  }

  /** The lists of edits a reply can yield are exactly the non-empty lists of printable edits. */
  lemma ParserImage(es: seq<Edit>)
    ensures (exists content :: Parse(content) == Found(es)) <==> es != [] && forall e :: e in es ==> Printable(e)
  {
    hide Printable, Parse, Legible;
    forall content | Parse(content) == Found(es) ensures es != [] && forall e :: e in es ==> Printable(e) {
      ParsesExactly(content);
      var doc :| Reads(content, doc, []) && EditsOf(doc) == es;
      EditsArePrintable(doc);
    }
    if es != [] && forall e :: e in es ==> Printable(e) {
      var doc := seq(|es|, i requires 0 <= i < |es| => Plainly(es[i]));
      forall i | 0 <= i < |doc| ensures Legible(doc[i]) {
        PlainlyIsLegible(es[i]);
      }
      PlainEdits(es, doc);
      ParseUndoesPrint(doc);
      assert Parse(Print(doc)) == Found(es);
    }
  }
}
