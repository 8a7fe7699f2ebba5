/** Options, and the string operations of Go's strings package that the modelled code relies on. */
module Text {

  datatype Option<+T> = None | Some(value: T)

  /** unicode.IsSpace. */
  predicate IsSpace(c: char) {
    c in " \t\n\r" || c == '\U{000B}' || c == '\U{000C}' || c == '\U{0085}' || c == '\U{00A0}' || c == '\U{1680}'
    || '\U{2000}' <= c <= '\U{200A}' || c == '\U{2028}' || c == '\U{2029}' || c == '\U{202F}' || c == '\U{205F}'
    || c == '\U{3000}'
  }

  /** The code points of space. */
  lemma SpaceReads(c: char)
    ensures IsSpace(c) <==> c as int in {9, 10, 11, 12, 13, 32, 133, 160, 5760, 8232, 8233, 8239, 8287, 12288}
                            || 8192 <= c as int <= 8202
  {
    assert c in " \t\n\r" <==> c == ' ' || c == '\t' || c == '\n' || c == '\r';
  }

  function TrimLeft(s: string): string {
    if s != [] && IsSpace(s[0]) then TrimLeft(s[1..]) else s
  }

  function TrimRight(s: string): string {
    if s != [] && IsSpace(s[|s| - 1]) then TrimRight(s[..|s| - 1]) else s
  }

  function TrimSpace(s: string): string { TrimRight(TrimLeft(s)) }

  /** strings.TrimRight(s, "\r"). */
  function TrimReturns(s: string): string {
    if s != [] && s[|s| - 1] == '\r' then TrimReturns(s[..|s| - 1]) else s
  }

  /** strings.Contains. */
  predicate Contains(s: string, sub: string) { sub <= s || (s != [] && Contains(s[1..], sub)) }

  lemma {:induction false} ContainsMeans(s: string, sub: string)
    ensures Contains(s, sub) <==> exists a, b :: s == a + sub + b
  {
    if sub <= s {
      assert s == [] + sub + s[|sub|..];
    } else if s != [] {
      ContainsMeans(s[1..], sub);
      forall a, b | s[1..] == a + sub + b ensures exists a', b' :: s == a' + sub + b' {
        assert s == ([s[0]] + a) + sub + b;
      }
      forall a, b | s == a + sub + b ensures exists a', b' :: s[1..] == a' + sub + b' {
        assert a != [];
        assert s[1..] == a[1..] + sub + b;
      }
    } else {
      assert forall a, b :: a + sub + b == s ==> |a + sub + b| == 0;
    }
  }

  predicate NoNul(s: string) { '\0' !in s }

  /** strings.Split(s, "\n"). */
  function Split(s: string): (lines: seq<string>)
    ensures |lines| > 0
  {
    if s == [] then [""]
    else
      var rest := Split(s[1..]);
      if s[0] == '\n' then [""] + rest else [[s[0]] + rest[0]] + rest[1..]
  }

  /** strings.Join(lines, "\n"). */
  function Join(lines: seq<string>): string {
    if lines == [] then "" else if |lines| == 1 then lines[0] else lines[0] + "\n" + Join(lines[1..])
  }

  predicate OneLine(s: string) { '\n' !in s }

  ghost predicate AllOneLine(lines: seq<string>) { forall i :: 0 <= i < |lines| ==> OneLine(lines[i]) }

  lemma {:induction false} SplitOneLine(s: string)
    ensures AllOneLine(Split(s))
  {
    if s != [] {
      SplitOneLine(s[1..]);
    }
  }

  /** Joining the lines of a text gives the text back. */
  lemma {:induction false} JoinSplit(s: string)
    ensures Join(Split(s)) == s
  {
    if s != [] {
      JoinSplit(s[1..]);
      var rest := Split(s[1..]);
      if s[0] == '\n' {
        assert ([""] + rest)[1..] == rest;
      } else {
        assert ([[s[0]] + rest[0]] + rest[1..])[1..] == rest[1..];
      }
    }
  }

  lemma {:induction false} SplitLine(s: string)
    requires OneLine(s)
    ensures Split(s) == [s]
  {
    if s != [] {
      assert OneLine(s[1..]) && s[0] in s;
      SplitLine(s[1..]);
      assert s == [s[0]] + s[1..];
    }
  }

  /** A newline between two texts separates their lines. */
  lemma {:induction false} SplitNewline(a: string, b: string)
    ensures Split(a + "\n" + b) == Split(a) + Split(b)
  {
    var joined := a + "\n" + b;
    if a == [] {
      assert joined[1..] == b;
    } else {
      SplitNewline(a[1..], b);
      assert joined[1..] == a[1..] + "\n" + b;
      assert joined[0] == a[0];
      HeadAppend(a[0], Split(a[1..]), Split(b));
    }
  }

  lemma HeadAppend(c: char, x: seq<string>, y: seq<string>)
    requires x != []
    ensures [""] + (x + y) == ([""] + x) + y
    ensures [[c] + (x + y)[0]] + (x + y)[1..] == ([[c] + x[0]] + x[1..]) + y
  {
  }

  /** Splitting joined lines gives the lines back. */
  lemma {:induction false} SplitJoin(lines: seq<string>)
    requires lines != [] && AllOneLine(lines)
    ensures Split(Join(lines)) == lines
  {
    SplitLine(lines[0]);
    if |lines| > 1 {
      SplitJoin(lines[1..]);
      SplitNewline(lines[0], Join(lines[1..]));
      assert lines == [lines[0]] + lines[1..];
    }
  }

  lemma {:induction false} JoinAppend(a: seq<string>, b: seq<string>)
    requires a != [] && b != []
    ensures Join(a + b) == Join(a) + "\n" + Join(b)
  {
    assert (a + b)[1..] == a[1..] + b;
    if |a| > 1 {
      JoinAppend(a[1..], b);
    }
  }

  // ---------------------------------------------------------------- trimming

  predicate Trimmed(s: string) { s == [] || (!IsSpace(s[0]) && !IsSpace(s[|s| - 1])) }

  lemma {:induction false} TrimLeftShape(s: string) returns (k: nat)
    ensures k <= |s| && TrimLeft(s) == s[k..]
    ensures forall i :: 0 <= i < k ==> IsSpace(s[i])
    ensures k < |s| ==> !IsSpace(s[k])
  {
    if s != [] && IsSpace(s[0]) {
      var j := TrimLeftShape(s[1..]);
      k := j + 1;
      forall i | 0 <= i < k ensures IsSpace(s[i]) {
        assert i == 0 || s[i] == s[1..][i - 1];
      }
    } else {
      k := 0;
    }
  }

  lemma {:induction false} TrimRightShape(s: string) returns (k: nat)
    ensures k <= |s| && TrimRight(s) == s[..k]
    ensures forall i :: k <= i < |s| ==> IsSpace(s[i])
    ensures k > 0 ==> !IsSpace(s[k - 1])
  {
    if s != [] && IsSpace(s[|s| - 1]) {
      k := TrimRightShape(s[..|s| - 1]);
    } else {
      k := |s|;
    }
  }

  lemma TrimSpaceTrimmed(s: string)
    ensures Trimmed(TrimSpace(s))
    ensures forall c :: c in TrimSpace(s) ==> c in s
  {
    var k := TrimLeftShape(s);
    var j := TrimRightShape(s[k..]);
  }

  lemma TrimIdentity(s: string)
    requires Trimmed(s)
    ensures TrimSpace(s) == s
  {
  }

  lemma {:induction false} TrimReturnsShape(s: string) returns (k: nat)
    ensures k <= |s| && TrimReturns(s) == s[..k]
    ensures forall i :: k <= i < |s| ==> s[i] == '\r'
  {
    if s != [] && s[|s| - 1] == '\r' {
      k := TrimReturnsShape(s[..|s| - 1]);
    } else {
      k := |s|;
    }
  }

  /** What TrimSpace returns is determined by its shape: a trimmed middle between two runs of space. */
  lemma TrimUnique(pre: string, mid: string, post: string)
    requires forall c :: c in pre || c in post ==> IsSpace(c)
    requires Trimmed(mid)
    ensures TrimSpace(pre + mid + post) == mid
  {
    var s := pre + mid + post;
    var k := TrimLeftShape(s);
    forall i | 0 <= i < |pre| ensures IsSpace(s[i]) {
      assert s[i] == pre[i] && pre[i] in pre;
    }
    forall i | |pre| + |mid| <= i < |s| ensures IsSpace(s[i]) {
      assert s[i] == post[i - |pre| - |mid|] && post[i - |pre| - |mid|] in post;
    }
    if mid == [] {
      assert k == |s|;
    } else {
      assert s[|pre|] == mid[0];
      assert k == |pre|;
      var t := s[k..];
      assert t == mid + post;
      var j := TrimRightShape(t);
      assert t[|mid| - 1] == mid[|mid| - 1];
      assert j == |mid|;
    }
  }

  lemma TrimSpaceParts(s: string) returns (pre: string, post: string)
    ensures s == pre + TrimSpace(s) + post
    ensures forall c :: c in pre || c in post ==> IsSpace(c)
  {
    var k := TrimLeftShape(s);
    var j := TrimRightShape(s[k..]);
    pre, post := s[..k], s[k..][j..];
  }

  /** Only space. */
  ghost predicate Blank(s: string) { forall c :: c in s ==> IsSpace(c) }

  /** Trimming carriage returns first makes no difference to TrimSpace. */
  lemma TrimReturnsFirst(s: string)
    ensures TrimSpace(TrimReturns(s)) == TrimSpace(s)
  {
    var r := TrimReturnsShape(s);
    var u := s[..r];
    var pre, post := TrimSpaceParts(u);
    TrimSpaceTrimmed(u);
    assert forall c :: c in s[r..] ==> c == '\r';
    assert IsSpace('\r');
    hide IsSpace, TrimSpace, Trimmed;
    assert s == pre + TrimSpace(u) + (post + s[r..]);
    TrimUnique(pre, TrimSpace(u), post + s[r..]);
  }

  /** What TrimSpace leaves: what stands, trimmed, between two runs of space. */
  lemma TrimMeans(s: string, mid: string)
    requires Trimmed(mid)
    ensures TrimSpace(s) == mid <==> exists pre, post :: Blank(pre) && Blank(post) && s == pre + mid + post
  {
    hide IsSpace, TrimSpace, Trimmed;
    if TrimSpace(s) == mid {
      var pre, post := TrimSpaceParts(s);
      assert Blank(pre) && Blank(post);
    }
    forall pre, post | Blank(pre) && Blank(post) && s == pre + mid + post ensures TrimSpace(s) == mid {
      TrimUnique(pre, mid, post);
    }
  }

  /** The length of one character in UTF-8. */
  function Utf8(c: char): nat {
    if c < '\U{0080}' then 1 else if c < '\U{0800}' then 2 else if c < '\U{10000}' then 3 else 4
  }

  /** The length of a Go string. */
  function Bytes(s: string): nat { if s == "" then 0 else Bytes(s[..|s| - 1]) + Utf8(s[|s| - 1]) }

  lemma {:induction false} BytesAppend(a: string, b: string)
    ensures Bytes(a + b) == Bytes(a) + Bytes(b)
    decreases |b|
  {
    hide Utf8;
    if b == "" {
      assert a + b == a;
    } else {
      var n := |b| - 1;
      BytesAppend(a, b[..n]);
      assert (a + b)[..|a + b| - 1] == a + b[..n];
    }
  }
}
