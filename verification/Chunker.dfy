/** Cutting source files into chunks by line ranges, in shared/chunker.py: the split of an oversized
    function at its block statements, and the regular-expression fallback. Lines are numbered from 1;
    trees and pattern matches are given by the parser and the patterns. */
module Chunker {
  import opened Text
  import opened Wrappers

  datatype Name = Plain(name: string) | PartOf(name: string, number: nat)

  datatype Chunk = Chunk(name: Name, kind: string, start: int, end: int, content: string)

  /** lines[start..end], both numbered from 1 and inclusive, as text. */
  function Excerpt(lines: seq<string>, start: int, end: int): string
    requires 1 <= start <= end + 1 <= |lines| + 1
  {
    Join(lines[start - 1..end], '\n')
  }

  // ---------------------------------------------------------------- oversized functions

  datatype Child = Child(isBlockStatement: bool, isBody: bool, start: int)

  /** A function node: its lines, with the wrapper's first line if it has one, and its direct
      children; `text` is the node's own text. */
  datatype FunctionNode = FunctionNode(name: string, start: int, end: int, children: seq<Child>, text: string)

  /** A parse tree over a file: nodes lie within the file and children within their node. */
  predicate WithinFile(f: FunctionNode, lines: seq<string>) {
    && 1 <= f.start <= f.end <= |lines|
    && forall i :: 0 <= i < |f.children| ==> f.start <= f.children[i].start <= f.end
  }

  function BlockStarts(children: seq<Child>): (starts: seq<int>)
    ensures forall x :: x in starts ==> exists i :: 0 <= i < |children| && children[i].start == x
  {
    if children == [] then []
    else
      var last := children[|children| - 1];
      var front := BlockStarts(children[..|children| - 1]);
      assert forall x :: x in front ==> exists i :: 0 <= i < |children| && children[i].start == x by {
        forall x | x in front ensures exists i :: 0 <= i < |children| && children[i].start == x {
          var i :| 0 <= i < |children| - 1 && children[..|children| - 1][i].start == x;
          assert children[i].start == x;
        }
      }
      if last.isBlockStatement then front + [last.start] else front
  }

  /** The line of the first body child, or the function's first line. */
  function BodyStart(f: FunctionNode): int {
    FirstBody(f.children, f.start)
  }

  function FirstBody(children: seq<Child>, otherwise: int): int {
    if children == [] then otherwise
    else if children[0].isBody then children[0].start
    else FirstBody(children[1..], otherwise)
  }

  lemma {:induction false} FirstBodyIsChild(children: seq<Child>, otherwise: int)
    ensures var b := FirstBody(children, otherwise);
            b == otherwise || exists i :: 0 <= i < |children| && children[i].start == b
  {
    if children != [] && !children[0].isBody {
      FirstBodyIsChild(children[1..], otherwise);
      var b := FirstBody(children, otherwise);
      if b != otherwise {
        var i :| 0 <= i < |children[1..]| && children[1..][i].start == b;
        assert children[i + 1].start == b;
      }
    }
  }

  /** The body begins where the first body child begins, or, without one, where the function does. */
  lemma {:induction false} FirstBodyIs(children: seq<Child>, otherwise: int)
    ensures (forall i :: 0 <= i < |children| ==> !children[i].isBody) ==> FirstBody(children, otherwise) == otherwise
    ensures forall i :: 0 <= i < |children| && children[i].isBody && (forall j :: 0 <= j < i ==> !children[j].isBody) ==>
              FirstBody(children, otherwise) == children[i].start
  {
    if children != [] && !children[0].isBody {
      FirstBodyIs(children[1..], otherwise);
      forall i | 0 <= i < |children| && children[i].isBody && (forall j :: 0 <= j < i ==> !children[j].isBody)
        ensures FirstBody(children, otherwise) == children[i].start
      {
        assert children[1..][i - 1] == children[i];
        forall j | 0 <= j < i - 1 ensures !children[1..][j].isBody {
          assert children[1..][j] == children[j + 1];
        }
      }
    }
  }

  /** The starts of exactly the block statements among the children, in order. */
  lemma BlockStartsAre(children: seq<Child>, c: Child)
    ensures BlockStarts([]) == []
    ensures BlockStarts(children + [c]) == BlockStarts(children) + (if c.isBlockStatement then [c.start] else [])
  {
    assert (children + [c])[..|children|] == children;
  }

  /** Chunks that cover lines first..last in order, each line once. */
  predicate Tiles(chunks: seq<Chunk>, first: int, last: int) {
    && chunks != [] && chunks[0].start == first && chunks[|chunks| - 1].end == last
    && (forall i :: 0 <= i < |chunks| ==> chunks[i].start <= chunks[i].end)
    && (forall i :: 0 < i < |chunks| ==> chunks[i].start == chunks[i - 1].end + 1)
  }

  predicate Increasing(s: seq<int>) {
    forall i, j :: 0 <= i < j < |s| ==> s[i] < s[j]
  }

  /** b is a line at which a part begins: the body's first line, or a block statement's first line
      after it. */
  predicate IsBoundary(f: FunctionNode, b: int) {
    b == BodyStart(f) || (b > BodyStart(f) && b in BlockStarts(f.children))
  }

  function SignatureText(f: FunctionNode, lines: seq<string>): string
    requires WithinFile(f, lines)
  {
    BodyWithin(f, lines);
    Excerpt(lines, f.start, BodyStart(f) - 1) + "\n"
  }

  lemma BodyWithin(f: FunctionNode, lines: seq<string>)
    requires WithinFile(f, lines)
    ensures f.start <= BodyStart(f) <= f.end
  {
    FirstBodyIsChild(f.children, f.start);
  }

  lemma BlocksWithin(f: FunctionNode, lines: seq<string>)
    requires WithinFile(f, lines)
    ensures forall x :: x in BlockStarts(f.children) ==> x <= f.end
  {
  }

  /** The boundaries between parts. The source reads block statements in tree order; a start that
      does not lie after the last boundary adds none. */
  method Boundaries(f: FunctionNode, lines: seq<string>) returns (bs: seq<int>)
    requires WithinFile(f, lines)
    ensures |bs| >= 2 && bs[0] == BodyStart(f) && bs[|bs| - 1] == f.end + 1
    ensures Increasing(bs)
    ensures forall i :: 0 <= i < |bs| - 1 ==> IsBoundary(f, bs[i])
    ensures Ascending(BlockStarts(f.children)) ==> forall b :: IsBoundary(f, b) ==> b in bs
  {
    hide BlockStarts;
    hide FirstBody;
    BodyWithin(f, lines);
    BlocksWithin(f, lines);
    var starts := BlockStarts(f.children);
    bs := [BodyStart(f)];
    var i := 0;
    while i < |starts|
      invariant 0 <= i <= |starts|
      invariant |bs| >= 1 && bs[0] == BodyStart(f) && Increasing(bs)
      invariant forall k :: 0 <= k < |bs| ==> IsBoundary(f, bs[k]) && bs[k] <= f.end
      invariant Ascending(starts) ==> forall k :: 0 <= k < i && starts[k] > BodyStart(f) ==> starts[k] in bs
      invariant bs[|bs| - 1] == BodyStart(f) || exists k :: 0 <= k < i && starts[k] == bs[|bs| - 1]
    {
      if starts[i] > bs[|bs| - 1] {
        bs := bs + [starts[i]];
      }
      i := i + 1;
    }
    bs := bs + [f.end + 1];
  }

  predicate Ascending(s: seq<int>) {
    forall i, j :: 0 <= i < j < |s| ==> s[i] <= s[j]
  }

  /** With two or more block statements the function is cut into parts that tile its body, each
      prefixed by the signature's text; otherwise it stays one chunk. */
  method SplitOversized(f: FunctionNode, lines: seq<string>) returns (chunks: seq<Chunk>)
    requires WithinFile(f, lines)
    ensures |BlockStarts(f.children)| < 2 ==> chunks == [Chunk(Plain(f.name), "function", f.start, f.end, f.text)]
    ensures |BlockStarts(f.children)| >= 2 ==> IsSplit(f, lines, chunks)
    ensures |BlockStarts(f.children)| >= 2 && Ascending(BlockStarts(f.children)) ==>
              forall b :: IsBoundary(f, b) <==> exists i :: 0 <= i < |chunks| && chunks[i].start == b
  {
    hide *;
    if |BlockStarts(f.children)| < 2 {
      return [Chunk(Plain(f.name), "function", f.start, f.end, f.text)];
    }
    BodyWithin(f, lines);
    BlocksWithin(f, lines);
    var bs := Boundaries(f, lines);
    chunks := CutAt(f, lines, bs);
    SplitStarts(f, bs, chunks);
  }

  /** The loop over consecutive boundaries. */
  method CutAt(f: FunctionNode, lines: seq<string>, bs: seq<int>) returns (chunks: seq<Chunk>)
    requires WithinFile(f, lines) && |bs| >= 2 && bs[0] == BodyStart(f) && bs[|bs| - 1] == f.end + 1 && Increasing(bs)
    requires forall i :: 0 <= i < |bs| - 1 ==> IsBoundary(f, bs[i])
    ensures IsSplit(f, lines, chunks) && |bs| == |chunks| + 1
    ensures forall i :: 0 <= i < |chunks| ==> chunks[i].start == bs[i]
  {
    hide IsBoundary;
    hide FirstBody;
    hide Excerpt;
    hide SignatureText;
    BodyWithin(f, lines);
    var signature := SignatureText(f, lines);
    chunks := [];
    var i := 0;
    while i < |bs| - 1
      invariant 0 <= i <= |bs| - 1 && |chunks| == i
      invariant forall k :: 0 <= k < i ==> chunks[k].start == bs[k] && chunks[k].end == bs[k + 1] - 1
      invariant forall k :: 0 <= k < i ==> IsPart(f, lines, chunks[k], k)
    {
      var from, to := bs[i], bs[i + 1] - 1;
      if from <= to {
        chunks := chunks + [Chunk(PartOf(f.name, i + 1), "function", from, to, signature + Excerpt(lines, from, to))];
      }
      i := i + 1;
    }
  }

  lemma SplitStarts(f: FunctionNode, bs: seq<int>, chunks: seq<Chunk>)
    requires |bs| == |chunks| + 1 && forall i :: 0 <= i < |chunks| ==> chunks[i].start == bs[i]
    requires forall i :: 0 <= i < |bs| - 1 ==> IsBoundary(f, bs[i])
    requires bs[|bs| - 1] == f.end + 1 && forall x :: x in BlockStarts(f.children) ==> x <= f.end
    requires BodyStart(f) <= f.end
    ensures (forall b :: IsBoundary(f, b) ==> b in bs) ==>
              forall b :: IsBoundary(f, b) <==> exists i :: 0 <= i < |chunks| && chunks[i].start == b
  {
    hide BlockStarts;
    hide FirstBody;
    if forall b :: IsBoundary(f, b) ==> b in bs {
      forall b | IsBoundary(f, b) ensures exists i :: 0 <= i < |chunks| && chunks[i].start == b {
        var i :| 0 <= i < |bs| && bs[i] == b;
        assert chunks[i].start == b;
      }
    }
  }

  predicate IsPart(f: FunctionNode, lines: seq<string>, c: Chunk, i: nat)
    requires WithinFile(f, lines)
  {
    && f.start <= c.start <= c.end <= f.end
    && c == Chunk(PartOf(f.name, i + 1), "function", c.start, c.end, SignatureText(f, lines) + Excerpt(lines, c.start, c.end))
  }

  predicate IsSplit(f: FunctionNode, lines: seq<string>, chunks: seq<Chunk>)
    requires WithinFile(f, lines)
  {
    && Tiles(chunks, BodyStart(f), f.end)
    && forall i :: 0 <= i < |chunks| ==> IsPart(f, lines, chunks[i], i) && IsBoundary(f, chunks[i].start)
  }

  /** Each line of the tiled range lies in exactly one chunk. */
  lemma {:induction false} TilesCoverOnce(chunks: seq<Chunk>, first: int, last: int, line: int) returns (i: nat)
    requires Tiles(chunks, first, last) && first <= line <= last
    ensures i < |chunks| && chunks[i].start <= line <= chunks[i].end
    ensures forall j :: 0 <= j < |chunks| && chunks[j].start <= line <= chunks[j].end ==> j == i
  {
    i := |chunks| - 1;
    if line < chunks[i].start {
      i := TilesCoverOnce(chunks[..i], first, chunks[i].start - 1, line);
      forall j | 0 <= j < |chunks| && chunks[j].start <= line <= chunks[j].end ensures j == i {
        assert j < |chunks| - 1 ==> chunks[..|chunks| - 1][j] == chunks[j];
      }
    } else {
      forall j | 0 <= j < |chunks| - 1 ensures chunks[j].end < chunks[i].start {
        EarlierEnds(chunks, first, last, j, i);
      }
    }
  }

  lemma {:induction false} EarlierEnds(chunks: seq<Chunk>, first: int, last: int, j: nat, i: nat)
    requires Tiles(chunks, first, last) && j < i < |chunks|
    ensures chunks[j].end < chunks[i].start
    decreases i
  {
    if j < i - 1 {
      EarlierEnds(chunks, first, last, j, i - 1);
    }
  }

  /** What a part holds besides the signature. */
  function PartTexts(chunks: seq<Chunk>, skip: nat): seq<string>
    requires forall i :: 0 <= i < |chunks| ==> skip <= |chunks[i].content|
  {
    seq(|chunks|, i requires 0 <= i < |chunks| => chunks[i].content[skip..])
  }

  lemma ExcerptAppend(lines: seq<string>, a: int, b: int, c: int)
    requires 1 <= a <= b < c <= |lines|
    ensures Excerpt(lines, a, c) == Excerpt(lines, a, b) + "\n" + Excerpt(lines, b + 1, c)
  {
    assert lines[a - 1..c] == lines[a - 1..b] + lines[b..c];
    JoinAppend(lines[a - 1..b], lines[b..c], '\n');
  }

  lemma {:induction false} TilesRebuild(lines: seq<string>, chunks: seq<Chunk>, texts: seq<string>, first: int, last: int)
    requires Tiles(chunks, first, last) && |texts| == |chunks|
    requires forall i :: 0 <= i < |chunks| ==>
               1 <= chunks[i].start <= chunks[i].end <= |lines| && texts[i] == Excerpt(lines, chunks[i].start, chunks[i].end)
    ensures 1 <= first <= last <= |lines| && Join(texts, '\n') == Excerpt(lines, first, last)
  {
    hide Excerpt;
    var n := |chunks| - 1;
    if n > 0 {
      var middle := chunks[n - 1].end;
      TilesRebuild(lines, chunks[..n], texts[..n], first, middle);
      ExcerptAppend(lines, first, middle, last);
    }
  }

  /** The signature's text and the parts' texts joined give back the function's lines, preceded by
      an empty line exactly when the body begins on the function's first line. */
  lemma PartsRebuildFunction(f: FunctionNode, lines: seq<string>, chunks: seq<Chunk>)
    requires WithinFile(f, lines) && IsSplit(f, lines, chunks)
    ensures var signature := SignatureText(f, lines);
            && (forall i :: 0 <= i < |chunks| ==> signature <= chunks[i].content)
            && signature + Join(PartTexts(chunks, |signature|), '\n')
               == (if BodyStart(f) > f.start then "" else "\n") + Excerpt(lines, f.start, f.end)
  {
    hide BodyStart;
    hide Excerpt;
    hide Join;
    BodyWithin(f, lines);
    var signature, body := SignatureText(f, lines), BodyStart(f);
    forall i | 0 <= i < |chunks|
      ensures f.start <= chunks[i].start <= chunks[i].end <= f.end
      ensures signature <= chunks[i].content && chunks[i].content[|signature|..] == Excerpt(lines, chunks[i].start, chunks[i].end)
    {
      PartAfterSignature(f, lines, chunks[i], i);
    }
    hide SignatureText;
    TilesRebuild(lines, chunks, PartTexts(chunks, |signature|), body, f.end);
    SignatureThenBody(f, lines);
  }

  lemma PartAfterSignature(f: FunctionNode, lines: seq<string>, c: Chunk, i: nat)
    requires WithinFile(f, lines) && IsPart(f, lines, c, i)
    ensures f.start <= c.start <= c.end <= f.end
    ensures var signature := SignatureText(f, lines);
            signature <= c.content && c.content[|signature|..] == Excerpt(lines, c.start, c.end)
  {
    hide Excerpt;
    hide SignatureText;
  }

  lemma SignatureThenBody(f: FunctionNode, lines: seq<string>)
    requires WithinFile(f, lines)
    ensures f.start <= BodyStart(f) <= f.end
    ensures SignatureText(f, lines) + Excerpt(lines, BodyStart(f), f.end)
            == (if BodyStart(f) > f.start then "" else "\n") + Excerpt(lines, f.start, f.end)
  {
    hide BodyStart;
    BodyWithin(f, lines);
    var body := BodyStart(f);
    if body > f.start {
      hide Excerpt;
      ExcerptAppend(lines, f.start, body - 1, f.end);
    } else {
      assert lines[f.start - 1..body - 1] == [];
    }
  }

  // ---------------------------------------------------------------- regular expressions

  datatype Definition = Definition(kind: string, name: string)

  /** The first pattern that matches a line, if any. */
  type Matcher = string -> Option<Definition>

  predicate IsBlank(line: string) {
    Strip(line) == ""
  }

  /** Exactly the indexes of lines that begin a definition, in order. */
  predicate AreDefinitions(lines: seq<string>, defAt: Matcher, starts: seq<int>, n: nat)
    requires n <= |lines|
  {
    && Increasing(starts)
    && (forall k :: 0 <= k < |starts| ==> 0 <= starts[k] < n && defAt(lines[starts[k]]).Some?)
    && (forall i :: 0 <= i < n && defAt(lines[i]).Some? ==> i in starts)
  }

  method FindDefinitions(lines: seq<string>, defAt: Matcher) returns (starts: seq<int>)
    ensures AreDefinitions(lines, defAt, starts, |lines|)
  {
    starts := [];
    var i := 0;
    while i < |lines|
      invariant 0 <= i <= |lines|
      invariant AreDefinitions(lines, defAt, starts, i)
    {
      if defAt(lines[i]).Some? {
        ghost var before := starts;
        starts := starts + [i];
        assert starts[|before|] == i && forall x :: x in before ==> x in starts;
      }
      i := i + 1;
    }
  }

  /** The chunk of the definition at index `start`, when the next one (or the end) is at `next`:
      it ends where only blank lines follow, itself on a line that is not blank if it can. */
  predicate IsDefinitionChunk(lines: seq<string>, defAt: Matcher, start: int, next: int, c: Chunk) {
    && 0 <= start < next <= |lines| && defAt(lines[start]).Some?
    && c.name == Plain(defAt(lines[start]).value.name) && c.kind == defAt(lines[start]).value.kind
    && c.start == start + 1 && c.start <= c.end <= next
    && (forall i :: c.end <= i < next ==> IsBlank(lines[i]))
    && (c.end > c.start ==> !IsBlank(lines[c.end - 1]))
    && c.content == Excerpt(lines, c.start, c.end)
  }

  function Next(lines: seq<string>, starts: seq<int>, k: nat): int
    requires k < |starts|
  {
    if k + 1 < |starts| then starts[k + 1] else |lines|
  }

  /** The last index before `next` after which only blank lines follow. */
  method TrimEnd(lines: seq<string>, start: int, next: int) returns (end: int)
    requires 0 <= start < next <= |lines|
    ensures start <= end < next && (forall i :: end < i < next ==> IsBlank(lines[i])) && (end > start ==> !IsBlank(lines[end]))
  {
    end := next - 1;
    while end > start && IsBlank(lines[end])
      invariant start <= end < next
      invariant forall i :: end < i < next ==> IsBlank(lines[i])
    {
      end := end - 1;
    }
  }

  method ChunkByDefinitions(source: string, lines: seq<string>, stem: string, defAt: Matcher)
    returns (chunks: seq<Chunk>, ghost starts: seq<int>)
    ensures AreDefinitions(lines, defAt, starts, |lines|)
    ensures lines == [] ==> chunks == []
    ensures lines != [] && starts == [] ==> chunks == [Chunk(Plain(stem), "module", 1, |lines|, source)]
    ensures starts != [] ==>
              |chunks| == |starts| && forall k :: 0 <= k < |chunks| ==> IsDefinitionChunk(lines, defAt, starts[k], Next(lines, starts, k), chunks[k])
  {
    hide Strip;
    hide Excerpt;
    if lines == [] {
      return [], [];
    }
    var defs := FindDefinitions(lines, defAt);
    starts := defs;
    if defs == [] {
      return [Chunk(Plain(stem), "module", 1, |lines|, source)], starts;
    }
    chunks := [];
    var k := 0;
    while k < |defs|
      invariant 0 <= k <= |defs| && |chunks| == k
      invariant forall j :: 0 <= j < k ==> IsDefinitionChunk(lines, defAt, defs[j], Next(lines, defs, j), chunks[j])
    {
      var start := defs[k];
      var end := TrimEnd(lines, start, if k + 1 < |defs| then defs[k + 1] else |lines|);
      var d := defAt(lines[start]).value;
      chunks := chunks + [Chunk(Plain(d.name), d.kind, start + 1, end + 1, Excerpt(lines, start + 1, end + 1))];
      k := k + 1;
    }
  }

  /** The chunks are ordered and disjoint, and from the first definition on a line is in exactly one
      chunk, or is blank and in none. */
  lemma DefinitionChunksCover(lines: seq<string>, defAt: Matcher, starts: seq<int>, chunks: seq<Chunk>)
    requires AreDefinitions(lines, defAt, starts, |lines|) && starts != [] && |chunks| == |starts|
    requires forall k :: 0 <= k < |chunks| ==> IsDefinitionChunk(lines, defAt, starts[k], Next(lines, starts, k), chunks[k])
    ensures forall j, k :: 0 <= j < k < |chunks| ==> chunks[j].end < chunks[k].start
    ensures forall i :: starts[0] <= i < |lines| && !IsBlank(lines[i]) ==>
              exists k :: 0 <= k < |chunks| && chunks[k].start <= i + 1 <= chunks[k].end
    ensures forall k :: 0 <= k < |chunks| ==> starts[0] < chunks[k].start
  {
    hide IsBlank;
    hide Excerpt;
    forall j, k | 0 <= j < k < |chunks| ensures chunks[j].end < chunks[k].start {
      assert IsDefinitionChunk(lines, defAt, starts[j], Next(lines, starts, j), chunks[j]);
      assert j + 1 < k ==> starts[j + 1] < starts[k];
    }
    forall i | starts[0] <= i < |lines| && !IsBlank(lines[i])
      ensures exists k :: 0 <= k < |chunks| && chunks[k].start <= i + 1 <= chunks[k].end
    {
      var k := Owner(lines, starts, i);
      assert IsDefinitionChunk(lines, defAt, starts[k], Next(lines, starts, k), chunks[k]);
      assert chunks[k].start <= i + 1 <= chunks[k].end;
    }
  }

  lemma Owner(lines: seq<string>, starts: seq<int>, i: int) returns (k: nat)
    requires starts != [] && starts[0] <= i < |lines|
    ensures k < |starts| && starts[k] <= i < Next(lines, starts, k)
  {
    k := 0;
    while k + 1 < |starts| && starts[k + 1] <= i
      invariant k < |starts| && starts[k] <= i
    {
      k := k + 1;
    }
  }
}
