/** Assembling the system prompt within a token budget, in shared/sdk_factory.py.

    A text's tokens are estimated as 1.3 times its number of whitespace-separated words, rounded
    down, and at least one. The double 1.3 is slightly above 13/10, never by enough to change the
    rounded-down product, so the estimate is exact in integers. */
module PromptBudget {
  import opened Text
  import opened Wrappers

  const BUDGET := 12_000

  // ---------------------------------------------------------------- words and tokens

  /** len(text.split()): the number of characters that begin a word. */
  function Words(s: string): nat {
    if s == [] then 0
    else Words(s[..|s| - 1]) + (if !IsSpace(s[|s| - 1]) && (|s| == 1 || IsSpace(s[|s| - 2])) then 1 else 0)
  }

  function Estimate(s: string): int {
    var t := Words(s) * 13 / 10;
    if t < 1 then 1 else t
  }

  lemma WordsSnoc(s: string, c: char)
    ensures Words(s + [c]) == Words(s) + (if !IsSpace(c) && (s == [] || IsSpace(s[|s| - 1])) then 1 else 0)
  {
    assert (s + [c])[..|s|] == s;
  }

  /** Whitespace between two texts separates their words. */
  lemma {:induction false} WordsApart(a: string, c: char, b: string)
    requires IsSpace(c)
    ensures Words(a + [c] + b) == Words(a) + Words(b)
  {
    hide IsSpace;
    hide Words;
    NoWords();
    if b == [] {
      assert a + [c] + b == a + [c];
      WordsSnoc(a, c);
    } else {
      var front, last := b[..|b| - 1], b[|b| - 1];
      WordsApart(a, c, front);
      assert b == front + [last];
      assert a + [c] + b == (a + [c] + front) + [last];
      WordsSnoc(front, last);
      WordsSnoc(a + [c] + front, last);
      if front != [] {
        assert (a + [c] + front)[|a + [c] + front| - 1] == front[|front| - 1];
      }
    }
  }

  lemma NoWords()
    ensures Words("") == 0
  {
  }

  lemma {:induction false} WordsOfSolid(s: string)
    requires s != [] && forall i :: 0 <= i < |s| ==> !IsSpace(s[i])
    ensures Words(s) == 1
  {
    if |s| > 1 {
      WordsOfSolid(s[..|s| - 1]);
    }
  }

  // ---------------------------------------------------------------- lines

  function TotalWords(lines: seq<string>): nat {
    if lines == [] then 0 else TotalWords(lines[..|lines| - 1]) + Words(lines[|lines| - 1])
  }

  lemma {:induction false} WordsOfJoin(lines: seq<string>)
    ensures Words(Join(lines, '\n')) == TotalWords(lines)
  {
    if |lines| == 1 {
      assert TotalWords(lines[..0]) == 0;
    } else if |lines| > 1 {
      WordsOfJoin(lines[..|lines| - 1]);
      WordsApart(Join(lines[..|lines| - 1], '\n'), '\n', lines[|lines| - 1]);
    }
  }

  lemma {:induction false} TotalWordsOfPrefix(lines: seq<string>, j: nat, k: nat)
    requires j <= k <= |lines|
    ensures TotalWords(lines[..j]) <= TotalWords(lines[..k])
  {
    if j < k {
      TotalWordsOfPrefix(lines, j, k - 1);
      assert lines[..k][..k - 1] == lines[..k - 1];
    }
  }

  lemma {:induction false} TotalWordsAppend(a: seq<string>, b: seq<string>)
    ensures TotalWords(a + b) == TotalWords(a) + TotalWords(b)
  {
    if b == [] {
      assert a + b == a;
    } else {
      TotalWordsAppend(a, b[..|b| - 1]);
      assert (a + b)[..|a + b| - 1] == a + b[..|b| - 1];
    }
  }

  // ---------------------------------------------------------------- truncation

  /** The lines kept when k are: the first k, or the last k when truncating from the top. */
  function Kept(lines: seq<string>, k: nat, fromTop: bool): seq<string>
    requires k <= |lines|
  {
    if fromTop then lines[|lines| - k..] else lines[..k]
  }

  predicate Fits(lines: seq<string>, k: nat, fromTop: bool, maxTokens: int)
    requires k <= |lines|
  {
    Estimate(Join(Kept(lines, k, fromTop), '\n')) <= maxTokens
  }

  lemma EstimateIsMonotone(a: string, b: string)
    ensures Words(a) <= Words(b) ==> Estimate(a) <= Estimate(b)
  {
    hide Words;
  }

  lemma FitsIsMonotone(lines: seq<string>, j: nat, k: nat, fromTop: bool, maxTokens: int)
    requires j <= k <= |lines| && Fits(lines, k, fromTop, maxTokens)
    ensures Fits(lines, j, fromTop, maxTokens)
  {
    hide Join;
    hide Words;
    hide TotalWords;
    hide Estimate;
    WordsOfJoin(Kept(lines, j, fromTop));
    WordsOfJoin(Kept(lines, k, fromTop));
    EstimateIsMonotone(Join(Kept(lines, j, fromTop), '\n'), Join(Kept(lines, k, fromTop), '\n'));
    if fromTop {
      var n := |lines|;
      assert lines[n - k..] == lines[n - k..n - j] + lines[n - j..];
      TotalWordsAppend(lines[n - k..n - j], lines[n - j..]);
    } else {
      TotalWordsOfPrefix(lines, j, k);
    }
  }

  /** k is the greatest number of lines that fits: exactly the counts from 1 to k fit. */
  predicate IsLongestFit(lines: seq<string>, k: nat, fromTop: bool, maxTokens: int) {
    k <= |lines| && forall j :: 1 <= j <= |lines| ==> (Fits(lines, j, fromTop, maxTokens) <==> j <= k)
  }

  const BOTTOM_MARKER := "\n... (truncated)"
  const TOP_MARKER := "... (older comments truncated)\n"

  /** What truncation to the k lines kept returns. */
  function Marked(lines: seq<string>, k: nat, fromTop: bool): Option<string>
    requires k <= |lines|
  {
    if k == 0 then None
    else if fromTop then Some(TOP_MARKER + Join(Kept(lines, k, true), '\n'))
    else Some(Join(Kept(lines, k, false), '\n') + BOTTOM_MARKER)
  }

  /** How many lines are kept when lines are added, from k on, as long as they fit. */
  function Longest(lines: seq<string>, k: nat, fromTop: bool, maxTokens: int): (n: nat)
    requires k <= |lines|
    ensures k <= n <= |lines|
    decreases |lines| - k
  {
    if k < |lines| && Fits(lines, k + 1, fromTop, maxTokens) then Longest(lines, k + 1, fromTop, maxTokens) else k
  }

  function Truncated(text: string, maxTokens: int, fromTop: bool): Option<string> {
    if Estimate(text) <= maxTokens then Some(text)
    else
      var lines := Split(text, '\n');
      Marked(lines, Longest(lines, 0, fromTop, maxTokens), fromTop)
  }

  method Truncate(text: string, maxTokens: int, fromTop: bool) returns (r: Option<string>)
    ensures r == Truncated(text, maxTokens, fromTop)
    ensures Estimate(text) <= maxTokens ==> r == Some(text)
    ensures Estimate(text) > maxTokens ==>
              exists k :: 0 <= k < |Split(text, '\n')| && IsLongestFit(Split(text, '\n'), k, fromTop, maxTokens) && r == Marked(Split(text, '\n'), k, fromTop)
  {
    hide Split;
    hide Fits;
    hide IsLongestFit;
    hide Marked;
    hide Estimate;
    if Estimate(text) <= maxTokens {
      return Some(text);
    }
    var lines := Split(text, '\n');
    WholeTextFits(text, fromTop, maxTokens);
    var k := 0;
    while k < |lines| && Fits(lines, k + 1, fromTop, maxTokens)
      invariant 0 <= k <= |lines|
      invariant forall j :: 1 <= j <= k ==> Fits(lines, j, fromTop, maxTokens)
      invariant Longest(lines, k, fromTop, maxTokens) == Longest(lines, 0, fromTop, maxTokens)
    {
      k := k + 1;
    }
    LongestFit(lines, k, fromTop, maxTokens);
    r := Marked(lines, k, fromTop);
  }

  lemma WholeTextFits(text: string, fromTop: bool, maxTokens: int)
    ensures Fits(Split(text, '\n'), |Split(text, '\n')|, fromTop, maxTokens) <==> Estimate(text) <= maxTokens
  {
    hide Split;
    hide Join;
    hide Estimate;
    SplitJoins(text, '\n');
    assert Kept(Split(text, '\n'), |Split(text, '\n')|, fromTop) == Split(text, '\n');
  }

  lemma LongestFit(lines: seq<string>, k: nat, fromTop: bool, maxTokens: int)
    requires k < |lines| && !Fits(lines, k + 1, fromTop, maxTokens)
    requires forall j :: 1 <= j <= k ==> Fits(lines, j, fromTop, maxTokens)
    ensures IsLongestFit(lines, k, fromTop, maxTokens)
  {
    hide Fits;
    forall j | k < j <= |lines| && Fits(lines, j, fromTop, maxTokens) ensures false {
      FitsIsMonotone(lines, k + 1, j, fromTop, maxTokens);
    }
  }

  /** A text that is cut keeps whole lines at one end, next to the marker: from the top its last
      lines, from the bottom its first. */
  lemma CutKeepsOneEnd(text: string, maxTokens: int, fromTop: bool) returns (kept: string, cut: string)
    requires Estimate(text) > maxTokens && Truncated(text, maxTokens, fromTop).Some?
    ensures Truncated(text, maxTokens, fromTop).value == if fromTop then TOP_MARKER + kept else kept + BOTTOM_MARKER
    ensures text == if fromTop then cut + "\n" + kept else kept + "\n" + cut
  {
    hide Estimate;
    hide Split;
    hide Join;
    hide Fits;
    var lines := Split(text, '\n');
    var k := Longest(lines, 0, fromTop, maxTokens);
    WholeTextFits(text, fromTop, maxTokens);
    LongestFits(lines, 0, fromTop, maxTokens);
    SplitJoins(text, '\n');
    var at := if fromTop then |lines| - k else k;
    assert lines == lines[..at] + lines[at..];
    JoinAppend(lines[..at], lines[at..], '\n');
    if fromTop {
      kept, cut := Join(lines[at..], '\n'), Join(lines[..at], '\n');
    } else {
      kept, cut := Join(lines[..at], '\n'), Join(lines[at..], '\n');
    }
  }

  lemma {:induction false} LongestFits(lines: seq<string>, k: nat, fromTop: bool, maxTokens: int)
    requires k <= |lines|
    ensures var n := Longest(lines, k, fromTop, maxTokens);
            (n == k || Fits(lines, n, fromTop, maxTokens)) && (n < |lines| ==> !Fits(lines, n + 1, fromTop, maxTokens))
    decreases |lines| - k
  {
    hide Fits;
    if k < |lines| && Fits(lines, k + 1, fromTop, maxTokens) {
      LongestFits(lines, k + 1, fromTop, maxTokens);
    }
  }

  /** The marker adds two words at the bottom, four at the top. */
  lemma MarkerWords(s: string)
    ensures Words(s + BOTTOM_MARKER) == Words(s) + 2
    ensures Words(TOP_MARKER + s) == Words(s) + 4
  {
    hide Words;
    SpacesAndSolids();
    hide IsSpace;
    var bottom, top := Spaced("...", "(truncated)"), Spaced(Spaced("...", "(older"), Spaced("comments", "truncated)"));
    SpacedWords("...", "(truncated)");
    SpacedWords("...", "(older");
    SpacedWords("comments", "truncated)");
    SpacedWords(Spaced("...", "(older"), Spaced("comments", "truncated)"));
    assert BOTTOM_MARKER == ['\n'] + bottom;
    assert s + BOTTOM_MARKER == s + ['\n'] + bottom;
    WordsApart(s, '\n', bottom);
    assert TOP_MARKER == top + ['\n'];
    assert TOP_MARKER + s == top + ['\n'] + s;
    WordsApart(top, '\n', s);
  }

  function Spaced(a: string, b: string): string {
    a + " " + b
  }

  lemma SpacedWords(a: string, b: string)
    ensures Words(Spaced(a, b)) == Words(a) + Words(b)
  {
    hide Words;
    WordsApart(a, ' ', b);
  }

  lemma SpacesAndSolids()
    ensures IsSpace(' ') && IsSpace('\n')
    ensures Words("...") == Words("(truncated)") == Words("(older") == Words("comments") == Words("truncated)") == 1
  {
    hide Words;
    WordsOfSolid("...");
    WordsOfSolid("(truncated)");
    WordsOfSolid("(older");
    WordsOfSolid("comments");
    WordsOfSolid("truncated)");
  }

  // ---------------------------------------------------------------- assembly

  datatype Tier = Structural | ThreadHistory | Prompt | Signature

  datatype Part = Part(tier: Tier, text: string)

  /** A component that is set and not blank, stripped. */
  function Component(tier: Tier, text: Option<string>): seq<Part> {
    if text.Some? && Strip(text.value) != "" then [Part(tier, Strip(text.value))] else []
  }

  /** A component is there iff it is set and has more than whitespace, and is then stripped. */
  lemma ComponentIs(tier: Tier, text: Option<string>)
    ensures Component(tier, text) == [] <==> text == None || forall i :: 0 <= i < |text.value| ==> IsSpace(text.value[i])
    ensures Component(tier, text) != [] ==> Component(tier, text) == [Part(tier, Strip(text.value))]
  {
    if text.Some? {
      StripsToNothingIff(text.value);
    }
  }

  /** The instruction that carries the session link, already formatted, if there is a link. */
  function SignaturePart(instruction: Option<string>): seq<Part> {
    if instruction.Some? then [Part(Signature, instruction.value)] else []
  }

  /** "\n\n".join of the parts' texts. */
  function JoinParts(parts: seq<Part>): string {
    if parts == [] then ""
    else if |parts| == 1 then parts[0].text
    else JoinParts(parts[..|parts| - 1]) + "\n" + "\n" + parts[|parts| - 1].text
  }

  /** A blank line stands between any two parts, and nothing is added elsewhere. */
  lemma PartsAreJoined(parts: seq<Part>, p: Part)
    ensures JoinParts([]) == "" && JoinParts([p]) == p.text
    ensures parts != [] ==> JoinParts(parts + [p]) == JoinParts(parts) + "\n\n" + p.text
  {
    assert (parts + [p])[..|parts|] == parts;
    assert JoinParts(parts) + "\n" + "\n" + p.text == JoinParts(parts) + "\n\n" + p.text;
  }

  function PartWords(parts: seq<Part>): nat {
    if parts == [] then 0 else PartWords(parts[..|parts| - 1]) + Words(parts[|parts| - 1].text)
  }

  function TotalTokens(parts: seq<Part>): int {
    if parts == [] then 0 else TotalTokens(parts[..|parts| - 1]) + Estimate(parts[|parts| - 1].text)
  }

  lemma {:induction false} WordsOfParts(parts: seq<Part>)
    ensures Words(JoinParts(parts)) == PartWords(parts)
  {
    hide Words;
    NoWords();
    if |parts| == 1 {
      assert PartWords(parts[..0]) == 0;
    } else if |parts| > 1 {
      var front, last := JoinParts(parts[..|parts| - 1]), parts[|parts| - 1].text;
      WordsOfParts(parts[..|parts| - 1]);
      assert front + "\n" + "\n" + last == front + ['\n'] + (['\n'] + last);
      WordsApart(front, '\n', ['\n'] + last);
      assert ['\n'] + last == "" + ['\n'] + last;
      WordsApart("", '\n', last);
    }
  }

  /** The books of the assembly: `left` of the budget is unspent, and the words so far are paid for
      by what was spent, a rounding loss below one token per part, and `extra` marker words. */
  predicate Balanced(parts: seq<Part>, left: int, extra: nat) {
    0 <= left <= BUDGET && 13 * PartWords(parts) <= 10 * (BUDGET - left) + 9 * |parts| + 13 * extra
  }

  lemma PartWordsSnoc(parts: seq<Part>, p: Part)
    ensures PartWords(parts + [p]) == PartWords(parts) + Words(p.text)
  {
    assert (parts + [p])[..|parts|] == parts;
  }

  lemma RoundingLoss(s: string, n: int)
    requires Estimate(s) <= n
    ensures 13 * Words(s) <= 10 * n + 9
  {
    hide Words;
  }

  /** The parts and what is left of the budget after offering one more component. */
  function Added(parts: seq<Part>, left: int, p: Part, fromTop: bool): (seq<Part>, int) {
    if Estimate(p.text) <= left then (parts + [p], left - Estimate(p.text))
    else
      var t := Truncated(p.text, left, fromTop);
      if t.None? then (parts, left) else (parts + [Part(p.tier, t.value)], 0)
  }

  /** Adds a component whole if it fits, else truncated, which uses the budget up; a component of
      which not even one line fits is left out. */
  method AddPart(parts: seq<Part>, left: int, p: Part, fromTop: bool, ghost extra: nat)
    returns (parts': seq<Part>, left': int, whole: bool, ghost extra': nat)
    requires Balanced(parts, left, extra)
    ensures (parts', left') == Added(parts, left, p, fromTop)
    ensures whole <==> Estimate(p.text) <= left
    ensures whole ==> parts' == parts + [p] && left' == left - Estimate(p.text) && extra' == extra
    ensures !whole && parts' != parts ==>
              && left' == 0 && extra' == extra + (if fromTop then 4 else 2)
              && |parts'| == |parts| + 1 && parts'[..|parts|] == parts && parts'[|parts|].tier == p.tier
              && (!fromTop ==> EndsCut(parts'[|parts|].text))
    ensures parts' == parts ==> left' == left && extra' == extra
    ensures Balanced(parts', left', extra')
  {
    hide Words;
    hide PartWords;
    hide Estimate;
    hide Truncated;
    extra' := extra;
    var tokens := Estimate(p.text);
    whole := tokens <= left;
    AtLeastOne(p.text);
    if whole {
      parts', left' := parts + [p], left - tokens;
      PartWordsSnoc(parts, p);
      RoundingLoss(p.text, tokens);
    } else {
      var truncated := Truncate(p.text, left, fromTop);
      if truncated.Some? {
        var t := Part(p.tier, truncated.value);
        TruncatedWords(p.text, left, fromTop, truncated);
        PartWordsSnoc(parts, t);
        parts', left' := parts + [t], 0;
        extra' := extra + (if fromTop then 4 else 2);
      } else {
        parts', left' := parts, left;
      }
    }
  }

  /** The text ends with the marker that truncation at the bottom leaves. */
  predicate EndsCut(s: string) {
    |s| >= |BOTTOM_MARKER| && s[|s| - |BOTTOM_MARKER|..] == BOTTOM_MARKER
  }

  lemma AtLeastOne(s: string)
    ensures Estimate(s) >= 1
  {
  }

  lemma TruncatedWords(text: string, maxTokens: int, fromTop: bool, r: Option<string>)
    requires r.Some? && exists k :: 0 <= k < |Split(text, '\n')| && IsLongestFit(Split(text, '\n'), k, fromTop, maxTokens) && r == Marked(Split(text, '\n'), k, fromTop)
    ensures 13 * Words(r.value) <= 10 * maxTokens + 9 + 13 * (if fromTop then 4 else 2)
    ensures !fromTop ==> EndsCut(r.value)
  {
    hide Words;
    hide Estimate;
    hide Split;
    hide Join;
    var lines := Split(text, '\n');
    var k :| 0 <= k < |lines| && IsLongestFit(lines, k, fromTop, maxTokens) && r == Marked(lines, k, fromTop);
    assert Fits(lines, k, fromTop, maxTokens);
    var kept := Join(Kept(lines, k, fromTop), '\n');
    RoundingLoss(kept, maxTokens);
    MarkerWords(kept);
  }

  /** All components, in the order they are joined when everything fits. */
  function Components(structural: Option<string>, thread: Option<string>, prompt: Option<string>, signature: Option<string>): seq<Part> {
    Component(Structural, structural) + Component(ThreadHistory, thread) + Component(Prompt, prompt) + SignaturePart(signature)
  }

  function TokensOf(parts: seq<Part>): int {
    if parts == [] then 0 else Estimate(parts[0].text)
  }

  /** The prompt content, then the signature unless the prompt content did not fit whole. */
  function Prioritised(p: seq<Part>, g: seq<Part>): (seq<Part>, int) {
    var a := if p == [] then ([], BUDGET) else Added([], BUDGET, p[0], false);
    if TokensOf(p) <= BUDGET && g != [] then Added(a.0, a.1, g[0], false) else a
  }

  /** Thread history, then structural context, while any budget is left. */
  function Followed(first: (seq<Part>, int), t: seq<Part>, s: seq<Part>): (seq<Part>, int) {
    var a := if first.1 > 0 && t != [] then Added(first.0, first.1, t[0], true) else first;
    if a.1 > 0 && s != [] then Added(a.0, a.1, s[0], false) else a
  }

  /** q is the component itself, or what is left of it with the marker of its kind of cut. */
  predicate WholeOrCut(p: Part, q: Part) {
    q.tier == p.tier && (q == p || if p.tier == ThreadHistory then TOP_MARKER <= q.text else EndsCut(q.text))
  }

  lemma AddedIs(parts: seq<Part>, left: int, p: Part)
    ensures var parts' := Added(parts, left, p, p.tier == ThreadHistory).0;
            parts' == parts || (|parts'| == |parts| + 1 && parts' == parts + [parts'[|parts|]] && WholeOrCut(p, parts'[|parts|]))
  {
    hide Estimate;
    if Estimate(p.text) > left && Truncated(p.text, left, p.tier == ThreadHistory).Some? {
      var kept, cut := CutKeepsOneEnd(p.text, left, p.tier == ThreadHistory);
    }
    hide Truncated;
  }

  function Priority(tier: Tier): nat {
    match tier
    case Prompt => 0
    case Signature => 1
    case ThreadHistory => 2
    case Structural => 3
  }

  /** The order of an assembly that had to be cut: by priority, each component at most once, each
      whole or cut at its own end. */
  predicate InPriorityOrder(kept: seq<Part>, offered: seq<Part>) {
    && (forall i, j :: 0 <= i < j < |kept| ==> Priority(kept[i].tier) < Priority(kept[j].tier))
    && (forall i :: 0 <= i < |kept| ==> FromOffered(offered, kept[i]))
  }

  predicate FromOffered(offered: seq<Part>, q: Part) {
    exists p :: p in offered && WholeOrCut(p, q)
  }

  lemma MoreOffered(offered: seq<Part>, p: Part, q: Part)
    ensures FromOffered(offered, q) || WholeOrCut(p, q) ==> FromOffered(offered + [p], q)
    ensures FromOffered(offered, q) ==> exists x :: x in offered && x.tier == q.tier
  {
    assert (offered + [p])[|offered|] == p;
    if FromOffered(offered, q) {
      var x :| x in offered && WholeOrCut(x, q);
      assert x in offered + [p];
    }
  }

  lemma OfferNext(kept: seq<Part>, offered: seq<Part>, left: int, p: Part)
    requires InPriorityOrder(kept, offered) && forall x :: x in offered ==> Priority(x.tier) < Priority(p.tier)
    ensures InPriorityOrder(Added(kept, left, p, p.tier == ThreadHistory).0, offered + [p])
    ensures InPriorityOrder(kept, offered + [p])
  {
    hide Added;
    hide WholeOrCut;
    hide FromOffered;
    hide Priority;
    AddedIs(kept, left, p);
    var kept' := Added(kept, left, p, p.tier == ThreadHistory).0;
    forall i | 0 <= i < |kept| ensures FromOffered(offered + [p], kept[i]) && Priority(kept[i].tier) < Priority(p.tier) {
      MoreOffered(offered, p, kept[i]);
    }
    if kept' != kept {
      SameTier(p, kept'[|kept|]);
      MoreOffered(offered, p, kept'[|kept|]);
      assert forall i :: 0 <= i < |kept| ==> kept'[i] == kept[i];
    }
  }

  /** Offering a component, or nothing, or passing it over. */
  lemma OfferOne(kept: seq<Part>, offered: seq<Part>, left: int, c: seq<Part>, tier: Tier)
    requires InPriorityOrder(kept, offered) && |c| <= 1 && forall x :: x in c ==> x.tier == tier
    requires forall x :: x in offered ==> Priority(x.tier) < Priority(tier)
    ensures InPriorityOrder(kept, offered + c)
    ensures c != [] ==> InPriorityOrder(Added(kept, left, c[0], tier == ThreadHistory).0, offered + c)
    ensures forall x :: x in offered + c ==> Priority(x.tier) <= Priority(tier)
  {
    hide Added;
    hide InPriorityOrder;
    hide Priority;
    if c == [] {
      assert offered + c == offered;
    } else {
      OfferNext(kept, offered, left, c[0]);
      assert c == [c[0]];
    }
  }

  lemma SameTier(p: Part, q: Part)
    requires WholeOrCut(p, q)
    ensures q.tier == p.tier
  {
  }

  /** An assembly that had to be cut offers prompt, signature, thread history and structural context
      in that order; thread history is cut from the top, the others at the bottom. */
  lemma CutAssemblyIsInOrder(p: seq<Part>, g: seq<Part>, t: seq<Part>, s: seq<Part>)
    requires |p| <= 1 && |g| <= 1 && |t| <= 1 && |s| <= 1
    requires (forall x :: x in p ==> x.tier == Prompt) && (forall x :: x in g ==> x.tier == Signature)
    requires (forall x :: x in t ==> x.tier == ThreadHistory) && (forall x :: x in s ==> x.tier == Structural)
    ensures InPriorityOrder(Followed(Prioritised(p, g), t, s).0, p + g + t + s)
  {
    hide Added;
    hide Estimate;
    hide InPriorityOrder;
    NothingOffered();
    var first, second, third := Prioritised(p, []), Prioritised(p, g), Followed(Prioritised(p, g), t, []);
    OfferOne([], [], BUDGET, p, Prompt);
    assert [] + p == p;
    assert InPriorityOrder(first.0, p);
    OfferOne(first.0, p, first.1, g, Signature);
    assert InPriorityOrder(second.0, p + g);
    OfferOne(second.0, p + g, second.1, t, ThreadHistory);
    assert InPriorityOrder(third.0, p + g + t);
    OfferOne(third.0, p + g + t, third.1, s, Structural);
  }

  lemma NothingOffered()
    ensures InPriorityOrder([], [])
  {
  }

  /** The parts of the assembled prompt. */
  function Assembled(structural: Option<string>, thread: Option<string>, prompt: Option<string>, signature: Option<string>): seq<Part> {
    var all := Components(structural, thread, prompt, signature);
    if TotalTokens(all) <= BUDGET then all
    else Followed(Prioritised(Component(Prompt, prompt), SignaturePart(signature)),
                  Component(ThreadHistory, thread), Component(Structural, structural)).0
  }

  /** The assembled prompt. For any components its own estimate exceeds the budget by at most 6
      tokens, and by at most 2 when nothing had to be cut. The signature survives whole exactly when
      there is room for it next to the prompt content (its fixed last words are not the cut marker),
      and disappears when the prompt content alone exceeds the budget. */
  method Assemble(structural: Option<string>, thread: Option<string>, prompt: Option<string>, signature: Option<string>)
    returns (r: Option<string>, ghost parts: seq<Part>)
    ensures parts == Assembled(structural, thread, prompt, signature)
    ensures r == if parts == [] then None else Some(JoinParts(parts))
    ensures r.Some? ==> Estimate(r.value) <= BUDGET + 6
    ensures TotalTokens(Components(structural, thread, prompt, signature)) <= BUDGET ==>
              parts == Components(structural, thread, prompt, signature) && (r.Some? ==> Estimate(r.value) <= BUDGET + 2)
    ensures signature.Some? && !EndsCut(signature.value) ==>
              (Part(Signature, signature.value) in parts <==> TokensOf(Component(Prompt, prompt)) + Estimate(signature.value) <= BUDGET)
    ensures TokensOf(Component(Prompt, prompt)) > BUDGET ==> forall x :: x in parts ==> x.tier != Signature
  {
    hide *;
    var s, t, p, g := Component(Structural, structural), Component(ThreadHistory, thread), Component(Prompt, prompt), SignaturePart(signature);
    ComponentShape(Structural, structural);
    ComponentShape(ThreadHistory, thread);
    ComponentShape(Prompt, prompt);
    SignatureShape(signature);
    var all := Components(structural, thread, prompt, signature);
    ComponentsAre(structural, thread, prompt, signature);
    AssembledIs(structural, thread, prompt, signature);
    if TotalTokens(all) <= BUDGET {
      parts := all;
      WithinBudget(all);
      PromptWithinTotal(s + t, p, g);
      LastIsIn(s + t + p, g);
      r := if all == [] then None else Some(JoinParts(all));
      return;
    }
    var kept, left;
    ghost var extra;
    kept, left, extra := AddPriority(p, g);
    kept, left, extra := AddRest(t, s, kept, left, extra);
    parts := kept;
    if kept == [] {
      return None, parts;
    }
    FinalEstimate(kept, left, extra);
    r := Some(JoinParts(kept));
  }

  lemma AssembledIs(structural: Option<string>, thread: Option<string>, prompt: Option<string>, signature: Option<string>)
    ensures var all := Components(structural, thread, prompt, signature);
            Assembled(structural, thread, prompt, signature) ==
              if TotalTokens(all) <= BUDGET then all
              else Followed(Prioritised(Component(Prompt, prompt), SignaturePart(signature)),
                            Component(ThreadHistory, thread), Component(Structural, structural)).0
  {
    hide Followed;
    hide Prioritised;
    hide Component;
    hide TotalTokens;
  }

  lemma ComponentShape(tier: Tier, text: Option<string>)
    ensures |Component(tier, text)| <= 1 && forall x :: x in Component(tier, text) ==> x.tier == tier
  {
  }

  lemma SignatureShape(signature: Option<string>)
    ensures SignaturePart(signature) == if signature.Some? then [Part(Signature, signature.value)] else []
    ensures TokensOf(SignaturePart(signature)) == if signature.Some? then Estimate(signature.value) else 0
  {
  }

  lemma ComponentsAre(structural: Option<string>, thread: Option<string>, prompt: Option<string>, signature: Option<string>)
    ensures var s, t, p, g := Component(Structural, structural), Component(ThreadHistory, thread), Component(Prompt, prompt), SignaturePart(signature);
            Components(structural, thread, prompt, signature) == s + t + p + g && |s + t + p + g| <= 4
  {
  }

  lemma LastIsIn(front: seq<Part>, g: seq<Part>)
    ensures g != [] ==> g[0] in front + g
  {
    if g != [] {
      assert (front + g)[|front|] == g[0];
    }
  }

  /** The first pass: the prompt content, then the signature, stopping at the first that does not
      fit whole. */
  method AddPriority(p: seq<Part>, g: seq<Part>) returns (kept: seq<Part>, left: int, ghost extra: nat)
    requires |p| <= 1 && |g| <= 1
    requires (p != [] ==> p[0].tier == Prompt) && (g != [] ==> g[0].tier == Signature)
    ensures (kept, left) == Prioritised(p, g)
    ensures Balanced(kept, left, extra) && |kept| <= 2 && (extra == 0 || (left == 0 && extra == 2))
    ensures g != [] && !EndsCut(g[0].text) ==> (g[0] in kept <==> TokensOf(p) + TokensOf(g) <= BUDGET)
    ensures TokensOf(p) > BUDGET ==> forall x :: x in kept ==> x.tier != Signature
  {
    hide Words;
    hide Estimate;
    hide PartWords;
    hide Added;
    NothingSpent();
    if g != [] {
      AtLeastOne(g[0].text);
    }
    kept, left, extra := [], BUDGET, 0;
    var whole := true;
    if p != [] {
      kept, left, whole, extra := AddPart(kept, left, p[0], false, extra);
      assert kept != [] ==> kept[0].tier == Prompt;
    }
    if whole && g != [] {
      ghost var before := kept;
      kept, left, whole, extra := AddPart(kept, left, g[0], false, extra);
      assert whole ==> kept[|before|] == g[0];
    }
  }

  /** The second and third pass: thread history from the top, then structural context, with
      whatever budget is left. */
  method AddRest(t: seq<Part>, s: seq<Part>, first: seq<Part>, left0: int, ghost extra0: nat)
    returns (kept: seq<Part>, left: int, ghost extra: nat)
    requires |t| <= 1 && |s| <= 1
    requires (t != [] ==> t[0].tier != Signature) && (s != [] ==> s[0].tier != Signature)
    requires Balanced(first, left0, extra0) && |first| <= 2 && (extra0 == 0 || (left0 == 0 && extra0 == 2))
    ensures (kept, left) == Followed((first, left0), t, s)
    ensures Balanced(kept, left, extra) && 9 * |kept| + 13 * extra < 80
    ensures first <= kept && forall i :: |first| <= i < |kept| ==> kept[i].tier != Signature
  {
    hide Words;
    hide Estimate;
    hide PartWords;
    hide Added;
    hide Balanced;
    kept, left, extra := first, left0, extra0;
    var whole;
    if left > 0 && t != [] {
      kept, left, whole, extra := AddPart(kept, left, t[0], true, extra);
    }
    assert |kept| <= 3 && (extra == 0 || (left == 0 && extra <= 4));
    if left > 0 && s != [] {
      kept, left, whole, extra := AddPart(kept, left, s[0], false, extra);
    }
  }

  lemma PromptWithinTotal(front: seq<Part>, p: seq<Part>, g: seq<Part>)
    requires |p| <= 1 && |g| <= 1
    ensures TotalTokens(front + p + g) >= TokensOf(p) + TokensOf(g)
    ensures TokensOf(g) >= 0
  {
    if g != [] {
      assert (front + p + g)[..|front + p|] == front + p;
      AtLeastOne(g[0].text);
    } else {
      assert front + p + g == front + p;
    }
    TokensNotNegative(front);
    if p != [] {
      assert (front + p)[..|front|] == front;
    } else {
      assert front + p == front;
    }
  }

  lemma {:induction false} TokensNotNegative(parts: seq<Part>)
    ensures TotalTokens(parts) >= 0
  {
    if parts != [] {
      TokensNotNegative(parts[..|parts| - 1]);
      AtLeastOne(parts[|parts| - 1].text);
    }
  }

  lemma NothingSpent()
    ensures Balanced([], BUDGET, 0)
  {
  }

  lemma FinalEstimate(parts: seq<Part>, left: int, extra: nat)
    requires Balanced(parts, left, extra) && 9 * |parts| + 13 * extra < 80
    ensures Estimate(JoinParts(parts)) <= BUDGET + 6
  {
    hide Words;
    hide PartWords;
    hide JoinParts;
    WordsOfParts(parts);
  }

  lemma {:induction false} TokensCoverWords(parts: seq<Part>)
    ensures 13 * PartWords(parts) <= 10 * TotalTokens(parts) + 9 * |parts|
  {
    hide Words;
    hide Estimate;
    if parts != [] {
      TokensCoverWords(parts[..|parts| - 1]);
      RoundingLoss(parts[|parts| - 1].text, Estimate(parts[|parts| - 1].text));
    }
  }

  lemma WithinBudget(parts: seq<Part>)
    requires TotalTokens(parts) <= BUDGET && |parts| <= 4
    ensures Estimate(JoinParts(parts)) <= BUDGET + 2
  {
    hide Words;
    hide PartWords;
    hide JoinParts;
    hide TotalTokens;
    WordsOfParts(parts);
    TokensCoverWords(parts);
  }
}
