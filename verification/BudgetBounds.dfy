/** The bounds on the assembled prompt are exact: components that attain them, next to any signature
    instruction of 46 words, which is how many the instruction has around its link. */
module BudgetBounds {
  import opened PromptBudget
  import opened Text
  import opened Wrappers

  /** A line of n words. */
  function Line(n: nat): string {
    if n <= 1 then "a" else Line(n - 1) + " " + "a"
  }

  lemma {:induction false} LineFacts(n: nat)
    requires n >= 1
    ensures Words(Line(n)) == n && '\n' !in Line(n)
    ensures Line(n) != "" && Line(n)[0] == 'a' && Line(n)[|Line(n)| - 1] == 'a'
  {
    hide Words;
    hide IsSpace;
    SpacesAndSolids();
    OneWord();
    if n > 1 {
      LineFacts(n - 1);
      WordsApart(Line(n - 1), ' ', "a");
      assert Line(n) == Line(n - 1) + [' '] + "a";
    }
  }

  lemma OneWord()
    ensures Words("a") == 1
  {
    WordsOfSolid("a");
  }

  /** A text of w words that neither begins nor ends with whitespace is its own component. */
  lemma OwnComponent(tier: Tier, text: string)
    requires text != "" && text[0] == 'a' && text[|text| - 1] == 'a'
    ensures Component(tier, Some(text)) == [Part(tier, text)]
  {
    assert Strip(text) == text;
  }

  lemma EstimateOf(text: string, w: nat)
    requires Words(text) == w && w >= 1
    ensures Estimate(text) == w * 13 / 10
  {
    hide Words;
  }

  lemma JoinedEstimate(parts: seq<Part>, w: nat)
    requires PartWords(parts) == w && w >= 1
    ensures Estimate(JoinParts(parts)) == w * 13 / 10
  {
    hide Words;
    hide JoinParts;
    WordsOfParts(parts);
  }

  lemma TotalsSnoc(parts: seq<Part>, p: Part)
    ensures PartWords(parts + [p]) == PartWords(parts) + Words(p.text)
    ensures TotalTokens(parts + [p]) == TotalTokens(parts) + Estimate(p.text)
  {
    assert (parts + [p])[..|parts|] == parts;
  }

  lemma BudgetIs()
    ensures BUDGET == 12_000
  {
  }

  lemma NoParts()
    ensures PartWords([]) == 0 && TotalTokens([]) == 0
  {
  }

  /** Four parts that fit whole, each rounded down, and 2 tokens over when joined. n is 9181. */
  lemma WholeBoundIsAttained(signature: string, n: nat)
    requires Words(signature) == 46 && n == 9181
    ensures var (s, t, p, g) := (Some(Line(3)), Some(Line(3)), Some(Line(n)), Some(signature));
            && TotalTokens(Components(s, t, p, g)) <= BUDGET
            && Assembled(s, t, p, g) != []
            && Estimate(JoinParts(Assembled(s, t, p, g))) == BUDGET + 2
  {
    hide *;
    BudgetIs();
    LineFacts(3);
    LineFacts(n);
    OwnComponent(Structural, Line(3));
    OwnComponent(ThreadHistory, Line(3));
    OwnComponent(Prompt, Line(n));
    SignatureShape(Some(signature));
    ComponentsAre(Some(Line(3)), Some(Line(3)), Some(Line(n)), Some(signature));
    AssembledIs(Some(Line(3)), Some(Line(3)), Some(Line(n)), Some(signature));
    EstimateOf(Line(3), 3);
    EstimateOf(Line(n), n);
    EstimateOf(signature, 46);
    var s, t, p, g := Part(Structural, Line(3)), Part(ThreadHistory, Line(3)), Part(Prompt, Line(n)), Part(Signature, signature);
    NoParts();
    TotalsSnoc([], s);
    TotalsSnoc([] + [s], t);
    TotalsSnoc([] + [s] + [t], p);
    TotalsSnoc([] + [s] + [t] + [p], g);
    assert [] + [s] + [t] + [p] + [g] == [s] + [t] + [p] + [g];
    JoinedEstimate([s] + [t] + [p] + [g], 9233);
  }

  /** Two lines, of which only the last fits. */
  function TwoLines(n: nat): string {
    "a" + "\n" + Line(n)
  }

  lemma TwoLinesFacts(n: nat)
    requires n >= 1
    ensures Words(TwoLines(n)) == n + 1 && Split(TwoLines(n), '\n') == ["a", Line(n)]
    ensures Component(ThreadHistory, Some(TwoLines(n))) == [Part(ThreadHistory, TwoLines(n))]
  {
    hide Words;
    hide Line;
    hide Split;
    hide IsSpace;
    hide Strip;
    hide Component;
    LineFacts(n);
    OneWord();
    SpacesAndSolids();
    assert TwoLines(n) == "a" + ['\n'] + Line(n);
    WordsApart("a", '\n', Line(n));
    SplitLastPiece("a", Line(n), '\n');
    SplitOfPiece("a", '\n');
    OwnComponent(ThreadHistory, TwoLines(n));
  }

  lemma TruncatedTwoLines(n: nat, left: int)
    requires n >= 1 && n * 13 / 10 <= left < (n + 1) * 13 / 10
    ensures Truncated(TwoLines(n), left, true) == Some(TOP_MARKER + Line(n))
    ensures Estimate(TwoLines(n)) > left
    ensures Words(TOP_MARKER + Line(n)) == n + 4
  {
    hide Words;
    hide Line;
    hide TwoLines;
    hide Split;
    hide Estimate;
    hide Longest;
    LineFacts(n);
    TwoLinesFacts(n);
    EstimateOf(Line(n), n);
    EstimateOf(TwoLines(n), n + 1);
    var lines := ["a", Line(n)];
    WholeTextFits(TwoLines(n), true, left);
    assert Kept(lines, 1, true) == [Line(n)];
    assert Fits(lines, 1, true, left) && !Fits(lines, 2, true, left);
    LongestIsOne(lines, left);
    MarkerWords(Line(n));
  }

  lemma LongestIsOne(lines: seq<string>, left: int)
    requires |lines| == 2 && Fits(lines, 1, true, left) && !Fits(lines, 2, true, left)
    ensures Longest(lines, 0, true, left) == 1
  {
    hide Fits;
    assert Longest(lines, 1, true, left) == 1;
  }

  /** Prompt and signature whole, and a thread cut from the top: 6 tokens over. n is 9183. */
  lemma CutBoundIsAttained(signature: string, n: nat)
    requires Words(signature) == 46 && n == 9183
    ensures var (s, t, p, g) := (None, Some(TwoLines(n)), Some(Line(3)), Some(signature));
            && Assembled(s, t, p, g) != []
            && Estimate(JoinParts(Assembled(s, t, p, g))) == BUDGET + 6
  {
    hide *;
    BudgetIs();
    LineFacts(3);
    TwoLinesFacts(n);
    OwnComponent(Prompt, Line(3));
    SignatureShape(Some(signature));
    NoComponent();
    ComponentsAre(None, Some(TwoLines(n)), Some(Line(3)), Some(signature));
    AssembledIs(None, Some(TwoLines(n)), Some(Line(3)), Some(signature));
    EstimateOf(Line(3), 3);
    EstimateOf(signature, 46);
    EstimateOf(TwoLines(n), n + 1);
    var t, p, g := Part(ThreadHistory, TwoLines(n)), Part(Prompt, Line(3)), Part(Signature, signature);
    NoParts();
    TotalsSnoc([], t);
    TotalsSnoc([] + [t], p);
    TotalsSnoc([] + [t] + [p], g);
    assert [] + [t] + [p] + [g] == [] + [t] + [p] + [g];
    TruncatedTwoLines(n, 11938);
    var cut := Part(ThreadHistory, TOP_MARKER + Line(n));
    Passes(p, g, t, cut);
    TotalsSnoc([], p);
    TotalsSnoc([] + [p], g);
    TotalsSnoc([] + [p] + [g], cut);
    assert [] + [p] + [g] + [cut] == [p, g, cut];
    JoinedEstimate([p, g, cut], 9236);
  }

  lemma NoComponent()
    ensures Component(Structural, None) == []
  {
  }

  /** Prompt and signature fit whole, and the thread is cut. */
  lemma Passes(p: Part, g: Part, t: Part, cut: Part)
    requires Estimate(p.text) == 3 && Estimate(g.text) == 59 && Estimate(t.text) > 11938
    requires Truncated(t.text, 11938, true) == Some(cut.text) && cut.tier == t.tier
    ensures Followed(Prioritised([p], [g]), [t], []) == ([p, g, cut], 0)
  {
    hide Truncated;
    hide Estimate;
    hide Added;
    AddedWhole([], BUDGET, p, false);
    AddedWhole([p], 11997, g, false);
    assert [] + [p] == [p] && [p] + [g] == [p, g] && [p, g] + [cut] == [p, g, cut];
    assert Prioritised([p], [g]) == ([p, g], 11938);
    AddedCut([p, g], 11938, t, cut.text);
  }

  lemma AddedWhole(parts: seq<Part>, left: int, p: Part, fromTop: bool)
    requires Estimate(p.text) <= left
    ensures Added(parts, left, p, fromTop) == (parts + [p], left - Estimate(p.text))
  {
  }

  lemma AddedCut(parts: seq<Part>, left: int, p: Part, cut: string)
    requires Estimate(p.text) > left && Truncated(p.text, left, true) == Some(cut)
    ensures Added(parts, left, p, true) == (parts + [Part(p.tier, cut)], 0)
  {
    hide Truncated;
  }
}
