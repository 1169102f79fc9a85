/** When hybrid search lists what both searches found before what only one found: the exact
    condition on the lengths of the two result lists, and what it means for max_results. */
module RankPrecedence {
  import opened RankFusion

  ghost predicate Distinct(list: seq<Item>) {
    forall k :: Occurrences(list, k) <= 1
  }

  predicate InBoth(semantic: seq<Item>, text: seq<Item>, h: Hit) {
    Occurrences(semantic, HitKey(h)) > 0 && Occurrences(text, HitKey(h)) > 0
  }

  /** Every hit found by both searches precedes every hit found by only one. */
  predicate BothFirst(semantic: seq<Item>, text: seq<Item>, hits: seq<Hit>) {
    forall i, j :: 0 <= i < |hits| && 0 <= j < |hits| && InBoth(semantic, text, hits[i]) && !InBoth(semantic, text, hits[j]) ==> i < j
  }

  /** Lengths for which two ranks, however low, outweigh a single one, however high. */
  predicate Short(m: int, n: int) {
    (m - 1) * (n - 1) < 61 * 61
  }

  // ---------------------------------------------------------------- scores

  /** The worst rank in both lists against the best rank in one. */
  lemma TwoRanksBeatOne(m: nat, n: nat)
    ensures Contribution(m) + Contribution(n) > Contribution(1) <==> Short(m, n)
  {
    var x, y := (RRF_K + m) as real, (RRF_K + n) as real;
    assert Contribution(m) + Contribution(n) == (x + y) / (x * y);
    assert Contribution(1) == 1.0 / 61.0;
    FractionAbove(x + y, x * y, 61.0);
    assert x * y == ((60 + m) * (60 + n)) as real;
    assert (60 + m) * (60 + n) - 61 * (120 + m + n) == (m - 1) * (n - 1) - 61 * 61;
  }

  lemma FractionAbove(a: real, b: real, c: real)
    requires b > 0.0 && c > 0.0
    ensures a / b > 1.0 / c <==> a * c > b
  {
    assert a / b - 1.0 / c == (a * c - b) / (b * c);
    assert b * c > 0.0;
    var d := a * c - b;
    assert d / (b * c) * (b * c) == d;
  }

  /** With short lists of distinct keys, both come first. */
  lemma ShortListsKeepOrder(semantic: seq<Item>, text: seq<Item>, maxResults: nat, hits: seq<Hit>, i: nat, j: nat)
    requires IsFusion(semantic, text, maxResults, hits) && i < |hits| && j < |hits|
    requires Short(|semantic|, |text|) && Distinct(semantic) && Distinct(text)
    requires InBoth(semantic, text, hits[i]) && !InBoth(semantic, text, hits[j])
    ensures i < j
  {
    hide RankSum;
    hide Contribution;
    hide Occurrences;
    hide FirstKeys;
    hide IndexOf;
    hide Shown;
    hide Short;
    var a, b := HitKey(hits[i]), HitKey(hits[j]);
    RankSumBounds(semantic, a, |semantic|);
    RankSumBounds(text, a, |text|);
    RankSumBounds(semantic, b, |semantic|);
    RankSumBounds(text, b, |text|);
    TwoRanksBeatOne(|semantic|, |text|);
    assert Occurrences(semantic, b) > 0 || Occurrences(text, b) > 0;
    assert Fused(semantic, text, a) > Fused(semantic, text, b);
    assert !Outranks(semantic, text, b, a);
  }

  // ---------------------------------------------------------------- what a fusion shows

  lemma TallyExists(semantic: seq<Item>, text: seq<Item>) returns (scores: map<Key, real>, items: map<Key, Hit>)
    ensures Tallied(semantic, text, scores, FirstKeys(semantic + text), items)
  {
    hide FirstKeys;
    hide Occurrences;
    hide Fused;
    hide Shown;
    var order := FirstKeys(semantic + text);
    FirstKeysAreThose(semantic + text);
    forall k | k in order ensures Occurrences(semantic, k) > 0 || Occurrences(text, k) > 0 {
      OccurrencesAppend(semantic, text, k);
    }
    scores := map k | k in order :: Fused(semantic, text, k);
    items := map k | k in order :: Shown(semantic, text, k);
  }

  /** Every pair of lists has a fusion. */
  lemma FusionExists(semantic: seq<Item>, text: seq<Item>, maxResults: nat) returns (hits: seq<Hit>)
    ensures IsFusion(semantic, text, maxResults, hits)
  {
    hide FirstKeys;
    hide Occurrences;
    hide Fused;
    hide Shown;
    hide SortDescending;
    hide IsFusion;
    var order := FirstKeys(semantic + text);
    var scores, items := TallyExists(semantic, text);
    var sorted := SortDescending(order, scores);
    var n := if maxResults <= |sorted| then maxResults else |sorted|;
    hits := seq(n, i requires 0 <= i < n => items[sorted[i]]);
    FusionOfTally(semantic, text, maxResults, scores, order, items, hits);
  }

  function HitKeys(hits: seq<Hit>): set<Key> {
    set i | 0 <= i < |hits| :: HitKey(hits[i])
  }

  lemma {:induction false} DistinctHits(hits: seq<Hit>)
    requires forall i, j :: 0 <= i < j < |hits| ==> HitKey(hits[i]) != HitKey(hits[j])
    ensures |HitKeys(hits)| == |hits|
  {
    if hits != [] {
      var front := hits[..|hits| - 1];
      DistinctHits(front);
      forall k ensures k in HitKeys(hits) <==> k in HitKeys(front) || k == HitKey(hits[|hits| - 1]) {
        if k in HitKeys(front) {
          var i :| 0 <= i < |front| && HitKey(front[i]) == k;
          assert HitKey(hits[i]) == k;
        }
        if k in HitKeys(hits) && k != HitKey(hits[|hits| - 1]) {
          var i :| 0 <= i < |hits| && HitKey(hits[i]) == k;
          assert HitKey(front[i]) == k;
        }
        assert k == HitKey(hits[|hits| - 1]) ==> k in HitKeys(hits);
      }
      assert HitKeys(hits) == HitKeys(front) + {HitKey(hits[|hits| - 1])};
    }
  }

  lemma SubsetIsSmaller<T>(a: set<T>, b: set<T>)
    requires a <= b
    ensures |a| <= |b|
  {
    assert b == a + (b - a);
  }


  lemma Asymmetric(semantic: seq<Item>, text: seq<Item>, a: Key, b: Key)
    requires Outranks(semantic, text, a, b)
    ensures !Outranks(semantic, text, b, a)
  {
  }

  /** A key is shown if there is room for all keys, or for all but one and it outranks another. */
  lemma IsShown(semantic: seq<Item>, text: seq<Item>, maxResults: nat, hits: seq<Hit>, k: Key, b: Key) returns (i: nat)
    requires IsFusion(semantic, text, maxResults, hits) && k in FirstKeys(semantic + text)
    requires var n := |FirstKeys(semantic + text)|;
      n <= maxResults || (n <= maxResults + 1 && Outranks(semantic, text, k, b))
    ensures i < |hits| && HitKey(hits[i]) == k
  {
    hide Outranks;
    hide Shown;
    hide FirstKeys;
    hide Occurrences;
    var order := FirstKeys(semantic + text);
    var keys := set x | x in order;
    forall i, j | 0 <= i < j < |hits| ensures HitKey(hits[i]) != HitKey(hits[j]) {
      OutranksKeys(semantic, text, HitKey(hits[i]), HitKey(hits[j]));
    }
    DistinctHits(hits);
    FirstKeysAreThose(semantic + text);
    KeysAreAll(order);
    HitsAreKeys(semantic, text, maxResults, hits);
    if k !in HitKeys(hits) {
      forall i | 0 <= i < |hits| ensures HitKey(hits[i]) != k {
        assert HitKey(hits[i]) in HitKeys(hits);
      }
      SubsetIsSmaller(HitKeys(hits), keys - {k});
      if Outranks(semantic, text, k, b) {
        OutranksKeys(semantic, text, k, b);
        Asymmetric(semantic, text, k, b);
        assert b !in HitKeys(hits);
        SubsetIsSmaller(HitKeys(hits), keys - {k} - {b});
      }
      assert false;
    }
    var j :| 0 <= j < |hits| && HitKey(hits[j]) == k;
    i := j;
  }

  lemma OutranksKeys(semantic: seq<Item>, text: seq<Item>, a: Key, b: Key)
    requires Outranks(semantic, text, a, b)
    ensures a != b && a in FirstKeys(semantic + text) && b in FirstKeys(semantic + text)
  {
  }

  lemma {:induction false} KeysAreAll(keys: seq<Key>)
    requires NoDuplicates(keys)
    ensures |set k | k in keys| == |keys|
  {
    if keys != [] {
      var front, last := keys[..|keys| - 1], keys[|keys| - 1];
      KeysAreAll(front);
      assert (set k | k in keys) == (set k | k in front) + {last};
    }
  }

  lemma HitsAreKeys(semantic: seq<Item>, text: seq<Item>, maxResults: nat, hits: seq<Hit>)
    requires IsFusion(semantic, text, maxResults, hits)
    ensures HitKeys(hits) <= set k | k in FirstKeys(semantic + text)
  {
    hide Outranks;
    hide Shown;
    FirstKeysAreThose(semantic + text);
    hide FirstKeys;
    forall i | 0 <= i < |hits| ensures HitKey(hits[i]) in FirstKeys(semantic + text) {
      OccurrencesAppend(semantic, text, HitKey(hits[i]));
    }
  }

  // ---------------------------------------------------------------- lists that break the order

  /** A list of n rows of one file. */
  function Column(n: nat): seq<Item> {
    if n == 0 then [] else Column(n - 1) + [Item("k", n, "")]
  }

  lemma {:induction false} ColumnRanks(n: nat, k: Key)
    ensures |Column(n)| == n
    ensures Occurrences(Column(n), k) == if k.0 == "k" && 1 <= k.1 <= n then 1 else 0
    ensures k.0 == "k" && 1 <= k.1 <= n ==> RankSum(Column(n), k) == Contribution(k.1)
  {
    hide Contribution;
    hide Occurrences;
    hide RankSum;
    NothingRanked(k);
    if n > 0 {
      ColumnRanks(n - 1, k);
      Snoc(Column(n - 1), Item("k", n, ""), k);
      if k == ("k", n) {
        NoRank(Column(n - 1), k);
      }
    }
  }

  lemma {:induction false} RankSumPrefix(a: seq<Item>, b: seq<Item>, k: Key)
    requires Occurrences(b, k) == 0
    ensures RankSum(a + b, k) == RankSum(a, k)
  {
    if b == [] {
      assert a + b == a;
    } else {
      RankSumPrefix(a, b[..|b| - 1], k);
      assert (a + b)[..|a + b| - 1] == a + b[..|b| - 1];
    }
  }

  const ONE := Item("x", 0, "")
  const BOTH := Item("c", 0, "")

  /** A key of rank 1 here only, shared rows, and a key that is last here and there. */
  function SemanticRows(m: nat): seq<Item>
    requires m >= 2
  {
    [ONE] + Column(m - 2) + [BOTH]
  }

  function TextRows(n: nat): seq<Item>
    requires n >= 1
  {
    Column(n - 1) + [BOTH]
  }

  lemma SemanticOccurrences(m: nat, k: Key)
    requires m >= 2
    ensures |SemanticRows(m)| == m
    ensures Occurrences([ONE] + Column(m - 2), k) == if k == KeyOf(ONE) || (k.0 == "k" && 1 <= k.1 <= m - 2) then 1 else 0
    ensures Occurrences(SemanticRows(m), k) == if k == KeyOf(ONE) || k == KeyOf(BOTH) || (k.0 == "k" && 1 <= k.1 <= m - 2) then 1 else 0
  {
    hide Occurrences;
    NothingRanked(k);
    Snoc([], ONE, k);
    assert [] + [ONE] == [ONE];
    OccurrencesAppend([ONE], Column(m - 2), k);
    ColumnRanks(m - 2, k);
    Snoc([ONE] + Column(m - 2), BOTH, k);
  }

  lemma TextOccurrences(n: nat, k: Key)
    requires n >= 1
    ensures |TextRows(n)| == n
    ensures Occurrences(TextRows(n), k) == if k == KeyOf(BOTH) || (k.0 == "k" && 1 <= k.1 <= n - 1) then 1 else 0
  {
    hide Occurrences;
    ColumnRanks(n - 1, k);
    Snoc(Column(n - 1), BOTH, k);
  }

  lemma SemanticScores(m: nat)
    requires m >= 2
    ensures RankSum(SemanticRows(m), KeyOf(ONE)) == Contribution(1)
    ensures RankSum(SemanticRows(m), KeyOf(BOTH)) == Contribution(m)
  {
    hide Contribution;
    hide Occurrences;
    hide RankSum;
    var front := [ONE] + Column(m - 2);
    SemanticOccurrences(m, KeyOf(ONE));
    SemanticOccurrences(m, KeyOf(BOTH));
    Snoc(front, BOTH, KeyOf(ONE));
    Snoc(front, BOTH, KeyOf(BOTH));
    NoRank(front, KeyOf(BOTH));
    NothingRanked(KeyOf(ONE));
    Snoc([], ONE, KeyOf(ONE));
    assert [] + [ONE] == [ONE];
    ColumnRanks(m - 2, KeyOf(ONE));
    RankSumPrefix([ONE], Column(m - 2), KeyOf(ONE));
  }

  lemma TextScores(n: nat)
    requires n >= 1
    ensures RankSum(TextRows(n), KeyOf(ONE)) == 0.0
    ensures RankSum(TextRows(n), KeyOf(BOTH)) == Contribution(n)
    ensures n >= 2 ==> RankSum(TextRows(n), ("k", n - 1)) == Contribution(n - 1)
  {
    hide Contribution;
    hide Occurrences;
    hide RankSum;
    TextOccurrences(n, KeyOf(ONE));
    NoRank(TextRows(n), KeyOf(ONE));
    ColumnRanks(n - 1, KeyOf(BOTH));
    NoRank(Column(n - 1), KeyOf(BOTH));
    Snoc(Column(n - 1), BOTH, KeyOf(BOTH));
    if n >= 2 {
      ColumnRanks(n - 1, ("k", n - 1));
      Snoc(Column(n - 1), BOTH, ("k", n - 1));
    }
  }

  lemma {:induction false} FirstKeyLeads(list: seq<Item>)
    requires list != []
    ensures FirstKeys(list) != [] && FirstKeys(list)[0] == KeyOf(list[0])
  {
    if |list| > 1 {
      FirstKeyLeads(list[..|list| - 1]);
    } else {
      assert FirstKeys(list[..0]) == [];
    }
  }

  /** The key found once outranks the key found twice. */
  lemma OneOutranksBoth(m: nat, n: nat)
    requires m >= 2 && n >= 1 && !Short(m, n)
    ensures Outranks(SemanticRows(m), TextRows(n), KeyOf(ONE), KeyOf(BOTH))
  {
    hide Contribution;
    hide Occurrences;
    hide RankSum;
    hide FirstKeys;
    hide Short;
    var list := SemanticRows(m) + TextRows(n);
    SemanticScores(m);
    TextScores(n);
    TwoRanksBeatOne(m, n);
    FirstKeysAreThose(list);
    SemanticOccurrences(m, KeyOf(ONE));
    SemanticOccurrences(m, KeyOf(BOTH));
    OccurrencesAppend(SemanticRows(m), TextRows(n), KeyOf(ONE));
    OccurrencesAppend(SemanticRows(m), TextRows(n), KeyOf(BOTH));
    FirstKeyLeads(list);
    assert list[0] == ONE;
  }

  /** When the text list is the longer one, its last shared row is below the key found twice. */
  lemma BothOutranksLast(m: nat, n: nat)
    requires 2 <= m <= n
    ensures Outranks(SemanticRows(m), TextRows(n), KeyOf(BOTH), ("k", n - 1))
  {
    hide Contribution;
    hide Occurrences;
    hide RankSum;
    hide FirstKeys;
    var last := ("k", n - 1);
    SemanticScores(m);
    TextScores(n);
    SemanticOccurrences(m, last);
    SemanticOccurrences(m, KeyOf(BOTH));
    TextOccurrences(n, last);
    NoRank(SemanticRows(m), last);
    FirstKeysAreThose(SemanticRows(m) + TextRows(n));
    OccurrencesAppend(SemanticRows(m), TextRows(n), last);
    OccurrencesAppend(SemanticRows(m), TextRows(n), KeyOf(BOTH));
    StepIsSmall(m, n);
  }

  lemma StepIsSmall(m: nat, n: nat)
    requires 1 <= m <= n
    ensures Contribution(m) + Contribution(n) > Contribution(n - 1)
  {
    var y := (RRF_K + n) as real;
    ContributionFalls(m, n);
    FractionAbove(2.0, y, y - 1.0);
    assert Contribution(n) + Contribution(n) == 2.0 / y;
    assert Contribution(n - 1) == 1.0 / (y - 1.0);
  }

  lemma {:induction false} KnownRowsAddNoKey(a: seq<Item>, b: seq<Item>)
    requires forall i :: 0 <= i < |b| ==> KeyOf(b[i]) in FirstKeys(a)
    ensures FirstKeys(a + b) == FirstKeys(a)
  {
    if b == [] {
      assert a + b == a;
    } else {
      KnownRowsAddNoKey(a, b[..|b| - 1]);
      assert (a + b)[..|a + b| - 1] == a + b[..|b| - 1];
    }
  }

  lemma {:induction false} RowsAddKeys(a: seq<Item>, b: seq<Item>)
    ensures |FirstKeys(a + b)| <= |FirstKeys(a)| + |b|
  {
    if b == [] {
      assert a + b == a;
    } else {
      RowsAddKeys(a, b[..|b| - 1]);
      assert (a + b)[..|a + b| - 1] == a + b[..|b| - 1];
    }
  }

  lemma {:induction false} ColumnAt(n: nat, p: nat)
    requires p <= n
    ensures |Column(n)| == n && Column(p) == Column(n)[..p]
    ensures forall i :: 0 <= i < n ==> Column(n)[i] == Item("k", i + 1, "")
  {
    if n > 0 {
      if p < n {
        ColumnAt(n - 1, p);
      } else {
        ColumnAt(n - 1, n - 1);
      }
    }
  }

  lemma SharedRowsAddNoKey(m: nat, p: nat)
    requires m >= 2 && p <= m - 2
    ensures FirstKeys(SemanticRows(m) + Column(p)) == FirstKeys(SemanticRows(m)) && |FirstKeys(SemanticRows(m))| <= m
    ensures KeyOf(BOTH) in FirstKeys(SemanticRows(m))
  {
    hide *;
    var a := SemanticRows(m);
    FirstKeysAreThose(a);
    ColumnAt(p, p);
    forall i | 0 <= i < |Column(p)| ensures KeyOf(Column(p)[i]) in FirstKeys(a) {
      RowKey(i);
      SemanticOccurrences(m, ("k", i + 1));
    }
    KnownRowsAddNoKey(a, Column(p));
    RowsAddKeys([], a);
    NoKeys();
    assert [] + a == a;
    SemanticOccurrences(m, KeyOf(BOTH));
  }

  lemma RowKey(i: nat)
    ensures KeyOf(Item("k", i + 1, "")) == ("k", i + 1)
  {
  }

  lemma {:induction false} KeysStay(a: seq<Item>, b: seq<Item>, k: Key)
    requires k in FirstKeys(a)
    ensures k in FirstKeys(a + b)
  {
    hide *;
    FirstKeysAreThose(a);
    FirstKeysAreThose(a + b);
    OccurrencesAppend(a, b, k);
  }

  /** The two lists share so many rows that their keys fit, or fit but for one. */
  lemma FewKeys(m: nat, n: nat)
    requires m >= 2 && n >= 2
    ensures |FirstKeys(SemanticRows(m) + TextRows(n))| <= if n < m then m else n + 1
  {
    hide *;
    var p := if n < m then n - 1 else m - 2;
    ColumnAt(n - 1, p);
    var a, shared, rest := SemanticRows(m), Column(p), Column(n - 1)[p..];
    SharedRowsAddNoKey(m, p);
    RowsAddKeys(a + shared, rest);
    KeysStay(a + shared, rest, KeyOf(BOTH));
    FirstKeysSnoc(a + shared + rest, BOTH);
    TextIs(n);
    assert a + TextRows(n) == a + shared + rest + [BOTH];
  }

  lemma TextIs(n: nat)
    requires n >= 1
    ensures TextRows(n) == Column(n - 1) + [BOTH]
  {
  }

  lemma NoKeys()
    ensures FirstKeys([]) == []
  {
  }

  /** For lists that are not short, and any max_results the lists could have been asked for with,
      some output lists a hit found once before a hit found by both. */
  lemma OneCanPrecedeBoth(m: nat, n: nat, maxResults: nat)
    returns (semantic: seq<Item>, text: seq<Item>, hits: seq<Hit>, i: nat, j: nat)
    requires !Short(m, n) && m <= maxResults && n <= maxResults
    ensures |semantic| == m && |text| == n && Distinct(semantic) && Distinct(text)
    ensures IsFusion(semantic, text, maxResults, hits)
    ensures i < j < |hits| && !InBoth(semantic, text, hits[i]) && InBoth(semantic, text, hits[j])
  {
    hide FirstKeys;
    hide Occurrences;
    hide Shown;
    hide Outranks;
    if m <= 1 || n <= 1 {
      OneRowIsShort(m, n);
    }
    hide Short;
    semantic, text := SemanticRows(m), TextRows(n);
    forall k ensures Occurrences(semantic, k) <= 1 && Occurrences(text, k) <= 1 {
      SemanticOccurrences(m, k);
      TextOccurrences(n, k);
    }
    SemanticOccurrences(m, KeyOf(ONE));
    TextOccurrences(n, KeyOf(ONE));
    SemanticOccurrences(m, KeyOf(BOTH));
    TextOccurrences(n, KeyOf(BOTH));
    hits := FusionExists(semantic, text, maxResults);
    FewKeys(m, n);
    OneOutranksBoth(m, n);
    OutranksKeys(semantic, text, KeyOf(ONE), KeyOf(BOTH));
    if m <= n {
      BothOutranksLast(m, n);
    }
    i := IsShown(semantic, text, maxResults, hits, KeyOf(ONE), KeyOf(BOTH));
    j := IsShown(semantic, text, maxResults, hits, KeyOf(BOTH), ("k", n - 1));
    Asymmetric(semantic, text, KeyOf(ONE), KeyOf(BOTH));
  }

  lemma OneRowIsShort(m: nat, n: nat)
    requires m <= 1 || n <= 1
    ensures Short(m, n)
  {
    assert (m - 1) * (n - 1) <= 1;
  }

  // ---------------------------------------------------------------- main results

  /** The lists have distinct keys and the hits are their fusion. */
  ghost predicate Searched(semantic: seq<Item>, text: seq<Item>, maxResults: nat, hits: seq<Hit>) {
    Distinct(semantic) && Distinct(text) && IsFusion(semantic, text, maxResults, hits)
  }

  /** The exact condition on the lengths: in the outputs of all searches with m semantic and n text
      rows of distinct keys, what both found precedes what one found, if and only if
      (m - 1)(n - 1) < 61 * 61. This holds for every max_results that admits such lists. */
  lemma PrecedenceIff(m: nat, n: nat, maxResults: nat)
    requires m <= maxResults && n <= maxResults
    ensures (forall semantic, text, hits :: |semantic| == m && |text| == n && Searched(semantic, text, maxResults, hits) ==>
               BothFirst(semantic, text, hits)) <==> Short(m, n)
  {
    if Short(m, n) {
      forall semantic, text, hits | |semantic| == m && |text| == n && Searched(semantic, text, maxResults, hits)
        ensures BothFirst(semantic, text, hits)
      {
        forall i, j | 0 <= i < |hits| && 0 <= j < |hits| && InBoth(semantic, text, hits[i]) && !InBoth(semantic, text, hits[j])
          ensures i < j
        {
          ShortListsKeepOrder(semantic, text, maxResults, hits, i, j);
        }
      }
    } else {
      var semantic, text, hits, i, j := OneCanPrecedeBoth(m, n, maxResults);
      assert Searched(semantic, text, maxResults, hits);
    }
  }

  /** For max_results, which also bounds the lengths of both lists, the threshold is 61. */
  lemma MaxResultsThreshold(maxResults: nat)
    ensures (forall semantic, text, hits :: |semantic| <= maxResults && |text| <= maxResults && Searched(semantic, text, maxResults, hits) ==>
               BothFirst(semantic, text, hits)) <==> maxResults <= 61
  {
    if maxResults <= 61 {
      forall semantic, text, hits | |semantic| <= maxResults && |text| <= maxResults && Searched(semantic, text, maxResults, hits)
        ensures BothFirst(semantic, text, hits)
      {
        ShortWithin61(|semantic|, |text|);
        PrecedenceIff(|semantic|, |text|, maxResults);
      }
    } else {
      assert !Short(62, 62);
      var semantic, text, hits, i, j := OneCanPrecedeBoth(62, 62, maxResults);
      assert Searched(semantic, text, maxResults, hits);
    }
  }

  lemma ShortWithin61(m: nat, n: nat)
    requires m <= 61 && n <= 61
    ensures Short(m, n)
  {
    if m >= 1 && n >= 1 {
      assert (m - 1) * (n - 1) <= 60 * (n - 1);
    } else {
      assert (m - 1) * (n - 1) <= 1;
    }
  }
}
