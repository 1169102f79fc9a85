/** Hybrid search of mcp_servers/codebase_tools/tools.py: two ranked result lists fused by
    Reciprocal Rank Fusion. Scores are exact reals. */
module RankFusion {

  type Key = (string, int)

  datatype Item = Item(file: string, line: int, body: string)

  datatype Source = Semantic | Text | Hybrid

  datatype Hit = Hit(item: Item, source: Source)

  function KeyOf(r: Item): Key {
    (r.file, r.line)
  }

  const RRF_K := 60

  function Contribution(rank: nat): real {
    1.0 / (RRF_K + rank) as real
  }

  // ---------------------------------------------------------------- specification

  /** The sum of the contributions of a key's ranks in one list. */
  function RankSum(list: seq<Item>, k: Key): real {
    if list == [] then 0.0
    else RankSum(list[..|list| - 1], k) + (if KeyOf(list[|list| - 1]) == k then Contribution(|list|) else 0.0)
  }

  function Fused(semantic: seq<Item>, text: seq<Item>, k: Key): real {
    RankSum(semantic, k) + RankSum(text, k)
  }

  /** The keys of a list, each at its first occurrence. */
  function FirstKeys(list: seq<Item>): seq<Key> {
    if list == [] then []
    else
      var keys, k := FirstKeys(list[..|list| - 1]), KeyOf(list[|list| - 1]);
      if k in keys then keys else keys + [k]
  }

  function Occurrences(list: seq<Item>, k: Key): nat {
    if list == [] then 0
    else Occurrences(list[..|list| - 1], k) + (if KeyOf(list[|list| - 1]) == k then 1 else 0)
  }

  function LastWith(list: seq<Item>, k: Key): Item
    requires Occurrences(list, k) > 0
  {
    if KeyOf(list[|list| - 1]) == k then list[|list| - 1] else LastWith(list[..|list| - 1], k)
  }

  function FirstWith(list: seq<Item>, k: Key): Item
    requires Occurrences(list, k) > 0
  {
    if Occurrences(list[..|list| - 1], k) > 0 then FirstWith(list[..|list| - 1], k) else list[|list| - 1]
  }

  /** What is shown for a key: the last semantic row with it, else the first text row; labelled
      hybrid if the key is in both lists, or twice in the text list. */
  function Shown(semantic: seq<Item>, text: seq<Item>, k: Key): Hit
    requires Occurrences(semantic, k) > 0 || Occurrences(text, k) > 0
  {
    if Occurrences(semantic, k) > 0
    then Hit(LastWith(semantic, k), if Occurrences(text, k) > 0 then Hybrid else Semantic)
    else Hit(FirstWith(text, k), if Occurrences(text, k) > 1 then Hybrid else Text)
  }

  predicate NoDuplicates(keys: seq<Key>) {
    forall i, j :: 0 <= i < j < |keys| ==> keys[i] != keys[j]
  }

  lemma {:induction false} FirstKeysAreThose(list: seq<Item>)
    ensures NoDuplicates(FirstKeys(list))
    ensures forall k :: k in FirstKeys(list) <==> Occurrences(list, k) > 0
  {
    if list != [] {
      FirstKeysAreThose(list[..|list| - 1]);
    }
  }

  /** The keys of the first rows come first: the order is that of first occurrences. */
  lemma {:induction false} FirstKeysInOrder(list: seq<Item>, i: nat)
    requires i <= |list|
    ensures FirstKeys(list[..i]) <= FirstKeys(list)
    ensures forall k :: k in FirstKeys(list[..i]) <==> exists j :: 0 <= j < i && KeyOf(list[j]) == k
  {
    if i == |list| {
      assert list[..i] == list;
      if i > 0 {
        var n := i - 1;
        FirstKeysInOrder(list[..n], n);
        assert list[..n][..n] == list[..n];
        forall k ensures k in FirstKeys(list) <==> exists j :: 0 <= j < i && KeyOf(list[j]) == k {
          if k in FirstKeys(list[..n]) {
            var j :| 0 <= j < n && KeyOf(list[..n][j]) == k;
            assert KeyOf(list[j]) == k;
          }
          if j :| 0 <= j < n && KeyOf(list[j]) == k {
            assert KeyOf(list[..n][j]) == k;
          }
        }
      }
    } else {
      var n := |list| - 1;
      FirstKeysInOrder(list[..n], i);
      assert list[..n][..i] == list[..i];
      forall j | 0 <= j < i ensures list[..n][j] == list[j] {
      }
    }
  }

  // ---------------------------------------------------------------- the stable descending sort

  function IndexOf(order: seq<Key>, k: Key): nat
    requires k in order
  {
    if order[0] == k then 0 else 1 + IndexOf(order[1..], k)
  }

  lemma {:induction false} IndexOfPrefix(a: seq<Key>, b: seq<Key>, k: Key)
    requires k in a
    ensures k in a + b && IndexOf(a + b, k) == IndexOf(a, k) < |a|
  {
    if a[0] != k {
      assert (a + b)[1..] == a[1..] + b;
      IndexOfPrefix(a[1..], b, k);
    }
  }

  lemma {:induction false} IndexOfLast(a: seq<Key>, k: Key)
    requires k !in a
    ensures IndexOf(a + [k], k) == |a|
  {
    if a != [] {
      assert (a + [k])[1..] == a[1..] + [k];
      IndexOfLast(a[1..], k);
    }
  }

  function Insert(keys: seq<Key>, e: Key, scores: map<Key, real>): seq<Key>
    requires e in scores && forall k :: k in keys ==> k in scores
  {
    if keys == [] || scores[keys[|keys| - 1]] >= scores[e] then keys + [e]
    else Insert(keys[..|keys| - 1], e, scores) + [keys[|keys| - 1]]
  }

  lemma {:induction false} InsertKeepsKeys(keys: seq<Key>, e: Key, scores: map<Key, real>)
    requires e in scores && forall k :: k in keys ==> k in scores
    ensures multiset(Insert(keys, e, scores)) == multiset(keys) + multiset{e}
    ensures forall k :: k in Insert(keys, e, scores) <==> k in keys || k == e
  {
    if keys != [] && scores[keys[|keys| - 1]] < scores[e] {
      InsertKeepsKeys(keys[..|keys| - 1], e, scores);
      assert keys == keys[..|keys| - 1] + [keys[|keys| - 1]];
    }
  }

  /** Python's sorted(order, key=score, reverse=True), which keeps the order of equal scores. */
  function SortDescending(order: seq<Key>, scores: map<Key, real>): (r: seq<Key>)
    requires forall k :: k in order ==> k in scores
    ensures forall k :: k in r <==> k in order
  {
    if order == [] then []
    else
      var front := SortDescending(order[..|order| - 1], scores);
      InsertKeepsKeys(front, order[|order| - 1], scores);
      Insert(front, order[|order| - 1], scores)
  }

  /** a comes before b: a higher score, or the same score and an earlier first appearance. */
  predicate Before(order: seq<Key>, scores: map<Key, real>, a: Key, b: Key) {
    && a in scores && b in scores && a in order && b in order
    && (scores[a] > scores[b] || (scores[a] == scores[b] && IndexOf(order, a) < IndexOf(order, b)))
  }

  predicate Ordered(order: seq<Key>, scores: map<Key, real>, r: seq<Key>) {
    forall i, j :: 0 <= i < j < |r| ==> Before(order, scores, r[i], r[j])
  }

  lemma {:induction false} InsertKeepsOrdered(order: seq<Key>, scores: map<Key, real>, keys: seq<Key>, e: Key)
    requires Ordered(order, scores, keys) && e in scores && e in order
    requires forall k :: k in keys ==> k in scores && k in order && IndexOf(order, k) < IndexOf(order, e)
    ensures Ordered(order, scores, Insert(keys, e, scores))
  {
    hide IndexOf;
    if keys == [] || scores[keys[|keys| - 1]] >= scores[e] {
      forall i | 0 <= i < |keys| ensures Before(order, scores, keys[i], e) {
        if i < |keys| - 1 { assert Before(order, scores, keys[i], keys[|keys| - 1]); }
      }
    } else {
      var front, last := keys[..|keys| - 1], keys[|keys| - 1];
      InsertKeepsOrdered(order, scores, front, e);
      InsertKeepsKeys(front, e, scores);
      var r := Insert(front, e, scores);
      forall i | 0 <= i < |r| ensures Before(order, scores, r[i], last) {
        assert r[i] in r;
        if r[i] != e {
          var k :| 0 <= k < |front| && front[k] == r[i];
          assert Before(order, scores, keys[k], keys[|keys| - 1]);
        }
      }
    }
  }

  lemma {:induction false} SortIsOrdered(order: seq<Key>, scores: map<Key, real>, n: nat)
    requires NoDuplicates(order) && n <= |order| && forall k :: k in order ==> k in scores
    ensures Ordered(order, scores, SortDescending(order[..n], scores))
    ensures multiset(SortDescending(order[..n], scores)) == multiset(order[..n])
  {
    hide IndexOf;
    hide Insert;
    hide Before;
    if n > 0 {
      SortIsOrdered(order, scores, n - 1);
      var front, e := order[..n - 1], order[n - 1];
      assert order[..n][..n - 1] == front && order[..n] == front + [e];
      var keys := SortDescending(front, scores);
      assert order == front + ([e] + order[n..]);
      forall k | k in keys ensures k in order && IndexOf(order, k) < n - 1 {
        IndexOfPrefix(front, [e] + order[n..], k);
      }
      assert order == order[..n] + order[n..];
      IndexOfLast(front, e);
      IndexOfPrefix(order[..n], order[n..], e);
      InsertKeepsOrdered(order, scores, keys, e);
      InsertKeepsKeys(keys, e, scores);
    }
  }

  // ---------------------------------------------------------------- the fusion loops

  /** The three dictionaries after the rows of both lists: `order` is the insertion order. */
  ghost predicate Tallied(semantic: seq<Item>, text: seq<Item>, scores: map<Key, real>, order: seq<Key>, items: map<Key, Hit>) {
    && order == FirstKeys(semantic + text)
    && (forall k :: k in scores <==> k in order)
    && (forall k :: k in items <==> k in order)
    && (forall k :: k in order ==> Occurrences(semantic, k) > 0 || Occurrences(text, k) > 0)
    && (forall k :: k in order ==> scores[k] == Fused(semantic, text, k) && items[k] == Shown(semantic, text, k))
  }

  function Score(scores: map<Key, real>, k: Key): real {
    if k in scores then scores[k] else 0.0
  }

  lemma {:induction false} NoRank(list: seq<Item>, k: Key)
    requires Occurrences(list, k) == 0
    ensures RankSum(list, k) == 0.0
  {
    if list != [] {
      NoRank(list[..|list| - 1], k);
    }
  }

  lemma {:induction false} OccurrencesAppend(a: seq<Item>, b: seq<Item>, k: Key)
    ensures Occurrences(a + b, k) == Occurrences(a, k) + Occurrences(b, k)
  {
    if b == [] {
      assert a + b == a;
    } else {
      OccurrencesAppend(a, b[..|b| - 1], k);
      assert (a + b)[..|a + b| - 1] == a + b[..|b| - 1];
    }
  }

  /** One more row, seen from any key. */
  lemma Snoc(rows: seq<Item>, r: Item, k: Key)
    ensures Occurrences(rows + [r], k) == Occurrences(rows, k) + (if KeyOf(r) == k then 1 else 0)
    ensures RankSum(rows + [r], k) == RankSum(rows, k) + (if KeyOf(r) == k then Contribution(|rows| + 1) else 0.0)
    ensures KeyOf(r) == k ==> LastWith(rows + [r], k) == r
    ensures KeyOf(r) != k && Occurrences(rows, k) > 0 ==> LastWith(rows + [r], k) == LastWith(rows, k)
    ensures Occurrences(rows, k) > 0 ==> FirstWith(rows + [r], k) == FirstWith(rows, k)
    ensures Occurrences(rows, k) == 0 && KeyOf(r) == k ==> FirstWith(rows + [r], k) == r
  {
    hide Contribution;
    assert (rows + [r])[..|rows|] == rows;
  }

  lemma FirstKeysSnoc(rows: seq<Item>, r: Item)
    ensures FirstKeys(rows + [r]) == if KeyOf(r) in FirstKeys(rows) then FirstKeys(rows) else FirstKeys(rows) + [KeyOf(r)]
  {
    assert (rows + [r])[..|rows|] == rows;
  }

  lemma NothingRanked(k: Key)
    ensures RankSum([], k) == 0.0 && Occurrences([], k) == 0
  {
  }

  /** A key is in the tally exactly when it occurs, and what does not occur has no rank. */
  lemma TallyKnows(semantic: seq<Item>, text: seq<Item>, scores: map<Key, real>, order: seq<Key>, items: map<Key, Hit>, k: Key)
    requires Tallied(semantic, text, scores, order, items)
    ensures k in order <==> Occurrences(semantic, k) > 0 || Occurrences(text, k) > 0
    ensures k in scores <==> k in order
    ensures k in items <==> k in order
    ensures Fused(semantic, text, k) == Score(scores, k)
    ensures k in order ==> items[k] == Shown(semantic, text, k)
  {
    FirstKeysAreThose(semantic + text);
    OccurrencesAppend(semantic, text, k);
    if k !in order {
      NoRank(semantic, k);
      NoRank(text, k);
    }
  }

  lemma SemanticKey(rows: seq<Item>, r: Item, scores: map<Key, real>, order: seq<Key>, items: map<Key, Hit>, x: Key)
    requires Tallied(rows, [], scores, order, items) && (x in order || x == KeyOf(r))
    ensures Occurrences(rows + [r], x) > 0
    ensures Fused(rows + [r], [], x) == Score(scores, x) + (if x == KeyOf(r) then Contribution(|rows| + 1) else 0.0)
    ensures Shown(rows + [r], [], x) == if x == KeyOf(r) then Hit(r, Semantic) else items[x]
  {
    hide Tallied;
    hide Contribution;
    hide RankSum;
    hide LastWith;
    hide Occurrences;
    TallyKnows(rows, [], scores, order, items, x);
    Snoc(rows, r, x);
    NothingRanked(x);
  }

  lemma SemanticRow(rows: seq<Item>, r: Item, scores: map<Key, real>, order: seq<Key>, items: map<Key, Hit>)
    requires Tallied(rows, [], scores, order, items)
    ensures var k := KeyOf(r);
      Tallied(rows + [r], [],
              scores[k := Score(scores, k) + Contribution(|rows| + 1)],
              if k in order then order else order + [k],
              items[k := Hit(r, Semantic)])
  {
    hide Contribution;
    hide FirstKeys;
    hide Fused;
    hide Shown;
    hide Occurrences;
    assert rows + [] == rows && rows + [r] + [] == rows + [r];
    FirstKeysSnoc(rows, r);
    forall x | x in order || x == KeyOf(r)
      ensures Occurrences(rows + [r], x) > 0
      ensures Fused(rows + [r], [], x) == Score(scores, x) + (if x == KeyOf(r) then Contribution(|rows| + 1) else 0.0)
      ensures Shown(rows + [r], [], x) == if x == KeyOf(r) then Hit(r, Semantic) else items[x]
    {
      SemanticKey(rows, r, scores, order, items, x);
    }
  }

  lemma TextKey(semantic: seq<Item>, rows: seq<Item>, r: Item, scores: map<Key, real>, order: seq<Key>, items: map<Key, Hit>, x: Key)
    requires Tallied(semantic, rows, scores, order, items) && (x in order || x == KeyOf(r))
    ensures Occurrences(semantic, x) > 0 || Occurrences(rows + [r], x) > 0
    ensures Fused(semantic, rows + [r], x) == Score(scores, x) + (if x == KeyOf(r) then Contribution(|rows| + 1) else 0.0)
    ensures Shown(semantic, rows + [r], x)
         == if x != KeyOf(r) then items[x] else if x in items then items[x].(source := Hybrid) else Hit(r, Text)
  {
    hide Tallied;
    hide Contribution;
    hide RankSum;
    hide LastWith;
    hide FirstWith;
    hide Occurrences;
    TallyKnows(semantic, rows, scores, order, items, x);
    Snoc(rows, r, x);
  }

  lemma TextRow(semantic: seq<Item>, rows: seq<Item>, r: Item, scores: map<Key, real>, order: seq<Key>, items: map<Key, Hit>)
    requires Tallied(semantic, rows, scores, order, items)
    ensures var k := KeyOf(r);
      Tallied(semantic, rows + [r],
              scores[k := Score(scores, k) + Contribution(|rows| + 1)],
              if k in order then order else order + [k],
              items[k := if k in items then items[k].(source := Hybrid) else Hit(r, Text)])
  {
    hide Contribution;
    hide FirstKeys;
    hide Fused;
    hide Shown;
    hide Occurrences;
    assert semantic + (rows + [r]) == semantic + rows + [r];
    FirstKeysSnoc(semantic + rows, r);
    forall x | x in order || x == KeyOf(r)
      ensures Occurrences(semantic, x) > 0 || Occurrences(rows + [r], x) > 0
      ensures Fused(semantic, rows + [r], x) == Score(scores, x) + (if x == KeyOf(r) then Contribution(|rows| + 1) else 0.0)
      ensures Shown(semantic, rows + [r], x)
           == if x != KeyOf(r) then items[x] else if x in items then items[x].(source := Hybrid) else Hit(r, Text)
    {
      TextKey(semantic, rows, r, scores, order, items, x);
    }
  }

  lemma NothingTallied()
    ensures Tallied([], [], map[], [], map[])
  {
  }

  method Tally(semantic: seq<Item>, text: seq<Item>)
    returns (scores: map<Key, real>, order: seq<Key>, items: map<Key, Hit>)
    ensures Tallied(semantic, text, scores, order, items)
  {
    hide Tallied;
    hide Contribution;
    scores, order, items := map[], [], map[];
    assert semantic[..0] == [];
    NothingTallied();
    var i := 0;
    while i < |semantic|
      invariant 0 <= i <= |semantic| && Tallied(semantic[..i], [], scores, order, items)
    {
      var r := semantic[i];
      var k := KeyOf(r);
      SemanticRow(semantic[..i], r, scores, order, items);
      assert semantic[..i + 1] == semantic[..i] + [r];
      scores := scores[k := Score(scores, k) + Contribution(i + 1)];
      order := if k in order then order else order + [k];
      items := items[k := Hit(r, Semantic)];
      i := i + 1;
    }
    assert semantic[..i] == semantic && text[..0] == [];
    i := 0;
    while i < |text|
      invariant 0 <= i <= |text| && Tallied(semantic, text[..i], scores, order, items)
    {
      var r := text[i];
      var k := KeyOf(r);
      TextRow(semantic, text[..i], r, scores, order, items);
      assert text[..i + 1] == text[..i] + [r];
      scores := scores[k := Score(scores, k) + Contribution(i + 1)];
      order := if k in order then order else order + [k];
      items := items[k := if k in items then items[k].(source := Hybrid) else Hit(r, Text)];
      i := i + 1;
    }
    assert text[..i] == text;
  }

  // ---------------------------------------------------------------- the whole search

  /** A row of the semantic result list; errors are surfaced ahead of the fused hits. */
  datatype Row = ErrorRow(message: string) | Found(item: Item)

  datatype Out = OutError(message: string) | OutHit(hit: Hit)

  function Errors(rows: seq<Row>): seq<Out> {
    if rows == [] then [] else (if rows[0].ErrorRow? then [OutError(rows[0].message)] else []) + Errors(rows[1..])
  }

  function Valid(rows: seq<Row>): seq<Item> {
    if rows == [] then [] else (if rows[0].Found? then [rows[0].item] else []) + Valid(rows[1..])
  }

  /** The result list is taken apart row by row, in order: messages of error rows, items of others. */
  lemma {:induction false} RowsTakenApart(rows: seq<Row>, message: string, item: Item)
    ensures Errors([]) == [] && Valid([]) == []
    ensures Errors(rows + [ErrorRow(message)]) == Errors(rows) + [OutError(message)] && Valid(rows + [ErrorRow(message)]) == Valid(rows)
    ensures Errors(rows + [Found(item)]) == Errors(rows) && Valid(rows + [Found(item)]) == Valid(rows) + [item]
  {
    if rows != [] {
      RowsTakenApart(rows[1..], message, item);
      assert (rows + [ErrorRow(message)])[1..] == rows[1..] + [ErrorRow(message)];
      assert (rows + [Found(item)])[1..] == rows[1..] + [Found(item)];
    } else {
      assert [ErrorRow(message)][1..] == [] && [Found(item)][1..] == [];
      assert rows + [ErrorRow(message)] == [ErrorRow(message)] && rows + [Found(item)] == [Found(item)];
    }
  }

  /** Row i is the last of its key iff it is the one shown for a semantic hit, and the first iff it is
      the one shown for a text hit. */
  lemma {:induction false} RowsShown(list: seq<Item>, i: nat)
    requires i < |list|
    ensures Occurrences(list, KeyOf(list[i])) > 0
    ensures (forall j :: i < j < |list| ==> KeyOf(list[j]) != KeyOf(list[i])) ==> LastWith(list, KeyOf(list[i])) == list[i]
    ensures (forall j :: 0 <= j < i ==> KeyOf(list[j]) != KeyOf(list[i])) ==> FirstWith(list, KeyOf(list[i])) == list[i]
  {
    var n := |list| - 1;
    var front := list[..n];
    if i < n {
      RowsShown(front, i);
    } else if forall j :: 0 <= j < i ==> KeyOf(list[j]) != KeyOf(list[i]) {
      NoOccurrence(front, KeyOf(list[i]));
    }
  }

  lemma {:induction false} NoOccurrence(list: seq<Item>, k: Key)
    requires forall j :: 0 <= j < |list| ==> KeyOf(list[j]) != k
    ensures Occurrences(list, k) == 0
  {
    if list != [] {
      NoOccurrence(list[..|list| - 1], k);
    }
  }

  /** A key that occurs once, in row i, scores 1 / (60 + rank), the rank being i + 1. */
  lemma {:induction false} RankScore(list: seq<Item>, i: nat)
    requires i < |list| && Occurrences(list, KeyOf(list[i])) == 1
    ensures RankSum(list, KeyOf(list[i])) == 1.0 / (61 + i) as real
  {
    var n := |list| - 1;
    var front := list[..n];
    if i < n {
      RowsShown(front, i);
      RankScore(front, i);
    } else {
      NoRank(front, KeyOf(list[i]));
    }
  }

  function HitKey(h: Hit): Key {
    KeyOf(h.item)
  }

  /** Key a outranks key b: a higher fused score, or the same and an earlier first appearance. */
  predicate Outranks(semantic: seq<Item>, text: seq<Item>, a: Key, b: Key) {
    var order := FirstKeys(semantic + text);
    && a in order && b in order
    && (Fused(semantic, text, a) > Fused(semantic, text, b)
        || (Fused(semantic, text, a) == Fused(semantic, text, b) && IndexOf(order, a) < IndexOf(order, b)))
  }

  /** The hits are the maxResults highest-ranked keys of the two lists, in rank order, each with
      its row and label. */
  ghost predicate IsFusion(semantic: seq<Item>, text: seq<Item>, maxResults: nat, hits: seq<Hit>) {
    var order := FirstKeys(semantic + text);
    && |hits| == (if maxResults <= |order| then maxResults else |order|)
    && (forall i :: 0 <= i < |hits| ==>
          var k := HitKey(hits[i]);
          (Occurrences(semantic, k) > 0 || Occurrences(text, k) > 0) && hits[i] == Shown(semantic, text, k))
    && (forall i, j :: 0 <= i < j < |hits| ==> Outranks(semantic, text, HitKey(hits[i]), HitKey(hits[j])))
    && (forall k, i :: k in order && 0 <= i < |hits| && (forall j :: 0 <= j < |hits| ==> HitKey(hits[j]) != k) ==>
          Outranks(semantic, text, HitKey(hits[i]), k))
  }

  lemma {:induction false} WithKey(list: seq<Item>, k: Key)
    requires Occurrences(list, k) > 0
    ensures KeyOf(LastWith(list, k)) == k && KeyOf(FirstWith(list, k)) == k
  {
    if Occurrences(list[..|list| - 1], k) > 0 {
      WithKey(list[..|list| - 1], k);
    }
  }

  method Fuse(semantic: seq<Item>, text: seq<Item>, maxResults: nat) returns (hits: seq<Hit>)
    ensures IsFusion(semantic, text, maxResults, hits)
  {
    var scores, order, items := Tally(semantic, text);
    var sorted := SortDescending(order, scores);
    var n := if maxResults <= |sorted| then maxResults else |sorted|;
    hits := seq(n, i requires 0 <= i < n => if sorted[i] in items then items[sorted[i]] else Hit(Item("", 0, ""), Text));
    FusionOfTally(semantic, text, maxResults, scores, order, items, hits);
  }

  lemma ShownHasKey(semantic: seq<Item>, text: seq<Item>, k: Key)
    requires Occurrences(semantic, k) > 0 || Occurrences(text, k) > 0
    ensures HitKey(Shown(semantic, text, k)) == k
  {
    if Occurrences(semantic, k) > 0 { WithKey(semantic, k); } else { WithKey(text, k); }
  }

  /** All keys in rank order. */
  ghost predicate IsRanking(semantic: seq<Item>, text: seq<Item>, ranking: seq<Key>) {
    && |ranking| == |FirstKeys(semantic + text)|
    && (forall k :: k in FirstKeys(semantic + text) ==> k in ranking)
    && (forall i, j :: 0 <= i < j < |ranking| ==> Outranks(semantic, text, ranking[i], ranking[j]))
  }

  lemma SortIsRanking(semantic: seq<Item>, text: seq<Item>, scores: map<Key, real>, order: seq<Key>, items: map<Key, Hit>)
    requires Tallied(semantic, text, scores, order, items)
    ensures IsRanking(semantic, text, SortDescending(order, scores))
  {
    hide Fused;
    hide IndexOf;
    hide Shown;
    hide SortDescending;
    var sorted := SortDescending(order, scores);
    FirstKeysAreThose(semantic + text);
    hide FirstKeys;
    hide Occurrences;
    SortIsOrdered(order, scores, |order|);
    assert order[..|order|] == order;
    SameLength(sorted, order);
    forall i, j | 0 <= i < j < |sorted| ensures Outranks(semantic, text, sorted[i], sorted[j]) {
      assert Before(order, scores, sorted[i], sorted[j]);
    }
  }

  lemma TakeFromRanking(semantic: seq<Item>, text: seq<Item>, maxResults: nat, ranking: seq<Key>, hits: seq<Hit>)
    requires IsRanking(semantic, text, ranking)
    requires |hits| == if maxResults <= |ranking| then maxResults else |ranking|
    requires forall i :: 0 <= i < |hits| ==>
      && (Occurrences(semantic, ranking[i]) > 0 || Occurrences(text, ranking[i]) > 0)
      && hits[i] == Shown(semantic, text, ranking[i])
    ensures IsFusion(semantic, text, maxResults, hits)
  {
    hide Outranks;
    hide FirstKeys;
    hide Occurrences;
    hide Shown;
    hide HitKey;
    forall i | 0 <= i < |hits| ensures HitKey(hits[i]) == ranking[i] {
      ShownHasKey(semantic, text, ranking[i]);
    }
    forall k, i | k in FirstKeys(semantic + text) && 0 <= i < |hits| && (forall j :: 0 <= j < |hits| ==> HitKey(hits[j]) != k)
      ensures Outranks(semantic, text, HitKey(hits[i]), k)
    {
      var j :| 0 <= j < |ranking| && ranking[j] == k;
    }
  }

  lemma FusionOfTally(semantic: seq<Item>, text: seq<Item>, maxResults: nat,
                      scores: map<Key, real>, order: seq<Key>, items: map<Key, Hit>, hits: seq<Hit>)
    requires Tallied(semantic, text, scores, order, items)
    requires var sorted := SortDescending(order, scores);
      && |hits| == (if maxResults <= |sorted| then maxResults else |sorted|)
      && forall i :: 0 <= i < |hits| ==> sorted[i] in items && hits[i] == items[sorted[i]]
    ensures IsFusion(semantic, text, maxResults, hits)
  {
    hide Fused;
    hide FirstKeys;
    hide Occurrences;
    hide Shown;
    hide SortDescending;
    hide IsRanking;
    hide IsFusion;
    SortIsRanking(semantic, text, scores, order, items);
    TakeFromRanking(semantic, text, maxResults, SortDescending(order, scores), hits);
  }

  lemma SameLength(a: seq<Key>, b: seq<Key>)
    requires multiset(a) == multiset(b)
    ensures |a| == |b|
  {
    assert |multiset(a)| == |a| && |multiset(b)| == |b|;
  }

  method HybridSearch(semanticRows: seq<Row>, text: seq<Item>, maxResults: nat) returns (out: seq<Out>, ghost hits: seq<Hit>)
    ensures out == Errors(semanticRows) + seq(|hits|, i requires 0 <= i < |hits| => OutHit(hits[i]))
    ensures IsFusion(Valid(semanticRows), text, maxResults, hits)
  {
    var fused := Fuse(Valid(semanticRows), text, maxResults);
    hits := fused;
    out := Errors(semanticRows) + seq(|fused|, i requires 0 <= i < |fused| => OutHit(fused[i]));
  }

  // ---------------------------------------------------------------- main results

  /** No key is listed twice, and the label says which lists a key came from: hybrid exactly when it
      is in both lists or repeated in the text list. With distinct keys within the text list that
      is exactly when it is in both. */
  lemma FusionIsLabelled(semantic: seq<Item>, text: seq<Item>, maxResults: nat, hits: seq<Hit>)
    requires IsFusion(semantic, text, maxResults, hits)
    ensures forall i, j :: 0 <= i < j < |hits| ==> HitKey(hits[i]) != HitKey(hits[j])
    ensures forall i :: 0 <= i < |hits| ==>
      var k := HitKey(hits[i]);
      && (hits[i].source == Hybrid <==> Occurrences(text, k) > 0 && (Occurrences(semantic, k) > 0 || Occurrences(text, k) > 1))
      && (hits[i].source == Semantic <==> Occurrences(text, k) == 0)
  {
    forall i, j | 0 <= i < j < |hits| ensures HitKey(hits[i]) != HitKey(hits[j]) {
      assert Outranks(semantic, text, HitKey(hits[i]), HitKey(hits[j]));
    }
  }

  lemma {:induction false} RankSumBounds(list: seq<Item>, k: Key, n: nat)
    requires |list| <= n && Occurrences(list, k) <= 1
    ensures Occurrences(list, k) == 1 ==> Contribution(n) <= RankSum(list, k) <= Contribution(1)
    ensures Occurrences(list, k) == 0 ==> RankSum(list, k) == 0.0
  {
    if list != [] {
      RankSumBounds(list[..|list| - 1], k, n);
      ContributionFalls(|list|, n);
      ContributionFalls(1, |list|);
    }
  }

  lemma ContributionFalls(a: nat, b: nat)
    requires a <= b
    ensures Contribution(b) <= Contribution(a)
  {
    var x, y := (RRF_K + a) as real, (RRF_K + b) as real;
    assert 1.0 / x - 1.0 / y == (y - x) / (x * y);
  }
}
