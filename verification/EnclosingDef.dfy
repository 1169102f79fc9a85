/** Finding the definition that encloses a syntax node, in shared/code_graph.py: the definition map
    is sorted by start and deduplicated, then searched with a bisection and a backward scan. */
module EnclosingDef {
  import opened Wrappers

  datatype Entry = Entry(start: int, end: int, name: string)

  // ---------------------------------------------------------------- building the map

  predicate SortedByStart(m: seq<Entry>) {
    forall i, j :: 0 <= i < j < |m| ==> m[i].start <= m[j].start
  }

  predicate NoDuplicates(m: seq<Entry>) {
    forall i, j :: 0 <= i < j < |m| ==> m[i] != m[j]
  }

  /** Insertion after all entries that do not start later, as a stable sort would place it. */
  function Insert(m: seq<Entry>, e: Entry): seq<Entry> {
    if m == [] || m[|m| - 1].start <= e.start then m + [e]
    else Insert(m[..|m| - 1], e) + [m[|m| - 1]]
  }

  /** Python's stable sorted(entries, key=start). */
  function StableSort(entries: seq<Entry>): seq<Entry> {
    if entries == [] then [] else Insert(StableSort(entries[..|entries| - 1]), entries[|entries| - 1])
  }

  lemma {:induction false} InsertKeepsEntries(m: seq<Entry>, e: Entry)
    ensures multiset(Insert(m, e)) == multiset(m) + multiset{e}
  {
    if m != [] && m[|m| - 1].start > e.start {
      InsertKeepsEntries(m[..|m| - 1], e);
      assert m == m[..|m| - 1] + [m[|m| - 1]];
    }
  }

  lemma SnocSorted(m: seq<Entry>, e: Entry)
    requires SortedByStart(m) && forall x :: x in m ==> x.start <= e.start
    ensures SortedByStart(m + [e])
  {
  }

  lemma {:induction false} InsertKeepsSorted(m: seq<Entry>, e: Entry)
    requires SortedByStart(m)
    ensures SortedByStart(Insert(m, e))
  {
    if m != [] && m[|m| - 1].start > e.start {
      var front, last := m[..|m| - 1], m[|m| - 1];
      InsertKeepsSorted(front, e);
      InsertKeepsEntries(front, e);
      var r := Insert(front, e);
      forall x | x in r ensures x.start <= last.start {
        assert x in multiset(r);
        if x != e { assert x in multiset(front); }
      }
      hide Insert;
      SnocSorted(r, last);
    }
  }

  lemma {:induction false} StableSortSorts(entries: seq<Entry>)
    ensures SortedByStart(StableSort(entries)) && multiset(StableSort(entries)) == multiset(entries)
  {
    if entries != [] {
      var front, last := entries[..|entries| - 1], entries[|entries| - 1];
      StableSortSorts(front);
      InsertKeepsSorted(StableSort(front), last);
      InsertKeepsEntries(StableSort(front), last);
      assert entries == front + [last];
    }
  }

  /** Entries of equal start keep their order. */
  function WithStart(m: seq<Entry>, start: int): seq<Entry> {
    if m == [] then []
    else WithStart(m[..|m| - 1], start) + (if m[|m| - 1].start == start then [m[|m| - 1]] else [])
  }

  lemma WithStartSnoc(m: seq<Entry>, e: Entry, start: int)
    ensures WithStart(m + [e], start) == WithStart(m, start) + (if e.start == start then [e] else [])
  {
    assert (m + [e])[..|m|] == m;
  }

  lemma {:induction false} InsertIsStable(m: seq<Entry>, e: Entry, start: int)
    requires SortedByStart(m)
    ensures WithStart(Insert(m, e), start) == WithStart(m, start) + (if e.start == start then [e] else [])
  {
    if m == [] || m[|m| - 1].start <= e.start {
      WithStartSnoc(m, e, start);
    } else {
      var front, last := m[..|m| - 1], m[|m| - 1];
      InsertIsStable(front, e, start);
      WithStartSnoc(Insert(front, e), last, start);
    }
  }

  lemma {:induction false} StableSortIsStable(entries: seq<Entry>, start: int)
    ensures WithStart(StableSort(entries), start) == WithStart(entries, start)
  {
    if entries != [] {
      var front, last := entries[..|entries| - 1], entries[|entries| - 1];
      StableSortIsStable(front, start);
      StableSortSorts(front);
      InsertIsStable(StableSort(front), last, start);
    }
  }

  function Elements(m: seq<Entry>): set<Entry> {
    set e | e in m
  }

  lemma ElementsSnoc(m: seq<Entry>, e: Entry)
    ensures Elements(m + [e]) == Elements(m) + {e}
  {
  }

  /** Each entry at its first occurrence. */
  function FirstOccurrences(m: seq<Entry>): seq<Entry> {
    if m == [] then []
    else
      var front, last := m[..|m| - 1], m[|m| - 1];
      if last in front then FirstOccurrences(front) else FirstOccurrences(front) + [last]
  }

  lemma {:induction false} WithStartHas(m: seq<Entry>, e: Entry)
    ensures e in WithStart(m, e.start) <==> e in m
  {
    if m != [] {
      WithStartHas(m[..|m| - 1], e);
      assert m == m[..|m| - 1] + [m[|m| - 1]];
    }
  }

  lemma FirstOccurrencesSnoc(m: seq<Entry>, e: Entry)
    ensures FirstOccurrences(m + [e]) == if e in m then FirstOccurrences(m) else FirstOccurrences(m) + [e]
  {
    assert (m + [e])[..|m|] == m;
  }

  /** Taking first occurrences keeps the order among entries of equal start. */
  lemma {:induction false} FirstOccurrencesByStart(m: seq<Entry>, start: int)
    ensures WithStart(FirstOccurrences(m), start) == FirstOccurrences(WithStart(m, start))
  {
    if m != [] {
      var front, last := m[..|m| - 1], m[|m| - 1];
      FirstOccurrencesByStart(front, start);
      WithStartHas(front, last);
      WithStartSnoc(FirstOccurrences(front), last, start);
      FirstOccurrencesSnoc(WithStart(front, start), last);
      if last.start != start {
        assert WithStart(m, start) == WithStart(front, start);
      } else {
        assert WithStart(m, start) == WithStart(front, start) + [last];
      }
    }
  }

  /** The sort and the dedup loop: same entries, each once, sorted by start, and among those of equal
      start in the order in which they were first collected. */
  method BuildMap(entries: seq<Entry>) returns (unique: seq<Entry>)
    ensures SortedByStart(unique) && NoDuplicates(unique)
    ensures Elements(unique) == Elements(entries)
    ensures forall start :: WithStart(unique, start) == FirstOccurrences(WithStart(entries, start))
  {
    hide StableSort;
    hide FirstOccurrences;
    hide WithStart;
    hide SortedByStart;
    hide NoDuplicates;
    var sorted := StableSort(entries);
    StableSortSorts(entries);
    var seen: set<Entry> := {};
    unique := [];
    NoOccurrences();
    assert sorted[..0] == [];
    var i := 0;
    while i < |sorted|
      invariant 0 <= i <= |sorted|
      invariant seen == Elements(sorted[..i]) && unique == FirstOccurrences(sorted[..i])
    {
      var key := sorted[i];
      assert sorted[..i + 1] == sorted[..i] + [key];
      ElementsSnoc(sorted[..i], key);
      FirstOccurrencesSnoc(sorted[..i], key);
      if key !in seen {
        seen := seen + {key};
        unique := unique + [key];
      }
      i := i + 1;
    }
    assert sorted[..i] == sorted;
    FirstOccurrencesSound(sorted);
    SameElements(sorted, entries);
    forall start ensures WithStart(unique, start) == FirstOccurrences(WithStart(entries, start)) {
      FirstOccurrencesByStart(sorted, start);
      StableSortIsStable(entries, start);
    }
  }

  lemma NoOccurrences()
    ensures FirstOccurrences([]) == [] && Elements([]) == {}
  {
  }

  lemma {:induction false} FirstOccurrencesSound(m: seq<Entry>)
    requires SortedByStart(m)
    ensures SortedByStart(FirstOccurrences(m)) && NoDuplicates(FirstOccurrences(m))
    ensures Elements(FirstOccurrences(m)) == Elements(m)
  {
    if m != [] {
      var front, last := m[..|m| - 1], m[|m| - 1];
      FirstOccurrencesSound(front);
      assert m == front + [last];
      ElementsSnoc(front, last);
      var firsts := FirstOccurrences(front);
      hide FirstOccurrences;
      FirstOccurrencesSnoc(front, last);
      if last !in front {
        forall x | x in firsts ensures x.start <= last.start && x != last {
          assert x in Elements(firsts);
          assert x in front;
        }
        SnocSorted(firsts, last);
        ElementsSnoc(firsts, last);
      }
    }
  }

  lemma SameElements(a: seq<Entry>, b: seq<Entry>)
    requires multiset(a) == multiset(b)
    ensures Elements(a) == Elements(b)
  {
    forall e ensures e in a <==> e in b {
      assert e in a <==> e in multiset(a);
      assert e in b <==> e in multiset(b);
    }
  }

  // ---------------------------------------------------------------- searching the map

  predicate Encloses(e: Entry, start: int, end: int) {
    e.start <= start && end <= e.end
  }

  function Size(e: Entry): int {
    e.end - e.start
  }

  /** Entry i encloses the node, no enclosing entry is smaller, and none as small comes later. */
  predicate Tightest(m: seq<Entry>, start: int, end: int, i: int) {
    && 0 <= i < |m| && Encloses(m[i], start, end)
    && forall j :: 0 <= j < |m| && Encloses(m[j], start, end) ==>
         Size(m[i]) < Size(m[j]) || (Size(m[i]) == Size(m[j]) && j <= i)
  }

  /** bisect.bisect_right. */
  method BisectRight(starts: seq<int>, x: int) returns (lo: nat)
    requires forall i, j :: 0 <= i < j < |starts| ==> starts[i] <= starts[j]
    ensures lo <= |starts|
    ensures forall i :: 0 <= i < |starts| ==> (starts[i] <= x <==> i < lo)
  {
    lo := 0;
    var hi := |starts|;
    while lo < hi
      invariant 0 <= lo <= hi <= |starts|
      invariant forall i :: 0 <= i < lo ==> starts[i] <= x
      invariant forall i :: hi <= i < |starts| ==> x < starts[i]
    {
      var mid := (lo + hi) / 2;
      if x < starts[mid] {
        hi := mid;
      } else {
        lo := mid + 1;
      }
    }
  }

  method FindEnclosing(m: seq<Entry>, start: int, end: int) returns (best: Option<string>)
    requires SortedByStart(m)
    ensures best == None <==> forall j :: 0 <= j < |m| ==> !Encloses(m[j], start, end)
    ensures best.Some? ==> exists i :: Tightest(m, start, end, i) && best.value == m[i].name
  {
    var starts := seq(|m|, i requires 0 <= i < |m| => m[i].start);
    var right := BisectRight(starts, start);
    assert forall i :: 0 <= i < |m| ==> starts[i] == m[i].start;
    var idx := right - 1;
    best := None;
    var size := 0;
    ghost var at := -1;
    while idx >= 0
      invariant -1 <= idx < right
      invariant best == None <==> at == -1
      invariant at == -1 ==> forall j :: idx < j < |m| ==> !Encloses(m[j], start, end)
      invariant at != -1 ==> idx < at < |m| && best == Some(m[at].name) && size == Size(m[at]) && Encloses(m[at], start, end)
      invariant at != -1 ==> forall j :: idx < j < |m| && Encloses(m[j], start, end) ==>
                  Size(m[at]) < Size(m[j]) || (Size(m[at]) == Size(m[j]) && j <= at)
    {
      var e := m[idx];
      if e.start <= start && end <= e.end {
        if best == None || e.end - e.start < size {
          size := e.end - e.start;
          best := Some(e.name);
          at := idx;
        }
      }
      idx := idx - 1;
    }
    if at != -1 {
      assert Tightest(m, start, end, at);
    }
  }

  // ---------------------------------------------------------------- agreement with a linear search

  /** The tightest entry is unique, so the contract of FindEnclosing determines its answer. */
  lemma TightestIsUnique(m: seq<Entry>, start: int, end: int, i: int, k: int)
    requires Tightest(m, start, end, i) && Tightest(m, start, end, k)
    ensures i == k
  {
    assert Encloses(m[i], start, end) && Encloses(m[k], start, end);
  }

  /** A linear search of the whole map, from the front, for the last of the smallest. */
  function LinearSearch(m: seq<Entry>, start: int, end: int): Option<Entry> {
    if m == [] then None
    else
      var e, rest := m[|m| - 1], LinearSearch(m[..|m| - 1], start, end);
      if !Encloses(e, start, end) then rest
      else if rest.None? || Size(e) <= Size(rest.value) then Some(e) else rest
  }

  lemma {:induction false} LinearSearchIsTightest(m: seq<Entry>, start: int, end: int) returns (i: int)
    ensures LinearSearch(m, start, end).None? <==> forall j :: 0 <= j < |m| ==> !Encloses(m[j], start, end)
    ensures LinearSearch(m, start, end).Some? ==>
              Tightest(m, start, end, i) && LinearSearch(m, start, end).value == m[i]
  {
    i := -1;
    if m != [] {
      var front := m[..|m| - 1];
      var k := LinearSearchIsTightest(front, start, end);
      assert forall j :: 0 <= j < |front| ==> front[j] == m[j];
      i := if LinearSearch(m, start, end) == LinearSearch(front, start, end) && !Encloses(m[|m| - 1], start, end) then k
           else if LinearSearch(front, start, end).None? || Size(m[|m| - 1]) <= Size(LinearSearch(front, start, end).value)
           then |m| - 1 else k;
    }
  }

  predicate Smallest(entries: seq<Entry>, e: Entry, start: int, end: int) {
    && e.start <= start && end <= e.end
    && forall x :: x in entries && x.start <= start && end <= x.end ==> e.end - e.start <= x.end - x.start
  }

  /** The whole pipeline, for any collected entries: the answer is the name of a smallest entry that
      encloses the node, and None exactly when no entry does; and it is what a linear search of
      the map finds. */
  method Resolve(entries: seq<Entry>, start: int, end: int) returns (best: Option<string>, ghost m: seq<Entry>)
    ensures SortedByStart(m) && NoDuplicates(m) && Elements(m) == Elements(entries)
    ensures forall start :: WithStart(m, start) == FirstOccurrences(WithStart(entries, start))
    ensures best == None <==> forall e :: e in entries ==> !(e.start <= start && end <= e.end)
    ensures best.Some? ==> exists e :: e in entries && e.name == best.value && Smallest(entries, e, start, end)
    ensures best == if LinearSearch(m, start, end).None? then None else Some(LinearSearch(m, start, end).value.name)
  {
    var defMap := BuildMap(entries);
    m := defMap;
    best := FindEnclosing(defMap, start, end);
    ghost var k := LinearSearchIsTightest(m, start, end);
    if best.Some? {
      ghost var i :| Tightest(m, start, end, i) && best.value == m[i].name;
      TightestIsUnique(m, start, end, i, k);
      forall x | x in entries && Encloses(x, start, end) ensures Size(m[i]) <= Size(x) {
        assert x in Elements(m);
      }
      assert m[i] in Elements(m);
    } else {
      forall x | x in entries ensures !Encloses(x, start, end) {
        assert x in Elements(m);
      }
    }
  }
}
