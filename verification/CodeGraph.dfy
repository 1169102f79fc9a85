/** Impact analysis over the call graph of shared/code_graph.py: the forward and reverse edge
    caches, and the level-by-level breadth-first searches upstream and downstream. */
module CodeGraph {

  type Graph = map<string, set<string>>

  datatype Def = Def(file: string, line: int, kind: string)

  datatype Item = Item(name: string, def: Def)

  /** There is an edge from a to b. */
  predicate Edge(g: Graph, a: string, b: string) {
    a in g && b in g[a]
  }

  function Next(g: Graph, n: string): set<string> {
    if n in g then g[n] else {}
  }

  function DefsOf(defs: map<string, seq<Def>>, n: string): seq<Def> {
    if n in defs then defs[n] else []
  }

  // ---------------------------------------------------------------- the reverse cache

  ghost predicate IsTranspose(f: Graph, r: Graph) {
    forall a, b :: Edge(f, a, b) <==> Edge(r, b, a)
  }

  /** The reverse of the edges whose source is in `sources`, and of those from a to `targets`. */
  ghost predicate Reversed(f: Graph, r: Graph, sources: set<string>, a: string, targets: set<string>) {
    forall x, y :: ReversedAt(f, r, sources, a, targets, x, y)
  }

  ghost predicate ReversedAt(f: Graph, r: Graph, sources: set<string>, a: string, targets: set<string>, x: string, y: string) {
    x in Next(r, y) <==> (x in sources && y in Next(f, x)) || (x == a && y in targets)
  }

  lemma ReverseOne(f: Graph, r: Graph, r': Graph, sources: set<string>, a: string, targets: set<string>, tgt: string)
    requires Reversed(f, r, sources, a, targets) && r' == r[tgt := Next(r, tgt) + {a}]
    ensures Reversed(f, r', sources, a, targets + {tgt})
  {
    forall x, y
      ensures ReversedAt(f, r', sources, a, targets + {tgt}, x, y)
    {
      assert ReversedAt(f, r, sources, a, targets, x, y);
      assert Next(r', y) == if y == tgt then Next(r, y) + {a} else Next(r, y);
    }
  }

  lemma ReverseSource(f: Graph, r: Graph, sources: set<string>, a: string)
    requires Reversed(f, r, sources, a, Next(f, a))
    ensures Reversed(f, r, sources + {a}, "", {})
  {
    forall x, y ensures ReversedAt(f, r, sources + {a}, "", {}, x, y) {
      assert ReversedAt(f, r, sources, a, Next(f, a), x, y);
    }
  }

  lemma ReverseStart(f: Graph, r: Graph, sources: set<string>, a: string)
    requires Reversed(f, r, sources, "", {})
    ensures Reversed(f, r, sources, a, {})
  {
    forall x, y ensures ReversedAt(f, r, sources, a, {}, x, y) {
      assert ReversedAt(f, r, sources, "", {}, x, y);
    }
  }

  lemma ReversedIsTranspose(f: Graph, r: Graph)
    requires Reversed(f, r, f.Keys, "", {})
    ensures IsTranspose(f, r)
  {
    forall a, b ensures Edge(f, a, b) <==> Edge(r, b, a) {
      assert ReversedAt(f, r, f.Keys, "", {}, a, b);
    }
  }

  method LoadReverse(forward: Graph) returns (reverse: Graph)
    ensures IsTranspose(forward, reverse)
  {
    reverse := map[];
    assert Reversed(forward, reverse, {}, "", {});
    hide Reversed;
    hide IsTranspose;
    var sources := forward.Keys;
    assert forward.Keys - sources == {};
    while sources != {}
      invariant sources <= forward.Keys
      invariant Reversed(forward, reverse, forward.Keys - sources, "", {})
      decreases sources
    {
      var src :| src in sources;
      var targets := forward[src];
      ReverseStart(forward, reverse, forward.Keys - sources, src);
      assert forward[src] - targets == {};
      while targets != {}
        invariant targets <= forward[src]
        invariant Reversed(forward, reverse, forward.Keys - sources, src, forward[src] - targets)
        decreases targets
      {
        var tgt :| tgt in targets;
        ghost var before := reverse;
        reverse := reverse[tgt := Next(reverse, tgt) + {src}];
        ReverseOne(forward, before, reverse, forward.Keys - sources, src, forward[src] - targets, tgt);
        assert forward[src] - (targets - {tgt}) == (forward[src] - targets) + {tgt};
        targets := targets - {tgt};
      }
      assert forward[src] - targets == Next(forward, src);
      ReverseSource(forward, reverse, forward.Keys - sources, src);
      assert forward.Keys - (sources - {src}) == (forward.Keys - sources) + {src};
      sources := sources - {src};
    }
    assert forward.Keys - sources == forward.Keys;
    ReversedIsTranspose(forward, reverse);
  }

  // ---------------------------------------------------------------- call paths and distance

  predicate IsPath(g: Graph, p: seq<string>) {
    |p| > 0 && forall i :: 0 <= i < |p| - 1 ==> Edge(g, p[i], p[i + 1])
  }

  predicate PathOf(g: Graph, seeds: set<string>, n: string, k: nat, p: seq<string>) {
    IsPath(g, p) && |p| == k + 1 && p[0] in seeds && p[k] == n
  }

  /** Some path of exactly k edges leads from a seed to n. */
  ghost predicate Reach(g: Graph, seeds: set<string>, n: string, k: nat) {
    exists p :: PathOf(g, seeds, n, k, p)
  }

  /** k is the shortest distance from the seeds to n. */
  ghost predicate AtDistance(g: Graph, seeds: set<string>, n: string, k: nat) {
    Reach(g, seeds, n, k) && forall m: nat :: m < k ==> !Reach(g, seeds, n, m)
  }

  // ---------------------------------------------------------------- the levels of the search

  function Image(g: Graph, s: set<string>): set<string> {
    set a, b | a in s && b in Next(g, a) :: b
  }

  function Seen(g: Graph, seeds: set<string>, k: nat): set<string> {
    if k == 0 then seeds else Seen(g, seeds, k - 1) + Image(g, Level(g, seeds, k - 1))
  }

  function Level(g: Graph, seeds: set<string>, k: nat): set<string> {
    if k == 0 then seeds else Image(g, Level(g, seeds, k - 1)) - Seen(g, seeds, k - 1)
  }

  lemma {:induction false} SeenGrows(g: Graph, seeds: set<string>, j: nat, k: nat)
    requires j <= k
    ensures Seen(g, seeds, j) <= Seen(g, seeds, k)
  {
    if j < k {
      SeenGrows(g, seeds, j, k - 1);
    }
  }

  lemma NextLevel(g: Graph, seeds: set<string>, k: nat)
    ensures Level(g, seeds, k + 1) == Image(g, Level(g, seeds, k)) - Seen(g, seeds, k)
    ensures Seen(g, seeds, k + 1) == Seen(g, seeds, k) + Level(g, seeds, k + 1)
  {
  }

  /** Edges out of what has been seen lead to what is seen one level later. */
  lemma {:induction false} SeenIsClosed(g: Graph, seeds: set<string>, k: nat)
    ensures Image(g, Seen(g, seeds, k)) <= Seen(g, seeds, k + 1)
  {
    if k > 0 {
      SeenIsClosed(g, seeds, k - 1);
      assert Seen(g, seeds, k) == Seen(g, seeds, k - 1) + Level(g, seeds, k);
      assert Image(g, Seen(g, seeds, k)) == Image(g, Seen(g, seeds, k - 1)) + Image(g, Level(g, seeds, k));
    }
  }

  lemma {:induction false} ReachIsSeen(g: Graph, seeds: set<string>, n: string, k: nat)
    requires Reach(g, seeds, n, k)
    ensures n in Seen(g, seeds, k)
    decreases k
  {
    var p :| PathOf(g, seeds, n, k, p);
    if k > 0 {
      assert PathOf(g, seeds, p[k - 1], k - 1, p[..k]);
      ReachIsSeen(g, seeds, p[k - 1], k - 1);
      SeenIsClosed(g, seeds, k - 1);
      assert p[k] in Next(g, p[k - 1]);
    }
  }

  lemma {:induction false} LevelIsReached(g: Graph, seeds: set<string>, n: string, k: nat)
    requires n in Level(g, seeds, k)
    ensures Reach(g, seeds, n, k)
    decreases k
  {
    if k == 0 {
      assert PathOf(g, seeds, n, 0, [n]);
    } else {
      var a :| a in Level(g, seeds, k - 1) && n in Next(g, a);
      LevelIsReached(g, seeds, a, k - 1);
      var p :| PathOf(g, seeds, a, k - 1, p);
      assert PathOf(g, seeds, n, k, p + [n]);
    }
  }

  lemma {:induction false} SeenSplits(g: Graph, seeds: set<string>, n: string, k: nat)
    requires n in Seen(g, seeds, k)
    ensures exists m: nat :: m <= k && n in Level(g, seeds, m)
  {
    if k == 0 {
      assert n in Level(g, seeds, 0);
    } else if n in Seen(g, seeds, k - 1) {
      SeenSplits(g, seeds, n, k - 1);
    } else {
      assert n in Level(g, seeds, k);
    }
  }

  /** The level-k frontier is exactly the names whose shortest distance from the seeds is k. */
  lemma LevelIsShortestDistance(g: Graph, seeds: set<string>, n: string, k: nat)
    ensures n in Level(g, seeds, k) <==> AtDistance(g, seeds, n, k)
  {
    if n in Level(g, seeds, k) {
      LevelIsReached(g, seeds, n, k);
      forall m: nat | m < k ensures !Reach(g, seeds, n, m) {
        if Reach(g, seeds, n, m) {
          ReachIsSeen(g, seeds, n, m);
          SeenGrows(g, seeds, m, k - 1);
        }
      }
    } else if AtDistance(g, seeds, n, k) {
      ReachIsSeen(g, seeds, n, k);
      SeenSplits(g, seeds, n, k);
      var m: nat :| m <= k && n in Level(g, seeds, m);
      LevelIsReached(g, seeds, n, m);
    }
  }

  /** Once a level is empty all later ones are, so stopping there loses nothing. */
  lemma {:induction false} EmptyLevelIsLast(g: Graph, seeds: set<string>, k: nat, m: nat)
    requires Level(g, seeds, k) == {} && k <= m
    ensures Level(g, seeds, m) == {}
  {
    if k < m {
      EmptyLevelIsLast(g, seeds, k, m - 1);
      assert Image(g, {}) == {};
    }
  }

  // ---------------------------------------------------------------- upstream against downstream

  function Backwards(p: seq<string>): seq<string> {
    seq(|p|, i requires 0 <= i < |p| => p[|p| - 1 - i])
  }

  lemma ReachBackwards(f: Graph, r: Graph, a: string, b: string, k: nat)
    requires IsTranspose(f, r) && Reach(f, {a}, b, k)
    ensures Reach(r, {b}, a, k)
  {
    var p :| PathOf(f, {a}, b, k, p);
    var q := Backwards(p);
    forall i | 0 <= i < |q| - 1 ensures q[i + 1] in Next(r, q[i]) {
      var j := |p| - 2 - i;
      assert p[j + 1] in Next(f, p[j]);
    }
    assert PathOf(r, {b}, a, k, q);
  }

  /** b is at downstream level k of a exactly when a is at upstream level k of b. */
  lemma UpstreamMirrorsDownstream(f: Graph, r: Graph, a: string, b: string, k: nat)
    requires IsTranspose(f, r)
    ensures b in Level(f, {a}, k) <==> a in Level(r, {b}, k)
  {
    LevelIsShortestDistance(f, {a}, b, k);
    LevelIsShortestDistance(r, {b}, a, k);
    assert IsTranspose(r, f);
    forall m: nat ensures Reach(f, {a}, b, m) <==> Reach(r, {b}, a, m) {
      if Reach(f, {a}, b, m) { ReachBackwards(f, r, a, b, m); }
      if Reach(r, {b}, a, m) { ReachBackwards(r, f, b, a, m); }
    }
  }

  // ---------------------------------------------------------------- the search loop

  function ItemsOf(n: string, ds: seq<Def>): seq<Item> {
    seq(|ds|, i requires 0 <= i < |ds| => Item(n, ds[i]))
  }

  /** `items` holds one item per definition of each of the names, and nothing else. */
  ghost predicate Lists(items: seq<Item>, names: set<string>, defs: map<string, seq<Def>>) {
    forall it: Item :: multiset(items)[it] == if it.name in names && it.name in defs then multiset(defs[it.name])[it.def] else 0
  }

  lemma {:induction false} ItemsCount(n: string, ds: seq<Def>, it: Item)
    ensures multiset(ItemsOf(n, ds))[it] == if it.name == n then multiset(ds)[it.def] else 0
  {
    if ds != [] {
      var front := ds[..|ds| - 1];
      ItemsCount(n, front, it);
      assert ItemsOf(n, ds) == ItemsOf(n, front) + [Item(n, ds[|ds| - 1])];
      assert ds == front + [ds[|ds| - 1]];
    }
  }

  lemma ListsMore(items: seq<Item>, names: set<string>, defs: map<string, seq<Def>>, n: string)
    requires Lists(items, names, defs) && n !in names
    ensures Lists(items + ItemsOf(n, DefsOf(defs, n)), names + {n}, defs)
  {
    forall it: Item ensures multiset(items + ItemsOf(n, DefsOf(defs, n)))[it]
                         == if it.name in names + {n} && it.name in defs then multiset(defs[it.name])[it.def] else 0 {
      ItemsCount(n, DefsOf(defs, n), it);
    }
  }

  lemma FirstLevel(g: Graph, seeds: set<string>)
    ensures Level(g, seeds, 0) == seeds && Seen(g, seeds, 0) == seeds
  {
  }

  lemma NothingToList(defs: map<string, seq<Def>>)
    ensures Lists([], {}, defs)
  {
  }

  /** The body of one level: every unvisited neighbour of the current frontier, with its items. */
  method Expand(g: Graph, current: set<string>, seen: set<string>, defs: map<string, seq<Def>>)
    returns (nextLevel: set<string>, items: seq<Item>)
    ensures nextLevel == Image(g, current) - seen
    ensures Lists(items, nextLevel, defs)
  {
    nextLevel, items := {}, [];
    var visited := seen;
    var todo := current;
    while todo != {}
      invariant todo <= current
      invariant nextLevel == Image(g, current - todo) - seen && visited == seen + nextLevel
      invariant Lists(items, nextLevel, defs)
      decreases todo
    {
      var name :| name in todo;
      var sources := Next(g, name);
      while sources != {}
        invariant sources <= Next(g, name)
        invariant nextLevel == (Image(g, current - todo) + (Next(g, name) - sources)) - seen
        invariant visited == seen + nextLevel
        invariant Lists(items, nextLevel, defs)
        decreases sources
      {
        var source :| source in sources;
        if source !in visited {
          visited := visited + {source};
          ListsMore(items, nextLevel, defs, source);
          nextLevel := nextLevel + {source};
          items := items + ItemsOf(source, DefsOf(defs, source));
        }
        sources := sources - {source};
      }
      assert current - (todo - {name}) == (current - todo) + {name};
      todo := todo - {name};
    }
    assert current - todo == current;
  }

  /** Entry `depth` of the result lists the definitions of exactly the names at that distance; it
      is missing only beyond maxDepth or when none of them has a definition. */
  ghost predicate ImpactUpTo(g: Graph, seeds: set<string>, depth: int, defs: map<string, seq<Def>>, impact: map<int, seq<Item>>) {
    && (forall k :: k in impact ==> 1 <= k <= depth && impact[k] != [] && Lists(impact[k], Level(g, seeds, k), defs))
    && (forall k :: 1 <= k <= depth && k !in impact ==> Lists([], Level(g, seeds, k), defs))
  }

  /** _bfs_downstream with g the forward cache, _bfs_upstream with g the reverse cache. */
  method Impact(g: Graph, seeds: set<string>, maxDepth: int, defs: map<string, seq<Def>>)
    returns (impact: map<int, seq<Item>>)
    ensures ImpactUpTo(g, seeds, maxDepth, defs, impact)
  {
    hide Level;
    hide Seen;
    hide Lists;
    impact := map[];
    var visited, current := seeds, seeds;
    FirstLevel(g, seeds);
    var depth := 1;
    while depth <= maxDepth
      invariant 1 <= depth && (if maxDepth >= 1 then depth <= maxDepth + 1 else depth == 1)
      invariant current == Level(g, seeds, depth - 1) && visited == Seen(g, seeds, depth - 1)
      invariant ImpactUpTo(g, seeds, depth - 1, defs, impact)
    {
      var nextLevel, items := Expand(g, current, visited, defs);
      NextLevel(g, seeds, depth - 1);
      if items != [] {
        impact := impact[depth := items];
      }
      visited := visited + nextLevel;
      current := nextLevel;
      if current == {} {
        forall k | depth < k <= maxDepth ensures Lists([], Level(g, seeds, k), defs) {
          EmptyLevelIsLast(g, seeds, depth, k);
          NothingToList(defs);
        }
        return;
      }
      depth := depth + 1;
    }
  }
}
