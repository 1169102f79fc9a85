/** `trace_flow` of shared/code_graph.py: a queue-based breadth-first search from one symbol, and
    the nested call chain built from what it visited. */
module TraceFlow {
  import opened CodeGraph
  import opened Names
  import CallChain
  import opened Wrappers

  /** One listed step. A callee without a known definition has none. */
  datatype Step = Step(name: string, caller: string, depth: nat, def: Option<Def>)

  datatype Flow =
    | NotFound
    | Ambiguous(candidates: seq<Def>)
    | IndexError
    | Traced(steps: seq<Step>, maxDepthReached: bool, chain: CallChain.Chain)

  function FirstDef(defs: map<string, seq<Def>>, n: string): Option<Def> {
    if DefsOf(defs, n) == [] then None else Some(DefsOf(defs, n)[0])
  }

  /** The entry point as the first node of the search, followed by the steps. */
  function Nodes(entry: string, steps: seq<Step>): seq<Step> {
    [Step(entry, "", 0, None)] + steps
  }

  predicate DistinctNames(nodes: seq<Step>) {
    forall i, j :: 0 <= i < j < |nodes| ==> nodes[i].name != nodes[j].name
  }

  predicate NondecreasingDepth(nodes: seq<Step>) {
    forall i, j :: 0 <= i < j < |nodes| ==> nodes[i].depth <= nodes[j].depth
  }

  function NameSet(nodes: seq<Step>): set<string> {
    set i | 0 <= i < |nodes| :: nodes[i].name
  }

  /** A step's depth is its distance from the entry, and its caller is one level up with an edge. */
  predicate Placed(g: Graph, entry: string, maxDepth: nat, defs: map<string, seq<Def>>, n: Step) {
    && 1 <= n.depth <= maxDepth
    && n.name in Level(g, {entry}, n.depth)
    && n.caller in Level(g, {entry}, n.depth - 1)
    && n.caller in g && n.name in g[n.caller]
    && n.def == if n.name in defs && defs[n.name] != [] then Some(defs[n.name][0]) else None
  }

  /** What the listed steps promise, apart from being complete. */
  predicate Listed(g: Graph, entry: string, maxDepth: nat, defs: map<string, seq<Def>>, steps: seq<Step>) {
    && DistinctNames(Nodes(entry, steps)) && NondecreasingDepth(steps)
    && forall i :: 0 <= i < |steps| ==> Placed(g, entry, maxDepth, defs, steps[i])
  }

  // ---------------------------------------------------------------- the invariant of the search

  /** `nodes` is the entry and the steps so far; the queue is its part from `head` on. The nodes
      before `head` are expanded. All names no further than the head's depth have been found, and
      nothing more than one level further. */
  predicate Progress(g: Graph, entry: string, maxDepth: nat, nodes: seq<Step>, head: nat) {
    && head <= |nodes|
    && DistinctNames(nodes) && NondecreasingDepth(nodes)
    && (forall i :: 0 <= i < |nodes| ==> nodes[i].depth <= maxDepth && nodes[i].name in Level(g, {entry}, nodes[i].depth))
    && (forall i :: 0 <= i < head && nodes[i].depth < maxDepth ==> Next(g, nodes[i].name) <= NameSet(nodes))
    && (head < |nodes| ==>
          && nodes[|nodes| - 1].depth <= nodes[head].depth + 1
          && Seen(g, {entry}, nodes[head].depth) <= NameSet(nodes))
  }

  lemma LevelsAreDisjoint(g: Graph, seeds: set<string>, n: string, i: nat, j: nat)
    requires n in Level(g, seeds, i) && n in Level(g, seeds, j)
    ensures i == j
  {
    LevelIsShortestDistance(g, seeds, n, i);
    LevelIsShortestDistance(g, seeds, n, j);
  }

  lemma {:induction false} LevelIsSeen(g: Graph, seeds: set<string>, k: nat)
    ensures Level(g, seeds, k) <= Seen(g, seeds, k)
  {
  }

  /** An unseen callee of the head is one level further than the head. */
  lemma CalleeIsOneLevelDown(g: Graph, entry: string, n: string, depth: nat, callee: string, found: set<string>)
    requires n in Level(g, {entry}, depth) && callee in Next(g, n)
    requires Seen(g, {entry}, depth) <= found && callee !in found
    ensures callee in Level(g, {entry}, depth + 1)
  {
    NextLevel(g, {entry}, depth);
  }

  lemma AppendName(nodes: seq<Step>, n: Step)
    ensures NameSet(nodes + [n]) == NameSet(nodes) + {n.name}
  {
    var more := nodes + [n];
    forall x | x in NameSet(nodes) ensures x in NameSet(more) {
      var i :| 0 <= i < |nodes| && nodes[i].name == x;
      assert more[i].name == x;
    }
    assert more[|nodes|].name == n.name;
  }

  lemma AppendCallee(g: Graph, entry: string, maxDepth: nat, nodes: seq<Step>, head: nat, n: Step)
    requires Progress(g, entry, maxDepth, nodes, head) && head < |nodes| && nodes[head].depth < maxDepth
    requires n.name in Next(g, nodes[head].name) && n.name !in NameSet(nodes) && n.depth == nodes[head].depth + 1
    ensures Progress(g, entry, maxDepth, nodes + [n], head)
    ensures n.name in Level(g, {entry}, n.depth)
  {
    hide Level;
    hide Seen;
    CalleeIsOneLevelDown(g, entry, nodes[head].name, nodes[head].depth, n.name, NameSet(nodes));
    AppendName(nodes, n);
    forall i | 0 <= i < |nodes| ensures nodes[i].name != n.name {
      assert nodes[i].name in NameSet(nodes);
    }
  }

  /** When every node of depth d is expanded, everything within d + 1 has been found. */
  lemma LevelIsExpanded(g: Graph, entry: string, nodes: seq<Step>, d: nat)
    requires Seen(g, {entry}, d) <= NameSet(nodes)
    requires forall i :: 0 <= i < |nodes| ==> nodes[i].name in Level(g, {entry}, nodes[i].depth)
    requires forall i :: 0 <= i < |nodes| && nodes[i].depth == d ==> Next(g, nodes[i].name) <= NameSet(nodes)
    ensures Seen(g, {entry}, d + 1) <= NameSet(nodes)
  {
    hide Level;
    hide Seen;
    NextLevel(g, {entry}, d);
    LevelIsSeen(g, {entry}, d);
    forall a, b | a in Level(g, {entry}, d) && b in Next(g, a) ensures b in NameSet(nodes) {
      assert a in NameSet(nodes);
      var i :| 0 <= i < |nodes| && nodes[i].name == a;
      LevelsAreDisjoint(g, {entry}, a, d, nodes[i].depth);
    }
  }

  /** Popping the head once its callees have all been found. */
  lemma PopHead(g: Graph, entry: string, maxDepth: nat, nodes: seq<Step>, head: nat)
    requires Progress(g, entry, maxDepth, nodes, head) && head < |nodes|
    requires nodes[head].depth < maxDepth ==> Next(g, nodes[head].name) <= NameSet(nodes)
    ensures Progress(g, entry, maxDepth, nodes, head + 1)
  {
    hide Level;
    hide Seen;
    if head + 1 < |nodes| && nodes[head + 1].depth != nodes[head].depth {
      LevelIsExpanded(g, entry, nodes, nodes[head].depth);
    }
  }

  lemma {:induction false} DrainedIsComplete(g: Graph, entry: string, maxDepth: nat, nodes: seq<Step>, k: nat)
    requires Progress(g, entry, maxDepth, nodes, |nodes|) && entry in NameSet(nodes) && k <= maxDepth
    ensures Seen(g, {entry}, k) <= NameSet(nodes)
  {
    hide Level;
    hide Seen;
    FirstLevel(g, {entry});
    if k > 0 {
      DrainedIsComplete(g, entry, maxDepth, nodes, k - 1);
      LevelIsExpanded(g, entry, nodes, k - 1);
    }
  }

  lemma DrainedIsExact(g: Graph, entry: string, maxDepth: nat, nodes: seq<Step>)
    requires Progress(g, entry, maxDepth, nodes, |nodes|) && entry in NameSet(nodes)
    ensures NameSet(nodes) == Seen(g, {entry}, maxDepth)
  {
    hide Level;
    hide Seen;
    DrainedIsComplete(g, entry, maxDepth, nodes, maxDepth);
    forall i | 0 <= i < |nodes| ensures nodes[i].name in Seen(g, {entry}, maxDepth) {
      LevelIsSeen(g, {entry}, nodes[i].depth);
      SeenGrows(g, {entry}, nodes[i].depth, maxDepth);
    }
  }

  // ---------------------------------------------------------------- the search itself

  function Queue(nodes: seq<Step>, head: nat): seq<(string, nat)>
    requires head <= |nodes|
  {
    seq(|nodes| - head, i requires 0 <= i < |nodes| - head => (nodes[head + i].name, nodes[head + i].depth))
  }

  /** What holds between pops, of the steps, the visited set and the queue. */
  predicate Searching(g: Graph, entry: string, maxDepth: nat, defs: map<string, seq<Def>>,
                      steps: seq<Step>, visited: set<string>, head: nat) {
    && Progress(g, entry, maxDepth, Nodes(entry, steps), head)
    && Listed(g, entry, maxDepth, defs, steps)
    && visited == NameSet(Nodes(entry, steps))
    && entry in visited && visited <= {entry} + Image(g, g.Keys)
  }

  /** The inner loop: queue and list the unvisited callees of the popped head. */
  method VisitCallees(g: Graph, entry: string, maxDepth: nat, defs: map<string, seq<Def>>, current: string, depth: nat,
                      steps0: seq<Step>, visited0: set<string>, frontier0: seq<(string, nat)>, ghost head: nat)
    returns (steps: seq<Step>, visited: set<string>, frontier: seq<(string, nat)>)
    requires Searching(g, entry, maxDepth, defs, steps0, visited0, head) && depth < maxDepth
    requires head < |Nodes(entry, steps0)| && frontier0 == Queue(Nodes(entry, steps0), head + 1)
    requires Nodes(entry, steps0)[head].name == current && Nodes(entry, steps0)[head].depth == depth
    ensures Searching(g, entry, maxDepth, defs, steps, visited, head)
    ensures head < |Nodes(entry, steps)| && frontier == Queue(Nodes(entry, steps), head + 1)
    ensures Nodes(entry, steps)[head] == Nodes(entry, steps0)[head]
    ensures Next(g, current) <= visited && visited0 <= visited
    ensures visited == visited0 ==> frontier == frontier0
  {
    hide Progress;
    hide Listed;
    steps, visited, frontier := steps0, visited0, frontier0;
    var callees := SortNames(Next(g, current));
    var i := 0;
    while i < |callees|
      invariant 0 <= i <= |callees| && head < |Nodes(entry, steps)|
      invariant Nodes(entry, steps)[head] == Nodes(entry, steps0)[head]
      invariant frontier == Queue(Nodes(entry, steps), head + 1)
      invariant Searching(g, entry, maxDepth, defs, steps, visited, head)
      invariant visited0 <= visited && (visited == visited0 ==> frontier == frontier0)
      invariant SetOf(callees[..i]) <= visited
    {
      var callee := callees[i];
      assert callee in SetOf(callees);
      if callee !in visited {
        var n := Step(callee, current, depth + 1, FirstDef(defs, callee));
        TakeCallee(g, entry, maxDepth, defs, steps, head, n);
        visited := visited + {callee};
        steps := steps + [n];
        frontier := frontier + [(callee, depth + 1)];
      }
      i := i + 1;
    }
    assert callees[..|callees|] == callees;
  }

  method Search(g: Graph, entry: string, maxDepth: nat, defs: map<string, seq<Def>>)
    returns (steps: seq<Step>, visited: set<string>)
    ensures Listed(g, entry, maxDepth, defs, steps)
    ensures visited == NameSet(Nodes(entry, steps)) == Seen(g, {entry}, maxDepth)
  {
    hide Level;
    hide Seen;
    hide Progress;
    hide Listed;
    visited, steps := {entry}, [];
    var frontier: seq<(string, nat)> := [(entry, 0)];
    ghost var head := 0;
    StartSearch(g, entry, maxDepth, defs);
    while frontier != []
      invariant head <= |Nodes(entry, steps)| && frontier == Queue(Nodes(entry, steps), head)
      invariant Searching(g, entry, maxDepth, defs, steps, visited, head)
      decreases {entry} + Image(g, g.Keys) - visited, |frontier|
    {
      var (current, depth) := frontier[0];
      frontier := frontier[1..];
      assert frontier == Queue(Nodes(entry, steps), head + 1);
      if depth < maxDepth {
        steps, visited, frontier := VisitCallees(g, entry, maxDepth, defs, current, depth, steps, visited, frontier, head);
      }
      PopHead(g, entry, maxDepth, Nodes(entry, steps), head);
      head := head + 1;
    }
    DrainedIsExact(g, entry, maxDepth, Nodes(entry, steps));
  }

  lemma StartSearch(g: Graph, entry: string, maxDepth: nat, defs: map<string, seq<Def>>)
    ensures Progress(g, entry, maxDepth, Nodes(entry, []), 0) && Listed(g, entry, maxDepth, defs, [])
    ensures NameSet(Nodes(entry, [])) == {entry}
  {
    assert Nodes(entry, [])[0].name == entry;
  }

  lemma TakeCallee(g: Graph, entry: string, maxDepth: nat, defs: map<string, seq<Def>>, steps: seq<Step>, head: nat, n: Step)
    requires Progress(g, entry, maxDepth, Nodes(entry, steps), head) && Listed(g, entry, maxDepth, defs, steps)
    requires head < |Nodes(entry, steps)| && Nodes(entry, steps)[head].depth < maxDepth
    requires n == Step(n.name, Nodes(entry, steps)[head].name, Nodes(entry, steps)[head].depth + 1, FirstDef(defs, n.name))
    requires n.name in Next(g, n.caller) && n.name !in NameSet(Nodes(entry, steps))
    ensures Progress(g, entry, maxDepth, Nodes(entry, steps + [n]), head) && Listed(g, entry, maxDepth, defs, steps + [n])
    ensures Nodes(entry, steps + [n]) == Nodes(entry, steps) + [n]
    ensures NameSet(Nodes(entry, steps + [n])) == NameSet(Nodes(entry, steps)) + {n.name}
  {
    hide Progress;
    hide Listed;
    var nodes := Nodes(entry, steps);
    assert Nodes(entry, steps + [n]) == nodes + [n];
    AppendCallee(g, entry, maxDepth, nodes, head, n);
    AppendName(nodes, n);
    AppendListed(g, entry, maxDepth, defs, steps, head, n);
  }

  lemma AppendListed(g: Graph, entry: string, maxDepth: nat, defs: map<string, seq<Def>>, steps: seq<Step>, head: nat, n: Step)
    requires Listed(g, entry, maxDepth, defs, steps) && Progress(g, entry, maxDepth, Nodes(entry, steps), head)
    requires head < |Nodes(entry, steps)| && Nodes(entry, steps)[head].depth < maxDepth
    requires n == Step(n.name, Nodes(entry, steps)[head].name, Nodes(entry, steps)[head].depth + 1, FirstDef(defs, n.name))
    requires n.name in Next(g, n.caller) && n.name !in NameSet(Nodes(entry, steps)) && n.name in Level(g, {entry}, n.depth)
    ensures Listed(g, entry, maxDepth, defs, steps + [n])
  {
    hide Level;
    hide Seen;
    var nodes := Nodes(entry, steps);
    assert Nodes(entry, steps + [n]) == nodes + [n];
    forall i | 0 <= i < |nodes| ensures nodes[i].name != n.name {
      assert nodes[i].name in NameSet(nodes);
    }
    forall i | 0 <= i < |steps| ensures steps[i].depth <= n.depth {
      assert nodes[i + 1] == steps[i];
    }
  }

  // ---------------------------------------------------------------- the whole trace

  /** Python's max(1, min(depth, 50)). */
  function Clamp(depth: int): nat {
    if depth < 1 then 1 else if depth > 50 then 50 else depth
  }

  /** The depth limit is the one asked for, except that it is at least 1 and at most 50. */
  lemma ClampIs(depth: int)
    ensures 1 <= Clamp(depth) <= 50
    ensures 1 <= depth <= 50 ==> Clamp(depth) == depth
    ensures depth < 1 ==> Clamp(depth) == 1
    ensures depth > 50 ==> Clamp(depth) == 50
  {
  }

  /** Without a hint all definitions are candidates; with one exactly those in that file, in order. */
  lemma {:induction false} CandidatesAre(definitions: seq<Def>, d: Def, fileHint: Option<string>)
    ensures fileHint == None || fileHint.value == "" ==> Candidates(definitions, fileHint) == definitions
    ensures fileHint.Some? && fileHint.value != "" ==>
              && Candidates([], fileHint) == []
              && Candidates(definitions + [d], fileHint) == Candidates(definitions, fileHint) + (if d.file == fileHint.value then [d] else [])
  {
    if definitions != [] {
      CandidatesAre(definitions[1..], d, fileHint);
      assert (definitions + [d])[1..] == definitions[1..] + [d];
    } else {
      assert [] + [d] == [d] && [d][1..] == [];
    }
  }

  function Candidates(definitions: seq<Def>, fileHint: Option<string>): seq<Def> {
    if fileHint.None? || fileHint.value == "" then definitions
    else if definitions == [] then []
    else (if definitions[0].file == fileHint.value then [definitions[0]] else []) + Candidates(definitions[1..], fileHint)
  }

  /** The steps list every symbol reachable in at most maxDepth calls exactly once, in order of
      distance; the chain is built from exactly those symbols. A hint that matches no definition
      of a known symbol reads the head of an empty list. */
  ghost predicate TraceSpec(g: Graph, defs: map<string, seq<Def>>, entry: string, definitions: seq<Def>,
                            fileHint: Option<string>, depth: int, flow: Flow) {
    var found := Candidates(definitions, fileHint);
    var maxDepth := Clamp(depth);
    if definitions == [] then flow == NotFound
    else if |found| > 1 then flow == Ambiguous(found)
    else if found == [] then flow == IndexError
    else
      && flow.Traced?
      && Listed(g, entry, maxDepth, defs, flow.steps)
      && NameSet(Nodes(entry, flow.steps)) == Seen(g, {entry}, maxDepth)
      && (flow.maxDepthReached <==> exists i :: 0 <= i < |flow.steps| && flow.steps[i].depth == maxDepth)
      && flow.chain.name == entry
      && CallChain.Built(flow.chain, g, Seen(g, {entry}, maxDepth), maxDepth, 0, {})
  }

  method Trace(g: Graph, defs: map<string, seq<Def>>, entry: string, definitions: seq<Def>, fileHint: Option<string>, depth: int)
    returns (flow: Flow)
    ensures TraceSpec(g, defs, entry, definitions, fileHint, depth, flow)
  {
    hide Seen;
    hide Listed;
    if definitions == [] {
      return NotFound;
    }
    var found := Candidates(definitions, fileHint);
    if |found| > 1 {
      return Ambiguous(found);
    }
    if found == [] {
      return IndexError;
    }
    var maxDepth := Clamp(depth);
    var steps, visited := Search(g, entry, maxDepth, defs);
    var path := new CallChain.PathSet();
    var chain := CallChain.Build(g, visited, maxDepth, 0, path, entry);
    flow := Traced(steps, exists i :: 0 <= i < |steps| && steps[i].depth == maxDepth, chain);
  }

  /** In a trace, filtering callees by the visited set cuts nothing off: the branches of the chain
      are all the call paths from the entry within the depth limit that repeat no name before
      their end, whether or not the search is mentioned. */
  lemma ChainHasEveryCallPath(g: Graph, entry: string, maxDepth: nat, c: CallChain.Chain, p: seq<string>)
    requires c.name == entry && CallChain.Built(c, g, Seen(g, {entry}, maxDepth), maxDepth, 0, {})
    requires maxDepth >= 1
    ensures (exists t :: CallChain.HasBranch(c, p, t)) <==>
      IsPath(g, p) && p[0] == entry && |p| - 1 <= maxDepth && CallChain.SimpleButLast(p, {})
  {
    hide CallChain.Built;
    hide CallChain.HasBranch;
    var visited := Seen(g, {entry}, maxDepth);
    CallChain.BranchesAreGenuinePaths(c, g, visited, maxDepth, 0, {}, p, true);
    CallChain.BranchesAreGenuinePaths(c, g, visited, maxDepth, 0, {}, p, false);
    if IsPath(g, p) && p[0] == entry && |p| - 1 <= maxDepth {
      forall i | 1 <= i < |p| ensures p[i] in visited {
        assert PathOf(g, {entry}, p[i], i, p[..i + 1]);
        ReachIsSeen(g, {entry}, p[i], i);
        SeenGrows(g, {entry}, i, maxDepth);
      }
      assert CallChain.HasBranch(c, p, CallChain.Ends(maxDepth, 0, {}, p)) <==> CallChain.SimpleButLast(p, {});
    }
  }
}
