/** The nested call chain of shared/code_graph.py: a depth-limited backtracking walk that keeps the
    names of the current branch in one mutable set shared by the whole recursion. */
module CallChain {
  import opened CodeGraph
  import opened Names

  datatype Chain = Chain(name: string, callees: seq<Chain>, truncated: bool)

  function NamesOf(cs: seq<Chain>): seq<string> {
    seq(|cs|, i requires 0 <= i < |cs| => cs[i].name)
  }

  /** The Python set that the recursion mutates. */
  class PathSet {
    var names: set<string>

    constructor ()
      ensures names == {}
    {
      names := {};
    }
  }

  predicate Cut(maxDepth: int, depth: int, path: set<string>, name: string) {
    depth >= maxDepth || name in path
  }

  /** The shape of a chain built at `depth` below the branch `path`. */
  predicate Built(c: Chain, g: Graph, visited: set<string>, maxDepth: int, depth: int, path: set<string>)
    decreases c
  {
    if Cut(maxDepth, depth, path, c.name) then c.callees == [] && c.truncated
    else
      && !c.truncated
      && Ascending(NamesOf(c.callees))
      && SetOf(NamesOf(c.callees)) == Next(g, c.name) * visited
      && forall i :: 0 <= i < |c.callees| ==> Built(c.callees[i], g, visited, maxDepth, depth + 1, path + {c.name})
  }

  method Build(g: Graph, visited: set<string>, maxDepth: int, depth: int, path: PathSet, name: string) returns (c: Chain)
    modifies path
    ensures path.names == old(path.names)
    ensures c.name == name && Built(c, g, visited, maxDepth, depth, path.names)
    decreases maxDepth - depth
  {
    if depth >= maxDepth || name in path.names {
      return Chain(name, [], true);
    }
    ghost var branch := path.names;
    path.names := path.names + {name};
    var callees := SortNames(Next(g, name));
    var chains := [];
    var i := 0;
    while i < |callees|
      invariant 0 <= i <= |callees| && path.names == branch + {name}
      invariant Ascending(NamesOf(chains))
      invariant SetOf(NamesOf(chains)) == SetOf(callees[..i]) * visited
      invariant forall k :: 0 <= k < |chains| ==> Built(chains[k], g, visited, maxDepth, depth + 1, branch + {name})
    {
      if callees[i] in visited {
        var child := Build(g, visited, maxDepth, depth + 1, path, callees[i]);
        AppendChild(callees, i, visited, chains, child);
        chains := chains + [child];
      }
      assert SetOf(callees[..i + 1]) == SetOf(callees[..i]) + {callees[i]};
      i := i + 1;
    }
    assert callees[..|callees|] == callees;
    path.names := path.names - {name};
    c := Chain(name, chains, false);
  }

  lemma AppendChild(callees: seq<string>, i: nat, visited: set<string>, chains: seq<Chain>, child: Chain)
    requires i < |callees| && Ascending(callees) && child.name == callees[i] && callees[i] in visited
    requires Ascending(NamesOf(chains)) && SetOf(NamesOf(chains)) == SetOf(callees[..i]) * visited
    ensures Ascending(NamesOf(chains + [child]))
    ensures SetOf(NamesOf(chains + [child])) == (SetOf(callees[..i]) + {callees[i]}) * visited
  {
    hide Less;
    var names := NamesOf(chains);
    assert NamesOf(chains + [child]) == names + [child.name];
    forall k | 0 <= k < |names| ensures Less(names[k], child.name) {
      assert names[k] in SetOf(names);
      var m :| 0 <= m < i && callees[..i][m] == names[k];
    }
    assert SetOf(names + [child.name]) == SetOf(names) + {child.name};
  }

  // ---------------------------------------------------------------- what the chain contains

  /** The names from the root of c to one of its nodes, that node being marked truncated or not. */
  predicate HasBranch(c: Chain, p: seq<string>, truncated: bool)
    decreases c
  {
    && p != [] && p[0] == c.name
    && (if |p| == 1 then c.truncated == truncated
        else exists i :: 0 <= i < |c.callees| && HasBranch(c.callees[i], p[1..], truncated))
  }

  /** No name of p but the last repeats an earlier one or occurs in `path`. */
  predicate SimpleButLast(p: seq<string>, path: set<string>) {
    && (forall i :: 0 <= i < |p| - 1 ==> p[i] !in path)
    && (forall i, j :: 0 <= i < j < |p| - 1 ==> p[i] != p[j])
  }

  /** p is a call path from its first name through visited names, within the depth limit, with no
      repetition before its end. */
  predicate Genuine(g: Graph, visited: set<string>, maxDepth: int, depth: int, path: set<string>, p: seq<string>) {
    && IsPath(g, p)
    && (forall i :: 1 <= i < |p| ==> p[i] in visited)
    && (|p| > 1 ==> depth + |p| - 1 <= maxDepth)
    && SimpleButLast(p, path)
  }

  /** The last name of p is at the depth limit or repeats a name of its own branch. */
  predicate Ends(maxDepth: int, depth: int, path: set<string>, p: seq<string>)
    requires p != []
  {
    depth + |p| - 1 >= maxDepth || p[|p| - 1] in path || p[|p| - 1] in p[..|p| - 1]
  }

  lemma GenuineTail(g: Graph, visited: set<string>, maxDepth: int, depth: int, path: set<string>, p: seq<string>)
    requires |p| >= 2
    ensures Genuine(g, visited, maxDepth, depth, path, p) <==>
      && !Cut(maxDepth, depth, path, p[0])
      && p[1] in Next(g, p[0]) * visited
      && Genuine(g, visited, maxDepth, depth + 1, path + {p[0]}, p[1..])
    ensures Ends(maxDepth, depth, path, p) <==> Ends(maxDepth, depth + 1, path + {p[0]}, p[1..])
  {
    var q := p[1..];
    assert p == [p[0]] + q;
    assert forall i :: 0 <= i < |q| ==> q[i] == p[i + 1];
    assert p[..|p| - 1] == [p[0]] + q[..|q| - 1];
    if Genuine(g, visited, maxDepth, depth, path, p) {
      assert IsPath(g, q);
    }
    if p[1] in Next(g, p[0]) && IsPath(g, q) {
      forall i | 0 <= i < |p| - 1 ensures p[i + 1] in Next(g, p[i]) {
        if i > 0 { assert q[i - 1 + 1] in Next(g, q[i - 1]); }
      }
    }
  }

  /** The branches of a chain are exactly the genuine call paths, and a node is marked truncated
      exactly when it is at the depth limit or repeats a name of its branch. */
  lemma {:induction false} BranchesAreGenuinePaths(c: Chain, g: Graph, visited: set<string>, maxDepth: int, depth: int,
                                                   path: set<string>, p: seq<string>, truncated: bool)
    requires Built(c, g, visited, maxDepth, depth, path)
    ensures HasBranch(c, p, truncated) <==>
      && p != [] && p[0] == c.name
      && Genuine(g, visited, maxDepth, depth, path, p)
      && truncated == Ends(maxDepth, depth, path, p)
    decreases p
  {
    if p != [] && p[0] == c.name && |p| >= 2 {
      GenuineTail(g, visited, maxDepth, depth, path, p);
      if !Cut(maxDepth, depth, path, c.name) {
        assert HasBranch(c, p, truncated) <==> exists i :: 0 <= i < |c.callees| && HasBranch(c.callees[i], p[1..], truncated);
        forall i | 0 <= i < |c.callees|
          ensures HasBranch(c.callees[i], p[1..], truncated) <==>
            && p[1] == c.callees[i].name
            && Genuine(g, visited, maxDepth, depth + 1, path + {p[0]}, p[1..])
            && truncated == Ends(maxDepth, depth + 1, path + {p[0]}, p[1..])
        {
          BranchesAreGenuinePaths(c.callees[i], g, visited, maxDepth, depth + 1, path + {c.name}, p[1..], truncated);
        }
        if p[1] in Next(g, p[0]) * visited {
          assert p[1] in NamesOf(c.callees);
          var i :| 0 <= i < |c.callees| && NamesOf(c.callees)[i] == p[1];
        } else {
          forall i | 0 <= i < |c.callees| ensures c.callees[i].name != p[1] {
            assert NamesOf(c.callees)[i] in SetOf(NamesOf(c.callees));
          }
        }
      }
    }
  }
}
