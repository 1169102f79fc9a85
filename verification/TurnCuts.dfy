/** Turns over several invocations of the hook, in hooks/langfuse_hook.py. Each invocation groups the
    rows added since the last one, so a turn that is still open when it reads is emitted as it is
    then, and the rows that follow before the next user row are in no later turn. */
module TurnCuts {
  import opened Turns

  // ---------------------------------------------------------------- cuts

  /** The rows before the first user row. */
  function Lead(rows: seq<Row>): (lead: seq<Row>)
    ensures lead <= rows
    ensures forall i :: 0 <= i < |lead| ==> !lead[i].User?
    ensures rows[|lead|..] == [] || OpensWithUser(rows[|lead|..])
  {
    if rows == [] || rows[0].User? then [] else [rows[0]] + Lead(rows[1..])
  }

  /** The rows of the turn that is open at the end. */
  function OpenBody(rows: seq<Row>): seq<Row> {
    rows[LastUser(rows) + 1..]
  }

  /** The turn open at the end of `rows`, as it is when `more` of its rows follow. */
  function OpenTurn(rows: seq<Row>, more: seq<Row>): seq<Turn> {
    var u := LastUser(rows);
    if u < 0 then [] else TurnOf(rows[u], Gather(OpenBody(rows) + more))
  }

  /** The turns before the last user row. */
  function ClosedTurns(rows: seq<Row>): seq<Turn> {
    var u := LastUser(rows);
    if u < 0 then [] else TurnsOf(rows[..u])
  }

  lemma OpenAndClosed(rows: seq<Row>)
    ensures TurnsOf(rows) == ClosedTurns(rows) + OpenTurn(rows, [])
  {
    hide *;
    TurnsWithLead(rows, []);
    assert rows + [] == rows;
  }

  lemma TurnsSkipLead(rows: seq<Row>)
    ensures TurnsOf(rows[|Lead(rows)|..]) == TurnsOf(rows)
  {
    hide TurnsOf;
    hide LastUser;
    hide Lead;
    var lead := Lead(rows);
    assert rows == lead + rows[|lead|..];
    TurnsCompose(lead, rows[|lead|..]);
    NoTurns(lead);
  }

  lemma OpenAndClosedAre(a: seq<Row>, lead: seq<Row>)
    ensures var u := LastUser(a);
            && ClosedTurns(a) == (if u < 0 then [] else TurnsOf(a[..u]))
            && OpenTurn(a, lead) == (if u < 0 then [] else TurnOf(a[u], Gather(a[u + 1..] + lead)))
  {
    hide TurnsOf;
    hide Gather;
    hide TurnOf;
  }

  lemma TurnsWithLead(a: seq<Row>, lead: seq<Row>)
    requires forall i :: 0 <= i < |lead| ==> !lead[i].User?
    ensures TurnsOf(a + lead) == ClosedTurns(a) + OpenTurn(a, lead)
  {
    hide *;
    var u := LastUser(a);
    OpenAndClosedAre(a, lead);
    if u < 0 {
      assert LastUser(a + lead) < 0;
      NoTurns(a + lead);
    } else {
      LastTurn(a + lead, u);
      assert (a + lead)[..u] == a[..u];
      assert (a + lead)[u + 1..] == a[u + 1..] + lead;
    }
  }

  /** The turns of a concatenation: only the open turn of the first part sees the second, and only
      its rows before the first user row. */
  lemma TurnsOfConcatenation(a: seq<Row>, b: seq<Row>)
    ensures TurnsOf(a + b) == ClosedTurns(a) + OpenTurn(a, Lead(b)) + TurnsOf(b)
  {
    hide TurnsOf;
    hide ClosedTurns;
    hide OpenTurn;
    hide Lead;
    var lead := Lead(b);
    TurnsSkipLead(b);
    assert a + b == (a + lead) + b[|lead|..];
    TurnsCompose(a + lead, b[|lead|..]);
    TurnsWithLead(a, lead);
  }

  /** What an invocation emitted of its open turn is what the turn becomes. */
  predicate KeepsOpenTurn(a: seq<Row>, later: seq<Row>) {
    OpenTurn(a, Lead(later)) == OpenTurn(a, [])
  }

  /** One cut: two invocations emit the turns of the whole iff the open turn is kept. */
  lemma CutIff(a: seq<Row>, b: seq<Row>)
    ensures TurnsOf(a + b) == TurnsOf(a) + TurnsOf(b) <==> KeepsOpenTurn(a, b)
  {
    hide TurnsOf;
    hide ClosedTurns;
    hide OpenTurn;
    hide Lead;
    TurnsOfConcatenation(a, b);
    OpenAndClosed(a);
    SplitEqual(ClosedTurns(a), OpenTurn(a, Lead(b)), OpenTurn(a, []), TurnsOf(b));
  }

  lemma SplitEqual<T>(x: seq<T>, y: seq<T>, z: seq<T>, w: seq<T>)
    ensures x + y + w == x + z + w <==> y == z
  {
    if x + y + w == x + z + w {
      assert |y| == |z|;
      assert (x + y + w)[|x|..|x| + |y|] == y;
      assert (x + z + w)[|x|..|x| + |z|] == z;
    }
  }

  // ---------------------------------------------------------------- any number of invocations

  function Concat(batches: seq<seq<Row>>): seq<Row> {
    if batches == [] then [] else batches[0] + Concat(batches[1..])
  }

  /** The turns emitted by one invocation per batch of rows. */
  function Emitted(batches: seq<seq<Row>>): seq<Turn> {
    if batches == [] then [] else TurnsOf(batches[0]) + Emitted(batches[1..])
  }

  predicate AllKept(batches: seq<seq<Row>>) {
    forall i :: 0 <= i < |batches| ==> KeepsOpenTurn(batches[i], Concat(batches[i + 1..]))
  }

  lemma AllKeptCons(batches: seq<seq<Row>>)
    requires batches != []
    ensures AllKept(batches) <==> KeepsOpenTurn(batches[0], Concat(batches[1..])) && AllKept(batches[1..])
  {
    hide KeepsOpenTurn;
    hide Concat;
    var rest := batches[1..];
    forall i | 0 <= i < |rest| ensures rest[i] == batches[i + 1] && rest[i + 1..] == batches[i + 1 + 1..] {
    }
    if KeepsOpenTurn(batches[0], Concat(batches[1..])) && AllKept(rest) {
      forall i | 0 <= i < |batches| ensures KeepsOpenTurn(batches[i], Concat(batches[i + 1..])) {
        if i > 0 {
          assert KeepsOpenTurn(rest[i - 1], Concat(rest[i - 1 + 1..]));
        }
      }
    }
    if AllKept(batches) {
      forall i | 0 <= i < |rest| ensures KeepsOpenTurn(rest[i], Concat(rest[i + 1..])) {
        assert KeepsOpenTurn(batches[i + 1], Concat(batches[i + 1 + 1..]));
      }
    }
  }

  /** A turn that was emitted does not disappear when more of its rows follow. */
  lemma OpenTurnGrows(a: seq<Row>, lead: seq<Row>)
    ensures |OpenTurn(a, [])| <= |OpenTurn(a, lead)|
  {
    hide Gather;
    hide LastUser;
    if LastUser(a) >= 0 {
      assert OpenBody(a) + [] == OpenBody(a);
      GatherKeeps(OpenBody(a), lead);
    }
  }

  /** Names, once given, stay. */
  lemma {:induction false} GatherKeeps(body: seq<Row>, lead: seq<Row>)
    ensures Gather(body).order <= Gather(body + lead).order
    ensures Gather(body).latest.Keys <= Gather(body + lead).latest.Keys
    ensures Gather(body).latest != map[] ==> Gather(body + lead).latest != map[]
  {
    hide Gather;
    hide Absorb;
    hide Synthetic;
    if lead == [] {
      assert body + lead == body;
    } else {
      var front, last := lead[..|lead| - 1], lead[|lead| - 1];
      GatherKeeps(body, front);
      assert body + lead == (body + front) + [last];
      GatherSnoc(body + front, last);
      AbsorbCases(Gather(body + front), last);
    }
    if Gather(body).latest != map[] {
      var n :| n in Gather(body).latest;
      assert n in Gather(body + lead).latest;
    }
  }

  lemma {:induction false} EmittedAtMost(batches: seq<seq<Row>>)
    ensures |Emitted(batches)| <= |TurnsOf(Concat(batches))|
  {
    hide TurnsOf;
    hide ClosedTurns;
    hide OpenTurn;
    hide Lead;
    if batches != [] {
      var a, b := batches[0], Concat(batches[1..]);
      EmittedAtMost(batches[1..]);
      TurnsOfConcatenation(a, b);
      OpenAndClosed(a);
      OpenTurnGrows(a, Lead(b));
    }
  }

  /** The exact condition: one invocation per batch, the turns emitted are those of the whole
      transcript if and only if for every batch the turn it leaves open is, with the rows that
      follow up to the next user row, still the turn that was emitted. */
  lemma {:induction false} InvocationsEmitAllTurnsIff(batches: seq<seq<Row>>)
    ensures Emitted(batches) == TurnsOf(Concat(batches)) <==> AllKept(batches)
  {
    hide TurnsOf;
    hide ClosedTurns;
    hide OpenTurn;
    hide Lead;
    hide AllKept;
    if batches == [] {
      NoTurns([]);
      NothingKept();
    } else {
      var a, rest := batches[0], batches[1..];
      var b := Concat(rest);
      InvocationsEmitAllTurnsIff(rest);
      EmittedAtMost(rest);
      AllKeptCons(batches);
      TurnsOfConcatenation(a, b);
      OpenAndClosed(a);
      OpenTurnGrows(a, Lead(b));
      BothEqual(ClosedTurns(a), OpenTurn(a, []), OpenTurn(a, Lead(b)), Emitted(rest), TurnsOf(b));
    }
  }

  lemma NothingKept()
    ensures AllKept([])
  {
  }

  lemma BothEqual<T>(x: seq<T>, y: seq<T>, y': seq<T>, z: seq<T>, z': seq<T>)
    requires |y| <= |y'| && |z| <= |z'|
    ensures x + y + z == x + y' + z' <==> y == y' && z == z'
  {
    if x + y + z == x + y' + z' {
      assert |y| == |y'|;
      assert (x + y + z)[|x|..|x| + |y|] == y;
      assert (x + y' + z')[|x|..|x| + |y|] == y';
      assert (x + y + z)[|x| + |y|..] == z;
      assert (x + y' + z')[|x| + |y|..] == z';
    }
  }

  /** In particular, invocations that read only at turn boundaries lose nothing. */
  lemma {:induction false} BoundaryReadsKeepAll(batches: seq<seq<Row>>)
    requires forall i :: 1 <= i < |batches| ==> batches[i] == [] || OpensWithUser(batches[i])
    ensures AllKept(batches)
  {
    hide KeepsOpenTurn;
    hide Lead;
    if batches != [] {
      BoundaryReadsKeepAll(batches[1..]);
      AllKeptCons(batches);
      NoLead(batches[1..]);
      EmptyLeadKeeps(batches[0], Concat(batches[1..]));
    }
  }

  lemma EmptyLeadKeeps(a: seq<Row>, later: seq<Row>)
    requires Lead(later) == []
    ensures KeepsOpenTurn(a, later)
  {
  }

  lemma {:induction false} NoLead(batches: seq<seq<Row>>)
    requires forall i :: 0 <= i < |batches| ==> batches[i] == [] || OpensWithUser(batches[i])
    ensures Lead(Concat(batches)) == []
  {
    if batches != [] {
      NoLead(batches[1..]);
      if batches[0] == [] {
        assert Concat(batches) == Concat(batches[1..]);
      } else {
        assert Concat(batches)[0] == batches[0][0];
      }
    }
  }

  // ---------------------------------------------------------------- what keeps a turn, row by row

  /** The name under which the open turn would file this assistant row. */
  function NameIn(o: Open, row: Row): string
    requires row.Assistant?
  {
    if row.id != "" then row.id else Synthetic(|o.order|)
  }

  /** No later row of the lead is filed under the name of row i. */
  predicate IsLastNamed(o: Open, lead: seq<Row>, i: nat)
    requires i < |lead| && lead[i].Assistant?
  {
    forall j :: i < j < |lead| && lead[j].Assistant? ==> NameIn(o, lead[j]) != NameIn(o, lead[i])
  }

  /** Row i is under a name the turn has. */
  predicate IsKnown(o: Open, lead: seq<Row>, i: nat)
    requires i < |lead|
  {
    lead[i].Assistant? ==> NameIn(o, lead[i]) in o.latest
  }

  predicate AllKnown(o: Open, lead: seq<Row>) {
    forall i :: 0 <= i < |lead| ==> IsKnown(o, lead, i)
  }

  /** The turn has this very row as the version of its message. */
  predicate IsCurrent(o: Open, row: Row)
    requires row.Assistant?
  {
    NameIn(o, row) in o.latest && o.latest[NameIn(o, row)] == row
  }

  /** Every assistant row of the lead is of a message the turn has, and the last of each is the
      version it has. */
  predicate NoNewRow(o: Open, lead: seq<Row>) {
    && AllKnown(o, lead)
    && forall i :: 0 <= i < |lead| && lead[i].Assistant? && IsLastNamed(o, lead, i) ==> IsCurrent(o, lead[i])
  }

  predicate IsLastResult(results: seq<ToolResult>, i: nat)
    requires i < |results|
  {
    results[i].id != "" && forall j :: i < j < |results| ==> results[j].id != results[i].id
  }

  /** The last tool result of each id is the one the turn has. */
  predicate NoNewResult(kept: map<string, string>, results: seq<ToolResult>) {
    forall i :: 0 <= i < |results| && IsLastResult(results, i) ==>
      results[i].id in kept && kept[results[i].id] == results[i].content
  }

  /** The lead tells the open turn nothing new: no assistant row if it has none yet; otherwise no
      assistant row and no tool result that is new or changed. */
  predicate NoNews(o: Open, lead: seq<Row>) {
    if o.latest == map[] then forall i :: 0 <= i < |lead| ==> !lead[i].Assistant?
    else NoNewRow(o, lead) && NoNewResult(o.results, ResultsIn(lead))
  }

  /** The names of a turn are exactly those in its order. */
  predicate Filed(o: Open) {
    (forall k :: 0 <= k < |o.order| ==> o.order[k] in o.latest) && (forall n :: n in o.latest ==> n in o.order)
  }

  lemma {:induction false} GatherFiles(body: seq<Row>)
    ensures Filed(Gather(body))
  {
    hide Absorb;
    hide Synthetic;
    if body != [] {
      var front, last := body[..|body| - 1], body[|body| - 1];
      GatherFiles(front);
      AbsorbCases(Gather(front), last);
      FilesOneMore(Gather(front), last);
    }
  }

  lemma FilesOneMore(o: Open, row: Row)
    requires Filed(o)
    ensures Filed(Absorb(o, row))
  {
    hide Synthetic;
    var o' := Absorb(o, row);
    if row.Assistant? {
      var name := NameIn(o, row);
      if name !in o.latest {
        assert o'.order[|o.order|] == name;
      }
      forall n | n in o'.latest ensures n in o'.order {
        if n != name {
          var k :| 0 <= k < |o.order| && o.order[k] == n;
          assert o'.order[k] == n;
        }
      }
    }
  }

  /** The turn stays the same iff all that was gathered does, or it is still no turn. */
  lemma SameTurnIff(user: Row, o: Open, o': Open)
    requires Filed(o) && Filed(o') && o.order <= o'.order && o.latest.Keys <= o'.latest.Keys
    ensures TurnOf(user, o') == TurnOf(user, o) <==> if o.latest == map[] then o'.latest == map[] else o' == o
  {
    if o.latest != map[] {
      var n :| n in o.latest;
      assert o'.latest != map[];
      SelectAll(o.order, o.latest);
      SelectAll(o'.order, o'.latest);
      hide Select;
      if TurnOf(user, o') == TurnOf(user, o) {
        assert o'.order == o.order;
        assert Select(o'.order, o'.latest) == Select(o.order, o.latest);
        forall n | n in o'.latest ensures n in o.latest && o'.latest[n] == o.latest[n] {
          var k :| 0 <= k < |o'.order| && o'.order[k] == n;
          assert Select(o'.order, o'.latest)[k] == o'.latest[n];
        }
        assert o'.latest == o.latest;
      }
    }
  }

  /** The row filed last under a name. */
  function LastNamed(o: Open, lead: seq<Row>, n: string): Row
    requires n in o.latest
  {
    if lead == [] then o.latest[n]
    else
      var last := lead[|lead| - 1];
      if last.Assistant? && NameIn(o, last) == n then last else LastNamed(o, lead[..|lead| - 1], n)
  }

  lemma {:induction false} LastNamedIs(o: Open, lead: seq<Row>, n: string)
    requires n in o.latest
    ensures || (LastNamed(o, lead, n) == o.latest[n] && forall i :: 0 <= i < |lead| && lead[i].Assistant? ==> NameIn(o, lead[i]) != n)
            || exists i :: 0 <= i < |lead| && lead[i].Assistant? && NameIn(o, lead[i]) == n && IsLastNamed(o, lead, i) && LastNamed(o, lead, n) == lead[i]
  {
    hide NameIn;
    if lead != [] {
      var m := |lead| - 1;
      var front, last := lead[..m], lead[m];
      LastNamedIs(o, front, n);
      if last.Assistant? && NameIn(o, last) == n {
        assert IsLastNamed(o, lead, m);
      } else if i :| 0 <= i < m && front[i].Assistant? && NameIn(o, front[i]) == n && IsLastNamed(o, front, i) && LastNamed(o, front, n) == front[i] {
        assert lead[i] == front[i];
        forall j | i < j < |lead| && lead[j].Assistant? ensures NameIn(o, lead[j]) != NameIn(o, lead[i]) {
          if j < m {
            assert lead[j] == front[j];
          }
        }
        assert IsLastNamed(o, lead, i);
      }
    }
  }

  lemma {:induction false} LastNamedAt(o: Open, lead: seq<Row>, i: nat)
    requires i < |lead| && lead[i].Assistant? && NameIn(o, lead[i]) in o.latest && IsLastNamed(o, lead, i)
    ensures LastNamed(o, lead, NameIn(o, lead[i])) == lead[i]
  {
    hide NameIn;
    var m := |lead| - 1;
    if i < m {
      var front := lead[..m];
      assert front[i] == lead[i];
      forall j | i < j < m && front[j].Assistant? ensures NameIn(o, front[j]) != NameIn(o, front[i]) {
        assert lead[j] == front[j];
      }
      LastNamedAt(o, front, i);
    }
  }

  /** While every row is under a known name, names and their order stay, and each name's row is the
      one filed last. */
  lemma {:induction false} KnownRowsGather(body: seq<Row>, lead: seq<Row>)
    requires AllKnown(Gather(body), lead)
    ensures var o, o' := Gather(body), Gather(body + lead);
            && o'.order == o.order && o'.latest.Keys == o.latest.Keys
            && forall n :: n in o.latest ==> o'.latest[n] == LastNamed(o, lead, n)
  {
    hide Gather;
    hide Absorb;
    hide Synthetic;
    if lead == [] {
      assert body + lead == body;
    } else {
      var m := |lead| - 1;
      var front, last := lead[..m], lead[m];
      var o, f := Gather(body), Gather(body + front);
      forall i | 0 <= i < |front| ensures IsKnown(o, front, i) {
        assert IsKnown(o, lead, i) && lead[i] == front[i];
      }
      KnownRowsGather(body, front);
      assert IsKnown(o, lead, m);
      assert body + lead == (body + front) + [last];
      GatherSnoc(body + front, last);
      AbsorbCases(f, last);
    }
  }

  /** A row under a new name adds it. */
  lemma {:induction false} NewRowGrows(body: seq<Row>, lead: seq<Row>)
    requires !AllKnown(Gather(body), lead)
    ensures |Gather(body).order| < |Gather(body + lead).order|
  {
    hide Gather;
    hide Absorb;
    hide Synthetic;
    var m := |lead| - 1;
    var front, last := lead[..m], lead[m];
    var o, f := Gather(body), Gather(body + front);
    assert body + lead == (body + front) + [last];
    GatherSnoc(body + front, last);
    AbsorbCases(f, last);
    if AllKnown(o, front) {
      KnownRowsGather(body, front);
      KnownButLast(o, lead);
    } else {
      NewRowGrows(body, front);
    }
  }

  lemma KnownButLast(o: Open, lead: seq<Row>)
    requires lead != [] && !AllKnown(o, lead) && AllKnown(o, lead[..|lead| - 1])
    ensures !IsKnown(o, lead, |lead| - 1)
  {
    var m := |lead| - 1;
    forall i | 0 <= i < m ensures IsKnown(o, lead, i) {
      assert IsKnown(o, lead[..m], i) && lead[..m][i] == lead[i];
    }
  }

  /** Names, order and rows are unchanged iff the lead brings no new or changed row. */
  lemma SameRowsIff(body: seq<Row>, lead: seq<Row>)
    ensures var o, o' := Gather(body), Gather(body + lead);
            o'.order == o.order && o'.latest == o.latest <==> NoNewRow(o, lead)
  {
    hide Gather;
    hide NameIn;
    hide LastNamed;
    var o, o' := Gather(body), Gather(body + lead);
    if !AllKnown(o, lead) {
      NewRowGrows(body, lead);
    } else {
      KnownRowsGather(body, lead);
      if NoNewRow(o, lead) {
        forall n | n in o.latest ensures o'.latest[n] == o.latest[n] {
          LastNamedIs(o, lead, n);
        }
        assert o'.latest == o.latest;
      }
      if o'.latest == o.latest {
        forall i | 0 <= i < |lead| && lead[i].Assistant? && IsLastNamed(o, lead, i) ensures IsCurrent(o, lead[i]) {
          assert IsKnown(o, lead, i);
          LastNamedAt(o, lead, i);
        }
      }
    }
  }

  lemma {:induction false} ResultsGather(body: seq<Row>, lead: seq<Row>)
    ensures Gather(body + lead).results == Merge(Gather(body).results, ResultsIn(lead))
  {
    hide Gather;
    hide Absorb;
    hide Merge;
    if lead == [] {
      assert body + lead == body;
      MergeNothing(Gather(body).results);
    } else {
      var front, last := lead[..|lead| - 1], lead[|lead| - 1];
      ResultsGather(body, front);
      assert body + lead == (body + front) + [last];
      GatherSnoc(body + front, last);
      AbsorbCases(Gather(body + front), last);
      if last.ToolResults? {
        MergeAppend(Gather(body).results, ResultsIn(front), last.results);
      } else {
        assert ResultsIn(lead) == ResultsIn(front);
      }
    }
  }

  /** Merging changes nothing iff the last result of each id is already there. */
  lemma SameResultsIff(kept: map<string, string>, results: seq<ToolResult>)
    ensures Merge(kept, results) == kept <==> NoNewResult(kept, results)
  {
    hide Merge;
    if Merge(kept, results) == kept {
      forall i | 0 <= i < |results| && IsLastResult(results, i) ensures results[i].id in kept && kept[results[i].id] == results[i].content {
        LatestResultIsKept(kept, results, i);
      }
    }
    if NoNewResult(kept, results) {
      forall id ensures id in Merge(kept, results) <==> id in kept {
        MergedFrom(kept, results, id);
      }
      forall id | id in kept ensures Merge(kept, results)[id] == kept[id] {
        MergedFrom(kept, results, id);
      }
      assert Merge(kept, results) == kept;
    }
  }

  /** What merging says about an id comes from its last result, or was there before. */
  lemma {:induction false} MergedFrom(kept: map<string, string>, results: seq<ToolResult>, id: string)
    ensures var m := Merge(kept, results);
            || ((id in m <==> id in kept) && (id in kept ==> m[id] == kept[id]))
            || exists i :: 0 <= i < |results| && results[i].id == id && IsLastResult(results, i) && id in m && m[id] == results[i].content
  {
    if results != [] {
      var n := |results| - 1;
      var front, last := results[..n], results[n];
      MergedFrom(kept, front, id);
      if last.id == id && id != "" {
        assert IsLastResult(results, n);
      } else if i :| 0 <= i < n && front[i].id == id && IsLastResult(front, i) && id in Merge(kept, front) && Merge(kept, front)[id] == front[i].content {
        assert results[i] == front[i];
        forall j | i < j < |results| ensures results[j].id != id {
          if j < n {
            assert results[j] == front[j];
          }
        }
        assert IsLastResult(results, i);
      }
    }
  }

  lemma {:induction false} NoAssistantYet(body: seq<Row>, lead: seq<Row>)
    requires Gather(body).latest == map[]
    ensures Gather(body + lead).latest == map[] <==> forall i :: 0 <= i < |lead| ==> !lead[i].Assistant?
  {
    hide Gather;
    hide Absorb;
    hide Synthetic;
    if lead == [] {
      assert body + lead == body;
    } else {
      var front, last := lead[..|lead| - 1], lead[|lead| - 1];
      NoAssistantYet(body, front);
      assert body + lead == (body + front) + [last];
      GatherSnoc(body + front, last);
      AbsorbCases(Gather(body + front), last);
      assert lead == front + [last];
      if last.Assistant? {
        assert Gather(body + lead).latest != map[];
      }
    }
  }

  /** The row-level condition: the open turn is kept iff the rows that follow tell it nothing new. */
  lemma KeepsTurnIff(user: Row, body: seq<Row>, lead: seq<Row>)
    ensures TurnOf(user, Gather(body + lead)) == TurnOf(user, Gather(body)) <==> NoNews(Gather(body), lead)
  {
    hide Gather;
    hide TurnOf;
    hide Filed;
    hide NoNewRow;
    hide NoNewResult;
    GatherFiles(body);
    GatherFiles(body + lead);
    GatherKeeps(body, lead);
    SameTurnIff(user, Gather(body), Gather(body + lead));
    if Gather(body).latest == map[] {
      NoAssistantYet(body, lead);
    } else {
      SameRowsIff(body, lead);
      ResultsGather(body, lead);
      SameResultsIff(Gather(body).results, ResultsIn(lead));
    }
  }

  /** Which cuts lose something, told from the rows: exactly those with an open turn to which the rows
      before the next user row bring an assistant row or tool result that is new or changed. */
  lemma CutIsHarmlessIff(a: seq<Row>, later: seq<Row>)
    ensures KeepsOpenTurn(a, later) <==> LastUser(a) < 0 || NoNews(Gather(OpenBody(a)), Lead(later))
  {
    hide Gather;
    hide TurnOf;
    hide NoNews;
    hide Lead;
    hide LastUser;
    if LastUser(a) >= 0 {
      assert OpenBody(a) + [] == OpenBody(a);
      KeepsTurnIff(a[LastUser(a)], OpenBody(a), Lead(later));
    }
  }
}
