/** Grouping transcript rows into turns, in hooks/langfuse_hook.py.

    A row is reduced to what the grouping looks at: a tool-result row with its results, a user row,
    an assistant row with its message id ("" when it has none), or anything else. */
module Turns {
  import opened Wrappers

  datatype ToolResult = ToolResult(id: string, content: string)

  datatype Row =
    | ToolResults(results: seq<ToolResult>)
    | User(text: string)
    | Assistant(id: string, text: string)
    | Unknown

  datatype Turn = Turn(user: Row, assistants: seq<Row>, results: map<string, string>)

  // ---------------------------------------------------------------- synthetic ids

  function Digit(d: nat): char
    requires d < 10
  {
    ['0', '1', '2', '3', '4', '5', '6', '7', '8', '9'][d]
  }

  function Decimal(n: nat): string {
    if n < 10 then [Digit(n)] else Decimal(n / 10) + [Digit(n % 10)]
  }

  lemma {:induction false} DecimalIsInjective(m: nat, n: nat)
    requires Decimal(m) == Decimal(n)
    ensures m == n
  {
    hide Decimal;
    hide Digit;
    DecimalEnds(m);
    DecimalEnds(n);
    DigitIsInjective(m % 10, n % 10);
    if m >= 10 && n >= 10 {
      DecimalIsInjective(m / 10, n / 10);
    }
  }

  lemma DigitIsInjective(c: nat, d: nat)
    requires c < 10 && d < 10 && Digit(c) == Digit(d)
    ensures c == d
  {
  }

  lemma DecimalEnds(n: nat)
    ensures var s := Decimal(n);
            && |s| >= 1 && s[|s| - 1] == Digit(n % 10)
            && (if n < 10 then |s| == 1 else |s| >= 2 && s[..|s| - 1] == Decimal(n / 10))
  {
    hide Digit;
    if n >= 10 {
      DecimalNotEmpty(n / 10);
    }
  }

  lemma DecimalNotEmpty(n: nat)
    ensures |Decimal(n)| >= 1
  {
  }

  const NOID := "noid:"

  /** The name given to a row without an id when n names are in use. */
  function Synthetic(n: nat): string {
    NOID + Decimal(n)
  }

  lemma SyntheticIsInjective(m: nat, n: nat)
    requires Synthetic(m) == Synthetic(n)
    ensures m == n
  {
    hide Decimal;
    assert Synthetic(m)[|NOID|..] == Decimal(m) && Synthetic(n)[|NOID|..] == Decimal(n);
    DecimalIsInjective(m, n);
  }

  // ---------------------------------------------------------------- one turn

  /** What is gathered for the open turn. */
  datatype Open = Open(order: seq<string>, latest: map<string, Row>, results: map<string, string>)

  function Merge(results: map<string, string>, added: seq<ToolResult>): map<string, string> {
    if added == [] then results
    else
      var r, before := added[|added| - 1], Merge(results, added[..|added| - 1]);
      if r.id == "" then before else before[r.id := r.content]
  }

  function Absorb(o: Open, row: Row): Open {
    match row
    case ToolResults(rs) => o.(results := Merge(o.results, rs))
    case Assistant(id, _) =>
      var name := if id != "" then id else Synthetic(|o.order|);
      o.(order := if name in o.latest then o.order else o.order + [name], latest := o.latest[name := row])
    case _ => o
  }

  function Gather(body: seq<Row>): Open {
    if body == [] then Open([], map[], map[]) else Absorb(Gather(body[..|body| - 1]), body[|body| - 1])
  }

  /** The latest row of each name, in the order of the names. */
  function Select(order: seq<string>, latest: map<string, Row>): seq<Row> {
    if order == [] then []
    else
      var mid := order[|order| - 1];
      Select(order[..|order| - 1], latest) + (if mid in latest then [latest[mid]] else [])
  }

  /** The turn a user row opens, unless no assistant row follows. */
  function TurnOf(user: Row, o: Open): seq<Turn> {
    if o.latest == map[] then [] else [Turn(user, Select(o.order, o.latest), o.results)]
  }

  // ---------------------------------------------------------------- all turns

  /** The index of the last user row, or -1. */
  function LastUser(rows: seq<Row>): (u: int)
    ensures -1 <= u < |rows|
    ensures u >= 0 ==> rows[u].User?
    ensures forall i :: u < i < |rows| ==> !rows[i].User?
  {
    if rows == [] then -1
    else if rows[|rows| - 1].User? then |rows| - 1
    else LastUser(rows[..|rows| - 1])
  }

  /** Each user row opens a turn that extends to the next user row; rows before the first user row
      belong to none. */
  function TurnsOf(rows: seq<Row>): seq<Turn> {
    var u := LastUser(rows);
    if u < 0 then [] else TurnsOf(rows[..u]) + TurnOf(rows[u], Gather(rows[u + 1..]))
  }

  method BuildTurns(rows: seq<Row>) returns (turns: seq<Turn>)
    ensures turns == TurnsOf(rows)
  {
    hide Gather;
    hide TurnsOf;
    hide TurnOf;
    hide Absorb;
    turns := [];
    var user: Option<Row> := None;
    var order: seq<string>, latest: map<string, Row>, results: map<string, string> := [], map[], map[];
    ghost var u := -1;
    NoTurns(rows[..0]);
    var i := 0;
    while i < |rows|
      invariant 0 <= i <= |rows|
      invariant u == LastUser(rows[..i])
      invariant user == if u < 0 then None else Some(rows[u])
      invariant u < 0 ==> turns == []
      invariant u >= 0 ==> turns == TurnsOf(rows[..u]) && Open(order, latest, results) == Gather(rows[u + 1..i])
    {
      var row := rows[i];
      assert rows[..i + 1][..i] == rows[..i];
      ghost var open := Open(order, latest, results);
      AbsorbCases(open, row);
      if u >= 0 {
        GatherSnoc(rows[u + 1..i], row);
        assert rows[u + 1..i] + [row] == rows[u + 1..i + 1];
      }
      match row {
        case ToolResults(rs) =>
          results := AddResults(results, rs);
        case User(_) =>
          TurnsAtCut(rows, i);
          turns := Flush(turns, user, order, latest, results);
          user, order, latest, results := Some(row), [], map[], map[];
          u := i;
          GatherNothing();
          assert rows[u + 1..i + 1] == [];
        case Assistant(id, _) =>
          if user.Some? {
            var mid := if id != "" then id else Synthetic(|order|);
            if mid !in latest {
              order := order + [mid];
            }
            latest := latest[mid := row];
          }
        case Unknown =>
      }
      i := i + 1;
    }
    assert rows[..i] == rows;
    TurnsAtCut(rows, i);
    turns := Flush(turns, user, order, latest, results);
  }

  method AddResults(results: map<string, string>, rs: seq<ToolResult>) returns (results': map<string, string>)
    ensures results' == Merge(results, rs)
  {
    results' := results;
    var i := 0;
    while i < |rs|
      invariant 0 <= i <= |rs|
      invariant results' == Merge(results, rs[..i])
    {
      assert rs[..i + 1][..i] == rs[..i];
      if rs[i].id != "" {
        results' := results'[rs[i].id := rs[i].content];
      }
      i := i + 1;
    }
    assert rs[..i] == rs;
  }

  method Flush(turns: seq<Turn>, user: Option<Row>, order: seq<string>, latest: map<string, Row>, results: map<string, string>)
    returns (turns': seq<Turn>)
    ensures turns' == turns + (if user == None then [] else TurnOf(user.value, Open(order, latest, results)))
  {
    if user == None || latest == map[] {
      return turns;
    }
    var assistants := [];
    var i := 0;
    while i < |order|
      invariant 0 <= i <= |order|
      invariant assistants == Select(order[..i], latest)
    {
      assert order[..i + 1][..i] == order[..i];
      if order[i] in latest {
        assistants := assistants + [latest[order[i]]];
      }
      i := i + 1;
    }
    assert order[..i] == order;
    turns' := turns + [Turn(user.value, assistants, results)];
  }

  lemma NoTurns(rows: seq<Row>)
    requires LastUser(rows) < 0
    ensures TurnsOf(rows) == []
  {
  }

  lemma GatherNothing()
    ensures Gather([]) == Open([], map[], map[])
  {
  }

  lemma GatherSnoc(body: seq<Row>, row: Row)
    ensures Gather(body + [row]) == Absorb(Gather(body), row)
  {
    assert (body + [row])[..|body|] == body;
  }

  lemma AbsorbCases(o: Open, row: Row)
    ensures row.ToolResults? ==> Absorb(o, row) == o.(results := Merge(o.results, row.results))
    ensures row.Unknown? || row.User? ==> Absorb(o, row) == o
    ensures row.Assistant? ==>
              var name := if row.id != "" then row.id else Synthetic(|o.order|);
              Absorb(o, row) == Open(if name in o.latest then o.order else o.order + [name], o.latest[name := row], o.results)
  {
  }

  lemma LastTurn(rows: seq<Row>, u: nat)
    requires u < |rows| && rows[u].User? && forall i :: u < i < |rows| ==> !rows[i].User?
    ensures TurnsOf(rows) == TurnsOf(rows[..u]) + TurnOf(rows[u], Gather(rows[u + 1..]))
  {
    hide LastUser;
    hide Gather;
    hide TurnOf;
    assert LastUser(rows) == u;
  }

  lemma TurnsAtCut(rows: seq<Row>, i: nat)
    requires i <= |rows|
    ensures var u := LastUser(rows[..i]);
            TurnsOf(rows[..i]) == if u < 0 then [] else TurnsOf(rows[..u]) + TurnOf(rows[u], Gather(rows[u + 1..i]))
  {
    hide *;
    var u := LastUser(rows[..i]);
    if u >= 0 {
      LastTurn(rows[..i], u);
      assert rows[..i][..u] == rows[..u];
      assert rows[..i][u + 1..] == rows[u + 1..i];
    } else {
      NoTurns(rows[..i]);
    }
  }

  // ---------------------------------------------------------------- two transcripts

  predicate OpensWithUser(rows: seq<Row>) {
    rows != [] && rows[0].User?
  }

  lemma {:induction false} TurnsCompose(a: seq<Row>, b: seq<Row>)
    requires b == [] || OpensWithUser(b)
    ensures TurnsOf(a + b) == TurnsOf(a) + TurnsOf(b)
    decreases |b|
  {
    hide TurnsOf;
    hide LastUser;
    hide Gather;
    hide TurnOf;
    if b == [] {
      assert a + b == a;
      assert LastUser(b) == -1;
      NoTurns(b);
    } else {
      var u := LastUser(b);
      LastTurn(b, u);
      LastTurn(a + b, |a| + u);
      assert (a + b)[..|a| + u] == a + b[..u];
      assert (a + b)[|a| + u + 1..] == b[u + 1..];
      TurnsCompose(a, b[..u]);
    }
  }

  // ---------------------------------------------------------------- what a turn holds

  /** Rows i and j are versions of one assistant message. */
  predicate SameMessage(body: seq<Row>, i: nat, j: nat)
    requires i < |body| && j < |body|
  {
    body[i].Assistant? && body[j].Assistant? && (i == j || (body[i].id != "" && body[i].id == body[j].id))
  }

  predicate IsFirst(body: seq<Row>, i: nat)
    requires i < |body|
  {
    body[i].Assistant? && forall h :: 0 <= h < i ==> !SameMessage(body, h, i)
  }

  /** The rows that are the first of their message, among the first n. */
  function Firsts(body: seq<Row>, n: nat): seq<nat>
    requires n <= |body|
  {
    if n == 0 then [] else Firsts(body, n - 1) + (if IsFirst(body, n - 1) then [n - 1] else [])
  }

  /** The latest version, among the first n rows, of the message of row i. */
  function LatestOf(body: seq<Row>, n: nat, i: nat): (j: nat)
    requires i < n <= |body| && body[i].Assistant?
    ensures i <= j < n && SameMessage(body, i, j) && forall h :: j < h < n ==> !SameMessage(body, i, h)
  {
    if SameMessage(body, i, n - 1) then n - 1 else LatestOf(body, n - 1, i)
  }

  /** The name of row i when k names are in use before it. */
  function NameOf(body: seq<Row>, i: nat, k: nat): string
    requires i < |body| && body[i].Assistant?
  {
    if body[i].id != "" then body[i].id else Synthetic(k)
  }

  predicate SoundFirsts(body: seq<Row>, n: nat)
    requires n <= |body|
  {
    var fs := Firsts(body, n);
    && (forall k :: 0 <= k < |fs| ==> fs[k] < n && IsFirst(body, fs[k]))
    && (forall i :: 0 <= i < n && IsFirst(body, i) ==> i in fs)
    && (forall j, k :: 0 <= j < k < |fs| ==> fs[j] < fs[k])
  }

  lemma {:induction false} FirstsAreSound(body: seq<Row>, n: nat)
    requires n <= |body|
    ensures SoundFirsts(body, n)
  {
    hide IsFirst;
    if n > 0 {
      FirstsAreSound(body, n - 1);
      if IsFirst(body, n - 1) {
        assert Firsts(body, n)[|Firsts(body, n - 1)|] == n - 1;
      }
      forall i | 0 <= i < n && IsFirst(body, i) ensures i in Firsts(body, n) {
        if i < n - 1 {
          assert i in Firsts(body, n - 1);
        }
      }
    }
  }

  /** Row i has no id and comes after k messages, and row j has as its id the very name that row i
      is then given. */
  predicate Clash(body: seq<Row>, i: nat, j: nat)
    requires i < |body| && j < |body|
  {
    body[i].Assistant? && body[i].id == "" && body[j].Assistant? && body[j].id == Synthetic(|Firsts(body, i)|)
  }

  /** Some of the first n rows clash. */
  predicate Clashes(body: seq<Row>, n: nat)
    requires n <= |body|
  {
    exists i, j :: 0 <= i < n && 0 <= j < n && Clash(body, i, j)
  }

  lemma NoClash(body: seq<Row>, n: nat, i: nat, j: nat)
    requires n <= |body| && !Clashes(body, n) && i < n && j < n
    ensures !Clash(body, i, j)
  {
  }

  lemma {:induction false} FirstsGrow(body: seq<Row>, i: nat, n: nat)
    requires i <= n <= |body|
    ensures Firsts(body, i) <= Firsts(body, n)
    ensures i < n && IsFirst(body, i) ==> |Firsts(body, i)| < |Firsts(body, n)| && Firsts(body, n)[|Firsts(body, i)|] == i
  {
    hide IsFirst;
    if i < n {
      FirstsGrow(body, i, n - 1);
    }
  }

  /** The k-th first row comes after k messages. */
  lemma FirstsIndex(body: seq<Row>, n: nat, k: nat)
    requires n <= |body| && k < |Firsts(body, n)|
    ensures Firsts(body, n)[k] < n && IsFirst(body, Firsts(body, n)[k]) && |Firsts(body, Firsts(body, n)[k])| == k
  {
    hide IsFirst;
    FirstsAreSound(body, n);
    var fs := Firsts(body, n);
    FirstsGrow(body, fs[k], n);
  }

  /** Rows that do not clash have the same name iff they are versions of one message. */
  lemma NamesTellMessages(body: seq<Row>, i: nat, j: nat)
    requires i < j < |body| && IsFirst(body, i) && body[j].Assistant? && !Clash(body, i, j) && !Clash(body, j, i)
    ensures NameOf(body, i, |Firsts(body, i)|) == NameOf(body, j, |Firsts(body, j)|) <==> SameMessage(body, i, j)
  {
    FirstsGrow(body, i, j);
    hide Firsts;
    hide Synthetic;
    var k, l := |Firsts(body, i)|, |Firsts(body, j)|;
    if Synthetic(k) == Synthetic(l) {
      SyntheticIsInjective(k, l);
    }
  }

  lemma {:induction false} FirstOfMessage(body: seq<Row>, h: nat, i: nat) returns (f: nat)
    requires h < i < |body| && SameMessage(body, h, i)
    ensures f <= h && IsFirst(body, f) && SameMessage(body, f, i)
  {
    if IsFirst(body, h) {
      f := h;
    } else {
      var g :| 0 <= g < h && SameMessage(body, g, h);
      f := FirstOfMessage(body, g, i);
    }
  }

  /** The gathered state after n rows, told by positions instead of names. */
  ghost predicate Tracks(body: seq<Row>, n: nat)
    requires n <= |body|
  {
    var o, fs := Gather(body[..n]), Firsts(body, n);
    && SoundFirsts(body, n)
    && |o.order| == |fs|
    && (forall name :: name in o.latest ==> name in o.order)
    && (forall k :: 0 <= k < |fs| ==> TracksAt(body, n, o, fs[k], k))
  }

  ghost predicate TracksAt(body: seq<Row>, n: nat, o: Open, f: nat, k: nat)
    requires k < |o.order| && f < n <= |body| && body[f].Assistant?
  {
    && o.order[k] == NameOf(body, f, k)
    && o.order[k] in o.latest && o.latest[o.order[k]] == body[LatestOf(body, n, f)]
  }

  lemma TracksOther(body: seq<Row>, n: nat)
    requires n < |body| && !body[n].Assistant? && Tracks(body, n)
    ensures Tracks(body, n + 1)
  {
    hide Gather;
    hide SoundFirsts;
    GatherSnoc(body[..n], body[n]);
    assert body[..n] + [body[n]] == body[..n + 1];
    FirstsAreSound(body, n + 1);
    assert SoundFirsts(body, n);
    FirstsOther(body, n);
    SoundMeans(body, n);
    var o, o', fs := Gather(body[..n]), Gather(body[..n + 1]), Firsts(body, n);
    forall k | 0 <= k < |fs| ensures TracksAt(body, n + 1, o', fs[k], k) {
      assert TracksAt(body, n, o, fs[k], k);
    }
  }

  lemma FirstsOther(body: seq<Row>, n: nat)
    requires n < |body| && !IsFirst(body, n)
    ensures Firsts(body, n + 1) == Firsts(body, n)
  {
  }

  lemma SoundMeans(body: seq<Row>, n: nat)
    requires n <= |body| && SoundFirsts(body, n)
    ensures forall k :: 0 <= k < |Firsts(body, n)| ==> Firsts(body, n)[k] < n && IsFirst(body, Firsts(body, n)[k])
  {
  }

  /** Row n is the first of its message iff no earlier first row is a version of it. */
  lemma FirstIffNew(body: seq<Row>, n: nat, fs: seq<nat>)
    requires n < |body| && body[n].Assistant? && SoundFirsts(body, n) && fs == Firsts(body, n)
    ensures forall k :: 0 <= k < |fs| ==> fs[k] < n
    ensures IsFirst(body, n) <==> forall k :: 0 <= k < |fs| ==> !SameMessage(body, fs[k], n)
  {
    hide Firsts;
    hide SameMessage;
    if !IsFirst(body, n) {
      var h :| 0 <= h < n && SameMessage(body, h, n);
      var f := FirstOfMessage(body, h, n);
      assert f in fs;
      var k :| 0 <= k < |fs| && fs[k] == f;
    }
  }

  lemma FirstIsAssistant(body: seq<Row>, i: nat)
    requires i < |body| && IsFirst(body, i)
    ensures body[i].Assistant?
  {
  }

  /** The name given to row n is new iff row n is the first of its message. */
  lemma NewNameIffFirst(body: seq<Row>, n: nat)
    requires n < |body| && !Clashes(body, n + 1) && body[n].Assistant? && Tracks(body, n)
    ensures var o := Gather(body[..n]); NameOf(body, n, |o.order|) in o.latest <==> !IsFirst(body, n)
  {
    hide Gather;
    hide Firsts;
    hide SoundFirsts;
    hide IsFirst;
    hide Clashes;
    hide NameOf;
    hide SameMessage;
    var o, fs := Gather(body[..n]), Firsts(body, n);
    SoundMeans(body, n);
    FirstIffNew(body, n, fs);
    var name := NameOf(body, n, |fs|);
    forall k | 0 <= k < |fs| ensures o.order[k] in o.latest && (o.order[k] == name <==> SameMessage(body, fs[k], n)) {
      FirstIsAssistant(body, fs[k]);
      assert TracksAt(body, n, o, fs[k], k);
      FirstsIndex(body, n, k);
      NoClash(body, n + 1, fs[k], n);
      NoClash(body, n + 1, n, fs[k]);
      NamesTellMessages(body, fs[k], n);
    }
    if name in o.latest {
      var k :| 0 <= k < |o.order| && o.order[k] == name;
      assert SameMessage(body, fs[k], n);
    } else {
      forall k | 0 <= k < |fs| ensures !SameMessage(body, fs[k], n) {
        assert o.order[k] in o.latest;
      }
    }
  }

  lemma TracksAtStep(body: seq<Row>, n: nat, o: Open, f: nat, k: nat)
    requires f < n < |body| && IsFirst(body, f) && body[n].Assistant? && !Clash(body, f, n) && !Clash(body, n, f)
    requires k == |Firsts(body, f)| < |o.order| == |Firsts(body, n)| && TracksAt(body, n, o, f, k)
    ensures var o' := Absorb(o, body[n]); o.order <= o'.order && TracksAt(body, n + 1, o', f, k)
  {
    hide Firsts;
    hide SameMessage;
    hide Synthetic;
    NamesTellMessages(body, f, n);
  }

  lemma TracksAtNew(body: seq<Row>, n: nat, o: Open)
    requires n < |body| && body[n].Assistant? && NameOf(body, n, |o.order|) !in o.latest
    ensures var o' := Absorb(o, body[n]);
            |o'.order| == |o.order| + 1 && TracksAt(body, n + 1, o', n, |o.order|)
  {
    hide Synthetic;
  }

  lemma AbsorbedNames(body: seq<Row>, n: nat, o: Open)
    requires n < |body| && body[n].Assistant?
    requires forall name :: name in o.latest ==> name in o.order
    ensures var o' := Absorb(o, body[n]);
            && (forall name :: name in o'.latest ==> name in o'.order)
            && |o'.order| == |o.order| + (if NameOf(body, n, |o.order|) in o.latest then 0 else 1)
  {
    hide Synthetic;
    var name := NameOf(body, n, |o.order|);
    var o' := Absorb(o, body[n]);
    if name !in o.latest {
      assert o'.order[|o.order|] == name;
    }
  }

  lemma TracksAssistant(body: seq<Row>, n: nat)
    requires n < |body| && !Clashes(body, n + 1) && body[n].Assistant? && Tracks(body, n)
    ensures Tracks(body, n + 1)
  {
    hide Gather;
    hide Absorb;
    hide Firsts;
    hide SoundFirsts;
    hide IsFirst;
    hide Clashes;
    hide NameOf;
    hide TracksAt;
    var row := body[n];
    var o, fs, fs' := Gather(body[..n]), Firsts(body, n), Firsts(body, n + 1);
    var o' := Absorb(o, row);
    GatherSnoc(body[..n], row);
    assert body[..n] + [row] == body[..n + 1];
    FirstsAreSound(body, n + 1);
    SoundMeans(body, n);
    SoundMeans(body, n + 1);
    FirstsStep(body, n);
    NewNameIffFirst(body, n);
    AbsorbedNames(body, n, o);
    forall k | 0 <= k < |fs'| ensures body[fs'[k]].Assistant? && TracksAt(body, n + 1, o', fs'[k], k) {
      FirstIsAssistant(body, fs'[k]);
      if k < |fs| {
        assert fs'[k] == fs[k] && TracksAt(body, n, o, fs[k], k);
        FirstsIndex(body, n, k);
        NoClash(body, n + 1, fs[k], n);
        NoClash(body, n + 1, n, fs[k]);
        TracksAtStep(body, n, o, fs[k], k);
      } else {
        TracksAtNew(body, n, o);
      }
    }
  }

  lemma FirstsStep(body: seq<Row>, n: nat)
    requires n < |body|
    ensures Firsts(body, n + 1) == Firsts(body, n) + if IsFirst(body, n) then [n] else []
  {
  }

  lemma FewerClash(body: seq<Row>, m: nat, n: nat)
    requires m <= n <= |body| && !Clashes(body, n)
    ensures !Clashes(body, m)
  {
  }

  lemma {:induction false} GatherTracks(body: seq<Row>, n: nat)
    requires n <= |body| && !Clashes(body, n)
    ensures Tracks(body, n)
  {
    if n > 0 {
      hide Tracks;
      FewerClash(body, n - 1, n);
      GatherTracks(body, n - 1);
      if body[n - 1].Assistant? {
        TracksAssistant(body, n - 1);
      } else {
        TracksOther(body, n - 1);
      }
    } else {
      FirstsAreSound(body, 0);
    }
  }

  /** The turn shows each assistant message once, in the order of their first rows, each in its
      latest version; rows without an id are messages of their own. */
  ghost predicate ShowsLatest(body: seq<Row>) {
    var o, fs := Gather(body), Firsts(body, |body|);
    var shown := Select(o.order, o.latest);
    && SoundFirsts(body, |body|)
    && |shown| == |fs| && forall k :: 0 <= k < |fs| ==> shown[k] == body[LatestOf(body, |body|, fs[k])]
  }

  lemma NoClashShowsLatest(body: seq<Row>)
    requires !Clashes(body, |body|)
    ensures ShowsLatest(body)
  {
    var n := |body|;
    GatherTracks(body, n);
    assert body[..n] == body;
    var o, fs := Gather(body), Firsts(body, n);
    forall k | 0 <= k < |fs| ensures o.order[k] in o.latest && o.latest[o.order[k]] == body[LatestOf(body, n, fs[k])] {
      assert TracksAt(body, n, o, fs[k], k);
    }
    SelectAll(o.order, o.latest);
  }

  lemma {:induction false} SelectAll(order: seq<string>, latest: map<string, Row>)
    requires forall k :: 0 <= k < |order| ==> order[k] in latest
    ensures |Select(order, latest)| == |order|
    ensures forall k :: 0 <= k < |order| ==> Select(order, latest)[k] == latest[order[k]]
  {
    if order != [] {
      SelectAll(order[..|order| - 1], latest);
    }
  }

  lemma {:induction false} SelectAtMost(order: seq<string>, latest: map<string, Row>)
    ensures |Select(order, latest)| <= |order|
  {
    if order != [] {
      SelectAtMost(order[..|order| - 1], latest);
    }
  }

  /** After n rows, fewer names than messages are known, and the names include all ids. */
  ghost predicate Behind(body: seq<Row>, n: nat)
    requires n <= |body|
  {
    |Gather(body[..n]).order| < |Firsts(body, n)|
  }

  lemma {:induction false} IdsAreNames(body: seq<Row>, n: nat, h: nat)
    requires h < n <= |body| && body[h].Assistant? && body[h].id != ""
    ensures body[h].id in Gather(body[..n]).latest
  {
    hide Gather;
    hide Absorb;
    hide Synthetic;
    GatherSnoc(body[..n - 1], body[n - 1]);
    assert body[..n - 1] + [body[n - 1]] == body[..n];
    AbsorbCases(Gather(body[..n - 1]), body[n - 1]);
    if h < n - 1 {
      IdsAreNames(body, n - 1, h);
    }
  }

  /** Row n adds a name only if it is new, and it is then the first row of a message. */
  lemma BehindStays(body: seq<Row>, n: nat)
    requires n < |body| && Behind(body, n)
    ensures Behind(body, n + 1)
  {
    hide Gather;
    hide Absorb;
    hide Synthetic;
    hide Firsts;
    GatherSnoc(body[..n], body[n]);
    assert body[..n] + [body[n]] == body[..n + 1];
    AbsorbCases(Gather(body[..n]), body[n]);
    FirstsStep(body, n);
    if body[n].Assistant? && !IsFirst(body, n) {
      var h :| 0 <= h < n && SameMessage(body, h, n);
      IdsAreNames(body, n, h);
    }
  }

  /** The row that completes the first clash is the first of its message but adds no name. */
  lemma ClashFallsBehind(body: seq<Row>, n: nat)
    requires n < |body| && !Clashes(body, n) && Clashes(body, n + 1)
    ensures Behind(body, n + 1)
  {
    hide Gather;
    hide Absorb;
    hide Synthetic;
    GatherTracks(body, n);
    var o := Gather(body[..n]);
    var i, j :| 0 <= i < n + 1 && 0 <= j < n + 1 && Clash(body, i, j);
    SyntheticNotEmpty(|Firsts(body, i)|);
    assert (i == n && j < n) || (j == n && i < n);
    FirstsStep(body, n);
    GatherSnoc(body[..n], body[n]);
    assert body[..n] + [body[n]] == body[..n + 1];
    AbsorbCases(o, body[n]);
    if i == n {
      IdsAreNames(body, n, j);
      assert IsFirst(body, n);
    } else {
      SyntheticNameKnown(body, n, i);
      forall h | 0 <= h < n ensures !SameMessage(body, h, n) {
        NoClash(body, n, i, h);
      }
    }
  }

  lemma SyntheticNotEmpty(n: nat)
    ensures Synthetic(n) != ""
  {
  }

  lemma SyntheticNameKnown(body: seq<Row>, n: nat, i: nat)
    requires i < n <= |body| && Tracks(body, n) && body[i].Assistant? && body[i].id == ""
    ensures Synthetic(|Firsts(body, i)|) in Gather(body[..n]).latest
  {
    hide Gather;
    hide Synthetic;
    assert IsFirst(body, i);
    FirstsGrow(body, i, n);
    var k := |Firsts(body, i)|;
    assert TracksAt(body, n, Gather(body[..n]), Firsts(body, n)[k], k);
  }

  lemma {:induction false} ClashStaysBehind(body: seq<Row>, n: nat)
    requires n <= |body| && Clashes(body, n)
    ensures Behind(body, n)
  {
    hide Clash;
    if Clashes(body, n - 1) {
      ClashStaysBehind(body, n - 1);
      BehindStays(body, n - 1);
    } else {
      ClashFallsBehind(body, n - 1);
    }
  }

  /** A turn shows exactly the latest versions of its messages, in order, if and only if no row
      without an id shares the turn with a row whose id is the name that row is given. */
  lemma LatestVersionsInOrderIff(body: seq<Row>)
    ensures ShowsLatest(body) <==> !Clashes(body, |body|)
  {
    if Clashes(body, |body|) {
      ClashStaysBehind(body, |body|);
      assert body[..|body|] == body;
      var o := Gather(body);
      SelectAtMost(o.order, o.latest);
    } else {
      NoClashShowsLatest(body);
    }
  }

  /** A user row and the rows up to the next one make a turn iff one of them is an assistant row. It
      has that user row, and where no names clash the latest version of each message, in order. */
  lemma TurnHolds(user: Row, body: seq<Row>)
    requires user.User? && forall i :: 0 <= i < |body| ==> !body[i].User?
    ensures TurnsOf([user] + body) == [] <==> forall i :: 0 <= i < |body| ==> !body[i].Assistant?
    ensures TurnsOf([user] + body) != [] ==>
              var t := TurnsOf([user] + body)[0];
              && TurnsOf([user] + body) == [t] && t.user == user && t.results == Gather(body).results
              && SoundFirsts(body, |body|)
              && (!Clashes(body, |body|) ==>
                    |t.assistants| == |Firsts(body, |body|)|
                    && forall k :: 0 <= k < |t.assistants| ==> t.assistants[k] == body[LatestOf(body, |body|, Firsts(body, |body|)[k])])
  {
    hide Gather;
    hide TurnsOf;
    hide Select;
    hide LastUser;
    var rows := [user] + body;
    LastTurn(rows, 0);
    NoTurns(rows[..0]);
    assert rows[1..] == body;
    EmptyIffNoAssistant(body);
    FirstsAreSound(body, |body|);
    LatestVersionsInOrderIff(body);
  }

  lemma {:induction false} EmptyIffNoAssistant(body: seq<Row>)
    ensures Gather(body).latest == map[] <==> forall i :: 0 <= i < |body| ==> !body[i].Assistant?
  {
    hide Absorb;
    hide Synthetic;
    if body != [] {
      var front, last := body[..|body| - 1], body[|body| - 1];
      EmptyIffNoAssistant(front);
      AbsorbCases(Gather(front), last);
      assert body == front + [last];
      if last.Assistant? {
        assert Gather(body).latest != map[];
      }
    }
  }

  // ---------------------------------------------------------------- tool results

  /** All tool results of a turn's rows, in order. */
  function ResultsIn(body: seq<Row>): seq<ToolResult> {
    if body == [] then []
    else ResultsIn(body[..|body| - 1]) + (if body[|body| - 1].ToolResults? then body[|body| - 1].results else [])
  }

  lemma {:induction false} MergeAppend(m: map<string, string>, a: seq<ToolResult>, b: seq<ToolResult>)
    ensures Merge(m, a + b) == Merge(Merge(m, a), b)
  {
    if b == [] {
      assert a + b == a;
    } else {
      MergeAppend(m, a, b[..|b| - 1]);
      assert (a + b)[..|a + b| - 1] == a + b[..|b| - 1];
    }
  }

  lemma MergeNothing(m: map<string, string>)
    ensures Merge(m, []) == m
  {
  }

  lemma {:induction false} ResultsAreMerged(body: seq<Row>)
    ensures Gather(body).results == Merge(map[], ResultsIn(body))
  {
    hide Absorb;
    hide Merge;
    if body == [] {
      MergeNothing(map[]);
    } else {
      var front, last := body[..|body| - 1], body[|body| - 1];
      ResultsAreMerged(front);
      AbsorbCases(Gather(front), last);
      if last.ToolResults? {
        MergeAppend(map[], ResultsIn(front), last.results);
      } else {
        assert ResultsIn(body) == ResultsIn(front);
      }
    }
  }

  lemma {:induction false} LatestResultIsKept(m: map<string, string>, results: seq<ToolResult>, i: nat)
    requires i < |results| && results[i].id != "" && forall j :: i < j < |results| ==> results[j].id != results[i].id
    ensures results[i].id in Merge(m, results) && Merge(m, results)[results[i].id] == results[i].content
  {
    var n := |results| - 1;
    if i < n {
      LatestResultIsKept(m, results[..n], i);
    }
  }

  lemma {:induction false} KeptResultExists(results: seq<ToolResult>, id: string)
    requires id in Merge(map[], results)
    ensures id != "" && exists i :: 0 <= i < |results| && results[i].id == id
  {
    var n := |results| - 1;
    if n >= 0 {
      if results[n].id != id || id == "" {
        KeptResultExists(results[..n], id);
        var i :| 0 <= i < n && results[..n][i].id == id;
        assert results[i].id == id;
      }
    }
  }

  /** Of the results with one id, the turn keeps the last; it keeps no others. */
  lemma LatestResultWins(body: seq<Row>)
    ensures var kept, results := Gather(body).results, ResultsIn(body);
            && (forall id :: id in kept ==> id != "" && exists i :: 0 <= i < |results| && results[i].id == id)
            && (forall i :: 0 <= i < |results| && results[i].id != "" && (forall j :: i < j < |results| ==> results[j].id != results[i].id) ==>
                  results[i].id in kept && kept[results[i].id] == results[i].content)
  {
    hide Gather;
    hide ResultsIn;
    hide Merge;
    ResultsAreMerged(body);
    var results := ResultsIn(body);
    forall id | id in Merge(map[], results) ensures id != "" && exists i :: 0 <= i < |results| && results[i].id == id {
      KeptResultExists(results, id);
    }
    forall i | 0 <= i < |results| && results[i].id != "" && (forall j :: i < j < |results| ==> results[j].id != results[i].id)
      ensures results[i].id in Merge(map[], results) && Merge(map[], results)[results[i].id] == results[i].content
    {
      LatestResultIsKept(map[], results, i);
    }
  }
}
