/** The strings that name a conversation: its lock key (shared/worktree_lock.py), its worktree path
    and its SDK project directory (shared/worktree_manager.py), all built on the repository key of
    shared/constants.py. Locks and worktrees are shared exactly when these strings are equal. */
module ConversationKey {
  import opened Text
  import opened Wrappers

  datatype ThreadType = PullRequest | Issue | Discussion

  datatype Key = Key(owner: string, name: string, threadType: ThreadType, threadId: string, workflow: string)

  // ---------------------------------------------------------------- encoding

  function Replace(s: string, c: char, t: string): string {
    if s == [] then [] else Replace(s[..|s| - 1], c, t) + (if s[|s| - 1] == c then t else [s[|s| - 1]])
  }

  /** The key fragment of a repository name. */
  function SanitizeRepo(repo: string): string {
    Replace(repo, '/', "--")
  }

  function TypeName(t: ThreadType): string {
    match t
    case PullRequest => "pr"
    case Issue => "issue"
    case Discussion => "discussion"
  }

  function Repo(k: Key): string {
    k.owner + "/" + k.name
  }

  function Thread(k: Key): string {
    TypeName(k.threadType) + "-" + k.threadId
  }

  function LockKey(k: Key): string {
    "lock:worktree:" + SanitizeRepo(Repo(k)) + ":" + Thread(k) + ":" + k.workflow
  }

  function WorktreeBase(home: string): string {
    home + "/.claude/worktrees"
  }

  function WorktreePath(k: Key, home: string): string {
    WorktreeBase(home) + "/" + SanitizeRepo(Repo(k)) + "/" + Thread(k) + "/" + k.workflow
  }

  /** The SDK's directory name for a path: separators of both kinds become double dashes. */
  function Flatten(path: string): string {
    Replace(Replace(path, '/', "--"), '\\', "--")
  }

  function ProjectDir(k: Key, home: string): string {
    home + "/.claude/projects/" + Flatten(WorktreePath(k, home))
  }

  // ---------------------------------------------------------------- what keys look like

  predicate DashesAt(s: string, i: int) {
    0 <= i < |s| - 1 && s[i] == '-' && s[i + 1] == '-'
  }

  predicate HasDashes(s: string) {
    exists i :: 0 <= i < |s| && DashesAt(s, i)
  }

  predicate EndsInDash(s: string) {
    s != [] && s[|s| - 1] == '-'
  }

  /** Owners for which the double dash marks the end of the owner. */
  predicate PlainOwner(owner: string) {
    !HasDashes(owner) && !EndsInDash(owner)
  }

  /** One or more words of lower-case letters and digits, joined by single hyphens. */
  predicate IsHyphenated(w: string) {
    && w != [] && w[0] != '-' && !EndsInDash(w) && !HasDashes(w)
    && forall i :: 0 <= i < |w| ==> 'a' <= w[i] <= 'z' || '0' <= w[i] <= '9' || w[i] == '-'
  }

  /** What the engine's pattern accepts; its end anchor also admits one newline at the end. */
  predicate IsWorkflowName(w: string) {
    IsHyphenated(if w != [] && w[|w| - 1] == '\n' then w[..|w| - 1] else w)
  }

  predicate IsNumeric(id: string) {
    id != [] && forall i :: 0 <= i < |id| ==> '0' <= id[i] <= '9'
  }

  /** A repository name has one slash and no backslash; thread ids are numbers. */
  predicate WellFormed(k: Key) {
    && '/' !in k.owner && '\\' !in k.owner && '/' !in k.name && '\\' !in k.name
    && IsNumeric(k.threadId) && IsWorkflowName(k.workflow)
  }

  // ---------------------------------------------------------------- decoding

  /** The first place of a double dash at or after i, or -1. */
  function FirstDashes(s: string, i: nat): (r: int)
    ensures r == -1 || (i <= r && DashesAt(s, r))
    ensures forall j :: i <= j && DashesAt(s, j) ==> 0 <= r <= j
    decreases |s| - i
  {
    if i >= |s| then -1 else if DashesAt(s, i) then i else FirstDashes(s, i + 1)
  }

  /** The last place of a double dash before n, or -1. */
  function LastDashes(s: string, n: nat): (r: int)
    ensures r == -1 || (r < n && DashesAt(s, r))
    ensures forall j :: j < n && DashesAt(s, j) ==> j <= r
  {
    if n == 0 then -1 else if DashesAt(s, n - 1) then n - 1 else LastDashes(s, n - 1)
  }

  function DecodeRepo(s: string): Option<(string, string)> {
    var i := FirstDashes(s, 0);
    if i == -1 then None else Some((s[..i], s[i + 2..]))
  }

  function DecodeType(s: string): Option<ThreadType> {
    if s == "pr" then Some(PullRequest) else if s == "issue" then Some(Issue) else if s == "discussion" then Some(Discussion) else None
  }

  function DecodeThread(s: string): Option<(ThreadType, string)> {
    var pieces := Split(s, '-');
    if |pieces| != 2 || DecodeType(pieces[0]) == None then None else Some((DecodeType(pieces[0]).value, pieces[1]))
  }

  function DecodeParts(repo: string, thread: string, workflow: string): Option<Key> {
    var r, t := DecodeRepo(repo), DecodeThread(thread);
    if r == None || t == None then None else Some(Key(r.value.0, r.value.1, t.value.0, t.value.1, workflow))
  }

  /** Undoes repo, thread and workflow joined by a separator: read from the right, because only the
      repository may contain the separator. */
  function DecodeJoined(s: string, sep: char): Option<Key> {
    var pieces := Split(s, sep);
    var n := |pieces|;
    if n < 3 then None else DecodeParts(Join(pieces[..n - 2], sep), pieces[n - 2], pieces[n - 1])
  }

  function DecodeLockKey(s: string): Option<Key> {
    if "lock:worktree:" <= s then DecodeJoined(s[|"lock:worktree:"|..], ':') else None
  }

  function DecodeWorktreePath(s: string, home: string): Option<Key> {
    var prefix := WorktreeBase(home) + "/";
    if prefix <= s then DecodeJoined(s[|prefix|..], '/') else None
  }

  /** The same with double dashes as separator, which the repository contains anyway. */
  function DecodeDashed(s: string): Option<Key> {
    var i := LastDashes(s, |s|);
    if i == -1 then None
    else
      var j := LastDashes(s[..i], i);
      if j == -1 then None else DecodeParts(s[..j], s[j + 2..i], s[i + 2..])
  }

  function DecodeProjectDir(s: string, home: string): Option<Key> {
    var prefix := home + "/.claude/projects/" + Flatten(WorktreeBase(home) + "/");
    if prefix <= s then DecodeDashed(s[|prefix|..]) else None
  }

  // ---------------------------------------------------------------- the repository

  lemma {:induction false} ReplaceAppend(a: string, b: string, c: char, t: string)
    ensures Replace(a + b, c, t) == Replace(a, c, t) + Replace(b, c, t)
  {
    if b == [] {
      assert a + b == a;
    } else {
      ReplaceAppend(a, b[..|b| - 1], c, t);
      assert (a + b)[..|a + b| - 1] == a + b[..|b| - 1];
    }
  }

  lemma {:induction false} ReplaceAbsent(s: string, c: char, t: string)
    requires c !in s
    ensures Replace(s, c, t) == s
  {
    if s != [] {
      ReplaceAbsent(s[..|s| - 1], c, t);
      assert s == s[..|s| - 1] + [s[|s| - 1]];
    }
  }

  lemma ReplaceOne(c: char, t: string)
    ensures Replace([c], c, t) == t
  {
    assert Replace([c][..0], c, t) == [];
  }

  lemma SanitizedRepo(owner: string, name: string)
    requires '/' !in owner && '/' !in name
    ensures SanitizeRepo(owner + "/" + name) == owner + "--" + name
  {
    hide Replace;
    ReplaceAppend(owner + "/", name, '/', "--");
    ReplaceAppend(owner, "/", '/', "--");
    ReplaceAbsent(owner, '/', "--");
    ReplaceAbsent(name, '/', "--");
    ReplaceOne('/', "--");
  }

  /** The repository key can be undone exactly for plain owners. */
  lemma RepoDecodesIffPlain(owner: string, name: string)
    requires '/' !in owner && '/' !in name
    ensures DecodeRepo(SanitizeRepo(owner + "/" + name)) == Some((owner, name)) <==> PlainOwner(owner)
  {
    hide SanitizeRepo;
    hide FirstDashes;
    SanitizedRepo(owner, name);
    var s, n := owner + "--" + name, |owner|;
    var i := FirstDashes(s, 0);
    assert DashesAt(s, n);
    assert s[..n] == owner && s[n + 2..] == name;
    assert |s[..i]| == i;
    assert i < n <==> !PlainOwner(owner) by {
      DashesBefore(owner, name);
    }
  }

  /** A double dash begins inside the owner exactly when the owner is not plain. */
  lemma DashesBefore(owner: string, name: string)
    ensures PlainOwner(owner) <==> forall j :: 0 <= j < |owner| ==> !DashesAt(owner + "--" + name, j)
  {
    var s, n := owner + "--" + name, |owner|;
    forall j | 0 <= j < n ensures DashesAt(s, j) <==> DashesAt(owner, j) || (j == n - 1 && EndsInDash(owner)) {
      assert s[j] == owner[j];
    }
    if EndsInDash(owner) {
      assert DashesAt(s, n - 1);
    }
  }

  /** Exactly when a repository shares its key with another one whose owner and name are not empty:
      its key has a double dash somewhere else than between its own owner and name, with text on
      both sides. */
  lemma SharesKeyIff(owner: string, name: string)
    requires '/' !in owner && '/' !in name
    ensures (exists o: string, n: string :: SharesKey(owner, name, o, n)) <==>
              exists j :: 1 <= j < |owner| + |name| && j != |owner| && DashesAt(owner + "--" + name, j)
  {
    hide SanitizeRepo;
    SanitizedRepo(owner, name);
    var s := owner + "--" + name;
    if o: string, n: string :| SharesKey(owner, name, o, n) {
      SanitizedRepo(o, n);
      assert s == o + "--" + n;
      assert o == s[..|o|] && n == s[|o| + 2..];
      assert owner == s[..|owner|] && name == s[|owner| + 2..];
      assert |o| != |owner|;
      assert s[|o|] == '-' && s[|o| + 1] == '-';
      assert DashesAt(s, |o|);
    }
    if j :| 1 <= j < |owner| + |name| && j != |owner| && DashesAt(s, j) {
      var o, n := s[..j], s[j + 2..];
      assert s == o + "--" + n;
      assert '/' !in s;
      SanitizedRepo(o, n);
      assert SharesKey(owner, name, o, n);
    }
  }

  predicate SharesKey(owner: string, name: string, o: string, n: string) {
    && '/' !in o && '/' !in n && o != [] && n != [] && (o, n) != (owner, name)
    && SanitizeRepo(o + "/" + n) == SanitizeRepo(owner + "/" + name)
  }

  /** Every owner that is not plain shares a repository key with another repository; with one that
      has an owner and a name, unless the owner begins with a hyphen. */
  lemma OtherOwnersCollide(owner: string, name: string) returns (owner': string, name': string)
    requires '/' !in owner && '/' !in name && !PlainOwner(owner)
    ensures '/' !in owner' && '/' !in name' && |owner'| < |owner|
    ensures '\\' !in owner && '\\' !in name ==> '\\' !in owner' && '\\' !in name'
    ensures owner != [] && owner[0] != '-' ==> owner' != [] && name' != []
    ensures SanitizeRepo(owner' + "/" + name') == SanitizeRepo(owner + "/" + name)
  {
    hide SanitizeRepo;
    SanitizedRepo(owner, name);
    if HasDashes(owner) {
      var j :| 0 <= j < |owner| && DashesAt(owner, j);
      owner', name' := owner[..j], owner[j + 2..] + "--" + name;
      assert owner == owner[..j] + "--" + owner[j + 2..];
      SanitizedRepo(owner', name');
      assert owner' + "--" + name' == owner + "--" + name;
    } else {
      owner', name' := owner[..|owner| - 1], "-" + name;
      assert owner == owner' + "-";
      SanitizedRepo(owner', name');
      assert owner' + "--" + name' == owner + "--" + name;
    }
  }

  /** The strings written out. */
  lemma StringsAre(k: Key, home: string)
    requires WellFormed(k)
    ensures LockKey(k) == "lock:worktree:" + k.owner + "--" + k.name + ":" + Thread(k) + ":" + k.workflow
    ensures WorktreePath(k, home) == home + "/.claude/worktrees/" + k.owner + "--" + k.name + "/" + Thread(k) + "/" + k.workflow
    ensures Thread(k) == (if k.threadType.PullRequest? then "pr-" else if k.threadType.Issue? then "issue-" else "discussion-") + k.threadId
  {
    hide SanitizeRepo;
    SanitizedRepo(k.owner, k.name);
    assert LockKey(k) == "lock:worktree:" + (k.owner + "--" + k.name) + ":" + Thread(k) + ":" + k.workflow;
    assert WorktreePath(k, home) == home + "/.claude/worktrees" + "/" + (k.owner + "--" + k.name) + "/" + Thread(k) + "/" + k.workflow;
    var t := "pr" + "-" + k.threadId;
    assert t == "pr-" + k.threadId;
    assert "issue" + "-" + k.threadId == "issue-" + k.threadId;
    assert "discussion" + "-" + k.threadId == "discussion-" + k.threadId;
  }

  // ---------------------------------------------------------------- the thread and the workflow

  lemma ThreadDecodes(k: Key)
    requires IsNumeric(k.threadId)
    ensures DecodeThread(Thread(k)) == Some((k.threadType, k.threadId))
  {
    hide Split;
    var t := TypeName(k.threadType);
    assert '-' !in t;
    assert '-' !in k.threadId;
    SplitLastPiece(t, k.threadId, '-');
    SplitOfPiece(t, '-');
    assert [t] + [k.threadId] == [t, k.threadId];
  }

  /** A text that a reader coming from the right can cut off at a separator. */
  predicate Detachable(s: string) {
    && ':' !in s && '/' !in s && '\\' !in s
    && !HasDashes(s) && (s == [] || s[0] != '-')
  }

  lemma ThreadIsDetachable(k: Key)
    requires IsNumeric(k.threadId)
    ensures Detachable(Thread(k))
  {
    var t, s := TypeName(k.threadType), Thread(k);
    var n := |t|;
    assert forall i :: 0 <= i < n ==> 'a' <= t[i] <= 'z';
    assert forall i :: 0 <= i < |s| ==> s[i] == if i < n then t[i] else if i == n then '-' else k.threadId[i - n - 1];
    assert forall i :: 0 <= i < |s| && s[i] == '-' ==> i == n;
  }

  lemma WorkflowIsDetachable(w: string)
    requires IsWorkflowName(w)
    ensures Detachable(w)
  {
    var n := |w|;
    if w[n - 1] == '\n' {
      var core := w[..n - 1];
      assert forall i :: 0 <= i < n - 1 ==> w[i] == core[i];
      forall j | 0 <= j < n && DashesAt(w, j) ensures false {
        assert DashesAt(core, j);
      }
    }
  }

  // ---------------------------------------------------------------- round trips

  lemma PartsDecode(k: Key)
    requires WellFormed(k)
    ensures DecodeParts(SanitizeRepo(Repo(k)), Thread(k), k.workflow) == Some(k) <==> PlainOwner(k.owner)
  {
    hide SanitizeRepo;
    hide DecodeRepo;
    hide DecodeThread;
    hide PlainOwner;
    RepoDecodesIffPlain(k.owner, k.name);
    ThreadDecodes(k);
  }

  lemma JoinedSplits(repo: string, thread: string, workflow: string, sep: char)
    requires sep !in thread && sep !in workflow
    ensures DecodeJoined(repo + [sep] + thread + [sep] + workflow, sep) == DecodeParts(repo, thread, workflow)
  {
    hide Split;
    hide Join;
    hide DecodeParts;
    SplitLastPiece(repo + [sep] + thread, workflow, sep);
    SplitLastPiece(repo, thread, sep);
    SplitJoins(repo, sep);
    var pieces := Split(repo, sep);
    assert (pieces + [thread] + [workflow])[..|pieces|] == pieces;
  }

  /** The lock key determines the conversation exactly for plain owners. */
  lemma LockKeyDecodes(k: Key)
    requires WellFormed(k)
    ensures DecodeLockKey(LockKey(k)) == Some(k) <==> PlainOwner(k.owner)
  {
    hide SanitizeRepo;
    hide Thread;
    hide DecodeJoined;
    hide DecodeParts;
    hide PlainOwner;
    ThreadIsDetachable(k);
    WorkflowIsDetachable(k.workflow);
    var body := SanitizeRepo(Repo(k)) + ":" + Thread(k) + ":" + k.workflow;
    assert LockKey(k) == "lock:worktree:" + body;
    JoinedSplits(SanitizeRepo(Repo(k)), Thread(k), k.workflow, ':');
    PartsDecode(k);
  }

  lemma WorktreePathDecodes(k: Key, home: string)
    requires WellFormed(k)
    ensures DecodeWorktreePath(WorktreePath(k, home), home) == Some(k) <==> PlainOwner(k.owner)
  {
    hide SanitizeRepo;
    hide Thread;
    hide DecodeJoined;
    hide DecodeParts;
    hide PlainOwner;
    ThreadIsDetachable(k);
    WorkflowIsDetachable(k.workflow);
    var body := SanitizeRepo(Repo(k)) + "/" + Thread(k) + "/" + k.workflow;
    assert WorktreePath(k, home) == (WorktreeBase(home) + "/") + body;
    JoinedSplits(SanitizeRepo(Repo(k)), Thread(k), k.workflow, '/');
    PartsDecode(k);
  }

  lemma FlattenAppend(a: string, b: string)
    ensures Flatten(a + b) == Flatten(a) + Flatten(b)
  {
    hide Replace;
    ReplaceAppend(a, b, '/', "--");
    ReplaceAppend(Replace(a, '/', "--"), Replace(b, '/', "--"), '\\', "--");
  }

  lemma FlattenPiece(s: string)
    requires '/' !in s && '\\' !in s
    ensures Flatten(s) == s
  {
    hide Replace;
    ReplaceAbsent(s, '/', "--");
    ReplaceAbsent(s, '\\', "--");
  }

  lemma FlattenSlash()
    ensures Flatten("/") == "--"
  {
    hide Replace;
    ReplaceOne('/', "--");
    ReplaceAbsent("--", '\\', "--");
  }

  /** Behind its fixed part the project directory joins repository, thread and workflow by dashes. */
  lemma FlattenedPath(k: Key, home: string)
    requires WellFormed(k)
    ensures Flatten(WorktreePath(k, home))
            == Flatten(WorktreeBase(home) + "/") + (k.owner + "--" + k.name + "--" + Thread(k) + "--" + k.workflow)
  {
    hide SanitizeRepo;
    hide Flatten;
    hide Thread;
    hide IsNumeric;
    hide IsWorkflowName;
    ThreadIsDetachable(k);
    WorkflowIsDetachable(k.workflow);
    SanitizedRepo(k.owner, k.name);
    var base, repo := WorktreeBase(home) + "/", k.owner + "--" + k.name;
    FlattenSlash();
    FlattenPiece(repo);
    FlattenPiece(Thread(k));
    FlattenPiece(k.workflow);
    FlattenAppend(base + repo + "/" + Thread(k) + "/", k.workflow);
    FlattenAppend(base + repo + "/" + Thread(k), "/");
    FlattenAppend(base + repo + "/", Thread(k));
    FlattenAppend(base + repo, "/");
    FlattenAppend(base, repo);
  }

  lemma DetachRight(x: string, w: string)
    requires !HasDashes(w) && (w == [] || w[0] != '-')
    ensures var s := x + "--" + w; LastDashes(s, |s|) == |x|
  {
    var s := x + "--" + w;
    assert DashesAt(s, |x|);
    var i := LastDashes(s, |s|);
    if i >= |x| + 2 {
      assert DashesAt(w, i - |x| - 2);
    }
  }

  lemma DashedSplits(repo: string, thread: string, workflow: string)
    requires Detachable(thread) && Detachable(workflow)
    ensures DecodeDashed(repo + "--" + thread + "--" + workflow) == DecodeParts(repo, thread, workflow)
  {
    hide LastDashes;
    hide DecodeParts;
    hide HasDashes;
    var left := repo + "--" + thread;
    var s := left + "--" + workflow;
    DetachRight(left, workflow);
    DetachRight(repo, thread);
    assert s[..|left|] == left && s[|left| + 2..] == workflow;
    assert s[..|repo|] == repo && s[|repo| + 2..|left|] == thread;
  }

  lemma ProjectDirDecodes(k: Key, home: string)
    requires WellFormed(k)
    ensures DecodeProjectDir(ProjectDir(k, home), home) == Some(k) <==> PlainOwner(k.owner)
  {
    hide SanitizeRepo;
    hide Thread;
    hide Flatten;
    hide WorktreePath;
    hide WorktreeBase;
    hide DecodeDashed;
    hide DecodeParts;
    hide PlainOwner;
    hide IsNumeric;
    hide IsWorkflowName;
    hide Detachable;
    ThreadIsDetachable(k);
    WorkflowIsDetachable(k.workflow);
    SanitizedRepo(k.owner, k.name);
    FlattenedPath(k, home);
    var prefix := home + "/.claude/projects/" + Flatten(WorktreeBase(home) + "/");
    var rest := k.owner + "--" + k.name + "--" + Thread(k) + "--" + k.workflow;
    assert ProjectDir(k, home) == prefix + rest;
    assert (prefix + rest)[|prefix|..] == rest;
    DashedSplits(k.owner + "--" + k.name, Thread(k), k.workflow);
    PartsDecode(k);
  }

  /** Distinct conversations of plain owners never share a lock key, worktree or project directory. */
  lemma KeysAreInjective(a: Key, b: Key, home: string)
    requires WellFormed(a) && WellFormed(b) && PlainOwner(a.owner) && PlainOwner(b.owner) && a != b
    ensures LockKey(a) != LockKey(b) && WorktreePath(a, home) != WorktreePath(b, home) && ProjectDir(a, home) != ProjectDir(b, home)
  {
    hide *;
    LockKeyDecodes(a);
    LockKeyDecodes(b);
    WorktreePathDecodes(a, home);
    WorktreePathDecodes(b, home);
    ProjectDirDecodes(a, home);
    ProjectDirDecodes(b, home);
  }

  /** A conversation of any other owner shares all three with another conversation. */
  lemma OtherKeysCollide(a: Key, home: string) returns (b: Key)
    requires WellFormed(a) && !PlainOwner(a.owner)
    ensures WellFormed(b) && a != b
    ensures a.owner != [] && a.owner[0] != '-' ==> b.owner != [] && b.name != []
    ensures LockKey(a) == LockKey(b) && WorktreePath(a, home) == WorktreePath(b, home) && ProjectDir(a, home) == ProjectDir(b, home)
  {
    hide SanitizeRepo;
    var owner, name := OtherOwnersCollide(a.owner, a.name);
    b := a.(owner := owner, name := name);
  }
}
