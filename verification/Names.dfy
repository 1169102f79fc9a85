/** Python's order on names, and listing a set of names in it (`sorted`). */
module Names {

  predicate Less(a: string, b: string) {
    b != [] && (a == [] || a[0] < b[0] || (a[0] == b[0] && Less(a[1..], b[1..])))
  }

  /** The order by code points at the first difference, a prefix coming first. */
  lemma {:induction false} LessIff(a: string, b: string)
    ensures Less(a, b) <==>
              exists k :: 0 <= k <= |a| && k < |b| && a[..k] == b[..k] && (k == |a| || a[k] < b[k])
  {
    if b != [] && a != [] && a[0] == b[0] {
      LessIff(a[1..], b[1..]);
      if k :| 0 <= k <= |a[1..]| && k < |b[1..]| && a[1..][..k] == b[1..][..k] && (k == |a[1..]| || a[1..][k] < b[1..][k]) {
        assert a[..k + 1] == [a[0]] + a[1..][..k] && b[..k + 1] == [b[0]] + b[1..][..k];
        assert k + 1 == |a| || a[k + 1] < b[k + 1];
      }
      if k :| 0 <= k <= |a| && k < |b| && a[..k] == b[..k] && (k == |a| || a[k] < b[k]) {
        assert k > 0;
        assert a[1..][..k - 1] == a[..k][1..] && b[1..][..k - 1] == b[..k][1..];
        assert k - 1 == |a[1..]| || a[1..][k - 1] < b[1..][k - 1];
      }
    } else if b != [] {
      assert a[..0] == b[..0];
      if a != [] && a[0] < b[0] {
        assert 0 <= 0 <= |a|;
      }
    }
  }

  lemma {:induction false} LessIsTotal(a: string, b: string)
    ensures Less(a, b) || a == b || Less(b, a)
  {
    if a != [] && b != [] && a[0] == b[0] {
      LessIsTotal(a[1..], b[1..]);
      assert a == [a[0]] + a[1..] && b == [b[0]] + b[1..];
    }
  }

  lemma {:induction false} LessIsTransitive(a: string, b: string, c: string)
    requires Less(a, b) && Less(b, c)
    ensures Less(a, c)
  {
    if a != [] && a[0] == b[0] && b[0] == c[0] {
      LessIsTransitive(a[1..], b[1..], c[1..]);
    }
  }

  lemma {:induction false} LessIsIrreflexive(a: string)
    ensures !Less(a, a)
  {
    if a != [] {
      LessIsIrreflexive(a[1..]);
    }
  }

  predicate Ascending(names: seq<string>) {
    forall i, j :: 0 <= i < j < |names| ==> Less(names[i], names[j])
  }

  function SetOf(names: seq<string>): set<string> {
    set n | n in names
  }

  lemma InsertAscending(names: seq<string>, at: nat, n: string)
    requires Ascending(names) && at <= |names|
    requires at > 0 ==> Less(names[at - 1], n)
    requires at < |names| ==> Less(n, names[at])
    ensures Ascending(names[..at] + [n] + names[at..])
    ensures SetOf(names[..at] + [n] + names[at..]) == SetOf(names) + {n}
  {
    hide Less;
    forall i | 0 <= i < at ensures Less(names[i], n) {
      if i < at - 1 { LessIsTransitive(names[i], names[at - 1], n); }
    }
    forall i | at <= i < |names| ensures Less(n, names[i]) {
      if at < i { LessIsTransitive(n, names[at], names[i]); }
    }
    var r := names[..at] + [n] + names[at..];
    assert names == names[..at] + names[at..];
    assert forall x :: x in r <==> x in names || x == n;
  }

  method SortNames(s: set<string>) returns (names: seq<string>)
    ensures Ascending(names) && SetOf(names) == s
  {
    names := [];
    var todo := s;
    while todo != {}
      invariant todo <= s && SetOf(names) == s - todo && Ascending(names)
      decreases todo
    {
      var n :| n in todo;
      var at := 0;
      while at < |names| && Less(names[at], n)
        invariant 0 <= at <= |names|
        invariant at > 0 ==> Less(names[at - 1], n)
      {
        at := at + 1;
      }
      if at < |names| {
        assert names[at] in SetOf(names);
        LessIsTotal(n, names[at]);
      }
      InsertAscending(names, at, n);
      names := names[..at] + [n] + names[at..];
      todo := todo - {n};
    }
  }
}
