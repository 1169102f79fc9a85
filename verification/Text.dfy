/** The string operations of Python that the modules share: splitting at a separator, joining, and
    stripping whitespace. */
module Text {

  /** The characters str.split() and str.strip() treat as whitespace. */
  predicate IsSpace(c: char) {
    || c == ' ' || '\U{9}' <= c <= '\U{D}' || '\U{1C}' <= c <= '\U{1F}' || c == '\U{85}' || c == '\U{A0}'
    || c == '\U{1680}' || '\U{2000}' <= c <= '\U{200A}' || c == '\U{2028}' || c == '\U{2029}' || c == '\U{202F}'
    || c == '\U{205F}' || c == '\U{3000}'
  }

  /** s.strip(). */
  function Strip(s: string): string {
    if s == [] then s
    else if IsSpace(s[0]) then Strip(s[1..])
    else if IsSpace(s[|s| - 1]) then Strip(s[..|s| - 1])
    else s
  }

  /** Stripping removes whitespace, and all of it, at both ends, and nothing else. */
  lemma {:induction false} StripIs(s: string) returns (before: string, after: string)
    ensures s == before + Strip(s) + after
    ensures forall i :: 0 <= i < |before| ==> IsSpace(before[i])
    ensures forall i :: 0 <= i < |after| ==> IsSpace(after[i])
    ensures Strip(s) != "" ==> !IsSpace(Strip(s)[0]) && !IsSpace(Strip(s)[|Strip(s)| - 1])
  {
    hide IsSpace;
    before, after := "", "";
    if s != "" && IsSpace(s[0]) {
      before, after := StripIs(s[1..]);
      before := [s[0]] + before;
    } else if s != "" && IsSpace(s[|s| - 1]) {
      before, after := StripIs(s[..|s| - 1]);
      after := after + [s[|s| - 1]];
    }
  }

  /** Only whitespace is stripped to nothing. */
  lemma {:induction false} StripsToNothingIff(s: string)
    ensures Strip(s) == "" <==> forall i :: 0 <= i < |s| ==> IsSpace(s[i])
  {
    if s != "" && IsSpace(s[0]) {
      StripsToNothingIff(s[1..]);
      assert forall i :: 1 <= i < |s| ==> s[i] == s[1..][i - 1];
    } else if s != "" && IsSpace(s[|s| - 1]) {
      StripsToNothingIff(s[..|s| - 1]);
      assert s[..|s| - 1][0] == s[0];
    }
  }

  /** sep.join(pieces), for a separator of one character. */
  function Join(pieces: seq<string>, sep: char): string {
    if pieces == [] then ""
    else if |pieces| == 1 then pieces[0]
    else Join(pieces[..|pieces| - 1], sep) + [sep] + pieces[|pieces| - 1]
  }

  lemma {:induction false} JoinAppend(a: seq<string>, b: seq<string>, sep: char)
    requires a != [] && b != []
    ensures Join(a + b, sep) == Join(a, sep) + [sep] + Join(b, sep)
  {
    var n := |b| - 1;
    assert (a + b)[..|a + b| - 1] == a + b[..n];
    if n > 0 {
      JoinAppend(a, b[..n], sep);
      assert Join(a, sep) + [sep] + Join(b[..n], sep) + [sep] + b[n] == Join(a, sep) + [sep] + Join(b, sep);
    } else {
      assert a + b[..0] == a;
    }
  }

  /** s.split(sep), for a separator of one character. */
  function Split(s: string, sep: char): (pieces: seq<string>)
    ensures |pieces| >= 1
  {
    if s == [] then [""]
    else
      var front, c := Split(s[..|s| - 1], sep), s[|s| - 1];
      if c == sep then front + [""] else front[|front| - 1 := front[|front| - 1] + [c]]
  }

  lemma SplitSnoc(s: string, c: char, sep: char)
    ensures var front := Split(s, sep);
            Split(s + [c], sep) == if c == sep then front + [""] else front[|front| - 1 := front[|front| - 1] + [c]]
  {
    assert (s + [c])[..|s|] == s;
  }

  lemma {:induction false} SplitJoins(s: string, sep: char)
    ensures Join(Split(s, sep), sep) == s
  {
    if s != [] {
      var front, c := Split(s[..|s| - 1], sep), s[|s| - 1];
      SplitJoins(s[..|s| - 1], sep);
      assert s == s[..|s| - 1] + [c];
      var n := |front|;
      if c == sep {
        assert (front + [""])[..n] == front;
        assert Join(front + [""], sep) == Join(front, sep) + [sep] + "";
      } else {
        var last := front[n - 1] + [c];
        assert front[n - 1 := last][..n - 1] == front[..n - 1];
        if n > 1 {
          assert Join(front[n - 1 := last], sep) == Join(front[..n - 1], sep) + [sep] + last;
        }
      }
    }
  }

  lemma {:induction false} SplitPiecesHaveNoSeparator(s: string, sep: char, i: nat)
    requires i < |Split(s, sep)|
    ensures sep !in Split(s, sep)[i]
  {
    if s != [] && i < |Split(s[..|s| - 1], sep)| {
      SplitPiecesHaveNoSeparator(s[..|s| - 1], sep, i);
    }
  }

  /** Splitting can be continued from the last piece: only that piece is still open. */
  lemma {:induction false} SplitContinues(a: string, b: string, sep: char)
    ensures var front := Split(a, sep);
            Split(a + b, sep) == front[..|front| - 1] + Split(front[|front| - 1] + b, sep)
  {
    hide Split;
    var front := Split(a, sep);
    var open := front[|front| - 1];
    if b == [] {
      assert a + b == a && open + b == open;
      SplitPiecesHaveNoSeparator(a, sep, |front| - 1);
      SplitOfPiece(open, sep);
    } else {
      var b', c := b[..|b| - 1], b[|b| - 1];
      SplitContinues(a, b', sep);
      assert a + b == (a + b') + [c] && open + b == (open + b') + [c];
      SplitSnoc(a + b', c, sep);
      SplitSnoc(open + b', c, sep);
    }
  }

  lemma {:induction false} SplitOfPiece(s: string, sep: char)
    requires sep !in s
    ensures Split(s, sep) == [s]
  {
    if s != [] {
      SplitOfPiece(s[..|s| - 1], sep);
      assert s == s[..|s| - 1] + [s[|s| - 1]];
    }
  }

  lemma SplitLastPiece(a: string, b: string, sep: char)
    requires sep !in b
    ensures Split(a + [sep] + b, sep) == Split(a, sep) + [b]
  {
    hide Split;
    SplitSnoc(a, sep, sep);
    SplitContinues(a + [sep], b, sep);
    assert "" + b == b;
    SplitOfPiece(b, sep);
  }

  /** Splitting is the only way to cut a text into pieces without the separator. */
  lemma {:induction false} SplitIsUnique(pieces: seq<string>, sep: char)
    requires pieces != [] && forall i :: 0 <= i < |pieces| ==> sep !in pieces[i]
    ensures Split(Join(pieces, sep), sep) == pieces
  {
    var n := |pieces|;
    if n == 1 {
      SplitOfPiece(pieces[0], sep);
    } else {
      SplitIsUnique(pieces[..n - 1], sep);
      SplitLastPiece(Join(pieces[..n - 1], sep), pieces[n - 1], sep);
    }
  }
}
