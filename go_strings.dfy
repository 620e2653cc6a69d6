/** The two helpers of Go's `strings` package that splitData relies on:
    `strings.Split(s, "\n")` and `strings.TrimSpace(s)`, with `strings.Join(lines, "\n")`
    as the inverse of the first. A Go string is modelled as a sequence of characters. */
module GoStrings {

  /** White space as strings.TrimSpace sees it, restricted to ASCII: space, tab, newline,
      vertical tab, form feed and carriage return. Go's TrimSpace also removes the Unicode
      spaces U+0085, U+00A0, U+1680, U+2000 to U+200A, U+2028, U+2029, U+202F, U+205F and
      U+3000; this model does not. */
  predicate IsSpace(c: char) {
    c == ' ' || c == '\t' || c == '\n' || c == '\U{0B}' || c == '\U{0C}' || c == '\r'
  }

  /** Number of occurrences of `c` in `s` (strings.Count with a one-character separator). */
  function CountChar(s: string, c: char): (n: nat)
    ensures n <= |s|
    ensures n == 0 <==> c !in s
  {
    if s == [] then 0 else (if s[0] == c then 1 else 0) + CountChar(s[1..], c)
  }

  // ---------------------------------------------------------------------------
  // strings.Split(s, "\n") and strings.Join(lines, "\n")
  // ---------------------------------------------------------------------------

  /** strings.Split(s, "\n"): the pieces of `s` between newlines. There is always one
      piece more than there are newlines, so the empty string gives one empty piece and a
      trailing newline gives an empty last piece. */
  function SplitLines(s: string): (lines: seq<string>)
    ensures |lines| == CountChar(s, '\n') + 1
    ensures forall k :: 0 <= k < |lines| ==> '\n' !in lines[k]
  {
    if s == [] then [""]
    else
      var rest := SplitLines(s[1..]);
      if s[0] == '\n' then [""] + rest
      else [[s[0]] + rest[0]] + rest[1..]
  }

  /** strings.Join(lines, "\n"): the pieces with one newline between neighbours. */
  function JoinLines(lines: seq<string>): (s: string)
    requires |lines| >= 1
  {
    if |lines| == 1 then lines[0] else lines[0] + "\n" + JoinLines(lines[1..])
  }

  /** Joining a piece in front of other pieces puts a newline between them. */
  lemma JoinCons(x: string, rest: seq<string>)
    requires |rest| >= 1
    ensures JoinLines([x] + rest) == x + "\n" + JoinLines(rest)
  {
    assert ([x] + rest)[1..] == rest;
  }

  /** A character glued onto the first piece ends up in front of the join. */
  lemma JoinGlue(c: char, x: string, rest: seq<string>)
    ensures JoinLines([[c] + x] + rest) == [c] + JoinLines([x] + rest)
  {
    if rest != [] {
      JoinCons([c] + x, rest);
      JoinCons(x, rest);
      var t := "\n" + JoinLines(rest);
      assert ([c] + x) + t == [c] + (x + t);
    }
  }

  /** What Split does with a leading character that is not a newline. */
  lemma SplitCons(c: char, u: string)
    requires c != '\n'
    ensures SplitLines([c] + u) == [[c] + SplitLines(u)[0]] + SplitLines(u)[1..]
  {
    assert ([c] + u)[1..] == u;
  }

  /** The first element and the rest of a sequence built by putting `x` in front. */
  lemma HeadTail<T>(x: T, ys: seq<T>)
    ensures ([x] + ys)[0] == x && ([x] + ys)[1..] == ys
  {
  }

  /** Joining the pieces of a split gives back the string that was split. */
  lemma {:induction false} JoinSplit(s: string)
    ensures JoinLines(SplitLines(s)) == s
  {
    if s != [] {
      var c, u := s[0], s[1..];
      assert s == [c] + u;
      JoinSplit(u);
      var rest := SplitLines(u);
      assert rest == [rest[0]] + rest[1..];
      if c == '\n' {
        JoinCons("", rest);
      } else {
        SplitCons(c, u);
        JoinGlue(c, rest[0], rest[1..]);
      }
    }
  }

  /** Putting `c` in front of the first piece of `[a' + l0] + ltail`. */
  lemma GlueFront(c: char, a': string, l0: string, ltail: seq<string>, pieces: seq<string>)
    requires pieces == [a' + l0] + ltail
    ensures [[c] + pieces[0]] + pieces[1..] == [([c] + a') + l0] + ltail
  {
    HeadTail(a' + l0, ltail);
    assert [c] + (a' + l0) == ([c] + a') + l0;
  }

  /** A newline-free prefix glues onto the first piece of what follows it. */
  lemma {:induction false} SplitAfterPrefix(a: string, t: string)
    requires '\n' !in a
    ensures SplitLines(a + t) == [a + SplitLines(t)[0]] + SplitLines(t)[1..]
  {
    var lines := SplitLines(t);
    if a == [] {
      assert a + t == t && a + lines[0] == lines[0];
      assert lines == [lines[0]] + lines[1..];
    } else {
      var c, a' := a[0], a[1..];
      var u := a' + t;
      assert a == [c] + a';
      assert a + t == [c] + u;
      SplitAfterPrefix(a', t);
      SplitCons(c, u);
      GlueFront(c, a', lines[0], lines[1..], SplitLines(u));
    }
  }

  /** Splitting the join of newline-free pieces gives back the pieces. */
  lemma {:induction false} SplitJoin(lines: seq<string>)
    requires |lines| >= 1
    requires forall k :: 0 <= k < |lines| ==> '\n' !in lines[k]
    ensures SplitLines(JoinLines(lines)) == lines
  {
    if |lines| == 1 {
      SplitAfterPrefix(lines[0], "");
      assert SplitLines("") == [""];
      assert lines[0] + "" == lines[0];
    } else {
      var tail := JoinLines(lines[1..]);
      SplitJoin(lines[1..]);
      SplitAfterPrefix(lines[0], "\n" + tail);
      assert ("\n" + tail)[1..] == tail && ("\n" + tail)[0] == '\n';
      assert SplitLines("\n" + tail) == [""] + lines[1..];
      assert lines[0] + "" == lines[0];
      assert lines[0] + "\n" + tail == lines[0] + ("\n" + tail);
      assert lines == [lines[0]] + lines[1..];
    }
  }

  // ---------------------------------------------------------------------------
  // strings.TrimSpace
  // ---------------------------------------------------------------------------

  /** Drops the leading white space. */
  function TrimLeft(s: string): (t: string)
    ensures |t| <= |s|
  {
    if s != [] && IsSpace(s[0]) then TrimLeft(s[1..]) else s
  }

  /** Drops the trailing white space. */
  function TrimRight(s: string): (t: string)
    ensures |t| <= |s|
  {
    if s != [] && IsSpace(s[|s| - 1]) then TrimRight(s[..|s| - 1]) else s
  }

  /** strings.TrimSpace: `s` without its leading and trailing white space. */
  function TrimSpace(s: string): (t: string)
    ensures |t| <= |s|
  {
    TrimRight(TrimLeft(s))
  }

  /** TrimLeft keeps a suffix of its input that does not start with white space, and all it
      drops is white space. */
  lemma {:induction false} TrimLeftCuts(s: string)
    ensures |TrimLeft(s)| <= |s| && TrimLeft(s) == s[|s| - |TrimLeft(s)|..]
    ensures TrimLeft(s) == [] || !IsSpace(TrimLeft(s)[0])
    ensures forall k :: 0 <= k < |s| - |TrimLeft(s)| ==> IsSpace(s[k])
  {
    if s != [] && IsSpace(s[0]) {
      var u := s[1..];
      TrimLeftCuts(u);
      var t := TrimLeft(u);
      assert TrimLeft(s) == t;
      assert u[|u| - |t|..] == s[|s| - |t|..];
      forall k | 0 <= k < |s| - |t|
        ensures IsSpace(s[k])
      {
        if k > 0 {
          assert s[k] == u[k - 1];
        }
      }
    }
  }

  /** TrimRight keeps a prefix of its input that does not end with white space, and all it
      drops is white space. */
  lemma {:induction false} TrimRightCuts(s: string)
    ensures |TrimRight(s)| <= |s| && TrimRight(s) == s[..|TrimRight(s)|]
    ensures TrimRight(s) == [] || !IsSpace(TrimRight(s)[|TrimRight(s)| - 1])
    ensures forall k :: |TrimRight(s)| <= k < |s| ==> IsSpace(s[k])
  {
    if s != [] && IsSpace(s[|s| - 1]) {
      var u := s[..|s| - 1];
      TrimRightCuts(u);
      var t := TrimRight(u);
      assert TrimRight(s) == t;
      assert u[..|t|] == s[..|t|];
      forall k | |t| <= k < |s|
        ensures IsSpace(s[k])
      {
        if k < |u| {
          assert s[k] == u[k];
        }
      }
    }
  }

  /** TrimSpace returns a slice s[i..j] of its input that neither starts nor ends with
      white space, and everything it cut off is white space. */
  lemma TrimSpaceCuts(s: string) returns (i: nat, j: nat)
    ensures i <= j <= |s| && TrimSpace(s) == s[i..j]
    ensures TrimSpace(s) == [] || (!IsSpace(TrimSpace(s)[0]) && !IsSpace(TrimSpace(s)[j - i - 1]))
    ensures forall k :: 0 <= k < i ==> IsSpace(s[k])
    ensures forall k :: j <= k < |s| ==> IsSpace(s[k])
  {
    var left := TrimLeft(s);
    TrimLeftCuts(s);
    TrimRightCuts(left);
    i := |s| - |left|;
    j := i + |TrimRight(left)|;
    assert left == s[i..];
    assert TrimSpace(s) == left[..j - i] == s[i..j];
    assert forall k :: j <= k < |s| ==> s[k] == left[k - i];
  }

  /** A string that already neither starts nor ends with white space is left as it is. */
  lemma TrimSpaceFixes(s: string)
    requires s == [] || (!IsSpace(s[0]) && !IsSpace(s[|s| - 1]))
    ensures TrimSpace(s) == s
  {
    assert TrimLeft(s) == s;
    assert TrimRight(s) == s;
  }


  /** Trimming twice is trimming once. */
  lemma TrimSpaceIdempotent(s: string)
    ensures TrimSpace(TrimSpace(s)) == TrimSpace(s)
  {
    var i, j := TrimSpaceCuts(s);
    TrimSpaceFixes(TrimSpace(s));
  }

  /** A line trims to nothing exactly when it is all white space. */
  lemma TrimSpaceEmpty(s: string)
    ensures TrimSpace(s) == "" <==> forall k :: 0 <= k < |s| ==> IsSpace(s[k])
  {
    var i, j := TrimSpaceCuts(s);
  }

  /** Trimming adds no character: what the input lacks, its trim lacks too. */
  lemma TrimSpaceKeepsAbsent(s: string, c: char)
    requires c !in s
    ensures c !in TrimSpace(s)
  {
    var i, j := TrimSpaceCuts(s);
    assert forall k :: 0 <= k < j - i ==> TrimSpace(s)[k] == s[i + k];
  }
}
