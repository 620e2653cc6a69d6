/** splitData (main.go:132-143): the input is split on newlines, every line is trimmed of
    white space, and the lines that are not empty after trimming are the names, in input
    order. The input bytes are read as one character per byte. */
module SplitData {
  import opened GoStrings

  datatype Option<T> = None | Some(value: T)

  /** The names kept from a sequence of lines: each line trimmed, the empty results dropped,
      the rest in the order of the lines. */
  function CleanLines(lines: seq<string>): (names: seq<string>)
    ensures |names| <= |lines|
  {
    if lines == [] then []
    else
      var name := TrimSpace(lines[|lines| - 1]);
      CleanLines(lines[..|lines| - 1]) + (if name == "" then [] else [name])
  }

  /** The names splitData returns for `data`. */
  function Names(data: string): (names: seq<string>)
    ensures |names| <= CountChar(data, '\n') + 1
  {
    CleanLines(SplitLines(data))
  }

  /** Clean lines of a concatenation are the clean lines of each part, one after the other:
      names keep the relative order of their lines. */
  lemma {:induction false} CleanLinesAppend(a: seq<string>, b: seq<string>)
    ensures CleanLines(a + b) == CleanLines(a) + CleanLines(b)
  {
    if b == [] {
      assert a + b == a;
    } else {
      var b' := b[..|b| - 1];
      assert (a + b)[..|a + b| - 1] == a + b';
      assert (a + b)[|a + b| - 1] == b[|b| - 1];
      CleanLinesAppend(a, b');
    }
  }

  /** One more line adds its trimmed form at the end, unless that is empty. */
  lemma CleanLinesSnoc(init: seq<string>, line: string)
    ensures CleanLines(init + [line]) ==
            CleanLines(init) + (if TrimSpace(line) == "" then [] else [TrimSpace(line)])
  {
    assert (init + [line])[..|init|] == init;
  }

  /** A name is kept exactly when some line trims to it and it is not empty. */
  lemma {:induction false} CleanLinesMembers(lines: seq<string>, x: string)
    ensures x in CleanLines(lines) <==> x != "" && exists k :: 0 <= k < |lines| && TrimSpace(lines[k]) == x
  {
    if lines != [] {
      var init, last := lines[..|lines| - 1], lines[|lines| - 1];
      assert lines == init + [last];
      CleanLinesSnoc(init, last);
      CleanLinesMembers(init, x);
      if x != "" && exists k :: 0 <= k < |lines| && TrimSpace(lines[k]) == x {
        var k :| 0 <= k < |lines| && TrimSpace(lines[k]) == x;
        if k < |init| {
          assert init[k] == lines[k];
        }
      }
      if x in CleanLines(init) {
        var k :| 0 <= k < |init| && TrimSpace(init[k]) == x;
        assert lines[k] == init[k];
      }
    }
  }

  /** Every name is non-empty, carries no surrounding white space (trimming it again is the
      identity), and contains no character that no line contains. */
  lemma {:induction false} CleanLinesShape(lines: seq<string>, c: char)
    requires forall k :: 0 <= k < |lines| ==> c !in lines[k]
    ensures forall name :: name in CleanLines(lines) ==>
              name != "" && TrimSpace(name) == name && c !in name
  {
    if lines != [] {
      var init, last := lines[..|lines| - 1], lines[|lines| - 1];
      assert lines == init + [last];
      CleanLinesSnoc(init, last);
      assert forall k :: 0 <= k < |init| ==> init[k] == lines[k];
      CleanLinesShape(init, c);
      TrimSpaceIdempotent(last);
      TrimSpaceKeepsAbsent(last, c);
    }
  }

  /** splitData: the loop over strings.Split(string(data), "\n") appending each trimmed,
      non-empty line. The error result is always nil. */
  method SplitData(data: string) returns (names: seq<string>, err: Option<string>)
    ensures err == None
    ensures names == Names(data)
    ensures forall k :: 0 <= k < |names| ==>
              names[k] != "" && '\n' !in names[k] && TrimSpace(names[k]) == names[k]
    ensures |names| <= CountChar(data, '\n') + 1
  {
    var lines := SplitLines(data);
    names := [];
    var i := 0;
    while i < |lines|
      invariant 0 <= i <= |lines|
      invariant names == CleanLines(lines[..i])
    {
      var line := TrimSpace(lines[i]);
      assert lines[..i + 1][..i] == lines[..i];
      if line != "" {
        names := names + [line];
      }
      i := i + 1;
    }
    assert lines[..i] == lines;
    CleanLinesShape(lines, '\n');
    assert forall k :: 0 <= k < |names| ==> names[k] in names;
    err := None;
  }

  /** The names of newline-free lines joined by newlines are their clean lines. */
  lemma NamesOfJoin(lines: seq<string>)
    requires |lines| >= 1
    requires forall k :: 0 <= k < |lines| ==> '\n' !in lines[k]
    ensures Names(JoinLines(lines)) == CleanLines(lines)
  {
    SplitJoin(lines);
  }

  /** The joins of the test-table layouts, written out. */
  lemma JoinTestLayouts(j: string, f: string, b: string)
    ensures JoinLines([j, f]) == j + "\n" + f
    ensures JoinLines([j, f, ""]) == j + "\n" + f + "\n"
    ensures JoinLines([j, b, b, f, b, ""]) == j + "\n" + b + "\n" + b + "\n" + f + "\n" + b + "\n"
  {
    var e: string := [];
    assert [j, f][1..] == [f];
    assert [j, f, e][1..] == [f, e] && [f, e][1..] == [e];
    assert JoinLines([f, e]) == f + "\n";
    var six := [j, b, b, f, b, e];
    assert six[1..] == [b, b, f, b, e];
    assert six[1..][1..] == [b, f, b, e];
    assert six[1..][1..][1..] == [f, b, e];
    assert six[1..][1..][1..][1..] == [b, e];
    assert six[1..][1..][1..][1..][1..] == [e];
    var s5 := JoinLines([b, e]);
    assert s5 == b + "\n";
    var s4 := JoinLines([f, b, e]);
    assert s4 == f + "\n" + s5;
    var s3 := JoinLines([b, f, b, e]);
    assert s3 == b + "\n" + s4;
    var s2 := JoinLines([b, b, f, b, e]);
    assert s2 == b + "\n" + s3;
    assert JoinLines(six) == j + "\n" + s2;
  }

  /** The clean lines of the test-table layouts, for lines that trim to the names n and m or
      to nothing. */
  lemma CleanTestLayouts(j: string, f: string, b: string, n: string, m: string)
    requires TrimSpace(j) == n && TrimSpace(f) == m && n != "" && m != ""
    requires TrimSpace(b) == ""
    ensures CleanLines([j, f]) == [n, m]
    ensures CleanLines([j, f, ""]) == [n, m]
    ensures CleanLines([j, b, b, f, b, ""]) == [n, m]
  {
    var e: string := [];
    assert TrimSpace(e) == e;
    assert [j][..0] == [];
    assert CleanLines([j]) == [n];
    assert [j, f][..1] == [j];
    assert CleanLines([j, f]) == [n, m];
    assert [j, f, e][..2] == [j, f];
    var six := [j, b, b, f, b, e];
    assert six[..1] == [j];
    assert six[..2][..1] == six[..1];
    assert CleanLines(six[..2]) == [n];
    assert six[..3][..2] == six[..2];
    assert CleanLines(six[..3]) == [n];
    assert six[..4][..3] == six[..3];
    assert CleanLines(six[..4]) == [n, m];
    assert six[..5][..4] == six[..4];
    assert CleanLines(six[..5]) == [n, m];
    assert six[..|six| - 1] == six[..5];
  }

  /** The layouts of the test table (main_test.go:76-78), for any name `j` that is already
      trimmed, any line `f` that trims to a name, and any blank line `b`: the names are
      j and the trim of f in every layout. The table's inputs are the case j = "jesselucas",
      f = " forestgiant", b = " ". */
  lemma SplitDataTestLayouts(j: string, f: string, b: string)
    requires '\n' !in j && '\n' !in f && '\n' !in b
    requires j != "" && TrimSpace(j) == j
    requires TrimSpace(f) != ""
    requires TrimSpace(b) == ""
    ensures Names(j + "\n" + f) == [j, TrimSpace(f)]
    ensures Names(j + "\n" + f + "\n") == [j, TrimSpace(f)]
    ensures Names(j + "\n" + b + "\n" + b + "\n" + f + "\n" + b + "\n") == [j, TrimSpace(f)]
  {
    JoinTestLayouts(j, f, b);
    NamesOfJoin([j, f]);
    NamesOfJoin([j, f, ""]);
    NamesOfJoin([j, b, b, f, b, ""]);
    CleanTestLayouts(j, f, b, j, TrimSpace(f));
  }

  /** The inputs of the test table, as the layouts of SplitDataTestLayouts. */
  lemma TestTableInputs(j: string, f: string, b: string)
    requires j == "jesselucas" && f == " forestgiant" && b == " "
    ensures j + "\n" + f == "jesselucas\n forestgiant"
    ensures j + "\n" + f + "\n" == "jesselucas\n forestgiant\n"
    ensures j + "\n" + b + "\n" + b + "\n" + f + "\n" + b + "\n" == "jesselucas\n \n \n forestgiant\n \n"
  {
    var s1 := j + "\n" + b + "\n";
    assert s1 == "jesselucas\n \n";
    var s2 := s1 + b + "\n";
    assert s2 == "jesselucas\n \n \n";
    var s3 := s2 + f + "\n";
    assert s3 == "jesselucas\n \n \n forestgiant\n";
    assert s3 + b + "\n" == "jesselucas\n \n \n forestgiant\n \n";
  }

  /** The test table of main_test.go:76-78 itself: each of its three inputs gives the names
      "jesselucas" and "forestgiant", in that order. */
  lemma SplitDataTestTable()
    ensures Names("jesselucas\n forestgiant") == ["jesselucas", "forestgiant"]
    ensures Names("jesselucas\n forestgiant\n") == ["jesselucas", "forestgiant"]
    ensures Names("jesselucas\n \n \n forestgiant\n \n") == ["jesselucas", "forestgiant"]
  {
    var j, f, b := "jesselucas", " forestgiant", " ";
    TrimSpaceFixes(j);
    assert f[1..] == "forestgiant";
    TrimSpaceFixes("forestgiant");
    assert TrimSpace(f) == "forestgiant";
    assert TrimSpace(b) == "";
    SplitDataTestLayouts(j, f, b);
    TestTableInputs(j, f, b);
  }
}
