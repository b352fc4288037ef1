/** Running again over a file the tool has already written to. */
module ConfigRuns {
  import opened Wrappers
  import opened ConfigBlock

  // ----- A second run

  /** A text ending in a closed block and a newline is not the same text with a block moved in front:
      that would need a closing marker inside the block. */
  lemma {:induction false} BlocksDoNotCommute(v: string, d: string, a: string, opens: string, closes: string)
    requires Markers(opens, closes)
    requires |d| >= |opens| && d[..|opens|] == opens && EndsFirst(d, closes) && Ends(a, closes + "\n")
    ensures v + a != d + v
    decreases |v|
  {
    if v + a == d + v {
      assert |a| == |d|;
      if |v| >= |d| {
        var rest := v[|d|..];
        assert v[..|d|] == (v + a)[..|d|] == d;
        assert v == d + rest;
        assert rest + a == (v + a)[|d|..] == d + rest;
        BlocksDoNotCommute(rest, d, a, opens, closes);
      } else {
        NoShortShift(v, d, a, opens, closes);
      }
    }
  }

  predicate Ends(s: string, m: string) {
    |m| <= |s| && s[|s| - |m|..] == m
  }

  /** `m` is the end of `d`, and is nowhere before. */
  ghost predicate EndsFirst(d: string, m: string) {
    Ends(d, m) && forall i :: At(d, m, i) ==> i == |d| - |m|
  }

  lemma EndsAppended(v: string, a: string, m: string)
    requires Ends(a, m)
    ensures Ends(v + a, m)
  {
    assert (v + a)[|v + a| - |m|..] == a[|a| - |m|..];
  }

  /** The one newline such a text ends in is nowhere near its front. */
  lemma NoShortShift(v: string, d: string, a: string, opens: string, closes: string)
    requires Markers(opens, closes)
    requires |d| >= |opens| && d[..|opens|] == opens && EndsFirst(d, closes) && Ends(a, closes + "\n")
    requires |a| == |d| && |v| < |d|
    ensures v + a != d + v
  {
    if v + a == d + v {
      EndsAppended(v, a, closes + "\n");
      if v == "" {
        assert d + v == d;
        assert d[|d| - 1] == d[|d| - |closes|..][|closes| - 1];
        LastOf(d, closes);
      } else {
        PrefixOf(v, a, d);
        if |v| <= |closes| {
          LastOf(d + v, closes);
        } else {
          assert Ends(v, closes + "\n") by {
            assert v[|v| - |closes| - 1..] == (d + v)[|d + v| - |closes| - 1..];
          }
          ClosesInside(v, d, closes);
        }
      }
    }
  }

  lemma LastOf(s: string, closes: string)
    requires Ends(s, closes + "\n")
    ensures s[|s| - 1] == '\n'
  {
    assert s[|s| - 1] == s[|s| - |closes + "\n"|..][|closes|];
  }

  lemma PrefixOf(v: string, a: string, d: string)
    requires v + a == d + v && |v| < |d|
    ensures v == d[..|v|]
  {
    assert v == (v + a)[..|v|] == (d + v)[..|v|];
  }

  lemma ClosesInside(v: string, d: string, closes: string)
    requires Ends(v, closes + "\n") && |v| <= |d| && v == d[..|v|]
    ensures At(d, closes, |v| - |closes| - 1)
  {
    var i := |v| - |closes| - 1;
    assert d[i..i + |closes|] == v[i..][..|closes|];
  }

  /** A text that still opens a block swallows up to the next closing marker, wherever that is. */
  lemma CutUnclosed(u: string, y: string, x: string, rest: string, opens: string, closes: string)
    requires Markers(opens, closes) && NotIn(y, closes) && NotIn(x, closes) && Index(u + y, opens) == |u|
    ensures Cut((u + y) + (opens + (x + (closes + rest))), opens, closes) == u + rest
  {
    var t := opens + (x + (closes + rest));
    var z := y + (opens + x);
    FirstStaysFirst(u + y, opens, t);
    Regroup(u, y, t);
    NotInOpening(opens, closes, x);
    NoSeam(y, opens + x, closes);
    Regroup(opens, x, closes + rest);
    Regroup(y, opens + x, closes + rest);
    FirstIsHere(z, closes, rest);
    AfterMarker(z, closes, rest);
    CutIs(u, y + t, rest, opens, closes);
  }

  lemma NoSeam(y: string, x: string, m: string)
    requires NotIn(y, m) && NotIn(x, m) && Headed(m) && x != "" && x[0] == '#'
    ensures NotIn(y + x, m)
  {
    forall i | At(y + x, m, i)
      ensures false
    {
      if i >= |y| {
        Parts(y, x);
        AtShift(y + x, m, |y|, i - |y|);
      } else if i + |m| <= |y| {
        AtPrefix(y, x, m, i);
      } else {
        NoOverlap(y + x, m, i, |y|);
      }
    }
  }

  lemma Cancel(a: string, b: string, c: string)
    ensures a + b == a + c ==> b == c
    ensures b + a == c + a ==> b == c
  {
    Parts(a, b);
    Parts(a, c);
    if b + a == c + a {
      assert |b| == |c|;
      Parts(b, a);
      Parts(c, a);
    }
  }

  /** A text that still holds a whole block loses that one, wherever another follows. */
  lemma CutEarlier(u: string, d: string, v: string, b: string, opens: string, closes: string)
    requires |d| >= |closes| && Index(u + (d + v), opens) == |u| && Index(d + v, closes) == |d| - |closes|
    ensures Cut((u + (d + v)) + b, opens, closes) == u + (v + b)
  {
    FirstStaysFirst(u + (d + v), opens, b);
    FirstStaysFirst(d + v, closes, b);
    Regroup(u, d + v, b);
    Regroup(d, v, b);
    Parts(d, v + b);
    CutIs(u, (d + v) + b, v + b, opens, closes);
  }

  /** When what is left still opens a block and closes it, stripping takes that one instead, and the
      text does not come back. */
  lemma WrongBlockGoes(u: string, y: string, p: string, opens: string, closes: string)
    requires Markers(opens, closes) && Index(u + y, opens) == |u| && |opens| <= |y| && y[..|opens|] == opens
    requires !NotIn(y, closes)
    ensures Stripped((u + y) + Block(p, opens, closes), opens, closes) != u + y
  {
    var f, v := AroundFirst(y, closes);
    var d, b := f + closes, Block(p, opens, closes);
    Regroup(f, closes, v);
    FirstCloses(f, v, opens, closes);
    CutEarlier(u, d, v, b, opens, closes);
    BlockEnds(u + v, p, opens, closes);
    Regroup(u, v, b);
    BlockEndsInClose(p, opens, closes);
    BlocksDoNotCommute(v, d, b, opens, closes);
    Cancel(u, v + b, d + v);
  }

  lemma BlockEndsInClose(p: string, opens: string, closes: string)
    ensures Ends(Block(p, opens, closes), closes + "\n")
  {
    Regroup(opens, p, closes + "\n");
    Parts(opens + p, closes + "\n");
  }

  lemma BlockEnds(s: string, p: string, opens: string, closes: string)
    requires Markers(opens, closes)
    ensures OneNewline(s + Block(p, opens, closes)) == s + Block(p, opens, closes)
  {
    Regroup(opens, p, closes + "\n");
    Regroup(s, opens + p, closes + "\n");
    EndsSettled(s + (opens + p), closes);
  }

  lemma FirstCloses(f: string, v: string, opens: string, closes: string)
    requires Markers(opens, closes) && NotIn(f, closes) && Index(f + (closes + v), closes) == |f|
    requires |opens| <= |f + (closes + v)| && (f + (closes + v))[..|opens|] == opens
    ensures var d := f + closes;
      |d| >= |opens| && d[..|opens|] == opens && EndsFirst(d, closes)
  {
    var y, d := f + (closes + v), f + closes;
    Regroup(f, closes, v);
    IndexIsFirst(y, closes);
    assert y == opens + y[|opens|..];
    ClosesLater(opens, closes, y[|opens|..], |f|);
    assert d[..|opens|] == y[..|opens|];
    forall i | At(d, closes, i)
      ensures i == |f|
    {
      AtPrefix(d, v, closes, i);
    }
  }

  /** When it opens one and never closes it, the text up to the new block's end goes. */
  lemma RestGoes(u: string, y: string, x: string, after: Option<string>, opens: string, closes: string)
    requires Markers(opens, closes) && Index(u + y, opens) == |u| && |opens| <= |y| && NotIn(y, closes) && NotIn(x, closes)
    ensures var p := if after.Some? then x + (closes + after.value) else x;
      Stripped((u + y) + Block(p, opens, closes), opens, closes) != u + y
  {
    if after.None? {
      CutUnclosed(u, y, x, "\n", opens, closes);
      TrimmedShorter(u);
    } else {
      var rest, end := after.value, closes + "\n";
      RegroupTwice(x, closes, rest, end);
      CutUnclosed(u, y, x, rest + end, opens, closes);
      Regroup(u, rest, end);
      EndsSettled(u + rest, closes);
      Cancel(u, rest + end, y);
      HasIt(rest, closes, "\n");
    }
  }

  lemma TrimmedShorter(u: string)
    ensures |OneNewline(u + "\n")| <= |u| + 1
  {
    TrimBlanks(u + "\n", |u|);
  }

  lemma HasIt(before: string, m: string, after: string)
    ensures At(before + (m + after), m, |before|)
  {
    Parts(before, m + after);
    Parts(m, after);
  }

  /** Stripping what a run wrote gives back what the run kept, exactly when what it kept opens no further
      block and the profiles carry no closing marker. */
  lemma StrippingUndoesWriting(existing: string, p: string, opens: string, closes: string)
    requires Markers(opens, closes)
    ensures Stripped(Written(existing, p, opens, closes), opens, closes) == Stripped(existing, opens, closes)
      <==> NotIn(Stripped(existing, opens, closes), opens) && NotIn(p, closes)
  {
    var k := Stripped(existing, opens, closes);
    if !NotIn(k, opens) {
      var u, after := AroundFirst(k, opens);
      var y := opens + after;
      if NotIn(y, closes) {
        if NotIn(p, closes) {
          RestGoes(u, y, p, None, opens, closes);
        } else {
          var x, rest := AroundFirst(p, closes);
          RestGoes(u, y, x, Some(rest), opens, closes);
        }
      } else {
        Parts(opens, after);
        WrongBlockGoes(u, y, p, opens, closes);
      }
    } else if NotIn(p, closes) {
      CleanComesBack(existing, p, opens, closes);
    } else {
      var x, rest := AroundFirst(p, closes);
      EarlyCloseStaysBehind(k, x, rest, opens, closes);
    }
  }

  /** A later run leaves the file as if the earlier one had not happened, under the same condition and
      whatever it writes; with the same profiles, writing twice is writing once. */
  lemma SecondRunReplacesFirst(existing: string, p: string, q: string, opens: string, closes: string)
    requires Markers(opens, closes)
    ensures Written(Written(existing, p, opens, closes), q, opens, closes) == Written(existing, q, opens, closes)
      <==> NotIn(Stripped(existing, opens, closes), opens) && NotIn(p, closes)
  {
    StrippingUndoesWriting(existing, p, opens, closes);
    var b := Block(q, opens, closes);
    var once, twice := Stripped(existing, opens, closes), Stripped(Written(existing, p, opens, closes), opens, closes);
    if once + b == twice + b {
      assert |once| == |twice|;
      Parts(once, b);
      Parts(twice, b);
    }
  }

  /** The file after any number of runs. */
  function AfterRuns(existing: string, runs: seq<string>, opens: string, closes: string): string {
    if runs == [] then existing
    else Written(AfterRuns(existing, runs[..|runs| - 1], opens, closes), runs[|runs| - 1], opens, closes)
  }

  /** However often the tool runs, and whatever it wrote before, the file is what the last run alone
      would have made of the original. */
  lemma {:induction false} OnlyTheLastRunShows(existing: string, runs: seq<string>, opens: string, closes: string)
    requires Markers(opens, closes) && runs != [] && NotIn(Stripped(existing, opens, closes), opens)
    requires forall p :: p in runs ==> NotIn(p, closes)
    ensures AfterRuns(existing, runs, opens, closes) == Written(existing, runs[|runs| - 1], opens, closes)
    ensures Stripped(AfterRuns(existing, runs, opens, closes), opens, closes) == Stripped(existing, opens, closes)
  {
    var before, last := runs[..|runs| - 1], runs[|runs| - 1];
    if before != [] {
      OnlyTheLastRunShows(existing, before, opens, closes);
      SecondRunReplacesFirst(existing, before[|before| - 1], last, opens, closes);
    }
    StrippingUndoesWriting(existing, last, opens, closes);
  }

  // ----- What the condition means for a text

  /** A marker has no newline in it, so tidying the end of a text opens no block. */
  lemma TidyingOpensNothing(s: string, m: string)
    requires NotIn(s, m) && m != "" && '\n' !in m
    ensures NotIn(OneNewline(s), m)
  {
    var t := TrimRight(s);
    assert s == t + s[|t|..];
    forall i | At(OneNewline(s), m, i)
      ensures false
    {
      if i + |m| > |t| {
        CharAt(OneNewline(s), m, i, |t|);
      } else {
        AtPrefix(t, "\n", m, i);
        AtPrefix(t, s[|t|..], m, i);
      }
    }
  }

  /** The blanks at the end of a text are newlines, tabs and spaces, and no others: they go, and one newline
      takes their place where there is text. */
  lemma TidyingMeans(s: string, blanks: string)
    requires forall i :: 0 <= i < |blanks| ==> blanks[i] == '\n' || blanks[i] == '\t' || blanks[i] == ' '
    ensures OneNewline(blanks) == ""
    ensures s != "" && s[|s| - 1] != '\n' && s[|s| - 1] != '\t' && s[|s| - 1] != ' ' ==> OneNewline(s + blanks) == s + "\n"
  {
    TrimBlanks(blanks, 0);
    if s != "" && !IsBlank(s[|s| - 1]) {
      TrimBlanks(s + blanks, |s|);
      Parts(s, blanks);
      EndsInText(s);
    }
  }

  /** What is between the first opening marker of a written file and the closing marker after it is the
      profiles, and in front of it is what the run kept. */
  lemma ProfilesComeBack(existing: string, p: string, opens: string, closes: string)
    requires Markers(opens, closes) && NotIn(Stripped(existing, opens, closes), opens) && NotIn(p, closes)
    ensures var w := Written(existing, p, opens, closes);
      var i := Index(w, opens);
      && i >= 0 && w[..i] == Stripped(existing, opens, closes)
      && w[i + |opens|..] == p + (closes + "\n")
      && Index(w[i + |opens|..], closes) == |p|
  {
    var k := Stripped(existing, opens, closes);
    FirstIsHere(k, opens, p + (closes + "\n"));
    Parts(k, Block(p, opens, closes));
    AfterMarker(k, opens, p + (closes + "\n"));
    FirstIsHere(p, closes, "\n");
  }

  /** A text with no block keeps everything but trailing blanks. */
  lemma NoBlock(text: string, opens: string, closes: string)
    requires Markers(opens, closes) && NotIn(text, opens)
    ensures Stripped(text, opens, closes) == OneNewline(text)
    ensures NotIn(Stripped(text, opens, closes), opens)
  {
    IndexIsFirst(text, opens);
    TidyingOpensNothing(text, opens);
  }

  /** A block that never closes takes what follows it along. */
  lemma HalfABlock(a: string, x: string, opens: string, closes: string)
    requires Markers(opens, closes) && NotIn(a, opens) && NotIn(x, closes)
    ensures Stripped(a + (opens + x), opens, closes) == OneNewline(a)
    ensures NotIn(Stripped(a + (opens + x), opens, closes), opens)
  {
    FirstIsHere(a, opens, x);
    Parts(a, opens + x);
    NotInOpening(opens, closes, x);
    IndexIsFirst(opens + x, closes);
    TidyingOpensNothing(a, opens);
  }

  /** Around one block that ends its line, everything before and after is kept. */
  lemma OneBlock(a: string, x: string, b: string, opens: string, closes: string)
    requires Markers(opens, closes) && NotIn(a, opens) && NotIn(x, closes) && NotIn(b, opens)
    requires b == "" || b[0] == '\n'
    ensures Stripped(a + (opens + (x + (closes + b))), opens, closes) == OneNewline(a + b)
    ensures NotIn(Stripped(a + (opens + (x + (closes + b))), opens, closes), opens)
  {
    CutBlock(a, x, b, opens, closes);
    forall i | At(a + b, opens, i)
      ensures false
    {
      if i >= |a| {
        Parts(a, b);
        AtShift(a + b, opens, |a|, i - |a|);
      } else if i + |opens| <= |a| {
        AtPrefix(a, b, opens, i);
      } else {
        CharAt(a + b, opens, i, |a|);
      }
    }
    TidyingOpensNothing(a + b, opens);
  }

  /** Without that newline the two sides may meet to make a new opening marker, which a second run then
      takes for a block. */
  lemma SidesMeet(p: string, q: string)
    ensures var existing := "# >>> " + (MARKER + ("" + (END_MARKER + "accessctl >>>")));
      Written(Written(existing, p, MARKER, END_MARKER), q, MARKER, END_MARKER) != Written(existing, q, MARKER, END_MARKER)
  {
    var existing := "# >>> " + (MARKER + ("" + (END_MARKER + "accessctl >>>")));
    AwsMarkers();
    SidesLeaveMarker("# >>> ", "accessctl >>>", MARKER, END_MARKER);
    SecondRunReplacesFirst(existing, p, q, MARKER, END_MARKER);
  }

  lemma SidesAreShort(a: string, x: string, opens: string, closes: string)
    requires |a| < |opens| && |x| < |closes|
    ensures NotIn(a, opens) && NotIn(x, closes)
  {
  }

  lemma SidesLeaveMarker(a: string, b: string, opens: string, closes: string)
    requires Markers(opens, closes) && a + b == opens && |a| < |opens| && !IsBlank(opens[|opens| - 1])
    ensures !NotIn(Stripped(a + (opens + ("" + (closes + b))), opens, closes), opens)
  {
    SidesAreShort(a, "", opens, closes);
    CutBlock(a, "", b, opens, closes);
    EndsInText(opens);
    HasIt("", opens, "\n");
    assert "" + (opens + "\n") == opens + "\n";
  }
}
