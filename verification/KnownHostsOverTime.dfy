/** What a host's line is after many runs, some of whose fetches failed. */
module KnownHostsOverTime {
  import opened Wrappers
  import opened Text
  import opened KnownHosts
  import opened KnownHostsRuns

  // ----- Patterns

  /** A valid entry whose patterns hold no white space of the kinds validation does not know. */
  ghost predicate Usable(e: Entry) {
    ValidEntry(e) && NoSpace(Joined(e))
  }

  lemma JoinedNotEmpty(e: Entry)
    requires ValidEntry(e)
    ensures Joined(e) != ""
  {
  }

  lemma JoinedDistinct(a: Entry, b: Entry)
    requires ValidEntry(a) && ValidEntry(b) && Joined(a) == Joined(b)
    ensures a == b
  {
    forall e | e == a || e == b
      ensures Split(Joined(e), ',') == e.patterns
    {
      forall i | 0 <= i < |e.patterns|
        ensures ',' !in e.patterns[i]
      {
        assert ValidPattern(e.patterns[i]);
      }
      SplitOfJoin(e.patterns, ',');
    }
  }

  // ----- Every line read back reads back again

  lemma {:induction false} TrimmedStops(s: string)
    ensures Trimmed(s) > 0 ==> !IsSpace(s[Trimmed(s) - 1])
  {
    if s != "" && IsSpace(s[|s| - 1]) {
      TrimmedStops(s[..|s| - 1]);
    }
  }

  lemma TrimmedTwice(s: string)
    ensures TrimSpace(TrimSpace(s)) == TrimSpace(s)
  {
    var t := s[Leading(s)..];
    LeadingStops(s);
    TrimmedStops(t);
    var r := t[..Trimmed(t)];
    if r != "" {
      assert r[0] == t[0];
      NoSpaceEnds(r);
    }
  }

  ghost predicate HoldsLines(previous: map<string, string>) {
    forall k :: k in previous ==> ReadsBack(previous[k], k)
  }

  lemma ReadLineHolds(previous: map<string, string>, line: string)
    requires HoldsLines(previous) && '\n' !in line
    ensures HoldsLines(ReadLine(previous, line))
  {
    TrimmedTwice(line);
    var trimmed := TrimSpace(line);
    assert forall c :: c in trimmed ==> c in line;
    if IsManaged(trimmed) {
      assert ReadsBack(trimmed, Fields(trimmed)[1]);
    }
  }

  lemma {:induction false} ReadLinesHold(lines: seq<string>)
    requires forall i :: 0 <= i < |lines| ==> '\n' !in lines[i]
    ensures HoldsLines(ReadLines(lines))
  {
    if lines != [] {
      ReadLinesHold(lines[..|lines| - 1]);
      ReadLineHolds(ReadLines(lines[..|lines| - 1]), lines[|lines| - 1]);
    }
  }

  lemma PreviousHolds(file: Option<string>)
    ensures HoldsLines(Previous(file))
  {
    if file.Some? {
      SplitInverts(file.value, '\n');
      ReadLinesHold(Split(file.value, '\n'));
    }
  }

  /** Whatever was in the file before, every line a run writes for a usable entry reads back as itself,
      under that entry's patterns. */
  lemma ResolvedReadsBack(e: Entry, answer: Option<string>, file: Option<string>)
    requires Usable(e) && ResolveEntry(e, answer, Previous(file)) != ""
    ensures ReadsBack(ResolveEntry(e, answer, Previous(file)), Joined(e))
  {
    JoinedNotEmpty(e);
    if Key(answer).Some? {
      FreshReads(Joined(e), answer);
    } else {
      PreviousHolds(file);
    }
  }

  // ----- The file holds each entry's line

  ghost predicate AllUsable(entries: seq<Entry>) {
    forall i :: 0 <= i < |entries| ==> Usable(entries[i])
  }

  /** Entries with the same patterns got the same key, or none. */
  ghost predicate Agreeing(entries: seq<Entry>, answers: seq<Option<string>>) {
    && |entries| == |answers|
    && forall i, j :: 0 <= i < |entries| && 0 <= j < |entries| && entries[i] == entries[j] ==> Key(answers[i]) == Key(answers[j])
  }

  /** Entries that are all different always agree. */
  lemma DistinctAgree(entries: seq<Entry>, answers: seq<Option<string>>)
    requires |entries| == |answers| && forall i, j :: 0 <= i < j < |entries| ==> entries[i] != entries[j]
    ensures Agreeing(entries, answers)
  {
  }

  function Lookup(table: map<string, string>, key: string): string {
    if key in table then table[key] else ""
  }

  lemma TableNext(lines: seq<string>, line: string)
    ensures Table(lines + [line]) == Table(lines)[PatternsOf(line) := line]
  {
    assert (lines + [line])[..|lines|] == lines;
  }

  /** Lines that read back under these names, where there is a line. */
  ghost predicate NamedBy(lines: seq<string>, names: seq<string>) {
    |lines| == |names| && forall i :: 0 <= i < |lines| && lines[i] != "" ==> PatternsOf(lines[i]) == names[i]
  }

  function NotEmpty(lines: seq<string>): seq<string> {
    if lines == [] then []
    else
      var last := lines[|lines| - 1];
      NotEmpty(lines[..|lines| - 1]) + (if last != "" then [last] else [])
  }

  lemma TableAdds(lines: seq<string>)
    requires lines != []
    ensures var before, last := Table(NotEmpty(lines[..|lines| - 1])), lines[|lines| - 1];
      Table(NotEmpty(lines)) == if last != "" then before[PatternsOf(last) := last] else before
  {
    var before, last := NotEmpty(lines[..|lines| - 1]), lines[|lines| - 1];
    TableNext(before, last);
    assert before + [] == before;
  }

  lemma {:induction false} TableNames(lines: seq<string>, names: seq<string>)
    requires NamedBy(lines, names)
    ensures forall k :: k in Table(NotEmpty(lines)) ==> k in names
  {
    if lines != [] {
      var n := |lines| - 1;
      TableNames(lines[..n], names[..n]);
      TableAdds(lines);
      assert names == names[..n] + [names[n]];
    }
  }

  /** Lines of one name are one line. */
  ghost predicate OneLineEach(lines: seq<string>, names: seq<string>) {
    forall i, j :: 0 <= i < |lines| && 0 <= j < |lines| && i < |names| && j < |names| && names[i] == names[j] ==> lines[i] == lines[j]
  }

  lemma {:induction false} TableHolds(lines: seq<string>, names: seq<string>, i: nat)
    requires NamedBy(lines, names) && OneLineEach(lines, names) && i < |lines|
    ensures Lookup(Table(NotEmpty(lines)), names[i]) == lines[i]
    decreases |lines|, 1
  {
    var n := |lines| - 1;
    TableAdds(lines);
    assert lines[n] != "" ==> PatternsOf(lines[n]) == names[n];
    if names[i] != names[n] {
      TableHoldsBefore(lines, names, i);
    } else if lines[n] == "" {
      if j :| 0 <= j < n && names[j] == names[n] {
        TableHoldsBefore(lines, names, j);
      } else {
        TableNames(lines[..n], names[..n]);
      }
    }
  }

  lemma {:induction false} TableHoldsBefore(lines: seq<string>, names: seq<string>, i: nat)
    requires NamedBy(lines, names) && OneLineEach(lines, names) && i < |lines| - 1
    ensures Lookup(Table(NotEmpty(lines[..|lines| - 1])), names[i]) == lines[i]
    decreases |lines|, 0
  {
    var n := |lines| - 1;
    TableHolds(lines[..n], names[..n], i);
  }

  /** Where the last line of a name is. */
  function LastNamed(names: seq<string>, name: string): (i: nat)
    requires name in names
    ensures i < |names| && names[i] == name
  {
    var n := |names| - 1;
    if names[n] == name then n else
      assert names == names[..n] + [names[n]];
      LastNamed(names[..n], name)
  }

  ghost predicate NoneEmpty(lines: seq<string>) {
    forall i :: 0 <= i < |lines| ==> lines[i] != ""
  }

  lemma NamedBefore(lines: seq<string>, names: seq<string>)
    requires NamedBy(lines, names) && NoneEmpty(lines) && lines != []
    ensures NamedBy(lines[..|lines| - 1], names[..|lines| - 1]) && NoneEmpty(lines[..|lines| - 1])
    ensures lines[|lines| - 1] != "" && PatternsOf(lines[|lines| - 1]) == names[|lines| - 1]
  {
  }

  /** Of different lines of one name, the last is the one found again. */
  lemma {:induction false} TableHoldsLast(lines: seq<string>, names: seq<string>, name: string)
    requires NamedBy(lines, names) && name in names && NoneEmpty(lines)
    ensures Lookup(Table(NotEmpty(lines)), name) == lines[LastNamed(names, name)]
  {
    var n := |lines| - 1;
    TableAdds(lines);
    NamedBefore(lines, names);
    if names[n] != name {
      assert names == names[..n] + [names[n]];
      TableHoldsLast(lines[..n], names[..n], name);
      assert LastNamed(names, name) == LastNamed(names[..n], name) < n;
    }
  }

  /** Each entry's line, "" where it has none. */
  function Resolved(entries: seq<Entry>, answers: seq<Option<string>>, previous: map<string, string>): (r: seq<string>)
    requires |entries| == |answers|
    ensures |r| == |entries|
  {
    seq(|entries|, i requires 0 <= i < |entries| => ResolveEntry(entries[i], answers[i], previous))
  }

  function Names(entries: seq<Entry>): (r: seq<string>)
    ensures |r| == |entries|
  {
    seq(|entries|, i requires 0 <= i < |entries| => Joined(entries[i]))
  }

  lemma {:induction false} LinesAreNotEmpty(entries: seq<Entry>, answers: seq<Option<string>>, previous: map<string, string>)
    requires |entries| == |answers|
    ensures Lines(entries, answers, previous) == NotEmpty(Resolved(entries, answers, previous))
  {
    if entries != [] {
      var n := |entries| - 1;
      LinesAreNotEmpty(entries[..n], answers[..n], previous);
      assert Resolved(entries, answers, previous)[..n] == Resolved(entries[..n], answers[..n], previous);
    }
  }

  lemma AgreeingIsOneLineEach(entries: seq<Entry>, answers: seq<Option<string>>, previous: map<string, string>)
    requires AllUsable(entries) && Agreeing(entries, answers)
    ensures OneLineEach(Resolved(entries, answers, previous), Names(entries))
  {
    forall i, j | 0 <= i < |entries| && 0 <= j < |entries| && Joined(entries[i]) == Joined(entries[j])
      ensures ResolveEntry(entries[i], answers[i], previous) == ResolveEntry(entries[j], answers[j], previous)
    {
      JoinedDistinct(entries[i], entries[j]);
    }
  }

  lemma ResolvedIsNamed(entries: seq<Entry>, answers: seq<Option<string>>, file: Option<string>)
    requires |entries| == |answers| && AllUsable(entries)
    ensures NamedBy(Resolved(entries, answers, Previous(file)), Names(entries))
    ensures AllReadBack(NotEmpty(Resolved(entries, answers, Previous(file))))
  {
    var lines := Resolved(entries, answers, Previous(file));
    forall i | 0 <= i < |lines| && lines[i] != ""
      ensures PatternsOf(lines[i]) == Joined(entries[i]) && ReadsBack(lines[i], PatternsOf(lines[i]))
    {
      ResolvedReadsBack(entries[i], answers[i], file);
    }
    forall l | l in NotEmpty(lines)
      ensures ReadsBack(l, PatternsOf(l))
    {
      NotEmptyIn(lines, l);
    }
  }

  lemma {:induction false} NotEmptyIn(lines: seq<string>, l: string)
    requires l in NotEmpty(lines)
    ensures l != "" && l in lines
  {
    var n := |lines| - 1;
    if l in NotEmpty(lines[..n]) {
      NotEmptyIn(lines[..n], l);
    }
  }

  /** Looking an entry up in what its run wrote gives that run's line, or nothing if it had none. */
  lemma TableHoldsLines(entries: seq<Entry>, answers: seq<Option<string>>, file: Option<string>, i: nat)
    requires AllUsable(entries) && Agreeing(entries, answers) && i < |entries|
    ensures Lookup(Previous(Some(AfterRun(entries, answers, file))), Joined(entries[i]))
      == ResolveEntry(entries[i], answers[i], Previous(file))
  {
    var lines := Resolved(entries, answers, Previous(file));
    LinesAreNotEmpty(entries, answers, Previous(file));
    ResolvedIsNamed(entries, answers, file);
    AgreeingIsOneLineEach(entries, answers, Previous(file));
    RenderedReadsBack(NotEmpty(lines));
    TableHolds(lines, Names(entries), i);
  }

  // ----- Run after run

  /** The newer answer where it holds a key, the older one elsewhere. */
  function Latest(older: seq<Option<string>>, newer: seq<Option<string>>): seq<Option<string>>
    requires |older| == |newer|
  {
    seq(|older|, i requires 0 <= i < |older| => if Key(newer[i]).Some? then newer[i] else older[i])
  }

  /** An entry whose fetch fails keeps exactly the line it had, whatever becomes of the others. */
  lemma FailureKeepsTheLine(entries: seq<Entry>, older: seq<Option<string>>, newer: seq<Option<string>>, file: Option<string>, i: nat)
    requires AllUsable(entries) && Agreeing(entries, older) && |newer| == |older| && i < |entries|
    ensures ResolveEntry(entries[i], newer[i], Previous(Some(AfterRun(entries, older, file))))
      == ResolveEntry(entries[i], Latest(older, newer)[i], Previous(file))
  {
    TableHoldsLines(entries, older, file, i);
  }

  lemma {:induction false} SameLines(entries: seq<Entry>, a: seq<Option<string>>, b: seq<Option<string>>,
                                     p: map<string, string>, q: map<string, string>)
    requires |entries| == |a| == |b|
    requires forall i :: 0 <= i < |entries| ==> ResolveEntry(entries[i], a[i], p) == ResolveEntry(entries[i], b[i], q)
    ensures Lines(entries, a, p) == Lines(entries, b, q)
  {
    if entries != [] {
      var n := |entries| - 1;
      SameLines(entries[..n], a[..n], b[..n], p, q);
    }
  }

  /** Two runs leave the file one run would have, given each entry's last answer that held a key. */
  lemma TwoRunsAreOne(entries: seq<Entry>, older: seq<Option<string>>, newer: seq<Option<string>>, file: Option<string>)
    requires AllUsable(entries) && Agreeing(entries, older) && |newer| == |older|
    ensures AfterRun(entries, newer, Some(AfterRun(entries, older, file))) == AfterRun(entries, Latest(older, newer), file)
  {
    var p := Previous(Some(AfterRun(entries, older, file)));
    forall i | 0 <= i < |entries|
      ensures ResolveEntry(entries[i], newer[i], p) == ResolveEntry(entries[i], Latest(older, newer)[i], Previous(file))
    {
      FailureKeepsTheLine(entries, older, newer, file, i);
    }
    SameLines(entries, newer, Latest(older, newer), p, Previous(file));
  }

  /** When every fetch fails, the file stays exactly as the last run left it. */
  lemma FailedRunChangesNothing(entries: seq<Entry>, older: seq<Option<string>>, newer: seq<Option<string>>, file: Option<string>)
    requires AllUsable(entries) && Agreeing(entries, older) && |newer| == |older|
    requires forall i :: 0 <= i < |newer| ==> Key(newer[i]).None?
    ensures AfterRun(entries, newer, Some(AfterRun(entries, older, file))) == AfterRun(entries, older, file)
  {
    TwoRunsAreOne(entries, older, newer, file);
    assert Latest(older, newer) == older;
  }

  ghost predicate Answered(entries: seq<Entry>, runs: seq<seq<Option<string>>>) {
    forall i :: 0 <= i < |runs| ==> |runs[i]| == |entries|
  }

  ghost function AfterRuns(entries: seq<Entry>, runs: seq<seq<Option<string>>>, file: Option<string>): Option<string>
    requires Answered(entries, runs)
  {
    if runs == [] then file
    else Some(AfterRun(entries, runs[|runs| - 1], AfterRuns(entries, runs[..|runs| - 1], file)))
  }

  /** Each entry's last answer that held a key, over all the runs. */
  ghost function LatestOf(entries: seq<Entry>, runs: seq<seq<Option<string>>>): (r: seq<Option<string>>)
    requires Answered(entries, runs)
    ensures |r| == |entries|
  {
    if runs == [] then seq(|entries|, _ => None)
    else Latest(LatestOf(entries, runs[..|runs| - 1]), runs[|runs| - 1])
  }

  lemma {:induction false} LatestAgrees(entries: seq<Entry>, runs: seq<seq<Option<string>>>)
    requires Answered(entries, runs) && forall i :: 0 <= i < |runs| ==> Agreeing(entries, runs[i])
    ensures Agreeing(entries, LatestOf(entries, runs))
  {
    if runs != [] {
      LatestAgrees(entries, runs[..|runs| - 1]);
      assert Agreeing(entries, runs[|runs| - 1]);
    }
  }

  /** After any number of runs, over any file, the file is what one run with each entry's last good answer
      would have made of the first: no outage, however often and of whichever hosts, ever costs a line. */
  lemma {:induction false} OutagesCostNothing(entries: seq<Entry>, runs: seq<seq<Option<string>>>, file: Option<string>)
    requires AllUsable(entries) && Answered(entries, runs) && runs != []
    requires forall i :: 0 <= i < |runs| ==> Agreeing(entries, runs[i])
    ensures AfterRuns(entries, runs, file) == Some(AfterRun(entries, LatestOf(entries, runs), file))
  {
    var before, last := runs[..|runs| - 1], runs[|runs| - 1];
    if before == [] {
      var latest := Latest(LatestOf(entries, before), last);
      forall i | 0 <= i < |entries|
        ensures ResolveEntry(entries[i], last[i], Previous(file)) == ResolveEntry(entries[i], latest[i], Previous(file))
      {
      }
      SameLines(entries, last, latest, Previous(file), Previous(file));
    } else {
      OutagesCostNothing(entries, before, file);
      LatestAgrees(entries, before);
      TwoRunsAreOne(entries, LatestOf(entries, before), last, file);
    }
  }

  // ----- Where it fails

  /** A pattern with white space in it that validation does not know is never found again, in any file. */
  lemma SpacedPatternIsLost(e: Entry, answer: Option<string>, file: Option<string>)
    requires !NoSpace(Joined(e)) && Key(answer).None?
    ensures ResolveEntry(e, answer, Previous(file)) == ""
  {
    PreviousHolds(file);
    if Joined(e) in Previous(file) {
      ReadsBackUnderAWord(Previous(file)[Joined(e)], Joined(e));
    }
  }

  /** And validation does let such patterns through: a no-break space, say. */
  lemma ValidationMissesSpaces()
    ensures ValidEntry(Entry(["a\U{A0}b"])) && !NoSpace(Joined(Entry(["a\U{A0}b"])))
  {
    var p := "a\U{A0}b";
    assert p[1] == '\U{A0}' && p[1] in p;
  }

  ghost predicate AllFetched(answers: seq<Option<string>>) {
    forall i :: 0 <= i < |answers| ==> Key(answers[i]).Some?
  }

  ghost predicate NoneFetched(answers: seq<Option<string>>) {
    forall i :: 0 <= i < |answers| ==> Key(answers[i]).None?
  }

  ghost predicate AllValid(entries: seq<Entry>) {
    forall i :: 0 <= i < |entries| ==> ValidEntry(entries[i])
  }

  lemma {:induction false} NoNewlineJoined(patterns: seq<string>)
    requires forall i :: 0 <= i < |patterns| ==> ValidPattern(patterns[i])
    ensures '\n' !in JoinStrings(patterns, ",")
  {
    if patterns != [] {
      assert ValidPattern(patterns[0]);
      assert forall c :: c in patterns[0] ==> !Refused(c);
      if |patterns| > 1 {
        NoNewlineJoined(patterns[1..]);
      }
    }
  }

  lemma KeyHasNoNewline(answer: Option<string>)
    requires Key(answer).Some?
    ensures '\n' !in Key(answer).value
  {
    KeyIsTwoFields(answer);
    var data :| Key(answer) == Some(ALGORITHM + (" " + data)) && IsWord(data);
    PrefixIsAWord();
    assert '\n' !in ALGORITHM && '\n' !in data;
  }

  /** Whatever a valid entry resolves to is one line, white space or not. */
  lemma ResolvedIsOneLine(e: Entry, answer: Option<string>, file: Option<string>)
    requires ValidEntry(e)
    ensures '\n' !in ResolveEntry(e, answer, Previous(file))
  {
    if Key(answer).Some? {
      NoNewlineJoined(e.patterns);
      KeyHasNoNewline(answer);
      assert '\n' !in PREFIX;
    } else {
      PreviousHolds(file);
    }
  }

  lemma {:induction false} NotEmptyIsShorter(lines: seq<string>)
    ensures |NotEmpty(lines)| <= |lines|
    ensures |NotEmpty(lines)| == |lines| ==> NotEmpty(lines) == lines
    ensures NoneEmpty(lines) ==> NotEmpty(lines) == lines
  {
    if lines != [] {
      var n := |lines| - 1;
      NotEmptyIsShorter(lines[..n]);
      assert lines == lines[..n] + [lines[n]];
      if NoneEmpty(lines) {
        assert forall i :: 0 <= i < n ==> lines[..n][i] == lines[i] != "";
        assert lines[n] != "";
      }
    }
  }

  /** Files with the same text have the same lines. */
  lemma RenderedApart(a: seq<string>, b: seq<string>)
    requires (forall l :: l in a ==> '\n' !in l) && (forall l :: l in b ==> '\n' !in l)
    requires Rendered(a) == Rendered(b)
    ensures a == b
  {
    RenderedSplits(a);
    RenderedSplits(b);
    var header := [FIRST_LINE, SECOND_LINE];
    var s, t := header + a + [""], header + b + [""];
    assert a == s[|header|..|s| - 1] && b == t[|header|..|t| - 1];
  }

  lemma LinesAreOneLine(entries: seq<Entry>, answers: seq<Option<string>>, file: Option<string>)
    requires |entries| == |answers| && AllValid(entries)
    ensures forall l :: l in NotEmpty(Resolved(entries, answers, Previous(file))) ==> '\n' !in l
  {
    var lines := Resolved(entries, answers, Previous(file));
    forall l | l in NotEmpty(lines)
      ensures '\n' !in l
    {
      NotEmptyIn(lines, l);
      var i :| 0 <= i < |lines| && lines[i] == l;
      ResolvedIsOneLine(entries[i], answers[i], file);
    }
  }

  /** If a run whose fetches all fail leaves the file as it was, every entry kept its line. */
  lemma SameFileSameLines(entries: seq<Entry>, fetched: seq<Option<string>>, failed: seq<Option<string>>, file: Option<string>)
    requires |entries| == |fetched| == |failed| && AllValid(entries) && AllFetched(fetched)
    requires AfterRun(entries, failed, Some(AfterRun(entries, fetched, file))) == AfterRun(entries, fetched, file)
    ensures Resolved(entries, failed, Previous(Some(AfterRun(entries, fetched, file)))) == Resolved(entries, fetched, Previous(file))
  {
    var once := Some(AfterRun(entries, fetched, file));
    var a, b := Resolved(entries, fetched, Previous(file)), Resolved(entries, failed, Previous(once));
    LinesAreNotEmpty(entries, fetched, Previous(file));
    LinesAreNotEmpty(entries, failed, Previous(once));
    LinesAreOneLine(entries, fetched, file);
    LinesAreOneLine(entries, failed, once);
    RenderedApart(NotEmpty(a), NotEmpty(b));
    FetchedIsNotEmpty(entries, fetched, Previous(file));
    NotEmptyIsShorter(a);
    NotEmptyIsShorter(b);
  }

  lemma FetchedIsNotEmpty(entries: seq<Entry>, fetched: seq<Option<string>>, previous: map<string, string>)
    requires |entries| == |fetched| && AllFetched(fetched)
    ensures NoneEmpty(Resolved(entries, fetched, previous))
  {
    forall i | 0 <= i < |entries|
      ensures ResolveEntry(entries[i], fetched[i], previous) != ""
    {
      assert Key(fetched[i]).Some?;
    }
  }

  /** For any list of valid entries, all fetched once, a run whose fetches all fail leaves the file as it
      was exactly when no entry's patterns hold white space of any kind and entries with the same
      patterns were given the same key. */
  lemma KeptExactly(entries: seq<Entry>, fetched: seq<Option<string>>, failed: seq<Option<string>>, file: Option<string>)
    requires |entries| == |fetched| == |failed| && AllValid(entries) && AllFetched(fetched) && NoneFetched(failed)
    ensures AfterRun(entries, failed, Some(AfterRun(entries, fetched, file))) == AfterRun(entries, fetched, file)
      <==> (forall i :: 0 <= i < |entries| ==> NoSpace(Joined(entries[i]))) && Agreeing(entries, fetched)
  {
    var once := Some(AfterRun(entries, fetched, file));
    if AfterRun(entries, failed, once) == AfterRun(entries, fetched, file) {
      SameFileSameLines(entries, fetched, failed, file);
      forall i | 0 <= i < |entries|
        ensures NoSpace(Joined(entries[i]))
      {
        KeptMeansNoSpace(entries, fetched, failed, file, i);
      }
      forall i, j | 0 <= i < |entries| && 0 <= j < |entries| && entries[i] == entries[j]
        ensures Key(fetched[i]) == Key(fetched[j])
      {
        KeptMeansSameKey(entries, fetched, failed, file, i, j);
      }
    }
    if (forall i :: 0 <= i < |entries| ==> NoSpace(Joined(entries[i]))) && Agreeing(entries, fetched) {
      assert AllUsable(entries);
      FailedRunChangesNothing(entries, fetched, failed, file);
    }
  }

  ghost predicate AllKept(entries: seq<Entry>, fetched: seq<Option<string>>, failed: seq<Option<string>>, file: Option<string>)
    requires |entries| == |fetched| == |failed|
  {
    Resolved(entries, failed, Previous(Some(AfterRun(entries, fetched, file)))) == Resolved(entries, fetched, Previous(file))
  }

  lemma KeptMeansNoSpace(entries: seq<Entry>, fetched: seq<Option<string>>, failed: seq<Option<string>>, file: Option<string>, i: nat)
    requires |entries| == |fetched| == |failed| && AllFetched(fetched) && NoneFetched(failed) && i < |entries|
    requires AllKept(entries, fetched, failed, file)
    ensures NoSpace(Joined(entries[i]))
  {
    var once := Some(AfterRun(entries, fetched, file));
    assert Resolved(entries, failed, Previous(once))[i] == Resolved(entries, fetched, Previous(file))[i];
    if !NoSpace(Joined(entries[i])) {
      SpacedPatternIsLost(entries[i], failed[i], once);
      FetchedIsNotEmpty(entries, fetched, Previous(file));
    }
  }

  lemma KeptMeansSameKey(entries: seq<Entry>, fetched: seq<Option<string>>, failed: seq<Option<string>>, file: Option<string>,
                         i: nat, j: nat)
    requires |entries| == |fetched| == |failed| && AllFetched(fetched) && NoneFetched(failed)
    requires i < |entries| && j < |entries| && entries[i] == entries[j] && AllKept(entries, fetched, failed, file)
    ensures Key(fetched[i]) == Key(fetched[j])
  {
    var once := Some(AfterRun(entries, fetched, file));
    var a, b := Resolved(entries, fetched, Previous(file)), Resolved(entries, failed, Previous(once));
    assert a[i] == b[i] == b[j] == a[j];
    SameKey(Joined(entries[i]), Key(fetched[i]).value, Key(fetched[j]).value);
  }

  lemma SameKey(patterns: string, a: string, b: string)
    requires FreshLine(patterns, a) == FreshLine(patterns, b)
    ensures a == b
  {
    var n := |PREFIX| + |patterns| + 1;
    assert FreshLine(patterns, a)[n..] == a && FreshLine(patterns, b)[n..] == b;
  }

  /** Each entry's answer replaced by that of the last entry with its patterns. */
  function LastAnswers(entries: seq<Entry>, answers: seq<Option<string>>): (r: seq<Option<string>>)
    requires |entries| == |answers|
    ensures |r| == |answers|
  {
    seq(|entries|, i requires 0 <= i < |entries| =>
      assert Names(entries)[i] in Names(entries);
      answers[LastNamed(Names(entries), Joined(entries[i]))])
  }

  /** What happens to entries with the same patterns and different keys: after a failed run each has the
      line of the last of them. */
  lemma RepeatedPatternsKeepTheLast(entries: seq<Entry>, fetched: seq<Option<string>>, failed: seq<Option<string>>, file: Option<string>)
    requires |entries| == |fetched| == |failed| && AllUsable(entries) && AllFetched(fetched) && NoneFetched(failed)
    ensures AfterRun(entries, failed, Some(AfterRun(entries, fetched, file))) == AfterRun(entries, LastAnswers(entries, fetched), file)
  {
    var once := Some(AfterRun(entries, fetched, file));
    forall i | 0 <= i < |entries|
      ensures ResolveEntry(entries[i], failed[i], Previous(once)) == ResolveEntry(entries[i], LastAnswers(entries, fetched)[i], Previous(file))
    {
      LastIsRead(entries, fetched, file, i);
    }
    SameLines(entries, failed, LastAnswers(entries, fetched), Previous(once), Previous(file));
  }

  lemma LastIsRead(entries: seq<Entry>, fetched: seq<Option<string>>, file: Option<string>, i: nat)
    requires |entries| == |fetched| && AllUsable(entries) && AllFetched(fetched) && i < |entries|
    ensures Lookup(Previous(Some(AfterRun(entries, fetched, file))), Joined(entries[i]))
      == ResolveEntry(entries[i], LastAnswers(entries, fetched)[i], Previous(file))
  {
    var lines, names := Resolved(entries, fetched, Previous(file)), Names(entries);
    LinesAreNotEmpty(entries, fetched, Previous(file));
    ResolvedIsNamed(entries, fetched, file);
    RenderedReadsBack(NotEmpty(lines));
    FetchedIsNotEmpty(entries, fetched, Previous(file));
    assert names[i] in names;
    TableHoldsLast(lines, names, names[i]);
    var k := LastNamed(names, names[i]);
    assert Key(fetched[k]).Some? && Joined(entries[k]) == Joined(entries[i]);
  }
}
