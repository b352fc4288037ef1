/** Reading back what a run wrote, and running again on it. */
module KnownHostsRuns {
  import opened Wrappers
  import opened Text
  import opened KnownHosts

  // ----- One line

  lemma {:induction false} LettersOf(w: string, rest: string)
    requires NoSpace(w) && (rest == "" || IsSpace(rest[0]))
    ensures Letters(w + rest) == |w|
  {
    if w == "" {
      assert w + rest == rest;
    } else {
      assert (w + rest)[1..] == w[1..] + rest;
      LettersOf(w[1..], rest);
    }
  }

  /** A word at the front is the first field. */
  lemma FieldsOfWord(w: string, rest: string)
    requires w != "" && NoSpace(w) && (rest == "" || IsSpace(rest[0]))
    ensures Fields(w + rest) == [w] + Fields(rest)
  {
    var s := w + rest;
    assert s[0] == w[0];
    LettersOf(w, rest);
    assert s[0..] == s;
    assert s[..|w|] == w && s[|w|..] == rest;
  }

  lemma FieldsOfBlank(rest: string)
    ensures Fields(" " + rest) == Fields(rest)
  {
    assert (" " + rest)[1..] == rest;
    assert TrimLeft(" " + rest) == TrimLeft(rest);
  }

  /** The white space of Unicode, by code point. */
  lemma SpaceMeans(c: char)
    ensures IsSpace(c) <==> c as int in {
      9, 10, 11, 12, 13, 32, 0x85, 0xA0, 0x1680,
      0x2000, 0x2001, 0x2002, 0x2003, 0x2004, 0x2005, 0x2006, 0x2007, 0x2008, 0x2009, 0x200A,
      0x2028, 0x2029, 0x202F, 0x205F, 0x3000 }
  {
  }

  ghost predicate AllSpace(s: string) {
    forall i :: 0 <= i < |s| ==> IsSpace(s[i])
  }

  lemma {:induction false} LeadingSpace(front: string, s: string)
    requires AllSpace(front) && (s == "" || !IsSpace(s[0]))
    ensures TrimLeft(front + s) == s
  {
    if front == "" {
      assert front + s == s;
    } else {
      assert (front + s)[1..] == front[1..] + s;
      LeadingSpace(front[1..], s);
    }
  }

  lemma {:induction false} TrailingSpace(s: string, back: string)
    requires AllSpace(back) && (s == "" || !IsSpace(s[|s| - 1]))
    ensures (s + back)[..Trimmed(s + back)] == s
  {
    if back == "" {
      assert s + back == s;
    } else {
      assert (s + back)[..|s + back| - 1] == s + back[..|back| - 1];
      TrailingSpace(s, back[..|back| - 1]);
    }
  }

  /** Trimming takes all the space on either side and nothing else. */
  lemma TrimmedOf(front: string, s: string, back: string)
    requires AllSpace(front) && AllSpace(back)
    requires s != "" ==> !IsSpace(s[0]) && !IsSpace(s[|s| - 1])
    ensures TrimSpace(front + (s + back)) == s
  {
    if s == "" {
      assert AllSpace(front + (s + back));
      LeadingSpace(front + (s + back), "");
      assert front + (s + back) + "" == front + (s + back);
    } else {
      LeadingSpace(front, s + back);
      TrailingSpace(s, back);
    }
  }

  /** A line is remembered, without the space around it and under its second word, exactly when it is
      marked as an authority's and has two words more. */
  lemma ReadLineMeans(previous: map<string, string>, front: string, s: string, back: string)
    requires AllSpace(front) && AllSpace(back)
    requires s != "" ==> !IsSpace(s[0]) && !IsSpace(s[|s| - 1])
    ensures ReadLine(previous, front + (s + back)) ==
      if "@cert-authority " <= s && |Fields(s)| >= 3 then previous[Fields(s)[1] := s] else previous
  {
    TrimmedOf(front, s, back);
    PrefixMeans(s, PREFIX);
  }

  lemma PrefixMeans(s: string, prefix: string)
    ensures HasPrefix(s, prefix) <==> prefix <= s
  {
  }

  /** A word with any space in front of it is the first field, and the fields of the rest follow. */
  lemma FieldsOfText(front: string, w: string, rest: string)
    requires AllSpace(front) && IsWord(w) && (rest == "" || IsSpace(rest[0]))
    ensures Fields(front + (w + rest)) == [w] + Fields(rest)
  {
    assert w[0] in w;
    LeadingSpace(front, w + rest);
    LeadingSpace("", w + rest);
    assert "" + (w + rest) == w + rest;
    FieldsOfWord(w, rest);
  }

  lemma FieldsOfSpace(s: string)
    requires AllSpace(s)
    ensures Fields(s) == []
  {
    LeadingSpace(s, "");
    assert s + "" == s;
  }

  // ----- Keys

  /** The standard alphabet, then nothing but padding. */
  lemma {:induction false} Base64Means(s: string)
    ensures IsBase64(s) <==> exists k :: 0 < k <= |s| && LettersThenPadding(s, k)
  {
    if s != "" {
      Base64Means(s[1..]);
      PaddingMeans(s[1..]);
      if IsBase64(s) {
        if IsBase64(s[1..]) {
          var k :| 0 < k <= |s[1..]| && LettersThenPadding(s[1..], k);
          assert LettersThenPadding(s, k + 1);
        } else {
          assert LettersThenPadding(s, 1);
        }
      }
      if k :| 0 < k <= |s| && LettersThenPadding(s, k) {
        if k > 1 {
          assert LettersThenPadding(s[1..], k - 1);
        }
      }
    }
  }

  ghost predicate LettersThenPadding(s: string, k: int) {
    forall i :: 0 <= i < |s| ==>
      if i < k then 'a' <= s[i] <= 'z' || 'A' <= s[i] <= 'Z' || '/' <= s[i] <= '9' || s[i] == '+' else s[i] == '='
  }

  lemma {:induction false} PaddingMeans(s: string)
    ensures AllPadding(s) <==> forall i :: 0 <= i < |s| ==> s[i] == '='
  {
    if s != "" {
      PaddingMeans(s[1..]);
      assert AllPadding(s) ==> forall i :: 0 <= i < |s| ==> s[i] == if i == 0 then '=' else s[1..][i - 1];
    }
  }

  /** A key is the first two words of an answer: the algorithm it must be, and the data. */
  lemma KeyMeans(front: string, algorithm: string, gap: string, data: string, rest: string)
    requires AllSpace(front) && IsWord(algorithm) && gap != "" && AllSpace(gap)
    requires IsWord(data) && (rest == "" || IsSpace(rest[0]))
    ensures Key(Some(front + (algorithm + (gap + (data + rest))))) ==
      if algorithm == "ssh-ed25519" && IsBase64(data) then Some("ssh-ed25519" + (" " + data)) else None
  {
    var body := front + (algorithm + (gap + (data + rest)));
    FieldsOfText(front, algorithm, gap + (data + rest));
    FieldsOfText(gap, data, rest);
    FieldsMakeKey(body, algorithm, data);
  }

  lemma FieldsMakeKey(body: string, algorithm: string, data: string)
    requires |Fields(body)| >= 2 && Fields(body)[0] == algorithm && Fields(body)[1] == data
    ensures Key(Some(body)) == if algorithm == "ssh-ed25519" && IsBase64(data) then Some("ssh-ed25519" + (" " + data)) else None
  {
  }

  /** An answer of one word or none is no key. */
  lemma NoKeyInAWord(front: string, w: string, back: string)
    requires AllSpace(front) && AllSpace(back) && NoSpace(w)
    ensures Key(Some(front + (w + back))) == None
  {
    if w == "" {
      FieldsOfSpace(front + (w + back));
    } else {
      FieldsOfText(front, w, back);
      FieldsOfSpace(back);
    }
  }

  lemma {:induction false} Base64HasNoSpace(s: string)
    requires IsBase64(s)
    ensures NoSpace(s)
  {
    assert s == [s[0]] + s[1..];
    if IsBase64(s[1..]) {
      Base64HasNoSpace(s[1..]);
    } else {
      PaddingHasNoSpace(s[1..]);
    }
  }

  lemma {:induction false} PaddingHasNoSpace(s: string)
    requires AllPadding(s)
    ensures NoSpace(s)
  {
    if s != "" {
      assert s == [s[0]] + s[1..];
      PaddingHasNoSpace(s[1..]);
    }
  }

  /** A key is two fields whatever the CA sent around it. */
  lemma KeyIsTwoFields(answer: Option<string>)
    requires Key(answer).Some?
    ensures exists data :: Key(answer) == Some(ALGORITHM + (" " + data)) && IsWord(data)
  {
    var data := Fields(answer.value)[1];
    FieldIsWord(answer.value, 1);
    assert Key(answer) == Some(ALGORITHM + (" " + data));
  }

  lemma PrefixIsAWord()
    ensures PREFIX == AUTHORITY + " " && IsWord(AUTHORITY) && IsWord(ALGORITHM)
  {
  }

  lemma NoSpaceEnds(s: string)
    requires s != "" && !IsSpace(s[0]) && !IsSpace(s[|s| - 1])
    ensures TrimSpace(s) == s
  {
    assert s[0..] == s && s[..|s|] == s;
  }

  /** A line as it may be written again: it reads back as itself, under `patterns`. */
  ghost predicate ReadsBack(line: string, patterns: string) {
    TrimSpace(line) == line && IsManaged(line) && Fields(line)[1] == patterns && '\n' !in line
  }

  lemma FieldsOfMore(w: string, s: string)
    requires IsWord(w)
    ensures Fields(w + (" " + s)) == [w] + Fields(s)
  {
    FieldsOfWord(w, " " + s);
    FieldsOfBlank(s);
  }

  ghost predicate IsWord(w: string) {
    w != "" && NoSpace(w)
  }

  ghost predicate AreWords(words: seq<string>) {
    forall i :: 0 <= i < |words| ==> IsWord(words[i])
  }

  /** Words joined by single spaces are the fields. */
  lemma {:induction false} FieldsOfJoined(words: seq<string>)
    requires AreWords(words)
    ensures Fields(JoinStrings(words, " ")) == words
  {
    if |words| == 1 {
      FieldsOfWord(words[0], "");
      assert words[0] + "" == words[0];
    } else if words != [] {
      FieldsOfJoined(words[1..]);
      FieldsOfMore(words[0], JoinStrings(words[1..], " "));
      Joins(words[0], " ", JoinStrings(words[1..], " "));
    }
  }

  lemma {:induction false} JoinedEnds(words: seq<string>)
    requires AreWords(words) && words != []
    ensures var s := JoinStrings(words, " ");
      s != "" && !IsSpace(s[0]) && !IsSpace(s[|s| - 1]) && '\n' !in s
  {
    assert '\n' !in words[0];
    if |words| > 1 {
      JoinedEnds(words[1..]);
    }
  }

  /** The line, word by word. */
  lemma FreshIsJoined(patterns: string, data: string)
    ensures FreshLine(patterns, ALGORITHM + (" " + data)) == JoinStrings([AUTHORITY, patterns, ALGORITHM, data], " ")
  {
    PrefixIsAWord();
    JoinedWith(ALGORITHM, [data]);
    JoinedWith(patterns, [ALGORITHM, data]);
    JoinedWith(AUTHORITY, [patterns, ALGORITHM, data]);
    assert [ALGORITHM, data] == [ALGORITHM] + [data];
    assert [patterns, ALGORITHM, data] == [patterns] + [ALGORITHM, data];
    assert [AUTHORITY, patterns, ALGORITHM, data] == [AUTHORITY] + [patterns, ALGORITHM, data];
    Joins(AUTHORITY, " ", patterns + (" " + (ALGORITHM + (" " + data))));
  }

  lemma JoinedWith(w: string, words: seq<string>)
    requires words != []
    ensures JoinStrings([w] + words, " ") == w + (" " + JoinStrings(words, " "))
  {
    assert ([w] + words)[1..] == words;
    Joins(w, " ", JoinStrings(words, " "));
  }

  lemma Joins(a: string, b: string, c: string)
    ensures (a + b) + c == a + (b + c)
  {
  }

  /** A line of this file's own kind reads back under its second word. */
  lemma JoinedReads(words: seq<string>)
    requires |words| >= 3 && AreWords(words) && words[0] == AUTHORITY
    ensures ReadsBack(JoinStrings(words, " "), words[1])
  {
    var line := JoinStrings(words, " ");
    FieldsOfJoined(words);
    JoinedEnds(words);
    NoSpaceEnds(line);
    assert words == [AUTHORITY] + words[1..];
    JoinedWith(AUTHORITY, words[1..]);
    StartsWithPrefix(JoinStrings(words[1..], " "));
  }

  lemma StartsWithPrefix(rest: string)
    ensures HasPrefix(AUTHORITY + (" " + rest), PREFIX)
  {
    PrefixIsAWord();
    Joins(AUTHORITY, " ", rest);
    assert (PREFIX + rest)[..|PREFIX|] == PREFIX;
  }

  lemma FreshReads(patterns: string, answer: Option<string>)
    requires IsWord(patterns) && Key(answer).Some?
    ensures ReadsBack(FreshLine(patterns, Key(answer).value), patterns)
  {
    KeyIsTwoFields(answer);
    var data :| Key(answer) == Some(ALGORITHM + (" " + data)) && IsWord(data);
    FreshIsJoined(patterns, data);
    PrefixIsAWord();
    JoinedReads([AUTHORITY, patterns, ALGORITHM, data]);
  }

  lemma ReadsBackUnderAWord(line: string, patterns: string)
    requires ReadsBack(line, patterns)
    ensures IsWord(patterns)
  {
    FieldIsWord(line, 1);
  }

  /** A fetched line reads back as itself under its own patterns exactly when they have no white space of
      any kind in them, not only of the kinds validation refuses. */
  lemma FreshLineReadsBack(patterns: string, answer: Option<string>)
    requires patterns != "" && Key(answer).Some?
    ensures ReadsBack(FreshLine(patterns, Key(answer).value), patterns) <==> NoSpace(patterns)
  {
    var line := FreshLine(patterns, Key(answer).value);
    if NoSpace(patterns) {
      FreshReads(patterns, answer);
    }
    if ReadsBack(line, patterns) {
      ReadsBackUnderAWord(line, patterns);
    }
  }

  // ----- The whole file

  function Appended(pieces: seq<string>, l: string): seq<string>
    requires pieces != []
  {
    pieces[..|pieces| - 1] + [pieces[|pieces| - 1] + l]
  }

  /** Text after the last separator goes on the last piece. */
  lemma {:induction false} SplitTail(s: string, l: string, sep: char)
    requires sep !in l
    ensures Split(s + l, sep) == Appended(Split(s, sep), l)
  {
    if s == "" {
      assert s + l == l;
      assert Split(l, sep) == [l];
    } else {
      SplitTail(s[1..], l, sep);
      assert s + l == [s[0]] + (s[1..] + l) && s == [s[0]] + s[1..];
      SplitTailStep(s[0], s[1..], l, sep);
    }
  }

  lemma SplitTailStep(c: char, s: string, l: string, sep: char)
    requires Split(s + l, sep) == Appended(Split(s, sep), l)
    ensures Split([c] + (s + l), sep) == Appended(Split([c] + s, sep), l)
  {
    SplitStep([c] + s, sep);
    SplitStep([c] + (s + l), sep);
    assert ([c] + s)[1..] == s && ([c] + (s + l))[1..] == s + l;
    AppendedStep(c, Split(s, sep), l);
    AppendedAfter(Split(s, sep), l);
  }

  lemma SplitStep(s: string, sep: char)
    requires s != ""
    ensures Split(s, sep) == if s[0] == sep then [""] + Split(s[1..], sep) else OnFirst(s[0], Split(s[1..], sep))
  {
  }

  function OnFirst(c: char, pieces: seq<string>): seq<string>
    requires pieces != []
  {
    [[c] + pieces[0]] + pieces[1..]
  }

  lemma AppendedStep(c: char, pieces: seq<string>, l: string)
    requires pieces != []
    ensures OnFirst(c, Appended(pieces, l)) == Appended(OnFirst(c, pieces), l)
  {
    if |pieces| == 1 {
      assert [c] + (pieces[0] + l) == [c] + pieces[0] + l;
    }
  }

  lemma AppendedAfter(pieces: seq<string>, l: string)
    requires pieces != []
    ensures [""] + Appended(pieces, l) == Appended([""] + pieces, l)
  {
  }

  /** One more line, and the newline after it. */
  lemma SplitLine(s: string, pieces: seq<string>, line: string)
    requires Split(s, '\n') == pieces + [""] && '\n' !in line
    ensures Split(s + line + "\n", '\n') == pieces + [line] + [""]
  {
    SplitTail(s, line, '\n');
    assert "" + line == line;
    SplitJoined(s + line, "", '\n');
    assert s + line + ['\n'] + "" == s + line + "\n";
  }

  lemma HeaderLines()
    ensures '\n' !in FIRST_LINE && '\n' !in SECOND_LINE
  {
  }

  lemma HeaderSplits()
    ensures Split(HEADER, '\n') == [FIRST_LINE, SECOND_LINE] + [""]
  {
    HeaderLines();
    TwoLines(FIRST_LINE, SECOND_LINE);
  }

  lemma TwoLines(a: string, b: string)
    requires '\n' !in a && '\n' !in b
    ensures Split(a + "\n" + b + "\n", '\n') == [a, b] + [""]
  {
    assert "" + a == a;
    SplitLine("", [], a);
    SplitLine(a + "\n", [a], b);
    assert [] + [a] == [a] && [a] + [b] == [a, b];
  }

  /** The file splits into the header's two lines, its own lines, and nothing after the last newline. */
  lemma {:induction false} RenderedSplits(lines: seq<string>)
    requires forall l :: l in lines ==> '\n' !in l
    ensures Split(Rendered(lines), '\n') == [FIRST_LINE, SECOND_LINE] + lines + [""]
  {
    if lines == [] {
      HeaderSplits();
    } else {
      var before, last := lines[..|lines| - 1], lines[|lines| - 1];
      RenderedSplits(before);
      SplitLine(Rendered(before), [FIRST_LINE, SECOND_LINE] + before, last);
      assert lines == before + [last];
    }
  }

  /** The patterns a line is read back under. */
  function PatternsOf(line: string): string {
    if |Fields(line)| >= 2 then Fields(line)[1] else ""
  }

  /** What lines that read back as themselves add up to: the last one under each patterns field. */
  function Table(lines: seq<string>): map<string, string> {
    if lines == [] then map[]
    else
      var last := lines[|lines| - 1];
      Table(lines[..|lines| - 1])[PatternsOf(last) := last]
  }

  ghost predicate AllReadBack(lines: seq<string>) {
    forall l :: l in lines ==> ReadsBack(l, PatternsOf(l))
  }

  /** Neither the header nor the end of the file reads as an entry. */
  lemma HeaderIsNoEntry(previous: map<string, string>)
    ensures ReadLine(previous, FIRST_LINE) == previous && ReadLine(previous, SECOND_LINE) == previous
    ensures ReadLine(previous, "") == previous
  {
    StartsOtherwise(FIRST_LINE);
    StartsOtherwise(SECOND_LINE);
  }

  lemma StartsOtherwise(line: string)
    requires line != "" && line[0] == '#'
    ensures !IsManaged(TrimSpace(line))
  {
    assert Leading(line) == 0 && line[0..] == line;
  }

  /** Reading a rendered file gives back every line that reads back as itself, under its patterns; of
      lines with the same patterns, the last. */
  lemma {:induction false} RenderedReadsBack(lines: seq<string>)
    requires AllReadBack(lines)
    ensures ReadLines(Split(Rendered(lines), '\n')) == Table(lines)
  {
    RenderedSplits(lines);
    ReadBody(lines);
    ReadOneMore([FIRST_LINE, SECOND_LINE] + lines, "");
    HeaderIsNoEntry(Table(lines));
  }

  lemma {:induction false} ReadBody(lines: seq<string>)
    requires AllReadBack(lines)
    ensures ReadLines([FIRST_LINE, SECOND_LINE] + lines) == Table(lines)
  {
    if lines == [] {
      ReadHeader();
      assert [FIRST_LINE, SECOND_LINE] + lines == [FIRST_LINE, SECOND_LINE];
    } else {
      var before, last := lines[..|lines| - 1], lines[|lines| - 1];
      ReadBody(before);
      ReadOneMore([FIRST_LINE, SECOND_LINE] + before, last);
      assert [FIRST_LINE, SECOND_LINE] + lines == [FIRST_LINE, SECOND_LINE] + before + [last];
      assert ReadsBack(last, PatternsOf(last));
    }
  }

  lemma ReadHeader()
    ensures ReadLines([FIRST_LINE, SECOND_LINE]) == map[]
  {
    HeaderIsNoEntry(map[]);
    ReadOneMore([], FIRST_LINE);
    ReadOneMore([FIRST_LINE], SECOND_LINE);
    assert [] + [FIRST_LINE] == [FIRST_LINE];
    assert [FIRST_LINE] + [SECOND_LINE] == [FIRST_LINE, SECOND_LINE];
  }

  lemma ReadOneMore(lines: seq<string>, line: string)
    ensures ReadLines(lines + [line]) == ReadLine(ReadLines(lines), line)
  {
    assert (lines + [line])[..|lines|] == lines;
  }

  // ----- The lines of a run

  lemma LinesNext(a: seq<Entry>, e: Entry, x: seq<Option<string>>, answer: Option<string>, previous: map<string, string>)
    requires |a| == |x|
    ensures Lines(a + [e], x + [answer], previous) == Lines(a, x, previous) + Lines([e], [answer], previous)
  {
    assert (a + [e])[..|a|] == a && (x + [answer])[..|x|] == x;
    assert [e][..0] == [] && [answer][..0] == [];
    assert Lines([], [], previous) == [];
  }

  /** A good answer is written out; without one the line read under the same patterns is written again. */
  lemma LineOfOne(e: Entry, answer: Option<string>, previous: map<string, string>)
    ensures Key(answer).Some? ==>
      Lines([e], [answer], previous) == ["@cert-authority " + (JoinStrings(e.patterns, ",") + (" " + Key(answer).value))]
    ensures Key(answer).None? ==>
      Lines([e], [answer], previous) ==
        if Joined(e) in previous && previous[Joined(e)] != "" then [previous[Joined(e)]] else []
  {
    assert [e][..0] == [] && [answer][..0] == [];
    assert Lines([], [], previous) == [];
  }

  /** What a fetched entry's line says. */
  ghost predicate IsLineOf(line: string, e: Entry, answer: Option<string>) {
    Key(answer).Some? && line == "@cert-authority " + (JoinStrings(e.patterns, ",") + (" " + Key(answer).value))
  }

  ghost predicate LinesOf(lines: seq<string>, entries: seq<Entry>, answers: seq<Option<string>>) {
    && |lines| == |entries| == |answers|
    && forall i :: 0 <= i < |lines| ==> IsLineOf(lines[i], entries[i], answers[i])
  }

  lemma LinesGrow(lines: seq<string>, line: string, entries: seq<Entry>, answers: seq<Option<string>>)
    requires |lines| + 1 == |entries| == |answers| && LinesOf(lines, entries[..|lines|], answers[..|lines|])
    requires IsLineOf(line, entries[|lines|], answers[|lines|])
    ensures LinesOf(lines + [line], entries, answers)
  {
    forall i | 0 <= i < |lines|
      ensures IsLineOf(lines[i], entries[i], answers[i])
    {
      assert entries[..|lines|][i] == entries[i] && answers[..|lines|][i] == answers[i];
    }
  }

  lemma LastLine(entries: seq<Entry>, answers: seq<Option<string>>, previous: map<string, string>) returns (line: string)
    requires |entries| == |answers| > 0 && Key(answers[|answers| - 1]).Some?
    ensures var n := |entries| - 1;
      && Lines(entries, answers, previous) == Lines(entries[..n], answers[..n], previous) + [line]
      && IsLineOf(line, entries[n], answers[n])
  {
    var n := |entries| - 1;
    LineOfOne(entries[n], answers[n], previous);
    line := ResolveEntry(entries[n], answers[n], previous);
  }

  ghost predicate AllAnswered(answers: seq<Option<string>>) {
    forall i :: 0 <= i < |answers| ==> Key(answers[i]).Some?
  }

  lemma AnsweredBefore(answers: seq<Option<string>>)
    requires answers != [] && AllAnswered(answers)
    ensures AllAnswered(answers[..|answers| - 1]) && Key(answers[|answers| - 1]).Some?
  {
  }

  /** When every CA answers, the file has one line for each entry, in the order they are configured. */
  lemma {:induction false} EveryEntryHasItsLine(entries: seq<Entry>, answers: seq<Option<string>>, previous: map<string, string>)
    requires |entries| == |answers| && AllAnswered(answers)
    ensures LinesOf(Lines(entries, answers, previous), entries, answers)
  {
    if entries != [] {
      var n := |entries| - 1;
      AnsweredBefore(answers);
      EveryEntryHasItsLine(entries[..n], answers[..n], previous);
      var line := LastLine(entries, answers, previous);
      LinesGrow(Lines(entries[..n], answers[..n], previous), line, entries, answers);
    }
  }
}
