/** The known_hosts file this tool manages: what it writes, and what it reads back. */
module KnownHosts {
  import opened Wrappers
  import opened Text

  // ----- White space

  /** `unicode.IsSpace`. */
  predicate IsSpace(c: char) {
    '\t' <= c <= '\r' || c == ' ' || c == '\U{85}' || c == '\U{A0}' || c == '\U{1680}'
    || '\U{2000}' <= c <= '\U{200A}' || c == '\U{2028}' || c == '\U{2029}' || c == '\U{202F}'
    || c == '\U{205F}' || c == '\U{3000}'
  }

  ghost predicate NoSpace(s: string) {
    forall c :: c in s ==> !IsSpace(c)
  }

  /** How many spaces a text starts with, */
  function Leading(s: string): (n: nat)
    ensures n <= |s|
  {
    if s != "" && IsSpace(s[0]) then 1 + Leading(s[1..]) else 0
  }

  /** how many characters other than spaces, */
  function Letters(s: string): (n: nat)
    ensures n <= |s| && (s != "" && !IsSpace(s[0]) ==> n > 0)
  {
    if s == "" || IsSpace(s[0]) then 0 else 1 + Letters(s[1..])
  }

  /** and how much of it is left without the spaces it ends with. */
  function Trimmed(s: string): (n: nat)
    ensures n <= |s|
  {
    if s != "" && IsSpace(s[|s| - 1]) then Trimmed(s[..|s| - 1]) else |s|
  }

  lemma {:induction false} LeadingStops(s: string)
    ensures Leading(s) < |s| ==> !IsSpace(s[Leading(s)])
  {
    if s != "" && IsSpace(s[0]) {
      LeadingStops(s[1..]);
    }
  }

  /** `strings.TrimSpace`. */
  function TrimSpace(s: string): string {
    TrimLeft(s)[..Trimmed(TrimLeft(s))]
  }

  function TrimLeft(s: string): (t: string)
    ensures |t| <= |s|
  {
    s[Leading(s)..]
  }

  function FirstWord(t: string): string {
    t[..Letters(t)]
  }

  function AfterWord(t: string): (r: string)
    ensures |r| <= |t| && (t != "" && !IsSpace(t[0]) ==> |r| < |t|)
  {
    t[Letters(t)..]
  }

  lemma TrimLeftStops(s: string)
    ensures TrimLeft(s) != "" ==> !IsSpace(TrimLeft(s)[0])
  {
    LeadingStops(s);
  }

  /** `strings.Fields`. */
  function Fields(s: string): seq<string>
    decreases |s|
  {
    if TrimLeft(s) == "" then [] else
      TrimLeftStops(s);
      [FirstWord(TrimLeft(s))] + Fields(AfterWord(TrimLeft(s)))
  }

  lemma {:induction false} LettersAreLetters(s: string)
    ensures NoSpace(FirstWord(s))
  {
    if s != "" && !IsSpace(s[0]) {
      LettersAreLetters(s[1..]);
      assert s[..Letters(s)] == [s[0]] + s[1..][..Letters(s[1..])];
    }
  }

  lemma {:induction false} FieldIsWord(s: string, i: nat)
    requires i < |Fields(s)|
    ensures Fields(s)[i] != "" && NoSpace(Fields(s)[i])
    decreases |s|
  {
    var t := TrimLeft(s);
    TrimLeftStops(s);
    if i > 0 {
      FieldIsWord(AfterWord(t), i - 1);
    } else {
      LettersAreLetters(t);
    }
  }

  // ----- One entry

  /** One configured entry, known by its patterns. */
  datatype Entry = Entry(patterns: seq<string>)

  predicate Refused(c: char) {
    c == ' ' || c == '\t' || c == '\r' || c == '\n' || c == ',' || c == '#'
  }

  predicate ValidPattern(p: string) {
    p != "" && forall i :: 0 <= i < |p| ==> !Refused(p[i])
  }

  predicate ValidEntry(e: Entry) {
    e.patterns != [] && forall i :: 0 <= i < |e.patterns| ==> ValidPattern(e.patterns[i])
  }

  predicate IsBase64Char(c: char) {
    'A' <= c <= 'Z' || 'a' <= c <= 'z' || '0' <= c <= '9' || c == '+' || c == '/'
  }

  predicate AllPadding(s: string) {
    s == "" || (s[0] == '=' && AllPadding(s[1..]))
  }

  /** `^[A-Za-z0-9+/]+=*$` */
  predicate IsBase64(s: string) {
    s != "" && IsBase64Char(s[0]) && (IsBase64(s[1..]) || AllPadding(s[1..]))
  }

  const ALGORITHM := "ssh-ed25519"

  datatype KeyError = NotAKey | WrongAlgorithm | NotBase64

  /** The algorithm and the key of a CA's answer, and never anything after them. */
  function ParseKey(body: string): Result<string, KeyError> {
    var fields := Fields(body);
    if |fields| < 2 then Err(NotAKey)
    else if fields[0] != ALGORITHM then Err(WrongAlgorithm)
    else if !IsBase64(fields[1]) then Err(NotBase64)
    else Ok(fields[0] + (" " + fields[1]))
  }

  /** What a CA answered, if it did, as a key. */
  function Key(answer: Option<string>): Option<string> {
    match answer
    case None => None
    case Some(body) => if ParseKey(body).Ok? then Some(ParseKey(body).value) else None
  }

  const AUTHORITY := "@cert-authority"
  const PREFIX := "@cert-authority "

  function Joined(e: Entry): string {
    JoinStrings(e.patterns, ",")
  }

  function FreshLine(patterns: string, key: string): string {
    PREFIX + (patterns + (" " + key))
  }

  /** One entry's line: fetched, or the one from last time; "" when there is neither. */
  function ResolveEntry(e: Entry, answer: Option<string>, previous: map<string, string>): string {
    match Key(answer)
    case Some(key) => FreshLine(Joined(e), key)
    case None => if Joined(e) in previous then previous[Joined(e)] else ""
  }

  // ----- Reading back

  predicate HasPrefix(s: string, prefix: string) {
    |prefix| <= |s| && s[..|prefix|] == prefix
  }

  /** A trimmed line that is one of this file's own. */
  predicate IsManaged(line: string) {
    HasPrefix(line, PREFIX) && |Fields(line)| >= 3
  }

  /** What one line adds to what is read. */
  function ReadLine(previous: map<string, string>, line: string): map<string, string> {
    var trimmed := TrimSpace(line);
    if IsManaged(trimmed) then previous[Fields(trimmed)[1] := trimmed] else previous
  }

  function ReadLines(lines: seq<string>): map<string, string> {
    if lines == [] then map[] else ReadLine(ReadLines(lines[..|lines| - 1]), lines[|lines| - 1])
  }

  method ReadManagedKnownHosts(raw: string) returns (previous: map<string, string>)
    ensures previous == ReadLines(Split(raw, '\n'))
  {
    previous := map[];
    var lines := Split(raw, '\n');
    for i := 0 to |lines|
      invariant previous == ReadLines(lines[..i])
    {
      assert lines[..i + 1][..i] == lines[..i];
      var trimmed := TrimSpace(lines[i]);
      if !HasPrefix(trimmed, PREFIX) {
        continue;
      }
      var fields := Fields(trimmed);
      if |fields| < 3 {
        continue;
      }
      previous := previous[fields[1] := trimmed];
    }
    assert lines[..|lines|] == lines;
  }

  // ----- Writing

  const FIRST_LINE := "# Managed by accessctl (" + "`accessctl ssh known-hosts`" + ") -- do not edit."
  const SECOND_LINE := "# This file is fully rewritten" + " on every run, and by " + "`accessctl login`."
  const HEADER := FIRST_LINE + "\n" + SECOND_LINE + "\n"

  function Rendered(lines: seq<string>): string {
    if lines == [] then HEADER else Rendered(lines[..|lines| - 1]) + lines[|lines| - 1] + "\n"
  }

  method RenderKnownHosts(lines: seq<string>) returns (body: string)
    ensures body == Rendered(lines)
  {
    body := HEADER;
    for i := 0 to |lines|
      invariant body == Rendered(lines[..i])
    {
      assert lines[..i + 1][..i] == lines[..i];
      body := body + lines[i];
      body := body + "\n";
    }
    assert lines[..|lines|] == lines;
  }

  // ----- A run

  /** The lines of a run, entries without one left out. */
  function Lines(entries: seq<Entry>, answers: seq<Option<string>>, previous: map<string, string>): seq<string>
    requires |entries| == |answers|
  {
    if entries == [] then []
    else
      var n := |entries| - 1;
      var line := ResolveEntry(entries[n], answers[n], previous);
      Lines(entries[..n], answers[..n], previous) + (if line != "" then [line] else [])
  }

  function Previous(file: Option<string>): map<string, string> {
    if file.Some? then ReadLines(Split(file.value, '\n')) else map[]
  }

  /** The file after a run, from the file before it, if it could be read. */
  function AfterRun(entries: seq<Entry>, answers: seq<Option<string>>, file: Option<string>): string
    requires |entries| == |answers|
  {
    Rendered(Lines(entries, answers, Previous(file)))
  }

  method RunSSHKnownHosts(entries: seq<Entry>, answers: seq<Option<string>>, file: Option<string>) returns (body: string)
    requires |entries| == |answers|
    ensures body == AfterRun(entries, answers, file)
  {
    var previous: map<string, string> := map[];
    if file.Some? {
      previous := ReadManagedKnownHosts(file.value);
    }
    var lines := [];
    for i := 0 to |entries|
      invariant lines == Lines(entries[..i], answers[..i], previous)
    {
      assert entries[..i + 1][..i] == entries[..i] && answers[..i + 1][..i] == answers[..i];
      var line := ResolveEntry(entries[i], answers[i], previous);
      if line != "" {
        lines := lines + [line];
      }
    }
    assert entries[..|entries|] == entries && answers[..|answers|] == answers;
    body := RenderKnownHosts(lines);
  }
}
