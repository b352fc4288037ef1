/** The block of profiles this tool keeps inside somebody else's configuration file. */
module ConfigBlock {
  // ----- Finding text

  /** `m` is in `s` at `i`. */
  predicate At(s: string, m: string, i: int) {
    0 <= i <= |s| - |m| && s[i..i + |m|] == m
  }

  ghost predicate NotIn(s: string, m: string) {
    forall i :: !At(s, m, i)
  }

  lemma AtShift(s: string, m: string, k: nat, i: int)
    requires k <= |s| && i >= 0
    ensures At(s[k..], m, i) <==> At(s, m, i + k)
  {
    if i + k <= |s| - |m| {
      assert s[k..][i..i + |m|] == s[i + k..i + k + |m|];
    }
  }

  /** Where it is first from `i` on, or -1. */
  function First(s: string, m: string, i: nat): (r: int)
    ensures r == -1 || i <= r <= |s| - |m|
    decreases |s| - i
  {
    if i + |m| > |s| then -1
    else if s[i..i + |m|] == m then i
    else if i == |s| then -1
    else First(s, m, i + 1)
  }

  /** `strings.Index`. */
  function Index(s: string, m: string): (r: int)
    ensures r == -1 || 0 <= r <= |s| - |m|
  {
    First(s, m, 0)
  }

  lemma {:induction false} FirstIsFirst(s: string, m: string, i: nat)
    ensures First(s, m, i) == -1 ==> forall k :: k >= i ==> !At(s, m, k)
    ensures First(s, m, i) >= 0 ==> At(s, m, First(s, m, i)) && forall k :: i <= k < First(s, m, i) ==> !At(s, m, k)
    decreases |s| - i
  {
    if i + |m| <= |s| && s[i..i + |m|] != m && i < |s| {
      FirstIsFirst(s, m, i + 1);
      assert !At(s, m, i);
    }
  }

  lemma IndexIsFirst(s: string, m: string)
    ensures Index(s, m) == -1 || At(s, m, Index(s, m))
    ensures Index(s, m) == -1 <==> NotIn(s, m)
    ensures forall i :: 0 <= i < Index(s, m) ==> !At(s, m, i)
  {
    FirstIsFirst(s, m, 0);
  }

  predicate IsBlank(c: char) {
    c == '\n' || c == '\t' || c == ' '
  }

  /** How much of a text is left without the blanks it ends with. */
  function Kept(s: string): (n: nat)
    ensures n <= |s|
  {
    if s != "" && IsBlank(s[|s| - 1]) then Kept(s[..|s| - 1]) else |s|
  }

  /** `strings.TrimRight(s, "\n\t ")`. */
  function TrimRight(s: string): string {
    s[..Kept(s)]
  }

  lemma {:induction false} KeptEndsInText(s: string)
    ensures Kept(s) > 0 ==> !IsBlank(s[Kept(s) - 1])
    ensures forall i :: Kept(s) <= i < |s| ==> IsBlank(s[i])
  {
    if s != "" && IsBlank(s[|s| - 1]) {
      KeptEndsInText(s[..|s| - 1]);
    }
  }

  /** Exactly one trailing newline, or nothing at all. */
  function OneNewline(s: string): string {
    if TrimRight(s) == "" then "" else TrimRight(s) + "\n"
  }

  // ----- Stripping and writing

  /** The text without its first block; a block that never closes takes the rest of the text with it. */
  function Cut(body: string, opens: string, closes: string): string {
    var start := Index(body, opens);
    if start < 0 then body
    else
      var end := Index(body[start..], closes);
      if end < 0 then body[..start] else Around(body, start, start + end + |closes|)
  }

  /** The text before one place and after another. */
  function Around(body: string, start: nat, end: nat): string
    requires start <= end <= |body|
  {
    body[..start] + body[end..]
  }

  /** What is left of a text without its block. */
  function Stripped(body: string, opens: string, closes: string): string {
    OneNewline(Cut(body, opens, closes))
  }

  /** Nothing, or text and exactly one newline. */
  predicate EndsOnce(s: string) {
    s == "" || (|s| > 1 && s[|s| - 1] == '\n' && !IsBlank(s[|s| - 2]))
  }

  /** How much of a text comes before its block, all of it when there is none. */
  function Before(text: string, opens: string): (n: nat)
    ensures n <= |text|
  {
    if Index(text, opens) < 0 then |text| else Index(text, opens)
  }

  /** What is left keeps the text before the block, up to blanks at its end, and ends in one newline; what
      it keeps of the rest is `Stripped`, of which NoBlock, HalfABlock and CutBlock say what it is. */
  method StripBlock(text: string, opens: string, closes: string) returns (body: string)
    ensures body == Stripped(text, opens, closes)
    ensures EndsOnce(body) && TrimRight(text[..Before(text, opens)]) <= body
  {
    body := text;
    var start := Index(body, opens);
    if start >= 0 {
      var end := Index(body[start..], closes);
      if end >= 0 {
        body := Around(body, start, start + end + |closes|);
      } else {
        body := body[..start];
      }
    }
    assert body == Cut(text, opens, closes);
    KeepsBefore(text, opens, closes);
    body := TrimRight(body);
    if body == "" {
      return "";
    }
    body := body + "\n";
  }

  lemma KeepsBefore(text: string, opens: string, closes: string)
    ensures EndsOnce(Stripped(text, opens, closes))
    ensures TrimRight(text[..Before(text, opens)]) <= Stripped(text, opens, closes)
  {
    var cut, n := Cut(text, opens, closes), Before(text, opens);
    assert cut == text[..n] + cut[n..];
    KeptEndsInText(cut);
    KeptInLonger(text[..n], cut[n..]);
    PrefixOfOneNewline(text[..n], cut);
  }

  lemma PrefixOfOneNewline(a: string, s: string)
    requires TrimRight(a) <= TrimRight(s)
    ensures TrimRight(a) <= OneNewline(s)
  {
  }

  /** Text before the blanks at its end is text in anything longer. */
  lemma KeptInLonger(a: string, b: string)
    ensures TrimRight(a) <= TrimRight(a + b)
  {
    KeptEndsInText(a);
    KeptEndsInText(a + b);
    if Kept(a) > 0 {
      assert (a + b)[Kept(a) - 1] == a[Kept(a) - 1];
      assert Kept(a + b) >= Kept(a);
    }
    assert (a + b)[..Kept(a)] == a[..Kept(a)];
  }

  /** The block as it is written. */
  function Block(profiles: string, opens: string, closes: string): string {
    opens + (profiles + (closes + "\n"))
  }

  /** The file after a run: what was not ours, then the block. */
  function Written(existing: string, profiles: string, opens: string, closes: string): string {
    Stripped(existing, opens, closes) + Block(profiles, opens, closes)
  }

  // ----- Markers

  /** A `#` in front and nowhere else. */
  ghost predicate Headed(m: string) {
    |m| > 1 && m[0] == '#' && forall i :: 0 < i < |m| ==> m[i] != '#'
  }

  /** What makes the two markers safe to look for. */
  ghost predicate Markers(opens: string, closes: string) {
    && Headed(opens) && Headed(closes) && |closes| <= |opens| && opens[..|closes|] != closes
    && '\n' !in opens && !IsBlank(closes[|closes| - 1])
  }

  const MARKER := "# >>> accessctl >>>"
  const END_MARKER := "# <<< accessctl <<<"

  lemma AwsMarkers()
    ensures Markers(MARKER, END_MARKER)
  {
    assert MARKER[2] != END_MARKER[2];
  }

  /** A marker has no other marker begin inside it. */
  lemma NoOverlap(s: string, m: string, i: int, k: int)
    requires At(s, m, i) && Headed(m) && i < k < i + |m|
    ensures s[k] != '#'
  {
    assert s[k] == s[i..i + |m|][k - i];
  }

  lemma CharAt(s: string, m: string, i: int, k: int)
    requires At(s, m, i) && i <= k < i + |m|
    ensures s[k] in m
  {
    assert s[k] == s[i..i + |m|][k - i];
  }

  lemma AtHead(s: string, m: string, i: int)
    requires At(s, m, i) && Headed(m)
    ensures s[i] == '#'
  {
    assert s[i] == s[i..i + |m|][0];
  }

  lemma AtPrefix(s: string, t: string, m: string, i: int)
    requires 0 <= i <= |s| - |m|
    ensures At(s + t, m, i) <==> At(s, m, i)
  {
    assert (s + t)[i..i + |m|] == s[i..i + |m|];
  }

  lemma Parts(a: string, b: string)
    ensures (a + b)[..|a|] == a && (a + b)[|a|..] == b
  {
  }

  lemma Regroup(a: string, b: string, c: string)
    ensures a + (b + c) == (a + b) + c
  {
  }

  lemma DropTwice(s: string, i: nat, j: nat)
    requires i + j <= |s|
    ensures s[i..][j..] == s[i + j..]
  {
  }

  /** A marker placed after a text free of it is the first one there is: none straddles the seam. */
  lemma FirstIsHere(u: string, m: string, rest: string)
    requires NotIn(u, m) && Headed(m)
    ensures Index(u + (m + rest), m) == |u|
  {
    var s := u + (m + rest);
    assert s[|u|..|u| + |m|] == m;
    assert At(s, m, |u|);
    var i := Index(s, m);
    IndexIsFirst(s, m);
    if i < |u| {
      AtHead(s, m, |u|);
      if i + |m| > |u| {
        NoOverlap(s, m, i, |u|);
      } else {
        AtPrefix(u, m + rest, m, i);
      }
    }
  }

  /** What comes first in a text comes first in any longer one. */
  lemma FirstStaysFirst(u: string, m: string, rest: string)
    requires Index(u, m) >= 0
    ensures Index(u + rest, m) == Index(u, m)
  {
    var i, j := Index(u, m), Index(u + rest, m);
    IndexIsFirst(u, m);
    IndexIsFirst(u + rest, m);
    AtPrefix(u, rest, m, i);
    if 0 <= j < i {
      AtPrefix(u, rest, m, j);
    }
  }

  /** An opening marker neither hides a closing one nor begins one. */
  lemma ClosesLater(opens: string, closes: string, p: string, i: int)
    requires Markers(opens, closes) && At(opens + p, closes, i)
    ensures i >= |opens| && At(p, closes, i - |opens|)
  {
    AtHead(opens + p, closes, i);
    if i >= |opens| {
      Parts(opens, p);
      AtShift(opens + p, closes, |opens|, i - |opens|);
    }
  }

  lemma NotInOpening(opens: string, closes: string, p: string)
    requires Markers(opens, closes) && NotIn(p, closes)
    ensures NotIn(opens + p, closes)
  {
    forall i | At(opens + p, closes, i)
      ensures false
    {
      ClosesLater(opens, closes, p, i);
    }
  }

  // ----- Blanks

  lemma {:induction false} TrimBlanks(s: string, n: nat)
    requires n <= |s| && forall i :: n <= i < |s| ==> IsBlank(s[i])
    ensures Kept(s) == Kept(s[..n]) && TrimRight(s) == TrimRight(s[..n])
    decreases |s|
  {
    if n < |s| {
      assert s[..|s| - 1][..n] == s[..n];
      TrimBlanks(s[..|s| - 1], n);
    } else {
      assert s[..n] == s;
    }
  }

  lemma EndsInText(s: string)
    requires s != "" && !IsBlank(s[|s| - 1])
    ensures TrimRight(s) == s && OneNewline(s) == s + "\n"
  {
    assert s[..|s|] == s;
  }

  lemma TrimEnd(s: string)
    requires s != "" && !IsBlank(s[|s| - 1])
    ensures OneNewline(s + "\n") == s + "\n"
  {
    TrimBlanks(s + "\n", |s|);
    EndsInText(s);
    assert (s + "\n")[..|s|] == s;
  }

  lemma OneNewlineIsSettled(s: string)
    ensures OneNewline(OneNewline(s) + "\n") == OneNewline(s)
  {
    var t := TrimRight(s);
    if t == "" {
      TrimBlanks("\n", 0);
    } else {
      KeptEndsInText(s);
      EndsInText(t);
      assert OneNewline(s) + "\n" == t + "\n\n";
      TrimBlanks(t + "\n\n", |t|);
      assert (t + "\n\n")[..|t|] == t;
    }
  }

  // ----- One block

  lemma CutAround(w: string, t: string, start: nat, opens: string, closes: string)
    requires Index(w, opens) == start && w[start..] == t && Index(t, closes) >= 0
    ensures Cut(w, opens, closes) == Around(w, start, start + Index(t, closes) + |closes|)
  {
  }

  lemma CutIs(u: string, t: string, rest: string, opens: string, closes: string)
    requires Index(u + t, opens) == |u|
    requires 0 <= Index(t, closes) && t[Index(t, closes) + |closes|..] == rest
    ensures Cut(u + t, opens, closes) == u + rest
  {
    Parts(u, t);
    CutAround(u + t, t, |u|, opens, closes);
    AroundIs(u, t, Index(t, closes) + |closes|);
  }

  lemma AroundIs(u: string, t: string, n: nat)
    requires n <= |t|
    ensures Around(u + t, |u|, |u| + n) == u + t[n..]
  {
    Parts(u, t);
    DropTwice(u + t, |u|, n);
  }

  /** Around a block whose markers are the first there are, everything is kept. */
  lemma CutBlock(k: string, x: string, rest: string, opens: string, closes: string)
    requires Markers(opens, closes) && NotIn(k, opens) && NotIn(x, closes)
    ensures Cut(k + (opens + (x + (closes + rest))), opens, closes) == k + rest
  {
    FirstIsHere(k, opens, x + (closes + rest));
    NotInOpening(opens, closes, x);
    Regroup(opens, x, closes + rest);
    FirstIsHere(opens + x, closes, rest);
    AfterMarker(opens + x, closes, rest);
    CutIs(k, opens + (x + (closes + rest)), rest, opens, closes);
  }

  lemma AfterMarker(before: string, m: string, after: string)
    ensures (before + (m + after))[|before| + |m|..] == after
  {
    Parts(before, m + after);
    Parts(m, after);
    DropTwice(before + (m + after), |before|, |m|);
  }

  /** Text around the block that is free of it comes back when the block is stripped. */
  lemma CleanComesBack(existing: string, p: string, opens: string, closes: string)
    requires Markers(opens, closes) && NotIn(Stripped(existing, opens, closes), opens) && NotIn(p, closes)
    ensures Stripped(Written(existing, p, opens, closes), opens, closes) == Stripped(existing, opens, closes)
  {
    CutBlock(Stripped(existing, opens, closes), p, "\n", opens, closes);
    OneNewlineIsSettled(Cut(existing, opens, closes));
  }

  /** A text is what comes before the first occurrence, the occurrence, and what comes after it. */
  lemma AroundFirst(s: string, m: string) returns (before: string, after: string)
    requires !NotIn(s, m) && m != ""
    ensures s == before + (m + after) && NotIn(before, m) && |before| == Index(s, m)
  {
    IndexIsFirst(s, m);
    var i := Index(s, m);
    before, after := s[..i], s[i + |m|..];
    assert s[i..] == m + after;
    assert s == before + (m + after);
    BeforeFirst(s, before, m, after);
  }

  lemma BeforeFirst(s: string, before: string, m: string, after: string)
    requires s == before + (m + after) && m != "" && forall i :: 0 <= i < |before| ==> !At(s, m, i)
    ensures NotIn(before, m)
  {
    forall i | At(before, m, i)
      ensures false
    {
      AtPrefix(before, m + after, m, i);
    }
  }

  /** A closing marker among the profiles ends the block early, and what follows it stays behind. */
  lemma EarlyCloseStaysBehind(k: string, x: string, rest: string, opens: string, closes: string)
    requires Markers(opens, closes) && NotIn(k, opens) && NotIn(x, closes)
    ensures Stripped(k + Block(x + (closes + rest), opens, closes), opens, closes) == k + (rest + (closes + "\n"))
  {
    var end := closes + "\n";
    RegroupTwice(x, closes, rest, end);
    CutBlock(k, x, rest + end, opens, closes);
    Regroup(k, rest, end);
    EndsSettled(k + rest, closes);
  }

  lemma RegroupTwice(a: string, b: string, c: string, d: string)
    ensures (a + (b + c)) + d == a + (b + (c + d))
  {
    Regroup(b, c, d);
    Regroup(a, b + c, d);
  }

  lemma EndsSettled(s: string, m: string)
    requires m != "" && !IsBlank(m[|m| - 1])
    ensures OneNewline(s + (m + "\n")) == s + (m + "\n")
  {
    Regroup(s, m, "\n");
    TrimEnd(s + m);
  }
}
