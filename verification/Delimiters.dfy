/** Rewriting the separator in a token's group names, and when two names become one. */
module Delimiters {
  import opened Wrappers
  import opened Text
  import opened Grants
  import opened Ladders
  import opened Vocabularies
  import opened Policies
  import opened Evaluation

  /** `strings.ReplaceAll` for a non-empty pattern: left to right, without overlaps. */
  function ReplaceAll(s: string, pattern: string, into: string): string
    requires pattern != ""
  {
    if s == "" then ""
    else if pattern <= s then into + ReplaceAll(s[|pattern|..], pattern, into)
    else [s[0]] + ReplaceAll(s[1..], pattern, into)
  }

  const COLON: string := [SEPARATOR]

  function Rewrite(name: string, delimiter: string): string {
    if delimiter == "" then name else ReplaceAll(name, COLON, delimiter)
  }

  predicate AsciiSpace(c: char) {
    c == ' ' || '\t' <= c <= '\r'
  }

  predicate NameCharacter(c: char) {
    'a' <= c <= 'z' || 'A' <= c <= 'Z' || '0' <= c <= '9' || c == '-'
  }

  /** What `groups_delimiter` accepts: some plain ASCII punctuation. */
  predicate ValidDelimiter(delimiter: string) {
    && delimiter != ""
    && SEPARATOR !in delimiter && '"' !in delimiter && ',' !in delimiter
    && forall c :: c in delimiter ==> ' ' <= c <= '~' && !AsciiSpace(c) && !NameCharacter(c)
  }

  /** The other ASCII punctuation, in the order of the code points. */
  predicate Punctuation(c: char) {
    c == '!' || '#' <= c <= '+' || c == '.' || c == '/' || ';' <= c <= '@' || '[' <= c <= '`' || '{' <= c <= '~'
  }

  /** A delimiter is accepted exactly when it has characters and each is printable ASCII other than a letter,
      a digit, a hyphen, a space, a colon, a quote and a comma. */
  lemma ValidMeans(delimiter: string)
    ensures ValidDelimiter(delimiter) <==>
      delimiter != "" && forall i :: 0 <= i < |delimiter| ==> Punctuation(delimiter[i])
  {
    if ValidDelimiter(delimiter) {
      forall i | 0 <= i < |delimiter|
        ensures Punctuation(delimiter[i])
      {
        assert delimiter[i] in delimiter;
      }
    }
  }

  // ----- Restoring a name

  /** No character of the name occurs in the delimiter. */
  predicate Free(name: string, delimiter: string) {
    forall c :: c in name ==> c !in delimiter
  }

  lemma {:induction false} RewriteCons(c: char, rest: string, delimiter: string)
    requires delimiter != ""
    ensures Rewrite([c] + rest, delimiter) == (if c == SEPARATOR then delimiter else [c]) + Rewrite(rest, delimiter)
  {
    var s := [c] + rest;
    assert s[1..] == rest && s[|COLON|..] == rest;
    assert s[..1] == [c] && (COLON <= s <==> s[..1] == COLON);
  }

  /** Replacing the delimiter back restores a name free of its characters. */
  lemma {:induction false} RewriteRestores(name: string, delimiter: string)
    requires delimiter != "" && Free(name, delimiter)
    ensures ReplaceAll(Rewrite(name, delimiter), delimiter, COLON) == name
  {
    if name != "" {
      var c, rest := name[0], name[1..];
      assert name == [c] + rest;
      RewriteCons(c, rest, delimiter);
      assert forall x :: x in rest ==> x in name;
      RewriteRestores(rest, delimiter);
      var after := Rewrite(rest, delimiter);
      if c == SEPARATOR {
        assert (delimiter + after)[|delimiter|..] == after;
      } else {
        assert c in name;
        assert !(delimiter <= [c] + after);
        assert ([c] + after)[1..] == after;
      }
    }
  }

  /** So two such names never become one. */
  lemma RewriteInjective(a: string, b: string, delimiter: string)
    requires delimiter != "" && Free(a, delimiter) && Free(b, delimiter)
    requires Rewrite(a, delimiter) == Rewrite(b, delimiter)
    ensures a == b
  {
    RewriteRestores(a, delimiter);
    RewriteRestores(b, delimiter);
  }

  // ----- The load-time check

  /** No two names a groups key stands for are rewritten to one. */
  ghost predicate TargetsDistinct(p: Policy, delimiter: string) {
    forall a, b :: Targeted(p, a) && Targeted(p, b) && Rewrite(a, delimiter) == Rewrite(b, delimiter) ==> a == b
  }

  /** The rewritten names seen so far, each with the one name it came from. */
  ghost predicate Recorded(seen: set<string>, rewritten: map<string, string>, delimiter: string) {
    && (forall n :: n in seen ==> Rewrite(n, delimiter) in rewritten && rewritten[Rewrite(n, delimiter)] == n)
    && (forall r :: r in rewritten ==> rewritten[r] in seen && Rewrite(rewritten[r], delimiter) == r)
  }

  method RecordTargets(targets: seq<string>, before: map<string, string>, delimiter: string, ghost seen: set<string>)
      returns (ok: bool, rewritten: map<string, string>)
    requires Recorded(seen, before, delimiter)
    ensures ok ==> Recorded(seen + ToSet(targets), rewritten, delimiter)
    ensures !ok ==> exists a, b :: a in seen + ToSet(targets) && b in targets && a != b && Rewrite(a, delimiter) == Rewrite(b, delimiter)
  {
    rewritten := before;
    for i := 0 to |targets|
      invariant Recorded(seen + ToSet(targets[..i]), rewritten, delimiter)
    {
      assert targets[..i + 1] == targets[..i] + [targets[i]];
      var concrete := targets[i];
      var after := Rewrite(concrete, delimiter);
      if after in rewritten && rewritten[after] != concrete {
        assert rewritten[after] in seen + ToSet(targets);
        return false, rewritten;
      }
      rewritten := rewritten[after := concrete];
      assert seen + ToSet(targets[..i + 1]) == seen + ToSet(targets[..i]) + {concrete};
    }
    assert targets[..|targets|] == targets;
    ok := true;
  }

  /** Accepts a delimiter exactly when it keeps every name the groups keys stand for distinct. */
  method CheckCollision(p: Policy, delimiter: string) returns (ok: bool)
    ensures ok <==> TargetsDistinct(p, delimiter)
  {
    var rewritten: map<string, string> := map[];
    var keys := Sorted(p.groups.Keys);
    ghost var seen: set<string> := {};
    for i := 0 to |keys|
      invariant Recorded(seen, rewritten, delimiter)
      invariant forall t :: t in seen <==> exists j :: 0 <= j < i && t in GroupKeyTargets(p.vocabulary, keys[j])
    {
      assert keys[i] in keys;
      var targets := GroupKeyTargets(p.vocabulary, keys[i]);
      ok, rewritten := RecordTargets(targets, rewritten, delimiter, seen);
      if !ok {
        assert forall t :: t in seen || t in targets ==> Targeted(p, t);
        return;
      }
      seen := seen + ToSet(targets);
    }
    forall t | Targeted(p, t)
      ensures t in seen
    {
      var k :| k in p.groups && t in GroupKeyTargets(p.vocabulary, k);
      assert k in keys;
    }
    ok := true;
  }

  // ----- What the check covers

  /** Everything the vocabulary is written with is free of the delimiter's characters. */
  ghost predicate VocabularyFree(v: Vocabulary, delimiter: string) {
    forall t :: t in v.things ==>
      && Free(t, delimiter)
      && (forall s :: s in v.things[t].scopes ==> Free(s, delimiter))
      && (forall r, i :: r in v.things[t].roles && i in v.things[t].roles[r].implies ==> Free(i, delimiter))
  }

  ghost predicate PolicyFree(p: Policy, delimiter: string) {
    && (forall key :: key in p.groups ==> Free(key, delimiter))
    && (p.vocabulary.Some? ==> VocabularyFree(p.vocabulary.value, delimiter))
  }

  lemma FreeName(g: Grant, delimiter: string)
    requires SEPARATOR !in delimiter
    ensures Free(Name(g), delimiter) <==> Free(g.scope, delimiter) && Free(g.thing, delimiter) && Free(g.role, delimiter)
  {
    assert forall c :: c in Name(g) <==> c in g.scope || c in g.thing || c in g.role || c == SEPARATOR;
  }

  lemma TargetFree(p: Policy, delimiter: string, key: string, target: string)
    requires SEPARATOR !in delimiter && PolicyFree(p, delimiter) && key in p.groups
    requires target in GroupKeyTargets(p.vocabulary, key)
    ensures Free(target, delimiter)
  {
    if SplitGroup(key).Some? && IsWildcard(SplitGroup(key).value) {
      var w, v := SplitGroup(key).value, p.vocabulary.value;
      NameSplit(key);
      FreeName(w, delimiter);
      var t, s :| t in ThingsOf(v, w) && HasRole(v, t, w.role) && s in ScopesOf(v, w, t) && target == Name(Grant(s, t, w.role));
      FreeName(Grant(s, t, w.role), delimiter);
    }
  }

  lemma ImpliedFree(p: Policy, delimiter: string, name: string, next: string)
    requires SEPARATOR !in delimiter && PolicyFree(p, delimiter) && Free(name, delimiter)
    requires next in ImpliedNames(p.vocabulary, name)
    ensures Free(next, delimiter)
  {
    var v, g := p.vocabulary.value, SplitGroup(name).value;
    NameSplit(name);
    FreeName(g, delimiter);
    var roles := v.things[g.thing].roles;
    var i :| 0 <= i < |Implied(roles, g.role)| && next == Name(Grant(g.scope, g.thing, Implied(roles, g.role)[i]));
    FreeName(Grant(g.scope, g.thing, Implied(roles, g.role)[i]), delimiter);
  }

  /** Somebody may match the key. */
  predicate HasGround(p: Policy, key: string) {
    key in p.groups && (p.groups[key].members != [] || p.groups[key].matchers != [])
  }

  /** A key that may match leads to the name through implied roles. */
  ghost predicate Grantable(p: Policy, name: string) {
    exists key, target :: HasGround(p, key) && target in GroupKeyTargets(p.vocabulary, key) && Reaches(p.vocabulary, target, name)
  }

  /** The check as it would be if it followed implied roles: the rewrite keeps everything that can be
      granted distinct. */
  ghost predicate ClosureDistinct(p: Policy, delimiter: string) {
    forall x, y :: Grantable(p, x) && Grantable(p, y) && Rewrite(x, delimiter) == Rewrite(y, delimiter) ==> x == y
  }

  lemma HeldIsGrantable(p: Policy, input: Input, name: string)
    requires Holds(p, input, name)
    ensures Grantable(p, name)
  {
    var seed :| Seed(p, input, seed) && Reaches(p.vocabulary, seed, name);
    var key :| Matched(p, input, key) && seed in GroupKeyTargets(p.vocabulary, key);
    MatchedMeans(p, input, key);
  }

  /** Every key anybody may match is matched by one of these proofs. */
  ghost predicate Realised(p: Policy, proofs: Input -> bool) {
    forall key :: HasGround(p, key) ==> exists input :: proofs(input) && Matched(p, input, key)
  }

  /** No two groups held by these proofs are spelled alike. */
  ghost predicate SpelledApart(p: Policy, delimiter: string, proofs: Input -> bool) {
    forall a, b, x, y ::
      proofs(a) && proofs(b) && Holds(p, a, x) && Holds(p, b, y) && Rewrite(x, delimiter) == Rewrite(y, delimiter) ==> x == y
  }

  lemma GrantableIsHeld(p: Policy, proofs: Input -> bool, name: string) returns (input: Input)
    requires Realised(p, proofs) && Grantable(p, name)
    ensures proofs(input) && Holds(p, input, name)
  {
    var key, target :| HasGround(p, key) && target in GroupKeyTargets(p.vocabulary, key) && Reaches(p.vocabulary, target, name);
    input :| proofs(input) && Matched(p, input, key);
    assert Seed(p, input, target);
  }

  /** Whatever proofs there can be, distinctness over what can be granted keeps the groups they hold
      apart; and it is exactly what does, once every key with a member or a matcher is matched by one of
      them. */
  lemma HeldNamesStayDistinct(p: Policy, delimiter: string, proofs: Input -> bool)
    ensures ClosureDistinct(p, delimiter) ==> SpelledApart(p, delimiter, proofs)
    ensures Realised(p, proofs) ==> (SpelledApart(p, delimiter, proofs) <==> ClosureDistinct(p, delimiter))
  {
    if ClosureDistinct(p, delimiter) {
      forall a, b, x, y | proofs(a) && proofs(b) && Holds(p, a, x) && Holds(p, b, y)
          && Rewrite(x, delimiter) == Rewrite(y, delimiter)
        ensures x == y
      {
        HeldIsGrantable(p, a, x);
        HeldIsGrantable(p, b, y);
      }
    }
    if Realised(p, proofs) && SpelledApart(p, delimiter, proofs) {
      forall x, y | Grantable(p, x) && Grantable(p, y) && Rewrite(x, delimiter) == Rewrite(y, delimiter)
        ensures x == y
      {
        var a := GrantableIsHeld(p, proofs, x);
        var b := GrantableIsHeld(p, proofs, y);
      }
    }
  }

  /** A proof that satisfies every matcher and reports every member of a key matches it. */
  lemma FullProofMatches(p: Policy, key: string)
    requires HasGround(p, key)
    ensures Matched(p, Input(p.groups[key].members, true, set m | m in p.groups[key].matchers), key)
  {
    var g := p.groups[key];
    var input := Input(g.members, true, set m | m in g.matchers);
    assert g.matchers != [] ==> g.matchers[0] in g.matchers;
    assert g.members != [] ==> g.members[0] in g.members && Lower(g.members[0]) in Confirmed(input);
    MatchedMeans(p, input, key);
  }

  /** Over all proofs the model knows, then, it is an equivalence. */
  lemma DistinctExactly(p: Policy, delimiter: string)
    ensures (forall a, b, x, y :: Holds(p, a, x) && Holds(p, b, y) && Rewrite(x, delimiter) == Rewrite(y, delimiter) ==> x == y)
      <==> ClosureDistinct(p, delimiter)
  {
    forall key | HasGround(p, key)
      ensures exists input :: AnyProof(input) && Matched(p, input, key)
    {
      FullProofMatches(p, key);
    }
    HeldNamesStayDistinct(p, delimiter, AnyProof);
    assert SpelledApart(p, delimiter, AnyProof) <==>
      forall a, b, x, y :: Holds(p, a, x) && Holds(p, b, y) && Rewrite(x, delimiter) == Rewrite(y, delimiter) ==> x == y;
  }

  /** With names free of the delimiter's characters, everything that can be granted stays distinct,
      implied names included. */
  lemma FreeNamesStayDistinct(p: Policy, delimiter: string)
    requires delimiter != "" && SEPARATOR !in delimiter && PolicyFree(p, delimiter)
    ensures ClosureDistinct(p, delimiter)
  {
    forall x, y | Grantable(p, x) && Grantable(p, y) && Rewrite(x, delimiter) == Rewrite(y, delimiter)
      ensures x == y
    {
      GrantableFree(p, delimiter, x);
      GrantableFree(p, delimiter, y);
      RewriteInjective(x, y, delimiter);
    }
  }

  lemma GrantableFree(p: Policy, delimiter: string, name: string)
    requires SEPARATOR !in delimiter && PolicyFree(p, delimiter) && Grantable(p, name)
    ensures Free(name, delimiter)
  {
    var key, target :| HasGround(p, key) && target in GroupKeyTargets(p.vocabulary, key) && Reaches(p.vocabulary, target, name);
    TargetFree(p, delimiter, key, target);
    var free := iset n | Free(n, delimiter);
    forall n, i | n in free && i in ImpliedNames(p.vocabulary, n)
      ensures i in free
    {
      ImpliedFree(p, delimiter, n, i);
    }
    var chain :| IsChain(p.vocabulary, chain) && chain[0] == target && chain[|chain| - 1] == name;
    ChainStaysIn(p.vocabulary, free, chain, |chain| - 1);
  }

  /** Without a vocabulary nothing is implied, and acceptance alone is enough. */
  lemma AcceptedWithoutVocabulary(p: Policy, delimiter: string)
    requires p.vocabulary.None? && TargetsDistinct(p, delimiter)
    ensures ClosureDistinct(p, delimiter)
  {
    forall x | Grantable(p, x)
      ensures Targeted(p, x)
    {
      var key, target :| HasGround(p, key) && target in GroupKeyTargets(p.vocabulary, key) && Reaches(p.vocabulary, target, x);
      var chain :| IsChain(p.vocabulary, chain) && chain[0] == target && chain[|chain| - 1] == x;
      ChainStaysIn(p.vocabulary, iset{target}, chain, |chain| - 1);
    }
  }

  // ----- What it does not

  lemma {:induction false} RewriteConcat(a: string, b: string, delimiter: string)
    requires delimiter != ""
    ensures Rewrite(a + b, delimiter) == Rewrite(a, delimiter) + Rewrite(b, delimiter)
  {
    if a == "" {
      assert a + b == b;
    } else {
      assert a == [a[0]] + a[1..] && a + b == [a[0]] + (a[1..] + b);
      RewriteCons(a[0], a[1..], delimiter);
      RewriteCons(a[0], a[1..] + b, delimiter);
      RewriteConcat(a[1..], b, delimiter);
    }
  }

  lemma {:induction false} RewriteNothing(s: string, delimiter: string)
    requires delimiter != "" && SEPARATOR !in s
    ensures Rewrite(s, delimiter) == s
  {
    if s != "" {
      assert s == [s[0]] + s[1..];
      RewriteCons(s[0], s[1..], delimiter);
      RewriteNothing(s[1..], delimiter);
    }
  }

  /** A grant's name is rewritten segment by segment. */
  lemma RewriteGrant(g: Grant, delimiter: string)
    requires delimiter != "" && Segment(g.scope) && Segment(g.thing) && Segment(g.role)
    ensures Rewrite(Name(g), delimiter) == g.scope + delimiter + g.thing + delimiter + g.role
  {
    RewriteCons(SEPARATOR, "", delimiter);
    assert COLON + "" == COLON;
    RewriteConcat(g.scope + COLON + g.thing + COLON, g.role, delimiter);
    RewriteConcat(g.scope + COLON + g.thing, COLON, delimiter);
    RewriteConcat(g.scope + COLON, g.thing, delimiter);
    RewriteConcat(g.scope, COLON, delimiter);
    RewriteNothing(g.scope, delimiter);
    RewriteNothing(g.thing, delimiter);
    RewriteNothing(g.role, delimiter);
  }

  const DOTTED_THING := Grant("a", "b.c", "top")
  const DOTTED_SCOPE := Grant("a.b", "c", "d")

  const DOTTED := Vocabulary(
    map["a" := false, "a.b" := false],
    map["b.c" := ThingSpec(["a"], map["top" := RoleSpec(["d"], None), "d" := RoleSpec([], None)]),
        "c" := ThingSpec(["a.b"], map["d" := RoleSpec([], None)])])

  /** A vocabulary with a dot in a scope and in a thing, and two keys, both held through one rule. */
  function DottedPolicy(p: Policy, rule: Matcher): Policy {
    p.(vocabulary := Some(DOTTED),
       groups := map[Name(DOTTED_THING) := Group([], [rule]), Name(DOTTED_SCOPE) := Group([], [rule])])
  }

  lemma DottedTargets()
    ensures Name(DOTTED_THING) != Name(DOTTED_SCOPE)
    ensures CheckGroupKey(Some(DOTTED), Name(DOTTED_THING)) == Ok([Name(DOTTED_THING)])
    ensures CheckGroupKey(Some(DOTTED), Name(DOTTED_SCOPE)) == Ok([Name(DOTTED_SCOPE)])
  {
    SplitName(DOTTED_THING);
    SplitName(DOTTED_SCOPE);
    assert Fits(DOTTED, DOTTED_THING) == None && Fits(DOTTED, DOTTED_SCOPE) == None;
  }

  const IMPLIED_GRANT := Grant("a", "b.c", "d")

  lemma DottedNames()
    ensures Rewrite(Name(DOTTED_THING), ".") == "a.b.c.top"
    ensures Rewrite(Name(DOTTED_SCOPE), ".") == "a.b.c.d" == Rewrite(Name(IMPLIED_GRANT), ".")
    ensures Name(IMPLIED_GRANT) != Name(DOTTED_SCOPE)
  {
    RewriteGrant(DOTTED_THING, ".");
    RewriteGrant(DOTTED_SCOPE, ".");
    RewriteGrant(IMPLIED_GRANT, ".");
    SplitName(IMPLIED_GRANT);
    SplitName(DOTTED_SCOPE);
  }

  lemma DottedHeld(p: Policy, rule: Matcher, input: Input, key: Grant)
    requires rule in input.proves && (key == DOTTED_THING || key == DOTTED_SCOPE)
    ensures Holds(DottedPolicy(p, rule), input, Name(key))
  {
    var q := DottedPolicy(p, rule);
    DottedTargets();
    assert rule in q.groups[Name(key)].matchers;
    MatchedMeans(q, input, Name(key));
    assert Seed(q, input, Name(key));
    ReachesSelf(q.vocabulary, Name(key));
  }

  lemma DottedImplies(p: Policy, rule: Matcher)
    ensures Name(IMPLIED_GRANT) in ImpliedNames(DottedPolicy(p, rule).vocabulary, Name(DOTTED_THING))
  {
    SplitName(DOTTED_THING);
    assert ImpliedNames(DottedPolicy(p, rule).vocabulary, Name(DOTTED_THING))[0] == Name(IMPLIED_GRANT);
  }

  lemma DottedAccepted(p: Policy, rule: Matcher)
    ensures ValidDelimiter(".") && TargetsDistinct(DottedPolicy(p, rule), ".")
  {
    var q := DottedPolicy(p, rule);
    forall t | Targeted(q, t)
      ensures t == Name(DOTTED_THING) || t == Name(DOTTED_SCOPE)
    {
      DottedTargets();
    }
    DottedNames();
  }

  lemma DottedIsCoherent()
    ensures Coherent(DOTTED)
  {
    assert "d" in DOTTED.things["c"].roles && "d" in DOTTED.things["b.c"].roles;
    assert ThingCoherent(DOTTED, DOTTED.things["c"]);
    var spec := DOTTED.things["b.c"];
    assert EdgeCovered(spec, spec.roles["top"], "d");
    assert RoleCoherent(DOTTED, spec, spec.roles["top"]) && RoleCoherent(DOTTED, spec, spec.roles["d"]);
  }

  lemma DottedIsCycleFree()
    ensures CycleFree(DOTTED)
  {
    forall t, role | t in DOTTED.things
      ensures !OnCycle(DOTTED.things[t].roles, role)
    {
      var roles := DOTTED.things[t].roles;
      LeavesForGood(roles, {}, "d");
      if t == "b.c" {
        LeavesForGood(roles, {"d"}, "top");
      }
      LeavesNothing(roles, role);
    }
  }

  /** The policy is valid and the check passes, and yet a caller holds two groups that a token spells the
      same way: one of the two is implied, and no key stands for it. */
  lemma ImpliedNameCollides(p: Policy, rule: Matcher, input: Input)
    requires rule in input.proves
    ensures var q := DottedPolicy(p, rule);
      && ValidKeys(q) && CycleFree(q.vocabulary.value) && ValidDelimiter(".") && TargetsDistinct(q, ".")
      && Holds(q, input, Name(IMPLIED_GRANT)) && Holds(q, input, Name(DOTTED_SCOPE))
      && Name(IMPLIED_GRANT) != Name(DOTTED_SCOPE)
      && Rewrite(Name(IMPLIED_GRANT), ".") == Rewrite(Name(DOTTED_SCOPE), ".")
  {
    DottedIsCoherent();
    DottedIsCycleFree();
    DottedTargets();
    DottedAccepted(p, rule);
    DottedNames();
    DottedHeld(p, rule, input, DOTTED_THING);
    DottedHeld(p, rule, input, DOTTED_SCOPE);
    DottedImplies(p, rule);
    HoldsNext(DottedPolicy(p, rule), input, Name(DOTTED_THING), Name(IMPLIED_GRANT));
  }
}
