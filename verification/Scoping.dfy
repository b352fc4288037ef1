/** Which held groups a token for one audience carries, and which declared groups nothing reads: two
    readers of one decision. */
module Scoping {
  import opened Wrappers
  import opened Text
  import opened Grants
  import opened Ladders
  import opened Vocabularies
  import opened Policies
  import opened Evaluation

  datatype ScopePair = ScopePair(scope: string, thing: string)

  /** The `<scope>:<thing>` pairs a `requires` list names. */
  function PairsOf(needs: seq<string>): set<ScopePair> {
    set n | n in needs && SplitGroup(n).Some? :: ScopePair(SplitGroup(n).value.scope, SplitGroup(n).value.thing)
  }

  method RequiresPairs(needs: seq<string>) returns (pairs: set<ScopePair>)
    ensures pairs == PairsOf(needs)
  {
    pairs := {};
    for i := 0 to |needs|
      invariant pairs == PairsOf(needs[..i])
    {
      assert needs[..i + 1] == needs[..i] + [needs[i]];
      match SplitGroup(needs[i])
      case Some(g) => pairs := pairs + {ScopePair(g.scope, g.thing)};
      case None =>
    }
    assert needs[..|needs|] == needs;
  }

  /** The family of a two-segment name: what stands before its only separator. */
  function SplitFamily(name: string): Option<string> {
    var parts := Split(name, SEPARATOR);
    if |parts| == 2 && parts[0] != "" && parts[1] != "" then Some(parts[0]) else None
  }

  /** The one decision: whether an audience with these pairs and this override keeps a group. */
  predicate Keeps(name: string, pairs: set<ScopePair>, override: GroupsOverride) {
    if override.all then true
    else
      match SplitGroup(name)
      case None => (SplitFamily(name).Some? && SplitFamily(name).value in override.things) || name in override.things
      case Some(g) => ScopePair(g.scope, g.thing) in pairs || g.thing in override.things
  }

  /** A name of two segments, neither empty, and the first of them. */
  ghost predicate InFamily(name: string, family: string) {
    exists rest :: Segment(family) && Segment(rest) && name == family + [SEPARATOR] + rest
  }

  /** What a token for an audience carries, by its requires list and its override: everything, when that
      says so; else a grant on the scope and thing of one that is required, or on a thing that is listed;
      and a name that is no grant when it is listed itself, or its family is. */
  ghost predicate Carried(name: string, needs: seq<string>, override: GroupsOverride) {
    || override.all
    || match SplitGroup(name)
       case Some(g) =>
         || g.thing in override.things
         || exists n :: n in needs && SplitGroup(n).Some? && SplitGroup(n).value.scope == g.scope && SplitGroup(n).value.thing == g.thing
       case None => name in override.things || exists family :: InFamily(name, family) && family in override.things
  }

  lemma FamilyMeans(name: string, family: string)
    ensures SplitFamily(name) == Some(family) <==> InFamily(name, family)
  {
    var parts := Split(name, SEPARATOR);
    if SplitFamily(name) == Some(family) {
      SplitInverts(name, SEPARATOR);
      assert JoinStrings(parts, [SEPARATOR]) == parts[0] + [SEPARATOR] + JoinStrings(parts[1..], [SEPARATOR]);
      assert parts[1..] == [parts[1]];
      assert name == family + [SEPARATOR] + parts[1];
    }
    if rest :| Segment(family) && Segment(rest) && name == family + [SEPARATOR] + rest {
      SplitJoined(family, rest, SEPARATOR);
    }
  }

  /** The decision is exactly that. */
  lemma KeepsMeans(name: string, needs: seq<string>, override: GroupsOverride)
    ensures Keeps(name, PairsOf(needs), override) <==> Carried(name, needs, override)
  {
    if SplitGroup(name).None? {
      forall family
        ensures SplitFamily(name) == Some(family) <==> InFamily(name, family)
      {
        FamilyMeans(name, family);
      }
    } else {
      var g := SplitGroup(name).value;
      if n :| n in needs && SplitGroup(n).Some? && SplitGroup(n).value.scope == g.scope && SplitGroup(n).value.thing == g.thing {
        assert ScopePair(g.scope, g.thing) in PairsOf(needs);
      }
    }
  }

  const NO_OVERRIDE := GroupsOverride(false, [])

  /** What governs an audience: a client's row, a resource's, or the document-client block when the
      audience is a URL that block permits. */
  function AudienceScope(p: Policy, audience: string, permitted: bool): (set<ScopePair>, GroupsOverride) {
    if audience in p.clients then (PairsOf(p.clients[audience].needs), p.clients[audience].groups)
    else if audience in p.resources then (PairsOf(p.resources[audience].needs), p.resources[audience].groups)
    else if p.documents.origins != [] && permitted then (PairsOf(p.documents.needs), p.documents.groups)
    else ({}, NO_OVERRIDE)
  }

  // ----- Sorting a list that may repeat itself

  function Insert(x: string, sorted: seq<string>): seq<string> {
    if sorted == [] || LexLe(x, sorted[0]) then [x] + sorted else [sorted[0]] + Insert(x, sorted[1..])
  }

  /** `slices.Sort`. */
  function SortAll(names: seq<string>): seq<string> {
    if names == [] then [] else Insert(names[0], SortAll(names[1..]))
  }

  predicate InOrder(names: seq<string>) {
    forall i, j :: 0 <= i < j < |names| ==> LexLe(names[i], names[j])
  }

  lemma {:induction false} InsertSorts(x: string, sorted: seq<string>)
    requires InOrder(sorted)
    ensures InOrder(Insert(x, sorted)) && multiset(Insert(x, sorted)) == multiset(sorted) + multiset{x}
  {
    if sorted != [] {
      assert sorted == [sorted[0]] + sorted[1..];
      if LexLe(x, sorted[0]) {
        forall j | 0 <= j < |sorted|
          ensures LexLe(x, sorted[j])
        {
          if j > 0 {
            LexTransitive(x, sorted[0], sorted[j]);
          }
        }
      } else {
        LexTotal(x, sorted[0]);
        InsertSorts(x, sorted[1..]);
        var rest := Insert(x, sorted[1..]);
        forall j | 0 <= j < |rest|
          ensures LexLe(sorted[0], rest[j])
        {
          assert rest[j] in multiset(rest);
          assert rest[j] == x || rest[j] in sorted[1..];
        }
      }
    }
  }

  lemma {:induction false} SortAllSorts(names: seq<string>)
    ensures InOrder(SortAll(names)) && multiset(SortAll(names)) == multiset(names)
  {
    if names != [] {
      SortAllSorts(names[1..]);
      InsertSorts(names[0], SortAll(names[1..]));
      assert names == [names[0]] + names[1..];
    }
  }

  /** Splits what is held into what a token for the audience would carry and what it would not: every
      name is in exactly one of the two, as often as it was held, and both are sorted. */
  method ScopeGroups(p: Policy, audience: string, permitted: bool, held: seq<string>)
      returns (kept: seq<string>, dropped: seq<string>)
    ensures InOrder(kept) && InOrder(dropped)
    ensures multiset(kept) + multiset(dropped) == multiset(held)
    ensures audience in p.clients ==>
      DividedBy(held, kept, dropped, p.clients[audience].needs, p.clients[audience].groups)
    ensures audience !in p.clients && audience in p.resources ==>
      DividedBy(held, kept, dropped, p.resources[audience].needs, p.resources[audience].groups)
    ensures audience !in p.clients && audience !in p.resources && p.documents.origins != [] && permitted ==>
      DividedBy(held, kept, dropped, p.documents.needs, p.documents.groups)
    ensures audience !in p.clients && audience !in p.resources && (p.documents.origins == [] || !permitted) ==> kept == []
  {
    kept, dropped := Divide(p, audience, permitted, held);
    FirstIsIn(kept);
    FirstIsIn(dropped);
    forall n, needs, override
      ensures Keeps(n, PairsOf(needs), override) <==> Carried(n, needs, override)
    {
      KeepsMeans(n, needs, override);
    }
  }

  ghost predicate DividedBy(held: seq<string>, kept: seq<string>, dropped: seq<string>, needs: seq<string>, override: GroupsOverride) {
    && (forall n :: n in kept <==> n in held && Carried(n, needs, override))
    && (forall n :: n in dropped <==> n in held && !Carried(n, needs, override))
    && (override.all ==> dropped == [])
  }

  /** Its loop, and the two sorts at the end. */
  method Divide(p: Policy, audience: string, permitted: bool, held: seq<string>)
      returns (kept: seq<string>, dropped: seq<string>)
    ensures InOrder(kept) && InOrder(dropped)
    ensures multiset(kept) + multiset(dropped) == multiset(held)
    ensures var (pairs, override) := AudienceScope(p, audience, permitted);
      (forall n :: n in kept <==> n in held && Keeps(n, pairs, override))
      && (forall n :: n in dropped <==> n in held && !Keeps(n, pairs, override))
  {
    var (pairs, override) := AudienceScope(p, audience, permitted);
    kept, dropped := [], [];
    for i := 0 to |held|
      invariant multiset(kept) + multiset(dropped) == multiset(held[..i])
      invariant forall n :: n in kept <==> n in held[..i] && Keeps(n, pairs, override)
      invariant forall n :: n in dropped <==> n in held[..i] && !Keeps(n, pairs, override)
    {
      assert held[..i + 1] == held[..i] + [held[i]];
      if Keeps(held[i], pairs, override) {
        kept := kept + [held[i]];
      } else {
        dropped := dropped + [held[i]];
      }
    }
    assert held[..|held|] == held;
    SortAllSorts(kept);
    SortAllSorts(dropped);
    SameElements(SortAll(kept), kept);
    SameElements(SortAll(dropped), dropped);
    kept, dropped := SortAll(kept), SortAll(dropped);
  }

  lemma SameElements(a: seq<string>, b: seq<string>)
    requires multiset(a) == multiset(b)
    ensures forall n :: n in a <==> n in b
  {
    assert forall n :: n in a <==> n in multiset(a);
    assert forall n :: n in b <==> n in multiset(b);
  }

  // ----- What nothing reads

  const THING_SELF := "access-roster"

  predicate HubRole(name: string) {
    SplitGroup(name).Some? && SplitGroup(name).value.thing == THING_SELF
    && (SplitGroup(name).value.role == "operator" || SplitGroup(name).value.role == "viewer")
  }

  predicate Required(p: Policy, name: string) {
    || (exists id :: id in p.clients && name in p.clients[id].needs)
    || (exists id :: id in p.resources && name in p.resources[id].needs)
    || name in p.documents.needs
  }

  /** Some override reaches the name, asked with no pairs of its own. */
  predicate Overridden(p: Policy, name: string) {
    || Keeps(name, {}, p.documents.groups)
    || (exists id :: id in p.clients && Keeps(name, {}, p.clients[id].groups))
    || (exists id :: id in p.resources && Keeps(name, {}, p.resources[id].groups))
  }

  predicate Bound(p: Policy, name: string) {
    || (exists org :: org in p.github && name in p.github[org].members)
    || (exists org, team :: org in p.github && team in p.github[org].teams
          && (name in p.github[org].teams[team].members || name in p.github[org].teams[team].maintainers))
    || (exists w, c :: w in p.slack && c in p.slack[w].channels && name in p.slack[w].channels[c].from)
  }

  predicate Consumed(p: Policy, catalogue: set<string>, name: string) {
    Required(p, name) || Overridden(p, name) || Bound(p, name) || HubRole(name) || name in catalogue
  }

  predicate NotAGrant(name: string) {
    "rung:" <= name || "emp:" <= name
  }

  predicate IsUnconsumed(p: Policy, catalogue: set<string>, key: string) {
    && key in p.groups
    && !NotAGrant(key)
    && forall t :: t in GroupKeyTargets(p.vocabulary, key) ==> !Consumed(p, catalogue, t)
  }

  /** A token never carries a target of an unread key, except through a pair the audience requires. */
  lemma UnconsumedIsDropped(p: Policy, catalogue: set<string>, key: string, target: string, audience: string, permitted: bool)
    requires IsUnconsumed(p, catalogue, key) && target in GroupKeyTargets(p.vocabulary, key)
    ensures var (pairs, override) := AudienceScope(p, audience, permitted);
      Keeps(target, pairs, override) <==>
        SplitGroup(target).Some? && ScopePair(SplitGroup(target).value.scope, SplitGroup(target).value.thing) in pairs
  {
    var (pairs, override) := AudienceScope(p, audience, permitted);
    assert !Overridden(p, target);
    assert audience in p.clients ==> !Keeps(target, {}, p.clients[audience].groups);
    assert audience in p.resources ==> !Keeps(target, {}, p.resources[audience].groups);
  }

  // ----- Deleting what nothing reads

  function WithoutKey(p: Policy, key: string): Policy {
    p.(groups := p.groups - {key})
  }

  /** A requires list admits a proof that holds any of its names. */
  ghost predicate Admits(p: Policy, input: Input, needs: seq<string>) {
    exists n :: n in needs && Holds(p, input, n)
  }

  /** Nothing that a key's targets lead to through implied roles is read either. */
  ghost predicate LeadsNowhere(p: Policy, catalogue: set<string>, key: string) {
    forall t, n :: t in GroupKeyTargets(p.vocabulary, key) && n != t && Reaches(p.vocabulary, t, n) ==> !Consumed(p, catalogue, n)
  }

  /** Without a vocabulary no role is implied, so the proviso always holds. */
  lemma NoVocabularyLeadsNowhere(p: Policy, catalogue: set<string>, key: string)
    requires p.vocabulary.None?
    ensures LeadsNowhere(p, catalogue, key)
  {
    forall t, n | Reaches(p.vocabulary, t, n)
      ensures n == t
    {
      var chain :| IsChain(p.vocabulary, chain) && chain[0] == t && chain[|chain| - 1] == n;
      ChainStaysIn(p.vocabulary, iset{t}, chain, |chain| - 1);
    }
  }

  // ----- Exactly when deletion is safe

  /** A key's targets reach one of the names through implied roles, or are one. */
  ghost predicate LeadsTo(p: Policy, key: string, needs: seq<string>) {
    exists t, n :: t in GroupKeyTargets(p.vocabulary, key) && n in needs && Reaches(p.vocabulary, t, n)
  }

  /** One thing about a caller that matches a key. */
  datatype Ground = ByMatcher(matcher: Matcher) | ByMember(member: string)

  predicate GroundOf(p: Policy, key: string, ground: Ground) {
    && key in p.groups
    && match ground
       case ByMatcher(m) => m in p.groups[key].matchers
       case ByMember(g) => g in p.groups[key].members
  }

  predicate Satisfied(input: Input, ground: Ground) {
    match ground
    case ByMatcher(m) => m in input.proves
    case ByMember(g) => input.authoritative && Lower(g) in Confirmed(input)
  }

  lemma MatchedByGround(p: Policy, input: Input, key: string)
    ensures Matched(p, input, key) <==> exists ground :: GroundOf(p, key, ground) && Satisfied(input, ground)
  {
    if key in p.groups {
      MatchedMeans(p, input, key);
      if m :| m in p.groups[key].matchers && m in input.proves {
        assert GroundOf(p, key, ByMatcher(m));
      } else if Matched(p, input, key) {
        var g :| g in p.groups[key].members && Lower(g) in Confirmed(input);
        assert GroundOf(p, key, ByMember(g));
      }
    }
  }

  /** Among the proofs there can be, each that satisfies the first satisfies the second. A matcher for one
      address is covered by one for its whole domain, and a member by the same member in another case. */
  ghost predicate Covered(proofs: Input -> bool, a: Ground, b: Ground) {
    forall input :: proofs(input) && Satisfied(input, a) ==> Satisfied(input, b)
  }

  /** Another key that leads as far covers this ground. */
  ghost predicate GroundBacked(p: Policy, key: string, needs: seq<string>, proofs: Input -> bool, ground: Ground) {
    exists k, other :: k != key && GroundOf(p, k, other) && Covered(proofs, ground, other) && LeadsTo(p, k, needs)
  }

  /** Everything that matches the key is covered by another one that leads as far. */
  ghost predicate Backed(p: Policy, key: string, needs: seq<string>, proofs: Input -> bool) {
    forall ground :: GroundOf(p, key, ground) ==> GroundBacked(p, key, needs, proofs, ground)
  }

  /** Some proof satisfies the ground and, of the rest, no more than it has to. */
  ghost predicate Alone(proofs: Input -> bool, ground: Ground) {
    exists input :: proofs(input) && Satisfied(input, ground)
      && forall other :: Satisfied(input, other) ==> Covered(proofs, ground, other)
  }

  lemma AdmitsMeans(p: Policy, input: Input, needs: seq<string>)
    ensures Admits(p, input, needs) <==> exists k :: Matched(p, input, k) && LeadsTo(p, k, needs)
  {
    if Admits(p, input, needs) {
      var n :| n in needs && Holds(p, input, n);
      var seed :| Seed(p, input, seed) && Reaches(p.vocabulary, seed, n);
      var k :| Matched(p, input, k) && seed in GroupKeyTargets(p.vocabulary, k);
      assert LeadsTo(p, k, needs);
    }
    if k :| Matched(p, input, k) && LeadsTo(p, k, needs) {
      var t, n :| t in GroupKeyTargets(p.vocabulary, k) && n in needs && Reaches(p.vocabulary, t, n);
      assert Seed(p, input, t);
      assert Holds(p, input, n);
    }
  }

  lemma AdmitsWithout(p: Policy, key: string, input: Input, needs: seq<string>)
    ensures Admits(WithoutKey(p, key), input, needs) <==>
      exists k :: k != key && Matched(p, input, k) && LeadsTo(p, k, needs)
  {
    var q := WithoutKey(p, key);
    AdmitsMeans(q, input, needs);
    assert forall k :: Matched(q, input, k) <==> k != key && Matched(p, input, k);
    assert forall k :: LeadsTo(q, k, needs) <==> LeadsTo(p, k, needs);
  }

  /** Deleting the key changes no proof's verdict on a requires list. */
  ghost predicate DeletionSafe(p: Policy, key: string, needs: seq<string>, proofs: Input -> bool) {
    forall input :: proofs(input) ==> (Admits(p, input, needs) <==> Admits(WithoutKey(p, key), input, needs))
  }

  lemma BackedKeepsAdmitted(p: Policy, key: string, input: Input, needs: seq<string>, proofs: Input -> bool)
    requires Backed(p, key, needs, proofs) && proofs(input) && Matched(p, input, key)
    ensures Admits(WithoutKey(p, key), input, needs)
  {
    MatchedByGround(p, input, key);
    var ground :| GroundOf(p, key, ground) && Satisfied(input, ground);
    assert GroundBacked(p, key, needs, proofs, ground);
    var k, other :| k != key && GroundOf(p, k, other) && Covered(proofs, ground, other) && LeadsTo(p, k, needs);
    MatchedByGround(p, input, k);
    AdmitsWithout(p, key, input, needs);
  }

  /** A caller who satisfies one ground and no more than it has to finds the other key. */
  lemma SafeIsBacked(p: Policy, key: string, needs: seq<string>, proofs: Input -> bool, ground: Ground)
    requires DeletionSafe(p, key, needs, proofs) && LeadsTo(p, key, needs) && GroundOf(p, key, ground) && Alone(proofs, ground)
    ensures GroundBacked(p, key, needs, proofs, ground)
  {
    var input :| proofs(input) && Satisfied(input, ground)
      && forall other :: Satisfied(input, other) ==> Covered(proofs, ground, other);
    MatchedByGround(p, input, key);
    AdmitsMeans(p, input, needs);
    AdmitsWithout(p, key, input, needs);
    var k :| k != key && Matched(p, input, k) && LeadsTo(p, k, needs);
    MatchedByGround(p, input, k);
    var other :| GroundOf(p, k, other) && Satisfied(input, other);
    assert Covered(proofs, ground, other);
  }

  /** Deleting any key, reported or not, changes no verdict on a requires list when the key does not lead
      to the list, or each of its grounds is covered by another key that does, whatever proofs there can
      be. It is exactly then, once each of the key's grounds can be satisfied alone. */
  lemma DeletionIsSafeExactly(p: Policy, key: string, needs: seq<string>, proofs: Input -> bool)
    ensures !LeadsTo(p, key, needs) || Backed(p, key, needs, proofs) ==> DeletionSafe(p, key, needs, proofs)
    ensures (forall ground :: GroundOf(p, key, ground) ==> Alone(proofs, ground)) ==>
      (DeletionSafe(p, key, needs, proofs) <==> !LeadsTo(p, key, needs) || Backed(p, key, needs, proofs))
  {
    if !LeadsTo(p, key, needs) || Backed(p, key, needs, proofs) {
      forall input | proofs(input)
        ensures Admits(p, input, needs) <==> Admits(WithoutKey(p, key), input, needs)
      {
        AdmitsMeans(p, input, needs);
        AdmitsWithout(p, key, input, needs);
        if Matched(p, input, key) && LeadsTo(p, key, needs) {
          BackedKeepsAdmitted(p, key, input, needs, proofs);
        }
      }
    }
    if DeletionSafe(p, key, needs, proofs) && LeadsTo(p, key, needs) {
      forall ground | GroundOf(p, key, ground) && Alone(proofs, ground)
        ensures GroundBacked(p, key, needs, proofs, ground)
      {
        SafeIsBacked(p, key, needs, proofs, ground);
      }
    }
  }

  /** Where any set of matchers can be satisfied together, every ground can be satisfied alone. */
  lemma IndependentMeansAlone(ground: Ground)
    ensures Alone(AnyProof, ground)
  {
    match ground
    case ByMatcher(m) =>
      var input := Input([], false, {m});
      assert AnyProof(input) && Satisfied(input, ground);
      forall other | Satisfied(input, other)
        ensures Covered(AnyProof, ground, other)
      {
        assert other == ground;
      }
    case ByMember(g) =>
      var input := Input([g], true, {});
      assert g in [g] && Confirmed(input) == {Lower(g)} && AnyProof(input) && Satisfied(input, ground);
      forall other | Satisfied(input, other)
        ensures Covered(AnyProof, ground, other)
      {
        assert Lower(other.member) == Lower(g);
      }
  }

  /** Deleting a key the lint reports changes no client's or resource's verdict on any proof, provided
      no role implied by its targets is itself read. */
  lemma DeletionIsSafe(p: Policy, catalogue: set<string>, key: string, input: Input, needs: seq<string>)
    requires IsUnconsumed(p, catalogue, key) && LeadsNowhere(p, catalogue, key)
    requires forall n :: n in needs ==> Required(p, n)
    ensures Admits(p, input, needs) <==> Admits(WithoutKey(p, key), input, needs)
  {
    if LeadsTo(p, key, needs) {
      var t, n :| t in GroupKeyTargets(p.vocabulary, key) && n in needs && Reaches(p.vocabulary, t, n);
      assert Consumed(p, catalogue, n);
    }
    DeletionIsSafeExactly(p, key, needs, AnyProof);
  }

  // ----- The proviso is needed

  const ADMIN := Grant("prod", "shop", "admin")
  const VIEWER := Grant("prod", "shop", "viewer")
  const SHOP := Vocabulary(map["prod" := false],
    map["shop" := ThingSpec(["prod"], map["admin" := RoleSpec(["viewer"], None), "viewer" := RoleSpec([], None)])])

  /** One client that requires the viewer role, one rule that makes its subject an admin, and nobody
      made a viewer outright. */
  predicate ShopPolicy(p: Policy, rule: Matcher) {
    && p.vocabulary == Some(SHOP)
    && p.groups == map[Name(ADMIN) := Group([], [rule]), Name(VIEWER) := Group([], [])]
    && p.clients == map["shop" := Client("public", [Name(VIEWER)], 0, NO_OVERRIDE, "")]
    && p.resources == map[] && p.documents == ClientDocuments([], [], 0, NO_OVERRIDE, false)
    && p.github == map[] && p.slack == map[]
  }

  lemma ShopNames()
    ensures SplitGroup(Name(ADMIN)) == Some(ADMIN) && SplitGroup(Name(VIEWER)) == Some(VIEWER)
    ensures Name(ADMIN) != Name(VIEWER) && !NotAGrant(Name(ADMIN))
  {
    SplitName(ADMIN);
    SplitName(VIEWER);
    assert Name(ADMIN)[0] == 'p';
    assert "rung:"[0] == 'r' && "emp:"[0] == 'e';
  }

  lemma ShopTargets()
    ensures GroupKeyTargets(Some(SHOP), Name(ADMIN)) == [Name(ADMIN)]
  {
    ShopNames();
    assert ADMIN.role != ANY && !IsWildcard(ADMIN);
    assert Fits(SHOP, ADMIN) == None;
  }

  lemma AdminIsUnread(p: Policy, rule: Matcher)
    requires ShopPolicy(p, rule)
    ensures !Consumed(p, {}, Name(ADMIN))
  {
    ShopNames();
    assert !Keeps(Name(ADMIN), {}, NO_OVERRIDE);
    assert !Overridden(p, Name(ADMIN)) && !Bound(p, Name(ADMIN)) && !Required(p, Name(ADMIN));
  }

  lemma AdminIsReported(p: Policy, rule: Matcher)
    requires ShopPolicy(p, rule)
    ensures IsUnconsumed(p, {}, Name(ADMIN))
  {
    ShopNames();
    ShopTargets();
    AdminIsUnread(p, rule);
  }

  lemma AdminViews(p: Policy, rule: Matcher, input: Input)
    requires ShopPolicy(p, rule) && rule in input.proves
    ensures Holds(p, input, Name(VIEWER))
  {
    ShopNames();
    ShopTargets();
    assert rule in p.groups[Name(ADMIN)].matchers;
    MatchedMeans(p, input, Name(ADMIN));
    assert Seed(p, input, Name(ADMIN));
    ReachesSelf(p.vocabulary, Name(ADMIN));
    assert ImpliedNames(p.vocabulary, Name(ADMIN))[0] == Name(VIEWER);
    HoldsNext(p, input, Name(ADMIN), Name(VIEWER));
  }

  lemma NobodyViews(p: Policy, rule: Matcher, input: Input, name: string)
    requires ShopPolicy(p, rule)
    ensures !Holds(WithoutKey(p, Name(ADMIN)), input, name)
  {
    var q := WithoutKey(p, Name(ADMIN));
    forall k | k in q.groups
      ensures !Matched(q, input, k)
    {
      MatchedMeans(q, input, k);
    }
    if Holds(q, input, name) {
      HeldIsLeast(q, input, iset{}, name);
    }
  }

  /** The admin key is reported as unread, because only the viewer role is required, and yet deleting
      it locks out everybody it admits: an admin is a viewer by implication. */
  lemma ReportedKeyOpensADoor(p: Policy, rule: Matcher, input: Input)
    requires ShopPolicy(p, rule) && rule in input.proves
    ensures IsUnconsumed(p, {}, Name(ADMIN))
    ensures Admits(p, input, p.clients["shop"].needs)
    ensures !Admits(WithoutKey(p, Name(ADMIN)), input, p.clients["shop"].needs)
  {
    AdminIsReported(p, rule);
    AdminViews(p, rule, input);
    assert Name(VIEWER) in p.clients["shop"].needs;
    forall n
      ensures !Holds(WithoutKey(p, Name(ADMIN)), input, n)
    {
      NobodyViews(p, rule, input, n);
    }
  }
}
