/** What evaluation can and cannot grant: provenance, fit, sensitive scopes and monotonicity. */
module Granting {
  import opened Wrappers
  import opened Text
  import opened Grants
  import opened Ladders
  import opened Vocabularies
  import opened Policies
  import opened Evaluation

  // ----- Provenance

  /** Every reason is real: its key matched and stands for the group, or its parent is held and lists
      the group among the roles it implies. */
  lemma ReasonsAreSound(p: Policy, input: Input, order: seq<string>, name: string, held: Held)
    requires held in Reasons(p, input, order, name)
    ensures held.group == name
    ensures match held.reason
      case Direct(key, via) => Matched(p, input, key) && name in GroupKeyTargets(p.vocabulary, key) && via == Via(p, input, key)
      case Inherited(parent) => parent in order && name in ImpliedNames(p.vocabulary, parent)
  {
    if held in DirectReasons(p, input, Sorted(p.groups.Keys), name) {
      DirectSound(p, input, Sorted(p.groups.Keys), name, held);
    } else {
      InheritedSound(p.vocabulary, order, name, held);
    }
  }

  lemma {:induction false} DirectSound(p: Policy, input: Input, keys: seq<string>, name: string, held: Held)
    requires (forall k :: k in keys ==> k in p.groups) && held in DirectReasons(p, input, keys, name)
    ensures held.group == name && held.reason.Direct?
    ensures Matched(p, input, held.reason.key) && name in GroupKeyTargets(p.vocabulary, held.reason.key)
    ensures held.reason.via == Via(p, input, held.reason.key)
  {
    var n := |keys| - 1;
    if held !in DirectReason(p, input, keys[n], name) {
      DirectSound(p, input, keys[..n], name, held);
    }
  }

  lemma {:induction false} InheritedSound(vocabulary: Option<Vocabulary>, order: seq<string>, name: string, held: Held)
    requires held in InheritedReasons(vocabulary, order, name)
    ensures held.group == name && held.reason.Inherited?
    ensures held.reason.parent in order && name in ImpliedNames(vocabulary, held.reason.parent)
  {
    var n := |order| - 1;
    if held !in Copies(multiset(ImpliedNames(vocabulary, order[n]))[name], Held(name, Inherited(order[n]))) {
      InheritedSound(vocabulary, order[..n], name, held);
    }
  }

  /** And none is missing or repeated: a name has one reason for each matched key that stands for it
      (what those are is the first half), */
  lemma DirectReasonsAreComplete(p: Policy, input: Input, order: seq<string>, name: string, key: string)
    requires key in p.groups
    ensures multiset(Reasons(p, input, order, name))[Held(name, Direct(key, Via(p, input, key)))]
      == if Matched(p, input, key) && name in GroupKeyTargets(p.vocabulary, key) then 1 else 0
  {
    var held := Held(name, Direct(key, Via(p, input, key)));
    DirectCount(p, input, Sorted(p.groups.Keys), name, key);
    if held in InheritedReasons(p.vocabulary, order, name) {
      InheritedSound(p.vocabulary, order, name, held);
    }
  }

  /** and from each held parent exactly as many as the times its implies list names it. */
  lemma InheritedReasonsAreComplete(p: Policy, input: Input, order: seq<string>, name: string, parent: string)
    requires NoRepeats(order)
    ensures multiset(Reasons(p, input, order, name))[Held(name, Inherited(parent))]
      == if parent in order then multiset(ImpliedNames(p.vocabulary, parent))[name] else 0
  {
    var held := Held(name, Inherited(parent));
    InheritedCount(p.vocabulary, order, name, parent);
    if held in DirectReasons(p, input, Sorted(p.groups.Keys), name) {
      DirectSound(p, input, Sorted(p.groups.Keys), name, held);
    }
  }

  lemma {:induction false} DirectCount(p: Policy, input: Input, keys: seq<string>, name: string, key: string)
    requires (forall k :: k in keys ==> k in p.groups) && NoRepeats(keys) && key in p.groups
    ensures multiset(DirectReasons(p, input, keys, name))[Held(name, Direct(key, Via(p, input, key)))]
      == if key in keys && Matched(p, input, key) && name in GroupKeyTargets(p.vocabulary, key) then 1 else 0
  {
    if keys != [] {
      var n := |keys| - 1;
      assert keys == keys[..n] + [keys[n]];
      DirectCount(p, input, keys[..n], name, key);
      var before, last := DirectReasons(p, input, keys[..n], name), DirectReason(p, input, keys[n], name);
      assert multiset(before + last) == multiset(before) + multiset(last);
    }
  }

  lemma {:induction false} InheritedCount(vocabulary: Option<Vocabulary>, order: seq<string>, name: string, parent: string)
    requires NoRepeats(order)
    ensures multiset(InheritedReasons(vocabulary, order, name))[Held(name, Inherited(parent))]
      == if parent in order then multiset(ImpliedNames(vocabulary, parent))[name] else 0
  {
    if order != [] {
      var n := |order| - 1;
      assert order == order[..n] + [order[n]];
      InheritedCount(vocabulary, order[..n], name, parent);
      var copies := Copies(multiset(ImpliedNames(vocabulary, order[n]))[name], Held(name, Inherited(order[n])));
      CopiesCount(multiset(ImpliedNames(vocabulary, order[n]))[name], Held(name, Inherited(order[n])), Held(name, Inherited(parent)));
      var before := InheritedReasons(vocabulary, order[..n], name);
      assert multiset(before + copies) == multiset(before) + multiset(copies);
    }
  }

  lemma {:induction false} CopiesCount(n: nat, held: Held, other: Held)
    ensures multiset(Copies(n, held))[other] == if other == held then n else 0
  {
    if n > 0 {
      CopiesCount(n - 1, held, other);
      assert Copies(n, held) == Copies(n - 1, held) + [held];
    }
  }

  /** What an evaluation returns lists these reasons and no others: each group's, as often as it has
      them. */
  lemma {:induction false} ListedReasons(p: Policy, input: Input, order: seq<string>, groups: seq<string>, held: Held)
    requires NoRepeats(groups)
    ensures multiset(Listed(p, input, order, groups))[held]
      == if held.group in groups then multiset(Reasons(p, input, order, held.group))[held] else 0
  {
    if groups != [] {
      var n := |groups| - 1;
      assert groups == groups[..n] + [groups[n]];
      ListedReasons(p, input, order, groups[..n], held);
      OnlyItsOwn(p, input, order, groups[n], held);
      CountBoth(Listed(p, input, order, groups[..n]), Reasons(p, input, order, groups[n]), held);
    }
  }

  lemma OnlyItsOwn(p: Policy, input: Input, order: seq<string>, name: string, held: Held)
    ensures held.group != name ==> multiset(Reasons(p, input, order, name))[held] == 0
  {
    if held in Reasons(p, input, order, name) {
      ReasonsAreSound(p, input, order, name, held);
    }
  }

  lemma CountBoth(a: seq<Held>, b: seq<Held>, held: Held)
    ensures multiset(a + b)[held] == multiset(a)[held] + multiset(b)[held]
  {
    assert multiset(a + b) == multiset(a) + multiset(b);
  }

  /** The key matched, stands for the group, and this is what matched it. */
  predicate IsDirect(p: Policy, input: Input, group: string, key: string, via: seq<string>) {
    Matched(p, input, key) && group in GroupKeyTargets(p.vocabulary, key) && via == Via(p, input, key)
  }

  /** How often an entry belongs in a result with these groups. */
  function Due(p: Policy, input: Input, groups: seq<string>, held: Held): nat {
    match held.reason
    case Direct(key, via) => if IsDirect(p, input, held.group, key, via) then 1 else 0
    case Inherited(parent) => if parent in groups then multiset(ImpliedNames(p.vocabulary, parent))[held.group] else 0
  }

  /** The promise on the result: its entries are real, none is missing and none is repeated. A direct one
      is there once exactly when its key matched, stands for its group and says why; an inherited one as
      often as its parent, itself among the groups, lists it. */
  lemma ProvenanceIsExact(p: Policy, input: Input, order: seq<string>, groups: seq<string>, held: Held)
    requires NoRepeats(groups) && NoRepeats(order)
    requires forall n :: n in groups <==> Holds(p, input, n)
    requires forall n :: n in order <==> n in groups
    ensures multiset(Listed(p, input, order, groups))[held] == Due(p, input, groups, held)
  {
    ListedReasons(p, input, order, groups, held);
    if held.reason.Direct? {
      DirectIsExact(p, input, order, held);
    } else {
      var parent := held.reason.parent;
      InheritedReasonsAreComplete(p, input, order, held.group, parent);
      if Holds(p, input, parent) && held.group in ImpliedNames(p.vocabulary, parent) {
        HoldsNext(p, input, parent, held.group);
      }
    }
  }

  lemma DirectIsExact(p: Policy, input: Input, order: seq<string>, held: Held)
    requires held.reason.Direct?
    ensures multiset(Reasons(p, input, order, held.group))[held]
      == if IsDirect(p, input, held.group, held.reason.key, held.reason.via) then 1 else 0
    ensures IsDirect(p, input, held.group, held.reason.key, held.reason.via) ==> Holds(p, input, held.group)
  {
    if held in Reasons(p, input, order, held.group) {
      ReasonsAreSound(p, input, order, held.group, held);
    }
    if held.reason.key in p.groups {
      DirectReasonsAreComplete(p, input, order, held.group, held.reason.key);
    }
    ReachesSelf(p.vocabulary, held.group);
  }

  // ----- Chains of parents end

  /** What a name implies is on its own scope and thing. */
  lemma ImpliedOnSameThing(vocabulary: Option<Vocabulary>, name: string, next: string)
    requires next in ImpliedNames(vocabulary, name)
    ensures vocabulary.Some? && SplitGroup(name).Some? && SplitGroup(name).value.thing in vocabulary.value.things
    ensures SplitGroup(next).Some? ==>
      && SplitGroup(next).value.scope == SplitGroup(name).value.scope
      && SplitGroup(next).value.thing == SplitGroup(name).value.thing
      && SplitGroup(next).value.role in Implied(vocabulary.value.things[SplitGroup(name).value.thing].roles, SplitGroup(name).value.role)
  {
    var g := SplitGroup(name).value;
    var roles := Implied(vocabulary.value.things[g.thing].roles, g.role);
    var i :| 0 <= i < |roles| && next == Name(Grant(g.scope, g.thing, roles[i]));
    SplitName(Grant(g.scope, g.thing, roles[i]));
  }

  /** A chain that ends in a grant is a chain of grants on one scope and thing. */
  lemma {:induction false} ChainOnSameThing(vocabulary: Option<Vocabulary>, chain: seq<string>, i: nat)
    requires IsChain(vocabulary, chain) && i < |chain| && SplitGroup(chain[|chain| - 1]).Some?
    ensures SplitGroup(chain[i]).Some?
    ensures SplitGroup(chain[i]).value.scope == SplitGroup(chain[|chain| - 1]).value.scope
    ensures SplitGroup(chain[i]).value.thing == SplitGroup(chain[|chain| - 1]).value.thing
    decreases |chain| - i
  {
    if i < |chain| - 1 {
      ImpliedOnSameThing(vocabulary, chain[i], chain[i + 1]);
      ChainOnSameThing(vocabulary, chain, i + 1);
    }
  }

  ghost predicate GrantsOn(names: seq<string>, thing: string) {
    forall i :: 0 <= i < |names| ==> SplitGroup(names[i]).Some? && SplitGroup(names[i]).value.thing == thing
  }

  ghost function RolesOf(chain: seq<string>, thing: string): seq<string>
    requires GrantsOn(chain, thing)
  {
    seq(|chain|, i requires 0 <= i < |chain| => SplitGroup(chain[i]).value.role)
  }

  /** Every name of a chain but the last is a grant on one thing. The last may be any name: what a ladder
      lists under a role need not be a proper segment. */
  lemma ParentsAreGrants(vocabulary: Option<Vocabulary>, chain: seq<string>) returns (thing: string)
    requires IsChain(vocabulary, chain) && |chain| > 1
    ensures vocabulary.Some? && thing in vocabulary.value.things
    ensures GrantsOn(chain[..|chain| - 1], thing)
    ensures SplitGroup(chain[0]).Some? && SplitGroup(chain[0]).value.thing == thing
  {
    var n := |chain| - 1;
    var parents := chain[..n];
    ImpliedOnSameThing(vocabulary, chain[n - 1], chain[n]);
    thing := SplitGroup(chain[n - 1]).value.thing;
    assert IsChain(vocabulary, parents);
    ChainGrants(vocabulary, parents);
    assert parents[0] == chain[0];
  }

  lemma ChainGrants(vocabulary: Option<Vocabulary>, chain: seq<string>)
    requires IsChain(vocabulary, chain) && SplitGroup(chain[|chain| - 1]).Some?
    ensures GrantsOn(chain, SplitGroup(chain[|chain| - 1]).value.thing)
  {
    forall i | 0 <= i < |chain|
      ensures SplitGroup(chain[i]).Some? && SplitGroup(chain[i]).value.thing == SplitGroup(chain[|chain| - 1]).value.thing
    {
      ChainOnSameThing(vocabulary, chain, i);
    }
  }

  /** Their roles are a path of the thing's ladder that ends in a role implying something. */
  lemma ParentsArePath(vocabulary: Option<Vocabulary>, parents: seq<string>, last: string, thing: string)
    requires IsChain(vocabulary, parents) && last in ImpliedNames(vocabulary, parents[|parents| - 1])
    requires GrantsOn(parents, thing) && vocabulary.Some? && thing in vocabulary.value.things
    ensures var roles, path := vocabulary.value.things[thing].roles, RolesOf(parents, thing);
      IsPath(roles, path) && Implied(roles, path[|path| - 1]) != []
  {
    var roles, path := vocabulary.value.things[thing].roles, RolesOf(parents, thing);
    forall i, j | 0 <= i < |path| && j == i + 1 && j < |path|
      ensures path[j] in Implied(roles, path[i])
    {
      ImpliedOnSameThing(vocabulary, parents[i], parents[j]);
    }
  }

  /** A path of an acyclic ladder visits no role twice. */
  lemma AcyclicPathIsSimple(roles: Ladder, path: seq<string>)
    requires Acyclic(roles) && IsPath(roles, path)
    ensures NoRepeats(path)
  {
    forall i, j | 0 <= i < j < |path|
      ensures path[i] != path[j]
    {
      var loop := path[i..j + 1];
      assert IsPath(roles, loop);
      if path[i] == path[j] {
        assert loop[0] == path[i] == loop[|loop| - 1] && OnCycle(roles, path[i]);
      }
    }
  }

  /** So one that ends in a role implying something is no longer than the ladder. */
  lemma AcyclicPathIsShort(roles: Ladder, path: seq<string>)
    requires Acyclic(roles) && IsPath(roles, path) && Implied(roles, path[|path| - 1]) != []
    ensures NoRepeats(path) && |path| <= |roles|
  {
    AcyclicPathIsSimple(roles, path);
    forall r | r in path
      ensures r in roles
    {
      var i :| 0 <= i < |path| && path[i] == r;
      assert i < |path| - 1 ==> path[i + 1] in Implied(roles, path[i]);
    }
    NoRepeatsFits(path, roles.Keys);
  }

  lemma {:induction false} NoRepeatsFits(names: seq<string>, all: set<string>)
    requires NoRepeats(names) && forall n :: n in names ==> n in all
    ensures |names| <= |all|
  {
    if names != [] {
      var n := |names| - 1;
      assert names == names[..n] + [names[n]];
      NoRepeatsFits(names[..n], all - {names[n]});
    }
  }

  /** On a vocabulary without cycles, every walk from a held group to a parent, its parent and so on is
      shorter than the ladder is tall, and where it cannot go on there is a direct reason. */
  lemma ParentChainsEnd(p: Policy, input: Input, order: seq<string>, chain: seq<string>)
    requires p.vocabulary.Some? && CycleFree(p.vocabulary.value)
    requires IsChain(p.vocabulary, chain) && Reasons(p, input, order, chain[0]) != []
    ensures |chain| > 1 ==>
      && SplitGroup(chain[0]).Some? && SplitGroup(chain[0]).value.thing in p.vocabulary.value.things
      && |chain| <= |p.vocabulary.value.things[SplitGroup(chain[0]).value.thing].roles| + 1
    ensures (exists parent :: parent in order && IsChain(p.vocabulary, [parent] + chain))
      || (exists key :: Matched(p, input, key) && chain[0] in GroupKeyTargets(p.vocabulary, key))
  {
    if |chain| > 1 {
      var parents := chain[..|chain| - 1];
      var thing := ParentsAreGrants(p.vocabulary, chain);
      ParentsArePath(p.vocabulary, parents, chain[|chain| - 1], thing);
      AcyclicPathIsShort(p.vocabulary.value.things[thing].roles, RolesOf(parents, thing));
    }
    var held := Reasons(p, input, order, chain[0])[0];
    ReasonsAreSound(p, input, order, chain[0], held);
    if held.reason.Inherited? {
      assert IsChain(p.vocabulary, [held.reason.parent] + chain);
    }
  }

  // ----- Every grant fits

  /** A key's targets fit the vocabulary it was checked against. */
  lemma TargetsFit(v: Vocabulary, key: string, target: string)
    requires Coherent(v) && CheckGroupKey(Some(v), key).Ok? && target in GroupKeyTargets(Some(v), key)
    requires SplitGroup(target).Some?
    ensures Fits(v, SplitGroup(target).value) == None
  {
    if SplitGroup(key).Some? && IsWildcard(SplitGroup(key).value) {
      SweepIsWhatFits(v, SplitGroup(key).value, true, target);
    }
  }

  /** What a grant that fits implies fits too: the load-time check that an implied role covers every
      scope its source does is what makes it so. */
  lemma ImpliedFits(v: Vocabulary, name: string, next: string)
    requires Coherent(v) && next in ImpliedNames(Some(v), name) && SplitGroup(next).Some?
    requires SplitGroup(name).Some? && Fits(v, SplitGroup(name).value) == None
    ensures Fits(v, SplitGroup(next).value) == None
  {
    ImpliedOnSameThing(Some(v), name, next);
    var g, n := SplitGroup(name).value, SplitGroup(next).value;
    var spec := v.things[g.thing];
    assert ThingCoherent(v, spec) && RoleCoherent(v, spec, spec.roles[g.role]);
    assert EdgeCovered(spec, spec.roles[g.role], n.role);
    assert g.scope in EffectiveScopes(spec.roles[g.role], spec);
  }

  /** For a policy whose keys are valid under a vocabulary, every three-segment group evaluation ever
      returns fits it, whether reached directly, by a wildcard or through any chain of roles. */
  lemma EveryGrantFits(p: Policy, input: Input, name: string)
    requires p.vocabulary.Some? && ValidKeys(p)
    requires Holds(p, input, name) && SplitGroup(name).Some?
    ensures Fits(p.vocabulary.value, SplitGroup(name).value) == None
  {
    var v := p.vocabulary.value;
    var fitting := iset n | SplitGroup(n).Some? ==> Fits(v, SplitGroup(n).value) == None;
    forall n | Seed(p, input, n)
      ensures n in fitting
    {
      var key :| Matched(p, input, key) && n in GroupKeyTargets(p.vocabulary, key);
      if SplitGroup(n).Some? {
        TargetsFit(v, key, n);
      }
    }
    forall n, i | n in fitting && i in ImpliedNames(p.vocabulary, n)
      ensures i in fitting
    {
      ImpliedOnSameThing(p.vocabulary, n, i);
      if SplitGroup(i).Some? {
        ImpliedFits(v, n, i);
      }
    }
    HeldIsLeast(p, input, fitting, name);
  }

  // ----- Sensitive scopes

  /** A key that stands for a grant in a sensitive scope names it outright. */
  lemma SensitiveTargetIsItsKey(v: Vocabulary, key: string, target: string)
    requires target in GroupKeyTargets(Some(v), key)
    requires SplitGroup(target).Some? && Sensitive(v, SplitGroup(target).value.scope)
    ensures key == target && !IsWildcard(SplitGroup(target).value)
  {
    if SplitGroup(key).Some? && IsWildcard(SplitGroup(key).value) {
      var w := SplitGroup(key).value;
      var t, s :| t in ThingsOf(v, w) && HasRole(v, t, w.role) && s in ScopesOf(v, w, t) && !Sensitive(v, s)
        && target == Name(Grant(s, t, w.role));
      SplitName(Grant(s, t, w.role));
    }
  }

  /** A held grant in a sensitive scope always traces back to a matched concrete key on the same scope
      and thing whose role reaches it by implies. */
  lemma SensitiveGrantsAreNamed(p: Policy, input: Input, name: string) returns (key: string)
    requires p.vocabulary.Some? && Holds(p, input, name) && SplitGroup(name).Some?
    requires Sensitive(p.vocabulary.value, SplitGroup(name).value.scope)
    ensures Matched(p, input, key) && Reaches(p.vocabulary, key, name)
    ensures SplitGroup(key).Some? && !IsWildcard(SplitGroup(key).value)
    ensures SplitGroup(key).value.scope == SplitGroup(name).value.scope
    ensures SplitGroup(key).value.thing == SplitGroup(name).value.thing
  {
    var seed :| Seed(p, input, seed) && Reaches(p.vocabulary, seed, name);
    var chain :| IsChain(p.vocabulary, chain) && chain[0] == seed && chain[|chain| - 1] == name;
    ChainOnSameThing(p.vocabulary, chain, 0);
    key :| Matched(p, input, key) && seed in GroupKeyTargets(p.vocabulary, key);
    SensitiveTargetIsItsKey(p.vocabulary.value, key, seed);
  }

  /** No wildcard, directly or through inheritance, ever produces one. */
  lemma WildcardsNeverReachSensitive(p: Policy, key: string, target: string, name: string)
    requires p.vocabulary.Some? && SplitGroup(key).Some? && IsWildcard(SplitGroup(key).value)
    requires target in GroupKeyTargets(p.vocabulary, key) && Reaches(p.vocabulary, target, name) && SplitGroup(name).Some?
    ensures !Sensitive(p.vocabulary.value, SplitGroup(name).value.scope)
  {
    var chain :| IsChain(p.vocabulary, chain) && chain[0] == target && chain[|chain| - 1] == name;
    ChainOnSameThing(p.vocabulary, chain, 0);
    if Sensitive(p.vocabulary.value, SplitGroup(name).value.scope) {
      SensitiveTargetIsItsKey(p.vocabulary.value, key, target);
    }
  }

  // ----- Monotonicity

  /** The second proof says everything the first does. */
  ghost predicate InputGrows(a: Input, b: Input) {
    && (a.authoritative ==> b.authoritative)
    && (forall g :: g in a.directoryGroups ==> g in b.directoryGroups)
    && a.proves <= b.proves
  }

  /** The second policy has every group of the first, with at least its members and matchers. */
  ghost predicate GroupsGrow(a: Policy, b: Policy) {
    && a.vocabulary == b.vocabulary
    && forall n :: n in a.groups ==>
         && n in b.groups
         && (forall m :: m in a.groups[n].members ==> m in b.groups[n].members)
         && (forall m :: m in a.groups[n].matchers ==> m in b.groups[n].matchers)
  }

  lemma MatchedGrows(p: Policy, q: Policy, a: Input, b: Input, key: string)
    requires GroupsGrow(p, q) && InputGrows(a, b) && Matched(p, a, key)
    ensures Matched(q, b, key)
  {
    MatchedMeans(p, a, key);
    MatchedMeans(q, b, key);
    assert forall g :: g in Confirmed(a) ==> g in Confirmed(b);
  }

  /** Evaluation is monotone in members, matchers, directory groups, satisfied rules and authority. */
  lemma EvaluationIsMonotone(p: Policy, q: Policy, a: Input, b: Input, name: string)
    requires GroupsGrow(p, q) && InputGrows(a, b) && Holds(p, a, name)
    ensures Holds(q, b, name)
  {
    var seed :| Seed(p, a, seed) && Reaches(p.vocabulary, seed, name);
    var key :| Matched(p, a, key) && seed in GroupKeyTargets(p.vocabulary, key);
    MatchedGrows(p, q, a, b, key);
    assert Seed(q, b, seed);
  }
}
