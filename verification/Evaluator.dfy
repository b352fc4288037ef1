/** Evaluation as it runs: a table of reasons seeded from the groups table, then a worklist. */
module Evaluator {
  import opened Wrappers
  import opened Text
  import opened Grants
  import opened Ladders
  import opened Vocabularies
  import opened Fragments
  import opened Policies
  import opened Evaluation
  import opened HeldClaims
  import opened Entitlements

  type HeldTable = map<string, seq<Held>>

  /** Go's `held[name]`: the reasons so far, none for an absent name. */
  function Get(held: HeldTable, name: string): seq<Held> {
    if name in held then held[name] else []
  }

  function Add(held: HeldTable, reason: Held): HeldTable {
    held[reason.group := Get(held, reason.group) + [reason]]
  }

  /** The frontier lists the table's names, each once, and every name has a reason. */
  ghost predicate Indexed(held: HeldTable, frontier: seq<string>) {
    && NoRepeats(frontier)
    && (forall n :: n in held <==> n in frontier)
    && (forall n :: n in held ==> held[n] != [])
  }

  lemma AddIndexes(held: HeldTable, frontier: seq<string>, reason: Held)
    requires Indexed(held, frontier)
    ensures Indexed(Add(held, reason), if reason.group in held then frontier else frontier + [reason.group])
  {
  }

  // ----- The seed

  function OneReason(targets: seq<string>, key: string, via: seq<string>, name: string): seq<Held> {
    if name in targets then [Held(name, Direct(key, via))] else []
  }

  /** `now` has every reason `held` has, and one more for each of the targets. */
  ghost predicate Extended(held: HeldTable, now: HeldTable, targets: seq<string>, key: string, via: seq<string>) {
    forall n :: Get(now, n) == Get(held, n) + OneReason(targets, key, via, n)
  }

  lemma ExtendOne(held: HeldTable, now: HeldTable, targets: seq<string>, key: string, via: seq<string>, target: string)
    requires Extended(held, now, targets, key, via) && target !in targets
    ensures Extended(held, Add(now, Held(target, Direct(key, via))), targets + [target], key, via)
  {
    var next := Add(now, Held(target, Direct(key, via)));
    forall n
      ensures Get(next, n) == Get(held, n) + OneReason(targets + [target], key, via, n)
    {
      if n == target {
        assert Get(now, n) == Get(held, n);
      } else {
        assert n in targets + [target] <==> n in targets;
      }
    }
  }

  /** One matched key: a reason for each name it stands for. */
  method AddTargets(held: HeldTable, frontier: seq<string>, targets: seq<string>, key: string, via: seq<string>)
      returns (now: HeldTable, frontier': seq<string>)
    requires Indexed(held, frontier) && NoRepeats(targets)
    ensures Indexed(now, frontier') && Extended(held, now, targets, key, via)
  {
    now, frontier' := held, frontier;
    for i := 0 to |targets|
      invariant Indexed(now, frontier') && Extended(held, now, targets[..i], key, via)
    {
      var concrete := targets[i];
      assert targets[..i + 1] == targets[..i] + [concrete] && concrete !in targets[..i];
      var reason := Held(concrete, Direct(key, via));
      AddIndexes(now, frontier', reason);
      ExtendOne(held, now, targets[..i], key, via, concrete);
      if concrete !in now {
        frontier' := frontier' + [concrete];
      }
      now := Add(now, reason);
    }
    assert targets[..|targets|] == targets;
  }

  ghost predicate HasDirect(p: Policy, input: Input, keys: seq<string>, held: HeldTable) {
    && (forall k :: k in keys ==> k in p.groups)
    && (forall n :: Get(held, n) == DirectReasons(p, input, keys, n))
  }

  lemma MatchedKey(p: Policy, input: Input, keys: seq<string>, key: string, held: HeldTable, now: HeldTable)
    requires HasDirect(p, input, keys, held) && Matched(p, input, key)
    requires Extended(held, now, GroupKeyTargets(p.vocabulary, key), key, Via(p, input, key))
    ensures HasDirect(p, input, keys + [key], now)
  {
    assert (keys + [key])[..|keys|] == keys;
  }

  lemma UnmatchedKey(p: Policy, input: Input, keys: seq<string>, key: string, held: HeldTable)
    requires HasDirect(p, input, keys, held) && key in p.groups && !Matched(p, input, key)
    ensures HasDirect(p, input, keys + [key], held)
  {
    assert (keys + [key])[..|keys|] == keys;
  }

  lemma Prefix(keys: seq<string>, i: nat)
    requires i < |keys|
    ensures keys[i] in keys && keys[..i + 1] == keys[..i] + [keys[i]]
  {
  }

  /** The seed: the table of direct reasons, and a frontier of the names that have one. */
  method SeedHeld(p: Policy, input: Input) returns (held: HeldTable, frontier: seq<string>)
    ensures Indexed(held, frontier) && HasDirect(p, input, Sorted(p.groups.Keys), held)
  {
    held, frontier := map[], [];
    var keys := Sorted(p.groups.Keys);
    for i := 0 to |keys|
      invariant Indexed(held, frontier) && HasDirect(p, input, keys[..i], held)
    {
      Prefix(keys, i);
      var key := keys[i];
      var via := Via(p, input, key);
      if via != [] {
        var targets := GroupKeyTargets(p.vocabulary, key);
        TargetsAreSorted(p.vocabulary, key);
        var now, frontier' := AddTargets(held, frontier, targets, key, via);
        MatchedKey(p, input, keys[..i], key, held, now);
        held, frontier := now, frontier';
      } else {
        UnmatchedKey(p, input, keys[..i], key, held);
      }
    }
    assert keys[..|keys|] == keys;
  }

  /** A name has a direct reason exactly when some matched key stands for it. */
  lemma {:induction false} DirectMeans(p: Policy, input: Input, keys: seq<string>, name: string)
    requires forall k :: k in keys ==> k in p.groups
    ensures DirectReasons(p, input, keys, name) != [] <==>
      exists k :: k in keys && Matched(p, input, k) && name in GroupKeyTargets(p.vocabulary, k)
  {
    if keys != [] {
      var n := |keys| - 1;
      assert keys == keys[..n] + [keys[n]];
      DirectMeans(p, input, keys[..n], name);
    }
  }

  // ----- The worklist

  /** `now` has every reason `held` has, and one more from this parent for each time it lists a name. */
  ghost predicate InheritsFrom(held: HeldTable, now: HeldTable, implied: seq<string>, parent: string) {
    forall n :: Get(now, n) == Get(held, n) + Copies(multiset(implied)[n], Held(n, Inherited(parent)))
  }

  lemma AddGets(now: HeldTable, reason: Held, n: string)
    ensures Get(Add(now, reason), n) == if n == reason.group then Get(now, n) + [reason] else Get(now, n)
  {
  }

  lemma OneMoreCopy(implied: seq<string>, next: string, n: string, reason: Held)
    ensures Copies(multiset(implied + [next])[n], reason)
      == if n == next then Copies(multiset(implied)[n], reason) + [reason] else Copies(multiset(implied)[n], reason)
  {
    assert multiset(implied + [next])[n] == multiset(implied)[n] + if n == next then 1 else 0;
  }

  lemma InheritOne(held: HeldTable, now: HeldTable, implied: seq<string>, parent: string, next: string)
    requires InheritsFrom(held, now, implied, parent)
    ensures InheritsFrom(held, Add(now, Held(next, Inherited(parent))), implied + [next], parent)
  {
    forall n
      ensures Get(Add(now, Held(next, Inherited(parent))), n)
        == Get(held, n) + Copies(multiset(implied + [next])[n], Held(n, Inherited(parent)))
    {
      InheritAt(Get(held, n), now, implied, parent, next, n);
    }
  }

  lemma InheritAt(before: seq<Held>, now: HeldTable, implied: seq<string>, parent: string, next: string, n: string)
    requires Get(now, n) == before + Copies(multiset(implied)[n], Held(n, Inherited(parent)))
    ensures Get(Add(now, Held(next, Inherited(parent))), n)
      == before + Copies(multiset(implied + [next])[n], Held(n, Inherited(parent)))
  {
    AddGets(now, Held(next, Inherited(parent)), n);
    OneMoreCopy(implied, next, n, Held(n, Inherited(parent)));
  }

  /** Part of the way through one name's implied roles: `names` is everything worked off or queued. */
  ghost predicate Spreading(held: HeldTable, now: HeldTable, names: seq<string>, implied: seq<string>, parent: string) {
    && Indexed(now, names) && InheritsFrom(held, now, implied, parent)
    && forall n :: n in now <==> n in held || n in implied
  }

  lemma SpreadOne(held: HeldTable, now: HeldTable, names: seq<string>, implied: seq<string>, parent: string, next: string)
    requires Spreading(held, now, names, implied, parent)
    ensures Spreading(held, Add(now, Held(next, Inherited(parent))), if next in now then names else names + [next],
                      implied + [next], parent)
  {
    AddIndexes(now, names, Held(next, Inherited(parent)));
    InheritOne(held, now, implied, parent, next);
  }

  lemma NothingSpread(held: HeldTable, names: seq<string>, parent: string)
    requires Indexed(held, names)
    ensures Spreading(held, held, names, [], parent)
  {
  }

  lemma QueueTail(done: seq<string>, queue: seq<string>, next: string)
    ensures done + queue + [next] == done + (queue + [next])
  {
  }

  /** The body of the worklist loop: a reason for every implied role, and the new names queued. */
  method Spread(held: HeldTable, ghost done: seq<string>, rest: seq<string>, parent: string, implied: seq<string>)
      returns (now: HeldTable, queue: seq<string>)
    requires Indexed(held, done + rest)
    ensures Indexed(now, done + queue) && InheritsFrom(held, now, implied, parent)
    ensures forall n :: n in now <==> n in held || n in implied
  {
    now, queue := held, rest;
    NothingSpread(held, done + rest, parent);
    assert implied[..0] == [];
    for i := 0 to |implied|
      invariant Spreading(held, now, done + queue, implied[..i], parent)
    {
      var next := implied[i];
      SpreadOne(held, now, done + queue, implied[..i], parent, next);
      QueueTail(done, queue, next);
      Prefix(implied, i);
      if next !in now {
        queue := queue + [next];
      }
      now := Add(now, Held(next, Inherited(parent)));
    }
    assert implied[..|implied|] == implied;
  }

  ghost predicate ReasonsExact(p: Policy, input: Input, held: HeldTable, order: seq<string>) {
    forall n :: Get(held, n) == Reasons(p, input, order, n)
  }

  ghost predicate AllHeld(p: Policy, input: Input, held: HeldTable) {
    forall n :: n in held ==> Holds(p, input, n)
  }

  ghost predicate WorkedOff(p: Policy, held: HeldTable, order: seq<string>) {
    forall n, i :: n in order && i in ImpliedNames(p.vocabulary, n) ==> i in held
  }

  /** The worklist half way: `order` has been worked off, every name has exactly the reasons the keys
      and the names worked off give it, and nothing is in the table that is not held. */
  ghost predicate Working(p: Policy, input: Input, held: HeldTable, order: seq<string>, queue: seq<string>) {
    Indexed(held, order + queue) && ReasonsExact(p, input, held, order) && AllHeld(p, input, held) && WorkedOff(p, held, order)
  }

  lemma WorkStarts(p: Policy, input: Input, held: HeldTable, frontier: seq<string>)
    requires Indexed(held, frontier) && HasDirect(p, input, Sorted(p.groups.Keys), held)
    ensures Working(p, input, held, [], frontier)
  {
    assert [] + frontier == frontier;
    forall n
      ensures Get(held, n) == Reasons(p, input, [], n)
      ensures n in held ==> Holds(p, input, n)
    {
      DirectMeans(p, input, Sorted(p.groups.Keys), n);
      if n in held {
        SeedsAreHeld(p, input, n);
      }
    }
  }

  lemma SeedsAreHeld(p: Policy, input: Input, n: string)
    requires Seed(p, input, n)
    ensures Holds(p, input, n)
  {
    ReachesSelf(p.vocabulary, n);
  }

  lemma ReasonsGoOn(p: Policy, input: Input, held: HeldTable, order: seq<string>, g: string, now: HeldTable)
    requires ReasonsExact(p, input, held, order)
    requires InheritsFrom(held, now, ImpliedNames(p.vocabulary, g), g)
    ensures ReasonsExact(p, input, now, order + [g])
  {
    forall n
      ensures Get(now, n) == Reasons(p, input, order + [g], n)
    {
      assert Get(held, n) == Reasons(p, input, order, n);
      ReasonsFromOneMore(p, input, order, g, n);
    }
  }

  lemma ReasonsFromOneMore(p: Policy, input: Input, order: seq<string>, g: string, n: string)
    ensures Reasons(p, input, order + [g], n)
      == Reasons(p, input, order, n) + Copies(multiset(ImpliedNames(p.vocabulary, g))[n], Held(n, Inherited(g)))
  {
    assert (order + [g])[..|order|] == order;
    var before, more := InheritedReasons(p.vocabulary, order, n),
      Copies(multiset(ImpliedNames(p.vocabulary, g))[n], Held(n, Inherited(g)));
    assert InheritedReasons(p.vocabulary, order + [g], n) == before + more;
    var direct := DirectReasons(p, input, Sorted(p.groups.Keys), n);
    assert direct + (before + more) == (direct + before) + more;
  }

  lemma HeldGoesOn(p: Policy, input: Input, held: HeldTable, g: string, now: HeldTable)
    requires AllHeld(p, input, held) && g in held
    requires forall n :: n in now <==> n in held || n in ImpliedNames(p.vocabulary, g)
    ensures AllHeld(p, input, now)
  {
    forall n | n in now && n !in held
      ensures Holds(p, input, n)
    {
      HoldsNext(p, input, g, n);
    }
  }

  lemma WorkGoesOn(p: Policy, input: Input, held: HeldTable, order: seq<string>, queue: seq<string>,
                   now: HeldTable, queue': seq<string>)
    requires queue != [] && Working(p, input, held, order, queue)
    requires Indexed(now, order + [queue[0]] + queue')
    requires InheritsFrom(held, now, ImpliedNames(p.vocabulary, queue[0]), queue[0])
    requires forall n :: n in now <==> n in held || n in ImpliedNames(p.vocabulary, queue[0])
    ensures Working(p, input, now, order + [queue[0]], queue')
    ensures queue[0] in held && queue[0] !in order
  {
    var g := queue[0];
    assert (order + queue)[|order|] == g && g in order + queue;
    ReasonsGoOn(p, input, held, order, g, now);
    HeldGoesOn(p, input, held, g, now);
    assert forall n :: n in order ==> (order + queue)[IndexOf(order, n)] == n;
  }

  ghost function IndexOf(names: seq<string>, name: string): (i: nat)
    requires name in names
    ensures i < |names| && names[i] == name
  {
    var i :| 0 <= i < |names| && names[i] == name;
    i
  }

  /** When the queue is empty the table is exactly what is held. */
  lemma WorkEnds(p: Policy, input: Input, held: HeldTable, order: seq<string>)
    requires Working(p, input, held, order, [])
    ensures forall n :: n in held <==> Holds(p, input, n)
  {
    assert order + [] == order;
    var names := iset n | n in held;
    SeedsAreIn(p, input, held, order, names);
    forall n | Holds(p, input, n)
      ensures n in held
    {
      HeldIsLeast(p, input, names, n);
    }
  }

  lemma SeedsAreIn(p: Policy, input: Input, held: HeldTable, order: seq<string>, names: iset<string>)
    requires ReasonsExact(p, input, held, order) && forall n :: n in names <==> n in held
    ensures ContainsSeeds(p, input, names)
  {
    forall n | Seed(p, input, n)
      ensures n in names
    {
      SeedIsIn(p, input, held, order, n);
    }
  }

  lemma SeedIsIn(p: Policy, input: Input, held: HeldTable, order: seq<string>, n: string)
    requires ReasonsExact(p, input, held, order) && Seed(p, input, n)
    ensures n in held
  {
    DirectMeans(p, input, Sorted(p.groups.Keys), n);
    assert Get(held, n) == Reasons(p, input, order, n);
  }

  /** Every name the worklist can ever meet: the frontier's, and on the scope and thing of each of
      them every role its ladder mentions. */
  ghost function Meetable(vocabulary: Option<Vocabulary>, frontier: seq<string>): set<string> {
    (set n | n in frontier)
    + if vocabulary.None? then {} else
        set n, r | n in frontier && r in LadderNames(vocabulary.value, n) :: OnSameThing(n, r)
  }

  ghost function LadderNames(v: Vocabulary, name: string): set<string> {
    if SplitGroup(name).None? || SplitGroup(name).value.thing !in v.things then {}
    else Universe(v.things[SplitGroup(name).value.thing].roles)
  }

  ghost function OnSameThing(name: string, role: string): string {
    if SplitGroup(name).None? then name
    else Name(SplitGroup(name).value.(role := role))
  }

  lemma MeetableIsClosed(vocabulary: Option<Vocabulary>, frontier: seq<string>, name: string, next: string)
    requires name in Meetable(vocabulary, frontier) && next in ImpliedNames(vocabulary, name)
    ensures next in Meetable(vocabulary, frontier)
  {
    var v, g := vocabulary.value, SplitGroup(name).value;
    var roles := v.things[g.thing].roles;
    var i :| 0 <= i < |Implied(roles, g.role)| && next == Name(Grant(g.scope, g.thing, Implied(roles, g.role)[i]));
    var role := Implied(roles, g.role)[i];
    ImpliedInUniverse(roles, g.role, role);
    var origin := name;
    if name !in frontier {
      var n, r :| n in frontier && r in LadderNames(v, n) && name == OnSameThing(n, r);
      SplitName(SplitGroup(n).value.(role := r));
      origin := n;
    }
    assert role in LadderNames(v, origin) && next == OnSameThing(origin, role);
  }

  lemma StaysMeetable(vocabulary: Option<Vocabulary>, frontier: seq<string>, held: HeldTable, g: string, now: HeldTable)
    requires g in held && held.Keys <= Meetable(vocabulary, frontier)
    requires forall n :: n in now <==> n in held || n in ImpliedNames(vocabulary, g)
    ensures now.Keys <= Meetable(vocabulary, frontier)
  {
    forall n | n in now && n !in held
      ensures n in Meetable(vocabulary, frontier)
    {
      MeetableIsClosed(vocabulary, frontier, g, n);
    }
  }

  ghost function Left(universe: set<string>, order: seq<string>): set<string> {
    universe - set n | n in order
  }

  lemma OneFewerLeft(universe: set<string>, order: seq<string>, g: string)
    requires g in universe && g !in order
    ensures Left(universe, order + [g]) < Left(universe, order)
  {
    assert g in Left(universe, order) && g in order + [g];
  }

  lemma QueueHead(order: seq<string>, queue: seq<string>)
    requires queue != []
    ensures order + queue == order + [queue[0]] + queue[1..]
  {
  }

  /** The worklist: terminates on any vocabulary, cyclic ladders included, and leaves each held name
      worked off once. */
  method Inherit(p: Policy, input: Input, seeded: HeldTable, frontier: seq<string>)
      returns (held: HeldTable, ghost order: seq<string>)
    requires Indexed(seeded, frontier) && HasDirect(p, input, Sorted(p.groups.Keys), seeded)
    ensures Working(p, input, held, order, [])
  {
    held, order := seeded, [];
    var queue := frontier;
    ghost var universe := Meetable(p.vocabulary, frontier);
    WorkStarts(p, input, held, frontier);
    while queue != []
      invariant Working(p, input, held, order, queue) && held.Keys <= universe
      decreases Left(universe, order)
    {
      var g := queue[0];
      QueueHead(order, queue);
      var now, queue' := Spread(held, order + [g], queue[1..], g, ImpliedNames(p.vocabulary, g));
      WorkGoesOn(p, input, held, order, queue, now, queue');
      StaysMeetable(p.vocabulary, frontier, held, g, now);
      OneFewerLeft(universe, order, g);
      held, queue, order := now, queue', order + [g];
    }
  }

  // ----- The result

  datatype Result = Result(groups: seq<string>, held: seq<Held>, claims: Fragment, lifetime: int)

  /** Durations are refused at zero or below while they are parsed. */
  predicate LifetimesPositive(p: Policy) {
    forall name :: name in p.lifetimes ==> p.lifetimes[name] > 0
  }

  const LIFETIME_DEFAULT := "default"

  function Declared(p: Policy, groups: seq<string>): set<string> {
    set g | g in groups && g in p.lifetimes
  }

  predicate IsLeastOf(p: Policy, declared: set<string>, lifetime: int)
    requires declared <= p.lifetimes.Keys
  {
    && (exists g :: g in declared && lifetime == p.lifetimes[g])
    && (forall g :: g in declared ==> lifetime <= p.lifetimes[g])
  }

  /** The shortest declared lifetime among the groups, or the default when none declares one. */
  predicate IsShortest(p: Policy, groups: seq<string>, lifetime: int) {
    if Declared(p, groups) != {} then IsLeastOf(p, Declared(p, groups), lifetime)
    else lifetime == (if LIFETIME_DEFAULT in p.lifetimes then p.lifetimes[LIFETIME_DEFAULT] else 0)
  }

  method LifetimeOf(p: Policy, groups: seq<string>) returns (shortest: int)
    ensures LifetimesPositive(p) ==> IsShortest(p, groups, shortest)
  {
    shortest := 0;
    for i := 0 to |groups|
      invariant LifetimesPositive(p) ==> (shortest == 0 <==> Declared(p, groups[..i]) == {})
      invariant LifetimesPositive(p) && shortest != 0 ==> IsLeastOf(p, Declared(p, groups[..i]), shortest)
    {
      assert groups[..i + 1] == groups[..i] + [groups[i]];
      if groups[i] in p.lifetimes {
        assert Declared(p, groups[..i + 1]) == Declared(p, groups[..i]) + {groups[i]};
        var d := p.lifetimes[groups[i]];
        if shortest == 0 || d < shortest {
          shortest := d;
        }
      } else {
        assert Declared(p, groups[..i + 1]) == Declared(p, groups[..i]);
      }
    }
    assert groups[..|groups|] == groups;
    if shortest == 0 && LIFETIME_DEFAULT in p.lifetimes {
      shortest := p.lifetimes[LIFETIME_DEFAULT];
    }
  }

  lemma {:induction false} NothingInherited(order: seq<string>, name: string)
    ensures InheritedReasons(None, order, name) == []
  {
    if order != [] {
      NothingInherited(order[..|order| - 1], name);
    }
  }

  /** With no vocabulary nothing is implied, so the frontier needs no working off. */
  lemma NoVocabulary(p: Policy, input: Input, held: HeldTable, frontier: seq<string>)
    requires p.vocabulary.None? && Indexed(held, frontier) && HasDirect(p, input, Sorted(p.groups.Keys), held)
    ensures Working(p, input, held, frontier, [])
  {
    WorkStarts(p, input, held, frontier);
    assert frontier + [] == frontier;
    forall n
      ensures Get(held, n) == Reasons(p, input, frontier, n)
    {
      NothingInherited(frontier, n);
    }
  }

  lemma FoldNext(claims: map<string, Fragment>, groups: seq<string>, i: nat)
    requires i < |groups|
    ensures FoldClaims(FragmentsHeld(claims, groups[..i + 1])).into
      == var before := FoldClaims(FragmentsHeld(claims, groups[..i])).into;
         if groups[i] in claims then MergeFragment(before, claims[groups[i]]).into else before
  {
    assert groups[..i + 1][..i] == groups[..i];
    var held := FragmentsHeld(claims, groups[..i]);
    if groups[i] in claims {
      assert (held + [claims[groups[i]]])[..|held|] == held;
    }
  }

  /** Seeding and, under a vocabulary, inheritance. */
  method HoldAll(p: Policy, input: Input) returns (held: HeldTable, ghost order: seq<string>)
    ensures forall n :: n in held <==> Holds(p, input, n)
    ensures Indexed(held, order) && ReasonsExact(p, input, held, order)
  {
    var frontier;
    held, frontier := SeedHeld(p, input);
    if p.vocabulary.Some? {
      held, order := Inherit(p, input, held, frontier);
    } else {
      order := frontier;
      NoVocabulary(p, input, held, frontier);
    }
    WorkEnds(p, input, held, order);
    assert order + [] == order;
  }

  /** The last loop: the reasons and the fragments of each group, in order. */
  method Collect(p: Policy, held: HeldTable, groups: seq<string>, ghost input: Input, ghost order: seq<string>)
      returns (reasons: seq<Held>, claims: Fragment)
    requires ReasonsExact(p, input, held, order) && forall n :: n in groups ==> n in held
    ensures reasons == Listed(p, input, order, groups)
    ensures claims == FoldClaims(FragmentsHeld(p.claims, groups)).into
  {
    reasons, claims := [], map[];
    for i := 0 to |groups|
      invariant reasons == Listed(p, input, order, groups[..i])
      invariant claims == FoldClaims(FragmentsHeld(p.claims, groups[..i])).into
    {
      Prefix(groups, i);
      assert groups[..i + 1][..i] == groups[..i];
      assert Get(held, groups[i]) == Reasons(p, input, order, groups[i]);
      reasons := reasons + held[groups[i]];
      FoldNext(p.claims, groups, i);
      if groups[i] in p.claims {
        claims := MergeFragment(claims, p.claims[groups[i]]).into;
      }
    }
    assert groups[..|groups|] == groups;
  }

  /** On accepted claims, no fragment of a held group is abandoned, and the result's claims read as all of
      them together, with the names of the groups. */
  ghost predicate ClaimsAsAccepted(claims: map<string, Fragment>, groups: seq<string>, out: Fragment) {
    Accepted(claims) ==>
      && FoldClaims(FragmentsHeld(claims, groups)).ok
      && ViewOf(Table(out)) == WithNames(Together(claims, groups), groups)
  }

  lemma ClaimsOfAccepted(claims: map<string, Fragment>, groups: seq<string>)
    ensures ClaimsAsAccepted(claims, groups, ClaimsOf(claims, groups))
  {
    if Accepted(claims) {
      HeldNeverConflict(claims, groups);
      ClaimsRead(claims, groups);
    }
  }

  /** The whole evaluation. The groups are exactly the ones held, sorted; the reasons are, group by
      group, exactly what the matched keys and the held parents give, each parent worked off once; and the
      claims are the held fragments' and the names. */
  method Evaluate(p: Policy, input: Input) returns (out: Result, ghost order: seq<string>)
    ensures StrictlySorted(out.groups) && forall n :: n in out.groups <==> Holds(p, input, n)
    ensures NoRepeats(order) && forall n :: n in order <==> n in out.groups
    ensures Entitled(p, input, iset n | n in out.groups)
    ensures out.held == Listed(p, input, order, out.groups) && Explained(p, input, out.groups, out.held)
    ensures out.claims == ClaimsOf(p.claims, out.groups) && ClaimsAsAccepted(p.claims, out.groups, out.claims)
    ensures LifetimesPositive(p) ==> IsShortest(p, out.groups, out.lifetime)
  {
    var held;
    held, order := HoldAll(p, input);
    var groups := Sorted(held.Keys);
    var reasons, claims := Collect(p, held, groups, input, order);
    var lifetime := LifetimeOf(p, groups);
    ClaimsOfAccepted(p.claims, groups);
    ResultIsEntitled(p, input, order, groups);
    out := Result(groups, reasons, WithGroups(claims, groups), lifetime);
  }
}
