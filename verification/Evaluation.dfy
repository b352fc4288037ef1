/** Resolving a verified proof into groups: what the tables say about it. */
module Evaluation {
  import opened Wrappers
  import opened Text
  import opened Grants
  import opened Ladders
  import opened Vocabularies
  import opened Policies

  /** One verified proof: what the hub reports for the account, and which matchers it satisfies. */
  datatype Input = Input(directoryGroups: seq<string>, authoritative: bool, proves: set<Matcher>)

  /** Every combination of the three: more than any one identity can prove. */
  predicate AnyProof(input: Input) {
    true
  }

  datatype Reason = Direct(key: string, via: seq<string>) | Inherited(parent: string)

  /** One internal group and one reason it is held. */
  datatype Held = Held(group: string, reason: Reason)

  function LowerChar(c: char): char {
    if 'A' <= c <= 'Z' then (c as int + 32) as char else c
  }

  /** `strings.ToLower`, for ASCII. */
  function Lower(s: string): string {
    seq(|s|, i requires 0 <= i < |s| => LowerChar(s[i]))
  }

  function Confirmed(input: Input): set<string> {
    set g | g in input.directoryGroups :: Lower(g)
  }

  function ConfirmedMembers(members: seq<string>, confirmed: set<string>): seq<string> {
    if members == [] then []
    else
      var before, last := ConfirmedMembers(members[..|members| - 1], confirmed), members[|members| - 1];
      if Lower(last) in confirmed then before + [last] else before
  }

  function ProvedRules(matchers: seq<Matcher>, proves: set<Matcher>): seq<string> {
    if matchers == [] then []
    else
      var before, last := ProvedRules(matchers[..|matchers| - 1], proves), matchers[|matchers| - 1];
      if last in proves then before + [last.rule] else before
  }

  /** What puts the caller in a groups key: the directory groups confirmed, when the hub's answer may
      be acted on, and the matchers satisfied. */
  function Via(p: Policy, input: Input, name: string): seq<string>
    requires name in p.groups
  {
    (if input.authoritative then ConfirmedMembers(p.groups[name].members, Confirmed(input)) else [])
    + ProvedRules(p.groups[name].matchers, input.proves)
  }

  /** The key matched. */
  predicate Matched(p: Policy, input: Input, name: string) {
    name in p.groups && Via(p, input, name) != []
  }

  /** Matching is exactly one confirmed member with authority, or one satisfied matcher. */
  lemma MatchedMeans(p: Policy, input: Input, name: string)
    requires name in p.groups
    ensures Matched(p, input, name) <==>
      || (input.authoritative && exists m :: m in p.groups[name].members && Lower(m) in Confirmed(input))
      || (exists m :: m in p.groups[name].matchers && m in input.proves)
  {
    ConfirmedMeans(p.groups[name].members, Confirmed(input));
    ProvedMeans(p.groups[name].matchers, input.proves);
  }

  lemma {:induction false} ConfirmedMeans(members: seq<string>, confirmed: set<string>)
    ensures ConfirmedMembers(members, confirmed) != [] <==> exists m :: m in members && Lower(m) in confirmed
  {
    if members != [] {
      ConfirmedMeans(members[..|members| - 1], confirmed);
      assert members == members[..|members| - 1] + [members[|members| - 1]];
    }
  }

  lemma {:induction false} ProvedMeans(matchers: seq<Matcher>, proves: set<Matcher>)
    ensures ProvedRules(matchers, proves) != [] <==> exists m :: m in matchers && m in proves
  {
    if matchers != [] {
      ProvedMeans(matchers[..|matchers| - 1], proves);
      assert matchers == matchers[..|matchers| - 1] + [matchers[|matchers| - 1]];
    }
  }

  // ----- The groups held

  /** The names one held name implies directly: its role's, on the same scope and thing. */
  function ImpliedNames(vocabulary: Option<Vocabulary>, name: string): seq<string> {
    if vocabulary.None? || SplitGroup(name).None? then []
    else
      var g := SplitGroup(name).value;
      if g.thing !in vocabulary.value.things then []
      else
        var roles := Implied(vocabulary.value.things[g.thing].roles, g.role);
        seq(|roles|, i requires 0 <= i < |roles| => Name(Grant(g.scope, g.thing, roles[i])))
  }

  /** A name some matched key stands for. */
  ghost predicate Seed(p: Policy, input: Input, name: string) {
    exists key :: Matched(p, input, key) && name in GroupKeyTargets(p.vocabulary, key)
  }

  /** Each name of a chain implies the next. */
  ghost predicate IsChain(vocabulary: Option<Vocabulary>, chain: seq<string>) {
    |chain| > 0 && forall i, j :: 0 <= i < |chain| && j == i + 1 && j < |chain| ==> chain[j] in ImpliedNames(vocabulary, chain[i])
  }

  ghost predicate Reaches(vocabulary: Option<Vocabulary>, from: string, to: string) {
    exists chain :: IsChain(vocabulary, chain) && chain[0] == from && chain[|chain| - 1] == to
  }

  /** The specification of evaluation: a name is held when a chain of implied roles leads to it from a
      name that a matched key stands for. */
  ghost predicate Holds(p: Policy, input: Input, name: string) {
    exists seed :: Seed(p, input, seed) && Reaches(p.vocabulary, seed, name)
  }

  lemma ReachesSelf(vocabulary: Option<Vocabulary>, name: string)
    ensures Reaches(vocabulary, name, name)
  {
    assert IsChain(vocabulary, [name]);
  }

  lemma ReachesNext(vocabulary: Option<Vocabulary>, from: string, to: string, next: string)
    requires Reaches(vocabulary, from, to) && next in ImpliedNames(vocabulary, to)
    ensures Reaches(vocabulary, from, next)
  {
    var chain :| IsChain(vocabulary, chain) && chain[0] == from && chain[|chain| - 1] == to;
    ChainGrows(vocabulary, chain, next);
  }

  lemma ChainGrows(vocabulary: Option<Vocabulary>, chain: seq<string>, next: string)
    requires IsChain(vocabulary, chain) && next in ImpliedNames(vocabulary, chain[|chain| - 1])
    ensures IsChain(vocabulary, chain + [next])
  {
    var longer := chain + [next];
    forall i, j | 0 <= i < |longer| && j == i + 1 && j < |longer|
      ensures longer[j] in ImpliedNames(vocabulary, longer[i])
    {
      assert longer[i] == chain[i];
      assert j < |chain| ==> longer[j] == chain[j];
    }
  }

  ghost predicate ClosedUnderImplies(vocabulary: Option<Vocabulary>, names: iset<string>) {
    forall n, i :: n in names && i in ImpliedNames(vocabulary, n) ==> i in names
  }

  lemma {:induction false} ChainStaysIn(vocabulary: Option<Vocabulary>, names: iset<string>, chain: seq<string>, i: nat)
    requires ClosedUnderImplies(vocabulary, names) && IsChain(vocabulary, chain) && chain[0] in names && i < |chain|
    ensures chain[i] in names
  {
    if i > 0 {
      ChainStaysIn(vocabulary, names, chain, i - 1);
      assert chain[i] in ImpliedNames(vocabulary, chain[i - 1]);
    }
  }

  ghost predicate ContainsSeeds(p: Policy, input: Input, names: iset<string>) {
    forall n :: Seed(p, input, n) ==> n in names
  }

  /** What is held contains every matched key's targets and is closed under implies on the same scope
      and thing. */
  lemma HeldIsClosed(p: Policy, input: Input)
    ensures var held := iset n | Holds(p, input, n);
      ContainsSeeds(p, input, held) && ClosedUnderImplies(p.vocabulary, held)
  {
    forall n | Seed(p, input, n)
      ensures Holds(p, input, n)
    {
      ReachesSelf(p.vocabulary, n);
    }
    forall n, i | Holds(p, input, n) && i in ImpliedNames(p.vocabulary, n)
      ensures Holds(p, input, i)
    {
      HoldsNext(p, input, n, i);
    }
  }

  /** And it is the least such set. */
  lemma HeldIsLeast(p: Policy, input: Input, names: iset<string>, name: string)
    requires ContainsSeeds(p, input, names) && ClosedUnderImplies(p.vocabulary, names)
    requires Holds(p, input, name)
    ensures name in names
  {
    var seed :| Seed(p, input, seed) && Reaches(p.vocabulary, seed, name);
    var chain :| IsChain(p.vocabulary, chain) && chain[0] == seed && chain[|chain| - 1] == name;
    ChainStaysIn(p.vocabulary, names, chain, |chain| - 1);
  }

  lemma HoldsNext(p: Policy, input: Input, name: string, next: string)
    requires Holds(p, input, name) && next in ImpliedNames(p.vocabulary, name)
    ensures Holds(p, input, next)
  {
    var seed :| Seed(p, input, seed) && Reaches(p.vocabulary, seed, name);
    ReachesNext(p.vocabulary, seed, name, next);
  }

  // ----- The reasons

  /** The direct reasons for a name, in the order of the keys that give them. */
  function DirectReasons(p: Policy, input: Input, keys: seq<string>, name: string): seq<Held>
    requires forall k :: k in keys ==> k in p.groups
  {
    if keys == [] then []
    else
      var key := keys[|keys| - 1];
      DirectReasons(p, input, keys[..|keys| - 1], name) + DirectReason(p, input, key, name)
  }

  function DirectReason(p: Policy, input: Input, key: string, name: string): seq<Held>
    requires key in p.groups
  {
    if Matched(p, input, key) && name in GroupKeyTargets(p.vocabulary, key)
    then [Held(name, Direct(key, Via(p, input, key)))] else []
  }

  function Copies(n: nat, held: Held): seq<Held> {
    seq(n, _ => held)
  }

  /** The inherited reasons for a name, parents in the order they were worked off: one for every time
      a parent lists it. */
  function InheritedReasons(vocabulary: Option<Vocabulary>, parents: seq<string>, name: string): seq<Held> {
    if parents == [] then []
    else
      var parent := parents[|parents| - 1];
      InheritedReasons(vocabulary, parents[..|parents| - 1], name)
      + Copies(multiset(ImpliedNames(vocabulary, parent))[name], Held(name, Inherited(parent)))
  }

  /** All the reasons for a name, given the order the held names were worked off in. */
  function Reasons(p: Policy, input: Input, order: seq<string>, name: string): seq<Held> {
    DirectReasons(p, input, Sorted(p.groups.Keys), name) + InheritedReasons(p.vocabulary, order, name)
  }

  /** Every reason for every group of a list, group by group. */
  function Listed(p: Policy, input: Input, order: seq<string>, groups: seq<string>): seq<Held> {
    if groups == [] then []
    else Listed(p, input, order, groups[..|groups| - 1]) + Reasons(p, input, order, groups[|groups| - 1])
  }
}
