/** Who holds what and why, said of the proof, the policy's tables and the ladders alone. */
module Entitlements {
  import opened Wrappers
  import opened Text
  import opened Grants
  import opened Ladders
  import opened Vocabularies
  import opened Policies
  import opened Meanings
  import opened Evaluation
  import opened Granting

  // ----- What opens a key

  /** One letter in either case, or the same character. */
  predicate SameLetter(a: char, b: char) {
    || a == b
    || ('A' <= a <= 'Z' && a as int + 32 == b as int)
    || ('A' <= b <= 'Z' && b as int + 32 == a as int)
  }

  predicate SameAddress(a: string, b: string) {
    |a| == |b| && forall i :: 0 <= i < |a| ==> SameLetter(a[i], b[i])
  }

  lemma LowerMeans(a: string, b: string)
    ensures Lower(a) == Lower(b) <==> SameAddress(a, b)
  {
    if Lower(a) == Lower(b) {
      forall i | 0 <= i < |a|
        ensures SameLetter(a[i], b[i])
      {
        assert Lower(a)[i] == Lower(b)[i];
      }
    }
  }

  /** The hub reported a member, in whatever case, and its answer may be acted on. */
  ghost predicate Reported(input: Input, member: string) {
    input.authoritative && exists d :: d in input.directoryGroups && SameAddress(member, d)
  }

  /** A proof opens a key: a member of it is reported, or a matcher of it satisfied. */
  ghost predicate Opens(p: Policy, input: Input, key: string) {
    && key in p.groups
    && ((exists m :: m in p.groups[key].members && Reported(input, m)) || exists m :: m in p.groups[key].matchers && m in input.proves)
  }

  lemma ReportedMeans(input: Input, member: string)
    ensures Reported(input, member) <==> input.authoritative && Lower(member) in Confirmed(input)
  {
    if input.authoritative && Lower(member) in Confirmed(input) {
      var d :| d in input.directoryGroups && Lower(d) == Lower(member);
      LowerMeans(member, d);
    }
    if Reported(input, member) {
      var d :| d in input.directoryGroups && SameAddress(member, d);
      LowerMeans(member, d);
    }
  }

  /** Matching a key is exactly that. */
  lemma MatchedIsOpened(p: Policy, input: Input, key: string)
    ensures Matched(p, input, key) <==> Opens(p, input, key)
  {
    if key in p.groups {
      MatchedMeans(p, input, key);
      forall m
        ensures Reported(input, m) <==> input.authoritative && Lower(m) in Confirmed(input)
      {
        ReportedMeans(input, m);
      }
    }
  }

  /** What is recorded as having opened a key: every reported member, and after them the text of every
      satisfied matcher, each as often as it is listed. */
  lemma ViaMeans(p: Policy, input: Input, key: string)
    requires key in p.groups
    ensures exists members, rules ::
      && Via(p, input, key) == members + rules
      && Selected(p.groups[key].members, members, m => Reported(input, m), m => m)
      && Selected(p.groups[key].matchers, rules, m => m in input.proves, (m: Matcher) => m.rule)
  {
    var g := p.groups[key];
    var members := if input.authoritative then ConfirmedMembers(g.members, Confirmed(input)) else [];
    var rules := ProvedRules(g.matchers, input.proves);
    ConfirmedSelects(input, g.members);
    RulesSelect(g.matchers, input.proves);
    assert Via(p, input, key) == members + rules;
  }

  /** `out` is what `show` makes of the chosen items, in their order. */
  ghost predicate Selected<T(!new)>(items: seq<T>, out: seq<string>, chosen: T -> bool, show: T -> string)
    decreases |items|
  {
    if items == [] then out == []
    else
      var last := items[|items| - 1];
      if chosen(last) then out != [] && out[|out| - 1] == show(last) && Selected(items[..|items| - 1], out[..|out| - 1], chosen, show)
      else Selected(items[..|items| - 1], out, chosen, show)
  }

  lemma {:induction false} ConfirmedSelects(input: Input, members: seq<string>)
    ensures Selected(members, if input.authoritative then ConfirmedMembers(members, Confirmed(input)) else [],
                     m => Reported(input, m), m => m)
  {
    if members != [] {
      var n := |members| - 1;
      ConfirmedSelects(input, members[..n]);
      ReportedMeans(input, members[n]);
    }
  }

  lemma {:induction false} RulesSelect(matchers: seq<Matcher>, proves: set<Matcher>)
    ensures Selected(matchers, ProvedRules(matchers, proves), m => m in proves, (m: Matcher) => m.rule)
  {
    if matchers != [] {
      RulesSelect(matchers[..|matchers| - 1], proves);
    }
  }

  // ----- What a held name implies

  /** What the ladder of a grant's thing lists under its role. */
  ghost function RoleList(vocabulary: Option<Vocabulary>, g: Grant): seq<string> {
    if vocabulary.Some? && g.thing in vocabulary.value.things && g.role in vocabulary.value.things[g.thing].roles
    then vocabulary.value.things[g.thing].roles[g.role].implies else []
  }

  /** A name that reads as a grant implies the same grant with every role its own lists. */
  ghost predicate Implies(vocabulary: Option<Vocabulary>, name: string, next: string) {
    exists g, r :: SplitGroup(name) == Some(g) && r in RoleList(vocabulary, g) && next == Name(Grant(g.scope, g.thing, r))
  }

  lemma ImpliedNamesMean(vocabulary: Option<Vocabulary>, name: string, next: string)
    ensures next in ImpliedNames(vocabulary, name) <==> Implies(vocabulary, name, next)
  {
    var names := ImpliedNames(vocabulary, name);
    if next in names {
      var g := SplitGroup(name).value;
      var i :| 0 <= i < |names| && names[i] == next;
      assert RoleList(vocabulary, g)[i] in RoleList(vocabulary, g);
    }
    if g, r :| SplitGroup(name) == Some(g) && r in RoleList(vocabulary, g) && next == Name(Grant(g.scope, g.thing, r)) {
      var i :| 0 <= i < |RoleList(vocabulary, g)| && RoleList(vocabulary, g)[i] == r;
      assert names[i] == next;
    }
  }

  lemma NameTail(g: Grant, r: string)
    ensures Name(Grant(g.scope, g.thing, r)) == Name(g) ==> r == g.role
  {
    var n := |g.scope| + |g.thing| + 2;
    assert Name(g)[n..] == g.role && Name(Grant(g.scope, g.thing, r))[n..] == r;
  }

  ghost function NamesOn(g: Grant, roles: seq<string>): (names: seq<string>)
    ensures |names| == |roles|
  {
    seq(|roles|, i requires 0 <= i < |roles| => Name(Grant(g.scope, g.thing, roles[i])))
  }

  lemma {:induction false} NamesCount(g: Grant, roles: seq<string>, r: string)
    ensures multiset(NamesOn(g, roles))[Name(Grant(g.scope, g.thing, r))] == multiset(roles)[r]
  {
    if roles != [] {
      var n := |roles| - 1;
      var before, last := NamesOn(g, roles[..n]), Name(Grant(g.scope, g.thing, roles[n]));
      NamesCount(g, roles[..n], r);
      assert roles == roles[..n] + [roles[n]];
      assert NamesOn(g, roles) == before + [last];
      NameTail(Grant(g.scope, g.thing, r), roles[n]);
    }
  }

  lemma ImpliedCount(vocabulary: Option<Vocabulary>, name: string, g: Grant, r: string)
    requires SplitGroup(name) == Some(g)
    ensures multiset(ImpliedNames(vocabulary, name))[Name(Grant(g.scope, g.thing, r))] == multiset(RoleList(vocabulary, g))[r]
  {
    NamesCount(g, RoleList(vocabulary, g), r);
    assert ImpliedNames(vocabulary, name) == NamesOn(g, RoleList(vocabulary, g));
  }

  // ----- Who holds what

  /** The names contain everything a key the proof opens stands for. */
  ghost predicate Opened(p: Policy, input: Input, names: iset<string>) {
    forall key, n :: Opens(p, input, key) && StandsFor(p.vocabulary, key, n) ==> n in names
  }

  /** And, with a grant, the same grant with every role it implies. */
  ghost predicate ClosedOnLadders(vocabulary: Option<Vocabulary>, names: iset<string>) {
    forall n, next :: n in names && Implies(vocabulary, n, next) ==> next in names
  }

  /** The names a proof is entitled to: the least that are both. */
  ghost predicate Entitled(p: Policy, input: Input, names: iset<string>) {
    && Opened(p, input, names) && ClosedOnLadders(p.vocabulary, names)
    && forall others: iset<string> :: Opened(p, input, others) && ClosedOnLadders(p.vocabulary, others) ==> names <= others
  }

  lemma OpenedIsSeeds(p: Policy, input: Input, names: iset<string>)
    ensures Opened(p, input, names) <==> ContainsSeeds(p, input, names)
  {
    forall key, n
      ensures Matched(p, input, key) && n in GroupKeyTargets(p.vocabulary, key) <==> Opens(p, input, key) && StandsFor(p.vocabulary, key, n)
    {
      MatchedIsOpened(p, input, key);
      TargetsMean(p.vocabulary, key, n);
    }
  }

  lemma ClosedIsClosed(vocabulary: Option<Vocabulary>, names: iset<string>)
    ensures ClosedOnLadders(vocabulary, names) <==> ClosedUnderImplies(vocabulary, names)
  {
    forall n, next
      ensures next in ImpliedNames(vocabulary, n) <==> Implies(vocabulary, n, next)
    {
      ImpliedNamesMean(vocabulary, n, next);
    }
  }

  /** Holding, as evaluation has it, is exactly being entitled. */
  lemma HeldIsEntitled(p: Policy, input: Input)
    ensures Entitled(p, input, iset n | Holds(p, input, n))
  {
    var held := iset n | Holds(p, input, n);
    HeldIsClosed(p, input);
    OpenedIsSeeds(p, input, held);
    ClosedIsClosed(p.vocabulary, held);
    forall others: iset<string> | Opened(p, input, others) && ClosedOnLadders(p.vocabulary, others)
      ensures held <= others
    {
      OpenedIsSeeds(p, input, others);
      ClosedIsClosed(p.vocabulary, others);
      forall n | n in held
        ensures n in others
      {
        HeldIsLeast(p, input, others, n);
      }
    }
  }

  // ----- And why

  /** The entries of a result with these groups. From each of them that is a grant, one for every time its
      role lists another, under that role's name; none inherited from anything else; and one for each key
      the proof opens and each name it stands for, saying what opened it. */
  ghost predicate Explained(p: Policy, input: Input, groups: seq<string>, held: seq<Held>) {
    && (forall name, g, r :: name in groups && SplitGroup(name) == Some(g) ==>
          multiset(held)[Held(Name(Grant(g.scope, g.thing, r)), Inherited(name))] == multiset(RoleList(p.vocabulary, g))[r])
    && (forall h :: h in held && h.reason.Inherited? ==> h.reason.parent in groups && Implies(p.vocabulary, h.reason.parent, h.group))
    && (forall key, name, via ::
          multiset(held)[Held(name, Direct(key, via))]
          == if Opens(p, input, key) && StandsFor(p.vocabulary, key, name) && via == Via(p, input, key) then 1 else 0)
  }

  lemma ResultIsExplained(p: Policy, input: Input, order: seq<string>, groups: seq<string>)
    requires NoRepeats(groups) && NoRepeats(order)
    requires forall n :: n in groups <==> Holds(p, input, n)
    requires forall n :: n in order <==> n in groups
    ensures Explained(p, input, groups, Listed(p, input, order, groups))
  {
    var held := Listed(p, input, order, groups);
    forall name, g, r | name in groups && SplitGroup(name) == Some(g)
      ensures multiset(held)[Held(Name(Grant(g.scope, g.thing, r)), Inherited(name))] == multiset(RoleList(p.vocabulary, g))[r]
    {
      ProvenanceIsExact(p, input, order, groups, Held(Name(Grant(g.scope, g.thing, r)), Inherited(name)));
      ImpliedCount(p.vocabulary, name, g, r);
    }
    forall h | h in held && h.reason.Inherited?
      ensures h.reason.parent in groups && Implies(p.vocabulary, h.reason.parent, h.group)
    {
      assert multiset(held)[h] > 0;
      ProvenanceIsExact(p, input, order, groups, h);
      ImpliedNamesMean(p.vocabulary, h.reason.parent, h.group);
    }
    forall key, name, via
      ensures multiset(held)[Held(name, Direct(key, via))]
        == if Opens(p, input, key) && StandsFor(p.vocabulary, key, name) && via == Via(p, input, key) then 1 else 0
    {
      ProvenanceIsExact(p, input, order, groups, Held(name, Direct(key, via)));
      MatchedIsOpened(p, input, key);
      TargetsMean(p.vocabulary, key, name);
    }
  }

  /** Both at once, for a list of the groups held. */
  lemma ResultIsEntitled(p: Policy, input: Input, order: seq<string>, groups: seq<string>)
    requires NoRepeats(groups) && NoRepeats(order)
    requires forall n :: n in groups <==> Holds(p, input, n)
    requires forall n :: n in order <==> n in groups
    ensures Entitled(p, input, iset n | n in groups)
    ensures Explained(p, input, groups, Listed(p, input, order, groups))
  {
    HeldIsEntitled(p, input);
    assert (iset n | n in groups) == iset n | Holds(p, input, n);
    ResultIsExplained(p, input, order, groups);
  }
}
