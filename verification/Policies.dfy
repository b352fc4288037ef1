/** The policy's tables, and the keys of its groups table. */
module Policies {
  import opened Wrappers
  import opened Text
  import opened Grants
  import opened Vocabularies
  import opened Fragments

  /** One matcher: what it asks for, field by field, and the text it is reported as. */
  datatype Matcher = Matcher(asks: map<string, string>, rule: string)

  datatype Group = Group(members: seq<string>, matchers: seq<Matcher>)

  datatype GroupsOverride = GroupsOverride(all: bool, things: seq<string>)

  datatype Client = Client(kind: string, needs: seq<string>, ttlCap: int, groups: GroupsOverride, delimiter: string)

  datatype Resource = Resource(needs: seq<string>, ttlCap: int, absoluteCap: int, readOnly: bool,
                               groups: GroupsOverride, delimiter: string)

  /** The document-client block. `lists` says that one of its lists is written out, if only as an empty one,
      which Go tells from a list that is not there. */
  datatype ClientDocuments = ClientDocuments(origins: seq<string>, needs: seq<string>, ttlCap: int, groups: GroupsOverride,
                                             lists: bool)

  datatype GitHubTeam = GitHubTeam(members: seq<string>, maintainers: seq<string>)

  datatype GitHubOrg = GitHubOrg(members: seq<string>, teams: map<string, GitHubTeam>, ignore: seq<string>)

  datatype SlackChannel = SlackChannel(mode: string, from: seq<string>, ignore: seq<string>)

  datatype SlackWorkspace = SlackWorkspace(channels: map<string, SlackChannel>)

  /** One layer, or several folded into one. */
  datatype Policy = Policy(
    version: int,
    vocabulary: Option<Vocabulary>,
    groups: map<string, Group>,
    claims: map<string, Fragment>,
    lifetimes: map<string, int>,
    resources: map<string, Resource>,
    documents: ClientDocuments,
    clients: map<string, Client>,
    github: map<string, GitHubOrg>,
    people: map<string, seq<string>>,
    slack: map<string, SlackWorkspace>)

  datatype KeyError =
    | RoleWildcard
    | Unfit(misfit: Misfit)
    | NeedsVocabulary
    | SensitiveScope(example: string)
    | ExpandsToNothing(why: Why)

  predicate IsWildcard(g: Grant) {
    g.scope == ANY || g.thing == ANY
  }

  /** One groups-table key: the concrete names it stands for, or why it is refused. */
  function CheckGroupKey(vocabulary: Option<Vocabulary>, name: string): Result<seq<string>, KeyError> {
    match SplitGroup(name)
    case None => Ok([name])
    case Some(g) =>
      if g.role == ANY then Err(RoleWildcard)
      else if !IsWildcard(g) then
        if vocabulary.Some? && Fits(vocabulary.value, g).Some? then Err(Unfit(Fits(vocabulary.value, g).value))
        else Ok([name])
      else if vocabulary.None? then Err(NeedsVocabulary)
      else CheckWildcardKey(vocabulary.value, g)
  }

  function CheckWildcardKey(v: Vocabulary, g: Grant): Result<seq<string>, KeyError> {
    if CheckWildcard(v, g).Some? then Err(Unfit(CheckWildcard(v, g).value))
    else
      var targets := Sorted(Sweep(v, g, true));
      if targets != [] then Ok(targets)
      else
        var all := Sorted(Sweep(v, g, false));
        if g.scope != ANY && Sensitive(v, g.scope) && all != [] then Err(SensitiveScope(all[0]))
        else Err(ExpandsToNothing(EmptyReason(v, g)))
  }

  /** The names a key stands for; a key that is refused grants nothing. */
  function GroupKeyTargets(vocabulary: Option<Vocabulary>, name: string): seq<string> {
    match CheckGroupKey(vocabulary, name)
    case Ok(targets) => targets
    case Err(_) => []
  }

  /** A key stands for itself or for a sweep, and never for one name twice. */
  lemma TargetsAreSorted(vocabulary: Option<Vocabulary>, name: string)
    ensures StrictlySorted(GroupKeyTargets(vocabulary, name))
  {
  }

  /** The names a groups table can put somebody in directly. */
  predicate Targeted(p: Policy, target: string) {
    exists name :: name in p.groups && target in GroupKeyTargets(p.vocabulary, name)
  }

  /** The part of load-time validation that evaluation relies on: the vocabulary is coherent and every
      groups key is accepted. */
  predicate ValidKeys(p: Policy) {
    && (p.vocabulary.Some? ==> Coherent(p.vocabulary.value))
    && forall name :: name in p.groups ==> CheckGroupKey(p.vocabulary, name).Ok?
  }
}
