/** Folding many declared files into one policy, whatever order they are read in. */
module Layers {
  import opened Wrappers
  import opened Text
  import opened Policies

  // ----- One layer onto another

  /** Not the zero value. */
  predicate Declares(d: ClientDocuments) {
    d.lists || d.origins != [] || d.needs != [] || d.ttlCap != 0 || d.groups.all || d.groups.things != []
  }

  predicate Apart<V>(a: map<string, V>, b: map<string, V>) {
    forall k :: k in a ==> k !in b
  }

  const NO_ORG := GitHubOrg([], map[], [])

  function OrgOf(github: map<string, GitHubOrg>, org: string): GitHubOrg {
    if org in github then github[org] else NO_ORG
  }

  /** Appends what is not there yet, one by one. */
  function AppendNew(into: seq<string>, from: seq<string>): seq<string> {
    if from == [] then into
    else
      var before, last := AppendNew(into, from[..|from| - 1]), from[|from| - 1];
      if last in before then before else before + [last]
  }

  function MergedOrg(into: GitHubOrg, incoming: GitHubOrg): GitHubOrg {
    GitHubOrg(if incoming.members != [] then incoming.members else into.members,
              into.teams + incoming.teams,
              AppendNew(into.ignore, incoming.ignore))
  }

  predicate OrgsApart(into: GitHubOrg, incoming: GitHubOrg) {
    (into.members == [] || incoming.members == []) && Apart(into.teams, incoming.teams)
  }

  function MergedOrgs(a: map<string, GitHubOrg>, b: map<string, GitHubOrg>): map<string, GitHubOrg> {
    map k | k in a.Keys + b.Keys :: if k in b then MergedOrg(OrgOf(a, k), b[k]) else a[k]
  }

  const NO_WORKSPACE := SlackWorkspace(map[])

  function WorkspaceOf(slack: map<string, SlackWorkspace>, name: string): SlackWorkspace {
    if name in slack then slack[name] else NO_WORKSPACE
  }

  function MergedWorkspace(into: SlackWorkspace, incoming: SlackWorkspace): SlackWorkspace {
    SlackWorkspace(into.channels + incoming.channels)
  }

  function MergedSlack(a: map<string, SlackWorkspace>, b: map<string, SlackWorkspace>): map<string, SlackWorkspace> {
    map k | k in a.Keys + b.Keys :: if k in b then MergedWorkspace(WorkspaceOf(a, k), b[k]) else a[k]
  }

  predicate TablesApart(p: Policy, q: Policy) {
    && Apart(p.groups, q.groups) && Apart(p.claims, q.claims) && Apart(p.lifetimes, q.lifetimes)
    && Apart(p.resources, q.resources) && Apart(p.clients, q.clients)
  }

  /** Nothing the two layers say collides. */
  predicate Clashless(p: Policy, q: Policy) {
    && (p.vocabulary.None? || q.vocabulary.None?)
    && (!Declares(p.documents) || !Declares(q.documents))
    && TablesApart(p, q) && Apart(p.people, q.people)
    && GitHubApart(p.github, q.github) && SlackApart(p.slack, q.slack)
  }

  /** Everything either says. */
  function Combined(p: Policy, q: Policy): Policy {
    Policy(p.version,
           if q.vocabulary.Some? then q.vocabulary else p.vocabulary,
           p.groups + q.groups, p.claims + q.claims, p.lifetimes + q.lifetimes, p.resources + q.resources,
           if Declares(q.documents) then q.documents else p.documents,
           p.clients + q.clients,
           MergedOrgs(p.github, q.github), p.people + q.people, MergedSlack(p.slack, q.slack))
  }

  // ----- As it runs

  /** The entries under some of the keys. */
  ghost function Part<V>(from: map<string, V>, keys: set<string>): map<string, V> {
    map k | k in from && k in keys :: from[k]
  }

  ghost function Upto(keys: seq<string>, i: nat): set<string>
    requires i <= |keys|
  {
    set k | k in keys[..i]
  }

  lemma OneMoreKey<V>(from: map<string, V>, keys: seq<string>, i: nat)
    requires i < |keys| && NoRepeats(keys) && forall k :: k in keys <==> k in from
    ensures keys[i] in from && keys[i] !in Upto(keys, i)
    ensures Upto(keys, i + 1) == Upto(keys, i) + {keys[i]}
    ensures Part(from, Upto(keys, i + 1)) == Part(from, Upto(keys, i))[keys[i] := from[keys[i]]]
  {
    assert keys[..i + 1] == keys[..i] + [keys[i]];
  }

  lemma AllKeys<V>(from: map<string, V>, keys: seq<string>)
    requires forall k :: k in keys <==> k in from
    ensures Part(from, Upto(keys, 0)) == map[] && Part(from, Upto(keys, |keys|)) == from
  {
    assert keys[..|keys|] == keys;
  }

  lemma OneMoreEntry<V>(into: map<string, V>, part: map<string, V>, key: string, value: V)
    requires key !in part
    ensures key in into + part <==> key in into
    ensures into + part[key := value] == (into + part)[key := value]
    ensures Apart(into, part[key := value]) <==> Apart(into, part) && key !in into
  {
    assert forall k :: k in part[key := value] <==> k in part || k == key;
  }

  /** Adds every entry, in key order, and stops at a key already there. */
  method MergeTable<V>(into: map<string, V>, from: map<string, V>) returns (ok: bool, merged: map<string, V>)
    ensures ok <==> Apart(into, from)
    ensures ok ==> merged == into + from
  {
    merged := into;
    var keys := KeysInOrder(from);
    AllKeys(from, keys);
    for i := 0 to |keys|
      invariant merged == into + Part(from, Upto(keys, i)) && Apart(into, Part(from, Upto(keys, i)))
    {
      OneMoreKey(from, keys, i);
      OneMoreEntry(into, Part(from, Upto(keys, i)), keys[i], from[keys[i]]);
      if keys[i] in merged {
        return false, merged;
      }
      merged := merged[keys[i] := from[keys[i]]];
    }
    ok := true;
  }

  method MergeOrg(into: GitHubOrg, incoming: GitHubOrg) returns (ok: bool, merged: GitHubOrg)
    ensures ok <==> OrgsApart(into, incoming)
    ensures ok ==> merged == MergedOrg(into, incoming)
  {
    merged := into;
    if |incoming.members| > 0 {
      if |into.members| > 0 {
        return false, merged;
      }
      merged := merged.(members := incoming.members);
    }
    var ignore := into.ignore;
    for i := 0 to |incoming.ignore|
      invariant ignore == AppendNew(into.ignore, incoming.ignore[..i])
    {
      assert incoming.ignore[..i + 1][..i] == incoming.ignore[..i];
      if incoming.ignore[i] !in ignore {
        ignore := ignore + [incoming.ignore[i]];
      }
    }
    assert incoming.ignore[..|incoming.ignore|] == incoming.ignore;
    var good, teams := MergeTable(into.teams, incoming.teams);
    merged := merged.(ignore := ignore, teams := teams);
    ok := good;
  }

  predicate GitHubApart(a: map<string, GitHubOrg>, b: map<string, GitHubOrg>) {
    forall org :: org in b ==> OrgsApart(OrgOf(a, org), b[org])
  }

  lemma OneMoreOrg(into: map<string, GitHubOrg>, part: map<string, GitHubOrg>, org: string, incoming: GitHubOrg)
    requires org !in part
    ensures MergedOrgs(into, part[org := incoming]) == MergedOrgs(into, part)[org := MergedOrg(OrgOf(into, org), incoming)]
    ensures OrgOf(MergedOrgs(into, part), org) == OrgOf(into, org)
    ensures GitHubApart(into, part[org := incoming]) <==> GitHubApart(into, part) && OrgsApart(OrgOf(into, org), incoming)
  {
    assert forall k :: k in part ==> part[org := incoming][k] == part[k];
    assert part[org := incoming][org] == incoming;
  }

  lemma PartApart(into: map<string, GitHubOrg>, from: map<string, GitHubOrg>, keys: set<string>)
    ensures GitHubApart(into, from) ==> GitHubApart(into, Part(from, keys))
  {
  }

  method MergeGitHub(into: map<string, GitHubOrg>, from: map<string, GitHubOrg>)
      returns (ok: bool, merged: map<string, GitHubOrg>)
    ensures ok <==> GitHubApart(into, from)
    ensures ok ==> merged == MergedOrgs(into, from)
  {
    merged := into;
    var keys := KeysInOrder(from);
    AllKeys(from, keys);
    assert MergedOrgs(into, map[]) == into;
    ghost var part: map<string, GitHubOrg> := map[];
    for i := 0 to |keys|
      invariant part == Part(from, Upto(keys, i)) && merged == MergedOrgs(into, part) && GitHubApart(into, part)
    {
      OneMoreKey(from, keys, i);
      var good, next := MergeNextOrg(into, merged, part, keys[i], from[keys[i]]);
      part := part[keys[i] := from[keys[i]]];
      if !good {
        PartApart(into, from, Upto(keys, i + 1));
        return false, merged;
      }
      merged := next;
    }
    ok := true;
  }

  method MergeNextOrg(ghost into: map<string, GitHubOrg>, merged: map<string, GitHubOrg>, ghost part: map<string, GitHubOrg>,
                      org: string, incoming: GitHubOrg) returns (ok: bool, next: map<string, GitHubOrg>)
    requires org !in part && merged == MergedOrgs(into, part) && GitHubApart(into, part)
    ensures ok <==> GitHubApart(into, part[org := incoming])
    ensures ok ==> next == MergedOrgs(into, part[org := incoming])
  {
    OneMoreOrg(into, part, org, incoming);
    var one;
    ok, one := MergeOrg(OrgOf(merged, org), incoming);
    next := merged[org := one];
  }

  predicate SlackApart(a: map<string, SlackWorkspace>, b: map<string, SlackWorkspace>) {
    forall w :: w in b ==> Apart(WorkspaceOf(a, w).channels, b[w].channels)
  }

  lemma OneMoreWorkspace(into: map<string, SlackWorkspace>, part: map<string, SlackWorkspace>, w: string, incoming: SlackWorkspace)
    requires w !in part
    ensures MergedSlack(into, part[w := incoming]) == MergedSlack(into, part)[w := MergedWorkspace(WorkspaceOf(into, w), incoming)]
    ensures WorkspaceOf(MergedSlack(into, part), w) == WorkspaceOf(into, w)
  {
    assert forall k :: k in part ==> part[w := incoming][k] == part[k];
    assert part[w := incoming][w] == incoming;
  }

  lemma OneMoreApart(into: map<string, SlackWorkspace>, part: map<string, SlackWorkspace>, w: string, incoming: SlackWorkspace)
    requires w !in part
    ensures SlackApart(into, part[w := incoming]) <==>
      SlackApart(into, part) && Apart(WorkspaceOf(into, w).channels, incoming.channels)
  {
    var more := part[w := incoming];
    assert more[w] == incoming;
    assert forall k :: k in part ==> more[k] == part[k];
  }

  lemma PartSlackApart(into: map<string, SlackWorkspace>, from: map<string, SlackWorkspace>, keys: set<string>)
    ensures SlackApart(into, from) ==> SlackApart(into, Part(from, keys))
  {
  }

  method MergeSlack(into: map<string, SlackWorkspace>, from: map<string, SlackWorkspace>)
      returns (ok: bool, merged: map<string, SlackWorkspace>)
    ensures ok <==> SlackApart(into, from)
    ensures ok ==> merged == MergedSlack(into, from)
  {
    merged := into;
    var keys := KeysInOrder(from);
    AllKeys(from, keys);
    assert MergedSlack(into, map[]) == into;
    for i := 0 to |keys|
      invariant merged == MergedSlack(into, Part(from, Upto(keys, i))) && SlackApart(into, Part(from, Upto(keys, i)))
    {
      OneMoreKey(from, keys, i);
      OneMoreWorkspace(into, Part(from, Upto(keys, i)), keys[i], from[keys[i]]);
      OneMoreApart(into, Part(from, Upto(keys, i)), keys[i], from[keys[i]]);
      var good, channels := MergeTable(WorkspaceOf(merged, keys[i]).channels, from[keys[i]].channels);
      if !good {
        PartSlackApart(into, from, Upto(keys, i + 1));
        return false, merged;
      }
      merged := merged[keys[i] := SlackWorkspace(channels)];
    }
    ok := true;
  }

  const EMPTY_LAYER := Policy(1, None, map[], map[], map[], map[], ClientDocuments([], [], 0, GroupsOverride(false, []), false),
                              map[], map[], map[], map[])

  /** The policy a directory is being read into. */
  class Loading {
    var out: Policy

    constructor ()
      ensures out == EMPTY_LAYER
    {
      out := EMPTY_LAYER;
    }

    /** Folds one file in, table by table, and fails when anything in it clashes. */
    method MergeLayer(other: Policy) returns (ok: bool)
      modifies this
      ensures ok <==> other.version == 1 && Clashless(old(out), other)
      ensures ok ==> out == Combined(old(out), other)
    {
      if other.version != 1 {
        return false;
      }
      if other.vocabulary.Some? {
        if out.vocabulary.Some? {
          return false;
        }
        out := out.(vocabulary := other.vocabulary);
      }
      if Declares(other.documents) {
        if Declares(out.documents) {
          return false;
        }
        out := out.(documents := other.documents);
      }
      ok := MergeTables(other);
      if !ok {
        return;
      }
      var github, slack, people;
      ok, github := MergeGitHub(out.github, other.github);
      if !ok {
        return;
      }
      ok, people := MergeTable(out.people, other.people);
      if !ok {
        return;
      }
      ok, slack := MergeSlack(out.slack, other.slack);
      out := out.(github := github, people := people, slack := slack);
    }

    /** The five tables merged whole. */
    method MergeTables(other: Policy) returns (ok: bool)
      modifies this
      ensures ok <==> TablesApart(old(out), other)
      ensures ok ==> out == old(out).(
        groups := old(out).groups + other.groups, claims := old(out).claims + other.claims,
        lifetimes := old(out).lifetimes + other.lifetimes, resources := old(out).resources + other.resources,
        clients := old(out).clients + other.clients)
    {
      var groups, claims, lifetimes, resources, clients;
      ok, groups := MergeTable(out.groups, other.groups);
      if !ok {
        return;
      }
      ok, claims := MergeTable(out.claims, other.claims);
      if !ok {
        return;
      }
      ok, lifetimes := MergeTable(out.lifetimes, other.lifetimes);
      if !ok {
        return;
      }
      ok, resources := MergeTable(out.resources, other.resources);
      if !ok {
        return;
      }
      ok, clients := MergeTable(out.clients, other.clients);
      out := out.(groups := groups, claims := claims, lifetimes := lifetimes, resources := resources, clients := clients);
    }
  }

  /** One more file. */
  function Step(before: Option<Policy>, layer: Policy): Option<Policy> {
    if before.Some? && layer.version == 1 && Clashless(before.value, layer) then Some(Combined(before.value, layer)) else None
  }

  /** The fold in file order: None as soon as one file clashes with those before it. */
  function FoldLayers(layers: seq<Policy>): Option<Policy> {
    if layers == [] then Some(EMPTY_LAYER)
    else Step(FoldLayers(layers[..|layers| - 1]), layers[|layers| - 1])
  }

  lemma FoldNext(layers: seq<Policy>, next: Policy)
    ensures FoldLayers(layers + [next]) == Step(FoldLayers(layers), next)
  {
    assert (layers + [next])[..|layers|] == layers;
  }

  /** As it runs. */
  method ReadNext(loading: Loading, ghost before: seq<Policy>, layer: Policy) returns (ok: bool)
    requires FoldLayers(before) == Some(loading.out)
    modifies loading
    ensures FoldLayers(before + [layer]) == if ok then Some(loading.out) else None
  {
    FoldNext(before, layer);
    ok := loading.MergeLayer(layer);
  }

  /** A directory entry: whether it is a YAML file, and its layer when it can be read and parsed. */
  datatype DirEntry = DirEntry(yaml: bool, layer: Option<Policy>)

  datatype Path = Missing | File(layer: Option<Policy>) | Unlistable | Directory(entries: seq<DirEntry>)

  /** The layers of a directory's YAML files, in the order they are listed. */
  function LayersIn(entries: seq<DirEntry>): seq<Policy> {
    if entries == [] then []
    else
      var before, last := LayersIn(entries[..|entries| - 1]), entries[|entries| - 1];
      if last.yaml && last.layer.Some? then before + [last.layer.value] else before
  }

  predicate Readable(entries: seq<DirEntry>) {
    forall i :: 0 <= i < |entries| && entries[i].yaml ==> entries[i].layer.Some?
  }

  /** A file is its own layer. A directory is the fold of its YAML files, and is refused when one cannot be
      read, when two clash, and when there is none. */
  method LoadDeclared(path: Path) returns (policy: Option<Policy>)
    ensures policy == match path
      case Missing => None
      case File(layer) => layer
      case Unlistable => None
      case Directory(entries) => if Readable(entries) && LayersIn(entries) != [] then FoldLayers(LayersIn(entries)) else None
  {
    match path
    case Missing => policy := None;
    case File(layer) => policy := layer;
    case Unlistable => policy := None;
    case Directory(entries) => policy := LoadDirectory(entries);
  }

  method LoadDirectory(entries: seq<DirEntry>) returns (policy: Option<Policy>)
    ensures policy == if Readable(entries) && LayersIn(entries) != [] then FoldLayers(LayersIn(entries)) else None
  {
    var loading := new Loading();
    var found := false;
    for i := 0 to |entries|
      invariant found <==> LayersIn(entries[..i]) != []
      invariant FoldLayers(LayersIn(entries[..i])) == Some(loading.out) && Readable(entries[..i])
    {
      assert entries[..i + 1][..i] == entries[..i];
      if !entries[i].yaml {
        continue;
      }
      if entries[i].layer.None? {
        return None;
      }
      var ok := ReadNext(loading, LayersIn(entries[..i]), entries[i].layer.value);
      if !ok {
        LoadFails(entries, i + 1);
        return None;
      }
      found := true;
    }
    assert entries[..|entries|] == entries;
    policy := if found then Some(loading.out) else None;
  }

  /** Once a file clashes with those before it, the rest cannot help. */
  lemma {:induction false} LoadFails(entries: seq<DirEntry>, i: nat)
    requires i <= |entries| && FoldLayers(LayersIn(entries[..i])) == None
    ensures FoldLayers(LayersIn(entries)) == None
    decreases |entries| - i
  {
    if i == |entries| {
      assert entries[..i] == entries;
    } else {
      assert entries[..i + 1][..i] == entries[..i];
      if entries[i].yaml && entries[i].layer.Some? {
        FoldNext(LayersIn(entries[..i]), entries[i].layer.value);
      }
      LoadFails(entries, i + 1);
    }
  }
}
