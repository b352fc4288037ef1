/** The access document: the policy written as lists, and what an installation adds on top. */
module AccessDocuments {
  import opened Wrappers
  import opened Text
  import opened Ladders
  import opened Vocabularies
  import opened Policies
  import opened Layers
  import opened Evaluation
  import opened Granting

  /** One entry of a list: the name its table will know it by, and the rest. */
  datatype Row<+R> = Row(name: string, entry: R)

  datatype AccessGroup = AccessGroup(members: seq<string>, emails: seq<string>,
                                     github: seq<Matcher>, serviceAccounts: seq<Matcher>, aws: seq<Matcher>)

  datatype AccessOrg = AccessOrg(members: seq<string>, teams: seq<Row<GitHubTeam>>, ignore: seq<string>)

  datatype AccessThing = AccessThing(scopes: seq<string>, roles: seq<Row<RoleSpec>>)

  datatype AccessVocabulary = AccessVocabulary(scopes: seq<Row<bool>>, things: seq<Row<AccessThing>>)

  datatype Access = Access(
    lifetimes: map<string, int>,
    groups: seq<Row<AccessGroup>>,
    people: seq<Row<seq<string>>>,
    slack: seq<Row<seq<Row<SlackChannel>>>>,
    github: seq<Row<AccessOrg>>,
    vocabulary: Option<AccessVocabulary>,
    clients: seq<Row<Client>>,
    documents: Option<ClientDocuments>,
    resources: seq<Row<Resource>>)

  datatype Overlay = Overlay(groups: map<string, seq<Matcher>>, clients: map<string, Client>)

  datatype AccessDocument = AccessDocument(version: int, access: Access, overlay: Overlay)

  // ----- A list and its table

  predicate Distinct<R>(rows: seq<Row<R>>) {
    forall i, j :: 0 <= i < j < |rows| ==> rows[i].name != rows[j].name
  }

  predicate Listed<R>(rows: seq<Row<R>>, name: string) {
    exists i :: 0 <= i < |rows| && rows[i].name == name
  }

  /** The table holds each listed entry, as `fits` says it is read, and nothing else. */
  ghost predicate Lists<R, V>(rows: seq<Row<R>>, table: map<string, V>, fits: (R, V) -> bool) {
    && (forall name :: name in table <==> Listed(rows, name))
    && (forall i :: 0 <= i < |rows| ==> rows[i].name in table && fits(rows[i].entry, table[rows[i].name]))
  }

  /** What one more row does. */
  lemma OneMoreRow<R, V>(rows: seq<Row<R>>, i: nat, table: map<string, V>, value: V, fits: (R, V) -> bool)
    requires i < |rows| && Lists(rows[..i], table, fits) && Distinct(rows[..i])
    ensures Distinct(rows[..i + 1]) <==> rows[i].name !in table
    ensures fits(rows[i].entry, value) && rows[i].name !in table ==> Lists(rows[..i + 1], table[rows[i].name := value], fits)
  {
    var before, more := rows[..i], rows[..i + 1];
    assert more == before + [rows[i]];
    assert more[i] == rows[i];
    if rows[i].name in table {
      assert Listed(before, rows[i].name);
      var k :| 0 <= k < |before| && before[k].name == rows[i].name;
      assert more[k].name == more[i].name;
    } else {
      assert !Listed(before, rows[i].name);
      forall j, k | 0 <= j < k < |more|
        ensures more[j].name != more[k].name
      {
        assert more[j] == before[j];
        if k < i {
          assert more[k] == before[k];
        }
      }
      ListedNext(before, rows[i]);
    }
  }

  lemma ListedNext<R>(rows: seq<Row<R>>, row: Row<R>)
    ensures forall name :: Listed(rows + [row], name) <==> Listed(rows, name) || name == row.name
  {
    forall name
      ensures Listed(rows + [row], name) <==> Listed(rows, name) || name == row.name
    {
      if Listed(rows, name) {
        var k :| 0 <= k < |rows| && rows[k].name == name;
        assert (rows + [row])[k].name == name;
      }
      assert (rows + [row])[|rows|] == row;
    }
  }

  lemma RepeatStays<R>(rows: seq<Row<R>>, i: nat)
    requires i <= |rows| && !Distinct(rows[..i])
    ensures !Distinct(rows)
  {
    var j, k :| 0 <= j < k < i && rows[..i][j].name == rows[..i][k].name;
    assert rows[j].name == rows[k].name;
  }

  ghost predicate Same<V>(a: V, b: V) {
    a == b
  }

  /** Two tables that list the same rows are the same table. */
  lemma ListedOnce<V>(rows: seq<Row<V>>, a: map<string, V>, b: map<string, V>)
    requires Lists(rows, a, Same) && Lists(rows, b, Same)
    ensures a == b
  {
    forall name | name in a
      ensures name in b && a[name] == b[name]
    {
      assert Listed(rows, name);
    }
    assert a.Keys == b.Keys;
  }

  /** Rows that need no reshaping: people, channels, teams, scopes, roles, resources. */
  method TableOf<V>(rows: seq<Row<V>>) returns (ok: bool, table: map<string, V>)
    ensures ok <==> Distinct(rows)
    ensures ok ==> Lists(rows, table, Same)
  {
    table := map[];
    for i := 0 to |rows|
      invariant Distinct(rows[..i]) && Lists(rows[..i], table, Same)
    {
      OneMoreRow(rows, i, table, rows[i].entry, Same);
      if rows[i].name in table {
        RepeatStays(rows, i + 1);
        return false, table;
      }
      table := table[rows[i].name := rows[i].entry];
    }
    assert rows[..|rows|] == rows;
    ok := true;
  }

  // ----- Rows that are reshaped

  function EmailMatcher(email: string): Matcher {
    Matcher(map["email" := email], email)
  }

  /** Everything that admits a caller to a derived group, one-address matchers first. */
  function MatchersOf(g: AccessGroup): seq<Matcher> {
    seq(|g.emails|, i requires 0 <= i < |g.emails| => EmailMatcher(g.emails[i])) + g.github + g.serviceAccounts + g.aws
  }

  ghost predicate IsGroup(g: AccessGroup, group: Group) {
    group == Group(g.members, MatchersOf(g))
  }

  ghost predicate IsWorkspace(channels: seq<Row<SlackChannel>>, workspace: SlackWorkspace) {
    Distinct(channels) && Lists(channels, workspace.channels, Same)
  }

  ghost predicate IsOrg(row: AccessOrg, org: GitHubOrg) {
    Distinct(row.teams) && Lists(row.teams, org.teams, Same) && org.members == row.members && org.ignore == row.ignore
  }

  ghost predicate IsThing(row: AccessThing, thing: ThingSpec) {
    Distinct(row.roles) && Lists(row.roles, thing.roles, Same) && thing.scopes == row.scopes
  }

  method ListMatchers(g: AccessGroup) returns (matchers: seq<Matcher>)
    ensures matchers == MatchersOf(g)
    ensures |matchers| == |g.emails| + |g.github| + |g.serviceAccounts| + |g.aws|
    ensures forall i :: 0 <= i < |g.emails| ==> matchers[i] == Matcher(map["email" := g.emails[i]], g.emails[i])
    ensures matchers[|g.emails|..] == g.github + g.serviceAccounts + g.aws
  {
    matchers := [];
    for k := 0 to |g.emails|
      invariant matchers == MatchersOf(g)[..k]
    {
      matchers := matchers + [EmailMatcher(g.emails[k])];
    }
    matchers := matchers + g.github + g.serviceAccounts + g.aws;
  }

  method GroupsOf(rows: seq<Row<AccessGroup>>) returns (ok: bool, table: map<string, Group>)
    ensures ok <==> Distinct(rows)
    ensures ok ==> Lists(rows, table, IsGroup)
  {
    table := map[];
    for i := 0 to |rows|
      invariant Distinct(rows[..i]) && Lists(rows[..i], table, IsGroup)
    {
      var g := rows[i].entry;
      var matchers := ListMatchers(g);
      var group := Group(g.members, matchers);
      OneMoreRow(rows, i, table, group, IsGroup);
      if rows[i].name in table {
        RepeatStays(rows, i + 1);
        return false, table;
      }
      table := table[rows[i].name := group];
    }
    assert rows[..|rows|] == rows;
    ok := true;
  }

  method WorkspacesOf(rows: seq<Row<seq<Row<SlackChannel>>>>) returns (ok: bool, table: map<string, SlackWorkspace>)
    ensures ok <==> Distinct(rows) && forall i :: 0 <= i < |rows| ==> Distinct(rows[i].entry)
    ensures ok ==> Lists(rows, table, IsWorkspace)
  {
    table := map[];
    for i := 0 to |rows|
      invariant Distinct(rows[..i]) && Lists(rows[..i], table, IsWorkspace)
      invariant forall k :: 0 <= k < i ==> Distinct(rows[k].entry)
    {
      if rows[i].name in table {
        OneMoreRow(rows, i, table, SlackWorkspace(map[]), IsWorkspace);
        RepeatStays(rows, i + 1);
        return false, table;
      }
      var good, channels := TableOf(rows[i].entry);
      if !good {
        return false, table;
      }
      OneMoreRow(rows, i, table, SlackWorkspace(channels), IsWorkspace);
      table := table[rows[i].name := SlackWorkspace(channels)];
    }
    assert rows[..|rows|] == rows;
    ok := true;
  }

  method OrgsOf(rows: seq<Row<AccessOrg>>) returns (ok: bool, table: map<string, GitHubOrg>)
    ensures ok <==> Distinct(rows) && forall i :: 0 <= i < |rows| ==> Distinct(rows[i].entry.teams)
    ensures ok ==> Lists(rows, table, IsOrg)
  {
    table := map[];
    for i := 0 to |rows|
      invariant Distinct(rows[..i]) && Lists(rows[..i], table, IsOrg)
      invariant forall k :: 0 <= k < i ==> Distinct(rows[k].entry.teams)
    {
      if rows[i].name in table {
        OneMoreRow(rows, i, table, GitHubOrg([], map[], []), IsOrg);
        RepeatStays(rows, i + 1);
        return false, table;
      }
      var good, teams := TableOf(rows[i].entry.teams);
      if !good {
        return false, table;
      }
      var org := GitHubOrg(rows[i].entry.members, teams, rows[i].entry.ignore);
      OneMoreRow(rows, i, table, org, IsOrg);
      table := table[rows[i].name := org];
    }
    assert rows[..|rows|] == rows;
    ok := true;
  }

  method ThingsOf(rows: seq<Row<AccessThing>>) returns (ok: bool, table: map<string, ThingSpec>)
    ensures ok <==> Distinct(rows) && forall i :: 0 <= i < |rows| ==> Distinct(rows[i].entry.roles)
    ensures ok ==> Lists(rows, table, IsThing)
  {
    table := map[];
    for i := 0 to |rows|
      invariant Distinct(rows[..i]) && Lists(rows[..i], table, IsThing)
      invariant forall k :: 0 <= k < i ==> Distinct(rows[k].entry.roles)
    {
      if rows[i].name in table {
        OneMoreRow(rows, i, table, ThingSpec([], map[]), IsThing);
        RepeatStays(rows, i + 1);
        return false, table;
      }
      var good, roles := TableOf(rows[i].entry.roles);
      if !good {
        return false, table;
      }
      var thing := ThingSpec(rows[i].entry.scopes, roles);
      OneMoreRow(rows, i, table, thing, IsThing);
      table := table[rows[i].name := thing];
    }
    assert rows[..|rows|] == rows;
    ok := true;
  }

  predicate WellListedVocabulary(v: Option<AccessVocabulary>) {
    v.Some? ==>
      && Distinct(v.value.scopes) && Distinct(v.value.things)
      && forall i :: 0 <= i < |v.value.things| ==> Distinct(v.value.things[i].entry.roles)
  }

  ghost predicate IsVocabulary(v: Option<AccessVocabulary>, out: Option<Vocabulary>) {
    match (v, out)
    case (Some(rows), Some(vocabulary)) =>
      Lists(rows.scopes, vocabulary.scopes, Same) && Lists(rows.things, vocabulary.things, IsThing)
    case (None, None) => true
    case _ => false
  }

  method VocabularyOf(v: Option<AccessVocabulary>) returns (ok: bool, out: Option<Vocabulary>)
    ensures ok <==> WellListedVocabulary(v)
    ensures ok ==> IsVocabulary(v, out)
  {
    if v.None? {
      return true, None;
    }
    var scopes, things;
    ok, scopes := TableOf(v.value.scopes);
    if !ok {
      return false, None;
    }
    ok, things := ThingsOf(v.value.things);
    out := Some(Vocabulary(scopes, things));
  }

  /** A client needs a name; no other list asks for one. */
  predicate Named<R>(rows: seq<Row<R>>) {
    forall i :: 0 <= i < |rows| ==> rows[i].name != ""
  }

  method ClientsOf(rows: seq<Row<Client>>) returns (ok: bool, table: map<string, Client>)
    ensures ok <==> Distinct(rows) && Named(rows)
    ensures ok ==> Lists(rows, table, Same)
  {
    table := map[];
    for i := 0 to |rows|
      invariant Distinct(rows[..i]) && Named(rows[..i]) && Lists(rows[..i], table, Same)
    {
      if rows[i].name == "" {
        return false, table;
      }
      OneMoreRow(rows, i, table, rows[i].entry, Same);
      if rows[i].name in table {
        RepeatStays(rows, i + 1);
        return false, table;
      }
      table := table[rows[i].name := rows[i].entry];
    }
    assert rows[..|rows|] == rows;
    ok := true;
  }

  // ----- The document

  /** No list names anything twice, and every client has a name. */
  predicate WellListed(a: Access) {
    && Distinct(a.groups) && Distinct(a.people) && Distinct(a.resources)
    && Distinct(a.clients) && Named(a.clients)
    && Distinct(a.slack) && (forall i :: 0 <= i < |a.slack| ==> Distinct(a.slack[i].entry))
    && Distinct(a.github) && (forall i :: 0 <= i < |a.github| ==> Distinct(a.github[i].entry.teams))
    && WellListedVocabulary(a.vocabulary)
  }

  /** The policy says what the lists say, each entry once, and nothing else. */
  ghost predicate Derived(a: Access, p: Policy) {
    && p.lifetimes == a.lifetimes
    && Lists(a.groups, p.groups, IsGroup)
    && Lists(a.people, p.people, Same)
    && Lists(a.slack, p.slack, IsWorkspace)
    && Lists(a.github, p.github, IsOrg)
    && IsVocabulary(a.vocabulary, p.vocabulary)
    && Lists(a.clients, p.clients, Same)
    && Lists(a.resources, p.resources, Same)
    && p.documents == (if a.documents.Some? then a.documents.value else EMPTY_LAYER.documents)
    && p.claims == map[]
  }

  method DerivePolicy(a: Access) returns (ok: bool, p: Policy)
    ensures ok <==> WellListed(a)
    ensures ok ==> Derived(a, p) && p.version == 0
  {
    var groups, people, slack, github, vocabulary, clients, resources;
    p := EMPTY_LAYER.(version := 0, lifetimes := a.lifetimes);
    ok, groups := GroupsOf(a.groups);
    if !ok {
      return;
    }
    ok, people := TableOf(a.people);
    if !ok {
      return;
    }
    ok, slack := WorkspacesOf(a.slack);
    if !ok {
      return;
    }
    ok, github := OrgsOf(a.github);
    if !ok {
      return;
    }
    ok, vocabulary := VocabularyOf(a.vocabulary);
    if !ok {
      return;
    }
    ok, clients := ClientsOf(a.clients);
    if !ok {
      return;
    }
    p := p.(groups := groups, people := people, slack := slack, github := github, vocabulary := vocabulary, clients := clients);
    if a.documents.Some? {
      p := p.(documents := a.documents.value);
    }
    ok, resources := TableOf(a.resources);
    p := p.(resources := resources);
  }

  const NO_GROUP := Group([], [])

  function GroupOf(groups: map<string, Group>, name: string): Group {
    if name in groups then groups[name] else NO_GROUP
  }

  /** A group with the overlay's matchers after its own. */
  function WithMatchers(g: Group, more: seq<Matcher>): Group {
    g.(matchers := g.matchers + more)
  }

  /** Groups the overlay names get its matchers, and exist even when nothing else declares them. */
  function WithOverlayGroups(groups: map<string, Group>, overlay: map<string, seq<Matcher>>): map<string, Group> {
    map name | name in groups.Keys + overlay.Keys ::
      if name in overlay then WithMatchers(GroupOf(groups, name), overlay[name]) else groups[name]
  }

  function WithOverlay(p: Policy, overlay: Overlay): Policy {
    p.(groups := WithOverlayGroups(p.groups, overlay.groups), clients := p.clients + overlay.clients)
  }

  lemma OneMoreOverlayGroup(groups: map<string, Group>, part: map<string, seq<Matcher>>, name: string, more: seq<Matcher>)
    requires name !in part
    ensures GroupOf(WithOverlayGroups(groups, part), name) == GroupOf(groups, name)
    ensures WithOverlayGroups(groups, part[name := more]) ==
      WithOverlayGroups(groups, part)[name := WithMatchers(GroupOf(groups, name), more)]
  {
    assert forall k :: k in part ==> part[name := more][k] == part[k];
  }

  /** The overlay's groups, added in name order. */
  method AddOverlayGroups(groups: map<string, Group>, overlay: map<string, seq<Matcher>>) returns (out: map<string, Group>)
    ensures out == WithOverlayGroups(groups, overlay)
  {
    out := groups;
    var names := KeysInOrder(overlay);
    AllKeys(overlay, names);
    assert WithOverlayGroups(groups, map[]) == groups;
    for i := 0 to |names|
      invariant out == WithOverlayGroups(groups, Part(overlay, Upto(names, i)))
    {
      OneMoreKey(overlay, names, i);
      OneMoreOverlayGroup(groups, Part(overlay, Upto(names, i)), names[i], overlay[names[i]]);
      var group := GroupOf(out, names[i]);
      out := out[names[i] := WithMatchers(group, overlay[names[i]])];
    }
  }

  /** With the overlay a group has its own members, and its own matchers before the overlay's. */
  ghost predicate Extended(groups: map<string, Group>, overlay: map<string, seq<Matcher>>, name: string, out: Group) {
    match (name in groups, name in overlay)
    case (true, true) => out == Group(groups[name].members, groups[name].matchers + overlay[name])
    case (true, false) => out == groups[name]
    case (false, true) => out == Group([], overlay[name])
    case (false, false) => false
  }

  /** An overlay changes the groups it names and adds its clients, and leaves the rest alone. */
  lemma OverlayMeans(p: Policy, overlay: Overlay, name: string)
    ensures var q := WithOverlay(p, overlay);
      && q == p.(groups := q.groups, clients := p.clients + overlay.clients)
      && (name in q.groups <==> name in p.groups || name in overlay.groups)
      && (name in q.groups ==> Extended(p.groups, overlay.groups, name, q.groups[name]))
  {
  }

  /** The document as the layer it stands for. It is refused exactly when a list names something twice,
      a client has no name, or the overlay declares a client the lists declare too. */
  method DocumentPolicy(d: AccessDocument) returns (ok: bool, p: Policy)
    ensures ok <==> WellListed(d.access) && forall id :: id in d.overlay.clients ==> !Listed(d.access.clients, id)
    ensures ok ==> p.version == d.version && exists derived :: Derived(d.access, derived) && p == WithOverlay(derived, d.overlay)
  {
    ok, p := DerivePolicy(d.access);
    if !ok {
      return;
    }
    ghost var derived := p.(version := d.version);
    assert Derived(d.access, derived);
    p := p.(version := d.version);
    var groups := AddOverlayGroups(p.groups, d.overlay.groups);
    p := p.(groups := groups);
    var clients;
    ok, clients := MergeTable(p.clients, d.overlay.clients);
    p := p.(clients := clients);
  }

  // ----- What an overlay can change

  /** For every caller, everything the lists alone grant is still granted with the overlay. */
  lemma OverlayTakesNothingAway(p: Policy, overlay: Overlay, input: Input, name: string)
    requires Holds(p, input, name)
    ensures Holds(WithOverlay(p, overlay), input, name)
  {
    EvaluationIsMonotone(p, WithOverlay(p, overlay), input, input, name);
  }

  /** One of the overlay's own matchers admits the caller to a key. */
  ghost predicate OverlayMatches(overlay: Overlay, input: Input, key: string) {
    key in overlay.groups && exists m :: m in overlay.groups[key] && m in input.proves
  }

  /** A key matches with the overlay exactly when it did without it, or the overlay's own matchers do. */
  lemma MatchedWithOverlay(p: Policy, overlay: Overlay, input: Input, key: string)
    ensures Matched(WithOverlay(p, overlay), input, key) <==> Matched(p, input, key) || OverlayMatches(overlay, input, key)
  {
    var q := WithOverlay(p, overlay);
    if key in q.groups {
      MatchedMeans(q, input, key);
      if key in p.groups {
        MatchedMeans(p, input, key);
      }
    }
  }

  /** And everything it adds comes from one of its own matchers: a name is held with the overlay exactly
      when it is held without it, or implied by a target of a key the overlay admits the caller to. */
  lemma OverlayAddsOnlyItsOwn(p: Policy, overlay: Overlay, input: Input, name: string)
    ensures Holds(WithOverlay(p, overlay), input, name) <==>
      || Holds(p, input, name)
      || exists key, target :: OverlayMatches(overlay, input, key)
           && target in GroupKeyTargets(p.vocabulary, key) && Reaches(p.vocabulary, target, name)
  {
    var q := WithOverlay(p, overlay);
    if Holds(q, input, name) {
      var seed :| Seed(q, input, seed) && Reaches(q.vocabulary, seed, name);
      var key :| Matched(q, input, key) && seed in GroupKeyTargets(q.vocabulary, key);
      MatchedWithOverlay(p, overlay, input, key);
      if Matched(p, input, key) {
        assert Seed(p, input, seed);
      }
    }
    if Holds(p, input, name) {
      OverlayTakesNothingAway(p, overlay, input, name);
    }
    forall key, target | OverlayMatches(overlay, input, key)
        && target in GroupKeyTargets(p.vocabulary, key) && Reaches(p.vocabulary, target, name)
      ensures Holds(q, input, name)
    {
      MatchedWithOverlay(p, overlay, input, key);
      assert Seed(q, input, target);
    }
  }
}
