/** What a directory's files come to, entry by entry. */
module LayerEntries {
  import opened Wrappers
  import opened Text
  import opened Vocabularies
  import opened Fragments
  import opened Policies
  import opened Layers
  import opened LayerOrder

  /** One thing a file declares. An organisation or a workspace is declared in parts, which may come from
      different files. */
  datatype Entry =
    | Words(vocabulary: Vocabulary)
    | Documents(documents: ClientDocuments)
    | InGroups(name: string, group: Group)
    | InClaims(name: string, fragment: Fragment)
    | InLifetimes(name: string, lifetime: int)
    | InResources(name: string, resource: Resource)
    | InClients(name: string, client: Client)
    | InPeople(name: string, addresses: seq<string>)
    | Org(org: string)
    | Members(org: string, members: seq<string>)
    | Team(org: string, name: string, team: GitHubTeam)
    | Ignored(org: string, account: string)
    | Workspace(workspace: string)
    | Channel(workspace: string, name: string, channel: SlackChannel)

  predicate Entered<V(==)>(table: map<string, V>, name: string, value: V) {
    name in table && table[name] == value
  }

  predicate Says(p: Policy, e: Entry) {
    match e
    case Words(v) => p.vocabulary == Some(v)
    case Documents(d) => p.documents == d && d != ClientDocuments([], [], 0, GroupsOverride(false, []), false)
    case InGroups(k, v) => Entered(p.groups, k, v)
    case InClaims(k, v) => Entered(p.claims, k, v)
    case InLifetimes(k, v) => Entered(p.lifetimes, k, v)
    case InResources(k, v) => Entered(p.resources, k, v)
    case InClients(k, v) => Entered(p.clients, k, v)
    case InPeople(k, v) => Entered(p.people, k, v)
    case Org(o) => o in p.github
    case Members(o, list) => o in p.github && p.github[o].members == list && list != []
    case Team(o, k, v) => o in p.github && Entered(p.github[o].teams, k, v)
    case Ignored(o, account) => o in p.github && account in p.github[o].ignore
    case Workspace(w) => w in p.slack
    case Channel(w, k, v) => w in p.slack && Entered(p.slack[w].channels, k, v)
  }

  /** Two entries that only one file may declare between them, whatever they say. */
  predicate SamePlace(a: Entry, b: Entry) {
    || (a.Words? && b.Words?)
    || (a.Documents? && b.Documents?)
    || (a.InGroups? && b.InGroups? && a.name == b.name)
    || (a.InClaims? && b.InClaims? && a.name == b.name)
    || (a.InLifetimes? && b.InLifetimes? && a.name == b.name)
    || (a.InResources? && b.InResources? && a.name == b.name)
    || (a.InClients? && b.InClients? && a.name == b.name)
    || (a.InPeople? && b.InPeople? && a.name == b.name)
    || (a.Members? && b.Members? && a.org == b.org)
    || (a.Team? && b.Team? && a.org == b.org && a.name == b.name)
    || (a.Channel? && b.Channel? && a.workspace == b.workspace && a.name == b.name)
  }

  ghost predicate Clash(p: Policy, q: Policy) {
    exists a, b :: Says(p, a) && Says(q, b) && SamePlace(a, b)
  }

  // ----- When two files clash

  lemma TablesHaveNone(p: Policy, q: Policy, a: Entry, b: Entry)
    requires Clashless(p, q) && Says(p, a) && Says(q, b) && !InParts(a)
    ensures !SamePlace(a, b)
  {
  }

  lemma PartsHaveNone(p: Policy, q: Policy, a: Entry, b: Entry)
    requires GitHubApart(p.github, q.github) && SlackApart(p.slack, q.slack) && Says(p, a) && Says(q, b) && InParts(a)
    ensures !SamePlace(a, b)
  {
    if (a.Members? && b.Members?) || (a.Team? && b.Team?) {
      assert OrgsApart(OrgOf(p.github, b.org), q.github[b.org]);
    }
  }

  lemma SharedKey<V>(a: map<string, V>, b: map<string, V>) returns (k: string)
    requires !Apart(a, b)
    ensures k in a && k in b
  {
    k :| k in a && k in b;
  }

  lemma SharedTable(p: Policy, q: Policy) returns (a: Entry, b: Entry)
    requires !TablesApart(p, q) || !Apart(p.people, q.people)
    ensures Says(p, a) && Says(q, b) && SamePlace(a, b)
  {
    if !Apart(p.groups, q.groups) {
      var k := SharedKey(p.groups, q.groups);
      a, b := InGroups(k, p.groups[k]), InGroups(k, q.groups[k]);
    } else if !Apart(p.claims, q.claims) {
      var k := SharedKey(p.claims, q.claims);
      a, b := InClaims(k, p.claims[k]), InClaims(k, q.claims[k]);
    } else if !Apart(p.lifetimes, q.lifetimes) {
      var k := SharedKey(p.lifetimes, q.lifetimes);
      a, b := InLifetimes(k, p.lifetimes[k]), InLifetimes(k, q.lifetimes[k]);
    } else if !Apart(p.resources, q.resources) {
      var k := SharedKey(p.resources, q.resources);
      a, b := InResources(k, p.resources[k]), InResources(k, q.resources[k]);
    } else if !Apart(p.clients, q.clients) {
      var k := SharedKey(p.clients, q.clients);
      a, b := InClients(k, p.clients[k]), InClients(k, q.clients[k]);
    } else {
      var k := SharedKey(p.people, q.people);
      a, b := InPeople(k, p.people[k]), InPeople(k, q.people[k]);
    }
  }

  lemma SharedParts(p: Policy, q: Policy) returns (a: Entry, b: Entry)
    requires !GitHubApart(p.github, q.github) || !SlackApart(p.slack, q.slack)
    ensures Says(p, a) && Says(q, b) && SamePlace(a, b)
  {
    if !GitHubApart(p.github, q.github) {
      var o :| o in q.github && !OrgsApart(OrgOf(p.github, o), q.github[o]);
      if Apart(OrgOf(p.github, o).teams, q.github[o].teams) {
        a, b := Members(o, p.github[o].members), Members(o, q.github[o].members);
      } else {
        var k := SharedKey(OrgOf(p.github, o).teams, q.github[o].teams);
        a, b := Team(o, k, p.github[o].teams[k]), Team(o, k, q.github[o].teams[k]);
      }
    } else {
      var w :| w in q.slack && !Apart(WorkspaceOf(p.slack, w).channels, q.slack[w].channels);
      var k := SharedKey(WorkspaceOf(p.slack, w).channels, q.slack[w].channels);
      a, b := Channel(w, k, p.slack[w].channels[k]), Channel(w, k, q.slack[w].channels[k]);
    }
  }

  /** Two files can be folded together exactly when no entry of the one is in the place of an entry of the other. */
  lemma ClashlessMeans(p: Policy, q: Policy)
    ensures Clashless(p, q) <==> !Clash(p, q)
  {
    if Clashless(p, q) {
      forall a, b | Says(p, a) && Says(q, b)
        ensures !SamePlace(a, b)
      {
        if InParts(a) {
          PartsHaveNone(p, q, a, b);
        } else {
          TablesHaveNone(p, q, a, b);
        }
      }
    } else {
      var a, b;
      if p.vocabulary.Some? && q.vocabulary.Some? {
        a, b := Words(p.vocabulary.value), Words(q.vocabulary.value);
      } else if Declares(p.documents) && Declares(q.documents) {
        a, b := Documents(p.documents), Documents(q.documents);
      } else if !TablesApart(p, q) || !Apart(p.people, q.people) {
        a, b := SharedTable(p, q);
      } else {
        a, b := SharedParts(p, q);
      }
      assert Says(p, a) && Says(q, b) && SamePlace(a, b);
    }
  }

  // ----- What they come to

  lemma EnteredInBoth<V>(a: map<string, V>, b: map<string, V>, name: string, value: V)
    requires Apart(a, b)
    ensures Entered(a + b, name, value) <==> Entered(a, name, value) || Entered(b, name, value)
  {
  }

  predicate InParts(e: Entry) {
    e.Org? || e.Members? || e.Team? || e.Ignored? || e.Workspace? || e.Channel?
  }

  lemma CombinedTables(p: Policy, q: Policy, e: Entry)
    requires Clashless(p, q) && !InParts(e)
    ensures Says(Combined(p, q), e) <==> Says(p, e) || Says(q, e)
  {
    match e
    case InGroups(k, v) => EnteredInBoth(p.groups, q.groups, k, v);
    case InClaims(k, v) => EnteredInBoth(p.claims, q.claims, k, v);
    case InLifetimes(k, v) => EnteredInBoth(p.lifetimes, q.lifetimes, k, v);
    case InResources(k, v) => EnteredInBoth(p.resources, q.resources, k, v);
    case InClients(k, v) => EnteredInBoth(p.clients, q.clients, k, v);
    case InPeople(k, v) => EnteredInBoth(p.people, q.people, k, v);
    case _ =>
  }

  lemma CombinedOrgs(p: Policy, q: Policy, e: Entry)
    requires GitHubApart(p.github, q.github) && (e.Org? || e.Members? || e.Team? || e.Ignored?)
    ensures Says(Combined(p, q), e) <==> Says(p, e) || Says(q, e)
  {
    var a, b, m := OrgOf(p.github, e.org), OrgOf(q.github, e.org), OrgOf(MergedOrgs(p.github, q.github), e.org);
    MergedOrgIs(p.github, q.github, e.org);
    ApartEverywhere(p.github, q.github, e.org);
    match e
    case Ignored(_, account) => assert account in ToSet(m.ignore) <==> account in m.ignore;
    case Team(_, k, v) => EnteredInBoth(a.teams, b.teams, k, v);
    case _ =>
  }

  lemma CombinedWorkspaces(p: Policy, q: Policy, e: Entry)
    requires SlackApart(p.slack, q.slack) && (e.Workspace? || e.Channel?)
    ensures Says(Combined(p, q), e) <==> Says(p, e) || Says(q, e)
  {
    MergedWorkspaceIs(p.slack, q.slack, e.workspace);
  }

  lemma CombinedParts(p: Policy, q: Policy, e: Entry)
    requires Clashless(p, q) && InParts(e)
    ensures Says(Combined(p, q), e) <==> Says(p, e) || Says(q, e)
  {
    if e.Org? || e.Members? || e.Team? || e.Ignored? {
      CombinedOrgs(p, q, e);
    } else {
      CombinedWorkspaces(p, q, e);
    }
  }

  lemma CombinedSays(p: Policy, q: Policy, e: Entry)
    requires Clashless(p, q)
    ensures Says(Combined(p, q), e) <==> Says(p, e) || Says(q, e)
  {
    if InParts(e) {
      CombinedParts(p, q, e);
    } else {
      CombinedTables(p, q, e);
    }
  }

  /** Some file says it. */
  ghost predicate Said(layers: seq<Policy>, e: Entry) {
    exists i :: 0 <= i < |layers| && Says(layers[i], e)
  }

  /** When a directory loads, its policy says what some file says and nothing else: no entry is lost,
      overwritten, changed by another file, or made up. */
  lemma {:induction false} EveryEntryIsThere(layers: seq<Policy>, e: Entry)
    requires FoldLayers(layers).Some?
    ensures FoldLayers(layers).value.version == 1
    ensures Says(FoldLayers(layers).value, e) <==> Said(layers, e)
  {
    if layers != [] {
      var before, last := layers[..|layers| - 1], layers[|layers| - 1];
      EveryEntryIsThere(before, e);
      CombinedSays(FoldLayers(before).value, last, e);
      assert layers == before + [last];
      SaidNext(before, last, e);
    }
  }

  lemma SaidNext(before: seq<Policy>, last: Policy, e: Entry)
    ensures Said(before + [last], e) <==> Said(before, e) || Says(last, e)
  {
    var layers := before + [last];
    assert layers[|before|] == last;
    assert forall i :: 0 <= i < |before| ==> layers[i] == before[i];
  }

  /** No two of the files clash. */
  ghost predicate NoClashes(layers: seq<Policy>) {
    forall i, j :: 0 <= i < j < |layers| ==> !Clash(layers[i], layers[j])
  }

  predicate Current(layers: seq<Policy>) {
    forall i :: 0 <= i < |layers| ==> layers[i].version == 1
  }

  lemma FoldClashes(layers: seq<Policy>, q: Policy)
    requires FoldLayers(layers).Some?
    ensures Clash(FoldLayers(layers).value, q) <==> exists i :: 0 <= i < |layers| && Clash(layers[i], q)
  {
    if Clash(FoldLayers(layers).value, q) {
      var a, b :| Says(FoldLayers(layers).value, a) && Says(q, b) && SamePlace(a, b);
      EveryEntryIsThere(layers, a);
      var i :| 0 <= i < |layers| && Says(layers[i], a);
      assert Clash(layers[i], q);
    }
    forall i | 0 <= i < |layers| && Clash(layers[i], q)
      ensures Clash(FoldLayers(layers).value, q)
    {
      var a, b :| Says(layers[i], a) && Says(q, b) && SamePlace(a, b);
      EveryEntryIsThere(layers, a);
    }
  }

  /** A directory's files fold exactly when each is of the version understood and no two of them clash. */
  lemma {:induction false} LoadsWithoutClashes(layers: seq<Policy>)
    ensures FoldLayers(layers).Some? <==> Current(layers) && NoClashes(layers)
  {
    if layers != [] {
      var before, last := layers[..|layers| - 1], layers[|layers| - 1];
      LoadsWithoutClashes(before);
      assert layers == before + [last];
      if FoldLayers(before).Some? {
        ClashlessMeans(FoldLayers(before).value, last);
        FoldClashes(before, last);
        NextClashes(before, last);
      }
    }
  }

  lemma NextClashes(before: seq<Policy>, last: Policy)
    ensures NoClashes(before + [last]) <==> NoClashes(before) && forall i :: 0 <= i < |before| ==> !Clash(before[i], last)
    ensures Current(before + [last]) <==> Current(before) && last.version == 1
  {
    var layers := before + [last];
    assert layers[|before|] == last;
    assert forall i :: 0 <= i < |before| ==> layers[i] == before[i];
    if NoClashes(layers) {
      forall i, j | 0 <= i < j < |before|
        ensures !Clash(before[i], before[j])
      {
        assert !Clash(layers[i], layers[j]);
      }
      forall i | 0 <= i < |before|
        ensures !Clash(before[i], last)
      {
        assert !Clash(layers[i], layers[|before|]);
      }
    }
  }

  // ----- Which files are read

  /** The layers of a listing are those of its parts, one after the other. */
  lemma {:induction false} ListingInParts(a: seq<DirEntry>, b: seq<DirEntry>)
    ensures LayersIn(a + b) == LayersIn(a) + LayersIn(b)
  {
    if b == [] {
      assert a + b == a;
    } else {
      ListingInParts(a, b[..|b| - 1]);
      assert (a + b)[..|a + b| - 1] == a + b[..|b| - 1];
    }
  }

  /** A YAML file that can be read is one layer; anything else a directory lists is none. */
  lemma ListingOfOne(e: DirEntry)
    ensures e.yaml && e.layer.Some? ==> LayersIn([e]) == [e.layer.value]
    ensures !(e.yaml && e.layer.Some?) ==> LayersIn([e]) == []
  {
    assert [e][..0] == [];
    assert LayersIn([]) == [];
  }
}
