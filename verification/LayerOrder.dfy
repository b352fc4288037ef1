/** The order files are read in never shows: not in whether they load, and not in what they load. */
module LayerOrder {
  import opened Wrappers
  import opened Text
  import opened Policies
  import opened Layers
  import Merging

  /** The same organisation, up to the order accounts to ignore are listed in. */
  ghost predicate SameOrg(a: GitHubOrg, b: GitHubOrg) {
    a.members == b.members && a.teams == b.teams && ToSet(a.ignore) == ToSet(b.ignore)
  }

  ghost predicate SameGitHub(a: map<string, GitHubOrg>, b: map<string, GitHubOrg>) {
    a.Keys == b.Keys && forall org :: org in a ==> SameOrg(a[org], b[org])
  }

  /** The same policy, up to that. */
  ghost predicate Same(p: Policy, q: Policy) {
    SameGitHub(p.github, q.github) && p.(github := q.github) == q
  }

  ghost predicate SameOutcome(a: Option<Policy>, b: Option<Policy>) {
    match (a, b)
    case (Some(p), Some(q)) => Same(p, q)
    case (None, None) => true
    case _ => false
  }

  lemma {:induction false} AppendNewSet(into: seq<string>, from: seq<string>)
    ensures ToSet(AppendNew(into, from)) == ToSet(into) + ToSet(from)
  {
    if from != [] {
      var before, last := from[..|from| - 1], from[|from| - 1];
      AppendNewSet(into, before);
      assert from == before + [last];
      assert ToSet(from) == ToSet(before) + {last};
      assert ToSet(AppendNew(into, before) + [last]) == ToSet(AppendNew(into, before)) + {last};
    }
  }

  /** Accounts are added one by one, each unless it is there already. */
  lemma {:induction false} AppendNewInParts(into: seq<string>, a: seq<string>, b: seq<string>)
    ensures AppendNew(into, a + b) == AppendNew(AppendNew(into, a), b)
  {
    if b == [] {
      assert a + b == a;
    } else {
      AppendNewInParts(into, a, b[..|b| - 1]);
      assert (a + b)[..|a + b| - 1] == a + b[..|b| - 1];
    }
  }

  lemma AppendNewOne(into: seq<string>, account: string)
    ensures AppendNew(into, [account]) == if account in into then into else into + [account]
  {
    assert [account][..0] == [];
    assert AppendNew(into, []) == into;
  }

  // ----- Organisations

  /** What a merge of two organisation tables holds for one organisation. */
  lemma MergedOrgIs(a: map<string, GitHubOrg>, b: map<string, GitHubOrg>, org: string)
    ensures org in MergedOrgs(a, b) <==> org in a || org in b
    ensures var m := OrgOf(MergedOrgs(a, b), org);
      && (m.members == if OrgOf(b, org).members != [] then OrgOf(b, org).members else OrgOf(a, org).members)
      && m.teams == OrgOf(a, org).teams + OrgOf(b, org).teams
      && ToSet(m.ignore) == ToSet(OrgOf(a, org).ignore) + ToSet(OrgOf(b, org).ignore)
  {
    AppendNewSet(OrgOf(a, org).ignore, OrgOf(b, org).ignore);
    assert OrgOf(a, org).teams + map[] == OrgOf(a, org).teams;
  }

  /** Two organisation tables are apart exactly when they are at every organisation, declared or not. */
  lemma ApartEverywhere(a: map<string, GitHubOrg>, b: map<string, GitHubOrg>, org: string)
    requires GitHubApart(a, b)
    ensures OrgsApart(OrgOf(a, org), OrgOf(b, org))
  {
  }

  lemma MergedOrgsApart(p: map<string, GitHubOrg>, a: map<string, GitHubOrg>, b: map<string, GitHubOrg>)
    requires GitHubApart(p, a)
    ensures GitHubApart(MergedOrgs(p, a), b) <==> GitHubApart(p, b) && GitHubApart(a, b)
  {
    forall org | org in b
      ensures OrgsApart(OrgOf(MergedOrgs(p, a), org), b[org]) <==>
        OrgsApart(OrgOf(p, org), b[org]) && OrgsApart(OrgOf(a, org), b[org])
    {
      MergedOrgIs(p, a, org);
    }
  }

  lemma GitHubApartSymmetric(a: map<string, GitHubOrg>, b: map<string, GitHubOrg>)
    requires GitHubApart(a, b)
    ensures GitHubApart(b, a)
  {
    forall org | org in a
      ensures OrgsApart(OrgOf(b, org), a[org])
    {
      ApartEverywhere(a, b, org);
    }
  }

  lemma MergedOrgsSwap(p: map<string, GitHubOrg>, a: map<string, GitHubOrg>, b: map<string, GitHubOrg>)
    requires GitHubApart(p, a) && GitHubApart(p, b) && GitHubApart(a, b)
    ensures SameGitHub(MergedOrgs(MergedOrgs(p, a), b), MergedOrgs(MergedOrgs(p, b), a))
  {
    var pa, pb := MergedOrgs(p, a), MergedOrgs(p, b);
    forall org
      ensures org in MergedOrgs(pa, b) <==> org in MergedOrgs(pb, a)
      ensures SameOrg(OrgOf(MergedOrgs(pa, b), org), OrgOf(MergedOrgs(pb, a), org))
    {
      MergedOrgIs(p, a, org);
      MergedOrgIs(p, b, org);
      MergedOrgIs(pa, b, org);
      MergedOrgIs(pb, a, org);
      ApartEverywhere(p, a, org);
      ApartEverywhere(p, b, org);
      ApartEverywhere(a, b, org);
      TableSwap(OrgOf(p, org).teams, OrgOf(a, org).teams, OrgOf(b, org).teams);
    }
  }

  // ----- Tables

  lemma TableSwap<V>(p: map<string, V>, a: map<string, V>, b: map<string, V>)
    requires Apart(a, b)
    ensures p + a + b == p + b + a
  {
  }

  lemma TableApart<V>(p: map<string, V>, a: map<string, V>, b: map<string, V>)
    ensures Apart(p + a, b) <==> Apart(p, b) && Apart(a, b)
  {
    assert forall k :: k in p + a <==> k in p || k in a;
  }

  // ----- Workspaces

  lemma MergedWorkspaceIs(a: map<string, SlackWorkspace>, b: map<string, SlackWorkspace>, w: string)
    ensures w in MergedSlack(a, b) <==> w in a || w in b
    ensures WorkspaceOf(MergedSlack(a, b), w).channels == WorkspaceOf(a, w).channels + WorkspaceOf(b, w).channels
  {
    assert WorkspaceOf(a, w).channels + map[] == WorkspaceOf(a, w).channels;
  }

  lemma MergedSlackApart(p: map<string, SlackWorkspace>, a: map<string, SlackWorkspace>, b: map<string, SlackWorkspace>)
    ensures SlackApart(MergedSlack(p, a), b) <==> SlackApart(p, b) && SlackApart(a, b)
  {
    forall w | w in b
      ensures Apart(WorkspaceOf(MergedSlack(p, a), w).channels, b[w].channels) <==>
        Apart(WorkspaceOf(p, w).channels, b[w].channels) && Apart(WorkspaceOf(a, w).channels, b[w].channels)
    {
      MergedWorkspaceIs(p, a, w);
      TableApart(WorkspaceOf(p, w).channels, WorkspaceOf(a, w).channels, b[w].channels);
    }
  }

  lemma MergedSlackSwap(p: map<string, SlackWorkspace>, a: map<string, SlackWorkspace>, b: map<string, SlackWorkspace>)
    requires SlackApart(a, b)
    ensures MergedSlack(MergedSlack(p, a), b) == MergedSlack(MergedSlack(p, b), a)
  {
    var pa, pb := MergedSlack(p, a), MergedSlack(p, b);
    forall w
      ensures w in MergedSlack(pa, b) <==> w in MergedSlack(pb, a)
      ensures WorkspaceOf(MergedSlack(pa, b), w) == WorkspaceOf(MergedSlack(pb, a), w)
    {
      MergedWorkspaceIs(p, a, w);
      MergedWorkspaceIs(p, b, w);
      MergedWorkspaceIs(pa, b, w);
      MergedWorkspaceIs(pb, a, w);
      TableSwap(WorkspaceOf(p, w).channels, WorkspaceOf(a, w).channels, WorkspaceOf(b, w).channels);
    }
    assert MergedSlack(pa, b).Keys == MergedSlack(pb, a).Keys;
    forall w | w in MergedSlack(pa, b)
      ensures MergedSlack(pa, b)[w] == MergedSlack(pb, a)[w]
    {
      assert WorkspaceOf(MergedSlack(pa, b), w) == WorkspaceOf(MergedSlack(pb, a), w);
    }
  }

  // ----- Policies

  /** A third file clashes with two folded together exactly when it clashes with one of them. */
  lemma CombinedClashless(p: Policy, a: Policy, b: Policy)
    requires Clashless(p, a)
    ensures Clashless(Combined(p, a), b) <==> Clashless(p, b) && Clashless(a, b)
  {
    TableApart(p.groups, a.groups, b.groups);
    TableApart(p.claims, a.claims, b.claims);
    TableApart(p.lifetimes, a.lifetimes, b.lifetimes);
    TableApart(p.resources, a.resources, b.resources);
    TableApart(p.clients, a.clients, b.clients);
    TableApart(p.people, a.people, b.people);
    MergedOrgsApart(p.github, a.github, b.github);
    MergedSlackApart(p.slack, a.slack, b.slack);
  }

  lemma ClashlessSymmetric(a: Policy, b: Policy)
    requires Clashless(a, b)
    ensures Clashless(b, a)
  {
    GitHubApartSymmetric(a.github, b.github);
  }

  lemma CombinedSwap(p: Policy, a: Policy, b: Policy)
    requires Clashless(p, a) && Clashless(p, b) && Clashless(a, b)
    ensures Same(Combined(Combined(p, a), b), Combined(Combined(p, b), a))
  {
    TableSwap(p.groups, a.groups, b.groups);
    TableSwap(p.claims, a.claims, b.claims);
    TableSwap(p.lifetimes, a.lifetimes, b.lifetimes);
    TableSwap(p.resources, a.resources, b.resources);
    TableSwap(p.clients, a.clients, b.clients);
    TableSwap(p.people, a.people, b.people);
    MergedOrgsSwap(p.github, a.github, b.github);
    MergedSlackSwap(p.slack, a.slack, b.slack);
  }

  /** Two files fold in either order with the same outcome, failure included. */
  lemma StepsSwap(s: Option<Policy>, a: Policy, b: Policy)
    ensures SameOutcome(Step(Step(s, a), b), Step(Step(s, b), a))
  {
    if s.Some? && a.version == 1 && b.version == 1 {
      var p := s.value;
      if Clashless(p, a) {
        CombinedClashless(p, a, b);
      }
      if Clashless(p, b) {
        CombinedClashless(p, b, a);
      }
      if Clashless(a, b) {
        ClashlessSymmetric(a, b);
      }
      if Clashless(b, a) {
        ClashlessSymmetric(b, a);
      }
      if Clashless(p, a) && Clashless(p, b) && Clashless(a, b) {
        CombinedSwap(p, a, b);
      }
    }
  }

  /** The order of ignored accounts changes nothing later. */
  lemma StepKeepsSame(s: Option<Policy>, t: Option<Policy>, layer: Policy)
    requires SameOutcome(s, t)
    ensures SameOutcome(Step(s, layer), Step(t, layer))
  {
    if s.Some? {
      var p, q := s.value, t.value;
      forall org
        ensures SameOrg(OrgOf(p.github, org), OrgOf(q.github, org))
      {
      }
      assert Clashless(p, layer) <==> Clashless(q, layer);
      forall org | org in MergedOrgs(p.github, layer.github)
        ensures SameOrg(MergedOrgs(p.github, layer.github)[org], MergedOrgs(q.github, layer.github)[org])
      {
        MergedOrgIs(p.github, layer.github, org);
        MergedOrgIs(q.github, layer.github, org);
      }
    }
  }

  lemma SameTransitive(a: Option<Policy>, b: Option<Policy>, c: Option<Policy>)
    requires SameOutcome(a, b) && SameOutcome(b, c)
    ensures SameOutcome(a, c)
  {
  }

  /** A file read in the middle could have been read last. */
  lemma {:induction false} FoldMoves(x: seq<Policy>, q: Policy, y: seq<Policy>)
    ensures SameOutcome(FoldLayers(x + [q] + y), Step(FoldLayers(x + y), q))
    decreases |y|
  {
    if y == [] {
      assert x + [q] + y == x + [q] && x + y == x;
      FoldNext(x, q);
    } else {
      var y', z := y[..|y| - 1], y[|y| - 1];
      assert x + [q] + y == (x + [q] + y') + [z] && x + y == (x + y') + [z];
      FoldNext(x + [q] + y', z);
      FoldNext(x + y', z);
      FoldMoves(x, q, y');
      StepKeepsSame(FoldLayers(x + [q] + y'), Step(FoldLayers(x + y'), q), z);
      StepsSwap(FoldLayers(x + y'), q, z);
      SameTransitive(FoldLayers(x + [q] + y), Step(Step(FoldLayers(x + y'), q), z), Step(FoldLayers(x + y), q));
    }
  }

  /** Any two orders of the same files fail together or give the same policy, up to the order of the
      accounts to ignore. */
  lemma {:induction false} OrderDoesNotShow(a: seq<Policy>, b: seq<Policy>)
    requires multiset(a) == multiset(b)
    ensures SameOutcome(FoldLayers(a), FoldLayers(b))
    decreases |b|
  {
    if b == [] {
      assert |multiset(a)| == 0;
    } else {
      var rest, q := b[..|b| - 1], b[|b| - 1];
      assert b == rest + [q];
      assert q in multiset(b) && q in a;
      var i :| 0 <= i < |a| && a[i] == q;
      var x, y := a[..i], a[i + 1..];
      assert a == x + [q] + y;
      Merging.Without(x, q, y, rest);
      OrderDoesNotShow(x + y, rest);
      FoldMoves(x, q, y);
      FoldNext(rest, q);
      StepKeepsSame(FoldLayers(x + y), FoldLayers(rest), q);
      SameTransitive(FoldLayers(a), Step(FoldLayers(x + y), q), FoldLayers(b));
    }
  }
}
