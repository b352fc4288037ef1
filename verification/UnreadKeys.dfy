/** The lint for keys nothing reads: a table of every name that is read, marked table by table. */
module UnreadKeys {
  import opened Text
  import opened Policies
  import opened Scoping
  import opened Wrappers
  import opened Grants
  import opened Meanings

  method Mark(consumed: set<string>, names: seq<string>) returns (more: set<string>)
    ensures more == consumed + ToSet(names)
  {
    more := consumed;
    for i := 0 to |names|
      invariant more == consumed + ToSet(names[..i])
    {
      assert names[..i + 1] == names[..i] + [names[i]];
      more := more + {names[i]};
    }
    assert names[..|names|] == names;
  }

  method MarkClients(p: Policy, consumed: set<string>) returns (more: set<string>)
    ensures forall n :: n in more <==> n in consumed || exists id :: id in p.clients && n in p.clients[id].needs
  {
    more := consumed;
    var todo := p.clients.Keys;
    while todo != {}
      invariant todo <= p.clients.Keys
      invariant forall n :: n in more <==>
        n in consumed || exists id :: id in p.clients && id !in todo && n in p.clients[id].needs
      decreases todo
    {
      var id :| id in todo;
      todo := todo - {id};
      more := Mark(more, p.clients[id].needs);
    }
  }

  method MarkResources(p: Policy, consumed: set<string>) returns (more: set<string>)
    ensures forall n :: n in more <==> n in consumed || exists id :: id in p.resources && n in p.resources[id].needs
  {
    more := consumed;
    var todo := p.resources.Keys;
    while todo != {}
      invariant todo <= p.resources.Keys
      invariant forall n :: n in more <==>
        n in consumed || exists id :: id in p.resources && id !in todo && n in p.resources[id].needs
      decreases todo
    {
      var id :| id in todo;
      todo := todo - {id};
      more := Mark(more, p.resources[id].needs);
    }
  }

  /** One target against every override, the document clients' first. */
  method OverrideReaches(p: Policy, target: string) returns (reached: bool)
    ensures reached <==> Overridden(p, target)
  {
    if Keeps(target, {}, p.documents.groups) {
      return true;
    }
    var todo := p.clients.Keys;
    while todo != {}
      invariant todo <= p.clients.Keys
      invariant forall id :: id in p.clients && id !in todo ==> !Keeps(target, {}, p.clients[id].groups)
      decreases todo
    {
      var id :| id in todo;
      todo := todo - {id};
      if Keeps(target, {}, p.clients[id].groups) {
        return true;
      }
    }
    todo := p.resources.Keys;
    while todo != {}
      invariant todo <= p.resources.Keys
      invariant forall id :: id in p.resources && id !in todo ==> !Keeps(target, {}, p.resources[id].groups)
      decreases todo
    {
      var id :| id in todo;
      todo := todo - {id};
      if Keeps(target, {}, p.resources[id].groups) {
        return true;
      }
    }
    return false;
  }

  /** The targets of one key that an override reads. A name marked before is not asked about again. */
  method MarkTargets(p: Policy, targets: seq<string>, consumed: set<string>) returns (more: set<string>)
    ensures forall n :: n in more <==> n in consumed || (n in targets && Overridden(p, n))
  {
    more := consumed;
    for i := 0 to |targets|
      invariant forall n :: n in more <==> n in consumed || (n in targets[..i] && Overridden(p, n))
    {
      assert targets[..i + 1] == targets[..i] + [targets[i]];
      if targets[i] in more {
        continue;
      }
      var reached := OverrideReaches(p, targets[i]);
      if reached {
        more := more + {targets[i]};
      }
    }
    assert targets[..|targets|] == targets;
  }

  method MarkOverridden(p: Policy, consumed: set<string>) returns (more: set<string>)
    ensures forall n :: n in more <==> n in consumed || (Targeted(p, n) && Overridden(p, n))
  {
    more := consumed;
    var todo := p.groups.Keys;
    while todo != {}
      invariant todo <= p.groups.Keys
      invariant forall n :: n in more <==> n in consumed || (TargetedBy(p, p.groups.Keys - todo, n) && Overridden(p, n))
      decreases todo
    {
      var key :| key in todo;
      OneMoreKey(p, p.groups.Keys - todo, key);
      assert p.groups.Keys - (todo - {key}) == p.groups.Keys - todo + {key};
      todo := todo - {key};
      more := MarkTargets(p, GroupKeyTargets(p.vocabulary, key), more);
    }
    assert p.groups.Keys - {} == p.groups.Keys;
  }

  /** Some of these keys stands for the name. */
  ghost predicate TargetedBy(p: Policy, keys: set<string>, name: string) {
    exists key :: key in keys && name in GroupKeyTargets(p.vocabulary, key)
  }

  lemma OneMoreKey(p: Policy, keys: set<string>, key: string)
    ensures forall n :: TargetedBy(p, keys + {key}, n) <==> TargetedBy(p, keys, n) || n in GroupKeyTargets(p.vocabulary, key)
  {
    forall n
      ensures TargetedBy(p, keys + {key}, n) <==> TargetedBy(p, keys, n) || n in GroupKeyTargets(p.vocabulary, key)
    {
      assert key in keys + {key};
    }
  }

  method MarkHubTargets(targets: seq<string>, consumed: set<string>) returns (more: set<string>)
    ensures forall n :: n in more <==> n in consumed || (n in targets && HubRole(n))
  {
    more := consumed;
    for i := 0 to |targets|
      invariant forall n :: n in more <==> n in consumed || (n in targets[..i] && HubRole(n))
    {
      assert targets[..i + 1] == targets[..i] + [targets[i]];
      if HubRole(targets[i]) {
        more := more + {targets[i]};
      }
    }
    assert targets[..|targets|] == targets;
  }

  /** The roles the hub itself reads out of a token. */
  method MarkHubRoles(p: Policy, consumed: set<string>) returns (more: set<string>)
    ensures forall n :: n in more <==> n in consumed || (Targeted(p, n) && HubRole(n))
  {
    more := consumed;
    var todo := p.groups.Keys;
    while todo != {}
      invariant todo <= p.groups.Keys
      invariant forall n :: n in more <==> n in consumed || (TargetedBy(p, p.groups.Keys - todo, n) && HubRole(n))
      decreases todo
    {
      var key :| key in todo;
      OneMoreKey(p, p.groups.Keys - todo, key);
      assert p.groups.Keys - (todo - {key}) == p.groups.Keys - todo + {key};
      todo := todo - {key};
      more := MarkHubTargets(GroupKeyTargets(p.vocabulary, key), more);
    }
    assert p.groups.Keys - {} == p.groups.Keys;
  }

  /** One organisation's members, and its teams' members and maintainers. */
  ghost predicate BoundInOrg(org: GitHubOrg, name: string) {
    || name in org.members
    || exists team :: team in org.teams && (name in org.teams[team].members || name in org.teams[team].maintainers)
  }

  method MarkOrg(org: GitHubOrg, consumed: set<string>) returns (more: set<string>)
    ensures forall n :: n in more <==> n in consumed || BoundInOrg(org, n)
  {
    more := Mark(consumed, org.members);
    var todo := org.teams.Keys;
    while todo != {}
      invariant todo <= org.teams.Keys
      invariant forall n :: n in more <==>
        || n in consumed || n in org.members
        || exists team :: team in org.teams && team !in todo && (n in org.teams[team].members || n in org.teams[team].maintainers)
      decreases todo
    {
      var team :| team in todo;
      todo := todo - {team};
      more := Mark(more, org.teams[team].members);
      more := Mark(more, org.teams[team].maintainers);
    }
  }

  method MarkGitHub(p: Policy, consumed: set<string>) returns (more: set<string>)
    ensures forall n :: n in more <==> n in consumed || exists org :: org in p.github && BoundInOrg(p.github[org], n)
  {
    more := consumed;
    var todo := p.github.Keys;
    while todo != {}
      invariant todo <= p.github.Keys
      invariant forall n :: n in more <==>
        n in consumed || exists org :: org in p.github && org !in todo && BoundInOrg(p.github[org], n)
      decreases todo
    {
      var org :| org in todo;
      todo := todo - {org};
      more := MarkOrg(p.github[org], more);
    }
  }

  ghost predicate BoundInWorkspace(w: SlackWorkspace, name: string) {
    exists c :: c in w.channels && name in w.channels[c].from
  }

  method MarkWorkspace(w: SlackWorkspace, consumed: set<string>) returns (more: set<string>)
    ensures forall n :: n in more <==> n in consumed || BoundInWorkspace(w, n)
  {
    more := consumed;
    var todo := w.channels.Keys;
    while todo != {}
      invariant todo <= w.channels.Keys
      invariant forall n :: n in more <==> n in consumed || exists c :: c in w.channels && c !in todo && n in w.channels[c].from
      decreases todo
    {
      var c :| c in todo;
      todo := todo - {c};
      more := Mark(more, w.channels[c].from);
    }
  }

  method MarkSlack(p: Policy, consumed: set<string>) returns (more: set<string>)
    ensures forall n :: n in more <==> n in consumed || exists w :: w in p.slack && BoundInWorkspace(p.slack[w], n)
  {
    more := consumed;
    var todo := p.slack.Keys;
    while todo != {}
      invariant todo <= p.slack.Keys
      invariant forall n :: n in more <==> n in consumed || exists w :: w in p.slack && w !in todo && BoundInWorkspace(p.slack[w], n)
      decreases todo
    {
      var w :| w in todo;
      todo := todo - {w};
      more := MarkWorkspace(p.slack[w], more);
    }
  }

  lemma BoundMeans(p: Policy, name: string)
    ensures Bound(p, name) <==>
      || (exists org :: org in p.github && BoundInOrg(p.github[org], name))
      || (exists w :: w in p.slack && BoundInWorkspace(p.slack[w], name))
  {
  }

  /** The whole table. Overrides and the hub are asked about declared targets only, so that is where it
      says exactly what is read. */
  method ConsumedTable(p: Policy, catalogue: set<string>) returns (consumed: set<string>)
    ensures forall n :: Targeted(p, n) ==> (n in consumed <==> Consumed(p, catalogue, n))
  {
    consumed := MarkClients(p, {});
    consumed := MarkResources(p, consumed);
    consumed := Mark(consumed, p.documents.needs);
    ghost var needed := consumed;
    assert forall n :: n in needed <==> Required(p, n);
    consumed := MarkOverridden(p, consumed);
    consumed := MarkGitHub(p, consumed);
    consumed := MarkSlack(p, consumed);
    consumed := MarkHubRoles(p, consumed);
    consumed := consumed + catalogue;
    forall n | Targeted(p, n)
      ensures n in consumed <==> Consumed(p, catalogue, n)
    {
      BoundMeans(p, n);
    }
  }

  /** Something reads the name: a requires list has it; a token some override governs carries it for the
      override's sake alone; a GitHub or Slack binding names it; it is one of the hub's own two roles, in any
      scope; or the catalogue has it. */
  ghost predicate Read(p: Policy, catalogue: set<string>, name: string) {
    || (exists id :: id in p.clients && (name in p.clients[id].needs || Carried(name, [], p.clients[id].groups)))
    || (exists id :: id in p.resources && (name in p.resources[id].needs || Carried(name, [], p.resources[id].groups)))
    || name in p.documents.needs || Carried(name, [], p.documents.groups)
    || (exists org :: org in p.github && BoundInOrg(p.github[org], name))
    || (exists w :: w in p.slack && BoundInWorkspace(p.slack[w], name))
    || (exists g :: SplitGroup(name) == Some(g) && g.thing == "access-roster" && (g.role == "operator" || g.role == "viewer"))
    || name in catalogue
  }

  lemma ConsumedMeans(p: Policy, catalogue: set<string>, name: string)
    ensures Consumed(p, catalogue, name) <==> Read(p, catalogue, name)
  {
    BoundMeans(p, name);
    forall override
      ensures Keeps(name, {}, override) <==> Carried(name, [], override)
    {
      KeepsMeans(name, [], override);
      assert PairsOf([]) == {};
    }
    HubRoleMeans(name);
  }

  lemma HubRoleMeans(name: string)
    ensures HubRole(name) <==>
      exists g :: SplitGroup(name) == Some(g) && g.thing == "access-roster" && (g.role == "operator" || g.role == "viewer")
  {
  }

  /** A key is reported exactly when it is no rung and no person, and nothing reads anything it stands for. */
  ghost predicate Reported(p: Policy, catalogue: set<string>, key: string) {
    && key in p.groups
    && !(|key| >= 5 && key[..5] == "rung:") && !(|key| >= 4 && key[..4] == "emp:")
    && forall t :: StandsFor(p.vocabulary, key, t) ==> !Read(p, catalogue, t)
  }

  lemma UnconsumedMeans(p: Policy, catalogue: set<string>, key: string)
    ensures IsUnconsumed(p, catalogue, key) <==> Reported(p, catalogue, key)
  {
    forall t
      ensures t in GroupKeyTargets(p.vocabulary, key) <==> StandsFor(p.vocabulary, key, t)
      ensures Consumed(p, catalogue, t) <==> Read(p, catalogue, t)
    {
      TargetsMean(p.vocabulary, key, t);
      ConsumedMeans(p, catalogue, t);
    }
  }

  /** Where an override keeps everything, everything is read: no key that stands for a name is reported. */
  lemma AllReadsEverything(p: Policy, catalogue: set<string>, key: string, target: string)
    requires StandsFor(p.vocabulary, key, target)
    requires p.documents.groups.all || (exists id :: id in p.clients && p.clients[id].groups.all)
      || exists id :: id in p.resources && p.resources[id].groups.all
    ensures !Reported(p, catalogue, key)
  {
    assert Read(p, catalogue, target);
  }

  /** The lint: every declared grant none of whose targets anything reads, sorted. */
  method Unconsumed(p: Policy, catalogue: set<string>) returns (out: seq<string>)
    ensures StrictlySorted(out) && forall key :: key in out <==> Reported(p, catalogue, key)
  {
    out := Unread(p, catalogue);
    forall key
      ensures IsUnconsumed(p, catalogue, key) <==> Reported(p, catalogue, key)
    {
      UnconsumedMeans(p, catalogue, key);
    }
  }

  method Unread(p: Policy, catalogue: set<string>) returns (out: seq<string>)
    ensures StrictlySorted(out) && forall key :: key in out <==> IsUnconsumed(p, catalogue, key)
  {
    var consumed := ConsumedTable(p, catalogue);
    var found: set<string> := {};
    var todo := p.groups.Keys;
    while todo != {}
      invariant todo <= p.groups.Keys
      invariant forall key :: key in found <==> key !in todo && IsUnconsumed(p, catalogue, key)
      decreases todo
    {
      var name :| name in todo;
      todo := todo - {name};
      if !NotAGrant(name) {
        var any := AnyConsumed(GroupKeyTargets(p.vocabulary, name), consumed);
        if !any {
          found := found + {name};
        }
      }
    }
    out := Sorted(found);
  }

  method AnyConsumed(targets: seq<string>, consumed: set<string>) returns (any: bool)
    ensures any <==> exists t :: t in targets && t in consumed
  {
    for i := 0 to |targets|
      invariant forall j :: 0 <= j < i ==> targets[j] !in consumed
    {
      if targets[i] in consumed {
        assert targets[i] in targets;
        return true;
      }
    }
    return false;
  }
}
