/** The claims an evaluation returns: the held groups' fragments folded, and the groups' own names. */
module HeldClaims {
  import opened Fragments
  import opened Merging
  import opened ClaimPaths
  import opened FragmentCheck
  import opened ClaimTables

  /** The fragments of some groups, in their order; a group may have none. */
  function FragmentsHeld(claims: map<string, Fragment>, groups: seq<string>): seq<Fragment> {
    if groups == [] then []
    else
      var before, last := FragmentsHeld(claims, groups[..|groups| - 1]), groups[|groups| - 1];
      if last in claims then before + [claims[last]] else before
  }

  const GROUPS := "groups"

  function NameItems(groups: seq<string>): (r: seq<Value>)
    ensures |r| == |groups|
  {
    seq(|groups|, i requires 0 <= i < |groups| => Leaf(Scalar(0, groups[i])))
  }

  /** The names, put in with whatever list the fragments gave under the same key. */
  function WithGroups(claims: Fragment, groups: seq<string>): Fragment {
    if groups == [] then claims
    else if GROUPS in claims && claims[GROUPS].List? then claims[GROUPS := List(Union(claims[GROUPS].items, NameItems(groups)))]
    else claims[GROUPS := List(NameItems(groups))]
  }

  function ClaimsOf(claims: map<string, Fragment>, groups: seq<string>): Fragment {
    WithGroups(FoldClaims(FragmentsHeld(claims, groups)).into, groups)
  }

  // ----- The load-time check, carried over

  /** What load-time validation should have ruled out. */
  ghost predicate Accepted(claims: map<string, Fragment>) {
    Functional(AllLeaves(claims)) && KindsAgree(claims)
  }

  lemma HeldAreFrom(claims: map<string, Fragment>, groups: seq<string>)
    ensures From(Views(FragmentsHeld(claims, groups)), Family(claims))
  {
    forall v | v in Views(FragmentsHeld(claims, groups))
      ensures v in Family(claims)
    {
      var i :| 0 <= i < |FragmentsHeld(claims, groups)| && v == Views(FragmentsHeld(claims, groups))[i];
      HeldIsDeclared(claims, groups, FragmentsHeld(claims, groups)[i]);
    }
  }

  lemma {:induction false} HeldIsDeclared(claims: map<string, Fragment>, groups: seq<string>, f: Fragment)
    requires f in FragmentsHeld(claims, groups)
    ensures exists g :: g in claims && g in groups && claims[g] == f
  {
    var n := |groups| - 1;
    if f in FragmentsHeld(claims, groups[..n]) {
      HeldIsDeclared(claims, groups[..n], f);
      var g :| g in claims && g in groups[..n] && claims[g] == f;
      assert g in groups;
    } else {
      assert groups[n] in groups;
    }
  }

  /** What the fragments of the held groups say together. */
  ghost function Together(claims: map<string, Fragment>, groups: seq<string>): (v: View)
    requires Accepted(claims)
    ensures v.VTable?
  {
    AcceptedFamily(claims);
    HeldAreFrom(claims, groups);
    JoinAll(Views(FragmentsHeld(claims, groups)), Family(claims))
  }

  /** And with the names put in: joined to a list that is there, in place of anything else. */
  ghost function WithNames(v: View, groups: seq<string>): View
    requires v.VTable?
  {
    if groups == [] then v
    else if GROUPS in v.entries && v.entries[GROUPS].VList? then VTable(v.entries[GROUPS := Join(v.entries[GROUPS], VList(groups))])
    else VTable(v.entries[GROUPS := VList(groups)])
  }

  /** What acceptance at load promises of an evaluation: whichever groups are held, no fragment of theirs
      is ever abandoned, */
  lemma HeldNeverConflict(claims: map<string, Fragment>, groups: seq<string>)
    requires Accepted(claims)
    ensures FoldClaims(FragmentsHeld(claims, groups)).ok
    ensures ViewOf(Table(FoldClaims(FragmentsHeld(claims, groups)).into)) == Together(claims, groups)
  {
    AcceptedFamily(claims);
    HeldAreFrom(claims, groups);
    FoldIsJoinAll(FragmentsHeld(claims, groups), Family(claims));
  }

  lemma NamesView(groups: seq<string>)
    ensures ViewOf(List(NameItems(groups))) == VList(groups)
  {
  }

  lemma ViewOfEntry(claims: Fragment, key: string, value: Value)
    ensures ViewOf(Table(claims[key := value])) == VTable(ViewOf(Table(claims)).entries[key := ViewOf(value)])
  {
  }

  lemma WithGroupsReads(claims: Fragment, groups: seq<string>)
    ensures ViewOf(Table(WithGroups(claims, groups))) == WithNames(ViewOf(Table(claims)), groups)
  {
    NamesView(groups);
    if groups != [] {
      if GROUPS in claims && claims[GROUPS].List? {
        UnionView(claims[GROUPS].items, NameItems(groups));
        ViewOfEntry(claims, GROUPS, List(Union(claims[GROUPS].items, NameItems(groups))));
      } else {
        ViewOfEntry(claims, GROUPS, List(NameItems(groups)));
      }
    }
  }

  /** and the claims read as everything those fragments say, and the names. */
  lemma ClaimsRead(claims: map<string, Fragment>, groups: seq<string>)
    requires Accepted(claims)
    ensures ViewOf(Table(ClaimsOf(claims, groups))) == WithNames(Together(claims, groups), groups)
  {
    HeldNeverConflict(claims, groups);
    WithGroupsReads(FoldClaims(FragmentsHeld(claims, groups)).into, groups);
  }

  ghost predicate ListedUnder(v: View, key: string, text: string)
    requires v.VTable?
  {
    key in v.entries && v.entries[key].VList? && text in v.entries[key].texts
  }

  /** The names, and whatever list the fragments give with them, are under "groups"; everything else is as the
      fragments say it. */
  lemma NamesAreThere(claims: map<string, Fragment>, groups: seq<string>, key: string, text: string)
    requires Accepted(claims)
    ensures var v, t := ViewOf(Table(ClaimsOf(claims, groups))), Together(claims, groups);
      && (key != "groups" || groups == [] ==> (key in v.entries <==> key in t.entries) && (key in t.entries ==> v.entries[key] == t.entries[key]))
      && (groups != [] ==> (ListedUnder(v, "groups", text) <==> text in groups || ListedUnder(t, "groups", text)))
  {
    ClaimsRead(claims, groups);
    var t := Together(claims, groups);
    if "groups" in t.entries && t.entries["groups"].VList? {
      var joined := Join(t.entries["groups"], VList(groups));
      assert text in joined.texts <==> text in t.entries["groups"].texts || text in groups;
    }
  }

  /** No held fragment is lost: joining it once more adds nothing. */
  lemma {:induction false} NothingIsLost(claims: map<string, Fragment>, groups: seq<string>, g: string)
    requires Accepted(claims) && g in groups && g in claims
    ensures Compatible(Together(claims, groups), ViewOf(Table(claims[g])))
    ensures Says(Together(claims, groups), ViewOf(Table(claims[g])))
  {
    AcceptedFamily(claims);
    HeldAreFrom(claims, groups);
    var n := |groups| - 1;
    var views := Views(FragmentsHeld(claims, groups));
    var mine := ViewOf(Table(claims[g]));
    assert mine in Family(claims);
    if groups[n] in claims {
      var before := FragmentsHeld(claims, groups[..n]);
      assert views == Views(before) + [ViewOf(Table(claims[groups[n]]))];
      assert views[..|views| - 1] == Views(before);
      HeldAreFrom(claims, groups[..n]);
      JoinSays(Together(claims, groups[..n]), ViewOf(Table(claims[groups[n]])));
    }
    if groups[n] != g {
      NothingIsLost(claims, groups[..n], g);
      if groups[n] in claims {
        SaysMore(Together(claims, groups), Together(claims, groups[..n]), mine);
      }
    }
  }

  /** `v` says at least what `part` does: each scalar, each item of each list, each entry of each table. */
  predicate Says(v: View, part: View) {
    match part
    case VLeaf(_) => v == part
    case VList(texts) => v.VList? && forall t :: t in texts ==> t in v.texts
    case VTable(entries) => v.VTable? && forall k :: k in entries ==> k in v.entries && Says(v.entries[k], entries[k])
  }

  lemma {:induction false} SaysItself(v: View)
    ensures Says(v, v)
  {
    if v.VTable? {
      forall k | k in v.entries
        ensures Says(v.entries[k], v.entries[k])
      {
        SaysItself(v.entries[k]);
      }
    }
  }

  lemma {:induction false} SaysMore(a: View, b: View, c: View)
    requires Says(a, b) && Says(b, c)
    ensures Says(a, c)
    decreases c
  {
    if c.VTable? {
      forall k | k in c.entries
        ensures k in a.entries && Says(a.entries[k], c.entries[k])
      {
        SaysMore(a.entries[k], b.entries[k], c.entries[k]);
      }
    }
  }

  /** A join says what either side does. */
  lemma {:induction false} JoinSays(a: View, b: View)
    requires Compatible(a, b)
    ensures Says(Join(a, b), a) && Says(Join(a, b), b)
  {
    match a
    case VLeaf(_) =>
    case VList(_) =>
    case VTable(entries) =>
      forall k | k in entries
        ensures Says(Join(a, b).entries[k], entries[k])
      {
        if k in b.entries {
          JoinSays(entries[k], b.entries[k]);
        } else {
          SaysItself(entries[k]);
        }
      }
      forall k | k in b.entries
        ensures Says(Join(a, b).entries[k], b.entries[k])
      {
        if k in entries {
          JoinSays(entries[k], b.entries[k]);
        } else {
          SaysItself(b.entries[k]);
        }
      }
  }

  /** And nothing more: whatever says what both sides do says what the join does. */
  lemma {:induction false} JoinSaysNoMore(v: View, a: View, b: View)
    requires Compatible(a, b) && Says(v, a) && Says(v, b)
    ensures Says(v, Join(a, b))
    decreases a
  {
    if a.VTable? {
      forall k | k in Join(a, b).entries
        ensures k in v.entries && Says(v.entries[k], Join(a, b).entries[k])
      {
        if k in a.entries && k in b.entries {
          JoinSaysNoMore(v.entries[k], a.entries[k], b.entries[k]);
        }
      }
    }
  }

  /** So the claims the held fragments make together are the least that say what each of them does. */
  lemma {:induction false} TogetherIsLeast(claims: map<string, Fragment>, groups: seq<string>, v: View)
    requires Accepted(claims) && v.VTable?
    requires forall g :: g in groups && g in claims ==> Says(v, ViewOf(Table(claims[g])))
    ensures Says(v, Together(claims, groups))
  {
    AcceptedFamily(claims);
    HeldAreFrom(claims, groups);
    if groups != [] {
      var n := |groups| - 1;
      var views := Views(FragmentsHeld(claims, groups));
      TogetherIsLeast(claims, groups[..n], v);
      HeldAreFrom(claims, groups[..n]);
      if groups[n] in claims {
        assert views == Views(FragmentsHeld(claims, groups[..n])) + [ViewOf(Table(claims[groups[n]]))];
        assert views[..|views| - 1] == Views(FragmentsHeld(claims, groups[..n]));
        JoinSaysNoMore(v, Together(claims, groups[..n]), ViewOf(Table(claims[groups[n]])));
      }
    }
  }

  // ----- In the heap

  /** The policy's fragments as they are kept: maps of `region` that read as `claims`. */
  ghost predicate KeptAs(fragments: map<string, GoMap>, claims: map<string, Fragment>, region: set<GoMap>)
    reads region
  {
    && fragments.Keys == claims.Keys
    && forall g :: g in claims ==> fragments[g] in region && ShowsTable(fragments[g].entries, claims[g], region)
  }

  method HeldFragments(fragments: map<string, GoMap>, groups: seq<string>, ghost claims: map<string, Fragment>, ghost region: set<GoMap>)
      returns (held: seq<GoMap>)
    requires KeptAs(fragments, claims, region)
    ensures AllShown(held, FragmentsHeld(claims, groups), region)
  {
    held := [];
    for i := 0 to |groups|
      invariant AllShown(held, FragmentsHeld(claims, groups[..i]), region)
    {
      assert groups[..i + 1][..i] == groups[..i];
      if groups[i] in fragments {
        held := held + [fragments[groups[i]]];
      }
    }
    assert groups[..|groups|] == groups;
  }

  method NameNodes(groups: seq<string>, ghost region: set<GoMap>) returns (nodes: seq<Node>)
    ensures Shows(NSlice(nodes), List(NameItems(groups)), region)
  {
    nodes := [];
    for i := 0 to |groups|
      invariant |nodes| == i && forall j :: 0 <= j < i ==> nodes[j] == NScalar(Scalar(0, groups[j]))
    {
      nodes := nodes + [NScalar(Scalar(0, groups[i]))];
    }
  }

  /** The names, put into a map of claims. */
  method PutGroups(out: GoMap, groups: seq<string>, ghost claims: Fragment, ghost reach: set<GoMap>)
    requires out !in reach && ShowsTable(out.entries, claims, reach)
    modifies out
    ensures ShowsTable(out.entries, WithGroups(claims, groups), reach)
  {
    if |groups| == 0 {
      return;
    }
    var names := NameNodes(groups, reach);
    if GROUPS in out.entries && out.entries[GROUPS].NSlice? {
      assert Shows(out.entries[GROUPS], claims[GROUPS], reach);
      names := UnionNodes(out.entries[GROUPS].items, names, claims[GROUPS].items, NameItems(groups), reach);
    } else {
      assert GROUPS in claims ==> Shows(out.entries[GROUPS], claims[GROUPS], reach);
    }
    PutShows(out.entries, claims, GROUPS, NSlice(names), WithGroups(claims, groups)[GROUPS], reach);
    out.entries := out.entries[GROUPS := NSlice(names)];
  }

  lemma PutShows(nodes: map<string, Node>, f: Fragment, key: string, node: Node, value: Value, region: set<GoMap>)
    requires ShowsTable(nodes, f, region) && Shows(node, value, region)
    ensures ShowsTable(nodes[key := node], f[key := value], region)
  {
  }

  /** The end of an evaluation as it runs: the fold into a new map, then the names. Nothing the policy keeps
      is changed, and the map reads as the claims of the result. */
  method FillClaims(fragments: map<string, GoMap>, groups: seq<string>, ghost claims: map<string, Fragment>, ghost region: set<GoMap>)
      returns (out: GoMap, ghost reach: set<GoMap>)
    requires KeptAs(fragments, claims, region)
    ensures fresh(out) && fresh(reach - region) && out !in reach
    ensures ShowsTable(out.entries, ClaimsOf(claims, groups), reach)
  {
    var held := HeldFragments(fragments, groups, claims, region);
    out, reach := FoldHeld(held, FragmentsHeld(claims, groups), region);
    PutGroups(out, groups, FoldClaims(FragmentsHeld(claims, groups)).into, reach);
  }
}
