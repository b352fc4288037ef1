/** The load-time check on claim fragments, and what it does and does not rule out. */
module FragmentCheck {
  import opened Wrappers
  import opened Text
  import opened Fragments
  import opened Merging
  import opened ClaimPaths

  /** The walk over every fragment: who set each scalar first, and to what. */
  class Walk {
    var owner: map<string, string>
    var value: map<string, Scalar>
    ghost var seen: set<(string, string)>

    constructor ()
      ensures Valid() && seen == {}
    {
      owner, value, seen := map[], map[], {};
    }

    ghost predicate Valid()
      reads this
    {
      && owner.Keys == value.Keys
      && (forall leaf :: leaf in seen ==> leaf.0 in value && value[leaf.0].text == leaf.1)
      && (forall path :: path in value ==> (path, value[path].text) in seen)
    }

    method Visit(name: string, at: string, got: Scalar) returns (ok: bool)
      requires Valid()
      modifies this
      ensures ok ==> Valid() && seen == old(seen) + {(at, got.text)}
      ensures !ok ==> !Functional(old(seen) + {(at, got.text)})
    {
      if at !in value {
        owner, value := owner[at := name], value[at := got];
        seen := seen + {(at, got.text)};
        return true;
      }
      ok := value[at].text == got.text;
      assert (at, value[at].text) in seen;
      if ok {
        assert seen == seen + {(at, got.text)};
      } else {
        ghost var both := seen + {(at, got.text)};
        assert (at, value[at].text) in both && (at, got.text) in both;
      }
    }

    method Scalars(name: string, v: Value, at: string) returns (ok: bool)
      requires Valid()
      modifies this
      ensures ok ==> Valid() && seen == old(seen) + Leaves(v, at)
      ensures !ok ==> !Functional(old(seen) + Leaves(v, at))
      decreases v
    {
      match v
      case Leaf(s) => ok := Visit(name, at, s);
      case List(_) =>
        assert old(seen) + Leaves(v, at) == old(seen);
        return true;
      case Table(entries) =>
        var keys := KeysInOrder(entries);
        ghost var done: set<string> := {};
        for i := 0 to |keys|
          invariant Valid() && done == set k | k in keys[..i]
          invariant seen == old(seen) + LeavesUnder(entries, done, at)
        {
          assert keys[i] in keys;
          assert keys[..i + 1] == keys[..i] + [keys[i]];
          ghost var before := seen;
          ok := Scalars(name, entries[keys[i]], Where(at, keys[i]));
          UnderOneMore(entries, done, keys[i], at);
          done := done + {keys[i]};
          if !ok {
            ContainsConflict(before + Leaves(entries[keys[i]], Where(at, keys[i])), old(seen) + Leaves(v, at));
            return false;
          }
        }
        assert keys[..|keys|] == keys;
        assert LeavesUnder(entries, done, at) == Leaves(v, at);
        return true;
    }
  }

  ghost function LeavesUnder(entries: Fragment, keys: set<string>, at: string): set<(string, string)> {
    set k, leaf | k in entries && k in keys && leaf in Leaves(entries[k], Where(at, k)) :: leaf
  }

  lemma UnderOneMore(entries: Fragment, keys: set<string>, key: string, at: string)
    requires key in entries
    ensures LeavesUnder(entries, keys + {key}, at) == LeavesUnder(entries, keys, at) + Leaves(entries[key], Where(at, key))
    ensures Leaves(entries[key], Where(at, key)) <= Leaves(Table(entries), at)
    ensures LeavesUnder(entries, keys, at) <= Leaves(Table(entries), at)
  {
  }

  lemma ContainsConflict(small: set<(string, string)>, large: set<(string, string)>)
    requires small <= large && !Functional(small)
    ensures !Functional(large)
  {
  }

  /** Accepts exactly when no two scalars of the claims print differently under one spelling of their keys;
      so where keys are plain, when none do under the same keys. */
  method CheckFragments(claims: map<string, Fragment>) returns (ok: bool)
    ensures ok <==> Functional(AllLeaves(claims))
    ensures ok <==> !Clash(claims)
    ensures Plain(claims) ==> (ok <==> !ClashAtKeys(claims))
  {
    ok := CheckEach(claims);
    FunctionalMeans(claims);
    if Plain(claims) {
      PlainClash(claims);
    }
  }

  method CheckEach(claims: map<string, Fragment>) returns (ok: bool)
    ensures ok <==> Functional(AllLeaves(claims))
  {
    var walk := new Walk();
    var names := KeysInOrder(claims);
    ghost var done: set<string> := {};
    for i := 0 to |names|
      invariant walk.Valid() && done == set n | n in names[..i]
      invariant walk.seen == LeavesOf(claims, done)
    {
      assert names[i] in names;
      assert names[..i + 1] == names[..i] + [names[i]];
      ghost var before := walk.seen;
      ok := walk.Scalars(names[i], Table(claims[names[i]]), "");
      OneMore(claims, done, names[i]);
      done := done + {names[i]};
      if !ok {
        ContainsConflict(before + Leaves(Table(claims[names[i]]), ""), AllLeaves(claims));
        return false;
      }
    }
    assert names[..|names|] == names;
    assert LeavesOf(claims, done) == AllLeaves(claims);
    return true;
  }

  ghost function LeavesOf(claims: map<string, Fragment>, names: set<string>): set<(string, string)> {
    set name, leaf | name in claims && name in names && leaf in Leaves(Table(claims[name]), "") :: leaf
  }

  lemma OneMore(claims: map<string, Fragment>, names: set<string>, name: string)
    requires name in claims
    ensures LeavesOf(claims, names + {name}) == LeavesOf(claims, names) + Leaves(Table(claims[name]), "")
    ensures LeavesOf(claims, names) + Leaves(Table(claims[name]), "") <= AllLeaves(claims)
  {
  }

  // ----- What acceptance is worth

  /** Map for map, list for list and scalar for scalar wherever both values have something. */
  predicate SameKinds(a: Value, b: Value) {
    match a
    case Leaf(_) => b.Leaf?
    case List(_) => b.List?
    case Table(entries) => b.Table? && forall k :: k in entries && k in b.entries ==> SameKinds(entries[k], b.entries[k])
  }

  lemma {:induction false} CompatibleIsSameKinds(a: Value, b: Value)
    requires Compatible(ViewOf(a), ViewOf(b))
    ensures SameKinds(a, b)
  {
    if a.Table? {
      forall k | k in a.entries && k in b.entries
        ensures SameKinds(a.entries[k], b.entries[k])
      {
        assert k in ViewOf(a).entries && k in ViewOf(b).entries;
        CompatibleIsSameKinds(a.entries[k], b.entries[k]);
      }
    }
  }

  lemma {:induction false} SameKindsIsCompatible(a: Value, b: Value, at: string)
    requires SameKinds(a, b) && Functional(Leaves(a, at) + Leaves(b, at))
    ensures Compatible(ViewOf(a), ViewOf(b))
  {
    match a
    case Leaf(s) =>
      assert (at, s.text) in Leaves(a, at) + Leaves(b, at) && (at, b.scalar.text) in Leaves(a, at) + Leaves(b, at);
    case List(_) =>
    case Table(entries) =>
      forall k | k in entries && k in b.entries
        ensures Compatible(ViewOf(entries[k]), ViewOf(b.entries[k]))
      {
        assert Leaves(entries[k], Where(at, k)) + Leaves(b.entries[k], Where(at, k)) <= Leaves(a, at) + Leaves(b, at);
        SameKindsIsCompatible(entries[k], b.entries[k], Where(at, k));
      }
  }

  lemma TableMerges(f: Fragment, g: Fragment)
    ensures MergeValue(Table(f), Table(g)).Some? <==> MergeFragment(f, g).ok
  {
  }

  /** Once accepted, two groups' fragments merge in both orders exactly when they agree on kinds. */
  lemma AcceptedMergesIffSameKinds(claims: map<string, Fragment>, g: string, h: string)
    requires Functional(AllLeaves(claims)) && g in claims && h in claims
    ensures MergeFragment(claims[g], claims[h]).ok && MergeFragment(claims[h], claims[g]).ok
      <==> SameKinds(Table(claims[g]), Table(claims[h]))
  {
    var a, b := Table(claims[g]), Table(claims[h]);
    MergesBothWays(a, b);
    TableMerges(claims[g], claims[h]);
    TableMerges(claims[h], claims[g]);
    if SameKinds(a, b) {
      assert Leaves(a, "") + Leaves(b, "") <= AllLeaves(claims);
      SameKindsIsCompatible(a, b, "");
    }
    if Compatible(ViewOf(a), ViewOf(b)) {
      CompatibleIsSameKinds(a, b);
    }
  }

  ghost predicate KindsAgree(claims: map<string, Fragment>) {
    forall g, h :: g in claims && h in claims ==> SameKinds(Table(claims[g]), Table(claims[h]))
  }

  ghost function FragmentsOf(claims: map<string, Fragment>, names: seq<string>): seq<Fragment>
    requires forall n :: n in names ==> n in claims
  {
    seq(|names|, i requires 0 <= i < |names| => assert names[i] in names; claims[names[i]])
  }

  /** Every fold over some of the groups, in every order, succeeds. */
  ghost predicate AlwaysFolds(claims: map<string, Fragment>) {
    forall names: seq<string> :: (forall n :: n in names ==> n in claims) ==> FoldClaims(FragmentsOf(claims, names)).ok
  }

  /** Every fragment as a reader compares it. */
  ghost function Family(claims: map<string, Fragment>): set<View> {
    set g | g in claims :: ViewOf(Table(claims[g]))
  }

  lemma AcceptedFamily(claims: map<string, Fragment>)
    requires Functional(AllLeaves(claims)) && KindsAgree(claims)
    ensures Agreeing(Family(claims))
  {
    forall a, b | a in Family(claims) && b in Family(claims)
      ensures a.VTable? && Compatible(a, b)
    {
      var g :| g in claims && a == ViewOf(Table(claims[g]));
      var h :| h in claims && b == ViewOf(Table(claims[h]));
      assert Leaves(Table(claims[g]), "") + Leaves(Table(claims[h]), "") <= AllLeaves(claims);
      SameKindsIsCompatible(Table(claims[g]), Table(claims[h]), "");
    }
  }

  /** What acceptance at load promises every later evaluation: no fold over any subset of the groups,
      in any order, ever fails, exactly when the fragments also agree on kinds. */
  lemma AcceptedAlwaysFolds(claims: map<string, Fragment>)
    requires Functional(AllLeaves(claims))
    ensures AlwaysFolds(claims) <==> KindsAgree(claims)
  {
    if KindsAgree(claims) {
      var family := Family(claims);
      AcceptedFamily(claims);
      forall names: seq<string> | forall n :: n in names ==> n in claims
        ensures FoldClaims(FragmentsOf(claims, names)).ok
      {
        FragmentsFrom(claims, names, family);
        FoldIsJoinAll(FragmentsOf(claims, names), family);
      }
    } else {
      var g, h :| g in claims && h in claims && !SameKinds(Table(claims[g]), Table(claims[h]));
      AcceptedMergesIffSameKinds(claims, g, h);
      FoldOfTwo(claims, g, h);
      FoldOfTwo(claims, h, g);
    }
  }

  lemma FragmentsFrom(claims: map<string, Fragment>, names: seq<string>, family: set<View>)
    requires forall n :: n in names ==> n in claims
    requires forall g :: g in claims ==> ViewOf(Table(claims[g])) in family
    ensures From(Views(FragmentsOf(claims, names)), family)
  {
    forall v | v in Views(FragmentsOf(claims, names))
      ensures v in family
    {
      var i :| 0 <= i < |names| && v == Views(FragmentsOf(claims, names))[i];
      assert names[i] in names;
    }
  }

  lemma MergeIntoNothing(f: Fragment)
    ensures MergeFragment(map[], f) == Merged(f, true)
  {
    MergeFragmentByKey(map[], f);
    assert MergeFragment(map[], f).into == f;
  }

  lemma FoldOfOne(f: Fragment)
    ensures FoldClaims([f]) == Merged(f, true)
  {
    MergeIntoNothing(f);
    assert [f][..0] == [];
  }

  lemma FoldOfTwo(claims: map<string, Fragment>, g: string, h: string)
    requires g in claims && h in claims
    ensures FoldClaims(FragmentsOf(claims, [g, h])).ok <==> MergeFragment(claims[g], claims[h]).ok
  {
    var pair := [claims[g], claims[h]];
    assert FragmentsOf(claims, [g, h]) == pair;
    assert pair[..1] == [claims[g]];
    FoldOfOne(claims[g]);
  }

  /** Two orders of the same groups give claims that read the same. */
  lemma AcceptedOrderDoesNotShow(claims: map<string, Fragment>, a: seq<string>, b: seq<string>)
    requires Functional(AllLeaves(claims)) && KindsAgree(claims)
    requires (forall n :: n in a ==> n in claims) && (forall n :: n in b ==> n in claims) && multiset(a) == multiset(b)
    ensures ViewOf(Table(FoldClaims(FragmentsOf(claims, a)).into)) == ViewOf(Table(FoldClaims(FragmentsOf(claims, b)).into))
  {
    var family := Family(claims);
    AcceptedFamily(claims);
    FragmentsFrom(claims, a, family);
    FragmentsFrom(claims, b, family);
    ViewsOfPermutation(claims, a, b);
    FoldOrderDoesNotShow(FragmentsOf(claims, a), FragmentsOf(claims, b), family);
  }

  lemma ViewsConcat(claims: map<string, Fragment>, a: seq<string>, b: seq<string>)
    requires (forall n :: n in a ==> n in claims) && (forall n :: n in b ==> n in claims)
    ensures Views(FragmentsOf(claims, a + b)) == Views(FragmentsOf(claims, a)) + Views(FragmentsOf(claims, b))
  {
  }

  lemma {:induction false} ViewsOfPermutation(claims: map<string, Fragment>, a: seq<string>, b: seq<string>)
    requires (forall n :: n in a ==> n in claims) && (forall n :: n in b ==> n in claims) && multiset(a) == multiset(b)
    ensures multiset(Views(FragmentsOf(claims, a))) == multiset(Views(FragmentsOf(claims, b)))
    decreases |a|, 1
  {
    if a == [] {
      assert |multiset(b)| == 0;
    } else {
      var rest, q := a[..|a| - 1], a[|a| - 1];
      assert a == rest + [q];
      assert q in multiset(a) && q in b;
      var i :| 0 <= i < |b| && b[i] == q;
      var x, y := b[..i], b[i + 1..];
      assert b == x + [q] + y;
      Without(x, q, y, rest);
      MoveView(claims, x, q, y, rest);
    }
  }

  lemma MoveView(claims: map<string, Fragment>, x: seq<string>, q: string, y: seq<string>, rest: seq<string>)
    requires q in claims && (forall n :: n in x ==> n in claims) && (forall n :: n in y ==> n in claims)
    requires (forall n :: n in rest ==> n in claims) && multiset(x + y) == multiset(rest)
    ensures multiset(Views(FragmentsOf(claims, rest + [q]))) == multiset(Views(FragmentsOf(claims, x + [q] + y)))
    decreases |rest| + 1, 0
  {
    ViewsOfPermutation(claims, rest, x + y);
    ViewsConcat(claims, rest, [q]);
    ViewsConcat(claims, x + [q], y);
    ViewsConcat(claims, x, [q]);
    ViewsConcat(claims, x, y);
    var v := ViewOf(Table(claims[q]));
    assert Views(FragmentsOf(claims, [q])) == [v];
    With(Views(FragmentsOf(claims, x)), v, Views(FragmentsOf(claims, y)), Views(FragmentsOf(claims, rest)));
  }

  /** One group makes a claim a list and another makes it a scalar: accepted at load, and no merge of
      the two ever succeeds. */
  lemma KindsSlipThrough(claims: map<string, Fragment>)
    requires claims == map["a" := map["x" := List([])], "b" := map["x" := Leaf(Scalar(0, "1"))]]
    ensures Functional(AllLeaves(claims)) && !AlwaysFolds(claims)
  {
    var a, b := claims["a"], claims["b"];
    LeavesOfOne(a, "x");
    LeavesOfOne(b, "x");
    assert AllLeaves(claims) == {("x", "1")};
    assert !SameKinds(a["x"], b["x"]) && !KindsAgree(claims);
    AcceptedAlwaysFolds(claims);
  }

  lemma LeavesOfOne(f: Fragment, key: string)
    requires f.Keys == {key}
    ensures Leaves(Table(f), "") == Leaves(f[key], key)
  {
    assert Where("", key) == key;
    forall leaf | leaf in Leaves(f[key], key)
      ensures leaf in Leaves(Table(f), "")
    {
      assert key in f && leaf in Leaves(f[key], Where("", key));
    }
  }
}
