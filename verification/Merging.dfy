/** Folding claim fragments in any order: when it cannot fail, and that the order does not show. */
module Merging {
  import opened Wrappers
  import opened Text
  import opened Fragments

  /** One key of a merge that went well: kept, copied, or merged. */
  ghost function Entry(into: Fragment, src: Fragment, merged: bool, key: string): Value
    requires merged ==> key in src
    requires key in into || merged
  {
    if !merged then into[key]
    else if key !in into then src[key]
    else if MergeValue(into[key], src[key]).Some? then MergeValue(into[key], src[key]).value
    else into[key]
  }

  /** Each key is merged against what the destination held before the merge began, and the merge
      gets to the end exactly when every shared key merges. */
  lemma {:induction false} MergeKeysByKey(into: Fragment, src: Fragment, keys: seq<string>)
    requires (forall k :: k in keys ==> k in src) && NoRepeats(keys)
    ensures var m := MergeKeys(into, src, keys);
      && (m.ok <==> forall k :: k in keys && k in into ==> MergeValue(into[k], src[k]).Some?)
      && (m.ok ==> m.into.Keys == into.Keys + (set k | k in keys))
      && (m.ok ==> forall k :: k in m.into ==> m.into[k] == Entry(into, src, k in keys, k))
    decreases |keys|
  {
    if keys != [] {
      var key, rest := keys[0], keys[1..];
      assert keys == [key] + rest && key !in rest;
      if key !in into {
        MergeKeysByKey(into[key := src[key]], src, rest);
      } else if MergeValue(into[key], src[key]).Some? {
        MergeKeysByKey(into[key := MergeValue(into[key], src[key]).value], src, rest);
      }
    }
  }

  lemma MergeFragmentByKey(into: Fragment, src: Fragment)
    ensures var m := MergeFragment(into, src);
      && (m.ok <==> forall k :: k in src && k in into ==> MergeValue(into[k], src[k]).Some?)
      && (m.ok ==> m.into.Keys == into.Keys + src.Keys)
      && (m.ok ==> forall k :: k in m.into ==> m.into[k] == Entry(into, src, k in src, k))
  {
    MergeKeysByKey(into, src, Sorted(src.Keys));
    assert (set k | k in Sorted(src.Keys)) == src.Keys;
  }

  /** A merge that fails stops at the first key, in order, that does not merge, and leaves the keys before
      it merged and the others as they were. */
  lemma {:induction false} FailsHalfway(into: Fragment, src: Fragment, keys: seq<string>) returns (n: nat)
    requires (forall k :: k in keys ==> k in src) && NoRepeats(keys) && !MergeKeys(into, src, keys).ok
    ensures n < |keys| && keys[n] in into && MergeValue(into[keys[n]], src[keys[n]]).None?
    ensures (forall k :: k in keys[..n] ==> k in keys) && MergeKeys(into, src, keys[..n]) == Merged(MergeKeys(into, src, keys).into, true)
    decreases |keys|
  {
    var key := keys[0];
    var next := MergeKey(into, key, src[key]);
    if next.None? {
      n := 0;
    } else {
      var m := FailsHalfway(next.value, src, keys[1..]);
      n := m + 1;
      assert keys[..n][0] == key && keys[..n][1..] == keys[1..][..m];
    }
  }

  /** The last item that prints so. */
  ghost predicate LastOf(items: seq<Value>, text: string, v: Value) {
    exists i :: 0 <= i < |items| && items[i] == v && Print(v) == text && forall j :: i < j < |items| ==> Print(items[j]) != text
  }

  lemma LastOfLonger(items: seq<Value>, text: string, v: Value)
    requires items != [] && LastOf(items[..|items| - 1], text, v) && Print(items[|items| - 1]) != text
    ensures LastOf(items, text, v)
  {
    var before := items[..|items| - 1];
    var i :| 0 <= i < |before| && before[i] == v && Print(v) == text && forall j :: i < j < |before| ==> Print(before[j]) != text;
    assert items[i] == v;
    forall j | i < j < |items|
      ensures Print(items[j]) != text
    {
      assert j < |before| ==> items[j] == before[j];
    }
  }

  lemma {:induction false} LastPrintingPrints(items: seq<Value>, text: string)
    requires text in Prints(items)
    ensures Print(LastPrinting(items, text)) == text && LastOf(items, text, LastPrinting(items, text))
  {
    var n := |items| - 1;
    if Print(items[n]) != text {
      var i :| 0 <= i < |items| && Print(items[i]) == text;
      assert items[..n][i] == items[i];
      LastPrintingPrints(items[..n], text);
      LastOfLonger(items, text, LastPrinting(items[..n], text));
    }
  }

  /** Of the items of either list that print alike, a union keeps the last. */
  lemma UnionKeepsTheLast(left: seq<Value>, right: seq<Value>, i: nat)
    requires i < |Union(left, right)|
    ensures var v := Union(left, right)[i]; LastOf(left + right, Print(v), v)
  {
    var texts := Sorted(Prints(left + right));
    assert texts[i] in texts;
    LastPrintingPrints(left + right, texts[i]);
  }

  /** Scalars merge exactly when they print alike, and the one there stays. */
  lemma ScalarsMerge(a: Scalar, incoming: Value)
    ensures MergeValue(Leaf(a), incoming) == if Print(incoming) == a.text then Some(Leaf(a)) else None
  {
  }

  /** A union shows every printed form of either list once, in order. */
  lemma UnionView(left: seq<Value>, right: seq<Value>)
    ensures ViewOf(List(Union(left, right))) == Join(ViewOf(List(left)), ViewOf(List(right)))
  {
    var all := left + right;
    var texts := Sorted(Prints(all));
    var l, r := ViewOf(List(left)).texts, ViewOf(List(right)).texts;
    forall t
      ensures t in Prints(all) <==> t in l || t in r
    {
      if t in l {
        var i :| 0 <= i < |left| && l[i] == t;
        assert all[i] == left[i];
      }
      if t in r {
        var i :| 0 <= i < |right| && r[i] == t;
        assert all[|left| + i] == right[i];
      }
      if t in Prints(all) {
        var i :| 0 <= i < |all| && Print(all[i]) == t;
        assert if i < |left| then l[i] == t else r[i - |left|] == t;
      }
    }
    assert Prints(all) == (set t | t in l) + (set t | t in r);
    var u := ViewOf(List(Union(left, right))).texts;
    forall i | 0 <= i < |texts|
      ensures u[i] == texts[i]
    {
      assert texts[i] in texts;
      LastPrintingPrints(all, texts[i]);
    }
    assert u == texts;
  }

  /** Compatible values merge, and the result says exactly what either says. */
  lemma {:induction false} MergeIsJoin(a: Value, b: Value)
    requires Compatible(ViewOf(a), ViewOf(b))
    ensures MergeValue(a, b).Some? && ViewOf(MergeValue(a, b).value) == Join(ViewOf(a), ViewOf(b))
    decreases b
  {
    match a
    case Leaf(_) =>
    case List(items) => UnionView(items, b.items);
    case Table(entries) => MergeFragmentIsJoin(entries, b.entries);
  }

  lemma {:induction false} MergeFragmentIsJoin(into: Fragment, src: Fragment)
    requires Compatible(ViewOf(Table(into)), ViewOf(Table(src)))
    ensures MergeFragment(into, src).ok
    ensures ViewOf(Table(MergeFragment(into, src).into)) == Join(ViewOf(Table(into)), ViewOf(Table(src)))
    decreases Table(src), 0
  {
    MergeFragmentByKey(into, src);
    forall k | k in src && k in into
      ensures SharedJoins(into, src, k)
    {
      assert k in ViewOf(Table(into)).entries && k in ViewOf(Table(src)).entries;
      MergeIsJoin(into[k], src[k]);
    }
    EntriesJoin(into, src, MergeFragment(into, src).into);
  }

  ghost predicate SharedJoins(into: Fragment, src: Fragment, k: string)
    requires k in into && k in src
  {
    && Compatible(ViewOf(into[k]), ViewOf(src[k]))
    && MergeValue(into[k], src[k]).Some?
    && ViewOf(MergeValue(into[k], src[k]).value) == Join(ViewOf(into[k]), ViewOf(src[k]))
  }

  lemma EntriesJoin(into: Fragment, src: Fragment, merged: Fragment)
    requires Compatible(ViewOf(Table(into)), ViewOf(Table(src)))
    requires forall k :: k in src && k in into ==> SharedJoins(into, src, k)
    requires merged.Keys == into.Keys + src.Keys
    requires forall k :: k in merged ==> merged[k] == Entry(into, src, k in src, k)
    ensures ViewOf(Table(merged)) == Join(ViewOf(Table(into)), ViewOf(Table(src)))
  {
    var joined := Join(ViewOf(Table(into)), ViewOf(Table(src))).entries;
    forall k | k in merged
      ensures ViewOf(merged[k]) == joined[k]
    {
      if k in src && k in into {
        assert SharedJoins(into, src, k);
      }
    }
    assert ViewOf(Table(merged)).entries == joined;
  }

  /** Two values merge in both orders exactly when they are compatible. */
  lemma {:induction false} MergesBothWays(a: Value, b: Value)
    ensures MergeValue(a, b).Some? && MergeValue(b, a).Some? <==> Compatible(ViewOf(a), ViewOf(b))
    decreases a
  {
    if Compatible(ViewOf(a), ViewOf(b)) {
      MergeIsJoin(a, b);
      CompatibleSymmetric(ViewOf(a), ViewOf(b));
      MergeIsJoin(b, a);
    } else if a.Table? && b.Table? {
      MergeFragmentByKey(a.entries, b.entries);
      MergeFragmentByKey(b.entries, a.entries);
      var k :| k in a.entries && k in b.entries && !Compatible(ViewOf(a.entries[k]), ViewOf(b.entries[k]));
      MergesBothWays(a.entries[k], b.entries[k]);
    }
  }

  // ----- Any number, in any order

  /** A family of tables any two of which are compatible. */
  ghost predicate Agreeing(family: set<View>) {
    forall a, b :: a in family && b in family ==> a.VTable? && Compatible(a, b)
  }

  ghost predicate From(views: seq<View>, family: set<View>) {
    forall v :: v in views ==> v in family
  }

  ghost function JoinAll(views: seq<View>, family: set<View>): (r: View)
    requires Agreeing(family) && From(views, family)
    ensures r.VTable? && forall c :: c in family ==> Compatible(r, c)
    decreases |views|
  {
    if views == [] then VTable(map[])
    else
      var n := |views| - 1;
      var before, last := JoinAll(views[..n], family), views[n];
      JoinStaysCompatible(before, last, family);
      Join(before, last)
  }

  lemma JoinStaysCompatible(before: View, last: View, family: set<View>)
    requires Agreeing(family) && last in family && forall c :: c in family ==> Compatible(before, c)
    ensures forall c :: c in family ==> Compatible(Join(before, last), c)
  {
    forall c | c in family
      ensures Compatible(Join(before, last), c)
    {
      CompatibleJoin(before, last, c);
    }
  }

  /** The last fragment could have been folded anywhere before. */
  lemma {:induction false} JoinAllMoves(x: seq<View>, q: View, y: seq<View>, family: set<View>)
    requires Agreeing(family) && From(x, family) && q in family && From(y, family)
    ensures JoinAll(x + [q] + y, family) == Join(JoinAll(x + y, family), q)
    decreases |y|
  {
    if y == [] {
      assert (x + [q] + y)[..|x|] == x && x + y == x;
    } else {
      var n := |y| - 1;
      var z, y' := y[n], y[..n];
      assert (x + [q] + y)[..|x| + 1 + n] == x + [q] + y';
      assert (x + y)[..|x| + n] == x + y';
      JoinAllMoves(x, q, y', family);
      JoinSwap(JoinAll(x + y', family), q, z);
    }
  }

  /** The join of a family does not depend on its order. */
  lemma {:induction false} JoinAllPermutes(a: seq<View>, b: seq<View>, family: set<View>)
    requires Agreeing(family) && From(a, family) && From(b, family) && multiset(a) == multiset(b)
    ensures JoinAll(a, family) == JoinAll(b, family)
    decreases |b|
  {
    if b == [] {
      assert |multiset(a)| == 0;
    } else {
      var n := |b| - 1;
      var q := b[n];
      assert b == b[..n] + [q];
      assert q in multiset(b) && q in a;
      var i :| 0 <= i < |a| && a[i] == q;
      var x, y := a[..i], a[i + 1..];
      assert a == x + [q] + y;
      JoinAllMoves(x, q, y, family);
      Without(x, q, y, b[..n]);
      JoinAllPermutes(x + y, b[..n], family);
    }
  }

  lemma Without<T>(x: seq<T>, q: T, y: seq<T>, rest: seq<T>)
    requires multiset(x + [q] + y) == multiset(rest + [q])
    ensures multiset(x + y) == multiset(rest)
  {
    assert multiset(x + [q] + y) == multiset(x + y) + multiset{q};
    assert multiset(rest + [q]) == multiset(rest) + multiset{q};
    assert multiset(x + y) == multiset(x + [q] + y) - multiset{q};
  }

  lemma With<T>(x: seq<T>, q: T, y: seq<T>, rest: seq<T>)
    requires multiset(x + y) == multiset(rest)
    ensures multiset(x + [q] + y) == multiset(rest + [q])
  {
    assert multiset(x + [q] + y) == multiset(x) + multiset{q} + multiset(y);
  }

  ghost function Views(fragments: seq<Fragment>): seq<View> {
    seq(|fragments|, i requires 0 <= i < |fragments| => ViewOf(Table(fragments[i])))
  }

  lemma {:induction false} FoldIsJoinAll(fragments: seq<Fragment>, family: set<View>)
    requires Agreeing(family) && From(Views(fragments), family)
    ensures FoldClaims(fragments).ok
    ensures ViewOf(Table(FoldClaims(fragments).into)) == JoinAll(Views(fragments), family)
  {
    if fragments != [] {
      var n := |fragments| - 1;
      var views := Views(fragments);
      assert views[..n] == Views(fragments[..n]);
      FoldIsJoinAll(fragments[..n], family);
      assert views[n] in views;
      MergeFragmentIsJoin(FoldClaims(fragments[..n]).into, fragments[n]);
    }
  }

  /** Folding any of a family's fragments never fails, and every order gives claims that read the
      same: scalars and list items by their printed form. */
  lemma FoldOrderDoesNotShow(a: seq<Fragment>, b: seq<Fragment>, family: set<View>)
    requires Agreeing(family) && From(Views(a), family) && From(Views(b), family)
    requires multiset(Views(a)) == multiset(Views(b))
    ensures FoldClaims(a).ok && FoldClaims(b).ok
    ensures ViewOf(Table(FoldClaims(a).into)) == ViewOf(Table(FoldClaims(b).into))
  {
    JoinAllPermutes(Views(a), Views(b), family);
    FoldIsJoinAll(a, family);
    FoldIsJoinAll(b, family);
  }
}
