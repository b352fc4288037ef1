/** The merge as it runs: Go maps are references, and the destination is written in place. */
module ClaimTables {
  import opened Wrappers
  import opened Text
  import opened Fragments

  /** A decoded value: a nested map is a reference to a map other values may refer to as well. */
  datatype Node = NScalar(scalar: Scalar) | NSlice(items: seq<Node>) | NMap(at: GoMap)

  class GoMap {
    var entries: map<string, Node>

    constructor (entries: map<string, Node>)
      ensures this.entries == entries
    {
      this.entries := entries;
    }
  }

  /** Reading `n` through the maps of `region` gives `v`. */
  ghost predicate Shows(n: Node, v: Value, region: set<GoMap>)
    reads region
    decreases v
  {
    match v
    case Leaf(s) => n == NScalar(s)
    case List(items) => n.NSlice? && |n.items| == |items| && forall i :: 0 <= i < |items| ==> Shows(n.items[i], items[i], region)
    case Table(entries) => n.NMap? && n.at in region && ShowsTable(n.at.entries, entries, region)
  }

  ghost predicate ShowsTable(nodes: map<string, Node>, f: Fragment, region: set<GoMap>)
    reads region
    decreases Table(f), 0
  {
    nodes.Keys == f.Keys && forall k :: k in f ==> Shows(nodes[k], f[k], region)
  }

  lemma {:induction false} ShowsMore(n: Node, v: Value, region: set<GoMap>, larger: set<GoMap>)
    requires Shows(n, v, region) && region <= larger
    ensures Shows(n, v, larger)
    decreases v
  {
    match v
    case Leaf(_) =>
    case List(items) =>
      forall i | 0 <= i < |items|
        ensures Shows(n.items[i], items[i], larger)
      {
        ShowsMore(n.items[i], items[i], region, larger);
      }
    case Table(entries) => TableShowsMore(n.at.entries, entries, region, larger);
  }

  lemma {:induction false} TableShowsMore(nodes: map<string, Node>, f: Fragment, region: set<GoMap>, larger: set<GoMap>)
    requires ShowsTable(nodes, f, region) && region <= larger
    ensures ShowsTable(nodes, f, larger)
    decreases Table(f), 0
  {
    forall k | k in f
      ensures Shows(nodes[k], f[k], larger)
    {
      ShowsMore(nodes[k], f[k], region, larger);
    }
  }

  // ----- Printing

  function PrintNode(n: Node, ghost v: Value, ghost region: set<GoMap>): (text: string)
    requires Shows(n, v, region)
    reads region
    ensures text == Print(v)
    decreases v
  {
    match n
    case NScalar(s) => s.text
    case NSlice(items) => "[" + PrintNodes(items, v.items, region) + "]"
    case NMap(at) => "map[" + PrintTable(at.entries, v.entries, Sorted(at.entries.Keys), region) + "]"
  }

  function PrintNodes(nodes: seq<Node>, ghost vs: seq<Value>, ghost region: set<GoMap>): (text: string)
    requires |nodes| == |vs| && forall i :: 0 <= i < |vs| ==> Shows(nodes[i], vs[i], region)
    reads region
    ensures text == PrintItems(vs)
    decreases vs
  {
    if nodes == [] then ""
    else if |nodes| == 1 then PrintNode(nodes[0], vs[0], region)
    else PrintNode(nodes[0], vs[0], region) + " " + PrintNodes(nodes[1..], vs[1..], region)
  }

  function PrintTable(nodes: map<string, Node>, ghost f: Fragment, keys: seq<string>, ghost region: set<GoMap>): (text: string)
    requires ShowsTable(nodes, f, region) && forall k :: k in keys ==> k in f
    reads region
    ensures text == PrintEntries(f, keys)
    decreases Table(f), 0, |keys|
  {
    if keys == [] then ""
    else
      var first := keys[0] + ":" + PrintNode(nodes[keys[0]], f[keys[0]], region);
      if |keys| == 1 then first else first + " " + PrintTable(nodes, f, keys[1..], region)
  }

  // ----- Cloning

  /** A copy that shares no map with what it was made from. */
  method CloneNode(n: Node, ghost v: Value, ghost region: set<GoMap>) returns (copy: Node, ghost made: set<GoMap>)
    requires Shows(n, v, region)
    ensures fresh(made) && Shows(copy, v, made)
    decreases v
  {
    match n
    case NScalar(_) =>
      copy, made := n, {};
    case NSlice(items) =>
      var out: seq<Node> := [];
      made := {};
      for i := 0 to |items|
        invariant fresh(made) && |out| == i
        invariant forall j :: 0 <= j < i ==> Shows(out[j], v.items[j], made)
      {
        var inner, more := CloneNode(items[i], v.items[i], region);
        forall j | 0 <= j < i
          ensures Shows(out[j], v.items[j], made + more)
        {
          ShowsMore(out[j], v.items[j], made, made + more);
        }
        ShowsMore(inner, v.items[i], more, made + more);
        out, made := out + [inner], made + more;
      }
      copy := NSlice(out);
    case NMap(at) =>
      var out: map<string, Node> := map[];
      made := {};
      var todo := at.entries.Keys;
      while todo != {}
        invariant fresh(made) && todo <= v.entries.Keys && out.Keys == v.entries.Keys - todo
        invariant forall k :: k in out ==> Shows(out[k], v.entries[k], made)
        decreases todo
      {
        var k :| k in todo;
        var inner, more := CloneNode(at.entries[k], v.entries[k], region);
        forall j | j in out
          ensures Shows(out[j], v.entries[j], made + more)
        {
          ShowsMore(out[j], v.entries[j], made, made + more);
        }
        ShowsMore(inner, v.entries[k], more, made + more);
        out, made, todo := out[k := inner], made + more, todo - {k};
      }
      var table := new GoMap(out);
      TableShowsMore(out, v.entries, made, made + {table});
      made := made + {table};
      copy := NMap(table);
  }

  // ----- Merging

  /** `seen` has each printed form of `values`, as the last value that prints so. */
  ghost predicate Latest(seen: map<string, Node>, values: seq<Value>, region: set<GoMap>)
    reads region
  {
    seen.Keys == Prints(values) && forall t :: t in seen ==> Shows(seen[t], LastPrinting(values, t), region)
  }

  /** The first loop of union. */
  method LastSeen(all: seq<Node>, ghost values: seq<Value>, ghost region: set<GoMap>) returns (seen: map<string, Node>)
    requires |all| == |values| && forall i :: 0 <= i < |all| ==> Shows(all[i], values[i], region)
    ensures Latest(seen, values, region)
  {
    seen := map[];
    for i := 0 to |all|
      invariant Latest(seen, values[..i], region)
    {
      PrintsOneMore(values, i);
      seen := seen[PrintNode(all[i], values[i], region) := all[i]];
    }
    assert values[..|all|] == values;
  }

  method UnionNodes(left: seq<Node>, right: seq<Node>, ghost l: seq<Value>, ghost r: seq<Value>, ghost region: set<GoMap>)
      returns (out: seq<Node>)
    requires Shows(NSlice(left), List(l), region) && Shows(NSlice(right), List(r), region)
    ensures Shows(NSlice(out), List(Union(l, r)), region)
  {
    var seen := LastSeen(left + right, l + r, region);
    out := Gather(seen, Sorted(seen.Keys), l + r, region);
  }

  /** The second loop of union. */
  method Gather(seen: map<string, Node>, keys: seq<string>, ghost values: seq<Value>, ghost region: set<GoMap>)
      returns (out: seq<Node>)
    requires Latest(seen, values, region) && forall k :: k in keys ==> k in seen
    ensures |out| == |keys| && forall j :: 0 <= j < |keys| ==> Shows(out[j], LastPrinting(values, keys[j]), region)
  {
    out := [];
    for i := 0 to |keys|
      invariant |out| == i
      invariant forall j :: 0 <= j < i ==> Shows(out[j], LastPrinting(values, keys[j]), region)
    {
      assert keys[i] in keys;
      out := out + [seen[keys[i]]];
    }
  }

  lemma PrintsOneMore(values: seq<Value>, i: nat)
    requires i < |values|
    ensures Prints(values[..i + 1]) == Prints(values[..i]) + {Print(values[i])}
    ensures LastPrinting(values[..i + 1], Print(values[i])) == values[i]
    ensures forall t :: t in Prints(values[..i]) && t != Print(values[i]) ==>
      LastPrinting(values[..i + 1], t) == LastPrinting(values[..i], t)
  {
    var more := values[..i + 1];
    assert more[..i] == values[..i];
    assert more[i] == values[i];
    forall t
      ensures t in Prints(more) <==> t in Prints(values[..i]) || t == Print(values[i])
    {
      if t in Prints(values[..i]) {
        var j :| 0 <= j < i && Print(values[..i][j]) == t;
        assert more[j] == values[j];
      }
    }
  }

  /** mergeFragment: writes the source's claims into `dst`, and into no other map there was before. So
      the source, every map reachable from it and every map reachable from the destination's values
      are left as they were, and the destination then reads as the merge of the two values. `grown`
      is what the destination may now refer to: what it could before, and new maps. */
  method MergeInto(dst: GoMap, src: GoMap, ghost d: Fragment, ghost s: Fragment, ghost region: set<GoMap>)
      returns (ok: bool, ghost grown: set<GoMap>)
    requires dst !in region && src in region
    requires ShowsTable(dst.entries, d, region) && ShowsTable(src.entries, s, region)
    modifies dst
    ensures region <= grown && fresh(grown - region) && dst !in grown
    ensures ok == MergeFragment(d, s).ok
    ensures ShowsTable(dst.entries, MergeFragment(d, s).into, grown)
    decreases Table(s), 1, 0
  {
    var keys := Sorted(src.entries.Keys);
    ok, grown := MergeEach(dst, src.entries, keys, d, s, region);
  }

  /** Its loop over the source's keys. */
  method MergeEach(dst: GoMap, from: map<string, Node>, keys: seq<string>, ghost d: Fragment, ghost s: Fragment, ghost region: set<GoMap>)
      returns (ok: bool, ghost grown: set<GoMap>)
    requires dst !in region && forall k :: k in keys ==> k in s
    requires ShowsTable(dst.entries, d, region) && ShowsTable(from, s, region)
    modifies dst
    ensures region <= grown && fresh(grown - region) && dst !in grown
    ensures ok == MergeKeys(d, s, keys).ok
    ensures ShowsTable(dst.entries, MergeKeys(d, s, keys).into, grown)
    decreases Table(s), 0, 1
  {
    grown := region;
    ghost var now, whole := d, MergeKeys(d, s, keys);
    assert keys[0..] == keys;
    for i := 0 to |keys|
      invariant region <= grown && fresh(grown - region) && dst !in grown
      invariant ShowsTable(dst.entries, now, grown) && ShowsTable(from, s, region)
      invariant MergeKeys(now, s, keys[i..]) == whole
    {
      ok, now, grown := MergeAt(dst, from, keys, i, now, s, region, grown);
      if !ok {
        return;
      }
    }
    ok := true;
  }

  /** The body of that loop: what is left to merge after one key is what was left before it. */
  method MergeAt(dst: GoMap, from: map<string, Node>, keys: seq<string>, i: nat,
                 ghost now: Fragment, ghost s: Fragment, ghost region: set<GoMap>, ghost reach: set<GoMap>)
      returns (ok: bool, ghost next: Fragment, ghost grown: set<GoMap>)
    requires i < |keys| && (forall k :: k in keys ==> k in s) && region <= reach && dst !in reach
    requires ShowsTable(dst.entries, now, reach) && ShowsTable(from, s, region)
    modifies dst
    ensures reach <= grown && fresh(grown - reach) && dst !in grown
    ensures ShowsTable(dst.entries, next, grown)
    ensures MergeKeys(now, s, keys[i..]) == if ok then MergeKeys(next, s, keys[i + 1..]) else Merged(next, false)
    decreases Table(s), 0, 0
  {
    var key := keys[i];
    assert key in keys;
    ShowsMore(from[key], s[key], region, reach);
    MergeSteps(now, s, keys, i);
    ok, grown := MergeOne(dst, key, from[key], now, s[key], reach);
    next := if ok then MergeKey(now, key, s[key]).value else now;
  }

  lemma MergeSteps(now: Fragment, s: Fragment, keys: seq<string>, i: nat)
    requires i < |keys| && forall k :: k in keys ==> k in s
    ensures keys[i] in s
    ensures MergeKeys(now, s, keys[i..]) ==
      match MergeKey(now, keys[i], s[keys[i]])
      case None => Merged(now, false)
      case Some(next) => MergeKeys(next, s, keys[i + 1..])
  {
    assert keys[i] in keys && keys[i..][1..] == keys[i + 1..];
  }

  /** One key, copied or merged. */
  method MergeOne(dst: GoMap, key: string, incoming: Node, ghost d: Fragment, ghost v: Value, ghost region: set<GoMap>)
      returns (ok: bool, ghost grown: set<GoMap>)
    requires dst !in region && ShowsTable(dst.entries, d, region) && Shows(incoming, v, region)
    modifies dst
    ensures region <= grown && fresh(grown - region) && dst !in grown
    ensures ok == MergeKey(d, key, v).Some?
    ensures ShowsTable(dst.entries, if ok then MergeKey(d, key, v).value else d, grown)
    decreases v, 3
  {
    if key !in dst.entries {
      var copy, made := CloneNode(incoming, v, region);
      grown := region + made;
      TableShowsMore(dst.entries, d, region, grown);
      ShowsMore(copy, v, made, grown);
      dst.entries := dst.entries[key := copy];
      ok := true;
    } else {
      var merged;
      ok, merged, grown := MergeNode(dst.entries[key], incoming, d[key], v, region);
      TableShowsMore(dst.entries, d, region, grown);
      if ok {
        dst.entries := dst.entries[key := merged];
      }
    }
  }

  /** mergeValue: changes nothing there was; a table merged into a table is a new table. */
  method MergeNode(existing: Node, incoming: Node, ghost a: Value, ghost b: Value, ghost region: set<GoMap>)
      returns (ok: bool, merged: Node, ghost grown: set<GoMap>)
    requires Shows(existing, a, region) && Shows(incoming, b, region)
    ensures region <= grown && fresh(grown - region)
    ensures ok == MergeValue(a, b).Some?
    ensures ok ==> Shows(merged, MergeValue(a, b).value, grown)
    decreases b, 2
  {
    ok, merged, grown := false, existing, region;
    match existing
    case NMap(left) =>
      if incoming.NMap? {
        var out;
        ok, out, grown := MergeCopy(left, incoming.at, a.entries, b.entries, region);
        merged := NMap(out);
      }
    case NSlice(left) =>
      if incoming.NSlice? {
        var out := UnionNodes(left, incoming.items, a.items, b.items, region);
        ok, merged := true, NSlice(out);
      }
    case NScalar(_) =>
      ok := PrintNode(existing, a, region) == PrintNode(incoming, b, region);
  }

  /** A table merged into a shallow copy of another. */
  method MergeCopy(left: GoMap, right: GoMap, ghost a: Fragment, ghost b: Fragment, ghost region: set<GoMap>)
      returns (ok: bool, out: GoMap, ghost grown: set<GoMap>)
    requires left in region && right in region
    requires ShowsTable(left.entries, a, region) && ShowsTable(right.entries, b, region)
    ensures region <= grown && fresh(grown - region) && out in grown
    ensures ok == MergeFragment(a, b).ok
    ensures ShowsTable(out.entries, MergeFragment(a, b).into, grown)
    decreases Table(b), 1, 2
  {
    ghost var reach;
    ok, out, reach := MergeFresh(left, right, a, b, region);
    grown := reach + {out};
    TableShowsMore(out.entries, MergeFragment(a, b).into, reach, grown);
  }

  method MergeFresh(left: GoMap, right: GoMap, ghost a: Fragment, ghost b: Fragment, ghost region: set<GoMap>)
      returns (ok: bool, out: GoMap, ghost reach: set<GoMap>)
    requires left in region && right in region
    requires ShowsTable(left.entries, a, region) && ShowsTable(right.entries, b, region)
    ensures fresh(out) && region <= reach && fresh(reach - region)
    ensures ok == MergeFragment(a, b).ok
    ensures ShowsTable(out.entries, MergeFragment(a, b).into, reach)
    decreases Table(b), 1, 1
  {
    out := new GoMap(left.entries);
    ok, reach := MergeInto(out, right, a, b, region);
  }

  /** The fragments are maps of `region` that read as `values`. */
  ghost predicate AllShown(fragments: seq<GoMap>, values: seq<Fragment>, region: set<GoMap>)
    reads region
  {
    && |fragments| == |values|
    && forall i :: 0 <= i < |fragments| ==> fragments[i] in region && ShowsTable(fragments[i].entries, values[i], region)
  }

  lemma FoldStarts(values: seq<Fragment>)
    ensures FoldClaims(values[..0]).into == map[] && values[..|values|] == values
  {
  }

  lemma FoldSteps(values: seq<Fragment>, i: nat)
    requires i < |values|
    ensures FoldClaims(values[..i + 1]).into == MergeFragment(FoldClaims(values[..i]).into, values[i]).into
  {
    assert values[..i + 1][..i] == values[..i];
  }

  /** The fold at the end of an evaluation: the held groups' fragments, in order, into a new map. It
      modifies nothing that existed, so no fragment of the policy is changed by being merged, and a
      fragment that conflicts is abandoned where it stopped. */
  method FoldHeld(fragments: seq<GoMap>, ghost values: seq<Fragment>, ghost region: set<GoMap>)
      returns (claims: GoMap, ghost reach: set<GoMap>)
    requires AllShown(fragments, values, region)
    ensures fresh(claims) && fresh(reach - region) && claims !in reach
    ensures ShowsTable(claims.entries, FoldClaims(values).into, reach)
  {
    claims := new GoMap(map[]);
    reach := region;
    FoldStarts(values);
    for i := 0 to |fragments|
      invariant fresh(claims) && region <= reach && fresh(reach - region) && claims !in reach
      invariant ShowsTable(claims.entries, FoldClaims(values[..i]).into, reach)
      invariant AllShown(fragments, values, region)
    {
      FoldSteps(values, i);
      TableShowsMore(fragments[i].entries, values[i], region, reach);
      var _, grown := MergeInto(claims, fragments[i], FoldClaims(values[..i]).into, values[i], reach);
      reach := grown;
    }
  }
}
