/** Claim fragments as values, and what merging them means. */
module Fragments {
  import opened Wrappers
  import opened Text

  /** A scalar and the text it prints as. Two scalars of different kinds may print alike. */
  datatype Scalar = Scalar(kind: nat, text: string)

  datatype Value = Leaf(scalar: Scalar) | List(items: seq<Value>) | Table(entries: Fragment)

  type Fragment = map<string, Value>

  /** `fmt.Sprint`: a table prints its entries in key order. */
  function Print(v: Value): string {
    match v
    case Leaf(s) => s.text
    case List(items) => "[" + PrintItems(items) + "]"
    case Table(entries) => "map[" + PrintEntries(entries, Sorted(entries.Keys)) + "]"
  }

  function PrintItems(items: seq<Value>): string {
    if items == [] then ""
    else if |items| == 1 then Print(items[0])
    else Print(items[0]) + " " + PrintItems(items[1..])
  }

  function PrintEntries(entries: Fragment, keys: seq<string>): string
    requires forall k :: k in keys ==> k in entries
    decreases Table(entries), 0, |keys|
  {
    if keys == [] then ""
    else
      var first := keys[0] + ":" + Print(entries[keys[0]]);
      if |keys| == 1 then first else first + " " + PrintEntries(entries, keys[1..])
  }

  function Printed(items: seq<Value>): (r: seq<string>)
    ensures |r| == |items|
  {
    seq(|items|, i requires 0 <= i < |items| => Print(items[i]))
  }

  function PrintedEntries(entries: Fragment, keys: seq<string>): (r: seq<string>)
    requires forall i :: 0 <= i < |keys| ==> keys[i] in entries
    ensures |r| == |keys|
  {
    seq(|keys|, i requires 0 <= i < |keys| => keys[i] + ":" + Print(entries[keys[i]]))
  }

  /** A list prints as its items, and a table as its entries in key order, with spaces between them. */
  lemma PrintMeans(v: Value)
    ensures match v
      case Leaf(s) => Print(v) == s.text
      case List(items) => Print(v) == "[" + JoinStrings(Printed(items), " ") + "]"
      case Table(entries) =>
        && (forall i :: 0 <= i < |Sorted(entries.Keys)| ==> Sorted(entries.Keys)[i] in entries)
        && Print(v) == "map[" + JoinStrings(PrintedEntries(entries, Sorted(entries.Keys)), " ") + "]"
  {
    match v
    case Leaf(_) =>
    case List(items) => ItemsJoined(items);
    case Table(entries) => EntriesJoined(entries, Sorted(entries.Keys));
  }

  lemma {:induction false} ItemsJoined(items: seq<Value>)
    ensures PrintItems(items) == JoinStrings(Printed(items), " ")
  {
    if |items| > 1 {
      ItemsJoined(items[1..]);
      assert Printed(items)[1..] == Printed(items[1..]);
    }
  }

  lemma {:induction false} EntriesJoined(entries: Fragment, keys: seq<string>)
    requires forall k :: k in keys ==> k in entries
    ensures forall i :: 0 <= i < |keys| ==> keys[i] in entries
    ensures PrintEntries(entries, keys) == JoinStrings(PrintedEntries(entries, keys), " ")
  {
    assert forall i :: 0 <= i < |keys| ==> keys[i] in keys;
    if |keys| > 1 {
      EntriesJoined(entries, keys[1..]);
      assert PrintedEntries(entries, keys)[1..] == PrintedEntries(entries, keys[1..]);
    }
  }

  // ----- The merge, step by step

  /** The last item of a list that prints as `text`. */
  function LastPrinting(items: seq<Value>, text: string): Value {
    if items == [] then Leaf(Scalar(0, text))
    else
      var n := |items| - 1;
      if Print(items[n]) == text then items[n] else LastPrinting(items[..n], text)
  }

  function Prints(items: seq<Value>): set<string> {
    set i | 0 <= i < |items| :: Print(items[i])
  }

  /** De-duplicated by printed form, the later of two that print alike, in printed order. */
  function Union(left: seq<Value>, right: seq<Value>): seq<Value> {
    var all := left + right;
    var texts := Sorted(Prints(all));
    seq(|texts|, i requires 0 <= i < |texts| => LastPrinting(all, texts[i]))
  }

  /** None is a conflict. A table merged into a table is a new table, so a conflict inside leaves
      nothing behind. */
  function MergeValue(existing: Value, incoming: Value): Option<Value>
    decreases incoming, 2
  {
    match existing
    case Table(left) =>
      if !incoming.Table? then None
      else
        var merged := MergeFragment(left, incoming.entries);
        if merged.ok then Some(Table(merged.into)) else None
    case List(left) => if incoming.List? then Some(List(Union(left, incoming.items))) else None
    case Leaf(_) => if Print(existing) == Print(incoming) then Some(existing) else None
  }

  /** What a merge leaves in its destination, and whether it got to the end. */
  datatype Merged = Merged(into: Fragment, ok: bool)

  /** One key: copied when the destination does not have it, merged when it does. */
  function MergeKey(into: Fragment, key: string, incoming: Value): Option<Fragment>
    decreases incoming, 3
  {
    if key !in into then Some(into[key := incoming])
    else
      match MergeValue(into[key], incoming)
      case None => None
      case Some(value) => Some(into[key := value])
  }

  function MergeKeys(into: Fragment, src: Fragment, keys: seq<string>): Merged
    requires forall k :: k in keys ==> k in src
    decreases Table(src), 0, |keys|
  {
    if keys == [] then Merged(into, true)
    else
      match MergeKey(into, keys[0], src[keys[0]])
      case None => Merged(into, false)
      case Some(next) => MergeKeys(next, src, keys[1..])
  }

  function MergeFragment(into: Fragment, src: Fragment): Merged
    decreases Table(src), 1
  {
    MergeKeys(into, src, Sorted(src.Keys))
  }

  /** The fold over the held groups' fragments: a fragment that conflicts is abandoned half way and
      the next one goes on from what it left. */
  function FoldClaims(fragments: seq<Fragment>): Merged {
    if fragments == [] then Merged(map[], true)
    else
      var before := FoldClaims(fragments[..|fragments| - 1]);
      var merged := MergeFragment(before.into, fragments[|fragments| - 1]);
      Merged(merged.into, before.ok && merged.ok)
  }

  // ----- What it means

  /** A value as a reader compares it: scalars and list items by their printed form. */
  datatype View = VLeaf(text: string) | VList(texts: seq<string>) | VTable(entries: map<string, View>)

  function ViewOf(v: Value): View {
    match v
    case Leaf(s) => VLeaf(s.text)
    case List(items) => VList(seq(|items|, i requires 0 <= i < |items| => Print(items[i])))
    case Table(entries) => VTable(map k | k in entries :: ViewOf(entries[k]))
  }

  /** The two agree wherever both say something: kind for kind, and scalar for scalar. */
  predicate Compatible(a: View, b: View) {
    match a
    case VLeaf(text) => b == a
    case VList(_) => b.VList?
    case VTable(entries) => b.VTable? && forall k :: k in entries && k in b.entries ==> Compatible(entries[k], b.entries[k])
  }

  /** Everything either says: lists unioned, tables joined, scalars agreeing. */
  function Join(a: View, b: View): View
    requires Compatible(a, b)
  {
    match a
    case VLeaf(_) => a
    case VList(texts) => VList(Sorted((set t | t in texts) + (set t | t in b.texts)))
    case VTable(entries) =>
      VTable(map k | k in entries.Keys + b.entries.Keys ::
               if k !in b.entries then entries[k] else if k !in entries then b.entries[k] else Join(entries[k], b.entries[k]))
  }

  lemma {:induction false} CompatibleSymmetric(a: View, b: View)
    requires Compatible(a, b)
    ensures Compatible(b, a)
  {
    if a.VTable? {
      forall k | k in a.entries && k in b.entries
        ensures Compatible(b.entries[k], a.entries[k])
      {
        CompatibleSymmetric(a.entries[k], b.entries[k]);
      }
    }
  }

  /** What agrees with both agrees with their join. */
  lemma {:induction false} CompatibleJoin(a: View, b: View, c: View)
    requires Compatible(a, b) && Compatible(a, c) && Compatible(b, c)
    ensures Compatible(Join(a, b), c)
  {
    if a.VTable? {
      forall k | k in Join(a, b).entries && k in c.entries
        ensures Compatible(Join(a, b).entries[k], c.entries[k])
      {
        if k in a.entries && k in b.entries {
          CompatibleJoin(a.entries[k], b.entries[k], c.entries[k]);
        }
      }
    }
  }

  /** Two fragments joined to a third give the same result in either order. */
  lemma {:induction false} JoinSwap(a: View, b: View, c: View)
    requires Compatible(a, b) && Compatible(a, c) && Compatible(b, c)
    ensures Compatible(Join(a, b), c) && Compatible(Join(a, c), b)
    ensures Join(Join(a, b), c) == Join(Join(a, c), b)
  {
    CompatibleJoin(a, b, c);
    CompatibleSymmetric(b, c);
    CompatibleJoin(a, c, b);
    match a
    case VLeaf(_) =>
    case VList(texts) =>
      assert (set t | t in Join(a, b).texts) + (set t | t in c.texts) == (set t | t in Join(a, c).texts) + (set t | t in b.texts);
    case VTable(entries) =>
      var ab, ac := Join(a, b).entries, Join(a, c).entries;
      forall k | k in ab.Keys + c.entries.Keys
        ensures k in ab && k in c.entries ==> Compatible(ab[k], c.entries[k])
        ensures Join(Join(a, b), c).entries[k] == Join(Join(a, c), b).entries[k]
      {
        if k in entries && k in b.entries && k in c.entries {
          JoinSwap(entries[k], b.entries[k], c.entries[k]);
        } else if k in b.entries && k in c.entries {
          JoinCommutes(b.entries[k], c.entries[k]);
        }
      }
  }

  lemma {:induction false} JoinCommutes(a: View, b: View)
    requires Compatible(a, b)
    ensures Compatible(b, a) && Join(a, b) == Join(b, a)
  {
    CompatibleSymmetric(a, b);
    match a
    case VLeaf(_) =>
    case VList(texts) =>
      assert (set t | t in texts) + (set t | t in b.texts) == (set t | t in b.texts) + (set t | t in texts);
    case VTable(entries) =>
      forall k | k in entries && k in b.entries
        ensures Join(entries[k], b.entries[k]) == Join(b.entries[k], entries[k])
      {
        JoinCommutes(entries[k], b.entries[k]);
      }
  }
}
