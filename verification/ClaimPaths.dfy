/** Where the scalars of a claim fragment are: by the keys that lead to them, and by the dotted path the
    load-time check writes for those. */
module ClaimPaths {
  import opened Wrappers
  import opened Text
  import opened Fragments

  function Where(at: string, key: string): string {
    if at != "" then at + "." + key else key
  }

  /** Every scalar below a value, as its dotted path and its printed form. A list is not entered. */
  function Leaves(v: Value, at: string): set<(string, string)>
    decreases v
  {
    match v
    case Leaf(s) => {(at, s.text)}
    case List(_) => {}
    case Table(entries) => set k, leaf | k in entries && leaf in Leaves(entries[k], Where(at, k)) :: leaf
  }

  function AllLeaves(claims: map<string, Fragment>): set<(string, string)> {
    set name, leaf | name in claims && leaf in Leaves(Table(claims[name]), "") :: leaf
  }

  /** No path has two printed forms. */
  ghost predicate Functional(leaves: set<(string, string)>) {
    forall a, b :: a in leaves && b in leaves && a.0 == b.0 ==> a.1 == b.1
  }

  // ----- By keys

  /** What is there when one key after another is looked up. */
  function At(v: Value, keys: seq<string>): Option<Value> {
    if keys == [] then Some(v)
    else if v.Table? && keys[0] in v.entries then At(v.entries[keys[0]], keys[1..])
    else None
  }

  /** There is a scalar that prints so. */
  ghost predicate Prints(v: Value, keys: seq<string>, text: string) {
    At(v, keys).Some? && At(v, keys).value.Leaf? && At(v, keys).value.scalar.text == text
  }

  /** The keys with dots between them; empty ones in front leave no trace. */
  function Spelling(keys: seq<string>): string {
    if keys != [] && keys[0] == "" then Spelling(keys[1..]) else JoinStrings(keys, ".")
  }

  function SpellingFrom(at: string, keys: seq<string>): string {
    if at == "" then Spelling(keys) else if keys == [] then at else at + "." + JoinStrings(keys, ".")
  }

  lemma SpelledFurther(at: string, key: string, keys: seq<string>)
    ensures SpellingFrom(Where(at, key), keys) == SpellingFrom(at, [key] + keys)
  {
    var all := [key] + keys;
    assert all[1..] == keys;
    if keys != [] {
      assert JoinStrings(all, ".") == key + "." + JoinStrings(keys, ".");
      assert at + "." + key + "." + JoinStrings(keys, ".") == at + "." + (key + "." + JoinStrings(keys, "."));
    }
  }

  /** The walk meets a scalar exactly where the keys lead to it, and spells them. */
  lemma {:induction false} LeavesMean(v: Value, at: string, spelled: string, text: string)
    ensures (spelled, text) in Leaves(v, at) <==> exists keys :: Prints(v, keys, text) && spelled == SpellingFrom(at, keys)
    decreases v
  {
    if (spelled, text) in Leaves(v, at) {
      LeafIsFound(v, at, spelled, text);
    }
    if keys :| Prints(v, keys, text) && spelled == SpellingFrom(at, keys) {
      FoundIsLeaf(v, at, keys, text);
    }
  }

  lemma {:induction false} LeafIsFound(v: Value, at: string, spelled: string, text: string)
    requires (spelled, text) in Leaves(v, at)
    ensures exists keys :: Prints(v, keys, text) && spelled == SpellingFrom(at, keys)
    decreases v
  {
    match v
    case Leaf(_) => assert Prints(v, [], text);
    case Table(entries) =>
      var k :| k in entries && (spelled, text) in Leaves(entries[k], Where(at, k));
      LeafIsFound(entries[k], Where(at, k), spelled, text);
      var keys :| Prints(entries[k], keys, text) && spelled == SpellingFrom(Where(at, k), keys);
      SpelledFurther(at, k, keys);
      assert ([k] + keys)[1..] == keys;
      assert Prints(v, [k] + keys, text);
  }

  lemma {:induction false} FoundIsLeaf(v: Value, at: string, keys: seq<string>, text: string)
    requires Prints(v, keys, text)
    ensures (SpellingFrom(at, keys), text) in Leaves(v, at)
    decreases v
  {
    if keys != [] {
      FoundIsLeaf(v.entries[keys[0]], Where(at, keys[0]), keys[1..], text);
      SpelledFurther(at, keys[0], keys[1..]);
      assert keys == [keys[0]] + keys[1..];
    }
  }

  // ----- Conflicts

  /** Two groups' claims have scalars that print differently under one spelling of their keys. */
  ghost predicate Clash(claims: map<string, Fragment>) {
    exists g, h, a, b, s, t :: g in claims && h in claims
      && Prints(Table(claims[g]), a, s) && Prints(Table(claims[h]), b, t) && Spelling(a) == Spelling(b) && s != t
  }

  /** No path of the walk has two printed forms exactly when there is no such clash. */
  lemma FunctionalMeans(claims: map<string, Fragment>)
    ensures Functional(AllLeaves(claims)) <==> !Clash(claims)
  {
    if Clash(claims) {
      var g, h, a, b, s, t :| g in claims && h in claims
        && Prints(Table(claims[g]), a, s) && Prints(Table(claims[h]), b, t) && Spelling(a) == Spelling(b) && s != t;
      FoundIsLeaf(Table(claims[g]), "", a, s);
      FoundIsLeaf(Table(claims[h]), "", b, t);
      assert (Spelling(a), s) in AllLeaves(claims) && (Spelling(b), t) in AllLeaves(claims);
    }
    if !Functional(AllLeaves(claims)) {
      var x, y :| x in AllLeaves(claims) && y in AllLeaves(claims) && x.0 == y.0 && x.1 != y.1;
      var g, a := LeafOwner(claims, x);
      var h, b := LeafOwner(claims, y);
    }
  }

  lemma LeafOwner(claims: map<string, Fragment>, leaf: (string, string)) returns (g: string, keys: seq<string>)
    requires leaf in AllLeaves(claims)
    ensures g in claims && Prints(Table(claims[g]), keys, leaf.1) && leaf.0 == Spelling(keys)
  {
    g :| g in claims && leaf in Leaves(Table(claims[g]), "");
    LeafIsFound(Table(claims[g]), "", leaf.0, leaf.1);
    keys :| Prints(Table(claims[g]), keys, leaf.1) && leaf.0 == SpellingFrom("", keys);
  }

  /** Keys as they are usually written: not empty, and without dots. */
  ghost predicate PlainKeys(keys: seq<string>) {
    forall i :: 0 <= i < |keys| ==> keys[i] != "" && '.' !in keys[i]
  }

  ghost predicate Plain(claims: map<string, Fragment>) {
    forall g, keys :: g in claims && At(Table(claims[g]), keys).Some? ==> PlainKeys(keys)
  }

  /** Two groups' claims have scalars that print differently under the very same keys. */
  ghost predicate ClashAtKeys(claims: map<string, Fragment>) {
    exists g, h, keys, s, t ::
      g in claims && h in claims && Prints(Table(claims[g]), keys, s) && Prints(Table(claims[h]), keys, t) && s != t
  }

  /** Of plain keys a spelling gives them back. */
  lemma SpellingOfPlain(a: seq<string>, b: seq<string>)
    requires PlainKeys(a) && PlainKeys(b) && a != [] && b != [] && Spelling(a) == Spelling(b)
    ensures a == b
  {
    SplitOfJoin(a, '.');
    SplitOfJoin(b, '.');
  }

  /** So there a clash is two scalars under the same keys and nothing else. */
  lemma PlainClash(claims: map<string, Fragment>)
    requires Plain(claims)
    ensures Clash(claims) <==> ClashAtKeys(claims)
  {
    if Clash(claims) {
      var g, h, a, b, s, t :| g in claims && h in claims
        && Prints(Table(claims[g]), a, s) && Prints(Table(claims[h]), b, t) && Spelling(a) == Spelling(b) && s != t;
      assert PlainKeys(a) && PlainKeys(b);
      SpellingOfPlain(a, b);
    }
  }
}
