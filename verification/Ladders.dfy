/** One thing's roles and the roles each implies, and the load-time search for a cycle among them. */
module Ladders {
  import opened Wrappers
  import opened Text

  /** A role: what it directly implies, and the scopes it restricts itself to. `scopes` None is a
      role that declares no list at all. */
  datatype RoleSpec = RoleSpec(implies: seq<string>, scopes: Option<seq<string>>)

  type Ladder = map<string, RoleSpec>

  /** Go's `roles[role].Implies`: nothing for a name that is not declared. */
  function Implied(roles: Ladder, role: string): seq<string> {
    if role in roles then roles[role].implies else []
  }

  /** What a role implies directly, in the declared data. */
  predicate Edge(roles: Ladder, from: string, to: string) {
    from in roles && to in roles[from].implies
  }

  predicate IsPath(roles: Ladder, p: seq<string>) {
    |p| > 0 && forall i, j :: 0 <= i < |p| && j == i + 1 && j < |p| ==> Edge(roles, p[i], p[j])
  }

  ghost predicate OnCycle(roles: Ladder, role: string) {
    exists p :: IsPath(roles, p) && |p| > 1 && p[0] == role == p[|p| - 1]
  }

  ghost predicate Acyclic(roles: Ladder) {
    forall role :: !OnCycle(roles, role)
  }

  ghost predicate Closed(roles: Ladder, s: set<string>) {
    forall r, n :: r in s && Edge(roles, r, n) ==> n in s
  }

  /** A path that starts in a closed set stays in it. */
  lemma {:induction false} ClosedAbsorbs(roles: Ladder, s: set<string>, p: seq<string>, i: nat)
    requires Closed(roles, s) && IsPath(roles, p) && p[0] in s && i < |p|
    ensures p[i] in s
  {
    if i > 0 {
      ClosedAbsorbs(roles, s, p, i - 1);
      assert p[i] in Implied(roles, p[i - 1]);
    }
  }

  /** A role whose implied roles all lie in a closed set that it is not in is on no cycle. */
  lemma LeavesForGood(roles: Ladder, s: set<string>, role: string)
    requires Closed(roles, s) && role !in s
    requires forall n :: Edge(roles, role, n) ==> n in s
    ensures !OnCycle(roles, role)
  {
    forall p | IsPath(roles, p) && |p| > 1 && p[0] == role
      ensures p[|p| - 1] != role
    {
      assert p[1] in Implied(roles, p[0]);
      assert IsPath(roles, p[1..]);
      ClosedAbsorbs(roles, s, p[1..], |p| - 2);
    }
  }

  /** A name that is not a declared role implies nothing, so it is on no cycle. */
  lemma LeavesNothing(roles: Ladder, role: string)
    ensures role !in roles ==> !OnCycle(roles, role)
  {
    if role !in roles {
      LeavesForGood(roles, {}, role);
    }
  }

  /** From where it comes back to, a path that comes back is a cycle. */
  lemma SuffixCloses(roles: Ladder, path: seq<string>, i: nat)
    requires IsPath(roles, path) && i < |path| && Edge(roles, path[|path| - 1], path[i])
    ensures IsPath(roles, path[i..] + [path[i]])
  {
  }

  /** A path that comes back to one of its own nodes contains a cycle. */
  lemma BackEdge(roles: Ladder, path: seq<string>, next: string)
    requires IsPath(roles, path) && next in path && Edge(roles, path[|path| - 1], next)
    ensures OnCycle(roles, next)
  {
    var i :| 0 <= i < |path| && path[i] == next;
    SuffixCloses(roles, path, i);
  }

  /** A path without repeats whose end implies `next`, which is on it. */
  ghost predicate Closes(roles: Ladder, path: seq<string>, next: string) {
    IsPath(roles, path) && NoRepeats(path) && next in path && Edge(roles, path[|path| - 1], next)
  }

  /** Exploring on from `here` comes to a path that closes on `next`. */
  ghost predicate ClosesFrom(roles: Ladder, here: seq<string>, next: string) {
    exists further :: Closes(roles, here + further, next)
  }

  lemma ClosesHere(roles: Ladder, here: seq<string>, next: string)
    requires Closes(roles, here, next)
    ensures ClosesFrom(roles, here, next)
  {
    assert here + [] == here;
  }

  lemma ClosesFurther(roles: Ladder, here: seq<string>, step: string, next: string)
    requires ClosesFrom(roles, here + [step], next)
    ensures ClosesFrom(roles, here, next)
  {
    var further :| Closes(roles, here + [step] + further, next);
    assert here + [step] + further == here + ([step] + further);
  }

  lemma ClosesOnCycle(roles: Ladder, here: seq<string>, next: string)
    requires ClosesFrom(roles, here, next)
    ensures OnCycle(roles, next)
  {
    var further :| Closes(roles, here + further, next);
    BackEdge(roles, here + further, next);
  }

  ghost predicate IsCycle(roles: Ladder, p: seq<string>) {
    IsPath(roles, p) && |p| > 1 && p[0] == p[|p| - 1]
  }

  /** Every cycle passes through one role. */
  ghost predicate AllThrough(roles: Ladder, role: string) {
    forall p :: IsCycle(roles, p) ==> role in p
  }

  /** Then a path that starts at that role can only close there. */
  lemma ClosesThere(roles: Ladder, path: seq<string>, next: string)
    requires Closes(roles, path, next) && AllThrough(roles, path[0])
    ensures next == path[0]
  {
    var i :| 0 <= i < |path| && path[i] == next;
    SuffixCloses(roles, path, i);
    assert IsCycle(roles, path[i..] + [path[i]]);
    if i > 0 {
      NotAgain(path, i);
    }
  }

  lemma NotAgain(path: seq<string>, i: nat)
    requires 0 < i < |path| && NoRepeats(path)
    ensures path[0] !in path[i..] + [path[i]]
  {
  }

  lemma ClosesAtStart(roles: Ladder, role: string, next: string)
    requires ClosesFrom(roles, [role], next) && AllThrough(roles, role)
    ensures next == role
  {
    var further :| Closes(roles, [role] + further, next);
    ClosesThere(roles, [role] + further, next);
  }

  /** Every name the search can visit. */
  ghost function Universe(roles: Ladder): set<string> {
    roles.Keys + set r, n | r in roles && n in roles[r].implies :: n
  }

  lemma ImpliedInUniverse(roles: Ladder, role: string, next: string)
    requires Edge(roles, role, next)
    ensures next in Universe(roles)
  {
  }

  datatype Color = Gray | Black

  type Colors = map<string, Color>

  ghost function Blacks(color: Colors): set<string> {
    set r | r in color && color[r] == Black
  }

  /** Gray is the path being explored; black is closed under implies and on no cycle. */
  ghost predicate Valid(roles: Ladder, color: Colors, path: seq<string>) {
    && (forall r :: (r in color && color[r] == Gray) <==> r in path)
    && color.Keys <= Universe(roles)
    && Closed(roles, Blacks(color))
    && (forall r :: r in Blacks(color) ==> !OnCycle(roles, r))
  }

  lemma PaintGray(roles: Ladder, color: Colors, path: seq<string>, role: string)
    requires Valid(roles, color, path) && role !in color && role in Universe(roles)
    ensures Valid(roles, color[role := Gray], path + [role])
    ensures Blacks(color[role := Gray]) == Blacks(color)
  {
    assert Blacks(color[role := Gray]) == Blacks(color);
  }

  lemma PaintBlack(roles: Ladder, color: Colors, path: seq<string>, role: string)
    requires Valid(roles, color, path + [role]) && role !in path
    requires AllIn(Implied(roles, role), |Implied(roles, role)|, Blacks(color))
    ensures Valid(roles, color[role := Black], path)
    ensures Blacks(color[role := Black]) == Blacks(color) + {role}
  {
    assert role in path + [role];
    assert Blacks(color[role := Black]) == Blacks(color) + {role};
    LeavesForGood(roles, Blacks(color), role);
  }

  /** A role not met before, at the end of the path being explored. */
  ghost predicate Next(roles: Ladder, color: Colors, path: seq<string>, role: string) {
    && Valid(roles, color, path) && NoRepeats(path)
    && role !in color && role in Universe(roles) && IsPath(roles, path + [role])
  }

  lemma Enter(roles: Ladder, color: Colors, path: seq<string>, role: string)
    requires Next(roles, color, path, role)
    ensures role !in path && NoRepeats(path + [role])
    ensures Valid(roles, color[role := Gray], path + [role])
    ensures Blacks(color[role := Gray]) == Blacks(color)
  {
    PaintGray(roles, color, path, role);
  }

  lemma GoOn(roles: Ladder, color: Colors, here: seq<string>, next: string)
    requires Valid(roles, color, here) && NoRepeats(here) && IsPath(roles, here)
    requires Edge(roles, here[|here| - 1], next) && next !in color
    ensures Next(roles, color, here, next)
  {
    ImpliedInUniverse(roles, here[|here| - 1], next);
  }

  lemma MetAgain(roles: Ladder, color: Colors, here: seq<string>, next: string)
    requires Valid(roles, color, here) && NoRepeats(here) && IsPath(roles, here)
    requires Edge(roles, here[|here| - 1], next) && next in color && color[next] == Gray
    ensures ClosesFrom(roles, here, next)
  {
    ClosesHere(roles, here, next);
  }

  lemma AllInMore(names: seq<string>, i: nat, s: set<string>, t: set<string>)
    requires i < |names| && AllIn(names, i, s) && s <= t && names[i] in t
    ensures AllIn(names, i + 1, t)
  {
  }

  lemma NothingPainted(roles: Ladder)
    ensures Valid(roles, map[], [])
  {
  }

  ghost predicate AllIn(names: seq<string>, n: nat, s: set<string>) {
    forall j :: 0 <= j < n && j < |names| ==> names[j] in s
  }

  lemma AllBlack(roles: Ladder, color: Colors, names: seq<string>)
    requires Valid(roles, color, []) && forall r :: r in roles ==> r in names
    requires AllIn(names, |names|, Blacks(color))
    ensures Acyclic(roles)
  {
    forall role
      ensures !OnCycle(roles, role)
    {
      LeavesNothing(roles, role);
    }
  }

  /** The depth-first search: a name with no colour is white. */
  class Walk {
    const roles: Ladder
    var color: Colors
    var found: string

    constructor (roles: Ladder)
      ensures this.roles == roles && color == map[]
    {
      this.roles := roles;
      color, found := map[], "";
    }

    method Visit(role: string, ghost path: seq<string>) returns (hit: bool)
      requires Next(roles, color, path, role)
      modifies this
      ensures hit ==> ClosesFrom(roles, path + [role], found)
      ensures !hit ==> Valid(roles, color, path) && old(color.Keys) <= color.Keys
      ensures !hit ==> role in Blacks(color) && old(Blacks(color)) <= Blacks(color)
      decreases Universe(roles) - color.Keys
    {
      ghost var here := path + [role];
      Enter(roles, color, path, role);
      color := color[role := Gray];
      var implies := Implied(roles, role);
      for i := 0 to |implies|
        invariant Valid(roles, color, here) && old(color.Keys) + {role} <= color.Keys
        invariant old(Blacks(color)) <= Blacks(color) && AllIn(implies, i, Blacks(color))
      {
        var next := implies[i];
        ghost var before := Blacks(color);
        if next !in color {
          GoOn(roles, color, here, next);
          hit := Visit(next, here);
          if hit {
            ClosesFurther(roles, here, next, found);
            return true;
          }
        } else if color[next] == Gray {
          MetAgain(roles, color, here, next);
          found := next;
          return true;
        }
        AllInMore(implies, i, before, Blacks(color));
      }
      PaintBlack(roles, color, path, role);
      color := color[role := Black];
      return false;
    }

    /** One declared role, with nothing being explored: visited unless it is done. */
    method Root(role: string) returns (hit: bool)
      requires Valid(roles, color, []) && role in roles
      modifies this
      ensures hit ==> role !in old(Blacks(color)) && ClosesFrom(roles, [role], found)
      ensures !hit ==> Valid(roles, color, []) && role in Blacks(color) && old(Blacks(color)) <= Blacks(color)
    {
      if role in color {
        return false;
      }
      assert [] + [role] == [role];
      hit := Visit(role, []);
    }
  }

  /** The declared roles in name order, in which the empty name comes before every other. */
  method RoleNames(roles: Ladder) returns (names: seq<string>)
    ensures forall r :: r in names <==> r in roles
    ensures "" in roles ==> names[0] == ""
  {
    names := Sorted(roles.Keys);
    if "" in roles {
      ghost var j :| 0 <= j < |names| && names[j] == "";
      assert j > 0 ==> LexLe(names[0], names[j]);
    }
  }

  /** If the empty name is on a cycle, nothing before it is done when the search hits one: it is first. */
  lemma EmptyIsNotDone(roles: Ladder, color: Colors, names: seq<string>, i: nat)
    requires Valid(roles, color, []) && AllIn(names, i, Blacks(color)) && i <= |names|
    requires OnCycle(roles, "") && names != [] && names[0] == ""
    ensures i == 0
  {
  }

  /** There are cycles, and all of them pass through the empty name. */
  ghost predicate AllHidden(roles: Ladder) {
    OnCycle(roles, "") && AllThrough(roles, "")
  }

  /** What a hit has found: a role on a cycle, and the empty name if all cycles pass through it. */
  lemma HitMeans(roles: Ladder, color: Colors, names: seq<string>, i: nat, found: string)
    requires Valid(roles, color, []) && i < |names| && AllIn(names, i, Blacks(color))
    requires ("" in roles ==> names[0] == "") && ClosesFrom(roles, [names[i]], found)
    ensures OnCycle(roles, found) && (AllHidden(roles) ==> found == "")
  {
    ClosesOnCycle(roles, [names[i]], found);
    if AllHidden(roles) {
      LeavesNothing(roles, "");
      EmptyIsNotDone(roles, color, names, i);
      ClosesAtStart(roles, "", found);
    }
  }

  /** Searches from every declared role in name order and answers with one that is on a cycle, or with the
      empty string. It cannot say that the role with the empty name is on a cycle: that name comes first,
      so when every cycle passes through it the answer is empty, and when another cycle avoids it the
      order of the implies lists decides which one is named. */
  method CycleInRoles(roles: Ladder) returns (cycle: string)
    ensures cycle != "" ==> OnCycle(roles, cycle)
    ensures cycle == "" ==> Acyclic(roles) || OnCycle(roles, "")
    ensures AllHidden(roles) ==> cycle == ""
  {
    var walk := new Walk(roles);
    var names := RoleNames(roles);
    NothingPainted(roles);
    for i := 0 to |names|
      invariant walk.roles == roles && Valid(roles, walk.color, [])
      invariant AllIn(names, i, Blacks(walk.color))
    {
      assert names[i] in names;
      ghost var before := walk.color;
      var hit := walk.Root(names[i]);
      if hit {
        HitMeans(roles, before, names, i, walk.found);
        return walk.found;
      }
    }
    AllBlack(roles, walk.color, names);
    return "";
  }

  /** With the empty name on no cycle, the search answers exactly. */
  method CycleIsExact(roles: Ladder) returns (cycle: string)
    requires !OnCycle(roles, "")
    ensures cycle == "" <==> Acyclic(roles)
    ensures cycle != "" ==> OnCycle(roles, cycle)
  {
    cycle := CycleInRoles(roles);
  }

  /** And with every cycle through the empty name, of which there is one, it answers that there is none. */
  method EmptyNameHidesCycles(roles: Ladder) returns (cycle: string)
    requires AllHidden(roles)
    ensures cycle == "" && !Acyclic(roles)
  {
    cycle := CycleInRoles(roles);
  }

  const SELF_IMPLIED: Ladder := map["" := RoleSpec([""], None)]

  /** There are such ladders: a role with an empty name that implies itself. */
  lemma EmptyNameOnItself()
    ensures AllHidden(SELF_IMPLIED)
  {
    assert IsPath(SELF_IMPLIED, ["", ""]);
    forall p | IsCycle(SELF_IMPLIED, p)
      ensures "" in p
    {
      assert p[1] in Implied(SELF_IMPLIED, p[0]);
    }
  }
}
