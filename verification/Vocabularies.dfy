/** What a grant's name is allowed to mean: declared scopes, things and ladders of roles, and the
    expansion of a mapping wildcard across them. */
module Vocabularies {
  import opened Wrappers
  import opened Text
  import opened Grants
  import opened Ladders

  datatype ThingSpec = ThingSpec(scopes: seq<string>, roles: Ladder)

  /** `scopes` maps each declared scope to whether it is sensitive. */
  datatype Vocabulary = Vocabulary(scopes: map<string, bool>, things: map<string, ThingSpec>)

  const ANY := "*"

  predicate Sensitive(v: Vocabulary, scope: string) {
    scope in v.scopes && v.scopes[scope]
  }

  /** The scopes a role lists for itself; none when it declares no list. */
  function OwnScopes(role: RoleSpec): seq<string> {
    if role.scopes.Some? then role.scopes.value else []
  }

  predicate AllowsScope(role: RoleSpec, scope: string) {
    OwnScopes(role) == [] || scope in OwnScopes(role)
  }

  function EffectiveScopes(role: RoleSpec, thing: ThingSpec): seq<string> {
    if OwnScopes(role) != [] then OwnScopes(role) else thing.scopes
  }

  datatype Misfit = UndeclaredScope | UndeclaredThing | ThingLacksScope | UndeclaredRole | RoleLacksScope

  /** Why a concrete grant does not belong to the vocabulary: the first check that fails. */
  function Fits(v: Vocabulary, g: Grant): Option<Misfit> {
    if g.scope !in v.scopes then Some(UndeclaredScope)
    else if g.thing !in v.things then Some(UndeclaredThing)
    else if g.scope !in v.things[g.thing].scopes then Some(ThingLacksScope)
    else if g.role !in v.things[g.thing].roles then Some(UndeclaredRole)
    else if !AllowsScope(v.things[g.thing].roles[g.role], g.scope) then Some(RoleLacksScope)
    else None
  }

  /** The same for a mapping wildcard, whose `*` segments are not checked. */
  function CheckWildcard(v: Vocabulary, w: Grant): Option<Misfit> {
    if w.scope != ANY && w.scope !in v.scopes then Some(UndeclaredScope)
    else if w.thing == ANY then None
    else if w.thing !in v.things then Some(UndeclaredThing)
    else if w.scope != ANY && w.scope !in v.things[w.thing].scopes then Some(ThingLacksScope)
    else if w.role !in v.things[w.thing].roles then Some(UndeclaredRole)
    else None
  }

  // ----- Validation

  /** An implied role is declared, and valid wherever the role that implies it is. */
  predicate EdgeCovered(spec: ThingSpec, role: RoleSpec, implied: string) {
    && implied in spec.roles
    && forall s :: s in EffectiveScopes(role, spec) ==> AllowsScope(spec.roles[implied], s)
  }

  predicate RoleCoherent(v: Vocabulary, spec: ThingSpec, role: RoleSpec) {
    && role.scopes != Some([])
    && (forall s :: s in OwnScopes(role) ==> s in v.scopes && s in spec.scopes)
    && (forall implied :: implied in role.implies ==> EdgeCovered(spec, role, implied))
  }

  predicate ThingCoherent(v: Vocabulary, spec: ThingSpec) {
    && spec.scopes != []
    && (forall s :: s in spec.scopes ==> s in v.scopes)
    && spec.roles != map[]
    && (forall r :: r in spec.roles ==> RoleCoherent(v, spec, spec.roles[r]))
  }

  /** Everything validation asks of a vocabulary except that no ladder has a cycle. */
  predicate Coherent(v: Vocabulary) {
    forall t :: t in v.things ==> ThingCoherent(v, v.things[t])
  }

  ghost predicate CycleFree(v: Vocabulary) {
    forall t :: t in v.things ==> Acyclic(v.things[t].roles)
  }

  /** A ladder without cycles, or one whose cycle search may answer with the empty name of a role. */
  ghost predicate CycleMayPass(roles: Ladder) {
    Acyclic(roles) || OnCycle(roles, "")
  }

  /** A ladder without cycles, or one whose cycle search must. */
  ghost predicate CyclesPass(roles: Ladder) {
    Acyclic(roles) || AllHidden(roles)
  }

  method ValidateThing(v: Vocabulary, spec: ThingSpec) returns (ok: bool)
    ensures ok ==> ThingCoherent(v, spec) && CycleMayPass(spec.roles)
    ensures ThingCoherent(v, spec) && CyclesPass(spec.roles) ==> ok
  {
    if !ThingCoherent(v, spec) {
      return false;
    }
    var cycle := CycleInRoles(spec.roles);
    return cycle == "";
  }

  /** Validation, thing by thing in name order, each thing's own checks before its cycle search. So on a
      vocabulary where no ladder has a cycle through an empty name, it accepts exactly the coherent and
      cycle-free ones. */
  method Validate(v: Vocabulary) returns (ok: bool)
    ensures ok ==> Coherent(v) && forall t :: t in v.things ==> CycleMayPass(v.things[t].roles)
    ensures Coherent(v) && (forall t :: t in v.things ==> CyclesPass(v.things[t].roles)) ==> ok
    ensures (forall t :: t in v.things ==> !OnCycle(v.things[t].roles, "")) ==> (ok <==> Coherent(v) && CycleFree(v))
  {
    var names := Sorted(v.things.Keys);
    for i := 0 to |names|
      invariant forall t :: t in names[..i] ==> ThingCoherent(v, v.things[t]) && CycleMayPass(v.things[t].roles)
    {
      assert names[i] in names;
      assert names[..i + 1] == names[..i] + [names[i]];
      var good := ValidateThing(v, v.things[names[i]]);
      if !good {
        return false;
      }
    }
    assert names[..|names|] == names;
    return true;
  }

  // ----- Wildcards

  /** The things a wildcard's thing segment stands for. */
  function ThingsOf(v: Vocabulary, w: Grant): set<string> {
    if w.thing == ANY then v.things.Keys else {w.thing}
  }

  predicate HasRole(v: Vocabulary, thing: string, role: string) {
    thing in v.things && role in v.things[thing].roles
  }

  /** The scopes of one thing a wildcard's scope segment stands for, and that the role covers. */
  function ScopesOf(v: Vocabulary, w: Grant, thing: string): set<string>
    requires HasRole(v, thing, w.role)
  {
    set s | s in v.things[thing].scopes && (w.scope == ANY || s == w.scope)
            && AllowsScope(v.things[thing].roles[w.role], s)
  }

  /** The same things in the order a sweep visits them. */
  function ThingList(v: Vocabulary, w: Grant): (r: seq<string>)
    ensures forall t :: t in r <==> t in ThingsOf(v, w)
  {
    if w.thing == ANY then Sorted(v.things.Keys) else [w.thing]
  }

  /** The names a wildcard reaches on one thing. */
  function SweepThing(v: Vocabulary, w: Grant, skipSensitive: bool, thing: string): set<string> {
    if !HasRole(v, thing, w.role) then {}
    else set s | s in ScopesOf(v, w, thing) && !(skipSensitive && Sensitive(v, s)) :: Name(Grant(s, thing, w.role))
  }

  /** The names a wildcard reaches. */
  function Sweep(v: Vocabulary, w: Grant, skipSensitive: bool): set<string> {
    set t, n | t in ThingsOf(v, w) && n in SweepThing(v, w, skipSensitive, t) :: n
  }

  /** A wildcard's expansion, sorted and without repeats: exactly the names it reaches, over the
      sensitive scopes or not. */
  method Expand(v: Vocabulary, w: Grant, skipSensitive: bool) returns (out: seq<string>)
    ensures StrictlySorted(out)
    ensures forall n :: n in out <==> n in Sweep(v, w, skipSensitive)
  {
    var things := ThingList(v, w);
    var names := [];
    for i := 0 to |things|
      invariant forall n :: n in names <==> exists j :: 0 <= j < i && n in SweepThing(v, w, skipSensitive, things[j])
    {
      var here := ExpandThing(v, w, skipSensitive, things[i]);
      names := names + here;
    }
    out := Sorted(set n | n in names);
  }

  method ExpandThing(v: Vocabulary, w: Grant, skipSensitive: bool, thing: string) returns (names: seq<string>)
    ensures forall n :: n in names <==> n in SweepThing(v, w, skipSensitive, thing)
  {
    names := [];
    if !HasRole(v, thing, w.role) {
      return;
    }
    var spec := v.things[thing];
    var scopes := spec.scopes;
    if w.scope != ANY {
      if w.scope !in spec.scopes {
        return;
      }
      scopes := [w.scope];
    }
    for i := 0 to |scopes|
      invariant forall n :: n in names <==> n in NamesOf(v, w.role, thing, skipSensitive, scopes[..i])
    {
      assert scopes[..i + 1] == scopes[..i] + [scopes[i]];
      if !(skipSensitive && Sensitive(v, scopes[i])) && AllowsScope(spec.roles[w.role], scopes[i]) {
        names := names + [Name(Grant(scopes[i], thing, w.role))];
      }
    }
    assert scopes[..|scopes|] == scopes;
    assert NamesOf(v, w.role, thing, skipSensitive, scopes) == SweepThing(v, w, skipSensitive, thing);
  }

  /** The names some scopes of a thing give, each scope checked on its own. */
  ghost function NamesOf(v: Vocabulary, role: string, thing: string, skipSensitive: bool, scopes: seq<string>): set<string>
    requires HasRole(v, thing, role)
  {
    set s | s in scopes && AllowsScope(v.things[thing].roles[role], s) && !(skipSensitive && Sensitive(v, s))
          :: Name(Grant(s, thing, role))
  }

  /** For a coherent vocabulary, a name that reads as a grant is in a wildcard's expansion exactly
      when the grant matches the wildcard, fits the vocabulary and is not in a sensitive scope; the
      expansion that ignores sensitivity drops only the last condition. */
  lemma SweepIsWhatFits(v: Vocabulary, w: Grant, skipSensitive: bool, name: string)
    requires Coherent(v) && SplitGroup(name).Some?
    ensures var g := SplitGroup(name).value;
      name in Sweep(v, w, skipSensitive) <==>
        && g.role == w.role && (w.thing == ANY || g.thing == w.thing) && (w.scope == ANY || g.scope == w.scope)
        && Fits(v, g) == None
        && !(skipSensitive && Sensitive(v, g.scope))
  {
    var g := SplitGroup(name).value;
    NameSplit(name);
    if name in Sweep(v, w, skipSensitive) {
      var t, s :| t in ThingsOf(v, w) && HasRole(v, t, w.role) && s in ScopesOf(v, w, t)
        && !(skipSensitive && Sensitive(v, s)) && name == Name(Grant(s, t, w.role));
      SplitName(Grant(s, t, w.role));
    }
    if HasRole(v, g.thing, w.role) && g.scope in ScopesOf(v, w, g.thing) && g.role == w.role
       && !(skipSensitive && Sensitive(v, g.scope)) && g.thing in ThingsOf(v, w) {
      assert name in SweepThing(v, w, skipSensitive, g.thing);
    }
  }

  // ----- Why an expansion is empty

  datatype Why =
    | NoRole                              // no declared thing has the role
    | NoScope                             // no thing with the role declares the scope
    | NoRoleScope                         // the role is not valid on the scope for any thing that declares it
    | AllSensitive(scopes: seq<string>)   // every matching scope is sensitive

  /** What a sweep has met: a thing with the role, a matching scope on one, and the scopes the role
      allows. */
  datatype Met = Met(role: bool, scope: bool, allowed: set<string>)

  /** The scopes of one thing a wildcard's scope segment stands for, whatever the role covers. */
  function Candidates(v: Vocabulary, w: Grant, thing: string): set<string> {
    if !HasRole(v, thing, w.role) then {}
    else set s | s in v.things[thing].scopes && (w.scope == ANY || s == w.scope)
  }

  function Allowed(v: Vocabulary, w: Grant, thing: string): set<string> {
    if HasRole(v, thing, w.role) then ScopesOf(v, w, thing) else {}
  }

  function MetOn(v: Vocabulary, w: Grant, thing: string): Met {
    Met(HasRole(v, thing, w.role), Candidates(v, w, thing) != {}, Allowed(v, w, thing))
  }

  function MetIn(v: Vocabulary, w: Grant, things: seq<string>): Met {
    if things == [] then Met(false, false, {})
    else Both(MetIn(v, w, things[..|things| - 1]), MetOn(v, w, things[|things| - 1]))
  }

  function Both(a: Met, b: Met): Met {
    Met(a.role || b.role, a.scope || b.scope, a.allowed + b.allowed)
  }

  lemma MetOneMore(v: Vocabulary, w: Grant, things: seq<string>, i: nat)
    requires i < |things|
    ensures MetIn(v, w, things[..i + 1]) == Both(MetIn(v, w, things[..i]), MetOn(v, w, things[i]))
  {
    assert things[..i + 1][..i] == things[..i];
  }

  /** The sensitive ones of some scopes. */
  function SensitiveOf(v: Vocabulary, scopes: set<string>): set<string> {
    set s | s in scopes && Sensitive(v, s)
  }

  lemma SensitiveOfBoth(v: Vocabulary, a: set<string>, b: set<string>)
    ensures SensitiveOf(v, a + b) == SensitiveOf(v, a) + SensitiveOf(v, b)
  {
  }

  function EmptyReason(v: Vocabulary, w: Grant): Why {
    var met := MetIn(v, w, ThingList(v, w));
    if !met.role then NoRole
    else if !met.scope then NoScope
    else if met.allowed == {} then NoRoleScope
    else AllSensitive(Sorted(SensitiveOf(v, met.allowed)))
  }

  /** The sweep that explains an empty expansion: three flags and the sensitive scopes met. */
  method EmptyWhy(v: Vocabulary, w: Grant) returns (why: Why)
    ensures why == EmptyReason(v, w)
  {
    var things := ThingList(v, w);
    var roleFound, scopeFound, roleScopeFound := false, false, false;
    var sensitive: set<string> := {};
    ghost var all := Met(false, false, {});
    for i := 0 to |things|
      invariant all == MetIn(v, w, things[..i])
      invariant all.role == roleFound && all.scope == scopeFound
      invariant roleScopeFound <==> all.allowed != {}
      invariant sensitive == SensitiveOf(v, all.allowed)
    {
      MetOneMore(v, w, things, i);
      SensitiveOfBoth(v, all.allowed, MetOn(v, w, things[i]).allowed);
      var role, found, some, met := ScanThing(v, w, things[i]);
      roleFound, scopeFound, roleScopeFound := roleFound || role, scopeFound || found, roleScopeFound || some;
      sensitive := sensitive + met;
      all := Both(all, MetOn(v, w, things[i]));
    }
    assert things[..|things|] == things;
    if !roleFound {
      why := NoRole;
    } else if !scopeFound {
      why := NoScope;
    } else if !roleScopeFound {
      why := NoRoleScope;
    } else {
      why := AllSensitive(Sorted(sensitive));
    }
  }

  method ScanThing(v: Vocabulary, w: Grant, thing: string)
      returns (role: bool, found: bool, some: bool, sensitive: set<string>)
    ensures MetOn(v, w, thing).role == role && MetOn(v, w, thing).scope == found
    ensures some <==> MetOn(v, w, thing).allowed != {}
    ensures sensitive == SensitiveOf(v, MetOn(v, w, thing).allowed)
  {
    role, found, some, sensitive := HasRole(v, thing, w.role), false, false, {};
    if !role {
      return;
    }
    var spec := v.things[thing];
    var scopes := spec.scopes;
    if w.scope != ANY {
      if w.scope !in spec.scopes {
        return;
      }
      scopes := [w.scope];
    }
    ghost var fit;
    found, some, sensitive, fit := ScanScopes(v, spec.roles[w.role], scopes);
    assert found ==> scopes[0] in Candidates(v, w, thing);
    assert fit == Allowed(v, w, thing);
  }

  /** The inner loop of that sweep: `fit` is every scope the role allows, for the proof. */
  method ScanScopes(v: Vocabulary, role: RoleSpec, scopes: seq<string>)
      returns (found: bool, some: bool, sensitive: set<string>, ghost fit: set<string>)
    ensures found <==> scopes != []
    ensures fit == set s | s in scopes && AllowsScope(role, s)
    ensures some <==> fit != {}
    ensures sensitive == SensitiveOf(v, fit)
  {
    found, some, sensitive, fit := false, false, {}, {};
    for i := 0 to |scopes|
      invariant found <==> i > 0
      invariant fit == set s | s in scopes[..i] && AllowsScope(role, s)
      invariant some <==> fit != {}
      invariant sensitive == SensitiveOf(v, fit)
    {
      assert scopes[..i + 1] == scopes[..i] + [scopes[i]];
      found := true;
      if AllowsScope(role, scopes[i]) {
        some, fit := true, fit + {scopes[i]};
        if Sensitive(v, scopes[i]) {
          sensitive := sensitive + {scopes[i]};
        }
      }
    }
    assert scopes[..|scopes|] == scopes;
  }

  lemma {:induction false} MetInMeans(v: Vocabulary, w: Grant, things: seq<string>)
    ensures var met := MetIn(v, w, things);
      && (met.role <==> exists t :: t in things && HasRole(v, t, w.role))
      && (met.scope <==> exists t :: t in things && Candidates(v, w, t) != {})
      && (forall s :: s in met.allowed <==> exists t :: t in things && s in Allowed(v, w, t))
  {
    if things != [] {
      var n := |things| - 1;
      MetInMeans(v, w, things[..n]);
      assert things == things[..n] + [things[n]];
    }
  }

  lemma Reached(v: Vocabulary, w: Grant, thing: string, scope: string)
    requires thing in ThingsOf(v, w) && scope in Allowed(v, w, thing) && !Sensitive(v, scope)
    ensures Sweep(v, w, true) != {}
  {
    assert Name(Grant(scope, thing, w.role)) in SweepThing(v, w, true, thing);
    assert Name(Grant(scope, thing, w.role)) in Sweep(v, w, true);
  }

  /** When a wildcard that passed its check expands to nothing, the reason given is true: no thing it
      covers has the role (and then its thing is `*`); or some has, and none of those declares the
      scope; or some does, and the role is valid on none; or there are scopes it could have reached,
      they are exactly the ones listed, and every one is sensitive. */
  lemma EmptyReasonIsTrue(v: Vocabulary, w: Grant)
    requires CheckWildcard(v, w) == None && Sweep(v, w, true) == {}
    ensures var role := exists t :: t in ThingsOf(v, w) && HasRole(v, t, w.role);
      var scope := exists t :: t in ThingsOf(v, w) && Candidates(v, w, t) != {};
      match EmptyReason(v, w)
      case NoRole => !role && w.thing == ANY
      case NoScope => role && !scope
      case NoRoleScope => scope && forall t :: t in ThingsOf(v, w) ==> Allowed(v, w, t) == {}
      case AllSensitive(scopes) =>
        && scopes != [] && StrictlySorted(scopes)
        && (forall s :: s in scopes ==> Sensitive(v, s))
        && (forall s :: s in scopes <==> exists t :: t in ThingsOf(v, w) && s in Allowed(v, w, t))
  {
    var met := MetIn(v, w, ThingList(v, w));
    MetInMeans(v, w, ThingList(v, w));
    assert w.thing != ANY ==> w.thing in ThingsOf(v, w) && HasRole(v, w.thing, w.role);
    forall s | s in met.allowed
      ensures Sensitive(v, s)
    {
      var t :| t in ThingsOf(v, w) && s in Allowed(v, w, t);
      if !Sensitive(v, s) {
        Reached(v, w, t, s);
      }
    }
    if EmptyReason(v, w).AllSensitive? {
      var s :| s in met.allowed;
      assert s in EmptyReason(v, w).scopes;
    }
  }
}
