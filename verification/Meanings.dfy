/** What a vocabulary and a groups key mean, said of the declared data alone. */
module Meanings {
  import opened Wrappers
  import opened Text
  import opened Grants
  import opened Ladders
  import opened Vocabularies
  import opened Policies

  // ----- Concrete grants

  /** A role is valid on a scope: it lists no scopes of its own, or lists this one. */
  ghost predicate ValidOn(role: RoleSpec, scope: string) {
    role.scopes == None || role.scopes == Some([]) || scope in role.scopes.value
  }

  /** A grant of the vocabulary: its scope, thing and role are declared, the thing exists in the scope, and
      the role is valid on it. */
  ghost predicate Belongs(v: Vocabulary, g: Grant) {
    && g.scope in v.scopes && g.thing in v.things && g.scope in v.things[g.thing].scopes
    && g.role in v.things[g.thing].roles && ValidOn(v.things[g.thing].roles[g.role], g.scope)
  }

  /** The check accepts exactly the grants that belong, and otherwise says what is wrong. */
  lemma FitsMeans(v: Vocabulary, g: Grant)
    ensures Fits(v, g) == None <==> Belongs(v, g)
    ensures match Fits(v, g)
      case None => true
      case Some(UndeclaredScope) => g.scope !in v.scopes
      case Some(UndeclaredThing) => g.scope in v.scopes && g.thing !in v.things
      case Some(ThingLacksScope) => g.scope in v.scopes && g.thing in v.things && g.scope !in v.things[g.thing].scopes
      case Some(UndeclaredRole) => g.thing in v.things && g.scope in v.things[g.thing].scopes && g.role !in v.things[g.thing].roles
      case Some(RoleLacksScope) =>
        g.thing in v.things && g.role in v.things[g.thing].roles && !ValidOn(v.things[g.thing].roles[g.role], g.scope)
  {
  }

  /** A thing as validation wants it: it exists somewhere and has roles, all its scopes are declared, each
      scope a role lists gives a grant that belongs, and wherever a role does, so does what it implies. */
  ghost predicate Sound(v: Vocabulary, t: string)
    requires t in v.things
  {
    var spec := v.things[t];
    && spec.scopes != [] && (forall s :: s in spec.scopes ==> s in v.scopes) && spec.roles != map[]
    && forall r :: r in spec.roles ==> SoundRole(v, t, r)
  }

  ghost predicate SoundRole(v: Vocabulary, t: string, r: string)
    requires t in v.things && r in v.things[t].roles
  {
    var role := v.things[t].roles[r];
    && role.scopes != Some([])
    && (role.scopes.Some? ==> forall s :: s in role.scopes.value ==> Belongs(v, Grant(s, t, r)))
    && forall i :: i in role.implies ==>
         && i in v.things[t].roles
         && forall s :: Belongs(v, Grant(s, t, r)) ==> Belongs(v, Grant(s, t, i))
  }

  /** Validation of a vocabulary, cycles apart, asks exactly that. */
  lemma CoherentMeans(v: Vocabulary)
    ensures Coherent(v) <==> forall t :: t in v.things ==> Sound(v, t)
  {
    forall t | t in v.things
      ensures ThingCoherent(v, v.things[t]) <==> Sound(v, t)
    {
      if forall s :: s in v.things[t].scopes ==> s in v.scopes {
        forall r | r in v.things[t].roles
          ensures RoleCoherent(v, v.things[t], v.things[t].roles[r]) <==> SoundRole(v, t, r)
        {
          RoleMeans(v, t, r);
        }
      }
    }
  }

  lemma RoleMeans(v: Vocabulary, t: string, r: string)
    requires t in v.things && r in v.things[t].roles && forall s :: s in v.things[t].scopes ==> s in v.scopes
    ensures RoleCoherent(v, v.things[t], v.things[t].roles[r]) <==> SoundRole(v, t, r)
  {
    var spec := v.things[t];
    var role := spec.roles[r];
    forall s
      ensures role.scopes.Some? && s in role.scopes.value ==> (s in v.scopes && s in spec.scopes <==> Belongs(v, Grant(s, t, r)))
    {
    }
    if role.scopes != Some([]) && forall s :: s in OwnScopes(role) ==> s in v.scopes && s in spec.scopes {
      forall i | i in role.implies
        ensures EdgeCovered(spec, role, i) <==>
          i in spec.roles && forall s :: Belongs(v, Grant(s, t, r)) ==> Belongs(v, Grant(s, t, i))
      {
        EdgeMeans(v, t, r, i);
      }
    }
  }

  lemma EdgeMeans(v: Vocabulary, t: string, r: string, i: string)
    requires t in v.things && r in v.things[t].roles && forall s :: s in v.things[t].scopes ==> s in v.scopes
    requires forall s :: s in OwnScopes(v.things[t].roles[r]) ==> s in v.things[t].scopes
    ensures EdgeCovered(v.things[t], v.things[t].roles[r], i) <==>
      i in v.things[t].roles && forall s :: Belongs(v, Grant(s, t, r)) ==> Belongs(v, Grant(s, t, i))
  {
    var spec := v.things[t];
    forall s
      ensures s in EffectiveScopes(spec.roles[r], spec) <==> Belongs(v, Grant(s, t, r))
    {
    }
    if i in spec.roles {
      forall s | s in spec.scopes
        ensures AllowsScope(spec.roles[i], s) <==> Belongs(v, Grant(s, t, i))
      {
      }
    }
  }

  /** The same for a wildcard's own check: what it says is missing is missing. */
  lemma CheckWildcardMeans(v: Vocabulary, w: Grant)
    ensures match CheckWildcard(v, w)
      case None => true
      case Some(UndeclaredScope) => w.scope != ANY && w.scope !in v.scopes
      case Some(UndeclaredThing) => w.thing != ANY && w.thing !in v.things
      case Some(ThingLacksScope) => w.scope != ANY && w.thing in v.things && w.scope !in v.things[w.thing].scopes
      case Some(UndeclaredRole) => w.thing in v.things && w.role !in v.things[w.thing].roles
      case Some(RoleLacksScope) => false
  {
  }

  // ----- Wildcards

  /** A grant has the wildcard's role, and its scope and thing where those are named. */
  ghost predicate Matches(w: Grant, g: Grant) {
    g.role == w.role && (w.scope == ANY || g.scope == w.scope) && (w.thing == ANY || g.thing == w.thing)
  }

  /** A thing has the wildcard's role. */
  ghost predicate RoleOn(v: Vocabulary, w: Grant, t: string) {
    (w.thing == ANY || t == w.thing) && t in v.things && w.role in v.things[t].roles
  }

  /** And a scope of its own that the wildcard means. */
  ghost predicate ScopeOn(v: Vocabulary, w: Grant, t: string, s: string) {
    RoleOn(v, w, t) && s in v.things[t].scopes && (w.scope == ANY || s == w.scope)
  }

  /** And the role is valid there. */
  ghost predicate RoleValidOn(v: Vocabulary, w: Grant, t: string, s: string) {
    ScopeOn(v, w, t, s) && ValidOn(v.things[t].roles[w.role], s)
  }

  ghost predicate IsSensitive(v: Vocabulary, s: string) {
    s in v.scopes && v.scopes[s] == true
  }

  /** A sweep is every name the wildcard reaches, sensitive scopes among them or not. */
  lemma SweepMeans(v: Vocabulary, w: Grant, skipSensitive: bool, name: string)
    ensures name in Sweep(v, w, skipSensitive) <==>
      exists t, s :: RoleValidOn(v, w, t, s) && !(skipSensitive && IsSensitive(v, s)) && name == Name(Grant(s, t, w.role))
  {
    if t, s :| RoleValidOn(v, w, t, s) && !(skipSensitive && IsSensitive(v, s)) && name == Name(Grant(s, t, w.role)) {
      assert HasRole(v, t, w.role) && s in ScopesOf(v, w, t);
      assert name in SweepThing(v, w, skipSensitive, t);
    }
    if name in Sweep(v, w, skipSensitive) {
      var t :| t in ThingsOf(v, w) && name in SweepThing(v, w, skipSensitive, t);
      var s :| s in ScopesOf(v, w, t) && !(skipSensitive && Sensitive(v, s)) && name == Name(Grant(s, t, w.role));
      assert RoleValidOn(v, w, t, s);
    }
  }

  /** When a sweep over the scopes that are not sensitive finds nothing, the reason given is the first of
      these that is true: no thing has the role; no scope matches on one that has; the role is valid on
      none that does; every scope it reaches is sensitive, and these are they, sorted. */
  lemma EmptyMeans(v: Vocabulary, w: Grant)
    requires CheckWildcard(v, w) == None && Sweep(v, w, true) == {}
    ensures EmptyReason(v, w).NoRole? <==> !exists t :: RoleOn(v, w, t)
    ensures EmptyReason(v, w).NoScope? <==> (exists t :: RoleOn(v, w, t)) && !exists t, s :: ScopeOn(v, w, t, s)
    ensures EmptyReason(v, w).NoRoleScope? <==> (exists t, s :: ScopeOn(v, w, t, s)) && !exists t, s :: RoleValidOn(v, w, t, s)
    ensures EmptyReason(v, w).AllSensitive? <==> exists t, s :: RoleValidOn(v, w, t, s)
    ensures EmptyReason(v, w).AllSensitive? ==>
      && StrictlySorted(EmptyReason(v, w).scopes)
      && (forall s :: s in EmptyReason(v, w).scopes <==> exists t :: RoleValidOn(v, w, t, s))
      && (forall s :: s in EmptyReason(v, w).scopes ==> IsSensitive(v, s))
  {
    MetMeans(v, w);
    var allowed := MetIn(v, w, ThingList(v, w)).allowed;
    forall s | s in allowed
      ensures IsSensitive(v, s)
    {
      var t :| RoleValidOn(v, w, t, s);
      SweepMeans(v, w, true, Name(Grant(s, t, w.role)));
    }
    assert allowed != {} ==> SensitiveOf(v, allowed) == allowed;
    if t, s :| RoleValidOn(v, w, t, s) {
      assert s in allowed;
    }
    if allowed != {} {
      var s :| s in allowed;
      var t :| RoleValidOn(v, w, t, s);
    }
  }

  lemma MetMeans(v: Vocabulary, w: Grant)
    ensures var met := MetIn(v, w, ThingList(v, w));
      && (met.role <==> exists t :: RoleOn(v, w, t))
      && (met.scope <==> exists t, s :: ScopeOn(v, w, t, s))
      && (forall s :: s in met.allowed <==> exists t :: RoleValidOn(v, w, t, s))
  {
    MetInMeans(v, w, ThingList(v, w));
    forall t
      ensures t in ThingsOf(v, w) && HasRole(v, t, w.role) <==> RoleOn(v, w, t)
      ensures t in ThingsOf(v, w) && Candidates(v, w, t) != {} <==> exists s :: ScopeOn(v, w, t, s)
    {
      CandidatesMean(v, w, t);
    }
    forall t, s
      ensures t in ThingsOf(v, w) && s in Allowed(v, w, t) <==> RoleValidOn(v, w, t, s)
    {
    }
  }

  lemma CandidatesMean(v: Vocabulary, w: Grant, t: string)
    ensures t in ThingsOf(v, w) && Candidates(v, w, t) != {} <==> exists s :: ScopeOn(v, w, t, s)
  {
    if s :| ScopeOn(v, w, t, s) {
      assert s in Candidates(v, w, t);
    }
    if t in ThingsOf(v, w) && Candidates(v, w, t) != {} {
      var s :| s in Candidates(v, w, t);
      assert ScopeOn(v, w, t, s);
    }
  }

  // ----- What a groups key stands for

  /** Which names a key stands for. A name that is no grant stands for itself; so does a grant without a
      wildcard, if it belongs to the vocabulary there is; a wildcard stands for everything it covers
      outside sensitive scopes, and needs a vocabulary; and no key has a wildcard for its role. */
  ghost predicate StandsFor(vocabulary: Option<Vocabulary>, key: string, name: string) {
    match SplitGroup(key)
    case None => name == key
    case Some(w) =>
      w.role != ANY &&
      if w.scope != ANY && w.thing != ANY then name == key && (vocabulary.Some? ==> Belongs(vocabulary.value, w))
      else vocabulary.Some? && Covers(vocabulary.value, w, name)
  }

  ghost predicate Covers(v: Vocabulary, w: Grant, name: string) {
    && (w.scope != ANY ==> w.scope in v.scopes)
    && exists t, s :: RoleValidOn(v, w, t, s) && !IsSensitive(v, s) && name == Name(Grant(s, t, w.role))
  }

  /** And those are its targets: no more, and no fewer. */
  lemma TargetsMean(vocabulary: Option<Vocabulary>, key: string, name: string)
    ensures name in GroupKeyTargets(vocabulary, key) <==> StandsFor(vocabulary, key, name)
  {
    if SplitGroup(key).Some? {
      var w := SplitGroup(key).value;
      if vocabulary.Some? {
        FitsMeans(vocabulary.value, w);
        SweepMeans(vocabulary.value, w, true, name);
        CoveredIsChecked(vocabulary.value, w);
      }
    }
  }

  /** A wildcard that reaches anything passes its check. */
  lemma CoveredIsChecked(v: Vocabulary, w: Grant)
    ensures (exists t, s :: RoleValidOn(v, w, t, s)) && (w.scope != ANY ==> w.scope in v.scopes) ==> CheckWildcard(v, w) == None
  {
  }

  /** A key that is accepted without a wildcard stands for itself alone, one with a wildcard for names. */
  lemma AcceptedMeans(vocabulary: Option<Vocabulary>, key: string)
    ensures CheckGroupKey(vocabulary, key).Ok? <==> exists name :: StandsFor(vocabulary, key, name)
    ensures CheckGroupKey(vocabulary, key).Ok? && (SplitGroup(key).None? || !IsWildcard(SplitGroup(key).value)) ==>
      GroupKeyTargets(vocabulary, key) == [key]
  {
    if name :| StandsFor(vocabulary, key, name) {
      TargetsMean(vocabulary, key, name);
    }
    if CheckGroupKey(vocabulary, key).Ok? {
      TargetsMean(vocabulary, key, GroupKeyTargets(vocabulary, key)[0]);
    }
  }

  /** For a coherent vocabulary: a wildcard that is accepted stands for exactly the grants that have its
      role, match its scope and thing, belong to the vocabulary and are in no sensitive scope. */
  lemma WildcardStandsFor(v: Vocabulary, key: string, name: string)
    requires Coherent(v) && SplitGroup(key).Some? && SplitGroup(name).Some?
    requires IsWildcard(SplitGroup(key).value) && CheckGroupKey(Some(v), key).Ok?
    ensures var w, g := SplitGroup(key).value, SplitGroup(name).value;
      name in GroupKeyTargets(Some(v), key) <==> Matches(w, g) && Belongs(v, g) && !IsSensitive(v, g.scope)
  {
    var w, g := SplitGroup(key).value, SplitGroup(name).value;
    SweepIsWhatFits(v, w, true, name);
    FitsMeans(v, g);
    TargetsMean(Some(v), key, name);
    SweepMeans(v, w, true, name);
  }

  /** A wildcard key is accepted exactly when it names a role and something it covers is there to stand for. */
  lemma WildcardAccepted(v: Vocabulary, key: string)
    requires SplitGroup(key).Some? && IsWildcard(SplitGroup(key).value)
    ensures var w := SplitGroup(key).value;
      CheckGroupKey(Some(v), key).Ok? <==>
        && w.role != ANY && (w.scope != ANY ==> w.scope in v.scopes)
        && exists t, s :: RoleValidOn(v, w, t, s) && !IsSensitive(v, s)
  {
    var w := SplitGroup(key).value;
    AcceptedMeans(Some(v), key);
    if t, s :| RoleValidOn(v, w, t, s) && !IsSensitive(v, s) && w.role != ANY && (w.scope != ANY ==> w.scope in v.scopes) {
      assert StandsFor(Some(v), key, Name(Grant(s, t, w.role)));
    }
  }

  /** And a key is refused for a reason that is true of it. */
  lemma RefusalIsTrue(vocabulary: Option<Vocabulary>, key: string)
    requires CheckGroupKey(vocabulary, key).Err?
    ensures SplitGroup(key).Some?
    ensures var w := SplitGroup(key).value;
      match CheckGroupKey(vocabulary, key).why
      case RoleWildcard => w.role == ANY
      case NeedsVocabulary => vocabulary.None? && IsWildcard(w)
      case Unfit(misfit) =>
        vocabulary.Some? && (if IsWildcard(w) then CheckWildcard(vocabulary.value, w) else Fits(vocabulary.value, w)) == Some(misfit)
      case SensitiveScope(example) =>
        && vocabulary.Some? && IsWildcard(w) && IsSensitive(vocabulary.value, w.scope)
        && exists t :: RoleValidOn(vocabulary.value, w, t, w.scope) && example == Name(Grant(w.scope, t, w.role))
      case ExpandsToNothing(why) =>
        && vocabulary.Some? && IsWildcard(w) && why == EmptyReason(vocabulary.value, w)
        && !exists t, s :: RoleValidOn(vocabulary.value, w, t, s) && !IsSensitive(vocabulary.value, s)
  {
    var w := SplitGroup(key).value;
    if vocabulary.Some? {
      var v := vocabulary.value;
      FitsMeans(v, w);
      if t, s :| RoleValidOn(v, w, t, s) && !IsSensitive(v, s) {
        SweepMeans(v, w, true, Name(Grant(s, t, w.role)));
      }
      if CheckGroupKey(vocabulary, key).why.SensitiveScope? {
        SweepMeans(v, w, false, CheckGroupKey(vocabulary, key).why.example);
      }
    }
  }
}
