/** How long a refresh chain may live, given everything it has been used for. */
module AbsoluteLimits {
  import opened Policies

  /** The longest any resource may extend a chain to: seven days, in nanoseconds. */
  const MAX_ABSOLUTE_CAP := 7 * 24 * 3_600_000_000_000

  function Max(a: int, b: int): int {
    if a < b then b else a
  }

  function Min(a: int, b: int): int {
    if b < a then b else a
  }

  /** One resource's own limit, given the installation's; at or below zero there is no limit. A cap can shorten
      the installation's limit, and lengthen it for a read-only resource alone, up to seven days. */
  function AbsoluteFor(r: Resource, global: int): (limit: int)
    ensures global <= 0 || r.absoluteCap <= 0 ==> limit == global
    ensures global > 0 && r.absoluteCap > 0 ==>
      var ceiling := if r.readOnly && global < 604_800_000_000_000 then 604_800_000_000_000 else global;
      limit <= r.absoluteCap && limit <= ceiling && (limit == r.absoluteCap || limit == ceiling)
  {
    if r.absoluteCap <= 0 || global <= 0 then global
    else if r.absoluteCap <= global then r.absoluteCap
    else if !r.readOnly then global
    else Max(global, Min(r.absoluteCap, MAX_ABSOLUTE_CAP))
  }

  /** What load-time validation asks of a row by itself. */
  predicate ValidCap(r: Resource) {
    r.absoluteCap == 0 || 0 < r.absoluteCap <= MAX_ABSOLUTE_CAP
  }

  /** What the issuer asks of it at start, when it knows its own limit. */
  predicate CheckAbsoluteCap(r: Resource, global: int) {
    !(r.absoluteCap > global && global > 0 && !r.readOnly)
  }

  /** The limit one touched id stands for. The empty id is the client's own audience. */
  function Contribution(global: int, id: string, declared: map<string, Resource>): int {
    if id != "" && id in declared then AbsoluteFor(declared[id], global) else global
  }

  /** The limit of the chain, as a function of its history. */
  function Effective(global: int, touched: seq<string>, declared: map<string, Resource>): int {
    if global <= 0 || touched == [] then global
    else
      var last := Contribution(global, touched[|touched| - 1], declared);
      if |touched| == 1 then last else Min(Effective(global, touched[..|touched| - 1], declared), last)
  }

  /** As it runs: zero stands for "nothing seen yet", which is sound because no contribution is zero. */
  method EffectiveAbsolute(global: int, touched: seq<string>, declared: map<string, Resource>) returns (out: int)
    ensures out == Effective(global, touched, declared)
  {
    if global <= 0 || |touched| == 0 {
      return global;
    }
    out := 0;
    for i := 0 to |touched|
      invariant out == if i == 0 then 0 else Effective(global, touched[..i], declared)
      invariant i > 0 ==> out > 0
    {
      assert touched[..i + 1][..i] == touched[..i];
      var limit := global;
      if touched[i] != "" && touched[i] in declared {
        limit := AbsoluteFor(declared[touched[i]], global);
      }
      if out == 0 || limit < out {
        out := limit;
      }
    }
    assert touched[..|touched|] == touched;
  }

  /** The limit is the least contribution: no touched id allows less, and one allows exactly this. */
  lemma {:induction false} EffectiveIsTheMinimum(global: int, touched: seq<string>, declared: map<string, Resource>)
    requires global > 0 && touched != []
    ensures forall id :: id in touched ==> Effective(global, touched, declared) <= Contribution(global, id, declared)
    ensures exists id :: id in touched && Effective(global, touched, declared) == Contribution(global, id, declared)
  {
    var before, last := touched[..|touched| - 1], touched[|touched| - 1];
    assert last in touched;
    if before != [] {
      EffectiveIsTheMinimum(global, before, declared);
      assert touched == before + [last];
      var id :| id in before && Effective(global, before, declared) == Contribution(global, id, declared);
      assert id in touched;
    }
  }

  /** A chain that has touched more never lives longer. In particular neither the order things were
      touched in nor how often makes a difference. */
  lemma TouchingMoreNeverLengthens(global: int, fewer: seq<string>, more: seq<string>, declared: map<string, Resource>)
    requires global > 0 && fewer != []
    requires forall id :: id in fewer ==> id in more
    ensures Effective(global, more, declared) <= Effective(global, fewer, declared)
  {
    EffectiveIsTheMinimum(global, fewer, declared);
    assert fewer[0] in more;
    EffectiveIsTheMinimum(global, more, declared);
  }

  lemma OnlyWhatWasTouchedMatters(global: int, a: seq<string>, b: seq<string>, declared: map<string, Resource>)
    requires forall id :: id in a <==> id in b
    ensures Effective(global, a, declared) == Effective(global, b, declared)
  {
    assert a != [] ==> a[0] in b;
    assert b != [] ==> b[0] in a;
    if global > 0 && a != [] {
      TouchingMoreNeverLengthens(global, a, b, declared);
      TouchingMoreNeverLengthens(global, b, a, declared);
    }
  }

  /** What lets one id outlive the installation's limit. */
  predicate Extends(global: int, id: string, declared: map<string, Resource>) {
    id != "" && id in declared && declared[id].readOnly && declared[id].absoluteCap > global
  }

  /** The limit is positive and bounded; and it passes the installation's exactly when every single
      resource touched is declared, says it is read-only and carries a longer cap. */
  lemma LongerOnlyWhenAllAgree(global: int, touched: seq<string>, declared: map<string, Resource>)
    requires global > 0 && touched != []
    ensures 0 < Effective(global, touched, declared) <= Max(global, MAX_ABSOLUTE_CAP)
    ensures Effective(global, touched, declared) > global <==>
      global < MAX_ABSOLUTE_CAP && forall id :: id in touched ==> Extends(global, id, declared)
  {
    EffectiveIsTheMinimum(global, touched, declared);
  }

  /** A row is never clamped exactly when both checks accept it, for a cap within the ceiling; and then
      what it says is what it contributes. */
  lemma AcceptedIsNeverClamped(r: Resource, global: int)
    requires global > 0 && r.absoluteCap > 0
    ensures ValidCap(r) ==> (CheckAbsoluteCap(r, global) <==> AbsoluteFor(r, global) == r.absoluteCap)
    ensures !ValidCap(r) ==> (AbsoluteFor(r, global) == r.absoluteCap <==> r.absoluteCap <= global)
  {
  }

  /** So over declared rows both checks accept, the chain lives as long as the shortest cap among what
      it touched, or the installation's limit where there is none. */
  lemma AcceptedLimitIsAsDeclared(global: int, touched: seq<string>, declared: map<string, Resource>)
    requires global > 0 && touched != []
    requires forall id :: id in declared ==> ValidCap(declared[id]) && CheckAbsoluteCap(declared[id], global)
    ensures exists id :: id in touched && Effective(global, touched, declared) == Declared(global, id, declared)
    ensures forall id :: id in touched ==> Effective(global, touched, declared) <= Declared(global, id, declared)
  {
    EffectiveIsTheMinimum(global, touched, declared);
    forall id | id in touched
      ensures Contribution(global, id, declared) == Declared(global, id, declared)
    {
      if id != "" && id in declared && declared[id].absoluteCap > 0 {
        AcceptedIsNeverClamped(declared[id], global);
      }
    }
  }

  /** What a row says, unclamped. */
  function Declared(global: int, id: string, declared: map<string, Resource>): int {
    if id != "" && id in declared && declared[id].absoluteCap != 0 then declared[id].absoluteCap else global
  }
}
