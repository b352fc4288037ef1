/** The caches in front of the session: one credential minted per lifetime, however many callers find a
    cache spent at once. */
module CacheTheorems {
  import opened Wrappers
  import opened Sessions
  import opened Protocol
  import opened RefreshSafety

  /** The last credential of a cache that could be kept. */
  function LastKept(mints: seq<Minted>, slot: Slot): (m: Option<Minted>)
    ensures m.Some? ==> m.value.until.Some?
  {
    if mints == [] then None
    else
      var last := mints[|mints| - 1];
      if last.slot == slot && last.until.Some? then Some(last) else LastKept(mints[..|mints| - 1], slot)
  }

  lemma NextKept(mints: seq<Minted>, m: Minted, slot: Slot)
    ensures LastKept(mints + [m], slot) == if m.slot == slot && m.until.Some? then Some(m) else LastKept(mints, slot)
  {
    assert (mints + [m])[..|mints|] == mints;
  }

  /** Found the cache spent under its lock, and is on its way to mint. */
  predicate Minting(p: Process, slot: Slot) {
    Holds(p, slot) && (Rank(slot) < Rank(p.at) || p.phase.Fill?)
  }

  predicate LateEnough(before: Option<Minted>, slot: Slot, at: int)
    requires before.Some? ==> before.value.until.Some?
  {
    before.Some? ==> at >= before.value.until.value - Margin(slot)
  }

  /** A cell holds the expiry of the last credential kept there; nobody mints while that is still offered;
      and nobody has. */
  ghost predicate CacheInv(s: State, slot: Slot) {
    && (LastKept(s.mints, slot).Some? ==> slot in s.cells && s.cells[slot] == LastKept(s.mints, slot).value.until.value)
    && (forall pid :: pid in s.procs && Minting(s.procs[pid], slot) ==> !Offered(s, slot))
    && (forall i :: 0 <= i < |s.mints| && s.mints[i].slot == slot ==> LateEnough(LastKept(s.mints[..i], slot), slot, s.mints[i].at))
  }

  lemma MintsGrow(s: State, slot: Slot, m: Minted, mints: seq<Minted>)
    requires CacheInv(s, slot) && mints == s.mints + [m]
    requires m.slot == slot ==> LateEnough(LastKept(s.mints, slot), slot, m.at)
    ensures forall i :: 0 <= i < |mints| && mints[i].slot == slot ==> LateEnough(LastKept(mints[..i], slot), slot, mints[i].at)
  {
    forall i | 0 <= i < |mints| && mints[i].slot == slot
      ensures LateEnough(LastKept(mints[..i], slot), slot, mints[i].at)
    {
      if i < |s.mints| {
        assert mints[..i] == s.mints[..i];
      } else {
        assert mints[..i] == s.mints;
      }
    }
  }

  /** A process comes to mint only by finding the cache spent. */
  lemma MintingBefore(s: State, pid: nat, p: Process, action: Action, slot: Slot)
    requires ValidProcess(p) && Ready(s, p, action) && slot != SignIn
    requires Minting(Act(s, pid, p, action).procs[pid], slot)
    ensures Minting(p, slot) || (action.DoCheck? && p.at == slot && !Offered(s, slot))
  {
  }

  /** Who fills a cache is minting, and is the only one. */
  lemma FillerIsAlone(s: State, pid: nat, q: nat, slot: Slot)
    requires OwnersInside(s) && Exclusive(s, slot) && pid in s.procs && q in s.procs
    requires s.procs[pid].phase.Fill? && s.procs[pid].at == slot && Minting(s.procs[q], slot)
    ensures q == pid
  {
    assert Holds(s.procs[pid], slot) && Holds(s.procs[q], slot);
  }

  lemma FillKeepsCache(s: State, pid: nat, slot: Slot, expires: Option<int>)
    requires CacheInv(s, slot) && OwnersInside(s) && Exclusive(s, slot) && slot != SignIn
    requires pid in s.procs && Ready(s, s.procs[pid], DoFill(expires))
    ensures CacheInv(Act(s, pid, s.procs[pid], DoFill(expires)), slot)
  {
    var p := s.procs[pid];
    var t := Act(s, pid, p, DoFill(expires));
    NextKept(s.mints, Minted(p.at, s.now, expires), slot);
    assert p.at == slot ==> Minting(p, slot);
    MintsGrow(s, slot, Minted(p.at, s.now, expires), t.mints);
    forall q | q in t.procs && Minting(t.procs[q], slot)
      ensures !Offered(t, slot)
    {
      if q == pid {
        MintingBefore(s, pid, p, DoFill(expires), slot);
      } else if p.at == slot {
        FillerIsAlone(s, pid, q, slot);
      }
    }
  }

  lemma OtherKeepsCache(s: State, pid: nat, slot: Slot, action: Action)
    requires CacheInv(s, slot) && OwnersInside(s) && slot != SignIn
    requires pid in s.procs && Ready(s, s.procs[pid], action) && !action.DoFill?
    ensures CacheInv(Act(s, pid, s.procs[pid], action), slot)
  {
    var t := Act(s, pid, s.procs[pid], action);
    OnlyFillsMint(s, pid, s.procs[pid], action);
    OneActs(s, pid, s.procs[pid], action);
    forall q | q in t.procs && Minting(t.procs[q], slot)
      ensures !Offered(t, slot)
    {
      if q == pid {
        MintingBefore(s, pid, s.procs[pid], action, slot);
      }
    }
  }

  /** Nothing but a fill changes a cache, or is recorded as a mint. */
  lemma OnlyFillsMint(s: State, pid: nat, p: Process, action: Action)
    requires Ready(s, p, action) && !action.DoFill?
    ensures var t := Act(s, pid, p, action);
      t.cells == s.cells && t.mints == s.mints && t.now == s.now
  {
  }

  lemma StepKeepsCache(s: State, step: Step, slot: Slot)
    requires CacheInv(s, slot) && OwnersInside(s) && Exclusive(s, slot) && slot != SignIn && Enabled(s, step)
    ensures CacheInv(Apply(s, step), slot)
  {
    match step
    case By(pid, action) =>
      if action.DoFill? {
        FillKeepsCache(s, pid, slot, action.expires);
      } else {
        OtherKeepsCache(s, pid, slot, action);
      }
    case _ =>
  }

  /** The lock of this one cache can always be taken. */
  predicate Lockable(s: State, steps: seq<Step>, slot: Slot)
    requires Runs(s, steps)
    decreases |steps|
  {
    steps != [] ==>
      && !(steps[0].By? && steps[0].action.AcquireFails? && s.procs[steps[0].pid].at == slot)
      && Lockable(Apply(s, steps[0]), steps[1..], slot)
  }

  lemma {:induction false} RunKeepsCache(s: State, steps: seq<Step>, slot: Slot)
    requires CacheInv(s, slot) && OwnersInside(s) && Exclusive(s, slot) && slot != SignIn
    requires Runs(s, steps) && Lockable(s, steps, slot)
    ensures CacheInv(After(s, steps), slot)
    decreases |steps|
  {
    if steps != [] {
      StepKeepsCache(s, steps[0], slot);
      OwnersPreserved(s, steps[0]);
      LocksPreserved(s, steps[0], slot);
      RunKeepsCache(Apply(s, steps[0]), steps[1..], slot);
    }
  }

  /** Over any run in which the cache's own lock can be taken, whatever else fails: a reader finds in the
      cache exactly the last credential that could be kept, and offers it until its margin (five minutes for a
      certificate and for AWS, a minute otherwise); and none was minted for it while one was still offered. */
  lemma OneMintPerLifetime(s: State, steps: seq<Step>, slot: Slot)
    requires Initial(s) && slot != SignIn && Runs(s, steps) && Lockable(s, steps, slot)
    ensures var t, margin := After(s, steps), if slot.Cert? || (slot.Cache? && slot.file.Aws?) then 300 else 60;
      && (LastKept(t.mints, slot).Some? ==> (Offered(t, slot) <==> LastKept(t.mints, slot).value.until.value - t.now > margin))
      && forall i :: 0 <= i < |t.mints| && t.mints[i].slot == slot && LastKept(t.mints[..i], slot).Some? ==>
           t.mints[i].at >= LastKept(t.mints[..i], slot).value.until.value - margin
  {
    RunKeepsCache(s, steps, slot);
    var t := After(s, steps);
    forall i | 0 <= i < |t.mints| && t.mints[i].slot == slot
      ensures LateEnough(LastKept(t.mints[..i], slot), slot, t.mints[i].at)
    {
    }
  }
}
