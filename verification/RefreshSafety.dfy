/** What every fault-free run of the protocol keeps, and why each fault is excluded. */
module RefreshSafety {
  import opened Wrappers
  import opened Sessions
  import opened Protocol

  /** Signed in, nobody running. */
  predicate Initial(s: State) {
    && s.procs == map[] && s.locks == map[] && s.log == [] && s.mints == []
    && s.file.refresh == s.live
    && 0 < s.live < s.unissued
  }

  /** The steps the guarantees exclude, each only in the states where it does harm: a sign-in, which
      takes no lock, while the session lock is held; working on the session without its lock; spending a
      token read before the lock when the file has changed since; and an answer that never reaches the
      file. Working without an outer lock is not among them. */
  predicate FaultyAction(s: State, p: Process, action: Action)
    requires Ready(s, p, action)
  {
    match action
    case AcquireFails => p.at == SignIn
    case CheckUnreadable => p.seen != s.file
    case AnswerLost(answer) => answer.refresh != 0 && answer.refresh != s.live
    case SaveFails => true
    case Crash => p.phase.Save? && p.phase.next != p.seen
    case _ => false
  }

  predicate Faulty(s: State, step: Step)
    requires Enabled(s, step)
  {
    match step
    case Login(_) => SignIn in s.locks
    case By(pid, action) => FaultyAction(s, s.procs[pid], action)
    case _ => false
  }

  predicate FaultFree(s: State, steps: seq<Step>)
    requires Runs(s, steps)
    decreases |steps|
  {
    steps != [] ==> !Faulty(s, steps[0]) && FaultFree(Apply(s, steps[0]), steps[1..])
  }

  // ----- Locks

  predicate ValidProcess(p: Process) {
    && InJob(p.job, p.at)
    && (p.phase.Post? || p.phase.Save? ==> p.at == SignIn)
    && (p.phase.Fill? ==> p.at != SignIn)
  }

  predicate Owns(s: State, pid: nat, slot: Slot) {
    slot in s.locks && s.locks[slot] == pid
  }

  /** Every lock's owner is a process inside the section the lock guards. */
  ghost predicate OwnersInside(s: State) {
    && (forall pid :: pid in s.procs ==> ValidProcess(s.procs[pid]))
    && (forall slot :: slot in s.locks ==> s.locks[slot] in s.procs)
    && (forall pid, slot {:trigger Holds(s.procs[pid], slot)} {:trigger Owns(s, pid, slot)} ::
          pid in s.procs && Owns(s, pid, slot) ==> Holds(s.procs[pid], slot))
  }

  /** Whoever is inside a slot's critical section owns its lock, so one process is inside at most. */
  ghost predicate Exclusive(s: State, slot: Slot) {
    forall pid {:trigger Holds(s.procs[pid], slot)} {:trigger Owns(s, pid, slot)} ::
      pid in s.procs && Holds(s.procs[pid], slot) ==> Owns(s, pid, slot)
  }

  /** What the session needs of the locks; the caches may be worked on by anybody. */
  ghost predicate LockInv(s: State) {
    OwnersInside(s) && Exclusive(s, SignIn)
  }

  /** Returning to the slot around gives up the slot a process is at and no other. */
  lemma PopHolds(p: Process, ok: bool, slot: Slot)
    requires ValidProcess(p) && (p.phase.Peek? || p.phase.Unlock?)
    ensures ValidProcess(Pop(p, ok))
    ensures Holds(Pop(p, ok), slot) <==> Holds(p, slot) && slot != p.at
  {
  }

  /** Whether a process that takes an action has a lock afterwards, given whether it had it before. */
  predicate HeldAfter(p: Process, action: Action, slot: Slot, before: bool) {
    if action.Crash? then false
    else if slot == p.at && action.Acquire? then true
    else if slot == p.at && action.DoUnlock? then false
    else before
  }

  lemma ReturnHolds(s: State, pid: nat, p: Process, action: Action, slot: Slot)
    requires ValidProcess(p) && Ready(s, p, action)
    requires action.DoPeek? || action.PeekUnreadable? || action.DoUnlock?
    ensures ValidProcess(Act(s, pid, p, action).procs[pid])
    ensures Holds(Act(s, pid, p, action).procs[pid], slot) <==> HeldAfter(p, action, slot, Holds(p, slot))
  {
    PopHolds(p, true, slot);
    PopHolds(p, false, slot);
  }

  /** What a process's program says it holds changes as the lock calls it makes. */
  lemma ActionHolds(s: State, pid: nat, p: Process, action: Action, slot: Slot)
    requires ValidProcess(p) && Ready(s, p, action) && !action.AcquireFails?
    ensures ValidProcess(Act(s, pid, p, action).procs[pid])
    ensures Holds(Act(s, pid, p, action).procs[pid], slot) <==> HeldAfter(p, action, slot, Holds(p, slot))
  {
    if action.DoPeek? || action.PeekUnreadable? || action.DoUnlock? {
      ReturnHolds(s, pid, p, action, slot);
    }
  }

  /** The lock table changes the same way for the process that acts, and not at all for the others. */
  lemma ActionOwns(s: State, pid: nat, p: Process, action: Action, q: nat, slot: Slot)
    requires Ready(s, p, action) && !action.AcquireFails?
    ensures var t := Act(s, pid, p, action);
      Owns(t, q, slot) <==> if q == pid then HeldAfter(p, action, slot, Owns(s, pid, slot)) else Owns(s, q, slot)
  {
  }

  lemma OneActs(s: State, pid: nat, p: Process, action: Action)
    requires Ready(s, p, action)
    ensures var t := Act(s, pid, p, action); pid in t.procs && t.procs == s.procs[pid := t.procs[pid]]
  {
  }

  /** Going on without a lock gives up none. */
  lemma FallbackHolds(p: Process, slot: Slot)
    requires p.phase.Wait?
    ensures Holds(p.(phase := Check), slot) <==> Holds(p, slot) || (slot == p.at && InJob(p.job, p.at))
  {
  }

  lemma FallbackKeepsOwners(s: State, pid: nat, t: State)
    requires OwnersInside(s) && pid in s.procs && Ready(s, s.procs[pid], AcquireFails)
    requires t == Act(s, pid, s.procs[pid], AcquireFails)
    ensures OwnersInside(t)
  {
    forall q, slot | q in t.procs && Owns(t, q, slot)
      ensures Holds(t.procs[q], slot)
    {
      assert Owns(s, q, slot);
      FallbackHolds(s.procs[pid], slot);
    }
  }

  lemma ActionKeepsOwners(s: State, pid: nat, action: Action, t: State)
    requires OwnersInside(s) && pid in s.procs && Ready(s, s.procs[pid], action) && !action.AcquireFails?
    requires t == Act(s, pid, s.procs[pid], action)
    ensures OwnersInside(t)
  {
    OneActs(s, pid, s.procs[pid], action);
    ActionHolds(s, pid, s.procs[pid], action, SignIn);
    forall q, slot | q in t.procs && Owns(t, q, slot)
      ensures Holds(t.procs[q], slot)
    {
      ActionHolds(s, pid, s.procs[pid], action, slot);
      ActionOwns(s, pid, s.procs[pid], action, q, slot);
    }
    forall slot | slot in t.locks
      ensures t.locks[slot] in t.procs
    {
      ActionOwns(s, pid, s.procs[pid], action, t.locks[slot], slot);
    }
  }

  /** Every step, the fallback and every other fault included, keeps each lock's owner inside. */
  lemma OwnersPreserved(s: State, step: Step)
    requires OwnersInside(s) && Enabled(s, step)
    ensures OwnersInside(Apply(s, step))
  {
    match step
    case By(pid, action) =>
      if action.AcquireFails? {
        FallbackKeepsOwners(s, pid, Apply(s, step));
      } else {
        ActionKeepsOwners(s, pid, action, Apply(s, step));
      }
    case _ =>
  }

  lemma ActionKeepsExclusive(s: State, pid: nat, action: Action, slot: Slot, t: State)
    requires OwnersInside(s) && Exclusive(s, slot) && pid in s.procs && Ready(s, s.procs[pid], action)
    requires action.AcquireFails? ==> s.procs[pid].at != slot
    requires t == Act(s, pid, s.procs[pid], action)
    ensures Exclusive(t, slot)
  {
    OneActs(s, pid, s.procs[pid], action);
    forall q | q in t.procs && Holds(t.procs[q], slot)
      ensures Owns(t, q, slot)
    {
      if action.AcquireFails? {
        FallbackHolds(s.procs[pid], slot);
        assert Owns(s, q, slot);
      } else {
        ActionHolds(s, pid, s.procs[pid], action, slot);
        ActionOwns(s, pid, s.procs[pid], action, q, slot);
      }
    }
  }

  /** Mutual exclusion in a slot's critical section survives every step except going on without that
      slot's own lock, whatever happens at the others. */
  lemma LocksPreserved(s: State, step: Step, slot: Slot)
    requires OwnersInside(s) && Exclusive(s, slot) && Enabled(s, step)
    requires step.By? && step.action.AcquireFails? ==> s.procs[step.pid].at != slot
    ensures Exclusive(Apply(s, step), slot)
  {
    match step
    case By(pid, action) => ActionKeepsExclusive(s, pid, action, slot, Apply(s, step));
    case _ =>
  }

  // ----- The session

  /** The last request of a sign-in whose answer arrived. */
  function LastAnswered(log: seq<Exchange>, epoch: nat): (x: Option<Exchange>)
    ensures x.Some? ==> x.value.answer.Some?
  {
    if log == [] then None
    else
      var last := log[|log| - 1];
      if last.epoch != epoch then None
      else if last.answer.Some? then Some(last)
      else LastAnswered(log[..|log| - 1], epoch)
  }

  /** A session holds the access token an answer granted, with its expiry, or none when the answer did not
      say how long it lives. */
  predicate KeptFrom(kept: Session, x: Exchange)
    requires x.answer.Some?
  {
    var answer := x.answer.value;
    if answer.expiresIn > 0 then kept.access == answer.access && kept.expires == Some(x.at + answer.expiresIn)
    else kept.access == 0 && kept.expires == None
  }

  /** `kept` is what the next reader will find: the live refresh token, and what the last answer of this
      sign-in granted. */
  predicate Current(s: State, kept: Session) {
    && kept.refresh == s.live
    && (LastAnswered(s.log, s.epoch).Some? ==> KeptFrom(kept, LastAnswered(s.log, s.epoch).value))
  }

  predicate InSession(p: Process) {
    p.at == SignIn && !p.phase.Done? && !p.phase.Peek? && !p.phase.Wait?
  }

  /** Has read the session and found its access token spent. */
  predicate ReadSpent(p: Process) {
    p.at == SignIn && (p.phase.Wait? || p.phase.Check? || p.phase.Post?)
  }

  ghost predicate SessionInv(s: State) {
    && 0 < s.live < s.unissued
    && ((forall pid :: pid in s.procs ==> !s.procs[pid].phase.Save?) ==> Current(s, s.file))
    && (forall pid :: pid in s.procs && s.procs[pid].phase.Save? ==>
          s.procs[pid].seen == s.file && Current(s, s.procs[pid].phase.next))
    && (forall pid :: pid in s.procs && s.procs[pid].phase.Post? ==> s.procs[pid].seen == s.file)
    && (forall pid :: pid in s.procs && ReadSpent(s.procs[pid]) ==> !LiveToken(s.procs[pid].seen, s.now))
  }

  /** An answer granted an access token that lives more than nothing. */
  predicate Grants(x: Exchange) {
    x.answer.Some? && x.answer.value.access != 0 && x.answer.value.expiresIn > 0
  }

  /** A request this late comes no sooner than the margin before the token last granted expires. */
  predicate Spaced(before: Option<Exchange>, at: int) {
    before.Some? && Grants(before.value) ==> at >= before.value.at + before.value.answer.value.expiresIn - SESSION_TOKEN_MARGIN
  }

  /** Every request presented the one live token, and no sooner than the last granted access token of its
      sign-in had all but the margin of its lifetime behind it. */
  predicate LogInv(s: State) {
    && (forall i :: 0 <= i < |s.log| ==>
          s.log[i].presented == s.log[i].live && s.log[i].at <= s.now && s.log[i].epoch <= s.epoch)
    && (forall i :: 0 <= i < |s.log| ==> Spaced(LastAnswered(s.log[..i], s.log[i].epoch), s.log[i].at))
  }

  ghost predicate Inv(s: State) {
    LockInv(s) && SessionInv(s) && LogInv(s)
  }

  /** Only one process is inside the session's critical section. */
  lemma OneInSession(s: State, p: nat, q: nat)
    requires LockInv(s) && p in s.procs && q in s.procs
    requires InSession(s.procs[p]) && InSession(s.procs[q])
    ensures p == q
  {
    assert Holds(s.procs[p], s.procs[p].at) && Holds(s.procs[q], s.procs[q].at);
  }

  /** `t` differs from `s` in one process, the locks and the outer caches. */
  ghost predicate Elsewhere(s: State, pid: nat, t: State) {
    && pid in t.procs && t.procs == s.procs[pid := t.procs[pid]]
    && t.now == s.now && t.file == s.file && t.live == s.live && t.unissued == s.unissued
    && t.epoch == s.epoch && t.log == s.log
  }

  /** A process moves on without touching the file or the issuer. */
  lemma MoveKeepsSession(s: State, pid: nat, p: Process, t: State)
    requires SessionInv(s) && LogInv(s) && pid in s.procs && Elsewhere(s, pid, t) && p == t.procs[pid]
    requires s.procs[pid].phase.Save? ==> s.procs[pid].phase.next == s.file
    requires !p.phase.Save? && (p.phase.Post? ==> p.seen == s.file) && (ReadSpent(p) ==> !LiveToken(p.seen, s.now))
    ensures SessionInv(t) && LogInv(t)
  {
    assert forall q :: q in s.procs && q != pid ==> q in t.procs && t.procs[q] == s.procs[q];
  }

  /** The actions that reach neither the file nor the issuer. */
  predicate Local(action: Action) {
    !action.DoPost? && !action.Refused? && !action.AnswerLost? && !action.DoSave?
  }

  lemma LocalIsElsewhere(s: State, pid: nat, p: Process, action: Action)
    requires Ready(s, p, action) && Local(action)
    ensures Elsewhere(s, pid, Act(s, pid, p, action))
  {
  }

  lemma LocalProcess(s: State, pid: nat, p: Process, action: Action)
    requires Ready(s, p, action) && Local(action) && !FaultyAction(s, p, action)
    requires ReadSpent(p) ==> !LiveToken(p.seen, s.now)
    ensures var p' := Act(s, pid, p, action).procs[pid];
      !p'.phase.Save? && (p'.phase.Post? ==> p'.seen == s.file) && (ReadSpent(p') ==> !LiveToken(p'.seen, s.now))
  {
  }

  lemma LocalKeepsSession(s: State, pid: nat, action: Action)
    requires SessionInv(s) && LogInv(s) && pid in s.procs && Ready(s, s.procs[pid], action)
    requires Local(action) && !FaultyAction(s, s.procs[pid], action)
    ensures SessionInv(Act(s, pid, s.procs[pid], action)) && LogInv(Act(s, pid, s.procs[pid], action))
  {
    var t := Act(s, pid, s.procs[pid], action);
    LocalIsElsewhere(s, pid, s.procs[pid], action);
    LocalProcess(s, pid, s.procs[pid], action);
    assert s.procs[pid].phase.Save? ==> action.Crash?;
    MoveKeepsSession(s, pid, t.procs[pid], t);
  }

  lemma LogGrows(s: State, x: Exchange, t: State)
    requires LogInv(s) && t == s.(log := s.log + [x])
    requires x.presented == x.live && x.at <= s.now && x.epoch <= s.epoch && Spaced(LastAnswered(s.log, x.epoch), x.at)
    ensures LogInv(t)
  {
    forall i | 0 <= i < |t.log|
      ensures Spaced(LastAnswered(t.log[..i], t.log[i].epoch), t.log[i].at)
    {
      if i < |s.log| {
        assert t.log[..i] == s.log[..i];
      } else {
        assert t.log[..i] == s.log;
      }
    }
  }

  /** One more request by the process inside the session's critical section: it presents the live
      token, and no sooner than the margin before the last known expiry. */
  lemma RequestKeepsLog(s: State, pid: nat, p: Process, answer: Option<Answer>)
    requires Inv(s) && pid in s.procs && p == s.procs[pid] && p.phase.Post?
    ensures LogInv(Logged(s, p.seen.refresh, answer))
    ensures Current(s, s.file) && p.seen == s.file && forall q :: q in s.procs && q != pid ==> !InSession(s.procs[q])
  {
    forall q | q in s.procs && q != pid
      ensures !InSession(s.procs[q])
    {
      if InSession(s.procs[q]) {
        OneInSession(s, q, pid);
      }
    }
    LogGrows(s, Exchange(s.now, s.epoch, p.seen.refresh, s.live, answer), Logged(s, p.seen.refresh, answer));
  }

  /** An answer that arrives is the last of its sign-in; one that does not leaves the one before it. */
  lemma NextAnswered(log: seq<Exchange>, x: Exchange)
    ensures LastAnswered(log + [x], x.epoch) == if x.answer.Some? then Some(x) else LastAnswered(log, x.epoch)
  {
    assert (log + [x])[..|log|] == log;
  }

  /** What is about to be saved is current. */
  lemma PostedIsCurrent(s: State, pid: nat, p: Process, answer: Answer)
    requires Ready(s, p, DoPost(answer))
    ensures Current(Posted(s, pid, p, answer), Rewritten(p.seen, answer, s.now))
  {
    NextAnswered(s.log, Exchange(s.now, s.epoch, p.seen.refresh, s.live, Some(answer)));
  }

  lemma PostKeepsLog(s: State, pid: nat, p: Process, answer: Answer)
    requires Inv(s) && pid in s.procs && p == s.procs[pid] && Ready(s, p, DoPost(answer))
    ensures LogInv(Posted(s, pid, p, answer))
  {
    RequestKeepsLog(s, pid, p, Some(answer));
    assert Posted(s, pid, p, answer).log == Logged(s, p.seen.refresh, Some(answer)).log;
  }

  /** One process alone goes from the request to its answer. */
  lemma AnswerKeepsSession(s: State, pid: nat, t: State)
    requires SessionInv(s) && pid in t.procs && t.procs == s.procs[pid := t.procs[pid]]
    requires t.now == s.now && t.file == s.file && 0 < t.live < t.unissued
    requires t.procs[pid].phase.Save? && t.procs[pid].seen == t.file && Current(t, t.procs[pid].phase.next)
    requires forall q :: q in s.procs && q != pid ==> !InSession(s.procs[q])
    requires forall q :: q in s.procs ==> ValidProcess(s.procs[q])
    ensures SessionInv(t)
  {
    assert forall q :: q in t.procs && q != pid ==> q in s.procs && t.procs[q] == s.procs[q];
  }

  lemma PostKeepsInv(s: State, pid: nat, p: Process, answer: Answer)
    requires Inv(s) && pid in s.procs && p == s.procs[pid] && Ready(s, p, DoPost(answer))
    ensures SessionInv(Posted(s, pid, p, answer)) && LogInv(Posted(s, pid, p, answer))
  {
    PostKeepsLog(s, pid, p, answer);
    RequestKeepsLog(s, pid, p, Some(answer));
    PostedIsCurrent(s, pid, p, answer);
    AnswerKeepsSession(s, pid, Posted(s, pid, p, answer));
  }

  /** A request without an answer leaves the session as it was. */
  lemma UnansweredKeepsSession(s: State, pid: nat, t: State)
    requires SessionInv(s) && Current(s, s.file) && pid in t.procs && t.procs == s.procs[pid := t.procs[pid]]
    requires t.now == s.now && t.file == s.file && t.live == s.live && t.unissued >= s.unissued
    requires LastAnswered(t.log, t.epoch) == LastAnswered(s.log, s.epoch) && t.procs[pid].phase.Unlock?
    ensures SessionInv(t)
  {
    assert forall q :: q in t.procs && q != pid ==> q in s.procs && t.procs[q] == s.procs[q];
    assert Current(t, t.file);
    assert forall q :: q in t.procs && t.procs[q].phase.Save? ==> Current(t, t.procs[q].phase.next);
  }

  lemma LostKeepsInv(s: State, pid: nat, p: Process, answer: Answer)
    requires Inv(s) && pid in s.procs && p == s.procs[pid] && Ready(s, p, AnswerLost(answer))
    requires answer.refresh == 0 || answer.refresh == s.live
    ensures SessionInv(Act(s, pid, p, AnswerLost(answer))) && LogInv(Act(s, pid, p, AnswerLost(answer)))
  {
    var t := Act(s, pid, p, AnswerLost(answer));
    RequestKeepsLog(s, pid, p, None);
    assert t.log == Logged(s, p.seen.refresh, None).log;
    NextAnswered(s.log, Exchange(s.now, s.epoch, p.seen.refresh, s.live, None));
    UnansweredKeepsSession(s, pid, t);
  }

  lemma SaveKeepsInv(s: State, pid: nat, p: Process)
    requires Inv(s) && pid in s.procs && p == s.procs[pid] && p.phase.Save?
    ensures SessionInv(Saved(s, pid, p)) && LogInv(Saved(s, pid, p))
  {
    forall q | q in s.procs && q != pid
      ensures !InSession(s.procs[q])
    {
      if InSession(s.procs[q]) {
        OneInSession(s, q, pid);
      }
    }
  }

  /** A process that holds the session lock is never refused. */
  lemma NeverRefused(s: State, pid: nat)
    requires Inv(s) && pid in s.procs && s.procs[pid].phase.Post?
    ensures s.procs[pid].seen.refresh == s.live
  {
    RequestKeepsLog(s, pid, s.procs[pid], None);
  }

  lemma ActionKeepsSession(s: State, pid: nat, action: Action)
    requires Inv(s) && pid in s.procs && Ready(s, s.procs[pid], action) && !FaultyAction(s, s.procs[pid], action)
    ensures SessionInv(Act(s, pid, s.procs[pid], action)) && LogInv(Act(s, pid, s.procs[pid], action))
  {
    match action
    case DoPost(answer) => PostKeepsInv(s, pid, s.procs[pid], answer);
    case AnswerLost(answer) => LostKeepsInv(s, pid, s.procs[pid], answer);
    case DoSave => SaveKeepsInv(s, pid, s.procs[pid]);
    case Refused => NeverRefused(s, pid);
    case _ => LocalKeepsSession(s, pid, action);
  }

  lemma LoginKeepsSession(s: State, token: nat)
    requires Inv(s) && token >= s.unissued && SignIn !in s.locks
    ensures SessionInv(Apply(s, Login(token))) && LogInv(Apply(s, Login(token)))
  {
    forall pid | pid in s.procs
      ensures !InSession(s.procs[pid])
    {
      if InSession(s.procs[pid]) {
        assert Holds(s.procs[pid], s.procs[pid].at);
      }
    }
  }

  lemma StartKeepsSession(s: State, pid: nat, job: Job)
    requires Inv(s) && pid !in s.procs
    ensures SessionInv(Apply(s, Start(pid, job))) && LogInv(Apply(s, Start(pid, job)))
  {
    var t := Apply(s, Start(pid, job));
    assert forall q :: q in s.procs ==> q in t.procs && t.procs[q] == s.procs[q];
  }

  lemma SessionPreserved(s: State, step: Step)
    requires Inv(s) && Enabled(s, step) && !Faulty(s, step)
    ensures SessionInv(Apply(s, step)) && LogInv(Apply(s, step))
  {
    match step
    case Tick(_) =>
    case Login(token) => LoginKeepsSession(s, token);
    case Start(pid, job) => StartKeepsSession(s, pid, job);
    case By(pid, action) => ActionKeepsSession(s, pid, action);
  }

  lemma InvPreserved(s: State, step: Step)
    requires Inv(s) && Enabled(s, step) && !Faulty(s, step)
    ensures Inv(Apply(s, step))
  {
    OwnersPreserved(s, step);
    LocksPreserved(s, step, SignIn);
    SessionPreserved(s, step);
  }

  /** Every fault-free run keeps the invariant. */
  lemma {:induction false} RunKeepsInv(s: State, steps: seq<Step>)
    requires Inv(s) && Runs(s, steps) && FaultFree(s, steps)
    ensures Inv(After(s, steps))
    decreases |steps|
  {
    if steps != [] {
      InvPreserved(s, steps[0]);
      RunKeepsInv(Apply(s, steps[0]), steps[1..]);
    }
  }
}
