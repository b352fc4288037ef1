/** What one command does when nobody is in its way. */
module CallerTheorems {
  import opened Wrappers
  import opened Sessions
  import opened Protocol

  /** A caller that finds the credential it asks for still offered is done at once: it takes no lock, asks
      nobody and changes nothing. */
  lemma WarmCallerIsDone(s: State, pid: nat, job: Job, wanted: Slot)
    requires pid !in s.procs && Offered(s, wanted)
    requires match job
      case Job(Some(name), _) => wanted == Cert(name)
      case Job(None, Some(file)) => wanted == Cache(file)
      case Job(None, None) => wanted == SignIn
    ensures var started := Apply(s, Start(pid, job));
      && Enabled(started, By(pid, DoPeek))
      && Apply(started, By(pid, DoPeek)) == started.(procs := s.procs[pid := Process(job, wanted, Done(true), s.file)])
  {
  }

  // ----- A process by itself

  /** The state after some actions of one process, if it can take them. */
  function Alone(s: State, pid: nat, actions: seq<Action>): Option<State>
    decreases |actions|
  {
    if actions == [] then Some(s)
    else if pid in s.procs && Ready(s, s.procs[pid], actions[0])
      then Alone(Act(s, pid, s.procs[pid], actions[0]), pid, actions[1..])
      else None
  }

  lemma {:induction false} AloneThen(s: State, pid: nat, a: seq<Action>, b: seq<Action>)
    requires Alone(s, pid, a).Some?
    ensures Alone(s, pid, a + b) == Alone(Alone(s, pid, a).value, pid, b)
    decreases |a|
  {
    if a == [] {
      assert a + b == b;
    } else {
      assert (a + b)[1..] == a[1..] + b;
      AloneThen(Act(s, pid, s.procs[pid], a[0]), pid, a[1..], b);
    }
  }

  lemma AloneVia(s: State, pid: nat, a: seq<Action>, u: State, b: seq<Action>, t: State)
    requires Alone(s, pid, a) == Some(u) && Alone(u, pid, b) == Some(t)
    ensures Alone(s, pid, a + b) == Some(t)
  {
    AloneThen(s, pid, a, b);
  }

  lemma AloneOnce(s: State, pid: nat, a: Action)
    requires pid in s.procs && Ready(s, s.procs[pid], a)
    ensures Alone(s, pid, [a]) == Some(Act(s, pid, s.procs[pid], a))
  {
    assert [a][1..] == [];
    assert forall t: State {:trigger Alone(t, pid, [])} :: Alone(t, pid, []) == Some(t);
  }

  lemma AloneTwice(s: State, pid: nat, a: Action, b: Action) returns (t: State)
    requires pid in s.procs && Ready(s, s.procs[pid], a)
    requires var u := Act(s, pid, s.procs[pid], a);
      pid in u.procs && Ready(u, u.procs[pid], b)
    ensures var u := Act(s, pid, s.procs[pid], a);
      t == Act(u, pid, u.procs[pid], b) && Alone(s, pid, [a, b]) == Some(t)
  {
    var u := Act(s, pid, s.procs[pid], a);
    t := Act(u, pid, u.procs[pid], b);
    AloneOnce(s, pid, a);
    AloneOnce(u, pid, b);
    AloneThen(s, pid, [a], [b]);
    assert [a] + [b] == [a, b];
  }

  lemma AloneThrice(s: State, pid: nat, a: Action, b: Action, c: Action)
    requires Alone(s, pid, [a, b]).Some?
    requires var u := Alone(s, pid, [a, b]).value;
      pid in u.procs && Ready(u, u.procs[pid], c)
    ensures var u := Alone(s, pid, [a, b]).value;
      Alone(s, pid, [a, b, c]) == Some(Act(u, pid, u.procs[pid], c))
  {
    AloneOnce(Alone(s, pid, [a, b]).value, pid, c);
    AloneThen(s, pid, [a, b], [c]);
    assert [a, b] + [c] == [a, b, c];
  }

  function StepsOf(pid: nat, actions: seq<Action>): seq<Step> {
    if actions == [] then [] else [By(pid, actions[0])] + StepsOf(pid, actions[1..])
  }

  lemma {:induction false} AloneIsARun(s: State, pid: nat, actions: seq<Action>)
    requires Alone(s, pid, actions).Some?
    ensures Runs(s, StepsOf(pid, actions)) && After(s, StepsOf(pid, actions)) == Alone(s, pid, actions).value
    decreases |actions|
  {
    if actions != [] {
      AloneIsARun(Act(s, pid, s.procs[pid], actions[0]), pid, actions[1..]);
      assert StepsOf(pid, actions)[1..] == StepsOf(pid, actions[1..]);
    }
  }

  // ----- Into a slot and out of it

  const ENTER: seq<Action> := [DoPeek, Acquire, DoCheck]

  function SpendFor(answer: Answer): seq<Action> {
    [DoPost(answer), DoSave, DoUnlock]
  }

  function LeaveWith(expires: Option<int>): seq<Action> {
    [DoFill(expires), DoUnlock]
  }

  /** Spent, and nobody has its lock. */
  predicate Free(s: State, slot: Slot) {
    !Offered(s, slot) && slot !in s.locks
  }

  predicate At(s: State, pid: nat, job: Job, slot: Slot, phase: Phase) {
    pid in s.procs && s.procs[pid].job == job && s.procs[pid].at == slot && s.procs[pid].phase == phase && InJob(job, slot)
  }

  /** Everybody else, and the clock. */
  ghost predicate OthersAlike(s: State, t: State, pid: nat) {
    t.now == s.now && t.epoch == s.epoch && t.procs.Keys == s.procs.Keys + {pid}
    && forall q :: q in s.procs && q != pid ==> t.procs[q] == s.procs[q]
  }

  /** The session and the issuer's side of it, which nothing but a refresh and a sign-in changes. */
  predicate SessionAlike(s: State, t: State) {
    t.file == s.file && t.live == s.live && t.unissued == s.unissued && t.log == s.log
  }

  ghost predicate Entered(s: State, t: State, pid: nat, job: Job, slot: Slot) {
    && At(t, pid, job, Inner(job, slot), Peek) && OthersAlike(s, t, pid) && SessionAlike(s, t)
    && t.locks == s.locks[slot := pid] && t.cells == s.cells
  }

  lemma Entering(s: State, pid: nat, job: Job, slot: Slot) returns (t: State)
    requires At(s, pid, job, slot, Peek) && slot != SignIn && Free(s, slot)
    ensures Alone(s, pid, ENTER) == Some(t) && Entered(s, t, pid, job, slot)
  {
    var acquired := AloneTwice(s, pid, DoPeek, Acquire);
    t := Act(acquired, pid, acquired.procs[pid], DoCheck);
    AloneThrice(s, pid, DoPeek, Acquire, DoCheck);
  }

  /** Done, or back at the slot around this one with a credential to fill it with. */
  predicate Returned(t: State, pid: nat, job: Job, slot: Slot) {
    match Around(job, slot)
    case None => At(t, pid, job, slot, Done(true))
    case Some(outer) => At(t, pid, job, outer, Fill)
  }

  ghost predicate Left(s: State, t: State, pid: nat, job: Job, slot: Slot, expires: Option<int>) {
    && Returned(t, pid, job, slot) && OthersAlike(s, t, pid) && SessionAlike(s, t)
    && t.locks == s.locks - {slot}
    && t.cells == if expires.Some? then s.cells[slot := expires.value] else s.cells
  }

  lemma Leaving(s: State, pid: nat, job: Job, slot: Slot, expires: Option<int>) returns (t: State)
    requires At(s, pid, job, slot, Fill) && slot in s.locks && s.locks[slot] == pid
    ensures Alone(s, pid, LeaveWith(expires)) == Some(t) && Left(s, t, pid, job, slot, expires)
  {
    t := AloneTwice(s, pid, DoFill(expires), DoUnlock);
  }

  /** One request, spending the live token; and the file holds what the answer granted. */
  predicate RefreshedBy(s: State, t: State, answer: Answer) {
    && t.log == s.log + [Exchange(s.now, s.epoch, s.file.refresh, s.live, Some(answer))]
    && t.file.refresh == t.live == (if answer.refresh != 0 then answer.refresh else s.live)
    && (answer.expiresIn > 0 ==> t.file.access == answer.access && t.file.expires == Some(s.now + answer.expiresIn))
    && (answer.expiresIn <= 0 ==> t.file.access == 0 && t.file.expires == None)
  }

  lemma Checking(s: State, pid: nat, job: Job) returns (t: State)
    requires At(s, pid, job, SignIn, Peek) && Free(s, SignIn)
    ensures Alone(s, pid, ENTER) == Some(t)
    ensures At(t, pid, job, SignIn, Post) && t.procs[pid].seen == s.file && t.locks == s.locks[SignIn := pid]
    ensures OthersAlike(s, t, pid) && SessionAlike(s, t) && t.cells == s.cells
  {
    var acquired := AloneTwice(s, pid, DoPeek, Acquire);
    t := Act(acquired, pid, acquired.procs[pid], DoCheck);
    AloneThrice(s, pid, DoPeek, Acquire, DoCheck);
  }

  lemma Spending(s: State, pid: nat, job: Job, answer: Answer) returns (t: State)
    requires At(s, pid, job, SignIn, Post) && s.procs[pid].seen == s.file && s.file.refresh == s.live && Issuable(s, answer)
    requires SignIn in s.locks && s.locks[SignIn] == pid
    ensures Alone(s, pid, SpendFor(answer)) == Some(t)
    ensures Returned(t, pid, job, SignIn) && OthersAlike(s, t, pid) && RefreshedBy(s, t, answer)
    ensures t.locks == s.locks - {SignIn} && t.cells == s.cells
  {
    var saved := PostAndSave(s, pid, job, answer);
    t := Act(saved, pid, saved.procs[pid], DoUnlock);
    AloneThrice(s, pid, DoPost(answer), DoSave, DoUnlock);
  }

  lemma PostAndSave(s: State, pid: nat, job: Job, answer: Answer) returns (t: State)
    requires At(s, pid, job, SignIn, Post) && s.procs[pid].seen == s.file && s.file.refresh == s.live && Issuable(s, answer)
    ensures Alone(s, pid, [DoPost(answer), DoSave]) == Some(t)
    ensures At(t, pid, job, SignIn, Unlock(true)) && OthersAlike(s, t, pid) && RefreshedBy(s, t, answer)
    ensures t.locks == s.locks && t.cells == s.cells
  {
    t := AloneTwice(s, pid, DoPost(answer), DoSave);
  }

  lemma Refreshing(s: State, pid: nat, job: Job, answer: Answer, until: map<Slot, int>) returns (t: State)
    requires At(s, pid, job, SignIn, Peek) && Free(s, SignIn) && s.file.refresh == s.live && Issuable(s, answer)
    ensures Alone(s, pid, ENTER + SpendFor(answer)) == Some(t) && Served(s, t, pid, job, SignIn, answer, until)
  {
    var u := Checking(s, pid, job);
    t := Spending(u, pid, job, answer);
    RefreshedThrough(s, u, t, pid, answer);
    AloneVia(s, pid, ENTER, u, SpendFor(answer), t);
  }

  lemma RefreshedThrough(s: State, u: State, t: State, pid: nat, answer: Answer)
    requires OthersAlike(s, u, pid) && SessionAlike(s, u) && OthersAlike(u, t, pid) && RefreshedBy(u, t, answer)
    requires SignIn !in s.locks && u.locks == s.locks[SignIn := pid] && t.locks == u.locks - {SignIn}
    ensures OthersAlike(s, t, pid) && RefreshedBy(s, t, answer) && t.locks == s.locks
  {
  }

  /** Out of a slot again, with the session refreshed and the slots stocked. */
  ghost predicate Served(s: State, t: State, pid: nat, job: Job, slot: Slot, answer: Answer, until: map<Slot, int>) {
    && Returned(t, pid, job, slot) && OthersAlike(s, t, pid) && RefreshedBy(s, t, answer)
    && t.locks == s.locks && Stocked(s, t, job, slot, until)
  }

  // ----- The whole command

  /** What a command does, slot by slot inwards and back, when everything is spent and nothing fails; a
      credential minted for a slot can be kept until the time given there, if one is. */
  function Program(job: Job, slot: Slot, answer: Answer, until: map<Slot, int>): seq<Action>
    decreases 2 - Rank(slot)
  {
    if slot == SignIn then ENTER + SpendFor(answer)
    else ENTER + (Program(job, Inner(job, slot), answer, until)
                  + LeaveWith(if slot in until then Some(until[slot]) else None))
  }

  /** Every slot from this one inwards is free. */
  ghost predicate AllFree(s: State, job: Job, slot: Slot) {
    forall l :: InJob(job, l) && Rank(l) >= Rank(slot) ==> Free(s, l)
  }

  /** The slots from this one inwards hold what was minted for them, where it can be kept, and the rest
      what they held. */
  ghost predicate Stocked(s: State, t: State, job: Job, slot: Slot, until: map<Slot, int>) {
    forall l :: if InJob(job, l) && l != SignIn && Rank(l) >= Rank(slot) && l in until
      then l in t.cells && t.cells[l] == until[l]
      else (l in t.cells <==> l in s.cells) && (l in t.cells ==> t.cells[l] == s.cells[l])
  }

  lemma InnerIsInside(job: Job, slot: Slot)
    requires InJob(job, slot) && slot != SignIn
    ensures InJob(job, Inner(job, slot)) && Around(job, Inner(job, slot)) == Some(slot) && Rank(Inner(job, slot)) > Rank(slot)
    ensures forall l :: InJob(job, l) && Rank(l) >= Rank(slot) <==> l == slot || (InJob(job, l) && Rank(l) >= Rank(Inner(job, slot)))
  {
  }

  lemma {:induction false} Working(s: State, pid: nat, job: Job, slot: Slot, answer: Answer, until: map<Slot, int>) returns (t: State)
    requires At(s, pid, job, slot, Peek) && AllFree(s, job, slot) && s.file.refresh == s.live && Issuable(s, answer)
    ensures Alone(s, pid, Program(job, slot, answer, until)) == Some(t) && Served(s, t, pid, job, slot, answer, until)
    decreases 2 - Rank(slot)
  {
    if slot == SignIn {
      t := Refreshing(s, pid, job, answer, until);
    } else {
      var inner, expires := Inner(job, slot), if slot in until then Some(until[slot]) else None;
      InnerIsInside(job, slot);
      var u := Entering(s, pid, job, slot);
      StillFree(s, u, job, slot);
      var v := Working(u, pid, job, inner, answer, until);
      BackInside(u, v, pid, job, slot, answer, until);
      t := Leaving(v, pid, job, slot, expires);
      ServedAround(s, u, v, t, pid, job, slot, answer, until);
      AloneVia(u, pid, Program(job, inner, answer, until), v, LeaveWith(expires), t);
      AloneVia(s, pid, ENTER, u, Program(job, inner, answer, until) + LeaveWith(expires), t);
    }
  }

  lemma BackInside(u: State, v: State, pid: nat, job: Job, slot: Slot, answer: Answer, until: map<Slot, int>)
    requires InJob(job, slot) && slot != SignIn && Served(u, v, pid, job, Inner(job, slot), answer, until)
    requires slot in u.locks && u.locks[slot] == pid
    ensures At(v, pid, job, slot, Fill) && slot in v.locks && v.locks[slot] == pid
  {
    InnerIsInside(job, slot);
  }

  lemma ServedAround(s: State, u: State, v: State, t: State, pid: nat, job: Job, slot: Slot, answer: Answer, until: map<Slot, int>)
    requires InJob(job, slot) && slot != SignIn && slot !in s.locks && pid in s.procs
    requires Entered(s, u, pid, job, slot) && Served(u, v, pid, job, Inner(job, slot), answer, until)
    requires Left(v, t, pid, job, slot, if slot in until then Some(until[slot]) else None)
    ensures Served(s, t, pid, job, slot, answer, until)
  {
    StockedAround(s, v, t, job, slot, until);
    assert t.locks == s.locks;
    OthersStayAlike(s, u, v, t, pid);
  }

  lemma OthersStayAlike(s: State, u: State, v: State, t: State, pid: nat)
    requires OthersAlike(s, u, pid) && OthersAlike(u, v, pid) && OthersAlike(v, t, pid)
    ensures OthersAlike(s, t, pid)
  {
  }

  lemma StockedAround(s: State, v: State, t: State, job: Job, slot: Slot, until: map<Slot, int>)
    requires InJob(job, slot) && slot != SignIn && Stocked(s, v, job, Inner(job, slot), until)
    requires t.cells == if slot in until then v.cells[slot := until[slot]] else v.cells
    ensures Stocked(s, t, job, slot, until)
  {
    InnerIsInside(job, slot);
    forall l
      ensures if InJob(job, l) && l != SignIn && Rank(l) >= Rank(slot) && l in until
        then l in t.cells && t.cells[l] == until[l]
        else (l in t.cells <==> l in s.cells) && (l in t.cells ==> t.cells[l] == s.cells[l])
    {
      assert l != slot ==> (l in t.cells <==> l in v.cells) && (l in t.cells ==> t.cells[l] == v.cells[l]);
    }
  }

  lemma StillFree(s: State, u: State, job: Job, slot: Slot)
    requires InJob(job, slot) && slot != SignIn && AllFree(s, job, slot)
    requires u.now == s.now && u.file == s.file && u.cells == s.cells && u.locks.Keys == s.locks.Keys + {slot}
    ensures AllFree(u, job, Inner(job, slot))
  {
    InnerIsInside(job, slot);
  }

  /** What a command is for is in the certificate and the cache it names, where it can be kept, and no other
      credential has changed. */
  ghost predicate Supplied(s: State, t: State, job: Job, until: map<Slot, int>) {
    && (forall name :: job.cert == Some(name) && Cert(name) in until ==> Cell(t, Cert(name)) == Some(until[Cert(name)]))
    && (forall file :: job.cache == Some(file) && Cache(file) in until ==> Cell(t, Cache(file)) == Some(until[Cache(file)]))
    && forall l :: l !in until || (l.Cert? && job.cert != Some(l.name)) || (l.Cache? && job.cache != Some(l.file)) ==> Cell(t, l) == Cell(s, l)
  }

  function Cell(s: State, slot: Slot): Option<int> {
    if slot in s.cells then Some(s.cells[slot]) else None
  }

  /** A caller that finds everything spent and nobody in its way comes back with its credential: it asks the
      issuer once, with the live token, and leaves behind a session and caches the next caller can use. */
  lemma ColdCallerIsServed(s: State, pid: nat, job: Job, answer: Answer, until: map<Slot, int>)
    requires pid !in s.procs && (forall l :: InJob(job, l) ==> Free(s, l)) && s.file.refresh == s.live && Issuable(s, answer)
    ensures var started := Apply(s, Start(pid, job));
      var steps := StepsOf(pid, Program(job, Outermost(job), answer, until));
      && Runs(started, steps)
      && var t := After(started, steps);
         && pid in t.procs && t.procs[pid].phase == Done(true)
         && OthersAlike(s, t, pid) && t.locks == s.locks
         && RefreshedBy(s, t, answer) && Supplied(s, t, job, until)
  {
    var started := Apply(s, Start(pid, job));
    var program := Program(job, Outermost(job), answer, until);
    assert forall l :: Free(s, l) ==> Free(started, l);
    var t := Working(started, pid, job, Outermost(job), answer, until);
    AloneIsARun(started, pid, program);
    StartedAlike(s, started, t, pid, job, answer, until);
    StockedIsSupplied(s, t, job, until);
  }

  lemma StockedIsSupplied(s: State, t: State, job: Job, until: map<Slot, int>)
    requires Stocked(s, t, job, Outermost(job), until)
    ensures Supplied(s, t, job, until)
  {
  }

  lemma StartedAlike(s: State, started: State, t: State, pid: nat, job: Job, answer: Answer, until: map<Slot, int>)
    requires pid !in s.procs && started == Apply(s, Start(pid, job)) && Served(started, t, pid, job, Outermost(job), answer, until)
    ensures pid in t.procs && t.procs[pid].phase == Done(true) && OthersAlike(s, t, pid) && t.locks == s.locks
    ensures RefreshedBy(s, t, answer) && Stocked(s, t, job, Outermost(job), until)
  {
  }
}
