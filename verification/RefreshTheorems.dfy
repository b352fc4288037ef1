/** The promises of refresh over whole runs, and exactly what each excluded fault costs. */
module RefreshTheorems {
  import opened Wrappers
  import opened Sessions
  import opened Protocol
  import opened RefreshSafety

  // ----- Safety

  /** In every interleaving of any number of processes, each request to the token endpoint carries
      the issuer's one live refresh token, nobody about to spend one will be refused, and whenever
      the session lock is free the file holds exactly the live token, and with it the access token the
      last answer of this sign-in granted, under the expiry it was granted with. */
  lemma EveryRefreshSpendsTheLiveToken(s: State, steps: seq<Step>)
    requires Initial(s) && Runs(s, steps) && FaultFree(s, steps)
    ensures var t := After(s, steps);
      && (forall i :: 0 <= i < |t.log| ==> t.log[i].presented == t.log[i].live)
      && (forall pid :: pid in t.procs && t.procs[pid].phase.Post? ==> t.procs[pid].seen.refresh == t.live)
      && (SignIn !in t.locks ==> t.file.refresh == t.live)
      && (SignIn !in t.locks && LastAnswered(t.log, t.epoch).Some? ==> KeptFrom(t.file, LastAnswered(t.log, t.epoch).value))
  {
    RunKeepsInv(s, steps);
    var t := After(s, steps);
    forall pid | pid in t.procs && t.procs[pid].phase.Post?
      ensures t.procs[pid].seen.refresh == t.live
    {
      NeverRefused(t, pid);
    }
    forall pid | pid in t.procs && t.procs[pid].phase.Save?
      ensures SignIn in t.locks
    {
      assert Holds(t.procs[pid], t.procs[pid].at);
    }
  }

  // ----- What is logged

  /** What a step puts in the log: one entry for each request that reaches the issuer, with what was
      presented, what would have been accepted, and the answer if it arrived. */
  function Requested(s: State, step: Step): seq<Exchange>
    requires Enabled(s, step)
  {
    match step
    case By(pid, DoPost(answer)) => [Exchange(s.now, s.epoch, s.procs[pid].seen.refresh, s.live, Some(answer))]
    case By(pid, AnswerLost(_)) => [Exchange(s.now, s.epoch, s.procs[pid].seen.refresh, s.live, None)]
    case By(pid, Refused) => [Exchange(s.now, s.epoch, s.procs[pid].seen.refresh, s.live, None)]
    case _ => []
  }

  function RequestsOf(s: State, steps: seq<Step>): seq<Exchange>
    requires Runs(s, steps)
    decreases |steps|
  {
    if steps == [] then [] else Requested(s, steps[0]) + RequestsOf(Apply(s, steps[0]), steps[1..])
  }

  lemma StepIsLogged(s: State, step: Step)
    requires Enabled(s, step)
    ensures Apply(s, step).log == s.log + Requested(s, step)
  {
  }

  /** The log leaves none out: it is the requests of the run, in order. */
  lemma {:induction false} EveryRequestIsLogged(s: State, steps: seq<Step>)
    requires Runs(s, steps)
    ensures After(s, steps).log == s.log + RequestsOf(s, steps)
    decreases |steps|
  {
    if steps != [] {
      StepIsLogged(s, steps[0]);
      EveryRequestIsLogged(Apply(s, steps[0]), steps[1..]);
      assert s.log + (Requested(s, steps[0]) + RequestsOf(Apply(s, steps[0]), steps[1..]))
        == (s.log + Requested(s, steps[0])) + RequestsOf(Apply(s, steps[0]), steps[1..]);
    }
  }

  lemma NextIsSpaced(s: State, k: nat)
    requires LogInv(s) && 0 < k < |s.log| && s.log[k].epoch == s.log[k - 1].epoch && Grants(s.log[k - 1])
    ensures s.log[k].at >= s.log[k - 1].at + s.log[k - 1].answer.value.expiresIn - SESSION_TOKEN_MARGIN
  {
    NextAnswered(s.log[..k - 1], s.log[k - 1]);
    assert s.log[..k] == s.log[..k - 1] + [s.log[k - 1]];
    assert Spaced(LastAnswered(s.log[..k], s.log[k].epoch), s.log[k].at);
  }

  lemma {:induction false} SpacedTimes(times: seq<int>, i: nat, j: nat, gap: int)
    requires i <= j < |times| && forall k :: i < k <= j ==> times[k] - times[k - 1] >= gap
    ensures times[j] - times[i] >= (j - i) * gap
  {
    if i < j {
      SpacedTimes(times, i, j - 1, gap);
      assert (j - i) * gap == (j - 1 - i) * gap + gap;
    }
  }

  /** When every answer carries an access token that lives at least `life` seconds, exchanges of one
      sign-in are that long apart, less the margin, however many callers find the session spent. */
  lemma ExchangesAreSpaced(s: State, i: nat, j: nat, life: int)
    requires LogInv(s) && i <= j < |s.log|
    requires forall k :: i <= k <= j ==> s.log[k].epoch == s.log[i].epoch
    requires forall k :: i <= k < j ==> Grants(s.log[k]) && s.log[k].answer.value.expiresIn >= life
    ensures s.log[j].at - s.log[i].at >= (j - i) * (life - SESSION_TOKEN_MARGIN)
  {
    var times := seq(|s.log|, k requires 0 <= k < |s.log| => s.log[k].at);
    forall k | i < k <= j
      ensures times[k] - times[k - 1] >= life - SESSION_TOKEN_MARGIN
    {
      NextIsSpaced(s, k);
    }
    SpacedTimes(times, i, j, life - SESSION_TOKEN_MARGIN);
  }

  lemma NoneInsideALifetime(s: State, i: nat, j: nat)
    requires LogInv(s) && i < j < |s.log|
    requires forall k :: i <= k <= j ==> s.log[k].epoch == s.log[i].epoch
    requires forall k :: i <= k < j ==> Grants(s.log[k]) && s.log[k].answer.value.expiresIn > SESSION_TOKEN_MARGIN
    ensures Grants(s.log[i]) && s.log[j].at >= s.log[i].at + s.log[i].answer.value.expiresIn - SESSION_TOKEN_MARGIN
    decreases j
  {
    NextIsSpaced(s, j);
    if i < j - 1 {
      NoneInsideALifetime(s, i, j - 1);
    }
  }

  /** A crowd of simultaneous callers costs one exchange: until the granted access token is within the
      margin of its expiry, no second request of the same sign-in reaches the issuer. */
  lemma OneExchangePerLifetime(s: State, steps: seq<Step>, i: nat, j: nat)
    requires Initial(s) && Runs(s, steps) && FaultFree(s, steps)
    requires var log := After(s, steps).log;
      && i < j < |log|
      && (forall k :: i <= k <= j ==> log[k].epoch == log[i].epoch)
      && (forall k :: i <= k < j ==> Grants(log[k]) && log[k].answer.value.expiresIn > SESSION_TOKEN_MARGIN)
    ensures var log := After(s, steps).log;
      log[j].at >= log[i].at + log[i].answer.value.expiresIn - SESSION_TOKEN_MARGIN > log[i].at
  {
    RunKeepsInv(s, steps);
    NoneInsideALifetime(After(s, steps), i, j);
  }

  // ----- Progress

  /** The actions a healthy process takes on its own. */
  predicate Progress(action: Action) {
    match action
    case DoPeek => true case Acquire => true case DoCheck => true case DoPost(_) => true
    case Refused => true case DoSave => true case DoFill(_) => true case DoUnlock => true
    case _ => false
  }

  lemma {:induction false} RunKeepsOwners(s: State, steps: seq<Step>)
    requires OwnersInside(s) && Runs(s, steps)
    ensures OwnersInside(After(s, steps))
    decreases |steps|
  {
    if steps != [] {
      OwnersPreserved(s, steps[0]);
      RunKeepsOwners(Apply(s, steps[0]), steps[1..]);
    }
  }

  /** No reachable state is deadlocked, whatever faults came before: while anybody is unfinished,
      somebody has a step to take that is no fault. */
  lemma SomebodyCanMove(s: State, steps: seq<Step>, pid: nat) returns (mover: nat, action: Action)
    requires Initial(s) && Runs(s, steps)
    requires pid in After(s, steps).procs && !After(s, steps).procs[pid].phase.Done?
    ensures var t := After(s, steps);
      mover in t.procs && Progress(action) && Ready(t, t.procs[mover], action)
  {
    RunKeepsOwners(s, steps);
    mover, action := FollowOwners(After(s, steps), pid);
  }

  /** Locks are taken certificate first, cache second and session last, so following owners from any
      unfinished process leads to one that can move. */
  lemma {:induction false} FollowOwners(s: State, pid: nat) returns (mover: nat, action: Action)
    requires OwnersInside(s) && pid in s.procs && !s.procs[pid].phase.Done?
    ensures mover in s.procs && Progress(action) && Ready(s, s.procs[mover], action)
    decreases 2 - Rank(s.procs[pid].at)
  {
    var p := s.procs[pid];
    mover := pid;
    match p.phase
    case Peek => action := DoPeek;
    case Check => action := DoCheck;
    case Post => action := if p.seen.refresh == s.live then DoPost(Answer(1, 0, 1)) else Refused;
    case Save(_) => action := DoSave;
    case Fill => action := DoFill(None);
    case Unlock(_) => action := DoUnlock;
    case Wait =>
      if p.at in s.locks {
        var owner := s.locks[p.at];
        assert Owns(s, owner, p.at);
        assert Holds(s.procs[owner], p.at);
        if s.procs[owner].at == p.at {
          mover := owner;
          action := match s.procs[owner].phase
            case Check => DoCheck
            case Post => if s.procs[owner].seen.refresh == s.live then DoPost(Answer(1, 0, 1)) else Refused
            case Save(_) => DoSave
            case Fill => DoFill(None)
            case _ => DoUnlock;
        } else {
          mover, action := FollowOwners(s, owner);
        }
      } else {
        action := Acquire;
      }
  }

  /** How many steps of its own a process has left, at most. */
  function Remaining(p: Process): nat {
    var r := Rank(p.at);
    match p.phase
    case Peek => 20 + 4 * (2 - r) + 3
    case Wait => 20 + 4 * (2 - r) + 2
    case Check => 20 + 4 * (2 - r) + 1
    case Post => 15
    case Save(_) => 14
    case Fill => 4 * r + 2
    case Unlock(_) => 4 * r + 1
    case Done(_) => 0
  }

  /** Every step a process takes, faults included, brings it nearer to its end: no process runs for
      more than 31 steps of its own, whatever the others do. */
  lemma EveryStepCounts(s: State, pid: nat, action: Action)
    requires pid in s.procs && ValidProcess(s.procs[pid]) && Ready(s, s.procs[pid], action)
    ensures Remaining(Act(s, pid, s.procs[pid], action).procs[pid]) < Remaining(s.procs[pid]) <= 31
    ensures forall q :: q in s.procs && q != pid ==>
      q in Act(s, pid, s.procs[pid], action).procs && Act(s, pid, s.procs[pid], action).procs[q] == s.procs[q]
  {
    OneActs(s, pid, s.procs[pid], action);
    RemainingDecreases(s, pid, s.procs[pid], action);
  }

  lemma PopDecreases(p: Process, ok: bool)
    requires ValidProcess(p) && (p.phase.Peek? || p.phase.Unlock?)
    ensures Remaining(Pop(p, ok)) < Remaining(p)
  {
  }

  lemma RemainingDecreases(s: State, pid: nat, p: Process, action: Action)
    requires ValidProcess(p) && Ready(s, p, action)
    ensures Remaining(Act(s, pid, p, action).procs[pid]) < Remaining(p)
  {
    if p.phase.Peek? || p.phase.Unlock? {
      PopDecreases(p, true);
      PopDecreases(p, false);
    }
  }

  // ----- What the faults cost

  /** Nobody holds a token the issuer has not issued. */
  predicate TokensIssued(s: State) {
    && s.live < s.unissued && s.file.refresh < s.unissued
    && forall pid :: pid in s.procs ==>
         s.procs[pid].seen.refresh < s.unissued
         && (s.procs[pid].phase.Save? ==> s.procs[pid].phase.next.refresh < s.unissued)
  }

  lemma ActionKeepsTokens(s: State, pid: nat, action: Action)
    requires TokensIssued(s) && pid in s.procs && Ready(s, s.procs[pid], action)
    ensures TokensIssued(Act(s, pid, s.procs[pid], action))
  {
    OneActs(s, pid, s.procs[pid], action);
  }

  /** True after every run from a sign-in, with any faults in it. */
  lemma {:induction false} RunKeepsTokens(s: State, steps: seq<Step>)
    requires TokensIssued(s) && Runs(s, steps)
    ensures TokensIssued(After(s, steps))
    decreases |steps|
  {
    if steps != [] {
      if steps[0].By? {
        ActionKeepsTokens(s, steps[0].pid, steps[0].action);
      }
      RunKeepsTokens(Apply(s, steps[0]), steps[1..]);
    }
  }

  /** The live refresh token is nowhere on this laptop. */
  predicate SignedOut(s: State) {
    && s.file.refresh != s.live
    && forall pid :: pid in s.procs ==>
         s.procs[pid].seen.refresh != s.live
         && (s.procs[pid].phase.Save? ==> s.procs[pid].phase.next.refresh != s.live)
  }

  lemma ActionStaysSignedOut(s: State, pid: nat, action: Action)
    requires SignedOut(s) && pid in s.procs && Ready(s, s.procs[pid], action)
    ensures SignedOut(Act(s, pid, s.procs[pid], action))
    ensures !action.DoPost? && !action.AnswerLost?
  {
    OneActs(s, pid, s.procs[pid], action);
  }

  /** Once lost, the session is over: until somebody signs in again, no request is ever accepted,
      whatever the processes do. */
  lemma {:induction false} SignedOutForGood(s: State, steps: seq<Step>)
    requires SignedOut(s) && Runs(s, steps)
    requires forall i :: 0 <= i < |steps| ==> !steps[i].Login?
    ensures SignedOut(After(s, steps))
    ensures forall i :: 0 <= i < |steps| && steps[i].By? ==> !steps[i].action.DoPost?
    decreases |steps|
  {
    if steps != [] {
      if steps[0].By? {
        ActionStaysSignedOut(s, steps[0].pid, steps[0].action);
      }
      assert forall i :: 0 <= i < |steps[1..]| ==> steps[1..][i] == steps[i + 1];
      SignedOutForGood(Apply(s, steps[0]), steps[1..]);
      assert forall i :: 0 < i < |steps| ==> steps[i] == steps[1..][i - 1];
    }
  }

  /** An answer that rotates the token and never arrives ends the session, always. */
  lemma LostAnswerSignsOut(s: State, pid: nat, answer: Answer)
    requires TokensIssued(s) && pid in s.procs && Ready(s, s.procs[pid], AnswerLost(answer))
    requires answer.refresh >= s.unissued
    ensures SignedOut(Act(s, pid, s.procs[pid], AnswerLost(answer)))
  {
  }

  /** One process has the only copy of the live token, in memory. */
  predicate OnlyCopy(s: State, pid: nat) {
    && pid in s.procs && s.procs[pid].phase.Save? && s.procs[pid].phase.next.refresh == s.live
    && s.file.refresh != s.live
    && forall q :: q in s.procs ==>
         s.procs[q].seen.refresh != s.live
         && (q != pid && s.procs[q].phase.Save? ==> s.procs[q].phase.next.refresh != s.live)
  }

  /** The moment a rotating answer is received, the only copy of the session is in memory. */
  lemma PostOpensWindow(s: State, pid: nat, answer: Answer)
    requires TokensIssued(s) && pid in s.procs && Ready(s, s.procs[pid], DoPost(answer))
    requires answer.refresh >= s.unissued
    ensures OnlyCopy(Act(s, pid, s.procs[pid], DoPost(answer)), pid)
  {
  }

  /** It stays the only copy whatever everybody else does. */
  lemma WindowStaysOpen(s: State, pid: nat, step: Step)
    requires OnlyCopy(s, pid) && Enabled(s, step) && !step.Login? && !(step.By? && step.pid == pid)
    ensures OnlyCopy(Apply(s, step), pid)
  {
    if step.By? {
      OneActs(s, step.pid, s.procs[step.pid], step.action);
    }
  }

  /** The window closes in one of three ways, and exactly one of them keeps the session. */
  lemma WindowCloses(s: State, pid: nat, action: Action)
    requires OnlyCopy(s, pid) && Ready(s, s.procs[pid], action)
    ensures var t := Act(s, pid, s.procs[pid], action);
      && (action.DoSave? <==> t.file.refresh == t.live)
      && (!action.DoSave? <==> SignedOut(t))
  {
    OneActs(s, pid, s.procs[pid], action);
  }

  /** A sign-in that lands between an exchange and its save is overwritten by the older session. */
  lemma SignInIsOverwritten(s: State, pid: nat, token: nat)
    requires TokensIssued(s) && pid in s.procs && s.procs[pid].phase.Save?
    requires s.procs[pid].phase.next != s.procs[pid].seen && token >= s.unissued
    ensures var t := Apply(s, Login(token));
      && t.file.refresh == t.live == token && !Offered(t, SignIn)
      && SignedOut(Act(t, pid, t.procs[pid], DoSave))
  {
    var t := Apply(s, Login(token));
    OneActs(t, pid, t.procs[pid], DoSave);
  }

  /** When the read under the lock fails, the token read before the lock is spent instead: the
      request is refused exactly when another process has rotated the token in between. */
  lemma StaleReadIsRefused(s: State, pid: nat)
    requires Inv(s) && pid in s.procs && Ready(s, s.procs[pid], CheckUnreadable)
    ensures var t := Act(s, pid, s.procs[pid], CheckUnreadable);
      Ready(t, t.procs[pid], Refused) <==> s.procs[pid].seen.refresh != s.file.refresh
  {
    forall q | q in s.procs && s.procs[q].phase.Save?
      ensures false
    {
      OneInSession(s, pid, q);
    }
  }

  /** A caller that cannot take the lock goes on without it, whoever is inside. */
  function Unsynchronised(s: State, p: nat): State
    requires p in s.procs && s.procs[p].phase.Wait?
  {
    var t := Act(s, p, s.procs[p], AcquireFails);
    Act(t, p, t.procs[p], DoCheck)
  }

  lemma UnsynchronisedPosts(s: State, p: nat)
    requires p in s.procs && s.procs[p].phase.Wait? && s.procs[p].at == SignIn && !LiveToken(s.file, s.now)
    ensures Unsynchronised(s, p) == Put(s, p, s.procs[p].(phase := Post, seen := s.file))
  {
  }

  /** Two callers that could not take the lock both come to spend the token they both read, and once
      the first has, the issuer refuses the second. */
  lemma UnlockedPairIsRefused(s: State, p: nat, q: nat, answer: Answer)
    requires p in s.procs && s.procs[p].phase.Wait? && s.procs[p].at == SignIn
    requires q in s.procs && s.procs[q].phase.Wait? && s.procs[q].at == SignIn && p != q
    requires s.file.refresh == s.live < s.unissued && !LiveToken(s.file, s.now)
    requires answer.refresh >= s.unissued
    ensures q in Unsynchronised(s, p).procs && Unsynchronised(s, p).procs[q].phase.Wait?
    ensures var t := Unsynchronised(Unsynchronised(s, p), q);
      && p in t.procs && Ready(t, t.procs[p], DoPost(answer))
      && var u := Act(t, p, t.procs[p], DoPost(answer)); Ready(u, u.procs[q], Refused)
  {
    UnsynchronisedPosts(s, p);
    UnsynchronisedPosts(Unsynchronised(s, p), q);
  }
}
