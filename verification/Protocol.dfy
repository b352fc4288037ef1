/** Any number of accessctl processes sharing one session file, its single-use refresh token and the
    caches in front of it: every atomic step a process takes, the issuer's answers, and the faults. */
module Protocol {
  import opened Wrappers
  import opened Sessions

  /** What a lock file guards. The Postgres certificate is minted around an OpenBAO login cache, a
      cache is filled around a session refresh, and the session is innermost. */
  datatype Slot = Cert(name: string) | Cache(file: CacheFile) | SignIn

  datatype CacheFile = Kubectl(name: string) | Aws(name: string) | R2(name: string) | OpenBao(name: string)

  function Rank(slot: Slot): nat {
    match slot
    case Cert(_) => 0
    case Cache(_) => 1
    case SignIn => 2
  }

  /** How many seconds before expiry each kind of cached credential stops being offered. */
  function Margin(slot: Slot): nat {
    if slot.Cert? || (slot.Cache? && slot.file.Aws?) then 300 else 60
  }

  /** Where a process is, at the slot it is working on. Post and Save happen only at the session. */
  datatype Phase =
    | Peek                  // about to read the slot without its lock
    | Wait                  // found it spent, about to take the lock
    | Check                 // holds the lock, about to read again
    | Post                  // holds the lock, about to spend `seen.refresh`
    | Save(next: Session)   // has the issuer's answer, about to replace the file
    | Fill                  // holds the lock and the inner slot's answer
    | Unlock(ok: bool)      // about to release the lock
    | Done(ok: bool)

  /** What a command nests around its session refresh: `pg` a certificate and an OpenBAO login,
      `kube-token`, `aws` or `r2` a cache, `whoami` nothing. */
  datatype Job = Job(cert: Option<string>, cache: Option<CacheFile>)

  /** One process: its command, the slot it is working on, and the local `session` variable of
      refresh. */
  datatype Process = Process(job: Job, at: Slot, phase: Phase, seen: Session)

  /** One request that reached the token endpoint: what it presented, what the issuer would have accepted,
      and the answer if it granted one that arrived. */
  datatype Exchange = Exchange(at: int, epoch: nat, presented: nat, live: nat, answer: Option<Answer>)

  /** One credential minted for a cache: when, and until when it may be kept, if at all. */
  datatype Minted = Minted(slot: Slot, at: int, until: Option<int>)

  /** The laptop and the issuer. `live` is the one refresh token the issuer accepts, tokens from
      `unissued` on have never been issued, `epoch` counts sign-ins, and `cells` holds the expiry of
      every cached credential. `log` and `mints` record what was asked of the issuer and of what is behind
      each cache. */
  datatype State = State(now: int, file: Session, live: nat, unissued: nat, epoch: nat,
                         locks: map<Slot, nat>, cells: map<Slot, int>, procs: map<nat, Process>,
                         log: seq<Exchange>, mints: seq<Minted>)

  /** One atomic step of one process. The last four are the faults. */
  datatype Action =
    | DoPeek
    | PeekUnreadable
    | Acquire
    | DoCheck
    | DoPost(answer: Answer)
    | Refused
    | Unreached
    | DoSave
    | DoFill(expires: Option<int>)
    | FillFails
    | DoUnlock
    | Crash
    | AcquireFails
    | CheckUnreadable
    | AnswerLost(lost: Answer)
    | SaveFails

  datatype Step =
    | Tick(seconds: nat)
    | Start(pid: nat, job: Job)
    | Login(token: nat)
    | By(pid: nat, action: Action)

  predicate InJob(job: Job, slot: Slot) {
    match slot
    case Cert(name) => job.cert == Some(name)
    case Cache(file) => job.cache == Some(file)
    case SignIn => true
  }

  /** The slot a command starts at. */
  function Outermost(job: Job): Slot {
    if job.cert.Some? then Cert(job.cert.value)
    else if job.cache.Some? then Cache(job.cache.value)
    else SignIn
  }

  /** The next slot inwards, for a slot other than the session. */
  function Inner(job: Job, at: Slot): Slot {
    if at.Cert? && job.cache.Some? then Cache(job.cache.value) else SignIn
  }

  /** The slot whose critical section a slot is worked on inside of. */
  function Around(job: Job, at: Slot): Option<Slot> {
    if at == SignIn && job.cache.Some? then Some(Cache(job.cache.value))
    else if !at.Cert? && job.cert.Some? then Some(Cert(job.cert.value))
    else None
  }

  /** The locks a process has taken and not released: every slot around the one it is at, and that
      one too once it has the lock. */
  predicate Holds(p: Process, slot: Slot) {
    && !p.phase.Done?
    && InJob(p.job, slot)
    && (Rank(slot) < Rank(p.at) || (slot == p.at && !p.phase.Peek? && !p.phase.Wait?))
  }

  /** The cached credential in a slot is still offered. */
  predicate Offered(s: State, slot: Slot) {
    if slot == SignIn then LiveToken(s.file, s.now)
    else slot in s.cells && s.cells[slot] - s.now > Margin(slot)
  }

  /** Return from the slot a process is at to the one around it. */
  function Pop(p: Process, ok: bool): Process {
    match Around(p.job, p.at)
    case None => p.(phase := Done(ok))
    case Some(slot) => p.(at := slot, phase := if ok then Fill else Unlock(false))
  }

  /** What the issuer may answer a live refresh token with: no new token, the same one, or one it has
      never issued. */
  predicate Issuable(s: State, answer: Answer) {
    answer.refresh == 0 || answer.refresh == s.live || answer.refresh >= s.unissued
  }

  /** The action is one this process, at this point of its program, can take now. */
  predicate Ready(s: State, p: Process, action: Action) {
    match action
    case DoPeek => p.phase.Peek?
    case PeekUnreadable => p.phase.Peek? && p.at == SignIn
    case Acquire => p.phase.Wait? && p.at !in s.locks
    case DoCheck => p.phase.Check?
    case DoPost(answer) => p.phase.Post? && p.seen.refresh == s.live && Issuable(s, answer)
    case Refused => p.phase.Post? && p.seen.refresh != s.live
    case Unreached => p.phase.Post?
    case DoSave => p.phase.Save?
    case DoFill(_) => p.phase.Fill?
    case FillFails => p.phase.Fill?
    case DoUnlock => p.phase.Unlock?
    case Crash => !p.phase.Done?
    case AcquireFails => p.phase.Wait?
    case CheckUnreadable => p.phase.Check? && p.at == SignIn
    case AnswerLost(answer) => p.phase.Post? && p.seen.refresh == s.live && Issuable(s, answer)
    case SaveFails => p.phase.Save? && p.phase.next != p.seen
  }

  predicate Enabled(s: State, step: Step) {
    match step
    case Tick(_) => true
    case Start(pid, _) => pid !in s.procs
    case Login(token) => token >= s.unissued
    case By(pid, action) => pid in s.procs && Ready(s, s.procs[pid], action)
  }

  function Put(s: State, pid: nat, p: Process): State {
    s.(procs := s.procs[pid := p])
  }

  /** The issuer rotates: the presented token is dead the moment the answer's is issued. */
  function Rotated(s: State, answer: Answer): State {
    if answer.refresh == 0 then s
    else s.(live := answer.refresh, unissued := if answer.refresh >= s.unissued then answer.refresh + 1 else s.unissued)
  }

  function Logged(s: State, presented: nat, answer: Option<Answer>): State {
    s.(log := s.log + [Exchange(s.now, s.epoch, presented, s.live, answer)])
  }

  /** The optimistic read: a credential still offered ends the work on this slot without its lock. */
  function Peeked(s: State, pid: nat, p: Process): State {
    if Offered(s, p.at) then Put(s, pid, Pop(p, true))
    else Put(s, pid, p.(phase := Wait, seen := if p.at == SignIn then s.file else p.seen))
  }

  /** The read under the lock: a caller that waited finds the answer already written. */
  function Checked(s: State, pid: nat, p: Process): State {
    if Offered(s, p.at) then Put(s, pid, p.(phase := Unlock(true)))
    else if p.at == SignIn then Put(s, pid, p.(phase := Post, seen := s.file))
    else Put(s, pid, p.(at := Inner(p.job, p.at), phase := Peek))
  }

  function Posted(s: State, pid: nat, p: Process, answer: Answer): State {
    var s' := Rotated(Logged(s, p.seen.refresh, Some(answer)), answer);
    Put(s', pid, p.(phase := Save(Rewritten(p.seen, answer, s.now))))
  }

  function Saved(s: State, pid: nat, p: Process): State
    requires p.phase.Save?
  {
    Put(s, pid, p.(phase := Unlock(true))).(file := if p.phase.next != p.seen then p.phase.next else s.file)
  }

  function Filled(s: State, pid: nat, p: Process, expires: Option<int>): State {
    Put(s, pid, p.(phase := Unlock(true))).(
      cells := if expires.Some? then s.cells[p.at := expires.value] else s.cells,
      mints := s.mints + [Minted(p.at, s.now, expires)])
  }

  function Unlocked(s: State, pid: nat, p: Process): State
    requires p.phase.Unlock?
  {
    Put(s, pid, Pop(p, p.phase.ok)).(locks := if p.at in s.locks && s.locks[p.at] == pid then s.locks - {p.at} else s.locks)
  }

  /** The kernel drops a dead process's locks. */
  function Crashed(s: State, pid: nat, p: Process): State {
    Put(s, pid, p.(phase := Done(false))).(locks := map l | l in s.locks && s.locks[l] != pid :: s.locks[l])
  }

  function Act(s: State, pid: nat, p: Process, action: Action): State
    requires Ready(s, p, action)
  {
    match action
    case DoPeek => Peeked(s, pid, p)
    case PeekUnreadable => Put(s, pid, Pop(p, false))
    case Acquire => Put(s, pid, p.(phase := Check)).(locks := s.locks[p.at := pid])
    case DoCheck => Checked(s, pid, p)
    case DoPost(answer) => Posted(s, pid, p, answer)
    case Refused => Put(Logged(s, p.seen.refresh, None), pid, p.(phase := Unlock(false)))
    case Unreached => Put(s, pid, p.(phase := Unlock(false)))
    case DoSave => Saved(s, pid, p)
    case DoFill(expires) => Filled(s, pid, p, expires)
    case FillFails => Put(s, pid, p.(phase := Unlock(false)))
    case DoUnlock => Unlocked(s, pid, p)
    case Crash => Crashed(s, pid, p)
    case AcquireFails => Put(s, pid, p.(phase := Check))
    case CheckUnreadable => Put(s, pid, p.(phase := Post))
    case AnswerLost(answer) =>
      Put(Rotated(Logged(s, p.seen.refresh, None), answer), pid, p.(phase := Unlock(false)))
    case SaveFails => Put(s, pid, p.(phase := Unlock(false)))
  }

  function Apply(s: State, step: Step): State
    requires Enabled(s, step)
  {
    match step
    case Tick(seconds) => s.(now := s.now + seconds)
    case Start(pid, job) => Put(s, pid, Process(job, Outermost(job), Peek, s.file))
    case Login(token) => s.(live := token, unissued := token + 1, epoch := s.epoch + 1, file := Session(token, 0, None))
    case By(pid, action) => Act(s, pid, s.procs[pid], action)
  }

  /** The state a run of steps ends in. */
  predicate Runs(s: State, steps: seq<Step>)
    decreases |steps|
  {
    steps != [] ==> Enabled(s, steps[0]) && Runs(Apply(s, steps[0]), steps[1..])
  }

  function After(s: State, steps: seq<Step>): State
    requires Runs(s, steps)
    decreases |steps|
  {
    if steps == [] then s else After(Apply(s, steps[0]), steps[1..])
  }
}
