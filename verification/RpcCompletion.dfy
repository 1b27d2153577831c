/** What it means when `callSynchronous` returns true (shared/rpc.h): exactly when the service is finished with
    everything submitted, and the command heap may be reset. */
module RpcCompletion {
  import opened RpcChannel
  import TypedRing
  import CommandHeap

  /** The client is about to return true from `callSynchronous` and reset the heap. */
  predicate Returning(ch: Channel) { ch.client.KPoll? && ch.ready }

  /** No unfinished command carries the completion stamp, as one does whose call was given up on a stop. */
  ghost predicate NoneStamped(ch: Channel) {
    forall i :: |ch.finished| <= i < |ch.ring.pushed| ==> !ch.ring.pushed[i].sync
  }

  /** A synchronous call that polls the stamp and does not wait on the semaphore. */
  predicate PollingCall(c: Client) { Busy(c) && c.cmd.sync && !c.cmd.flagged }

  /** Only the command of the waiting call carries the stamp, flagged or not. */
  ghost predicate OneStamped(pushed: seq<Cmd>, done: nat, c: Client) {
    forall i :: done <= i < |pushed| && pushed[i].sync ==> Awaiting(c) && i == |pushed| - 1
  }

  /** During a polling call no other command carries the stamp, and the stamp tells whether everything
      submitted is finished with. */
  ghost predicate Clean(pushed: seq<Cmd>, done: nat, c: Client, ready: bool) {
    PollingCall(c) ==>
      && OneStamped(pushed, done, c)
      && (Submitting(c) ==> !ready)
      && (Awaiting(c) && ready ==> done >= |pushed|)
  }

  ghost predicate CleanCall(ch: Channel) { Clean(ch.ring.pushed, |ch.finished|, ch.client, ch.ready) }

  /** A polling call starts while no unfinished command carries the stamp. */
  ghost predicate CleanStart(ch: Channel, e: Event) {
    e.Call? && e.cmd.sync && !e.cmd.flagged ==> NoneStamped(ch)
  }

  // ---------- steps of a clean call ----------

  lemma {:induction false} PublishKeepsClean(cfg: Config, pushed: seq<Cmd>, done: nat, c: Client, ready: bool)
    requires c.KPush? && done <= |pushed| && Clean(pushed, done, c, ready) && CallOk(pushed, done, c, ready)
    ensures Clean(pushed + [c.cmd], done, AfterSubmit(cfg, c.cmd), ready)
  {
  }

  lemma {:induction false} FailureKeepsClean(
    cfg: Config, pushed: seq<Cmd>, done: nat, c: Client, ready: bool, batch: nat)
    requires c.KPush? && Clean(pushed, done, c, ready)
    ensures Clean(pushed, done, AfterFailure(cfg, c.cmd, c.failures + 1, batch), ready)
  {
  }

  lemma {:induction false} PushKeepsClean(cfg: Config, ch: Channel)
    requires Inv(cfg, ch) && CleanCall(ch) && ch.client.KPush?
    ensures CleanCall(PushMoves(cfg, ch))
  {
    PushStepIs(cfg, ch);
    Accounting(ch);
    PublishKeepsClean(cfg, ch.ring.pushed, |ch.finished|, ch.client, ch.ready);
    FailureKeepsClean(cfg, ch.ring.pushed, |ch.finished|, ch.client, ch.ready, ch.ring.ring.batch);
  }

  lemma {:induction false} WaitKeepsClean(cfg: Config, ch: Channel)
    requires Inv(cfg, ch) && CleanCall(ch) && ClientEnabled(ch) && !ch.client.KPush?
    ensures CleanCall(ClientMoves(cfg, ch))
  {
    var t := ClientMoves(cfg, ch);
    assert t.ring == ch.ring && t.finished == ch.finished && t.ready == ch.ready;
  }

  lemma {:induction false} FinishKeepsClean(pushed: seq<Cmd>, done: nat, c: Client, ready: bool)
    requires done < |pushed| && Clean(pushed, done, c, ready)
    ensures Clean(pushed, done + 1, c, ready || pushed[done].sync)
  {
  }

  lemma {:induction false} ServiceKeepsClean(cfg: Config, ch: Channel)
    requires Inv(cfg, ch) && CleanCall(ch) && ServiceEnabled(ch)
    ensures CleanCall(ServiceMoves(cfg, ch))
  {
    ServiceKeepsRing(cfg, ch);
    var t := ServiceMoves(cfg, ch);
    if ch.service.SServe? {
      Accounting(ch);
      assert |t.finished| == |ch.finished| + 1;
      FinishKeepsClean(ch.ring.pushed, |ch.finished|, ch.client, ch.ready);
    } else {
      assert t.finished == ch.finished && t.ready == ch.ready;
    }
  }

  lemma {:induction false} StepKeepsClean(cfg: Config, ch: Channel, e: Event, next: Channel)
    requires Inv(cfg, ch) && CleanCall(ch) && Steps(cfg, ch, e, next) && CleanStart(ch, e)
    ensures CleanCall(next)
  {
    match e
    case Allocate(_, _) =>
    case Call(_) =>
    case ClientStep =>
      if ch.client.KPush? {
        PushKeepsClean(cfg, ch);
      } else {
        WaitKeepsClean(cfg, ch);
      }
    case ServiceStep => ServiceKeepsClean(cfg, ch);
    case Stop =>
  }

  /** The return of a clean or a flagged call finds everything finished with. */
  lemma {:induction false} ReturningIsDone(cfg: Config, ch: Channel)
    requires Inv(cfg, ch) && CleanCall(ch) && Returning(ch)
    ensures ch.finished == ch.ring.pushed
    ensures |ch.finished| > 0 && ch.finished[|ch.finished| - 1] == ch.client.cmd
  {
    Accounting(ch);
  }

  // ---------- paths ----------

  ghost predicate StartsClean(path: seq<Channel>, events: seq<Event>, k: nat) {
    k <= |events| <= |path| && forall j :: 0 <= j < k ==> CleanStart(path[j], events[j])
  }

  lemma {:induction false} PathKeepsClean(cfg: Config, path: seq<Channel>, events: seq<Event>, k: nat)
    requires IsPath(cfg, path, events) && Inv(cfg, path[0]) && CleanCall(path[0])
    requires k < |path| && StartsClean(path, events, k)
    ensures Inv(cfg, path[k]) && CleanCall(path[k])
    decreases k
  {
    if k > 0 {
      PathKeepsClean(cfg, path, events, k - 1);
      PathStep(cfg, path, events, k);
      StepKeepsInv(cfg, path[k - 1], events[k - 1], path[k]);
      StepKeepsClean(cfg, path[k - 1], events[k - 1], path[k]);
    }
  }

  // ---------- the command heap ----------

  /** The messages of unfinished commands, and of the current call, end at or below the limit. */
  ghost predicate HeapOk(pushed: seq<Cmd>, done: nat, c: Client, limit: int) {
    && (forall i :: done <= i < |pushed| ==> pushed[i].end <= limit)
    && (Busy(c) ==> c.cmd.end <= limit)
  }

  ghost predicate HeapPart(cfg: Config, ch: Channel) {
    HeapOk(ch.ring.pushed, |ch.finished|, ch.client, cfg.heap.start + ch.used)
  }

  lemma {:induction false} PushKeepsHeap(cfg: Config, ch: Channel)
    requires Inv(cfg, ch) && HeapPart(cfg, ch) && ch.client.KPush?
    ensures HeapPart(cfg, PushMoves(cfg, ch))
  {
    PushStepIs(cfg, ch);
  }

  lemma {:induction false} WaitKeepsHeap(cfg: Config, ch: Channel)
    requires Inv(cfg, ch) && CleanCall(ch) && HeapPart(cfg, ch) && ClientEnabled(ch) && !ch.client.KPush?
    ensures HeapPart(cfg, ClientMoves(cfg, ch))
  {
    if Returning(ch) {
      ReturningIsDone(cfg, ch);
    }
  }

  lemma {:induction false} ServiceKeepsHeap(cfg: Config, ch: Channel)
    requires Inv(cfg, ch) && HeapPart(cfg, ch) && ServiceEnabled(ch)
    ensures HeapPart(cfg, ServiceMoves(cfg, ch))
  {
    ServiceKeepsRing(cfg, ch);
    assert |ServiceMoves(cfg, ch).finished| >= |ch.finished| && ServiceMoves(cfg, ch).used == ch.used;
  }

  lemma {:induction false} StepKeepsHeap(cfg: Config, ch: Channel, e: Event, next: Channel)
    requires Inv(cfg, ch) && CleanCall(ch) && HeapPart(cfg, ch) && Steps(cfg, ch, e, next)
    ensures HeapPart(cfg, next)
  {
    match e
    case Allocate(_, _) =>
    case Call(_) =>
    case ClientStep =>
      if ch.client.KPush? {
        PushKeepsHeap(cfg, ch);
      } else {
        WaitKeepsHeap(cfg, ch);
      }
    case ServiceStep => ServiceKeepsHeap(cfg, ch);
    case Stop =>
  }

  lemma {:induction false} RunsKeepHeap(cfg: Config, run: seq<Channel>, events: seq<Event>, k: nat)
    requires IsRun(cfg, run, events) && k < |run| && StartsClean(run, events, k)
    ensures HeapPart(cfg, run[k])
    decreases k
  {
    if k > 0 {
      RunsKeepHeap(cfg, run, events, k - 1);
      InitialIsInv(cfg, run[0]);
      PathKeepsClean(cfg, run, events, k - 1);
      PathStep(cfg, run, events, k);
      StepKeepsHeap(cfg, run[k - 1], events[k - 1], run[k]);
    }
  }

  /** New message space never overlaps the message of a command that is pending, unread or being served, in
      every run whose polling calls started while no unfinished command carried the stamp. */
  lemma {:induction false} AllocationIsFresh(
    cfg: Config, run: seq<Channel>, events: seq<Event>, k: nat, bytes: nat, alignment: nat, i: nat)
    requires IsRun(cfg, run, events) && k < |run| && StartsClean(run, events, k)
    requires alignment > 0 && i < |Unfinished(run[k])|
    ensures Unfinished(run[k])[i].end <= CommandHeap.Bumped(cfg.heap.start, run[k].used, bytes, alignment).1
  {
    RunsKeepHeap(cfg, run, events, k);
    var ch := run[k];
    assert Unfinished(ch)[i] == ch.ring.pushed[|ch.finished| + i];
  }

  // ---------- one call ----------

  /** A path of one call, from its start to the given state. */
  ghost predicate CallPath(
    cfg: Config, ch: Channel, cmd: Cmd, path: seq<Channel>, events: seq<Event>, at: Channel)
  {
    && IsPath(cfg, path, events) && |events| > 0
    && path[0] == ch && events[0] == Call(cmd) && path[|path| - 1] == at
    && forall i :: 0 < i < |path| ==> Busy(path[i].client)
  }

  /** Whenever the call returns true, the service is finished with everything submitted. */
  ghost predicate CallIsSound(cfg: Config, ch: Channel, cmd: Cmd) {
    forall path, events, at ::
      CallPath(cfg, ch, cmd, path, events, at) && Returning(at) ==> at.finished == at.ring.pushed
  }

  lemma {:induction false} OnlyCallIsTheFirst(
    cfg: Config, ch: Channel, cmd: Cmd, path: seq<Channel>, events: seq<Event>, at: Channel, j: nat)
    requires CallPath(cfg, ch, cmd, path, events, at) && 0 < j < |events|
    ensures !events[j].Call?
  {
    PathStep(cfg, path, events, j + 1);
  }

  lemma {:induction false} StepKeepsCmd(cfg: Config, ch: Channel, e: Event, next: Channel)
    requires Inv(cfg, ch) && Steps(cfg, ch, e, next) && Busy(ch.client) && Busy(next.client)
    ensures next.client.cmd == ch.client.cmd
  {
    if e.ClientStep? && ch.client.KPush? {
      PushStepIs(cfg, ch);
    }
  }

  lemma {:induction false} PathKeepsCmd(
    cfg: Config, ch: Channel, cmd: Cmd, path: seq<Channel>, events: seq<Event>, at: Channel, k: nat)
    requires CallPath(cfg, ch, cmd, path, events, at) && Inv(cfg, ch) && 0 < k < |path|
    ensures path[k].client.cmd == cmd
    decreases k
  {
    PathStep(cfg, path, events, k);
    if k > 1 {
      PathKeepsCmd(cfg, ch, cmd, path, events, at, k - 1);
      PathKeepsInv(cfg, path, events, k - 1);
      StepKeepsCmd(cfg, path[k - 1], events[k - 1], path[k]);
    }
  }

  /** When `callSynchronous` returns true, the service is finished with its command and with every command
      submitted before it, batched ones included: always if the call waits on the semaphore, and if it polls,
      whenever no unfinished command carried the stamp when it started. */
  lemma {:induction false} ReturnMeansAllFinished(
    cfg: Config, run: seq<Channel>, events: seq<Event>, k: nat,
    cmd: Cmd, path: seq<Channel>, steps: seq<Event>, at: Channel)
    requires IsRun(cfg, run, events) && k < |run|
    requires CallPath(cfg, run[k], cmd, path, steps, at) && Returning(at)
    requires cmd.flagged || NoneStamped(run[k])
    ensures at.finished == at.ring.pushed
    ensures |at.finished| > 0 && at.finished[|at.finished| - 1] == cmd
  {
    var m := |path| - 1;
    RunsKeepInv(cfg, run, events, k);
    PathStep(cfg, path, steps, 1);
    PathKeepsCmd(cfg, run[k], cmd, path, steps, at, m);
    PathKeepsInv(cfg, path, steps, m);
    if !cmd.flagged {
      forall j | 0 <= j < m ensures CleanStart(path[j], steps[j]) {
        if j > 0 {
          OnlyCallIsTheFirst(cfg, run[k], cmd, path, steps, at, j);
        }
      }
      PathKeepsClean(cfg, path, steps, m);
    }
    ReturningIsDone(cfg, at);
  }

  // ---------- a refusal follows five failed pushes ----------

  /** The step ends a push that found the ring full. */
  predicate PushFails(ch: Channel, next: Channel) {
    && ch.client.KPush? && !ch.ring.producer.PIdle? && next.ring.producer.PIdle?
    && next.ring.pushed == ch.ring.pushed
  }

  function FailedPushes(path: seq<Channel>): nat {
    var n := |path|;
    if n < 2 then 0 else FailedPushes(path[..n - 1]) + if PushFails(path[n - 2], path[n - 1]) then 1 else 0
  }

  function FailuresOf(c: Client): nat
    requires Submitting(c)
  {
    match c
    case KPush(_, f) => f
    case KDrain(_, f) => f
    case KFlush(_) => 2
  }

  /** The client goes on submitting, with fewer than five failed pushes behind it. */
  ghost predicate Trying(ch: Channel, cmd: Cmd, pushed: seq<Cmd>, failures: nat) {
    && Submitting(ch.client) && ch.client.cmd == cmd && ch.ring.pushed == pushed
    && FailuresOf(ch.client) == failures < 5
  }

  /** The client left the submission without its command: after the fifth failure, with a signal to the
      service when the call is asynchronous, unbatched and the service sleeps on its semaphore. */
  ghost predicate Refused(cfg: Config, ch: Channel, cmd: Cmd, pushed: seq<Cmd>, failures: nat) {
    && ch.ring.pushed == pushed && failures == 5
    && ch.client == if cmd.sync || cmd.batched || !cfg.semaphores then KIdle else KPost(cmd, false)
  }

  /** One step of a submission: it goes on, was published, or is refused. */
  lemma {:induction false} SubmissionStep(cfg: Config, ch: Channel, e: Event, next: Channel, failures: nat)
    requires Inv(cfg, ch) && Steps(cfg, ch, e, next)
    requires Submitting(ch.client) && Trying(ch, ch.client.cmd, ch.ring.pushed, failures)
    ensures var f := failures + if PushFails(ch, next) then 1 else 0;
      || Trying(next, ch.client.cmd, ch.ring.pushed, f)
      || Refused(cfg, next, ch.client.cmd, ch.ring.pushed, f)
      || (!Submitting(next.client) && next.ring.pushed == ch.ring.pushed + [ch.client.cmd])
  {
    if e.ServiceStep? {
      ServiceKeepsRing(cfg, ch);
      assert next.client == ch.client && next.ring.producer == ch.ring.producer;
    } else if e.ClientStep? && ch.client.KPush? {
      PushStepIs(cfg, ch);
    }
  }

  /** A submission that ends without its command in the ring has failed to push exactly five times. */
  lemma {:induction false} RefusedAfterFivePushes(cfg: Config, path: seq<Channel>, events: seq<Event>)
    requires IsPath(cfg, path, events) && Inv(cfg, path[0])
    requires path[0].client.KPush? && path[0].client.failures == 0
    requires forall i :: 0 <= i < |path| - 1 ==> Submitting(path[i].client)
    ensures var cmd, last := path[0].client.cmd, path[|path| - 1];
      || Trying(last, cmd, path[0].ring.pushed, FailedPushes(path))
      || Refused(cfg, last, cmd, path[0].ring.pushed, FailedPushes(path))
      || (!Submitting(last.client) && last.ring.pushed == path[0].ring.pushed + [cmd])
    decreases |path|
  {
    var n := |path| - 1;
    if n > 0 {
      RefusedAfterFivePushes(cfg, path[..n], events[..n - 1]);
      assert Submitting(path[n - 1].client);
      PathKeepsInv(cfg, path, events, n - 1);
      PathStep(cfg, path, events, n);
      SubmissionStep(cfg, path[n - 1], events[n - 1], path[n], FailedPushes(path[..n]));
    }
  }

  /** The second and the fourth push of a submission start when the ring was seen drained. */
  lemma {:induction false} RetriesWaitForTheDrain(cfg: Config, ch: Channel, e: Event, next: Channel)
    requires Inv(cfg, ch) && Steps(cfg, ch, e, next) && Submitting(ch.client)
    requires next.client.KPush? && next.client != ch.client
    requires next.client.failures == 1 || next.client.failures == 3
    ensures next.ring.ring.head == next.ring.ring.tail && ch.client.KDrain?
  {
  }

  // ---------- returning true, and only giving up on a stop ----------

  /** A published synchronous call ends by returning true or, once stopped, by giving up; in no other way. */
  lemma {:induction false} GivesUpOnlyWhenStopped(
    cfg: Config, run: seq<Channel>, events: seq<Event>, k: nat)
    requires IsRun(cfg, run, events) && 0 < k < |run|
    requires Awaiting(run[k - 1].client) && !Awaiting(run[k].client)
    ensures events[k - 1] == ClientStep && run[k].client.KIdle?
    ensures Returning(run[k - 1]) || run[k - 1].stopped
  {
    RunsKeepInv(cfg, run, events, k - 1);
    PathStep(cfg, run, events, k);
    if events[k - 1].ServiceStep? {
      ServiceKeepsRing(cfg, run[k - 1]);
    }
  }

  /** The waiting call's command is finished with and its post, if it asks for one, is made. */
  predicate Completed(ch: Channel) {
    Awaiting(ch.client) && |ch.finished| == |ch.ring.pushed| && !ch.service.SPost?
  }

  /** Client steps left until a completed call has returned. */
  function StepsToReturn(c: Client): nat {
    match c
    case KPost(cmd, _) => if cmd.flagged then 3 else 2
    case KSemWait(_) => 2
    case KPoll(_) => 1
    case KStopCheck(_) => 2
    case _ => 0
  }

  lemma {:induction false} CompletedAdvances(cfg: Config, ch: Channel)
    requires Inv(cfg, ch) && Completed(ch) && !ch.stopped
    ensures ClientEnabled(ch)
    ensures
      var t := ClientMoves(cfg, ch);
      if Returning(ch) then t.client.KIdle? && t.used == 0
      else Completed(t) && !t.stopped && StepsToReturn(t.client) == StepsToReturn(ch.client) - 1
  {
    Accounting(ch);
  }

  /** The client alone takes these steps, and the last of them returns true and empties the heap. */
  ghost predicate ReturnsTrue(cfg: Config, ch: Channel, path: seq<Channel>, steps: seq<Event>) {
    && IsPath(cfg, path, steps) && path[0] == ch && |steps| > 0
    && (forall i :: 0 <= i < |steps| ==> steps[i] == ClientStep)
    && Returning(path[|path| - 2]) && path[|path| - 1].client.KIdle? && path[|path| - 1].used == 0
  }

  lemma {:induction false} LastStepReturns(cfg: Config, ch: Channel, t: Channel)
    requires Steps(cfg, ch, ClientStep, t) && Returning(ch) && t.client.KIdle? && t.used == 0
    ensures ReturnsTrue(cfg, ch, [ch, t], [ClientStep])
  {
  }

  lemma {:induction false} EarlierStepReturns(cfg: Config, ch: Channel, path: seq<Channel>, steps: seq<Event>)
    requires |path| > 0 && ReturnsTrue(cfg, path[0], path, steps) && Steps(cfg, ch, ClientStep, path[0])
    ensures ReturnsTrue(cfg, ch, [ch] + path, [ClientStep] + steps)
  {
    var longer, more := [ch] + path, [ClientStep] + steps;
    forall i, j | 0 <= i < |more| && j == i + 1 ensures Steps(cfg, longer[i], more[i], longer[j]) {
      if i > 0 {
        var p, q := i - 1, j - 1;
        assert Steps(cfg, path[p], steps[p], path[q]);
      }
    }
  }

  lemma {:induction false} CompletedReturns(cfg: Config, ch: Channel) returns (path: seq<Channel>, steps: seq<Event>)
    requires Inv(cfg, ch) && Completed(ch) && !ch.stopped
    ensures ReturnsTrue(cfg, ch, path, steps) && |steps| <= StepsToReturn(ch.client)
    decreases StepsToReturn(ch.client)
  {
    CompletedAdvances(cfg, ch);
    var t := ClientMoves(cfg, ch);
    ClientTakesStep(cfg, ch, t);
    if Returning(ch) {
      LastStepReturns(cfg, ch, t);
      path, steps := [ch, t], [ClientStep];
    } else {
      StepKeepsInv(cfg, ch, ClientStep, t);
      var rest, more := CompletedReturns(cfg, t);
      EarlierStepReturns(cfg, ch, rest, more);
      path, steps := [ch] + rest, [ClientStep] + more;
    }
  }

  lemma {:induction false} ClientTakesStep(cfg: Config, ch: Channel, t: Channel)
    requires Inv(cfg, ch) && ClientEnabled(ch) && t == ClientMoves(cfg, ch)
    ensures Steps(cfg, ch, ClientStep, t)
  {
  }

  /** From every reachable state in which the waiting call's command is completed and the channel is not
      stopped, the client by itself returns true within three steps, and the heap is empty again. */
  lemma {:induction false} CompletedCallReturns(cfg: Config, run: seq<Channel>, events: seq<Event>, k: nat)
    returns (path: seq<Channel>, steps: seq<Event>)
    requires IsRun(cfg, run, events) && k < |run| && Completed(run[k]) && !run[k].stopped
    ensures ReturnsTrue(cfg, run[k], path, steps) && |steps| <= 3
  {
    RunsKeepInv(cfg, run, events, k);
    path, steps := CompletedReturns(cfg, run[k]);
  }

  // ---------- where stamped commands come from ----------

  /** Giving up on a stop is what leaves a stamped command behind. */
  lemma {:induction false} GivingUpLeavesTheStamp(cfg: Config, ch: Channel)
    requires Inv(cfg, ch) && ch.client.KStopCheck? && ch.stopped && |ch.finished| < |ch.ring.pushed|
    ensures ClientMoves(cfg, ch).client.KIdle? && !NoneStamped(ClientMoves(cfg, ch))
  {
    var t, last := ClientMoves(cfg, ch), |ch.ring.pushed| - 1;
    assert t.ring.pushed[last].sync;
  }

  ghost predicate StampPart(ch: Channel) { OneStamped(ch.ring.pushed, |ch.finished|, ch.client) }

  lemma {:induction false} StampedIsClean(ch: Channel, e: Event)
    requires StampPart(ch) && (e.Call? ==> ch.client.KIdle?)
    ensures CleanStart(ch, e)
  {
  }

  lemma {:induction false} PushKeepsStamp(cfg: Config, ch: Channel)
    requires Inv(cfg, ch) && StampPart(ch) && ch.client.KPush?
    ensures StampPart(PushMoves(cfg, ch))
  {
    PushStepIs(cfg, ch);
    PublishKeepsStamp(cfg, ch.ring.pushed, |ch.finished|, ch.client, ch.ready);
  }

  lemma {:induction false} PublishKeepsStamp(cfg: Config, pushed: seq<Cmd>, done: nat, c: Client, ready: bool)
    requires c.KPush? && OneStamped(pushed, done, c) && CallOk(pushed, done, c, ready)
    ensures OneStamped(pushed + [c.cmd], done, AfterSubmit(cfg, c.cmd))
  {
  }

  lemma {:induction false} WaitKeepsStamp(cfg: Config, ch: Channel)
    requires Inv(cfg, ch) && CleanCall(ch) && StampPart(ch) && !ch.stopped
    requires ClientEnabled(ch) && !ch.client.KPush?
    ensures StampPart(ClientMoves(cfg, ch))
  {
    var t := ClientMoves(cfg, ch);
    assert t.ring == ch.ring && t.finished == ch.finished;
    if Returning(ch) {
      ReturningIsDone(cfg, ch);
    }
  }

  lemma {:induction false} ServiceKeepsStamp(cfg: Config, ch: Channel)
    requires Inv(cfg, ch) && StampPart(ch) && ServiceEnabled(ch)
    ensures StampPart(ServiceMoves(cfg, ch))
  {
    ServiceKeepsRing(cfg, ch);
    assert |ServiceMoves(cfg, ch).finished| >= |ch.finished|;
  }

  lemma {:induction false} StepKeepsStamp(cfg: Config, ch: Channel, e: Event, next: Channel)
    requires Inv(cfg, ch) && CleanCall(ch) && StampPart(ch) && !ch.stopped && Steps(cfg, ch, e, next)
    ensures StampPart(next)
  {
    match e
    case Allocate(_, _) =>
    case Call(_) =>
    case ClientStep =>
      if ch.client.KPush? {
        PushKeepsStamp(cfg, ch);
      } else {
        WaitKeepsStamp(cfg, ch);
      }
    case ServiceStep => ServiceKeepsStamp(cfg, ch);
    case Stop =>
  }

  lemma {:induction false} StopStays(cfg: Config, ch: Channel, e: Event, next: Channel)
    requires Inv(cfg, ch) && Steps(cfg, ch, e, next) && ch.stopped
    ensures next.stopped
  {
    if e.ClientStep? && ch.client.KPush? {
      PushStepIs(cfg, ch);
    }
  }

  /** As long as the channel has not been stopped, every call starts clean: without a stop, a true return
      always means everything is finished with, and allocations are always fresh. */
  lemma {:induction false} UnstoppedRunsStartClean(cfg: Config, run: seq<Channel>, events: seq<Event>, k: nat)
    requires IsRun(cfg, run, events) && k < |run| && !run[k].stopped
    ensures StartsClean(run, events, k) && CleanCall(run[k]) && StampPart(run[k])
    decreases k
  {
    if k > 0 {
      RunsKeepInv(cfg, run, events, k - 1);
      PathStep(cfg, run, events, k);
      if run[k - 1].stopped {
        StopStays(cfg, run[k - 1], events[k - 1], run[k]);
        assert false;
      }
      UnstoppedRunsStartClean(cfg, run, events, k - 1);
      StampedIsClean(run[k - 1], events[k - 1]);
      StepKeepsClean(cfg, run[k - 1], events[k - 1], run[k]);
      StepKeepsStamp(cfg, run[k - 1], events[k - 1], run[k]);
    }
  }
}
