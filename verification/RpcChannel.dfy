/** The RPC channel (shared/rpc.h and the service loop in service/service.h): ring, completion stamp, both
    semaphores and the command heap, as interleaved atomic steps of one client thread at a time and the
    service thread. */
module RpcChannel {
  import opened Ranges
  import TypedRing
  import CommandHeap

  /** A command: the bytes of its message, whether it carries the completion stamp, whether it asks for a
      semaphore post on completion, and whether it may stay unpublished until a later push. */
  datatype Cmd = Cmd(start: nat, end: nat, sync: bool, flagged: bool, batched: bool)

  /** Where the client is: in `submitCommand` (pushing, or waiting for the ring to drain after a failed
      push, or flushing a batch), about to signal the service, or in one of the waits for completion. */
  datatype Client =
    | KIdle
    | KPush(cmd: Cmd, failures: nat)
    | KDrain(cmd: Cmd, failures: nat)
    | KFlush(cmd: Cmd)
    | KPost(cmd: Cmd, submitted: bool)
    | KSemWait(cmd: Cmd)
    | KPoll(cmd: Cmd)
    | KStopCheck(cmd: Cmd)
    | KAborted

  /** Where the service is: in the loop on the ring, between seeing it empty and being woken, busy with
      a command, or about to signal its completion on the semaphore. */
  datatype Service = SWait | SBlocked | SServe(cmd: Cmd) | SPost

  datatype Channel = Channel(
    ring: TypedRing.System<Cmd>, finished: seq<Cmd>,
    client: Client, service: Service,
    ready: bool, serverSem: nat, clientSem: nat,
    used: nat, stopped: bool)

  /** Whether the service sleeps on its semaphore rather than polling, and where the command heap is. */
  datatype Config = Config(semaphores: bool, heap: Range)

  datatype Event = Allocate(bytes: nat, alignment: nat) | Call(cmd: Cmd) | ClientStep | ServiceStep | Stop

  // ---------- client steps ----------

  function AfterPost(cmd: Cmd): Client {
    if !cmd.sync then KIdle else if cmd.flagged then KSemWait(cmd) else KPoll(cmd)
  }

  /** A batched call does not signal the service. */
  function AfterSubmit(cfg: Config, cmd: Cmd): Client {
    if cmd.batched then KIdle else if cfg.semaphores then KPost(cmd, true) else AfterPost(cmd)
  }

  /** The ladder of retries: the first and third failure wait for the ring to drain, the second flushes the
      batch, the fifth gives up. An asynchronous unbatched call signals the service even then. */
  function AfterFailure(cfg: Config, cmd: Cmd, failures: nat, batch: nat): Client {
    if failures == 1 || failures == 3 then KDrain(cmd, failures)
    else if failures == 2 && batch > 0 then KFlush(cmd)
    else if failures < 5 then KPush(cmd, failures)
    else if cmd.sync || cmd.batched || !cfg.semaphores then KIdle
    else KPost(cmd, false)
  }

  /** The last attempt of the ladder is never batched. */
  predicate PushesBatched(cmd: Cmd, failures: nat) { cmd.batched && failures < 4 }

  predicate ClientEnabled(ch: Channel) {
    match ch.client
    case KIdle => false
    case KFlush(_) => false
    case KAborted => false
    case KDrain(_, _) => ch.ring.ring.head == ch.ring.ring.tail
    case KSemWait(_) => ch.clientSem > 0
    case _ => true
  }

  function PushMoves(cfg: Config, ch: Channel): Channel
    requires ch.client.KPush? && TypedRing.RingOk(ch.ring.ring)
  {
    var s, cmd, failures := ch.ring, ch.client.cmd, ch.client.failures;
    if s.producer.PIdle? then ch.(ring := s.(producer := TypedRing.PTail(cmd, PushesBatched(cmd, failures))))
    else
      var t := TypedRing.ProducerMoves(s);
      if s.producer.PWrote? then ch.(ring := t, client := AfterSubmit(cfg, cmd))
      else if t.producer.PIdle? then ch.(ring := t, client := AfterFailure(cfg, cmd, failures + 1, s.ring.batch))
      else ch.(ring := t)
  }

  function ClientMoves(cfg: Config, ch: Channel): Channel
    requires ClientEnabled(ch) && TypedRing.RingOk(ch.ring.ring)
  {
    match ch.client
    case KPush(_, _) => PushMoves(cfg, ch)
    case KDrain(cmd, failures) => ch.(client := KPush(cmd, failures))
    case KPost(cmd, _) => ch.(client := AfterPost(cmd), serverSem := ch.serverSem + 1)
    case KSemWait(cmd) => ch.(client := if ch.stopped then KIdle else KPoll(cmd), clientSem := ch.clientSem - 1)
    case KPoll(cmd) => if ch.ready then ch.(client := KIdle, used := 0) else ch.(client := KStopCheck(cmd))
    case KStopCheck(cmd) => ch.(client := if ch.stopped then KIdle else KPoll(cmd))
  }

  // ---------- service steps ----------

  predicate ServiceEnabled(ch: Channel) { ch.service.SBlocked? ==> ch.serverSem > 0 }

  function ServiceMoves(cfg: Config, ch: Channel): Channel
    requires ServiceEnabled(ch) && TypedRing.RingOk(ch.ring.ring)
  {
    match ch.service
    case SWait =>
      var c, t := ch.ring.consumer, TypedRing.ConsumerMoves(ch.ring);
      if c.CPop? then ch.(ring := t, service := SServe(c.el))
      else if c.CIdle? && t.consumer.CIdle? && cfg.semaphores then ch.(service := SBlocked)
      else ch.(ring := t)
    case SBlocked => ch.(service := SWait, serverSem := ch.serverSem - 1)
    case SServe(cmd) =>
      ch.(finished := ch.finished + [cmd], ready := ch.ready || cmd.sync,
          service := if cmd.sync && cmd.flagged then SPost else SWait)
    case SPost => ch.(service := SWait, clientSem := ch.clientSem + 1)
  }

  // ---------- runs ----------

  /** The commands pushed and not yet finished with, oldest first. */
  function Unfinished(ch: Channel): seq<Cmd> {
    if |ch.finished| <= |ch.ring.pushed| then ch.ring.pushed[|ch.finished|..] else []
  }

  /** Messages a client may submit lie in the heap space handed out since the last reset; synchronous
      calls are never batched. */
  predicate CanCall(cfg: Config, ch: Channel, cmd: Cmd) {
    && ch.client.KIdle? && !(cmd.sync && cmd.batched)
    && cfg.heap.start <= cmd.start <= cmd.end <= cfg.heap.start + ch.used
  }

  ghost predicate Steps(cfg: Config, ch: Channel, e: Event, next: Channel) {
    && TypedRing.RingOk(ch.ring.ring) && cfg.heap.start >= 0
    && match e
       case Allocate(bytes, alignment) =>
         && ch.client.KIdle? && alignment > 0
         && var r := CommandHeap.Bumped(cfg.heap.start, ch.used, bytes, alignment);
            next == ch.(used := r.0, client := if r.0 > cfg.heap.Size() then KAborted else KIdle)
       case Call(cmd) =>
         CanCall(cfg, ch, cmd) && next == ch.(client := KPush(cmd, 0), ready := ch.ready && !cmd.sync)
       case ClientStep => ClientEnabled(ch) && next == ClientMoves(cfg, ch)
       case ServiceStep => ServiceEnabled(ch) && next == ServiceMoves(cfg, ch)
       case Stop => next == ch.(stopped := true)
  }

  ghost predicate Initial(ch: Channel) {
    && |ch.ring.ring.data| > 0
    && ch.ring == TypedRing.System(TypedRing.Ring(ch.ring.ring.data, 0, 0, 0), TypedRing.PIdle, TypedRing.CIdle, [], [])
    && ch.finished == [] && ch.client == KIdle && ch.service == SWait
    && ch.serverSem == 0 && ch.clientSem == 0 && ch.used == 0 && !ch.stopped
  }

  /** A stretch of a run: states joined by one event each. */
  ghost predicate IsPath(cfg: Config, path: seq<Channel>, events: seq<Event>) {
    && |path| == |events| + 1
    && forall i, j :: 0 <= i < |events| && j == i + 1 ==> Steps(cfg, path[i], events[i], path[j])
  }

  ghost predicate IsRun(cfg: Config, run: seq<Channel>, events: seq<Event>) {
    IsPath(cfg, run, events) && Initial(run[0]) && cfg.heap.start >= 0
  }

  // ---------- the invariant ----------

  /** The unpublished commands are the last ones, and batched. */
  ghost predicate PendingOk(pushed: seq<Cmd>, batch: nat) {
    batch <= |pushed| && forall i :: |pushed| - batch <= i < |pushed| ==> pushed[i].batched
  }

  /** The ring refines a FIFO queue with a pending batch, and the threads use it as the program says. */
  ghost predicate RingPart(ch: Channel) {
    && TypedRing.Inv(ch.ring) && PendingOk(ch.ring.pushed, ch.ring.ring.batch)
    && (!ch.ring.producer.PIdle? ==>
          && ch.client.KPush? && ch.ring.producer.el == ch.client.cmd
          && ch.ring.producer.batched == PushesBatched(ch.client.cmd, ch.client.failures))
    && (!ch.ring.consumer.CIdle? ==> ch.service.SWait?)
  }

  /** After the first drain the ring stays drained until the push is decided; a flush with a nonempty batch
      is reached only when the batch fills the ring from its first slot. */
  ghost predicate DrainPart(ch: Channel) {
    && (ch.client.KPush? && ch.client.failures == 1 ==>
          && ch.ring.ring.head == ch.ring.ring.tail
          && (ch.ring.producer.PBoth? || ch.ring.producer.PWrote? ==> ch.ring.producer.head == ch.ring.ring.head))
    && (ch.client.KFlush? ==>
          ch.ring.ring.head == ch.ring.ring.tail == 0 && 0 < ch.ring.ring.batch == |ch.ring.ring.data| - 1)
  }

  function Serving(v: Service): seq<Cmd> { if v.SServe? then [v.cmd] else [] }

  /** What has been popped is finished with, except the command being served. */
  ghost predicate ServePart(ch: Channel) { ch.ring.popped == ch.finished + Serving(ch.service) }

  /** The client is between publishing a command and signalling the service. */
  predicate Posting(c: Client) { c.KPost? && c.submitted }

  ghost predicate NoneBatched(pushed: seq<Cmd>) { forall i :: 0 <= i < |pushed| ==> !pushed[i].batched }

  /** The newest published command is a batched one, for which nothing is posted. */
  predicate NewestIsBatched(pushed: seq<Cmd>, batch: nat) {
    batch < |pushed| && pushed[|pushed| - batch - 1].batched
  }

  /** While the service sleeps and the ring holds a command, a wake-up is posted or about to be, unless the
      newest published command is batched; without batched calls there is one for each unread command. */
  ghost predicate WakePart(cfg: Config, ch: Channel) {
    ch.service.SBlocked? ==>
      && cfg.semaphores
      && (|ch.ring.popped| < |ch.ring.pushed| - ch.ring.ring.batch ==>
            ch.serverSem > 0 || Posting(ch.client) || NewestIsBatched(ch.ring.pushed, ch.ring.ring.batch))
      && (NoneBatched(ch.ring.pushed) ==>
            |ch.ring.pushed| - |ch.ring.popped| <= ch.serverSem + if Posting(ch.client) then 1 else 0)
  }

  /** A synchronous call after its command was published. */
  predicate Awaiting(c: Client) {
    ((c.KPost? && c.submitted) || c.KSemWait? || c.KPoll? || c.KStopCheck?) && c.cmd.sync
  }

  predicate Submitting(c: Client) { c.KPush? || c.KDrain? || c.KFlush? }

  predicate Busy(c: Client) { !c.KIdle? && !c.KAborted? }

  /** A waiting call's command is the last one pushed; when all is finished with, the stamp is set. */
  ghost predicate CallOk(pushed: seq<Cmd>, done: nat, client: Client, ready: bool) {
    && (Busy(client) ==> !(client.cmd.sync && client.cmd.batched))
    && (client.KPost? && !client.submitted ==> !client.cmd.sync)
    && (client.KSemWait? ==> client.cmd.sync && client.cmd.flagged)
    && (client.KPoll? || client.KStopCheck? ==> client.cmd.sync)
    && (Awaiting(client) ==> |pushed| > 0 && pushed[|pushed| - 1] == client.cmd && (done >= |pushed| ==> ready))
  }

  predicate AsksForPost(cmd: Cmd) { cmd.sync && cmd.flagged }

  /** Completion posts: one for each flagged command whose call has not consumed it yet. */
  ghost predicate TokenOk(pushed: seq<Cmd>, done: nat, client: Client, service: Service, sem: nat) {
    && (forall i :: done <= i < |pushed| && AsksForPost(pushed[i]) ==> Awaiting(client) && i == |pushed| - 1)
    && sem + (if service.SPost? then 1 else 0)
       + (if Awaiting(client) && client.cmd.flagged && done < |pushed| then 1 else 0)
       == if Awaiting(client) && client.cmd.flagged && (client.KPost? || client.KSemWait?) then 1 else 0
  }

  ghost predicate CallPart(ch: Channel) {
    && CallOk(ch.ring.pushed, |ch.finished|, ch.client, ch.ready)
    && TokenOk(ch.ring.pushed, |ch.finished|, ch.client, ch.service, ch.clientSem)
  }

  /** What holds in every reachable state. */
  ghost predicate Inv(cfg: Config, ch: Channel) {
    && cfg.heap.start >= 0
    && RingPart(ch) && DrainPart(ch) && ServePart(ch) && WakePart(cfg, ch) && CallPart(ch)
  }

  /** The histories: finished, then being served, then unread, then pending. */
  lemma {:induction false} Accounting(ch: Channel)
    requires RingPart(ch) && ServePart(ch)
    ensures ch.ring.pushed
            == ch.finished + Serving(ch.service) + (TypedRing.Queue(ch.ring.ring) + TypedRing.Pending(ch.ring.ring))
    ensures |ch.finished| <= |ch.ring.pushed|
    ensures ch.service.SServe? ==>
              |ch.finished| < |ch.ring.pushed| && ch.ring.pushed[|ch.finished|] == ch.service.cmd
    ensures |TypedRing.Queue(ch.ring.ring)| == |ch.ring.pushed| - |ch.ring.popped| - ch.ring.ring.batch
  {
    assert ch.ring.popped == ch.finished + Serving(ch.service);
  }

  // ---------- client steps keep it ----------

  /** What a step of the push does to the ring and its history. */
  ghost predicate PushedOr(cfg: Config, ch: Channel, t: Channel)
    requires ch.client.KPush?
  {
    var cmd, failures := ch.client.cmd, ch.client.failures;
    && t == ch.(ring := t.ring, client := t.client) && t.ring.popped == ch.ring.popped
    && (|| (t.ring.pushed == ch.ring.pushed + [cmd] && t.client == AfterSubmit(cfg, cmd)
            && (t.ring.ring.batch == 0 || (cmd.batched && t.ring.ring.batch == ch.ring.ring.batch + 1)))
        || (t.ring.pushed == ch.ring.pushed && t.ring.ring.batch == ch.ring.ring.batch
            && (t.client == ch.client || t.client == AfterFailure(cfg, cmd, failures + 1, ch.ring.ring.batch))))
  }

  lemma {:induction false} PushStepIs(cfg: Config, ch: Channel)
    requires RingPart(ch) && ch.client.KPush?
    ensures PushedOr(cfg, ch, PushMoves(cfg, ch))
  {
  }

  lemma {:induction false} CommittedBatch(ch: Channel)
    requires RingPart(ch) && ch.ring.producer.PWrote?
    ensures PendingOk(ch.ring.pushed + [ch.client.cmd], TypedRing.ProducerMoves(ch.ring).ring.batch)
  {
  }

  lemma {:induction false} PushKeepsRing(cfg: Config, ch: Channel)
    requires RingPart(ch) && ch.client.KPush?
    ensures RingPart(PushMoves(cfg, ch))
  {
    if !ch.ring.producer.PIdle? {
      TypedRing.ProducerKeepsInv(ch.ring);
      if ch.ring.producer.PWrote? {
        CommittedBatch(ch);
      }
    }
  }

  lemma {:induction false} PushKeepsDrainPart(cfg: Config, ch: Channel)
    requires RingPart(ch) && DrainPart(ch) && ch.client.KPush?
    ensures DrainPart(PushMoves(cfg, ch))
  {
    if ch.client.failures == 1 {
      TypedRing.PushFailsOnDrainedRing(ch.ring.ring);
    }
  }

  lemma {:induction false} PushKeepsWakePart(cfg: Config, ch: Channel, t: Channel)
    requires WakePart(cfg, ch) && ch.client.KPush? && PushedOr(cfg, ch, t)
    ensures WakePart(cfg, t)
  {
    if t.ring.pushed == ch.ring.pushed + [ch.client.cmd] && NoneBatched(t.ring.pushed) {
      NoneBatchedBefore(ch.ring.pushed, ch.client.cmd);
    }
  }

  lemma {:induction false} NoneBatchedBefore(pushed: seq<Cmd>, cmd: Cmd)
    requires NoneBatched(pushed + [cmd])
    ensures NoneBatched(pushed) && !cmd.batched
  {
    assert (pushed + [cmd])[|pushed|] == cmd;
    assert forall i :: 0 <= i < |pushed| ==> (pushed + [cmd])[i] == pushed[i];
  }

  lemma {:induction false} PublishKeepsCall(
    cfg: Config, pushed: seq<Cmd>, done: nat, c: Client, v: Service, ready: bool, sem: nat)
    requires c.KPush? && done <= |pushed|
    requires CallOk(pushed, done, c, ready) && TokenOk(pushed, done, c, v, sem)
    ensures CallOk(pushed + [c.cmd], done, AfterSubmit(cfg, c.cmd), ready)
    ensures TokenOk(pushed + [c.cmd], done, AfterSubmit(cfg, c.cmd), v, sem)
  {
  }

  lemma {:induction false} FailureKeepsCall(
    cfg: Config, pushed: seq<Cmd>, done: nat, c: Client, v: Service, ready: bool, sem: nat, batch: nat)
    requires c.KPush? && CallOk(pushed, done, c, ready) && TokenOk(pushed, done, c, v, sem)
    ensures CallOk(pushed, done, AfterFailure(cfg, c.cmd, c.failures + 1, batch), ready)
    ensures TokenOk(pushed, done, AfterFailure(cfg, c.cmd, c.failures + 1, batch), v, sem)
  {
  }

  lemma {:induction false} PushKeepsCallPart(cfg: Config, ch: Channel, t: Channel)
    requires CallPart(ch) && ch.client.KPush? && PushedOr(cfg, ch, t) && |ch.finished| <= |ch.ring.pushed|
    ensures CallPart(t)
  {
    PublishKeepsCall(cfg, ch.ring.pushed, |ch.finished|, ch.client, ch.service, ch.ready, ch.clientSem);
    FailureKeepsCall(
      cfg, ch.ring.pushed, |ch.finished|, ch.client, ch.service, ch.ready, ch.clientSem, ch.ring.ring.batch);
  }

  lemma {:induction false} PushKeepsInv(cfg: Config, ch: Channel)
    requires Inv(cfg, ch) && ch.client.KPush?
    ensures Inv(cfg, PushMoves(cfg, ch))
  {
    PushStepIs(cfg, ch);
    PushKeepsRing(cfg, ch);
    PushKeepsDrainPart(cfg, ch);
    PushKeepsWakePart(cfg, ch, PushMoves(cfg, ch));
    Accounting(ch);
    PushKeepsCallPart(cfg, ch, PushMoves(cfg, ch));
  }

  /** The steps of a call other than the push. */
  lemma {:induction false} WaitKeepsCallPart(cfg: Config, ch: Channel)
    requires RingPart(ch) && ServePart(ch) && CallPart(ch) && ClientEnabled(ch) && !ch.client.KPush?
    ensures CallPart(ClientMoves(cfg, ch))
  {
    Accounting(ch);
    var t, pushed, done := ClientMoves(cfg, ch), ch.ring.pushed, |ch.finished|;
    assert t.ring == ch.ring && t.finished == ch.finished && t.service == ch.service && t.ready == ch.ready;
    WaitKeepsCall(pushed, done, ch.client, t.client, ch.service, ch.ready, ch.clientSem, t.clientSem);
  }

  /** What happens to the client and its semaphore when it drains, posts, waits, polls or gives up. */
  ghost predicate Waits(c: Client, c': Client, sem: nat, sem': nat) {
    match c
    case KDrain(cmd, failures) => c' == KPush(cmd, failures) && sem' == sem
    case KPost(cmd, _) => c' == AfterPost(cmd) && sem' == sem
    case KSemWait(cmd) => (c' == KIdle || c' == KPoll(cmd)) && sem > 0 && sem' == sem - 1
    case KPoll(cmd) => (c' == KIdle || c' == KStopCheck(cmd)) && sem' == sem
    case KStopCheck(cmd) => (c' == KIdle || c' == KPoll(cmd)) && sem' == sem
    case _ => false
  }

  lemma {:induction false} WaitKeepsCall(
    pushed: seq<Cmd>, done: nat, c: Client, c': Client, v: Service, ready: bool, sem: nat, sem': nat)
    requires CallOk(pushed, done, c, ready) && TokenOk(pushed, done, c, v, sem) && done <= |pushed|
    requires Waits(c, c', sem, sem')
    ensures CallOk(pushed, done, c', ready) && TokenOk(pushed, done, c', v, sem')
  {
  }

  lemma {:induction false} ClientKeepsInv(cfg: Config, ch: Channel)
    requires Inv(cfg, ch) && ClientEnabled(ch)
    ensures Inv(cfg, ClientMoves(cfg, ch))
  {
    if ch.client.KPush? {
      PushKeepsInv(cfg, ch);
    } else {
      var t := ClientMoves(cfg, ch);
      assert t.ring == ch.ring && t.finished == ch.finished && t.service == ch.service;
      WaitKeepsCallPart(cfg, ch);
    }
  }

  // ---------- service steps keep it ----------

  lemma {:induction false} LookingKeepsRing(cfg: Config, ch: Channel)
    requires RingPart(ch) && ch.service.SWait?
    ensures RingPart(ServiceMoves(cfg, ch)) && ServiceMoves(cfg, ch).ring.pushed == ch.ring.pushed
  {
    TypedRing.ConsumerKeepsInv(ch.ring);
    var t := TypedRing.ConsumerMoves(ch.ring);
    assert t.pushed == ch.ring.pushed && t.producer == ch.ring.producer && t.ring.batch == ch.ring.ring.batch;
  }

  lemma {:induction false} ServiceKeepsRing(cfg: Config, ch: Channel)
    requires RingPart(ch) && ServiceEnabled(ch)
    ensures RingPart(ServiceMoves(cfg, ch))
    ensures ServiceMoves(cfg, ch).ring.pushed == ch.ring.pushed && ServiceMoves(cfg, ch).client == ch.client
  {
    if ch.service.SWait? {
      LookingKeepsRing(cfg, ch);
    } else {
      assert ServiceMoves(cfg, ch).ring == ch.ring;
    }
  }

  lemma {:induction false} ServiceKeepsDrainPart(cfg: Config, ch: Channel)
    requires RingPart(ch) && DrainPart(ch) && ServiceEnabled(ch)
    ensures DrainPart(ServiceMoves(cfg, ch))
  {
  }

  lemma {:induction false} ServiceKeepsWakePart(cfg: Config, ch: Channel)
    requires RingPart(ch) && ServePart(ch) && ServiceEnabled(ch)
    ensures WakePart(cfg, ServiceMoves(cfg, ch))
  {
    Accounting(ch);
    if NoneBatched(ch.ring.pushed) {
      NoBatchPending(ch.ring.pushed, ch.ring.ring.batch);
    }
  }

  lemma {:induction false} NoBatchPending(pushed: seq<Cmd>, batch: nat)
    requires PendingOk(pushed, batch) && NoneBatched(pushed)
    ensures batch == 0
  {
    var last := |pushed| > 0 && pushed[|pushed| - 1].batched;
    assert batch > 0 ==> last;
  }

  lemma {:induction false} ServiceKeepsServePart(cfg: Config, ch: Channel)
    requires RingPart(ch) && ServePart(ch) && ServiceEnabled(ch)
    ensures ServePart(ServiceMoves(cfg, ch))
  {
  }

  lemma {:induction false} FinishKeepsCall(pushed: seq<Cmd>, done: nat, c: Client, ready: bool, sem: nat)
    requires done < |pushed| && CallOk(pushed, done, c, ready) && TokenOk(pushed, done, c, SServe(pushed[done]), sem)
    ensures CallOk(pushed, done + 1, c, ready || pushed[done].sync)
    ensures TokenOk(pushed, done + 1, c, if AsksForPost(pushed[done]) then SPost else SWait, sem)
  {
  }

  lemma {:induction false} FinishKeepsCallPart(cfg: Config, ch: Channel)
    requires RingPart(ch) && ServePart(ch) && CallPart(ch) && ch.service.SServe?
    ensures CallPart(ServiceMoves(cfg, ch))
  {
    Accounting(ch);
    assert |ServiceMoves(cfg, ch).finished| == |ch.finished| + 1;
    FinishKeepsCall(ch.ring.pushed, |ch.finished|, ch.client, ch.ready, ch.clientSem);
  }

  lemma {:induction false} ServiceKeepsCallPart(cfg: Config, ch: Channel)
    requires RingPart(ch) && CallPart(ch) && ServiceEnabled(ch) && !ch.service.SServe?
    ensures CallPart(ServiceMoves(cfg, ch))
  {
    ServiceKeepsRing(cfg, ch);
    var t := ServiceMoves(cfg, ch);
    assert t.finished == ch.finished && t.ready == ch.ready;
  }

  lemma {:induction false} ServiceKeepsInv(cfg: Config, ch: Channel)
    requires Inv(cfg, ch) && ServiceEnabled(ch)
    ensures Inv(cfg, ServiceMoves(cfg, ch))
  {
    ServiceKeepsRing(cfg, ch);
    ServiceKeepsDrainPart(cfg, ch);
    ServiceKeepsServePart(cfg, ch);
    ServiceKeepsWakePart(cfg, ch);
    if ch.service.SServe? {
      FinishKeepsCallPart(cfg, ch);
    } else {
      ServiceKeepsCallPart(cfg, ch);
    }
  }

  lemma {:induction false} StepKeepsInv(cfg: Config, ch: Channel, e: Event, next: Channel)
    requires Inv(cfg, ch) && Steps(cfg, ch, e, next)
    ensures Inv(cfg, next)
  {
    match e
    case Allocate(_, _) =>
    case Call(_) =>
    case ClientStep => ClientKeepsInv(cfg, ch);
    case ServiceStep => ServiceKeepsInv(cfg, ch);
    case Stop =>
  }

  lemma {:induction false} PathKeepsInv(cfg: Config, path: seq<Channel>, events: seq<Event>, k: nat)
    requires IsPath(cfg, path, events) && Inv(cfg, path[0]) && k < |path|
    ensures Inv(cfg, path[k])
    decreases k
  {
    if k > 0 {
      PathKeepsInv(cfg, path, events, k - 1);
      PathStep(cfg, path, events, k);
      StepKeepsInv(cfg, path[k - 1], events[k - 1], path[k]);
    }
  }

  lemma {:induction false} PathStep(cfg: Config, path: seq<Channel>, events: seq<Event>, k: nat)
    requires IsPath(cfg, path, events) && 0 < k < |path|
    ensures Steps(cfg, path[k - 1], events[k - 1], path[k])
  {
    var i := k - 1;
    assert Steps(cfg, path[i], events[i], path[k]);
  }

  lemma {:induction false} InitialIsInv(cfg: Config, ch: Channel)
    requires Initial(ch) && cfg.heap.start >= 0
    ensures Inv(cfg, ch)
  {
  }

  /** The invariant holds in every reachable state. */
  lemma {:induction false} RunsKeepInv(cfg: Config, run: seq<Channel>, events: seq<Event>, k: nat)
    requires IsRun(cfg, run, events) && k < |run|
    ensures Inv(cfg, run[k])
  {
    InitialIsInv(cfg, run[0]);
    PathKeepsInv(cfg, run, events, k);
  }

  // ---------- wake-ups, completions, flushes ----------

  /** No lost wake-up: if the service sleeps with nothing posted although the ring holds a command, the client
      is between its publish and its post, or the newest published command is a batched one. */
  lemma {:induction false} NoLostWakeUp(cfg: Config, run: seq<Channel>, events: seq<Event>, k: nat)
    requires IsRun(cfg, run, events) && k < |run|
    requires run[k].service.SBlocked? && run[k].serverSem == 0
    ensures TypedRing.RingOk(run[k].ring.ring)
    ensures TypedRing.Queue(run[k].ring.ring) != [] ==>
              Posting(run[k].client) || NewestIsBatched(run[k].ring.pushed, run[k].ring.ring.batch)
  {
    RunsKeepInv(cfg, run, events, k);
    Accounting(run[k]);
  }

  /** Without batched calls it is between publish and post of the only unread command. */
  lemma {:induction false} NoLostWakeUpUnbatched(cfg: Config, run: seq<Channel>, events: seq<Event>, k: nat)
    requires IsRun(cfg, run, events) && k < |run| && NoneBatched(run[k].ring.pushed)
    requires run[k].service.SBlocked? && run[k].serverSem == 0
    ensures TypedRing.RingOk(run[k].ring.ring)
    ensures var q := TypedRing.Queue(run[k].ring.ring); q != [] ==> Posting(run[k].client) && |q| == 1
  {
    RunsKeepInv(cfg, run, events, k);
    Accounting(run[k]);
    NoBatchPending(run[k].ring.pushed, run[k].ring.ring.batch);
  }

  /** No lost completion, in any run: a call asleep on its semaphore with nothing posted still has its
      command ahead of the service, or the service is about to post; and once something is posted, the
      service has finished everything and the stamp is set. */
  lemma {:induction false} NoLostCompletion(cfg: Config, run: seq<Channel>, events: seq<Event>, k: nat)
    requires IsRun(cfg, run, events) && k < |run| && run[k].client.KSemWait?
    ensures run[k].clientSem == 0 ==> run[k].service.SPost? || Unfinished(run[k]) != []
    ensures run[k].clientSem > 0 ==> run[k].finished == run[k].ring.pushed && run[k].ready
  {
    RunsKeepInv(cfg, run, events, k);
    Accounting(run[k]);
  }

  /** `flushBatched` is reached with a nonempty batch exactly when, the ring being drained, the batch fills
      it from its first slot. */
  lemma {:induction false} FlushReachedExactly(cfg: Config, run: seq<Channel>, events: seq<Event>, k: nat)
    requires IsRun(cfg, run, events) && k < |run|
    requires run[k].client.KPush? && run[k].client.failures == 1 && run[k].ring.producer.PBoth?
    ensures TypedRing.RingOk(run[k].ring.ring)
    ensures
      var r := run[k].ring.ring;
      ClientMoves(cfg, run[k]).client.KFlush? <==> r.tail == 0 && 0 < r.batch == |r.data| - 1
  {
    RunsKeepInv(cfg, run, events, k);
    TypedRing.PushFailsOnDrainedRing(run[k].ring.ring);
  }
}
