/** Exactly when a true return of `callSynchronous` can be trusted (shared/rpc.h), and what happens to the
    message of a command when it cannot. */
module CallSoundness {
  import opened RpcChannel
  import opened RpcCompletion
  import TypedRing
  import CommandHeap

  lemma {:induction false} ExtendCall(
    cfg: Config, ch: Channel, cmd: Cmd, path: seq<Channel>, events: seq<Event>, at: Channel, e: Event, next: Channel)
    requires CallPath(cfg, ch, cmd, path, events, at) && Inv(cfg, at)
    requires Steps(cfg, at, e, next) && Busy(next.client)
    ensures CallPath(cfg, ch, cmd, path + [next], events + [e], next) && Inv(cfg, next)
  {
    StepKeepsInv(cfg, at, e, next);
    ExtendPath(cfg, path, events, e, next);
  }

  lemma {:induction false} BeginCall(cfg: Config, ch: Channel, cmd: Cmd, at: Channel)
    requires Inv(cfg, ch) && CanCall(cfg, ch, cmd) && cmd.sync
    requires at == ch.(client := KPush(cmd, 0), ready := false)
    ensures CallPath(cfg, ch, cmd, [ch, at], [Call(cmd)], at) && Inv(cfg, at)
  {
    var path, events := [ch, at], [Call(cmd)];
    assert Steps(cfg, ch, Call(cmd), at);
    StepKeepsInv(cfg, ch, Call(cmd), at);
  }

  /** The ring has a free slot beyond the unread and pending commands. */
  predicate HasRoom(r: TypedRing.Ring<Cmd>) {
    TypedRing.Count(|r.data|, r.head, r.tail) + r.batch < |r.data| - 1
  }

  /** Pushing with room succeeds in four steps: load the tail, load the head, write, commit. */
  lemma {:induction false} PushLoadsTail(cfg: Config, at: Channel)
    requires Inv(cfg, at) && at.client.KPush? && at.client.cmd.sync && at.ring.producer.PIdle?
    ensures PushMoves(cfg, at) == at.(ring := at.ring.(producer := TypedRing.PTail(at.client.cmd, false)))
  {
  }

  lemma {:induction false} PushLoadsHead(cfg: Config, at: Channel)
    requires Inv(cfg, at) && at.client.KPush? && at.client.cmd.sync && at.ring.producer.PTail?
    ensures PushMoves(cfg, at)
            == at.(ring := at.ring.(producer := TypedRing.PBoth(at.client.cmd, false, at.ring.ring.head)))
  {
  }

  lemma {:induction false} PushWrites(cfg: Config, at: Channel)
    requires Inv(cfg, at) && at.client.KPush? && at.client.cmd.sync && HasRoom(at.ring.ring)
    requires at.ring.producer.PBoth? && at.ring.producer.head == at.ring.ring.head
    ensures
      var t := PushMoves(cfg, at);
      t == at.(ring := t.ring) && t.ring.producer.PWrote? && t.ring.pushed == at.ring.pushed
  {
    TypedRing.FailsExactlyWhenFull(at.ring.ring, at.ring.ring.head);
  }

  lemma {:induction false} PushCommits(cfg: Config, at: Channel)
    requires Inv(cfg, at) && at.client.KPush? && at.client.cmd.sync && at.ring.producer.PWrote?
    ensures
      var t := PushMoves(cfg, at);
      && t == at.(ring := t.ring, client := AfterSubmit(cfg, at.client.cmd))
      && t.ring.pushed == at.ring.pushed + [at.client.cmd] && t.ring.ring.batch == 0
  {
  }

  /** From the start of the push to its commit. */
  lemma {:induction false} PushUntilCommit(
    cfg: Config, ch: Channel, cmd: Cmd, path: seq<Channel>, events: seq<Event>, at: Channel)
    returns (path': seq<Channel>, events': seq<Event>, next: Channel)
    requires CallPath(cfg, ch, cmd, path, events, at) && Inv(cfg, at) && at.client == KPush(cmd, 0) && cmd.sync
    requires at.ring.producer.PIdle? && HasRoom(at.ring.ring)
    ensures CallPath(cfg, ch, cmd, path', events', next) && Inv(cfg, next)
    ensures next == at.(ring := next.ring) && next.ring.producer.PWrote? && next.ring.pushed == at.ring.pushed
  {
    var c2 := PushMoves(cfg, at);
    PushLoadsTail(cfg, at);
    ExtendCall(cfg, ch, cmd, path, events, at, ClientStep, c2);
    path', events' := path + [c2], events + [ClientStep];
    var c3 := PushMoves(cfg, c2);
    PushLoadsHead(cfg, c2);
    ExtendCall(cfg, ch, cmd, path', events', c2, ClientStep, c3);
    path', events' := path' + [c3], events' + [ClientStep];
    next := PushMoves(cfg, c3);
    PushWrites(cfg, c3);
    ExtendCall(cfg, ch, cmd, path', events', c3, ClientStep, next);
    path', events' := path' + [next], events' + [ClientStep];
  }

  /** From the start of the push to the first look at the stamp. */
  lemma {:induction false} PushUntilPoll(
    cfg: Config, ch: Channel, cmd: Cmd, path: seq<Channel>, events: seq<Event>, at: Channel)
    returns (path': seq<Channel>, events': seq<Event>, next: Channel)
    requires CallPath(cfg, ch, cmd, path, events, at) && Inv(cfg, at) && at.client == KPush(cmd, 0)
    requires cmd.sync && !cmd.flagged && at.ring.producer.PIdle? && HasRoom(at.ring.ring)
    ensures CallPath(cfg, ch, cmd, path', events', next) && Inv(cfg, next) && next.client == KPoll(cmd)
    ensures next.ring.pushed == at.ring.pushed + [cmd] && next.ring.ring.batch == 0
    ensures next.finished == at.finished && next.ready == at.ready && ServiceEnabled(next)
  {
    var c4;
    path', events', c4 := PushUntilCommit(cfg, ch, cmd, path, events, at);
    PushCommits(cfg, c4);
    next := PushMoves(cfg, c4);
    ExtendCall(cfg, ch, cmd, path', events', c4, ClientStep, next);
    path', events' := path' + [next], events' + [ClientStep];
    if cfg.semaphores {
      var c6 := ClientMoves(cfg, next);
      ExtendCall(cfg, ch, cmd, path', events', next, ClientStep, c6);
      path', events', next := path' + [c6], events' + [ClientStep], c6;
    }
  }

  // ---------- a full ring ----------

  /** The ring holds something to pop and the service can move. */
  predicate CanDrain(ch: Channel) { ServiceEnabled(ch) && ch.ring.ring.head != ch.ring.ring.tail }

  /** Steps the service needs until it has popped a command. */
  function DistanceToPop(ch: Channel): nat {
    match ch.service
    case SWait => (match ch.ring.consumer case CPop(_) => 1 case CRead(_) => 2 case CReady => 3 case CIdle => 4)
    case SServe(_) => 6
    case _ => 5
  }

  predicate Popping(ch: Channel) { ch.service.SWait? && ch.ring.consumer.CPop? }

  /** What a service step other than a pop does while the ring holds something. */
  lemma {:induction false} ServiceNearsPop(cfg: Config, at: Channel)
    requires Inv(cfg, at) && CanDrain(at) && !Popping(at)
    ensures
      var t := ServiceMoves(cfg, at);
      && t.ring == at.ring.(consumer := t.ring.consumer) && t.client == at.client && CanDrain(t)
      && DistanceToPop(t) < DistanceToPop(at) && NextFinished(at, t)
  {
    Accounting(at);
  }

  /** The service has finished at most one more command, and set the stamp if that carried it. */
  ghost predicate NextFinished(at: Channel, t: Channel) {
    && |at.finished| <= |t.finished| <= |at.finished| + 1 && (at.ready ==> t.ready)
    && (|t.finished| > |at.finished| ==>
          |at.finished| < |at.ring.pushed| && (at.ring.pushed[|at.finished|].sync ==> t.ready))
  }

  lemma {:induction false} PopMakesRoom(cfg: Config, at: Channel)
    requires Inv(cfg, at) && Popping(at)
    ensures
      var t := ServiceMoves(cfg, at);
      && t.client == at.client && t.finished == at.finished && t.ready == at.ready
      && t.ring.pushed == at.ring.pushed && t.ring.producer == at.ring.producer && HasRoom(t.ring.ring)
  {
    TypedRing.PopTakesTheOldest(at.ring.ring);
    TypedRing.FailsExactlyWhenFull(at.ring.ring, at.ring.ring.head);
  }

  /** Before the client has loaded anything, the service can pop a command and so make room. */
  lemma {:induction false} DrainOne(
    cfg: Config, ch: Channel, cmd: Cmd, path: seq<Channel>, events: seq<Event>, at: Channel, done: nat)
    returns (path': seq<Channel>, events': seq<Event>, next: Channel)
    requires CallPath(cfg, ch, cmd, path, events, at) && Inv(cfg, at) && at.client == KPush(cmd, 0) && CanDrain(at)
    requires StampKept(at, done)
    ensures CallPath(cfg, ch, cmd, path', events', next) && Inv(cfg, next) && next.client == KPush(cmd, 0)
    ensures next.ring.pushed == at.ring.pushed && next.ring.producer == at.ring.producer && HasRoom(next.ring.ring)
    ensures StampKept(next, done)
    decreases DistanceToPop(at)
  {
    var t := ServiceMoves(cfg, at);
    if Popping(at) {
      PopMakesRoom(cfg, at);
      ExtendCall(cfg, ch, cmd, path, events, at, ServiceStep, t);
      path', events', next := path + [t], events + [ServiceStep], t;
    } else {
      ServiceNearsPop(cfg, at);
      ExtendCall(cfg, ch, cmd, path, events, at, ServiceStep, t);
      path', events', next := DrainOne(cfg, ch, cmd, path + [t], events + [ServiceStep], t, done);
    }
  }

  /** Command m carries the stamp, and is unfinished or has set it. */
  ghost predicate StampKept(ch: Channel, m: nat) {
    m < |ch.ring.pushed| && ch.ring.pushed[m].sync && (m < |ch.finished| ==> ch.ready)
  }

  /** Steps the service needs to reach the end of its next command. */
  function Distance(ch: Channel): nat {
    match ch.service
    case SServe(_) => 0
    case SWait => (match ch.ring.consumer case CPop(_) => 1 case CRead(_) => 2 case CReady => 3 case CIdle => 4)
    case _ => 5
  }

  lemma {:induction false} ServiceAdvances(cfg: Config, at: Channel)
    requires Inv(cfg, at) && at.ring.ring.batch == 0 && |at.finished| < |at.ring.pushed|
    requires ServiceEnabled(at) && !at.service.SServe?
    ensures
      var t := ServiceMoves(cfg, at);
      && t.client == at.client && t.ready == at.ready && t.finished == at.finished && t.ring.pushed == at.ring.pushed
      && t.ring.ring.batch == 0 && !t.service.SBlocked? && Distance(t) < Distance(at)
  {
    Accounting(at);
  }

  /** With a command unfinished, the service can go on to finish the next one. */
  lemma {:induction false} FinishNext(
    cfg: Config, ch: Channel, cmd: Cmd, path: seq<Channel>, events: seq<Event>, at: Channel)
    returns (path': seq<Channel>, events': seq<Event>, next: Channel)
    requires CallPath(cfg, ch, cmd, path, events, at) && Inv(cfg, at) && at.client == KPoll(cmd)
    requires at.ring.ring.batch == 0 && |at.finished| < |at.ring.pushed| && ServiceEnabled(at)
    ensures CallPath(cfg, ch, cmd, path', events', next) && Inv(cfg, next) && next.client == KPoll(cmd)
    ensures next.ring.ring.batch == 0 && next.ring.pushed == at.ring.pushed && ServiceEnabled(next)
    ensures |next.finished| == |at.finished| + 1
    ensures next.ready == (at.ready || at.ring.pushed[|at.finished|].sync)
    decreases Distance(at)
  {
    var t := ServiceMoves(cfg, at);
    ServiceKeepsRing(cfg, at);
    ExtendCall(cfg, ch, cmd, path, events, at, ServiceStep, t);
    if at.service.SServe? {
      Accounting(at);
      path', events', next := path + [t], events + [ServiceStep], t;
    } else {
      ServiceAdvances(cfg, at);
      path', events', next := FinishNext(cfg, ch, cmd, path + [t], events + [ServiceStep], t);
    }
  }

  /** The service can go on to finish the m-th command. */
  lemma {:induction false} FinishUpTo(
    cfg: Config, ch: Channel, cmd: Cmd, path: seq<Channel>, events: seq<Event>, at: Channel, m: nat)
    returns (path': seq<Channel>, events': seq<Event>, next: Channel)
    requires CallPath(cfg, ch, cmd, path, events, at) && Inv(cfg, at) && at.client == KPoll(cmd)
    requires at.ring.ring.batch == 0 && |at.finished| <= m < |at.ring.pushed| && ServiceEnabled(at)
    ensures CallPath(cfg, ch, cmd, path', events', next) && next.client == KPoll(cmd)
    ensures next.ring.pushed == at.ring.pushed && |next.finished| == m + 1
    ensures at.ring.pushed[m].sync ==> next.ready
    decreases m - |at.finished|
  {
    path', events', next := FinishNext(cfg, ch, cmd, path, events, at);
    if |at.finished| < m {
      path', events', next := FinishUpTo(cfg, ch, cmd, path', events', next, m);
    }
  }

  /** An unfinished command that carries the stamp lets the next polling call return on that command's
      completion, its own command still unfinished, as long as the call can be submitted at all. */
  lemma {:induction false} StampedCommandMisleads(cfg: Config, ch: Channel, cmd: Cmd)
    returns (path: seq<Channel>, events: seq<Event>, at: Channel)
    requires Inv(cfg, ch) && CanCall(cfg, ch, cmd) && cmd.sync && !cmd.flagged && !NoneStamped(ch)
    requires HasRoom(ch.ring.ring) || CanDrain(ch)
    ensures CallPath(cfg, ch, cmd, path, events, at) && Returning(at)
    ensures |at.finished| < |at.ring.pushed| && at.ring.pushed[|at.ring.pushed| - 1] == cmd
  {
    var m: nat :| |ch.finished| <= m < |ch.ring.pushed| && ch.ring.pushed[m].sync;
    at := ch.(client := KPush(cmd, 0), ready := false);
    BeginCall(cfg, ch, cmd, at);
    path, events := [ch, at], [Call(cmd)];
    if !HasRoom(ch.ring.ring) {
      path, events, at := DrainOne(cfg, ch, cmd, path, events, at, m);
    }
    assert StampKept(at, m) && at.ring.pushed == ch.ring.pushed;
    Accounting(at);
    path, events, at := PushUntilPoll(cfg, ch, cmd, path, events, at);
    assert at.ring.pushed[m] == ch.ring.pushed[m];
    if |at.finished| <= m {
      path, events, at := FinishUpTo(cfg, ch, cmd, path, events, at, m);
    }
  }

  // ---------- a call that cannot be submitted ----------

  /** The ring is full, and either all of it is pending or the service sleeps with nothing posted: the push
      fails on every attempt, or the wait for the ring to drain never ends. */
  ghost predicate Stuck(at: Channel) {
    && Submitting(at.client) && at.client.cmd.sync && !HasRoom(at.ring.ring)
    && !at.ring.producer.PWrote? && (at.ring.producer.PBoth? ==> at.ring.producer.head == at.ring.ring.head)
    && (at.ring.ring.head == at.ring.ring.tail || (at.service.SBlocked? && at.serverSem == 0))
  }

  lemma {:induction false} PushStaysStuck(cfg: Config, at: Channel)
    requires Inv(cfg, at) && Stuck(at) && at.client.KPush? && Busy(PushMoves(cfg, at).client)
    ensures Stuck(PushMoves(cfg, at))
  {
    TypedRing.FailsExactlyWhenFull(at.ring.ring, at.ring.ring.head);
  }

  lemma {:induction false} ServiceStaysStuck(cfg: Config, at: Channel)
    requires Inv(cfg, at) && Stuck(at) && ServiceEnabled(at)
    ensures Stuck(ServiceMoves(cfg, at))
  {
  }

  lemma {:induction false} StepStaysStuck(cfg: Config, at: Channel, e: Event, next: Channel)
    requires Inv(cfg, at) && Stuck(at) && Steps(cfg, at, e, next) && Busy(next.client)
    ensures Stuck(next)
  {
    match e
    case Allocate(_, _) =>
    case Call(_) =>
    case ClientStep =>
      if at.client.KPush? {
        PushStaysStuck(cfg, at);
      }
    case ServiceStep => ServiceStaysStuck(cfg, at);
    case Stop =>
  }

  /** A call on a ring that is full and cannot drain never gets to look at the stamp. */
  lemma {:induction false} FullRingStaysStuck(
    cfg: Config, ch: Channel, cmd: Cmd, path: seq<Channel>, events: seq<Event>, at: Channel, k: nat)
    requires CallPath(cfg, ch, cmd, path, events, at) && Inv(cfg, ch) && cmd.sync && 0 < k < |path|
    requires !HasRoom(ch.ring.ring) && !CanDrain(ch)
    ensures Stuck(path[k])
    decreases k
  {
    PathStep(cfg, path, events, k);
    if k > 1 {
      FullRingStaysStuck(cfg, ch, cmd, path, events, at, k - 1);
      PathKeepsInv(cfg, path, events, k - 1);
      StepStaysStuck(cfg, path[k - 1], events[k - 1], path[k]);
    }
  }

  /** The exact condition, in every reachable state: the next synchronous call can be trusted if and only if it
      waits on the semaphore, or no unfinished command carries the stamp, or it cannot be submitted because the
      ring is full and will not drain. */
  lemma {:induction false} CallIsSoundExactly(
    cfg: Config, run: seq<Channel>, events: seq<Event>, k: nat, cmd: Cmd)
    requires IsRun(cfg, run, events) && k < |run| && CanCall(cfg, run[k], cmd) && cmd.sync
    ensures CallIsSound(cfg, run[k], cmd)
            <==> cmd.flagged || NoneStamped(run[k]) || (!HasRoom(run[k].ring.ring) && !CanDrain(run[k]))
  {
    RunsKeepInv(cfg, run, events, k);
    if cmd.flagged || NoneStamped(run[k]) {
      forall path, steps, at | CallPath(cfg, run[k], cmd, path, steps, at) && Returning(at)
        ensures at.finished == at.ring.pushed
      {
        ReturnMeansAllFinished(cfg, run, events, k, cmd, path, steps, at);
      }
    } else if HasRoom(run[k].ring.ring) || CanDrain(run[k]) {
      var path, steps, at := StampedCommandMisleads(cfg, run[k], cmd);
      assert CallPath(cfg, run[k], cmd, path, steps, at) && Returning(at) && at.finished != at.ring.pushed;
    } else {
      forall path, steps, at | CallPath(cfg, run[k], cmd, path, steps, at) ensures !Returning(at) {
        FullRingStaysStuck(cfg, run[k], cmd, path, steps, at, |path| - 1);
      }
    }
  }

  // ---------- what becomes of the message ----------

  lemma {:induction false} ExtendPath(cfg: Config, path: seq<Channel>, events: seq<Event>, e: Event, next: Channel)
    requires IsPath(cfg, path, events) && Steps(cfg, path[|path| - 1], e, next)
    ensures IsPath(cfg, path + [next], events + [e])
  {
    var longer, more := path + [next], events + [e];
    forall i, j | 0 <= i < |more| && j == i + 1 ensures Steps(cfg, longer[i], more[i], longer[j]) {
      if i < |events| {
        assert Steps(cfg, path[i], events[i], path[j]);
      }
    }
  }

  /** The return frees the whole heap, and a large enough allocation gets it from its start. */
  lemma {:induction false} ResetReusesTheMessage(cfg: Config, at: Channel, bytes: nat, t: Channel, u: Channel)
    requires Inv(cfg, at) && Returning(at) && bytes <= cfg.heap.Size()
    requires t == at.(client := KIdle, used := 0) && u == t.(used := bytes)
    ensures Steps(cfg, at, ClientStep, t) && Steps(cfg, t, Allocate(bytes, 1), u)
    ensures CommandHeap.Bumped(cfg.heap.start, t.used, bytes, 1) == (bytes, cfg.heap.start)
  {
  }

  /** Freshness fails exactly there: from every state in which a call would be misled, there is a continuation in
      which an allocation covers the message of that call's command while the command is unfinished. */
  lemma {:induction false} MisledCallLosesItsMessage(cfg: Config, ch: Channel, cmd: Cmd)
    returns (path: seq<Channel>, events: seq<Event>, t: Channel, u: Channel)
    requires Inv(cfg, ch) && CanCall(cfg, ch, cmd) && cmd.sync && !cmd.flagged && !NoneStamped(ch)
    requires HasRoom(ch.ring.ring) || CanDrain(ch)
    requires cmd.start < cmd.end <= cfg.heap.end
    ensures IsPath(cfg, path, events) && |path| > 1 && path[0] == ch && path[|path| - 2] == t && path[|path| - 1] == u
    ensures
      var bytes := cmd.end - cfg.heap.start;
      var r := CommandHeap.Bumped(cfg.heap.start, t.used, bytes, 1);
      events[|events| - 1] == Allocate(bytes, 1) && u.client.KIdle? && r.1 <= cmd.start && cmd.end <= r.1 + bytes
    ensures |u.finished| < |u.ring.pushed| && u.ring.pushed[|u.ring.pushed| - 1] == cmd
  {
    var at;
    path, events, at := StampedCommandMisleads(cfg, ch, cmd);
    PathKeepsInv(cfg, path, events, |path| - 1);
    var bytes := cmd.end - cfg.heap.start;
    t := at.(client := KIdle, used := 0);
    u := t.(used := bytes);
    ResetReusesTheMessage(cfg, at, bytes, t, u);
    ExtendPath(cfg, path, events, ClientStep, t);
    path, events := path + [t], events + [ClientStep];
    ExtendPath(cfg, path, events, Allocate(bytes, 1), u);
    path, events := path + [u], events + [Allocate(bytes, 1)];
  }
}
