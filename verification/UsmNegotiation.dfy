/** The USM range negotiation (shared/usm.cpp) as a joint state machine: both retry loops, the request
    handler that starts the service's side (service/service.h), a lossless channel each way, and other
    threads of both processes mapping and unmapping memory between steps. */
module UsmNegotiation {
  import opened Ranges
  import opened PartitionedRange
  import opened UsmMemory

  /** A proposal or acknowledgement. */
  datatype Msg = Msg(base: nat, size: nat) {
    /** `isInvalid` of both message types, negated. */
    predicate WellFormed() { PageMultiple(base) && PageMultiple(size) }

    /** What `receiveUsmRangeProposal` accepts. */
    predicate Usable() { WellFormed() && base != 0 && size != 0 }

    function AsRange(): Range { Range(base, base + size) }
  }

  /** Where the client is in `negotiateUsmRangeWithService`. */
  datatype Client =
    | CTop(proposal: Msg, tries: nat)
    | CRecv(proposal: Msg, tries: nat)
    | CAwaitAck(accepted: Msg)
    | CDone(result: Option<Range>)

  /** Where the service is: waiting for a request, or in `negotiateUsmRangeWithClient`. `echo` tells the
      branch that returns the client's message from the one that returns its own proposal. */
  datatype Service =
    | SIdle
    | STop(request: Msg, tries: nat)
    | SRecv(proposal: Msg, tries: nat, echo: bool)
    | SDone(result: Option<Range>)

  datatype Side = Side(mem: Proc, reservations: seq<Node>)

  datatype Joint = Joint(client: Client, cside: Side, service: Service, sside: Side, up: seq<Msg>, down: seq<Msg>)

  /** The try limits and the service's default range size, a whole number of pages. */
  datatype Config = Config(clientTries: int, serviceTries: int, defaultSize: nat)

  /** What the environment decides for a step: the address of a hint-free reservation, if it succeeds,
      and whether a send goes through. */
  datatype Oracle = Oracle(place: Option<nat>, sent: bool)

  datatype Event = ClientMoves(o: Oracle) | ServiceMoves(o: Oracle) | OthersMap(client: set<int>, service: set<int>)

  // ---------- steps ----------

  function Reserved(s: Side, m: Msg): Side {
    Side(s.mem.With(m.AsRange()), Inserted(s.reservations, Leaf(m.AsRange())))
  }

  ghost function Released(s: Side, result: Option<Range>): Side {
    s.(mem := CleanedUp(s.mem, result, s.reservations))
  }

  ghost function ClientEnds(s: Joint, result: Option<Range>): Joint {
    s.(client := CDone(result), cside := Released(s.cside, result))
  }

  ghost function ServiceEnds(s: Joint, result: Option<Range>): Joint {
    s.(service := SDone(result), sside := Released(s.sside, result))
  }

  /** A side that ended without a range closes the connection. */
  predicate ClientClosed(s: Joint) { s.client == CDone(None) }

  predicate ServiceClosed(s: Joint) { s.service == SDone(None) }

  predicate ClientCanMove(s: Joint) {
    match s.client
    case CTop(_, _) => true
    case CRecv(_, _) => s.down != [] || ServiceClosed(s)
    case CAwaitAck(_) => s.down != [] || ServiceClosed(s)
    case CDone(_) => false
  }

  predicate ServiceCanMove(s: Joint) {
    match s.service
    case SIdle => s.up != [] || ClientClosed(s)
    case STop(_, _) => true
    case SRecv(_, _, _) => s.up != [] || ClientClosed(s)
    case SDone(_) => false
  }

  /** The first half of the loop body: send the current proposal. */
  ghost function ClientProposes(cfg: Config, s: Joint, o: Oracle): Joint
    requires s.client.CTop?
  {
    if s.client.tries >= cfg.clientTries || !o.sent then ClientEnds(s, None)
    else s.(client := CRecv(s.client.proposal, s.client.tries + 1), up := s.up + [s.client.proposal])
  }

  /** The client could reserve the received range, possibly by merging. */
  ghost function ClientReserves(s: Side, m: Msg): (Side, bool) {
    if s.mem.Free(m.AsRange()) then (Reserved(s, m), true)
    else
      var merged := Merge(s.mem, s.reservations, m.AsRange());
      (s.(mem := merged.0), merged.1)
  }

  /** The second half of the loop body: react to the service's proposal. */
  ghost function ClientReacts(s: Joint, m: Msg, o: Oracle): Joint
    requires s.client.CRecv?
  {
    if !m.Usable() then ClientEnds(s, None)
    else if s.client.proposal.base == m.base then ClientEnds(s, Some(m.AsRange()))
    else
      var r := ClientReserves(s.cside, m);
      var t := s.(cside := r.0);
      if r.1 then
        if o.sent then t.(client := CAwaitAck(m), up := t.up + [m]) else ClientEnds(t, None)
      else if o.place.None? then ClientEnds(t, None)
      else
        var counter := Msg(o.place.value, m.size);
        t.(client := CTop(counter, s.client.tries), cside := Reserved(t.cside, counter))
  }

  ghost function ClientStep(cfg: Config, s: Joint, o: Oracle): Joint
    requires ClientCanMove(s)
  {
    if s.client.CTop? then ClientProposes(cfg, s, o)
    else if s.down == [] then ClientEnds(s, None)
    else
      var m, t := s.down[0], s.(down := s.down[1..]);
      if s.client.CRecv? then ClientReacts(t, m, o)
      else ClientEnds(t, if m.WellFormed() then Some(s.client.accepted.AsRange()) else None)
  }

  /** The request handler. */
  ghost function ServiceStarts(cfg: Config, s: Joint, m: Msg): Joint {
    var size := if m.size != 0 then m.size else cfg.defaultSize;
    if !m.WellFormed() || size == 0 then s.(service := SDone(None))
    else s.(service := STop(Msg(m.base, size), 0))
  }

  ghost function ServiceAcks(s: Joint, m: Msg, result: Msg, o: Oracle): Joint {
    if o.sent then ServiceEnds(s.(down := s.down + [m]), Some(result.AsRange())) else ServiceEnds(s, None)
  }

  /** The loop body up to the receive: acknowledge the client's address or propose another. */
  ghost function ServiceAnswers(cfg: Config, s: Joint, o: Oracle): Joint
    requires s.service.STop?
  {
    var req, tries := s.service.request, s.service.tries;
    if tries >= cfg.serviceTries then ServiceEnds(s, None)
    else if req.base != 0 && s.sside.mem.Free(req.AsRange()) then
      ServiceAcks(s.(sside := Reserved(s.sside, req)), req, req, o)
    else if o.place.None? then ServiceEnds(s, None)
    else
      var p := Msg(o.place.value, req.size);
      var t := s.(sside := Reserved(s.sside, p));
      if !o.sent then ServiceEnds(t, None)
      else t.(service := SRecv(p, tries + 1, req.base != 0), down := t.down + [p])
  }

  ghost function ServiceStep(cfg: Config, s: Joint, o: Oracle): Joint
    requires ServiceCanMove(s)
  {
    if s.service.STop? then ServiceAnswers(cfg, s, o)
    else if s.up == [] then (if s.service.SIdle? then s.(service := SDone(None)) else ServiceEnds(s, None))
    else
      var m, t := s.up[0], s.(up := s.up[1..]);
      if s.service.SIdle? then ServiceStarts(cfg, t, m)
      else if !m.Usable() then ServiceEnds(t, None)
      else if m.base == s.service.proposal.base then
        ServiceAcks(t, m, if s.service.echo then m else s.service.proposal, o)
      else t.(service := STop(m, s.service.tries))
  }

  // ---------- the environment ----------

  /** A hint-free reservation fails or gets page-aligned, nonnull, unused addresses. */
  predicate Places(mem: Proc, size: nat, place: Option<nat>) {
    place.None? || (PageMultiple(place.value) && place.value > 0 && mem.Free(Range(place.value, place.value + size)))
  }

  /** The memory a client step makes its hint-free request in, and the size it asks for. */
  ghost predicate ClientOracle(s: Joint, o: Oracle) {
    && (!o.sent ==> ServiceClosed(s))
    && (s.client.CRecv? && s.down != [] ==> Places(ClientReserves(s.cside, s.down[0]).0.mem, s.down[0].size, o.place))
  }

  ghost predicate ServiceOracle(s: Joint, o: Oracle) {
    && (!o.sent ==> ClientClosed(s))
    && (s.service.STop? ==> Places(s.sside.mem, s.service.request.size, o.place))
  }

  ghost predicate Enabled(s: Joint, e: Event) {
    match e
    case ClientMoves(o) => ClientCanMove(s) && ClientOracle(s, o)
    case ServiceMoves(o) => ServiceCanMove(s) && ServiceOracle(s, o)
    case OthersMap(c, v) => c !! s.cside.mem.owned && v !! s.sside.mem.owned
  }

  ghost function Step(cfg: Config, s: Joint, e: Event): Joint
    requires Enabled(s, e)
  {
    match e
    case ClientMoves(o) => ClientStep(cfg, s, o)
    case ServiceMoves(o) => ServiceStep(cfg, s, o)
    case OthersMap(c, v) =>
      s.(cside := s.cside.(mem := s.cside.mem.(foreign := c)), sside := s.sside.(mem := s.sside.mem.(foreign := v)))
  }

  ghost predicate Initial(s: Joint, start: Msg) {
    && s.client == CTop(start, 0) && s.service == SIdle && s.up == [] && s.down == []
    && s.cside.reservations == [] && s.sside.reservations == []
    && s.cside.mem.owned == {} && s.sside.mem.owned == {}
  }

  ghost predicate StepsTo(cfg: Config, s: Joint, e: Event, t: Joint) { Enabled(s, e) && t == Step(cfg, s, e) }

  /** The run of states from `run[0]`, one event each. */
  ghost predicate IsRun(cfg: Config, run: seq<Joint>, events: seq<Event>, start: Msg) {
    && |run| == |events| + 1
    && Initial(run[0], start)
    && forall i, j :: 0 <= i < |events| && j == i + 1 ==> StepsTo(cfg, run[i], events[i], run[j])
  }

  lemma {:induction false} RunStep(cfg: Config, run: seq<Joint>, events: seq<Event>, start: Msg, k: nat)
    requires IsRun(cfg, run, events, start) && 0 < k < |run|
    ensures StepsTo(cfg, run[k - 1], events[k - 1], run[k])
  {
    var i := k - 1;
    assert StepsTo(cfg, run[i], events[i], run[k]);
  }

  // ---------- what the two sides know of each other ----------

  function SizeOf(cfg: Config, m: Msg): nat { if m.size != 0 then m.size else cfg.defaultSize }

  predicate Quiet(s: Joint) { s.up == [] && s.down == [] }

  /** The service works on the client's current proposal. */
  predicate Considers(cfg: Config, proposal: Msg, request: Msg) {
    request == Msg(proposal.base, SizeOf(cfg, proposal)) && request.WellFormed() && request.size != 0
  }

  /** Every joint state a run can be in. */
  ghost predicate InPhase(cfg: Config, s: Joint) {
    match (s.client, s.service)
    case (CTop(_, _), SIdle) => Quiet(s)
    case (CTop(b, _), SRecv(p, _, _)) => Quiet(s) && p.Usable() && b.Usable() && b.base != p.base
    case (CRecv(b, _), SIdle) => s.up == [b] && s.down == []
    case (CRecv(b, _), STop(req, _)) => Quiet(s) && Considers(cfg, b, req)
    case (CRecv(b, _), SRecv(p, _, _)) =>
      p.Usable() && b.base != p.base &&
      if s.up == [] then s.down == [p] else s.up == [b] && s.down == [] && b.Usable()
    case (CRecv(b, _), SDone(r)) =>
      if r.None? then Quiet(s)
      else s.up == [] && exists m :: s.down == [m] && r == Some(m.AsRange()) && Considers(cfg, b, m) && m.base != 0
    case (CAwaitAck(m), SRecv(p, _, _)) => m == p && p.Usable() && s.up == [m] && s.down == []
    case (CAwaitAck(m), SDone(r)) => r == Some(m.AsRange()) && s.up == [] && s.down == [m] && m.Usable()
    case (CDone(r), SDone(q)) => r == q && Quiet(s)
    case (CDone(r), SIdle) => r.None? && Quiet(s)
    case (CDone(r), SRecv(_, _, _)) => r.None? && Quiet(s)
    case _ => false
  }

  /** A range at the same address as a collision, of the same size, cannot be free. */
  lemma {:induction false} FreshIsElsewhere(mem: Proc, m: Msg, place: nat)
    requires !mem.Free(m.AsRange()) && mem.Free(Range(place, place + m.size))
    ensures place != m.base
  {
  }

  /** A failed attempt to reserve leaves something mapped in the range. */
  lemma {:induction false} RefusedStaysMapped(s: Side, m: Msg)
    requires !ClientReserves(s, m).1
    ensures !ClientReserves(s, m).0.mem.Free(m.AsRange())
  {
    MergeKeepsMapped(s.mem, s.reservations, m.AsRange());
  }

  lemma {:induction false} MergeKeepsMapped(p: Proc, subs: seq<Node>, r: Range)
    ensures p.owned + p.foreign <= Merge(p, subs, r).0.owned + Merge(p, subs, r).0.foreign
  {
    if Meets(subs, r) {
      var gaps := AddressPartition.Gaps(subs, r.start, r.end);
      ReservedKeepsMapped(p, gaps, |gaps|);
    }
  }

  lemma {:induction false} ReservedKeepsMapped(p: Proc, gaps: seq<Range>, n: nat)
    requires n <= |gaps|
    ensures p.owned + p.foreign <= ReservedUpTo(p, gaps, n).0.owned + ReservedUpTo(p, gaps, n).0.foreign
    decreases n
  {
    if n > 0 {
      ReservedKeepsMapped(p, gaps, n - 1);
    }
  }

  lemma {:induction false} ClientKeepsPhase(cfg: Config, s: Joint, o: Oracle)
    requires InPhase(cfg, s) && ClientCanMove(s) && ClientOracle(s, o) && PageMultiple(cfg.defaultSize)
    ensures InPhase(cfg, ClientStep(cfg, s, o))
  {
    if s.client.CRecv? && s.down != [] && s.service.SRecv? {
      var m := s.down[0];
      if !ClientReserves(s.cside, m).1 && o.place.Some? {
        RefusedStaysMapped(s.cside, m);
        FreshIsElsewhere(ClientReserves(s.cside, m).0.mem, m, o.place.value);
      }
    }
  }

  lemma {:induction false} ServiceKeepsPhase(cfg: Config, s: Joint, o: Oracle)
    requires InPhase(cfg, s) && ServiceCanMove(s) && ServiceOracle(s, o) && PageMultiple(cfg.defaultSize)
    ensures InPhase(cfg, ServiceStep(cfg, s, o))
  {
    if s.service.STop? && s.service.request.base != 0 && o.place.Some? &&
        !s.sside.mem.Free(s.service.request.AsRange()) {
      FreshIsElsewhere(s.sside.mem, s.service.request, o.place.value);
    }
  }

  /** Every reachable state is in one of the phases. */
  lemma {:induction false} RunsStayInPhase(cfg: Config, run: seq<Joint>, events: seq<Event>, start: Msg, k: nat)
    requires IsRun(cfg, run, events, start) && PageMultiple(cfg.defaultSize) && k < |run|
    ensures InPhase(cfg, run[k])
    decreases k
  {
    if k > 0 {
      RunsStayInPhase(cfg, run, events, start, k - 1);
      RunStep(cfg, run, events, start, k);
      match events[k - 1]
      case ClientMoves(o) => ClientKeepsPhase(cfg, run[k - 1], o);
      case ServiceMoves(o) => ServiceKeepsPhase(cfg, run[k - 1], o);
      case OthersMap(_, _) =>
    }
  }

  /** Agreement: whatever the try limits, the addresses the kernels hand out and the interleaving, once
      both sides have returned they have the same range, or both have none. */
  lemma {:induction false} BothSidesAgree(cfg: Config, run: seq<Joint>, events: seq<Event>, start: Msg, k: nat)
    requires IsRun(cfg, run, events, start) && PageMultiple(cfg.defaultSize) && k < |run|
    requires run[k].client.CDone? && run[k].service.SDone?
    ensures run[k].client.result == run[k].service.result
  {
    RunsStayInPhase(cfg, run, events, start, k);
  }

  // ---------- the size that is negotiated ----------

  predicate HasSize(r: Option<Range>, size: nat) { r.Some? ==> r.value.Size() == size }

  /** The client's proposals ask for the size its start asks for, the service's default included. */
  predicate ClientAsksFor(cfg: Config, c: Client, size: nat) {
    match c
    case CTop(b, _) => SizeOf(cfg, b) == size
    case CRecv(b, _) => SizeOf(cfg, b) == size
    case CAwaitAck(m) => m.size == size
    case CDone(r) => HasSize(r, size)
  }

  predicate ServiceOffers(v: Service, size: nat) {
    match v
    case SIdle => true
    case STop(req, _) => req.size == size
    case SRecv(p, _, _) => p.size == size
    case SDone(r) => HasSize(r, size)
  }

  /** Everybody talks about ranges of one size. */
  ghost predicate OneSize(cfg: Config, s: Joint, size: nat) {
    && ClientAsksFor(cfg, s.client, size) && ServiceOffers(s.service, size)
    && (forall i :: 0 <= i < |s.up| ==> SizeOf(cfg, s.up[i]) == size)
    && (forall i :: 0 <= i < |s.down| ==> s.down[i].size == size)
  }

  lemma {:induction false} ClientKeepsSize(cfg: Config, s: Joint, o: Oracle, size: nat)
    requires ClientCanMove(s) && OneSize(cfg, s, size)
    ensures OneSize(cfg, ClientStep(cfg, s, o), size)
  {
  }

  lemma {:induction false} ServiceKeepsSize(cfg: Config, s: Joint, o: Oracle, size: nat)
    requires ServiceCanMove(s) && OneSize(cfg, s, size)
    ensures OneSize(cfg, ServiceStep(cfg, s, o), size)
  {
  }

  /** Over every run all proposals, acknowledgements and results have the size that the client's start asks
      for, or the service's default when it asks for none. */
  lemma {:induction false} RunsKeepSize(cfg: Config, run: seq<Joint>, events: seq<Event>, start: Msg, k: nat)
    requires IsRun(cfg, run, events, start) && k < |run|
    ensures OneSize(cfg, run[k], SizeOf(cfg, start))
    decreases k
  {
    if k > 0 {
      RunsKeepSize(cfg, run, events, start, k - 1);
      RunStep(cfg, run, events, start, k);
      match events[k - 1]
      case ClientMoves(o) => ClientKeepsSize(cfg, run[k - 1], o, SizeOf(cfg, start));
      case ServiceMoves(o) => ServiceKeepsSize(cfg, run[k - 1], o, SizeOf(cfg, start));
      case OthersMap(_, _) =>
    }
  }

  /** Every range a side returns has that size. */
  lemma {:induction false} NegotiatedSize(cfg: Config, run: seq<Joint>, events: seq<Event>, start: Msg, k: nat)
    requires IsRun(cfg, run, events, start) && k < |run|
    ensures run[k].client.CDone? ==> HasSize(run[k].client.result, SizeOf(cfg, start))
    ensures run[k].service.SDone? ==> HasSize(run[k].service.result, SizeOf(cfg, start))
  {
    RunsKeepSize(cfg, run, events, start, k);
  }

  // ---------- progress ----------

  predicate Finished(s: Joint) { s.client.CDone? && s.service.SDone? }

  /** No deadlock: as long as one side has not returned, one of them can move. */
  lemma {:induction false} SomeoneCanMove(cfg: Config, run: seq<Joint>, events: seq<Event>, start: Msg, k: nat)
    requires IsRun(cfg, run, events, start) && PageMultiple(cfg.defaultSize) && k < |run| && !Finished(run[k])
    ensures ClientCanMove(run[k]) || ServiceCanMove(run[k])
  {
    RunsStayInPhase(cfg, run, events, start, k);
  }

  function Left(cfg: Config, tries: nat): nat { if tries < cfg.clientTries then cfg.clientTries - tries else 0 }

  /** Bounds the number of moves still to come. */
  function Remaining(cfg: Config, s: Joint): nat {
    match s.client
    case CDone(_) => if s.service.SDone? then 0 else 1
    case CAwaitAck(_) => if s.service.SDone? then 2 else 3
    case CTop(_, tries) => 10 * Left(cfg, tries) + 4
    case CRecv(_, tries) =>
      10 * Left(cfg, tries) +
      if s.service.SDone? then 2 else if s.service.STop? then 6 else if s.service.SRecv? && s.up == [] then 5 else 7
  }

  lemma {:induction false} MovesUseUpTheRemainder(cfg: Config, s: Joint, e: Event)
    requires InPhase(cfg, s) && Enabled(s, e) && !e.OthersMap?
    ensures Remaining(cfg, Step(cfg, s, e)) < Remaining(cfg, s)
  {
  }

  function Moves(events: seq<Event>, n: nat): nat
    requires n <= |events|
  {
    if n == 0 then 0 else Moves(events, n - 1) + if events[n - 1].OthersMap? then 0 else 1
  }

  /** Termination: no run has more moves of the two sides than ten per client try and four more. */
  lemma {:induction false} NegotiationTerminates(cfg: Config, run: seq<Joint>, events: seq<Event>, start: Msg, k: nat)
    requires IsRun(cfg, run, events, start) && PageMultiple(cfg.defaultSize) && k < |run|
    ensures Moves(events, k) + Remaining(cfg, run[k]) <= 10 * Left(cfg, 0) + 4
    decreases k
  {
    if k > 0 {
      NegotiationTerminates(cfg, run, events, start, k - 1);
      RunsStayInPhase(cfg, run, events, start, k - 1);
      RunStep(cfg, run, events, start, k);
      if !events[k - 1].OthersMap? {
        MovesUseUpTheRemainder(cfg, run[k - 1], events[k - 1]);
      }
    }
  }
}
