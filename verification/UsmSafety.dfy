/** Reservation safety of the USM range negotiation (shared/usm.cpp): each side owns what it relies on, and
    exactly when what it returns. */
module UsmSafety {
  import opened Ranges
  import opened PartitionedRange
  import opened UsmMemory
  import opened UsmNegotiation

  // ---------- reservation safety ----------

  /** The recorded reservations are sorted and disjoint, made by this negotiation, and nobody else's. */
  ghost predicate SideOk(s: Side) {
    Ordered(s.reservations) && AddrsOf(s.reservations, |s.reservations|) <= s.mem.owned && s.mem.owned !! s.mem.foreign
  }

  ghost predicate Holds(s: Side, m: Msg) { m.AsRange().Addrs() <= s.mem.owned }

  /** The client owns what it proposes or accepts, and in the end what it returns; a start of its own is
      the exception, as long as it has reserved nothing. */
  ghost predicate ClientSafe(c: Client, s: Side, own: bool) {
    match c
    case CTop(b, _) => SideOk(s) && OwnsProposal(b, s, own)
    case CRecv(b, _) => SideOk(s) && OwnsProposal(b, s, own)
    case CAwaitAck(m) => SideOk(s) && Holds(s, m)
    case CDone(r) => s.mem.owned !! s.mem.foreign && (UsedAddrs(r) <= s.mem.owned || own)
  }

  ghost predicate OwnsProposal(b: Msg, s: Side, own: bool) {
    b.base != 0 ==> (b.size != 0 && Holds(s, b)) || (own && s.reservations == [])
  }

  /** The service owns exactly its reservations, and in the end exactly what it returns. */
  ghost predicate ServiceSafe(v: Service, s: Side) {
    match v
    case SIdle => SideOk(s) && s.mem.owned == {} && s.reservations == []
    case STop(_, _) => SideOk(s) && s.mem.owned == AddrsOf(s.reservations, |s.reservations|)
    case SRecv(p, _, _) => SideOk(s) && s.mem.owned == AddrsOf(s.reservations, |s.reservations|) && Holds(s, p)
    case SDone(r) => s.mem.owned !! s.mem.foreign && s.mem.owned == UsedAddrs(r)
  }

  lemma {:induction false} SharedAddress(x: Range, r: Range) returns (a: int)
    requires x.Nonempty() && r.Nonempty() && x.Intersects(r)
    ensures x.Has(a) && a in r.Addrs()
  {
    a := if x.start < r.start then r.start else x.start;
  }

  /** Recording a new reservation of free addresses. */
  lemma {:induction false} ReservedIsOk(s: Side, m: Msg)
    requires SideOk(s) && m.size != 0 && s.mem.Free(m.AsRange())
    ensures SideOk(Reserved(s, m)) && Holds(Reserved(s, m), m) && Reserved(s, m).mem.foreign == s.mem.foreign
    ensures AddrsOf(Reserved(s, m).reservations, |s.reservations| + 1)
            == AddrsOf(s.reservations, |s.reservations|) + m.AsRange().Addrs()
  {
    var r, subs := m.AsRange(), s.reservations;
    var now := Inserted(subs, Leaf(r));
    forall k | 0 <= k < |subs| ensures !subs[k].desc.Intersects(r) {
      if subs[k].desc.Intersects(r) {
        var a := SharedAddress(subs[k].desc, r);
        AddrsOfMeansCovered(subs, |subs|, a);
        assert false;
      }
    }
    InsertedIsOrdered(subs, Leaf(r));
    forall a ensures a in AddrsOf(now, |now|) <==> a in AddrsOf(subs, |subs|) || a in r.Addrs() {
      AddrsOfMeansCovered(now, |now|, a);
      AddrsOfMeansCovered(subs, |subs|, a);
      InsertedCovers(subs, Leaf(r), a);
      assert a in r.Addrs() <==> r.Has(a);
    }
  }

  lemma {:induction false} ClientReservesSafely(s: Side, m: Msg)
    requires SideOk(s) && m.size != 0
    ensures SideOk(ClientReserves(s, m).0) && ClientReserves(s, m).0.mem.foreign == s.mem.foreign
    ensures s.mem.owned <= ClientReserves(s, m).0.mem.owned
    ensures ClientReserves(s, m).1 ==> Holds(ClientReserves(s, m).0, m)
  {
    if s.mem.Free(m.AsRange()) {
      ReservedIsOk(s, m);
    } else {
      forall a | Covered(s.reservations, a) ensures a in s.mem.owned {
        AddrsOfMeansCovered(s.reservations, |s.reservations|, a);
      }
      MergeReserves(s.mem, s.reservations, m.AsRange());
    }
  }

  lemma {:induction false} ClientEndsSafely(s: Joint, result: Option<Range>, own: bool)
    requires SideOk(s.cside)
    requires UsedAddrs(result) <= s.cside.mem.owned || (own && s.cside.reservations == [])
    ensures ClientSafe(ClientEnds(s, result).client, ClientEnds(s, result).cside, own)
    ensures ClientEnds(s, result).cside.mem.foreign == s.cside.mem.foreign
  {
    if UsedAddrs(result) <= s.cside.mem.owned {
      CleanupIsSafe(s.cside.mem, result, s.cside.reservations);
    } else {
      assert CleanedUp(s.cside.mem, result, []) == s.cside.mem;
    }
  }

  lemma {:induction false} ServiceEndsSafely(s: Joint, result: Option<Range>)
    requires SideOk(s.sside) && UsedAddrs(result) <= s.sside.mem.owned
    requires s.sside.mem.owned == AddrsOf(s.sside.reservations, |s.sside.reservations|)
    ensures ServiceSafe(ServiceEnds(s, result).service, ServiceEnds(s, result).sside)
    ensures ServiceEnds(s, result).sside.mem.foreign == s.sside.mem.foreign
  {
    CleanupIsSafe(s.sside.mem, result, s.sside.reservations);
  }

  lemma {:induction false} ClientReactsSafely(s: Joint, m: Msg, o: Oracle, own: bool)
    requires s.client.CRecv? && ClientSafe(s.client, s.cside, own)
    requires m.base == s.client.proposal.base && s.client.proposal.size != 0 ==> m == s.client.proposal
    requires Places(ClientReserves(s.cside, m).0.mem, m.size, o.place)
    ensures ClientSafe(ClientReacts(s, m, o).client, ClientReacts(s, m, o).cside, own)
    ensures ClientReacts(s, m, o).cside.mem.foreign == s.cside.mem.foreign
  {
    if !m.Usable() {
      ClientEndsSafely(s, None, own);
    } else if s.client.proposal.base == m.base {
      ClientEndsSafely(s, Some(m.AsRange()), own);
    } else {
      ClientReservesSafely(s.cside, m);
      var r := ClientReserves(s.cside, m);
      ClientEndsSafely(s.(cside := r.0), None, own);
      if !r.1 && o.place.Some? {
        ReservedIsOk(r.0, Msg(o.place.value, m.size));
      }
    }
  }

  lemma {:induction false} ClientStepIsSafe(cfg: Config, s: Joint, o: Oracle, own: bool)
    requires InPhase(cfg, s) && ClientCanMove(s) && ClientOracle(s, o) && ClientSafe(s.client, s.cside, own)
    ensures ClientSafe(ClientStep(cfg, s, o).client, ClientStep(cfg, s, o).cside, own)
    ensures ClientStep(cfg, s, o).cside.mem.foreign == s.cside.mem.foreign
  {
    ClientEndsSafely(s, None, own);
    if !s.client.CTop? && s.down != [] {
      var t := s.(down := s.down[1..]);
      if s.client.CRecv? {
        ClientReactsSafely(t, s.down[0], o, own);
      } else {
        ClientEndsSafely(t, None, own);
        ClientEndsSafely(t, Some(s.client.accepted.AsRange()), own);
      }
    }
  }

  lemma {:induction false} ServiceAcksSafely(s: Joint, m: Msg, result: Msg, o: Oracle)
    requires SideOk(s.sside) && Holds(s.sside, result)
    requires s.sside.mem.owned == AddrsOf(s.sside.reservations, |s.sside.reservations|)
    ensures ServiceSafe(ServiceAcks(s, m, result, o).service, ServiceAcks(s, m, result, o).sside)
    ensures ServiceAcks(s, m, result, o).sside.mem.foreign == s.sside.mem.foreign
  {
    ServiceEndsSafely(s, None);
    ServiceEndsSafely(s.(down := s.down + [m]), Some(result.AsRange()));
  }

  lemma {:induction false} OwnedIsRecorded(s: Side, m: Msg)
    requires SideOk(s) && m.size != 0 && s.mem.Free(m.AsRange())
    requires s.mem.owned == AddrsOf(s.reservations, |s.reservations|)
    ensures SideOk(Reserved(s, m)) && Holds(Reserved(s, m), m) && Reserved(s, m).mem.foreign == s.mem.foreign
    ensures Reserved(s, m).mem.owned == AddrsOf(Reserved(s, m).reservations, |Reserved(s, m).reservations|)
  {
    ReservedIsOk(s, m);
  }

  lemma {:induction false} ServiceAnswersSafely(cfg: Config, s: Joint, o: Oracle)
    requires s.service.STop? && ServiceSafe(s.service, s.sside) && s.service.request.size != 0
    requires Places(s.sside.mem, s.service.request.size, o.place)
    ensures ServiceSafe(ServiceAnswers(cfg, s, o).service, ServiceAnswers(cfg, s, o).sside)
    ensures ServiceAnswers(cfg, s, o).sside.mem.foreign == s.sside.mem.foreign
  {
    var req := s.service.request;
    if s.service.tries >= cfg.serviceTries {
      ServiceEndsSafely(s, None);
    } else if req.base != 0 && s.sside.mem.Free(req.AsRange()) {
      OwnedIsRecorded(s.sside, req);
      ServiceAcksSafely(s.(sside := Reserved(s.sside, req)), req, req, o);
    } else if o.place.None? {
      ServiceEndsSafely(s, None);
    } else {
      var p := Msg(o.place.value, req.size);
      OwnedIsRecorded(s.sside, p);
      if !o.sent {
        ServiceEndsSafely(s.(sside := Reserved(s.sside, p)), None);
      }
    }
  }

  lemma {:induction false} ServiceStepIsSafe(cfg: Config, s: Joint, o: Oracle)
    requires InPhase(cfg, s) && ServiceCanMove(s) && ServiceOracle(s, o) && ServiceSafe(s.service, s.sside)
    ensures ServiceSafe(ServiceStep(cfg, s, o).service, ServiceStep(cfg, s, o).sside)
    ensures ServiceStep(cfg, s, o).sside.mem.foreign == s.sside.mem.foreign
  {
    if s.service.STop? {
      ServiceAnswersSafely(cfg, s, o);
    } else if s.service.SRecv? {
      ServiceEndsSafely(s, None);
      if s.up != [] {
        var t := s.(up := s.up[1..]);
        ServiceEndsSafely(t, None);
        if s.up[0].base == s.service.proposal.base {
          ServiceAcksSafely(t, s.up[0], s.service.proposal, o);
        }
      }
    }
  }

  /** Reservation safety: in every reachable state each side owns what it relies on, a client's own start
      excepted, and neither side's moves change foreign memory. */
  lemma {:induction false} RunsStaySafe(cfg: Config, run: seq<Joint>, events: seq<Event>, start: Msg, k: nat)
    requires IsRun(cfg, run, events, start) && PageMultiple(cfg.defaultSize) && k < |run|
    ensures ClientSafe(run[k].client, run[k].cside, start.base != 0) && ServiceSafe(run[k].service, run[k].sside)
    ensures k > 0 && !events[k - 1].OthersMap? ==> SameForeign(run[k - 1], run[k])
    decreases k
  {
    if k > 0 {
      RunsStaySafe(cfg, run, events, start, k - 1);
      RunsStayInPhase(cfg, run, events, start, k - 1);
      RunStep(cfg, run, events, start, k);
      match events[k - 1]
      case ClientMoves(o) =>
        ClientStepIsSafe(cfg, run[k - 1], o, start.base != 0);
        ClientLeavesService(cfg, run[k - 1], o);
      case ServiceMoves(o) =>
        ServiceStepIsSafe(cfg, run[k - 1], o);
        ServiceLeavesClient(cfg, run[k - 1], o);
      case OthersMap(_, _) =>
    }
  }

  ghost predicate SameForeign(s: Joint, t: Joint) {
    t.cside.mem.foreign == s.cside.mem.foreign && t.sside.mem.foreign == s.sside.mem.foreign
  }

  lemma {:induction false} ClientLeavesService(cfg: Config, s: Joint, o: Oracle)
    requires ClientCanMove(s)
    ensures ClientStep(cfg, s, o).service == s.service && ClientStep(cfg, s, o).sside == s.sside
  {
  }

  lemma {:induction false} ServiceLeavesClient(cfg: Config, s: Joint, o: Oracle)
    requires ServiceCanMove(s)
    ensures ServiceStep(cfg, s, o).client == s.client && ServiceStep(cfg, s, o).cside == s.cside
  {
  }

  // ---------- exactly when returned ranges are reserved ----------

  /** The client has reserved whatever it returned, and the service has, keeping nothing else. */
  ghost predicate ReservesResult(s: Joint) {
    && (s.client.CDone? ==> UsedAddrs(s.client.result) <= s.cside.mem.owned)
    && (s.service.SDone? ==> UsedAddrs(s.service.result) == s.sside.mem.owned)
  }

  /** Starts that no negotiation can end in a range with: refused by the request handler or out of tries. */
  predicate Refused(cfg: Config, start: Msg) {
    !start.WellFormed() || SizeOf(cfg, start) == 0 || cfg.clientTries <= 0 || cfg.serviceTries <= 0
  }

  /** The states of a refused negotiation. */
  ghost predicate Hopeless(cfg: Config, start: Msg, s: Joint) {
    && s.down == [] && (s.up == [] || (s.up == [start] && cfg.clientTries > 0))
    && (match s.client
        case CTop(b, _) => b == start && s.up == []
        case CRecv(b, _) => b == start && cfg.clientTries > 0
        case CAwaitAck(_) => false
        case CDone(r) => r.None?)
    && (match s.service
        case SIdle => true
        case STop(_, _) => cfg.serviceTries <= 0
        case SRecv(_, _, _) => false
        case SDone(r) => r.None?)
  }

  lemma {:induction false} StepKeepsHopeless(cfg: Config, start: Msg, s: Joint, e: Event)
    requires Refused(cfg, start) && Hopeless(cfg, start, s) && Enabled(s, e)
    ensures Hopeless(cfg, start, Step(cfg, s, e))
  {
  }

  lemma {:induction false} RefusedRunsReturnNothing(
    cfg: Config, run: seq<Joint>, events: seq<Event>, start: Msg, k: nat)
    requires IsRun(cfg, run, events, start) && Refused(cfg, start) && k < |run|
    ensures Hopeless(cfg, start, run[k])
    decreases k
  {
    if k > 0 {
      RefusedRunsReturnNothing(cfg, run, events, start, k - 1);
      RunStep(cfg, run, events, start, k);
      StepKeepsHopeless(cfg, start, run[k - 1], events[k - 1]);
    }
  }

  /** The returned ranges are reserved by the sides that return them, over every run of a client that starts
      without an address of its own, or with a start that is refused. */
  lemma {:induction false} ReturnedRangesAreReserved(
    cfg: Config, run: seq<Joint>, events: seq<Event>, start: Msg, k: nat)
    requires IsRun(cfg, run, events, start) && PageMultiple(cfg.defaultSize) && k < |run|
    requires start.base == 0 || Refused(cfg, start)
    ensures ReservesResult(run[k])
  {
    RunsStaySafe(cfg, run, events, start, k);
    if Refused(cfg, start) {
      RefusedRunsReturnNothing(cfg, run, events, start, k);
    }
  }

  /** The service considers the client's own start in empty memory and accepts it. */
  lemma {:induction false} FreeStartIsAccepted(cfg: Config, s: Joint, start: Msg, o: Oracle)
    returns (s1: Joint, s2: Joint)
    requires start.base != 0 && !Refused(cfg, start) && PageMultiple(cfg.defaultSize) && o == Oracle(None, true)
    requires s.client.CRecv? && s.client.proposal == start && s.cside.reservations == [] && s.cside.mem.owned == {}
    requires s.service == STop(Msg(start.base, SizeOf(cfg, start)), 0) && s.sside.mem == Proc({}, {})
    requires Quiet(s)
    ensures StepsTo(cfg, s, ServiceMoves(o), s1) && StepsTo(cfg, s1, ClientMoves(o), s2)
    ensures s2.client == CDone(Some(Range(start.base, start.base + SizeOf(cfg, start))))
    ensures s2.cside.mem.owned == {}
  {
    s1 := Step(cfg, s, ServiceMoves(o));
    s2 := Step(cfg, s1, ClientMoves(o));
  }

  /** From every initial state, a client that starts from an address of its own can return it unreserved:
      when other threads leave the service's memory free, the service accepts at once. */
  lemma {:induction false} OwnStartIsNeverReserved(cfg: Config, s: Joint, start: Msg)
    returns (run: seq<Joint>, events: seq<Event>)
    requires Initial(s, start) && start.base != 0 && !Refused(cfg, start) && PageMultiple(cfg.defaultSize)
    ensures IsRun(cfg, run, events, start) && |run| == 6 && run[0] == s
    ensures run[5].client == CDone(Some(Range(start.base, start.base + SizeOf(cfg, start))))
    ensures run[5].cside.mem.owned == {}
  {
    var o := Oracle(None, true);
    var c, v, others := ClientMoves(o), ServiceMoves(o), OthersMap({}, {});
    var s1 := Step(cfg, s, others);
    var s2 := Step(cfg, s1, c);
    var s3 := Step(cfg, s2, v);
    var s4, s5 := FreeStartIsAccepted(cfg, s3, start, o);
    run, events := [s, s1, s2, s3, s4, s5], [others, c, v, v, c];
    assert StepsTo(cfg, s, others, s1) && StepsTo(cfg, s1, c, s2) && StepsTo(cfg, s2, v, s3);
  }

  ghost predicate RunFrom(cfg: Config, s: Joint, run: seq<Joint>, events: seq<Event>, start: Msg, k: nat) {
    IsRun(cfg, run, events, start) && run[0] == s && k < |run|
  }

  /** Every run from the given state reserves what it returns. */
  ghost predicate AlwaysReserves(cfg: Config, s: Joint, start: Msg) {
    forall run, events, k: nat :: RunFrom(cfg, s, run, events, start, k) ==> ReservesResult(run[k])
  }

  /** The exact condition: every run from an initial state returns only reserved addresses if and only if the
      client starts without an address of its own or its start is refused. */
  lemma {:induction false} AlwaysReservesExactly(cfg: Config, s: Joint, start: Msg)
    requires Initial(s, start) && PageMultiple(cfg.defaultSize)
    ensures AlwaysReserves(cfg, s, start) <==> start.base == 0 || Refused(cfg, start)
  {
    if start.base == 0 || Refused(cfg, start) {
      forall run, events, k: nat | RunFrom(cfg, s, run, events, start, k) ensures ReservesResult(run[k]) {
        ReturnedRangesAreReserved(cfg, run, events, start, k);
      }
    } else {
      var run, events := OwnStartIsNeverReserved(cfg, s, start);
      assert RunFrom(cfg, s, run, events, start, 5);
      assert start.base in Range(start.base, start.base + SizeOf(cfg, start)).Addrs();
      assert !ReservesResult(run[5]);
    }
  }
}
