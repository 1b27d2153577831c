/** The single-producer single-consumer ring (shared/rpc.h): `push` and `pop` as sequential code, and as
    interleaved atomic steps refining a FIFO queue followed by a pending batch. */
module TypedRing {

  /** The slots, the two shared offsets and the producer's count of written but unpublished elements. */
  datatype Ring<T> = Ring(data: seq<T>, head: nat, tail: nat, batch: nat)

  /** How many elements lie between head and tail. */
  function Count(capacity: nat, head: nat, tail: nat): int {
    if tail >= head then tail - head else tail - head + capacity
  }

  /** Both offsets are in range and the pending batch, which never wraps, stops short of the head. */
  predicate InRange(capacity: nat, head: nat, tail: nat, batch: nat) {
    && head < capacity && tail + batch < capacity
    && (tail < head ==> tail + batch < head)
  }

  predicate RingOk<T>(r: Ring<T>) { InRange(|r.data|, r.head, r.tail, r.batch) }

  function Wrap(capacity: nat, x: nat): nat
    requires x < 2 * capacity
  {
    if x < capacity then x else x - capacity
  }

  /** The published, unread elements, oldest first. */
  ghost function Queue<T>(r: Ring<T>): (q: seq<T>)
    requires RingOk(r)
    ensures |q| == Count(|r.data|, r.head, r.tail)
    ensures forall i :: 0 <= i < |q| ==> q[i] == r.data[Wrap(|r.data|, r.head + i)]
  {
    var n := Count(|r.data|, r.head, r.tail);
    seq(n, i requires 0 <= i < n => r.data[Wrap(|r.data|, r.head + i)])
  }

  /** The elements written by batched pushes and not yet visible. */
  ghost function Pending<T>(r: Ring<T>): (p: seq<T>)
    requires RingOk(r)
    ensures |p| == r.batch
  {
    r.data[r.tail..r.tail + r.batch]
  }

  // ---------- the decision and the effect of a push ----------

  datatype Verdict = Full | Plain | Loop

  /** Which branch a push takes on the offsets it has loaded. */
  function Decide(capacity: nat, tail: nat, batch: nat, head: nat): Verdict {
    if tail >= head then
      if capacity > tail + batch + 1 then Plain else if head == 0 then Full else Loop
    else if tail + batch + 1 < head then Plain else Full
  }

  function Wrote<T>(r: Ring<T>, el: T): Ring<T>
    requires RingOk(r)
  {
    r.(data := r.data[r.tail + r.batch := el])
  }

  /** Storing the tail, or only counting a batched element. Looping always publishes. */
  function Committed<T>(r: Ring<T>, batched: bool, v: Verdict): Ring<T> {
    if v.Loop? then r.(tail := 0, batch := 0)
    else if batched then r.(batch := r.batch + 1)
    else r.(tail := r.tail + r.batch + 1, batch := 0)
  }

  predicate Publishes(batched: bool, v: Verdict) { v.Loop? || !batched }

  function Popped<T>(r: Ring<T>): Ring<T> { r.(head := if r.head + 1 == |r.data| then 0 else r.head + 1) }

  /** A snapshot of the head that the consumer may meanwhile have moved beyond. */
  predicate Behind<T>(r: Ring<T>, h: nat) {
    InRange(|r.data|, h, r.tail, r.batch) && Count(|r.data|, r.head, r.tail) <= Count(|r.data|, h, r.tail)
  }

  /** A push fails exactly when its snapshot shows capacity - 1 elements, pending ones included. */
  lemma {:induction false} FailsExactlyWhenFull<T>(r: Ring<T>, h: nat)
    requires InRange(|r.data|, h, r.tail, r.batch)
    ensures Decide(|r.data|, r.tail, r.batch, h).Full? <==> Count(|r.data|, h, r.tail) + r.batch == |r.data| - 1
    ensures Count(|r.data|, h, r.tail) + r.batch <= |r.data| - 1
  {
  }

  /** `flushBatched`: publishes the batch but keeps counting it. */
  function Flushed<T>(r: Ring<T>): Ring<T> { r.(tail := r.tail + r.batch) }

  /** Once the consumer has caught up, a push still fails exactly when the batch fills the ring from its
      first slot; flushing then is harmless if and only if there is no batch, since otherwise the next slot
      to write lies outside the array. */
  lemma {:induction false} PushFailsOnDrainedRing<T>(r: Ring<T>)
    requires RingOk(r) && r.head == r.tail
    ensures Decide(|r.data|, r.tail, r.batch, r.head).Full? <==> r.tail == 0 && r.batch == |r.data| - 1
    ensures Decide(|r.data|, r.tail, r.batch, r.head).Full? ==>
              (RingOk(Flushed(r)) <==> r.batch == 0)
              && (r.batch > 0 <==> Flushed(r).tail + Flushed(r).batch >= |r.data|)
  {
  }

  /** Writing the slot changes neither the unread elements nor the pending ones, however stale the head. */
  lemma {:induction false} WriteTouchesNothingUnread<T>(r: Ring<T>, h: nat, el: T)
    requires RingOk(r) && Behind(r, h) && !Decide(|r.data|, r.tail, r.batch, h).Full?
    ensures RingOk(Wrote(r, el)) && Queue(Wrote(r, el)) == Queue(r) && Pending(Wrote(r, el)) == Pending(r)
    ensures Count(|r.data|, r.head, r.tail) > 0 ==> Wrote(r, el).data[r.head] == r.data[r.head]
  {
    var w := Wrote(r, el);
    forall i | 0 <= i < |Queue(r)| ensures Queue(w)[i] == Queue(r)[i] {
      assert Wrap(|r.data|, r.head + i) != r.tail + r.batch;
    }
    assert Count(|r.data|, r.head, r.tail) > 0 ==> Wrap(|r.data|, r.head + 0) != r.tail + r.batch;
  }

  /** The commit appends the written element to the pending batch, or publishes the batch and it. */
  lemma {:induction false} CommitPublishes<T>(r: Ring<T>, h: nat, batched: bool)
    requires RingOk(r) && Behind(r, h) && !Decide(|r.data|, r.tail, r.batch, h).Full?
    ensures
      var v := Decide(|r.data|, r.tail, r.batch, h);
      var c := Committed(r, batched, v);
      var el := r.data[r.tail + r.batch];
      && RingOk(c)
      && Queue(c) == (if Publishes(batched, v) then Queue(r) + Pending(r) + [el] else Queue(r))
      && Pending(c) == (if Publishes(batched, v) then [] else Pending(r) + [el])
  {
    var v := Decide(|r.data|, r.tail, r.batch, h);
    var c := Committed(r, batched, v);
    var el := r.data[r.tail + r.batch];
    if Publishes(batched, v) {
      PublishedElements(r, c);
    } else {
      assert Queue(c) == Queue(r);
    }
  }

  lemma {:induction false} PublishedElements<T>(r: Ring<T>, c: Ring<T>)
    requires RingOk(r) && RingOk(c) && c.data == r.data && c.head == r.head && c.batch == 0
    requires Count(|r.data|, c.head, c.tail) == Count(|r.data|, r.head, r.tail) + r.batch + 1
    ensures Queue(c) == Queue(r) + Pending(r) + [r.data[r.tail + r.batch]]
  {
    var q := Queue(r) + Pending(r) + [r.data[r.tail + r.batch]];
    forall i | 0 <= i < |q| ensures Queue(c)[i] == q[i] {
      if i >= |Queue(r)| {
        assert Wrap(|r.data|, r.head + i) == r.tail + (i - |Queue(r)|);
      }
    }
  }

  /** Advancing the head removes the oldest unread element. */
  lemma {:induction false} PopTakesTheOldest<T>(r: Ring<T>)
    requires RingOk(r) && r.head != r.tail
    ensures RingOk(Popped(r)) && Queue(r) == [r.data[r.head]] + Queue(Popped(r)) && Pending(Popped(r)) == Pending(r)
    ensures Count(|r.data|, Popped(r).head, r.tail) == Count(|r.data|, r.head, r.tail) - 1
  {
    var q := [r.data[r.head]] + Queue(Popped(r));
    forall i | 0 <= i < |q| ensures Queue(r)[i] == q[i] {
      if i > 0 {
        assert Wrap(|r.data|, Popped(r).head + (i - 1)) == Wrap(|r.data|, r.head + i);
      }
    }
  }

  // ---------- the sequential code ----------

  class Buffer<T> {
    const data: array<T>
    var head: nat
    var tail: nat
    var batchCounter: nat

    function Value(): Ring<T>
      reads this, data
    {
      Ring(data[..], head, tail, batchCounter)
    }

    predicate Valid()
      reads this, data
    {
      RingOk(Value())
    }

    constructor (data: array<T>)
      requires data.Length > 0
      ensures this.data == data && Valid() && Queue(Value()) == [] && Pending(Value()) == []
    {
      this.data := data;
      head, tail, batchCounter := 0, 0, 0;
    }

    method Pop() returns (ok: bool)
      requires Valid()
      modifies this
      ensures Valid() && ok == (old(Queue(Value())) != [])
      ensures ok ==> Queue(Value()) == old(Queue(Value()))[1..] && Pending(Value()) == old(Pending(Value()))
      ensures !ok ==> Value() == old(Value())
    {
      if head == tail {
        return false;
      }
      ghost var r := Value();
      PopTakesTheOldest(r);
      var prevHead := head;
      if prevHead + 1 == data.Length {
        head := 0;
      } else {
        head := prevHead + 1;
      }
      assert Value() == Popped(r);
      return true;
    }

    method Push(el: T, batched: bool) returns (ok: bool)
      requires Valid()
      modifies this, data
      ensures Valid() && ok == (|old(Queue(Value()))| + |old(Pending(Value()))| < data.Length - 1)
      ensures !ok ==> Value() == old(Value())
      ensures ok ==> Queue(Value()) + Pending(Value()) == old(Queue(Value())) + old(Pending(Value())) + [el]
      ensures ok ==> Pending(Value()) == [] || (batched && Pending(Value()) == old(Pending(Value())) + [el])
      ensures ok && !batched ==> Pending(Value()) == []
    {
      ghost var r := Value();
      ghost var v := Decide(data.Length, tail, batchCounter, head);
      FailsExactlyWhenFull(r, head);
      if !v.Full? {
        PushedIs(r, el, batched);
      }
      var tailSnapshot, headSnapshot := tail, head;
      if tailSnapshot >= headSnapshot {
        if data.Length > tailSnapshot + batchCounter + 1 {
          data[tailSnapshot + batchCounter] := el;
          if batched {
            batchCounter := batchCounter + 1;
          } else {
            tail := tailSnapshot + batchCounter + 1;
            batchCounter := 0;
          }
        } else {
          if headSnapshot == 0 {
            return false;
          }
          data[tailSnapshot + batchCounter] := el;
          batchCounter := 0;
          tail := 0;
        }
      } else {
        if tailSnapshot + batchCounter + 1 < headSnapshot {
          data[tailSnapshot + batchCounter] := el;
          if batched {
            batchCounter := batchCounter + 1;
          } else {
            tail := tailSnapshot + batchCounter + 1;
            batchCounter := 0;
          }
        } else {
          return false;
        }
      }
      assert Value() == Committed(Wrote(r, el), batched, v);
      return true;
    }
  }

  lemma {:induction false} PushedIs<T>(r: Ring<T>, el: T, batched: bool)
    requires RingOk(r) && !Decide(|r.data|, r.tail, r.batch, r.head).Full?
    ensures
      var c := Committed(Wrote(r, el), batched, Decide(|r.data|, r.tail, r.batch, r.head));
      && RingOk(c) && Queue(c) + Pending(c) == Queue(r) + Pending(r) + [el]
      && (Pending(c) == [] || (batched && Pending(c) == Pending(r) + [el]))
      && (!batched ==> Pending(c) == [])
  {
    WriteTouchesNothingUnread(r, r.head, el);
    CommitPublishes(Wrote(r, el), r.head, batched);
    assert Queue(r) + (Pending(r) + [el]) == Queue(r) + Pending(r) + [el];
  }

  // ---------- interleaved atomic steps ----------

  /** Where the producer is in a push: it has loaded the tail, both offsets, or written the slot. */
  datatype Producer<T> =
    | PIdle
    | PTail(el: T, batched: bool)
    | PBoth(el: T, batched: bool, head: nat)
    | PWrote(el: T, batched: bool, head: nat)

  /** Where the consumer is: it has seen the ring nonempty, read the oldest slot, checked again to pop. */
  datatype Consumer<T> = CIdle | CReady | CRead(el: T) | CPop(el: T)

  /** The system, with the history of elements pushed successfully and of elements popped. */
  datatype System<T> = System(
    ring: Ring<T>, producer: Producer<T>, consumer: Consumer<T>, pushed: seq<T>, popped: seq<T>)

  datatype Event<T> = StartPush(el: T, batched: bool) | ProducerStep | ConsumerStep

  function ProducerMoves<T>(s: System<T>): System<T>
    requires RingOk(s.ring) && !s.producer.PIdle?
  {
    match s.producer
    case PTail(el, batched) => s.(producer := PBoth(el, batched, s.ring.head))
    case PBoth(el, batched, h) =>
      if Decide(|s.ring.data|, s.ring.tail, s.ring.batch, h).Full? then s.(producer := PIdle)
      else s.(ring := Wrote(s.ring, el), producer := PWrote(el, batched, h))
    case PWrote(el, batched, h) =>
      var v := Decide(|s.ring.data|, s.ring.tail, s.ring.batch, h);
      s.(ring := Committed(s.ring, batched, v), producer := PIdle, pushed := s.pushed + [el])
  }

  function ConsumerMoves<T>(s: System<T>): System<T>
    requires RingOk(s.ring)
  {
    match s.consumer
    case CIdle => if s.ring.head == s.ring.tail then s else s.(consumer := CReady)
    case CReady => s.(consumer := CRead(s.ring.data[s.ring.head]))
    case CRead(el) => if s.ring.head == s.ring.tail then s.(consumer := CIdle) else s.(consumer := CPop(el))
    case CPop(el) => s.(ring := Popped(s.ring), consumer := CIdle, popped := s.popped + [el])
  }

  /** One atomic step; the tail a push has loaded stays current, since only the producer stores it. */
  ghost predicate Steps<T>(s: System<T>, e: Event<T>, t: System<T>) {
    && RingOk(s.ring)
    && match e
       case StartPush(el, batched) => s.producer.PIdle? && t == s.(producer := PTail(el, batched))
       case ProducerStep => !s.producer.PIdle? && t == ProducerMoves(s)
       case ConsumerStep => t == ConsumerMoves(s)
  }

  ghost predicate ProducerOk<T>(r: Ring<T>, p: Producer<T>) {
    match p
    case PIdle => true
    case PTail(_, _) => true
    case PBoth(_, _, h) => Behind(r, h)
    case PWrote(el, _, h) =>
      Behind(r, h) && !Decide(|r.data|, r.tail, r.batch, h).Full? && r.data[r.tail + r.batch] == el
  }

  ghost predicate ConsumerOk<T>(r: Ring<T>, c: Consumer<T>)
    requires RingOk(r)
  {
    match c
    case CIdle => true
    case CReady => r.head != r.tail
    case CRead(el) => r.head != r.tail && el == r.data[r.head]
    case CPop(el) => r.head != r.tail && el == r.data[r.head]
  }

  /** Nothing is lost, duplicated, reordered or overwritten: what was pushed is what was popped, followed
      by what is unread, followed by what is pending. */
  ghost predicate Inv<T>(s: System<T>) {
    && RingOk(s.ring) && ProducerOk(s.ring, s.producer) && ConsumerOk(s.ring, s.consumer)
    && s.pushed == s.popped + (Queue(s.ring) + Pending(s.ring))
  }

  lemma {:induction false} WriteKeepsInv<T>(s: System<T>)
    requires Inv(s) && s.producer.PBoth?
    ensures Inv(ProducerMoves(s))
  {
    var r := s.ring;
    if !Decide(|r.data|, r.tail, r.batch, s.producer.head).Full? {
      WriteTouchesNothingUnread(r, s.producer.head, s.producer.el);
    }
  }

  lemma {:induction false} CommitKeepsInv<T>(s: System<T>)
    requires Inv(s) && s.producer.PWrote?
    ensures Inv(ProducerMoves(s))
  {
    var r := s.ring;
    CommitPublishes(r, s.producer.head, s.producer.batched);
    HistoryGrows(s.popped, Queue(r), Pending(r), s.producer.el);
    assert r.head != r.tail ==>
        |Queue(Committed(r, s.producer.batched, Decide(|r.data|, r.tail, r.batch, s.producer.head)))| > 0;
  }

  lemma {:induction false} ProducerKeepsInv<T>(s: System<T>)
    requires Inv(s) && !s.producer.PIdle?
    ensures Inv(ProducerMoves(s))
  {
    match s.producer
    case PTail(_, _) =>
    case PBoth(_, _, _) => WriteKeepsInv(s);
    case PWrote(_, _, _) => CommitKeepsInv(s);
  }

  lemma {:induction false} HistoryGrows<T>(popped: seq<T>, q: seq<T>, p: seq<T>, el: T)
    ensures popped + (q + p) + [el] == popped + (q + p + [el])
    ensures q + p + [el] == q + (p + [el]) && q + p + [el] == (q + p + [el]) + []
  {
  }

  lemma {:induction false} ConsumerKeepsInv<T>(s: System<T>)
    requires Inv(s)
    ensures Inv(ConsumerMoves(s))
  {
    if s.consumer.CPop? {
      var r := s.ring;
      PopTakesTheOldest(r);
      HistoryMoves(s.popped, Queue(r), Queue(Popped(r)), Pending(r), s.consumer.el);
    }
  }

  lemma {:induction false} HistoryMoves<T>(popped: seq<T>, q: seq<T>, rest: seq<T>, p: seq<T>, el: T)
    requires q == [el] + rest
    ensures popped + (q + p) == popped + [el] + (rest + p)
  {
  }

  ghost predicate IsRun<T>(run: seq<System<T>>, events: seq<Event<T>>) {
    && |run| == |events| + 1
    && |run[0].ring.data| > 0 && run[0] == System(Ring(run[0].ring.data, 0, 0, 0), PIdle, CIdle, [], [])
    && forall i, j :: 0 <= i < |events| && j == i + 1 ==> Steps(run[i], events[i], run[j])
  }

  /** The refinement, over every interleaving of producer and consumer steps. */
  lemma {:induction false} RunsAreFifo<T>(run: seq<System<T>>, events: seq<Event<T>>, k: nat)
    requires IsRun(run, events) && k < |run|
    ensures Inv(run[k])
    decreases k
  {
    if k > 0 {
      RunsAreFifo(run, events, k - 1);
      var i := k - 1;
      assert Steps(run[i], events[i], run[k]);
      match events[i]
      case StartPush(_, _) =>
      case ProducerStep => ProducerKeepsInv(run[i]);
      case ConsumerStep => ConsumerKeepsInv(run[i]);
    }
  }
}
