/** The ring of eight sample buffers between the USB completion callback and the consumer
    thread. */
module SampleRing {

  const RAW_BUFFER_COUNT := 8

  /** Buffers are numbered; slots, drops and the counters are the ring's fields. */
  datatype Ring = Ring(slots: seq<nat>, drops: seq<nat>, head: nat, tail: nat, count: nat, dropped: nat) {
    predicate Shape() {
      && |slots| == |drops| == RAW_BUFFER_COUNT
      && head < RAW_BUFFER_COUNT && tail < RAW_BUFFER_COUNT && count <= RAW_BUFFER_COUNT
    }
  }

  /** The locked part of the completion callback: swap the full buffer b in, or count it
      as dropped. The second result is the buffer the transfer goes on with. */
  function Offer(r: Ring, b: nat): (Ring, nat)
    requires r.Shape()
  {
    if r.count < RAW_BUFFER_COUNT then
      (Ring(r.slots[r.head := b], r.drops[r.head := r.dropped],
            (r.head + 1) % RAW_BUFFER_COUNT, r.tail, r.count + 1, 0),
       r.slots[r.head])
    else
      (r.(dropped := NextDropped(r.dropped)), b)
  }

  /** The drop counter has 32 bits. */
  function NextDropped(n: nat): nat {
    (n + 1) % 0x1_0000_0000
  }

  /** The consumer takes the oldest buffer; the count stays until it has finished. */
  function Take(r: Ring): Ring
    requires r.Shape()
  {
    r.(tail := (r.tail + 1) % RAW_BUFFER_COUNT)
  }

  // ------------------------------------------------------------- the protocol

  datatype Owner = Free | ByConsumer | ByCallback | ByKiller

  /** Where the consumer thread is; from Checking to Taking and in Leaving it holds the
      mutex. Waiting is inside the condition wait. */
  datatype Consumer =
    | Starting
    | Checking
    | InnerChecking
    | AboutToWait
    | Waiting
    | Waking
    | Deciding
    | Taking
    | Delivering(slot: nat, buffer: nat, dropped: nat)
    | Relocking
    | Leaving
    | Exited

  /** Where the completion callback of transfer t is. */
  datatype Callback =
    | Idle
    | Entered(t: nat, full: bool)
    | Locking(t: nat)
    | Holding(t: nat)
    | Resubmitting(t: nat)

  /** Where the thread that stops the stream is. */
  datatype Killer = Away | Cancelling | Signalling | Signalled | Joining

  datatype Event = Stored(data: int) | Rejected

  datatype Delivery = Delivery(data: int, dropped: nat)

  /** log and delivered are the history of the session: what completed while streaming,
      and what the consumer's callback has seen. */
  datatype State = State(
    ring: Ring,
    transfers: seq<nat>,
    inFlight: seq<bool>,
    memory: seq<int>,
    streaming: bool,
    stop: bool,
    mutex: Owner,
    consumer: Consumer,
    callback: Callback,
    killer: Killer,
    log: seq<Event>,
    delivered: seq<Delivery>)

  datatype Action =
    | Start
    | DeviceWrites(t: nat, data: int)
    | Complete(t: nat, full: bool)
    | CallbackEntry
    | CallbackLocks
    | CallbackBody
    | Resubmit(ok: bool)
    | ConsumerLocks
    | CheckOuter
    | CheckInner
    | EnterWait
    | SpuriousWake
    | Decide
    | TakeBuffer
    | FinishCallback(stopRequested: bool)
    | Leave
    | BeginKill
    | KillerLocks
    | Signal
    | KillerUnlocks
    | FinishKill

  /** Indices and buffer numbers are in range. */
  predicate Bounds(s: State) {
    && s.ring.Shape()
    && |s.inFlight| == |s.transfers| && |s.memory| == RAW_BUFFER_COUNT + |s.transfers|
    && (forall i :: 0 <= i < RAW_BUFFER_COUNT ==> s.ring.slots[i] < |s.memory|)
    && (forall t :: 0 <= t < |s.transfers| ==> s.transfers[t] < |s.memory|)
    && (s.callback != Idle ==> s.callback.t < |s.transfers| && !s.inFlight[s.callback.t])
    && (s.consumer.Delivering? ==> s.consumer.slot < RAW_BUFFER_COUNT && s.consumer.buffer < |s.memory|)
    && (s.consumer == Relocking ==> s.ring.count > 0)
  }

  predicate IsConsumerStep(a: Action) {
    || a.ConsumerLocks? || a.CheckOuter? || a.CheckInner? || a.EnterWait? || a.SpuriousWake?
    || a.Decide? || a.TakeBuffer? || a.FinishCallback? || a.Leave?
  }

  predicate Running(s: State) {
    s.streaming && !s.stop
  }

  ghost predicate Enabled(s: State, a: Action) {
    match a
    case Start =>
      !s.streaming && !s.stop && s.consumer == Exited && s.callback == Idle && s.killer == Away
      && forall t :: 0 <= t < |s.inFlight| ==> !s.inFlight[t]
    case DeviceWrites(t, _) => t < |s.inFlight| && s.inFlight[t]
    case Complete(t, _) => s.callback == Idle && t < |s.inFlight| && s.inFlight[t]
    case CallbackEntry => s.callback.Entered?
    case CallbackLocks => s.callback.Locking? && s.mutex == Free
    case CallbackBody => s.callback.Holding?
    case Resubmit(_) => s.callback.Resubmitting?
    case ConsumerLocks => s.consumer in {Starting, Waking, Relocking} && s.mutex == Free
    case CheckOuter => s.consumer == Checking
    case CheckInner => s.consumer == InnerChecking
    case EnterWait => s.consumer == AboutToWait
    case SpuriousWake => s.consumer == Waiting
    case Decide => s.consumer == Deciding
    case TakeBuffer => s.consumer == Taking
    case FinishCallback(_) => s.consumer.Delivering?
    case Leave => s.consumer == Leaving
    case BeginKill => s.killer == Away && s.streaming
    case KillerLocks => s.killer == Cancelling && s.mutex == Free
    case Signal => s.killer == Signalling
    case KillerUnlocks => s.killer == Signalled
    case FinishKill => s.killer == Joining && s.consumer == Exited && s.callback == Idle
  }

  ghost function Step(s: State, a: Action): State
    requires Bounds(s) && Enabled(s, a)
  {
    match a
    case Start =>
      s.(ring := Ring(s.ring.slots, seq(RAW_BUFFER_COUNT, _ => 0), 0, 0, 0, 0),
         inFlight := seq(|s.inFlight|, _ => true),
         streaming := true, consumer := Starting, log := [], delivered := [])
    case DeviceWrites(t, data) => s.(memory := s.memory[s.transfers[t] := data])
    case Complete(t, full) => s.(inFlight := s.inFlight[t := false], callback := Entered(t, full))
    case CallbackEntry =>
      if !Running(s) then s.(callback := Idle)
      else if s.callback.full then s.(callback := Locking(s.callback.t))
      else s.(callback := Idle, stop := true)
    case CallbackLocks => s.(mutex := ByCallback, callback := Holding(s.callback.t))
    case CallbackBody =>
      var t := s.callback.t;
      var b := s.transfers[t];
      var (ring, next) := Offer(s.ring, b);
      var stored := s.ring.count < RAW_BUFFER_COUNT;
      s.(ring := ring, transfers := s.transfers[t := next],
         consumer := if stored && s.consumer == Waiting then Waking else s.consumer,
         mutex := Free, callback := Resubmitting(t),
         log := s.log + [if stored then Stored(s.memory[b]) else Rejected])
    case Resubmit(ok) =>
      if ok then s.(callback := Idle, inFlight := s.inFlight[s.callback.t := true])
      else s.(callback := Idle, stop := true)
    case ConsumerLocks =>
      s.(mutex := ByConsumer,
         consumer := if s.consumer == Waking then InnerChecking else Checking,
         ring := if s.consumer == Relocking then s.ring.(count := s.ring.count - 1) else s.ring)
    case CheckOuter => s.(consumer := if Running(s) then InnerChecking else Leaving)
    case CheckInner => s.(consumer := if s.ring.count == 0 && Running(s) then AboutToWait else Deciding)
    case EnterWait => s.(consumer := Waiting, mutex := Free)
    case SpuriousWake => s.(consumer := Waking)
    case Decide => s.(consumer := if Running(s) then Taking else Leaving)
    case TakeBuffer =>
      var slot := s.ring.tail;
      s.(ring := Take(s.ring), mutex := Free,
         consumer := Delivering(slot, s.ring.slots[slot], s.ring.drops[slot]))
    case FinishCallback(stopRequested) =>
      s.(consumer := Relocking, stop := s.stop || stopRequested,
         delivered := s.delivered + [Delivery(s.memory[s.consumer.buffer], s.consumer.dropped)])
    case Leave => s.(consumer := Exited, mutex := Free)
    case BeginKill => s.(stop := true, killer := Cancelling)
    case KillerLocks => s.(mutex := ByKiller, killer := Signalling)
    case Signal => s.(killer := Signalled, consumer := if s.consumer == Waiting then Waking else s.consumer)
    case KillerUnlocks => s.(mutex := Free, killer := Joining)
    case FinishKill => s.(stop := false, streaming := false, killer := Away)
  }

  // -------------------------------------------------------- the device's fields

  /** The fields of the ring, and what the locked parts of the threads do to them: the same
      as the step of the protocol does to the ring of the state. */
  class Device {
    const receivedSamplesQueue: array<nat>
    const droppedBuffersQueue: array<nat>
    var head: nat
    var tail: nat
    var receivedBufferCount: nat
    var droppedBuffers: nat

    ghost predicate Valid()
      reads this, receivedSamplesQueue, droppedBuffersQueue
    {
      && receivedSamplesQueue != droppedBuffersQueue
      && receivedSamplesQueue.Length == droppedBuffersQueue.Length == RAW_BUFFER_COUNT
      && head < RAW_BUFFER_COUNT && tail < RAW_BUFFER_COUNT && receivedBufferCount <= RAW_BUFFER_COUNT
    }

    ghost function Contents(): (r: Ring)
      requires Valid()
      reads this, receivedSamplesQueue, droppedBuffersQueue
      ensures r.Shape()
    {
      Ring(receivedSamplesQueue[..], droppedBuffersQueue[..], head, tail, receivedBufferCount, droppedBuffers)
    }

    constructor ()
      ensures Valid() && fresh(receivedSamplesQueue) && fresh(droppedBuffersQueue)
      ensures Contents().head == Contents().tail == Contents().count == Contents().dropped == 0
    {
      receivedSamplesQueue := new nat[RAW_BUFFER_COUNT];
      droppedBuffersQueue := new nat[RAW_BUFFER_COUNT];
      head, tail, receivedBufferCount, droppedBuffers := 0, 0, 0, 0;
    }

    /** The locked part of the completion callback; the transfer goes on with buffer next. */
    method TransferCallback(buffer: nat, ghost s: State) returns (next: nat)
      requires Valid() && Bounds(s) && s.callback.Holding? && Contents() == s.ring
      requires buffer == s.transfers[s.callback.t]
      modifies this, receivedSamplesQueue, droppedBuffersQueue
      ensures Valid() && (Contents(), next) == Offer(old(Contents()), buffer)
      ensures Contents() == Step(s, CallbackBody).ring
      ensures next == Step(s, CallbackBody).transfers[s.callback.t]
    {
      if receivedBufferCount < RAW_BUFFER_COUNT {
        next := receivedSamplesQueue[head];
        receivedSamplesQueue[head] := buffer;
        droppedBuffersQueue[head] := droppedBuffers;
        droppedBuffers := 0;
        head := (head + 1) % RAW_BUFFER_COUNT;
        receivedBufferCount := receivedBufferCount + 1;
      } else {
        next := buffer;
        droppedBuffers := (droppedBuffers + 1) % 0x1_0000_0000;
      }
    }

    /** The consumer's way from the wait to its callback. */
    method TakeOldest(ghost s: State) returns (inputSamples: nat, dropped: nat)
      requires Valid() && Bounds(s) && s.consumer == Taking && Contents() == s.ring
      modifies this`tail
      ensures Valid() && Contents() == Step(s, TakeBuffer).ring == Take(old(Contents()))
      ensures Step(s, TakeBuffer).consumer == Delivering(old(tail), inputSamples, dropped)
    {
      inputSamples := receivedSamplesQueue[tail];
      dropped := droppedBuffersQueue[tail];
      tail := (tail + 1) % RAW_BUFFER_COUNT;
    }

    /** Back from the callback: only now the slot counts as free. */
    method FinishDelivery(ghost s: State)
      requires Valid() && Bounds(s) && s.consumer == Relocking && s.mutex == Free && Contents() == s.ring
      modifies this`receivedBufferCount
      ensures Valid() && Contents() == Step(s, ConsumerLocks).ring
      ensures Contents() == old(Contents()).(count := old(receivedBufferCount) - 1)
    {
      receivedBufferCount := receivedBufferCount - 1;
    }
  }

  // ------------------------------------------------------------ what always holds

  predicate Busy(s: State) {
    s.consumer.Delivering? || s.consumer == Relocking
  }

  /** Stored buffers the consumer has not taken yet. */
  function Pending(s: State): int {
    s.ring.count - if Busy(s) then 1 else 0
  }

  /** Head and tail are apart by the count, less the buffer the consumer is busy with. */
  predicate RingInv(s: State) {
    && Bounds(s)
    && 0 <= Pending(s)
    && s.ring.head == (s.ring.tail + Pending(s)) % RAW_BUFFER_COUNT
    && (s.consumer == Taking ==> s.ring.count > 0)
    && (s.consumer == Deciding ==> s.ring.count > 0 || !Running(s))
  }

  /** The mutex is held by the thread whose program counter says so. */
  predicate MutexInv(s: State) {
    && (s.mutex == ByConsumer <==>
        s.consumer in {Checking, InnerChecking, AboutToWait, Deciding, Taking, Leaving})
    && (s.mutex == ByCallback <==> s.callback.Holding?)
    && (s.mutex == ByKiller <==> s.killer in {Signalling, Signalled})
  }

  /** No buffer is in two places: slots and transfers hold each buffer number once. */
  predicate BuffersInv(s: State)
    requires Bounds(s)
  {
    && (forall i, j :: 0 <= i < j < RAW_BUFFER_COUNT ==> s.ring.slots[i] != s.ring.slots[j])
    && (forall t, u :: 0 <= t < u < |s.transfers| ==> s.transfers[t] != s.transfers[u])
    && (forall i, t :: 0 <= i < RAW_BUFFER_COUNT && 0 <= t < |s.transfers| ==> s.ring.slots[i] != s.transfers[t])
  }

  /** While the consumer reads a buffer outside the lock, that buffer stays in the slot
      behind the tail, which the callback cannot reach. */
  predicate ReaderInv(s: State)
    requires Bounds(s)
  {
    s.consumer.Delivering? ==>
      && s.consumer.slot == (s.ring.tail + 7) % RAW_BUFFER_COUNT
      && s.ring.slots[s.consumer.slot] == s.consumer.buffer
  }

  /** No consumer thread outside a session; the flag stays up until it has gone. */
  predicate StopInv(s: State) {
    && (!s.streaming ==> s.consumer == Exited && s.killer == Away)
    && (s.killer != Away ==> s.streaming && s.stop)
    && (s.killer in {Signalled, Joining} ==> s.consumer !in {AboutToWait, Waiting, Taking})
  }

  /** The consumer gives up only when it must stop, and waits only while nothing is stored. */
  predicate ServeInv(s: State) {
    && (s.streaming && s.consumer in {Leaving, Exited} ==> s.stop)
    && (s.consumer in {AboutToWait, Waiting} ==> s.ring.count == 0)
  }

  // The trailing rejections of a log, and the stored buffers with the rejections before
  // each of them, as the 32-bit counter sees them.

  function TrailingRejected(log: seq<Event>): nat {
    if |log| == 0 || log[|log| - 1].Stored? then 0 else TrailingRejected(log[..|log| - 1]) + 1
  }

  function Word(n: nat): nat {
    n % 0x1_0000_0000
  }

  function Deliveries(log: seq<Event>): seq<Delivery> {
    if |log| == 0 then []
    else
      var rest, last := log[..|log| - 1], log[|log| - 1];
      if last.Stored? then Deliveries(rest) + [Delivery(last.data, Word(TrailingRejected(rest)))]
      else Deliveries(rest)
  }

  /** The entry of the ring that is i places behind the tail. */
  function Entry(s: State, i: nat): Delivery
    requires Bounds(s)
  {
    var slot := (s.ring.tail + i) % RAW_BUFFER_COUNT;
    Delivery(s.memory[s.ring.slots[slot]], s.ring.drops[slot])
  }

  function Queued(s: State): (q: seq<Delivery>)
    requires Bounds(s) && 0 <= Pending(s)
    ensures |q| == Pending(s)
  {
    seq(Pending(s), i requires 0 <= i < Pending(s) => Entry(s, i))
  }

  function InHand(s: State): seq<Delivery>
    requires Bounds(s)
  {
    if s.consumer.Delivering? then [Delivery(s.memory[s.consumer.buffer], s.consumer.dropped)] else []
  }

  /** Everything stored is, oldest first: seen by the consumer, in its hands, in the ring. */
  predicate HistoryInv(s: State)
    requires Bounds(s) && 0 <= Pending(s)
  {
    && Deliveries(s.log) == s.delivered + InHand(s) + Queued(s)
    && s.ring.dropped == Word(TrailingRejected(s.log))
  }

  ghost predicate Inv(s: State) {
    RingInv(s) && MutexInv(s) && BuffersInv(s) && ReaderInv(s) && StopInv(s) && ServeInv(s) && HistoryInv(s)
  }

  lemma BoundsAfterOffer(s: State)
    requires RingInv(s) && Enabled(s, CallbackBody)
    ensures Bounds(Step(s, CallbackBody))
  {
  }

  lemma BoundsInConsumer(s: State, a: Action)
    requires RingInv(s) && Enabled(s, a) && IsConsumerStep(a)
    ensures Bounds(Step(s, a))
  {
  }

  lemma BoundsElsewhere(s: State, a: Action)
    requires RingInv(s) && Enabled(s, a) && !IsConsumerStep(a) && !a.CallbackBody?
    ensures Bounds(Step(s, a))
  {
    if IsCallbackStep(a) {
      BoundsInCallback(s, a);
    } else {
      BoundsInOthers(s, a);
    }
    hide RingInv, Bounds, Step, Enabled;
  }

  /** The device's steps and the callback's, but for the locked one. */
  predicate IsCallbackStep(a: Action) {
    a.DeviceWrites? || a.Complete? || a.CallbackEntry? || a.CallbackLocks? || a.Resubmit?
  }

  lemma BoundsInCallback(s: State, a: Action)
    requires RingInv(s) && Enabled(s, a) && IsCallbackStep(a)
    ensures Bounds(Step(s, a))
  {
  }

  lemma BoundsInOthers(s: State, a: Action)
    requires RingInv(s) && Enabled(s, a) && !IsConsumerStep(a) && !a.CallbackBody? && !IsCallbackStep(a)
    ensures Bounds(Step(s, a))
  {
  }

  lemma RingAfterOffer(s: State)
    requires RingInv(s) && MutexInv(s) && s.callback.Holding?
    ensures RingInv(Step(s, CallbackBody))
  {
    BoundsAfterOffer(s);
    OneFurther(s.ring.tail + Pending(s));
    hide Bounds;
  }

  lemma OneFurther(p: nat)
    ensures (p % RAW_BUFFER_COUNT + 1) % RAW_BUFFER_COUNT == (p + 1) % RAW_BUFFER_COUNT
  {
  }

  lemma NextSlot(tail: nat, i: nat)
    ensures ((tail + 1) % RAW_BUFFER_COUNT + i) % RAW_BUFFER_COUNT == (tail + (i + 1)) % RAW_BUFFER_COUNT
  {
  }

  lemma RingAfterTake(s: State)
    requires RingInv(s) && s.consumer == Taking
    ensures RingInv(Step(s, TakeBuffer))
  {
    BoundsInConsumer(s, TakeBuffer);
    NextSlot(s.ring.tail, Pending(s) - 1);
    hide Bounds;
  }

  lemma RingInConsumer(s: State, a: Action)
    requires RingInv(s) && MutexInv(s) && Enabled(s, a) && IsConsumerStep(a) && !a.TakeBuffer?
    ensures RingInv(Step(s, a))
  {
    BoundsInConsumer(s, a);
    hide Bounds, Offer;
  }

  lemma RingElsewhere(s: State, a: Action)
    requires RingInv(s) && StopInv(s) && Enabled(s, a) && !IsConsumerStep(a) && !a.CallbackBody?
    ensures RingInv(Step(s, a))
  {
    BoundsElsewhere(s, a);
    hide Bounds, Offer;
  }

  lemma RingKept(s: State, a: Action)
    requires RingInv(s) && MutexInv(s) && StopInv(s) && Enabled(s, a)
    ensures RingInv(Step(s, a))
  {
    if a.CallbackBody? {
      RingAfterOffer(s);
    } else if a.TakeBuffer? {
      RingAfterTake(s);
    } else if IsConsumerStep(a) {
      RingInConsumer(s, a);
    } else {
      RingElsewhere(s, a);
    }
    hide RingInv, MutexInv, StopInv, Step;
  }

  lemma MutexInConsumer(s: State, a: Action)
    requires Bounds(s) && MutexInv(s) && Enabled(s, a) && IsConsumerStep(a)
    ensures MutexInv(Step(s, a))
  {
    hide Bounds, Offer;
  }

  lemma MutexElsewhere(s: State, a: Action)
    requires Bounds(s) && MutexInv(s) && StopInv(s) && Enabled(s, a) && !IsConsumerStep(a)
    ensures MutexInv(Step(s, a))
  {
    hide Bounds, Offer;
  }

  lemma MutexKept(s: State, a: Action)
    requires Bounds(s) && MutexInv(s) && StopInv(s) && Enabled(s, a)
    ensures MutexInv(Step(s, a))
  {
    if IsConsumerStep(a) {
      MutexInConsumer(s, a);
    } else {
      MutexElsewhere(s, a);
    }
    hide MutexInv, StopInv, Step;
  }

  lemma StopKept(s: State, a: Action)
    requires RingInv(s) && MutexInv(s) && StopInv(s) && Enabled(s, a)
    ensures StopInv(Step(s, a))
  {
  }

  lemma ServeInConsumer(s: State, a: Action)
    requires Bounds(s) && ServeInv(s) && Enabled(s, a) && IsConsumerStep(a)
    ensures ServeInv(Step(s, a))
  {
    hide Bounds, Offer;
  }

  lemma ServeElsewhere(s: State, a: Action)
    requires Bounds(s) && MutexInv(s) && StopInv(s) && ServeInv(s) && Enabled(s, a) && !IsConsumerStep(a)
    ensures ServeInv(Step(s, a))
  {
    hide Bounds;
  }

  lemma ServeKept(s: State, a: Action)
    requires Bounds(s) && MutexInv(s) && StopInv(s) && ServeInv(s) && Enabled(s, a)
    ensures ServeInv(Step(s, a))
  {
    if IsConsumerStep(a) {
      ServeInConsumer(s, a);
    } else {
      ServeElsewhere(s, a);
    }
    hide MutexInv, StopInv, ServeInv, Step, Enabled;
  }

  lemma BuffersSwapped(s: State)
    requires Bounds(s) && BuffersInv(s) && Enabled(s, CallbackBody) && Bounds(Step(s, CallbackBody))
    ensures BuffersInv(Step(s, CallbackBody))
  {
  }

  lemma PlacesKept(s: State, a: Action)
    requires Bounds(s) && Enabled(s, a) && !a.CallbackBody?
    ensures Step(s, a).ring.slots == s.ring.slots && Step(s, a).transfers == s.transfers
  {
    hide Bounds, Offer;
  }

  lemma BuffersKept(s: State, a: Action)
    requires Bounds(s) && BuffersInv(s) && Enabled(s, a) && Bounds(Step(s, a))
    ensures BuffersInv(Step(s, a))
  {
    hide Step, Enabled, Bounds;
    if a.CallbackBody? {
      BuffersSwapped(s);
    } else {
      PlacesKept(s, a);
    }
  }

  /** The slot in the consumer's hands is not the one the callback would fill. */
  lemma ReaderApart(s: State)
    requires RingInv(s) && ReaderInv(s) && s.consumer.Delivering? && s.ring.count < RAW_BUFFER_COUNT
    ensures s.consumer.slot != s.ring.head
  {
  }

  lemma ReaderAfterOffer(s: State)
    requires RingInv(s) && ReaderInv(s) && Enabled(s, CallbackBody) && Bounds(Step(s, CallbackBody))
    ensures ReaderInv(Step(s, CallbackBody))
  {
    if s.consumer.Delivering? && s.ring.count < RAW_BUFFER_COUNT {
      ReaderApart(s);
    }
    hide RingInv, Bounds;
  }

  lemma ReaderElsewhere(s: State, a: Action)
    requires Bounds(s) && StopInv(s) && ReaderInv(s) && Enabled(s, a) && Bounds(Step(s, a)) && !a.CallbackBody?
    ensures ReaderInv(Step(s, a))
  {
    PlacesKept(s, a);
    SlotBehind(s.ring.tail);
    hide Offer;
  }

  lemma SlotBehind(tail: nat)
    requires tail < RAW_BUFFER_COUNT
    ensures tail == ((tail + 1) % RAW_BUFFER_COUNT + 7) % RAW_BUFFER_COUNT
  {
  }

  lemma ReaderKept(s: State, a: Action)
    requires RingInv(s) && ReaderInv(s) && StopInv(s) && Enabled(s, a) && Bounds(Step(s, a))
    ensures ReaderInv(Step(s, a))
  {
    if a.CallbackBody? {
      ReaderAfterOffer(s);
    } else {
      ReaderElsewhere(s, a);
    }
    hide ReaderInv, StopInv, Step, Enabled;
  }

  // -------------------------------------------------------------- the history

  lemma SlotsApart(tail: nat, i: nat, j: nat)
    requires i < j < RAW_BUFFER_COUNT
    ensures (tail + i) % RAW_BUFFER_COUNT != (tail + j) % RAW_BUFFER_COUNT
  {
  }

  /** What the consumer's side of the history depends on. */
  predicate SameView(s: State, s': State) {
    && s'.memory == s.memory && s'.delivered == s.delivered && s'.ring.tail == s.ring.tail
    && s'.consumer.Delivering? == s.consumer.Delivering?
    && (s.consumer.Delivering? ==> s'.consumer == s.consumer)
  }

  lemma QueueGrows(s: State)
    requires RingInv(s) && BuffersInv(s) && MutexInv(s)
    requires s.callback.Holding? && s.ring.count < RAW_BUFFER_COUNT
    requires RingInv(Step(s, CallbackBody))
    ensures Queued(Step(s, CallbackBody))
         == Queued(s) + [Delivery(s.memory[s.transfers[s.callback.t]], s.ring.dropped)]
  {
    var s', n := Step(s, CallbackBody), Pending(s);
    NewestStored(s);
    forall i: nat | i < n ensures Entry(s', i) == Entry(s, i) {
      OlderKept(s, i);
    }
    hide Entry, Step, RingInv, MutexInv, BuffersInv, Pending, Bounds;
  }

  lemma NewestStored(s: State)
    requires RingInv(s) && MutexInv(s)
    requires s.callback.Holding? && s.ring.count < RAW_BUFFER_COUNT
    requires RingInv(Step(s, CallbackBody))
    ensures Pending(Step(s, CallbackBody)) == Pending(s) + 1
    ensures Entry(Step(s, CallbackBody), Pending(s))
         == Delivery(s.memory[s.transfers[s.callback.t]], s.ring.dropped)
  {
  }

  lemma OlderKept(s: State, i: nat)
    requires RingInv(s) && s.callback.Holding? && s.ring.count < RAW_BUFFER_COUNT
    requires Bounds(Step(s, CallbackBody)) && i < Pending(s)
    ensures Entry(Step(s, CallbackBody), i) == Entry(s, i)
  {
    SlotsApart(s.ring.tail, i, Pending(s));
  }

  lemma StoredDeliveries(log: seq<Event>, data: int)
    ensures Deliveries(log + [Stored(data)]) == Deliveries(log) + [Delivery(data, Word(TrailingRejected(log)))]
    ensures TrailingRejected(log + [Stored(data)]) == 0
  {
    assert (log + [Stored(data)])[..|log|] == log;
  }

  /** An accepted buffer becomes the newest entry; the others stay as they are. */
  lemma HistoryStored(s: State)
    requires RingInv(s) && HistoryInv(s) && BuffersInv(s) && MutexInv(s)
    requires s.callback.Holding? && s.ring.count < RAW_BUFFER_COUNT
    requires RingInv(Step(s, CallbackBody))
    ensures HistoryInv(Step(s, CallbackBody))
  {
    QueueGrows(s);
    StoredDeliveries(s.log, s.memory[s.transfers[s.callback.t]]);
    hide Queued, Deliveries, TrailingRejected, BuffersInv, RingInv, MutexInv;
  }

  lemma RejectedDeliveries(log: seq<Event>)
    ensures Deliveries(log + [Rejected]) == Deliveries(log)
    ensures TrailingRejected(log + [Rejected]) == TrailingRejected(log) + 1
    ensures Word(TrailingRejected(log + [Rejected])) == NextDropped(Word(TrailingRejected(log)))
  {
    assert (log + [Rejected])[..|log|] == log;
    NextWord(TrailingRejected(log));
    hide Word, NextDropped;
  }

  lemma NextWord(n: nat)
    ensures Word(n + 1) == NextDropped(Word(n))
  {
  }

  lemma HistoryRejected(s: State)
    requires RingInv(s) && HistoryInv(s)
    requires s.callback.Holding? && s.ring.count == RAW_BUFFER_COUNT
    requires RingInv(Step(s, CallbackBody))
    ensures HistoryInv(Step(s, CallbackBody))
  {
    RejectedDeliveries(s.log);
    HistoryCarried(s, Step(s, CallbackBody));
  }

  /** The device only writes into buffers of transfers in flight, and those are neither in
      the ring nor in the consumer's hands. */
  lemma HistoryWritten(s: State, t: nat, data: int)
    requires RingInv(s) && HistoryInv(s) && BuffersInv(s) && ReaderInv(s)
    requires Enabled(s, DeviceWrites(t, data)) && RingInv(Step(s, DeviceWrites(t, data)))
    ensures HistoryInv(Step(s, DeviceWrites(t, data)))
  {
    var s' := Step(s, DeviceWrites(t, data));
    forall i: nat | i < Pending(s) ensures Entry(s', i) == Entry(s, i) {
      assert s.ring.slots[(s.ring.tail + i) % RAW_BUFFER_COUNT] != s.transfers[t];
    }
    hide Entry;
    assert Queued(s') == Queued(s);
  }

  lemma QueueShrinks(s: State)
    requires RingInv(s) && s.consumer == Taking && RingInv(Step(s, TakeBuffer))
    ensures Queued(s) == InHand(Step(s, TakeBuffer)) + Queued(Step(s, TakeBuffer))
  {
    var s' := Step(s, TakeBuffer);
    OldestTaken(s);
    forall i: nat | i < Pending(s') ensures Entry(s', i) == Entry(s, i + 1) {
      NextEntry(s, s', i);
    }
    hide Entry, InHand, Step, RingInv, Pending, Bounds;
  }

  lemma OldestTaken(s: State)
    requires RingInv(s) && s.consumer == Taking
    ensures var s' := Step(s, TakeBuffer);
            && Bounds(s') && Pending(s') == Pending(s) - 1 && InHand(s') == [Entry(s, 0)]
            && s'.ring.slots == s.ring.slots && s'.ring.drops == s.ring.drops && s'.memory == s.memory
            && s'.ring.tail == (s.ring.tail + 1) % RAW_BUFFER_COUNT
  {
    BoundsInConsumer(s, TakeBuffer);
    hide Bounds;
  }

  lemma NextEntry(s: State, s': State, i: nat)
    requires Bounds(s) && Bounds(s')
    requires s'.ring.slots == s.ring.slots && s'.ring.drops == s.ring.drops && s'.memory == s.memory
    requires s'.ring.tail == (s.ring.tail + 1) % RAW_BUFFER_COUNT
    ensures Entry(s', i) == Entry(s, i + 1)
  {
    NextSlot(s.ring.tail, i);
  }

  lemma HistoryTaken(s: State)
    requires RingInv(s) && HistoryInv(s) && s.consumer == Taking && RingInv(Step(s, TakeBuffer))
    ensures HistoryInv(Step(s, TakeBuffer))
  {
    QueueShrinks(s);
    hide Entry, Deliveries, TrailingRejected, RingInv, Queued;
  }

  lemma HistoryCarried(s: State, s': State)
    requires RingInv(s) && RingInv(s') && HistoryInv(s)
    requires SameView(s, s') && s'.ring.slots == s.ring.slots && s'.ring.drops == s.ring.drops
    requires Pending(s') == Pending(s) && Deliveries(s'.log) == Deliveries(s.log)
    requires s'.ring.dropped == Word(TrailingRejected(s'.log))
    ensures HistoryInv(s')
  {
    forall i: nat | i < Pending(s) ensures Entry(s', i) == Entry(s, i) {
    }
    hide Entry, Deliveries, TrailingRejected;
    assert Queued(s') == Queued(s);
  }

  lemma HistoryUntouched(s: State, a: Action)
    requires RingInv(s) && StopInv(s) && HistoryInv(s) && Enabled(s, a) && RingInv(Step(s, a))
    requires IsQuiet(a)
    ensures HistoryInv(Step(s, a))
  {
    SameViewAfter(s, a);
    assert s.ring.dropped == Word(TrailingRejected(s.log));
    hide HistoryInv, Step, StopInv, SameView;
    HistoryCarried(s, Step(s, a));
  }

  /** A step that touches neither the ring's entries nor the history. */
  predicate IsQuiet(a: Action) {
    !a.CallbackBody? && !a.DeviceWrites? && !a.TakeBuffer? && !a.Start? && !a.FinishCallback?
  }

  predicate SameHistory(s: State, s': State) {
    && SameView(s, s') && s'.ring.slots == s.ring.slots && s'.ring.drops == s.ring.drops
    && Pending(s') == Pending(s) && s'.log == s.log && s'.ring.dropped == s.ring.dropped
  }

  lemma SameViewAfter(s: State, a: Action)
    requires RingInv(s) && Enabled(s, a) && IsQuiet(a)
    ensures SameHistory(s, Step(s, a))
  {
    hide SameHistory, Step, Enabled;
    if IsConsumerStep(a) {
      SameInConsumer(s, a);
    } else {
      SameElsewhere(s, a);
    }
  }

  lemma SameInConsumer(s: State, a: Action)
    requires Bounds(s) && Enabled(s, a) && IsQuiet(a) && IsConsumerStep(a)
    ensures SameHistory(s, Step(s, a))
  {
    hide Bounds, Offer;
  }

  lemma SameElsewhere(s: State, a: Action)
    requires Bounds(s) && Enabled(s, a) && IsQuiet(a) && !IsConsumerStep(a)
    ensures SameHistory(s, Step(s, a))
  {
    hide Bounds, Offer;
  }

  lemma HistoryStarted(s: State)
    requires RingInv(s) && Enabled(s, Start) && RingInv(Step(s, Start))
    ensures HistoryInv(Step(s, Start))
  {
  }

  /** The consumer's callback has seen what was stored: nobody wrote in between. */
  lemma HistoryFinished(s: State, stop: bool)
    requires RingInv(s) && HistoryInv(s) && s.consumer.Delivering? && RingInv(Step(s, FinishCallback(stop)))
    ensures HistoryInv(Step(s, FinishCallback(stop)))
  {
    var s' := Step(s, FinishCallback(stop));
    forall i: nat | i < Pending(s) ensures Entry(s', i) == Entry(s, i) {
    }
    hide Entry, Deliveries, TrailingRejected;
    assert Queued(s') == Queued(s);
    assert s'.delivered == s.delivered + InHand(s);
  }

  lemma HistoryKept(s: State, a: Action)
    requires RingInv(s) && MutexInv(s) && StopInv(s) && BuffersInv(s) && ReaderInv(s) && HistoryInv(s)
    requires Enabled(s, a) && RingInv(Step(s, a))
    ensures HistoryInv(Step(s, a))
  {
    hide RingInv, MutexInv, StopInv, BuffersInv, ReaderInv, HistoryInv, Step;
    match a
    case CallbackBody =>
      CountInRange(s);
      if s.ring.count < RAW_BUFFER_COUNT {
        HistoryStored(s);
      } else {
        HistoryRejected(s);
      }
    case DeviceWrites(t, data) => HistoryWritten(s, t, data);
    case TakeBuffer => HistoryTaken(s);
    case Start => HistoryStarted(s);
    case FinishCallback(stop) => HistoryFinished(s, stop);
    case _ => HistoryUntouched(s, a);
  }

  lemma CountInRange(s: State)
    requires RingInv(s)
    ensures s.ring.count <= RAW_BUFFER_COUNT
  {
  }

  // --------------------------------------------------------- over whole runs

  /** What allocate_transfers leaves: eight slot buffers and one per transfer. */
  predicate IsInitial(s: State) {
    && |s.ring.slots| == |s.ring.drops| == RAW_BUFFER_COUNT
    && s.ring.head == s.ring.tail == s.ring.count == s.ring.dropped == 0
    && |s.inFlight| == |s.transfers| && |s.memory| == RAW_BUFFER_COUNT + |s.transfers|
    && (forall i :: 0 <= i < RAW_BUFFER_COUNT ==> s.ring.slots[i] == i)
    && (forall t :: 0 <= t < |s.transfers| ==> s.transfers[t] == RAW_BUFFER_COUNT + t && !s.inFlight[t])
    && !s.streaming && !s.stop && s.mutex == Free
    && s.consumer == Exited && s.callback == Idle && s.killer == Away
    && s.log == [] && s.delivered == []
  }

  /** The threads and the device take one step. */
  ghost predicate Next(s: State, a: Action, s': State) {
    Bounds(s) && Enabled(s, a) && s' == Step(s, a)
  }

  /** The interleaving run of the threads' steps leads from s0 to s. */
  ghost predicate Leads(run: seq<Action>, s0: State, s: State) {
    if |run| == 0 then s == s0
    else
      var front, last := run[..|run| - 1], run[|run| - 1];
      exists t :: Leads(front, s0, t) && Next(t, last, s)
  }

  ghost predicate Reachable(s: State) {
    exists run, s0 :: IsInitial(s0) && Leads(run, s0, s)
  }

  lemma InitiallyInv(s: State)
    requires IsInitial(s)
    ensures Inv(s)
  {
  }

  lemma InvKept(s: State, a: Action)
    requires Inv(s) && Enabled(s, a)
    ensures Inv(Step(s, a))
  {
    hide RingInv, MutexInv, StopInv, ServeInv, BuffersInv, ReaderInv, HistoryInv, Step, Enabled;
    InBounds(s);
    RingKept(s, a);
    InBounds(Step(s, a));
    MutexKept(s, a);
    StopKept(s, a);
    ServeKept(s, a);
    BuffersKept(s, a);
    ReaderKept(s, a);
    HistoryKept(s, a);
  }

  lemma InBounds(s: State)
    requires RingInv(s)
    ensures Bounds(s) && 0 <= Pending(s)
  {
  }

  lemma {:induction false} RunInv(run: seq<Action>, s0: State, s: State)
    requires IsInitial(s0) && Leads(run, s0, s)
    ensures Inv(s)
  {
    hide Inv, Enabled, Step, IsInitial, Bounds;
    if |run| == 0 {
      InitiallyInv(s0);
    } else {
      var a := run[|run| - 1];
      var t :| Leads(run[..|run| - 1], s0, t) && Next(t, a, s);
      RunInv(run[..|run| - 1], s0, t);
      InvKept(t, a);
    }
  }

  lemma AlwaysInv(s: State)
    requires Reachable(s)
    ensures Inv(s)
  {
    var run, s0 :| IsInitial(s0) && Leads(run, s0, s);
    RunInv(run, s0, s);
  }

  // ----------------------------------------------------------- main consequences

  /** In every reachable state head and tail are apart by the count, less one while the
      consumer is busy, and slots and transfers hold every allocated buffer exactly once. */
  lemma RingConsistent(s: State)
    requires Reachable(s)
    ensures s.ring.Shape() && s.ring.head == (s.ring.tail + Pending(s)) % RAW_BUFFER_COUNT
    ensures HoldsEach(s.ring.slots + s.transfers)
  {
    hide Reachable, HistoryInv, MutexInv, ReaderInv, StopInv, BuffersInv, HoldsEach;
    AlwaysInv(s);
    AllPlaces(s);
  }

  /** Every number below the length stands in one place. */
  predicate HoldsEach(all: seq<nat>) {
    && (forall i, j :: 0 <= i < j < |all| ==> all[i] != all[j])
    && (forall i :: 0 <= i < |all| ==> 0 <= all[i] < |all|)
  }

  lemma AllPlaces(s: State)
    requires Bounds(s) && BuffersInv(s)
    ensures HoldsEach(s.ring.slots + s.transfers)
  {
    EachOnce(s.ring.slots, s.transfers);
    hide BuffersInv;
  }

  lemma EachOnce(a: seq<nat>, b: seq<nat>)
    requires forall i, j :: 0 <= i < j < |a| ==> a[i] != a[j]
    requires forall i, j :: 0 <= i < j < |b| ==> b[i] != b[j]
    requires forall i, j :: 0 <= i < |a| && 0 <= j < |b| ==> a[i] != b[j]
    ensures forall i, j :: 0 <= i < j < |a + b| ==> (a + b)[i] != (a + b)[j]
  {
  }

  /** The consumer has seen a prefix of the stored buffers, in the order of completion,
      each once, with the data the device had left in them. */
  lemma DeliveredInOrder(s: State)
    requires Reachable(s)
    ensures s.delivered <= Deliveries(s.log)
    ensures |Deliveries(s.log)| <= |s.delivered| + RAW_BUFFER_COUNT
  {
    AlwaysInv(s);
    hide Reachable, Deliveries, TrailingRejected, MutexInv, BuffersInv, ReaderInv, StopInv;
    assert Pending(s) + |InHand(s)| <= RAW_BUFFER_COUNT;
  }

  /** While the consumer's callback runs, no step of another thread or of the device
      changes the buffer it reads. */
  lemma ReaderUndisturbed(s: State, a: Action, s': State)
    requires Reachable(s) && Next(s, a, s')
    requires s.consumer.Delivering? && !a.FinishCallback?
    ensures s'.consumer == s.consumer
    ensures |s'.memory| == |s.memory| && s.consumer.buffer < |s.memory|
    ensures s'.memory[s.consumer.buffer] == s.memory[s.consumer.buffer]
    ensures s.consumer.slot < |s'.ring.slots| && s'.ring.slots[s.consumer.slot] == s.consumer.buffer
  {
    AlwaysInv(s);
    InvKept(s, a);
    hide Reachable, HistoryInv, MutexInv, BuffersInv, StopInv;
    UntouchedByDevice(s, a);
  }

  lemma UntouchedByDevice(s: State, a: Action)
    requires Inv(s) && s.consumer.Delivering? && Enabled(s, a)
    ensures a.DeviceWrites? ==> s.transfers[a.t] != s.consumer.buffer
  {
  }

  function SumDropped(d: seq<Delivery>): nat {
    if |d| == 0 then 0 else SumDropped(d[..|d| - 1]) + d[|d| - 1].dropped
  }

  /** No run of rejections takes the 32-bit counter once around. */
  predicate ShortRuns(log: seq<Event>) {
    TrailingRejected(log) < 0x1_0000_0000 && (|log| > 0 ==> ShortRuns(log[..|log| - 1]))
  }

  lemma {:induction false} ShortRunsEverywhere(log: seq<Event>)
    ensures ShortRuns(log) <==> forall i :: 0 <= i <= |log| ==> TrailingRejected(log[..i]) < 0x1_0000_0000
  {
    hide TrailingRejected;
    assert log[..|log|] == log;
    if |log| > 0 {
      var rest := log[..|log| - 1];
      ShortRunsEverywhere(rest);
      assert forall i :: 0 <= i <= |rest| ==> rest[..i] == log[..i];
    }
  }

  /** What is stored, reported as dropped, and pending. */
  function Accounted(log: seq<Event>): nat {
    |Deliveries(log)| + SumDropped(Deliveries(log)) + Word(TrailingRejected(log))
  }

  /** Nothing is counted twice, and every event is counted exactly if the counter never
      goes around. */
  lemma {:induction false} Accounting(log: seq<Event>)
    ensures Accounted(log) <= |log| && (Accounted(log) == |log| <==> ShortRuns(log))
  {
    if |log| > 0 {
      var rest, last := log[..|log| - 1], log[|log| - 1];
      Accounting(rest);
      assert log == rest + [last];
      var n := TrailingRejected(rest);
      match last
      case Stored(data) =>
        StoredDeliveries(rest, data);
        SumMore(Deliveries(rest), Delivery(data, Word(n)));
        SmallWord(0);
      case Rejected =>
        RejectedDeliveries(rest);
        CounterSteps(n);
    } else {
      SmallWord(0);
    }
  }
  lemma SmallWord(n: nat)
    ensures n < 0x1_0000_0000 ==> Word(n) == n
  {
  }

  lemma CounterSteps(n: nat)
    ensures Word(n + 1) <= Word(n) + 1
    ensures n < 0x1_0000_0000 ==> (Word(n + 1) == Word(n) + 1 <==> n + 1 < 0x1_0000_0000)
  {
  }

  lemma SumMore(d: seq<Delivery>, e: Delivery)
    ensures SumDropped(d + [e]) == SumDropped(d) + e.dropped
  {
    assert (d + [e])[..|d|] == d;
  }

  /** Every buffer that completed while streaming is accounted for: stored, reported as
      dropped with a stored one, or still in the drop counter; none is counted twice, and none
      is lost exactly while no 2^32 in a row are dropped. */
  lemma DropsAccounted(s: State)
    requires Reachable(s)
    ensures var counted := |Deliveries(s.log)| + SumDropped(Deliveries(s.log)) + s.ring.dropped;
            counted <= |s.log| && (counted == |s.log| <==> ShortRuns(s.log))
  {
    AlwaysInv(s);
    Accounting(s.log);
    hide Reachable, Deliveries, TrailingRejected, SumDropped, ShortRuns;
  }

  // ------------------------------------------------------------------ progress

  /** While the stream runs the consumer thread is there, and waits only for an empty ring. */
  lemma ConsumerServes(s: State)
    requires Reachable(s)
    ensures s.streaming && !s.stop ==> s.consumer != Leaving && s.consumer != Exited
    ensures s.consumer == AboutToWait || s.consumer == Waiting ==> s.ring.count == 0
  {
    AlwaysInv(s);
    hide Reachable, RingInv, MutexInv, BuffersInv, ReaderInv, StopInv, HistoryInv;
  }

  /** A completion while the stream runs goes on to the ring if its buffer is full, and stops
      the stream if it is not; otherwise it is ignored. */
  lemma EntryDecides(s: State)
    requires Bounds(s) && s.callback.Entered?
    ensures var s' := Step(s, CallbackEntry);
            && (s.streaming && !s.stop && s.callback.full ==>
                  s'.callback == Locking(s.callback.t) && !s'.stop && s'.streaming)
            && (s.streaming && !s.stop && !s.callback.full ==> s'.callback == Idle && s'.stop)
            && (!(s.streaming && !s.stop) ==> s' == s.(callback := Idle))
  {
  }

  /** A client that asks for it, or a transfer that cannot be submitted again, stops the stream;
      otherwise it goes on. */
  lemma StopRequested(s: State, yes: bool)
    requires Bounds(s)
    ensures s.consumer.Delivering? ==>
              Step(s, FinishCallback(yes)).stop == (s.stop || yes)
              && Step(s, FinishCallback(yes)).streaming == s.streaming
    ensures s.callback.Resubmitting? ==>
              Step(s, Resubmit(!yes)).stop == (s.stop || yes) && Step(s, Resubmit(!yes)).streaming == s.streaming
              && Step(s, Resubmit(!yes)).inFlight[s.callback.t] == !yes
  {
  }

  lemma LeadsMore(run: seq<Action>, s0: State, s: State, a: Action)
    requires Leads(run, s0, s) && Bounds(s) && Enabled(s, a)
    ensures Leads(run + [a], s0, Step(s, a))
  {
    assert (run + [a])[..|run|] == run;
    assert Next(s, a, Step(s, a));
    hide Next;
  }

  /** The same ring and memory hold the same entries. */
  lemma SameQueue(s: State, s': State)
    requires Bounds(s) && Bounds(s') && 0 <= Pending(s) == Pending(s')
    requires s'.ring.slots == s.ring.slots && s'.ring.drops == s.ring.drops && s'.ring.tail == s.ring.tail
    requires s'.memory == s.memory
    ensures Queued(s') == Queued(s)
  {
    forall i: nat | i < Pending(s) ensures Entry(s', i) == Entry(s, i) {
    }
    hide Entry;
  }

  /** One step of an uninterrupted run. */
  lemma OneStep(run: seq<Action>, s0: State, s: State, a: Action) returns (s': State)
    requires Leads(run, s0, s) && Inv(s) && Enabled(s, a)
    ensures Bounds(s) && s' == Step(s, a) && Inv(s') && Leads(run + [a], s0, s')
  {
    InBounds(s);
    InvKept(s, a);
    LeadsMore(run, s0, s, a);
    s' := Step(s, a);
  }

  /** The callback's way to the lock. */
  lemma UpToLock(s: State, t: nat) returns (s': State)
    requires Inv(s) && Running(s) && s.callback == Idle && s.mutex == Free && t < |s.inFlight| && s.inFlight[t]
    ensures Leads([Complete(t, true), CallbackEntry, CallbackLocks], s, s') && Inv(s')
    ensures s' == s.(inFlight := s.inFlight[t := false], mutex := ByCallback, callback := Holding(t))
  {
    hide Inv, Leads;
    LeadsNothing(s);
    var s1 := OneStep([], s, s, Complete(t, true));
    var s2 := OneStep([] + [Complete(t, true)], s, s1, CallbackEntry);
    s' := OneStep([] + [Complete(t, true)] + [CallbackEntry], s, s2, CallbackLocks);
    assert [] + [Complete(t, true)] + [CallbackEntry] + [CallbackLocks]
        == [Complete(t, true), CallbackEntry, CallbackLocks];
  }

  lemma LeadsNothing(s: State)
    ensures Leads([], s, s)
  {
  }

  /** Behind the lock: a place in the ring, or one more drop. */
  lemma StoredOrDropped(s: State) returns (s': State)
    requires Inv(s) && s.callback.Holding?
    ensures Bounds(s) && 0 <= Pending(s) && s' == Step(s, CallbackBody) && Inv(s') && 0 <= Pending(s')
    ensures s'.callback == Resubmitting(s.callback.t) && s'.inFlight == s.inFlight && s'.mutex == Free
    ensures s'.streaming == s.streaming && s'.stop == s.stop
    ensures s'.consumer.Delivering? == s.consumer.Delivering? && s'.delivered == s.delivered
    ensures var b := s.transfers[s.callback.t];
            if s.ring.count < 8 then
              && s'.log == s.log + [Stored(s.memory[b])] && s'.ring.dropped == 0
              && Queued(s') == Queued(s) + [Delivery(s.memory[b], s.ring.dropped)]
            else
              && s'.log == s.log + [Rejected] && s'.ring.dropped == (s.ring.dropped + 1) % 0x1_0000_0000
              && Queued(s') == Queued(s)
  {
    InBounds(s);
    InvKept(s, CallbackBody);
    s' := Step(s, CallbackBody);
    InBounds(s');
    if s.ring.count < RAW_BUFFER_COUNT {
      QueueGrows(s);
    } else {
      SameQueue(s, s');
    }
    hide Queued, MutexInv, BuffersInv, ReaderInv, StopInv, ServeInv, HistoryInv, Bounds;
  }

  /** What a transfer that completes full leads to: its data and the pending drops are the
      newest entry, or the drop counter goes up; and the transfer is in flight again. */
  lemma CompletionStored(s: State, t: nat) returns (run: seq<Action>, s': State)
    requires Inv(s) && Running(s) && s.callback == Idle && s.mutex == Free && t < |s.inFlight| && s.inFlight[t]
    ensures Bounds(s) && 0 <= Pending(s) && Bounds(s') && 0 <= Pending(s')
    ensures run == [Complete(t, true), CallbackEntry, CallbackLocks] + [CallbackBody] + [Resubmit(true)]
    ensures Leads(run, s, s') && Inv(s') && s'.inFlight == s.inFlight && Running(s') && s'.callback == Idle
    ensures s'.consumer.Delivering? == s.consumer.Delivering? && s'.delivered == s.delivered
    ensures var b := s.transfers[t];
            if s.ring.count < 8 then
              && s'.log == s.log + [Stored(s.memory[b])] && s'.ring.dropped == 0
              && Queued(s') == Queued(s) + [Delivery(s.memory[b], s.ring.dropped)]
            else
              && s'.log == s.log + [Rejected] && s'.ring.dropped == (s.ring.dropped + 1) % 0x1_0000_0000
              && Queued(s') == Queued(s)
  {
    hide Inv, Leads, Queued;
    InvBounds(s);
    var s3 := UpToLock(s, t);
    InvBounds(s3);
    SameQueue(s, s3);
    var s4 := StoredOrDropped(s3);
    LeadsMore([Complete(t, true), CallbackEntry, CallbackLocks], s, s3, CallbackBody);
    run := [Complete(t, true), CallbackEntry, CallbackLocks] + [CallbackBody];
    s' := OneStep(run, s, s4, Resubmit(true));
    run := run + [Resubmit(true)];
    InvBounds(s');
    SameQueue(s4, s');
  }

  lemma InvBounds(s: State)
    requires Inv(s)
    ensures Bounds(s) && 0 <= Pending(s)
  {
  }

  /** The step a consumer makes next. */
  function Coming(c: Consumer): (a: Action)
    ensures IsConsumerStep(a)
  {
    match c
    case Checking => CheckOuter
    case InnerChecking => CheckInner
    case AboutToWait => EnterWait
    case Waiting => SpuriousWake
    case Deciding => Decide
    case Taking => TakeBuffer
    case Delivering(_, _, _) => FinishCallback(false)
    case Leaving => Leave
    case _ => ConsumerLocks
  }

  /** What leads to the next delivery: the consumer's own steps, behind the callback's locked
      section if that is in the way. */
  function Serving(s: State): (a: Action)
    ensures IsConsumerStep(a) || a == CallbackBody
  {
    if s.mutex == ByCallback && s.consumer in {Starting, Waking, Relocking} then CallbackBody else Coming(s.consumer)
  }

  function ServingRank(s: State): nat {
    match s.consumer
    case Delivering(_, _, _) => 0
    case Taking => 2
    case Deciding => 4
    case InnerChecking => 6
    case Checking => 8
    case _ => if s.mutex == ByCallback then 11 else 10
  }

  /** The stream runs, and the consumer has a buffer or the ring has one for it. */
  predicate MoreToDeliver(s: State) {
    Running(s) && (s.consumer.Delivering? || Pending(s) > 0)
  }

  lemma ServingStep(s: State)
    requires Inv(s) && MoreToDeliver(s) && !s.consumer.Delivering?
    ensures Bounds(s) && Enabled(s, Serving(s))
    ensures var s' := Step(s, Serving(s));
            && MoreToDeliver(s') && ServingRank(s') < ServingRank(s) && s'.delivered == s.delivered
            && (s'.log == s.log || s'.log == s.log + [Rejected] || exists d :: s'.log == s.log + [Stored(d)])
  {
    hide BuffersInv, ReaderInv, HistoryInv, Bounds;
    InBounds(s);
    if Serving(s) == CallbackBody {
      var b := s.transfers[s.callback.t];
      assert Step(s, CallbackBody).log == s.log + [if s.ring.count < 8 then Stored(s.memory[b]) else Rejected];
    }
  }

  lemma LogGrows(log: seq<Event>, e: Event)
    ensures Deliveries(log) <= Deliveries(log + [e])
  {
    match e
    case Stored(data) => StoredDeliveries(log, data);
    case Rejected => RejectedDeliveries(log);
  }

  /** Along the way, with the run so far. */
  lemma {:induction false} DeliverNext(run: seq<Action>, s0: State, s: State) returns (all: seq<Action>, s': State)
    requires Leads(run, s0, s) && Inv(s) && MoreToDeliver(s)
    requires forall a :: a in run ==> IsConsumerStep(a) || a == CallbackBody
    ensures Leads(all, s0, s') && Inv(s')
    ensures forall a :: a in all ==> IsConsumerStep(a) || a == CallbackBody
    ensures |s'.delivered| == |s.delivered| + 1 && Deliveries(s.log) <= Deliveries(s'.log)
    decreases ServingRank(s)
  {
    hide Inv, Leads, Deliveries, MoreToDeliver, ServingRank, IsConsumerStep, Step, Enabled;
    if s.consumer.Delivering? {
      FinishEnabled(s);
      s' := OneStep(run, s0, s, FinishCallback(false));
      all := run + [FinishCallback(false)];
      FinishDelivers(s);
    } else {
      ServingStep(s);
      var t := OneStep(run, s0, s, Serving(s));
      var more := run + [Serving(s)];
      if t.log != s.log {
        var e :| t.log == s.log + [e];
        LogGrows(s.log, e);
      }
      all, s' := DeliverNext(more, s0, t);
    }
  }

  lemma FinishEnabled(s: State)
    requires s.consumer.Delivering?
    ensures Enabled(s, FinishCallback(false)) && IsConsumerStep(FinishCallback(false))
  {
  }

  lemma FinishDelivers(s: State)
    requires Bounds(s) && s.consumer.Delivering?
    ensures Enabled(s, FinishCallback(false))
    ensures var s' := Step(s, FinishCallback(false)); |s'.delivered| == |s.delivered| + 1 && s'.log == s.log
  {
  }

  /** Nothing stored stays behind: from every reachable state of a running stream with a buffer
      stored, the consumer's steps lead to its callback having seen the oldest one. */
  lemma StoredIsDelivered(s: State) returns (run: seq<Action>, s': State)
    requires Reachable(s) && Running(s)
    ensures Bounds(s) && 0 <= Pending(s)
    ensures forall a :: a in run ==> IsConsumerStep(a) || a == CallbackBody
    ensures Leads(run, s, s')
    ensures s'.delivered == s.delivered + (InHand(s) + Queued(s))[..if InHand(s) + Queued(s) == [] then 0 else 1]
  {
    AlwaysInv(s);
    InvBounds(s);
    hide Inv, Leads, Reachable;
    LeadsNothing(s);
    run, s' := [], s;
    if InHand(s) + Queued(s) != [] {
      run, s' := DeliverNext([], s, s);
      HistoryIs(s);
      HistoryIs(s');
      hide InHand, Queued, Deliveries;
      OneMore(s.delivered, InHand(s) + Queued(s), Deliveries(s.log), s'.delivered, Deliveries(s'.log));
    }
  }

  lemma HistoryIs(s: State)
    requires Inv(s)
    ensures Bounds(s) && 0 <= Pending(s)
    ensures Deliveries(s.log) == s.delivered + (InHand(s) + Queued(s))
  {
    hide Deliveries, InHand, Queued, TrailingRejected;
    assert s.delivered + InHand(s) + Queued(s) == s.delivered + (InHand(s) + Queued(s));
  }

  lemma OneMore(old0: seq<Delivery>, rest: seq<Delivery>, all: seq<Delivery>, new0: seq<Delivery>, more: seq<Delivery>)
    requires all == old0 + rest && rest != [] && all <= more && new0 <= more && |new0| == |old0| + 1
    ensures new0 == old0 + rest[..1]
  {
    assert more[..|new0|] == new0 && more[..|all|] == all;
    assert all[..|new0|] == old0 + rest[..1];
  }

  /** Steps the consumer still has to make once it must stop. */
  function StopRank(c: Consumer): nat {
    match c
    case Exited => 0
    case Leaving => 1
    case Checking => 2
    case Deciding => 2
    case InnerChecking => 3
    case Starting => 3
    case Relocking => 3
    case Waking => 4
    case Delivering(_, _, _) => 4
    case _ => 5
  }

  /** No wakeup is lost: after the killer's signal the consumer is not waiting, never
      waits or takes a buffer again, and each of its steps brings it closer to its exit. */
  lemma SignalledConsumerStops(s: State, a: Action, s': State)
    requires Reachable(s) && Next(s, a, s')
    requires s.killer == Signalled || s.killer == Joining
    ensures s.consumer != AboutToWait && s.consumer != Waiting && s.consumer != Taking
    ensures a != FinishKill ==> s'.killer == Signalled || s'.killer == Joining
    ensures IsConsumerStep(a) ==> StopRank(s'.consumer) < StopRank(s.consumer)
    ensures !IsConsumerStep(a) ==> s'.consumer == s.consumer
    ensures s'.consumer.Delivering? ==> s'.consumer == s.consumer
  {
    AlwaysInv(s);
    hide Reachable, HistoryInv, BuffersInv, ReaderInv, MutexInv, RingInv, Step;
    if IsConsumerStep(a) {
      SignalledStep(s, a);
    } else {
      OtherStep(s, a);
    }
  }

  lemma SignalledStep(s: State, a: Action)
    requires StopInv(s) && Bounds(s) && Enabled(s, a) && IsConsumerStep(a)
    requires s.killer == Signalled || s.killer == Joining
    ensures StopRank(Step(s, a).consumer) < StopRank(s.consumer)
    ensures Step(s, a).killer == s.killer && !Step(s, a).consumer.Delivering?
  {
    hide Bounds, Offer;
  }

  lemma OtherStep(s: State, a: Action)
    requires StopInv(s) && Bounds(s) && Enabled(s, a) && !IsConsumerStep(a)
    requires s.killer == Signalled || s.killer == Joining
    ensures Step(s, a).consumer == s.consumer
    ensures a != FinishKill ==> Step(s, a).killer == Signalled || Step(s, a).killer == Joining
  {
    hide Bounds, Offer;
  }

  lemma ComingEnabled(s: State)
    requires s.consumer != Exited
    ensures Enabled(s, Coming(s.consumer)) || (s.consumer in {Starting, Waking, Relocking} && s.mutex != Free)
  {
  }

  /** And it can always make such a step, unless the completion callback is inside the
      mutex, which it can leave. */
  lemma SignalledConsumerNotStuck(s: State)
    requires Reachable(s) && s.killer == Joining && s.consumer != Exited
    ensures (exists a :: IsConsumerStep(a) && Enabled(s, a)) || (s.mutex == ByCallback && Enabled(s, CallbackBody))
  {
    AlwaysInv(s);
    ComingEnabled(s);
    hide Reachable, HistoryInv, BuffersInv, ReaderInv, RingInv, Coming;
  }

  /** What brings a stream to its end: the killer, the callback, the consumer, whoever can. */
  function Winding(s: State): Action {
    if s.killer == Away then BeginKill
    else match s.callback
      case Entered(_, _) => CallbackEntry
      case Holding(_) => CallbackBody
      case Resubmitting(_) => Resubmit(false)
      case _ =>
        if s.mutex == ByConsumer then Coming(s.consumer)
        else if s.killer == Signalling then Signal
        else if s.killer == Signalled then KillerUnlocks
        else if s.callback.Locking? then CallbackLocks
        else if s.killer == Cancelling then KillerLocks
        else if s.consumer != Exited then Coming(s.consumer)
        else FinishKill
  }

  function WindingRank(s: State): nat {
    (match s.killer case Away => 5 case Cancelling => 4 case Signalling => 3 case Signalled => 2 case Joining => 1) +
    (match s.callback case Locking(_) => 3 case Holding(_) => 2 case Idle => 0 case _ => 1) +
    match s.consumer
    case Exited => 0
    case Leaving => 1
    case Deciding => 2
    case Checking => 2
    case InnerChecking => 3
    case Starting => 3
    case Relocking => 3
    case Waking => 4
    case Delivering(_, _, _) => 4
    case Taking => 5
    case Waiting => 5
    case AboutToWait => 6
  }

  /** The callback or the killer can go on at once. */
  predicate AtOnce(s: State) {
    s.killer == Away || s.callback.Entered? || s.callback.Holding? || s.callback.Resubmitting?
  }

  lemma WindingAtOnce(s: State)
    requires Inv(s) && s.streaming && AtOnce(s)
    ensures Bounds(s) && Enabled(s, Winding(s))
    ensures var s' := Step(s, Winding(s));
            if Winding(s) == FinishKill then
              !s'.streaming && !s'.stop && s'.consumer == Exited && s'.callback == Idle && s'.mutex == Free
            else s'.streaming && WindingRank(s') < WindingRank(s)
  {
    hide BuffersInv, ReaderInv, HistoryInv, Bounds;
    InBounds(s);
  }

  lemma WindingInTurn(s: State)
    requires Inv(s) && s.streaming && !AtOnce(s)
    ensures Bounds(s) && Enabled(s, Winding(s))
    ensures var s' := Step(s, Winding(s));
            if Winding(s) == FinishKill then
              !s'.streaming && !s'.stop && s'.consumer == Exited && s'.callback == Idle && s'.mutex == Free
            else s'.streaming && WindingRank(s') < WindingRank(s)
  {
    hide BuffersInv, ReaderInv, HistoryInv, Bounds, Offer;
    InBounds(s);
  }

  lemma WindingStep(s: State)
    requires Inv(s) && s.streaming
    ensures Bounds(s) && Enabled(s, Winding(s))
    ensures var s' := Step(s, Winding(s));
            if Winding(s) == FinishKill then
              !s'.streaming && !s'.stop && s'.consumer == Exited && s'.callback == Idle && s'.mutex == Free
            else s'.streaming && WindingRank(s') < WindingRank(s)
  {
    if AtOnce(s) {
      WindingAtOnce(s);
    } else {
      WindingInTurn(s);
    }
    hide *;
  }

  lemma {:induction false} EndsFrom(run: seq<Action>, s0: State, s: State) returns (all: seq<Action>, s': State)
    requires Leads(run, s0, s) && Inv(s) && s.streaming
    ensures Leads(all, s0, s') && Inv(s') && !s'.streaming && !s'.stop
    ensures s'.consumer == Exited && s'.callback == Idle && s'.mutex == Free
    decreases WindingRank(s)
  {
    hide Inv, Leads, WindingRank, Step, Enabled, Winding;
    WindingStep(s);
    var t := OneStep(run, s0, s, Winding(s));
    if Winding(s) == FinishKill {
      all, s' := run + [Winding(s)], t;
    } else {
      all, s' := EndsFrom(run + [Winding(s)], s0, t);
    }
  }

  /** Every stream can be brought to its end, with both threads gone and the flags down. */
  lemma StreamCanEnd(s: State) returns (run: seq<Action>, s': State)
    requires Reachable(s) && s.streaming
    ensures Leads(run, s, s') && !s'.streaming && !s'.stop
    ensures s'.consumer == Exited && s'.callback == Idle && s'.mutex == Free
  {
    AlwaysInv(s);
    LeadsNothing(s);
    run, s' := EndsFrom([], s, s);
    hide Inv, Reachable, Leads;
  }

  /** A new stream begins with an empty ring, all transfers in flight and no history, and it
      runs. */
  lemma StreamBegins(s: State)
    requires Bounds(s) && Enabled(s, Start)
    ensures var s' := Step(s, Start);
            && Running(s') && s'.consumer == Starting && s'.log == [] && s'.delivered == []
            && s'.ring.count == s'.ring.dropped == 0
            && forall t :: 0 <= t < |s'.inFlight| ==> s'.inFlight[t]
  {
  }

  lemma {:induction false} LeadsConcat(a: seq<Action>, b: seq<Action>, s: State, t: State, u: State)
    requires Leads(a, s, t) && Leads(b, t, u)
    ensures Leads(a + b, s, u)
    decreases |b|
  {
    hide *;
    if b == [] {
      assert a + b == a;
      SameEnd(t, u);
    } else {
      var front, last := b[..|b| - 1], b[|b| - 1];
      var v := LastLed(b, t, u);
      LeadsConcat(a, front, s, t, v);
      LeadsMore(a + front, s, v, last);
      assert a + front + [last] == a + b;
    }
  }

  lemma SameEnd(t: State, u: State)
    requires Leads([], t, u)
    ensures t == u
  {
  }

  lemma LastLed(b: seq<Action>, t: State, u: State) returns (v: State)
    requires b != [] && Leads(b, t, u)
    ensures Leads(b[..|b| - 1], t, v)
    ensures Bounds(v) && Enabled(v, b[|b| - 1]) && u == Step(v, b[|b| - 1])
  {
    hide Bounds, Enabled, Step;
    v :| Leads(b[..|b| - 1], t, v) && Next(v, b[|b| - 1], u);
  }

  /** What the device writes into a transfer's buffer is there. */
  lemma DeviceFills(s: State, t: nat, data: int)
    requires Bounds(s) && Enabled(s, DeviceWrites(t, data))
    ensures var s' := Step(s, DeviceWrites(t, data));
            && s'.memory[s.transfers[t]] == data && s' == s.(memory := s'.memory) && |s'.memory| == |s.memory|
            && forall b :: 0 <= b < |s.memory| && b != s.transfers[t] ==> s'.memory[b] == s.memory[b]
  {
  }

  /** A whole session's beginning: a stream starts, the device fills a buffer, it completes, and
      the client's callback sees it, with no drops. */
  lemma FirstDelivery(s0: State, t: nat, data: int) returns (run: seq<Action>, s: State)
    requires IsInitial(s0) && t < |s0.transfers|
    ensures Leads(run, s0, s) && Reachable(s) && s.delivered == [Delivery(data, 0)]
  {
    hide IsInitial, Leads, Inv, Queued, InHand, Reachable;
    InitiallyInv(s0);
    InitialStarts(s0);
    LeadsNothing(s0);
    var s1 := OneStep([], s0, s0, Start);
    StreamBegins(s0);
    var s2 := OneStep([] + [Start], s0, s1, DeviceWrites(t, data));
    DeviceFills(s1, t, data);
    var more, s3 := CompletionStored(s2, t);
    LeadsConcat([] + [Start] + [DeviceWrites(t, data)], more, s0, s2, s3);
    ReachedBy([] + [Start] + [DeviceWrites(t, data)] + more, s0, s3);
    var last, s4 := StoredIsDelivered(s3);
    run, s := [] + [Start] + [DeviceWrites(t, data)] + more + last, s4;
    LeadsConcat([] + [Start] + [DeviceWrites(t, data)] + more, last, s0, s3, s4);
    ReachedBy(run, s0, s);
    EmptyQueue(s2);
    OnlyOne(s3, Delivery(data, 0));
  }

  lemma InitialStarts(s: State)
    requires IsInitial(s)
    ensures Bounds(s) && Enabled(s, Start) && s.mutex == Free && |s.inFlight| == |s.transfers|
  {
  }

  lemma ReachedBy(run: seq<Action>, s0: State, s: State)
    requires IsInitial(s0) && Leads(run, s0, s)
    ensures Reachable(s)
  {
  }

  lemma EmptyQueue(s: State)
    requires Bounds(s) && Pending(s) == 0
    ensures Queued(s) == []
  {
  }

  lemma OnlyOne(s: State, d: Delivery)
    requires Bounds(s) && 0 <= Pending(s) && !s.consumer.Delivering? && Queued(s) == [d]
    ensures (InHand(s) + Queued(s))[..if InHand(s) + Queued(s) == [] then 0 else 1] == [d]
  {
    assert InHand(s) == [];
    hide Queued;
  }
}
