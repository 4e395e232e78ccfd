/** Cancelling a USB transfer from another thread. */
module UsbCancel {
  import opened Errors

  datatype Option<T> = None | Some(value: T)

  /** What usb_cancel asks libusb to cancel. */
  function ToCancel(transfer: Option<nat>, cancelled: bool): Option<nat> {
    if !cancelled then transfer else None
  }

  // ------------------------------------------------------------- the threads

  datatype Owner = Free | ByIo | ByCanceller

  /** The thread inside usb_sync_transfer. From Checking to Recording, and in Unrecording, it
      holds the lock. */
  datatype Io =
    | Idle
    | Checking
    | Submitting
    | Recording(t: nat)
    | Refused
    | Handling(t: nat)
    | Relocking(t: nat)
    | Unrecording(t: nat)
    | Freeing(t: nat)

  /** A thread inside usb_cancel; the lock lets in one at a time. */
  datatype Canceller = Away | Testing | Marking

  datatype Transfer = Transfer(requested: bool, completed: bool, freed: bool)

  datatype State = State(
    lock: Owner,
    cancelled: bool,
    recorded: Option<nat>,
    io: Io,
    canceller: Canceller,
    transfers: seq<Transfer>)

  /** Open is the assignment at the top of usb_open, which does not take this lock. */
  datatype Action =
    | Open
    | IoLocks
    | Check
    | Submit(ok: bool)
    | Record
    | ReportRefusal
    | Complete(t: nat)
    | HandlingFails
    | SeeCompletion
    | IoRelocks
    | Unrecord
    | Release
    | CancelLocks
    | Test
    | Mark

  predicate Bounds(s: State) {
    && (s.recorded.Some? ==> s.recorded.value < |s.transfers|)
    && (InCall(s).Some? ==> InCall(s).value < |s.transfers|)
  }

  /** The transfer the I/O thread works on. */
  function InCall(s: State): Option<nat> {
    match s.io
    case Recording(t) => Some(t)
    case Handling(t) => Some(t)
    case Relocking(t) => Some(t)
    case Unrecording(t) => Some(t)
    case Freeing(t) => Some(t)
    case _ => None
  }

  predicate Enabled(s: State, a: Action)
    requires Bounds(s)
  {
    match a
    case Open => true
    case IoLocks => s.io == Idle && s.lock == Free
    case Check => s.io == Checking
    case Submit(_) => s.io == Submitting
    case Record => s.io.Recording?
    case ReportRefusal => s.io == Refused
    case Complete(t) => t < |s.transfers| && !s.transfers[t].freed
    case HandlingFails => s.io.Handling? && !s.transfers[s.io.t].completed
    case SeeCompletion => s.io.Handling? && s.transfers[s.io.t].completed
    case IoRelocks => s.io.Relocking? && s.lock == Free
    case Unrecord => s.io.Unrecording?
    case Release => s.io.Freeing?
    case CancelLocks => s.canceller == Away && s.lock == Free
    case Test => s.canceller == Testing
    case Mark => s.canceller == Marking
  }

  function Requested(ts: seq<Transfer>, t: Option<nat>): seq<Transfer>
    requires t.Some? ==> t.value < |ts|
  {
    if t.Some? then ts[t.value := ts[t.value].(requested := true)] else ts
  }

  function Step(s: State, a: Action): State
    requires Bounds(s) && Enabled(s, a)
  {
    match a
    case Open => s.(cancelled := false)
    case IoLocks => s.(lock := ByIo, io := Checking)
    case Check => s.(io := if s.cancelled then Refused else Submitting)
    case Submit(ok) =>
      if ok then s.(io := Recording(|s.transfers|), transfers := s.transfers + [Transfer(false, false, false)])
      else s.(io := Refused, transfers := s.transfers + [Transfer(false, false, true)])
    case Record => s.(recorded := Some(s.io.t), io := Handling(s.io.t), lock := Free)
    case ReportRefusal => s.(io := Idle, lock := Free)
    case Complete(t) => s.(transfers := s.transfers[t := s.transfers[t].(completed := true)])
    case HandlingFails => s.(transfers := Requested(s.transfers, Some(s.io.t)))
    case SeeCompletion => s.(io := Relocking(s.io.t))
    case IoRelocks => s.(lock := ByIo, io := Unrecording(s.io.t))
    case Unrecord => s.(recorded := None, io := Freeing(s.io.t), lock := Free)
    case Release => s.(io := Idle, transfers := s.transfers[s.io.t := s.transfers[s.io.t].(freed := true)])
    case CancelLocks => s.(lock := ByCanceller, canceller := Testing)
    case Test =>
      s.(canceller := Marking, transfers := Requested(s.transfers, ToCancel(s.recorded, s.cancelled)))
    case Mark => s.(canceller := Away, cancelled := true, lock := Free)
  }

  /** The transfer an action hands to libusb. */
  function Touched(s: State, a: Action): Option<nat>
    requires Bounds(s) && Enabled(s, a)
  {
    match a
    case HandlingFails => Some(s.io.t)
    case Release => Some(s.io.t)
    case Test => ToCancel(s.recorded, s.cancelled)
    case _ => None
  }

  // ------------------------------------------------------------ what always holds

  predicate LockInv(s: State) {
    && (s.lock == ByIo <==> s.io in {Checking, Submitting, Refused} || s.io.Recording? || s.io.Unrecording?)
    && (s.lock == ByCanceller <==> s.canceller != Away)
  }

  /** A transfer is recorded while it is being waited for, and is not freed before it has
      been taken off the record. */
  predicate RecordInv(s: State)
    requires Bounds(s)
  {
    && (s.recorded.Some? <==> s.io.Handling? || s.io.Relocking? || s.io.Unrecording?)
    && (s.recorded.Some? ==> s.recorded == InCall(s))
    && (InCall(s).Some? ==> !s.transfers[InCall(s).value].freed)
    && (s.io.Relocking? || s.io.Unrecording? || s.io.Freeing? ==> s.transfers[s.io.t].completed)
  }

  /** Cancelled means requested. */
  predicate CancelInv(s: State)
    requires Bounds(s)
  {
    && (s.recorded.Some? && (s.cancelled || s.canceller == Marking) ==> s.transfers[s.recorded.value].requested)
    && (s.io == Submitting || s.io.Recording? ==> !s.cancelled)
  }

  /** What the I/O thread does not work on is freed, and nothing else is. */
  predicate FreedInv(s: State) {
    forall t :: 0 <= t < |s.transfers| ==> (s.transfers[t].freed <==> InCall(s) != Some(t))
  }

  predicate Inv(s: State) {
    Bounds(s) && LockInv(s) && RecordInv(s) && CancelInv(s) && FreedInv(s)
  }

  predicate Init(s: State) {
    s.lock == Free && !s.cancelled && s.recorded == None && s.io == Idle && s.canceller == Away && s.transfers == []
  }

  lemma LocksKept(s: State, a: Action)
    requires Inv(s) && Enabled(s, a)
    ensures var s' := Step(s, a); Bounds(s') && LockInv(s') && RecordInv(s') && CancelInv(s')
  {
  }

  lemma FreedKept(s: State, a: Action)
    requires Inv(s) && Enabled(s, a)
    ensures FreedInv(Step(s, a))
  {
    hide CancelInv, LockInv;
  }

  lemma InvKept(s: State, a: Action)
    requires Inv(s) && Enabled(s, a)
    ensures Inv(Step(s, a))
  {
    LocksKept(s, a);
    FreedKept(s, a);
    hide Step, Enabled, LockInv, RecordInv, CancelInv, FreedInv;
  }

  /** A run: every action is enabled where it happens. */
  ghost predicate Run(states: seq<State>, actions: seq<Action>) {
    && |states| == |actions| + 1 && Init(states[0])
    && forall i :: 0 <= i < |actions| ==>
         Bounds(states[i]) && Enabled(states[i], actions[i]) && states[i + 1] == Step(states[i], actions[i])
  }

  lemma {:induction false} RunInv(states: seq<State>, actions: seq<Action>, i: nat)
    requires Run(states, actions) && i < |states|
    ensures Inv(states[i])
    decreases i
  {
    if i > 0 {
      RunInv(states, actions, i - 1);
      InvKept(states[i - 1], actions[i - 1]);
    }
    hide Step;
  }

  // ---------------------------------------------------------------- results

  /** In every interleaving: a cancelled context has asked to cancel the transfer it waits for. */
  lemma NoMissedCancellation(states: seq<State>, actions: seq<Action>, i: nat)
    requires Run(states, actions) && i < |states| && states[i].cancelled
    ensures states[i].io.Handling? ==>
              states[i].io.t < |states[i].transfers| && states[i].transfers[states[i].io.t].requested
  {
    RunInv(states, actions, i);
  }

  /** Neither usb_cancel nor the I/O thread hands libusb a transfer that was freed; a transfer
      is freed once, and not before it has completed. */
  lemma NoUseAfterFree(states: seq<State>, actions: seq<Action>, i: nat)
    requires Run(states, actions) && i < |actions|
    ensures Bounds(states[i]) && Enabled(states[i], actions[i])
    ensures var t := Touched(states[i], actions[i]);
            t.Some? ==> t.value < |states[i].transfers| && !states[i].transfers[t.value].freed
                        && (actions[i] == Release ==> states[i].transfers[t.value].completed)
  {
    RunInv(states, actions, i);
    hide Step;
  }

  /** No transfer leaks: at every moment exactly the one in the call is not freed. */
  lemma FreedExactly(states: seq<State>, actions: seq<Action>, i: nat, t: nat)
    requires Run(states, actions) && i < |states| && t < |states[i].transfers|
    ensures states[i].transfers[t].freed <==> InCall(states[i]) != Some(t)
  {
    RunInv(states, actions, i);
  }

  /** When waiting for events fails the transfer is cancelled, so that waiting ends. */
  lemma FailureCancels(s: State)
    requires Inv(s) && s.io.Handling? && Enabled(s, HandlingFails)
    ensures Step(s, HandlingFails).transfers[s.io.t].requested && Step(s, HandlingFails).io == s.io
  {
  }

  /** Once cancelled, no transfer is submitted until the next usb_open. */
  lemma {:induction false} NoSubmitAfterCancel(states: seq<State>, actions: seq<Action>, i: nat, j: nat)
    requires Run(states, actions) && i <= j < |states| && states[i].cancelled
    requires forall k :: i <= k < j ==> actions[k] != Open
    ensures states[j].cancelled
    ensures j < |actions| ==> !actions[j].Submit?
    decreases j
  {
    if i < j {
      NoSubmitAfterCancel(states, actions, i, j - 1);
    }
    RunInv(states, actions, j);
  }

  /** actions lead from s to s'. */
  ghost predicate Leads(s: State, actions: seq<Action>, s': State)
    decreases |actions|
  {
    if actions == [] then s == s'
    else Bounds(s) && Enabled(s, actions[0]) && Leads(Step(s, actions[0]), actions[1..], s')
  }

  lemma LeadsFirst(s: State, a: Action, actions: seq<Action>, s': State)
    requires Bounds(s) && Enabled(s, a) && Leads(Step(s, a), actions, s')
    ensures Leads(s, [a] + actions, s')
  {
    assert ([a] + actions)[1..] == actions;
    hide Step, Enabled, Bounds;
  }

  lemma LeadsTwo(s: State, a: Action, b: Action)
    requires Bounds(s) && Enabled(s, a) && Bounds(Step(s, a)) && Enabled(Step(s, a), b)
    ensures Leads(s, [a, b], Step(Step(s, a), b))
  {
    var t := Step(s, a);
    assert Leads(Step(t, b), [], Step(t, b));
    hide Step, Enabled, Bounds;
    LeadsFirst(t, b, [], Step(t, b));
    LeadsFirst(s, a, [b], Step(t, b));
    assert [a] + [b] == [a, b];
  }

  // ------------------------------------------------------- the locked sections

  /** The locked section of usb_cancel, uninterrupted. */
  lemma CancelSection(s: State) returns (after: State)
    requires Inv(s) && s.lock == Free
    ensures Leads(s, [CancelLocks, Test, Mark], after) && Inv(after)
    ensures after == s.(cancelled := true, transfers := Requested(s.transfers, ToCancel(s.recorded, s.cancelled)))
  {
    InvKept(s, CancelLocks);
    var testing := Step(s, CancelLocks);
    InvKept(testing, Test);
    var marking := Step(testing, Test);
    InvKept(marking, Mark);
    after := Step(marking, Mark);
    LeadsTwo(testing, Test, Mark);
    hide Step, Inv;
    LeadsFirst(s, CancelLocks, [Test, Mark], after);
    assert [CancelLocks] + [Test, Mark] == [CancelLocks, Test, Mark];
  }

  /** The way through the first locked section of usb_sync_transfer; ok is libusb's answer. */
  function BeginPath(cancelled: bool, ok: bool): seq<Action> {
    if cancelled then [IoLocks, Check, ReportRefusal]
    else [IoLocks, Check, Submit(ok), if ok then Record else ReportRefusal]
  }

  /** That section, uninterrupted: what was submitted is on record before the lock is given
      back, and a cancelled context submits nothing. */
  lemma BeginSection(s: State, ok: bool) returns (after: State)
    requires Inv(s) && s.lock == Free && s.io == Idle
    ensures Leads(s, BeginPath(s.cancelled, ok), after) && Inv(after)
    ensures after.lock == Free && after.cancelled == s.cancelled && after.canceller == s.canceller
    ensures after.recorded == if !s.cancelled && ok then Some(|s.transfers|) else None
    ensures after.io == if !s.cancelled && ok then Handling(|s.transfers|) else Idle
    ensures after.transfers == if s.cancelled then s.transfers else s.transfers + [Transfer(false, false, !ok)]
  {
    InvKept(s, IoLocks);
    var checking := Step(s, IoLocks);
    InvKept(checking, Check);
    var checked := Step(checking, Check);
    if s.cancelled {
      InvKept(checked, ReportRefusal);
      after := Step(checked, ReportRefusal);
      LeadsTwo(checking, Check, ReportRefusal);
      LeadsFirst(s, IoLocks, [Check, ReportRefusal], after);
      assert [IoLocks] + [Check, ReportRefusal] == BeginPath(s.cancelled, ok);
    } else {
      var last := if ok then Record else ReportRefusal;
      after := SubmitSection(checked, ok);
      LeadsFirst(checking, Check, [Submit(ok), last], after);
      LeadsFirst(s, IoLocks, [Check] + [Submit(ok), last], after);
      assert [IoLocks] + ([Check] + [Submit(ok), last]) == BeginPath(s.cancelled, ok);
    }
  }

  lemma SubmitSection(s: State, ok: bool) returns (after: State)
    requires Inv(s) && s.io == Submitting
    ensures Leads(s, [Submit(ok), if ok then Record else ReportRefusal], after) && Inv(after)
    ensures var t := |s.transfers|;
            after == s.(io := if ok then Handling(t) else Idle, lock := Free,
                        recorded := if ok then Some(t) else s.recorded,
                        transfers := s.transfers + [Transfer(false, false, !ok)])
  {
    var last := if ok then Record else ReportRefusal;
    InvKept(s, Submit(ok));
    var submitted := Step(s, Submit(ok));
    InvKept(submitted, last);
    after := Step(submitted, last);
    LeadsTwo(s, Submit(ok), last);
  }

  /** The second locked section, uninterrupted: behind it only the I/O thread's own release
      still touches the transfer. */
  lemma EndSection(s: State) returns (after: State)
    requires Inv(s) && s.lock == Free && s.io.Relocking?
    ensures Leads(s, [IoRelocks, Unrecord], after) && Inv(after)
    ensures after == s.(recorded := None, io := Freeing(s.io.t))
    ensures forall a :: Enabled(after, a) && Touched(after, a) == Some(s.io.t) ==> a == Release
  {
    InvKept(s, IoRelocks);
    var unrecording := Step(s, IoRelocks);
    InvKept(unrecording, Unrecord);
    after := Step(unrecording, Unrecord);
    LeadsTwo(s, IoRelocks, Unrecord);
  }

  /** The fields of iio_usb_io_context that the lock guards. Each method is one locked
      section; the steps of the protocol lead to the same fields. */
  class IoContext {
    var cancelled: bool
    var transfer: Option<nat>

    constructor ()
      ensures !cancelled && transfer == None
    {
      cancelled, transfer := false, None;
    }

    ghost predicate Shows(s: State)
      reads this
    {
      cancelled == s.cancelled && transfer == s.recorded
    }

    /** usb_cancel; asked is the transfer libusb is asked to cancel. */
    method Cancel(ghost s: State) returns (asked: Option<nat>, ghost after: State)
      requires Inv(s) && s.lock == Free && Shows(s)
      modifies this`cancelled
      ensures cancelled && asked == if old(cancelled) then None else transfer
      ensures Leads(s, [CancelLocks, Test, Mark], after) && Inv(after) && Shows(after)
      ensures after.transfers == Requested(s.transfers, asked)
      ensures after.io.Handling? ==> after.transfers[after.io.t].requested
    {
      after := CancelSection(s);
      asked := None;
      if transfer.Some? && !cancelled {
        asked := transfer;
      }
      cancelled := true;
    }

    /** The first locked section of usb_sync_transfer. answer is what libusb says to the
        submission of transfer t. */
    method Begin(answer: int, t: nat, ghost s: State) returns (ret: int, ghost after: State)
      requires Inv(s) && s.lock == Free && s.io == Idle && Shows(s) && t == |s.transfers|
      modifies this`transfer
      ensures ret == if cancelled then -EBADF else answer
      ensures transfer == if ret == 0 then Some(t) else None
      ensures Leads(s, BeginPath(s.cancelled, answer == 0), after) && Inv(after) && Shows(after)
      ensures after.io == if ret == 0 then Handling(t) else Idle
      ensures |after.transfers| > t <==> !cancelled
    {
      after := BeginSection(s, answer == 0);
      if cancelled {
        return -EBADF, after;
      }
      if answer != 0 {
        return answer, after;
      }
      transfer := Some(t);
      return 0, after;
    }

    /** The second one: the transfer is released only after it cannot be cancelled any more. */
    method End(ghost s: State) returns (ghost after: State)
      requires Inv(s) && s.lock == Free && s.io.Relocking? && Shows(s)
      modifies this`transfer
      ensures Leads(s, [IoRelocks, Unrecord], after) && Inv(after) && Shows(after)
      ensures after == s.(recorded := None, io := Freeing(s.io.t))
      ensures forall a :: Enabled(after, a) && Touched(after, a) == Some(s.io.t) ==> a == Release
    {
      after := EndSection(s);
      transfer := None;
    }
  }

  // ------------------------------------------------------- a cancelled context

  /** Some continuation submits a transfer; without an open, or with one. */
  ghost predicate SubmitPossible(s: State, openAllowed: bool) {
    exists actions, s' :: Leads(s, actions, s') && s'.io == Submitting && (Open in actions ==> openAllowed)
  }

  /** Without an open a cancelled context stays cancelled and never gets to submitting. */
  lemma {:induction false} CancelledStays(s: State, actions: seq<Action>, s': State)
    requires Inv(s) && s.cancelled && Leads(s, actions, s') && Open !in actions
    ensures Inv(s') && s'.cancelled && s'.io != Submitting
    decreases |actions|
  {
    if actions != [] {
      InvKept(s, actions[0]);
      assert forall a :: a in actions[1..] ==> a in actions;
      CancelledStays(Step(s, actions[0]), actions[1..], s');
    }
  }

  /** What ends the call in progress: the canceller, then the I/O thread. */
  function Settling(s: State): Action
    requires Bounds(s)
  {
    if s.canceller == Testing then Test
    else if s.canceller == Marking then Mark
    else match s.io
      case Idle => Open
      case Checking => Check
      case Submitting => Submit(false)
      case Recording(_) => Record
      case Refused => ReportRefusal
      case Handling(t) => if s.transfers[t].completed then SeeCompletion else Complete(t)
      case Relocking(_) => IoRelocks
      case Unrecording(_) => Unrecord
      case Freeing(_) => Release
  }

  function SettlingRank(s: State): nat
    requires Bounds(s)
  {
    (match s.canceller case Away => 0 case Testing => 2 case Marking => 1) +
    match s.io
    case Idle => 0
    case Checking => 6
    case Submitting => 5
    case Recording(_) => 6
    case Refused => 1
    case Handling(t) => if s.transfers[t].completed then 4 else 5
    case Relocking(_) => 3
    case Unrecording(_) => 2
    case Freeing(_) => 1
  }

  lemma SettlingStep(s: State)
    requires Inv(s) && (s.io != Idle || s.canceller != Away)
    ensures Enabled(s, Settling(s)) && Settling(s) != Open
    ensures var s' := Step(s, Settling(s));
            Inv(s') && (s.cancelled ==> s'.cancelled) && SettlingRank(s') < SettlingRank(s)
  {
    InvKept(s, Settling(s));
  }

  /** Whatever the threads are at: both calls can be brought to their end, and then every
      transfer there ever was is freed. */
  lemma {:induction false} CallsEnd(s: State) returns (actions: seq<Action>, s': State)
    requires Inv(s)
    ensures Leads(s, actions, s') && Open !in actions && s'.io == Idle && s'.canceller == Away && s'.lock == Free
    ensures forall t :: 0 <= t < |s'.transfers| ==> s'.transfers[t].freed
    decreases SettlingRank(s)
  {
    if s.io == Idle && s.canceller == Away {
      actions, s' := [], s;
    } else {
      SettlingStep(s);
      actions, s' := CallsEnd(Step(s, Settling(s)));
      LeadsFirst(s, Settling(s), actions, s');
      actions := [Settling(s)] + actions;
    }
    hide Step, Settling, Enabled;
  }

  /** From every reachable cancelled state an open makes a submission possible, and nothing
      else does. */
  lemma OpenDecides(s: State, openAllowed: bool)
    requires Inv(s) && s.cancelled
    ensures SubmitPossible(s, openAllowed) <==> openAllowed
  {
    if openAllowed {
      var actions, s' := PathToSubmit(s);
    } else {
      forall actions, s' | Leads(s, actions, s') && Open !in actions ensures s'.io != Submitting {
        CancelledStays(s, actions, s');
      }
    }
    hide Leads;
  }

  lemma {:induction false} PathToSubmit(s: State) returns (actions: seq<Action>, s': State)
    requires Inv(s) && s.cancelled
    ensures Leads(s, actions, s') && s'.io == Submitting
    decreases SettlingRank(s)
  {
    if s.io == Idle && s.canceller == Away {
      actions, s' := OpenUndoesCancel(s);
    } else {
      hide Step, Inv;
      SettlingStep(s);
      actions, s' := PathToSubmit(Step(s, Settling(s)));
      InvBounds(s);
      LeadsFirst(s, Settling(s), actions, s');
      actions := [Settling(s)] + actions;
    }
  }

  lemma InvBounds(s: State)
    requires Inv(s)
    ensures Bounds(s)
  {
  }

  /** Between calls it takes three steps. A usb_open is enough even if it fails because the
      device is open already: the flag is cleared before that test. */
  lemma OpenUndoesCancel(s: State) returns (actions: seq<Action>, s': State)
    requires Inv(s) && s.cancelled && s.io == Idle && s.canceller == Away
    ensures actions == [Open, IoLocks, Check] && Leads(s, actions, s') && s'.io == Submitting
  {
    var a := Step(s, Open);
    InvKept(s, Open);
    var b := Step(a, IoLocks);
    InvKept(a, IoLocks);
    s' := Step(b, Check);
    LeadsTwo(a, IoLocks, Check);
    hide Step;
    LeadsFirst(s, Open, [IoLocks, Check], s');
    assert [Open] + [IoLocks, Check] == [Open, IoLocks, Check];
    actions := [Open, IoLocks, Check];
  }
}
