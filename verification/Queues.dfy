/**
 * The two queue goroutines of the websocket server (btcd/rpcwebsocket.go) as step functions: every
 * event is one arm of a select, enabled or not in the current state.
 */
module Queues {
  import opened Options

  // ---------------------------------------------------------------- queueHandler

  /** The locals of queueHandler; a nil channel is one that is off. */
  datatype Queue<T> = Queue(q: seq<T>, dequeueOn: bool, skipOn: bool, next: Option<T>, received: seq<T>, sent: seq<T>,
                            closed: bool)

  /** A value comes in while the reader is ready or not; the reader takes the next; the loop ends. */
  datatype QueueEvent<T> = In(value: T, readerReady: bool) | Out | Stop

  function Start<T>(): Queue<T> {
    Queue([], false, true, None, [], [], false)
  }

  function QueueStep<T>(s: Queue<T>, e: QueueEvent<T>): Option<Queue<T>> {
    if s.closed then None
    else
      match e
      case In(n, ready) =>
        var got := s.(received := s.received + [n]);
        if s.skipOn && ready then Some(got.(sent := s.sent + [n]))
        else
          var q := s.q + [n];
          Some(got.(q := q, dequeueOn := true, skipOn := false, next := Some(q[0])))
      case Out =>
        if !s.dequeueOn || s.next.None? || s.q == [] then None
        else
          var q := s.q[1..];
          var gone := s.(q := q, sent := s.sent + [s.next.value]);
          Some(if q == [] then gone.(dequeueOn := false, skipOn := true) else gone.(next := Some(q[0])))
      case Stop => Some(s.(closed := true))
  }

  /** What holds at every step: nothing is lost, doubled or reordered; the channels follow the queue. */
  ghost predicate Fifo<T(!new)>(s: Queue<T>) {
    && s.received == s.sent + s.q
    && (s.dequeueOn <==> s.q != [])
    && (s.skipOn <==> s.q == [])
    && (s.q != [] ==> s.next == Some(s.q[0]))
  }

  ghost predicate QueueRun<T(!new)>(trace: seq<Queue<T>>) {
    && trace != [] && trace[0] == Start()
    && forall i :: 0 <= i < |trace| - 1 ==> exists e :: QueueStep(trace[i], e) == Some(trace[i + 1])
  }

  lemma QueueStepKeepsFifo<T(!new)>(s: Queue<T>, e: QueueEvent<T>)
    requires Fifo(s) && QueueStep(s, e).Some?
    ensures Fifo(QueueStep(s, e).value)
    ensures s.sent <= QueueStep(s, e).value.sent && s.received <= QueueStep(s, e).value.received
  {
    var s' := QueueStep(s, e).value;
    match e
    case In(n, ready) =>
      if !(s.skipOn && ready) {
        assert s.sent + s.q + [n] == s.sent + (s.q + [n]);
      }
    case Out =>
      assert s.q == [s.q[0]] + s.q[1..];
      assert s.sent + s.q == s.sent + [s.q[0]] + s.q[1..];
    case Stop =>
  }

  lemma {:induction false} QueueIsFifo<T(!new)>(trace: seq<Queue<T>>, i: nat)
    requires QueueRun(trace) && i < |trace|
    ensures Fifo(trace[i])
  {
    if i > 0 {
      QueueIsFifo(trace, i - 1);
      var e :| QueueStep(trace[i - 1], e) == Some(trace[i]);
      QueueStepKeepsFifo(trace[i - 1], e);
    }
  }

  /** An open queue that holds something can always hand over the oldest of it. */
  lemma OldestIsReady<T(!new)>(s: Queue<T>)
    requires Fifo(s) && !s.closed
    ensures QueueStep(s, Out).Some? <==> s.received != s.sent
    ensures QueueStep(s, Out).Some? ==> QueueStep(s, Out).value.sent == s.received[..|s.sent| + 1]
  {
    if s.q == [] {
      assert s.sent + s.q == s.sent;
    } else {
      assert |s.received| == |s.sent| + |s.q|;
    }
  }

  // ---------------------------------------------------------------- notificationQueueHandler

  /** A message on its way to the connection; only a notification carries the done channel. */
  datatype Item = Ntfn(msg: nat) | Reply(msg: nat)

  const SEND_CAPACITY := 50
  const DONE_CAPACITY := 1

  /** Where notificationQueueHandler is: in its select, inside SendMessage, or past its loop. */
  datatype Hand = Selecting | Checking(msg: nat) | Putting(msg: nat) | Cleaning | Ended

  /** Where outHandler is: in its select, about to signal done, or past its loop. */
  datatype Writer = Taking | Signalling | Draining | DrainSignalling | Closed

  /** `received` and `written` record the notifications that came in and went out. */
  datatype State = State(
    received: seq<nat>, pending: seq<nat>, waiting: bool, hand: Hand,
    send: seq<Item>, writer: Writer, done: nat, gone: bool, written: seq<nat>)

  datatype Event =
    | Receive(msg: nat)       // the handler takes a notification from its channel
    | Check                   // SendMessage looks whether the client is gone
    | Put                     // and puts the message into the send channel
    | TakeDone                // the handler learns that a message was sent
    | HandQuit                // the handler sees the quit channel closed
    | Clean                   // and drains the done channel
    | Answer(msg: nat)        // a reply is put into the send channel
    | Write(ok: bool)         // the writer takes a message and writes it, or fails to
    | Signal                  // and signals done
    | WriterQuit              // the writer sees the quit channel closed
    | Drain                   // and drains the send channel
    | Disconnect              // the client is disconnected

  function Init(): State {
    State([], [], false, Selecting, [], Taking, 0, false, [])
  }

  /** The state after an event; None when it cannot happen, be it only because a channel is full. */
  function Step(s: State, e: Event): Option<State> {
    match e
    case Receive(m) =>
      if !s.hand.Selecting? then None
      else if !s.waiting then Some(s.(received := s.received + [m], hand := Checking(m), waiting := true))
      else Some(s.(received := s.received + [m], pending := s.pending + [m]))
    case Check =>
      if !s.hand.Checking? then None
      else if !s.gone then Some(s.(hand := Putting(s.hand.msg)))
      else if s.done < DONE_CAPACITY then Some(s.(done := s.done + 1, hand := Selecting))
      else None
    case Put =>
      if !s.hand.Putting? || |s.send| >= SEND_CAPACITY then None
      else Some(s.(send := s.send + [Ntfn(s.hand.msg)], hand := Selecting))
    case TakeDone =>
      if !s.hand.Selecting? || s.done == 0 then None
      else if s.pending == [] then Some(s.(done := s.done - 1, waiting := false))
      else Some(s.(done := s.done - 1, pending := s.pending[1..], hand := Checking(s.pending[0])))
    case HandQuit => if s.hand.Selecting? && s.gone then Some(s.(hand := Cleaning)) else None
    case Clean =>
      if !s.hand.Cleaning? then None
      else if s.done > 0 then Some(s.(done := s.done - 1))
      else Some(s.(hand := Ended))
    case Answer(m) =>
      if |s.send| >= SEND_CAPACITY then None else Some(s.(send := s.send + [Reply(m)]))
    case Write(ok) =>
      if !s.writer.Taking? || s.send == [] then None
      else if !ok then Some(s.(send := s.send[1..], gone := true, writer := Draining))
      else Some(s.(send := s.send[1..], written := s.written + OneNtfn(s.send[0]),
                   writer := if s.send[0].Ntfn? then Signalling else Taking))
    case Signal =>
      if s.done >= DONE_CAPACITY then None
      else if s.writer.Signalling? then Some(s.(done := s.done + 1, writer := Taking))
      else if s.writer.DrainSignalling? then Some(s.(done := s.done + 1, writer := Draining))
      else None
    case WriterQuit => if s.writer.Taking? && s.gone then Some(s.(writer := Draining)) else None
    case Drain =>
      if !s.writer.Draining? then None
      else if s.send == [] then Some(s.(writer := Closed))
      else Some(s.(send := s.send[1..], writer := if s.send[0].Ntfn? then DrainSignalling else Draining))
    case Disconnect => Some(s.(gone := true))
  }

  function Ntfns(items: seq<Item>): seq<nat> {
    if items == [] then [] else OneNtfn(items[0]) + Ntfns(items[1..])
  }

  function OneNtfn(item: Item): seq<nat> {
    if item.Ntfn? then [item.msg] else []
  }

  lemma {:induction false} NtfnsMore(items: seq<Item>, item: Item)
    ensures Ntfns(items + [item]) == Ntfns(items) + OneNtfn(item)
  {
    var longer := items + [item];
    if items == [] {
      assert longer == [item] && longer[1..] == [];
    } else {
      assert longer[1..] == items[1..] + [item];
      NtfnsMore(items[1..], item);
    }
  }

  /** The notifications alone: what of them is in the send channel and what was written. */
  datatype Traffic = Traffic(received: seq<nat>, pending: seq<nat>, waiting: bool, hand: Hand, send: seq<nat>,
                             writer: Writer, done: nat, gone: bool, written: seq<nat>)

  function TrafficOf(s: State): Traffic {
    Traffic(s.received, s.pending, s.waiting, s.hand, Ntfns(s.send), s.writer, s.done, s.gone, s.written)
  }

  /** Notifications for which a done signal is still owed or lies in the channel. */
  function Owed(v: Traffic): nat {
    (if v.hand.Checking? || v.hand.Putting? then 1 else 0) + |v.send|
    + (if v.writer.Signalling? || v.writer.DrainSignalling? then 1 else 0) + v.done
  }

  /** Notifications handed over and not yet written. */
  function InFlight(v: Traffic): seq<nat> {
    if |v.send| > 0 then v.send
    else if v.hand.Putting? || (v.hand.Checking? && !v.gone) then [v.hand.msg] else []
  }

  /** Who owes what. */
  ghost predicate Control(v: Traffic) {
    && Owed(v) <= 1
    && (v.hand.Selecting? && !v.waiting ==> Owed(v) == 0)
    && (v.hand.Selecting? && v.waiting && !v.gone ==> Owed(v) == 1)
    && (v.hand.Checking? || v.hand.Putting? ==> v.waiting)
    && (!v.waiting ==> |v.pending| == 0)
    && (v.hand.Cleaning? || v.hand.Ended? ==> v.gone)
    && (v.writer.Draining? || v.writer.DrainSignalling? || v.writer.Closed? ==> v.gone)
  }

  /** What was written, is on its way and waits, in the order received; a client that left may miss the rest. */
  ghost predicate Ordered(received: seq<nat>, written: seq<nat>, flight: seq<nat>, pending: seq<nat>, gone: bool) {
    && written + flight <= received
    && (!gone ==> received == written + flight + pending)
  }

  ghost predicate Inv(v: Traffic) {
    Control(v) && Ordered(v.received, v.written, InFlight(v), v.pending, v.gone)
  }

  lemma ReceiveKeepsInv(s: State, m: nat)
    requires Inv(TrafficOf(s)) && Step(s, Receive(m)).Some?
    ensures Inv(TrafficOf(Step(s, Receive(m)).value))
  {
    var v := TrafficOf(s);
    assert !v.waiting ==> v.pending == [] && InFlight(v) == [];
  }

  lemma OrderedPop(r: seq<nat>, w: seq<nat>, p: seq<nat>, gone: bool)
    requires Ordered(r, w, [], p, gone) && p != []
    ensures Ordered(r, w, if gone then [] else [p[0]], p[1..], gone)
  {
    if !gone {
      assert p == [p[0]] + p[1..];
      assert w + [] + p == w + [p[0]] + p[1..];
    }
  }

  lemma TakeDoneKeepsInv(s: State)
    requires Inv(TrafficOf(s)) && Step(s, TakeDone).Some?
    ensures Inv(TrafficOf(Step(s, TakeDone).value))
  {
    var v := TrafficOf(s);
    assert InFlight(v) == [];
    if v.pending != [] {
      OrderedPop(v.received, v.written, v.pending, v.gone);
    }
  }

  /** Steps that move no notification, except that a disconnected client drops what was being checked. */
  lemma OtherKeepsInv(s: State, e: Event)
    requires Inv(TrafficOf(s)) && Step(s, e).Some?
    requires e.Check? || e.HandQuit? || e.Clean? || e.Signal? || e.WriterQuit? || e.Disconnect?
    ensures Inv(TrafficOf(Step(s, e).value))
  {
  }

  lemma AnswerMovesNothing(s: State, m: nat)
    requires Step(s, Answer(m)).Some?
    ensures TrafficOf(Step(s, Answer(m)).value) == TrafficOf(s)
  {
    NtfnsMore(s.send, Reply(m));
  }

  function Handed(v: Traffic, m: nat): Traffic {
    v.(send := [m], hand := Selecting)
  }

  lemma HandedKeepsInv(v: Traffic)
    requires Inv(v) && v.hand.Putting?
    ensures v.send == [] && Inv(Handed(v, v.hand.msg))
  {
  }

  lemma PutIs(s: State)
    requires Step(s, Put).Some? && Ntfns(s.send) == []
    ensures TrafficOf(Step(s, Put).value) == Handed(TrafficOf(s), s.hand.msg)
  {
    NtfnsMore(s.send, Ntfn(s.hand.msg));
  }

  /** Taking the first message: the notification on its way, or a reply. */
  lemma TakeFirst(items: seq<Item>)
    requires items != [] && |Ntfns(items)| <= 1
    ensures items[0].Ntfn? ==> Ntfns(items) == [items[0].msg] && Ntfns(items[1..]) == []
    ensures items[0].Reply? ==> Ntfns(items[1..]) == Ntfns(items)
  {
  }

  function Sent(v: Traffic): Traffic {
    v.(send := [], written := v.written + v.send, writer := Signalling)
  }

  lemma WriteIs(s: State)
    requires Step(s, Write(true)).Some? && |Ntfns(s.send)| <= 1
    ensures TrafficOf(Step(s, Write(true)).value) == if s.send[0].Reply? then TrafficOf(s) else Sent(TrafficOf(s))
    ensures s.send[0].Ntfn? ==> |Ntfns(s.send)| == 1
  {
    TakeFirst(s.send);
  }

  lemma WriteKeepsInv(s: State)
    requires Inv(TrafficOf(s)) && Step(s, Write(true)).Some?
    ensures Inv(TrafficOf(Step(s, Write(true)).value))
  {
    assert |TrafficOf(s).send| <= 1;
    WriteIs(s);
  }

  /** A failed write, or draining, loses the message; the client is gone. */
  lemma LoseKeepsInv(s: State, e: Event)
    requires Inv(TrafficOf(s)) && Step(s, e).Some?
    requires e == Write(false) || e == Drain
    ensures Inv(TrafficOf(Step(s, e).value))
  {
    if s.send != [] {
      TakeFirst(s.send);
    }
  }

  lemma StepKeepsInv(s: State, e: Event)
    requires Inv(TrafficOf(s)) && Step(s, e).Some?
    ensures Inv(TrafficOf(Step(s, e).value))
  {
    match e
    case Put =>
      HandedKeepsInv(TrafficOf(s));
      PutIs(s);
    case Answer(m) => AnswerMovesNothing(s, m);
    case Write(ok) => if ok { WriteKeepsInv(s); } else { LoseKeepsInv(s, e); }
    case Drain => LoseKeepsInv(s, e);
    case Receive(m) => ReceiveKeepsInv(s, m);
    case TakeDone => TakeDoneKeepsInv(s);
    case _ => OtherKeepsInv(s, e);
  }

  ghost predicate Moves(s: State, s': State) {
    exists e :: Step(s, e) == Some(s')
  }

  ghost predicate Run(trace: seq<State>) {
    && trace != [] && trace[0] == Init()
    && forall i :: 0 <= i < |trace| - 1 ==> Moves(trace[i], trace[i + 1])
  }

  lemma RunOn(trace: seq<State>, e: Event)
    requires Run(trace) && Step(trace[|trace| - 1], e).Some?
    ensures Run(trace + [Step(trace[|trace| - 1], e).value])
  {
    var last, next := trace[|trace| - 1], Step(trace[|trace| - 1], e).value;
    var longer := trace + [next];
    assert Moves(last, next);
    forall k | 0 <= k < |longer| - 1
      ensures Moves(longer[k], longer[k + 1])
    {
      if k < |trace| - 1 {
        assert longer[k] == trace[k] && longer[k + 1] == trace[k + 1];
      } else {
        assert longer[k] == last && longer[k + 1] == next;
      }
    }
  }

  lemma {:induction false} RunKeepsInv(trace: seq<State>, i: nat)
    requires Run(trace) && i < |trace|
    ensures Inv(TrafficOf(trace[i]))
  {
    if i > 0 {
      RunKeepsInv(trace, i - 1);
      assert Moves(trace[i - 1], trace[i - 1 + 1]);
      var e :| Step(trace[i - 1], e) == Some(trace[i]);
      StepKeepsInv(trace[i - 1], e);
    }
  }

  /** Signalling done never blocks: whoever is about to signal finds room in the channel. */
  lemma DoneNeverBlocks(trace: seq<State>, i: nat)
    requires Run(trace) && i < |trace|
    ensures trace[i].writer.Signalling? || trace[i].writer.DrainSignalling? ==> Step(trace[i], Signal).Some?
    ensures trace[i].hand.Checking? ==> Step(trace[i], Check).Some?
  {
    RunKeepsInv(trace, i);
  }

  /**
   * Notifications are written in the order they came, none twice and none left out before another;
   * at most one is on its way at a time, and while the client is connected nothing is lost.
   */
  lemma WrittenInOrder(trace: seq<State>, i: nat)
    requires Run(trace) && i < |trace|
    ensures trace[i].written <= trace[i].received
    ensures |InFlight(TrafficOf(trace[i]))| <= 1
    ensures !trace[i].gone ==>
              trace[i].received == trace[i].written + InFlight(TrafficOf(trace[i])) + trace[i].pending
  {
    RunKeepsInv(trace, i);
    var v := TrafficOf(trace[i]);
    assert v.written <= v.written + InFlight(v);
  }

  /** The steps still to be made for what is in the send channel. */
  function SendWork(items: seq<Item>): nat {
    if items == [] then 0 else (if items[0].Ntfn? then 3 else 1) + SendWork(items[1..])
  }

  lemma {:induction false} SendWorkMore(items: seq<Item>, item: Item)
    ensures SendWork(items + [item]) == SendWork(items) + if item.Ntfn? then 3 else 1
  {
    var longer := items + [item];
    if items == [] {
      assert longer[1..] == [];
    } else {
      assert longer[1..] == items[1..] + [item];
      SendWorkMore(items[1..], item);
    }
  }

  /** The steps still to be made: a check, a put, a write, a signal and its receipt for each notification. */
  function Work(s: State): nat {
    5 * |s.pending| + (if s.hand.Checking? then 5 else if s.hand.Putting? then 4 else 0) + SendWork(s.send)
    + (if s.writer.Signalling? then 2 else 0) + s.done
  }

  /** The steps by which notifications advance while the client is connected. */
  predicate Advances(e: Event) {
    e in {Check, Put, TakeDone, Write(true), Signal}
  }

  lemma AdvancingReducesWork(s: State, e: Event)
    requires Advances(e) && !s.gone && Step(s, e).Some? && !s.writer.DrainSignalling?
    ensures Work(Step(s, e).value) < Work(s) && !Step(s, e).value.gone
  {
    if e.Put? {
      SendWorkMore(s.send, Ntfn(s.hand.msg));
    }
  }

  lemma AdvancingReceivesNothing(s: State, e: Event)
    requires Advances(e) && Step(s, e).Some?
    ensures Step(s, e).value.received == s.received
  {
  }

  /**
   * While the client is connected and a notification is not yet written, some step can be made that
   * reduces the work left: without new messages everything received is written after that many steps.
   */
  lemma NeverStuck(trace: seq<State>, i: nat)
    requires Run(trace) && i < |trace| && !trace[i].gone && trace[i].received != trace[i].written
    ensures exists e :: Advances(e) && Step(trace[i], e).Some? && Work(Step(trace[i], e).value) < Work(trace[i])
  {
    RunKeepsInv(trace, i);
    WrittenInOrder(trace, i);
    var s := trace[i];
    var e := Next(s);
    AdvancingReducesWork(s, e);
  }

  /** A step that can be made. */
  lemma Next(s: State) returns (e: Event)
    requires Inv(TrafficOf(s)) && !s.gone && s.received != s.written
    ensures Advances(e) && Step(s, e).Some?
  {
    if s.hand.Checking? {
      e := Check;
    } else if s.writer.Signalling? {
      e := Signal;
    } else if s.send != [] {
      e := Write(true);
    } else if s.hand.Putting? {
      e := Put;
    } else {
      assert s.pending != [] by {
        assert s.written + [] + s.pending == s.written + s.pending;
      }
      e := TakeDone;
    }
  }

  /** From a state of a run, advancing as long as possible writes all that was received, in at most Work steps. */
  lemma {:induction false} EverythingGetsWritten(trace: seq<State>) returns (more: seq<State>)
    requires Run(trace) && !trace[|trace| - 1].gone
    ensures Run(more) && trace <= more && |more| <= |trace| + Work(trace[|trace| - 1])
    ensures more[|more| - 1].received == more[|more| - 1].written == trace[|trace| - 1].received
    decreases Work(trace[|trace| - 1])
  {
    var s := trace[|trace| - 1];
    if s.received == s.written {
      more := trace;
    } else {
      RunKeepsInv(trace, |trace| - 1);
      var e := Next(s);
      AdvancingReducesWork(s, e);
      AdvancingReceivesNothing(s, e);
      var s' := Step(s, e).value;
      var longer := trace + [s'];
      RunOn(trace, e);
      more := EverythingGetsWritten(longer);
      assert trace <= longer;
    }
  }

  /** While the client is connected, a notification that waits is never forgotten: a done signal is under way. */
  lemma PendingIsOwed(trace: seq<State>, i: nat)
    requires Run(trace) && i < |trace| && !trace[i].gone && trace[i].pending != []
    ensures Owed(TrafficOf(trace[i])) == 1
  {
    RunKeepsInv(trace, i);
  }
}
