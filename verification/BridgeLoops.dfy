/**
 * The bridge task of the firmware as it is written: nested loops that poll the radio and
 * three bounded channels and update counters. Every program point of the task is a bridge
 * phase of the protocol, and every poll is a protocol step, so all that is proved about
 * the protocol holds of these loops. What the other tasks, the host and the radio do
 * between two polls is a script; every property holds for every script. Whenever the task
 * polls it is at rest: it can take no step of its own, and it has answered everything the
 * radio offered at earlier polls.
 */
module BridgeLoops {
  import opened Wire
  import opened Protocol
  import RxPath
  import Delivery
  import Progress

  /** Before a poll others took these steps; at the poll the radio offers these. */
  datatype Poll = Poll(others: seq<Step>, token: bool, arrival: Option<Frame>)

  /** The in-size frames the radio offers at these polls, in order. */
  function Offered(polls: seq<Poll>): seq<Frame> {
    if polls == [] then []
    else
      var n := |polls| - 1;
      var rest := Offered(polls[..n]);
      if polls[n].arrival.Some? && InSize(polls[n].arrival.value) then rest + [polls[n].arrival.value]
      else rest
  }

  lemma OfferedOne(poll: Poll)
    ensures Offered([poll]) == if poll.arrival.Some? && InSize(poll.arrival.value)
                               then [poll.arrival.value] else []
  {
  }

  lemma OfferedNothing(polls: seq<Poll>, n: nat)
    requires n <= |polls|
    ensures Offered(polls[n..n]) == []
  {
  }

  lemma OfferedNext(polls: seq<Poll>, from: nat, n: nat)
    requires from <= n < |polls|
    ensures Offered(polls[from..n + 1]) == Offered(polls[from..n]) + Offered([polls[n]])
  {
    assert polls[from..n + 1][..n - from] == polls[from..n];
    assert Offered([polls[n]][..0]) == [];
  }

  /** The steps of the bridge task itself. */
  predicate OfBridge(step: Step) {
    step.TakeHostFrame? || step.RadioRx? || step.RadioTx? || step.Signal? || step.Enqueue?
  }

  /** A step of another task does not look at the bridge, nor at what the bridge records. */
  lemma OthersIgnoreBridge(s: State, step: Step, bridge: Bridge)
    requires !OfBridge(step)
    ensures Enabled(s, step) == Enabled(s.(bridge := bridge), step)
    ensures Enabled(s, step) ==>
              && Apply(s.(bridge := bridge), step) == Apply(s, step).(bridge := bridge)
              && Apply(s, step).tx.radio == s.tx.radio && Apply(s, step).rx.received == s.rx.received
              && |Apply(s, step).rx.popped| >= |s.rx.popped|
  {
  }

  /** The state after others tried these steps. */
  function Moved(s: State, steps: seq<Step>): State {
    if steps == [] then s
    else
      var n := |steps| - 1;
      var t := Moved(s, steps[..n]);
      if !OfBridge(steps[n]) && Enabled(t, steps[n]) then Apply(t, steps[n]) else t
  }

  lemma MovedNext(s: State, steps: seq<Step>, i: nat)
    requires i < |steps|
    ensures var t := Moved(s, steps[..i]);
            Moved(s, steps[..i + 1]) == if !OfBridge(steps[i]) && Enabled(t, steps[i]) then Apply(t, steps[i]) else t
  {
    assert steps[..i + 1][..i] == steps[..i];
  }

  lemma NobodyMoved(s: State, steps: seq<Step>)
    requires |steps| == 0
    ensures Moved(s, steps) == s
  {
  }

  /** The bridge can go on by itself, without the radio. */
  predicate CanGoOn(s: State) {
    Enabled(s, TakeHostFrame) || Enabled(s, Signal) || Enabled(s, Enqueue)
  }

  /** The radio grants a TX token that the bridge is waiting for. */
  predicate Grants(s: State, poll: Poll) {
    poll.token && Enabled(s, RadioTx)
  }

  /** The radio has a frame, and the bridge listens; a TX token goes first. */
  predicate Delivers(s: State, poll: Poll) {
    poll.arrival.Some? && Enabled(s, RadioRx(poll.arrival.value)) && !Grants(s, poll)
  }

  function Heard(s: State, poll: Poll): seq<Frame> {
    if Delivers(s, poll) && InSize(poll.arrival.value) then [poll.arrival.value] else []
  }

  /** An oversize frame counts only in the main loop. */
  function CountedOversize(s: State, poll: Poll): nat {
    if Delivers(s, poll) && !InSize(poll.arrival.value) && s.bridge.Selecting? then 1 else 0
  }

  /** What a poll brings, point by point. */
  lemma PollAt(s: State, poll: Poll)
    ensures Grants(s, poll) == (poll.token && (s.bridge.Transmitting? || s.bridge.Committed?))
    ensures var listens := (s.bridge.Selecting? && s.tx.hostToWifi == []) || (s.bridge.Transmitting? && !poll.token);
            && Heard(s, poll) == (if listens && poll.arrival.Some? && InSize(poll.arrival.value)
                                  then [poll.arrival.value] else [])
            && CountedOversize(s, poll) == (if listens && poll.arrival.Some? && !InSize(poll.arrival.value)
                                               && s.bridge.Selecting? then 1 else 0)
  {
  }

  /** When the bridge has nothing to do by itself, point by point. */
  lemma RestAt(s: State)
    requires !s.bridge.Signalling?
    ensures CanGoOn(s) == match s.bridge
                          case Selecting => s.tx.hostToWifi != []
                          case Queueing(_) => s.tx.hostToWifi != [] || !Full(s.rx.wifiToHost)
                          case _ => false
  {
  }

  /** Truncated counters add up. */
  lemma AddLow32(a: nat, b: nat)
    ensures Low32(Low32(a) + Low32(b)) == Low32(a + b)
  {
  }

  /** Where the task is after it waited for a TX token, with or without getting one. */
  function AfterWait(request: TxRequest, granted: bool, pending: Option<Frame>): Bridge {
    if granted then Signalling(request, pending)
    else if pending.Some? then Committed(request, pending.value)
    else Transmitting(request)
  }

  /** What the loops use of the invariant. */
  lemma ReachableBridge(s: State)
    requires Reachable(s)
    ensures s.bridge.Signalling? ==> s.tx.tokens == [] && s.tx.hostToWifi == []
    ensures |s.rx.received| == |s.rx.popped| + |s.rx.wifiToHost| + |RxPath.HeldFrame(s.bridge)|
    ensures |s.rx.wifiToHost| <= RX_QUEUE_CAPACITY
  {
    hide Reachable, Delivery.Inv;
    Delivery.ReachableInv(s);
    Progress.TokensOf(s);
    Progress.ConservedOf(s);
    Progress.FramesLength(s.rx.popped);
  }

  /** Between two states the bridge takes over no more than fits: slots, pops, and one. */
  lemma TakeoverBound(s: State, s': State)
    requires Reachable(s) && Reachable(s')
    ensures |s'.rx.received| - |s.rx.received|
            <= RX_QUEUE_CAPACITY - |s.rx.wifiToHost| + |s'.rx.popped| - |s.rx.popped| + 1
  {
    hide Reachable;
    ReachableBridge(s);
    ReachableBridge(s');
  }

  class WifiBridge {
    const script: seq<Poll>
    var at: nat                  // polls so far
    var host: Host
    var tx: TxSide
    var rx: RxSide
    var hostRxCount: Id
    var wifiTxOk: Id
    var wifiRxCount: Id
    // History, kept by `NextPoll` alone
    ghost var heard: seq<Frame>  // in-size frames the radio offered while the task listened
    ghost var grants: nat        // TX tokens the radio granted while the task waited for one
    ghost var oversize: nat      // oversize frames it offered to the main loop
    // History
    ghost var signalled: nat     // completion tokens sent

    constructor (script: seq<Poll>, session: SessionId)
      ensures this.script == script && at == 0 && AtRest(Selecting) && Balanced()
      ensures State(host, tx, rx, Selecting) == Initial(session)
      ensures heard == [] && grants == oversize == 0
    {
      this.script := script;
      at := 0;
      host, tx, rx := Initial(session).host, Initial(session).tx, Initial(session).rx;
      hostRxCount, wifiTxOk, wifiRxCount := 0, 0, 0;
      heard, grants, oversize, signalled := [], 0, 0, 0;
      new;
      hide Reachable;
      InitialReachable(session);
    }

    /** The task is at this point of its code, in a state some run of the protocol leads to. */
    ghost predicate At(point: Bridge)
      reads this`at, this`host, this`tx, this`rx
    {
      at <= |script| && Reachable(State(host, tx, rx, point))
    }

    /** The task took every frame it heard, in order, and transmitted with every token. */
    ghost predicate Caught()
      reads this`tx, this`rx, this`heard, this`grants
    {
      rx.received == heard && |tx.radio| == grants
    }

    /** Nothing is left to do before the next poll. */
    ghost predicate AtRest(point: Bridge)
      reads this`at, this`host, this`tx, this`rx, this`heard, this`grants
    {
      At(point) && Caught() && !CanGoOn(State(host, tx, rx, point))
    }

    /** The statistics tell what happened, modulo 2^32. */
    ghost predicate Balanced()
      reads this
    {
      TxBalanced() && wifiRxCount == Low32(|rx.received| + oversize)
    }

    ghost predicate TxBalanced()
      reads this`tx, this`signalled, this`hostRxCount, this`wifiTxOk
    {
      signalled == |tx.radio| && hostRxCount == wifiTxOk == Low32(|tx.radio|)
    }

    /** From poll `from` on, the radio granted no token before the last poll, and then as said. */
    ghost predicate Granted(from: nat, granted: bool)
      reads this`at
    {
      && from <= at <= |script|
      && (granted ==> from < at && script[at - 1].token)
      && (!granted ==> at == |script|)
      && forall i :: from <= i < (if granted then at - 1 else at) ==> !script[i].token
    }

    /** The other tasks move, and the radio says what it has. The task polls only at rest. */
    method NextPoll(ghost point: Bridge) returns (poll: Poll)
      requires AtRest(point) && at < |script|
      modifies this`at, this`host, this`tx, this`rx, this`heard, this`grants, this`oversize
      ensures At(point) && at == old(at) + 1 && poll == script[old(at)]
      ensures State(host, tx, rx, point) == Moved(old(State(host, tx, rx, point)), poll.others)
      ensures tx.radio == old(tx.radio) && rx.received == old(rx.received)
      ensures var s := State(host, tx, rx, point);
              && heard == old(heard) + Heard(s, poll)
              && grants == old(grants) + (if Grants(s, poll) then 1 else 0)
              && oversize == old(oversize) + CountedOversize(s, poll)
    {
      hide Reachable, Enabled, Apply, Moved;
      poll := script[at];
      ghost var before := State(host, tx, rx, point);
      var i := 0;
      assert Moved(before, poll.others[..0]) == before by { NobodyMoved(before, poll.others[..0]); }
      while i < |poll.others|
        invariant 0 <= i <= |poll.others| && At(point) && at == old(at)
        invariant State(host, tx, rx, point) == Moved(before, poll.others[..i])
        invariant tx.radio == old(tx.radio) && rx.received == old(rx.received)
        invariant heard == old(heard) && grants == old(grants) && oversize == old(oversize)
      {
        var step, s := poll.others[i], State(host, tx, rx, Selecting);
        MovedNext(before, poll.others, i);
        if !OfBridge(step) { OthersIgnoreBridge(s, step, point); }
        if !OfBridge(step) && Enabled(s, step) {
          ReachableStep(s.(bridge := point), step);
          var s' := Apply(s, step);
          host, tx, rx := s'.host, s'.tx, s'.rx;
        }
        i := i + 1;
      }
      assert poll.others[..i] == poll.others;
      at := at + 1;
      ghost var s := State(host, tx, rx, point);
      heard := heard + Heard(s, poll);
      grants := grants + (if Grants(s, poll) then 1 else 0);
      oversize := oversize + CountedOversize(s, poll);
    }

    /** Take the host frame from its channel. */
    method Receive(ghost point: Bridge) returns (request: TxRequest)
      requires At(point) && |tx.hostToWifi| > 0
      requires point.Selecting? || (point.Queueing? && Full(rx.wifiToHost))
      modifies this`tx
      ensures At(if point.Queueing? then Committed(request, point.held) else Transmitting(request))
      ensures tx.radio == old(tx.radio) && request == old(tx.hostToWifi[0])
    {
      hide Reachable;
      ReachableStep(State(host, tx, rx, point), TakeHostFrame);
      request := tx.hostToWifi[0];
      tx := tx.(hostToWifi := tx.hostToWifi[1..]);
    }

    /** Consume a radio TX token. */
    method Consume(request: TxRequest, ghost held: Option<Frame>)
      requires At(if held.Some? then Committed(request, held.value) else Transmitting(request))
      modifies this`tx
      ensures At(Signalling(request, held)) && tx.radio == old(tx.radio) + [request]
    {
      hide Reachable;
      ReachableStep(State(host, tx, rx, if held.Some? then Committed(request, held.value)
                                        else Transmitting(request)), RadioTx);
      tx := tx.(radio := tx.radio + [request], accepted := tx.accepted + {request.stamp.serial});
    }

    /** Send the completion token. The channel has room whenever the task gets here. */
    method Signal(request: TxRequest, pending: Option<Frame>)
      requires At(Signalling(request, pending))
      modifies this`tx, this`signalled
      ensures At(if pending.Some? then Queueing(pending.value) else Selecting)
      ensures tx.radio == old(tx.radio) && signalled == old(signalled) + 1 && tx.hostToWifi == []
    {
      hide Reachable;
      var s := State(host, tx, rx, Signalling(request, pending));
      ReachableBridge(s);
      assert |tx.tokens| < 1;
      ReachableStep(s, Step.Signal);
      tx := tx.(tokens := tx.tokens + [request.stamp.serial]);
      signalled := signalled + 1;
    }

    /** `transmit_only_to_wifi`: wait for a TX token and nothing else. */
    method TransmitOnly(request: TxRequest, ghost held: Frame) returns (done: bool)
      requires At(Committed(request, held)) && Caught()
      modifies this`at, this`host, this`tx, this`rx, this`heard, this`grants, this`oversize
      ensures At(if done then Signalling(request, Some(held)) else Committed(request, held)) && Caught()
      ensures tx.radio == old(tx.radio) + (if done then [request] else [])
      ensures rx.received == old(rx.received) && oversize == old(oversize) && Granted(old(at), done)
    {
      hide Reachable, Enabled, Apply, Moved, CanGoOn, Heard, Grants, Delivers, CountedOversize;
      while at < |script|
        invariant At(Committed(request, held)) && Caught() && at >= old(at)
        invariant forall i :: old(at) <= i < at ==> !script[i].token
        invariant tx.radio == old(tx.radio) && rx.received == old(rx.received) && oversize == old(oversize)
        decreases |script| - at
      {
        RestAt(State(host, tx, rx, Committed(request, held)));
        var poll := NextPoll(Committed(request, held));
        PollAt(State(host, tx, rx, Committed(request, held)), poll);
        if poll.token {
          Consume(request, Some(held));
          return true;
        }
      }
      done := false;
    }

    /** Poll for a TX token and for radio frames. */
    method PollTransmitting(request: TxRequest) returns (poll: Poll)
      requires At(Transmitting(request)) && Caught() && at < |script|
      modifies this`at, this`host, this`tx, this`rx, this`heard, this`grants, this`oversize
      ensures At(Transmitting(request)) && at == old(at) + 1 && poll == script[old(at)]
      ensures tx.radio == old(tx.radio) && rx.received == old(rx.received) && oversize == old(oversize)
      ensures heard == rx.received + (if poll.token then [] else Offered([poll]))
      ensures grants == |tx.radio| + (if poll.token then 1 else 0)
    {
      hide Reachable, Enabled, Apply, Moved, CanGoOn, Heard, Grants, Delivers, CountedOversize, Offered;
      RestAt(State(host, tx, rx, Transmitting(request)));
      poll := NextPoll(Transmitting(request));
      PollAt(State(host, tx, rx, Transmitting(request)), poll);
      OfferedOne(poll);
    }

    /** An in-size frame arrives while the task waits for a TX token. */
    method TakeWhileWaiting(request: TxRequest, arrival: Frame) returns (queued: bool)
      requires At(Transmitting(request)) && InSize(arrival)
      modifies this`rx
      ensures At(if queued then Transmitting(request) else Committed(request, arrival))
      ensures rx.received == old(rx.received) + [arrival]
    {
      hide Reachable;
      ReachableStep(State(host, tx, rx, Transmitting(request)), RadioRx(arrival));
      rx := rx.(received := rx.received + [arrival]);
      queued := |rx.wifiToHost| < RX_QUEUE_CAPACITY;
      if queued {
        rx := rx.(wifiToHost := rx.wifiToHost + [arrival]);
      }
    }

    /**
     * `transmit_to_wifi`: wait for a TX token while draining the radio. When the queue is
     * full, keep the frame that did not fit and wait for the token only. The frame goes out
     * at the first token; until then every in-size radio frame is taken over, in order, up
     * to the one that is kept. However long that takes, these are at most as many as there
     * were free slots, plus those popped meanwhile, plus one.
     */
    method TransmitToWifi(request: TxRequest)
      returns (done: bool, count: Id, pending: Option<Frame>, ghost drained: nat)
      requires At(Transmitting(request)) && Caught()
      modifies this`at, this`host, this`tx, this`rx, this`heard, this`grants, this`oversize
      ensures At(AfterWait(request, done, pending)) && Caught() && oversize == old(oversize)
      ensures Granted(old(at), done)
      ensures tx.radio == old(tx.radio) + (if done then [request] else [])
      ensures old(at) <= drained <= at && (pending.None? ==> drained == if done then at - 1 else at)
      ensures rx.received == old(rx.received) + Offered(script[old(at)..drained])
      ensures pending.Some? ==> drained > old(at) && script[drained - 1].arrival == pending
      ensures count == Low32(|rx.received| - old(|rx.received|))
      ensures |rx.received| - old(|rx.received|)
              <= RX_QUEUE_CAPACITY - old(|rx.wifiToHost|) + |rx.popped| - old(|rx.popped|) + 1
    {
      hide Reachable, Enabled, Apply, Moved, CanGoOn, Heard, Grants, Delivers, CountedOversize, Offered,
           WrappingIncrement;
      ghost var before := State(host, tx, rx, Transmitting(request));
      count, pending, done, drained := 0, None, false, at;
      assert Offered(script[at..at]) == [] by { OfferedNothing(script, at); }
      while at < |script|
        invariant At(Transmitting(request)) && Caught() && oversize == old(oversize) && old(at) <= at == drained
        invariant forall i :: old(at) <= i < at ==> !script[i].token
        invariant tx.radio == old(tx.radio) && !done && pending.None?
        invariant rx.received == old(rx.received) + Offered(script[old(at)..at])
        invariant count == Low32(|rx.received| - old(|rx.received|))
        decreases |script| - at
      {
        OfferedNext(script, old(at), at);
        OfferedOne(script[at]);
        var poll := PollTransmitting(request);
        if poll.token {
          Consume(request, None);
          done := true;
          break;
        }
        drained := at;
        if poll.arrival.Some? && InSize(poll.arrival.value) {
          IncrementLow32(|rx.received| - old(|rx.received|));
          var queued := TakeWhileWaiting(request, poll.arrival.value);
          count := WrappingIncrement(count);
          if !queued {
            pending := poll.arrival;
            done := TransmitOnly(request, poll.arrival.value);
            break;
          }
        }
      }
      TakeoverBound(before, State(host, tx, rx, AfterWait(request, done, pending)));
    }

    /** A free slot takes the held frame. */
    method Enqueue(frame: Frame)
      requires At(Queueing(frame)) && |rx.wifiToHost| < RX_QUEUE_CAPACITY
      modifies this`rx
      ensures At(Selecting) && rx.received == old(rx.received)
    {
      hide Reachable;
      ReachableStep(State(host, tx, rx, Queueing(frame)), Step.Enqueue);
      rx := rx.(wifiToHost := rx.wifiToHost + [frame]);
    }

    /**
     * `queue_wifi_frame_while_serving_tx`: look for a free slot for `frame`, and transmit
     * host frames as long as there is none. The count is that of the frames transmitted.
     * No poll of a full queue leaves a host frame waiting.
     */
    method QueueWhileServing(frame: Frame) returns (done: bool, count: Id, ghost stop: Bridge)
      requires At(Queueing(frame)) && Caught() && tx.hostToWifi == []
      modifies this`at, this`host, this`tx, this`rx, this`heard, this`grants, this`oversize, this`signalled
      ensures if done then stop.Selecting? && At(stop) && Caught() else !stop.Selecting? && AtRest(stop)
      ensures stop.Queueing? ==> tx.hostToWifi == [] && Full(rx.wifiToHost)
      ensures old(tx.radio) <= tx.radio && (!done ==> at == |script|) && at >= old(at)
      ensures done ==> count == Low32(|tx.radio| - old(|tx.radio|))
      ensures done ==> signalled - old(signalled) == |tx.radio| - old(|tx.radio|)
      ensures rx.received == old(rx.received) && oversize == old(oversize)
    {
      hide Reachable, Enabled, Apply, Moved, CanGoOn, Heard, Grants, Delivers, CountedOversize;
      count := 0;
      while |rx.wifiToHost| >= RX_QUEUE_CAPACITY && at < |script|
        invariant At(Queueing(frame)) && Caught() && at >= old(at)
        invariant Full(rx.wifiToHost) ==> tx.hostToWifi == []
        invariant old(tx.radio) <= tx.radio
        invariant count == Low32(|tx.radio| - old(|tx.radio|))
        invariant signalled - old(signalled) == |tx.radio| - old(|tx.radio|)
        invariant rx.received == old(rx.received) && oversize == old(oversize)
        decreases |script| - at
      {
        RestAt(State(host, tx, rx, Queueing(frame)));
        var poll := NextPoll(Queueing(frame));
        PollAt(State(host, tx, rx, Queueing(frame)), poll);
        if |rx.wifiToHost| >= RX_QUEUE_CAPACITY && tx.hostToWifi != [] {
          var request := Receive(Queueing(frame));
          var sent := TransmitOnly(request, frame);
          if !sent {
            RestAt(State(host, tx, rx, Committed(request, frame)));
            return false, count, Committed(request, frame);
          }
          IncrementLow32(|tx.radio| - 1 - old(|tx.radio|));
          count := WrappingIncrement(count);
          Signal(request, Some(frame));
        }
      }
      done := |rx.wifiToHost| < RX_QUEUE_CAPACITY;
      stop := Queueing(frame);
      RestAt(State(host, tx, rx, stop));
      if done {
        Enqueue(frame);
        stop := Selecting;
      }
    }

    /** Add the result of `QueueWhileServing` to the statistics. */
    method QueueAndCount(frame: Frame) returns (done: bool, ghost stop: Bridge)
      requires At(Queueing(frame)) && Caught() && Balanced() && tx.hostToWifi == []
      modifies this`at, this`host, this`tx, this`rx, this`heard, this`grants, this`oversize, this`signalled,
               this`hostRxCount, this`wifiTxOk
      ensures if done then stop.Selecting? && At(stop) && Caught() && Balanced()
              else !stop.Selecting? && AtRest(stop) && at == |script|
      ensures old(tx.radio) <= tx.radio && rx.received == old(rx.received) && at >= old(at)
    {
      hide Reachable, Enabled, Apply, Moved, CanGoOn, Heard, Grants, Delivers, CountedOversize;
      ghost var before := |tx.radio|;
      var count;
      done, count, stop := QueueWhileServing(frame);
      if done {
        AddLow32(before, |tx.radio| - before);
        hostRxCount, wifiTxOk := Low32(hostRxCount + count), Low32(wifiTxOk + count);
      }
    }

    /** The main loop's branch for a host frame: it goes to the radio next. */
    method ServeHost() returns (done: bool, ghost stop: Bridge)
      requires At(Selecting) && Caught() && Balanced() && |tx.hostToWifi| > 0
      modifies this`at, this`host, this`tx, this`rx, this`heard, this`grants, this`oversize, this`signalled,
               this`hostRxCount, this`wifiTxOk, this`wifiRxCount
      ensures if done then stop.Selecting? && At(stop) && Caught() && Balanced()
              else !stop.Selecting? && AtRest(stop) && at == |script|
      ensures done ==> old(tx.radio) + [old(tx.hostToWifi[0])] <= tx.radio && at > old(at)
    {
      hide Reachable, Enabled, Apply, Moved, CanGoOn, Heard, Grants, Delivers, CountedOversize,
           Low32, WrappingIncrement, Full;
      ghost var radio, received := |tx.radio|, |rx.received|;
      IncrementLow32(radio);
      hostRxCount := WrappingIncrement(hostRxCount);
      var request := Receive(Selecting);
      var sent, count, pending, _ := TransmitToWifi(request);
      if !sent {
        RestAt(State(host, tx, rx, AfterWait(request, false, pending)));
        return false, AfterWait(request, false, pending);
      }
      AddLow32(received + oversize, |rx.received| - received);
      assert |rx.received| + oversize == received + oversize + (|rx.received| - received);
      wifiRxCount := Low32(wifiRxCount + count);
      wifiTxOk := WrappingIncrement(wifiTxOk);
      Signal(request, pending);
      assert Balanced();
      done, stop := true, Selecting;
      if pending.Some? {
        done, stop := QueueAndCount(pending.value);
      }
    }

    /** The main loop's branch for a radio frame; an oversize one is counted and dropped. */
    method ServeRadio(frame: Frame) returns (done: bool, ghost stop: Bridge)
      requires At(Selecting) && TxBalanced() && tx.hostToWifi == [] && |tx.radio| == grants
      requires heard == rx.received + (if InSize(frame) then [frame] else [])
      requires InSize(frame) ==> wifiRxCount == Low32(|rx.received| + oversize)
      requires !InSize(frame) ==> oversize > 0 && wifiRxCount == Low32(|rx.received| + oversize - 1)
      modifies this`at, this`host, this`tx, this`rx, this`heard, this`grants, this`oversize, this`signalled,
               this`hostRxCount, this`wifiTxOk, this`wifiRxCount
      ensures if done then stop.Selecting? && At(stop) && Caught() && Balanced()
              else !stop.Selecting? && AtRest(stop) && at == |script|
      ensures rx.received == old(rx.received) + (if InSize(frame) then [frame] else []) && at >= old(at)
    {
      hide Reachable, Moved, CanGoOn, Heard, Grants, Delivers, CountedOversize;
      IncrementLow32(|rx.received| + oversize - (if InSize(frame) then 0 else 1));
      wifiRxCount := WrappingIncrement(wifiRxCount);
      done, stop := true, Selecting;
      if InSize(frame) {
        ReachableStep(State(host, tx, rx, Selecting), RadioRx(frame));
        rx := rx.(received := rx.received + [frame]);
        done, stop := QueueAndCount(frame);
      }
    }

    /**
     * The main loop. Stopped after any number of polls it is at rest, in a state of the
     * protocol: it took every in-size frame the radio offered while it listened, it
     * transmitted with every token it waited for, and no host frame is left that it could
     * take. Whenever it is at the head of the loop its statistics tell what happened.
     */
    method Run() returns (ghost stop: Bridge)
      requires AtRest(Selecting) && Balanced()
      modifies this
      ensures AtRest(stop) && at == |script| && (stop.Selecting? ==> Balanced())
    {
      hide Reachable, Enabled, Apply, Moved, CanGoOn, Heard, Grants, Delivers, CountedOversize;
      stop := Selecting;
      while at < |script| || tx.hostToWifi != []
        invariant At(Selecting) && Caught() && Balanced()
        decreases |script| - at
      {
        // The `select` looks at both sources at once, and waits if there is nothing.
        var arrival := None;
        if tx.hostToWifi == [] {
          RestAt(State(host, tx, rx, Selecting));
          var poll := NextPoll(Selecting);
          PollAt(State(host, tx, rx, Selecting), poll);
          arrival := poll.arrival;
        }
        var done := true;
        if tx.hostToWifi != [] {
          done, stop := ServeHost();
        } else if arrival.Some? {
          done, stop := ServeRadio(arrival.value);
        }
        if !done {
          return;
        }
      }
      stop := Selecting;
      RestAt(State(host, tx, rx, stop));
    }
  }
}
