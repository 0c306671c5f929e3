/**
 * No circular wait. Once a copy of the open request is on its way, every schedule of
 * prompt steps, whatever radio frames arrive meanwhile, completes the transaction within
 * a number of steps fixed in advance, not counting oversize frames, which leave no trace.
 * A prompt step is any step of the device, the bridge, the radio or the host that loses
 * and duplicates nothing, does not retry, and opens nothing new. To go on, the system never
 * needs the radio to deliver a frame, and it needs a TX token only for a TX.
 */
module Progress {
  import opened Wire
  import opened Protocol
  import opened HostLog
  import opened TxPath
  import opened RxPath
  import opened Delivery

  predicate Prompt(step: Step) {
    match step
    case OpenTx(_) => false
    case OpenRx => false
    case SendTx => false
    case SendRx => false
    case Restart(_) => false
    case HearTx(i, keep) => i == 0 && !keep
    case HearRx(i, keep) => i == 0 && !keep
    case ServeTx(i) => i == 0
    case ServeRx(i) => i == 0
    case _ => true
  }

  /** The radio delivers a frame that is too large. */
  predicate Oversize(step: Step) {
    step.RadioRx? && !InSize(step.frame)
  }

  function OversizeCount(steps: seq<Step>): nat {
    if steps == [] then 0
    else (if Oversize(steps[0]) then 1 else 0) + OversizeCount(steps[1..])
  }

  // ---------------------------------------------------------------- Ranking

  function TxWeight(t: TxSide): nat {
    12 * |t.requests| + |t.responses| + 6 * |t.hostToWifi| + |t.tokens| +
    (match t.phase
     case Listening => 0
     case Offering(_) => 9
     case Awaiting(_) => 2
     case Replying(_) => 2)
  }

  function RxWeight(r: RxSide): nat {
    10 * |r.requests| + |r.responses| + (if r.phase.Polling? then 5 else 0)
  }

  function BridgeWeight(b: Bridge): nat {
    match b
    case Selecting => 0
    case Queueing(_) => 1
    case Signalling(_, _) => 3
    case _ => 4
  }

  /** How many radio frames the device can still take: free slots, and the bridge's hands. */
  function Room(r: RxSide, b: Bridge): nat {
    (if Full(r.wifiToHost) then 0 else RX_QUEUE_CAPACITY - |r.wifiToHost|) +
    (if HeldFrame(b) == [] then 1 else 0)
  }

  function Rank(s: State): nat {
    TxWeight(s.tx) + RxWeight(s.rx) + BridgeWeight(s.bridge) + 2 * Room(s.rx, s.bridge)
  }

  predicate OnTxSide(step: Step) {
    step.HearTx? || step.ServeTx? || step.Offer? || step.TakeToken? || step.ReplyTx?
  }

  lemma TxSideDescends(s: State, step: Step)
    requires Enabled(s, step) && Prompt(step) && OnTxSide(step)
    ensures Rank(Apply(s, step)) < Rank(s)
  {
    hide RxWeight, BridgeWeight, Room;
  }

  lemma RxSideDescends(s: State, step: Step)
    requires Conserved(s.rx, s.bridge) && Enabled(s, step) && Prompt(step)
    requires step.HearRx? || step.ServeRx? || step.PopRx? || step.TimeoutRx?
    ensures Rank(Apply(s, step)) < Rank(s)
  {
    hide TxWeight, BridgeWeight, Frames, HeldFrame;
  }

  lemma BridgeDescends(s: State, step: Step)
    requires Conserved(s.rx, s.bridge) && Enabled(s, step) && Prompt(step) && !Oversize(step)
    requires step.TakeHostFrame? || step.RadioRx? || step.RadioTx? || step.Signal? || step.Enqueue?
    ensures Rank(Apply(s, step)) < Rank(s)
  {
    hide Frames;
  }

  /** Every prompt step brings the system closer to rest, but for oversize frames. */
  lemma PromptDescends(s: State, step: Step)
    requires Conserved(s.rx, s.bridge) && Enabled(s, step) && Prompt(step)
    ensures if Oversize(step) then Apply(s, step) == s else Rank(Apply(s, step)) < Rank(s)
  {
    hide Conserved, Rank;
    if OnTxSide(step) {
      TxSideDescends(s, step);
    } else if step.HearRx? || step.ServeRx? || step.PopRx? || step.TimeoutRx? {
      RxSideDescends(s, step);
    } else if !Oversize(step) {
      BridgeDescends(s, step);
    }
  }

  // ---------------------------------------------------------------- Pending requests

  /** A copy of the open TX, or of its acknowledgement, is on its way. */
  ghost predicate TxPending(request: TxRequest, t: TxSide) {
    || request in t.requests
    || (!t.phase.Listening? && t.phase.request == request)
    || request.stamp in t.responses
  }

  /** A copy of the open poll, or of its answer, is on its way. */
  ghost predicate RxPending(poll: Stamp, r: RxSide) {
    || poll in r.requests
    || r.phase == Polling(poll)
    || exists i :: 0 <= i < |r.responses| && r.responses[i].stamp == poll
  }

  ghost predicate Pending(s: State) {
    match s.host.phase
    case TxOpen(request) => TxPending(request, s.tx)
    case RxOpen(poll) => RxPending(poll, s.rx)
    case _ => false
  }

  /** Sending, or sending again, puts a copy on its way. */
  lemma SendingMakesPending(s: State)
    requires s.host.phase.TxOpen? || s.host.phase.RxOpen?
    ensures var step := if s.host.phase.TxOpen? then SendTx else SendRx;
            Enabled(s, step) && Pending(Apply(s, step))
  {
  }

  lemma TxStaysPending(s: State, step: Step)
    requires Enabled(s, step) && Prompt(step) && s.host.phase.TxOpen? && Pending(s)
    ensures Apply(s, step).host.phase == MustPoll || Pending(Apply(s, step))
  {
  }

  /** The server answers a received poll under the poll's own stamp, or is about to. */
  lemma ServedPollPending(h: Host, r: RxSide)
    requires HostInv(h) && AnsweredInv(h, r) && CacheInv(h.log, r) && RxLink(h.log, r)
    requires r.phase.Idle? && r.requests != []
    ensures RxPending(r.requests[0], ServeRxSide(r, 0))
  {
    var poll, r' := r.requests[0], ServeRxSide(r, 0);
    assert LoggedRx(h.log, poll) && Newest(r.served) <= poll.serial;
    if r.cached.Some? { PollDecision(h, r, poll); }
    if r'.phase.Idle? {
      assert r'.responses[|r.responses|].stamp == poll;
    }
  }

  lemma RxStaysPending(s: State, step: Step)
    requires HostInv(s.host) && AnsweredInv(s.host, s.rx) && CacheInv(s.host.log, s.rx)
    requires RxLink(s.host.log, s.rx)
    requires Enabled(s, step) && Prompt(step) && s.host.phase.RxOpen? && Pending(s)
    ensures Apply(s, step).host.phase == Ready || Pending(Apply(s, step))
  {
    hide HostInv, AnsweredInv, CacheInv, RxLink;
    var poll, r, r' := s.host.phase.poll, s.rx, Apply(s, step).rx;
    if step.ServeRx? {
      ServedPollPending(s.host, r);
      if poll in r.requests && poll != r.requests[0] {
        assert r.requests == [r.requests[0]] + r'.requests;
      } else if poll !in r.requests {
        var i :| 0 <= i < |r.responses| && r.responses[i].stamp == poll;
        assert r'.responses[i].stamp == poll;
      }
    } else if step.PopRx? || step.TimeoutRx? {
      assert r'.responses[|r.responses|].stamp == r.phase.poll;
      assert forall i :: 0 <= i < |r.responses| ==> r'.responses[i] == r.responses[i];
    } else if step.HearRx? {
      assert forall i :: 1 <= i < |r.responses| ==> r.responses[i] == r'.responses[i - 1];
    }
  }

  // ---------------------------------------------------------------- Some step is enabled

  /** While the TX server waits for its token, the bridge can move. */
  lemma BridgeCanMove(s: State) returns (step: Step)
    requires TokenInv(s.tx, s.bridge) && s.tx.phase.Awaiting?
    ensures Prompt(step) && Enabled(s, step) && !step.RadioRx?
    ensures step.RadioTx? ==> BridgeRequest(s.bridge) == Some(s.tx.phase.request)
  {
    if s.tx.tokens != [] {
      step := TakeToken;
    } else if s.bridge.Signalling? {
      step := Signal;
    } else if s.bridge.Transmitting? || s.bridge.Committed? {
      step := RadioTx;
    } else if s.bridge.Queueing? && !Full(s.rx.wifiToHost) {
      step := Enqueue;
    } else {
      step := TakeHostFrame;
    }
  }

  /**
   * With a request on its way something can move. It is the radio only to grant a TX token,
   * and only when a TX is open whose server waits for the frame in the bridge's hands.
   */
  lemma SomeStepEnabled(s: State) returns (step: Step)
    requires TokenInv(s.tx, s.bridge) && Pending(s)
    ensures Prompt(step) && Enabled(s, step) && !step.RadioRx?
    ensures step.RadioTx? ==> s.host.phase.TxOpen? && s.tx.phase.Awaiting?
                              && BridgeRequest(s.bridge) == Some(s.tx.phase.request)
  {
    if s.host.phase.TxOpen? {
      if s.tx.responses != [] {
        step := HearTx(0, false);
      } else {
        match s.tx.phase {
          case Listening => step := ServeTx(0);
          case Offering(_) => step := Offer;
          case Awaiting(_) => step := BridgeCanMove(s);
          case Replying(_) => step := ReplyTx;
        }
      }
    } else {
      if s.rx.responses != [] {
        step := HearRx(0, false);
      } else if s.rx.phase.Idle? {
        step := ServeRx(0);
      } else if s.rx.wifiToHost != [] {
        step := PopRx;
      } else {
        step := TimeoutRx;
      }
    }
  }

  // ---------------------------------------------------------------- Theorem

  ghost predicate AllPrompt(steps: seq<Step>) {
    forall i :: 0 <= i < |steps| ==> Prompt(steps[i])
  }

  /** The transaction the host has open. */
  function OpenSerial(h: Host): nat {
    match h.phase
    case TxOpen(request) => request.stamp.serial
    case RxOpen(poll) => poll.serial
    case _ => 0
  }

  lemma {:induction false} PromptRunsAreShort(s: State, steps: seq<Step>)
    requires Inv(s) && ValidRun(s, steps) && AllPrompt(steps)
    ensures |steps| + Rank(Execute(s, steps)) <= Rank(s) + OversizeCount(steps)
    ensures s.host.completed <= Execute(s, steps).host.completed
    decreases |steps|
  {
    hide Inv, Rank;
    if steps != [] {
      assert Conserved(s.rx, s.bridge) by { ConservedOf(s); }
      PromptDescends(s, steps[0]);
      InvStep(s, steps[0]);
      PromptRunsAreShort(Apply(s, steps[0]), steps[1..]);
    }
  }

  lemma ConservedOf(s: State)
    requires Inv(s)
    ensures Conserved(s.rx, s.bridge)
  {
  }

  lemma StaysPendingOrCompletes(s: State, step: Step)
    requires Inv(s) && Pending(s) && Enabled(s, step) && Prompt(step)
    ensures (Pending(Apply(s, step)) && OpenSerial(Apply(s, step).host) == OpenSerial(s.host))
            || OpenSerial(s.host) in Apply(s, step).host.completed
  {
    hide HostInv, AnsweredInv, CacheInv, RxLink, TokenInv, TxLink, RadioInv, MemoryInv, ServerInv,
         AckInv, EchoInv, Conserved, ResponseInv, PoppedInv, DeliveredInv, TxPending, RxPending;
    if s.host.phase.TxOpen? {
      TxStaysPending(s, step);
    } else {
      RxStaysPending(s, step);
    }
  }

  /**
   * From every reachable state with a request on its way, every schedule of prompt steps
   * has at most `Rank` steps besides the oversize frames. Before the transaction has
   * completed it can always go on, with a step that is not a frame from the radio.
   */
  lemma {:induction false} NoCircularWait(s: State, steps: seq<Step>)
    requires Reachable(s) && Pending(s) && ValidRun(s, steps) && AllPrompt(steps)
    ensures |steps| <= Rank(s) + OversizeCount(steps)
    ensures OpenSerial(s.host) in Execute(s, steps).host.completed
            || exists step :: Prompt(step) && !step.RadioRx? && Enabled(Execute(s, steps), step)
    decreases |steps|
  {
    hide Inv, Rank, Pending, Reachable;
    ReachableInv(s);
    PromptRunsAreShort(s, steps);
    if steps == [] {
      TokensOf(s);
      var step := SomeStepEnabled(s);
    } else {
      StaysPendingOrCompletes(s, steps[0]);
      ReachableStep(s, steps[0]);
      InvStep(s, steps[0]);
      if OpenSerial(s.host) in Apply(s, steps[0]).host.completed {
        PromptRunsAreShort(Apply(s, steps[0]), steps[1..]);
      } else {
        NoCircularWait(Apply(s, steps[0]), steps[1..]);
      }
    }
  }

  lemma TokensOf(s: State)
    requires Inv(s)
    ensures TokenInv(s.tx, s.bridge)
  {
  }

  // ---------------------------------------------------------------- Bounded takeover

  /**
   * However the steps interleave, between two moments of a run the bridge takes at most as
   * many in-size frames from the radio as there were free slots, plus one for its hands,
   * plus one for each frame popped meanwhile.
   */
  lemma BoundedTakeover(s: State, steps: seq<Step>)
    requires Reachable(s) && ValidRun(s, steps)
    ensures var s' := Execute(s, steps);
            |s'.rx.received| + |s.rx.popped| <= |s.rx.received| + |s'.rx.popped| + Room(s.rx, s.bridge)
  {
    hide Inv, Reachable;
    ReachableRun(s, steps);
    var s' := Execute(s, steps);
    ReachableInv(s);
    ConservedOf(s);
    ReachableInv(s');
    ConservedOf(s');
    FramesLength(s.rx.popped);
    FramesLength(s'.rx.popped);
  }

  lemma {:induction false} FramesLength(arrivals: seq<Arrival>)
    ensures |Frames(arrivals)| == |arrivals|
  {
    if arrivals != [] {
      FramesLength(arrivals[..|arrivals| - 1]);
    }
  }
}
