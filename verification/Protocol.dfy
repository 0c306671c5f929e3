/**
 * The reliable frame exchange as one transition system: the host's exchange task, the
 * two endpoint servers, the bridge task, the three bounded channels and the USB link.
 *
 * The link keeps the order of the messages of each endpoint and direction. It may lose
 * any of them: a receiver that takes message `i` has lost messages `0..i`. It may also
 * delay them for any time, and it may deliver a response more than once (`keep`).
 */
module Protocol {
  import opened Wire

  // ---------------------------------------------------------------- Host

  datatype Payload = Tx(frame: Frame) | Rx

  /** One transaction of the run, as the host opened it. */
  datatype Entry = Entry(
    epoch: nat,          // which session opened it
    offset: nat,         // how many transactions that session had opened before
    wire: Transaction,   // what goes on the wire
    prev: Option<nat>,   // the TX transaction that session opened before this one
    payload: Payload)

  datatype HostPhase =
    | Ready                          // about to look for a TAP frame
    | MustPoll                       // a TX has completed, the RX poll is next
    | TxOpen(request: TxRequest)     // retrying this TX request
    | RxOpen(poll: Stamp)            // retrying this RX poll

  datatype Host = Host(
    session: SessionId,
    nextId: Id,
    phase: HostPhase,
    // History
    used: seq<SessionId>,            // session ids in the order they were used
    count: nat,                      // transactions opened by the current session
    log: seq<Entry>,                 // every transaction of the run
    lastTx: Option<nat>,             // last TX transaction opened by the current session
    completed: set<nat>,             // transactions whose response the host accepted
    delivered: seq<Arrival>)         // radio frames handed to TAP

  // ---------------------------------------------------------------- Device

  datatype TxPhase =
    | Listening
    | Offering(request: TxRequest)   // waiting for room in the host-to-WiFi channel
    | Awaiting(request: TxRequest)   // waiting for the completion token
    | Replying(request: TxRequest)

  /** TX endpoint: the two link directions, the server and the channels it owns. */
  datatype TxSide = TxSide(
    requests: seq<TxRequest>,
    responses: seq<Stamp>,
    phase: TxPhase,
    lastCompleted: Option<Stamp>,
    hostToWifi: seq<TxRequest>,
    tokens: seq<nat>,                // completion tokens, tagged with a serial number
    // History
    served: seq<Stamp>,              // requests the server received
    radio: seq<TxRequest>,           // frames the radio accepted
    accepted: set<nat>)              // their serial numbers

  datatype RxPhase = Idle | Polling(poll: Stamp)

  /** RX endpoint: the two link directions, the server and the queue of radio frames. */
  datatype RxSide = RxSide(
    requests: seq<Stamp>,
    responses: seq<RxResponse>,
    phase: RxPhase,
    cached: Option<RxResponse>,
    wifiToHost: seq<Frame>,
    // History
    served: seq<Stamp>,              // polls the server received
    popped: seq<Arrival>,            // frames the server took from the queue
    received: seq<Frame>)            // in-size frames taken from the radio

  datatype Bridge =
    | Selecting                                                // main loop
    | Transmitting(request: TxRequest)                         // draining RX while waiting
    | Committed(request: TxRequest, held: Frame)               // waiting for a TX token only
    | Signalling(request: TxRequest, pending: Option<Frame>)   // sending the token
    | Queueing(held: Frame)                                    // looking for a free slot

  datatype State = State(host: Host, tx: TxSide, rx: RxSide, bridge: Bridge)

  function InitialHost(session: SessionId): Host {
    Host(session, 0, Ready, [session], 0, [], None, {}, [])
  }

  function Initial(session: SessionId): State {
    State(InitialHost(session),
          TxSide([], [], Listening, None, [], [], [], [], {}),
          RxSide([], [], Idle, None, [], [], [], []),
          Selecting)
  }

  // ---------------------------------------------------------------- Host actions

  function NextStamp(h: Host): Stamp {
    Stamp(Transaction(h.session, h.nextId), |h.log|)
  }

  function OpenTxHost(h: Host, frame: Frame): Host
    requires |h.used| > 0
  {
    h.(nextId := WrappingIncrement(h.nextId),
       phase := TxOpen(TxRequest(NextStamp(h), frame)),
       count := h.count + 1,
       log := h.log + [Entry(|h.used| - 1, h.count, NextStamp(h).transaction, h.lastTx, Tx(frame))],
       lastTx := Some(|h.log|))
  }

  function OpenRxHost(h: Host): Host
    requires |h.used| > 0
  {
    h.(nextId := WrappingIncrement(h.nextId),
       phase := RxOpen(NextStamp(h)),
       count := h.count + 1,
       log := h.log + [Entry(|h.used| - 1, h.count, NextStamp(h).transaction, h.lastTx, Rx)])
  }

  /** The host looks at a TX response. */
  function HearTxHost(h: Host, r: Stamp): Host
    requires h.phase.TxOpen?
  {
    if r.transaction == h.phase.request.stamp.transaction then
      h.(phase := MustPoll, completed := h.completed + {h.phase.request.stamp.serial})
    else
      h
  }

  /** The host looks at an RX response, and writes the frame it carries to TAP. */
  function HearRxHost(h: Host, r: RxResponse): Host
    requires h.phase.RxOpen?
  {
    if r.stamp.transaction == h.phase.poll.transaction then
      h.(phase := Ready,
         completed := h.completed + {h.phase.poll.serial},
         delivered := if r.frame.Some?
                      then h.delivered + [Arrival(h.phase.poll.serial, r.frame.value)]
                      else h.delivered)
    else
      h
  }

  function RestartHost(h: Host, session: SessionId): Host {
    h.(session := session, nextId := 0, phase := Ready,
       used := h.used + [session], count := 0, lastTx := None)
  }

  // ---------------------------------------------------------------- TX server

  predicate Duplicate(last: Option<Stamp>, request: Stamp) {
    last.Some? && last.value.transaction == request.transaction
  }

  function ServeTxSide(t: TxSide, i: nat): TxSide
    requires i < |t.requests|
  {
    var request := t.requests[i];
    t.(requests := t.requests[i + 1..],
       served := t.served + [request.stamp],
       phase := if Duplicate(t.lastCompleted, request.stamp) then Replying(request)
                else Offering(request))
  }

  function TakeTokenSide(t: TxSide): TxSide
    requires t.phase.Awaiting? && |t.tokens| > 0
  {
    t.(tokens := t.tokens[1..],
       lastCompleted := Some(t.phase.request.stamp),
       phase := Replying(t.phase.request))
  }

  // ---------------------------------------------------------------- RX server

  /** Answer `poll` with the next queued frame, if there is one, and remember the answer. */
  function AnswerRx(r: RxSide, poll: Stamp): RxSide {
    var frame := if r.wifiToHost == [] then None else Some(r.wifiToHost[0]);
    var response := RxResponse(poll, frame);
    r.(phase := Idle,
       cached := Some(response),
       responses := r.responses + [response],
       wifiToHost := if frame.Some? then r.wifiToHost[1..] else r.wifiToHost,
       popped := if frame.Some? then r.popped + [Arrival(poll.serial, frame.value)] else r.popped)
  }

  function ServeRxSide(r: RxSide, i: nat): RxSide
    requires i < |r.requests|
  {
    var poll := r.requests[i];
    var r1 := r.(requests := r.requests[i + 1..], served := r.served + [poll]);
    if r.cached.Some? && r.cached.value.stamp.transaction == poll.transaction then
      r1.(responses := r1.responses + [r.cached.value])
    else if r.wifiToHost != [] then
      AnswerRx(r1, poll)
    else
      r1.(phase := Polling(poll))
  }

  // ---------------------------------------------------------------- Bridge

  predicate Full(queue: seq<Frame>) {
    |queue| >= RX_QUEUE_CAPACITY
  }

  /** The bridge consumes a frame from the radio; oversize frames leave no trace. */
  function RadioRxState(s: State, frame: Frame): State
    requires s.bridge.Selecting? || s.bridge.Transmitting?
  {
    if !InSize(frame) then
      s
    else
      var rx := s.rx.(received := s.rx.received + [frame]);
      if s.bridge.Selecting? then
        s.(rx := rx, bridge := Queueing(frame))
      else if Full(rx.wifiToHost) then
        s.(rx := rx, bridge := Committed(s.bridge.request, frame))
      else
        s.(rx := rx.(wifiToHost := rx.wifiToHost + [frame]))
  }

  function AcceptSide(t: TxSide, request: TxRequest): TxSide {
    t.(radio := t.radio + [request], accepted := t.accepted + {request.stamp.serial})
  }

  function RadioTxState(s: State): State
    requires s.bridge.Transmitting? || s.bridge.Committed?
  {
    var pending := if s.bridge.Committed? then Some(s.bridge.held) else None;
    s.(tx := AcceptSide(s.tx, s.bridge.request),
       bridge := Signalling(s.bridge.request, pending))
  }

  function SignalState(s: State): State
    requires s.bridge.Signalling?
  {
    s.(tx := s.tx.(tokens := s.tx.tokens + [s.bridge.request.stamp.serial]),
       bridge := match s.bridge.pending
                 case Some(frame) => Queueing(frame)
                 case None => Selecting)
  }

  function TakeHostFrameState(s: State): State
    requires |s.tx.hostToWifi| > 0 && (s.bridge.Selecting? || s.bridge.Queueing?)
  {
    var request := s.tx.hostToWifi[0];
    s.(tx := s.tx.(hostToWifi := s.tx.hostToWifi[1..]),
       bridge := if s.bridge.Queueing? then Committed(request, s.bridge.held)
                 else Transmitting(request))
  }

  // ---------------------------------------------------------------- Steps

  datatype Step =
    | OpenTx(frame: Frame)
    | OpenRx
    | SendTx                         // first copy, backup or retry
    | SendRx
    | HearTx(i: nat, keep: bool)
    | HearRx(i: nat, keep: bool)
    | Restart(session: SessionId)    // the session ends here and a new one begins
    | ServeTx(i: nat)
    | Offer
    | TakeToken
    | ReplyTx
    | ServeRx(i: nat)
    | PopRx
    | TimeoutRx
    | TakeHostFrame
    | RadioRx(frame: Frame)
    | RadioTx                        // the radio grants a TX token
    | Signal
    | Enqueue

  predicate Enabled(s: State, step: Step) {
    match step
    case OpenTx(frame) => s.host.phase.Ready? && InSize(frame) && |s.host.used| > 0
    case OpenRx => (s.host.phase.Ready? || s.host.phase.MustPoll?) && |s.host.used| > 0
    case SendTx => s.host.phase.TxOpen?
    case SendRx => s.host.phase.RxOpen?
    case HearTx(i, _) => s.host.phase.TxOpen? && i < |s.tx.responses|
    case HearRx(i, _) => s.host.phase.RxOpen? && i < |s.rx.responses|
    case Restart(session) => session !in s.host.used
    case ServeTx(i) => s.tx.phase.Listening? && i < |s.tx.requests|
    case Offer => s.tx.phase.Offering? && |s.tx.hostToWifi| < 1
    case TakeToken => s.tx.phase.Awaiting? && |s.tx.tokens| > 0
    case ReplyTx => s.tx.phase.Replying?
    case ServeRx(i) => s.rx.phase.Idle? && i < |s.rx.requests|
    case PopRx => s.rx.phase.Polling? && s.rx.wifiToHost != []
    case TimeoutRx => s.rx.phase.Polling? && s.rx.wifiToHost == []
    case TakeHostFrame =>
      && |s.tx.hostToWifi| > 0
      && (s.bridge.Selecting? || (s.bridge.Queueing? && Full(s.rx.wifiToHost)))
    case RadioRx(_) => (s.bridge.Selecting? && s.tx.hostToWifi == []) || s.bridge.Transmitting?
    case RadioTx => s.bridge.Transmitting? || s.bridge.Committed?
    case Signal => s.bridge.Signalling? && |s.tx.tokens| < 1
    case Enqueue => s.bridge.Queueing? && !Full(s.rx.wifiToHost)
  }

  function Apply(s: State, step: Step): State
    requires Enabled(s, step)
  {
    match step
    case OpenTx(frame) => s.(host := OpenTxHost(s.host, frame))
    case OpenRx => s.(host := OpenRxHost(s.host))
    case SendTx => s.(tx := s.tx.(requests := s.tx.requests + [s.host.phase.request]))
    case SendRx => s.(rx := s.rx.(requests := s.rx.requests + [s.host.phase.poll]))
    case HearTx(i, keep) =>
      s.(host := HearTxHost(s.host, s.tx.responses[i]),
         tx := s.tx.(responses := s.tx.responses[if keep then i else i + 1..]))
    case HearRx(i, keep) =>
      s.(host := HearRxHost(s.host, s.rx.responses[i]),
         rx := s.rx.(responses := s.rx.responses[if keep then i else i + 1..]))
    case Restart(session) => s.(host := RestartHost(s.host, session))
    case ServeTx(i) => s.(tx := ServeTxSide(s.tx, i))
    case Offer =>
      s.(tx := s.tx.(hostToWifi := s.tx.hostToWifi + [s.tx.phase.request],
                     phase := Awaiting(s.tx.phase.request)))
    case TakeToken => s.(tx := TakeTokenSide(s.tx))
    case ReplyTx =>
      s.(tx := s.tx.(responses := s.tx.responses + [s.tx.phase.request.stamp], phase := Listening))
    case ServeRx(i) => s.(rx := ServeRxSide(s.rx, i))
    case PopRx => s.(rx := AnswerRx(s.rx, s.rx.phase.poll))
    case TimeoutRx => s.(rx := AnswerRx(s.rx, s.rx.phase.poll))
    case TakeHostFrame => TakeHostFrameState(s)
    case RadioRx(frame) => RadioRxState(s, frame)
    case RadioTx => RadioTxState(s)
    case Signal => SignalState(s)
    case Enqueue =>
      s.(rx := s.rx.(wifiToHost := s.rx.wifiToHost + [s.bridge.held]), bridge := Selecting)
  }

  // ---------------------------------------------------------------- Runs

  ghost predicate ValidRun(s: State, steps: seq<Step>)
    decreases |steps|
  {
    steps == [] || (Enabled(s, steps[0]) && ValidRun(Apply(s, steps[0]), steps[1..]))
  }

  ghost function Execute(s: State, steps: seq<Step>): State
    requires ValidRun(s, steps)
    decreases |steps|
  {
    if steps == [] then s else Execute(Apply(s, steps[0]), steps[1..])
  }

  /** The states some run from the start of some first session leads to. */
  ghost predicate Reachable(s: State) {
    exists session: SessionId, steps: seq<Step> ::
      ValidRun(Initial(session), steps) && Execute(Initial(session), steps) == s
  }

  lemma {:induction false} RunAppend(s: State, a: seq<Step>, b: seq<Step>)
    requires ValidRun(s, a) && ValidRun(Execute(s, a), b)
    ensures ValidRun(s, a + b) && Execute(s, a + b) == Execute(Execute(s, a), b)
    decreases |a|
  {
    if a == [] {
      assert a + b == b;
    } else {
      assert (a + b)[0] == a[0] && (a + b)[1..] == a[1..] + b;
      RunAppend(Apply(s, a[0]), a[1..], b);
    }
  }

  lemma InitialReachable(session: SessionId)
    ensures Reachable(Initial(session))
  {
    assert ValidRun(Initial(session), []) && Execute(Initial(session), []) == Initial(session);
  }

  lemma ReachableStep(s: State, step: Step)
    requires Reachable(s) && Enabled(s, step)
    ensures Reachable(Apply(s, step))
  {
    var session: SessionId, steps: seq<Step> :|
      ValidRun(Initial(session), steps) && Execute(Initial(session), steps) == s;
    assert ValidRun(s, [step]) by { assert [step][1..] == []; }
    assert Execute(s, [step]) == Apply(s, step) by { assert [step][1..] == []; }
    RunAppend(Initial(session), steps, [step]);
  }

  lemma {:induction false} ReachableRun(s: State, steps: seq<Step>)
    requires Reachable(s) && ValidRun(s, steps)
    ensures Reachable(Execute(s, steps))
    decreases |steps|
  {
    if steps != [] {
      ReachableStep(s, steps[0]);
      ReachableRun(Apply(s, steps[0]), steps[1..]);
    }
  }
}
