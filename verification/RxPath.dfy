/**
 * What every run keeps about the WiFi-to-host direction: the one-slot response cache of
 * the RX server, and the path of each radio frame through the device to TAP.
 */
module RxPath {
  import opened Wire
  import opened Protocol
  import opened HostLog

  function Frames(arrivals: seq<Arrival>): seq<Frame> {
    if arrivals == [] then []
    else Frames(arrivals[..|arrivals| - 1]) + [arrivals[|arrivals| - 1].frame]
  }

  /** The arrivals whose poll is in `done`. */
  function OfPolls(arrivals: seq<Arrival>, done: set<nat>): seq<Arrival> {
    if arrivals == [] then []
    else
      var rest, last := OfPolls(arrivals[..|arrivals| - 1], done), arrivals[|arrivals| - 1];
      if last.serial in done then rest + [last] else rest
  }

  lemma {:induction false} OfPollsIgnores(arrivals: seq<Arrival>, done: set<nat>, k: nat)
    requires forall i :: 0 <= i < |arrivals| ==> arrivals[i].serial != k
    ensures OfPolls(arrivals, done + {k}) == OfPolls(arrivals, done)
  {
    if arrivals != [] {
      OfPollsIgnores(arrivals[..|arrivals| - 1], done, k);
    }
  }

  function HeldFrame(b: Bridge): seq<Frame> {
    match b
    case Committed(_, frame) => [frame]
    case Signalling(_, Some(frame)) => [frame]
    case Queueing(frame) => [frame]
    case _ => []
  }

  // ---------------------------------------------------------------- Conservation

  /**
   * Every in-size frame taken from the radio was popped for the host, is queued, or is in
   * the hands of the bridge, in this order; the queue never exceeds its capacity.
   */
  ghost predicate Conserved(r: RxSide, b: Bridge) {
    && r.received == Frames(r.popped) + r.wifiToHost + HeldFrame(b)
    && |r.wifiToHost| <= RX_QUEUE_CAPACITY
  }

  lemma FramesNext(arrivals: seq<Arrival>, a: Arrival)
    ensures Frames(arrivals + [a]) == Frames(arrivals) + [a.frame]
  {
    assert (arrivals + [a])[..|arrivals|] == arrivals;
  }

  lemma AnswerConserves(r: RxSide, b: Bridge, poll: Stamp)
    requires Conserved(r, b)
    ensures Conserved(AnswerRx(r, poll), b)
  {
    hide Frames, HeldFrame;
    if r.wifiToHost != [] {
      var frame, rest := r.wifiToHost[0], r.wifiToHost[1..];
      FramesNext(r.popped, Arrival(poll.serial, frame));
      assert r.wifiToHost == [frame] + rest;
      assert Frames(r.popped) + ([frame] + rest) == Frames(r.popped) + [frame] + rest;
    }
  }

  lemma ServeConserves(r: RxSide, b: Bridge, i: nat)
    requires Conserved(r, b) && i < |r.requests|
    ensures Conserved(ServeRxSide(r, i), b)
  {
    var r1 := r.(requests := r.requests[i + 1..], served := r.served + [r.requests[i]]);
    assert Conserved(r1, b);
    AnswerConserves(r1, b, r.requests[i]);
    hide Frames;
  }

  /** The bridge takes a frame from the radio, or finds a slot for the one it holds. */
  lemma BridgeConserves(s: State, step: Step)
    requires Conserved(s.rx, s.bridge) && Enabled(s, step) && (step.RadioRx? || step.Enqueue?)
    ensures Conserved(Apply(s, step).rx, Apply(s, step).bridge)
  {
    hide Frames;
  }

  lemma ConservedStep(s: State, step: Step)
    requires Conserved(s.rx, s.bridge) && Enabled(s, step)
    ensures Conserved(Apply(s, step).rx, Apply(s, step).bridge)
  {
    hide Frames;
    if step.ServeRx? {
      ServeConserves(s.rx, s.bridge, step.i);
    } else if step.PopRx? || step.TimeoutRx? {
      AnswerConserves(s.rx, s.bridge, s.rx.phase.poll);
    } else if step.RadioRx? || step.Enqueue? {
      BridgeConserves(s, step);
    } else {
      assert HeldFrame(Apply(s, step).bridge) == HeldFrame(s.bridge);
    }
  }

  // ---------------------------------------------------------------- Link and cache

  /** Polls and responses are genuine and keep the order in which they were opened. */
  ghost predicate RxLink(log: seq<Entry>, r: RxSide) {
    && (forall i :: 0 <= i < |r.served| ==> LoggedRx(log, r.served[i]))
    && (forall i, j :: 0 <= i < j < |r.served| ==> r.served[i].serial <= r.served[j].serial)
    && (forall i :: 0 <= i < |r.requests| ==>
          LoggedRx(log, r.requests[i]) && Newest(r.served) <= r.requests[i].serial)
    && (forall i, j :: 0 <= i < j < |r.requests| ==> r.requests[i].serial <= r.requests[j].serial)
    && (forall i :: 0 <= i < |r.responses| ==> LoggedRx(log, r.responses[i].stamp))
    && (forall i, j :: 0 <= i < j < |r.responses| ==>
          r.responses[i].stamp.serial <= r.responses[j].stamp.serial)
  }

  /** The cache holds the answer to the newest poll; a poll being answered is newer still. */
  ghost predicate CacheInv(log: seq<Entry>, r: RxSide) {
    && (r.cached.Some? ==> LoggedRx(log, r.cached.value.stamp))
    && match r.phase
       case Idle =>
         && (r.served == [] <==> r.cached.None?)
         && (r.cached.Some? ==> r.cached.value.stamp == r.served[|r.served| - 1])
       case Polling(poll) =>
         && r.served != [] && poll == r.served[|r.served| - 1]
         && (r.cached.Some? ==> r.cached.value.stamp.serial < poll.serial)
  }

  /** Each response on its way is the cached one or older, and never older than a completed poll. */
  ghost predicate ResponseInv(h: Host, r: RxSide) {
    forall i :: 0 <= i < |r.responses| ==> Answer(h, r, r.responses[i])
  }

  ghost predicate Answer(h: Host, r: RxSide, a: RxResponse) {
    && r.cached.Some?
    && a.stamp.serial <= r.cached.value.stamp.serial
    && (a.stamp.serial == r.cached.value.stamp.serial ==> a == r.cached.value)
    && (forall k :: k in h.completed && IsRx(h.log, k) ==> k <= a.stamp.serial)
  }

  /** The server has answered every completed poll. */
  ghost predicate AnsweredInv(h: Host, r: RxSide) {
    forall k :: k in h.completed && IsRx(h.log, k) ==>
      r.cached.Some? && k <= r.cached.value.stamp.serial
  }

  // ---------------------------------------------------------------- Frames

  /** Frames are popped for one poll each, in order; the newest may be in the cache. */
  ghost predicate PoppedInv(log: seq<Entry>, r: RxSide) {
    && (forall i, j :: 0 <= i < j < |r.popped| ==> r.popped[i].serial < r.popped[j].serial)
    && (forall i :: 0 <= i < |r.popped| ==>
          && IsRx(log, r.popped[i].serial)
          && r.cached.Some? && r.popped[i].serial <= r.cached.value.stamp.serial)
    && (r.cached.Some? ==>
          match r.cached.value.frame
          case Some(frame) =>
            r.popped != [] && r.popped[|r.popped| - 1] == Arrival(r.cached.value.stamp.serial, frame)
          case None =>
            r.popped == [] || r.popped[|r.popped| - 1].serial < r.cached.value.stamp.serial)
  }

  /** TAP got the frames of the completed polls, in order, and nothing else. */
  ghost predicate DeliveredInv(h: Host, r: RxSide) {
    h.delivered == OfPolls(r.popped, h.completed)
  }

  ghost predicate RxInv(s: State) {
    && HostInv(s.host)
    && Conserved(s.rx, s.bridge)
    && RxLink(s.host.log, s.rx)
    && CacheInv(s.host.log, s.rx)
    && ResponseInv(s.host, s.rx)
    && AnsweredInv(s.host, s.rx)
    && PoppedInv(s.host.log, s.rx)
    && DeliveredInv(s.host, s.rx)
  }

  // ---------------------------------------------------------------- Server decision

  /** The cache recognises exactly the poll it answered: identifiers never wrap into it. */
  lemma PollDecision(h: Host, r: RxSide, poll: Stamp)
    requires HostInv(h) && AnsweredInv(h, r) && CacheInv(h.log, r)
    requires r.phase.Idle? && r.cached.Some? && LoggedRx(h.log, poll)
    requires Newest(r.served) <= poll.serial
    ensures r.cached.value.stamp.transaction == poll.transaction
            <==> r.cached.value.stamp.serial == poll.serial
  {
    var c := r.cached.value.stamp;
    if c.transaction == poll.transaction && c.serial < poll.serial {
      var x := PollBetween(h, c.serial, poll.serial);
    }
  }

  /** A response that matches the open poll was made for it. */
  lemma MatchIsGenuine(h: Host, r: RxSide, a: RxResponse)
    requires HostInv(h) && h.phase.RxOpen? && Answer(h, r, a) && LoggedRx(h.log, a.stamp)
    requires a.stamp.transaction == h.phase.poll.transaction
    ensures a.stamp == h.phase.poll
  {
    if a.stamp.serial < h.phase.poll.serial {
      var x := PollBetween(h, a.stamp.serial, h.phase.poll.serial);
    }
  }

  // ---------------------------------------------------------------- Preservation

  /** The half of the invariant that does not concern the bridge. */
  ghost predicate Exchange(h: Host, r: RxSide) {
    && RxLink(h.log, r) && CacheInv(h.log, r) && ResponseInv(h, r)
    && AnsweredInv(h, r) && PoppedInv(h.log, r) && DeliveredInv(h, r)
  }

  /** Opening a transaction or a session does not concern the RX side. */
  lemma HostMoves(h: Host, h': Host, r: RxSide)
    requires Exchange(h, r) && h.log <= h'.log && h'.delivered == h.delivered
    requires h'.completed == h.completed && forall k :: k in h.completed ==> k < |h.log|
    ensures Exchange(h', r)
  {
  }

  /** Nor does a completed TX. */
  lemma TxCompletes(h: Host, h': Host, r: RxSide, k: nat)
    requires Exchange(h, r) && IsTx(h.log, k) && h'.log == h.log && h'.delivered == h.delivered
    requires h'.completed == h.completed + {k}
    ensures Exchange(h', r)
  {
    forall i | 0 <= i < |r.responses| ensures Answer(h', r, r.responses[i]) {
      assert Answer(h, r, r.responses[i]);
    }
    OfPollsIgnores(r.popped, h.completed, k);
  }

  lemma SendKeepsRx(h: Host, r: RxSide, poll: Stamp)
    requires Exchange(h, r) && LoggedRx(h.log, poll) && poll.serial == |h.log| - 1
    ensures Exchange(h, r.(requests := r.requests + [poll]))
  {
    var r' := r.(requests := r.requests + [poll]);
    assert RxLink(h.log, r') by {
      forall i | 0 <= i < |r'.requests|
        ensures LoggedRx(h.log, r'.requests[i]) && Newest(r.served) <= r'.requests[i].serial
      {
        if i < |r.requests| { assert r'.requests[i] == r.requests[i]; }
      }
    }
    hide RxLink;
  }

  /** The queue of radio frames and the count of received ones may change freely. */
  lemma QueueMoves(h: Host, r: RxSide, r': RxSide)
    requires Exchange(h, r)
    requires r' == r.(wifiToHost := r'.wifiToHost, received := r'.received)
    ensures Exchange(h, r')
  {
  }

  /** A server that has received a poll newer than its cache. */
  ghost predicate FreshPoll(log: seq<Entry>, r: RxSide, poll: Stamp) {
    && r.served != [] && poll == r.served[|r.served| - 1] && LoggedRx(log, poll)
    && (r.cached.Some? ==> r.cached.value.stamp.serial < poll.serial)
  }

  lemma AnswerKeepsLink(h: Host, r: RxSide, poll: Stamp)
    requires RxLink(h.log, r) && ResponseInv(h, r) && AnsweredInv(h, r) && FreshPoll(h.log, r, poll)
    ensures var r' := AnswerRx(r, poll);
            && RxLink(h.log, r') && CacheInv(h.log, r') && ResponseInv(h, r') && AnsweredInv(h, r')
  {
  }

  /** All popped frames are older than a new poll. */
  lemma PoppedBefore(log: seq<Entry>, r: RxSide, poll: Stamp)
    requires PoppedInv(log, r) && FreshPoll(log, r, poll)
    ensures forall i :: 0 <= i < |r.popped| ==> r.popped[i].serial < poll.serial && IsRx(log, r.popped[i].serial)
  {
  }

  lemma AnswerKeepsPopped(log: seq<Entry>, r: RxSide, poll: Stamp)
    requires PoppedInv(log, r) && FreshPoll(log, r, poll)
    ensures PoppedInv(log, AnswerRx(r, poll))
  {
    PoppedBefore(log, r, poll);
    var r', n := AnswerRx(r, poll), |r.popped|;
    assert r'.cached.value.stamp == poll && IsRx(log, poll.serial);
    forall i | 0 <= i < |r'.popped| ensures IsRx(log, r'.popped[i].serial) && r'.popped[i].serial <= poll.serial {
      if i < n { assert r'.popped[i] == r.popped[i]; }
    }
    forall i, j | 0 <= i < j < |r'.popped| ensures r'.popped[i].serial < r'.popped[j].serial {
      assert r'.popped[i] == r.popped[i];
      if j < n { assert r'.popped[j] == r.popped[j]; }
    }
    hide FreshPoll;
    if n > 0 && r.wifiToHost == [] { assert r'.popped[n - 1] == r.popped[n - 1]; }
  }

  lemma AnswerKeepsDelivered(h: Host, r: RxSide, poll: Stamp)
    requires AnsweredInv(h, r) && DeliveredInv(h, r) && FreshPoll(h.log, r, poll)
    ensures DeliveredInv(h, AnswerRx(r, poll))
  {
  }

  lemma AnswerKeepsRx(h: Host, r: RxSide, poll: Stamp)
    requires RxLink(h.log, r) && ResponseInv(h, r) && AnsweredInv(h, r)
    requires PoppedInv(h.log, r) && DeliveredInv(h, r) && FreshPoll(h.log, r, poll)
    ensures Exchange(h, AnswerRx(r, poll))
  {
    hide RxLink, CacheInv, ResponseInv, AnsweredInv, PoppedInv, DeliveredInv, FreshPoll, AnswerRx;
    AnswerKeepsLink(h, r, poll);
    AnswerKeepsPopped(h.log, r, poll);
    AnswerKeepsDelivered(h, r, poll);
  }

  lemma ReceiveKeepsRx(h: Host, r: RxSide, i: nat)
    requires Exchange(h, r) && r.phase.Idle? && i < |r.requests|
    ensures var r' := r.(requests := r.requests[i + 1..], served := r.served + [r.requests[i]]);
            && RxLink(h.log, r') && ResponseInv(h, r') && AnsweredInv(h, r')
            && PoppedInv(h.log, r') && DeliveredInv(h, r')
  {
  }

  lemma RepeatKeepsRx(h: Host, r: RxSide)
    requires RxLink(h.log, r) && ResponseInv(h, r) && AnsweredInv(h, r)
    requires PoppedInv(h.log, r) && DeliveredInv(h, r)
    requires r.cached.Some? && r.served != [] && LoggedRx(h.log, r.served[|r.served| - 1])
    requires r.cached.value.stamp == r.served[|r.served| - 1] && r.phase.Idle?
    ensures Exchange(h, r.(responses := r.responses + [r.cached.value]))
  {
  }

  lemma ServeKeepsRx(h: Host, r: RxSide, i: nat)
    requires HostInv(h) && Exchange(h, r) && r.phase.Idle? && i < |r.requests|
    ensures Exchange(h, ServeRxSide(r, i))
  {
    var poll := r.requests[i];
    assert LoggedRx(h.log, poll) && Newest(r.served) <= poll.serial;
    if r.cached.Some? { PollDecision(h, r, poll); }
    hide HostInv, RxLink, ResponseInv, AnsweredInv, PoppedInv, DeliveredInv;
    ReceiveKeepsRx(h, r, i);
    var r1 := r.(requests := r.requests[i + 1..], served := r.served + [poll]);
    if r.cached.Some? && r.cached.value.stamp.transaction == poll.transaction {
      RepeatKeepsRx(h, r1);
    } else if r.wifiToHost != [] {
      AnswerKeepsRx(h, r1, poll);
    } else {
      PhaseFrame(h, r1, r1.(phase := Polling(poll)));
    }
  }

  lemma PhaseFrame(h: Host, r: RxSide, r': RxSide)
    requires RxLink(h.log, r) && ResponseInv(h, r) && AnsweredInv(h, r)
    requires PoppedInv(h.log, r) && DeliveredInv(h, r)
    requires r' == r.(phase := r'.phase)
    ensures RxLink(h.log, r') && ResponseInv(h, r') && AnsweredInv(h, r')
    ensures PoppedInv(h.log, r') && DeliveredInv(h, r')
  {
  }

  /** The accepted response hands TAP the frame popped for this poll, if there was one. */
  lemma HearKeepsDelivered(h: Host, r: RxSide, a: RxResponse)
    requires h.phase.RxOpen? && PoppedInv(h.log, r) && DeliveredInv(h, r)
    requires r.cached == Some(a) && a.stamp == h.phase.poll && a.stamp.serial !in h.completed
    ensures DeliveredInv(HearRxHost(h, a), r)
  {
    var c, n := a.stamp.serial, |r.popped|;
    if a.frame.Some? {
      OfPollsIgnores(r.popped[..n - 1], h.completed, c);
    } else {
      OfPollsIgnores(r.popped, h.completed, c);
    }
  }

  /** Hearing skips the responses before `i`, so none older than the open poll is left. */
  lemma HearKeepsResponses(h: Host, r: RxSide, i: nat, d: nat)
    requires RxLink(h.log, r) && CacheInv(h.log, r) && ResponseInv(h, r) && AnsweredInv(h, r)
    requires h.phase.RxOpen? && i < |r.responses| && i <= d <= |r.responses|
    requires h.phase.poll.serial == |h.log| - 1
    requires r.responses[i].stamp.transaction == h.phase.poll.transaction ==>
               r.responses[i].stamp == h.phase.poll && r.cached == Some(r.responses[i])
    ensures var h', r' := HearRxHost(h, r.responses[i]), r.(responses := r.responses[d..]);
            && RxLink(h.log, r') && CacheInv(h.log, r') && ResponseInv(h', r') && AnsweredInv(h', r')
  {
  }

  /** The cache still holds the response that completes the open poll. */
  lemma MatchIsCached(h: Host, r: RxSide, i: nat)
    requires HostInv(h) && h.phase.RxOpen? && i < |r.responses|
    requires RxLink(h.log, r) && CacheInv(h.log, r) && ResponseInv(h, r)
    ensures h.phase.poll.serial == |h.log| - 1 && h.phase.poll.serial !in h.completed
    ensures r.responses[i].stamp.transaction == h.phase.poll.transaction ==>
              r.responses[i].stamp == h.phase.poll && r.cached == Some(r.responses[i])
  {
    assert Answer(h, r, r.responses[i]) && LoggedRx(h.log, r.responses[i].stamp);
    if r.responses[i].stamp.transaction == h.phase.poll.transaction {
      MatchIsGenuine(h, r, r.responses[i]);
    }
  }

  lemma HearKeepsRx(h: Host, r: RxSide, i: nat, d: nat)
    requires HostInv(h) && Exchange(h, r) && h.phase.RxOpen?
    requires i < |r.responses| && i <= d <= |r.responses|
    ensures Exchange(HearRxHost(h, r.responses[i]), r.(responses := r.responses[d..]))
  {
    hide HostInv, RxLink, CacheInv, ResponseInv, AnsweredInv, PoppedInv, DeliveredInv;
    MatchIsCached(h, r, i);
    HearKeepsResponses(h, r, i, d);
    if r.responses[i].stamp.transaction == h.phase.poll.transaction {
      HearKeepsDelivered(h, r, r.responses[i]);
    }
    var h', r' := HearRxHost(h, r.responses[i]), r.(responses := r.responses[d..]);
    FramesFrame(h', r, r');
  }

  lemma FramesFrame(h: Host, r: RxSide, r': RxSide)
    requires PoppedInv(h.log, r) && DeliveredInv(h, r)
    requires r'.popped == r.popped && r'.cached == r.cached
    ensures PoppedInv(h.log, r') && DeliveredInv(h, r')
  {
  }

  // ---------------------------------------------------------------- All steps

  lemma InitialRxInv(session: SessionId)
    ensures RxInv(Initial(session))
  {
  }

  lemma HostFacts(h: Host)
    requires HostInv(h)
    ensures forall k :: k in h.completed ==> k < |h.log|
    ensures h.phase.TxOpen? ==> IsTx(h.log, h.phase.request.stamp.serial)
    ensures h.phase.RxOpen? ==> LoggedRx(h.log, h.phase.poll) && h.phase.poll.serial == |h.log| - 1
  {
  }

  lemma ExchangeHostStep(s: State, step: Step)
    requires HostInv(s.host) && Exchange(s.host, s.rx) && Enabled(s, step)
    requires step.OpenTx? || step.OpenRx? || step.Restart? || step.HearTx? || step.HearRx? || step.SendRx?
    ensures Exchange(Apply(s, step).host, Apply(s, step).rx)
  {
    hide HostInv, Exchange, IsTx, LoggedRx;
    var s' := Apply(s, step);
    HostFacts(s.host);
    match step {
      case HearTx(i, _) =>
        if s'.host != s.host {
          TxCompletes(s.host, s'.host, s.rx, s.host.phase.request.stamp.serial);
        }
      case HearRx(i, keep) => HearKeepsRx(s.host, s.rx, i, if keep then i else i + 1);
      case SendRx => SendKeepsRx(s.host, s.rx, s.host.phase.poll);
      case _ => HostMoves(s.host, s'.host, s.rx);
    }
  }

  lemma ExchangeDeviceStep(s: State, step: Step)
    requires HostInv(s.host) && Exchange(s.host, s.rx) && Enabled(s, step)
    requires step.ServeRx? || step.PopRx? || step.TimeoutRx?
    ensures Exchange(Apply(s, step).host, Apply(s, step).rx)
  {
    var r := s.rx;
    if step.ServeRx? {
      ServeKeepsRx(s.host, r, step.i);
    } else {
      assert LoggedRx(s.host.log, r.served[|r.served| - 1]);
      AnswerKeepsRx(s.host, r, r.phase.poll);
    }
  }

  lemma RxStep(s: State, step: Step)
    requires RxInv(s) && Enabled(s, step)
    ensures RxInv(Apply(s, step))
  {
    hide HostInv, Conserved, RxLink, CacheInv, ResponseInv, AnsweredInv, PoppedInv, DeliveredInv;
    HostStep(s, step);
    ConservedStep(s, step);
    if step.OpenTx? || step.OpenRx? || step.Restart? || step.HearTx? || step.HearRx? || step.SendRx? {
      ExchangeHostStep(s, step);
    } else if step.ServeRx? || step.PopRx? || step.TimeoutRx? {
      ExchangeDeviceStep(s, step);
    } else {
      QueueMoves(s.host, s.rx, Apply(s, step).rx);
    }
  }
}
