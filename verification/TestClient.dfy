/**
 * The test-mode client. It drops the response socket and sends its request again every
 * 250 ms, without limit, and discards oversize frames before it opens a transaction. It is
 * another client of the same servers: every run of it is a run of the protocol.
 */
module TestClient {
  import opened Wire
  import opened Protocol
  import opened HostLog
  import opened RxPath
  import opened Delivery
  import opened EndpointWait
  import opened SerialClient
  import Progress

  datatype TestPhase =
    | LoopHead
    | PollDue                        // after a TX, or after a discarded frame
    | SendingTx(request: TxRequest)
    | SendingRx(poll: Stamp)
    | Stopped

  datatype Tester = Tester(
    session: SessionId,
    nextId: Id,
    phase: TestPhase,
    rxQueue: seq<Frame>,             // frames pushed for the network stack
    // History
    count: nat,
    taken: seq<Frame>)               // frames taken from the network stack

  /** What the task observes at its next `select!` or `try_recv`. */
  datatype Observation =
    | FrameQueued(frame: Frame)
    | QueueEmpty
    | GoOn                                        // the poll follows, nothing is awaited
    | TxResult(txResult: Result<Stamp>)
    | RxResult(rxResult: Result<RxResponse>)
    | Timeout                                     // 250 ms without a response
    | Cancel

  function StartTest(session: SessionId): Tester {
    Tester(session, 0, LoopHead, [], 0, [])
  }

  predicate Possible(c: Tester, o: Observation) {
    match o
    case FrameQueued(_) => c.phase.LoopHead?
    case QueueEmpty => c.phase.LoopHead?
    case GoOn => c.phase.PollDue?
    case TxResult(_) => c.phase.SendingTx?
    case RxResult(_) => c.phase.SendingRx?
    case _ => c.phase.SendingTx? || c.phase.SendingRx?
  }

  function TestStamp(c: Tester): Stamp {
    Stamp(Transaction(c.session, c.nextId), c.count)
  }

  function Poll(c: Tester): Tester {
    c.(phase := SendingRx(TestStamp(c)), nextId := WrappingIncrement(c.nextId), count := c.count + 1)
  }

  function Observe(c: Tester, o: Observation): Tester
    requires Possible(c, o)
  {
    match o
    case FrameQueued(frame) =>
      var c := c.(taken := c.taken + [frame]);
      if InSize(frame) then
        c.(phase := SendingTx(TxRequest(TestStamp(c), frame)), nextId := WrappingIncrement(c.nextId),
           count := c.count + 1)
      else
        c.(phase := PollDue)
    case QueueEmpty => Poll(c)
    case GoOn => Poll(c)
    case TxResult(result) =>
      if result.Ok? && result.response.transaction == c.phase.request.stamp.transaction
      then c.(phase := PollDue) else c
    case RxResult(result) =>
      if result.Ok? && result.response.stamp.transaction == c.phase.poll.transaction
      then c.(phase := LoopHead,
              rxQueue := if result.response.frame.Some? then c.rxQueue + [result.response.frame.value]
                         else c.rxQueue)
      else c
    case Timeout => c
    case Cancel => c.(phase := Stopped)
  }

  // ---------------------------------------------------------------- Refinement

  /** Sending again, if this observation left the transaction open. */
  function Again(c: Tester): seq<Step> {
    if c.phase.SendingTx? then [SendTx] else if c.phase.SendingRx? then [SendRx] else []
  }

  function TestMoves(c: Tester, o: Observation, i: nat, keep: bool): seq<Step>
    requires Possible(c, o)
  {
    match o
    case FrameQueued(frame) => if InSize(frame) then [OpenTx(frame), SendTx] else []
    case QueueEmpty => [OpenRx, SendRx]
    case GoOn => [OpenRx, SendRx]
    case TxResult(Ok(_)) => [HearTx(i, keep)] + Again(Observe(c, o))
    case RxResult(Ok(_)) => [HearRx(i, keep)] + Again(Observe(c, o))
    case Cancel => []
    case _ => Again(c)
  }

  predicate TestFeasible(s: State, o: Observation, i: nat) {
    match o
    case TxResult(Ok(r)) => i < |s.tx.responses| && s.tx.responses[i] == r
    case RxResult(Ok(r)) => i < |s.rx.responses| && s.rx.responses[i] == r
    case _ => true
  }

  /** The in-size frames among those taken from the network stack. */
  function Sized(frames: seq<Frame>): seq<Frame> {
    if frames == [] then []
    else
      var rest, last := Sized(frames[..|frames| - 1]), frames[|frames| - 1];
      if InSize(last) then rest + [last] else rest
  }

  /** The frames of the TX transactions of a log. */
  function TxFrames(log: seq<Entry>): seq<Frame> {
    if log == [] then []
    else
      var rest, last := TxFrames(log[..|log| - 1]), log[|log| - 1];
      if last.payload.Tx? then rest + [last.payload.frame] else rest
  }

  ghost predicate TestRelated(c: Tester, h: Host) {
    && |h.used| == 1
    && c.session == h.session && c.nextId == h.nextId && c.count == |h.log|
    && TxFrames(h.log) == Sized(c.taken) && Frames(h.delivered) == c.rxQueue
    && match c.phase
       case LoopHead => h.phase == Ready
       case PollDue => h.phase == MustPoll || h.phase == Ready
       case SendingTx(request) => h.phase == TxOpen(request)
       case SendingRx(poll) => h.phase == RxOpen(poll)
       case Stopped => true
  }

  lemma TestSimulatesOpening(c: Tester, s: State, o: Observation, i: nat, keep: bool)
    requires TestRelated(c, s.host) && Possible(c, o) && (o.FrameQueued? || o.QueueEmpty? || o.GoOn?)
    ensures ValidRun(s, TestMoves(c, o, i, keep))
    ensures TestRelated(Observe(c, o), Execute(s, TestMoves(c, o, i, keep)).host)
  {
    var moves, c' := TestMoves(c, o, i, keep), Observe(c, o);
    if o.FrameQueued? {
      assert c'.taken[..|c.taken|] == c.taken;
    }
    if moves != [] {
      assert moves == [moves[0]] + [moves[1]];
      RunOfTwo(s, moves[0], [moves[1]]);
      var log' := Apply(s, moves[0]).host.log;
      assert log'[..|s.host.log|] == s.host.log;
    }
  }

  lemma TestSimulatesWaiting(c: Tester, s: State, o: Observation, i: nat, keep: bool)
    requires TestRelated(c, s.host) && Possible(c, o) && TestFeasible(s, o, i)
    requires o.TxResult? || o.RxResult? || o.Timeout? || o.Cancel?
    ensures ValidRun(s, TestMoves(c, o, i, keep))
    ensures TestRelated(Observe(c, o), Execute(s, TestMoves(c, o, i, keep)).host)
  {
    var moves, c' := TestMoves(c, o, i, keep), Observe(c, o);
    if moves != [] {
      RunOfTwo(s, moves[0], moves[1..]);
      assert moves == [moves[0]] + moves[1..];
      var h' := Apply(s, moves[0]).host;
      if h'.delivered != s.host.delivered {
        assert h'.delivered[..|s.host.delivered|] == s.host.delivered;
      }
    }
  }

  // ---------------------------------------------------------------- Whole runs

  datatype TestMove = TestHostMove(o: Observation, i: nat, keep: bool) | TestDeviceMove(step: Step)

  ghost predicate TestRun(c: Tester, s: State, moves: seq<TestMove>, c': Tester, s': State)
    decreases |moves|
  {
    if moves == [] then c == c' && s == s'
    else match moves[0]
      case TestHostMove(o, i, keep) =>
        && Possible(c, o) && TestFeasible(s, o, i)
        && ValidRun(s, TestMoves(c, o, i, keep))
        && TestRun(Observe(c, o), Execute(s, TestMoves(c, o, i, keep)), moves[1..], c', s')
      case TestDeviceMove(step) =>
        OfDevice(step) && Enabled(s, step) && TestRun(c, Apply(s, step), moves[1..], c', s')
  }

  lemma {:induction false} TestRunKeeps(c: Tester, s: State, moves: seq<TestMove>, c': Tester, s': State)
    requires TestRun(c, s, moves, c', s') && Reachable(s) && TestRelated(c, s.host)
    ensures Reachable(s') && TestRelated(c', s'.host)
    decreases |moves|
  {
    hide Reachable, TestRelated, TestMoves, Observe;
    if moves != [] {
      match moves[0] {
        case TestHostMove(o, i, keep) =>
          if o.FrameQueued? || o.QueueEmpty? || o.GoOn? {
            TestSimulatesOpening(c, s, o, i, keep);
          } else {
            TestSimulatesWaiting(c, s, o, i, keep);
          }
          ReachableRun(s, TestMoves(c, o, i, keep));
          TestRunKeeps(Observe(c, o), Execute(s, TestMoves(c, o, i, keep)), moves[1..], c', s');
        case TestDeviceMove(step) =>
          ReachableStep(s, step);
          TestDeviceKeepsHost(c, s, step);
          TestRunKeeps(c, Apply(s, step), moves[1..], c', s');
      }
    }
  }

  lemma TestDeviceKeepsHost(c: Tester, s: State, step: Step)
    requires TestRelated(c, s.host) && Enabled(s, step) && OfDevice(step)
    ensures TestRelated(c, Apply(s, step).host)
  {
  }

  /** Every run of the test-mode client against the device is a run of the protocol. */
  lemma TestClientRefinesProtocol(session: SessionId, moves: seq<TestMove>, c: Tester, s: State)
    requires TestRun(StartTest(session), Initial(session), moves, c, s)
    ensures Reachable(s) && TestRelated(c, s.host)
  {
    hide Reachable, TestRun;
    InitialReachable(session);
    TestRunKeeps(StartTest(session), Initial(session), moves, c, s);
  }

  // ---------------------------------------------------------------- It sends again, and goes on

  /** What is on the link after an observation: one more copy of the open request, if one is open. */
  ghost predicate SentOnce(c: Tester, s: State, s': State) {
    && s'.tx.requests == (if c.phase.SendingTx? then s.tx.requests + [c.phase.request] else s.tx.requests)
    && s'.rx.requests == (if c.phase.SendingRx? then s.rx.requests + [c.phase.poll] else s.rx.requests)
  }

  lemma OpeningSends(c: Tester, s: State, o: Observation, i: nat, keep: bool)
    requires TestRelated(c, s.host) && Possible(c, o) && (o.FrameQueued? || o.QueueEmpty? || o.GoOn?)
    requires ValidRun(s, TestMoves(c, o, i, keep))
    ensures SentOnce(Observe(c, o), s, Execute(s, TestMoves(c, o, i, keep)))
  {
    hide TxFrames, Sized, Frames;
    var moves := TestMoves(c, o, i, keep);
    if moves != [] {
      assert moves == [moves[0]] + [moves[1]];
      RunOfTwo(s, moves[0], [moves[1]]);
    }
  }

  lemma WaitingSends(c: Tester, s: State, o: Observation, i: nat, keep: bool)
    requires Possible(c, o) && TestFeasible(s, o, i) && (o.TxResult? || o.RxResult? || o.Timeout? || o.Cancel?)
    requires if c.phase.SendingTx? then s.host.phase == TxOpen(c.phase.request)
             else s.host.phase == RxOpen(c.phase.poll)
    requires ValidRun(s, TestMoves(c, o, i, keep))
    ensures SentOnce(Observe(c, o), s, Execute(s, TestMoves(c, o, i, keep)))
  {
    var moves := TestMoves(c, o, i, keep);
    if moves != [] {
      assert ValidRun(Apply(s, moves[0]), moves[1..]);
      RunOfTwo(s, moves[0], moves[1..]);
      assert moves == [moves[0]] + moves[1..];
      if |moves| == 2 {
        assert moves[1..] == Again(Observe(c, o)) == Again(c);
      } else {
        assert moves[1..] == [];
      }
    }
  }

  /**
   * Whatever the client observes, a timeout, an error or a stale response included, if that
   * leaves a transaction open then exactly one more copy of its request goes out, and else
   * none; so the request is under way.
   */
  lemma TestClientSends(c: Tester, s: State, o: Observation, i: nat, keep: bool)
    requires TestRelated(c, s.host) && Possible(c, o) && TestFeasible(s, o, i)
    ensures ValidRun(s, TestMoves(c, o, i, keep))
    ensures var c', s' := Observe(c, o), Execute(s, TestMoves(c, o, i, keep));
            SentOnce(c', s, s') && (c'.phase.SendingTx? || c'.phase.SendingRx? ==> Progress.Pending(s'))
  {
    hide Observe, TestMoves, Execute;
    if o.FrameQueued? || o.QueueEmpty? || o.GoOn? {
      TestSimulatesOpening(c, s, o, i, keep);
      OpeningSends(c, s, o, i, keep);
    } else {
      TestSimulatesWaiting(c, s, o, i, keep);
      WaitingSends(c, s, o, i, keep);
    }
    SentIsPending(Observe(c, o), s, Execute(s, TestMoves(c, o, i, keep)));
  }

  lemma SentIsPending(c: Tester, s: State, s': State)
    requires TestRelated(c, s'.host) && SentOnce(c, s, s')
    ensures c.phase.SendingTx? || c.phase.SendingRx? ==> Progress.Pending(s')
  {
    hide TxFrames, Sized, Frames;
    if c.phase.SendingTx? {
      assert s'.tx.requests[|s.tx.requests|] == c.phase.request;
    } else if c.phase.SendingRx? {
      assert s'.rx.requests[|s.rx.requests|] == c.phase.poll;
    }
  }

  /**
   * No circular wait for this client either: in every run, once it has timed out and sent
   * again, every schedule without loss is bounded and can go on until the transaction has
   * completed.
   */
  lemma TestClientGoesOn(session: SessionId, moves: seq<TestMove>, c: Tester, s: State, steps: seq<Step>)
    requires TestRun(StartTest(session), Initial(session), moves, c, s) && Possible(c, Timeout)
    requires ValidRun(s, TestMoves(c, Timeout, 0, false))
    requires var s' := Execute(s, TestMoves(c, Timeout, 0, false));
             ValidRun(s', steps) && Progress.AllPrompt(steps)
    ensures var s' := Execute(s, TestMoves(c, Timeout, 0, false));
            && |steps| <= Progress.Rank(s') + Progress.OversizeCount(steps)
            && (Progress.OpenSerial(s'.host) in Execute(s', steps).host.completed
                || exists step :: Progress.Prompt(step) && !step.RadioRx? && Enabled(Execute(s', steps), step))
  {
    hide Reachable, TestRun, TestRelated, SentOnce, Progress.Pending, Progress.Rank;
    TestClientRefinesProtocol(session, moves, c, s);
    TestClientSends(c, s, Timeout, 0, false);
    ReachableRun(s, TestMoves(c, Timeout, 0, false));
    Progress.NoCircularWait(Execute(s, TestMoves(c, Timeout, 0, false)), steps);
  }

  /** The client stops exactly when it is cancelled. */
  lemma StopsExactlyOnCancel(c: Tester, o: Observation)
    requires Possible(c, o)
    ensures Observe(c, o).phase.Stopped? <==> o.Cancel?
  {
  }

  /**
   * Every frame taken from the stack, also a discarded one, is followed by a poll before the
   * next frame is taken. Polls are the transactions that are not TX.
   */
  predicate PollsKeepUp(c: Tester) {
    |c.taken| + |Sized(c.taken)| <= c.count +
    (if c.phase.PollDue? || c.phase.SendingTx? || c.phase.Stopped? then 1 else 0)
  }

  lemma PollsKeepUpStep(c: Tester, o: Observation)
    requires PollsKeepUp(c) && Possible(c, o)
    ensures PollsKeepUp(Observe(c, o))
  {
    if o.FrameQueued? {
      assert (c.taken + [o.frame])[..|c.taken|] == c.taken;
    }
  }

  lemma {:induction false} PollsKeepUpRun(c: Tester, s: State, moves: seq<TestMove>, c': Tester, s': State)
    requires TestRun(c, s, moves, c', s') && PollsKeepUp(c)
    ensures PollsKeepUp(c')
    decreases |moves|
  {
    hide PollsKeepUp, Observe, TestMoves, ValidRun, Execute;
    if moves != [] {
      match moves[0] {
        case TestHostMove(o, i, keep) =>
          PollsKeepUpStep(c, o);
          PollsKeepUpRun(Observe(c, o), Execute(s, TestMoves(c, o, i, keep)), moves[1..], c', s');
        case TestDeviceMove(step) => PollsKeepUpRun(c, Apply(s, step), moves[1..], c', s');
      }
    }
  }

  /** In every run neither direction starves: a poll follows every frame taken. */
  lemma TestClientPolls(session: SessionId, moves: seq<TestMove>, c: Tester, s: State)
    requires TestRun(StartTest(session), Initial(session), moves, c, s)
    ensures PollsKeepUp(c)
  {
    hide TestRun;
    PollsKeepUpRun(StartTest(session), Initial(session), moves, c, s);
  }

  // ---------------------------------------------------------------- Exactly once

  lemma {:induction false} CompletedFrames(log: seq<Entry>, done: set<nat>, n: nat)
    requires n <= |log| && forall k :: 0 <= k < n ==> k in done && log[k].epoch == 0
    ensures TxFrames(log[..n]) == FrameList(TxOf(log, done, 0, n))
  {
    if n > 0 {
      CompletedFrames(log, done, n - 1);
      assert log[..n][..n - 1] == log[..n - 1];
      if IsTx(log, n - 1) {
        FrameListSnoc(TxOf(log, done, 0, n - 1), RequestOf(log, n - 1));
      }
    }
  }

  lemma OneSessionCompleted(h: Host, n: nat)
    requires HostInv(h) && |h.used| == 1 && n <= |h.log|
    requires n == |h.log| ==> !h.phase.TxOpen? && !h.phase.RxOpen?
    ensures forall k :: 0 <= k < n ==> k in h.completed && h.log[k].epoch == 0
  {
    forall k | 0 <= k < n ensures k in h.completed && h.log[k].epoch == 0 {
      assert WireOf(h.used, h.log[k]);
      if k < |h.log| - 1 {
        assert WireOf(h.used, h.log[|h.log| - 1]);
        EarlierCompleted(h, k, |h.log| - 1);
      }
    }
  }

  /** In one session every TX but the open one is acknowledged. */
  lemma AcknowledgedFrames(h: Host)
    requires HostInv(h) && |h.used| == 1
    ensures TxFrames(h.log) == FrameList(Acknowledged(h, 0)) +
                               (if h.phase.TxOpen? then [h.phase.request.frame] else [])
  {
    var n := if h.phase.TxOpen? || h.phase.RxOpen? then |h.log| - 1 else |h.log|;
    OneSessionCompleted(h, n);
    CompletedFrames(h.log, h.completed, n);
    assert h.log[..|h.log|] == h.log;
  }

  /**
   * In every run of the test-mode client without an identifier collision, the radio accepted
   * the in-size frames the network stack queued, in order, each once, except perhaps the
   * last of them; the stack got the frames of the completed polls, in order; and what it
   * did not get yet is cached, queued or held.
   */
  lemma TestClientExactlyOnce(session: SessionId, moves: seq<TestMove>, c: Tester, s: State)
    requires TestRun(StartTest(session), Initial(session), moves, c, s)
    requires NoCollision(s.host, 0)
    ensures var accepted := FrameList(RadioOf(s.host.log, s.tx.radio, 0));
            accepted <= Sized(c.taken) && |Sized(c.taken)| <= |accepted| + 1
    ensures c.rxQueue == Frames(OfPolls(s.rx.popped, s.host.completed))
    ensures s.rx.received == c.rxQueue + CachedUnaccepted(s.host, s.rx) + s.rx.wifiToHost + HeldFrame(s.bridge)
  {
    TestClientRefinesProtocol(session, moves, c, s);
    hide Reachable, TestRun;
    ReachableHost(s);
    var h := s.host;
    AcknowledgedFrames(h);
    FreshIsAcknowledged(h, 0);
    var tail := HostToWifi(s, 0);
    if tail != [] {
      FrameListSnoc(Acknowledged(h, 0), tail[0]);
      assert Acknowledged(h, 0) + tail == Acknowledged(h, 0) + [tail[0]];
    } else {
      assert Acknowledged(h, 0) + tail == Acknowledged(h, 0);
    }
    var _ := WifiToHost(s, 0);
    OneSessionWifiToHost(s);
  }
}
