/**
 * The TAP side of the serial transport over any number of sessions: a reader task per
 * session, its one-slot queue, and the exchange task. Frames are accounted for from the
 * TAP device to the radio, whatever ends the sessions. The reader of an ended session may
 * linger while the next session runs.
 */
module TapSide {
  import opened Wire
  import opened Protocol
  import opened HostLog
  import opened Delivery
  import opened EndpointWait
  import opened SerialClient

  datatype Reader = Reading | Passing(frame: Frame) | Stopped

  datatype Session = Session(
    reader: Reader,
    queue: seq<Frame>,             // capacity 1
    cancelled: bool,               // its token is cancelled
    // History
    read: seq<Frame>,              // frames read from TAP
    acked: seq<Frame>,             // frames whose TX was acknowledged
    lostRequest: seq<Frame>,       // abandoned by the exchange task
    lostQueued: seq<Frame>,        // abandoned in the queue
    lostByReader: seq<Frame>)      // abandoned by the reader

  datatype World = World(client: Client, device: State, sessions: seq<Session>, tapRx: nat)

  const NEW_SESSION := Session(Reading, [], false, [], [], [], [], [])

  function StartWorld(session: SessionId, recovery: bool): World {
    World(Start(session, recovery), Initial(session), [NEW_SESSION], 0)
  }

  /** The exchange task of session `k` has not ended. */
  predicate Alive(w: World, k: nat) {
    k == |w.sessions| - 1 && !w.client.phase.Ended?
  }

  /** The frame the exchange task is trying to get acknowledged. */
  function HeldIn(phase: Phase): seq<Frame> {
    if phase.TxWaiting? then [phase.request.frame] else []
  }

  function InExchange(w: World, k: nat): seq<Frame> {
    if k == |w.sessions| - 1 then HeldIn(w.client.phase) else []
  }

  function InReader(s: Session): seq<Frame> {
    if s.reader.Passing? then [s.reader.frame] else []
  }

  /** The frame in the reader, or the one it abandoned. */
  function AtReader(s: Session): seq<Frame> {
    InReader(s) + s.lostByReader
  }

  function Abandoned(s: Session): seq<Frame> {
    s.lostRequest + s.lostQueued + s.lostByReader
  }

  // ---------------------------------------------------------------- Steps

  datatype TapStep =
    | Read(k: nat, frame: Frame)                    // `record_tap_rx` counts it
    | Push(k: nat)                                  // the queue has room
    | GiveUp(k: nat)                                // cancelled, or the queue is closed
    | CancelToken(k: nat)
    | Exchange(input: Input, i: nat, keep: bool)
    | OfTheDevice(step: Step)

  predicate SeesCancellation(input: Input) {
    || (input.TxEvent? && input.txEvent.CancelSeen?)
    || (input.RxEvent? && input.rxEvent.CancelSeen?)
  }

  ghost predicate Can(w: World, step: TapStep) {
    match step
    case Read(k, frame) => k < |w.sessions| && w.sessions[k].reader.Reading? && 0 < |frame| && InSize(frame)
    case Push(k) => k < |w.sessions| && w.sessions[k].reader.Passing? && Alive(w, k) && w.sessions[k].queue == []
    case GiveUp(k) =>
      && k < |w.sessions| && !w.sessions[k].reader.Stopped?
      && (w.sessions[k].cancelled || (w.sessions[k].reader.Passing? && !Alive(w, k)))
    case CancelToken(k) => k < |w.sessions|
    case Exchange(input, i, keep) =>
      && w.sessions != []
      && Accepted(w.client, input) && Feasible(w.device, input, i)
      && ValidRun(w.device, Moves(w.client, input, i, keep))
      && var last := w.sessions[|w.sessions| - 1];
         && (input.FrameTaken? ==> last.queue == [input.frame])
         && (SeesCancellation(input) || input.NewSession? ==> last.cancelled)
    case OfTheDevice(step) => OfDevice(step) && Enabled(w.device, step)
  }

  /** What the exchange task's move means for its session. */
  function Settle(s: Session, before: Phase, after: Phase, input: Input): Session {
    if input.FrameTaken? then s.(queue := [])
    else if after.Ended? then s.(lostRequest := HeldIn(before), lostQueued := s.queue, queue := [])
    else if after.BeforePoll? then s.(acked := s.acked + HeldIn(before))
    else s
  }

  ghost function Do(w: World, step: TapStep): World
    requires Can(w, step)
  {
    match step
    case Read(k, frame) =>
      var s := w.sessions[k];
      w.(sessions := w.sessions[k := s.(reader := Passing(frame), read := s.read + [frame])],
         tapRx := w.tapRx + 1)
    case Push(k) =>
      var s := w.sessions[k];
      w.(sessions := w.sessions[k := s.(reader := Reading, queue := [s.reader.frame])])
    case GiveUp(k) =>
      var s := w.sessions[k];
      w.(sessions := w.sessions[k := s.(reader := Stopped, lostByReader := InReader(s))])
    case CancelToken(k) => w.(sessions := w.sessions[k := w.sessions[k].(cancelled := true)])
    case Exchange(input, i, keep) =>
      var c, c', n := w.client, Next(w.client, input), |w.sessions| - 1;
      World(c', Execute(w.device, Moves(c, input, i, keep)),
            if input.NewSession? then w.sessions + [NEW_SESSION]
            else w.sessions[n := Settle(w.sessions[n], c.phase, c'.phase, input)],
            w.tapRx)
    case OfTheDevice(step) => w.(device := Apply(w.device, step))
  }

  // ---------------------------------------------------------------- Frames of a session

  /**
   * Every frame read in a session is in exactly one place, and the places are in order.
   * `held` is the frame in the exchange task, which is there while it is `alive`.
   */
  ghost predicate InPlace(s: Session, held: seq<Frame>, alive: bool) {
    && s.read == (s.acked + (s.lostRequest + held)) + ((s.lostQueued + s.queue) + AtReader(s))
    && |s.queue| <= 1 && |s.lostRequest| <= 1 && |s.lostQueued| <= 1 && |s.lostByReader| <= 1
    && (if alive then s.lostRequest == [] && s.lostQueued == [] else s.queue == [])
    && (!s.reader.Stopped? ==> s.lostByReader == [])
  }

  /** How a move of the exchange task changes the frame it holds. */
  lemma PhaseMoves(c: Client, input: Input)
    requires Accepted(c, input)
    ensures var before, after := c.phase, Next(c, input).phase;
            && before.Ended? == input.NewSession?
            && (input.NewSession? ==> after.AtLoopHead?)
            && (input.FrameTaken? ==> !before.TxWaiting? && HeldIn(after) == [input.frame])
            && (before.TxWaiting? ==> after == before || after.Ended? || after.BeforePoll?
                                      || HeldIn(after) == HeldIn(before))
            && (after.BeforePoll? ==> before.TxWaiting?)
            && (!before.TxWaiting? && !input.FrameTaken? ==> !after.TxWaiting?)
  {
  }

  lemma TakenInPlace(s: Session)
    requires InPlace(s, [], true)
    ensures InPlace(s.(queue := []), s.queue, true)
  {
  }

  lemma AckedInPlace(s: Session, held: seq<Frame>)
    requires InPlace(s, held, true)
    ensures InPlace(s.(acked := s.acked + held), [], true)
  {
  }

  lemma EndedInPlace(s: Session, held: seq<Frame>)
    requires InPlace(s, held, true) && |held| <= 1
    ensures InPlace(s.(lostRequest := held, lostQueued := s.queue, queue := []), [], false)
  {
  }

  lemma SettleInPlace(s: Session, c: Client, input: Input)
    requires Accepted(c, input) && !input.NewSession? && (input.FrameTaken? ==> s.queue == [input.frame])
    requires InPlace(s, HeldIn(c.phase), true)
    ensures var after := Next(c, input).phase;
            InPlace(Settle(s, c.phase, after, input), if after.Ended? then [] else HeldIn(after), !after.Ended?)
  {
    hide Next, Accepted, InPlace;
    PhaseMoves(c, input);
    var held := HeldIn(c.phase);
    if input.FrameTaken? { TakenInPlace(s); }
    AckedInPlace(s, held);
    EndedInPlace(s, held);
  }

  lemma ReaderInPlace(w: World, step: TapStep, k: nat)
    requires Can(w, step) && !step.Exchange? && k < |w.sessions|
    requires InPlace(w.sessions[k], InExchange(w, k), Alive(w, k))
    ensures InPlace(Do(w, step).sessions[k], InExchange(w, k), Alive(w, k))
  {
    hide Enabled, Apply;
    var s, s' := w.sessions[k], Do(w, step).sessions[k];
    if s != s' && !step.CancelToken? {
      var passed := (s.lostQueued + s.queue) + AtReader(s);
      var passed' := (s'.lostQueued + s'.queue) + AtReader(s');
      assert step.Read? ==> passed' == passed + [step.frame];
      assert !step.Read? ==> passed' == passed;
    }
  }

  ghost predicate AllInPlace(w: World) {
    forall k: nat :: k < |w.sessions| ==> InPlace(w.sessions[k], InExchange(w, k), Alive(w, k))
  }

  lemma ReaderStepInPlace(w: World, step: TapStep)
    requires Can(w, step) && AllInPlace(w) && !step.Exchange?
    ensures AllInPlace(Do(w, step))
  {
    hide InPlace, Enabled, Apply;
    var w' := Do(w, step);
    assert |w'.sessions| == |w.sessions| && w'.client == w.client;
    forall k: nat | k < |w'.sessions| ensures InPlace(w'.sessions[k], InExchange(w', k), Alive(w', k)) {
      ReaderInPlace(w, step, k);
    }
  }

  lemma ExchangeStepInPlace(w: World, step: TapStep)
    requires Can(w, step) && AllInPlace(w) && step.Exchange?
    ensures AllInPlace(Do(w, step))
  {
    hide Next, Accepted, InPlace, Settle, Moves, Execute, ValidRun, Feasible;
    var w', n := Do(w, step), |w.sessions| - 1;
    PhaseMoves(w.client, step.input);
    forall k: nat | k < |w'.sessions| ensures InPlace(w'.sessions[k], InExchange(w', k), Alive(w', k)) {
      if k < n {
        assert w'.sessions[k] == w.sessions[k];
      } else if !step.input.NewSession? {
        SettleInPlace(w.sessions[k], w.client, step.input);
      } else {
        FreshInPlace();
      }
    }
  }

  lemma AllInPlaceStep(w: World, step: TapStep)
    requires Can(w, step) && AllInPlace(w) && w.sessions != []
    ensures AllInPlace(Do(w, step)) && Do(w, step).sessions != []
  {
    hide AllInPlace, Next, Accepted, Settle, Moves, Execute, ValidRun, Feasible, Enabled, Apply;
    if step.Exchange? {
      ExchangeStepInPlace(w, step);
    } else {
      ReaderStepInPlace(w, step);
    }
  }

  lemma FreshInPlace()
    ensures InPlace(NEW_SESSION, [], true)
  {
  }

  function TotalRead(sessions: seq<Session>): nat {
    if sessions == [] then 0
    else TotalRead(sessions[..|sessions| - 1]) + |sessions[|sessions| - 1].read|
  }

  lemma {:induction false} TotalReadUpdate(sessions: seq<Session>, k: nat, s: Session)
    requires k < |sessions|
    ensures TotalRead(sessions[k := s]) == TotalRead(sessions) - |sessions[k].read| + |s.read|
  {
    var n := |sessions| - 1;
    if k < n {
      TotalReadUpdate(sessions[..n], k, s);
      assert sessions[k := s][..n] == sessions[..n][k := s];
    } else {
      assert sessions[k := s][..n] == sessions[..n];
    }
  }

  lemma TotalReadNext(sessions: seq<Session>, s: Session)
    ensures TotalRead(sessions + [s]) == TotalRead(sessions) + |s.read|
  {
    assert (sessions + [s])[..|sessions|] == sessions;
  }

  lemma SettleReads(s: Session, before: Phase, after: Phase, input: Input)
    ensures Settle(s, before, after, input).read == s.read
  {
  }

  lemma TotalReadStep(w: World, step: TapStep)
    requires Can(w, step) && w.tapRx == TotalRead(w.sessions)
    ensures Do(w, step).tapRx == TotalRead(Do(w, step).sessions)
  {
    hide TotalRead, Next, Moves, Execute, ValidRun, Accepted, Feasible, Enabled, Apply, Settle;
    var w' := Do(w, step);
    match step {
      case Read(k, _) => TotalReadUpdate(w.sessions, k, w'.sessions[k]);
      case Push(k) => TotalReadUpdate(w.sessions, k, w'.sessions[k]);
      case GiveUp(k) => TotalReadUpdate(w.sessions, k, w'.sessions[k]);
      case CancelToken(k) => TotalReadUpdate(w.sessions, k, w'.sessions[k]);
      case Exchange(input, _, _) =>
        if input.NewSession? {
          TotalReadNext(w.sessions, NEW_SESSION);
        } else {
          SettleReads(w.sessions[|w.sessions| - 1], w.client.phase, w'.client.phase, input);
          TotalReadUpdate(w.sessions, |w.sessions| - 1, w'.sessions[|w.sessions| - 1]);
        }
      case OfTheDevice(_) =>
    }
  }

  // ---------------------------------------------------------------- Frames of a session, in the log

  /** The TX requests session `epoch` opened, among the first `n` transactions. */
  function SentBy(log: seq<Entry>, epoch: nat, n: nat): seq<TxRequest> {
    if n == 0 then []
    else
      var rest := SentBy(log, epoch, n - 1);
      if IsTx(log, n - 1) && log[n - 1].epoch == epoch then rest + [RequestOf(log, n - 1)] else rest
  }

  lemma {:induction false} LogGrows(log: seq<Entry>, log': seq<Entry>, done: set<nat>, epoch: nat, n: nat)
    requires n <= |log| && log <= log'
    ensures SentBy(log', epoch, n) == SentBy(log, epoch, n)
    ensures TxOf(log', done, epoch, n) == TxOf(log, done, epoch, n)
  {
    if n > 0 {
      LogGrows(log, log', done, epoch, n - 1);
    }
  }

  lemma {:induction false} NothingOf(log: seq<Entry>, done: set<nat>, epoch: nat, n: nat)
    requires n <= |log| && forall k :: 0 <= k < n ==> log[k].epoch != epoch
    ensures SentBy(log, epoch, n) == [] && TxOf(log, done, epoch, n) == []
  {
    if n > 0 {
      NothingOf(log, done, epoch, n - 1);
    }
  }

  /** The host's log agrees with the history of session `k`. */
  ghost predicate InLog(h: Host, s: Session, held: seq<Frame>, k: nat) {
    && FrameList(Acknowledged(h, k)) == s.acked
    && FrameList(SentBy(h.log, k, |h.log|)) == s.acked + s.lostRequest + held
  }

  /** A host that opened a transaction. */
  lemma OpeningInLog(h: Host, h': Host, payload: Payload, k: nat)
    requires StopAndWait(h) && HostLog.Opened(h, h', payload)
    ensures Acknowledged(h', k) == Acknowledged(h, k)
    ensures FrameList(SentBy(h'.log, k, |h'.log|))
            == FrameList(SentBy(h.log, k, |h.log|))
               + (if payload.Tx? && k == |h.used| - 1 then [payload.frame] else [])
  {
    var n := |h.log|;
    LogGrows(h.log, h'.log, h.completed, k, n);
    assert n !in h.completed;
    hide StopAndWait, FrameList;
    if payload.Tx? && k == |h.used| - 1 {
      FrameListSnoc(SentBy(h.log, k, n), RequestOf(h'.log, n));
    } else {
      assert FrameList(SentBy(h'.log, k, n)) + [] == FrameList(SentBy(h'.log, k, n));
    }
  }

  /** A host that completed its open transaction. */
  lemma CompletingInLog(h: Host, k: nat)
    requires StopAndWait(h) && (h.phase.TxOpen? || h.phase.RxOpen?)
    ensures var h' := h.(completed := h.completed + {|h.log| - 1});
            FrameList(Acknowledged(h', k))
            == FrameList(Acknowledged(h, k))
               + (if h.phase.TxOpen? && k == |h.used| - 1 then [h.phase.request.frame] else [])
  {
    var n := |h.log| - 1;
    TxOfFrame(h.log, h.completed, h.completed + {n}, k, n);
    var acked := TxOf(h.log, h.completed, k, n);
    if h.phase.TxOpen? && k == |h.used| - 1 {
      FrameListSnoc(acked, RequestOf(h.log, n));
    } else {
      assert FrameList(acked) + [] == FrameList(acked);
    }
  }

  lemma OpenInputInLog(h: Host, c: Client, input: Input, s: Session, k: nat, last: bool)
    requires Related(c, h) && StopAndWait(h) && Accepted(c, input) && last == (k == |h.used| - 1)
    requires input.FrameTaken? || input.NoFrame? || input.PollNext?
    requires InLog(h, s, if last then HeldIn(c.phase) else [], k) && (last ==> s.lostRequest == [])
    ensures InLog(NextHost(h, c, input), s, if last then HeldIn(Next(c, input).phase) else [], k)
  {
    hide StopAndWait, Acknowledged, SentBy, FrameList;
    if input.FrameTaken? {
      OpeningInLog(h, OpenTxHost(h, input.frame), Tx(input.frame), k);
    } else {
      OpeningInLog(h, OpenRxHost(h), Rx, k);
    }
  }

  /** An event completes the open transaction, or leaves the log as it is. */
  lemma EventHost(h: Host, c: Client, input: Input)
    requires Related(c, h) && StopAndWait(h) && Accepted(c, input) && (input.TxEvent? || input.RxEvent?)
    ensures h.phase.TxOpen? == input.TxEvent? && h.phase.RxOpen? == input.RxEvent?
    ensures HeldIn(c.phase) == if input.TxEvent? then [h.phase.request.frame] else []
    ensures c.phase.TxWaiting? == input.TxEvent?
    ensures var h' := NextHost(h, c, input);
            && h'.log == h.log
            && h'.completed == (if h'.phase == h.phase then h.completed else h.completed + {|h.log| - 1})
            && (input.TxEvent? ==> (h'.phase != h.phase <==> Next(c, input).phase.BeforePoll?))
  {
  }

  lemma EventInLog(h: Host, c: Client, input: Input, s: Session, k: nat, last: bool)
    requires Related(c, h) && StopAndWait(h) && Accepted(c, input) && last == (k == |h.used| - 1)
    requires input.TxEvent? || input.RxEvent?
    requires InLog(h, s, if last then HeldIn(c.phase) else [], k) && (last ==> s.lostRequest == [])
    ensures var after := Next(c, input).phase;
            InLog(NextHost(h, c, input), if last then Settle(s, c.phase, after, input) else s,
                  if last then HeldIn(after) else [], k)
  {
    hide StopAndWait, SentBy, FrameList, TxOf, Next, NextHost, Accepted, Related;
    EventHost(h, c, input);
    CompletingInLog(h, k);
    PhaseMoves(c, input);
  }

  lemma RestartInLog(h: Host, session: SessionId, s: Session, k: nat)
    requires Numbered(h)
    ensures InLog(h, s, [], k) ==> InLog(RestartHost(h, session), s, [], k)
    ensures k == |h.used| ==> InLog(RestartHost(h, session), NEW_SESSION, [], k)
  {
    if k == |h.used| {
      forall x | 0 <= x < |h.log| ensures h.log[x].epoch != k {
        assert WireOf(h.used, h.log[x]);
      }
      NothingOf(h.log, h.completed, k, |h.log|);
    }
  }

  lemma StepInLog(h: Host, c: Client, input: Input, s: Session, k: nat)
    requires Related(c, h) && Numbered(h) && StopAndWait(h) && Accepted(c, input) && k < |h.used|
    requires InLog(h, s, if k == |h.used| - 1 then HeldIn(c.phase) else [], k)
    requires k == |h.used| - 1 && !input.NewSession? ==> s.lostRequest == []
    ensures var after, last := Next(c, input).phase, k == |h.used| - 1 && !input.NewSession?;
            InLog(NextHost(h, c, input), if last then Settle(s, c.phase, after, input) else s,
                  if last then HeldIn(after) else [], k)
  {
    hide Numbered, StopAndWait, InLog, Related;
    var last := k == |h.used| - 1;
    match input {
      case NewSession(session) => RestartInLog(h, session, s, k);
      case TxEvent(_, _) => EventInLog(h, c, input, s, k, last);
      case RxEvent(_, _) => EventInLog(h, c, input, s, k, last);
      case _ =>
        OpenInputInLog(h, c, input, s, k, last);
        if last { SameHistory(NextHost(h, c, input), s, Settle(s, c.phase, Next(c, input).phase, input),
                              HeldIn(Next(c, input).phase), k); }
    }
  }

  lemma SameHistory(h: Host, s: Session, s': Session, held: seq<Frame>, k: nat)
    requires InLog(h, s, held, k) && s'.acked == s.acked && s'.lostRequest == s.lostRequest
    ensures InLog(h, s', held, k)
  {
  }

  // ---------------------------------------------------------------- Whole runs

  ghost predicate AllInLog(w: World) {
    forall k: nat :: k < |w.sessions| ==> InLog(w.device.host, w.sessions[k], InExchange(w, k), k)
  }

  lemma ExchangeInLog(w: World, step: TapStep)
    requires Can(w, step) && step.Exchange? && Related(w.client, w.device.host)
    requires Numbered(w.device.host) && StopAndWait(w.device.host)
    requires |w.device.host.used| == |w.sessions| && AllInPlace(w) && AllInLog(w)
    ensures AllInLog(Do(w, step)) && |Do(w, step).device.host.used| == |Do(w, step).sessions|
  {
    hide Next, Accepted, Moves, Execute, ValidRun, Numbered, StopAndWait, InLog, InPlace, Settle, Feasible;
    var h, c, input, n := w.device.host, w.client, step.input, |w.sessions| - 1;
    MovesHost(c, w.device, input, step.i, step.keep);
    PhaseMoves(c, input);
    var w' := Do(w, step);
    forall k: nat | k < |w'.sessions| ensures InLog(w'.device.host, w'.sessions[k], InExchange(w', k), k) {
      if k <= n {
        if Alive(w, k) { NothingLostYet(w, k); }
        StepInLog(h, c, input, w.sessions[k], k);
      } else {
        RestartInLog(h, input.session, NEW_SESSION, k);
      }
    }
    UsedGrows(h, c, input);
  }

  lemma NothingLostYet(w: World, k: nat)
    requires k < |w.sessions| && AllInPlace(w) && Alive(w, k)
    ensures w.sessions[k].lostRequest == []
  {
  }

  lemma UsedGrows(h: Host, c: Client, input: Input)
    requires |h.used| > 0 && Accepted(c, input) && Related(c, h)
    ensures |NextHost(h, c, input).used| == |h.used| + (if input.NewSession? then 1 else 0)
  {
  }

  ghost predicate TapInv(w: World) {
    && Reachable(w.device) && Related(w.client, w.device.host)
    && |w.device.host.used| == |w.sessions|
    && AllInPlace(w) && AllInLog(w) && w.tapRx == TotalRead(w.sessions)
  }

  lemma StartTapInv(session: SessionId, recovery: bool)
    ensures TapInv(StartWorld(session, recovery))
  {
    hide Reachable, Related, Accounted, InPlace, InLog, TotalRead;
    InitialReachable(session);
    StartKeeps(session, recovery);
    FreshInPlace();
    FreshInLog(session);
  }

  lemma FreshInLog(session: SessionId)
    ensures InLog(InitialHost(session), NEW_SESSION, [], 0) && TotalRead([NEW_SESSION]) == 0
  {
  }

  /** Readers and tokens do not touch what the log knows. */
  lemma QuietInLog(w: World, step: TapStep)
    requires Can(w, step) && !step.Exchange? && AllInLog(w)
    ensures AllInLog(Do(w, step)) && Do(w, step).device.host == w.device.host
  {
    hide Acknowledged, SentBy, FrameList;
    var w' := Do(w, step);
    assert w'.device.host == w.device.host;
    forall k: nat | k < |w'.sessions| ensures InLog(w'.device.host, w'.sessions[k], InExchange(w', k), k) {
      SameHistory(w.device.host, w.sessions[k], w'.sessions[k], InExchange(w, k), k);
    }
  }

  lemma TapInvStep(w: World, step: TapStep)
    requires TapInv(w) && Can(w, step) && w.sessions != []
    ensures TapInv(Do(w, step)) && Do(w, step).sessions != []
  {
    hide Reachable, Related, AllInPlace, AllInLog, TotalRead, Next, Moves, Execute, ValidRun, Accepted,
         Feasible, Settle, Enabled, Apply, Numbered, StopAndWait, Alternating, Linked;
    TotalReadStep(w, step);
    AllInPlaceStep(w, step);
    if step.Exchange? {
      var c, input := w.client, step.input;
      ReachableHost(w.device);
      ExchangeInLog(w, step);
      Simulates(c, w.device, input, step.i, step.keep);
      ReachableRun(w.device, Moves(c, input, step.i, step.keep));
    } else {
      QuietInLog(w, step);
      if step.OfTheDevice? {
        ReachableStep(w.device, step.step);
      }
    }
  }

  ghost predicate TapRun(w: World, steps: seq<TapStep>, w': World)
    decreases |steps|
  {
    if steps == [] then w == w' else Can(w, steps[0]) && TapRun(Do(w, steps[0]), steps[1..], w')
  }

  lemma {:induction false} TapInvRun(w: World, steps: seq<TapStep>, w': World)
    requires TapInv(w) && w.sessions != [] && TapRun(w, steps, w')
    ensures TapInv(w')
    decreases |steps|
  {
    hide TapInv, Can, Do;
    if steps != [] {
      TapInvStep(w, steps[0]);
      TapInvRun(Do(w, steps[0]), steps[1..], w');
    }
  }

  // ---------------------------------------------------------------- Readers do not get stuck

  /** The queue of session `k` takes a frame, or its reader can give up, unless a frame is waiting there. */
  lemma ReaderCanMove(w: World, k: nat)
    requires k < |w.sessions|
    ensures w.sessions[k].reader.Passing? ==>
              Can(w, Push(k)) || Can(w, GiveUp(k)) || (Alive(w, k) && w.sessions[k].queue != [])
    ensures w.sessions[k].cancelled && !w.sessions[k].reader.Stopped? ==> Can(w, GiveUp(k))
  {
  }

  // ---------------------------------------------------------------- Loss across recovery

  /** All frames a session sent were acknowledged, except perhaps one, its last. */
  lemma {:induction false} SentVersusAcknowledged(h: Host, k: nat, n: nat)
    requires HostInv(h) && IsTx(h.log, k) && k !in h.completed && n <= |h.log|
    ensures var epoch := h.log[k].epoch;
            SentBy(h.log, epoch, n)
            == TxOf(h.log, h.completed, epoch, n) + (if k < n then [RequestOf(h.log, k)] else [])
  {
    if n > 0 {
      SentVersusAcknowledged(h, k, n - 1);
      if h.log[n - 1].epoch == h.log[k].epoch && n - 1 != k {
        if n - 1 < k { EarlierCompleted(h, n - 1, k); } else { EarlierCompleted(h, k, n - 1); }
      }
    }
  }

  /** What the radio accepted from a session is the beginning of what the session read. */
  lemma RadioVersusSent(s: State, epoch: nat)
    requires Reachable(s) && NoCollision(s.host, epoch)
    ensures var radio := RadioOf(s.host.log, s.tx.radio, epoch);
            radio == Acknowledged(s.host, epoch) || radio == SentBy(s.host.log, epoch, |s.host.log|)
  {
    ReachableHost(s);
    var h := s.host;
    FreshIsAcknowledged(h, epoch);
    var tail := HostToWifi(s, epoch);
    if tail != [] {
      var k: nat :| IsTx(h.log, k) && h.log[k].epoch == epoch && k !in h.completed
                    && tail == [RequestOf(h.log, k)];
      SentVersusAcknowledged(h, k, |h.log|);
    }
  }

  /**
   * From TAP to the radio, over any sequence of sessions, however they end. `tap_rx_frames`
   * counts the frames of all sessions. In each session every frame read is acknowledged,
   * under way, or abandoned; the acknowledged ones come first, and at most three are
   * abandoned. If no identifier collided, the radio accepted the acknowledged frames and
   * at most one more, which are the first frames the session read, in order, each once.
   */
  lemma LossIsBounded(session: SessionId, recovery: bool, steps: seq<TapStep>, w: World, k: nat)
    requires TapRun(StartWorld(session, recovery), steps, w) && k < |w.sessions|
    ensures w.tapRx == TotalRead(w.sessions)
    ensures var s := w.sessions[k];
            && s.acked == FrameList(Acknowledged(w.device.host, k)) && s.acked <= s.read
            && |s.read| == |s.acked| + |InExchange(w, k)| + |s.queue| + |InReader(s)| + |Abandoned(s)|
            && |Abandoned(s)| <= 3
            && (!Alive(w, k) && s.reader.Stopped? ==> s.read == s.acked + Abandoned(s))
    ensures NoCollision(w.device.host, k) ==>
              var radio := FrameList(RadioOf(w.device.host.log, w.device.tx.radio, k));
              w.sessions[k].acked <= radio <= w.sessions[k].read && |radio| <= |w.sessions[k].acked| + 1
  {
    hide TapRun, Reachable, Related, Acknowledged, RadioOf, SentBy, TotalRead, FrameList, NoCollision;
    StartTapInv(session, recovery);
    TapInvRun(StartWorld(session, recovery), steps, w);
    assert InPlace(w.sessions[k], InExchange(w, k), Alive(w, k));
    assert InLog(w.device.host, w.sessions[k], InExchange(w, k), k);
    if NoCollision(w.device.host, k) {
      RadioVersusSent(w.device, k);
    }
  }
}
