/**
 * The exchange task of the serial transport, and without a recovery deadline that of the
 * NUSB transport, with its waits, retries and counters. Whatever it does is a sequence of
 * host steps of the protocol, so every guarantee about the protocol is one about this
 * client; and its retry counters account for the requests it created, over every run.
 */
module SerialClient {
  import opened Wire
  import opened Protocol
  import opened EndpointWait

  datatype Phase =
    | AtLoopHead                                                     // about to call `try_recv`
    | BeforePoll                                               // the TX is done, the poll is next
    | TxWaiting(request: TxRequest, txWait: Wait<Stamp>)
    | RxWaiting(poll: Stamp, rxWait: Wait<RxResponse>)
    | Ended

  /** Counters of one direction: `retries` is a metric, the others are what it should reflect. */
  datatype Ledger = Ledger(
    retries: nat,
    transactions: nat,     // opened
    futures: nat,          // request futures created
    backups: nat,          // backups of waits that completed or required recovery
    mismatches: nat,       // responses for another transaction
    finalErrors: nat,      // waits that ended in an error
    cancelledBackups: nat, // backups of cancelled waits
    earlyRecoveries: nat)  // recoveries required before the backup was sent

  datatype Client = Client(
    recovery: bool,             // waits have a recovery deadline
    session: SessionId,
    nextId: Id,
    openedCount: nat,           // transactions opened so far, over all sessions
    phase: Phase,
    tx: Ledger,
    rx: Ledger,
    endpointErrors: nat,
    responseMismatches: nat,
    recoveryTimeouts: nat)

  /** What the task observes. `dropped` is the fault injector's verdict on a new request. */
  datatype Input =
    | FrameTaken(frame: Frame, dropped: bool)
    | NoFrame(dropped: bool)
    | PollNext(dropped: bool)
    | TxEvent(txEvent: Event<Stamp>, dropped: bool)
    | RxEvent(rxEvent: Event<RxResponse>, dropped: bool)
    | NewSession(session: SessionId)

  const EMPTY_LEDGER := Ledger(0, 0, 0, 0, 0, 0, 0, 0)

  function Start(session: SessionId, recovery: bool): Client {
    Client(recovery, session, 0, 0, AtLoopHead, EMPTY_LEDGER, EMPTY_LEDGER, 0, 0, 0)
  }

  // ---------------------------------------------------------------- Ledgers

  function Opened(l: Ledger): Ledger {
    l.(transactions := l.transactions + 1, futures := l.futures + 1)
  }

  /** `matches` says whether an `Ok` result carries the awaited transaction. */
  function Record<T>(l: Ledger, before: Wait<T>, after: Wait<T>, matches: bool): Ledger {
    match after
    case Racing => if before.OnlyPrimary? then l.(futures := l.futures + 1) else l
    case Over(Completed(result, _, backup, _)) =>
      var l := if backup then l.(retries := l.retries + 1, backups := l.backups + 1) else l;
      if result.Ok? && matches then l
      else
        var l := l.(retries := l.retries + 1, futures := l.futures + 1);
        if result.Ok? then l.(mismatches := l.mismatches + 1) else l.(finalErrors := l.finalErrors + 1)
    case Over(RecoveryRequired(_)) =>
      var l := l.(retries := l.retries + 1);
      if before.OnlyPrimary? then l.(earlyRecoveries := l.earlyRecoveries + 1)
      else l.(backups := l.backups + 1)
    case Over(Cancelled) =>
      if before.OnlyPrimary? then l else l.(cancelledBackups := l.cancelledBackups + 1)
    case _ => l
  }

  /** The request futures of the open wait that no counter shows yet. */
  function Uncounted<T>(wait: Wait<T>): nat {
    if wait.Racing? || wait.Left? then 1 else 0
  }

  /**
   * Futures created are transactions opened plus retries recorded, up to the backup of the
   * open wait and of cancelled ones; a recovery seen before the stall timer counts a backup
   * that was not sent. And the retries are backups, mismatches and final errors.
   */
  ghost predicate Balanced(l: Ledger, uncounted: nat) {
    && l.futures + l.earlyRecoveries == l.transactions + l.retries + l.cancelledBackups + uncounted
    && l.retries == l.backups + l.mismatches + l.finalErrors + l.earlyRecoveries
  }

  lemma RecordBalances<T>(l: Ledger, wait: Wait<T>, event: Event<T>, matches: bool, recovery: bool)
    requires Balanced(l, Uncounted(wait)) && !wait.Over?
    ensures var after := Advance(wait, event, recovery);
            Balanced(Record(l, wait, after, matches), Uncounted(after))
  {
  }

  // ---------------------------------------------------------------- Steps of the client

  /** Errors the metrics record when a wait ends. */
  function ErrorsOf<T>(after: Wait<T>): nat {
    match after
    case Over(Completed(result, _, _, discarded)) => discarded + (if result.Err? then 1 else 0)
    case _ => 0
  }

  predicate Mismatch<T>(after: Wait<T>, matches: bool) {
    after.Over? && after.outcome.Completed? && after.outcome.result.Ok? && !matches
  }

  predicate NeedsRecovery<T>(after: Wait<T>) {
    after.Over? && after.outcome.RecoveryRequired?
  }

  /** The shared counters after a wait moved. */
  function Noted<T>(c: Client, after: Wait<T>, matches: bool): Client {
    c.(endpointErrors := c.endpointErrors + ErrorsOf(after),
       responseMismatches := c.responseMismatches + (if Mismatch(after, matches) then 1 else 0),
       recoveryTimeouts := c.recoveryTimeouts + (if NeedsRecovery(after) then 1 else 0))
  }

  predicate Accepts<T>(after: Wait<T>, matches: bool) {
    after.Over? && after.outcome.Completed? && after.outcome.result.Ok? && matches
  }

  /** The wait after a completed one that did not settle the transaction, or the same wait. */
  function NextWait<T>(after: Wait<T>): Wait<T> {
    if after.Over? && after.outcome.Completed? then OnlyPrimary else after
  }

  predicate Stops<T>(after: Wait<T>) {
    after.Over? && !after.outcome.Completed?
  }

  predicate MatchesTx(after: Wait<Stamp>, request: TxRequest) {
    && after.Over? && after.outcome.Completed? && after.outcome.result.Ok?
    && after.outcome.result.response.transaction == request.stamp.transaction
  }

  predicate MatchesRx(after: Wait<RxResponse>, poll: Stamp) {
    && after.Over? && after.outcome.Completed? && after.outcome.result.Ok?
    && after.outcome.result.response.stamp.transaction == poll.transaction
  }

  function ClientStamp(c: Client): Stamp {
    Stamp(Transaction(c.session, c.nextId), c.openedCount)
  }

  function OpenPoll(c: Client): Client {
    c.(phase := RxWaiting(ClientStamp(c), OnlyPrimary), nextId := WrappingIncrement(c.nextId),
       openedCount := c.openedCount + 1, rx := Opened(c.rx))
  }

  predicate Accepted(c: Client, input: Input) {
    match input
    case FrameTaken(frame, _) => c.phase.AtLoopHead? && InSize(frame)
    case NoFrame(_) => c.phase.AtLoopHead?
    case PollNext(_) => c.phase.BeforePoll?
    case TxEvent(event, _) => c.phase.TxWaiting? && Awaited(c.phase.txWait, event, c.recovery)
    case RxEvent(event, _) => c.phase.RxWaiting? && Awaited(c.phase.rxWait, event, c.recovery)
    case NewSession(_) => c.phase.Ended?
  }

  function Next(c: Client, input: Input): Client
    requires Accepted(c, input)
  {
    match input
    case FrameTaken(frame, _) =>
      c.(phase := TxWaiting(TxRequest(ClientStamp(c), frame), OnlyPrimary),
         nextId := WrappingIncrement(c.nextId), openedCount := c.openedCount + 1, tx := Opened(c.tx))
    case NoFrame(_) => OpenPoll(c)
    case PollNext(_) => OpenPoll(c)
    case TxEvent(event, _) =>
      var request, wait := c.phase.request, c.phase.txWait;
      var after := Advance(wait, event, c.recovery);
      var matches := MatchesTx(after, request);
      Noted(c, after, matches).(
        tx := Record(c.tx, wait, after, matches),
        phase := if Stops(after) then Ended
                 else if Accepts(after, matches) then BeforePoll
                 else TxWaiting(request, NextWait(after)))
    case RxEvent(event, _) =>
      var poll, wait := c.phase.poll, c.phase.rxWait;
      var after := Advance(wait, event, c.recovery);
      var matches := MatchesRx(after, poll);
      Noted(c, after, matches).(
        rx := Record(c.rx, wait, after, matches),
        phase := if Stops(after) then Ended
                 else if Accepts(after, matches) then AtLoopHead
                 else RxWaiting(poll, NextWait(after)))
    case NewSession(session) => c.(session := session, nextId := 0, phase := AtLoopHead)
  }

  // ---------------------------------------------------------------- Accounting

  ghost predicate Accounted(c: Client) {
    && Balanced(c.tx, if c.phase.TxWaiting? then Uncounted(c.phase.txWait) else 0)
    && Balanced(c.rx, if c.phase.RxWaiting? then Uncounted(c.phase.rxWait) else 0)
    && (c.phase.TxWaiting? ==> !c.phase.txWait.Over?)
    && (c.phase.RxWaiting? ==> !c.phase.rxWait.Over?)
    && c.responseMismatches == c.tx.mismatches + c.rx.mismatches
    && c.openedCount == c.tx.transactions + c.rx.transactions
  }

  lemma AccountedTxEvent(c: Client, event: Event<Stamp>, dropped: bool)
    requires Accounted(c) && Accepted(c, TxEvent(event, dropped))
    ensures Accounted(Next(c, TxEvent(event, dropped)))
  {
    var after := Advance(c.phase.txWait, event, c.recovery);
    RecordBalances(c.tx, c.phase.txWait, event, MatchesTx(after, c.phase.request), c.recovery);
    hide Balanced, Advance;
  }

  lemma AccountedRxEvent(c: Client, event: Event<RxResponse>, dropped: bool)
    requires Accounted(c) && Accepted(c, RxEvent(event, dropped))
    ensures Accounted(Next(c, RxEvent(event, dropped)))
  {
    var after := Advance(c.phase.rxWait, event, c.recovery);
    RecordBalances(c.rx, c.phase.rxWait, event, MatchesRx(after, c.phase.poll), c.recovery);
    hide Balanced, Advance;
  }

  lemma AccountedStep(c: Client, input: Input)
    requires Accounted(c) && Accepted(c, input)
    ensures Accounted(Next(c, input))
  {
    if input.TxEvent? {
      AccountedTxEvent(c, input.txEvent, input.dropped);
    } else if input.RxEvent? {
      AccountedRxEvent(c, input.rxEvent, input.dropped);
    }
  }

  // ---------------------------------------------------------------- Refinement

  /** The protocol steps of a new request: none if the fault injector drops it. */
  function Sending(tx: bool, dropped: bool): seq<Step> {
    if dropped then [] else if tx then [SendTx] else [SendRx]
  }

  predicate HeardResponse<T>(event: Event<T>) {
    event.Done? && event.result.Ok?
  }

  /** This event makes the task create a request: the backup, or the next primary. */
  predicate CreatesRequest<T>(wait: Wait<T>, after: Wait<T>, matches: bool) {
    (after.Racing? && wait.OnlyPrimary?) ||
    (after.Over? && after.outcome.Completed? && !Accepts(after, matches))
  }

  /** The protocol steps the task takes on an input, when it hears response `i` of the link. */
  function Moves(c: Client, input: Input, i: nat, keep: bool): seq<Step>
    requires Accepted(c, input)
  {
    match input
    case FrameTaken(frame, dropped) => [OpenTx(frame)] + Sending(true, dropped)
    case NoFrame(dropped) => [OpenRx] + Sending(false, dropped)
    case PollNext(dropped) => [OpenRx] + Sending(false, dropped)
    case TxEvent(event, dropped) =>
      var after := Advance(c.phase.txWait, event, c.recovery);
      (if HeardResponse(event) then [HearTx(i, keep)] else []) +
      (if CreatesRequest(c.phase.txWait, after, MatchesTx(after, c.phase.request))
       then Sending(true, dropped) else [])
    case RxEvent(event, dropped) =>
      var after := Advance(c.phase.rxWait, event, c.recovery);
      (if HeardResponse(event) then [HearRx(i, keep)] else []) +
      (if CreatesRequest(c.phase.rxWait, after, MatchesRx(after, c.phase.poll))
       then Sending(false, dropped) else [])
    case NewSession(session) => [Restart(session)]
  }

  /** What a response socket yields is a response the link holds; session ids are fresh. */
  predicate Feasible(s: State, input: Input, i: nat) {
    match input
    case TxEvent(Done(_, Ok(r), _), _) => i < |s.tx.responses| && s.tx.responses[i] == r
    case RxEvent(Done(_, Ok(r), _), _) => i < |s.rx.responses| && s.rx.responses[i] == r
    case NewSession(session) => session !in s.host.used
    case _ => true
  }

  /** The client's variables are those of the protocol's host. */
  ghost predicate Related(c: Client, h: Host) {
    && |h.used| > 0
    && (c.phase.TxWaiting? ==> !c.phase.txWait.Over?)
    && (c.phase.RxWaiting? ==> !c.phase.rxWait.Over?)
    && c.session == h.session && c.nextId == h.nextId && c.openedCount == |h.log|
    && match c.phase
       case AtLoopHead => h.phase == Ready
       case BeforePoll => h.phase == MustPoll
       case TxWaiting(request, _) => h.phase == TxOpen(request)
       case RxWaiting(poll, _) => h.phase == RxOpen(poll)
       case Ended => true
  }

  lemma RunOfTwo(s: State, a: Step, rest: seq<Step>)
    requires Enabled(s, a) && |rest| <= 1 && (rest != [] ==> Enabled(Apply(s, a), rest[0]))
    ensures ValidRun(s, [a] + rest)
    ensures Execute(s, [a] + rest) == if rest == [] then Apply(s, a) else Apply(Apply(s, a), rest[0])
  {
    var s1 := Apply(s, a);
    assert ([a] + rest)[1..] == rest;
    if rest != [] {
      assert rest[1..] == [];
      assert ValidRun(Apply(s1, rest[0]), []);
      assert ValidRun(s1, rest) && Execute(s1, rest) == Apply(s1, rest[0]);
    }
  }

  lemma SimulatesOpening(c: Client, s: State, input: Input, i: nat, keep: bool)
    requires Related(c, s.host) && Accepted(c, input) && !input.TxEvent? && !input.RxEvent?
    requires Feasible(s, input, i)
    ensures ValidRun(s, Moves(c, input, i, keep))
    ensures Related(Next(c, input), Execute(s, Moves(c, input, i, keep)).host)
  {
    match input {
      case FrameTaken(frame, dropped) => RunOfTwo(s, OpenTx(frame), Sending(true, dropped));
      case NoFrame(dropped) => RunOfTwo(s, OpenRx, Sending(false, dropped));
      case PollNext(dropped) => RunOfTwo(s, OpenRx, Sending(false, dropped));
      case NewSession(session) =>
        RunOfTwo(s, Restart(session), []);
        assert [Restart(session)] + [] == [Restart(session)];
    }
  }

  lemma SimulatesTxEvent(c: Client, s: State, event: Event<Stamp>, dropped: bool, i: nat, keep: bool)
    requires Related(c, s.host) && Accepted(c, TxEvent(event, dropped))
    requires Feasible(s, TxEvent(event, dropped), i)
    ensures var moves := Moves(c, TxEvent(event, dropped), i, keep);
            && ValidRun(s, moves)
            && Related(Next(c, TxEvent(event, dropped)), Execute(s, moves).host)
  {
    var after := Advance(c.phase.txWait, event, c.recovery);
    var moves := Moves(c, TxEvent(event, dropped), i, keep);
    var send := if CreatesRequest(c.phase.txWait, after, MatchesTx(after, c.phase.request))
                then Sending(true, dropped) else [];
    if HeardResponse(event) {
      RunOfTwo(s, HearTx(i, keep), send);
    } else if send != [] {
      RunOfTwo(s, SendTx, []);
      assert moves == [SendTx] + [];
    } else {
      assert moves == [];
    }
  }

  lemma SimulatesRxEvent(c: Client, s: State, event: Event<RxResponse>, dropped: bool, i: nat, keep: bool)
    requires Related(c, s.host) && Accepted(c, RxEvent(event, dropped))
    requires Feasible(s, RxEvent(event, dropped), i)
    ensures var moves := Moves(c, RxEvent(event, dropped), i, keep);
            && ValidRun(s, moves)
            && Related(Next(c, RxEvent(event, dropped)), Execute(s, moves).host)
  {
    var after := Advance(c.phase.rxWait, event, c.recovery);
    var moves := Moves(c, RxEvent(event, dropped), i, keep);
    var send := if CreatesRequest(c.phase.rxWait, after, MatchesRx(after, c.phase.poll))
                then Sending(false, dropped) else [];
    if HeardResponse(event) {
      RunOfTwo(s, HearRx(i, keep), send);
    } else if send != [] {
      RunOfTwo(s, SendRx, []);
      assert moves == [SendRx] + [];
    } else {
      assert moves == [];
    }
  }

  /** Every move of the task is a run of protocol steps that keeps the two in agreement. */
  lemma Simulates(c: Client, s: State, input: Input, i: nat, keep: bool)
    requires Related(c, s.host) && Accepted(c, input) && Feasible(s, input, i)
    ensures ValidRun(s, Moves(c, input, i, keep))
    ensures Related(Next(c, input), Execute(s, Moves(c, input, i, keep)).host)
  {
    hide Related, Feasible, Moves, Next;
    match input {
      case TxEvent(event, dropped) => SimulatesTxEvent(c, s, event, dropped, i, keep);
      case RxEvent(event, dropped) => SimulatesRxEvent(c, s, event, dropped, i, keep);
      case _ => SimulatesOpening(c, s, input, i, keep);
    }
  }

  /** The host after an input of the exchange task. */
  function NextHost(h: Host, c: Client, input: Input): Host
    requires |h.used| > 0 && Accepted(c, input) && Related(c, h)
  {
    match input
    case FrameTaken(frame, _) => OpenTxHost(h, frame)
    case NoFrame(_) => OpenRxHost(h)
    case PollNext(_) => OpenRxHost(h)
    case TxEvent(Done(_, Ok(r), _), _) => HearTxHost(h, r)
    case RxEvent(Done(_, Ok(r), _), _) => HearRxHost(h, r)
    case NewSession(session) => RestartHost(h, session)
    case _ => h
  }

  lemma MovesHost(c: Client, s: State, input: Input, i: nat, keep: bool)
    requires Related(c, s.host) && Accepted(c, input) && Feasible(s, input, i)
    requires ValidRun(s, Moves(c, input, i, keep))
    ensures Execute(s, Moves(c, input, i, keep)).host == NextHost(s.host, c, input)
  {
    var moves := Moves(c, input, i, keep);
    if moves != [] {
      assert ValidRun(Apply(s, moves[0]), moves[1..]);
      assert moves == [moves[0]] + moves[1..];
      RunOfTwo(s, moves[0], moves[1..]);
    }
  }

  // ---------------------------------------------------------------- Whole runs

  datatype Move = HostMove(input: Input, i: nat, keep: bool) | DeviceMove(step: Step)

  /** Steps the device, the bridge or the radio takes. */
  predicate OfDevice(step: Step) {
    match step
    case OpenTx(_) => false
    case OpenRx => false
    case SendTx => false
    case SendRx => false
    case HearTx(_, _) => false
    case HearRx(_, _) => false
    case Restart(_) => false
    case _ => true
  }

  /** The exchange task and the device take these moves and end in this state. */
  ghost predicate Run(c: Client, s: State, moves: seq<Move>, c': Client, s': State)
    decreases |moves|
  {
    if moves == [] then c == c' && s == s'
    else match moves[0]
      case HostMove(input, i, keep) =>
        && Accepted(c, input) && Feasible(s, input, i)
        && ValidRun(s, Moves(c, input, i, keep))
        && Run(Next(c, input), Execute(s, Moves(c, input, i, keep)), moves[1..], c', s')
      case DeviceMove(step) =>
        OfDevice(step) && Enabled(s, step) && Run(c, Apply(s, step), moves[1..], c', s')
  }

  lemma {:induction false} RunKeeps(c: Client, s: State, moves: seq<Move>, c': Client, s': State)
    requires Run(c, s, moves, c', s')
    requires Reachable(s) && Related(c, s.host) && Accounted(c)
    ensures Reachable(s') && Related(c', s'.host) && Accounted(c')
    decreases |moves|
  {
    hide Reachable, Related, Accounted, Moves, Next;
    if moves != [] {
      match moves[0] {
        case HostMove(input, i, keep) =>
          Simulates(c, s, input, i, keep);
          AccountedStep(c, input);
          ReachableRun(s, Moves(c, input, i, keep));
          RunKeeps(Next(c, input), Execute(s, Moves(c, input, i, keep)), moves[1..], c', s');
        case DeviceMove(step) =>
          ReachableStep(s, step);
          DeviceKeepsHost(c, s, step);
          RunKeeps(c, Apply(s, step), moves[1..], c', s');
      }
    }
  }

  lemma StartKeeps(session: SessionId, recovery: bool)
    ensures Related(Start(session, recovery), InitialHost(session)) && Accounted(Start(session, recovery))
  {
  }

  lemma DeviceKeepsHost(c: Client, s: State, step: Step)
    requires Related(c, s.host) && Enabled(s, step) && OfDevice(step)
    ensures Related(c, Apply(s, step).host)
  {
  }

  /**
   * Every run of the client against the device, over any number of sessions, with or without
   * a recovery deadline, is a run of the protocol, and its counters balance at every moment.
   */
  lemma SerialClientRefinesProtocol(session: SessionId, recovery: bool, moves: seq<Move>, c: Client, s: State)
    requires Run(Start(session, recovery), Initial(session), moves, c, s)
    ensures Reachable(s) && Related(c, s.host) && Accounted(c)
  {
    hide Reachable, Run, Related, Accounted;
    InitialReachable(session);
    StartKeeps(session, recovery);
    RunKeeps(Start(session, recovery), Initial(session), moves, c, s);
  }
}
