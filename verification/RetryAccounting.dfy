/**
 * The retry counters of the exchange task against what an observer sees of its traffic:
 * requests on the link, requests the fault injector withholds, responses and timers.
 */
module RetryAccounting {
  import opened Wire
  import opened Protocol
  import opened EndpointWait
  import opened SerialClient
  import Progress

  /** The task creates a TX request: the first, the backup, or a retry. */
  predicate CreatesTx(c: Client, input: Input)
    requires Accepted(c, input)
  {
    input.FrameTaken? ||
    (input.TxEvent? &&
     var after := Advance(c.phase.txWait, input.txEvent, c.recovery);
     CreatesRequest(c.phase.txWait, after, MatchesTx(after, c.phase.request)))
  }

  predicate CreatesRx(c: Client, input: Input)
    requires Accepted(c, input)
  {
    input.NoFrame? || input.PollNext? ||
    (input.RxEvent? &&
     var after := Advance(c.phase.rxWait, input.rxEvent, c.recovery);
     CreatesRequest(c.phase.rxWait, after, MatchesRx(after, c.phase.poll)))
  }

  function CountOf(steps: seq<Step>, step: Step): nat {
    if steps == [] then 0 else (if steps[0] == step then 1 else 0) + CountOf(steps[1..], step)
  }

  /**
   * What an observer of the link, of the fault injector and of the events of the waits
   * counts in one direction. Nothing here looks at the client's counters.
   */
  datatype Traffic = Traffic(
    sent: nat,        // requests that went out
    withheld: nat,    // requests the fault injector dropped
    warned: nat,      // stall timers that fired while only the primary was out
    stale: nat,       // responses for another transaction
    failed: nat,      // errors with no other request left to wait for
    cancelled: nat,   // cancellations after the stall timer
    early: nat,       // recoveries before the stall timer
    recoveries: nat,  // recovery deadlines seen
    errors: nat,      // requests that failed
    forgotten: nat)   // waits cancelled or given up after one of their requests failed

  const NO_TRAFFIC := Traffic(0, 0, 0, 0, 0, 0, 0, 0, 0, 0)

  function Plus(a: Traffic, b: Traffic): Traffic {
    Traffic(a.sent + b.sent, a.withheld + b.withheld, a.warned + b.warned, a.stale + b.stale,
            a.failed + b.failed, a.cancelled + b.cancelled, a.early + b.early, a.recoveries + b.recoveries,
            a.errors + b.errors, a.forgotten + b.forgotten)
  }

  function One(b: bool): nat {
    if b then 1 else 0
  }

  /** What an event adds, in a wait of which a matching response is `matching`. */
  function EventTraffic<T>(wait: Wait<T>, event: Event<T>, matching: bool, sent: nat, withheld: nat): Traffic {
    Traffic(sent, withheld,
      One(event.WarningFires? && wait.OnlyPrimary?),
      One(HeardResponse(event) && !matching),
      One(event.Done? && event.result.Err? && !wait.Racing?),
      One(event.CancelSeen? && !wait.OnlyPrimary?),
      One(event.RecoveryFires? && wait.OnlyPrimary?),
      One(event.RecoveryFires?),
      One(event.Done? && event.result.Err?),
      One((event.CancelSeen? || event.RecoveryFires?) && wait.Left?))
  }

  /** The TX traffic of one move. */
  function TxTraffic(c: Client, input: Input, i: nat, keep: bool): Traffic
    requires Accepted(c, input)
  {
    var sent, withheld := CountOf(Moves(c, input, i, keep), SendTx), One(CreatesTx(c, input) && input.dropped);
    match input
    case TxEvent(event, _) =>
      var matching := HeardResponse(event)
                      && event.result.response.transaction == c.phase.request.stamp.transaction;
      EventTraffic(c.phase.txWait, event, matching, sent, withheld)
    case _ => NO_TRAFFIC.(sent := sent, withheld := withheld)
  }

  function RxTraffic(c: Client, input: Input, i: nat, keep: bool): Traffic
    requires Accepted(c, input)
  {
    var sent, withheld := CountOf(Moves(c, input, i, keep), SendRx), One(CreatesRx(c, input) && input.dropped);
    match input
    case RxEvent(event, _) =>
      var matching := HeardResponse(event)
                      && event.result.response.stamp.transaction == c.phase.poll.transaction;
      EventTraffic(c.phase.rxWait, event, matching, sent, withheld)
    case _ => NO_TRAFFIC.(sent := sent, withheld := withheld)
  }

  /** The traffic of a whole run, TX and RX. */
  function TrafficOf(c: Client, moves: seq<Move>): (Traffic, Traffic)
    decreases |moves|
  {
    if moves == [] then (NO_TRAFFIC, NO_TRAFFIC)
    else match moves[0]
      case DeviceMove(_) => TrafficOf(c, moves[1..])
      case HostMove(input, i, keep) =>
        if !Accepted(c, input) then (NO_TRAFFIC, NO_TRAFFIC)
        else
          var rest := TrafficOf(Next(c, input), moves[1..]);
          (Plus(TxTraffic(c, input, i, keep), rest.0), Plus(RxTraffic(c, input, i, keep), rest.1))
  }

  /** The ledger shows this traffic, and the traffic is what the transactions need. */
  predicate Shows(l: Ledger, l': Ledger, t: Traffic) {
    && l'.futures == l.futures + t.sent + t.withheld
    && l'.mismatches == l.mismatches + t.stale
    && l'.finalErrors == l.finalErrors + t.failed
    && l'.cancelledBackups == l.cancelledBackups + t.cancelled
    && l'.earlyRecoveries == l.earlyRecoveries + t.early
    && l.transactions + t.sent + t.withheld == l'.transactions + t.warned + t.stale + t.failed
  }

  lemma CountShort(steps: seq<Step>, step: Step)
    requires |steps| <= 2
    ensures CountOf(steps, step) == One(|steps| > 0 && steps[0] == step) + One(|steps| > 1 && steps[1] == step)
  {
    if |steps| > 1 {
      assert steps[1..][1..] == [];
    }
  }

  /** A created request goes out unless it is withheld, and nothing else goes out. */
  lemma CreatedGoOut(c: Client, input: Input, i: nat, keep: bool)
    requires Accepted(c, input)
    ensures var steps := Moves(c, input, i, keep);
            && CountOf(steps, SendTx) == One(CreatesTx(c, input) && !input.dropped)
            && CountOf(steps, SendRx) == One(CreatesRx(c, input) && !input.dropped)
  {
    hide Advance;
    CountShort(Moves(c, input, i, keep), SendTx);
    CountShort(Moves(c, input, i, keep), SendRx);
  }

  /** A request that is created and not withheld is under way: first copy, backup or retry. */
  lemma CreatedIsPending(c: Client, s: State, input: Input, i: nat, keep: bool)
    requires Related(c, s.host) && Accepted(c, input) && Feasible(s, input, i)
    requires (CreatesTx(c, input) || CreatesRx(c, input)) && !input.dropped
    ensures ValidRun(s, Moves(c, input, i, keep))
    ensures Progress.Pending(Execute(s, Moves(c, input, i, keep)))
  {
    hide Next, Related;
    Simulates(c, s, input, i, keep);
    var moves := Moves(c, input, i, keep);
    var n := |moves| - 1;
    if n == 1 {
      assert moves == [moves[0]] + [moves[1]];
      assert ValidRun(Apply(s, moves[0]), moves[1..]);
      RunOfTwo(s, moves[0], [moves[1]]);
    } else {
      RunOfTwo(s, moves[0], []);
      assert moves == [moves[0]] + [];
    }
  }

  lemma TxShows(c: Client, input: Input, i: nat, keep: bool)
    requires Accepted(c, input)
    ensures Shows(c.tx, Next(c, input).tx, TxTraffic(c, input, i, keep))
  {
    hide Moves, CountOf;
    CreatedGoOut(c, input, i, keep);
  }

  lemma RxShows(c: Client, input: Input, i: nat, keep: bool)
    requires Accepted(c, input)
    ensures Shows(c.rx, Next(c, input).rx, RxTraffic(c, input, i, keep))
  {
    hide Moves, CountOf;
    CreatedGoOut(c, input, i, keep);
  }

  /** Over a whole run the ledgers show the traffic of the run. */
  lemma {:induction false} RunShows(c: Client, s: State, moves: seq<Move>, c': Client, s': State)
    requires Run(c, s, moves, c', s')
    ensures Shows(c.tx, c'.tx, TrafficOf(c, moves).0) && Shows(c.rx, c'.rx, TrafficOf(c, moves).1)
    decreases |moves|
  {
    hide Moves, Next, TxTraffic, RxTraffic, ValidRun, Execute, Feasible;
    if moves != [] {
      match moves[0] {
        case HostMove(input, i, keep) =>
          TxShows(c, input, i, keep);
          RxShows(c, input, i, keep);
          RunShows(Next(c, input), Execute(s, Moves(c, input, i, keep)), moves[1..], c', s');
        case DeviceMove(step) =>
          RunShows(c, Apply(s, step), moves[1..], c', s');
      }
    }
  }

  // ---------------------------------------------------------------- Errors and recoveries

  /** A failed request of the open wait, which no counter shows yet. */
  function OpenErrors(c: Client): nat {
    One(c.phase.TxWaiting? && c.phase.txWait.Left?) + One(c.phase.RxWaiting? && c.phase.rxWait.Left?)
  }

  /** The shared counters show this traffic of both directions. */
  predicate ShowsErrors(c: Client, c': Client, tx: Traffic, rx: Traffic) {
    && c'.endpointErrors + OpenErrors(c') + tx.forgotten + rx.forgotten
       == c.endpointErrors + OpenErrors(c) + tx.errors + rx.errors
    && c'.recoveryTimeouts == c.recoveryTimeouts + tx.recoveries + rx.recoveries
  }

  lemma ErrorsShow(c: Client, input: Input, i: nat, keep: bool)
    requires Accepted(c, input)
    requires (c.phase.TxWaiting? ==> !c.phase.txWait.Over?) && (c.phase.RxWaiting? ==> !c.phase.rxWait.Over?)
    ensures ShowsErrors(c, Next(c, input), TxTraffic(c, input, i, keep), RxTraffic(c, input, i, keep))
  {
    hide Moves, CountOf, CreatesTx, CreatesRx, Record;
  }

  lemma {:induction false} RunShowsErrors(c: Client, s: State, moves: seq<Move>, c': Client, s': State)
    requires Run(c, s, moves, c', s') && Related(c, s.host)
    ensures ShowsErrors(c, c', TrafficOf(c, moves).0, TrafficOf(c, moves).1)
    decreases |moves|
  {
    hide Moves, Next, TxTraffic, RxTraffic, ValidRun, Execute, Feasible, OpenErrors;
    if moves != [] {
      match moves[0] {
        case HostMove(input, i, keep) =>
          ErrorsShow(c, input, i, keep);
          Simulates(c, s, input, i, keep);
          RunShowsErrors(Next(c, input), Execute(s, Moves(c, input, i, keep)), moves[1..], c', s');
        case DeviceMove(step) =>
          DeviceKeepsHost(c, s, step);
          RunShowsErrors(c, Apply(s, step), moves[1..], c', s');
      }
    }
  }

  /**
   * Over every run the recorded endpoint errors are the requests that failed, but for one of
   * the open wait and those of waits that were cancelled or given up; and the recorded
   * recovery timeouts are the recovery deadlines seen.
   */
  lemma ErrorsAreCounted(session: SessionId, recovery: bool, moves: seq<Move>, c: Client, s: State)
    requires Run(Start(session, recovery), Initial(session), moves, c, s)
    ensures var (tx, rx) := TrafficOf(Start(session, recovery), moves);
            && c.endpointErrors + OpenErrors(c) + tx.forgotten + rx.forgotten == tx.errors + rx.errors
            && c.recoveryTimeouts == tx.recoveries + rx.recoveries
  {
    hide Run, TrafficOf, Related, Accounted;
    StartKeeps(session, recovery);
    RunShowsErrors(Start(session, recovery), Initial(session), moves, c, s);
  }

  /** The task ends exactly when it sees its cancellation or the recovery deadline. */
  lemma EndsExactlyOn(c: Client, input: Input)
    requires Accepted(c, input) && (input.TxEvent? || input.RxEvent?)
    ensures Next(c, input).phase.Ended? <==>
              if input.TxEvent? then input.txEvent.CancelSeen? || input.txEvent.RecoveryFires?
              else input.rxEvent.CancelSeen? || input.rxEvent.RecoveryFires?
  {
  }

  // ---------------------------------------------------------------- Transactions

  /** The TX transactions of a log. */
  function TxCount(log: seq<Entry>): nat {
    if log == [] then 0
    else TxCount(log[..|log| - 1]) + One(log[|log| - 1].payload.Tx?)
  }

  lemma {:induction false} TxCountBound(log: seq<Entry>)
    ensures TxCount(log) <= |log|
  {
    if log != [] {
      TxCountBound(log[..|log| - 1]);
    }
  }

  /** The ledgers count the transactions the host opened. */
  predicate CountsLog(c: Client, h: Host) {
    c.tx.transactions == TxCount(h.log) && c.rx.transactions + TxCount(h.log) == |h.log|
  }

  lemma CountsLogStep(c: Client, h: Host, input: Input)
    requires |h.used| > 0 && Accepted(c, input) && Related(c, h) && CountsLog(c, h)
    ensures CountsLog(Next(c, input), NextHost(h, c, input))
  {
    var log' := NextHost(h, c, input).log;
    if log' != h.log {
      assert log'[..|log'| - 1] == h.log;
    }
  }

  lemma {:induction false} RunCountsLog(c: Client, s: State, moves: seq<Move>, c': Client, s': State)
    requires Run(c, s, moves, c', s') && Related(c, s.host) && CountsLog(c, s.host)
    ensures CountsLog(c', s'.host)
    decreases |moves|
  {
    hide Moves, Next, NextHost, CountsLog, ValidRun, Execute, Feasible;
    if moves != [] {
      match moves[0] {
        case HostMove(input, i, keep) =>
          CountsLogStep(c, s.host, input);
          MovesHost(c, s, input, i, keep);
          Simulates(c, s, input, i, keep);
          RunCountsLog(Next(c, input), Execute(s, Moves(c, input, i, keep)), moves[1..], c', s');
        case DeviceMove(step) =>
          DeviceKeepsHost(c, s, step);
          assert Apply(s, step).host == s.host;
          RunCountsLog(c, Apply(s, step), moves[1..], c', s');
      }
    }
  }

  // ---------------------------------------------------------------- Theorem

  /**
   * The requests of one direction are its transactions, its stall timers, its stale
   * responses and its final errors; and so are the recorded retries, but for the
   * transactions, for backups of cancelled waits and of the open one, and for recoveries
   * before the stall timer, which count a backup that was never created.
   */
  predicate Explained(t: Traffic, retries: nat, transactions: nat, uncounted: nat) {
    && t.sent + t.withheld == transactions + t.warned + t.stale + t.failed
    && retries + t.cancelled + uncounted == t.warned + t.stale + t.failed + t.early
  }

  function UncountedTx(c: Client): nat {
    if c.phase.TxWaiting? then Uncounted(c.phase.txWait) else 0
  }

  function UncountedRx(c: Client): nat {
    if c.phase.RxWaiting? then Uncounted(c.phase.rxWait) else 0
  }

  function RxCount(log: seq<Entry>): nat {
    TxCountBound(log);
    |log| - TxCount(log)
  }

  lemma Explain(c: Client, h: Host, tx: Traffic, rx: Traffic)
    requires Accounted(c) && CountsLog(c, h)
    requires Shows(EMPTY_LEDGER, c.tx, tx) && Shows(EMPTY_LEDGER, c.rx, rx)
    ensures Explained(tx, c.tx.retries, TxCount(h.log), UncountedTx(c))
    ensures Explained(rx, c.rx.retries, RxCount(h.log), UncountedRx(c))
    ensures c.responseMismatches == tx.stale + rx.stale
  {
    hide TxCount;
  }

  /**
   * Over every run, per direction: the requests sent or withheld are the transactions in the
   * host's log plus the stall timers, stale responses and final errors, and the recorded
   * retries are those, up to the exceptions `Explained` names.
   */
  lemma RetriesAccountForRequests(session: SessionId, recovery: bool, moves: seq<Move>, c: Client, s: State)
    requires Run(Start(session, recovery), Initial(session), moves, c, s)
    ensures var (tx, rx) := TrafficOf(Start(session, recovery), moves);
            && Explained(tx, c.tx.retries, TxCount(s.host.log), UncountedTx(c))
            && Explained(rx, c.rx.retries, RxCount(s.host.log), UncountedRx(c))
            && c.responseMismatches == tx.stale + rx.stale
  {
    hide Run, TrafficOf, TxCount, RxCount, Reachable, Related, Accounted, CountsLog, Explained;
    var start := Start(session, recovery);
    SerialClientRefinesProtocol(session, recovery, moves, c, s);
    RunShows(start, Initial(session), moves, c, s);
    StartKeeps(session, recovery);
    StartCountsLog(session, recovery);
    RunCountsLog(start, Initial(session), moves, c, s);
    Explain(c, s.host, TrafficOf(start, moves).0, TrafficOf(start, moves).1);
  }

  lemma StartCountsLog(session: SessionId, recovery: bool)
    ensures CountsLog(Start(session, recovery), InitialHost(session))
  {
  }

  // ---------------------------------------------------------------- Timers in deadline order

  /** The recovery timer is seen while the stall timer is still to fire. */
  predicate SeesEarlyRecovery(c: Client, input: Input) {
    || (input.TxEvent? && input.txEvent.RecoveryFires? && c.phase.TxWaiting? && c.phase.txWait.OnlyPrimary?)
    || (input.RxEvent? && input.rxEvent.RecoveryFires? && c.phase.RxWaiting? && c.phase.rxWait.OnlyPrimary?)
  }

  /** In every wait of the run the stall timer, set for 250 ms, is seen before the deadline of 5 s. */
  ghost predicate InTimerOrder(c: Client, moves: seq<Move>)
    decreases |moves|
  {
    moves == [] ||
    match moves[0]
    case DeviceMove(_) => InTimerOrder(c, moves[1..])
    case HostMove(input, _, _) =>
      Accepted(c, input) ==> !SeesEarlyRecovery(c, input) && InTimerOrder(Next(c, input), moves[1..])
  }

  lemma {:induction false} NoEarlyRecovery(c: Client, moves: seq<Move>)
    requires InTimerOrder(c, moves)
    ensures TrafficOf(c, moves).0.early == 0 && TrafficOf(c, moves).1.early == 0
    decreases |moves|
  {
    if moves != [] {
      match moves[0] {
        case HostMove(input, i, keep) =>
          if Accepted(c, input) { NoEarlyRecovery(Next(c, input), moves[1..]); }
        case DeviceMove(_) => NoEarlyRecovery(c, moves[1..]);
      }
    }
  }

  /**
   * With timers seen in deadline order, and outside a wait whose backup is still racing,
   * requests sent or withheld are transactions plus recorded retries, up to the backups of
   * cancelled waits.
   */
  lemma OrderedTimersAccount(session: SessionId, recovery: bool, moves: seq<Move>, c: Client, s: State)
    requires Run(Start(session, recovery), Initial(session), moves, c, s)
    requires InTimerOrder(Start(session, recovery), moves) && UncountedTx(c) == UncountedRx(c) == 0
    ensures var (tx, rx) := TrafficOf(Start(session, recovery), moves);
            && tx.sent + tx.withheld == TxCount(s.host.log) + c.tx.retries + tx.cancelled
            && rx.sent + rx.withheld == RxCount(s.host.log) + c.rx.retries + rx.cancelled
  {
    hide Run, TrafficOf, TxCount, RxCount, InTimerOrder;
    RetriesAccountForRequests(session, recovery, moves, c, s);
    NoEarlyRecovery(Start(session, recovery), moves);
  }

  // ---------------------------------------------------------------- Without a deadline

  lemma {:induction false} NoDeadlineRun(c: Client, s: State, moves: seq<Move>, c': Client, s': State)
    requires Run(c, s, moves, c', s') && !c.recovery
    ensures InTimerOrder(c, moves) && c'.recoveryTimeouts == c.recoveryTimeouts
    decreases |moves|
  {
    hide Moves, ValidRun, Execute, Feasible;
    if moves != [] {
      match moves[0] {
        case HostMove(input, i, keep) =>
          NoDeadlineStep(c, input);
          hide Next;
          NoDeadlineRun(Next(c, input), Execute(s, Moves(c, input, i, keep)), moves[1..], c', s');
        case DeviceMove(step) => NoDeadlineRun(c, Apply(s, step), moves[1..], c', s');
      }
    }
  }

  lemma NoDeadlineStep(c: Client, input: Input)
    requires Accepted(c, input) && !c.recovery
    ensures !SeesEarlyRecovery(c, input)
    ensures !Next(c, input).recovery && Next(c, input).recoveryTimeouts == c.recoveryTimeouts
  {
  }

  /**
   * The client without a recovery deadline, as on NUSB: every run of it is a run of the
   * protocol, it never asks for recovery, and its requests are accounted for.
   */
  lemma NoDeadlineClient(session: SessionId, moves: seq<Move>, c: Client, s: State)
    requires Run(Start(session, false), Initial(session), moves, c, s)
    ensures Reachable(s) && Related(c, s.host) && c.recoveryTimeouts == 0
    ensures var (tx, rx) := TrafficOf(Start(session, false), moves);
            && tx.sent + tx.withheld == TxCount(s.host.log) + c.tx.retries + tx.cancelled + UncountedTx(c)
            && rx.sent + rx.withheld == RxCount(s.host.log) + c.rx.retries + rx.cancelled + UncountedRx(c)
  {
    hide Run, TrafficOf, TxCount, RxCount, InTimerOrder, Reachable, Related, Accounted;
    SerialClientRefinesProtocol(session, false, moves, c, s);
    RetriesAccountForRequests(session, false, moves, c, s);
    NoDeadlineRun(Start(session, false), Initial(session), moves, c, s);
    NoEarlyRecovery(Start(session, false), moves);
  }
}
