/**
 * The exchange task of the serial transport as it is written: nested retry loops over a
 * mutable transaction id and the shared metrics. They follow the client of `SerialClient`,
 * whose runs are runs of the protocol and whose ledgers balance.
 */
module ExchangeLoop {
  import opened Wire
  import opened EndpointWait
  import opened SerialClient

  class BridgeMetrics {
    var txRetries: nat
    var rxRetries: nat
    var endpointErrors: nat
    var responseMismatches: nat
    var recoveryTimeouts: nat

    constructor ()
      ensures txRetries == rxRetries == endpointErrors == responseMismatches == recoveryTimeouts == 0
    {
      txRetries, rxRetries, endpointErrors, responseMismatches := 0, 0, 0, 0;
      recoveryTimeouts := 0;
    }
  }

  // ---------------------------------------------------------------- What the loops follow

  /** The client, and the frames it has written to TAP. */
  datatype Progress = Progress(client: Client, tap: seq<Frame>)

  /** The frame an input makes the client write to TAP. */
  function Handed(c: Client, input: Input): seq<Frame>
    requires Accepted(c, input)
  {
    match input
    case RxEvent(Done(_, Ok(r), _), _) =>
      if Next(c, input).phase.AtLoopHead? && r.frame.Some? then [r.frame.value] else []
    case _ => []
  }

  /** The task ignores what it does not wait for. */
  function Feed(p: Progress, input: Input): Progress {
    if Accepted(p.client, input) then Progress(Next(p.client, input), p.tap + Handed(p.client, input))
    else p
  }

  function FeedAll(p: Progress, inputs: seq<Input>): Progress {
    if inputs == [] then p
    else
      var n := |inputs| - 1;
      Feed(FeedAll(p, inputs[..n]), inputs[n])
  }

  lemma {:induction false} FeedAppend(p: Progress, a: seq<Input>, b: seq<Input>)
    ensures FeedAll(p, a + b) == FeedAll(FeedAll(p, a), b)
    decreases |b|
  {
    if b == [] {
      assert a + b == a;
    } else {
      var n := |b| - 1;
      assert (a + b)[..|a| + n] == a + b[..n];
      FeedAppend(p, a, b[..n]);
    }
  }

  lemma FeedNext(p: Progress, inputs: seq<Input>, input: Input)
    ensures FeedAll(p, inputs + [input]) == Feed(FeedAll(p, inputs), input)
  {
    assert (inputs + [input])[..|inputs|] == inputs;
  }

  /** A task that does not wait for these events ignores them. */
  lemma {:induction false} Ignored(p: Progress, inputs: seq<Input>)
    requires forall i :: 0 <= i < |inputs| ==> !Accepted(p.client, inputs[i])
    ensures FeedAll(p, inputs) == p
  {
    if inputs != [] {
      Ignored(p, inputs[..|inputs| - 1]);
    }
  }

  function TxInputs(events: seq<Event<Stamp>>): (inputs: seq<Input>)
    ensures |inputs| == |events| && forall i :: 0 <= i < |events| ==> inputs[i] == TxEvent(events[i], false)
  {
    seq(|events|, i requires 0 <= i < |events| => TxEvent(events[i], false))
  }

  function RxInputs(events: seq<Event<RxResponse>>): (inputs: seq<Input>)
    ensures |inputs| == |events| && forall i :: 0 <= i < |events| ==> inputs[i] == RxEvent(events[i], false)
  {
    seq(|events|, i requires 0 <= i < |events| => RxEvent(events[i], false))
  }

  // ---------------------------------------------------------------- One wait

  /** These events do not end a wait before the last of them. */
  ghost predicate Undecided<T>(events: seq<Event<T>>, n: nat, recovery: bool) {
    n <= |events| && forall j :: 0 <= j < n ==> !After(events[..j], recovery).Over?
  }

  /** Retries recorded when a wait ends like this. */
  function RetriesOf<T>(outcome: Outcome<T>, matches: bool): nat {
    match outcome
    case Completed(result, _, backup, _) =>
      (if backup then 1 else 0) + (if result.Ok? && matches then 0 else 1)
    case RecoveryRequired(_) => 1
    case Cancelled => 0
  }

  /** What the end of a wait adds to the counters both directions share. */
  predicate CountersAfter<T>(c: Client, c': Client, outcome: Outcome<T>, matches: bool) {
    && c'.recovery == c.recovery && c'.session == c.session && c'.nextId == c.nextId && c'.openedCount == c.openedCount
    && c'.endpointErrors == c.endpointErrors + ErrorsOf(Over(outcome))
    && c'.responseMismatches == c.responseMismatches + (if Mismatch(Over(outcome), matches) then 1 else 0)
    && c'.recoveryTimeouts == c.recoveryTimeouts + (if NeedsRecovery(Over(outcome)) then 1 else 0)
  }

  /** One event of a Tx wait: the wait moves, or it ends and is recorded. */
  lemma TxWaitEvent(p: Progress, request: TxRequest, wait: Wait<Stamp>, event: Event<Stamp>)
    requires p.client.phase == TxWaiting(request, wait) && !wait.Over?
    ensures var c, p' := p.client, Feed(p, TxEvent(event, false));
            var after := Advance(wait, event, c.recovery);
            var c', matches := p'.client, MatchesTx(after, request);
            if after.Over? then
              && CountersAfter(c, c', after.outcome, matches)
              && c'.tx.retries == c.tx.retries + RetriesOf(after.outcome, matches) && c'.rx == c.rx
              && p'.tap == p.tap
              && c'.phase == (if Stops(after) then Ended else if Accepts(after, matches) then BeforePoll
                              else TxWaiting(request, OnlyPrimary))
            else
              p' == p.(client := c.(phase := TxWaiting(request, after),
                                    tx := c.tx.(futures := c.tx.futures + Uncounted(after) - Uncounted(wait))))
  {
  }

  lemma {:induction false} TxWaits(p: Progress, request: TxRequest, events: seq<Event<Stamp>>, i: nat)
    requires p.client.phase == TxWaiting(request, OnlyPrimary)
    requires Undecided(events, i, p.client.recovery) && !After(events[..i], p.client.recovery).Over?
    ensures var c, wait := p.client, After(events[..i], p.client.recovery);
            FeedAll(p, TxInputs(events[..i]))
            == p.(client := c.(phase := TxWaiting(request, wait),
                               tx := c.tx.(futures := c.tx.futures + Uncounted(wait))))
  {
    hide Feed, FeedAll, Advance;
    if i > 0 {
      TxWaits(p, request, events, i - 1);
      Prefix(events, i - 1, p.client.recovery);
      var wait := After(events[..i - 1], p.client.recovery);
      TxWaitEvent(FeedAll(p, TxInputs(events[..i - 1])), request, wait, events[i - 1]);
      assert TxInputs(events[..i]) == TxInputs(events[..i - 1]) + [TxEvent(events[i - 1], false)];
      FeedNext(p, TxInputs(events[..i - 1]), TxEvent(events[i - 1], false));
    } else {
      Ignored(p, TxInputs(events[..0]));
    }
  }

  /** The event that ends the wait. */
  lemma TxDecides(p: Progress, request: TxRequest, events: seq<Event<Stamp>>, n: nat)
    requires p.client.phase == TxWaiting(request, OnlyPrimary) && n > 0
    requires Undecided(events, n, p.client.recovery) && After(events[..n], p.client.recovery).Over?
    ensures var wait, p' := After(events[..n], p.client.recovery), FeedAll(p, TxInputs(events[..n]));
            var c, c', matches := p.client, p'.client, MatchesTx(wait, request);
            && CountersAfter(c, c', wait.outcome, matches)
            && c'.tx.retries == c.tx.retries + RetriesOf(wait.outcome, matches) && c'.rx == c.rx
            && p'.tap == p.tap
            && c'.phase == (if Stops(wait) then Ended else if Accepts(wait, matches) then BeforePoll
                            else TxWaiting(request, OnlyPrimary))
  {
    hide Feed, FeedAll, Advance;
    var i := n - 1;
    TxWaits(p, request, events, i);
    Prefix(events, i, p.client.recovery);
    TxWaitEvent(FeedAll(p, TxInputs(events[..i])), request, After(events[..i], p.client.recovery), events[i]);
    assert TxInputs(events[..n]) == TxInputs(events[..i]) + [TxEvent(events[i], false)];
    FeedNext(p, TxInputs(events[..i]), TxEvent(events[i], false));
  }

  /** The frame of the response that settles a poll. */
  function FrameOf(wait: Wait<RxResponse>, poll: Stamp): seq<Frame> {
    if MatchesRx(wait, poll) && wait.outcome.result.response.frame.Some?
    then [wait.outcome.result.response.frame.value] else []
  }

  /** One event of a Rx wait: the wait moves, or it ends and is recorded. */
  lemma RxWaitEvent(p: Progress, poll: Stamp, wait: Wait<RxResponse>, event: Event<RxResponse>)
    requires p.client.phase == RxWaiting(poll, wait) && !wait.Over?
    ensures var c, p' := p.client, Feed(p, RxEvent(event, false));
            var after := Advance(wait, event, c.recovery);
            var c', matches := p'.client, MatchesRx(after, poll);
            if after.Over? then
              && CountersAfter(c, c', after.outcome, matches)
              && c'.rx.retries == c.rx.retries + RetriesOf(after.outcome, matches) && c'.tx == c.tx
              && p'.tap == p.tap + FrameOf(after, poll)
              && c'.phase == (if Stops(after) then Ended else if Accepts(after, matches) then AtLoopHead
                              else RxWaiting(poll, OnlyPrimary))
            else
              p' == p.(client := c.(phase := RxWaiting(poll, after),
                                    rx := c.rx.(futures := c.rx.futures + Uncounted(after) - Uncounted(wait))))
  {
  }

  lemma {:induction false} RxWaits(p: Progress, poll: Stamp, events: seq<Event<RxResponse>>, i: nat)
    requires p.client.phase == RxWaiting(poll, OnlyPrimary)
    requires Undecided(events, i, p.client.recovery) && !After(events[..i], p.client.recovery).Over?
    ensures var c, wait := p.client, After(events[..i], p.client.recovery);
            FeedAll(p, RxInputs(events[..i]))
            == p.(client := c.(phase := RxWaiting(poll, wait),
                               rx := c.rx.(futures := c.rx.futures + Uncounted(wait))))
  {
    hide Feed, FeedAll, Advance;
    if i > 0 {
      RxWaits(p, poll, events, i - 1);
      Prefix(events, i - 1, p.client.recovery);
      var wait := After(events[..i - 1], p.client.recovery);
      RxWaitEvent(FeedAll(p, RxInputs(events[..i - 1])), poll, wait, events[i - 1]);
      assert RxInputs(events[..i]) == RxInputs(events[..i - 1]) + [RxEvent(events[i - 1], false)];
      FeedNext(p, RxInputs(events[..i - 1]), RxEvent(events[i - 1], false));
    } else {
      Ignored(p, RxInputs(events[..0]));
    }
  }

  /** The event that ends the wait. */
  lemma RxDecides(p: Progress, poll: Stamp, events: seq<Event<RxResponse>>, n: nat)
    requires p.client.phase == RxWaiting(poll, OnlyPrimary) && n > 0
    requires Undecided(events, n, p.client.recovery) && After(events[..n], p.client.recovery).Over?
    ensures var wait, p' := After(events[..n], p.client.recovery), FeedAll(p, RxInputs(events[..n]));
            var c, c', matches := p.client, p'.client, MatchesRx(wait, poll);
            && CountersAfter(c, c', wait.outcome, matches)
            && c'.rx.retries == c.rx.retries + RetriesOf(wait.outcome, matches) && c'.tx == c.tx
            && p'.tap == p.tap + FrameOf(wait, poll)
            && c'.phase == (if Stops(wait) then Ended else if Accepts(wait, matches) then AtLoopHead
                            else RxWaiting(poll, OnlyPrimary))
  {
    hide Feed, FeedAll, Advance;
    var i := n - 1;
    RxWaits(p, poll, events, i);
    Prefix(events, i, p.client.recovery);
    RxWaitEvent(FeedAll(p, RxInputs(events[..i])), poll, After(events[..i], p.client.recovery), events[i]);
    assert RxInputs(events[..n]) == RxInputs(events[..i]) + [RxEvent(events[i], false)];
    FeedNext(p, RxInputs(events[..i]), RxEvent(events[i], false));
  }

  // ---------------------------------------------------------------- The loops

  /** How a retry loop ends: settled, with the task, or because no more events are given. */
  datatype LoopEnd = Settled | TaskEnds | Cut

  /** One turn of the main loop: the result of `try_recv` and the events of both retry loops. */
  datatype Turn = Turn(frame: Option<Frame>, txEvents: seq<Event<Stamp>>, rxEvents: seq<Event<RxResponse>>)

  /** What the task observes in a turn, in order. */
  function InputsOf(turn: Turn): seq<Input> {
    (if turn.frame.Some?
     then [FrameTaken(turn.frame.value, false)] + TxInputs(turn.txEvents) + [PollNext(false)]
     else [NoFrame(false)])
    + RxInputs(turn.rxEvents)
  }

  function FeedTurns(p: Progress, turns: seq<Turn>): Progress {
    if turns == [] then p
    else
      var n := |turns| - 1;
      FeedAll(FeedTurns(p, turns[..n]), InputsOf(turns[n]))
  }

  function TurnsWithFrame(turns: seq<Turn>): nat {
    if turns == [] then 0
    else TurnsWithFrame(turns[..|turns| - 1]) + (if turns[|turns| - 1].frame.Some? then 1 else 0)
  }

  lemma FeedOne(p: Progress, input: Input)
    ensures FeedAll(p, [input]) == Feed(p, input)
  {
  }

  /** A turn, piece by piece. */
  lemma FeedTurn(p: Progress, turn: Turn)
    ensures FeedAll(p, InputsOf(turn)) ==
            if turn.frame.Some? then
              FeedAll(Feed(FeedAll(Feed(p, FrameTaken(turn.frame.value, false)), TxInputs(turn.txEvents)),
                           PollNext(false)), RxInputs(turn.rxEvents))
            else FeedAll(Feed(p, NoFrame(false)), RxInputs(turn.rxEvents))
  {
    hide FeedAll, Feed;
    if turn.frame.Some? {
      var a, b := [FrameTaken(turn.frame.value, false)], TxInputs(turn.txEvents);
      FeedAppend(p, a, b);
      FeedAppend(p, a + b, [PollNext(false)]);
      FeedAppend(p, a + b + [PollNext(false)], RxInputs(turn.rxEvents));
      FeedOne(p, a[0]);
      FeedOne(FeedAll(p, a + b), PollNext(false));
    } else {
      FeedAppend(p, [NoFrame(false)], RxInputs(turn.rxEvents));
      FeedOne(p, NoFrame(false));
    }
  }

  lemma {:induction false} FeedAccounted(p: Progress, inputs: seq<Input>)
    requires Accounted(p.client)
    ensures Accounted(FeedAll(p, inputs).client)
  {
    if inputs != [] {
      var n := |inputs| - 1;
      FeedAccounted(p, inputs[..n]);
      var c := FeedAll(p, inputs[..n]).client;
      if Accepted(c, inputs[n]) { AccountedStep(c, inputs[n]); }
    }
  }

  class WifiExchange {
    const session: SessionId
    const recovery: bool          // the transport sets a recovery deadline
    const metrics: BridgeMetrics
    var nextId: Id
    var openedCount: nat          // history: transactions opened
    var tap: seq<Frame>           // frames written to TAP

    constructor (session: SessionId, recovery: bool)
      ensures Is(Progress(Start(session, recovery), [])) && fresh(metrics)
    {
      this.session, this.recovery := session, recovery;
      metrics := new BridgeMetrics();
      nextId, openedCount, tap := 0, 0, [];
    }

    /** The fields and the metrics are those of the client. */
    ghost predicate Is(p: Progress)
      reads this, metrics
    {
      && recovery == p.client.recovery && session == p.client.session
      && nextId == p.client.nextId && openedCount == p.client.openedCount
      && tap == p.tap
      && metrics.txRetries == p.client.tx.retries && metrics.rxRetries == p.client.rx.retries
      && metrics.endpointErrors == p.client.endpointErrors
      && metrics.responseMismatches == p.client.responseMismatches
      && metrics.recoveryTimeouts == p.client.recoveryTimeouts
    }

    /** Count the errors of a completed wait, one by one. */
    method RecordErrors(discarded: nat)
      modifies metrics`endpointErrors
      ensures metrics.endpointErrors == old(metrics.endpointErrors) + discarded
    {
      for i := 0 to discarded
        invariant metrics.endpointErrors == old(metrics.endpointErrors) + i
      {
        metrics.endpointErrors := metrics.endpointErrors + 1;
      }
    }

    /** What the task records when a TX wait ends. */
    method RecordTx(outcome: Outcome<Stamp>, request: TxRequest) returns (end: LoopEnd)
      modifies metrics
      ensures var matches := MatchesTx(Over(outcome), request);
              && metrics.txRetries == old(metrics.txRetries) + RetriesOf(outcome, matches)
              && metrics.rxRetries == old(metrics.rxRetries)
              && metrics.endpointErrors == old(metrics.endpointErrors) + ErrorsOf(Over(outcome))
              && metrics.responseMismatches == old(metrics.responseMismatches)
                                               + (if Mismatch(Over(outcome), matches) then 1 else 0)
              && metrics.recoveryTimeouts == old(metrics.recoveryTimeouts)
                                             + (if NeedsRecovery(Over(outcome)) then 1 else 0)
              && end == if Stops(Over(outcome)) then TaskEnds
                        else if Accepts(Over(outcome), matches) then Settled else Cut
    {
      end := TaskEnds;
      match outcome {
        case Cancelled =>
        case RecoveryRequired(_) =>
          metrics.txRetries := metrics.txRetries + 1;
          metrics.recoveryTimeouts := metrics.recoveryTimeouts + 1;
        case Completed(result, _, backupSent, discarded) =>
          if backupSent {
            metrics.txRetries := metrics.txRetries + 1;
          }
          RecordErrors(discarded);
          end := Cut;
          match result {
            case Ok(response) =>
              if response.transaction == request.stamp.transaction {
                end := Settled;
              } else {
                metrics.txRetries := metrics.txRetries + 1;
                metrics.responseMismatches := metrics.responseMismatches + 1;
              }
            case Err =>
              metrics.txRetries := metrics.txRetries + 1;
              metrics.endpointErrors := metrics.endpointErrors + 1;
          }
      }
    }

    /** The retry loop of a TX transaction. */
    method SettleTx(request: TxRequest, events: seq<Event<Stamp>>, ghost p: Progress)
      returns (end: LoopEnd, ghost p': Progress)
      requires Is(p) && p.client.phase == TxWaiting(request, OnlyPrimary)
      modifies metrics
      ensures p' == FeedAll(p, TxInputs(events)) && Is(p')
      ensures match end
              case Settled => p'.client.phase.BeforePoll?
              case TaskEnds => p'.client.phase.Ended?
              case Cut => p'.client.phase.TxWaiting?
    {
      hide FeedAll;
      var used, over := 0, false;
      p', end := p, Cut;
      Ignored(p, TxInputs(events[..0]));
      while end.Cut? && !over
        invariant 0 <= used <= |events| && Is(p') && p' == FeedAll(p, TxInputs(events[..used]))
        invariant match end
                  case Settled => p'.client.phase.BeforePoll?
                  case TaskEnds => p'.client.phase.Ended?
                  case Cut => p'.client.phase.TxWaiting?
        invariant end.Cut? && !over ==> p'.client.phase == TxWaiting(request, OnlyPrimary)
        invariant over ==> end.Cut? && used == |events|
        decreases |events| - used, end.Cut? && !over
      {
        var rest := events[used..];
        var wait, n := AwaitEndpointResponse(rest, recovery);
        ghost var before := p';
        p' := FeedAll(p', TxInputs(rest[..n]));
        FeedAppend(p, TxInputs(events[..used]), TxInputs(rest[..n]));
        assert TxInputs(events[..used]) + TxInputs(rest[..n]) == TxInputs(events[..used + n]);
        used := used + n;
        if wait.Over? {
          TxDecides(before, request, rest, n);
          end := RecordTx(wait.outcome, request);
        } else {
          TxWaits(before, request, rest, n);
          over := true;
        }
      }
      FeedAppend(p, TxInputs(events[..used]), TxInputs(events[used..]));
      assert TxInputs(events[..used]) + TxInputs(events[used..]) == TxInputs(events);
      Ignored(p', TxInputs(events[used..]));
    }

    /** What the task records, and writes to TAP, when a RX wait ends. */
    method RecordRx(outcome: Outcome<RxResponse>, poll: Stamp) returns (end: LoopEnd)
      modifies metrics, this`tap
      ensures var matches := MatchesRx(Over(outcome), poll);
              && metrics.rxRetries == old(metrics.rxRetries) + RetriesOf(outcome, matches)
              && metrics.txRetries == old(metrics.txRetries)
              && metrics.endpointErrors == old(metrics.endpointErrors) + ErrorsOf(Over(outcome))
              && metrics.responseMismatches == old(metrics.responseMismatches)
                                               + (if Mismatch(Over(outcome), matches) then 1 else 0)
              && metrics.recoveryTimeouts == old(metrics.recoveryTimeouts)
                                             + (if NeedsRecovery(Over(outcome)) then 1 else 0)
              && tap == old(tap) + FrameOf(Over(outcome), poll)
              && end == if Stops(Over(outcome)) then TaskEnds
                        else if Accepts(Over(outcome), matches) then Settled else Cut
    {
      end := TaskEnds;
      match outcome {
        case Cancelled =>
        case RecoveryRequired(_) =>
          metrics.rxRetries := metrics.rxRetries + 1;
          metrics.recoveryTimeouts := metrics.recoveryTimeouts + 1;
        case Completed(result, _, backupSent, discarded) =>
          if backupSent {
            metrics.rxRetries := metrics.rxRetries + 1;
          }
          RecordErrors(discarded);
          end := Cut;
          match result {
            case Ok(response) =>
              if response.stamp.transaction == poll.transaction {
                end := Settled;
                if response.frame.Some? {
                  tap := tap + [response.frame.value];
                }
              } else {
                metrics.rxRetries := metrics.rxRetries + 1;
                metrics.responseMismatches := metrics.responseMismatches + 1;
              }
            case Err =>
              metrics.rxRetries := metrics.rxRetries + 1;
              metrics.endpointErrors := metrics.endpointErrors + 1;
          }
      }
    }

    /** The retry loop of a RX poll. */
    method SettleRx(poll: Stamp, events: seq<Event<RxResponse>>, ghost p: Progress)
      returns (end: LoopEnd, ghost p': Progress)
      requires Is(p) && p.client.phase == RxWaiting(poll, OnlyPrimary)
      modifies metrics, this`tap
      ensures p' == FeedAll(p, RxInputs(events)) && Is(p')
      ensures match end
              case Settled => p'.client.phase.AtLoopHead?
              case TaskEnds => p'.client.phase.Ended?
              case Cut => p'.client.phase.RxWaiting?
    {
      hide FeedAll;
      var used, over := 0, false;
      p', end := p, Cut;
      Ignored(p, RxInputs(events[..0]));
      while end.Cut? && !over
        invariant 0 <= used <= |events| && Is(p') && p' == FeedAll(p, RxInputs(events[..used]))
        invariant match end
                  case Settled => p'.client.phase.AtLoopHead?
                  case TaskEnds => p'.client.phase.Ended?
                  case Cut => p'.client.phase.RxWaiting?
        invariant end.Cut? && !over ==> p'.client.phase == RxWaiting(poll, OnlyPrimary)
        invariant over ==> end.Cut? && used == |events|
        decreases |events| - used, end.Cut? && !over
      {
        var rest := events[used..];
        var wait, n := AwaitEndpointResponse(rest, recovery);
        ghost var before := p';
        p' := FeedAll(p', RxInputs(rest[..n]));
        FeedAppend(p, RxInputs(events[..used]), RxInputs(rest[..n]));
        assert RxInputs(events[..used]) + RxInputs(rest[..n]) == RxInputs(events[..used + n]);
        used := used + n;
        if wait.Over? {
          RxDecides(before, poll, rest, n);
          end := RecordRx(wait.outcome, poll);
        } else {
          RxWaits(before, poll, rest, n);
          over := true;
        }
      }
      FeedAppend(p, RxInputs(events[..used]), RxInputs(events[used..]));
      assert RxInputs(events[..used]) + RxInputs(events[used..]) == RxInputs(events);
      Ignored(p', RxInputs(events[used..]));
    }

    /** A fresh stamp; the wire sees the session and the wrapping id. */
    method NextStamp() returns (stamp: Stamp)
      modifies this`nextId, this`openedCount
      ensures stamp == Stamp(Transaction(session, old(nextId)), old(openedCount))
      ensures nextId == WrappingIncrement(old(nextId)) && openedCount == old(openedCount) + 1
    {
      stamp := Stamp(Transaction(session, nextId), openedCount);
      nextId, openedCount := WrappingIncrement(nextId), openedCount + 1;
    }

    /** One turn of the main loop: a TX if there is a frame, then always one poll. */
    method TakeTurn(turn: Turn, ghost p: Progress) returns (end: LoopEnd, ghost p': Progress)
      requires Is(p) && p.client.phase.AtLoopHead? && (turn.frame.Some? ==> InSize(turn.frame.value))
      modifies this`nextId, this`openedCount, this`tap, metrics
      ensures p' == FeedAll(p, InputsOf(turn)) && Is(p')
      ensures end.Settled? <==> p'.client.phase.AtLoopHead?
      ensures end.Settled? ==> openedCount == old(openedCount) + 1 + (if turn.frame.Some? then 1 else 0)
    {
      hide FeedAll;
      p' := p;
      ghost var opening := [NoFrame(false)];
      if turn.frame.Some? {
        var stamp := NextStamp();
        var request := TxRequest(stamp, turn.frame.value);
        p' := Feed(p, FrameTaken(turn.frame.value, false));
        end, p' := SettleTx(request, turn.txEvents, p');
        if !end.Settled? {
          FeedTurn(p, turn);
          Ignored(p', RxInputs(turn.rxEvents));
          return;
        }
        opening := [PollNext(false)];
      }
      var poll := NextStamp();
      p' := Feed(p', opening[0]);
      end, p' := SettleRx(poll, turn.rxEvents, p');
      FeedTurn(p, turn);
    }

    /**
     * The task, for these turns. It does what the client does, its metrics are the client's,
     * and so they balance: futures created are transactions plus retries, up to what is
     * under way or was cancelled.
     */
    method Run(turns: seq<Turn>) returns (handled: nat, ghost p: Progress)
      requires Is(Progress(Start(session, recovery), []))
      requires forall i :: 0 <= i < |turns| && turns[i].frame.Some? ==> InSize(turns[i].frame.value)
      modifies this`nextId, this`openedCount, this`tap, metrics
      ensures handled <= |turns| && p == FeedTurns(Progress(Start(session, recovery), []), turns[..handled])
      ensures Is(p) && Accounted(p.client)
      // Each turn has one poll, and a TX if there was a frame.
      ensures p.client.phase.AtLoopHead? ==> handled == |turns| && openedCount == |turns| + TurnsWithFrame(turns)
    {
      hide Accounted, Related, InputsOf, FeedAll;
      p, handled := Progress(Start(session, recovery), []), 0;
      StartKeeps(session, recovery);
      while handled < |turns|
        invariant 0 <= handled <= |turns| && Is(p) && p.client.phase.AtLoopHead? && Accounted(p.client)
        invariant p == FeedTurns(Progress(Start(session, recovery), []), turns[..handled])
        invariant openedCount == handled + TurnsWithFrame(turns[..handled])
      {
        assert turns[..handled + 1][..handled] == turns[..handled];
        FeedAccounted(p, InputsOf(turns[handled]));
        var end;
        end, p := TakeTurn(turns[handled], p);
        handled := handled + 1;
        if !end.Settled? {
          return;
        }
      }
      assert turns[..handled] == turns;
    }
  }
}
