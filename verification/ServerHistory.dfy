/**
 * What the servers of the protocol did, in every run: the radio accepted the requests, and
 * the queue was popped for the polls, that a server with a table of all its answers acts
 * on, and every response is that server's answer.
 */
module ServerHistory {
  import opened Wire
  import opened Protocol
  import opened HostLog
  import opened TxPath
  import opened RxPath
  import opened Delivery
  import opened OneSlot

  // ---------------------------------------------------------------- TX

  /** The requests the one-slot server acts on. */
  function TxActs(served: seq<Stamp>): seq<Stamp> {
    ActedOn(served, OneSlotServer(served, Nothing(|served|)).acted)
  }

  /** The request the server acts on and the radio has not accepted yet. */
  function Unaccepted(t: TxSide, b: Bridge): seq<Stamp> {
    if t.phase.Offering? || (t.phase.Awaiting? && !Accepted(t, b)) then [t.phase.request.stamp] else []
  }

  ghost predicate TxHistory(t: TxSide, b: Bridge) {
    Stamps(t.radio) + Unaccepted(t, b) == TxActs(t.served)
  }

  lemma TxActsNext(served: seq<Stamp>, q: Stamp)
    ensures var repeat := served != [] && served[|served| - 1].transaction == q.transaction;
            TxActs(served + [q]) == if repeat then TxActs(served) else TxActs(served) + [q]
  {
    var n := |served|;
    assert Nothing(n) + [()] == Nothing(n + 1);
    OneSlotNext(served, Nothing(n), q, ());
    var acts := !(n > 0 && served[n - 1].transaction == q.transaction);
    ActedOnNext(served, OneSlotServer(served, Nothing(n)).acted, q, acts);
  }

  lemma TxHistoryServe(t: TxSide, b: Bridge, i: nat)
    requires TxHistory(t, b) && Remembers(t) && t.phase.Listening? && i < |t.requests|
    ensures TxHistory(ServeTxSide(t, i), b)
  {
    hide TxActs;
    TxActsNext(t.served, t.requests[i].stamp);
  }

  lemma TxHistoryStep(s: State, step: Step)
    requires TokenInv(s.tx, s.bridge) && Remembers(s.tx) && TxHistory(s.tx, s.bridge) && Enabled(s, step)
    ensures TxHistory(Apply(s, step).tx, Apply(s, step).bridge)
  {
    hide TxActs;
    if step.ServeTx? {
      TxHistoryServe(s.tx, s.bridge, step.i);
    } else if step.RadioTx? {
      var t' := Apply(s, step).tx;
      assert Stamps(t'.radio) == Stamps(s.tx.radio) + [s.bridge.request.stamp];
    } else {
      assert Unaccepted(Apply(s, step).tx, Apply(s, step).bridge) == Unaccepted(s.tx, s.bridge);
    }
  }

  // ---------------------------------------------------------------- RX

  /** The frames popped for the polls the server acts on. */
  function Pops(served: seq<Stamp>, acted: seq<bool>, results: seq<Option<Frame>>): seq<Arrival>
    requires |served| == |acted| == |results|
  {
    if served == [] then []
    else
      var n := |served| - 1;
      var rest := Pops(served[..n], acted[..n], results[..n]);
      if acted[n] && results[n].Some? then rest + [Arrival(served[n].serial, results[n].value)] else rest
  }

  /** This response is the answer to one of the polls. */
  ghost predicate Given(response: RxResponse, served: seq<Stamp>, answers: seq<Option<Frame>>)
    requires |served| == |answers|
  {
    exists i :: 0 <= i < |served| && response == RxResponse(served[i], answers[i])
  }

  /** A server that acted with these results pops, remembers and answers like this. */
  ghost predicate Does(r: RxSide, served: seq<Stamp>, results: seq<Option<Frame>>, b: Behaviour<Option<Frame>>)
    requires |served| == |results| == |b.answers| == |b.acted|
  {
    && r.popped == Pops(served, b.acted, results)
    && r.cached == (if served == [] then None
                    else Some(RxResponse(served[|served| - 1], b.answers[|served| - 1])))
    && forall k :: 0 <= k < |r.responses| ==> Given(r.responses[k], served, b.answers)
  }

  /** The polls the server has answered; a poll it is about to answer is new. */
  ghost predicate RxHistory(r: RxSide, results: seq<Option<Frame>>) {
    var n := |results|;
    && |r.served| == n + (if r.phase.Polling? then 1 else 0)
    && (r.phase.Polling? ==> r.served[n] == r.phase.poll
                             && (n > 0 ==> r.served[n - 1].transaction != r.phase.poll.transaction))
    && Does(r, r.served[..n], results, OneSlotServer(r.served[..n], results))
  }

  lemma PopsNext(served: seq<Stamp>, acted: seq<bool>, results: seq<Option<Frame>>, q: Stamp, acts: bool,
                 result: Option<Frame>)
    requires |served| == |acted| == |results|
    ensures Pops(served + [q], acted + [acts], results + [result])
            == if acts && result.Some? then Pops(served, acted, results) + [Arrival(q.serial, result.value)]
               else Pops(served, acted, results)
  {
    var n := |served|;
    assert (served + [q])[..n] == served && (acted + [acts])[..n] == acted && (results + [result])[..n] == results;
  }

  /** Earlier answers stay answers. */
  lemma GivenStays(response: RxResponse, served: seq<Stamp>, answers: seq<Option<Frame>>, q: Stamp,
                   answer: Option<Frame>)
    requires |served| == |answers| && Given(response, served, answers)
    ensures Given(response, served + [q], answers + [answer])
  {
    var i :| 0 <= i < |served| && response == RxResponse(served[i], answers[i]);
    assert response == RxResponse((served + [q])[i], (answers + [answer])[i]);
  }

  lemma NewlyGiven(served: seq<Stamp>, answers: seq<Option<Frame>>, q: Stamp, answer: Option<Frame>)
    requires |served| == |answers|
    ensures Given(RxResponse(q, answer), served + [q], answers + [answer])
  {
    var n := |served|;
    assert RxResponse(q, answer) == RxResponse((served + [q])[n], (answers + [answer])[n]);
  }

  lemma GivenGrows(responses: seq<RxResponse>, served: seq<Stamp>, answers: seq<Option<Frame>>, q: Stamp,
                   answer: Option<Frame>)
    requires |served| == |answers|
    requires forall k :: 0 <= k < |responses| ==> Given(responses[k], served, answers)
    ensures var more := responses + [RxResponse(q, answer)];
            forall k :: 0 <= k < |more| ==> Given(more[k], served + [q], answers + [answer])
  {
    hide Given;
    var more := responses + [RxResponse(q, answer)];
    NewlyGiven(served, answers, q, answer);
    forall k | 0 <= k < |more| ensures Given(more[k], served + [q], answers + [answer]) {
      if k < |responses| { GivenStays(responses[k], served, answers, q, answer); }
    }
  }

  /** The server answers the poll it is working on. */
  lemma RxHistoryAnswer(r: RxSide, results: seq<Option<Frame>>) returns (results': seq<Option<Frame>>)
    requires RxHistory(r, results) && r.phase.Polling?
    ensures RxHistory(AnswerRx(r, r.phase.poll), results')
  {
    hide Pops, OneSlotServer, Given;
    var n, poll := |results|, r.phase.poll;
    var frame := if r.wifiToHost == [] then None else Some(r.wifiToHost[0]);
    results' := results + [frame];
    var served, b := r.served[..n], OneSlotServer(r.served[..n], results);
    assert r.served == served + [poll] && r.served[..n + 1] == r.served;
    OneSlotNext(served, results, poll, frame);
    PopsNext(served, b.acted, results, poll, true, frame);
    GivenGrows(r.responses, served, b.answers, poll, frame);
  }

  /** The server repeats its last answer. */
  lemma RxHistoryRepeat(r: RxSide, r': RxSide, results: seq<Option<Frame>>) returns (results': seq<Option<Frame>>)
    requires RxHistory(r, results) && r.phase.Idle? && r.cached.Some?
    requires r' == r.(requests := r'.requests, served := r.served + [r.cached.value.stamp],
                      responses := r.responses + [r.cached.value])
    ensures RxHistory(r', results')
  {
    hide Pops, OneSlotServer, Given;
    var n, poll := |results|, r.cached.value.stamp;
    results' := results + [None];
    var b := OneSlotServer(r.served, results);
    assert r.served[..n] == r.served && r'.served[..n + 1] == r.served + [poll];
    OneSlotNext(r.served, results, poll, None);
    PopsNext(r.served, b.acted, results, poll, false, None);
    GivenGrows(r.responses, r.served, b.answers, poll, b.answers[n - 1]);
  }

  lemma RxHistoryBegin(r: RxSide, r': RxSide, poll: Stamp, results: seq<Option<Frame>>)
    requires RxHistory(r, results) && r.phase.Idle?
    requires r.cached.Some? ==> r.cached.value.stamp.transaction != poll.transaction
    requires r' == r.(requests := r'.requests, served := r.served + [poll], phase := Polling(poll))
    ensures RxHistory(r', results)
  {
    hide Pops, OneSlotServer, Given;
    var n := |results|;
    assert r'.served[..n] == r.served == r.served[..n];
  }

  lemma RxHistoryServe(h: Host, r: RxSide, i: nat, results: seq<Option<Frame>>)
    returns (results': seq<Option<Frame>>)
    requires HostInv(h) && RxLink(h.log, r) && AnsweredInv(h, r) && CacheInv(h.log, r)
    requires RxHistory(r, results) && r.phase.Idle? && i < |r.requests|
    ensures RxHistory(ServeRxSide(r, i), results')
  {
    var poll, r' := r.requests[i], ServeRxSide(r, i);
    assert LoggedRx(h.log, poll) && Newest(r.served) <= poll.serial;
    if r.cached.Some? { PollDecision(h, r, poll); }
    hide HostInv, RxLink, AnsweredInv, CacheInv, RxHistory;
    if r.cached.Some? && r.cached.value.stamp.transaction == poll.transaction {
      results' := RxHistoryRepeat(r, r', results);
    } else {
      var p := r.(requests := r.requests[i + 1..], served := r.served + [poll], phase := Polling(poll));
      RxHistoryBegin(r, p, poll, results);
      if r.wifiToHost != [] {
        results' := RxHistoryAnswer(p, results);
      } else {
        results' := results;
      }
    }
  }

  lemma RxHistoryFrame(r: RxSide, r': RxSide, results: seq<Option<Frame>>, d: nat)
    requires RxHistory(r, results) && d <= |r.responses| && r'.responses == r.responses[d..]
    requires r'.served == r.served && r'.phase == r.phase && r'.popped == r.popped && r'.cached == r.cached
    ensures RxHistory(r', results)
  {
  }

  lemma RxHistoryStep(s: State, step: Step, results: seq<Option<Frame>>) returns (results': seq<Option<Frame>>)
    requires HostInv(s.host) && RxLink(s.host.log, s.rx) && AnsweredInv(s.host, s.rx) && CacheInv(s.host.log, s.rx)
    requires RxHistory(s.rx, results) && Enabled(s, step)
    ensures RxHistory(Apply(s, step).rx, results')
  {
    hide HostInv, RxLink, AnsweredInv, CacheInv, RxHistory;
    var r' := Apply(s, step).rx;
    if step.ServeRx? {
      results' := RxHistoryServe(s.host, s.rx, step.i, results);
    } else if step.PopRx? || step.TimeoutRx? {
      results' := RxHistoryAnswer(s.rx, results);
    } else {
      results' := results;
      var d := if step.HearRx? then (if step.keep then step.i else step.i + 1) else 0;
      assert r'.responses == s.rx.responses[d..];
      RxHistoryFrame(s.rx, r', results, d);
    }
  }

  // ---------------------------------------------------------------- Whole runs

  lemma TxHistoryInv(s: State, step: Step)
    requires Inv(s) && ServedInv(s) && TxHistory(s.tx, s.bridge) && Enabled(s, step)
    ensures TxHistory(Apply(s, step).tx, Apply(s, step).bridge)
  {
    hide TxHistory, HostInv, TokenInv, TxLink, RadioInv, MemoryInv, ServerInv, AckInv, EchoInv, RxInv, Serials,
         NoClash, OnlyCollisionsClash, Remembers;
    TxHistoryStep(s, step);
  }

  lemma RxHistoryInv(s: State, step: Step, results: seq<Option<Frame>>) returns (results': seq<Option<Frame>>)
    requires Inv(s) && RxHistory(s.rx, results) && Enabled(s, step)
    ensures RxHistory(Apply(s, step).rx, results')
  {
    hide RxHistory, HostInv, AnsweredInv, CacheInv, RxLink, Conserved, ResponseInv, PoppedInv, DeliveredInv,
         TxInv, Serials;
    results' := RxHistoryStep(s, step, results);
  }

  lemma {:induction false} HistoryRun(s: State, steps: seq<Step>, results: seq<Option<Frame>>)
    returns (results': seq<Option<Frame>>)
    requires Inv(s) && ServedInv(s) && TxHistory(s.tx, s.bridge) && RxHistory(s.rx, results) && ValidRun(s, steps)
    ensures TxHistory(Execute(s, steps).tx, Execute(s, steps).bridge)
    ensures RxHistory(Execute(s, steps).rx, results')
    decreases |steps|
  {
    hide Inv, ServedInv, TxHistory, RxHistory;
    results' := results;
    if steps != [] {
      InvStep(s, steps[0]);
      ServedStep(s, steps[0]);
      TxHistoryInv(s, steps[0]);
      results' := RxHistoryInv(s, steps[0], results);
      results' := HistoryRun(Apply(s, steps[0]), steps[1..], results');
    }
  }

  lemma InitialHistory(session: SessionId)
    ensures TxHistory(Initial(session).tx, Selecting) && RxHistory(Initial(session).rx, [])
  {
  }

  lemma ReachableHistory(s: State) returns (results: seq<Option<Frame>>)
    requires Reachable(s)
    ensures TxHistory(s.tx, s.bridge) && RxHistory(s.rx, results)
  {
    hide Inv, ServedInv, TxHistory, RxHistory;
    var session: SessionId, steps: seq<Step> :|
      ValidRun(Initial(session), steps) && Execute(Initial(session), steps) == s;
    InitialInv(session);
    InitialServed(session);
    InitialHistory(session);
    results := HistoryRun(Initial(session), steps, []);
  }

  // ---------------------------------------------------------------- Theorems

  /**
   * In every run the radio accepted, in order, the requests the one-slot server acts on, but
   * for the one it is acting on.
   */
  lemma TxServerIsOneSlot(s: State)
    requires Reachable(s)
    ensures Stamps(s.tx.radio) + Unaccepted(s.tx, s.bridge)
            == ActedOn(s.tx.served, OneSlotServer(s.tx.served, Nothing(|s.tx.served|)).acted)
  {
    hide RxHistory, Reachable;
    var _ := ReachableHistory(s);
  }

  /**
   * Without a collision these are the requests a server acts on that remembers every
   * transaction of every session: each transaction once, when it first arrives.
   */
  lemma TxServerRefinesTable(s: State)
    requires Reachable(s) && forall k: nat :: IsTx(s.host.log, k) ==> !Collides(s.host.log, k)
    ensures Stamps(s.tx.radio) + Unaccepted(s.tx, s.bridge)
            == ActedOn(s.tx.served, TableServer(s.tx.served, Nothing(|s.tx.served|)).acted)
  {
    hide Reachable, OneSlotServer, TableServer;
    TxServerIsOneSlot(s);
    TxServedRefinesTable(s, Nothing(|s.tx.served|));
  }

  /**
   * In every run the RX server, with its one cached response, does what a server does that
   * remembers every poll of every session: the frames it popped are those it answered new
   * polls with, and its cache and all responses on the link are that server's answers.
   */
  lemma RxServerRefinesTable(s: State) returns (results: seq<Option<Frame>>)
    requires Reachable(s) && s.rx.phase.Idle?
    ensures |results| == |s.rx.served|
    ensures Does(s.rx, s.rx.served, results, TableServer(s.rx.served, results))
  {
    hide Reachable, OneSlotServer, TableServer, Pops, Given;
    results := ReachableHistory(s);
    assert s.rx.served[..|results|] == s.rx.served;
    RxServedRefinesTable(s, results);
  }
}
