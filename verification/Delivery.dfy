/** The guarantees of the exchange, for every state that any run over the lossy link reaches. */
module Delivery {
  import opened Wire
  import opened Protocol
  import opened HostLog
  import opened TxPath
  import opened RxPath

  // ---------------------------------------------------------------- Reachable states

  function Serials(radio: seq<TxRequest>): set<nat> {
    if radio == [] then {}
    else Serials(radio[..|radio| - 1]) + {radio[|radio| - 1].stamp.serial}
  }

  ghost predicate Inv(s: State) {
    TxInv(s) && RxInv(s) && s.tx.accepted == Serials(s.tx.radio)
  }

  lemma InitialInv(session: SessionId)
    ensures Inv(Initial(session))
  {
    InitialTxInv(session);
    InitialRxInv(session);
  }

  lemma SerialsStep(s: State, step: Step)
    requires Enabled(s, step) && s.tx.accepted == Serials(s.tx.radio)
    ensures Apply(s, step).tx.accepted == Serials(Apply(s, step).tx.radio)
  {
  }

  lemma InvStep(s: State, step: Step)
    requires Inv(s) && Enabled(s, step)
    ensures Inv(Apply(s, step))
  {
    hide TxInv, RxInv, Serials;
    TxStep(s, step);
    RxStep(s, step);
    SerialsStep(s, step);
  }

  lemma {:induction false} InvRun(s: State, steps: seq<Step>)
    requires Inv(s) && ValidRun(s, steps)
    ensures Inv(Execute(s, steps))
    decreases |steps|
  {
    hide Inv;
    if steps != [] {
      InvStep(s, steps[0]);
      InvRun(Apply(s, steps[0]), steps[1..]);
    }
  }

  lemma ReachableInv(s: State)
    requires Reachable(s)
    ensures Inv(s)
  {
    hide Inv;
    var session: SessionId, steps: seq<Step> :|
      ValidRun(Initial(session), steps) && Execute(Initial(session), steps) == s;
    InitialInv(session);
    InvRun(Initial(session), steps);
  }

  lemma ReachableHost(s: State)
    requires Reachable(s)
    ensures HostInv(s.host)
  {
    ReachableInv(s);
  }

  // ---------------------------------------------------------------- Host to WiFi

  /** The frames the radio accepted from session `epoch`, in the order it accepted them. */
  function RadioOf(log: seq<Entry>, radio: seq<TxRequest>, epoch: nat): seq<TxRequest> {
    if radio == [] then []
    else
      var rest, last := RadioOf(log, radio[..|radio| - 1], epoch), radio[|radio| - 1];
      if last.stamp.serial < |log| && log[last.stamp.serial].epoch == epoch then rest + [last] else rest
  }

  /** TX transaction `k` of the log belongs to session `epoch` and is in `keep`. */
  predicate Chosen(log: seq<Entry>, keep: set<nat>, epoch: nat, k: nat) {
    k in keep && IsTx(log, k) && log[k].epoch == epoch
  }

  function RequestOf(log: seq<Entry>, k: nat): TxRequest
    requires IsTx(log, k)
  {
    TxRequest(Stamp(log[k].wire, k), log[k].payload.frame)
  }

  /** The TX requests of session `epoch` in `keep`, among the first `n`, as the host opened them. */
  function TxOf(log: seq<Entry>, keep: set<nat>, epoch: nat, n: nat): seq<TxRequest> {
    if n == 0 then []
    else
      var rest := TxOf(log, keep, epoch, n - 1);
      if Chosen(log, keep, epoch, n - 1) then rest + [RequestOf(log, n - 1)] else rest
  }

  /** The acknowledged TX requests of session `epoch`. */
  function Acknowledged(h: Host, epoch: nat): seq<TxRequest> {
    TxOf(h.log, h.completed, epoch, |h.log|)
  }

  /** Those among them whose identifier differs from their predecessor's. */
  function AcknowledgedFresh(h: Host, epoch: nat): seq<TxRequest> {
    TxOf(h.log, Fresh(h), epoch, |h.log|)
  }

  function Fresh(h: Host): set<nat> {
    set k | k in h.completed && k < |h.log| && !Collides(h.log, k)
  }

  lemma {:induction false} RadioInLogOrder(log: seq<Entry>, radio: seq<TxRequest>, epoch: nat, n: nat)
    requires Increasing(radio) && n <= |log|
    requires forall i :: 0 <= i < |radio| ==> LoggedTx(log, radio[i]) && radio[i].stamp.serial < n
    ensures RadioOf(log, radio, epoch) == TxOf(log, Serials(radio), epoch, n)
    decreases n
  {
    if n > 0 {
      if radio != [] && radio[|radio| - 1].stamp.serial == n - 1 {
        var rest := radio[..|radio| - 1];
        RadioInLogOrder(log, rest, epoch, n - 1);
        TxOfFrame(log, Serials(radio), Serials(rest), epoch, n - 1);
      } else {
        RadioInLogOrder(log, radio, epoch, n - 1);
        NotAmong(radio, n - 1);
      }
    }
  }

  lemma {:induction false} NotAmong(radio: seq<TxRequest>, k: nat)
    requires forall i :: 0 <= i < |radio| ==> radio[i].stamp.serial != k
    ensures k !in Serials(radio)
  {
    if radio != [] {
      NotAmong(radio[..|radio| - 1], k);
    }
  }

  lemma {:induction false} TxOfFrame(log: seq<Entry>, a: set<nat>, b: set<nat>, epoch: nat, n: nat)
    requires forall k :: 0 <= k < n ==> (k in a <==> k in b)
    ensures TxOf(log, a, epoch, n) == TxOf(log, b, epoch, n)
  {
    if n > 0 {
      TxOfFrame(log, a, b, epoch, n - 1);
    }
  }

  /** The one TX of a session that may reach the radio without its acknowledgement. */
  ghost predicate InFlight(h: Host, epoch: nat, tail: seq<TxRequest>) {
    tail == [] ||
    exists k: nat :: IsTx(h.log, k) && h.log[k].epoch == epoch && k !in h.completed
                     && tail == [RequestOf(h.log, k)]
  }

  /** Accepted and acknowledged transactions agree, up to the last one of the session. */
  lemma {:induction false} AcceptedVersusFresh(h: Host, t: TxSide, epoch: nat, n: nat)
    returns (tail: seq<TxRequest>)
    requires HostInv(h) && AckInv(h, t) && RadioInv(h.log, t) && n <= |h.log|
    ensures TxOf(h.log, t.accepted, epoch, n) == TxOf(h.log, Fresh(h), epoch, n) + tail
    ensures InFlight(h, epoch, tail) && |tail| <= 1
    ensures tail != [] ==> forall j :: n <= j < |h.log| ==> h.log[j].epoch != epoch
  {
    if n == 0 {
      tail := [];
    } else {
      tail := AcceptedVersusFresh(h, t, epoch, n - 1);
      var k := n - 1;
      if IsTx(h.log, k) && h.log[k].epoch == epoch {
        if k in h.completed {
          assert Verdict(h.log, t, k);
        } else if k in t.accepted {
          tail := [RequestOf(h.log, k)];
          forall j | n <= j < |h.log| ensures h.log[j].epoch != epoch {
            if h.log[j].epoch == epoch { EarlierCompleted(h, k, j); }
          }
        }
      }
    }
  }

  /**
   * Exactly once, in order, host to WiFi. In every reachable state, over any number of
   * sessions, the radio has accepted from each session exactly its acknowledged frames, in
   * the order the host sent them, followed by at most one frame whose acknowledgement is
   * still outstanding or was lost with the session. The only exception is exact: an
   * acknowledged frame is missing if and only if its identifier is its predecessor's.
   */
  lemma HostToWifi(s: State, epoch: nat) returns (tail: seq<TxRequest>)
    requires Reachable(s)
    ensures RadioOf(s.host.log, s.tx.radio, epoch) == AcknowledgedFresh(s.host, epoch) + tail
    ensures |tail| <= 1 && InFlight(s.host, epoch, tail)
    ensures epoch == |s.host.used| - 1 && tail != [] ==>
              s.host.phase.TxOpen? && tail == [s.host.phase.request]
  {
    ReachableInv(s);
    RadioInLogOrder(s.host.log, s.tx.radio, epoch, |s.host.log|);
    tail := AcceptedVersusFresh(s.host, s.tx, epoch, |s.host.log|);
    if epoch == |s.host.used| - 1 && tail != [] {
      OnlyOpenIsUnacknowledged(s.host, tail);
    }
  }

  lemma OnlyOpenIsUnacknowledged(h: Host, tail: seq<TxRequest>)
    requires HostInv(h) && InFlight(h, |h.used| - 1, tail) && tail != []
    ensures h.phase.TxOpen? && tail == [h.phase.request]
  {
    var k: nat :| IsTx(h.log, k) && h.log[k].epoch == |h.used| - 1 && k !in h.completed
                  && tail == [RequestOf(h.log, k)];
    var n := |h.log| - 1;
    if k < n {
      assert InOrder(h.log, k, n) && WireOf(h.used, h.log[n]);
      EarlierCompleted(h, k, n);
    }
  }

  // ---------------------------------------------------------------- The exception, exactly

  lemma {:induction false} TxOfContains(log: seq<Entry>, keep: set<nat>, epoch: nat, n: nat, k: nat)
    requires k < n && Chosen(log, keep, epoch, k)
    ensures RequestOf(log, k) in TxOf(log, keep, epoch, n)
  {
    if k < n - 1 {
      TxOfContains(log, keep, epoch, n - 1, k);
    }
  }

  lemma {:induction false} RadioOfOnlySerials(log: seq<Entry>, radio: seq<TxRequest>, epoch: nat, r: TxRequest)
    requires r in RadioOf(log, radio, epoch)
    ensures r.stamp.serial in Serials(radio)
  {
    if r != radio[|radio| - 1] {
      RadioOfOnlySerials(log, radio[..|radio| - 1], epoch, r);
    }
  }

  lemma {:induction false} TxOfChosen(log: seq<Entry>, a: set<nat>, b: set<nat>, epoch: nat, n: nat)
    requires forall k: nat :: k < n ==> (Chosen(log, a, epoch, k) <==> Chosen(log, b, epoch, k))
    ensures TxOf(log, a, epoch, n) == TxOf(log, b, epoch, n)
  {
    if n > 0 {
      TxOfChosen(log, a, b, epoch, n - 1);
    }
  }

  /** No acknowledged TX of this session carries its predecessor's identifier. */
  ghost predicate NoCollision(h: Host, epoch: nat) {
    forall k: nat :: Chosen(h.log, h.completed, epoch, k) ==> !Collides(h.log, k)
  }

  lemma FreshIsAcknowledged(h: Host, epoch: nat)
    requires NoCollision(h, epoch)
    ensures AcknowledgedFresh(h, epoch) == Acknowledged(h, epoch)
  {
    forall k: nat | k < |h.log|
      ensures Chosen(h.log, h.completed, epoch, k) <==> Chosen(h.log, Fresh(h), epoch, k)
    {
    }
    TxOfChosen(h.log, h.completed, Fresh(h), epoch, |h.log|);
  }

  /** The radio accepted all acknowledged frames of the session and at most one more. */
  ghost predicate ExactlyOnce(s: State, epoch: nat) {
    exists tail: seq<TxRequest> ::
      && |tail| <= 1 && InFlight(s.host, epoch, tail)
      && RadioOf(s.host.log, s.tx.radio, epoch) == Acknowledged(s.host, epoch) + tail
  }

  /** Exactly-once delivery holds for a session if and only if no identifier collided. */
  lemma ExactlyOnceIffNoCollision(s: State, epoch: nat)
    requires Reachable(s)
    ensures ExactlyOnce(s, epoch) <==> NoCollision(s.host, epoch)
  {
    ReachableInv(s);
    var h := s.host;
    if NoCollision(h, epoch) {
      FreshIsAcknowledged(h, epoch);
      var tail := HostToWifi(s, epoch);
      assert RadioOf(h.log, s.tx.radio, epoch) == Acknowledged(h, epoch) + tail;
    }
    if ExactlyOnce(s, epoch) {
      forall k: nat | Chosen(h.log, h.completed, epoch, k) ensures !Collides(h.log, k) {
        TxOfContains(h.log, h.completed, epoch, |h.log|, k);
        assert RequestOf(h.log, k) in RadioOf(h.log, s.tx.radio, epoch);
        RadioOfOnlySerials(h.log, s.tx.radio, epoch, RequestOf(h.log, k));
      }
    }
  }

  /** The frames of these requests. */
  function FrameList(requests: seq<TxRequest>): seq<Frame> {
    if requests == [] then []
    else FrameList(requests[..|requests| - 1]) + [requests[|requests| - 1].frame]
  }

  lemma FrameListSnoc(requests: seq<TxRequest>, last: TxRequest)
    ensures FrameList(requests + [last]) == FrameList(requests) + [last.frame]
  {
  }

  // ---------------------------------------------------------------- WiFi to host

  /** The arrivals whose poll session `epoch` opened. */
  function ArrivalsOf(log: seq<Entry>, arrivals: seq<Arrival>, epoch: nat): seq<Arrival> {
    if arrivals == [] then []
    else
      var rest, last := ArrivalsOf(log, arrivals[..|arrivals| - 1], epoch), arrivals[|arrivals| - 1];
      if last.serial < |log| && log[last.serial].epoch == epoch then rest + [last] else rest
  }

  /** At most one frame popped for a session was not handed to TAP: that of its last poll. */
  ghost predicate Undelivered(h: Host, epoch: nat, arrivals: seq<Arrival>, tail: seq<Arrival>) {
    tail == [] || (|tail| == 1 && tail[0] in arrivals && OfOpenPoll(h, epoch, tail[0]))
  }

  /** The poll this frame was popped for was not completed. */
  predicate OfOpenPoll(h: Host, epoch: nat, a: Arrival) {
    a.serial < |h.log| && h.log[a.serial].epoch == epoch && a.serial !in h.completed
  }

  lemma ArrivalsOfSnoc(log: seq<Entry>, a: seq<Arrival>, last: Arrival, epoch: nat)
    requires last.serial < |log|
    ensures ArrivalsOf(log, a + [last], epoch)
            == if log[last.serial].epoch == epoch then ArrivalsOf(log, a, epoch) + [last]
               else ArrivalsOf(log, a, epoch)
  {
  }

  lemma {:induction false} PoppedVersusDelivered(h: Host, arrivals: seq<Arrival>, epoch: nat)
    returns (tail: seq<Arrival>)
    requires Numbered(h) && StopAndWait(h)
    requires forall i :: 0 <= i < |arrivals| ==> arrivals[i].serial < |h.log|
    requires forall i, j :: 0 <= i < j < |arrivals| ==> arrivals[i].serial < arrivals[j].serial
    ensures ArrivalsOf(h.log, arrivals, epoch)
            == ArrivalsOf(h.log, OfPolls(arrivals, h.completed), epoch) + tail
    ensures Undelivered(h, epoch, arrivals, tail)
  {
    hide Numbered, StopAndWait;
    if arrivals == [] {
      tail := [];
    } else {
      var n := |arrivals| - 1;
      var rest, last := arrivals[..n], arrivals[n];
      tail := PoppedVersusDelivered(h, rest, epoch);
      var done := OfPolls(rest, h.completed);
      ArrivalsOfSnoc(h.log, done, last, epoch);
      if h.log[last.serial].epoch == epoch {
        if tail != [] {
          EarlierCompleted(h, tail[0].serial, last.serial);
        }
        if last.serial !in h.completed {
          tail := [last];
        }
      }
    }
  }

  /**
   * Exactly once, in order, WiFi to host. In every reachable state, over any number of
   * sessions: the in-size frames taken from the radio are those popped for the host, then
   * those queued, then the one in the hands of the bridge; TAP got exactly the popped
   * frames whose poll completed, in order; and of each session at most one popped frame,
   * that of its last poll, did not get there.
   */
  lemma WifiToHost(s: State, epoch: nat) returns (tail: seq<Arrival>)
    requires Reachable(s)
    ensures s.rx.received == Frames(s.rx.popped) + s.rx.wifiToHost + HeldFrame(s.bridge)
    ensures |s.rx.wifiToHost| <= RX_QUEUE_CAPACITY
    ensures s.host.delivered == OfPolls(s.rx.popped, s.host.completed)
    ensures ArrivalsOf(s.host.log, s.rx.popped, epoch)
            == ArrivalsOf(s.host.log, s.host.delivered, epoch) + tail
    ensures Undelivered(s.host, epoch, s.rx.popped, tail)
  {
    ReachableInv(s);
    tail := PoppedVersusDelivered(s.host, s.rx.popped, epoch);
  }

  /** This step makes the RX server answer, and this is its answer. */
  predicate Answers(s: State, step: Step, answer: RxResponse)
    requires Enabled(s, step)
  {
    Apply(s, step).rx.responses == s.rx.responses + [answer]
  }

  /**
   * A poll that the cache does not answer gets the oldest queued frame, and the queue keeps
   * the rest; it goes empty-handed only if nothing is queued. A poll the cache answers leaves
   * the queue alone and gets what it got before.
   */
  lemma PollTakesTheHead(s: State, step: Step, answer: RxResponse)
    requires Reachable(s) && Enabled(s, step) && Answers(s, step, answer)
    ensures var queue, queue', known := s.rx.wifiToHost, Apply(s, step).rx.wifiToHost,
                                        s.rx.cached.Some? && s.rx.cached.value.stamp == answer.stamp;
            if known then answer == s.rx.cached.value && queue' == queue
            else if queue == [] then answer.frame.None? && queue' == []
            else answer.frame == Some(queue[0]) && queue' == queue[1..]
  {
    hide Reachable, HostInv, RxLink, CacheInv, ResponseInv, AnsweredInv, PoppedInv, DeliveredInv, Conserved, TxInv,
         Serials;
    ReachableInv(s);
    FreshOrCached(s.rx, s.host.log);
    OnlyTheServerAnswers(s, step, answer);
    if step.ServeRx? {
      ServedAnswer(s.rx, step.i, answer);
    } else {
      LastOf(s.rx.responses, AnswerRx(s.rx, s.rx.phase.poll).cached.value, answer);
    }
  }

  lemma LastOf(responses: seq<RxResponse>, a: RxResponse, b: RxResponse)
    requires responses + [a] == responses + [b]
    ensures a == b
  {
    assert (responses + [a])[|responses|] == a && (responses + [b])[|responses|] == b;
  }

  lemma OnlyTheServerAnswers(s: State, step: Step, answer: RxResponse)
    requires Enabled(s, step) && Answers(s, step, answer)
    ensures step.ServeRx? || step.PopRx? || step.TimeoutRx?
  {
    assert |Apply(s, step).rx.responses| == |s.rx.responses| + 1;
  }

  lemma ServedAnswer(r: RxSide, i: nat, answer: RxResponse)
    requires i < |r.requests| && ServeRxSide(r, i).responses == r.responses + [answer]
    ensures var queue, queue', known := r.wifiToHost, ServeRxSide(r, i).wifiToHost,
                                        r.cached.Some? && r.cached.value.stamp == answer.stamp;
            if known then answer == r.cached.value && queue' == queue
            else if queue == [] then answer.frame.None? && queue' == []
            else answer.frame == Some(queue[0]) && queue' == queue[1..]
  {
    var poll, r' := r.requests[i], ServeRxSide(r, i);
    assert |r'.responses| == |r.responses| + 1;
    if r.cached.Some? && r.cached.value.stamp.transaction == poll.transaction {
      LastOf(r.responses, r.cached.value, answer);
    } else if r.wifiToHost != [] {
      LastOf(r.responses, r'.cached.value, answer);
    }
  }

  lemma FreshOrCached(r: RxSide, log: seq<Entry>)
    requires CacheInv(log, r)
    ensures r.phase.Polling? && r.cached.Some? ==> r.cached.value.stamp != r.phase.poll
  {
  }

  /** The frame in the response cache, while the host has not accepted that response. */
  function CachedUnaccepted(h: Host, r: RxSide): seq<Frame> {
    match r.cached
    case Some(RxResponse(stamp, Some(frame))) => if stamp.serial in h.completed then [] else [frame]
    case _ => []
  }

  lemma {:induction false} AllPolls(arrivals: seq<Arrival>, done: set<nat>)
    requires forall i :: 0 <= i < |arrivals| ==> arrivals[i].serial in done
    ensures OfPolls(arrivals, done) == arrivals
  {
    if arrivals != [] {
      AllPolls(arrivals[..|arrivals| - 1], done);
    }
  }

  /** In a single session every popped frame but the cached one was delivered. */
  lemma OneSessionPopped(h: Host, r: RxSide)
    requires Numbered(h) && StopAndWait(h) && CacheInv(h.log, r) && PoppedInv(h.log, r) && |h.used| == 1
    requires r.popped != []
    ensures var n := |r.popped| - 1;
            && (forall i :: 0 <= i < n ==> r.popped[i].serial in h.completed)
            && r.cached.Some?
            && (r.popped[n].serial in h.completed || r.popped[n].serial == r.cached.value.stamp.serial)
  {
    var n := |r.popped| - 1;
    var last, c := r.popped[n].serial, r.cached.value.stamp.serial;
    assert WireOf(h.used, h.log[last]) && WireOf(h.used, h.log[c]);
    forall i | 0 <= i < n ensures r.popped[i].serial in h.completed {
      assert WireOf(h.used, h.log[r.popped[i].serial]);
      EarlierCompleted(h, r.popped[i].serial, last);
    }
    if last < c {
      EarlierCompleted(h, last, c);
    }
  }

  lemma CachedVersusLast(h: Host, r: RxSide)
    requires PoppedInv(h.log, r) && r.popped != [] && r.cached.Some?
    requires var last := r.popped[|r.popped| - 1].serial;
             last in h.completed || last == r.cached.value.stamp.serial
    ensures var last := r.popped[|r.popped| - 1];
            CachedUnaccepted(h, r) == if last.serial in h.completed then [] else [last.frame]
  {
  }

  lemma NothingCached(h: Host, r: RxSide)
    requires PoppedInv(h.log, r) && r.popped == []
    ensures CachedUnaccepted(h, r) == []
  {
  }

  lemma PoppedIsDeliveredOrCached(h: Host, r: RxSide)
    requires Numbered(h) && StopAndWait(h) && CacheInv(h.log, r) && PoppedInv(h.log, r) && |h.used| == 1
    ensures Frames(r.popped) == Frames(OfPolls(r.popped, h.completed)) + CachedUnaccepted(h, r)
  {
    hide Numbered, StopAndWait, CacheInv, PoppedInv, CachedUnaccepted;
    if r.popped == [] {
      NothingCached(h, r);
    } else {
      OneSessionPopped(h, r);
      CachedVersusLast(h, r);
      var n := |r.popped| - 1;
      var rest, last := r.popped[..n], r.popped[n];
      AllPolls(rest, h.completed);
      if last.serial in h.completed {
        assert OfPolls(r.popped, h.completed) == rest + [last] == r.popped;
        assert Frames(r.popped) + [] == Frames(r.popped);
      } else {
        assert OfPolls(r.popped, h.completed) == rest;
      }
    }
  }

  /**
   * Within one session nothing is lost: what came from the radio is what TAP got, then the
   * cached frame the host has not accepted yet, then the queue, then the held frame.
   */
  lemma OneSessionWifiToHost(s: State)
    requires Reachable(s) && |s.host.used| == 1
    ensures s.rx.received == Frames(s.host.delivered) + CachedUnaccepted(s.host, s.rx)
                             + s.rx.wifiToHost + HeldFrame(s.bridge)
  {
    ReachableInv(s);
    PoppedIsDeliveredOrCached(s.host, s.rx);
  }

  // ---------------------------------------------------------------- Completion tokens

  /**
   * Host frames queued, host frames in the hands of the bridge and completion tokens add
   * up to one while the TX server waits, and to none otherwise. So neither one-slot
   * channel ever makes its sender wait, and the token the server takes is for its request.
   */
  lemma CompletionTokens(s: State)
    requires Reachable(s)
    ensures Outstanding(s.tx, s.bridge) == (if s.tx.phase.Awaiting? then 1 else 0)
    ensures s.tx.phase.Offering? ==> Enabled(s, Offer)
    ensures s.bridge.Signalling? ==> Enabled(s, Signal)
    ensures s.tx.phase.Awaiting? && s.tx.tokens != [] ==>
              && s.tx.tokens == [s.tx.phase.request.stamp.serial]
              && s.tx.radio != [] && s.tx.radio[|s.tx.radio| - 1] == s.tx.phase.request
  {
    ReachableInv(s);
  }

  // ---------------------------------------------------------------- Alternation

  /**
   * At most one transaction of a session is open, its last; and one of the current session is
   * open exactly while the host retries it.
   */
  lemma OneOpenTransaction(s: State, i: nat)
    requires Reachable(s) && i < |s.host.log| && i !in s.host.completed
    ensures forall j :: i < j < |s.host.log| ==> s.host.log[j].epoch != s.host.log[i].epoch
    ensures s.host.log[i].epoch == |s.host.used| - 1 ==>
              i == |s.host.log| - 1 && (s.host.phase.TxOpen? || s.host.phase.RxOpen?)
  {
    ReachableHost(s);
    var h := s.host;
    forall j | i < j < |h.log| ensures h.log[j].epoch != h.log[i].epoch {
      if h.log[j].epoch == h.log[i].epoch { EarlierCompleted(h, i, j); }
    }
    var n := |h.log| - 1;
    assert WireOf(h.used, h.log[n]);
    if i < n { assert InOrder(h.log, i, n); }
  }

  /** Between any two TX transactions of a session an RX poll was opened and completed. */
  lemma Alternation(s: State, i: nat, j: nat) returns (poll: nat)
    requires Reachable(s) && i < j < |s.host.log|
    requires IsTx(s.host.log, i) && IsTx(s.host.log, j) && SameSession(s.host.log, i, j)
    ensures i < poll < j && IsRx(s.host.log, poll) && SameSession(s.host.log, poll, i)
    ensures i in s.host.completed && poll in s.host.completed
  {
    ReachableHost(s);
    var h := s.host;
    assert InOrder(h.log, i, i + 1);
    if i + 1 < j { assert InOrder(h.log, i + 1, j); }
    assert HasLater(h.log, i);
    poll := i + 1;
    EarlierCompleted(h, i, j);
    EarlierCompleted(h, poll, j);
  }
}
