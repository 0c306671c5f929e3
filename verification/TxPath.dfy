/**
 * What every run keeps about the host-to-WiFi direction: the completion-token invariant,
 * the one-slot memory of the TX server, and which transactions reached the radio.
 */
module TxPath {
  import opened Wire
  import opened Protocol
  import opened HostLog

  ghost predicate Increasing(radio: seq<TxRequest>) {
    forall i, j :: 0 <= i < j < |radio| ==> radio[i].stamp.serial < radio[j].stamp.serial
  }

  function BridgeRequest(b: Bridge): Option<TxRequest> {
    match b
    case Transmitting(request) => Some(request)
    case Committed(request, _) => Some(request)
    case Signalling(request, _) => Some(request)
    case _ => None
  }

  // ---------------------------------------------------------------- Completion tokens

  /** Host frames in the channel, host frames in the hands of the bridge, and tokens. */
  function Outstanding(t: TxSide, b: Bridge): nat {
    |t.hostToWifi| + (if BridgeRequest(b).Some? then 1 else 0) + |t.tokens|
  }

  /** Everything outstanding belongs to the one request the server is waiting for. */
  ghost predicate TokenInv(t: TxSide, b: Bridge) {
    && Outstanding(t, b) == (if t.phase.Awaiting? then 1 else 0)
    && (forall i :: 0 <= i < |t.hostToWifi| ==> t.phase == Awaiting(t.hostToWifi[i]))
    && (BridgeRequest(b).Some? ==> t.phase == Awaiting(BridgeRequest(b).value))
    && (forall i :: 0 <= i < |t.tokens| && t.phase.Awaiting? ==>
          t.tokens[i] == t.phase.request.stamp.serial)
  }

  lemma TokenStep(s: State, step: Step)
    requires TokenInv(s.tx, s.bridge) && Enabled(s, step)
    ensures TokenInv(Apply(s, step).tx, Apply(s, step).bridge)
  {
  }

  // ---------------------------------------------------------------- Link

  ghost predicate TxStamped(log: seq<Entry>, stamp: Stamp) {
    Logged(log, stamp) && IsTx(log, stamp.serial)
  }

  /** Requests and responses are genuine and keep the order in which they were opened. */
  ghost predicate TxLink(log: seq<Entry>, t: TxSide) {
    && (forall i :: 0 <= i < |t.served| ==> TxStamped(log, t.served[i]))
    && (forall i, j :: 0 <= i < j < |t.served| ==> t.served[i].serial <= t.served[j].serial)
    && (forall i :: 0 <= i < |t.requests| ==>
          LoggedTx(log, t.requests[i]) && Newest(t.served) <= t.requests[i].stamp.serial)
    && (forall i, j :: 0 <= i < j < |t.requests| ==>
          t.requests[i].stamp.serial <= t.requests[j].stamp.serial)
    && (forall i :: 0 <= i < |t.responses| ==>
          TxStamped(log, t.responses[i]) && t.responses[i].serial <= Newest(t.served))
    && (forall i, j :: 0 <= i < j < |t.responses| ==>
          t.responses[i].serial <= t.responses[j].serial)
    && (!t.phase.Listening? ==>
          && LoggedTx(log, t.phase.request)
          && t.served != [] && t.served[|t.served| - 1] == t.phase.request.stamp)
  }

  lemma TxLinkGrow(log: seq<Entry>, log': seq<Entry>, t: TxSide)
    requires TxLink(log, t) && log <= log'
    ensures TxLink(log', t)
  {
  }

  lemma TxLinkSend(log: seq<Entry>, t: TxSide, request: TxRequest)
    requires TxLink(log, t) && LoggedTx(log, request) && request.stamp.serial == |log| - 1
    ensures TxLink(log, t.(requests := t.requests + [request]))
  {
  }

  lemma TxLinkHear(log: seq<Entry>, t: TxSide, d: nat)
    requires TxLink(log, t) && d <= |t.responses|
    ensures TxLink(log, t.(responses := t.responses[d..]))
  {
  }

  lemma TxLinkServe(log: seq<Entry>, t: TxSide, i: nat)
    requires TxLink(log, t) && t.phase.Listening? && i < |t.requests|
    ensures TxLink(log, ServeTxSide(t, i))
  {
  }

  lemma TxLinkReply(log: seq<Entry>, t: TxSide)
    requires TxLink(log, t) && t.phase.Replying?
    ensures TxLink(log, t.(responses := t.responses + [t.phase.request.stamp], phase := Listening))
  {
  }

  lemma TxLinkFrame(log: seq<Entry>, t: TxSide, t': TxSide)
    requires TxLink(log, t)
    requires t'.requests == t.requests && t'.responses == t.responses && t'.served == t.served
    requires t'.phase.Listening? || (!t.phase.Listening? && t'.phase.request == t.phase.request)
    ensures TxLink(log, t')
  {
  }

  /** The steps that move messages of the TX endpoint or open a transaction. */
  predicate MovesTxLink(step: Step) {
    step.OpenTx? || step.OpenRx? || step.SendTx? || step.HearTx? || step.ServeTx? || step.ReplyTx?
  }

  lemma OtherStepsKeepTxLink(s: State, step: Step)
    requires Enabled(s, step) && !MovesTxLink(step)
    ensures Apply(s, step).host.log == s.host.log
    ensures var t, t' := s.tx, Apply(s, step).tx;
            && t'.requests == t.requests && t'.responses == t.responses && t'.served == t.served
            && (t'.phase.Listening? || (!t.phase.Listening? && t'.phase.request == t.phase.request))
  {
  }

  lemma TxLinkStep(s: State, step: Step)
    requires TxLink(s.host.log, s.tx) && Enabled(s, step)
    requires s.host.phase.TxOpen? ==>
               && LoggedTx(s.host.log, s.host.phase.request)
               && s.host.phase.request.stamp.serial == |s.host.log| - 1
    ensures TxLink(Apply(s, step).host.log, Apply(s, step).tx)
  {
    hide TxLink;
    var s' := Apply(s, step);
    if !MovesTxLink(step) {
      OtherStepsKeepTxLink(s, step);
      TxLinkFrame(s.host.log, s.tx, s'.tx);
      return;
    }
    match step {
      case OpenTx(_) => TxLinkGrow(s.host.log, s'.host.log, s.tx);
      case OpenRx => TxLinkGrow(s.host.log, s'.host.log, s.tx);
      case SendTx => TxLinkSend(s.host.log, s.tx, s.host.phase.request);
      case ServeTx(i) => TxLinkServe(s.host.log, s.tx, i);
      case ReplyTx => TxLinkReply(s.host.log, s.tx);
      case HearTx(i, keep) => TxLinkHear(s.host.log, s.tx, if keep then i else i + 1);
    }
  }

  // ---------------------------------------------------------------- Server memory

  /** The radio has the frame, the server does not know yet. */
  predicate Accepted(t: TxSide, b: Bridge) {
    t.phase.Awaiting? && (t.tokens != [] || b.Signalling?)
  }

  ghost predicate RadioInv(log: seq<Entry>, t: TxSide) {
    && Increasing(t.radio)
    && (forall i :: 0 <= i < |t.radio| ==>
          && LoggedTx(log, t.radio[i])
          && t.radio[i].stamp.serial in t.accepted
          && t.radio[i].stamp.serial <= Newest(t.served))
    && (forall k :: k in t.accepted ==> k < |log| && !Collides(log, k))
  }

  /** `lastCompleted` is the newest accepted frame, not counting one still to be signalled. */
  ghost predicate MemoryInv(t: TxSide, b: Bridge) {
    var n := |t.radio|;
    if Accepted(t, b) then
      && n > 0 && t.radio[n - 1] == t.phase.request
      && t.lastCompleted == (if n == 1 then None else Some(t.radio[n - 2].stamp))
    else
      t.lastCompleted == (if n == 0 then None else Some(t.radio[n - 1].stamp))
  }

  /** The server has completed transaction `k`, a later one, or one it cannot tell from `k`. */
  ghost predicate Settled(log: seq<Entry>, last: Option<Stamp>, k: nat)
    requires k < |log|
  {
    last.Some? && (last.value.transaction == log[k].wire || last.value.serial > k)
  }

  /** Transaction `k` is settled, and its frame was accepted unless its identifier collides. */
  ghost predicate Verdict(log: seq<Entry>, t: TxSide, k: nat) {
    && k < |log|
    && Settled(log, t.lastCompleted, k)
    && (k in t.accepted <==> !Collides(log, k))
  }

  ghost predicate ServerInv(log: seq<Entry>, t: TxSide, b: Bridge) {
    match t.phase
    case Listening => true
    case Replying(request) =>
      Duplicate(t.lastCompleted, request.stamp) && Verdict(log, t, request.stamp.serial)
    case _ =>
      var request := t.phase.request;
      && Logged(log, request.stamp)
      && !Duplicate(t.lastCompleted, request.stamp)
      && !Collides(log, request.stamp.serial)
      && (!Accepted(t, b) ==>
            forall i :: 0 <= i < |t.radio| ==> t.radio[i].stamp.serial < request.stamp.serial)
  }

  /** Every acknowledgement, on its way or accepted by the host, states the verdict. */
  ghost predicate AckInv(h: Host, t: TxSide) {
    && (forall k :: k in h.completed && IsTx(h.log, k) ==> Verdict(h.log, t, k))
    && (forall i :: 0 <= i < |t.responses| ==> Verdict(h.log, t, t.responses[i].serial))
  }

  /** The TX the current session completed last. */
  function PreviousTx(h: Host): Option<nat> {
    if h.phase.TxOpen? && |h.log| > 0 then h.log[|h.log| - 1].prev else h.lastTx
  }

  /** A response of this session answers the open TX or carries its predecessor's identifier. */
  ghost predicate Echo(h: Host, r: Stamp) {
    && r.serial < |h.log|
    && (h.log[r.serial].epoch == |h.used| - 1 ==>
          || (h.phase.TxOpen? && r.serial == |h.log| - 1)
          || (&& PreviousTx(h).Some? && PreviousTx(h).value < |h.log|
              && r.transaction == h.log[PreviousTx(h).value].wire))
  }

  ghost predicate EchoInv(h: Host, t: TxSide) {
    forall i :: 0 <= i < |t.responses| ==> Echo(h, t.responses[i])
  }

  ghost predicate TxInv(s: State) {
    && HostInv(s.host)
    && TokenInv(s.tx, s.bridge)
    && TxLink(s.host.log, s.tx)
    && RadioInv(s.host.log, s.tx)
    && MemoryInv(s.tx, s.bridge)
    && ServerInv(s.host.log, s.tx, s.bridge)
    && AckInv(s.host, s.tx)
    && EchoInv(s.host, s.tx)
  }

  // ---------------------------------------------------------------- Server decision

  /** What is known of the remembered transaction. */
  lemma LastCompletedInRadio(log: seq<Entry>, t: TxSide, b: Bridge)
    requires RadioInv(log, t) && MemoryInv(t, b) && t.lastCompleted.Some?
    ensures TxStamped(log, t.lastCompleted.value)
    ensures t.lastCompleted.value.serial <= Newest(t.served)
    ensures t.lastCompleted.value.serial in t.accepted
    ensures !Collides(log, t.lastCompleted.value.serial)
  {
  }

  /**
   * The one-slot comparison takes the right decision: a request that looks like the
   * remembered one was transmitted or collides; any other was not transmitted and does not.
   */
  lemma ServeDecision(h: Host, t: TxSide, b: Bridge, request: TxRequest)
    requires HostInv(h) && TxLink(h.log, t) && RadioInv(h.log, t) && MemoryInv(t, b) && AckInv(h, t)
    requires !Accepted(t, b)
    requires LoggedTx(h.log, request) && Newest(t.served) <= request.stamp.serial
    ensures Duplicate(t.lastCompleted, request.stamp) ==> Verdict(h.log, t, request.stamp.serial)
    ensures !Duplicate(t.lastCompleted, request.stamp) ==>
              && !Collides(h.log, request.stamp.serial)
              && forall i :: 0 <= i < |t.radio| ==> t.radio[i].stamp.serial < request.stamp.serial
  {
    var q := request.stamp.serial;
    CollidesIffSameWire(h, q);
    if t.lastCompleted.Some? {
      LastCompletedInRadio(h.log, t, b);
      var last := t.lastCompleted.value;
      if last.serial < q {
        FreshDecision(h, t, last.serial, q);
      }
    } else {
      FirstTx(h, t, q);
    }
  }

  /** As long as the server remembers nothing, no TX has a predecessor. */
  lemma FirstTx(h: Host, t: TxSide, q: nat)
    requires HostInv(h) && AckInv(h, t) && t.lastCompleted.None? && IsTx(h.log, q)
    ensures h.log[q].prev.None?
  {
    assert PrecedingTx(h.log, h.log[q].prev, h.log[q].epoch, q);
    if h.log[q].prev.Some? {
      EarlierCompleted(h, h.log[q].prev.value, q);
    }
  }

  /** For a request newer than the remembered one, looking alike is colliding. */
  lemma FreshDecision(h: Host, t: TxSide, last: nat, q: nat)
    requires HostInv(h) && AckInv(h, t)
    requires IsTx(h.log, last) && IsTx(h.log, q) && last < q
    requires t.lastCompleted == Some(Stamp(h.log[last].wire, last))
    ensures h.log[last].wire == h.log[q].wire <==> Collides(h.log, q)
  {
    CollidesIffSameWire(h, q);
    assert PrecedingTx(h.log, h.log[q].prev, h.log[q].epoch, q);
    match h.log[q].prev {
      case None => SameWire(h, last, q);
      case Some(p) =>
        EarlierCompleted(h, p, q);
        assert Verdict(h.log, t, p);
    }
  }

  // ---------------------------------------------------------------- Preservation

  lemma MemoryStep(s: State, step: Step)
    requires TokenInv(s.tx, s.bridge) && MemoryInv(s.tx, s.bridge) && Enabled(s, step)
    ensures MemoryInv(Apply(s, step).tx, Apply(s, step).bridge)
  {
    var t, t' := s.tx, Apply(s, step).tx;
    if !step.RadioTx? && !step.TakeToken? {
      assert t'.radio == t.radio && t'.lastCompleted == t.lastCompleted;
      assert Accepted(t', Apply(s, step).bridge) == Accepted(t, s.bridge);
    }
  }

  /** Opening a transaction changes nothing the device knows. */
  lemma OpenKeepsTx(h: Host, h': Host, t: TxSide, b: Bridge, payload: Payload)
    requires HostInv(h) && Opened(h, h', payload) && !h.phase.TxOpen? && !h.phase.RxOpen?
    requires h'.phase.TxOpen? <==> payload.Tx?
    requires RadioInv(h.log, t) && ServerInv(h.log, t, b) && AckInv(h, t) && EchoInv(h, t)
    ensures RadioInv(h'.log, t) && ServerInv(h'.log, t, b) && AckInv(h', t) && EchoInv(h', t)
  {
  }

  /** No message of an earlier session looks like one of the new session. */
  lemma RestartKeepsTx(h: Host, t: TxSide, session: SessionId)
    requires HostInv(h) && session !in h.used && TxLink(h.log, t) && AckInv(h, t)
    ensures AckInv(RestartHost(h, session), t) && EchoInv(RestartHost(h, session), t)
  {
    RestartNumbered(h, session);
    forall i | 0 <= i < |t.responses| ensures Echo(RestartHost(h, session), t.responses[i]) {
      assert TxStamped(h.log, t.responses[i]);
    }
  }

  lemma AckFrame(h: Host, t: TxSide, t': TxSide)
    requires AckInv(h, t)
    requires t'.responses == t.responses && t'.lastCompleted == t.lastCompleted && t'.accepted == t.accepted
    ensures AckInv(h, t')
  {
  }

  lemma ServeKeepsServer(log: seq<Entry>, t: TxSide, b: Bridge, i: nat)
    requires i < |t.requests| && LoggedTx(log, t.requests[i])
    requires RadioInv(log, t) && Newest(t.served) <= t.requests[i].stamp.serial
    requires var stamp := t.requests[i].stamp;
             if Duplicate(t.lastCompleted, stamp) then
               Verdict(log, t, stamp.serial)
             else
               && !Collides(log, stamp.serial)
               && forall i :: 0 <= i < |t.radio| ==> t.radio[i].stamp.serial < stamp.serial
    ensures RadioInv(log, ServeTxSide(t, i)) && ServerInv(log, ServeTxSide(t, i), b)
  {
  }

  lemma ServeKeepsTx(s: State, i: nat)
    requires TxInv(s) && Enabled(s, ServeTx(i))
    ensures var s' := Apply(s, ServeTx(i));
            && RadioInv(s'.host.log, s'.tx) && ServerInv(s'.host.log, s'.tx, s'.bridge)
            && AckInv(s'.host, s'.tx)
  {
    ServeDecision(s.host, s.tx, s.bridge, s.tx.requests[i]);
    ServeKeepsServer(s.host.log, s.tx, s.bridge, i);
    AckFrame(s.host, s.tx, ServeTxSide(s.tx, i));
  }

  /** A transaction between two of one session is of that session, and has completed. */
  lemma BetweenCompleted(h: Host, i: nat, m: nat, k: nat)
    requires Numbered(h) && StopAndWait(h) && i < m < k < |h.log| && SameSession(h.log, i, k)
    ensures m in h.completed
  {
    assert InOrder(h.log, i, m) && InOrder(h.log, m, k);
    hide Numbered, StopAndWait;
    EarlierCompleted(h, m, k);
  }

  /** Once settled, a transaction stays settled when the server completes a newer one. */
  lemma SettledStays(h: Host, t: TxSide, m: Stamp, k: nat)
    requires HostInv(h) && AckInv(h, t) && TxStamped(h.log, m) && IsTx(h.log, k)
    requires t.lastCompleted.Some? && TxStamped(h.log, t.lastCompleted.value)
    requires t.lastCompleted.value.serial <= m.serial && !Duplicate(t.lastCompleted, m)
    requires Settled(h.log, t.lastCompleted, k)
    ensures Settled(h.log, Some(m), k)
  {
    hide Numbered, StopAndWait, Alternating, Linked;
    var last := t.lastCompleted.value.serial;
    if k > m.serial {
      SameWire(h, last, k);
      assert last < m.serial;
      BetweenCompleted(h, last, m.serial, k);
    }
  }

  lemma TakeTokenKeepsAcks(h: Host, t: TxSide, b: Bridge)
    requires HostInv(h) && TxLink(h.log, t) && RadioInv(h.log, t) && MemoryInv(t, b) && AckInv(h, t)
    requires ServerInv(h.log, t, b) && t.phase.Awaiting? && |t.tokens| > 0
    ensures AckInv(h, TakeTokenSide(t))
  {
    var t' := TakeTokenSide(t);
    forall k | Verdict(h.log, t, k) && IsTx(h.log, k) ensures Verdict(h.log, t', k) {
      LastCompletedInRadio(h.log, t, b);
      SettledStays(h, t, t.phase.request.stamp, k);
    }
    forall i | 0 <= i < |t.responses| ensures Verdict(h.log, t', t.responses[i].serial) {
      assert TxStamped(h.log, t.responses[i]);
    }
  }

  lemma TakeTokenKeepsServer(log: seq<Entry>, t: TxSide, b: Bridge)
    requires RadioInv(log, t) && MemoryInv(t, b) && ServerInv(log, t, b)
    requires TxLink(log, t) && t.phase.Awaiting? && |t.tokens| > 0
    ensures RadioInv(log, TakeTokenSide(t)) && ServerInv(log, TakeTokenSide(t), b)
  {
  }

  lemma RadioTxKeepsAcks(h: Host, t: TxSide, b: Bridge)
    requires TokenInv(t, b) && TxLink(h.log, t) && ServerInv(h.log, t, b) && AckInv(h, t)
    requires b.Transmitting? || b.Committed?
    ensures AckInv(h, AcceptSide(t, b.request))
  {
  }

  lemma RadioTxKeepsServer(log: seq<Entry>, t: TxSide, b: Bridge, b': Bridge)
    requires TokenInv(t, b) && TxLink(log, t) && RadioInv(log, t) && ServerInv(log, t, b)
    requires (b.Transmitting? || b.Committed?) && b'.Signalling?
    ensures RadioInv(log, AcceptSide(t, b.request)) && ServerInv(log, AcceptSide(t, b.request), b')
  {
  }

  lemma EchoFrame(h: Host, t: TxSide, t': TxSide)
    requires EchoInv(h, t) && t'.responses == t.responses
    ensures EchoInv(h, t')
  {
  }

  lemma IdleServer(log: seq<Entry>, t: TxSide, t': TxSide, b: Bridge)
    requires RadioInv(log, t) && t'.phase.Listening?
    requires t'.radio == t.radio && t'.accepted == t.accepted && t'.served == t.served
    ensures RadioInv(log, t') && ServerInv(log, t', b)
  {
  }

  // ---------------------------------------------------------------- Acknowledgements

  /** A response for an older TX that matches the open one reveals a collision. */
  lemma StaleMatchCollides(h: Host, r: Stamp)
    requires HostInv(h) && h.phase.TxOpen? && TxStamped(h.log, r) && Echo(h, r)
    requires r.transaction == h.phase.request.stamp.transaction && r.serial != |h.log| - 1
    ensures var c := |h.log| - 1;
            && Collides(h.log, c) && h.log[c].prev.Some?
            && IsTx(h.log, h.log[c].prev.value) && h.log[c].prev.value in h.completed
            && h.log[h.log[c].prev.value].wire == h.log[c].wire
            && (forall x :: h.log[c].prev.value < x < c ==> h.log[x].payload.Rx?)
  {
    var c := |h.log| - 1;
    SameWire(h, r.serial, c);
    CollidesIffSameWire(h, c);
    assert PrecedingTx(h.log, h.log[c].prev, h.log[c].epoch, c);
    EarlierCompleted(h, h.log[c].prev.value, c);
  }

  /** What settles the predecessor of a colliding TX settles the TX as well. */
  lemma CollidingVerdict(log: seq<Entry>, t: TxSide, b: Bridge, p: nat, c: nat)
    requires RadioInv(log, t) && MemoryInv(t, b)
    requires c == |log| - 1 && IsTx(log, p) && p < c && Verdict(log, t, p)
    requires log[p].wire == log[c].wire && Collides(log, c)
    requires forall x :: p < x < c ==> log[x].payload.Rx?
    ensures Verdict(log, t, c)
  {
  }

  /** The response the host accepts tells the truth about the open TX. */
  lemma AcceptedAck(h: Host, t: TxSide, b: Bridge, r: Stamp)
    requires HostInv(h) && h.phase.TxOpen? && AckInv(h, t) && RadioInv(h.log, t) && MemoryInv(t, b)
    requires TxStamped(h.log, r) && Verdict(h.log, t, r.serial) && Echo(h, r)
    requires r.transaction == h.phase.request.stamp.transaction
    ensures Verdict(h.log, t, |h.log| - 1)
  {
    hide RadioInv, MemoryInv;
    if r.serial != |h.log| - 1 {
      StaleMatchCollides(h, r);
      CollidingVerdict(h.log, t, b, h.log[|h.log| - 1].prev.value, |h.log| - 1);
    }
  }

  /** What the host knows when it looks at response `r` while a TX is open. */
  ghost predicate Hearing(h: Host, r: Stamp) {
    && |h.used| > 0 && |h.log| > 0 && h.phase.TxOpen? && h.lastTx == Some(|h.log| - 1)
    && Logged(h.log, h.phase.request.stamp) && h.phase.request.stamp.serial == |h.log| - 1
    && (r.transaction == h.phase.request.stamp.transaction && r.serial != |h.log| - 1 ==>
          && PreviousTx(h).Some? && PreviousTx(h).value < |h.log|
          && h.log[PreviousTx(h).value].wire == h.phase.request.stamp.transaction)
  }

  lemma HearingHolds(h: Host, r: Stamp)
    requires HostInv(h) && h.phase.TxOpen? && TxStamped(h.log, r) && Echo(h, r)
    ensures Hearing(h, r)
  {
    if r.transaction == h.phase.request.stamp.transaction && r.serial != |h.log| - 1 {
      StaleMatchCollides(h, r);
    }
  }

  /** A response left over once the open TX completed carries its identifier. */
  lemma EchoAfterHearing(h: Host, r: Stamp, x: Stamp)
    requires Hearing(h, r) && Logged(h.log, x) && r.serial <= x.serial && Echo(h, x)
    ensures Echo(HearTxHost(h, r), x)
  {
  }

  lemma HearKeepsEcho(h: Host, t: TxSide, i: nat, d: nat)
    requires HostInv(h) && TxLink(h.log, t) && EchoInv(h, t) && h.phase.TxOpen?
    requires i < |t.responses| && i <= d <= |t.responses|
    ensures EchoInv(HearTxHost(h, t.responses[i]), t.(responses := t.responses[d..]))
  {
    hide HostInv, Hearing;
    var r := t.responses[i];
    assert Echo(h, r) && TxStamped(h.log, r);
    HearingHolds(h, r);
    forall j | d <= j < |t.responses| ensures Echo(HearTxHost(h, r), t.responses[j]) {
      assert Echo(h, t.responses[j]) && TxStamped(h.log, t.responses[j]);
      EchoAfterHearing(h, r, t.responses[j]);
    }
  }

  lemma HearKeepsServer(log: seq<Entry>, t: TxSide, b: Bridge, d: nat)
    requires RadioInv(log, t) && ServerInv(log, t, b) && d <= |t.responses|
    ensures var t' := t.(responses := t.responses[d..]); RadioInv(log, t') && ServerInv(log, t', b)
  {
  }

  lemma HearKeepsAcks(h: Host, t: TxSide, b: Bridge, i: nat, d: nat)
    requires HostInv(h) && TxLink(h.log, t) && RadioInv(h.log, t) && MemoryInv(t, b)
    requires AckInv(h, t) && EchoInv(h, t) && h.phase.TxOpen?
    requires i < |t.responses| && d <= |t.responses|
    ensures AckInv(HearTxHost(h, t.responses[i]), t.(responses := t.responses[d..]))
  {
    hide HostInv, TxLink, RadioInv, MemoryInv, EchoInv, Echo, AckInv, Verdict;
    var r := t.responses[i];
    ResponseFacts(h, t, i);
    var h' := HearTxHost(h, r);
    OpenRequestLogged(h);
    if h'.completed != h.completed {
      AcceptedAck(h, t, b, r);
    }
    CompletedAck(h, h', t);
    AckPrune(h', t, d);
  }

  lemma ResponseFacts(h: Host, t: TxSide, i: nat)
    requires TxLink(h.log, t) && AckInv(h, t) && EchoInv(h, t) && i < |t.responses|
    ensures TxStamped(h.log, t.responses[i]) && Verdict(h.log, t, t.responses[i].serial) && Echo(h, t.responses[i])
  {
  }

  /** The host completes its open TX, whose verdict is known. */
  lemma CompletedAck(h: Host, h': Host, t: TxSide)
    requires AckInv(h, t) && h'.log == h.log && |h.log| > 0
    requires h'.completed == h.completed
             || (h'.completed == h.completed + {|h.log| - 1} && Verdict(h.log, t, |h.log| - 1))
    ensures AckInv(h', t)
  {
  }

  lemma AckPrune(h: Host, t: TxSide, d: nat)
    requires AckInv(h, t) && d <= |t.responses|
    ensures AckInv(h, t.(responses := t.responses[d..]))
  {
  }

  /** A fresh response answers the open TX or repeats the answer to its predecessor. */
  lemma ReplyEcho(h: Host, t: TxSide, b: Bridge)
    requires HostInv(h) && TxLink(h.log, t) && RadioInv(h.log, t) && MemoryInv(t, b) && AckInv(h, t)
    requires t.phase.Replying? && Duplicate(t.lastCompleted, t.phase.request.stamp)
    ensures Echo(h, t.phase.request.stamp)
  {
    var q := t.phase.request.stamp;
    assert LoggedTx(h.log, t.phase.request) && Newest(t.served) <= q.serial;
    hide HostInv, TxLink, RadioInv, MemoryInv;
    LastCompletedInRadio(h.log, t, b);
    if h.log[q.serial].epoch == |h.used| - 1 && !(h.phase.TxOpen? && q.serial == |h.log| - 1) {
      LatestTx(h, q.serial);
      var p := PreviousTx(h).value;
      assert Verdict(h.log, t, p);
      assert t.lastCompleted.value.serial <= q.serial <= p;
    }
  }

  /** Any TX of this session but the open one is at most the one completed last. */
  lemma LatestTx(h: Host, q: nat)
    requires HostInv(h) && IsTx(h.log, q) && h.log[q].epoch == |h.used| - 1
    requires h.phase.TxOpen? ==> q != |h.log| - 1
    ensures PreviousTx(h).Some? && q <= PreviousTx(h).value < |h.log|
    ensures IsTx(h.log, PreviousTx(h).value) && PreviousTx(h).value in h.completed
  {
    var n := |h.log| - 1;
    if h.phase.TxOpen? {
      assert PrecedingTx(h.log, h.log[n].prev, h.log[n].epoch, n);
      EarlierCompleted(h, h.log[n].prev.value, n);
    } else if h.lastTx.value < n {
      assert InOrder(h.log, h.lastTx.value, n) && WireOf(h.used, h.log[n]);
      EarlierCompleted(h, h.lastTx.value, n);
    }
  }

  lemma ReplyKeepsTx(h: Host, t: TxSide, b: Bridge)
    requires HostInv(h) && TxLink(h.log, t) && RadioInv(h.log, t) && MemoryInv(t, b)
    requires AckInv(h, t) && EchoInv(h, t) && ServerInv(h.log, t, b) && t.phase.Replying?
    ensures var t' := t.(responses := t.responses + [t.phase.request.stamp], phase := Listening);
            AckInv(h, t') && EchoInv(h, t')
  {
    ReplyEcho(h, t, b);
    var t' := t.(responses := t.responses + [t.phase.request.stamp], phase := Listening);
    forall k | Verdict(h.log, t, k) ensures Verdict(h.log, t', k) {
    }
  }

  // ---------------------------------------------------------------- All steps

  lemma InitialTxInv(session: SessionId)
    ensures TxInv(Initial(session))
  {
  }

  /** Steps that leave the radio, the server's decisions and the acknowledgements alone. */
  predicate Quiet(step: Step) {
    step.SendTx? || step.SendRx? || step.HearRx? || step.Offer? || step.ServeRx? || step.PopRx?
    || step.TimeoutRx? || step.TakeHostFrame? || step.RadioRx? || step.Signal? || step.Enqueue?
  }

  lemma QuietChanges(s: State, step: Step)
    requires TokenInv(s.tx, s.bridge) && Enabled(s, step) && Quiet(step)
    ensures var h, h', t, t' := s.host, Apply(s, step).host, s.tx, Apply(s, step).tx;
            && h'.log == h.log && h'.used == h.used && h'.lastTx == h.lastTx
            && (h' == h || (h.phase.RxOpen? && !h'.phase.TxOpen?
                            && h'.completed == h.completed + {h.phase.poll.serial}))
            && t'.radio == t.radio && t'.accepted == t.accepted && t'.served == t.served
            && t'.lastCompleted == t.lastCompleted && t'.responses == t.responses
            && (t'.phase == t.phase || (t.phase.Offering? && t'.phase == Awaiting(t.phase.request)))
            && (Accepted(t', Apply(s, step).bridge) <==> Accepted(t, s.bridge))
  {
  }

  lemma QuietTxStep(s: State, step: Step)
    requires TxInv(s) && Enabled(s, step) && Quiet(step)
    ensures var s' := Apply(s, step);
            && RadioInv(s'.host.log, s'.tx) && ServerInv(s'.host.log, s'.tx, s'.bridge)
            && AckInv(s'.host, s'.tx) && EchoInv(s'.host, s'.tx)
  {
    QuietChanges(s, step);
    var h, h', t, t' := s.host, Apply(s, step).host, s.tx, Apply(s, step).tx;
    assert RadioInv(h'.log, t');
    QuietServer(h.log, t, s.bridge, t', Apply(s, step).bridge);
    QuietHost(h, h', t);
    AckFrame(h', t, t');
  }

  lemma QuietServer(log: seq<Entry>, t: TxSide, b: Bridge, t': TxSide, b': Bridge)
    requires ServerInv(log, t, b)
    requires t'.radio == t.radio && t'.accepted == t.accepted && t'.lastCompleted == t.lastCompleted
    requires t'.phase == t.phase || (t.phase.Offering? && t'.phase == Awaiting(t.phase.request))
    requires Accepted(t', b') <==> Accepted(t, b)
    ensures ServerInv(log, t', b')
  {
  }

  lemma QuietHost(h: Host, h': Host, t: TxSide)
    requires HostInv(h) && AckInv(h, t) && EchoInv(h, t)
    requires h'.log == h.log && h'.used == h.used && h'.lastTx == h.lastTx
    requires h' == h || (h.phase.RxOpen? && !h'.phase.TxOpen?
                         && h'.completed == h.completed + {h.phase.poll.serial})
    ensures AckInv(h', t) && EchoInv(h', t)
  {
  }

  lemma OpenRequestLogged(h: Host)
    requires HostInv(h)
    ensures h.phase.TxOpen? ==>
              LoggedTx(h.log, h.phase.request) && h.phase.request.stamp.serial == |h.log| - 1
  {
  }

  lemma TxStep(s: State, step: Step)
    requires TxInv(s) && Enabled(s, step)
    ensures TxInv(Apply(s, step))
  {
    hide HostInv, TokenInv, TxLink, RadioInv, MemoryInv, ServerInv, AckInv, EchoInv;
    var s' := Apply(s, step);
    HostStep(s, step);
    TokenStep(s, step);
    OpenRequestLogged(s.host);
    TxLinkStep(s, step);
    MemoryStep(s, step);
    if Quiet(step) {
      QuietTxStep(s, step);
    } else if step.OpenTx? || step.OpenRx? || step.Restart? || step.HearTx? {
      HostStepDecisions(s, step);
    } else {
      DeviceStepDecisions(s, step);
    }
  }

  /** The half of the invariant that depends on what the server decided. */
  ghost predicate Decisions(s: State) {
    && RadioInv(s.host.log, s.tx) && ServerInv(s.host.log, s.tx, s.bridge)
    && AckInv(s.host, s.tx) && EchoInv(s.host, s.tx)
  }

  lemma HostStepDecisions(s: State, step: Step)
    requires TxInv(s) && Enabled(s, step)
    requires step.OpenTx? || step.OpenRx? || step.Restart? || step.HearTx?
    ensures Decisions(Apply(s, step))
  {
    hide HostInv, TokenInv, TxLink, RadioInv, MemoryInv, ServerInv, AckInv, EchoInv;
    var s' := Apply(s, step);
    match step {
      case OpenTx(frame) => OpenKeepsTx(s.host, s'.host, s.tx, s.bridge, Tx(frame));
      case OpenRx => OpenKeepsTx(s.host, s'.host, s.tx, s.bridge, Rx);
      case Restart(session) => RestartKeepsTx(s.host, s.tx, session);
      case HearTx(i, keep) =>
        HearKeepsServer(s.host.log, s.tx, s.bridge, if keep then i else i + 1);
        HearKeepsAcks(s.host, s.tx, s.bridge, i, if keep then i else i + 1);
        HearKeepsEcho(s.host, s.tx, i, if keep then i else i + 1);
    }
  }

  lemma DeviceStepDecisions(s: State, step: Step)
    requires TxInv(s) && Enabled(s, step)
    requires step.ServeTx? || step.TakeToken? || step.ReplyTx? || step.RadioTx?
    ensures Decisions(Apply(s, step))
  {
    hide HostInv, TokenInv, TxLink, RadioInv, MemoryInv, ServerInv, AckInv, EchoInv;
    var s' := Apply(s, step);
    match step {
      case ServeTx(i) =>
        ServeKeepsTx(s, i);
        EchoFrame(s.host, s.tx, s'.tx);
      case TakeToken =>
        TakeTokenKeepsServer(s.host.log, s.tx, s.bridge);
        TakeTokenKeepsAcks(s.host, s.tx, s.bridge);
        EchoFrame(s.host, s.tx, s'.tx);
      case ReplyTx =>
        ReplyKeepsTx(s.host, s.tx, s.bridge);
        IdleServer(s.host.log, s.tx, s'.tx, s.bridge);
      case RadioTx =>
        RadioTxKeepsServer(s.host.log, s.tx, s.bridge, s'.bridge);
        RadioTxKeepsAcks(s.host, s.tx, s.bridge);
        EchoFrame(s.host, s.tx, s'.tx);
    }
  }
}
