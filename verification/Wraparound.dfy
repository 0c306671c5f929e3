/** What the 32-bit transaction identifier can and cannot tell apart, in every run. */
module Wraparound {
  import opened Wire
  import opened Protocol
  import opened HostLog
  import opened TxPath
  import opened RxPath
  import opened Delivery

  /** The RX polls opened strictly between transactions `i` and `j`. */
  function PollsBetween(log: seq<Entry>, i: nat, j: nat): nat
    requires i < j <= |log|
    decreases j
  {
    if i + 1 == j then 0
    else PollsBetween(log, i, j - 1) + (if log[j - 1].payload.Rx? then 1 else 0)
  }

  lemma {:induction false} OnlyPollsBetween(log: seq<Entry>, i: nat, j: nat)
    requires i < j <= |log|
    requires forall x :: i < x < j ==> log[x].payload.Rx?
    ensures PollsBetween(log, i, j) == j - i - 1
  {
    if i + 1 < j {
      OnlyPollsBetween(log, i, j - 1);
    }
  }

  /**
   * A TX carries its predecessor's identifier exactly when the polls between the two are
   * congruent to 2^32 - 1 modulo 2^32; the first TX of a session never collides.
   */
  lemma CollisionIsPollCount(s: State, k: nat)
    requires Reachable(s) && IsTx(s.host.log, k)
    ensures var log := s.host.log;
            match log[k].prev
            case None => !Collides(log, k)
            case Some(p) =>
              && p < k && IsTx(log, p) && SameSession(log, p, k)
              && (Collides(log, k) <==> Low32(PollsBetween(log, p, k)) == ID_SPACE - 1)
              && (Collides(log, k) <==> log[p].wire == log[k].wire)
  {
    hide Low32, HostInv, Reachable;
    ReachableHost(s);
    var h := s.host;
    PrecedingOf(h, k);
    CollidesIffSameWire(h, k);
    if h.log[k].prev.Some? {
      var p := h.log[k].prev.value;
      OnlyPollsBetween(h.log, p, k);
      LastResidue(k - p);
    }
  }

  lemma PrecedingOf(h: Host, k: nat)
    requires HostInv(h) && IsTx(h.log, k)
    ensures PrecedingTx(h.log, h.log[k].prev, h.log[k].epoch, k)
  {
  }

  lemma LastResidue(d: nat)
    requires d > 0
    ensures Low32(d) == 0 <==> Low32(d - 1) == ID_SPACE - 1
  {
  }

  /** Fewer than 2^32 - 1 polls between consecutive TX transactions give exactly-once delivery. */
  lemma FewPollsExactlyOnce(s: State, epoch: nat)
    requires Reachable(s)
    requires forall k: nat :: Chosen(s.host.log, s.host.completed, epoch, k) && s.host.log[k].prev.Some?
                              && s.host.log[k].prev.value < k ==>
               PollsBetween(s.host.log, s.host.log[k].prev.value, k) < ID_SPACE - 1
    ensures ExactlyOnce(s, epoch)
  {
    forall k: nat | Chosen(s.host.log, s.host.completed, epoch, k) ensures !Collides(s.host.log, k) {
      CollisionIsPollCount(s, k);
    }
    ExactlyOnceIffNoCollision(s, epoch);
  }

  /**
   * Consecutive polls of a session are one or two identifiers apart, however long it runs.
   * So the response cache, which remembers one poll, never takes one for the other.
   */
  lemma ConsecutivePolls(s: State, i: nat, j: nat)
    requires Reachable(s) && i < j && IsRx(s.host.log, i) && IsRx(s.host.log, j)
    requires SameSession(s.host.log, i, j) && forall x :: i < x < j ==> IsTx(s.host.log, x)
    ensures var a, b := s.host.log[i].wire, s.host.log[j].wire;
            (b.id == Low32(a.id + 1) || b.id == Low32(a.id + 2)) && a != b
  {
    hide Low32;
    ReachableHost(s);
    var h := s.host;
    AtMostOneTxBetween(h, i, j);
    assert InOrder(h.log, i, j) && WireOf(h.used, h.log[i]) && WireOf(h.used, h.log[j]);
    LowAdd(h.log[i].offset, j - i);
    SameWire(h, i, j);
  }

  lemma AtMostOneTxBetween(h: Host, i: nat, j: nat)
    requires HostInv(h) && i < j && IsRx(h.log, i) && IsRx(h.log, j)
    requires SameSession(h.log, i, j) && forall x :: i < x < j ==> IsTx(h.log, x)
    ensures j - i <= 2
  {
    if j - i > 2 {
      assert InOrder(h.log, i, i + 1) && InOrder(h.log, i + 1, i + 2) && InOrder(h.log, i + 2, j);
      assert IsTx(h.log, i + 1) && IsTx(h.log, i + 2);
      assert HasLater(h.log, i + 1);
    }
  }

  lemma LowAdd(n: nat, d: nat)
    requires d <= 2
    ensures Low32(n + d) == Low32(Low32(n) + d) && (d > 0 ==> Low32(d) != 0)
  {
  }

  // ---------------------------------------------------------------- The loss is real

  /** One TX has completed, everything is at rest and nothing arrives from the radio. */
  ghost predicate Calm(s: State) {
    && Reachable(s)
    && |s.host.used| == 1 && (s.host.phase.Ready? || s.host.phase.MustPoll?)
    && s.host.lastTx == Some(0) && s.host.count == |s.host.log|
    && s.tx.requests == [] && s.tx.responses == [] && s.tx.phase.Listening?
    && s.tx.hostToWifi == [] && s.tx.tokens == []
    && s.rx.requests == [] && s.rx.responses == [] && s.rx.phase.Idle? && s.rx.wifiToHost == []
    && s.bridge.Selecting?
  }

  /** The RX server does not recognise the stamp of a transaction still to be opened. */
  lemma NextPollIsNew(s: State)
    requires Reachable(s) && s.host.phase.RxOpen? && s.rx.phase.Idle? && s.rx.requests == [s.host.phase.poll]
    requires s.host.phase.poll !in s.rx.served
    ensures s.rx.cached.Some? ==> s.rx.cached.value.stamp.transaction != s.host.phase.poll.transaction
  {
    ReachableInv(s);
    if s.rx.cached.Some? {
      assert LoggedRx(s.host.log, s.rx.requests[0]) && Newest(s.rx.served) <= s.rx.requests[0].serial;
      PollDecision(s.host, s.rx, s.host.phase.poll);
    }
  }

  lemma ServedIsOld(s: State)
    requires Reachable(s)
    ensures forall i :: 0 <= i < |s.rx.served| ==> s.rx.served[i].serial < |s.host.log|
  {
    ReachableInv(s);
  }

  /** An idle poll changes nothing but the host's counters and the cache. */
  lemma IdlePoll(s: State) returns (s': State)
    requires Calm(s)
    ensures Calm(s') && s'.host.phase.Ready?
    ensures |s'.host.log| == |s.host.log| + 1 && s'.host.used == s.host.used && s'.tx == s.tx
  {
    hide Reachable;
    ServedIsOld(s);
    ReachableStep(s, OpenRx);
    var a := Apply(s, OpenRx);
    ReachableStep(a, SendRx);
    var b := Apply(a, SendRx);
    NextPollIsNew(b);
    ReachableStep(b, ServeRx(0));
    var c := Apply(b, ServeRx(0));
    ReachableStep(c, TimeoutRx);
    var d := Apply(c, TimeoutRx);
    assert d.rx.responses[0].stamp == d.host.phase.poll;
    ReachableStep(d, HearRx(0, false));
    s' := Apply(d, HearRx(0, false));
  }

  lemma {:induction false} IdlePolls(s: State, n: nat) returns (s': State)
    requires Calm(s)
    ensures Calm(s') && (n > 0 ==> s'.host.phase.Ready?)
    ensures |s'.host.log| == |s.host.log| + n && s'.host.used == s.host.used && s'.tx == s.tx
  {
    if n == 0 {
      s' := s;
    } else {
      s' := IdlePolls(s, n - 1);
      s' := IdlePoll(s');
    }
  }

  /** The first TX of a session is offered to the bridge. */
  lemma FirstTxOffered(session: SessionId, frame: Frame) returns (s: State)
    requires InSize(frame)
    ensures Reachable(s) && s.rx == Initial(session).rx && s.bridge.Selecting?
    ensures s.host == OpenTxHost(InitialHost(session), frame)
    ensures s.tx == TxSide([], [], Awaiting(s.host.phase.request), None, [s.host.phase.request], [],
                           [s.host.phase.request.stamp], [], {})
  {
    hide Reachable;
    InitialReachable(session);
    var a := Initial(session);
    ReachableStep(a, OpenTx(frame));
    var b := Apply(a, OpenTx(frame));
    ReachableStep(b, SendTx);
    var c := Apply(b, SendTx);
    ReachableStep(c, ServeTx(0));
    var d := Apply(c, ServeTx(0));
    ReachableStep(d, Offer);
    s := Apply(d, Offer);
  }

  /** The bridge hands its frame to the radio and signals. */
  lemma FirstTxTransmitted(session: SessionId, frame: Frame) returns (s: State)
    requires InSize(frame)
    ensures Reachable(s) && s.rx == Initial(session).rx && s.bridge.Selecting?
    ensures s.host == OpenTxHost(InitialHost(session), frame)
    ensures var q := s.host.phase.request;
            s.tx == TxSide([], [], Awaiting(q), None, [], [q.stamp.serial], [q.stamp], [q], {q.stamp.serial})
  {
    hide Reachable;
    var a := FirstTxOffered(session, frame);
    ReachableStep(a, TakeHostFrame);
    var b := Apply(a, TakeHostFrame);
    ReachableStep(b, RadioTx);
    var c := Apply(b, RadioTx);
    ReachableStep(c, Signal);
    s := Apply(c, Signal);
  }

  /** And the host gets its acknowledgement. */
  lemma FirstTxCompletes(session: SessionId, frame: Frame) returns (s: State)
    requires InSize(frame)
    ensures Calm(s) && |s.host.log| == 1
    ensures s.tx.lastCompleted == Some(Stamp(Transaction(session, 0), 0)) && |s.tx.radio| == 1
    ensures s.host.used == [session] && s.tx.accepted == {0}
  {
    hide Reachable;
    s := FirstTxTransmitted(session, frame);
    ReachableStep(s, TakeToken);
    s := Apply(s, TakeToken);
    ReachableStep(s, ReplyTx);
    s := Apply(s, ReplyTx);
    assert s.tx.responses[0] == s.host.phase.request.stamp;
    ReachableStep(s, HearTx(0, false));
    s := Apply(s, HearTx(0, false));
  }

  /** After 2^32 transactions the session starts its identifiers over. */
  lemma IdentifiersStartOver(s: State, session: SessionId)
    requires Calm(s) && |s.host.log| == ID_SPACE && s.host.used == [session]
    ensures NextStamp(s.host).transaction == Transaction(session, 0)
  {
    ReachableInv(s);
  }

  /** The server acknowledges a TX it takes for the remembered one, without transmitting it. */
  lemma DuplicateAcknowledged(s: State, frame: Frame) returns (s': State)
    requires Calm(s) && s.host.phase.Ready? && InSize(frame)
    requires Duplicate(s.tx.lastCompleted, NextStamp(s.host))
    ensures Reachable(s') && s'.tx.radio == s.tx.radio && s'.tx.accepted == s.tx.accepted
    ensures s'.host.log == OpenTxHost(s.host, frame).log && |s.host.log| in s'.host.completed
  {
    hide Reachable;
    ReachableStep(s, OpenTx(frame));
    var a := Apply(s, OpenTx(frame));
    ReachableStep(a, SendTx);
    var b := Apply(a, SendTx);
    ReachableStep(b, ServeTx(0));
    var c := Apply(b, ServeTx(0));
    ReachableStep(c, ReplyTx);
    var d := Apply(c, ReplyTx);
    assert d.tx.responses[0] == d.host.phase.request.stamp;
    ReachableStep(d, HearTx(0, false));
    s' := Apply(d, HearTx(0, false));
  }

  /**
   * The exception occurs: a run of one session in which 2^32 - 1 idle polls separate two TX
   * transactions, the second frame is acknowledged, and the radio never accepts it.
   */
  lemma AcknowledgedButLost(session: SessionId, first: Frame, second: Frame) returns (s: State)
    requires InSize(first) && InSize(second)
    ensures Reachable(s) && !ExactlyOnce(s, 0)
    ensures |s.host.log| == ID_SPACE + 1 && s.host.log[ID_SPACE].payload == Tx(second)
    ensures ID_SPACE in s.host.completed && s.tx.accepted == {0} && |s.tx.radio| == 1
  {
    var a := FirstTxCompletes(session, first);
    var b := IdlePolls(a, ID_SPACE - 1);
    IdentifiersStartOver(b, session);
    s := DuplicateAcknowledged(b, second);
    ExactlyOnceIffNoCollision(s, 0);
    assert Chosen(s.host.log, s.host.completed, 0, ID_SPACE);
    assert Collides(s.host.log, ID_SPACE);
  }
}
