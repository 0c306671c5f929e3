/** What every run keeps about the host: how transactions are numbered, ordered and closed. */
module HostLog {
  import opened Wire
  import opened Protocol

  predicate IsTx(log: seq<Entry>, k: nat) {
    k < |log| && log[k].payload.Tx?
  }

  predicate IsRx(log: seq<Entry>, k: nat) {
    k < |log| && log[k].payload.Rx?
  }

  predicate SameSession(log: seq<Entry>, i: nat, j: nat)
    requires i < |log| && j < |log|
  {
    log[i].epoch == log[j].epoch
  }

  /**
   * The identifier of TX transaction `k` is the one its predecessor used: the distance
   * between the two is a multiple of 2^32.
   */
  predicate Collides(log: seq<Entry>, k: nat)
    requires k < |log|
  {
    log[k].prev.Some? && log[k].prev.value < k && Low32(k - log[k].prev.value) == 0
  }

  /** The newest of the requests a server has received, which is the last. */
  function Newest(served: seq<Stamp>): nat {
    if served == [] then 0 else served[|served| - 1].serial
  }

  /** A stamp that the host really put on a transaction. */
  predicate Logged(log: seq<Entry>, stamp: Stamp) {
    stamp.serial < |log| && log[stamp.serial].wire == stamp.transaction
  }

  predicate LoggedTx(log: seq<Entry>, request: TxRequest) {
    Logged(log, request.stamp) && log[request.stamp.serial].payload == Tx(request.frame)
  }

  predicate LoggedRx(log: seq<Entry>, stamp: Stamp) {
    Logged(log, stamp) && log[stamp.serial].payload == Rx
  }

  /** Wire identifier of an entry: its session id and its position modulo 2^32. */
  predicate WireOf(used: seq<SessionId>, e: Entry) {
    e.epoch < |used| && e.wire == Transaction(used[e.epoch], Low32(e.offset))
  }

  predicate DistinctIds(used: seq<SessionId>, i: nat, j: nat) {
    i < |used| && j < |used| && used[i] != used[j]
  }

  /** Sessions follow each other, and a session numbers its transactions consecutively. */
  predicate InOrder(log: seq<Entry>, i: nat, j: nat) {
    && i < |log| && j < |log|
    && log[i].epoch <= log[j].epoch
    && (log[i].epoch == log[j].epoch ==> log[j].offset - log[i].offset == j - i)
  }

  /** Entry `k`, if the current session opened it, is `|log| - k` transactions old. */
  predicate Aged(h: Host, k: nat) {
    k < |h.log| && (h.log[k].epoch == |h.used| - 1 ==> h.log[k].offset + (|h.log| - k) == h.count)
  }

  /** Identifiers: session ids are distinct, and each session counts up from zero. */
  ghost predicate Numbered(h: Host) {
    && |h.used| > 0
    && h.session == h.used[|h.used| - 1]
    && h.nextId == Low32(h.count)
    && (forall i: nat, j: nat {:trigger DistinctIds(h.used, i, j)} :: i < j < |h.used| ==> DistinctIds(h.used, i, j))
    && (forall k: nat {:trigger WireOf(h.used, h.log[k])} :: k < |h.log| ==> WireOf(h.used, h.log[k]))
    && (forall i: nat, j: nat {:trigger InOrder(h.log, i, j)} :: i < j < |h.log| ==> InOrder(h.log, i, j))
    && (forall k: nat {:trigger Aged(h, k)} :: k < |h.log| ==> Aged(h, k))
  }

  /** The session that opened transaction `k` opened another one after it. */
  predicate HasLater(log: seq<Entry>, k: nat) {
    k + 1 < |log| && log[k + 1].epoch == log[k].epoch
  }

  /** Stop and wait: a session opens a transaction only when all its earlier ones completed. */
  ghost predicate StopAndWait(h: Host) {
    && |h.used| > 0
    && (forall k :: k in h.completed ==> k < |h.log|)
    && (forall k: nat {:trigger HasLater(h.log, k)} :: HasLater(h.log, k) ==> k in h.completed)
    && match h.phase
       case TxOpen(request) =>
         LoggedTx(h.log, request) && OpenLast(h, request.stamp) && h.lastTx == Some(|h.log| - 1)
       case RxOpen(poll) => LoggedRx(h.log, poll) && OpenLast(h, poll)
       case _ => |h.log| > 0 && h.log[|h.log| - 1].epoch == |h.used| - 1 ==> |h.log| - 1 in h.completed
  }

  /** The open transaction is the last one, the current session opened it, it is not completed. */
  predicate OpenLast(h: Host, stamp: Stamp) {
    && |h.log| > 0 && |h.used| > 0
    && stamp.serial == |h.log| - 1
    && h.log[|h.log| - 1].epoch == |h.used| - 1
    && |h.log| - 1 !in h.completed
  }

  /** Alternation: within a session a TX is followed by an RX poll, never by another TX. */
  ghost predicate Alternating(h: Host) {
    && |h.used| > 0
    && (forall k: nat {:trigger HasLater(h.log, k)} :: HasLater(h.log, k) ==>
          h.log[k].payload.Rx? || h.log[k + 1].payload.Rx?)
    && (h.phase.Ready? && |h.log| > 0 && h.log[|h.log| - 1].epoch == |h.used| - 1 ==>
          h.log[|h.log| - 1].payload.Rx?)
  }

  /** `p` is the last TX of session `epoch` before position `k`, if there is one. */
  ghost predicate PrecedingTx(log: seq<Entry>, p: Option<nat>, epoch: nat, k: nat)
    requires k <= |log|
  {
    match p
    case Some(j) =>
      && j < k && log[j].payload.Tx? && log[j].epoch == epoch
      && (forall x {:trigger log[x].payload} :: j < x < k ==> log[x].payload.Rx?)
    case None =>
      forall x {:trigger log[x].payload} :: 0 <= x < k && log[x].epoch == epoch ==> log[x].payload.Rx?
  }

  ghost predicate Linked(h: Host) {
    && |h.used| > 0
    && (forall k {:trigger h.log[k].prev} :: 0 <= k < |h.log| && h.log[k].payload.Tx? ==>
          PrecedingTx(h.log, h.log[k].prev, h.log[k].epoch, k))
    && PrecedingTx(h.log, h.lastTx, |h.used| - 1, |h.log|)
  }

  ghost predicate HostInv(h: Host) {
    Numbered(h) && StopAndWait(h) && Alternating(h) && Linked(h)
  }

  // ---------------------------------------------------------------- Preservation

  /** `h'` is `h` after it opened a transaction with this payload. */
  predicate Opened(h: Host, h': Host, payload: Payload) {
    && |h.used| > 0
    && h'.log == h.log + [Entry(|h.used| - 1, h.count, NextStamp(h).transaction, h.lastTx, payload)]
    && h'.session == h.session && h'.used == h.used && h'.count == h.count + 1
    && h'.nextId == WrappingIncrement(h.nextId)
    && h'.completed == h.completed
    && h'.lastTx == if payload.Tx? then Some(|h.log|) else h.lastTx
  }

  lemma OpenNumbered(h: Host, h': Host, payload: Payload)
    requires Numbered(h) && Opened(h, h', payload)
    ensures Numbered(h')
  {
    hide Low32, WrappingIncrement;
    IncrementLow32(h.count);
    var n := |h.log|;
    forall i: nat, j: nat | i < j < |h'.log| ensures InOrder(h'.log, i, j) {
      if j < n {
        assert InOrder(h.log, i, j);
      } else {
        assert Aged(h, i) && WireOf(h.used, h.log[i]);
      }
    }
    forall k: nat | k < |h'.log| ensures WireOf(h'.used, h'.log[k]) && Aged(h', k) {
      if k < n {
        assert WireOf(h.used, h.log[k]) && Aged(h, k);
      }
    }
    forall i: nat, j: nat | i < j < |h'.used| ensures DistinctIds(h'.used, i, j) {
      assert DistinctIds(h.used, i, j);
    }
  }

  lemma OpenHasLater(h: Host, h': Host, payload: Payload)
    requires HostInv(h) && !h.phase.TxOpen? && !h.phase.RxOpen? && Opened(h, h', payload)
    requires payload.Tx? ==> h.phase.Ready?
    ensures forall k: nat {:trigger HasLater(h'.log, k)} :: HasLater(h'.log, k) ==>
              k in h'.completed && (h'.log[k].payload.Rx? || h'.log[k + 1].payload.Rx?)
  {
    forall k: nat | HasLater(h'.log, k)
      ensures k in h'.completed && (h'.log[k].payload.Rx? || h'.log[k + 1].payload.Rx?)
    {
      if k + 1 < |h.log| {
        assert HasLater(h.log, k);
      }
    }
  }

  lemma OpenLinked(h: Host, h': Host, payload: Payload)
    requires Linked(h) && Opened(h, h', payload)
    ensures Linked(h')
  {
  }

  lemma OpenTxInv(h: Host, frame: Frame)
    requires HostInv(h) && h.phase.Ready?
    ensures HostInv(OpenTxHost(h, frame))
  {
    var h' := OpenTxHost(h, frame);
    OpenNumbered(h, h', Tx(frame));
    OpenHasLater(h, h', Tx(frame));
    OpenLinked(h, h', Tx(frame));
  }

  lemma OpenRxInv(h: Host)
    requires HostInv(h) && (h.phase.Ready? || h.phase.MustPoll?)
    ensures HostInv(OpenRxHost(h))
  {
    var h' := OpenRxHost(h);
    OpenNumbered(h, h', Rx);
    OpenHasLater(h, h', Rx);
    OpenLinked(h, h', Rx);
  }

  lemma RestartNumbered(h: Host, session: SessionId)
    requires Numbered(h) && session !in h.used
    ensures Numbered(RestartHost(h, session))
    ensures forall k :: 0 <= k < |h.log| ==> h.log[k].epoch < |h.used|
  {
    var h' := RestartHost(h, session);
    forall i: nat, j: nat | i < j < |h'.used| ensures DistinctIds(h'.used, i, j) {
      if j < |h.used| {
        assert DistinctIds(h.used, i, j);
      }
    }
    forall k: nat | k < |h'.log| ensures WireOf(h'.used, h'.log[k]) && Aged(h', k) {
      assert WireOf(h.used, h.log[k]);
    }
    forall i: nat, j: nat | i < j < |h'.log| ensures InOrder(h'.log, i, j) {
      assert InOrder(h.log, i, j);
    }
  }

  lemma RestartInv(h: Host, session: SessionId)
    requires HostInv(h) && session !in h.used
    ensures HostInv(RestartHost(h, session))
  {
    RestartNumbered(h, session);
  }

  lemma NumberedFrame(h: Host, h': Host)
    requires Numbered(h) && h'.session == h.session && h'.nextId == h.nextId && h'.used == h.used
    requires h'.count == h.count && h'.log == h.log
    ensures Numbered(h')
  {
    forall k: nat | k < |h'.log| ensures Aged(h', k) {
      assert Aged(h, k);
    }
  }

  lemma HearInv(h: Host, h': Host)
    requires HostInv(h) && (h.phase.TxOpen? || h.phase.RxOpen?)
    requires h' == h.(phase := if h.phase.TxOpen? then MustPoll else Ready,
                      completed := h.completed + {|h.log| - 1}, delivered := h'.delivered)
    ensures HostInv(h')
  {
    NumberedFrame(h, h');
  }

  lemma HostStep(s: State, step: Step)
    requires HostInv(s.host) && Enabled(s, step)
    ensures HostInv(Apply(s, step).host)
  {
    match step {
      case OpenTx(frame) => OpenTxInv(s.host, frame);
      case OpenRx => OpenRxInv(s.host);
      case Restart(session) => RestartInv(s.host, session);
      case HearTx(i, _) =>
        var h' := HearTxHost(s.host, s.tx.responses[i]);
        if h' != s.host { HearInv(s.host, h'); }
      case HearRx(i, _) =>
        var h' := HearRxHost(s.host, s.rx.responses[i]);
        if h' != s.host { HearInv(s.host, h'); }
      case _ =>
    }
  }

  // ---------------------------------------------------------------- Consequences

  /**
   * Two transactions share a wire identifier exactly when one session opened both and
   * their distance is a multiple of 2^32.
   */
  lemma SameWire(h: Host, i: nat, j: nat)
    requires Numbered(h) && i < j < |h.log|
    ensures h.log[i].wire == h.log[j].wire
            <==> SameSession(h.log, i, j) && Low32(j - i) == 0
  {
    hide Low32;
    assert InOrder(h.log, i, j) && WireOf(h.used, h.log[i]) && WireOf(h.used, h.log[j]);
    if h.log[i].epoch == h.log[j].epoch {
      SameLow32(h.log[i].offset, h.log[j].offset);
    } else {
      assert DistinctIds(h.used, h.log[i].epoch, h.log[j].epoch);
    }
  }

  /** Every transaction with a later one of its session has completed. */
  lemma EarlierCompleted(h: Host, i: nat, j: nat)
    requires Numbered(h) && StopAndWait(h) && i < j < |h.log| && SameSession(h.log, i, j)
    ensures i in h.completed
  {
    assert InOrder(h.log, i, i + 1);
    if i + 1 < j { assert InOrder(h.log, i + 1, j); }
    assert HasLater(h.log, i);
  }

  /** Between two polls of one session that share an identifier there is another poll. */
  lemma PollBetween(h: Host, i: nat, j: nat) returns (x: nat)
    requires HostInv(h) && i < j < |h.log|
    requires h.log[i].wire == h.log[j].wire
    ensures i < x < j && IsRx(h.log, x) && SameSession(h.log, x, j) && x in h.completed
  {
    SameWire(h, i, j);
    assert j - i >= 3;
    assert InOrder(h.log, i, j - 2) && InOrder(h.log, j - 2, j - 1) && InOrder(h.log, j - 1, j);
    assert HasLater(h.log, j - 2) && HasLater(h.log, j - 1);
    x := if h.log[j - 1].payload.Rx? then j - 1 else j - 2;
  }

  /** The predecessor recorded for a TX decides whether its identifier is fresh. */
  lemma CollidesIffSameWire(h: Host, k: nat)
    requires Numbered(h) && Linked(h) && IsTx(h.log, k)
    ensures Collides(h.log, k)
            <==> h.log[k].prev.Some? && h.log[h.log[k].prev.value].wire == h.log[k].wire
  {
    if h.log[k].prev.Some? {
      SameWire(h, h.log[k].prev.value, k);
    }
  }
}
