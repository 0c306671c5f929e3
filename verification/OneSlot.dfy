/**
 * The servers remember one transaction. A server with a table of every transaction it has
 * ever answered would be safe against any retries; this module proves exactly on which
 * request sequences the one slot does the same, and that the exchange produces no others.
 */
module OneSlot {
  import opened Wire
  import opened Protocol
  import opened HostLog
  import opened TxPath
  import opened RxPath
  import opened Delivery

  /** What a server does: the answers it sends and, for each request, whether it acted. */
  datatype Behaviour<A> = Behaviour(answers: seq<A>, acted: seq<bool>)

  /**
   * A server that compares only with the transaction of its last answer. When it acts on
   * request `i`, the action gives `results[i]`.
   */
  function OneSlotServer<A>(requests: seq<Stamp>, results: seq<A>): Behaviour<A>
    requires |requests| == |results|
    ensures |OneSlotServer(requests, results).answers| == |requests|
    ensures |OneSlotServer(requests, results).acted| == |requests|
  {
    if requests == [] then Behaviour([], [])
    else
      var n := |requests| - 1;
      var b := OneSlotServer(requests[..n], results[..n]);
      if n > 0 && requests[n - 1].transaction == requests[n].transaction then
        Behaviour(b.answers + [b.answers[n - 1]], b.acted + [false])
      else
        Behaviour(b.answers + [results[n]], b.acted + [true])
  }

  function Stamps(requests: seq<TxRequest>): (stamps: seq<Stamp>)
    ensures |stamps| == |requests|
    ensures forall i :: 0 <= i < |requests| ==> stamps[i] == requests[i].stamp
  {
    seq(|requests|, i requires 0 <= i < |requests| => requests[i].stamp)
  }

  /** The requests a server acted on. */
  function ActedOn<T>(requests: seq<T>, acted: seq<bool>): seq<T>
    requires |requests| == |acted|
  {
    if requests == [] then []
    else
      var n := |requests| - 1;
      var rest := ActedOn(requests[..n], acted[..n]);
      if acted[n] then rest + [requests[n]] else rest
  }

  lemma ActedOnNext<T>(requests: seq<T>, acted: seq<bool>, q: T, acts: bool)
    requires |requests| == |acted|
    ensures ActedOn(requests + [q], acted + [acts])
            == if acts then ActedOn(requests, acted) + [q] else ActedOn(requests, acted)
  {
    var n := |requests|;
    assert (requests + [q])[..n] == requests && (acted + [acts])[..n] == acted;
  }

  /** What the server does with one more request. */
  lemma OneSlotNext<A>(requests: seq<Stamp>, results: seq<A>, q: Stamp, result: A)
    requires |requests| == |results|
    ensures var b, b' := OneSlotServer(requests, results), OneSlotServer(requests + [q], results + [result]);
            var repeat := requests != [] && requests[|requests| - 1].transaction == q.transaction;
            && b'.acted == b.acted + [!repeat]
            && b'.answers == b.answers + [if repeat then b.answers[|requests| - 1] else result]
  {
    var n := |requests|;
    assert (requests + [q])[..n] == requests && (results + [result])[..n] == results;
  }

  function Nothing(n: nat): seq<()> {
    seq(n, _ => ())
  }

  /** Index of the first request for this serial number, or `|requests|`. */
  function FirstFor(requests: seq<Stamp>, serial: nat): nat
    ensures FirstFor(requests, serial) <= |requests|
    ensures FirstFor(requests, serial) < |requests| ==> requests[FirstFor(requests, serial)].serial == serial
    ensures forall i :: 0 <= i < FirstFor(requests, serial) ==> requests[i].serial != serial
  {
    if requests == [] then 0
    else
      var n := |requests| - 1;
      var f := FirstFor(requests[..n], serial);
      if f < n || requests[n].serial == serial then f else n + 1
  }

  /** A server with a table of all its answers, indexed by the true serial number. */
  function TableServer<A>(requests: seq<Stamp>, results: seq<A>): Behaviour<A>
    requires |requests| == |results|
    ensures |TableServer(requests, results).answers| == |requests|
    ensures |TableServer(requests, results).acted| == |requests|
  {
    if requests == [] then Behaviour([], [])
    else
      var n := |requests| - 1;
      var b := TableServer(requests[..n], results[..n]);
      var f := FirstFor(requests[..n], requests[n].serial);
      if f < n then Behaviour(b.answers + [b.answers[f]], b.acted + [false])
      else Behaviour(b.answers + [results[n]], b.acted + [true])
  }

  /** Requests arrive in the order in which they were opened, each under one identifier. */
  ghost predicate InSendOrder(requests: seq<Stamp>) {
    && (forall i, j :: 0 <= i < j < |requests| ==> requests[i].serial <= requests[j].serial)
    && (forall i, j :: 0 <= i < j < |requests| && requests[i].serial == requests[j].serial ==>
          requests[i].transaction == requests[j].transaction)
  }

  /** Request `i` is a new transaction under the identifier of the request before it. */
  predicate ClashAt(requests: seq<Stamp>, i: nat) {
    && 0 < i < |requests|
    && requests[i - 1].serial != requests[i].serial
    && requests[i - 1].transaction == requests[i].transaction
  }

  /** In send order, a transaction seen before is the one seen last. */
  lemma SeenBeforeIsLast(requests: seq<Stamp>, n: nat)
    requires InSendOrder(requests) && n < |requests|
    ensures FirstFor(requests[..n], requests[n].serial) < n
            <==> n > 0 && requests[n - 1].serial == requests[n].serial
  {
  }

  /**
   * The one-slot server behaves as the table server, on every sequence in send order and
   * whatever its actions yield, if and only if no two adjacent requests clash.
   */
  lemma {:induction false} OneSlotRefinesTable<A>(requests: seq<Stamp>, results: seq<A>)
    requires |requests| == |results| && InSendOrder(requests)
    requires forall i: nat :: !ClashAt(requests, i)
    ensures OneSlotServer(requests, results) == TableServer(requests, results)
  {
    if requests != [] {
      var n := |requests| - 1;
      var rs, ys := requests[..n], results[..n];
      forall i: nat ensures !ClashAt(rs, i) {
        assert !ClashAt(requests, i);
      }
      OneSlotRefinesTable(rs, ys);
      SeenBeforeIsLast(requests, n);
      assert !ClashAt(requests, n);
      if n > 0 && requests[n - 1].serial == requests[n].serial {
        var f := FirstFor(rs, requests[n].serial);
        LastAnswerIsFirst(rs, ys, f);
      }
    }
  }

  /** The answer to the last request is the answer to the first for its transaction. */
  lemma LastAnswerIsFirst<A>(requests: seq<Stamp>, results: seq<A>, f: nat)
    requires |requests| == |results| && requests != []
    requires f == FirstFor(requests, requests[|requests| - 1].serial)
    ensures f < |requests|
    ensures var answers := TableServer(requests, results).answers;
            answers[|requests| - 1] == answers[f]
  {
  }

  /** Whether a server acts on request `i` depends on the requests up to it. */
  lemma {:induction false} OneSlotActsAt<A>(requests: seq<Stamp>, results: seq<A>, i: nat)
    requires |requests| == |results| && i < |requests|
    ensures OneSlotServer(requests, results).acted[i]
            == !(i > 0 && requests[i - 1].transaction == requests[i].transaction)
    decreases |requests|
  {
    var n := |requests| - 1;
    if i < n {
      OneSlotActsAt(requests[..n], results[..n], i);
    }
  }

  lemma {:induction false} TableActsAt<A>(requests: seq<Stamp>, results: seq<A>, i: nat)
    requires |requests| == |results| && i < |requests|
    ensures TableServer(requests, results).acted[i] == (FirstFor(requests[..i], requests[i].serial) == i)
    decreases |requests|
  {
    var n := |requests| - 1;
    if i < n {
      TableActsAt(requests[..n], results[..n], i);
      assert requests[..n][..i] == requests[..i];
    }
  }

  /** A clash is visible: there the one-slot server does not act and the table does. */
  lemma ClashIsVisible<A>(requests: seq<Stamp>, results: seq<A>, i: nat)
    requires |requests| == |results| && InSendOrder(requests) && ClashAt(requests, i)
    ensures !OneSlotServer(requests, results).acted[i] && TableServer(requests, results).acted[i]
  {
    hide OneSlotServer, TableServer;
    OneSlotActsAt(requests, results, i);
    TableActsAt(requests, results, i);
    SeenBeforeIsLast(requests, i);
  }

  lemma RefinesTableIffNoClash<A>(requests: seq<Stamp>, results: seq<A>)
    requires |requests| == |results| && InSendOrder(requests)
    ensures OneSlotServer(requests, results) == TableServer(requests, results)
            <==> forall i: nat :: !ClashAt(requests, i)
  {
    if forall i: nat :: !ClashAt(requests, i) {
      OneSlotRefinesTable(requests, results);
    } else {
      var i: nat :| ClashAt(requests, i);
      ClashIsVisible(requests, results, i);
    }
  }

  // ---------------------------------------------------------------- The exchange

  ghost predicate NoClash(served: seq<Stamp>) {
    forall i: nat :: !ClashAt(served, i)
  }

  ghost predicate OnlyCollisionsClash(log: seq<Entry>, served: seq<Stamp>) {
    forall i: nat :: ClashAt(served, i) ==> IsTx(log, served[i].serial) && Collides(log, served[i].serial)
  }

  /** A server that waits for a request remembers the last one it received. */
  predicate Remembers(t: TxSide) {
    && (t.phase.Listening? && t.served != [] ==> Duplicate(t.lastCompleted, t.served[|t.served| - 1]))
    && (t.served == [] ==> t.lastCompleted.None? && t.phase.Listening?)
  }

  ghost predicate ServedInv(s: State) {
    Remembers(s.tx) && NoClash(s.rx.served) && OnlyCollisionsClash(s.host.log, s.tx.served)
  }

  /** A new request that looks like the last one received collides with its predecessor. */
  lemma NewClashCollides(h: Host, t: TxSide, b: Bridge, i: nat)
    requires HostInv(h) && TxLink(h.log, t) && RadioInv(h.log, t) && MemoryInv(t, b) && AckInv(h, t)
    requires t.accepted == Serials(t.radio) && Remembers(t) && t.phase.Listening? && i < |t.requests|
    requires t.served != [] && t.served[|t.served| - 1].transaction == t.requests[i].stamp.transaction
    requires t.served[|t.served| - 1].serial != t.requests[i].stamp.serial
    ensures IsTx(h.log, t.requests[i].stamp.serial) && Collides(h.log, t.requests[i].stamp.serial)
  {
    ServeDecision(h, t, b, t.requests[i]);
    NotAmong(t.radio, t.requests[i].stamp.serial);
  }

  lemma TxServeClash(log: seq<Entry>, t: TxSide, i: nat)
    requires i < |t.requests| && OnlyCollisionsClash(log, t.served)
    requires var q := t.requests[i].stamp;
             t.served != [] && t.served[|t.served| - 1].transaction == q.transaction
             && t.served[|t.served| - 1].serial != q.serial ==>
               IsTx(log, q.serial) && Collides(log, q.serial)
    ensures OnlyCollisionsClash(log, ServeTxSide(t, i).served)
  {
  }

  lemma RxServeClash(h: Host, r: RxSide, i: nat)
    requires HostInv(h) && RxLink(h.log, r) && AnsweredInv(h, r) && CacheInv(h.log, r)
    requires r.phase.Idle? && i < |r.requests| && NoClash(r.served)
    ensures NoClash(ServeRxSide(r, i).served)
  {
    var served' := ServeRxSide(r, i).served;
    assert LoggedRx(h.log, r.requests[i]) && Newest(r.served) <= r.requests[i].serial;
    if r.cached.Some? { PollDecision(h, r, r.requests[i]); }
    hide HostInv, RxLink, AnsweredInv;
    forall k: nat ensures !ClashAt(served', k) {
      if k < |r.served| {
        assert !ClashAt(r.served, k);
      }
    }
  }

  lemma CollisionsGrow(log: seq<Entry>, log': seq<Entry>, served: seq<Stamp>)
    requires OnlyCollisionsClash(log, served) && log <= log'
    ensures OnlyCollisionsClash(log', served)
  {
  }

  lemma RemembersStep(s: State, step: Step)
    requires ServerInv(s.host.log, s.tx, s.bridge) && TxLink(s.host.log, s.tx)
    requires Remembers(s.tx) && Enabled(s, step)
    ensures Remembers(Apply(s, step).tx)
  {
  }

  lemma ServedStep(s: State, step: Step)
    requires Inv(s) && ServedInv(s) && Enabled(s, step)
    ensures ServedInv(Apply(s, step))
  {
    hide HostInv, AnsweredInv, CacheInv, RxLink, TokenInv, TxLink, RadioInv, MemoryInv, ServerInv,
         AckInv, EchoInv, Conserved, ResponseInv, PoppedInv, DeliveredInv, NoClash, OnlyCollisionsClash,
         Remembers, Serials;
    var s' := Apply(s, step);
    RemembersStep(s, step);
    if step.ServeTx? {
      var q, n := s.tx.requests[step.i].stamp, |s.tx.served| - 1;
      if s.tx.served != [] && s.tx.served[n].transaction == q.transaction && s.tx.served[n].serial != q.serial {
        NewClashCollides(s.host, s.tx, s.bridge, step.i);
      }
      TxServeClash(s.host.log, s.tx, step.i);
    } else if step.ServeRx? {
      RxServeClash(s.host, s.rx, step.i);
    } else {
      CollisionsGrow(s.host.log, s'.host.log, s.tx.served);
    }
  }

  lemma {:induction false} ServedRun(s: State, steps: seq<Step>)
    requires Inv(s) && ServedInv(s) && ValidRun(s, steps)
    ensures ServedInv(Execute(s, steps))
    decreases |steps|
  {
    hide Inv, ServedInv;
    if steps != [] {
      InvStep(s, steps[0]);
      ServedStep(s, steps[0]);
      ServedRun(Apply(s, steps[0]), steps[1..]);
    }
  }

  lemma InitialServed(session: SessionId)
    ensures ServedInv(Initial(session))
  {
  }

  lemma ReachableServed(s: State)
    requires Reachable(s)
    ensures ServedInv(s)
  {
    hide Inv, ServedInv;
    var session: SessionId, steps: seq<Step> :|
      ValidRun(Initial(session), steps) && Execute(Initial(session), steps) == s;
    InitialInv(session);
    InitialServed(session);
    ServedRun(Initial(session), steps);
  }

  /** What the servers receive over the lossy link is in send order. */
  lemma ServedInOrder(s: State)
    requires Reachable(s)
    ensures InSendOrder(s.tx.served) && InSendOrder(s.rx.served)
  {
    ReachableInv(s);
    forall i, j | 0 <= i < j < |s.tx.served| && s.tx.served[i].serial == s.tx.served[j].serial
      ensures s.tx.served[i].transaction == s.tx.served[j].transaction
    {
      assert TxStamped(s.host.log, s.tx.served[i]) && TxStamped(s.host.log, s.tx.served[j]);
    }
  }

  /** On the polls of every run one cached response does what a table of all of them does. */
  lemma RxServedRefinesTable<A>(s: State, results: seq<A>)
    requires Reachable(s) && |results| == |s.rx.served|
    ensures OneSlotServer(s.rx.served, results) == TableServer(s.rx.served, results)
  {
    ServedInOrder(s);
    ReachableServed(s);
    hide Reachable;
    RefinesTableIffNoClash(s.rx.served, results);
  }

  /** So it is with the last completed TX, as long as no identifier collides with its predecessor's. */
  lemma TxServedRefinesTable<A>(s: State, results: seq<A>)
    requires Reachable(s) && |results| == |s.tx.served|
    requires forall k: nat :: IsTx(s.host.log, k) ==> !Collides(s.host.log, k)
    ensures OneSlotServer(s.tx.served, results) == TableServer(s.tx.served, results)
  {
    ServedInOrder(s);
    ReachableServed(s);
    hide Reachable;
    RefinesTableIffNoClash(s.tx.served, results);
  }

  /** In a sequence in send order, what is at least as new as the last is in it only as the last. */
  lemma NewestOnly(served: seq<Stamp>, q: Stamp)
    requires InSendOrder(served) && served != [] && served[|served| - 1].serial <= q.serial
    ensures q in served ==> served[|served| - 1] == q
  {
  }

  /** What is known of a request on the link, and of the last one received. */
  lemma RequestOnLink(log: seq<Entry>, t: TxSide, i: nat)
    requires TxLink(log, t) && i < |t.requests|
    ensures LoggedTx(log, t.requests[i]) && Newest(t.served) <= t.requests[i].stamp.serial
  {
  }

  lemma TxDecision(h: Host, t: TxSide, b: Bridge, i: nat)
    requires HostInv(h) && TxLink(h.log, t) && RadioInv(h.log, t) && MemoryInv(t, b) && AckInv(h, t)
    requires t.accepted == Serials(t.radio) && Remembers(t) && t.phase.Listening? && i < |t.requests|
    requires InSendOrder(t.served)
    ensures var q := t.requests[i].stamp;
            && q.serial < |h.log|
            && (Duplicate(t.lastCompleted, q) <==> q in t.served || Collides(h.log, q.serial))
  {
    hide HostInv, TxLink, RadioInv, MemoryInv, AckInv, Serials, InSendOrder, Collides, Verdict;
    var q := t.requests[i].stamp;
    RequestOnLink(h.log, t, i);
    ServeDecision(h, t, b, t.requests[i]);
    if t.served != [] {
      NewestOnly(t.served, q);
      var last := t.served[|t.served| - 1];
      if last.transaction == q.transaction {
        if last.serial != q.serial { NewClashCollides(h, t, b, i); }
        else { assert last == q; }
      }
    }
  }

  /** The TX server skips a request exactly when it received it before, or it collides. */
  lemma TxDecisionIsHistory(s: State, i: nat)
    requires Reachable(s) && Enabled(s, ServeTx(i))
    ensures var q := s.tx.requests[i].stamp;
            && q.serial < |s.host.log|
            && (Duplicate(s.tx.lastCompleted, q) <==> q in s.tx.served || Collides(s.host.log, q.serial))
  {
    hide HostInv, AnsweredInv, CacheInv, RxLink, TokenInv, TxLink, RadioInv, MemoryInv, ServerInv,
         AckInv, EchoInv, Conserved, ResponseInv, PoppedInv, DeliveredInv, NoClash, OnlyCollisionsClash,
         Remembers, Serials, Reachable;
    ReachableInv(s);
    ReachableServed(s);
    ServedInOrder(s);
    TxDecision(s.host, s.tx, s.bridge, i);
  }

  /** The RX server repeats its answer exactly when it received the poll before. */
  lemma RxDecisionIsHistory(s: State, i: nat)
    requires Reachable(s) && Enabled(s, ServeRx(i))
    ensures var poll, cached := s.rx.requests[i], s.rx.cached;
            && (cached.Some? && cached.value.stamp.transaction == poll.transaction <==> poll in s.rx.served)
            && (poll in s.rx.served ==> cached.value.stamp == poll)
  {
    hide Reachable, HostInv, AnsweredInv, CacheInv, RxLink, Conserved, ResponseInv, PoppedInv, DeliveredInv,
         TxInv, Serials, InSendOrder;
    ReachableInv(s);
    ServedInOrder(s);
    RxDecision(s.host, s.rx, i);
  }

  lemma RxDecision(h: Host, r: RxSide, i: nat)
    requires HostInv(h) && RxLink(h.log, r) && AnsweredInv(h, r) && CacheInv(h.log, r) && InSendOrder(r.served)
    requires r.phase.Idle? && i < |r.requests|
    ensures var poll, cached := r.requests[i], r.cached;
            && (cached.Some? && cached.value.stamp.transaction == poll.transaction <==> poll in r.served)
            && (poll in r.served ==> cached.value.stamp == poll)
  {
    var poll := r.requests[i];
    assert LoggedRx(h.log, poll) && Newest(r.served) <= poll.serial;
    hide HostInv, AnsweredInv, RxLink, InSendOrder;
    if r.served != [] {
      PollDecision(h, r, poll);
      NewestOnly(r.served, poll);
    }
  }
}
