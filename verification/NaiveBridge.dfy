/**
 * Why the bridge serves host frames while it looks for a free slot. A bridge that only
 * waits for the slot reaches a state in which host, TX server, bridge and RX queue wait
 * for each other, and no step short of ending the session leads out of it.
 */
module NaiveBridge {
  import opened Wire
  import opened Protocol

  /** The same system, but a bridge that holds a frame takes nothing from the host. */
  predicate NaiveEnabled(s: State, step: Step) {
    Enabled(s, step) && !(step.TakeHostFrame? && s.bridge.Queueing?)
  }

  ghost predicate NaiveRun(s: State, steps: seq<Step>, end: State)
    decreases |steps|
  {
    if steps == [] then s == end
    else NaiveEnabled(s, steps[0]) && NaiveRun(Apply(s, steps[0]), steps[1..], end)
  }

  lemma {:induction false} NaiveSnoc(s: State, steps: seq<Step>, mid: State, step: Step)
    requires NaiveRun(s, steps, mid) && NaiveEnabled(mid, step)
    ensures NaiveRun(s, steps + [step], Apply(mid, step))
    decreases |steps|
  {
    if steps == [] {
      assert (steps + [step])[1..] == [];
    } else {
      assert (steps + [step])[1..] == steps[1..] + [step];
      NaiveSnoc(Apply(s, steps[0]), steps[1..], mid, step);
    }
  }

  /** The circular wait: host on server, server on bridge, bridge on queue, queue on host. */
  ghost predicate Stuck(s: State) {
    && s.host.phase.TxOpen?
    && s.tx.phase == Awaiting(s.host.phase.request)
    && s.tx.hostToWifi == [s.host.phase.request] && s.tx.tokens == []
    && s.bridge.Queueing? && Full(s.rx.wifiToHost)
    && s.rx.phase.Idle? && s.rx.requests == []
    && (forall i :: 0 <= i < |s.tx.responses| ==>
          s.tx.responses[i].transaction != s.host.phase.request.stamp.transaction)
  }

  lemma StuckStays(s: State, step: Step)
    requires Stuck(s) && NaiveEnabled(s, step) && !step.Restart?
    ensures Stuck(Apply(s, step)) && Apply(s, step).host == s.host
  {
  }

  /** From there no run of the session, with any retries, acknowledges the frame. */
  lemma {:induction false} StuckForever(s: State, steps: seq<Step>, end: State)
    requires Stuck(s) && NaiveRun(s, steps, end)
    requires forall i :: 0 <= i < |steps| ==> !steps[i].Restart?
    ensures Stuck(end) && end.host == s.host
    decreases |steps|
  {
    hide Stuck;
    if steps != [] {
      StuckStays(s, steps[0]);
      StuckForever(Apply(s, steps[0]), steps[1..], end);
    }
  }

  /** The device after it queued `n` copies of `frame` and the host did nothing yet. */
  function Filled(session: SessionId, frame: Frame, n: nat): State {
    var s := Initial(session);
    s.(rx := s.rx.(wifiToHost := seq(n, _ => frame), received := seq(n, _ => frame)))
  }

  /** One more frame is received and queued. */
  lemma FillOne(session: SessionId, frame: Frame, n: nat)
    requires InSize(frame) && n < RX_QUEUE_CAPACITY
    ensures var s := Filled(session, frame, n);
            && NaiveEnabled(s, RadioRx(frame)) && NaiveEnabled(Apply(s, RadioRx(frame)), Enqueue)
            && Apply(Apply(s, RadioRx(frame)), Enqueue) == Filled(session, frame, n + 1)
  {
  }

  lemma {:induction false} Fill(session: SessionId, frame: Frame, n: nat) returns (steps: seq<Step>)
    requires InSize(frame) && n <= RX_QUEUE_CAPACITY
    ensures NaiveRun(Initial(session), steps, Filled(session, frame, n))
  {
    if n == 0 {
      steps := [];
      assert Filled(session, frame, 0) == Initial(session);
    } else {
      hide NaiveEnabled, NaiveRun, Filled, Apply, Enabled;
      steps := Fill(session, frame, n - 1);
      FillOne(session, frame, n - 1);
      var mid := Filled(session, frame, n - 1);
      NaiveSnoc(Initial(session), steps, mid, RadioRx(frame));
      steps, mid := steps + [RadioRx(frame)], Apply(mid, RadioRx(frame));
      NaiveSnoc(Initial(session), steps, mid, Enqueue);
      steps := steps + [Enqueue];
    }
  }

  /** The naive bridge gets there: 65 radio frames followed by one host frame are enough. */
  lemma NaiveGetsStuck(session: SessionId, frame: Frame) returns (steps: seq<Step>, end: State)
    requires InSize(frame)
    ensures NaiveRun(Initial(session), steps, end) && Stuck(end)
  {
    steps := Fill(session, frame, RX_QUEUE_CAPACITY);
    end := Filled(session, frame, RX_QUEUE_CAPACITY);
    var more := [RadioRx(frame), OpenTx(frame), SendTx, ServeTx(0), Offer];
    var k := 0;
    while k < 5
      invariant 0 <= k <= 5
      invariant NaiveRun(Initial(session), steps, end)
      invariant |end.rx.wifiToHost| == RX_QUEUE_CAPACITY && end.rx.phase.Idle? && end.rx.requests == []
      invariant end.tx.responses == [] && end.tx.tokens == [] && end.host.used == [session]
      invariant end.tx.lastCompleted.None?
      invariant if k == 0 then end.bridge.Selecting? else end.bridge.Queueing?
      invariant if k <= 1 then end.host.phase.Ready? else end.host.phase.TxOpen?
      invariant k <= 3 ==> end.tx.phase.Listening? && end.tx.hostToWifi == []
      invariant end.tx.requests == (if k == 3 then [end.host.phase.request] else [])
      invariant k == 4 ==> end.tx.phase == Offering(end.host.phase.request) && end.tx.hostToWifi == []
      invariant k == 5 ==> Stuck(end)
    {
      NaiveSnoc(Initial(session), steps, end, more[k]);
      steps, end := steps + [more[k]], Apply(end, more[k]);
      k := k + 1;
    }
  }
}
