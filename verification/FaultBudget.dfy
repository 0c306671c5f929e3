/**
 * The process-wide budget of requests the host drops on purpose, and what it does to the
 * serial client when the link itself is prompt.
 */
module FaultBudget {
  import opened Wire
  import opened EndpointWait
  import opened SerialClient

  datatype FaultDirection = Any | Tx | Rx {
    predicate Matches(name: string) {
      match this
      case Any => true
      case Tx => "WiFi TX" <= name
      case Rx => "WiFi RX" <= name
    }
  }

  const TX_LABEL := "WiFi TX"
  const RX_LABEL := "WiFi RX"

  /** A backup is dropped in the directions its primary is, and the directions differ. */
  lemma Labels(direction: FaultDirection)
    ensures direction.Matches(TX_LABEL + " backup") == direction.Matches(TX_LABEL) == !direction.Rx?
    ensures direction.Matches(RX_LABEL + " backup") == direction.Matches(RX_LABEL) == !direction.Tx?
  {
    assert "WiFi TX"[5] == 'T' && "WiFi RX"[5] == 'R';
    assert (TX_LABEL + " backup")[5] == 'T' && (RX_LABEL + " backup")[5] == 'R';
  }

  /** How many of these requests the setting is about. */
  function Matching(direction: FaultDirection, labels: seq<string>): nat {
    if labels == [] then 0
    else
      var n := |labels| - 1;
      Matching(direction, labels[..n]) + (if direction.Matches(labels[n]) then 1 else 0)
  }

  lemma MatchingNext(direction: FaultDirection, labels: seq<string>, name: string)
    ensures Matching(direction, labels + [name])
            == Matching(direction, labels) + (if direction.Matches(name) then 1 else 0)
  {
    assert (labels + [name])[..|labels|] == labels;
  }

  lemma NothingMatches(direction: FaultDirection, labels: seq<string>)
    requires |labels| == 0
    ensures Matching(direction, labels) == 0
  {
  }

  class EndpointFaultInjector {
    const direction: FaultDirection
    const budget: nat
    var remaining: nat
    ghost var drops: nat

    constructor (direction: FaultDirection, budget: nat)
      ensures this.direction == direction && this.budget == budget
      ensures Valid() && remaining == budget
    {
      this.direction, this.budget := direction, budget;
      remaining, drops := budget, 0;
    }

    ghost predicate Valid()
      reads this
    {
      remaining + drops == budget
    }

    /** One atomic `fetch_update`: it never takes more than is left. */
    method ShouldDrop(name: string) returns (dropped: bool)
      requires Valid()
      modifies this
      ensures Valid()
      ensures dropped <==> direction.Matches(name) && old(remaining) > 0
      ensures remaining == old(remaining) - (if dropped then 1 else 0)
    {
      dropped := false;
      if direction.Matches(name) && remaining >= 1 {
        remaining, drops, dropped := remaining - 1, drops + 1, true;
      }
    }

    /**
     * Calls from different tasks interleave into some sequence, since each is atomic. In
     * every sequence the matching requests are dropped until the budget is gone, no other
     * is, and what is left plus the drops is the budget.
     */
    method DropAll(labels: seq<string>) returns (dropped: seq<bool>)
      requires Valid() && remaining == budget
      modifies this
      ensures Valid() && |dropped| == |labels|
      ensures forall i :: 0 <= i < |labels| ==>
                (dropped[i] <==> direction.Matches(labels[i]) && Matching(direction, labels[..i]) < budget)
      ensures drops == if Matching(direction, labels) <= budget then Matching(direction, labels) else budget
    {
      hide Matching;
      dropped := [];
      assert Matching(direction, labels[..0]) == 0 by { NothingMatches(direction, labels[..0]); }
      while |dropped| < |labels|
        invariant Valid() && |dropped| <= |labels|
        invariant forall i :: 0 <= i < |dropped| ==>
                    (dropped[i] <==> direction.Matches(labels[i]) && Matching(direction, labels[..i]) < budget)
        invariant var m := Matching(direction, labels[..|dropped|]); drops == if m <= budget then m else budget
      {
        var n := |dropped|;
        assert labels[..n + 1] == labels[..n] + [labels[n]];
        MatchingNext(direction, labels[..n], labels[n]);
        var d := ShouldDrop(labels[n]);
        dropped := dropped + [d];
      }
      assert labels[..|dropped|] == labels;
    }
  }

  // ---------------------------------------------------------------- On a prompt link

  /** When the link answers the primary and the backup of a wait, if they are sent. */
  datatype Times = Times(primary: nat, backup: nat) {
    /** Before the next timer. */
    predicate Prompt() {
      primary < STALL_THRESHOLD <= backup < RECOVERY_TIMEOUT
    }
  }

  /**
   * One turn of the exchange loop: the TAP frame it finds, the frame its poll fetches, when
   * the answers come, and the id of the next session, should this one end.
   */
  datatype Round = Round(frame: Option<Frame>, answer: Option<Frame>, tx: Times, rx: Times, nextSession: SessionId)

  /** How many requests of a transaction are dropped. */
  function Dropped(matching: bool, remaining: nat): nat {
    if !matching then 0 else if remaining <= 2 then remaining else 2
  }

  /** The link answers every request that is sent, and answers it before the next timer. */
  method TxTransaction(c: Client, injector: EndpointFaultInjector, frame: Frame, times: Times)
    returns (c': Client)
    requires times.Prompt() && c.recovery && c.phase.AtLoopHead? && InSize(frame) && injector.Valid()
    modifies injector
    ensures injector.Valid() && c'.recovery
    ensures var d := Dropped(!injector.direction.Rx?, old(injector.remaining));
            && injector.remaining == old(injector.remaining) - d
            && c'.recoveryTimeouts == c.recoveryTimeouts + (if d == 2 then 1 else 0)
            && (if d == 2 then c'.phase.Ended? else c'.phase.BeforePoll?)
  {
    Labels(injector.direction);
    var dropped := injector.ShouldDrop(TX_LABEL);
    c' := Next(c, FrameTaken(frame, dropped));
    var answer := Ok(c'.phase.request.stamp);
    if !dropped {
      c' := Next(c', TxEvent(Done(Primary, answer, times.primary), false));
    } else {
      var backupDropped := injector.ShouldDrop(TX_LABEL + " backup");
      c' := Next(c', TxEvent(WarningFires(STALL_THRESHOLD), backupDropped));
      if backupDropped {
        c' := Next(c', TxEvent(RecoveryFires(RECOVERY_TIMEOUT), false));
      } else {
        c' := Next(c', TxEvent(Done(Backup, answer, times.backup), false));
      }
    }
  }

  method RxTransaction(c: Client, injector: EndpointFaultInjector, frame: Option<Frame>, times: Times)
    returns (c': Client)
    requires times.Prompt() && c.recovery && (c.phase.AtLoopHead? || c.phase.BeforePoll?) && injector.Valid()
    modifies injector
    ensures injector.Valid() && c'.recovery
    ensures var d := Dropped(!injector.direction.Tx?, old(injector.remaining));
            && injector.remaining == old(injector.remaining) - d
            && c'.recoveryTimeouts == c.recoveryTimeouts + (if d == 2 then 1 else 0)
            && (if d == 2 then c'.phase.Ended? else c'.phase.AtLoopHead?)
  {
    Labels(injector.direction);
    var dropped := injector.ShouldDrop(RX_LABEL);
    c' := Next(c, if c.phase.AtLoopHead? then NoFrame(dropped) else PollNext(dropped));
    var answer := Ok(RxResponse(c'.phase.poll, frame));
    if !dropped {
      c' := Next(c', RxEvent(Done(Primary, answer, times.primary), false));
    } else {
      var backupDropped := injector.ShouldDrop(RX_LABEL + " backup");
      c' := Next(c', RxEvent(WarningFires(STALL_THRESHOLD), backupDropped));
      if backupDropped {
        c' := Next(c', RxEvent(RecoveryFires(RECOVERY_TIMEOUT), false));
      } else {
        c' := Next(c', RxEvent(Done(Backup, answer, times.backup), false));
      }
    }
  }

  /** The rounds in which the setting finds a transaction to act on. */
  function Exposed(direction: FaultDirection, rounds: seq<Round>): nat {
    if rounds == [] then 0
    else
      var n := |rounds| - 1;
      Exposed(direction, rounds[..n]) + (if direction.Tx? && rounds[n].frame.None? then 0 else 1)
  }

  /**
   * The exchange in hot-plug mode on a prompt link. Drops come in pairs, each pair costs one
   * session, and a last odd drop costs none: the recoveries are half the drops, rounded
   * down. With enough rounds the budget is used up, and they are half the budget.
   */
  method PromptExchange(injector: EndpointFaultInjector, session: SessionId, rounds: seq<Round>)
    returns (c: Client)
    requires injector.Valid() && injector.remaining == injector.budget
    requires forall i :: 0 <= i < |rounds| && rounds[i].frame.Some? ==> InSize(rounds[i].frame.value)
    requires forall i :: 0 <= i < |rounds| ==> rounds[i].tx.Prompt() && rounds[i].rx.Prompt()
    modifies injector
    ensures injector.Valid() && c.recoveryTimeouts == injector.drops / 2
    ensures 2 * Exposed(injector.direction, rounds) >= injector.budget ==>
              injector.remaining == 0 && c.recoveryTimeouts == injector.budget / 2
  {
    c := Start(session, true);
    var i := 0;
    while i < |rounds|
      invariant 0 <= i <= |rounds| && injector.Valid() && c.recovery && c.phase.AtLoopHead?
      invariant c.recoveryTimeouts == injector.drops / 2
      invariant injector.remaining == 0 || injector.drops % 2 == 0
      invariant injector.remaining == 0 || injector.drops >= 2 * Exposed(injector.direction, rounds[..i])
    {
      assert rounds[..i + 1][..i] == rounds[..i];
      if rounds[i].frame.Some? {
        c := TxTransaction(c, injector, rounds[i].frame.value, rounds[i].tx);
      }
      if !c.phase.Ended? {
        c := RxTransaction(c, injector, rounds[i].answer, rounds[i].rx);
      }
      if c.phase.Ended? {
        c := Next(c, NewSession(rounds[i].nextSession));
      }
      i := i + 1;
    }
    assert rounds[..i] == rounds;
  }
}
