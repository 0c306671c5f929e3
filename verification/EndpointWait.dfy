/**
 * Waiting for one endpoint response: a race of the primary request, one backup request, a
 * recovery deadline and cancellation, as the sequence of events the `select!` loops see.
 */
module EndpointWait {
  import opened Wire

  /** `ENDPOINT_STALL_THRESHOLD` and the serial transport's recovery timeout, in milliseconds. */
  const STALL_THRESHOLD: nat := 250
  const RECOVERY_TIMEOUT: nat := 5000

  datatype Result<+T> = Ok(response: T) | Err

  datatype Source = Primary | Backup

  /** Something a `select!` branch can observe, and the time since the wait started. */
  datatype Event<+T> =
    | Done(source: Source, result: Result<T>, now: nat)
    | WarningFires(now: nat)
    | RecoveryFires(now: nat)
    | CancelSeen(now: nat)

  datatype Outcome<+T> =
    | Completed(result: Result<T>, stalledFor: Option<nat>, backupSent: bool, discardedErrors: nat)
    | RecoveryRequired(after: nat)
    | Cancelled

  /** Where the wait stands: before the backup, racing, one request left, or over. */
  datatype Wait<+T> =
    | OnlyPrimary
    | Racing
    | Left(source: Source)
    | Over(outcome: Outcome<T>)

  // ---------------------------------------------------------------- Specification

  /** A branch of the current `select!` waits for this event. */
  predicate Awaited<T>(wait: Wait<T>, event: Event<T>, recovery: bool) {
    !wait.Over? &&
    match event
    case Done(source, _, _) =>
      (wait.OnlyPrimary? && source.Primary?) || wait.Racing? || wait == Left(source)
    case RecoveryFires(_) => recovery
    case _ => true
  }

  function Advance<T>(wait: Wait<T>, event: Event<T>, recovery: bool): Wait<T> {
    if !Awaited(wait, event, recovery) then wait
    else match event
      case WarningFires(_) => if wait.OnlyPrimary? then Racing else wait
      case RecoveryFires(now) => Over(RecoveryRequired(now))
      case CancelSeen(_) => Over(Cancelled)
      case Done(source, result, now) =>
        match wait
        case OnlyPrimary => Over(Completed(result, None, false, 0))
        case Racing =>
          if result.Ok? then Over(Completed(result, Some(now), true, 0))
          else Left(if source.Primary? then Backup else Primary)
        case _ => Over(Completed(result, Some(now), true, 1))
  }

  /** The wait after these events; `recovery` says whether a recovery deadline is set. */
  function After<T>(events: seq<Event<T>>, recovery: bool): Wait<T> {
    if events == [] then OnlyPrimary
    else Advance(After(events[..|events| - 1], recovery), events[|events| - 1], recovery)
  }

  // ---------------------------------------------------------------- The loops

  lemma Prefix<T>(events: seq<Event<T>>, i: nat, recovery: bool)
    requires i < |events|
    ensures After(events[..i + 1], recovery) == Advance(After(events[..i], recovery), events[i], recovery)
  {
    assert events[..i + 1][..i] == events[..i];
  }

  lemma {:induction false} OverStays<T>(events: seq<Event<T>>, i: nat, recovery: bool)
    requires i <= |events| && After(events[..i], recovery).Over?
    ensures After(events, recovery) == After(events[..i], recovery)
    decreases |events|
  {
    if i < |events| {
      var n := |events| - 1;
      assert events[..n][..i] == events[..i];
      OverStays(events[..n], i, recovery);
    } else {
      assert events[..i] == events;
    }
  }

  lemma NotOverBefore<T>(events: seq<Event<T>>, n: nat, recovery: bool)
    requires n <= |events| && !After(events[..n], recovery).Over?
    ensures forall i :: 0 <= i <= n ==> !After(events[..i], recovery).Over?
  {
    forall i | 0 <= i <= n ensures !After(events[..i], recovery).Over? {
      if After(events[..i], recovery).Over? {
        assert events[..n][..i] == events[..i];
        OverStays(events[..n], i, recovery);
      }
    }
  }

  /** After the first `used` events the wait stands like this, and it was not over before the last. */
  ghost predicate Followed<T>(events: seq<Event<T>>, used: nat, wait: Wait<T>, recovery: bool) {
    && used <= |events| && wait == After(events[..used], recovery)
    && (used > 0 ==> !After(events[..used - 1], recovery).Over?)
  }

  lemma Follow<T>(events: seq<Event<T>>, used: nat, wait: Wait<T>, recovery: bool)
    requires Followed(events, used, wait, recovery) && !wait.Over? && used < |events|
    ensures Followed(events, used + 1, Advance(wait, events[used], recovery), recovery)
  {
    hide Advance;
    Prefix(events, used, recovery);
  }

  /**
   * The wait as the host runs it: a `select!` on the primary, a loop racing primary and
   * backup, and a loop on whichever of the two is left. The method stops at the event that
   * decides the outcome; the wait is not over only when the events ran out.
   */
  method AwaitEndpointResponse<T>(events: seq<Event<T>>, recovery: bool)
    returns (wait: Wait<T>, used: nat)
    ensures used <= |events|
    ensures wait == After(events, recovery) && wait == After(events[..used], recovery)
    ensures !wait.Over? ==> used == |events|
    ensures forall i :: 0 <= i < used ==> !After(events[..i], recovery).Over?
  {
    hide After, Followed;
    wait, used := OnlyPrimary, 0;
    assert Followed(events, 0, wait, recovery) by { NothingFollowed(events, recovery); }
    while used < |events| && wait.OnlyPrimary?
      invariant 0 <= used <= |events| && Followed(events, used, wait, recovery)
      invariant wait.OnlyPrimary? || wait.Racing? || wait.Over?
    {
      Follow(events, used, wait, recovery);
      match events[used] {
        case Done(Primary, result, _) => wait := Over(Completed(result, None, false, 0));
        case WarningFires(_) => wait := Racing;
        case RecoveryFires(now) => if recovery { wait := Over(RecoveryRequired(now)); }
        case CancelSeen(_) => wait := Over(Cancelled);
        case Done(Backup, _, _) =>
      }
      used := used + 1;
    }
    while used < |events| && wait.Racing?
      invariant 0 <= used <= |events| && Followed(events, used, wait, recovery)
      invariant wait.OnlyPrimary? ==> used == |events|
    {
      Follow(events, used, wait, recovery);
      match events[used] {
        case Done(_, Ok(response), now) => wait := Over(Completed(Ok(response), Some(now), true, 0));
        case Done(source, Err, _) => wait := Left(if source.Primary? then Backup else Primary);
        case RecoveryFires(now) => if recovery { wait := Over(RecoveryRequired(now)); }
        case CancelSeen(_) => wait := Over(Cancelled);
        case WarningFires(_) =>
      }
      used := used + 1;
    }
    while used < |events| && wait.Left?
      invariant 0 <= used <= |events| && Followed(events, used, wait, recovery)
      invariant wait.OnlyPrimary? || wait.Racing? ==> used == |events|
    {
      Follow(events, used, wait, recovery);
      match events[used] {
        case Done(source, result, now) =>
          if source == wait.source { wait := Over(Completed(result, Some(now), true, 1)); }
        case RecoveryFires(now) => if recovery { wait := Over(RecoveryRequired(now)); }
        case CancelSeen(_) => wait := Over(Cancelled);
        case WarningFires(_) =>
      }
      used := used + 1;
    }
    FollowedToTheEnd(events, used, wait, recovery);
  }

  lemma NothingFollowed<T>(events: seq<Event<T>>, recovery: bool)
    ensures Followed(events, 0, OnlyPrimary, recovery)
  {
  }

  lemma FollowedToTheEnd<T>(events: seq<Event<T>>, used: nat, wait: Wait<T>, recovery: bool)
    requires Followed(events, used, wait, recovery) && (!wait.Over? ==> used == |events|)
    ensures wait == After(events, recovery) == After(events[..used], recovery)
    ensures forall i :: 0 <= i < used ==> !After(events[..i], recovery).Over?
  {
    if wait.Over? {
      OverStays(events, used, recovery);
    } else {
      assert events[..used] == events;
    }
    if used > 0 { NotOverBefore(events, used - 1, recovery); }
  }

  // ---------------------------------------------------------------- What an observer counts

  /** What happened during a wait, counted from the awaited events alone. */
  datatype Tally = Tally(backups: nat, primaryFailed: bool, backupFailed: bool, succeeded: bool, lastTime: nat)

  function Note<T>(t: Tally, wait: Wait<T>, event: Event<T>): Tally {
    var t := t.(lastTime := event.now);
    match event
    case WarningFires(_) => if wait.OnlyPrimary? then t.(backups := t.backups + 1) else t
    case Done(_, Ok(_), _) => t.(succeeded := true)
    case Done(Primary, Err, _) => t.(primaryFailed := true)
    case Done(Backup, Err, _) => t.(backupFailed := true)
    case _ => t
  }

  function Count<T>(events: seq<Event<T>>, recovery: bool): Tally {
    if events == [] then Tally(0, false, false, false, 0)
    else
      var n := |events| - 1;
      var t, wait := Count(events[..n], recovery), After(events[..n], recovery);
      if Awaited(wait, events[n], recovery) then Note(t, wait, events[n]) else t
  }

  function FailedRequests(t: Tally): nat {
    (if t.primaryFailed then 1 else 0) + (if t.backupFailed then 1 else 0)
  }

  /** The outcome reports what the observer counted, whatever the order of the events. */
  ghost predicate Faithful<T>(wait: Wait<T>, t: Tally, recovery: bool) {
    match wait
    case OnlyPrimary => t.backups == 0 && FailedRequests(t) == 0 && !t.succeeded
    case Racing => t.backups == 1 && FailedRequests(t) == 0 && !t.succeeded
    case Left(source) =>
      && t.backups == 1 && !t.succeeded
      && t.primaryFailed == source.Backup? && t.backupFailed == source.Primary?
    case Over(Completed(result, stalled, backup, discarded)) =>
      && t.backups == (if backup then 1 else 0)
      && (stalled.Some? <==> backup)
      && (stalled.Some? ==> stalled.value == t.lastTime)
      && t.succeeded == result.Ok?
      && discarded + (if result.Err? then 1 else 0) == FailedRequests(t)
      && (result.Err? ==> t.primaryFailed && t.backupFailed == backup)
    case Over(RecoveryRequired(after)) =>
      recovery && !t.succeeded && after == t.lastTime && t.backups <= 1
    case Over(Cancelled) => !t.succeeded && t.backups <= 1
  }

  lemma FaithfulStep<T>(wait: Wait<T>, t: Tally, event: Event<T>, recovery: bool)
    requires Faithful(wait, t, recovery) && Awaited(wait, event, recovery)
    ensures Faithful(Advance(wait, event, recovery), Note(t, wait, event), recovery)
  {
  }

  /**
   * Every wait, on every sequence of events: at most one backup; the stall time is reported
   * exactly when the backup was sent; an error is final only when the primary failed before
   * the stall threshold or both requests failed; discarded errors and the final one are the
   * failed requests; recovery never follows a success, and needs a recovery deadline.
   */
  lemma {:induction false} WaitIsFaithful<T>(events: seq<Event<T>>, recovery: bool)
    ensures Faithful(After(events, recovery), Count(events, recovery), recovery)
  {
    if events != [] {
      var n := |events| - 1;
      WaitIsFaithful(events[..n], recovery);
      if Awaited(After(events[..n], recovery), events[n], recovery) {
        FaithfulStep(After(events[..n], recovery), Count(events[..n], recovery), events[n], recovery);
      }
    }
  }

  /** Without a deadline, as on NUSB, recovery is never required. */
  lemma NoDeadlineNoRecovery<T>(events: seq<Event<T>>)
    ensures var wait := After(events, false); wait.Over? ==> !wait.outcome.RecoveryRequired?
  {
  }

  // ---------------------------------------------------------------- Timers

  /** Times do not go back, and timers fire no earlier than they are set for. */
  ghost predicate Timed<T>(events: seq<Event<T>>) {
    && (forall i, j :: 0 <= i < j < |events| ==> events[i].now <= events[j].now)
    && (forall i :: 0 <= i < |events| && events[i].WarningFires? ==> events[i].now >= STALL_THRESHOLD)
    && (forall i :: 0 <= i < |events| && events[i].RecoveryFires? ==> events[i].now >= RECOVERY_TIMEOUT)
  }

  /** The stall timer, which is set for an earlier time, is seen before the recovery timer. */
  ghost predicate InDeadlineOrder<T>(events: seq<Event<T>>) {
    forall j :: 0 <= j < |events| && events[j].RecoveryFires? ==>
      exists i :: 0 <= i < j && events[i].WarningFires?
  }

  /** A reported stall lasted at least the threshold, and recovery waits for its deadline. */
  lemma {:induction false} StallTimes<T>(events: seq<Event<T>>, recovery: bool)
    requires Timed(events)
    ensures var wait := After(events, recovery);
            && (wait.Racing? || wait.Left? ==> events != [] && events[|events| - 1].now >= STALL_THRESHOLD)
            && (wait.Over? && wait.outcome.RecoveryRequired? ==> wait.outcome.after >= RECOVERY_TIMEOUT)
            && (wait.Over? && wait.outcome.Completed? && wait.outcome.stalledFor.Some? ==>
                  wait.outcome.stalledFor.value >= STALL_THRESHOLD)
  {
    if events != [] {
      var n := |events| - 1;
      StallTimes(events[..n], recovery);
    }
  }

  /** After a warning the wait is no longer on the primary alone. */
  lemma {:induction false} WarnedIsNotFirst<T>(events: seq<Event<T>>, recovery: bool, i: nat)
    requires i < |events| && events[i].WarningFires?
    ensures !After(events, recovery).OnlyPrimary?
    decreases |events|
  {
    var n := |events| - 1;
    if i < n {
      WarnedIsNotFirst(events[..n], recovery, i);
    }
  }

  /** With timers seen in deadline order, the recovery timer never finds the primary alone. */
  lemma RecoveryIsNotFirst<T>(events: seq<Event<T>>, recovery: bool, i: nat)
    requires InDeadlineOrder(events) && i < |events| && events[i].RecoveryFires?
    ensures !After(events[..i], recovery).OnlyPrimary?
  {
    var w :| 0 <= w < i && events[w].WarningFires?;
    WarnedIsNotFirst(events[..i], recovery, w);
  }

  /** With timers seen in deadline order, recovery is required only after the backup was sent. */
  lemma {:induction false} RecoveryFollowsBackup<T>(events: seq<Event<T>>, recovery: bool)
    requires InDeadlineOrder(events)
    requires After(events, recovery).Over? && After(events, recovery).outcome.RecoveryRequired?
    ensures Count(events, recovery).backups == 1
    decreases |events|
  {
    var n := |events| - 1;
    var rest := events[..n];
    if After(rest, recovery).Over? {
      RecoveryFollowsBackup(rest, recovery);
    } else {
      RecoveryIsNotFirst(events, recovery, n);
      WaitIsFaithful(rest, recovery);
    }
  }

  // ---------------------------------------------------------------- What decides a wait

  /** The stall timer fired among the first `n` events. */
  ghost predicate Warned<T>(events: seq<Event<T>>, n: nat)
    requires n <= |events|
  {
    exists i :: 0 <= i < n && events[i].WarningFires?
  }

  ghost predicate PrimaryFailed<T>(events: seq<Event<T>>, n: nat)
    requires n <= |events|
  {
    exists i :: 0 <= i < n && events[i].Done? && events[i].source.Primary? && events[i].result.Err?
  }

  /** The backup, which exists only after the stall timer, failed. */
  ghost predicate BackupFailed<T>(events: seq<Event<T>>, n: nat)
    requires n <= |events|
  {
    exists i :: 0 <= i < n && events[i].Done? && events[i].source.Backup? && events[i].result.Err? && Warned(events, i)
  }

  /** Some request is out that event `i` can be the end of. */
  ghost predicate Concerns<T>(events: seq<Event<T>>, i: nat)
    requires i < |events| && events[i].Done?
  {
    if events[i].source.Primary? then !PrimaryFailed(events, i) else Warned(events, i) && !BackupFailed(events, i)
  }

  /**
   * Event `i` decides the wait, if nothing before it did: a cancellation, the recovery
   * deadline if one is set, a success, or the failure of the last request that is out.
   * This looks at the events alone.
   */
  ghost predicate Decides<T>(events: seq<Event<T>>, i: nat, recovery: bool)
    requires i < |events|
  {
    match events[i]
    case CancelSeen(_) => true
    case RecoveryFires(_) => recovery
    case WarningFires(_) => false
    case Done(source, result, _) =>
      && Concerns(events, i)
      && (result.Ok? || !Warned(events, i) ||
          (if source.Primary? then BackupFailed(events, i) else PrimaryFailed(events, i)))
  }

  /** What the wait reports if event `i` decides it. */
  ghost function OutcomeAt<T>(events: seq<Event<T>>, i: nat): Outcome<T>
    requires i < |events| && !events[i].WarningFires?
  {
    match events[i]
    case CancelSeen(_) => Cancelled
    case RecoveryFires(now) => RecoveryRequired(now)
    case Done(_, result, now) =>
      var failures := (if PrimaryFailed(events, i) then 1 else 0) + (if BackupFailed(events, i) then 1 else 0);
      Completed(result, if Warned(events, i) then Some(now) else None, Warned(events, i), failures)
  }

  /** Where the wait stands: stall timer fired, primary failed, backup failed. */
  function StandingOf<T>(warned: bool, primaryFailed: bool, backupFailed: bool): Wait<T> {
    if !warned then OnlyPrimary
    else if primaryFailed then Left(Backup)
    else if backupFailed then Left(Primary)
    else Racing
  }

  /** Where the wait stands as long as nothing decided it. */
  ghost function Standing<T>(events: seq<Event<T>>): Wait<T> {
    var n := |events|;
    StandingOf(Warned(events, n), PrimaryFailed(events, n), BackupFailed(events, n))
  }

  /** None of the first `n` events decides the wait. */
  ghost predicate NoneDecides<T>(events: seq<Event<T>>, n: nat, recovery: bool)
    requires n <= |events|
  {
    forall i :: 0 <= i < n ==> !Decides(events, i, recovery)
  }

  /** What was seen before does not depend on what comes later. */
  lemma PrefixSees<T>(events: seq<Event<T>>, n: nat, i: nat)
    requires i <= n <= |events|
    ensures Warned(events[..n], i) == Warned(events, i)
    ensures PrimaryFailed(events[..n], i) == PrimaryFailed(events, i)
    ensures BackupFailed(events[..n], i) == BackupFailed(events, i)
  {
    forall k | 0 <= k < n ensures Warned(events[..n], k) == Warned(events, k) && events[..n][k] == events[k] {
      forall j | 0 <= j < k ensures events[..n][j] == events[j] {}
    }
    forall j | 0 <= j < i ensures events[..n][j] == events[j] {}
  }

  lemma PrefixDecides<T>(events: seq<Event<T>>, n: nat, i: nat, recovery: bool)
    requires i < n <= |events|
    ensures Decides(events[..n], i, recovery) == Decides(events, i, recovery)
  {
    PrefixSees(events, n, i);
    assert events[..n][i] == events[i];
  }

  lemma SeesNext<T>(events: seq<Event<T>>, n: nat)
    requires n < |events|
    ensures Warned(events, n + 1) == (Warned(events, n) || events[n].WarningFires?)
    ensures PrimaryFailed(events, n + 1)
            == (PrimaryFailed(events, n) || (events[n].Done? && events[n].source.Primary? && events[n].result.Err?))
    ensures BackupFailed(events, n + 1)
            == (BackupFailed(events, n) ||
                (events[n].Done? && events[n].source.Backup? && events[n].result.Err? && Warned(events, n)))
  {
  }

  /** A failure is on record only after the stall timer, and never both. */
  predicate Open(warned: bool, primaryFailed: bool, backupFailed: bool) {
    (primaryFailed || backupFailed ==> warned) && !(primaryFailed && backupFailed)
  }

  lemma AdvanceStanding<T>(events: seq<Event<T>>, n: nat, recovery: bool)
    requires n < |events| && Open(Warned(events, n), PrimaryFailed(events, n), BackupFailed(events, n))
    ensures var wait := StandingOf(Warned(events, n), PrimaryFailed(events, n), BackupFailed(events, n));
            if Decides(events, n, recovery) then
              Advance(wait, events[n], recovery) == Over(OutcomeAt(events, n))
            else
              var w, p, b := Warned(events, n + 1), PrimaryFailed(events, n + 1), BackupFailed(events, n + 1);
              Open(w, p, b) && Advance(wait, events[n], recovery) == StandingOf(w, p, b)
  {
    SeesNext(events, n);
    hide Warned, PrimaryFailed, BackupFailed;
  }

  /** As long as nothing decided the wait, it stands where the observer says. */
  lemma {:induction false} UndecidedStands<T>(events: seq<Event<T>>, recovery: bool)
    requires NoneDecides(events, |events|, recovery)
    ensures After(events, recovery) == Standing(events)
    ensures var n := |events|; Open(Warned(events, n), PrimaryFailed(events, n), BackupFailed(events, n))
  {
    hide Decides, Advance;
    if events != [] {
      var n := |events| - 1;
      forall i | 0 <= i < n ensures !Decides(events[..n], i, recovery) { PrefixDecides(events, n, i, recovery); }
      UndecidedStands(events[..n], recovery);
      PrefixSees(events, n, n);
      hide Warned, PrimaryFailed, BackupFailed;
      AdvanceStanding(events, n, recovery);
    }
  }

  /**
   * The wait, on every sequence of events: the first event that decides it gives the
   * outcome, and until then it goes on. `Decides` and `OutcomeAt` look at events alone.
   */
  lemma FirstDecisionCounts<T>(events: seq<Event<T>>, i: nat, recovery: bool)
    requires i < |events| && NoneDecides(events, i, recovery) && Decides(events, i, recovery)
    ensures After(events, recovery) == Over(OutcomeAt(events, i))
  {
    hide Decides, Advance, OutcomeAt;
    forall k | 0 <= k < i ensures !Decides(events[..i], k, recovery) { PrefixDecides(events, i, k, recovery); }
    UndecidedStands(events[..i], recovery);
    PrefixSees(events, i, i);
    hide Warned, PrimaryFailed, BackupFailed;
    AdvanceStanding(events, i, recovery);
    Prefix(events, i, recovery);
    OverStays(events, i + 1, recovery);
  }

  lemma {:induction false} SomeFirstDecision<T>(events: seq<Event<T>>, n: nat, recovery: bool) returns (i: nat)
    requires n <= |events| && !NoneDecides(events, n, recovery)
    ensures i < n && NoneDecides(events, i, recovery) && Decides(events, i, recovery)
  {
    hide Decides;
    if NoneDecides(events, n - 1, recovery) {
      i := n - 1;
    } else {
      i := SomeFirstDecision(events, n - 1, recovery);
    }
  }

  /** A wait is over if and only if some event decided it. */
  lemma OverIffDecided<T>(events: seq<Event<T>>, recovery: bool)
    ensures After(events, recovery).Over? <==> exists i :: 0 <= i < |events| && Decides(events, i, recovery)
  {
    hide Decides, OutcomeAt, After, Warned, PrimaryFailed, BackupFailed;
    if NoneDecides(events, |events|, recovery) {
      UndecidedStands(events, recovery);
    } else {
      var i := SomeFirstDecision(events, |events|, recovery);
      FirstDecisionCounts(events, i, recovery);
    }
  }

  /** Cancellation always ends a wait, and so does the recovery deadline where one is set. */
  lemma AlwaysEnds<T>(events: seq<Event<T>>, i: nat, recovery: bool)
    requires i < |events| && (events[i].CancelSeen? || (recovery && events[i].RecoveryFires?))
    ensures After(events, recovery).Over?
  {
    assert Decides(events, i, recovery);
    OverIffDecided(events, recovery);
  }

  /** A wait is cancelled only if a cancellation was seen. */
  lemma CancelledOnlyIfSeen<T>(events: seq<Event<T>>, recovery: bool)
    requires After(events, recovery) == Over(Cancelled)
    ensures exists i :: 0 <= i < |events| && events[i].CancelSeen?
  {
    hide After, Warned, PrimaryFailed, BackupFailed;
    OverIffDecided(events, recovery);
    var i := SomeFirstDecision(events, |events|, recovery);
    FirstDecisionCounts(events, i, recovery);
    assert events[i].CancelSeen?;
  }
}
