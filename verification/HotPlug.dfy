/** The life of the hot-plug supervisor: one TAP device, many sessions, one at a time. */
module HotPlug {
  import opened Wire

  type Mac = m: seq<Byte> | |m| == 6 witness [0, 0, 0, 0, 0, 0]

  /** What becomes of one device the supervisor found. */
  datatype Attempt =
    | RegisterFails
    | MacQueryFails
    | PeerUnresolved(mac: Mac)
    | Connects(mac: Mac, tapCreated: bool, shutdown: bool)   // `shutdown`: cancelled when it ends

  /** The address the TAP device gets: that of the first device that connects. */
  function FirstMac(attempts: seq<Attempt>): Option<Mac> {
    if attempts == [] then None
    else
      var n := |attempts| - 1;
      var earlier := FirstMac(attempts[..n]);
      if earlier.None? && attempts[n].Connects? then Some(attempts[n].mac) else earlier
  }

  /** It is the address of the first that connects, whatever comes later. */
  lemma {:induction false} FirstMacIsFirst(attempts: seq<Attempt>, i: nat)
    requires i < |attempts| && attempts[i].Connects? && forall j :: 0 <= j < i ==> !attempts[j].Connects?
    ensures FirstMac(attempts) == Some(attempts[i].mac)
    decreases |attempts|
  {
    var n := |attempts| - 1;
    if i < n {
      FirstMacIsFirst(attempts[..n], i);
    } else {
      NoMacYet(attempts[..n]);
    }
  }

  lemma {:induction false} NoMacYet(attempts: seq<Attempt>)
    requires forall j :: 0 <= j < |attempts| ==> !attempts[j].Connects?
    ensures FirstMac(attempts).None? && Connections(attempts) == 0
  {
    if attempts != [] {
      NoMacYet(attempts[..|attempts| - 1]);
    }
  }

  function Connections(attempts: seq<Attempt>): nat {
    if attempts == [] then 0
    else
      var n := |attempts| - 1;
      Connections(attempts[..n]) + (if attempts[n].Connects? then 1 else 0)
  }

  /** Attempts after which the supervisor waits a second; an unresolved peer is retried at once. */
  function Pauses(attempts: seq<Attempt>): nat {
    if attempts == [] then 0
    else
      var n := |attempts| - 1;
      Pauses(attempts[..n]) + (if attempts[n].PeerUnresolved? then 0 else 1)
  }

  function Unresolved(attempts: seq<Attempt>): nat {
    if attempts == [] then 0
    else
      var n := |attempts| - 1;
      Unresolved(attempts[..n]) + (if attempts[n].PeerUnresolved? then 1 else 0)
  }

  /** The supervisor pauses after every attempt but those whose peer was not resolved. */
  lemma {:induction false} PausesAreTheRest(attempts: seq<Attempt>)
    ensures Pauses(attempts) + Unresolved(attempts) == |attempts|
  {
    if attempts != [] {
      PausesAreTheRest(attempts[..|attempts| - 1]);
    }
  }

  /** One more attempt. */
  lemma AttemptNext(done: seq<Attempt>, a: Attempt)
    ensures FirstMac(done + [a]) == if FirstMac(done).None? && a.Connects? then Some(a.mac) else FirstMac(done)
    ensures Connections(done + [a]) == Connections(done) + (if a.Connects? then 1 else 0)
    ensures Pauses(done + [a]) == Pauses(done) + (if a.PeerUnresolved? then 0 else 1)
  {
    assert (done + [a])[..|done|] == done;
  }

  lemma NoPauses()
    ensures Pauses([]) == 0
  {
  }

  /** The supervisor stops at this attempt. */
  predicate Stops(attempts: seq<Attempt>, n: nat)
    requires n < |attempts|
  {
    attempts[n].Connects? && (attempts[n].shutdown || TapFails(attempts, n))
  }

  /** The first device connects and its TAP device cannot be created. */
  predicate TapFails(attempts: seq<Attempt>, n: nat)
    requires n < |attempts|
  {
    attempts[n].Connects? && FirstMac(attempts[..n]).None? && !attempts[n].tapCreated
  }

  class Supervisor {
    var expectedMac: Option<Mac>
    var tap: Option<Mac>
    var connectedOnce: bool
    var reconnects: nat                 // a metric
    ghost var taps: nat                 // TAP devices created
    ghost var cancelled: seq<bool>      // the token of each session
    ghost var pauses: nat

    constructor ()
      ensures Between([])
    {
      expectedMac, tap, connectedOnce, reconnects := None, None, false, 0;
      taps, cancelled, pauses := 0, [], 0;
    }

    /** Between two attempts: no session is left running, and the fields tell what happened. */
    ghost predicate Between(done: seq<Attempt>)
      reads this`expectedMac, this`tap, this`connectedOnce, this`reconnects, this`taps, this`cancelled
    {
      && tap == expectedMac == FirstMac(done)
      && taps == (if tap.Some? then 1 else 0)
      && (forall k :: 0 <= k < |cancelled| ==> cancelled[k])
      && |cancelled| == Connections(done)
      && connectedOnce == (|cancelled| > 0) == tap.Some?
      && reconnects == (if |cancelled| > 0 then |cancelled| - 1 else 0)
    }

    lemma BetweenWithout(done: seq<Attempt>, a: Attempt)
      requires Between(done) && !a.Connects?
      ensures Between(done + [a])
    {
      AttemptNext(done, a);
    }

    lemma OneTap(done: seq<Attempt>)
      requires Between(done)
      ensures taps <= 1
    {
    }

    /** Start a session. Those before it are over. */
    method StartSession()
      requires forall k :: 0 <= k < |cancelled| ==> cancelled[k]
      modifies this`connectedOnce, this`reconnects, this`cancelled
      ensures connectedOnce && reconnects == old(reconnects) + (if old(connectedOnce) then 1 else 0)
      ensures cancelled == old(cancelled) + [false]
    {
      if connectedOnce {
        reconnects := reconnects + 1;
      } else {
        connectedOnce := true;
      }
      cancelled := cancelled + [false];
    }

    /** Run one session, on the first connection after creating the TAP device. */
    method Connect(mac: Mac, tapCreated: bool, ghost shutdown: bool, ghost done: seq<Attempt>) returns (ok: bool)
      requires Between(done)
      modifies this`expectedMac, this`tap, this`connectedOnce, this`reconnects, this`taps, this`cancelled
      ensures ok == !(FirstMac(done).None? && !tapCreated)
      ensures ok ==> Between(done + [Connects(mac, tapCreated, shutdown)])
      ensures !ok ==> tap.None? && taps == 0 && cancelled == [] && expectedMac == Some(mac)
    {
      if expectedMac.None? {
        expectedMac := Some(mac);
        if !tapCreated {
          return false;
        }
        tap := Some(mac);
        taps := taps + 1;
      }
      StartSession();
      cancelled := cancelled[|cancelled| - 1 := true];
      AttemptNext(done, Connects(mac, tapCreated, shutdown));
      ok := true;
    }

    /**
     * The supervisor's loop, until it is shut down, a TAP device cannot be created, or no
     * more devices come. It handles the attempts in order and stops at the first that stops
     * it. In between the TAP device is there exactly if a device has connected, it was
     * created once, for the first address, and later addresses do not matter; recorded
     * reconnects are the sessions but one; and every token is cancelled before the next
     * session starts.
     */
    method Supervise(attempts: seq<Attempt>) returns (ok: bool, handled: nat)
      requires Between([]) && pauses == 0
      modifies this
      ensures handled <= |attempts| && taps <= 1
      ensures forall i :: 0 <= i < handled - 1 ==> !Stops(attempts, i)
      ensures ok ==> Between(attempts[..handled])
      ensures ok ==> handled == |attempts| || (handled > 0 && Stops(attempts, handled - 1))
      ensures !ok <==> handled > 0 && TapFails(attempts, handled - 1)
      ensures !ok ==> tap.None? && taps == 0 && cancelled == []
      ensures pauses == Pauses(attempts[..handled])
                        - (if handled > 0 && Stops(attempts, handled - 1) then 1 else 0)
    {
      hide FirstMac, Connections, Pauses, Between;
      ok, handled := true, 0;
      assert attempts[..0] == [] && Pauses([]) == 0 by { NoPauses(); }
      while handled < |attempts|
        invariant 0 <= handled <= |attempts| && ok && Between(attempts[..handled])
        invariant forall i :: 0 <= i < handled ==> !Stops(attempts, i)
        invariant pauses == Pauses(attempts[..handled])
      {
        var attempt := attempts[handled];
        ghost var done := attempts[..handled];
        assert attempts[..handled + 1] == done + [attempt];
        AttemptNext(done, attempt);
        handled := handled + 1;
        if attempt.Connects? {
          ok := Connect(attempt.mac, attempt.tapCreated, attempt.shutdown, done);
          if !ok || attempt.shutdown {
            if ok { OneTap(done + [attempt]); }
            return;
          }
        } else {
          BetweenWithout(done, attempt);
          if attempt.PeerUnresolved? {
            continue;
          }
        }
        pauses := pauses + 1;
      }
      OneTap(attempts[..handled]);
      assert handled > 0 ==> !Stops(attempts, handled - 1);
    }
  }
}
