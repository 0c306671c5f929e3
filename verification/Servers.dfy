/** The server loops of the firmware, proved to be the one-slot servers of `OneSlot`. */
module Servers {
  import opened Wire
  import opened Protocol
  import opened OneSlot

  /**
   * The TX server loop: transmit and remember a request that differs from the remembered
   * one, and answer every request. It transmits what the one-slot server acts on.
   */
  method WifiTxServer(requests: seq<TxRequest>) returns (responses: seq<Stamp>, transmitted: seq<TxRequest>)
    ensures responses == Stamps(requests)
    ensures transmitted == ActedOn(requests, OneSlotServer(Stamps(requests), Nothing(|requests|)).acted)
  {
    hide OneSlotServer, ActedOn;
    var lastCompleted: Option<Transaction> := None;
    responses, transmitted := [], [];
    ghost var seen: seq<TxRequest>, units: seq<()> := [], [];
    assert ActedOn(seen, OneSlotServer(responses, units).acted) == [] by { NothingSeen(seen, responses, units); }
    var i := 0;
    while i < |requests|
      invariant 0 <= i <= |requests| && seen == requests[..i] && |responses| == i && units == Nothing(i)
      invariant forall k :: 0 <= k < i ==> responses[k] == requests[k].stamp
      invariant lastCompleted == if i == 0 then None else Some(responses[i - 1].transaction)
      invariant transmitted == ActedOn(seen, OneSlotServer(responses, units).acted)
    {
      var request := requests[i];
      var acts := lastCompleted != Some(request.stamp.transaction);
      OneSlotNext(responses, units, request.stamp, ());
      ActedOnNext(seen, OneSlotServer(responses, units).acted, request, acts);
      if acts {
        transmitted := transmitted + [request];
        lastCompleted := Some(request.stamp.transaction);
      }
      assert Nothing(i) + [()] == Nothing(i + 1);
      responses, seen, units := responses + [request.stamp], seen + [request], units + [()];
      i := i + 1;
    }
    assert seen == requests && responses == Stamps(requests);
  }

  lemma NothingSeen(seen: seq<TxRequest>, stamps: seq<Stamp>, units: seq<()>)
    requires |seen| == |stamps| == |units| == 0
    ensures ActedOn(seen, OneSlotServer(stamps, units).acted) == []
  {
  }

  /**
   * The RX server loop. `results[i]` is what the queue yields if poll `i` is the one to be
   * answered afresh. Each poll is answered under its transaction, with the frame the
   * one-slot server gives it.
   */
  method WifiRxServer(polls: seq<Stamp>, results: seq<Option<Frame>>) returns (responses: seq<RxResponse>)
    requires |results| == |polls|
    ensures |responses| == |polls|
    ensures forall i :: 0 <= i < |polls| ==>
              && responses[i].stamp.transaction == polls[i].transaction
              && responses[i].frame == OneSlotServer(polls, results).answers[i]
  {
    hide OneSlotServer;
    var cached: Option<RxResponse> := None;
    responses := [];
    ghost var seen: seq<Stamp>, given: seq<Option<Frame>> := [], [];
    var i := 0;
    while i < |polls|
      invariant 0 <= i <= |polls| && seen == polls[..i] && given == results[..i] && |responses| == i
      invariant if i == 0 then cached.None? else cached == Some(responses[i - 1])
      invariant forall k :: 0 <= k < i ==>
                  && responses[k].stamp.transaction == seen[k].transaction
                  && responses[k].frame == OneSlotServer(seen, given).answers[k]
    {
      OneSlotNext(seen, given, polls[i], results[i]);
      if cached.None? || cached.value.stamp.transaction != polls[i].transaction {
        cached := Some(RxResponse(polls[i], results[i]));
      }
      responses, seen, given := responses + [cached.value], seen + [polls[i]], given + [results[i]];
      i := i + 1;
    }
    assert seen == polls && given == results;
  }
}
