/**
 * The loops of the exchange task and the protocol: whatever run the task takes part in, what
 * it writes to TAP is what the protocol's host delivered.
 */
module ExchangeRuns {
  import opened Wire
  import opened Protocol
  import opened RxPath
  import opened EndpointWait
  import opened SerialClient
  import opened ExchangeLoop

  /** The input, whatever became of the request it makes the task create. */
  function Undropped(input: Input): Input {
    if input.NewSession? then input else input.(dropped := false)
  }

  /** The task does not know which requests the fault injector withholds. */
  lemma DroppingIsUnseen(p: Progress, input: Input)
    ensures Feed(p, Undropped(input)) == Feed(p, input)
  {
  }

  /** What the task observes in a run. */
  function HostInputs(moves: seq<Move>): seq<Input>
    decreases |moves|
  {
    if moves == [] then []
    else match moves[0]
      case HostMove(input, _, _) => [Undropped(input)] + HostInputs(moves[1..])
      case DeviceMove(_) => HostInputs(moves[1..])
  }

  /** The frame a response hands to TAP: the one it carries, if it answers the open poll. */
  function Settling(c: Client, input: Input): seq<Frame> {
    match input
    case RxEvent(Done(_, Ok(r), _), _) =>
      if c.phase.RxWaiting? && r.stamp.transaction == c.phase.poll.transaction && r.frame.Some?
      then [r.frame.value] else []
    case _ => []
  }

  lemma HandedIsSettling(c: Client, input: Input)
    requires Accepted(c, input)
    ensures Handed(c, input) == Settling(c, input)
  {
  }

  lemma DeliveredIsSettling(h: Host, c: Client, input: Input)
    requires |h.used| > 0 && Accepted(c, input) && Related(c, h)
    ensures Frames(NextHost(h, c, input).delivered) == Frames(h.delivered) + Settling(c, input)
  {
    hide Frames;
    var frame := Settling(c, input);
    if frame != [] {
      FramesNext(h.delivered, Arrival(c.phase.poll.serial, frame[0]));
    } else {
      assert NextHost(h, c, input).delivered == h.delivered;
      assert Frames(h.delivered) + [] == Frames(h.delivered);
    }
  }

  /** The frame the task writes to TAP is the one the host delivers. */
  lemma HandedIsDelivered(h: Host, c: Client, input: Input)
    requires |h.used| > 0 && Accepted(c, input) && Related(c, h)
    ensures Frames(NextHost(h, c, input).delivered) == Frames(h.delivered) + Handed(c, input)
  {
    hide Frames, NextHost, Handed, Settling, Related, Accepted;
    HandedIsSettling(c, input);
    DeliveredIsSettling(h, c, input);
  }

  lemma {:induction false} RunFeeds(c: Client, s: State, moves: seq<Move>, c': Client, s': State)
    requires Run(c, s, moves, c', s') && Related(c, s.host)
    ensures FeedAll(Progress(c, Frames(s.host.delivered)), HostInputs(moves))
            == Progress(c', Frames(s'.host.delivered))
    decreases |moves|
  {
    hide Moves, Next, NextHost, ValidRun, Execute, Feasible, Frames, Handed, FeedAll;
    var p := Progress(c, Frames(s.host.delivered));
    if moves == [] {
      Ignored(p, []);
    } else {
      match moves[0] {
        case HostMove(input, i, keep) =>
          MovesHost(c, s, input, i, keep);
          Simulates(c, s, input, i, keep);
          HandedIsDelivered(s.host, c, input);
          DroppingIsUnseen(p, input);
          FeedAppend(p, [Undropped(input)], HostInputs(moves[1..]));
          FeedOne(p, Undropped(input));
          RunFeeds(Next(c, input), Execute(s, Moves(c, input, i, keep)), moves[1..], c', s');
        case DeviceMove(step) =>
          DeviceKeepsHost(c, s, step);
          assert Apply(s, step).host == s.host;
          RunFeeds(c, Apply(s, step), moves[1..], c', s');
      }
    }
  }

  /**
   * In every run of the task against the device, `FeedAll`, which its loops follow, arrives
   * at the client of the run, and the frames written to TAP are those the protocol
   * delivered: none is left out, and none is added.
   */
  lemma TapIsDelivered(session: SessionId, recovery: bool, moves: seq<Move>, c: Client, s: State)
    requires Run(Start(session, recovery), Initial(session), moves, c, s)
    ensures FeedAll(Progress(Start(session, recovery), []), HostInputs(moves))
            == Progress(c, Frames(s.host.delivered))
  {
    hide Run, Related, Accounted, FeedAll;
    StartKeeps(session, recovery);
    RunFeeds(Start(session, recovery), Initial(session), moves, c, s);
  }
}
