/** The records that cross the USB link, and the fixed-width integers they use. */
module Wire {

  /** Number of distinct `u32` values. */
  const ID_SPACE: nat := 0x1_0000_0000

  type Id = n: nat | n < 0x1_0000_0000
  type SessionId = n: nat | n < 0x1_0000_0000_0000_0000
  type Byte = n: nat | n < 256
  type Frame = seq<Byte>

  /** Largest Ethernet frame either side accepts. */
  const MAX_FRAME_SIZE: nat := 1514

  /** Capacity of the device channel that holds radio frames for the host. */
  const RX_QUEUE_CAPACITY: nat := 64

  datatype Option<+T> = None | Some(value: T)

  datatype Transaction = Transaction(session: SessionId, id: Id)

  /** Truncation to `u32`. */
  function Low32(n: nat): Id {
    n % 0x1_0000_0000
  }

  /** `u32::wrapping_add(1)`. */
  function WrappingIncrement(id: Id): Id {
    Low32(id + 1)
  }

  /** `u32` counts up by one, and starts over after its largest value. */
  lemma IncrementWraps(id: Id)
    ensures WrappingIncrement(id) == if id == 0xFFFF_FFFF then 0 else id + 1
  {
  }

  /** Counting and truncating commute. */
  lemma IncrementLow32(n: nat)
    ensures WrappingIncrement(Low32(n)) == Low32(n + 1)
  {
  }

  /** Two counts have the same low 32 bits exactly when 2^32 divides their distance. */
  lemma SameLow32(a: nat, b: nat)
    requires a <= b
    ensures Low32(a) == Low32(b) <==> Low32(b - a) == 0
  {
  }

  /** The serial transport's session id: the clock in nanoseconds, masked with the process id. */
  function SerialSessionId(now: bv64, pid: bv32): bv64 {
    now ^ (pid as bv64).RotateLeft(32)
  }

  /** Within one process, different clock readings give different session ids. */
  lemma SessionIdsDiffer(now: bv64, later: bv64, pid: bv32)
    ensures SerialSessionId(now, pid) == SerialSessionId(later, pid) <==> now == later
  {
    var mask := (pid as bv64).RotateLeft(32);
    assert (now ^ mask) ^ mask == now && (later ^ mask) ^ mask == later;
  }

  /** At one clock reading, different processes have different session ids. */
  lemma ProcessIdsDiffer(now: bv64, pid: bv32, other: bv32)
    ensures SerialSessionId(now, pid) == SerialSessionId(now, other) <==> pid == other
  {
    var a, b := pid as bv64, other as bv64;
    assert (now ^ a.RotateLeft(32)) ^ now == a.RotateLeft(32) && (now ^ b.RotateLeft(32)) ^ now == b.RotateLeft(32);
    assert a.RotateLeft(32).RotateLeft(32) == a && b.RotateLeft(32).RotateLeft(32) == b;
  }

  predicate InSize(frame: Frame) {
    |frame| <= MAX_FRAME_SIZE
  }

  /** A full Ethernet frame, 14 bytes of header and 1500 of payload, fits; one byte more does not. */
  lemma FullFrameFits(header: seq<Byte>, payload: seq<Byte>)
    requires |header| == 14
    ensures InSize(header + payload) <==> |payload| <= 1500
  {
  }

  /**
   * A wire transaction together with its serial number. The serial number counts
   * transactions over the whole run without wrapping. It is a history variable: no
   * component of the protocol reads it to take a decision.
   */
  datatype Stamp = Stamp(transaction: Transaction, serial: nat)

  datatype TxRequest = TxRequest(stamp: Stamp, frame: Frame)

  datatype RxResponse = RxResponse(stamp: Stamp, frame: Option<Frame>)

  /** A radio frame popped for, or delivered by, the RX poll with this serial number. */
  datatype Arrival = Arrival(serial: nat, frame: Frame)
}
