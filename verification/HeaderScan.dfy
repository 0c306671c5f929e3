/**
 * The HTTP download test finds the end of the response headers in chunks as they come from
 * TCP. The result does not depend on how the response is cut into chunks.
 */
module HeaderScan {
  import opened Wire

  const CR: Byte := 13
  const LF: Byte := 10

  /** The blank line before the entity body, as in Full-Response, section 4.1 of RFC 1945. */
  const BLANK_LINE: seq<Byte> := [CR, LF, CR, LF]

  /** The bytes of the text "\r\n\r\n". */
  lemma BlankLineBytes()
    ensures |BLANK_LINE| == |"\r\n\r\n"|
    ensures forall i :: 0 <= i < |BLANK_LINE| ==> BLANK_LINE[i] == "\r\n\r\n"[i] as int
  {
  }

  predicate BreakAt(s: seq<Byte>, i: nat) {
    i + 4 <= |s| && s[i..i + 4] == BLANK_LINE
  }

  /** Where the headers of a response end. */
  ghost predicate EndsAt(response: seq<Byte>, end: Option<nat>) {
    match end
    case Some(p) => BreakAt(response, p) && forall i: nat :: i < p ==> !BreakAt(response, i)
    case None => forall i: nat :: !BreakAt(response, i)
  }

  lemma EndIsUnique(response: seq<Byte>, a: Option<nat>, b: Option<nat>)
    requires EndsAt(response, a) && EndsAt(response, b)
    ensures a == b
  {
  }

  /** Once the end is found, more bytes do not move it. */
  lemma EndStays(response: seq<Byte>, p: nat, more: seq<Byte>)
    requires EndsAt(response, Some(p))
    ensures EndsAt(response + more, Some(p))
  {
    forall i: nat | i <= p ensures BreakAt(response + more, i) == BreakAt(response, i) {
      assert (response + more)[i..i + 4] == response[i..i + 4];
    }
  }

  /** `windows(4).position(..)` */
  method Position(buffer: seq<Byte>) returns (end: Option<nat>)
    ensures EndsAt(buffer, end)
  {
    var i := 0;
    while i + 4 <= |buffer|
      invariant forall k: nat :: k < i ==> !BreakAt(buffer, k)
    {
      if buffer[i..i + 4] == BLANK_LINE {
        return Some(i);
      }
      i := i + 1;
    }
    end := None;
  }

  /** The chunks put together. */
  function Joined(chunks: seq<seq<Byte>>): seq<Byte> {
    if chunks == [] then [] else Joined(chunks[..|chunks| - 1]) + chunks[|chunks| - 1]
  }

  class Download {
    var headerBuf: seq<Byte>
    var headersDone: bool
    var bodyBytes: nat
    var totalBytes: nat

    constructor ()
      ensures Received([], None)
    {
      headerBuf, headersDone, bodyBytes, totalBytes := [], false, 0, 0;
    }

    /** The fields after `response`, whose headers end at `end`, was received in any chunks. */
    ghost predicate Received(response: seq<Byte>, end: Option<nat>)
      reads this
    {
      && EndsAt(response, end)
      && headersDone == end.Some?
      && totalBytes == |response|
      && (match end
          case Some(p) => totalBytes == p + 4 + bodyBytes && p <= |headerBuf| && headerBuf[..p] == response[..p]
          case None => headerBuf == response && bodyBytes == 0)
    }

    /** The closure passed to `recv`. */
    method Receive(data: seq<Byte>, ghost response: seq<Byte>, ghost end: Option<nat>)
      returns (ghost end': Option<nat>)
      requires Received(response, end)
      modifies this
      ensures Received(response + data, end')
    {
      end' := end;
      if !headersDone {
        headerBuf := headerBuf + data;
        var found := Position(headerBuf);
        end' := found;
        if found.Some? {
          headersDone := true;
          bodyBytes := bodyBytes + (|headerBuf| - (found.value + 4));
        }
      } else {
        bodyBytes := bodyBytes + |data|;
        EndStays(response, end.value, data);
      }
      totalBytes := totalBytes + |data|;
    }

    /**
     * Receive a response in these chunks. The scan is done exactly if the response contains
     * the blank line, and then total bytes are those before it, four, and the body's.
     */
    method ReceiveAll(chunks: seq<seq<Byte>>) returns (ghost end: Option<nat>)
      requires Received([], None)
      modifies this
      ensures Received(Joined(chunks), end)
      ensures headersDone <==> exists i: nat :: BreakAt(Joined(chunks), i)
    {
      end := None;
      var n := 0;
      while n < |chunks|
        invariant 0 <= n <= |chunks| && Received(Joined(chunks[..n]), end)
      {
        assert chunks[..n + 1][..n] == chunks[..n];
        end := Receive(chunks[n], Joined(chunks[..n]), end);
        n := n + 1;
      }
      assert chunks[..n] == chunks;
    }
  }

  /** The results of a download. */
  datatype Result = Result(headersDone: bool, bodyBytes: nat, totalBytes: nat)

  method Fetch(chunks: seq<seq<Byte>>) returns (r: Result)
    ensures r.totalBytes == |Joined(chunks)|
    ensures r.headersDone <==> exists i: nat :: BreakAt(Joined(chunks), i)
    ensures forall end :: EndsAt(Joined(chunks), end) ==>
              r.bodyBytes == match end case Some(p) => |Joined(chunks)| - p - 4 case None => 0
  {
    var d := new Download();
    ghost var found := d.ReceiveAll(chunks);
    r := Result(d.headersDone, d.bodyBytes, d.totalBytes);
    forall end | EndsAt(Joined(chunks), end)
      ensures r.bodyBytes == match end case Some(p) => |Joined(chunks)| - p - 4 case None => 0
    {
      EndIsUnique(Joined(chunks), found, end);
    }
  }

  /** Two ways to cut one response give one result. */
  method ChunkingDoesNotMatter(a: seq<seq<Byte>>, b: seq<seq<Byte>>) returns (x: Result, y: Result)
    requires Joined(a) == Joined(b)
    ensures x == y
  {
    x := Fetch(a);
    y := Fetch(b);
    var end := Position(Joined(a));
  }
}
