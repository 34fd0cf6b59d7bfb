/** The host's serial port, seen as an abstract channel: everything written
    is appended to a log, line reads take the next scripted text reply, and
    the timed 1026-byte read of the dump path takes the next scripted
    arrival, which may be short or missing. */
module Channel {
  import opened Bytes
  import opened Wrappers

  /** What the far end delivered for one timed block read: the bytes that
      were available to `Read` before the deadline, or nothing at all. */
  datatype Arrival = Arrived(data: seq<byte>) | TimedOut

  /** The line a `ReadLine` returns after `k` lines of `script` were consumed;
      an exhausted script reads as an empty line. */
  function LineAt(script: seq<string>, k: nat): string
  {
    if k < |script| then script[k] else ""
  }

  /** The arrival the `k`-th block read sees; an exhausted script times out. */
  function ArrivalAt(script: seq<Arrival>, k: nat): Arrival
  {
    if k < |script| then script[k] else TimedOut
  }

  /** What remains of a script once `k` entries have been consumed. */
  function Drop<T>(script: seq<T>, k: nat): (r: seq<T>)
    ensures |r| == if k < |script| then |script| - k else 0
  {
    if k < |script| then script[k..] else []
  }

  /** Entry `j` of what remains is entry `k + j` of the whole script. */
  lemma DropIndex<T>(script: seq<T>, k: nat, j: nat)
    requires j < |Drop(script, k)|
    ensures Drop(script, k)[j] == script[k + j]
  {
  }

  lemma LineAtDrop(script: seq<string>, k: nat, j: nat)
    ensures LineAt(Drop(script, k), j) == LineAt(script, k + j)
  {
    if j < |Drop(script, k)| {
      DropIndex(script, k, j);
    }
  }

  lemma {:induction false} DropDrop<T>(script: seq<T>, k: nat, j: nat)
    ensures Drop(Drop(script, k), j) == Drop(script, k + j)
  {
    var l, r := Drop(Drop(script, k), j), Drop(script, k + j);
    assert |l| == |r|;
    forall i | 0 <= i < |l| ensures l[i] == r[i] {
      DropIndex(Drop(script, k), j, i);
      DropIndex(script, k, j + i);
      DropIndex(script, k + j, i);
    }
  }

  /** The outcome of one timed read of `n` bytes: it succeeds only when
      exactly `n` bytes were delivered in time (`wait_data` and `Read` both
      succeed), and a timeout or a short read fails. */
  function Receive(a: Arrival, n: nat): (r: Option<seq<byte>>)
    ensures r.Some? ==> |r.value| == n
    ensures r.Some? <==> a.Arrived? && |a.data| == n
  {
    if a.Arrived? && |a.data| == n then Some(a.data) else None
  }

  /** The open serial port. `sent` is every byte written so far; `lines` and
      `arrivals` are the replies the far end still has to give. */
  class Port {
    var sent: seq<byte>
    var lines: seq<string>
    var arrivals: seq<Arrival>

    constructor (lines: seq<string>, arrivals: seq<Arrival>)
      ensures this.sent == [] && this.lines == lines && this.arrivals == arrivals
    {
      this.sent := [];
      this.lines := lines;
      this.arrivals := arrivals;
    }

    /** `serial.Write(bytes, 0, bytes.Length)`. */
    method Write(bytes: seq<byte>)
      modifies this
      ensures sent == old(sent) + bytes
      ensures lines == old(lines) && arrivals == old(arrivals)
    {
      sent := sent + bytes;
    }

    /** `serial.ReadLine()`. */
    method ReadLine() returns (line: string)
      modifies this
      ensures line == LineAt(old(lines), 0)
      ensures lines == Drop(old(lines), 1)
      ensures sent == old(sent) && arrivals == old(arrivals)
    {
      if lines == [] {
        line := "";
      } else {
        line := lines[0];
        lines := lines[1..];
      }
    }

    /** `wait_data(n) && serial.Read(buff, 0, n) == n`, returning the buffer
        when both succeed. */
    method ReadExact(n: nat) returns (buff: Option<seq<byte>>)
      modifies this
      ensures buff == Receive(ArrivalAt(old(arrivals), 0), n)
      ensures arrivals == Drop(old(arrivals), 1)
      ensures sent == old(sent) && lines == old(lines)
    {
      var a := if arrivals == [] then TimedOut else arrivals[0];
      arrivals := if arrivals == [] then [] else arrivals[1..];
      buff := Receive(a, n);
    }
  }
}
