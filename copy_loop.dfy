/**
 * `SaveToFile`: the response stream is read into a fixed 128 KiB buffer and
 * each chunk is written to the file, until the stream ends or cancellation
 * is seen before a read. The stream is given by what each successive read
 * returns; the cancellation token by whether it is set at each loop test.
 */
module CopyLoop {

  newtype byte = x: int | 0 <= x < 256

  const BufSize: nat := 128 * 1024

  /** What one `stream.ReadAsync(buffer, ct)` gives: some bytes (none at end of stream), or an exception. */
  datatype ReadOutcome = Data(bytes: seq<byte>) | Fault

  /** The stream never returns more than the buffer holds. */
  predicate FitsBuffer(stream: seq<ReadOutcome>)
  {
    forall i :: 0 <= i < |stream| && stream[i].Data? ==> |stream[i].bytes| <= BufSize
  }

  /** Read number `i`; past the scripted stream the stream is at its end. */
  function ReadAt(stream: seq<ReadOutcome>, i: nat): ReadOutcome
  {
    if i < |stream| then stream[i] else Data([])
  }

  function BytesAt(stream: seq<ReadOutcome>, i: nat): seq<byte>
  {
    if ReadAt(stream, i).Data? then ReadAt(stream, i).bytes else []
  }

  /** The bytes of the first `n` stream, in order. */
  function Written(stream: seq<ReadOutcome>, n: nat): seq<byte>
  {
    if n == 0 then [] else Written(stream, n - 1) + BytesAt(stream, n - 1)
  }

  datatype CopyExit = EndOfStream | Cancelled | Faulted

  /**
   * Where the loop stops once it has reached iteration `k`: how many chunks
   * have been written by then, and why it stopped.
   */
  function StopFrom(stream: seq<ReadOutcome>, cancel: nat -> bool, k: nat): (r: (nat, CopyExit))
    ensures k <= r.0 <= if k <= |stream| then |stream| else k
    ensures forall j :: k <= j < r.0 ==> !cancel(j) && ReadAt(stream, j).Data? && ReadAt(stream, j).bytes != []
    ensures r.1 == Cancelled <==> cancel(r.0)
    ensures r.1 == EndOfStream ==> ReadAt(stream, r.0) == Data([])
    ensures r.1 == Faulted ==> ReadAt(stream, r.0).Fault?
    decreases |stream| - k
  {
    if cancel(k) then (k, Cancelled)
    else match ReadAt(stream, k)
      case Fault => (k, Faulted)
      case Data(bs) => if bs == [] then (k, EndOfStream) else StopFrom(stream, cancel, k + 1)
  }

  /** One read: the chunk lands at the start of the buffer. */
  method ReadInto(chunk: seq<byte>, buffer: array<byte>) returns (count: nat)
    requires |chunk| <= buffer.Length
    modifies buffer
    ensures count == |chunk| && buffer[..count] == chunk
  {
    for j := 0 to |chunk|
      invariant buffer[..j] == chunk[..j]
    {
      buffer[j] := chunk[j];
    }
    count := |chunk|;
  }

  /**
   * The copy loop. `written` is the file's content afterwards; `Faulted`
   * stands for the exception that leaves the loop when a read fails.
   */
  method SaveToFile(stream: seq<ReadOutcome>, cancel: nat -> bool, buffer: array<byte>)
    returns (exit: CopyExit, written: seq<byte>)
    requires buffer.Length == BufSize && FitsBuffer(stream)
    modifies buffer
    ensures exit == StopFrom(stream, cancel, 0).1
    ensures written == Written(stream, StopFrom(stream, cancel, 0).0)
  {
    written := [];
    var bytesRead := 0;
    var i := 0;
    while true
      invariant StopFrom(stream, cancel, i) == StopFrom(stream, cancel, 0)
      invariant written == Written(stream, i)
      invariant bytesRead == |written|
      decreases |stream| - i
    {
      if cancel(i) {
        exit := Cancelled;
        return;
      }
      var outcome := ReadAt(stream, i);
      if outcome.Fault? {
        exit := Faulted;
        return;
      }
      var count := ReadInto(outcome.bytes, buffer);
      if count == 0 {
        exit := EndOfStream;
        return;
      }
      bytesRead := bytesRead + count;
      written := written + buffer[..count];
      i := i + 1;
    }
  }

  /** Whatever stops the loop, the file holds a prefix of what the stream delivered. */
  lemma {:induction false} WrittenPrefix(stream: seq<ReadOutcome>, n: nat, m: nat)
    requires n <= m
    ensures Written(stream, n) <= Written(stream, m)
    decreases m - n
  {
    if n < m {
      WrittenPrefix(stream, n, m - 1);
    }
  }

  /** Every byte the stream delivers. */
  function Delivered(stream: seq<ReadOutcome>): seq<byte>
  {
    if stream == [] then [] else (if stream[0].Data? then stream[0].bytes else []) + Delivered(stream[1..])
  }

  lemma {:induction false} WrittenAll(stream: seq<ReadOutcome>, n: nat)
    requires n <= |stream|
    ensures Written(stream, n) == Delivered(stream[..n])
  {
    if n > 0 {
      WrittenAll(stream, n - 1);
      DeliveredSnoc(stream[..n - 1], stream[n - 1]);
      assert stream[..n] == stream[..n - 1] + [stream[n - 1]];
    }
  }

  lemma {:induction false} DeliveredSnoc(rs: seq<ReadOutcome>, r: ReadOutcome)
    ensures Delivered(rs + [r]) == Delivered(rs) + (if r.Data? then r.bytes else [])
  {
    if rs != [] {
      DeliveredSnoc(rs[1..], r);
      assert (rs + [r])[1..] == rs[1..] + [r];
    }
  }

  /**
   * Without cancellation and without a failing read, the loop runs to the end
   * of the stream and the file holds every byte of it.
   */
  lemma CompleteCopy(stream: seq<ReadOutcome>, cancel: nat -> bool)
    requires forall j :: 0 <= j <= |stream| ==> !cancel(j)
    requires forall j :: 0 <= j < |stream| ==> stream[j].Data? && stream[j].bytes != []
    ensures StopFrom(stream, cancel, 0) == (|stream|, EndOfStream)
    ensures Written(stream, |stream|) == Delivered(stream)
  {
    var (n, exit) := StopFrom(stream, cancel, 0);
    assert n <= |stream|;
    WrittenAll(stream, |stream|);
    assert stream[..|stream|] == stream;
  }
}
