/**
  The progress counter (ProgressTracker) with its int64 counter, and the
  counting writer adapter (ProgressWriter) that advances a counter by the
  bytes a downstream writer accepted.
 */
module Counter {
  import opened GoInt
  import opened Layout
  import opened Sequences

  type Byte = b: int | 0 <= b < 256

  /**
    A progress counter: the target total (0 when unknown), the bytes seen so
    far, the label shown in front of the bar and the display sort key.
   */
  datatype Tracker = Tracker(total: Int64, current: Int64, name: seq<CodePoint>, order: int)

  /**
    ProgressTracker.Add: the counter grows by `n` (atomic int64 addition,
    which wraps on overflow); nothing else about the tracker changes.
   */
  function Add(t: Tracker, n: Int64): (t': Tracker)
    ensures t'.total == t.total && t'.name == t.name && t'.order == t.order
    ensures MinInt64 <= t.current + n <= MaxInt64 ==> t'.current == t.current + n
    ensures (t'.current - (t.current + n)) % Modulus64 == 0
  {
    t.(current := Wrap64(t.current + n))
  }

  function Sum(ds: seq<int>): int
  {
    if |ds| == 0 then 0 else Sum(ds[..|ds| - 1]) + ds[|ds| - 1]
  }

  /** Applies the increments `ds` to `t`, first to last. */
  function AddAll(t: Tracker, ds: seq<Int64>): Tracker
  {
    if |ds| == 0 then t else Add(AddAll(t, ds[..|ds| - 1]), ds[|ds| - 1])
  }

  /** A run of increments advances the counter by their sum, modulo 2^64. */
  lemma {:induction false} AddAllSums(t: Tracker, ds: seq<Int64>)
    ensures AddAll(t, ds) == t.(current := Wrap64(t.current + Sum(ds)))
  {
    if |ds| > 0 {
      var p := ds[..|ds| - 1];
      AddAllSums(t, p);
      WrapAdd(t.current + Sum(p), ds[|ds| - 1]);
    }
  }

  lemma {:induction false} SumAppend(a: seq<int>, b: seq<int>)
    ensures Sum(a + b) == Sum(a) + Sum(b)
  {
    if |b| == 0 {
      assert a + b == a;
    } else {
      assert (a + b)[..|a + b| - 1] == a + b[..|b| - 1];
      SumAppend(a, b[..|b| - 1]);
    }
  }

  /** Taking the element at `j` out of a sequence takes it out of the sum. */
  lemma SumWithout(b: seq<int>, j: nat)
    requires j < |b|
    ensures Sum(b) == Sum(b[..j] + b[j + 1..]) + b[j]
  {
    var front, x, back := b[..j], b[j], b[j + 1..];
    assert b == (front + [x]) + back;
    SumAppend(front + [x], back);
    assert (front + [x])[..|front|] == front;
    SumAppend(front, back);
  }

  /** The sum of a sequence does not depend on the order of its elements. */
  lemma {:induction false} SumPermutation(a: seq<int>, b: seq<int>)
    requires multiset(a) == multiset(b)
    ensures Sum(a) == Sum(b)
  {
    if |a| == 0 {
      assert |b| == |multiset(b)| == 0;
    } else {
      var x := a[|a| - 1];
      var a' := a[..|a| - 1];
      assert a == a' + [x];
      assert multiset(a') == multiset(a) - multiset{x};
      assert x in multiset(b);
      var j :| 0 <= j < |b| && b[j] == x;
      MultisetWithout(b, j);
      SumPermutation(a', b[..j] + b[j + 1..]);
      SumWithout(b, j);
    }
  }

  /**
    Concurrent producers: whatever order the increments land in, the final
    counter is the same.
   */
  lemma AddAllOrderFree(t: Tracker, ds1: seq<Int64>, ds2: seq<Int64>)
    requires multiset(ds1) == multiset(ds2)
    ensures AddAll(t, ds1) == AddAll(t, ds2)
  {
    AddAllSums(t, ds1);
    AddAllSums(t, ds2);
    SumPermutation(ds1, ds2);
  }

  /** A Go error value: nil, or some failure. */
  datatype Error = Nil | Failed(message: string)

  /** What a downstream io.Writer returns: bytes written and an error. */
  datatype Reply = Reply(n: Int64, err: Error)

  /**
    ProgressWriter.Write: forwards `p` to the downstream writer `sink` and
    returns its reply unchanged; only a nil error advances the tracker, and
    then by exactly the bytes written.
   */
  function Write(t: Tracker, sink: seq<Byte> -> Reply, p: seq<Byte>): (result: (Tracker, Reply))
    ensures result.1 == sink(p)
    ensures sink(p).err == Nil ==> result.0.current == Wrap64(t.current + sink(p).n)
    ensures result.0 == t.(current := result.0.current)
    ensures sink(p).err != Nil ==> result.0 == t
  {
    var reply := sink(p);
    if reply.err != Nil then (t, reply) else (Add(t, reply.n), reply)
  }

  /**
    One call of the adapter: the chunk and the downstream writer as it
    answers at that moment. A writer with state (one that accepts a chunk
    now and rejects the same bytes later, say when the disk fills up) is a
    different reply function on each call.
   */
  datatype Call = Call(sink: seq<Byte> -> Reply, chunk: seq<Byte>)

  /** Makes `calls` one after another through the adapter. */
  function WriteAll(t: Tracker, calls: seq<Call>): Tracker
  {
    if |calls| == 0 then t
    else
      var last := calls[|calls| - 1];
      Write(WriteAll(t, calls[..|calls| - 1]), last.sink, last.chunk).0
  }

  /** Byte counts of the calls the downstream writer answered without error. */
  function Accepted(calls: seq<Call>): seq<Int64>
  {
    if |calls| == 0 then []
    else
      var last := calls[|calls| - 1];
      var reply := last.sink(last.chunk);
      Accepted(calls[..|calls| - 1]) + (if reply.err == Nil then [reply.n] else [])
  }

  /**
    After a run of writes the counter has advanced by exactly the bytes of the
    successful writes: failed writes count nothing, earlier progress stays.
   */
  lemma {:induction false} WriteAllCounts(t: Tracker, calls: seq<Call>)
    ensures WriteAll(t, calls) == AddAll(t, Accepted(calls))
  {
    if |calls| > 0 {
      var p := calls[..|calls| - 1];
      WriteAllCounts(t, p);
      var last := calls[|calls| - 1];
      var reply := last.sink(last.chunk);
      var acc := Accepted(p);
      if reply.err == Nil {
        assert Accepted(calls) == acc + [reply.n];
        assert (acc + [reply.n])[..|acc|] == acc;
      } else {
        assert Accepted(calls) == acc;
      }
    }
  }
}
