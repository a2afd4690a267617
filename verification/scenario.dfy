/**
  A worked run of the display: two downloads registered out of order,
  advanced, repainted and one of them finished.
 */
module Scenario {
  import Layout
  import Counter
  import Render
  import Registry
  import Sorting

  /** "a.txt" and "b.txt" as code points. */
  const NameA: seq<Layout.CodePoint> := [0x61, 0x2E, 0x74, 0x78, 0x74]
  const NameB: seq<Layout.CodePoint> := [0x62, 0x2E, 0x74, 0x78, 0x74]

  /** Counter A (total 10, order 0) after 5 bytes. */
  const A: Counter.Tracker := Counter.Add(Counter.Tracker(10, 0, NameA, 0), 5)
  /** Counter B (total 20, order 1) after 20 bytes. */
  const B: Counter.Tracker := Counter.Add(Counter.Tracker(20, 0, NameB, 1), 20)

  /** Current values of the registered trackers: id 1 is A, id 2 is B. */
  function Lookup(id: Registry.Id): Counter.Tracker
  {
    if id == 1 then A else B
  }

  /** B registered first, then A. */
  const Registered: Registry.Manager := Registry.Add(Registry.Add(Registry.NewManager(), 2), 1)

  /** The display keys: A sorts before B. */
  lemma OrderKeys()
    ensures Registry.OrderKey(Lookup)(1) == 0 && Registry.OrderKey(Lookup)(2) == 1
  {
    var key := Registry.OrderKey(Lookup);
    assert key(1) == Lookup(1).order == A.order == 0;
    assert key(2) == Lookup(2).order == B.order == 1;
  }

  /** The display order puts A (order 0) above B (order 1), whatever the registration order. */
  lemma DisplayOrderAB()
    ensures Registry.DisplayOrder([2, 1], Lookup) == [1, 2]
    ensures Registry.DisplayOrder([1], Lookup) == [1]
  {
    var key := Registry.OrderKey(Lookup);
    OrderKeys();
    var single := Sorting.Sort<Registry.Id>([1], key);
    assert single == [1] by {
      assert [1][1..] == [];
    }
    var pair := Sorting.Sort<Registry.Id>([2, 1], key);
    assert pair == Sorting.Insert<Registry.Id>(2, single, key) by {
      assert [2, 1][1..] == [1];
    }
    assert Sorting.Insert<Registry.Id>(2, [1], key) == [1, 2] by {
      assert [1][1..] == [];
    }
  }

  /**
    A repaint on an 80-column terminal shows A above B although B was
    registered first, A half filled and B completely solid.
   */
  lemma TwoDownloadsRepaint()
    ensures Render.BarWidth(80) == 36
    ensures Registry.PrintTrackers(Registered, Lookup, 80, 0).rows == [Render.Line(A, 80), Render.Line(B, 80)]
    ensures Render.FillPosition(A.current, A.total, 36) == 18
    ensures forall i :: 0 <= i < 36 ==> Render.ProgressBar(B, 80)[i] == Render.Solid
  {
    assert A.current == 5 && B.current == 20;
    assert Registered == Registry.Manager([2, 1], true);
    DisplayOrderAB();
    var rows := Registry.PrintTrackers(Registered, Lookup, 80, 0).rows;
    assert |rows| == 2;
    assert rows[0] == Render.Line(Lookup(1), 80) && rows[1] == Render.Line(Lookup(2), 80);
    Render.CompletedBarIsSolid(B, 80);
  }

  /**
    Finish(B) queues the final line of B for the loop and leaves A
    registered with the loop still running.
   */
  lemma TwoDownloadsFinish()
    ensures Registry.Finish(Registered, 2, Lookup, 80) == (Registry.Manager([1], true), Registry.Queued(Render.Line(B, 80)))
  {
    var m := Registry.Manager([2, 1], true);
    assert Registered == m;
    assert Registry.RemoveFirst([2, 1], 2) == [1] by {
      assert Registry.FirstIndex([2, 1], 2) == 0;
    }
    assert Registry.Remove(m, 2) == Registry.Manager([1], true);
    assert 2 in m.trackers;
    assert Registry.Log(m, Render.Line(Lookup(2), 80)) == Registry.Queued(Render.Line(B, 80));
  }

  /**
    The render loop then takes B's queued line: it erases the painted rows,
    prints the line and repaints at once with no rows to blank, so A is shown
    alone directly below B's final line.
   */
  lemma TwoDownloadsLogRepaint()
    ensures var p := Registry.PrintTrackers(Registry.Manager([1], true), Lookup, 80, 0);
      p.rows == [Render.Line(A, 80)] && p.blankRows == 0
  {
    DisplayOrderAB();
    var rows := Registry.PrintTrackers(Registry.Manager([1], true), Lookup, 80, 0).rows;
    assert |rows| == 1;
    assert rows[0] == Render.Line(Lookup(1), 80);
  }

  /**
    A tick handled after B's removal but before its queued line repaints
    over the two rows of the last paint: A is shown and B's old row blanked.
   */
  lemma TwoDownloadsTickBeforeLog()
    ensures var p := Registry.PrintTrackers(Registry.Manager([1], true), Lookup, 80, 2);
      p.rows == [Render.Line(A, 80)] && p.blankRows == 1
  {
    DisplayOrderAB();
    var rows := Registry.PrintTrackers(Registry.Manager([1], true), Lookup, 80, 2).rows;
    assert |rows| == 1;
    assert rows[0] == Render.Line(Lookup(1), 80);
  }

  /** Three bytes to download. */
  const Chunk: seq<Counter.Byte> := [1, 2, 3]

  /** A downstream writer that takes the whole chunk. */
  function Accepting(p: seq<Counter.Byte>): Counter.Reply
  {
    Counter.Reply(3, Counter.Nil)
  }

  /** The same writer once the disk is full. */
  function DiskFull(p: seq<Counter.Byte>): Counter.Reply
  {
    Counter.Reply(0, Counter.Failed("no space left on device"))
  }

  /**
    The same bytes written twice, accepted the first time and refused the
    second: only the first write is counted.
   */
  lemma WriterFillsUp()
    ensures var t := Counter.Tracker(10, 0, NameA, 0);
      Counter.WriteAll(t, [Counter.Call(Accepting, Chunk), Counter.Call(DiskFull, Chunk)]) == Counter.Tracker(10, 3, NameA, 0)
  {
    var t := Counter.Tracker(10, 0, NameA, 0);
    var calls := [Counter.Call(Accepting, Chunk), Counter.Call(DiskFull, Chunk)];
    Counter.WriteAllCounts(t, calls);
    assert calls[..1][..0] == [];
    assert Counter.Accepted(calls[..1]) == [3];
    assert calls[1].sink(calls[1].chunk).err != Counter.Nil;
    assert Counter.Accepted(calls) == [3];
    assert [3][..0] == [];
  }
}
