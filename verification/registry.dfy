/**
  The display manager (ProgressManager) as a sequential state machine: the
  registered trackers, by identity, and whether the render loop runs. The
  render goroutine, its channels and the mutex are not modelled; what a call
  would print or queue is returned as an Emission.
 */
module Registry {
  import opened GoInt
  import opened Layout
  import opened Counter
  import opened Render
  import opened Sorting

  /** A tracker's identity: trackers are compared by pointer. */
  type Id = nat

  /** Registered trackers in registration order, and whether the loop runs. */
  datatype Manager = Manager(trackers: seq<Id>, running: bool)

  /** What a call hands to the terminal side. */
  datatype Emission =
    | Silent
      /** Sent to the render loop's log channel. */
    | Queued(line: seq<CodePoint>)
      /** Printed directly on the caller's side. */
    | Printed(line: seq<CodePoint>)

  /** NewProgressManager: no trackers, loop not running. */
  function NewManager(): (m: Manager)
    ensures |m.trackers| == 0 && !m.running
  {
    Manager([], false)
  }

  /** Start: the loop runs afterwards; the registered trackers are untouched. */
  function Start(m: Manager): (m': Manager)
    ensures m'.running && m'.trackers == m.trackers
  {
    if m.running then m else m.(running := true)
  }

  /** Stop: the loop is stopped afterwards; the registered trackers are untouched. */
  function Stop(m: Manager): (m': Manager)
    ensures !m'.running && m'.trackers == m.trackers
  {
    if !m.running then m else m.(running := false)
  }

  /** Start and Stop are idempotent, and each is a no-op in its own target state. */
  lemma StartStopIdempotent(m: Manager)
    ensures Start(Start(m)) == Start(m) && Stop(Stop(m)) == Stop(m)
    ensures m.running ==> Start(m) == m
    ensures !m.running ==> Stop(m) == m
  {
  }

  /** Position of the first occurrence of `x` in `s`, or |s| when there is none. */
  function FirstIndex(s: seq<Id>, x: Id): (i: nat)
    ensures i <= |s| && x !in s[..i]
    ensures i < |s| <==> x in s
    ensures i < |s| ==> s[i] == x
  {
    if |s| == 0 then 0
    else if s[0] == x then 0
    else
      var i := FirstIndex(s[1..], x);
      assert s[..i + 1] == [s[0]] + s[1..][..i];
      assert s == [s[0]] + s[1..];
      i + 1
  }

  /**
    Deletes the first occurrence of `x` from `s`, keeping the order of the
    rest; a sequence without `x` is returned unchanged.
   */
  function RemoveFirst(s: seq<Id>, x: Id): (r: seq<Id>)
    ensures x !in s ==> r == s
    ensures x in s ==> exists i :: 0 <= i < |s| && s[i] == x && x !in s[..i] && r == s[..i] + s[i + 1..]
    ensures multiset(r) == multiset(s) - multiset{x}
  {
    var i := FirstIndex(s, x);
    if i == |s| then s
    else
      assert s == s[..i] + [x] + s[i + 1..];
      s[..i] + s[i + 1..]
  }

  /**
    Add: appends the tracker (no uniqueness check, so a tracker added twice
    has two rows) and makes sure the loop runs.
   */
  function Add(m: Manager, id: Id): (m': Manager)
    ensures m'.trackers == m.trackers + [id]
    ensures m'.running
  {
    Start(m.(trackers := m.trackers + [id]))
  }

  /**
    Remove: drops the first registration of `id`, silently; the loop is
    stopped when no tracker is left, and otherwise keeps its state.
   */
  function Remove(m: Manager, id: Id): (m': Manager)
    ensures m'.trackers == RemoveFirst(m.trackers, id)
    ensures m'.running <==> m.running && |m'.trackers| > 0
  {
    var m1 := m.(trackers := RemoveFirst(m.trackers, id));
    if |m1.trackers| == 0 && m1.running then Stop(m1) else m1
  }

  /** Log: a message is queued for the loop while it runs, printed otherwise. */
  function Log(m: Manager, msg: seq<CodePoint>): (e: Emission)
    ensures e == Queued(msg) || e == Printed(msg)
    ensures e.Queued? <==> m.running
  {
    if m.running then Queued(msg) else Printed(msg)
  }

  /**
    Finish: removes the first registration of `id` like Remove and, only if
    one was removed, emits that tracker's final line (its current value from
    `lookup`, rendered for a terminal `termWidth` wide): through the loop
    while it runs, directly otherwise.
   */
  function Finish(m: Manager, id: Id, lookup: Id -> Tracker, termWidth: Int64): (result: (Manager, Emission))
    ensures result.0 == Remove(m, id)
    ensures result.1 == Silent <==> id !in m.trackers
    ensures id in m.trackers ==> result.1 == Log(m, Line(lookup(id), termWidth))
  {
    var removed := id in m.trackers;
    var m1 := m.(trackers := RemoveFirst(m.trackers, id));
    var line := Line(lookup(id), termWidth);
    var emission :=
      if removed && m1.running then Log(m1, line)
      else if removed then Printed(line)
      else Silent;
    var m2 := if |m1.trackers| == 0 && m1.running then Stop(m1) else m1;
    (m2, emission)
  }

  /** The loop runs only while some tracker is registered. */
  predicate Settled(m: Manager)
  {
    m.running ==> |m.trackers| > 0
  }

  /**
    Add, Remove, Finish and Stop keep the manager settled; only an explicit
    Start on an empty manager runs the loop with nothing to show.
   */
  lemma SettledPreserved(m: Manager, id: Id, lookup: Id -> Tracker, termWidth: Int64)
    requires Settled(m)
    ensures Settled(Add(m, id)) && Settled(Remove(m, id))
    ensures Settled(Finish(m, id, lookup, termWidth).0) && Settled(Stop(m))
  {
  }

  /** A tracker registered once is gone from every later snapshot after Finish. */
  lemma FinishForgets(m: Manager, id: Id, lookup: Id -> Tracker, termWidth: Int64)
    requires multiset(m.trackers)[id] <= 1
    ensures id !in Finish(m, id, lookup, termWidth).0.trackers
  {

  }

  /** Removing or finishing the last tracker stops the loop without another call. */
  lemma LastTrackerStops(m: Manager, id: Id, lookup: Id -> Tracker, termWidth: Int64)
    requires m.trackers == [id]
    ensures !Remove(m, id).running && |Remove(m, id).trackers| == 0
    ensures !Finish(m, id, lookup, termWidth).0.running
  {

  }

  /** One repaint: the rendered rows, the stale rows blanked below them, and the row count. */
  datatype Paint = Paint(rows: seq<seq<CodePoint>>, blankRows: nat, count: nat)

  /** The display sort key of each tracker. */
  function OrderKey(lookup: Id -> Tracker): Id -> int
  {
    (id: Id) => lookup(id).order
  }

  /** The snapshot's trackers in display order. */
  function DisplayOrder(snapshot: seq<Id>, lookup: Id -> Tracker): (sorted: seq<Id>)
    ensures multiset(sorted) == multiset(snapshot)
    ensures forall i, j :: 0 <= i < j < |sorted| ==> lookup(sorted[i]).order <= lookup(sorted[j]).order
  {
    Sort(snapshot, OrderKey(lookup))
  }

  /**
    printTrackers: renders the snapshot sorted by order, one row per
    registration; `lookup` gives the current value of each tracker. An empty
    snapshot paints nothing and blanks nothing; otherwise the rows left over
    from a taller previous paint (`lastLines`) are blanked.
   */
  function PrintTrackers(m: Manager, lookup: Id -> Tracker, termWidth: Int64, lastLines: int): (p: Paint)
    ensures p.count == |m.trackers| == |p.rows|
    ensures p.count == 0 ==> p.blankRows == 0
    ensures p.count > 0 ==> p.count + p.blankRows == if lastLines > p.count then lastLines else p.count
  {
    var snapshot := m.trackers;
    if |snapshot| == 0 then Paint([], 0, 0)
    else
      var sorted := DisplayOrder(snapshot, lookup);
      assert |sorted| == |multiset(sorted)| == |snapshot|;
      var rows := seq(|sorted|, i requires 0 <= i < |sorted| => Line(lookup(sorted[i]), termWidth));
      var blank := if |sorted| < lastLines then lastLines - |sorted| else 0;
      Paint(rows, blank, |sorted|)
  }

  /**
    The final line Finish emits for a registered tracker is the very row a
    repaint of the manager before the call shows for it.
   */
  lemma FinishLineIsOwnRow(m: Manager, id: Id, lookup: Id -> Tracker, termWidth: Int64, lastLines: int)
    requires id in m.trackers
    ensures var e := Finish(m, id, lookup, termWidth).1;
      var sorted := DisplayOrder(m.trackers, lookup);
      var rows := PrintTrackers(m, lookup, termWidth, lastLines).rows;
      && !e.Silent?
      && exists i :: 0 <= i < |sorted| && sorted[i] == id && rows[i] == e.line
  {
    var sorted := DisplayOrder(m.trackers, lookup);
    assert |sorted| == |multiset(sorted)| == |m.trackers|;
    assert id in multiset(sorted);
    var i :| 0 <= i < |sorted| && sorted[i] == id;
    assert PrintTrackers(m, lookup, termWidth, lastLines).rows[i] == Line(lookup(id), termWidth);
  }

  /**
    The rows are the lines of a rearrangement of the snapshot sorted by
    order, and any other sorted rearrangement lists the same orders: only
    the placement of trackers with equal order is left open.
   */
  lemma PaintOrder(m: Manager, lookup: Id -> Tracker, termWidth: Int64, lastLines: int, other: seq<Id>)
    requires multiset(other) == multiset(m.trackers) && SortedBy(other, OrderKey(lookup))
    ensures var p := PrintTrackers(m, lookup, termWidth, lastLines);
      var shown := DisplayOrder(m.trackers, lookup);
      && multiset(shown) == multiset(m.trackers)
      && |p.rows| == |shown|
      && (forall i :: 0 <= i < |shown| ==> p.rows[i] == Line(lookup(shown[i]), termWidth))
      && (forall i, j :: 0 <= i < j < |shown| ==> lookup(shown[i]).order <= lookup(shown[j]).order)
      && Keys(shown, OrderKey(lookup)) == Keys(other, OrderKey(lookup))
  {
    var shown := DisplayOrder(m.trackers, lookup);
    SortedKeysAgree(shown, other, OrderKey(lookup));
  }
}
