/**
 * The category router and batch scheduler (engine.py): processed records are buffered per category
 * and handed to that category's store in batches: a buffer as soon as it is full, and every buffer
 * once the flush interval has passed since the last flush of all of them.
 * The clock and the store are parameters: each loop iteration carries its two clock readings, and
 * `fails(n)` says whether the n-th call of `add_batch` raises.
 */
module Engine {
  import opened Events
  import Normalizer
  import Lists

  datatype Category = Error | Warning | Debug

  /** The order in which `self.buffers` (built from `self.dbs`) is iterated. */
  const Categories: seq<Category> := [Error, Warning, Debug]
  /** A buffer is flushed as soon as it holds this many records. */
  const BatchSize: nat := 16
  /** Flush everything once more than 5.0 seconds (in microseconds) have passed since the last time. */
  const FlushInterval: int := 5_000_000

  /** `Engine._get_cat`. */
  function CategoryOf(priority: int): Category {
    if priority <= 3 then Error else if priority == 4 then Warning else Debug
  }

  /** Routing agrees with the normaliser's presentation tiers, so an ERROR line lands in the error store. */
  lemma CategoryMatchesLabel(priority: int)
    ensures CategoryOf(priority) == Error <==> Normalizer.LabelOf(priority) == Normalizer.Error
    ensures CategoryOf(priority) == Warning <==> Normalizer.LabelOf(priority) == Normalizer.Warn
    ensures CategoryOf(priority) == Debug <==> Normalizer.LabelOf(priority) == Normalizer.Info
  {
  }

  /** One call of `self.dbs[category].add_batch(model, batch)`; `returned` is false when it raised. */
  datatype Call = Call(category: Category, batch: seq<Record>, returned: bool)

  datatype State = State(buffers: map<Category, seq<Record>>, lastFlush: int, calls: seq<Call>)

  predicate WellFormed(st: State) {
    forall c: Category :: c in st.buffers
  }

  predicate AllBelowBatchSize(st: State)
    requires WellFormed(st)
  {
    |st.buffers[Error]| < BatchSize && |st.buffers[Warning]| < BatchSize && |st.buffers[Debug]| < BatchSize
  }

  /** `Engine._flush(cat)`: the buffer is cleared only once `add_batch` has returned. */
  function Flush(st: State, c: Category, fails: nat -> bool): (r: (State, bool))
    requires WellFormed(st)
    ensures WellFormed(r.0)
  {
    if st.buffers[c] == [] then (st, true)
    else
      var ok := !fails(|st.calls|);
      var calls := st.calls + [Call(c, st.buffers[c], ok)];
      (st.(calls := calls, buffers := if ok then st.buffers[c := []] else st.buffers), ok)
  }

  /** `for c in self.buffers: self._flush(c)`: an exception stops the remaining flushes. */
  function FlushEach(st: State, cs: seq<Category>, fails: nat -> bool): (r: (State, bool))
    requires WellFormed(st)
    ensures WellFormed(r.0)
    decreases |cs|
  {
    if cs == [] then (st, true)
    else
      var (st1, ok) := Flush(st, cs[0], fails);
      if !ok then (st1, false) else FlushEach(st1, cs[1..], fails)
  }

  /** What `input_queue.get(timeout=1.0)` produced: nothing, a record, or the `None` sentinel. */
  datatype Arrival = Timeout | Item(data: Record) | Sentinel

  /** One iteration of the loop: the arrival, then `time.time()` at the interval check and after the flush. */
  datatype Tick = Tick(arrival: Arrival, now: int, after: int)

  /** `Running`: the loop goes on; `Stopped`: the sentinel broke it; `Crashed`: `add_batch` raised out of it. */
  datatype Status = Running | Stopped | Crashed

  function TimeCheck(st: State, t: Tick, fails: nat -> bool): (r: (State, Status))
    requires WellFormed(st)
    ensures WellFormed(r.0)
  {
    if t.now - st.lastFlush > FlushInterval then
      var (st1, ok) := FlushEach(st, Categories, fails);
      if ok then (st1.(lastFlush := t.after), Running) else (st1, Crashed)
    else (st, Running)
  }

  /** One pass of the body of `Engine.process`. */
  function Step(st: State, t: Tick, fails: nat -> bool): (r: (State, Status))
    requires WellFormed(st)
    ensures WellFormed(r.0)
  {
    match t.arrival
    case Sentinel => (st, Stopped)
    case Timeout => TimeCheck(st, t, fails)
    case Item(d) =>
      var c := CategoryOf(PriorityOf(d));
      var st1 := st.(buffers := st.buffers[c := st.buffers[c] + [d]]);
      if |st1.buffers[c]| >= BatchSize then
        var (st2, ok) := Flush(st1, c, fails);
        if ok then TimeCheck(st2, t, fails) else (st2, Crashed)
      else TimeCheck(st1, t, fails)
  }

  /** How a run of the loop ended: the state, the status, and how many iterations it consumed. */
  datatype Outcome = Outcome(state: State, status: Status, consumed: nat)

  /** The loop over a finite run of iterations; it ends early on `Stopped` or `Crashed`. */
  function Run(st: State, ticks: seq<Tick>, fails: nat -> bool): Outcome
    requires WellFormed(st)
    decreases |ticks|
  {
    if ticks == [] then Outcome(st, Running, 0)
    else
      var (st1, s) := Step(st, ticks[0], fails);
      if s != Running then Outcome(st1, s, 1)
      else
        var o := Run(st1, ticks[1..], fails);
        o.(consumed := o.consumed + 1)
  }

  /**
   * Store calls number `before` up to `after` were made, and the run broke with an exception exactly at
   * the first of them that raised: when `crashed`, the last call raised and none before it did;
   * otherwise none of them raised.
   */
  predicate CrashedAtFirstFailure(fails: nat -> bool, before: nat, after: nat, crashed: bool) {
    && before <= after
    && (crashed ==> before < after && fails(after - 1))
    && (forall n: nat | before <= n < after && (!crashed || n < after - 1) :: !fails(n))
  }

  lemma CrashedAtFirstFailureChain(fails: nat -> bool, a: nat, b: nat, c: nat, crashed: bool)
    requires CrashedAtFirstFailure(fails, a, b, false) && CrashedAtFirstFailure(fails, b, c, crashed)
    ensures CrashedAtFirstFailure(fails, a, c, crashed)
  {
  }

  /** Everything the store has accepted for category `c`, in call order. */
  function Delivered(calls: seq<Call>, c: Category): seq<Record> {
    if calls == [] then []
    else
      var last := calls[|calls| - 1];
      Delivered(calls[..|calls| - 1], c) + (if last.category == c && last.returned then last.batch else [])
  }

  /** The record an arrival contributes to category `c`. */
  function RoutedOne(a: Arrival, c: Category): seq<Record> {
    match a
    case Item(d) => if CategoryOf(PriorityOf(d)) == c then [d] else []
    case _ => []
  }

  /** The records of category `c` among the arrivals, in arrival order. */
  function Routed(ticks: seq<Tick>, c: Category): seq<Record> {
    if ticks == [] then [] else RoutedOne(ticks[0].arrival, c) + Routed(ticks[1..], c)
  }

  /** Accepted records followed by the still-buffered ones, per category: nothing is lost or reordered. */
  function Pending(st: State, c: Category): seq<Record>
    requires WellFormed(st)
  {
    Delivered(st.calls, c) + st.buffers[c]
  }

  lemma DeliveredAppend(calls: seq<Call>, call: Call, c: Category)
    ensures Delivered(calls + [call], c)
      == Delivered(calls, c) + (if call.category == c && call.returned then call.batch else [])
  {
    assert (calls + [call])[..|calls|] == calls;
  }

  /** Flushing an empty buffer calls nothing and changes nothing. */
  lemma FlushEmptyIsNoop(st: State, c: Category, fails: nat -> bool)
    requires WellFormed(st) && st.buffers[c] == []
    ensures Flush(st, c, fails) == (st, true)
  {
  }

  /**
   * A flush hands the whole buffer, in arrival order, to the store of its category and clears it only
   * if `add_batch` returned; the other buffers and the clock are untouched, and no record is lost.
   */
  lemma FlushSpec(st: State, c: Category, fails: nat -> bool)
    requires WellFormed(st)
    ensures var (st1, ok) := Flush(st, c, fails);
      && WellFormed(st1)
      && st1.lastFlush == st.lastFlush
      && (forall d | d != c && d in st.buffers :: st1.buffers[d] == st.buffers[d])
      && (st.buffers[c] != [] ==> st1.calls == st.calls + [Call(c, st.buffers[c], ok)])
      && st1.buffers[c] == (if ok then [] else st.buffers[c])
      && (forall d | d in st.buffers :: Pending(st1, d) == Pending(st, d))
  {
    var (st1, ok) := Flush(st, c, fails);
    if st.buffers[c] != [] {
      forall d | d in st.buffers ensures Pending(st1, d) == Pending(st, d) {
        DeliveredAppend(st.calls, Call(c, st.buffers[c], ok), d);
      }
    }
  }

  lemma {:induction false} FlushEachSpec(st: State, cs: seq<Category>, fails: nat -> bool)
    requires WellFormed(st)
    decreases |cs|
    ensures var (st1, ok) := FlushEach(st, cs, fails);
      && WellFormed(st1)
      && st1.lastFlush == st.lastFlush
      && (forall d | d in st.buffers :: Pending(st1, d) == Pending(st, d))
      && (forall d | d in st.buffers :: st1.buffers[d] == [] || st1.buffers[d] == st.buffers[d])
      && (ok ==> forall d | d in cs :: st1.buffers[d] == [])
  {
    if cs != [] {
      FlushSpec(st, cs[0], fails);
      var (st1, ok) := Flush(st, cs[0], fails);
      if ok {
        FlushEachSpec(st1, cs[1..], fails);
        var (st2, ok2) := FlushEach(st1, cs[1..], fails);
        assert FlushEach(st, cs, fails) == (st2, ok2);
        forall d | d in cs && ok2 ensures st2.buffers[d] == [] {
          if d != cs[0] {
            assert d in cs[1..];
          }
        }
      }
    }
  }

  /** A flush makes at most one store call, and reports failure exactly when that call raised. */
  lemma FlushCrash(st: State, c: Category, fails: nat -> bool)
    requires WellFormed(st)
    ensures CrashedAtFirstFailure(fails, |st.calls|, |Flush(st, c, fails).0.calls|, !Flush(st, c, fails).1)
  {
  }

  lemma {:induction false} FlushEachCrash(st: State, cs: seq<Category>, fails: nat -> bool)
    requires WellFormed(st)
    ensures CrashedAtFirstFailure(fails, |st.calls|, |FlushEach(st, cs, fails).0.calls|, !FlushEach(st, cs, fails).1)
    decreases |cs|
  {
    if cs != [] {
      FlushCrash(st, cs[0], fails);
      var (st1, ok) := Flush(st, cs[0], fails);
      if ok {
        FlushEachCrash(st1, cs[1..], fails);
        CrashedAtFirstFailureChain(fails, |st.calls|, |st1.calls|, |FlushEach(st1, cs[1..], fails).0.calls|,
          !FlushEach(st1, cs[1..], fails).1);
      }
    }
  }

  lemma TimeCheckCrash(st: State, t: Tick, fails: nat -> bool)
    requires WellFormed(st)
    ensures CrashedAtFirstFailure(fails, |st.calls|, |TimeCheck(st, t, fails).0.calls|, TimeCheck(st, t, fails).1 == Crashed)
  {
    FlushEachCrash(st, Categories, fails);
  }

  /** After the interval check passes, every buffer is empty and the flush time is reset. */
  lemma TimeCheckSpec(st: State, t: Tick, fails: nat -> bool)
    requires WellFormed(st)
    ensures var (st1, s) := TimeCheck(st, t, fails);
      && WellFormed(st1)
      && s != Stopped
      && (forall d | d in st.buffers :: Pending(st1, d) == Pending(st, d))
      && (forall d | d in st.buffers :: st1.buffers[d] == [] || st1.buffers[d] == st.buffers[d])
      && (t.now - st.lastFlush <= FlushInterval ==> st1 == st && s == Running)
      && (t.now - st.lastFlush > FlushInterval && s == Running ==>
            st1.lastFlush == t.after && forall d | d in st1.buffers :: st1.buffers[d] == [])
      && CrashedAtFirstFailure(fails, |st.calls|, |st1.calls|, s == Crashed)
  {
    FlushEachSpec(st, Categories, fails);
    TimeCheckCrash(st, t, fails);
    var (st1, s) := TimeCheck(st, t, fails);
    if t.now - st.lastFlush > FlushInterval && s == Running {
      forall d | d in st1.buffers ensures st1.buffers[d] == [] {
        assert d in Categories by { assert d == Error || d == Warning || d == Debug; }
      }
    }
  }

  /** A record joins the end of its own category's buffer; the other buffers are untouched. */
  lemma AppendSpec(st: State, x: Record)
    requires WellFormed(st)
    ensures var c := CategoryOf(PriorityOf(x));
      var st1 := st.(buffers := st.buffers[c := st.buffers[c] + [x]]);
      && WellFormed(st1)
      && st1.buffers[c] == st.buffers[c] + [x]
      && (forall d | d != c :: st1.buffers[d] == st.buffers[d])
      && (forall d :: Pending(st1, d) == Pending(st, d) + RoutedOne(Item(x), d))
  {
  }

  /** The sentinel ends the loop without touching the state; every other arrival keeps it going or crashes it. */
  lemma StepStopsOnlyAtSentinel(st: State, t: Tick, fails: nat -> bool)
    requires WellFormed(st)
    ensures Step(st, t, fails).1 == Stopped <==> t.arrival == Sentinel
    ensures t.arrival == Sentinel ==> Step(st, t, fails).0 == st
  {
    if t.arrival.Item? {
      var c := CategoryOf(PriorityOf(t.arrival.data));
      var st1 := st.(buffers := st.buffers[c := st.buffers[c] + [t.arrival.data]]);
      if |st1.buffers[c]| >= BatchSize {
        var (st2, ok) := Flush(st1, c, fails);
        if ok {
          TimeCheckSpec(st2, t, fails);
        }
      } else {
        TimeCheckSpec(st1, t, fails);
      }
    } else if t.arrival.Timeout? {
      TimeCheckSpec(st, t, fails);
    }
  }

  /**
   * One iteration: a record is appended at the end of its own category's queue of pending records
   * (the others do not change), and nothing already pending is lost or reordered.
   */
  lemma StepConserves(st: State, t: Tick, fails: nat -> bool, c: Category)
    requires WellFormed(st)
    ensures Pending(Step(st, t, fails).0, c) == Pending(st, c) + RoutedOne(t.arrival, c)
  {
    match t.arrival
    case Sentinel =>
    case Timeout =>
      TimeCheckSpec(st, t, fails);
    case Item(x) =>
      var k := CategoryOf(PriorityOf(x));
      var st1 := st.(buffers := st.buffers[k := st.buffers[k] + [x]]);
      AppendSpec(st, x);
      if |st1.buffers[k]| >= BatchSize {
        FlushSpec(st1, k, fails);
        var (st2, ok) := Flush(st1, k, fails);
        if ok {
          TimeCheckSpec(st2, t, fails);
        }
      } else {
        TimeCheckSpec(st1, t, fails);
      }
  }

  /** A step that keeps the loop running leaves every buffer below the batch size. */
  lemma StepKeepsBuffersBelowBatchSize(st: State, t: Tick, fails: nat -> bool)
    requires WellFormed(st) && AllBelowBatchSize(st)
    ensures Step(st, t, fails).1 == Running ==> AllBelowBatchSize(Step(st, t, fails).0)
  {
    match t.arrival
    case Sentinel =>
    case Timeout =>
      TimeCheckSpec(st, t, fails);
    case Item(x) =>
      ItemKeepsBuffersBelowBatchSize(st, t, fails, x);
  }

  lemma ItemKeepsBuffersBelowBatchSize(st: State, t: Tick, fails: nat -> bool, x: Record)
    requires WellFormed(st) && AllBelowBatchSize(st) && t.arrival == Item(x)
    ensures Step(st, t, fails).1 == Running ==> AllBelowBatchSize(Step(st, t, fails).0)
  {
    var k := CategoryOf(PriorityOf(x));
    var st1 := st.(buffers := st.buffers[k := st.buffers[k] + [x]]);
    AppendSpec(st, x);
    if |st1.buffers[k]| >= BatchSize {
      FlushedBelowBatchSize(st, st1, k, fails);
      var (st2, ok) := Flush(st1, k, fails);
      if ok {
        TimeCheckKeepsBelow(st2, t, fails);
      }
    } else {
      assert AllBelowBatchSize(st1);
      TimeCheckKeepsBelow(st1, t, fails);
    }
  }

  /** A full buffer that is flushed successfully leaves every buffer below the batch size. */
  lemma FlushedBelowBatchSize(st: State, st1: State, k: Category, fails: nat -> bool)
    requires WellFormed(st) && AllBelowBatchSize(st) && WellFormed(st1)
    requires forall d | d != k :: st1.buffers[d] == st.buffers[d]
    ensures Flush(st1, k, fails).1 ==> AllBelowBatchSize(Flush(st1, k, fails).0)
  {
    FlushSpec(st1, k, fails);
  }

  lemma TimeCheckKeepsBelow(st: State, t: Tick, fails: nat -> bool)
    requires WellFormed(st) && AllBelowBatchSize(st)
    ensures TimeCheck(st, t, fails).1 == Running ==> AllBelowBatchSize(TimeCheck(st, t, fails).0)
  {
    TimeCheckSpec(st, t, fails);
  }

  /** One pass crashes exactly at the first of its store calls that raises. */
  lemma StepCrash(st: State, t: Tick, fails: nat -> bool)
    requires WellFormed(st)
    ensures CrashedAtFirstFailure(fails, |st.calls|, |Step(st, t, fails).0.calls|, Step(st, t, fails).1 == Crashed)
  {
    match t.arrival
    case Sentinel =>
    case Timeout =>
      TimeCheckCrash(st, t, fails);
    case Item(x) =>
      var k := CategoryOf(PriorityOf(x));
      var st1 := st.(buffers := st.buffers[k := st.buffers[k] + [x]]);
      if |st1.buffers[k]| >= BatchSize {
        FlushCrash(st1, k, fails);
        var (st2, ok) := Flush(st1, k, fails);
        if ok {
          TimeCheckCrash(st2, t, fails);
          CrashedAtFirstFailureChain(fails, |st.calls|, |st2.calls|, |TimeCheck(st2, t, fails).0.calls|,
            TimeCheck(st2, t, fails).1 == Crashed);
        }
      } else {
        TimeCheckCrash(st1, t, fails);
      }
  }

  /** The whole loop crashes exactly at the first store call that raises. */
  lemma {:induction false} RunCrash(st: State, ticks: seq<Tick>, fails: nat -> bool)
    requires WellFormed(st)
    ensures CrashedAtFirstFailure(fails, |st.calls|, |Run(st, ticks, fails).state.calls|, Run(st, ticks, fails).status == Crashed)
    decreases |ticks|
  {
    if ticks != [] {
      StepCrash(st, ticks[0], fails);
      var (st1, s) := Step(st, ticks[0], fails);
      if s == Running {
        RunCrash(st1, ticks[1..], fails);
        var o := Run(st1, ticks[1..], fails);
        assert Run(st, ticks, fails).state == o.state && Run(st, ticks, fails).status == o.status;
        CrashedAtFirstFailureChain(fails, |st.calls|, |st1.calls|, |o.state.calls|, o.status == Crashed);
      }
    }
  }

  /**
   * The loop stops at the first sentinel, crashes at the first failing store call, or runs to the end
   * of the input; a store that never raises never crashes it.
   */
  lemma RunStopsAtSentinel(st: State, ticks: seq<Tick>, fails: nat -> bool)
    requires WellFormed(st)
    ensures var o := Run(st, ticks, fails);
      && WellFormed(o.state)
      && o.consumed <= |ticks|
      && (o.status == Running ==> o.consumed == |ticks|)
      && (o.status == Stopped <==> o.consumed >= 1 && ticks[o.consumed - 1].arrival == Sentinel)
      && (forall i | 0 <= i < o.consumed - 1 :: ticks[i].arrival != Sentinel)
      && CrashedAtFirstFailure(fails, |st.calls|, |o.state.calls|, o.status == Crashed)
      && ((forall n: nat :: !fails(n)) ==> o.status != Crashed)
  {
    RunEndsAtSentinel(st, ticks, fails);
    RunCrash(st, ticks, fails);
  }

  lemma {:induction false} RunEndsAtSentinel(st: State, ticks: seq<Tick>, fails: nat -> bool)
    requires WellFormed(st)
    ensures var o := Run(st, ticks, fails);
      && WellFormed(o.state)
      && o.consumed <= |ticks|
      && (o.status == Running ==> o.consumed == |ticks|)
      && (o.status == Stopped <==> o.consumed >= 1 && ticks[o.consumed - 1].arrival == Sentinel)
      && (forall i | 0 <= i < o.consumed - 1 :: ticks[i].arrival != Sentinel)
    decreases |ticks|
  {
    if ticks != [] {
      StepStopsOnlyAtSentinel(st, ticks[0], fails);
      var (st1, s) := Step(st, ticks[0], fails);
      if s == Running {
        RunEndsAtSentinel(st1, ticks[1..], fails);
      }
    }
  }

  lemma RoutedPrefix(ticks: seq<Tick>, n: nat, c: Category)
    requires n < |ticks|
    ensures Routed(ticks[..n + 1], c) == RoutedOne(ticks[0].arrival, c) + Routed(ticks[1..][..n], c)
  {
    assert ticks[..n + 1][1..] == ticks[1..][..n];
  }

  /**
   * Across the whole loop, for each category, the records the store accepted followed by those still
   * buffered are exactly the arrivals of that category in arrival order, up to where the loop ended.
   */
  lemma {:induction false} RunConserves(st: State, ticks: seq<Tick>, fails: nat -> bool, c: Category)
    requires WellFormed(st)
    ensures var o := Run(st, ticks, fails);
      && WellFormed(o.state)
      && o.consumed <= |ticks|
      && Pending(o.state, c) == Pending(st, c) + Routed(ticks[..o.consumed], c)
    decreases |ticks|
  {
    if ticks != [] {
      StepConserves(st, ticks[0], fails, c);
      var step := Step(st, ticks[0], fails);
      if step.1 != Running {
        RoutedPrefix(ticks, 0, c);
      } else {
        RunConserves(step.0, ticks[1..], fails, c);
        RunConservesStep(st, ticks, fails, c);
      }
    }
  }

  /** The inductive step of `RunConserves`: the first iteration's records come before the rest's. */
  lemma RunConservesStep(st: State, ticks: seq<Tick>, fails: nat -> bool, c: Category)
    requires WellFormed(st) && ticks != []
    requires Step(st, ticks[0], fails).1 == Running
    requires Pending(Step(st, ticks[0], fails).0, c) == Pending(st, c) + RoutedOne(ticks[0].arrival, c)
    requires var st1 := Step(st, ticks[0], fails).0;
      var o1 := Run(st1, ticks[1..], fails);
      WellFormed(o1.state) && o1.consumed <= |ticks| - 1 && Pending(o1.state, c) == Pending(st1, c) + Routed(ticks[1..][..o1.consumed], c)
    ensures var o := Run(st, ticks, fails);
      WellFormed(o.state) && o.consumed <= |ticks| && Pending(o.state, c) == Pending(st, c) + Routed(ticks[..o.consumed], c)
  {
    var st1 := Step(st, ticks[0], fails).0;
    var o1 := Run(st1, ticks[1..], fails);
    var o := Run(st, ticks, fails);
    assert o.state == o1.state && o.consumed == o1.consumed + 1;
    RoutedPrefix(ticks, o1.consumed, c);
    Lists.AppendAssoc(Pending(st, c), RoutedOne(ticks[0].arrival, c), Routed(ticks[1..][..o1.consumed], c));
  }

  /** While the loop keeps running, no buffer ever reaches the batch size. */
  lemma {:induction false} RunKeepsBuffersBelowBatchSize(st: State, ticks: seq<Tick>, fails: nat -> bool)
    requires WellFormed(st) && AllBelowBatchSize(st)
    ensures var o := Run(st, ticks, fails);
      WellFormed(o.state) && (o.status == Running ==> AllBelowBatchSize(o.state))
    decreases |ticks|
  {
    if ticks != [] {
      StepKeepsBuffersBelowBatchSize(st, ticks[0], fails);
      var (st1, s) := Step(st, ticks[0], fails);
      if s == Running {
        RunKeepsBuffersBelowBatchSize(st1, ticks[1..], fails);
      }
    }
  }

  class Engine {
    var buffers: map<Category, seq<Record>>
    var lastFlush: int
    /** The calls made to the stores, in order. */
    var calls: seq<Call>

    function Snapshot(): State
      reads this
    {
      State(buffers, lastFlush, calls)
    }

    constructor (now: int)
      ensures buffers == map[Error := [], Warning := [], Debug := []]
      ensures lastFlush == now && calls == []
    {
      buffers := map[Error := [], Warning := [], Debug := []];
      lastFlush := now;
      calls := [];
    }

    /** `Engine._flush`. */
    method FlushCategory(c: Category, fails: nat -> bool) returns (ok: bool)
      requires WellFormed(Snapshot())
      modifies this
      ensures (Snapshot(), ok) == Flush(old(Snapshot()), c, fails)
    {
      ok := true;
      if buffers[c] != [] {
        ok := !fails(|calls|);
        calls := calls + [Call(c, buffers[c], ok)];
        if !ok {
          return;
        }
        buffers := buffers[c := []];
      }
    }

    method FlushAll(fails: nat -> bool) returns (ok: bool)
      requires WellFormed(Snapshot())
      modifies this
      ensures (Snapshot(), ok) == FlushEach(old(Snapshot()), Categories, fails)
    {
      ghost var st0 := Snapshot();
      var i := 0;
      ok := true;
      while i < |Categories|
        invariant 0 <= i <= |Categories|
        invariant WellFormed(Snapshot())
        invariant ok
        invariant FlushEach(st0, Categories, fails) == FlushEach(Snapshot(), Categories[i..], fails)
      {
        ghost var before := Snapshot();
        ok := FlushCategory(Categories[i], fails);
        FlushSpec(before, Categories[i], fails);
        if !ok {
          return;
        }
        i := i + 1;
      }
    }

    /** The interval check at the end of the loop body. */
    method CheckInterval(t: Tick, fails: nat -> bool) returns (status: Status)
      requires WellFormed(Snapshot())
      modifies this
      ensures (Snapshot(), status) == TimeCheck(old(Snapshot()), t, fails)
    {
      status := Running;
      if t.now - lastFlush > FlushInterval {
        var ok := FlushAll(fails);
        if !ok {
          return Crashed;
        }
        lastFlush := t.after;
      }
    }

    /** One pass of the loop body. */
    method StepOnce(t: Tick, fails: nat -> bool) returns (status: Status)
      requires WellFormed(Snapshot())
      modifies this
      ensures (Snapshot(), status) == Step(old(Snapshot()), t, fails)
    {
      match t.arrival
      case Sentinel =>
        return Stopped;
      case Timeout =>
        status := CheckInterval(t, fails);
      case Item(x) =>
        var cat := CategoryOf(PriorityOf(x));
        buffers := buffers[cat := buffers[cat] + [x]];
        if |buffers[cat]| >= BatchSize {
          var ok := FlushCategory(cat, fails);
          if !ok {
            return Crashed;
          }
        }
        status := CheckInterval(t, fails);
    }

    /** `Engine.process(input_queue)` over the iterations `ticks`; it returns how the loop ended. */
    method Process(ticks: seq<Tick>, fails: nat -> bool) returns (status: Status)
      requires WellFormed(Snapshot())
      modifies this
      ensures var o := Run(old(Snapshot()), ticks, fails); Snapshot() == o.state && status == o.status
    {
      ghost var st0 := Snapshot();
      var i := 0;
      while i < |ticks|
        invariant 0 <= i <= |ticks|
        invariant WellFormed(Snapshot())
        invariant Run(st0, ticks, fails).state == Run(Snapshot(), ticks[i..], fails).state
        invariant Run(st0, ticks, fails).status == Run(Snapshot(), ticks[i..], fails).status
      {
        ghost var before := Snapshot();
        assert ticks[i..][0] == ticks[i] && ticks[i..][1..] == ticks[i + 1..];
        status := StepOnce(ticks[i], fails);
        if status != Running {
          return;
        }
        i := i + 1;
      }
      status := Running;
    }
  }
}
