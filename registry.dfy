/**
 * The metric set the emission loops write to, seen abstractly, and one
 * emission loop (`metric.Send`). The set keeps one accumulator per identity;
 * each accumulator has a slot for each kind of metric: a counter total, a mark
 * that a gauge callback is registered, and the observations of a histogram and
 * of a summary.
 */
module Registry {
  import Wrappers
  import opened Text
  import opened Labels
  import opened Metrics

  datatype Kind = Counter | Gauge | Histogram | Summary

  /** The loop's `switch m.Type`: three names pick their kind, every other string, "" and "counter" included, picks a counter. */
  function KindOf(t: string): (k: Kind)
    ensures k == Counter <==> t != "histogram" && t != "summary" && t != "gauge"
  {
    if t == "histogram" then Histogram
    else if t == "summary" then Summary
    else if t == "gauge" then Gauge
    else Counter
  }

  /** Go's `int(x)` for an `x` in range: drops the fraction, rounding toward zero. */
  function Truncate(x: real): (n: int)
    ensures 0.0 <= x ==> 0 <= n && n as real <= x < n as real + 1.0
    ensures x < 0.0 ==> n <= 0 && n as real - 1.0 < x <= n as real
  {
    if 0.0 <= x then x.Floor else -((-x).Floor)
  }

  lemma TruncateWhole(n: int)
    ensures Truncate(n as real) == n
  {
  }

  datatype Accumulator = Accumulator(counter: int, gauge: bool, histogram: seq<real>, summary: seq<real>)

  /** What an identity that was never written holds. */
  const Unused := Accumulator(0, false, [], [])

  function Lookup(entries: map<string, Accumulator>, id: string): Accumulator
  {
    if id in entries then entries[id] else Unused
  }

  /** Every draw lies where `rand.Float64` puts it. */
  predicate Draws(draws: seq<real>)
  {
    forall i :: 0 <= i < |draws| ==> 0.0 <= draws[i] < 1.0
  }

  /** One pass of the loop body on the accumulator of the metric's identity, with `r` the draw `GetValue` uses. */
  function Step(acc: Accumulator, m: Metric, r: real): (next: Accumulator)
    requires 0.0 <= r < 1.0
    ensures KindOf(m.kind) != Counter ==> next.counter == acc.counter
    ensures next.gauge == (acc.gauge || KindOf(m.kind) == Gauge)
    ensures KindOf(m.kind) != Histogram ==> next.histogram == acc.histogram
    ensures KindOf(m.kind) == Histogram ==> |next.histogram| == |acc.histogram| + 1 && next.histogram[..|acc.histogram|] == acc.histogram
    ensures KindOf(m.kind) != Summary ==> next.summary == acc.summary
    ensures KindOf(m.kind) == Summary ==> |next.summary| == |acc.summary| + 1 && next.summary[..|acc.summary|] == acc.summary
  {
    match KindOf(m.kind)
    case Histogram => acc.(histogram := acc.histogram + [GetValue(m, r)])
    case Summary => acc.(summary := acc.summary + [GetValue(m, r)])
    case Gauge => acc.(gauge := true)
    case Counter => acc.(counter := acc.counter + Truncate(GetValue(m, r)))
  }

  /** The set after one pass for each draw, all under the identity `id`. */
  function Run(entries: map<string, Accumulator>, id: string, m: Metric, draws: seq<real>): (after: map<string, Accumulator>)
    requires Draws(draws)
    ensures draws != [] ==> id in after
    ensures after.Keys <= entries.Keys + {id}
  {
    if draws == [] then entries
    else
      var before := Run(entries, id, m, draws[..|draws| - 1]);
      before[id := Step(Lookup(before, id), m, draws[|draws| - 1])]
  }

  /** The values the passes produce, in order. */
  function Samples(m: Metric, draws: seq<real>): (s: seq<real>)
    requires Draws(draws)
    ensures |s| == |draws|
  {
    if draws == [] then []
    else Samples(m, draws[..|draws| - 1]) + [GetValue(m, draws[|draws| - 1])]
  }

  /**
   * Each kind string touches its own slot and no other: a histogram or a
   * summary gains exactly one observation, a gauge is marked registered, and
   * a counter grows by the value truncated toward zero.
   */
  lemma StepDispatch(acc: Accumulator, m: Metric, r: real)
    requires 0.0 <= r < 1.0
    ensures m.kind == "histogram" ==> Step(acc, m, r) == acc.(histogram := acc.histogram + [GetValue(m, r)])
    ensures m.kind == "summary" ==> Step(acc, m, r) == acc.(summary := acc.summary + [GetValue(m, r)])
    ensures m.kind == "gauge" ==> Step(acc, m, r) == acc.(gauge := true)
    ensures m.kind != "histogram" && m.kind != "summary" && m.kind != "gauge" ==>
      Step(acc, m, r) == acc.(counter := acc.counter + Truncate(GetValue(m, r)))
  {
  }

  /** Only the loop's own identity is written; every other identity keeps what it held, or stays absent. */
  lemma {:induction false} RunLeavesOthers(entries: map<string, Accumulator>, id: string, m: Metric, draws: seq<real>, other: string)
    requires Draws(draws) && other != id
    ensures other in Run(entries, id, m, draws) <==> other in entries
    ensures other in entries ==> Run(entries, id, m, draws)[other] == entries[other]
  {
    if draws != [] {
      RunLeavesOthers(entries, id, m, draws[..|draws| - 1], other);
    }
  }

  /** However many passes run, the identity has a single entry, created by the first pass. */
  lemma {:induction false} RunKeys(entries: map<string, Accumulator>, id: string, m: Metric, draws: seq<real>)
    requires Draws(draws)
    ensures Run(entries, id, m, draws).Keys == if draws == [] then entries.Keys else entries.Keys + {id}
  {
    if draws != [] {
      RunKeys(entries, id, m, draws[..|draws| - 1]);
    }
  }

  /** A counter with a fixed value grows by that value on every pass (10 after two passes of 5, 15 after three). */
  lemma {:induction false} FixedCounterRun(entries: map<string, Accumulator>, id: string, m: Metric, draws: seq<real>)
    requires Draws(draws)
    requires KindOf(m.kind) == Counter && m.randomValue.None?
    ensures Lookup(Run(entries, id, m, draws), id) ==
      Lookup(entries, id).(counter := Lookup(entries, id).counter + |draws| * m.value)
  {
    if draws != [] {
      var earlier, last := draws[..|draws| - 1], draws[|draws| - 1];
      var n, start := |earlier|, Lookup(entries, id);
      var previous := Lookup(Run(entries, id, m, earlier), id);
      FixedCounterRun(entries, id, m, earlier);
      assert previous == start.(counter := start.counter + n * m.value);
      RunLast(entries, id, m, draws);
      FixedCounterStep(previous, m, last);
      assert Lookup(Run(entries, id, m, draws), id) == previous.(counter := previous.counter + m.value);
      var total := start.counter + |draws| * m.value;
      assert previous.counter + m.value == total by {
        MultiplySuccessor(n, m.value);
      }
      assert previous.(counter := previous.counter + m.value) == start.(counter := total);
    }
  }

  lemma MultiplySuccessor(n: nat, v: int)
    ensures (n + 1) * v == n * v + v
  {
  }

  /** The identity's accumulator after the passes is one step on what the earlier passes left. */
  lemma RunLast(entries: map<string, Accumulator>, id: string, m: Metric, draws: seq<real>)
    requires Draws(draws) && draws != []
    ensures Lookup(Run(entries, id, m, draws), id) ==
      Step(Lookup(Run(entries, id, m, draws[..|draws| - 1]), id), m, draws[|draws| - 1])
  {
  }

  /** A pass of a counter with a fixed value adds exactly that value. */
  lemma FixedCounterStep(acc: Accumulator, m: Metric, r: real)
    requires 0.0 <= r < 1.0
    requires KindOf(m.kind) == Counter && m.randomValue.None?
    ensures Step(acc, m, r) == acc.(counter := acc.counter + m.value)
  {
    TruncateWhole(m.value);
  }

  /** A histogram records exactly the produced values, in the order they were produced. */
  lemma {:induction false} HistogramRun(entries: map<string, Accumulator>, id: string, m: Metric, draws: seq<real>)
    requires Draws(draws)
    requires KindOf(m.kind) == Histogram
    ensures Lookup(Run(entries, id, m, draws), id) ==
      Lookup(entries, id).(histogram := Lookup(entries, id).histogram + Samples(m, draws))
  {
    if draws != [] {
      HistogramRun(entries, id, m, draws[..|draws| - 1]);
    }
  }

  /** A summary records exactly the produced values, in the order they were produced. */
  lemma {:induction false} SummaryRun(entries: map<string, Accumulator>, id: string, m: Metric, draws: seq<real>)
    requires Draws(draws)
    requires KindOf(m.kind) == Summary
    ensures Lookup(Run(entries, id, m, draws), id) ==
      Lookup(entries, id).(summary := Lookup(entries, id).summary + Samples(m, draws))
  {
    if draws != [] {
      SummaryRun(entries, id, m, draws[..|draws| - 1]);
    }
  }

  /** A gauge only registers its callback: after any pass it is marked, and nothing else changes. */
  lemma {:induction false} GaugeRun(entries: map<string, Accumulator>, id: string, m: Metric, draws: seq<real>)
    requires Draws(draws) && draws != []
    requires KindOf(m.kind) == Gauge
    ensures Lookup(Run(entries, id, m, draws), id) == Lookup(entries, id).(gauge := true)
  {
    if |draws| > 1 {
      GaugeRun(entries, id, m, draws[..|draws| - 1]);
    }
  }

  /** With a random range, every produced value lies in [min, max); without one, every value is the fixed value. */
  lemma {:induction false} SamplesBounds(m: Metric, draws: seq<real>)
    requires Draws(draws)
    ensures m.randomValue.None? ==> forall x :: x in Samples(m, draws) ==> x == m.value as real
    ensures m.randomValue.Some? && m.randomValue.value.min < m.randomValue.value.max ==>
      forall x :: x in Samples(m, draws) ==> m.randomValue.value.min <= x < m.randomValue.value.max
  {
    if draws != [] {
      SamplesBounds(m, draws[..|draws| - 1]);
    }
  }

  /** The definition of the counter `requests` labelled `env="prod"` with the fixed value 5, every second. */
  function RequestsCounter(): Metric
  {
    Metric("counter", "requests", map["env" := "prod"], 5, 1_000_000_000, Wrappers.None)
  }

  lemma RequestsIdentity()
    ensures Identity(RequestsCounter()) == "requests{env=\"prod\"}"
  {
    PairsOne("env", "prod");
    CanonicalOf(map["env" := "prod"], [Render("env", "prod")]);
    assert Join([Render("env", "prod")], ",") == "env=\"prod\"";
  }

  /** The `requests` counter is recorded as `requests{env="prod"}` and totals 10 after two passes and 15 after three. */
  lemma RequestsCounterScenario(draws: seq<real>)
    requires Draws(draws) && (|draws| == 2 || |draws| == 3)
    ensures Lookup(Run(map[], "requests{env=\"prod\"}", RequestsCounter(), draws), "requests{env=\"prod\"}").counter
      == if |draws| == 2 then 10 else 15
  {
    FixedCounterRun(map[], "requests{env=\"prod\"}", RequestsCounter(), draws);
  }

  /** The abstract state of the `metrics.Set` shared by all emission loops. */
  class Registry {
    var entries: map<string, Accumulator>

    /** `metrics.NewSet`: nothing is registered. */
    constructor ()
      ensures entries == map[]
    {
      entries := map[];
    }

    function Get(id: string): Accumulator
      reads this
    {
      Lookup(entries, id)
    }

    /** `GetOrCreateCounter(id).Add(n)`. */
    method CounterAdd(id: string, n: int)
      modifies this
      ensures entries == old(entries)[id := old(Get(id)).(counter := old(Get(id)).counter + n)]
    {
      var acc := Get(id);
      entries := entries[id := acc.(counter := acc.counter + n)];
    }

    /** `GetOrCreateGauge(id, f)`: registers the callback that is evaluated when the set is rendered. */
    method GaugeRegister(id: string)
      modifies this
      ensures entries == old(entries)[id := old(Get(id)).(gauge := true)]
    {
      var acc := Get(id);
      entries := entries[id := acc.(gauge := true)];
    }

    /** `GetOrCreateHistogram(id).Update(v)`. */
    method HistogramUpdate(id: string, v: real)
      modifies this
      ensures entries == old(entries)[id := old(Get(id)).(histogram := old(Get(id)).histogram + [v])]
    {
      var acc := Get(id);
      entries := entries[id := acc.(histogram := acc.histogram + [v])];
    }

    /** `GetOrCreateSummary(id).Update(v)`. */
    method SummaryUpdate(id: string, v: real)
      modifies this
      ensures entries == old(entries)[id := old(Get(id)).(summary := old(Get(id)).summary + [v])]
    {
      var acc := Get(id);
      entries := entries[id := acc.(summary := acc.summary + [v])];
    }

    /** One pass of the body of `metric.Send`'s loop: the switch on the metric's type string. */
    method Emit(m: Metric, fullName: string, r: real)
      requires 0.0 <= r < 1.0
      modifies this
      ensures entries == old(entries)[fullName := Step(old(Get(fullName)), m, r)]
    {
      if m.kind == "histogram" {
        HistogramUpdate(fullName, GetValue(m, r));
      } else if m.kind == "summary" {
        SummaryUpdate(fullName, GetValue(m, r));
      } else if m.kind == "gauge" {
        GaugeRegister(fullName);
      } else {
        CounterAdd(fullName, Truncate(GetValue(m, r)));
      }
    }
  }

  /**
   * `metric.Send`: the identity is computed once, before the loop; each pass
   * then writes one sample under it. The source loops forever, sleeping for
   * the metric's interval after each pass; here one pass runs per draw.
   */
  method Send(m: Metric, s: Registry, draws: seq<real>) returns (fullName: string)
    requires Draws(draws)
    modifies s
    ensures fullName == Identity(m)
    ensures s.entries == Run(old(s.entries), fullName, m, draws)
  {
    var labelText := Format(m.labels);
    fullName := m.name + "{" + labelText + "}";
    var i := 0;
    while i < |draws|
      invariant 0 <= i <= |draws|
      invariant s.entries == Run(old(s.entries), fullName, m, draws[..i])
    {
      s.Emit(m, fullName, draws[i]);
      assert draws[..i + 1][..i] == draws[..i];
      i := i + 1;
    }
    assert draws[..i] == draws;
  }
}
