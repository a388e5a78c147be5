# Synthetic metrics generator: a Dafny model of its core

The generator reads a YAML configuration. It starts one emission loop per
configured metric, and each loop keeps writing samples into a shared
VictoriaMetrics metric set. That set is pushed to an import URL and also
served over HTTP. This project models the deterministic core of
`src/main.go` and proves properties of it:

- **Label sets** (`labels.String`, `labels.dfy`). Each entry is written as
  `key="value"`, with no escaping. The written entries are sorted as whole
  strings in byte order (`sort.Strings`) and joined with commas. `Format` is
  the imperative method, with the map walked in an unspecified order, the
  slice sorted in place and then joined. It is proved equal to `Canonical`,
  a reference definition over the multiset of written entries. The sort is
  on the whole written entry, not on the key: `{a: "1", a0: "2"}` gives
  `a0="2",a="1"`, so the entries are not in key order (`PairOrderIsNotKeyOrder`).
  Because nothing is
  escaped, two different label maps can have the same string. That is
  proved too.
- **String order and sorting** (`lex.dfy`). The byte order of Go strings is
  code-point lexicographic order on `seq<char>`. It is proved to be a total
  order. The in-place insertion sort that stands for `sort.Strings` is proved
  to sort and to permute. The sorted arrangement of a multiset is proved
  unique.
- **Values** (`metric.dfy`). `GetValue` returns the fixed value, or
  `min + (max - min) * r` with the draw `r` in [0, 1). Bounds are proved for
  each ordering of `min` and `max`. The identity a metric's samples are
  recorded under is `name{labels}`.
- **Emission** (`registry.dfy`). The metric set is modelled abstractly: one
  accumulator per identity, holding a counter total, a registered-gauge mark
  and the histogram and summary observations. `Send` computes the identity
  once. It then runs the `switch` once per draw:
  - `histogram` and `summary` record the value;
  - `gauge` registers its callback;
  - every other type string adds the value truncated toward zero to a
    counter.

  `Send` is proved equal to a reference fold `Run`, and per-kind lemmas state
  what a run leaves behind.
- **Configuration** (`config.dfy`). `newConfig` falls back to
  `./default_config.yml` and fills in the defaults:
  - import URL `http://localhost:8428/api/v1/import/prometheus`;
  - port 8080;
  - push interval 10 s.

  The defaults are idempotent. `GetListenAddr` is `host:port`; splitting it
  at its last colon and parsing the decimal port gives back both fields.
- **Supporting text functions** (`text.dfy`): `strings.Join` with a
  `Split` partner, and `%d` decimal formatting with a parser partner.
  `Wrappers.Option` and `Wrappers.Result` (`wrappers.dfy`) model
  absent values and errors.

Integers are unbounded and `float64` is modelled as `real`.

## Model

| member | source | states |
|---|---|---|
| Lex.LexLeTotal | src/main.go:26 | Any two strings are comparable in the order `sort.Strings` uses |
| Lex.LexLeAntisymmetric | src/main.go:26 | Two strings that each sort before or equal to the other are equal |
| Lex.LexLeTransitive | src/main.go:26 | The string order is transitive |
| Lex.SortStrings | src/main.go:26 | Sorting the slice in place leaves it sorted and a permutation of what it held |
| Lex.InsertSorted | src/main.go:26 | Inserting into a sorted sequence keeps it sorted; the reference sort is built from this |
| Lex.SortedUnique | src/main.go:26-27 | Two sorted sequences with the same elements are equal, so the joined string does not depend on how the slice was filled |
| Text.Join | src/main.go:27 | `strings.Join` of no parts is empty, and the joined string starts with the first part |
| Text.NatDecimal | src/main.go:100 | The `%d` digits of a natural number are non-empty decimal digits without a leading zero, and `0` is written `0` |
| Text.IntDecimal | src/main.go:100 | `%d` writes a minus sign exactly for negative numbers, then digits without a leading zero |
| Text.SplitJoin | src/main.go:27 | Joining pieces free of the separator and splitting at the separator gives the pieces back |
| Text.SplitAtLastOf | src/main.go:100 | Splitting `h + ":" + t` at its last colon gives `h` and `t` when `t` has no colon |
| Text.ParseIntDecimal | src/main.go:100 | The `%d` rendering of any integer parses back to that integer and holds no colon |
| Labels.Render | src/main.go:23 | A written entry is three characters longer than its key and value together |
| Labels.RenderParts | src/main.go:23 | A written entry is the key, `="`, the value and a closing quote, in that order |
| Labels.Canonical | src/main.go:19-28 | The reference label string, over the sorted multiset of written entries, is empty exactly when there are no labels |
| Labels.PairsOfRemove | src/main.go:22-24 | The multiset of written entries does not depend on the order the keys are taken in |
| Labels.Format | src/main.go:19-28 | `labels.String` returns the canonical string: the written entries, sorted, joined with commas |
| Labels.CanonicalOf | src/main.go:26-27 | Any sorted arrangement of the written entries joins to the canonical string |
| Labels.CanonicalAnyOrder | src/main.go:22-27 | Whatever order the map is walked in, sorting and joining gives the canonical string |
| Labels.CanonicalEmpty | src/main.go:19-28 | An empty label map gives the empty string |
| Labels.CanonicalSplit | src/main.go:23-27 | With no comma in keys or values, the string splits back into exactly the written entries, sorted, one per label |
| Labels.PairOrderIsNotKeyOrder | src/main.go:23-26 | When a key is extended by a character below `=`, the longer key's entry comes first, against key order |
| Labels.UnescapedLabelsCollide | src/main.go:23 | A value ending in `",k2="v2` gives the same string as a second label `k2="v2"`, though the maps differ |
| Metrics.GetValue | src/main.go:44-49 | Without a random range, the fixed value; with one, a value in [min, max), or (max, min] when reversed, or min when they are equal |
| Metrics.Interpolate | src/main.go:48 | The point a draw in [0, 1) picks between two bounds reaches the first bound and never the second |
| Metrics.GetValueFormula | src/main.go:48 | With a random range, the value is `min + (max - min) * r` |
| Metrics.InterpolateFormula | src/main.go:48 | That point is `min + (max - min) * r` |
| Metrics.GetValueMonotonic | src/main.go:48 | With `min <= max`, a larger draw never gives a smaller value |
| Metrics.Identity | src/main.go:114 | The identity is the name, then `{`, and ends in `}`; it is exactly `name{}` long when there are no labels |
| Metrics.IdentityWithoutLabels | src/main.go:114 | A metric without labels is recorded as `name{}` |
| Metrics.IdentitiesCollide | src/main.go:114 | Two definitions with the same name and differently split labels share an identity |
| Registry.KindOf | src/main.go:119-131 | The type string picks a counter exactly when it is none of `histogram`, `summary`, `gauge` |
| Registry.Truncate | src/main.go:130 | `int(x)` rounds toward zero: `n <= x < n+1` for `x >= 0` and `n-1 < x <= n` below zero |
| Registry.TruncateWhole | src/main.go:130 | A whole value is added to a counter unchanged |
| Registry.Step | src/main.go:119-131 | One pass changes only the slot of its kind: a gauge is marked, a histogram or summary gains one value at its end, and a counter is the only kind that changes the total |
| Registry.Run | src/main.go:118-133 | The reference fold of the passes creates the loop's identity once a pass has run and no other entry |
| Registry.StepDispatch | src/main.go:119-131 | Each case of the switch changes only its own slot of the accumulator |
| Registry.Registry.constructor | src/main.go:90 | A new metric set holds nothing |
| Registry.Registry.CounterAdd | src/main.go:129-130 | The counter of the identity grows by `n`; every other identity is unchanged |
| Registry.Registry.GaugeRegister | src/main.go:127 | The identity is marked as a registered gauge; every other identity is unchanged |
| Registry.Registry.HistogramUpdate | src/main.go:121-122 | The histogram of the identity gains the value at its end; every other identity is unchanged |
| Registry.Registry.SummaryUpdate | src/main.go:124-125 | The summary of the identity gains the value at its end; every other identity is unchanged |
| Registry.Registry.Emit | src/main.go:119-131 | One pass of the switch leaves the set as the reference step on the identity's accumulator |
| Registry.Send | src/main.go:113-134 | The identity is `name{canonical labels}`, and after the passes the set equals the reference fold of one step per draw |
| Registry.RunLeavesOthers | src/main.go:118-133 | A loop writes only its own identity; every other entry is kept or stays absent |
| Registry.RunKeys | src/main.go:118-133 | After at least one pass the identity has exactly one entry, and no other is created |
| Registry.FixedCounterRun | src/main.go:128-130 | A counter with a fixed value grows by the value on every pass |
| Registry.HistogramRun | src/main.go:120-122 | A histogram records exactly the produced values, in order |
| Registry.SummaryRun | src/main.go:123-125 | A summary records exactly the produced values, in order |
| Registry.GaugeRun | src/main.go:126-127 | A gauge is marked after any pass and nothing else in its accumulator changes |
| Registry.SamplesBounds | src/main.go:44-49 | Every produced value is the fixed value, or lies in [min, max) |
| Registry.RequestsIdentity | src/main.go:114 | The counter `requests` labelled `env="prod"` is recorded as `requests{env="prod"}` |
| Registry.RequestsCounterScenario | src/main.go:113-133 | That counter with value 5 totals 10 after two passes and 15 after three |
| Config.ConfigFileName | src/main.go:63-64 | An empty file name falls back to `./default_config.yml`; any other name is kept |
| Config.WithDefaults | src/main.go:78-88 | An empty import URL becomes `http://localhost:8428/api/v1/import/prometheus`, a zero port 8080 and a zero push interval 10 s; set fields are kept and the others are untouched |
| Config.WithDefaultsIdempotent | src/main.go:78-88 | Defaulting twice is the same as defaulting once |
| Config.WithDefaultsFixedPoint | src/main.go:78-88 | The defaults change nothing exactly when no defaulted field is empty or zero |
| Config.Config.constructor | src/main.go:51-60 | The parsed settings, with a fresh, empty metric set |
| Config.Config.ApplyDefaults | src/main.go:78-88 | The three in-place defaulting statements leave the fields equal to the reference defaulting |
| Config.Config.ListenAddr | src/main.go:99-101 | `host:port`, which splits at its last colon into the host and the decimal port, and the port parses back |
| Config.NewConfig | src/main.go:62-97 | Fails when the file is absent; otherwise succeeds exactly when `InitPush` on the defaulted settings succeeds, returning them with a new, empty metric set |

## Left out

- `main`, `GetMetrics` and the HTTP server: I/O. Only the listen address is modelled.
- Reading the file and decoding YAML: `NewConfig` takes a map from file names to decoded settings. A name without an entry stands for a read or decode error.
- A YAML document that decodes to nothing leaves the config nil, and the defaulting statements then dereference it. The model decodes every file to a settings record, so this case is not modelled.
- `metrics.NewSet`, `InitPush`, `WritePrometheus` and the internals of counters, gauges, histograms and summaries belong to a library and are not part of this model. `InitPush` is a function parameter returning its error. The set is an abstract map of accumulators; a histogram or summary is the list of its observations.
- A second definition that reuses an identity with a different kind: the library rejects it at run time. The model gives each identity one slot per kind.
- `Start`, the goroutines and `time.Sleep`: `Send` runs one pass per element of a finite list of draws, which stands for a prefix of the endless loop. Interleavings between loops are not modelled.
- `rand.Float64`: the draw is a parameter in [0, 1).
- Logging calls.
- Metrics.GetValue: models `float64` arithmetic as exact reals, so IEEE rounding is not captured. The `[min, max)` bound can fail in floating point when rounding reaches `max`.
- Metrics.Interpolate: computes `min + (max - min) * r` separately for each sign of the width. `InterpolateFormula` proves it equal to the single formula.
- Registry.Truncate: `int(x)` on a value outside the 64-bit range is implementation-defined in Go and is not modelled.
- Registry.Registry.CounterAdd: the library counter is unsigned 64-bit, so a negative addend wraps around. The model adds unbounded integers, so the counter is not claimed to be monotonic.
- Lex.SortStrings: stands for `sort.Strings` by an insertion sort. Only the result matters (sorted and a permutation), and that is unique.
- Labels.Format: the slice is built as a sequence and copied into an array for the in-place sort; the slice's capacity is not modelled.
