# edge/logger — a Dafny model of the leveled logger's core

This project models the core of a severity-leveled logging library written
in Go, and proves properties of that model with Dafny.

The repository holds two variants of the logger, and they are kept apart
here:

- **The native variant.** It has a severity ladder of six ordinals
  (Fatal = 0 … Trace = 5, stored in a `uint8`), each with an upper-case text
  and an ANSI colour. Labels are key/value pairs kept sorted by key. Entries
  carry a context name, their own labels, a severity and a message. Twelve
  terminal methods set the severity and message and hand the entry to the
  instance. The reference stdout handler picks the output stream and renders
  the labels as space-joined `key=value` tokens.
  Modules: `Severities`, `Labels`, `Entries`, `Stdout`.
- **The logrus-backed variant.** It has a table from integer ratings to
  logrus levels, the level selections built from that table, a
  level-by-name setter, and a UI hook that merges the instance's UI fields (`uiData`, one map per
  `Instance`) into the data of every entry that instance logs at one of the
  hook's six levels (`UiHook.Levels`).
  Modules: `LevelTable`, `UiHook`, `Logger`.

Shared modules:

- `Ints`: Go's `uint8` and `uint16`.
- `Wrappers`: `Option`, plus `Lookup` for Go's `(value, ok)` results.
- `Values`: Go `interface{}` values as the type switches see them: a string,
  a `func() string` producer, or anything else.
- `Strings`: Go's string order, the `strings.Join` that `formatLabels`
  calls (stdout.go:57), and `Split` and `Cut`, used only to state the
  rendering round trips.

How the model treats the things it cannot see:

- **String order.** Go's `<` on strings compares bytes. For valid UTF-8
  text, byte order is the same as code-point order, so `Strings.Less`
  compares characters one by one and gets the same order on every string
  the model can hold (see "## Left out" for invalid UTF-8). Dafny's own `<` on sequences means "proper
  prefix", so it is not used.
- **Producers.** A producer may have side effects (a counter, a clock). Its
  result is whatever it returns at the moment of the call. Every operation
  that calls producers therefore takes a parameter `run: nat -> string`
  giving those results.
- **Map iteration order.** Go ranges over maps in an unspecified order.
  `GetLevelsFromInt`, `GetLevelsFromLevel` and `Fire` model this by picking
  any key not yet visited (`:|`). Their contracts hold for every order.
- **`Instance.Log` of the native variant** is not part of this model.
  `Entries.Log` is an abstract dispatcher with only a threshold: an entry is
  forwarded exactly when `severity <= minSeverity`. The tests in
  logger_test.go assert only the drop half (lines 117-124: an entry is
  dropped when the threshold is one step more severe). That an entry at or
  below the threshold is forwarded is inferred from what the handlers at
  lines 91-99 and 110-112 expect to receive; they check fields only when
  they are called.
- **`fmt.Sprintf`** is a parameter `sprintf` of the `*f` methods.
  **`logrus.AllLevels`** is a parameter `allLevels`.

Behaviours of the code the model follows:

- `Entry.Label` stores a producer as it is, and `Label.Val` calls it every
  time the label is rendered (labels.go:34-35, stdout.go:55). So the model
  calls producers at rendering time, not when an entry is created.
- `Entry.Label` overwrites only the *first* label with the key
  (entry.go:57-61). `Entries.Label` does the same. It keeps keys unique
  whenever they were unique before.

## Model

| member | source | states |
|---|---|---|
| Severities.Ladder | severity.go:3-36 | The six constants are exactly 0..5, Fatal the most severe, in the order Fatal < Error < Warn < Info < Debug < Trace. |
| Severities.SeveritiesTable | severity.go:38-60 | The text table is keyed by exactly the ordinals 0..5, has six entries, shares its keys with the colour table, and no two ordinals share a text. |
| Severities.IntToColor | severity.go:62-79 | Every known ordinal gets the colour the colour table lists for it; every other ordinal gets grey (37), and the call never fails. |
| Severities.IntToText | severity.go:81-107 | `ok` holds exactly for the ordinals in the text table, and then the text is the one the table lists; otherwise the text is empty. |
| Severities.TextToInt | severity.go:109-135 | `ok` holds exactly for the texts the table lists, and then the table maps the returned ordinal back to that text; otherwise the ordinal is the zero value. |
| Severities.OrdinalRoundTrip | severity.go:81-135 | For each of the six ordinals, ordinal to text to ordinal gives the same ordinal with `ok`. |
| Severities.TextRoundTrip | severity.go:109-135 | For every accepted text, text to ordinal to text gives the same text with `ok`. |
| Severities.UnknownOrdinal | severity.go:62-107 | An ordinal above 5 has empty text with `ok` false, and colour 37. |
| Severities.TextToIntAccepts | severity.go:109-135 | Exactly the six upper-case texts parse; "", "info" and "Warn" do not. |
| Strings.LessIsLexicographic | labels.go:12 | The model of Go's string `<` is the textbook lexicographic order: either a proper prefix, or smaller at the first position where the strings differ. |
| Strings.LessTransitive | labels.go:12 | The string order is transitive. |
| Strings.LessTotal | labels.go:12 | Any two different strings are ordered one way or the other. |
| Labels.LessIsStrictOrder | labels.go:12 | `Less(i, j)` is irreflexive, asymmetric and transitive, and it orders any two positions whose keys differ. |
| Labels.Swap | labels.go:11 | Positions i and j exchange their labels, every other position is unchanged, and the multiset of labels is the same. |
| Labels.Sort | labels.go:14-17 | The result is sorted ascending by key, is a permutation of the input (same multiset, same length, same key set), and keeps unique keys unique. |
| Labels.OutRoundTrip | labels.go:24-27 | Cutting `Out()` at its first `=` gives back the key and `Val()`, provided the key has no `=`. |
| Labels.ValOnlyProducersVary | labels.go:29-39 | `Val` of a string is that string, of a producer is the producer's result at call time, of any other value is "". Only producers depend on the moment of the call. |
| Entries.FindKey | entry.go:57-62 | The scan finds the first position whose key is `k`, and finds nothing exactly when no label has that key. |
| Entries.Place | entry.go:56-64 | Before the re-sort, an existing key's first label is exchanged for the new one and the length is unchanged. An absent key gets exactly one new label appended. The key set gains `k`, and unique keys stay unique. |
| Entries.ReplaceKeepsKeys | entry.go:57-60 | Overwriting a label in place with one of the same key keeps the key set and key uniqueness, and exchanges exactly that one label. |
| Entries.Label | entry.go:55-68 | The same entry comes back with context, severity and message unchanged. Its labels are sorted and hold (k, v). An existing key keeps the length and replaces the label found by the scan. An absent key adds exactly one label. Unique keys stay unique. |
| Entries.LabelIsMapUpdate | entry.go:55-68 | With unique keys, `Label` is a map update: afterwards the labels are (k, v) plus every earlier label with a different key. |
| Entries.Log | logger_test.go:108-125 | The rule the tests are built around (the drop half asserted at lines 117-124, the forward half inferred from the handlers): the instance forwards the entry unchanged exactly when its severity ordinal is at most the threshold, and drops it otherwise. |
| Entries.Vlog | entry.go:90-94 | Severity and message are set to the arguments, context and labels are unchanged, and the entry is handed to the instance once. |
| Entries.Vlogf | entry.go:96-99 | As `Vlog`, with the message the one-element sequence holding the formatted string. |
| Entries.Debug | entry.go:15-18 | Emits at Debug (4) with the raw arguments as the message. |
| Entries.Debugf | entry.go:20-23 | Emits at Debug (4) with the formatted string as the only message element. |
| Entries.Error | entry.go:25-28 | Emits at Error (1) with the raw arguments as the message. |
| Entries.Errorf | entry.go:30-33 | Emits at Error (1) with the formatted string as the only message element. |
| Entries.Fatal | entry.go:35-38 | Emits at Fatal (0) with the raw arguments as the message. |
| Entries.Fatalf | entry.go:40-43 | Emits at Fatal (0) with the formatted string as the only message element. |
| Entries.Info | entry.go:45-48 | Emits at Info (3) with the raw arguments as the message. |
| Entries.Infof | entry.go:50-53 | Emits at Info (3) with the formatted string as the only message element. |
| Entries.Trace | entry.go:70-73 | Emits at Trace (5) with the raw arguments as the message. |
| Entries.Tracef | entry.go:75-78 | Emits at Trace (5) with the formatted string as the only message element. |
| Entries.Warn | entry.go:80-83 | Emits at Warn (2) with the raw arguments as the message. |
| Entries.Warnf | entry.go:85-88 | Emits at Warn (2) with the formatted string as the only message element. |
| Entries.ThresholdFilter | logger_test.go:107-125 | An entry is forwarded when the threshold equals its severity (inferred from the handlers' expectations). It is dropped when the threshold is one step more severe. Fatal is forwarded at every threshold. |
| Entries.SecondTerminalCall | entry.go:90-94 | No guard: a second terminal call overwrites severity and message and dispatches again, exactly as if it were the first. |
| Entries.CheckoutScenario | entry.go:55-94 | Start from context "payment" with label service=checkout. Add order=42 and log at Error against an Info threshold. The handler receives both labels in key order, severity Error and the message. |
| Stdout.Log | stdout.go:25-33 | Entries with severity at most Error go to stderr and all others to stdout; nil is returned on both paths. |
| Stdout.Routing | stdout.go:26-33 | Fatal and Error go to stderr; Warn, Info, Debug, Trace and every unknown ordinal above 5 go to stdout. |
| Stdout.Outs | stdout.go:53-56 | One `key=value` rendering per label, in stored order. |
| Stdout.FormatLabels | stdout.go:52-58 | No labels render as the empty string. |
| Stdout.FormatLabelsRoundTrip | stdout.go:52-58 | Splitting the rendered labels at spaces, and each piece at its first `=`, gives back every key and rendered value in stored order. This needs keys without spaces or `=` and values without spaces. |
| Stdout.SeverityDisplay | stdout.go:39-40 | A known ordinal gets the table's text and colour. An unknown one gets empty text in grey. |
| LevelTable.TableShape | logger.go:25-33 | The rating table is keyed by exactly 0..5 and reaches exactly the six named logrus levels. |
| LevelTable.TableInjective | logger.go:25-33 | No two ratings map to the same level. |
| LevelTable.RatingsAtLeast | logger.go:25-43 | There are 6 - l ratings at least l when l <= 5, and none when l > 5. |
| LevelTable.GetLevelsFromInt | logger.go:35-43 | For any iteration order: the result holds the level of rating i exactly when i >= l, holds only table levels, has no duplicates, and has 6 - l entries (0 when l > 5). |
| LevelTable.GetLevelsFromLevel | logger.go:45-55 | For any iteration order: a table level with rating i yields exactly the levels rated at least i, only table levels, without duplicates, and 6 - i of them, which are the contents `GetLevelsFromInt(i)` gives. Any other level yields `AllLevels` unchanged. |
| UiHook.Levels | uihook.go:15-25 | Six distinct levels: exactly the levels of the rating table (Panic, Fatal, Error, Warn, Info, Debug). |
| UiHook.Fire | uihook.go:27-44 | For any iteration order: a producer's result replaces it before the empty check. Fields that come out as "" are skipped, so the data keeps its earlier entry for that key. Every other UI field, non-strings included, is written. Keys outside the UI fields are unchanged. No error is returned. |
| Logger.SetLogLevel | logger.go:99-115 | The six lower-case names set their level. Any other string, such as "INFO", "trace" or "", leaves the instance unchanged. The UI fields never change. |
| Logger.LevelNamesReachTable | logger.go:99-115 | The names reach exactly the levels of the rating table. |
| Logger.LevelNamesDistinct | logger.go:99-115 | No two names set the same level. |
| Logger.NotLevelNames | logger.go:99-115 | "INFO", "trace" and "" are not level names. |
| Logger.AddLogUI | logger.go:127-130 | The key is set to the value. Every other key keeps its presence and value, and the level is unchanged. |

## Left out

- Labels.Len: it is Dafny's `|ls|` itself, so it has no separate member.
- The native `Instance` is not part of this model: `New`, `Context` with its label snapshot, `SetMinSeverity`, `GetMinSeverity`, `SetLabel`, `SetDynamicLabel`, `GetLabels`. Only its threshold filter is modelled (`Entries.Log`), from the tests.
- An entry's severity before its first terminal call is whatever `Context` gives it, and `Context` is not part of this model.
- The `*Label` pointers: the model treats an entry's labels as a sequence it owns. Whether the pointers are shared with an instance depends on code that is not part of this model.
- Locking and concurrency: nothing in the modelled files implements them.
- I/O and rendering: `os.Stdout`/`os.Stderr`, `time.Now`, the ANSI `Fprintf` line layout (stdout.go:35-50) and `formatMessage`'s `fmt.Sprint` (stdout.go:60-62). Only the stream choice, the severity text and colour, and the label rendering are modelled.
- `fmt.Sprintf` (entry.go:97) is opaque: the `*f` methods take it as a parameter.
- logrus itself: `logrus.New`, `TextFormatter`, `AddHook`, `SetLevel`, `WithFields`, `Instance.Context` (logger.go:64-90). The numeric values of logrus's levels are unknown, so `Level` is an enumeration with `OtherLevel`. `AllLevels` is a parameter.
- `safeRunFunc`'s `defer recover()` (uihook.go:47-50): panics are not modelled. In Go, `recover` deferred directly does not stop a panic anyway.
- compat.go: deprecated code. Its `Context` lazily creates its own global instance (`defaultLogger`, not `DefaultLogger`) with its threshold set to `Debug`, logs a deprecation `Warnf` on every call, and then returns that instance's `Context`. `Instance.Printf` is a thin delegate that logs at Info through `Context("Printf")`. Both rest on `Instance.Context`, which is not part of this model.
- The logrus variant's package-level `DefaultLogger`, `Context`, `SetLogLevel` and `AddLogUI` forwarders (logger.go:57-62, 92-97, 117-125): thin delegations to a global instance.
- UiHook.Fire: its contract does not say that `uiData` is unchanged. The model passes the hook as an immutable value, so `Fire` cannot change it.
- Stdout.FormatLabels: its own contract states only the empty case. That the pieces are the labels' `key=value` renderings in stored order is stated by `Stdout.FormatLabelsRoundTrip`.
- Strings.Less: keys and values are modelled as Unicode text (`seq<char>`). A Go string may hold any bytes, and one that is not valid UTF-8 (a lone 0x80 byte, say) cannot be written in the model. Go's bytewise `<` on such strings is therefore not modelled.
- LevelTable.LevelToInt: in Go it is an exported package variable that other code could reassign or mutate (logger.go:26). The model takes it as a constant holding its initial contents. The sizes `6 - l` and the results of `GetLevelsFromInt` and `GetLevelsFromLevel` hold only for that table. No code in the modelled files writes to it.
- Labels.Sort: Go's `sort.Sort` is not stable. The model places equal keys in one fixed order, but its contract promises only what Go does: sorted and a permutation.
- Producer results: within one rendering or one `Fire`, the model gives two uses of the same producer the same result. In Go, each call could differ.
