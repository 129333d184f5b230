/** The severity ladder of the native logger: six ordinals, 0 the most
    severe, each with one upper-case text and one ANSI colour code. */
module Severities {
  import opened Ints
  import opened Wrappers

  /** A severity is stored in a `uint8`, so ordinals 6..255 exist but are unknown. */
  type Severity = uint8

  /** Fatal error or panic, not recoverable. */
  const Fatal: Severity := 0
  const FatalText: string := "FATAL"
  const FatalColor: uint16 := 31 // red

  /** An error, possibly recoverable. */
  const Error: Severity := 1
  const ErrorText: string := "ERROR"
  const ErrorColor: uint16 := 31 // red

  /** A warning of operating concerns. */
  const Warn: Severity := 2
  const WarnText: string := "WARN"
  const WarnColor: uint16 := 33 // yellow

  /** An informational update. */
  const Info: Severity := 3
  const InfoText: string := "INFO"
  const InfoColor: uint16 := 36 // blue

  /** Development data. */
  const Debug: Severity := 4
  const DebugText: string := "DEBUG"
  const DebugColor: uint16 := 37 // grey

  /** Development trace data. */
  const Trace: Severity := 5
  const TraceText: string := "TRACE"
  const TraceColor: uint16 := 37 // grey

  /** The text of each severity, indexed by ordinal. */
  function GetSeverities(): (r: map<Severity, string>) {
    map[Fatal := FatalText, Error := ErrorText, Warn := WarnText,
        Info := InfoText, Debug := DebugText, Trace := TraceText]
  }

  /** The display colour of each severity, indexed by ordinal. */
  function GetSeverityColors(): (r: map<Severity, uint16>) {
    map[Fatal := FatalColor, Error := ErrorColor, Warn := WarnColor,
        Info := InfoColor, Debug := DebugColor, Trace := TraceColor]
  }

  /** The colour of a severity; unknown ordinals fall back to grey. */
  function IntToColor(s: Severity): (c: uint16)
    ensures s in GetSeverityColors() ==> c == GetSeverityColors()[s]
    ensures s !in GetSeverityColors() ==> c == DebugColor
  {
    if s == Debug then DebugColor
    else if s == Error then ErrorColor
    else if s == Fatal then FatalColor
    else if s == Info then InfoColor
    else if s == Trace then TraceColor
    else if s == Warn then WarnColor
    else DebugColor
  }

  /** The text of a severity, with `ok` false (and empty text) for unknown ordinals. */
  function IntToText(s: Severity): (r: Lookup<string>)
    ensures r.ok <==> s in GetSeverities()
    ensures r.ok ==> r.value == GetSeverities()[s]
    ensures !r.ok ==> r.value == ""
  {
    if s == Debug then Lookup(DebugText, true)
    else if s == Error then Lookup(ErrorText, true)
    else if s == Fatal then Lookup(FatalText, true)
    else if s == Info then Lookup(InfoText, true)
    else if s == Trace then Lookup(TraceText, true)
    else if s == Warn then Lookup(WarnText, true)
    else Lookup("", false)
  }

  /** The ordinal of a severity text: an exact, case-sensitive match; on a
      miss `ok` is false and the ordinal is left at its zero value. */
  function TextToInt(text: string): (r: Lookup<Severity>)
    ensures r.ok <==> text in GetSeverities().Values
    ensures r.ok ==> r.value in GetSeverities() && GetSeverities()[r.value] == text
    ensures !r.ok ==> r.value == 0
  {
    assert GetSeverities()[Fatal] == FatalText && GetSeverities()[Error] == ErrorText;
    assert GetSeverities()[Warn] == WarnText && GetSeverities()[Info] == InfoText;
    assert GetSeverities()[Debug] == DebugText && GetSeverities()[Trace] == TraceText;
    assert GetSeverities().Values == {FatalText, ErrorText, WarnText, InfoText, DebugText, TraceText};
    if text == DebugText then Lookup(Debug, true)
    else if text == ErrorText then Lookup(Error, true)
    else if text == FatalText then Lookup(Fatal, true)
    else if text == InfoText then Lookup(Info, true)
    else if text == TraceText then Lookup(Trace, true)
    else if text == WarnText then Lookup(Warn, true)
    else Lookup(0, false)
  }

  /** The six constants are the ordinals 0..5, most severe first. */
  lemma Ladder()
    ensures Fatal == 0 && Error == 1 && Warn == 2 && Info == 3 && Debug == 4 && Trace == 5
    ensures Fatal < Error < Warn < Info < Debug < Trace
  {
  }

  /** The known ordinals are exactly 0..5, and no two share a text. */
  lemma SeveritiesTable()
    ensures forall s: Severity :: s in GetSeverities() <==> s <= Trace
    ensures GetSeverities().Keys == GetSeverityColors().Keys
    ensures |GetSeverities()| == 6
    ensures forall s, t :: s in GetSeverities() && t in GetSeverities() && s != t
              ==> GetSeverities()[s] != GetSeverities()[t]
  {
    var keys: set<Severity> := {0, 1, 2, 3, 4, 5};
    assert GetSeverities().Keys == keys;
    assert |keys| == 6;
  }

  /** Ordinal to text to ordinal is the identity on the six known ordinals. */
  lemma OrdinalRoundTrip(s: Severity)
    requires s <= Trace
    ensures IntToText(s).ok
    ensures TextToInt(IntToText(s).value) == Lookup(s, true)
  {
    SeveritiesTable();
  }

  /** Text to ordinal to text is the identity on every accepted text. */
  lemma TextRoundTrip(text: string)
    requires TextToInt(text).ok
    ensures IntToText(TextToInt(text).value) == Lookup(text, true)
  {
  }

  /** Unknown ordinals have no text and the default grey colour. */
  lemma UnknownOrdinal(s: Severity)
    requires s > Trace
    ensures IntToText(s) == Lookup("", false)
    ensures IntToColor(s) == 37
  {
  }

  /** Only the six upper-case texts parse; the empty string and other
      spellings do not. */
  lemma TextToIntAccepts(text: string)
    ensures TextToInt(text).ok <==>
      text in ["FATAL", "ERROR", "WARN", "INFO", "DEBUG", "TRACE"]
    ensures !TextToInt("").ok && !TextToInt("info").ok && !TextToInt("Warn").ok
  {
  }
}
