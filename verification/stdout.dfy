/** The pure part of the reference stdout handler: which stream an entry
    goes to, how its labels are rendered, and which severity text and
    colour its line carries. */
module Stdout {
  import opened Wrappers
  import opened Values
  import Ints
  import Severities
  import Labels
  import Strings
  import Entries

  datatype Stream = Stdout | Stderr

  /** What `StdoutHandler.Log` does with an entry: the stream it writes the
      line to and the error it returns. */
  datatype Outcome = Outcome(stream: Stream, err: Option<string>)

  /** Go's `StdoutHandler.Log`: Fatal and Error entries go to stderr, every
      other ordinal (unknown ones included) to stdout; no error is returned. */
  function Log(e: Entries.Entry): (r: Outcome)
    ensures r.stream == Stderr <==> e.severity <= Severities.Error
    ensures r.err == None
  {
    if e.severity <= Severities.Error then Outcome(Stderr, None)
    else Outcome(Stdout, None)
  }

  /** The routing by severity name, unknown ordinals included. */
  lemma Routing(e: Entries.Entry)
    ensures e.severity in {Severities.Fatal, Severities.Error} ==> Log(e).stream == Stderr
    ensures Severities.Warn <= e.severity <= Severities.Trace ==> Log(e).stream == Stdout
    ensures e.severity > Severities.Trace ==> Log(e).stream == Stdout
  {
  }

  /** Each label rendered as `key=value`, in stored order. */
  function Outs(ls: seq<Labels.Label>, run: Producers): (outs: seq<string>)
    ensures |outs| == |ls|
    ensures forall i :: 0 <= i < |ls| ==> outs[i] == Labels.Out(ls[i], run)
  {
    seq(|ls|, i requires 0 <= i < |ls| => Labels.Out(ls[i], run))
  }

  /** Go's `formatLabels`: the rendered labels joined by single spaces.
      Producers are called at rendering time, so `run` gives their results. */
  function FormatLabels(e: Entries.Entry, run: Producers): (labels: string)
    ensures |e.labels| == 0 ==> labels == ""
  {
    Strings.Join(Outs(e.labels, run), " ")
  }

  /** Splitting the rendered labels at spaces and each piece at its first
      `=` gives back every key and rendered value in stored order, provided
      no key holds a space or `=` and no value holds a space. */
  lemma FormatLabelsRoundTrip(e: Entries.Entry, run: Producers)
    requires |e.labels| > 0
    requires forall i :: 0 <= i < |e.labels| ==>
      ' ' !in e.labels[i].k && '=' !in e.labels[i].k && ' ' !in Labels.Val(e.labels[i], run)
    ensures var pieces := Strings.Split(FormatLabels(e, run), ' ');
      && |pieces| == |e.labels|
      && forall i :: 0 <= i < |pieces| ==>
           Strings.Cut(pieces[i], '=') == Some((e.labels[i].k, Labels.Val(e.labels[i], run)))
  {
    var outs := Outs(e.labels, run);
    forall i | 0 <= i < |outs|
      ensures ' ' !in outs[i]
      ensures Strings.Cut(outs[i], '=') == Some((e.labels[i].k, Labels.Val(e.labels[i], run)))
    {
      Labels.OutRoundTrip(e.labels[i], run);
    }
    assert " " == [' '];
    Strings.SplitJoin(outs, ' ');
  }

  /** The severity text and colour at the head of a line. */
  datatype Display = Display(text: string, color: Ints.uint16)

  /** The severity text and colour `formatEntry` selects: the table entries
      for a known ordinal, and empty text in grey for an unknown one. */
  function SeverityDisplay(e: Entries.Entry): (d: Display)
    ensures e.severity in Severities.GetSeverities() ==>
      d.text == Severities.GetSeverities()[e.severity]
      && d.color == Severities.GetSeverityColors()[e.severity]
    ensures e.severity !in Severities.GetSeverities() ==> d.text == "" && d.color == 37
  {
    Severities.SeveritiesTable();
    Display(Severities.IntToText(e.severity).value, Severities.IntToColor(e.severity))
  }
}
