/** Log entries of the native logger and the instance they are handed to. */
module Entries {
  import opened Wrappers
  import opened Values
  import Severities
  import Labels
  import Strings

  /** One log entry: its context name, its own copy of the labels, and the
      severity and message set by the terminal call. */
  datatype Entry = Entry(
    context: string,
    labels: seq<Labels.Label>,
    severity: Severities.Severity,
    message: seq<Value>)

  /** The part of a logger instance that entries depend on: its threshold.
      Entries with a severity ordinal above it are dropped. */
  datatype Instance = Instance(minSeverity: Severities.Severity)

  /** The result of a terminal call: the entry as the call leaves it, and
      what the instance forwarded to its handler (None when dropped). */
  datatype Emitted = Emitted(entry: Entry, handled: Option<Entry>)

  /** The instance's filter: an entry is forwarded to the handler exactly
      when it is at least as severe as the threshold. */
  function Log(inst: Instance, e: Entry): (handled: Option<Entry>)
    ensures handled.Some? <==> e.severity <= inst.minSeverity
    ensures handled.Some? ==> handled.value == e
  {
    if e.severity <= inst.minSeverity then Some(e) else None
  }

  /** The first position holding key `k`, or None when no label has it. */
  function FindKey(ls: seq<Labels.Label>, k: string): (r: Option<nat>)
    ensures r.Some? ==> r.value < |ls| && ls[r.value].k == k
    ensures r.Some? ==> forall j :: 0 <= j < r.value ==> ls[j].k != k
    ensures r.None? <==> k !in Labels.KeySet(ls)
    decreases |ls|
  {
    if |ls| == 0 then None
    else if ls[0].k == k then Some(0)
    else
      Labels.KeySetCons(ls[0], ls[1..]);
      assert ls == [ls[0]] + ls[1..];
      match FindKey(ls[1..], k)
      case None => None
      case Some(i) => Some(i + 1)
  }

  /** The search-or-append step of `Label`, before the re-sort: overwrite
      the first label with key `k`, or append a new label when there is none. */
  function Place(ls: seq<Labels.Label>, k: string, v: Value): (r: seq<Labels.Label>)
    ensures Labels.KeySet(r) == Labels.KeySet(ls) + {k}
    ensures Labels.Label(k, v) in r
    ensures k in Labels.KeySet(ls) ==> |r| == |ls|
    ensures k !in Labels.KeySet(ls) ==> multiset(r) == multiset(ls) + multiset{Labels.Label(k, v)}
    ensures k in Labels.KeySet(ls) ==>
      multiset(r) + multiset{ls[FindKey(ls, k).value]} == multiset(ls) + multiset{Labels.Label(k, v)}
    ensures Labels.UniqueKeys(ls) ==> Labels.UniqueKeys(r)
  {
    var l := Labels.Label(k, v);
    match FindKey(ls, k)
    case Some(i) =>
      ReplaceKeepsKeys(ls, i, l);
      assert ls[i := l][i] == l;
      ls[i := l]
    case None =>
      Labels.KeySetSnoc(ls, l);
      Labels.UniqueKeysSnoc(ls, l);
      assert (ls + [l])[|ls|] == l;
      ls + [l]
  }

  /** Go's `Entry.Label`: set label `k` to `v` on the entry and re-sort;
      the same entry is returned for chaining. */
  function Label(e: Entry, k: string, v: Value): (r: Entry)
    ensures r.context == e.context && r.severity == e.severity && r.message == e.message
    ensures Labels.Sorted(r.labels)
    ensures Labels.KeySet(r.labels) == Labels.KeySet(e.labels) + {k}
    ensures Labels.Label(k, v) in r.labels
    ensures k in Labels.KeySet(e.labels) ==> |r.labels| == |e.labels|
    ensures k !in Labels.KeySet(e.labels) ==>
      multiset(r.labels) == multiset(e.labels) + multiset{Labels.Label(k, v)}
    ensures k in Labels.KeySet(e.labels) ==>
      multiset(r.labels) + multiset{e.labels[FindKey(e.labels, k).value]}
      == multiset(e.labels) + multiset{Labels.Label(k, v)}
    ensures Labels.UniqueKeys(e.labels) ==> Labels.UniqueKeys(r.labels)
  {
    var placed := Place(e.labels, k, v);
    var sorted := Labels.Sort(placed);
    assert Labels.Label(k, v) in multiset(placed);
    e.(labels := sorted)
  }

  /** Overwriting a label with one of the same key keeps the key set, keeps
      the keys unique, and exchanges one label for the other. */
  lemma ReplaceKeepsKeys(ls: seq<Labels.Label>, i: nat, l: Labels.Label)
    requires i < |ls| && ls[i].k == l.k
    ensures Labels.KeySet(ls[i := l]) == Labels.KeySet(ls)
    ensures Labels.UniqueKeys(ls) ==> Labels.UniqueKeys(ls[i := l])
    ensures multiset(ls[i := l]) + multiset{ls[i]} == multiset(ls) + multiset{l}
  {
    var r := ls[i := l];
    forall key | key in Labels.KeySet(ls)
      ensures key in Labels.KeySet(r)
    {
      var m :| m in ls && m.k == key;
      var j :| 0 <= j < |ls| && ls[j] == m;
      assert r[j].k == key;
      assert r[j] in r;
    }
    forall key | key in Labels.KeySet(r)
      ensures key in Labels.KeySet(ls)
    {
      var m :| m in r && m.k == key;
      var j :| 0 <= j < |r| && r[j] == m;
      assert ls[j].k == key;
      assert ls[j] in ls;
    }
  }

  /** With unique keys, `Label` acts as a map update: afterwards the labels
      are the new label plus every old label with a different key. */
  lemma {:induction false} LabelIsMapUpdate(e: Entry, k: string, v: Value)
    requires Labels.UniqueKeys(e.labels)
    ensures forall m :: m in Label(e, k, v).labels <==>
      m == Labels.Label(k, v) || (m in e.labels && m.k != k)
  {
    var r := Label(e, k, v);
    var l := Labels.Label(k, v);
    forall m
      ensures m in r.labels <==> m == l || (m in e.labels && m.k != k)
    {
      assert m in r.labels <==> m in multiset(r.labels);
      assert m in e.labels <==> m in multiset(e.labels);
      match FindKey(e.labels, k)
      case None =>
        assert k !in Labels.KeySet(e.labels);
        if m in e.labels {
          assert m.k in Labels.KeySet(e.labels);
        }
      case Some(i) =>
        if m in e.labels && m.k == k {
          var j :| 0 <= j < |e.labels| && e.labels[j] == m;
          assert j == i;
        }
        if m == e.labels[i] && m != l {
          assert multiset(r.labels)[m] + 1 == multiset(e.labels)[m];
          assert multiset(e.labels)[m] == 1 by {
            UniqueCount(e.labels, i);
          }
        }
    }
  }

  /** With unique keys, a label occurs exactly once. */
  lemma {:induction false} UniqueCount(ls: seq<Labels.Label>, i: nat)
    requires Labels.UniqueKeys(ls) && i < |ls|
    ensures multiset(ls)[ls[i]] == 1
    decreases |ls|
  {
    var last := ls[|ls| - 1];
    var init := ls[..|ls| - 1];
    assert ls == init + [last];
    Labels.UniqueKeysSnoc(init, last);
    if i == |ls| - 1 {
      forall m | m in init
        ensures m != last
      {
        assert m.k in Labels.KeySet(init);
      }
    } else {
      assert ls[i] == init[i];
      UniqueCount(init, i);
      assert ls[i].k in Labels.KeySet(init);
    }
  }

  /** What a terminal call promises: severity and message are set, nothing
      else about the entry changes, and the entry is handed to the instance
      once, which forwards it exactly when the severity passes its threshold. */
  ghost predicate Emits(e: Entry, inst: Instance, s: Severities.Severity, msg: seq<Value>, r: Emitted) {
    && r.entry.context == e.context
    && r.entry.labels == e.labels
    && r.entry.severity == s
    && r.entry.message == msg
    && (r.handled.Some? <==> s <= inst.minSeverity)
    && (r.handled.Some? ==> r.handled.value == r.entry)
  }

  /** Set severity and message, then hand the entry to the instance. */
  function Vlog(e: Entry, inst: Instance, s: Severities.Severity, args: seq<Value>): (r: Emitted)
    ensures Emits(e, inst, s, args, r)
  {
    var e' := e.(severity := s, message := args);
    Emitted(e', Log(inst, e'))
  }

  /** As `Vlog`, with the message replaced by the one formatted string.
      `sprintf` stands for Go's `fmt.Sprintf`. */
  function Vlogf(e: Entry, inst: Instance, s: Severities.Severity, format: string, args: seq<Value>,
                 sprintf: (string, seq<Value>) -> string): (r: Emitted)
    ensures Emits(e, inst, s, [Str(sprintf(format, args))], r)
  {
    Vlog(e, inst, s, [Str(sprintf(format, args))])
  }

  function Debug(e: Entry, inst: Instance, args: seq<Value>): (r: Emitted)
    ensures Emits(e, inst, Severities.Debug, args, r)
  {
    Vlog(e, inst, Severities.Debug, args)
  }

  function Debugf(e: Entry, inst: Instance, format: string, args: seq<Value>,
                  sprintf: (string, seq<Value>) -> string): (r: Emitted)
    ensures Emits(e, inst, Severities.Debug, [Str(sprintf(format, args))], r)
  {
    Vlogf(e, inst, Severities.Debug, format, args, sprintf)
  }

  function Error(e: Entry, inst: Instance, args: seq<Value>): (r: Emitted)
    ensures Emits(e, inst, Severities.Error, args, r)
  {
    Vlog(e, inst, Severities.Error, args)
  }

  function Errorf(e: Entry, inst: Instance, format: string, args: seq<Value>,
                  sprintf: (string, seq<Value>) -> string): (r: Emitted)
    ensures Emits(e, inst, Severities.Error, [Str(sprintf(format, args))], r)
  {
    Vlogf(e, inst, Severities.Error, format, args, sprintf)
  }

  function Fatal(e: Entry, inst: Instance, args: seq<Value>): (r: Emitted)
    ensures Emits(e, inst, Severities.Fatal, args, r)
  {
    Vlog(e, inst, Severities.Fatal, args)
  }

  function Fatalf(e: Entry, inst: Instance, format: string, args: seq<Value>,
                  sprintf: (string, seq<Value>) -> string): (r: Emitted)
    ensures Emits(e, inst, Severities.Fatal, [Str(sprintf(format, args))], r)
  {
    Vlogf(e, inst, Severities.Fatal, format, args, sprintf)
  }

  function Info(e: Entry, inst: Instance, args: seq<Value>): (r: Emitted)
    ensures Emits(e, inst, Severities.Info, args, r)
  {
    Vlog(e, inst, Severities.Info, args)
  }

  function Infof(e: Entry, inst: Instance, format: string, args: seq<Value>,
                 sprintf: (string, seq<Value>) -> string): (r: Emitted)
    ensures Emits(e, inst, Severities.Info, [Str(sprintf(format, args))], r)
  {
    Vlogf(e, inst, Severities.Info, format, args, sprintf)
  }

  function Trace(e: Entry, inst: Instance, args: seq<Value>): (r: Emitted)
    ensures Emits(e, inst, Severities.Trace, args, r)
  {
    Vlog(e, inst, Severities.Trace, args)
  }

  function Tracef(e: Entry, inst: Instance, format: string, args: seq<Value>,
                  sprintf: (string, seq<Value>) -> string): (r: Emitted)
    ensures Emits(e, inst, Severities.Trace, [Str(sprintf(format, args))], r)
  {
    Vlogf(e, inst, Severities.Trace, format, args, sprintf)
  }

  function Warn(e: Entry, inst: Instance, args: seq<Value>): (r: Emitted)
    ensures Emits(e, inst, Severities.Warn, args, r)
  {
    Vlog(e, inst, Severities.Warn, args)
  }

  function Warnf(e: Entry, inst: Instance, format: string, args: seq<Value>,
                 sprintf: (string, seq<Value>) -> string): (r: Emitted)
    ensures Emits(e, inst, Severities.Warn, [Str(sprintf(format, args))], r)
  {
    Vlogf(e, inst, Severities.Warn, format, args, sprintf)
  }

  /** The filter the tests exercise: an entry is forwarded when the
      threshold equals its severity, dropped when the threshold is one step
      more severe, and a Fatal entry is forwarded at every threshold. */
  lemma ThresholdFilter(e: Entry, s: Severities.Severity, args: seq<Value>, inst: Instance)
    ensures Vlog(e, Instance(s), s, args).handled.Some?
    ensures s > Severities.Fatal ==> Vlog(e, Instance(s - 1), s, args).handled.None?
    ensures Fatal(e, inst, args).handled.Some?
  {
  }

  /** Nothing guards against a second terminal call: it overwrites severity
      and message and hands the entry to the instance again. */
  lemma SecondTerminalCall(e: Entry, inst: Instance, s1: Severities.Severity, a1: seq<Value>,
                           s2: Severities.Severity, a2: seq<Value>)
    ensures Vlog(Vlog(e, inst, s1, a1).entry, inst, s2, a2) == Vlog(e, inst, s2, a2)
  {
  }

  /** An entry with context "payment" and label service=checkout, given the
      label order=42 and logged at Error against the Info threshold, reaches
      the handler with both labels in key order. */
  lemma CheckoutScenario()
    ensures
      var e := Entry("payment", [Labels.Label("service", Str("checkout"))], Severities.Fatal, []);
      var r := Error(Label(e, "order", Str("42")), Instance(Severities.Info), [Str("card declined")]);
      r.handled == Some(Entry("payment",
        [Labels.Label("order", Str("42")), Labels.Label("service", Str("checkout"))],
        Severities.Error, [Str("card declined")]))
  {
    var e := Entry("payment", [Labels.Label("service", Str("checkout"))], Severities.Fatal, []);
    var order, service := Labels.Label("order", Str("42")), Labels.Label("service", Str("checkout"));
    assert FindKey(e.labels, "order") == None;
    assert Place(e.labels, "order", Str("42")) == [service, order];
    assert [service, order][..1] == [service];
    assert Labels.Sort([service]) == [service];
    assert !Strings.Less("service", "order");
    assert Labels.Insert(order, [service]) == [order, service];
    var added := Label(e, "order", Str("42"));
    assert added.labels == [Labels.Label("order", Str("42")), Labels.Label("service", Str("checkout"))];
  }
}
