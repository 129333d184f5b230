/** The logrus variant's UI hook: an instance's UI fields (one map per
    instance) merged into the data of every entry that instance logs at one
    of the hook's levels, just before it is written. */
module UiHook {
  import opened Wrappers
  import opened Values
  import LevelTable

  /** The hook and the fields it adds. */
  datatype UiHook = UiHook(uiData: map<string, Value>)

  /** Go's `uiHook.Levels`: the hook fires at every level of the table. */
  function Levels(): (r: seq<LevelTable.Level>)
    ensures |r| == 6 && LevelTable.Distinct(r)
    ensures forall lv :: lv in r <==> lv in LevelTable.LevelToInt.Values
  {
    LevelTable.TableShape();
    [LevelTable.PanicLevel, LevelTable.FatalLevel, LevelTable.ErrorLevel,
     LevelTable.WarnLevel, LevelTable.InfoLevel, LevelTable.DebugLevel]
  }

  /** A field value once `Fire` has called it if it is a producer. */
  function Evaluate(v: Value, run: Producers): (r: Value) {
    if v.Producer? then Str(run(v.id)) else v
  }

  /** The state of one key of the entry's data after `Fire`: a UI field whose
      evaluated value is not the empty string is written; any other key keeps
      what the data held before, present or absent. */
  ghost predicate FieldAfterFire(ui: map<string, Value>, data: map<string, Value>, run: Producers,
                                 out: map<string, Value>, k: string) {
    if k in ui && Evaluate(ui[k], run) != Str("") then
      k in out && out[k] == Evaluate(ui[k], run)
    else
      (k in out <==> k in data) && (k in data ==> out[k] == data[k])
  }

  /** Go's `uiHook.Fire`: merge the UI fields into the entry's data, calling
      producers and skipping fields that come out as the empty string. Go
      ranges over the map in an unspecified order, modelled by picking any
      key not yet visited. `run` gives the results of the producer calls. */
  method Fire(u: UiHook, data: map<string, Value>, run: Producers)
    returns (out: map<string, Value>, err: Option<string>)
    ensures err == None
    ensures forall k :: k in u.uiData && u.uiData[k].Producer? && run(u.uiData[k].id) != "" ==>
      k in out && out[k] == Str(run(u.uiData[k].id))
    ensures forall k :: k in u.uiData && !u.uiData[k].Producer? && u.uiData[k] != Str("") ==>
      k in out && out[k] == u.uiData[k]
    ensures forall k ::
      (|| k !in u.uiData
       || u.uiData[k] == Str("")
       || (u.uiData[k].Producer? && run(u.uiData[k].id) == ""))
      ==> (k in out <==> k in data) && (k in data ==> out[k] == data[k])
  {
    out := data;
    var remaining := u.uiData.Keys;
    while remaining != {}
      invariant remaining <= u.uiData.Keys
      invariant forall k :: k !in remaining ==> FieldAfterFire(u.uiData, data, run, out, k)
      invariant forall k :: k in remaining ==>
        (k in out <==> k in data) && (k in data ==> out[k] == data[k])
      decreases remaining
    {
      var key :| key in remaining;
      var val := u.uiData[key];
      if val.Producer? {
        val := Str(run(val.id));
      }
      if val != Str("") {
        out := out[key := val];
      }
      remaining := remaining - {key};
    }
    forall k | k in u.uiData
      ensures u.uiData[k].Producer? && run(u.uiData[k].id) != "" ==>
        k in out && out[k] == Str(run(u.uiData[k].id))
      ensures !u.uiData[k].Producer? && u.uiData[k] != Str("") ==> k in out && out[k] == u.uiData[k]
    {
      assert FieldAfterFire(u.uiData, data, run, out, k);
    }
    err := None;
  }
}
