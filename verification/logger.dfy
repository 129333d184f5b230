/** The logrus variant's instance: its level and the UI fields its hook adds. */
module Logger {
  import opened Values
  import LevelTable
  import UiHook

  /** The state of a logrus-backed instance that its methods change: the
      logrus level and the UI hook's fields. */
  datatype Instance = Instance(level: LevelTable.Level, uiHook: UiHook.UiHook)

  /** The level names `SetLogLevel` understands: lower-case, exact. */
  const LevelNames: map<string, LevelTable.Level> :=
    map["panic" := LevelTable.PanicLevel, "fatal" := LevelTable.FatalLevel,
        "error" := LevelTable.ErrorLevel, "warn" := LevelTable.WarnLevel,
        "info" := LevelTable.InfoLevel, "debug" := LevelTable.DebugLevel]

  /** Go's `Instance.SetLogLevel`: a known name sets its level; any other
      string leaves the instance as it was. */
  function SetLogLevel(i: Instance, level: string): (r: Instance)
    ensures level in LevelNames ==> r.level == LevelNames[level]
    ensures level !in LevelNames ==> r == i
    ensures r.uiHook == i.uiHook
  {
    if level == "panic" then i.(level := LevelTable.PanicLevel)
    else if level == "fatal" then i.(level := LevelTable.FatalLevel)
    else if level == "error" then i.(level := LevelTable.ErrorLevel)
    else if level == "warn" then i.(level := LevelTable.WarnLevel)
    else if level == "info" then i.(level := LevelTable.InfoLevel)
    else if level == "debug" then i.(level := LevelTable.DebugLevel)
    else i
  }

  /** The names reach exactly the six levels of the table. */
  lemma LevelNamesReachTable()
    ensures LevelNames.Values == LevelTable.LevelToInt.Values
  {
    LevelTable.TableShape();
    assert LevelNames["panic"] == LevelTable.PanicLevel && LevelNames["fatal"] == LevelTable.FatalLevel;
    assert LevelNames["error"] == LevelTable.ErrorLevel && LevelNames["warn"] == LevelTable.WarnLevel;
    assert LevelNames["info"] == LevelTable.InfoLevel && LevelNames["debug"] == LevelTable.DebugLevel;
  }

  /** No two names set the same level. */
  lemma LevelNamesDistinct()
    ensures forall a, b :: a in LevelNames && b in LevelNames && a != b ==> LevelNames[a] != LevelNames[b]
  {
  }

  /** The upper-case, trace and empty spellings are not names. */
  lemma NotLevelNames()
    ensures "INFO" !in LevelNames && "trace" !in LevelNames && "" !in LevelNames
  {
  }

  /** Go's `Instance.AddLogUI`: set one UI field, leaving the others and
      the level alone. */
  function AddLogUI(i: Instance, key: string, value: Value): (r: Instance)
    ensures key in r.uiHook.uiData && r.uiHook.uiData[key] == value
    ensures forall k :: k != key ==>
      (k in r.uiHook.uiData <==> k in i.uiHook.uiData)
      && (k in i.uiHook.uiData ==> r.uiHook.uiData[k] == i.uiHook.uiData[k])
    ensures r.level == i.level
  {
    i.(uiHook := UiHook.UiHook(i.uiHook.uiData[key := value]))
  }
}
