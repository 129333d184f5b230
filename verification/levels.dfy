/** The logrus variant's level table: logrus levels, the integer rating of
    each, and the selection of all levels at or above a rating. */
module LevelTable {
  import opened Ints

  /** A logrus level. The numeric values of logrus's constants belong to
      logrus, so the six named levels are symbolic and `OtherLevel` stands
      for every other value of the type. */
  datatype Level =
    | PanicLevel | FatalLevel | ErrorLevel | WarnLevel | InfoLevel | DebugLevel
    | OtherLevel(code: nat)

  /** Go's `LevelToInt`: the rating of each level, 0 the least severe. */
  const LevelToInt: map<uint16, Level> :=
    map[0 := DebugLevel, 1 := InfoLevel, 2 := WarnLevel,
        3 := ErrorLevel, 4 := FatalLevel, 5 := PanicLevel]

  predicate Distinct(levels: seq<Level>) {
    forall i, j :: 0 <= i < j < |levels| ==> levels[i] != levels[j]
  }

  /** The table is keyed by 0..5 and reaches the six named levels. */
  lemma TableShape()
    ensures forall i: uint16 :: i in LevelToInt <==> i <= 5
    ensures LevelToInt.Values == {PanicLevel, FatalLevel, ErrorLevel, WarnLevel, InfoLevel, DebugLevel}
  {
    assert LevelToInt[0] == DebugLevel && LevelToInt[1] == InfoLevel && LevelToInt[2] == WarnLevel;
    assert LevelToInt[3] == ErrorLevel && LevelToInt[4] == FatalLevel && LevelToInt[5] == PanicLevel;
  }

  /** No two ratings share a level. */
  lemma TableInjective()
    ensures forall i, j :: i in LevelToInt && j in LevelToInt && LevelToInt[i] == LevelToInt[j] ==> i == j
  {
  }

  /** The keys of `keys` that are at least `l`. */
  ghost function AtLeast(keys: set<uint16>, l: uint16): set<uint16> {
    set i | i in keys && i >= l
  }

  /** There are `6 - l` ratings at least `l` when `l <= 5`, and none above 5. */
  lemma RatingsAtLeast(l: uint16)
    ensures |AtLeast(LevelToInt.Keys, l)| == if l <= 5 then 6 - l as int else 0
  {
    TableShape();
    var keys := LevelToInt.Keys;
    assert keys == {0, 1, 2, 3, 4, 5};
    if l == 0 {
      assert AtLeast(keys, l) == {0, 1, 2, 3, 4, 5};
    } else if l == 1 {
      assert AtLeast(keys, l) == {1, 2, 3, 4, 5};
    } else if l == 2 {
      assert AtLeast(keys, l) == {2, 3, 4, 5};
    } else if l == 3 {
      assert AtLeast(keys, l) == {3, 4, 5};
    } else if l == 4 {
      assert AtLeast(keys, l) == {4, 5};
    } else if l == 5 {
      assert AtLeast(keys, l) == {5};
    } else {
      assert AtLeast(keys, l) == {};
    }
  }

  /** Removing one key removes it from the keys at least `l`, if it was one. */
  lemma AtLeastRemove(keys: set<uint16>, i: uint16, l: uint16)
    requires i in keys
    ensures |AtLeast(keys, l)| == |AtLeast(keys - {i}, l)| + if i >= l then 1 else 0
  {
    if i >= l {
      assert AtLeast(keys, l) == AtLeast(keys - {i}, l) + {i};
    } else {
      assert AtLeast(keys, l) == AtLeast(keys - {i}, l);
    }
  }

  /** Go's `GetLevelsFromInt`: the levels whose rating is at least `l`.
      Go ranges over the map in an unspecified order, modelled by picking
      any key not yet visited; the order of the result is therefore not
      promised, only its contents. */
  method GetLevelsFromInt(l: uint16) returns (levels: seq<Level>)
    ensures forall i :: i in LevelToInt ==> (LevelToInt[i] in levels <==> i >= l)
    ensures forall lv :: lv in levels ==> lv in LevelToInt.Values
    ensures Distinct(levels)
    ensures |levels| == if l <= 5 then 6 - l as int else 0
  {
    TableInjective();
    levels := [];
    var remaining := LevelToInt.Keys;
    while remaining != {}
      invariant remaining <= LevelToInt.Keys
      invariant forall i :: i in LevelToInt ==>
        (LevelToInt[i] in levels <==> i !in remaining && i >= l)
      invariant forall lv :: lv in levels ==> lv in LevelToInt.Values
      invariant Distinct(levels)
      invariant |levels| + |AtLeast(remaining, l)| == |AtLeast(LevelToInt.Keys, l)|
      decreases remaining
    {
      var i :| i in remaining;
      AtLeastRemove(remaining, i, l);
      if i >= l {
        assert LevelToInt[i] !in levels;
        levels := levels + [LevelToInt[i]];
      }
      remaining := remaining - {i};
    }
    assert AtLeast(remaining, l) == {};
    RatingsAtLeast(l);
  }

  /** Go's `GetLevelsFromLevel`: for a level in the table, the levels rated
      at least as high as it; for any other level, `allLevels` (logrus's
      `AllLevels`, whose contents belong to logrus). */
  method GetLevelsFromLevel(l: Level, allLevels: seq<Level>) returns (levels: seq<Level>)
    ensures forall i :: i in LevelToInt && LevelToInt[i] == l ==>
      (forall j :: j in LevelToInt ==> (LevelToInt[j] in levels <==> j >= i))
    ensures forall i :: i in LevelToInt && LevelToInt[i] == l ==> |levels| == 6 - i as int
    ensures l in LevelToInt.Values ==> Distinct(levels)
    ensures l in LevelToInt.Values ==> forall lv :: lv in levels ==> lv in LevelToInt.Values
    ensures l !in LevelToInt.Values ==> levels == allLevels
  {
    TableInjective();
    var remaining := LevelToInt.Keys;
    while remaining != {}
      invariant remaining <= LevelToInt.Keys
      invariant forall j :: j in LevelToInt && j !in remaining ==> LevelToInt[j] != l
      decreases remaining
    {
      var i :| i in remaining;
      if LevelToInt[i] == l {
        levels := GetLevelsFromInt(i);
        return;
      }
      remaining := remaining - {i};
    }
    levels := allLevels;
  }
}
