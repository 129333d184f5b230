/** Labels: key/value pairs kept in a sequence that is sorted by key. */
module Labels {
  import opened Values
  import Strings
  import opened Wrappers

  /** One label. The value is a Go `interface{}`. */
  datatype Label = Label(k: string, v: Value)

  /** The rendered value of a label: a string renders as itself, a producer
      as what it returns when called now, anything else as "". */
  function Val(l: Label, run: Producers): (r: string) {
    match l.v
    case Str(s) => s
    case Producer(id) => run(id)
    case Other(_) => ""
  }

  /** The label as `key=value`. */
  function Out(l: Label, run: Producers): (r: string) {
    l.k + "=" + Val(l, run)
  }

  /** The keys present in a label sequence. */
  function KeySet(ls: seq<Label>): (r: set<string>) {
    set l | l in ls :: l.k
  }

  /** No key occurs twice. */
  predicate UniqueKeys(ls: seq<Label>) {
    forall i, j :: 0 <= i < j < |ls| ==> ls[i].k != ls[j].k
  }

  /** The `sort.Interface` comparison: label `i` sorts before label `j`. */
  predicate Less(ls: seq<Label>, i: nat, j: nat)
    requires i < |ls| && j < |ls|
  {
    Strings.Less(ls[i].k, ls[j].k)
  }

  /** The `sort.Interface` exchange of positions `i` and `j`. */
  function Swap(ls: seq<Label>, i: nat, j: nat): (r: seq<Label>)
    requires i < |ls| && j < |ls|
    ensures |r| == |ls|
    ensures r[i] == ls[j] && r[j] == ls[i]
    ensures forall n :: 0 <= n < |ls| && n != i && n != j ==> r[n] == ls[n]
    ensures multiset(r) == multiset(ls)
  {
    ls[i := ls[j]][j := ls[i]]
  }

  /** Ascending by key: no later label has a smaller key than an earlier one. */
  ghost predicate Sorted(ls: seq<Label>) {
    forall i, j :: 0 <= i < j < |ls| ==> Strings.LessEq(ls[i].k, ls[j].k)
  }

  /** `Less` is a strict order on positions: irreflexive, transitive, and
      total between positions whose keys differ. */
  lemma LessIsStrictOrder(ls: seq<Label>, i: nat, j: nat, n: nat)
    requires i < |ls| && j < |ls| && n < |ls|
    ensures !Less(ls, i, i)
    ensures Less(ls, i, j) ==> !Less(ls, j, i)
    ensures Less(ls, i, j) && Less(ls, j, n) ==> Less(ls, i, n)
    ensures ls[i].k != ls[j].k ==> Less(ls, i, j) || Less(ls, j, i)
  {
    Strings.LessIrreflexive(ls[i].k);
    Strings.LessAsymmetric(ls[i].k, ls[j].k);
    if Less(ls, i, j) && Less(ls, j, n) {
      Strings.LessTransitive(ls[i].k, ls[j].k, ls[n].k);
    }
    Strings.LessTotal(ls[i].k, ls[j].k);
  }

  /** A key at most the first key of a sorted sequence is at most every key. */
  lemma LowerBound(key: string, s: seq<Label>)
    requires Sorted(s) && |s| > 0 && Strings.LessEq(key, s[0].k)
    ensures forall j :: 0 <= j < |s| ==> Strings.LessEq(key, s[j].k)
  {
    forall j | 0 < j < |s|
      ensures Strings.LessEq(key, s[j].k)
    {
      Strings.LessEqTransitive(key, s[0].k, s[j].k);
    }
  }

  lemma KeySetCons(a: Label, t: seq<Label>)
    ensures KeySet([a] + t) == {a.k} + KeySet(t)
  {
    assert forall i :: 0 < i <= |t| ==> ([a] + t)[i] == t[i - 1];
  }

  lemma KeySetSnoc(t: seq<Label>, a: Label)
    ensures KeySet(t + [a]) == KeySet(t) + {a.k}
  {
    assert forall i :: 0 <= i < |t| ==> (t + [a])[i] == t[i];
  }

  lemma UniqueKeysCons(a: Label, t: seq<Label>)
    ensures UniqueKeys([a] + t) <==> a.k !in KeySet(t) && UniqueKeys(t)
  {
    var s := [a] + t;
    assert forall i :: 0 < i < |s| ==> s[i] == t[i - 1];
    if UniqueKeys(s) {
      forall i, j | 0 <= i < j < |t|
        ensures t[i].k != t[j].k
      {
        assert s[i + 1] == t[i] && s[j + 1] == t[j];
      }
      forall l | l in t
        ensures l.k != a.k
      {
        var i :| 0 <= i < |t| && t[i] == l;
        assert s[0] == a && s[i + 1] == l;
        assert s[0].k != s[i + 1].k;
      }
    }
    if a.k !in KeySet(t) && UniqueKeys(t) {
      forall i, j | 0 <= i < j < |s|
        ensures s[i].k != s[j].k
      {
        if i == 0 {
          assert s[j] in t;
        }
      }
    }
  }

  lemma UniqueKeysSnoc(t: seq<Label>, a: Label)
    ensures UniqueKeys(t + [a]) <==> UniqueKeys(t) && a.k !in KeySet(t)
  {
    var s := t + [a];
    assert forall i :: 0 <= i < |t| ==> s[i] == t[i];
    if UniqueKeys(s) {
      forall l | l in t
        ensures l.k != a.k
      {
        var i :| 0 <= i < |t| && t[i] == l;
        assert s[i] == l && s[|t|] == a;
      }
    }
    if a.k !in KeySet(t) && UniqueKeys(t) {
      forall i, j | 0 <= i < j < |s|
        ensures s[i].k != s[j].k
      {
        if j == |t| {
          assert s[i] in t;
        }
      }
    }
  }

  /** Place `x` into a sorted sequence before the first label whose key is
      not smaller than its own. */
  function Insert(x: Label, s: seq<Label>): (r: seq<Label>)
    requires Sorted(s)
    ensures Sorted(r)
    ensures multiset(r) == multiset(s) + multiset{x}
    ensures KeySet(r) == KeySet(s) + {x.k}
    ensures UniqueKeys(s) && x.k !in KeySet(s) ==> UniqueKeys(r)
    decreases |s|
  {
    if |s| == 0 then [x]
    else if !Strings.Less(s[0].k, x.k) then
      LowerBound(x.k, s);
      KeySetCons(x, s);
      UniqueKeysCons(x, s);
      [x] + s
    else
      var rest := Insert(x, s[1..]);
      InsertBehindHead(x, s, rest);
      [s[0]] + rest
  }

  /** The step of `Insert` that keeps the head in front of the insertion. */
  lemma InsertBehindHead(x: Label, s: seq<Label>, rest: seq<Label>)
    requires |s| > 0 && Sorted(s) && Strings.Less(s[0].k, x.k)
    requires Sorted(rest)
    requires multiset(rest) == multiset(s[1..]) + multiset{x}
    requires KeySet(rest) == KeySet(s[1..]) + {x.k}
    requires UniqueKeys(s[1..]) && x.k !in KeySet(s[1..]) ==> UniqueKeys(rest)
    ensures Sorted([s[0]] + rest)
    ensures multiset([s[0]] + rest) == multiset(s) + multiset{x}
    ensures KeySet([s[0]] + rest) == KeySet(s) + {x.k}
    ensures UniqueKeys(s) && x.k !in KeySet(s) ==> UniqueKeys([s[0]] + rest)
  {
    assert s == [s[0]] + s[1..];
    Strings.LessEqOfLess(s[0].k, x.k);
    var r := [s[0]] + rest;
    forall i, j | 0 <= i < j < |r|
      ensures Strings.LessEq(r[i].k, r[j].k)
    {
      if i == 0 {
        assert r[j] == rest[j - 1];
        assert rest[j - 1] in multiset(s[1..]) + multiset{x};
        if rest[j - 1] != x {
          assert rest[j - 1] in s[1..];
          var n :| 0 <= n < |s[1..]| && s[1..][n] == rest[j - 1];
          assert s[n + 1] == rest[j - 1];
        }
      } else {
        assert r[i] == rest[i - 1] && r[j] == rest[j - 1];
      }
    }
    KeySetCons(s[0], s[1..]);
    KeySetCons(s[0], rest);
    UniqueKeysCons(s[0], s[1..]);
    UniqueKeysCons(s[0], rest);
  }

  /** Go's `Labels.Sort`: the labels in ascending key order. Go's `sort.Sort`
      is not stable, so only sortedness and the permutation are promised;
      this model settles the order of equal keys one particular way. */
  function Sort(ls: seq<Label>): (r: seq<Label>)
    ensures Sorted(r)
    ensures multiset(r) == multiset(ls)
    ensures |r| == |ls|
    ensures KeySet(r) == KeySet(ls)
    ensures UniqueKeys(ls) ==> UniqueKeys(r)
    decreases |ls|
  {
    if |ls| == 0 then []
    else
      var init, last := ls[..|ls| - 1], ls[|ls| - 1];
      assert ls == init + [last];
      KeySetSnoc(init, last);
      UniqueKeysSnoc(init, last);
      var r := Insert(last, Sort(init));
      assert |r| == |multiset(r)| == |multiset(ls)| == |ls|;
      r
  }

  /** Rendering a label and cutting at the first `=` gives back its key and
      rendered value, provided the key contains no `=`. */
  lemma OutRoundTrip(l: Label, run: Producers)
    requires '=' !in l.k
    ensures Strings.Cut(Out(l, run), '=') == Some((l.k, Val(l, run)))
  {
    Strings.CutJoined(l.k, '=', Val(l, run));
  }

  /** Only a producer's rendering depends on the moment of the call. */
  lemma ValOnlyProducersVary(l: Label, run1: Producers, run2: Producers)
    ensures !l.v.Producer? ==> Val(l, run1) == Val(l, run2)
    ensures l.v.Producer? ==> Val(l, run1) == run1(l.v.id)
    ensures l.v.Str? ==> Val(l, run1) == l.v.s
    ensures l.v.Other? ==> Val(l, run1) == ""
  {
  }
}
