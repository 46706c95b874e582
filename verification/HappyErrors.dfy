/**
  coalesce_errors of src/shared/happy-eyeballs.c: the error that most candidates ended with.
 */
module HappyErrors {
  import opened Common

  function Count(es: seq<int>, e: int): nat {
    if es == [] then 0 else (if es[|es| - 1] == e then 1 else 0) + Count(es[..|es| - 1], e)
  }

  // es[k] beats es[j]: it occurs more often, or equally often and first.
  ghost predicate Beats(es: seq<int>, k: nat, j: nat)
    requires k < |es| && j < |es|
  {
    Count(es, es[j]) < Count(es, es[k]) || (Count(es, es[j]) == Count(es, es[k]) && k <= j)
  }

  // r is the most frequent non-zero error, the earliest one if several are; 0 if there is none.
  ghost predicate IsMostCommon(es: seq<int>, r: int) {
    if r == 0 then
      forall j :: 0 <= j < |es| ==> es[j] == 0
    else
      exists k: nat :: k < |es| && es[k] == r && forall j: nat :: j < |es| && es[j] != 0 ==> Beats(es, k, j)
  }

  lemma {:induction false} CountIsMultiplicity(es: seq<int>, e: int)
    ensures Count(es, e) == multiset(es)[e]
  {
    if es != [] {
      CountIsMultiplicity(es[..|es| - 1], e);
      assert es == es[..|es| - 1] + [es[|es| - 1]];
    }
  }

  lemma MostCommonIsUnique(es: seq<int>, r: int, q: int)
    requires IsMostCommon(es, r) && IsMostCommon(es, q)
    ensures r == q
  {
    if r != 0 && q != 0 {
      var k: nat :| k < |es| && es[k] == r && forall j: nat :: j < |es| && es[j] != 0 ==> Beats(es, k, j);
      var l: nat :| l < |es| && es[l] == q && forall j: nat :: j < |es| && es[j] != 0 ==> Beats(es, l, j);
      assert Beats(es, k, l) && Beats(es, l, k);
    }
  }

  datatype Mode = Mode(error: int, count: nat)

  // The gathered modes: the distinct non-zero errors of es in order of first appearance.
  ghost predicate Gathered(es: seq<int>, modes: seq<Mode>) {
    && (forall m :: 0 <= m < |modes| ==> Counted(es, modes[m]))
    && (forall j :: 0 <= j < |es| ==> es[j] == 0 || Has(modes, es[j]))
    && (forall m, n :: 0 <= m < n < |modes| ==> Earlier(es, modes[m].error, modes[n].error))
  }

  ghost predicate Counted(es: seq<int>, mode: Mode) {
    mode.error != 0 && mode.error in es && mode.count == Count(es, mode.error)
  }

  ghost predicate Has(modes: seq<Mode>, e: int) {
    exists m :: 0 <= m < |modes| && modes[m].error == e
  }

  // e appears in es before any f.
  ghost predicate Earlier(es: seq<int>, e: int, f: int) {
    e != f && exists k :: 0 <= k < |es| && es[k] == e && f !in es[..k]
  }

  lemma EarlierStays(es: seq<int>, e: int, f: int, x: int)
    requires Earlier(es, e, f)
    ensures Earlier(es + [x], e, f)
  {
    var k :| 0 <= k < |es| && es[k] == e && f !in es[..k];
    assert (es + [x])[k] == e && (es + [x])[..k] == es[..k];
  }

  lemma CountOfNext(es: seq<int>, x: int, e: int)
    ensures Count(es + [x], e) == Count(es, e) + if x == e then 1 else 0
  {
    assert (es + [x])[..|es|] == es;
  }

  lemma {:induction false} CountOfAbsent(es: seq<int>, e: int)
    requires e !in es
    ensures Count(es, e) == 0
  {
    if es != [] {
      CountOfAbsent(es[..|es| - 1], e);
    }
  }

  method Note(ghost es: seq<int>, modes: seq<Mode>, err: int) returns (r: seq<Mode>)
    requires Gathered(es, modes) && err != 0
    ensures Gathered(es + [err], r)
  {
    var j := 0;
    while j < |modes| && modes[j].error != err
      invariant 0 <= j <= |modes|
      invariant forall m :: 0 <= m < j ==> modes[m].error != err
    {
      j := j + 1;
    }
    if j == |modes| {
      NewMode(es, modes, err);
      r := modes + [Mode(err, 1)];
    } else {
      OneMore(es, modes, j, err);
      r := modes[j := Mode(err, modes[j].count + 1)];
    }
  }

  lemma ModeStays(es: seq<int>, mode: Mode, err: int)
    requires Counted(es, mode) && err !in es
    ensures Earlier(es + [err], mode.error, err) && Counted(es + [err], mode)
  {
    var k :| 0 <= k < |es| && es[k] == mode.error;
    assert (es + [err])[k] == es[k] && (es + [err])[..k] == es[..k];
    CountOfNext(es, err, mode.error);
  }

  lemma NewMode(es: seq<int>, modes: seq<Mode>, err: int)
    requires Gathered(es, modes) && err != 0 && !Has(modes, err)
    ensures Gathered(es + [err], modes + [Mode(err, 1)])
  {
    assert err !in es;
    CountOfAbsent(es, err);
    CountOfNext(es, err, err);
    OrderStays(es, modes, err);
    var r := modes + [Mode(err, 1)];
    forall m | 0 <= m < |modes|
      ensures Earlier(es + [err], modes[m].error, err) && Counted(es + [err], modes[m])
    {
      ModeStays(es, modes[m], err);
    }
    assert r[|modes|].error == err;
    StillHas(es, modes, r, err);
  }

  lemma OneMore(es: seq<int>, modes: seq<Mode>, j: nat, err: int)
    requires Gathered(es, modes) && err != 0 && j < |modes| && modes[j].error == err
    ensures Gathered(es + [err], modes[j := Mode(err, modes[j].count + 1)])
  {
    OrderStays(es, modes, err);
    var r := modes[j := Mode(err, modes[j].count + 1)];
    forall m | 0 <= m < |modes|
      ensures Counted(es + [err], r[m])
    {
      assert Counted(es, modes[m]);
      CountOfNext(es, err, modes[m].error);
      if m < j {
        assert Earlier(es, modes[m].error, modes[j].error);
      } else if j < m {
        assert Earlier(es, modes[j].error, modes[m].error);
      }
    }
    assert forall m :: 0 <= m < |modes| ==> r[m].error == modes[m].error;
    assert r[j].error == err;
    StillHas(es, modes, r, err);
  }

  lemma StillHas(es: seq<int>, modes: seq<Mode>, r: seq<Mode>, err: int)
    requires forall j :: 0 <= j < |es| ==> es[j] == 0 || Has(modes, es[j])
    requires |modes| <= |r| && forall m :: 0 <= m < |modes| ==> r[m].error == modes[m].error
    requires Has(r, err)
    ensures forall j :: 0 <= j < |es + [err]| ==> (es + [err])[j] == 0 || Has(r, (es + [err])[j])
  {
    forall j | 0 <= j < |es| && es[j] != 0
      ensures Has(r, es[j])
    {
      var m :| 0 <= m < |modes| && modes[m].error == es[j];
      assert r[m].error == es[j];
    }
  }

  lemma OrderStays(es: seq<int>, modes: seq<Mode>, x: int)
    requires Gathered(es, modes)
    ensures forall m, n :: 0 <= m < n < |modes| ==> Earlier(es + [x], modes[m].error, modes[n].error)
  {
    forall m, n | 0 <= m < n < |modes|
      ensures Earlier(es + [x], modes[m].error, modes[n].error)
    {
      EarlierStays(es, modes[m].error, modes[n].error, x);
    }
  }

  lemma ZeroIsIgnored(es: seq<int>, modes: seq<Mode>)
    requires Gathered(es, modes)
    ensures Gathered(es + [0], modes)
  {
    OrderStays(es, modes, 0);
    forall m | 0 <= m < |modes|
      ensures Counted(es + [0], modes[m])
    {
      assert Counted(es, modes[m]);
      CountOfNext(es, 0, modes[m].error);
    }
  }

  /**
    The error set on the context: the mode of the candidates' errors.
   */
  method CoalesceErrors(es: seq<int>) returns (value: int)
    ensures IsMostCommon(es, value) && value == MostCommon(es)
  {
    var modes: seq<Mode> := [];
    var i := 0;
    while i < |es|
      invariant 0 <= i <= |es|
      invariant Gathered(es[..i], modes)
    {
      assert es[..i + 1] == es[..i] + [es[i]];
      if es[i] == 0 {
        ZeroIsIgnored(es[..i], modes);
      } else {
        modes := Note(es[..i], modes, es[i]);
      }
      i := i + 1;
    }
    assert es[..i] == es;
    value := Largest(es, modes);
    MostCommonIs(es);
    MostCommonIsUnique(es, value, MostCommon(es));
  }

  method Largest(ghost es: seq<int>, modes: seq<Mode>) returns (value: int)
    requires Gathered(es, modes)
    ensures IsMostCommon(es, value)
  {
    var maxCount: nat := 0;
    value := 0;
    ghost var at := -1;
    var i := 0;
    while i < |modes|
      invariant 0 <= i <= |modes|
      invariant -1 <= at < i && (at == -1 <==> i == 0)
      invariant at == -1 ==> value == 0 && maxCount == 0
      invariant at >= 0 ==> modes[at] == Mode(value, maxCount)
      invariant forall m :: 0 <= m < i ==> modes[m].count <= maxCount
      invariant forall m :: 0 <= m < at ==> modes[m].count < maxCount
    {
      if maxCount < modes[i].count {
        value, maxCount, at := modes[i].error, modes[i].count, i;
      } else {
        assert Counted(es, modes[i]);
        CountOfPresent(es, modes[i].error);
      }
      i := i + 1;
    }
    if at >= 0 {
      LargestWins(es, modes, at);
    }
  }

  lemma {:induction false} CountOfPresent(es: seq<int>, e: int)
    requires e in es
    ensures Count(es, e) > 0
  {
    var k :| 0 <= k < |es| && es[k] == e;
    if k < |es| - 1 {
      assert es[..|es| - 1][k] == e;
      CountOfPresent(es[..|es| - 1], e);
    }
  }

  lemma FirstOf(es: seq<int>, e: int) returns (k: nat)
    requires e in es
    ensures k < |es| && es[k] == e && e !in es[..k]
  {
    k := 0;
    while es[k] != e
      invariant k < |es| && e !in es[..k] && e in es[k..]
      decreases |es| - k
    {
      assert es[..k + 1] == es[..k] + [es[k]] && es[k..] == [es[k]] + es[k + 1..];
      k := k + 1;
    }
  }

  lemma InPrefix(es: seq<int>, n: nat, j: nat)
    requires j < n <= |es|
    ensures es[j] in es[..n]
  {
    assert es[..n][j] == es[j];
  }

  lemma EarlierMeansFirst(es: seq<int>, e: int, f: int, k: nat, j: nat)
    requires k < |es| && es[k] == e && e !in es[..k] && j < |es| && es[j] == f && Earlier(es, e, f)
    ensures k < j
  {
    var l: nat :| l < |es| && es[l] == e && f !in es[..l];
    if j < l {
      InPrefix(es, l, j);
      assert false;
    }
    if l < k {
      InPrefix(es, k, l);
      assert false;
    }
  }

  lemma LargestWins(es: seq<int>, modes: seq<Mode>, at: nat)
    requires Gathered(es, modes) && at < |modes|
    requires forall m :: 0 <= m < |modes| ==> modes[m].count <= modes[at].count
    requires forall m :: 0 <= m < at ==> modes[m].count < modes[at].count
    ensures IsMostCommon(es, modes[at].error)
  {
    var r := modes[at].error;
    var k := FirstOf(es, r);
    forall j: nat | j < |es| && es[j] != 0
      ensures Beats(es, k, j)
    {
      var m :| 0 <= m < |modes| && modes[m].error == es[j];
      if m > at {
        EarlierMeansFirst(es, r, es[j], k, j);
      }
    }
  }

  // The mode as a value.
  function MostCommon(es: seq<int>): (r: int)
    ensures es != [] && (forall j :: 0 <= j < |es| ==> es[j] != 0) ==> r != 0
    ensures (forall j :: 0 <= j < |es| ==> es[j] == 0) ==> r == 0
  {
    Best(es, |es|)
  }

  function Best(es: seq<int>, n: nat): (r: int)
    requires n <= |es|
    ensures r == 0 || r in es
    ensures r == 0 ==> forall j :: 0 <= j < n ==> es[j] == 0
  {
    if n == 0 then 0 else
    var b := Best(es, n - 1);
    if es[n - 1] != 0 && (b == 0 || Count(es, b) < Count(es, es[n - 1])) then es[n - 1] else b
  }

  lemma {:induction false} BestBeats(es: seq<int>, n: nat) returns (k: nat)
    requires n <= |es|
    ensures Best(es, n) != 0 ==> k < n && es[k] == Best(es, n)
    ensures Best(es, n) != 0 ==> forall j: nat :: j < n && es[j] != 0 ==> Beats(es, k, j)
  {
    k := 0;
    if n > 0 {
      k := BestBeats(es, n - 1);
      if Best(es, n) != Best(es, n - 1) {
        k := n - 1;
      }
    }
  }

  lemma MostCommonIs(es: seq<int>)
    ensures IsMostCommon(es, MostCommon(es))
  {
    var k := BestBeats(es, |es|);
  }
}
