/**
  The front end's subject histogram: for every subject short name (`fach`)
  that occurs among the lesson records, the number of records that teach it.
  Subjects missing from the result have no lessons. The records are given by
  their `fach` fields, in the order the plan lists them.
*/
module SubjectCounts {

  /** The number of records among `fachs` whose subject is `f`. */
  function Count(fachs: seq<string>, f: string): (r: nat)
    ensures r <= |fachs|
  {
    if |fachs| == 0 then 0
    else Count(fachs[..|fachs| - 1], f) + (if fachs[|fachs| - 1] == f then 1 else 0)
  }

  /** A subject is counted at least once exactly when some record teaches it. */
  lemma {:induction false} CountPositive(fachs: seq<string>, f: string)
    ensures Count(fachs, f) > 0 <==> f in fachs
  {
    if |fachs| > 0 {
      var init := fachs[..|fachs| - 1];
      CountPositive(init, f);
      assert fachs == init + [fachs[|fachs| - 1]];
    }
  }

  /** The count is the subject's multiplicity among the records. */
  lemma {:induction false} CountIsMultiplicity(fachs: seq<string>, f: string)
    ensures Count(fachs, f) == multiset(fachs)[f]
  {
    if |fachs| > 0 {
      var init := fachs[..|fachs| - 1];
      CountIsMultiplicity(init, f);
      assert fachs == init + [fachs[|fachs| - 1]];
      assert multiset(fachs) == multiset(init) + multiset{fachs[|fachs| - 1]};
    }
  }

  /** The subjects that occur among the records. */
  ghost function Subjects(fachs: seq<string>): set<string> {
    set f | f in fachs
  }

  /** One more record adds its subject to the subjects seen and one to its count. */
  lemma RecordStep(fachs: seq<string>, i: nat)
    requires i < |fachs|
    ensures Subjects(fachs[..i + 1]) == Subjects(fachs[..i]) + {fachs[i]}
    ensures forall g :: Count(fachs[..i + 1], g) == Count(fachs[..i], g) + (if g == fachs[i] then 1 else 0)
  {
    assert fachs[..i + 1] == fachs[..i] + [fachs[i]];
    assert fachs[..i + 1][..i] == fachs[..i];
  }

  /**
    `computeSubjectCounts`: one pass over the records that bumps the entry of
    each record's subject, starting it at 0 when it is not there yet.
  */
  method ComputeSubjectCounts(fachs: seq<string>) returns (result: map<string, nat>)
    ensures result.Keys == set f | f in fachs
    ensures forall f :: f in result ==> result[f] == Count(fachs, f) && result[f] >= 1
  {
    result := map[];
    var i := 0;
    while i < |fachs|
      invariant i <= |fachs|
      invariant result.Keys == Subjects(fachs[..i])
      invariant forall f :: f in result ==> result[f] == Count(fachs[..i], f)
    {
      var f := fachs[i];
      CountPositive(fachs[..i], f);
      RecordStep(fachs, i);
      var previous := if f in result then result[f] else 0;
      result := result[f := previous + 1];
      i := i + 1;
    }
    assert fachs[..|fachs|] == fachs;
    forall f | f in result
      ensures result[f] >= 1
    {
      CountPositive(fachs, f);
    }
  }

  /** The subjects of the records, each once, in order of first appearance. */
  function Distinct(fachs: seq<string>): (r: seq<string>)
    ensures forall f :: f in r <==> f in fachs
    ensures forall i, j :: 0 <= i < j < |r| ==> r[i] != r[j]
  {
    if |fachs| == 0 then []
    else
      var init := Distinct(fachs[..|fachs| - 1]);
      var last := fachs[|fachs| - 1];
      assert fachs == fachs[..|fachs| - 1] + [last];
      if last in init then init else init + [last]
  }

  /** The sum of the counts of the subjects in `keys`. */
  function SumOfCounts(keys: seq<string>, fachs: seq<string>): nat {
    if |keys| == 0 then 0 else Count(fachs, keys[0]) + SumOfCounts(keys[1..], fachs)
  }

  lemma {:induction false} SumOfCountsAppend(keys: seq<string>, f: string, fachs: seq<string>)
    ensures SumOfCounts(keys + [f], fachs) == SumOfCounts(keys, fachs) + Count(fachs, f)
  {
    if |keys| > 0 {
      assert (keys + [f])[1..] == keys[1..] + [f];
      SumOfCountsAppend(keys[1..], f, fachs);
    }
  }

  /** Adding a record of subject `x` adds one to the sum when `x` is among `keys` once, nothing when it is absent. */
  lemma {:induction false} SumOfCountsGrow(keys: seq<string>, fachs: seq<string>, x: string)
    requires forall i, j :: 0 <= i < j < |keys| ==> keys[i] != keys[j]
    ensures SumOfCounts(keys, fachs + [x]) == SumOfCounts(keys, fachs) + (if x in keys then 1 else 0)
  {
    var s := fachs + [x];
    assert s[..|s| - 1] == fachs;
    if |keys| > 0 {
      var rest := keys[1..];
      assert forall i, j :: 0 <= i < j < |rest| ==> rest[i] != rest[j] by {
        forall i, j | 0 <= i < j < |rest|
          ensures rest[i] != rest[j]
        {
          assert rest[i] == keys[i + 1] && rest[j] == keys[j + 1];
        }
      }
      SumOfCountsGrow(rest, fachs, x);
      if keys[0] == x {
        assert x !in rest by {
          forall j | 0 <= j < |rest|
            ensures rest[j] != x
          {
            assert rest[j] == keys[j + 1];
          }
        }
      }
      assert x in keys <==> keys[0] == x || x in rest;
    }
  }

  /** Every record is counted exactly once: the counts of the distinct subjects add up to the number of records. */
  lemma {:induction false} CountsCoverRecords(fachs: seq<string>)
    ensures SumOfCounts(Distinct(fachs), fachs) == |fachs|
  {
    if |fachs| > 0 {
      var init := fachs[..|fachs| - 1];
      var last := fachs[|fachs| - 1];
      assert fachs == init + [last];
      CountsCoverRecords(init);
      var d := Distinct(init);
      SumOfCountsGrow(d, init, last);
      if last !in d {
        assert Distinct(fachs) == d + [last];
        SumOfCountsAppend(d, last, fachs);
        CountPositive(init, last);
        assert Count(fachs, last) == 1;
      }
    }
  }
}
