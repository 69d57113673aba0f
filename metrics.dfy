/** Constant metric labels given as a flat list of name, value, name,
    value, ... (`promLabels`). */
module Metrics {
  import opened Outcomes

  /** The name of the `j`-th pair. */
  function PairName(labels: seq<string>, j: int): string
    requires 0 <= j && 2 * j + 1 < |labels|
  {
    labels[2 * j]
  }

  /** The value of the `j`-th pair. */
  function PairValue(labels: seq<string>, j: int): string
    requires 0 <= j && 2 * j + 1 < |labels|
  {
    labels[2 * j + 1]
  }

  /** The map the pairs give when stored one after another. */
  function LabelTable(labels: seq<string>): map<string, string>
    requires |labels| % 2 == 0
  {
    if |labels| == 0 then map[]
    else LabelTable(labels[..|labels| - 2])[labels[|labels| - 2] := labels[|labels| - 1]]
  }

  /** `promLabels`: an odd-length list aborts; otherwise every pair is
      stored, left to right. */
  method PromLabels(labels: seq<string>) returns (r: Result<map<string, string>>)
    ensures r.Failure? <==> |labels| % 2 != 0
    ensures r.Failure? ==> r.error == UnpairedLabels
    ensures r.Success? ==> r.value == LabelTable(labels)
  {
    var labelMap: map<string, string> := map[];
    if |labels| % 2 != 0 {
      return Failure(UnpairedLabels);
    }
    var i := 0;
    while i < |labels|
      invariant 0 <= i <= |labels| && i % 2 == 0
      invariant labelMap == LabelTable(labels[..i])
    {
      assert labels[..i + 2][..i] == labels[..i];
      labelMap := labelMap[labels[i] := labels[i + 1]];
      i := i + 2;
    }
    assert labels[..i] == labels;
    return Success(labelMap);
  }

  /** The names in the table are exactly the pair names. */
  lemma {:induction false} LabelTableNames(labels: seq<string>, name: string)
    requires |labels| % 2 == 0
    ensures name in LabelTable(labels) <==> exists j :: 0 <= j < |labels| / 2 && PairName(labels, j) == name
    decreases |labels|
  {
    if |labels| > 0 {
      var init := labels[..|labels| - 2];
      LabelTableNames(init, name);
      var last := |labels| / 2 - 1;
      assert PairName(labels, last) == labels[|labels| - 2];
      forall j | 0 <= j < |init| / 2 ensures PairName(init, j) == PairName(labels, j) {
      }
      if name in LabelTable(labels) && name != labels[|labels| - 2] {
        var j :| 0 <= j < |init| / 2 && PairName(init, j) == name;
        assert PairName(labels, j) == name;
      }
      if exists j :: 0 <= j < |labels| / 2 && PairName(labels, j) == name {
        var j :| 0 <= j < |labels| / 2 && PairName(labels, j) == name;
        if j < last {
          assert PairName(init, j) == name;
        }
      }
    }
  }

  /** A name takes the value of its LAST pair: later duplicates overwrite
      earlier ones. */
  lemma {:induction false} LastPairWins(labels: seq<string>, j: int)
    requires |labels| % 2 == 0 && 0 <= j < |labels| / 2
    requires forall j' :: j < j' < |labels| / 2 ==> PairName(labels, j') != PairName(labels, j)
    ensures PairName(labels, j) in LabelTable(labels)
    ensures LabelTable(labels)[PairName(labels, j)] == PairValue(labels, j)
    decreases |labels|
  {
    var last := |labels| / 2 - 1;
    if j < last {
      var init := labels[..|labels| - 2];
      assert PairName(labels, last) == labels[|labels| - 2];
      forall j' | j < j' < |init| / 2 ensures PairName(init, j') != PairName(init, j) {
        assert PairName(init, j') == PairName(labels, j');
      }
      LastPairWins(init, j);
      assert PairName(init, j) == PairName(labels, j) && PairValue(init, j) == PairValue(labels, j);
    }
  }

  /** The cache gauges label themselves outcome=hit and outcome=miss. */
  lemma OutcomeLabels()
    ensures LabelTable(["outcome", "hit"]) == map["outcome" := "hit"]
    ensures LabelTable(["outcome", "miss"]) == map["outcome" := "miss"]
    ensures LabelTable([]) == map[]
  {
  }
}
