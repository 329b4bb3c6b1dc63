/**
 * `solve` of solve.js: every result of every tree over every arrangement of
 * the four values, in that order, of which those worth exactly 24 are kept.
 */
module Solver {

  import opened Wrappers
  import opened Expressions
  import opened Arrangements
  import Decimal

  /** `compute(values, CONFIGS[j])`. */
  function Tree(values: seq<int>, j: nat): seq<Result>
    requires |values| == 4 && j < |Configs|
  {
    ConfigsShape(j);
    Eval(values, Configs[j])
  }

  /** Every element is a sequence of four values. */
  predicate Quadruples(arrs: seq<seq<int>>)
  {
    forall i :: 0 <= i < |arrs| ==> |arrs[i]| == 4
  }

  /** The loop over `CONFIGS` from tree j on, appending to `acc`. */
  function ConfigFold(acc: seq<Result>, values: seq<int>, j: nat): seq<Result>
    requires |values| == 4 && j <= |Configs|
    decreases |Configs| - j
  {
    if j == |Configs| then acc else ConfigFold(acc + Tree(values, j), values, j + 1)
  }

  /** The loop over the arrangements from i on. */
  function ValuesFold(acc: seq<Result>, arrs: seq<seq<int>>, i: nat): seq<Result>
    requires Quadruples(arrs) && i <= |arrs|
    decreases |arrs| - i
  {
    if i == |arrs| then acc else ValuesFold(ConfigFold(acc, arrs[i], 0), arrs, i + 1)
  }

  /** `allResults` once both loops are done. */
  function AllResults(v: seq<int>): seq<Result>
    requires |v| == 4
  {
    ArrangementsLength(v);
    ValuesFold([], ArrangementsOf(v), 0)
  }

  /** The `filter` on `config[0] === 24`, keeping the order. */
  function Keep24(rs: seq<Result>): seq<Result>
    decreases |rs|
  {
    if rs == [] then []
    else Keep24(rs[..|rs| - 1]) + (if rs[|rs| - 1].value == 24.0 then [rs[|rs| - 1]] else [])
  }

  /** The result of `solve(values)`. */
  function Solutions(v: seq<int>): seq<Result>
    requires |v| == 4
  {
    Keep24(AllResults(v))
  }

  /** One turn of the loop over `CONFIGS` appends the results of tree j. */
  lemma TreeStep(acc: seq<Result>, values: seq<int>, j: nat)
    requires |values| == 4 && j < |Configs|
    ensures Fits(Configs[j], |values|)
    ensures ConfigFold(acc, values, j) == ConfigFold(acc + Eval(values, Configs[j]), values, j + 1)
  {
    ConfigsShape(j);
  }

  /** `solve(inputValues)`. */
  method Solve(inputValues: seq<int>) returns (solutions: seq<Result>)
    requires |inputValues| == 4
    ensures solutions == Solutions(inputValues)
  {
    var allResults := [];
    var allPossibleValues := AllArrangements(inputValues);
    ArrangementsLength(inputValues);
    ghost var goal := AllResults(inputValues);
    for i := 0 to |allPossibleValues|
      invariant ValuesFold(allResults, allPossibleValues, i) == goal
    {
      var values := allPossibleValues[i];
      allResults := ComputeConfigs(values, allResults);
    }
    solutions := Keep24(allResults);
  }

  /** The inner loop of `solve`: the results of `compute(values, config)` for each config, pushed in turn. */
  method ComputeConfigs(values: seq<int>, allResults: seq<Result>) returns (extended: seq<Result>)
    requires |values| == 4
    ensures extended == ConfigFold(allResults, values, 0)
  {
    extended := allResults;
    for j := 0 to |Configs|
      invariant ConfigFold(extended, values, j) == ConfigFold(allResults, values, 0)
    {
      var config := Configs[j];
      TreeStep(extended, values, j);
      var results := Compute(values, config);
      extended := extended + results;
    }
  }

  // ---- the filter ----

  /** The filter keeps each result worth 24 as often as it occurs, and nothing else. */
  lemma {:induction false} Keep24Counts(rs: seq<Result>, r: Result)
    ensures multiset(Keep24(rs))[r] == if r.value == 24.0 then multiset(rs)[r] else 0
    decreases |rs|
  {
    if rs != [] {
      var init := rs[..|rs| - 1];
      Keep24Counts(init, r);
      assert rs == init + [rs[|rs| - 1]];
    }
  }

  lemma Keep24Members(rs: seq<Result>, r: Result)
    ensures r in Keep24(rs) <==> r in rs && r.value == 24.0
  {
    Keep24Counts(rs, r);
    assert r in Keep24(rs) <==> multiset(Keep24(rs))[r] > 0;
    assert r in rs <==> multiset(rs)[r] > 0;
  }

  lemma {:induction false} Keep24Shorter(rs: seq<Result>)
    ensures |Keep24(rs)| <= |rs|
    decreases |rs|
  {
    if rs != [] {
      Keep24Shorter(rs[..|rs| - 1]);
    }
  }

  // ---- the two loops ----

  lemma {:induction false} ConfigFoldAcc(acc: seq<Result>, values: seq<int>, j: nat)
    requires |values| == 4 && j <= |Configs|
    ensures ConfigFold(acc, values, j) == acc + ConfigFold([], values, j)
    decreases |Configs| - j
  {
    if j < |Configs| {
      var t := Tree(values, j);
      ConfigFoldAcc(acc + t, values, j + 1);
      ConfigFoldAcc(t, values, j + 1);
      assert [] + t == t;
    }
  }

  lemma {:induction false} ValuesFoldAcc(acc: seq<Result>, arrs: seq<seq<int>>, i: nat)
    requires Quadruples(arrs) && i <= |arrs|
    ensures ValuesFold(acc, arrs, i) == acc + ValuesFold([], arrs, i)
    decreases |arrs| - i
  {
    if i < |arrs| {
      var t := ConfigFold([], arrs[i], 0);
      ConfigFoldAcc(acc, arrs[i], 0);
      ValuesFoldAcc(acc + t, arrs, i + 1);
      ValuesFoldAcc(t, arrs, i + 1);
      AppendAssociative(acc, t, ValuesFold([], arrs, i + 1));
    }
  }

  lemma {:induction false} ConfigFoldSources(values: seq<int>, j: nat, r: Result) returns (k: nat)
    requires |values| == 4 && j <= |Configs| && r in ConfigFold([], values, j)
    ensures j <= k < |Configs| && r in Tree(values, k)
    decreases |Configs| - j
  {
    ConfigFoldAcc(Tree(values, j), values, j + 1);
    assert [] + Tree(values, j) == Tree(values, j);
    if r in Tree(values, j) {
      k := j;
    } else {
      k := ConfigFoldSources(values, j + 1, r);
    }
  }

  lemma {:induction false} ConfigFoldPicks(values: seq<int>, j: nat, k: nat, r: Result)
    requires |values| == 4 && j <= k < |Configs| && r in Tree(values, k)
    ensures r in ConfigFold([], values, j)
    decreases |Configs| - j
  {
    ConfigFoldAcc(Tree(values, j), values, j + 1);
    assert [] + Tree(values, j) == Tree(values, j);
    if k > j {
      ConfigFoldPicks(values, j + 1, k, r);
    }
  }

  lemma {:induction false} ValuesFoldSources(arrs: seq<seq<int>>, i: nat, r: Result) returns (n: nat, k: nat)
    requires Quadruples(arrs) && i <= |arrs| && r in ValuesFold([], arrs, i)
    ensures i <= n < |arrs| && k < |Configs| && r in Tree(arrs[n], k)
    decreases |arrs| - i
  {
    var t := ConfigFold([], arrs[i], 0);
    ValuesFoldAcc(t, arrs, i + 1);
    if r in t {
      n := i;
      k := ConfigFoldSources(arrs[i], 0, r);
    } else {
      n, k := ValuesFoldSources(arrs, i + 1, r);
    }
  }

  lemma {:induction false} ValuesFoldPicks(arrs: seq<seq<int>>, i: nat, n: nat, k: nat, r: Result)
    requires Quadruples(arrs) && i <= n < |arrs| && k < |Configs| && r in Tree(arrs[n], k)
    ensures r in ValuesFold([], arrs, i)
    decreases |arrs| - i
  {
    var t := ConfigFold([], arrs[i], 0);
    ValuesFoldAcc(t, arrs, i + 1);
    if n == i {
      ConfigFoldPicks(arrs[i], 0, k, r);
    } else {
      ValuesFoldPicks(arrs, i + 1, n, k, r);
    }
  }

  // ---- what solve returns ----

  /** The solutions are exactly the results worth 24 of some tree over some ordering of the values. */
  lemma SolutionsMembers(v: seq<int>, r: Result)
    requires |v| == 4
    ensures r in Solutions(v) <==>
            r.value == 24.0 &&
            exists x, k :: |x| == 4 && multiset(x) == multiset(v) && 0 <= k < |Configs| && r in Tree(x, k)
  {
    var arrs := ArrangementsOf(v);
    ArrangementsLength(v);
    Keep24Members(AllResults(v), r);
    if r in AllResults(v) {
      var n, k := ValuesFoldSources(arrs, 0, r);
      ArrangementsMembers(v, arrs[n]);
    }
    if exists x, k :: |x| == 4 && multiset(x) == multiset(v) && 0 <= k < |Configs| && r in Tree(x, k) {
      var x, k :| |x| == 4 && multiset(x) == multiset(v) && 0 <= k < |Configs| && r in Tree(x, k);
      ArrangementsMembers(v, x);
      var n :| 0 <= n < |arrs| && arrs[n] == x;
      ValuesFoldPicks(arrs, 0, n, k, r);
    }
  }

  /** The text of every solution evaluates to 24. */
  lemma SolutionsText(v: seq<int>, r: Result)
    requires |v| == 4 && r in Solutions(v)
    ensures r.value == 24.0 && ValueOfText(r.text) == Some(24.0)
  {
    SolutionsMembers(v, r);
    var x, k :| |x| == 4 && multiset(x) == multiset(v) && 0 <= k < |Configs| && r in Tree(x, k);
    ConfigsShape(k);
    TextValue(x, Configs[k], r);
  }

  lemma {:induction false} ConfigFoldLength(acc: seq<Result>, values: seq<int>, j: nat)
    requires |values| == 4 && j <= |Configs|
    ensures |ConfigFold(acc, values, j)| <= |acc| + 64 * (|Configs| - j)
    decreases |Configs| - j
  {
    if j < |Configs| {
      ConfigsShape(j);
      EvalBound(values, Configs[j]);
      ConfigFoldLength(acc + Tree(values, j), values, j + 1);
    }
  }

  lemma {:induction false} ValuesFoldLength(acc: seq<Result>, arrs: seq<seq<int>>, i: nat)
    requires Quadruples(arrs) && i <= |arrs|
    ensures |ValuesFold(acc, arrs, i)| <= |acc| + 320 * (|arrs| - i)
    decreases |arrs| - i
  {
    if i < |arrs| {
      ConfigFoldLength(acc, arrs[i], 0);
      ValuesFoldLength(ConfigFold(acc, arrs[i], 0), arrs, i + 1);
    }
  }

  /** At most 24 arrangements times 5 trees times 64 results. */
  lemma SolutionsBound(v: seq<int>)
    requires |v| == 4
    ensures |Solutions(v)| <= 24 * 5 * 64
  {
    ArrangementsLength(v);
    ArrangementsCount(v);
    ValuesFoldLength([], ArrangementsOf(v), 0);
    Keep24Shorter(AllResults(v));
  }

  // ---------------------------------------------------------------------------
  // Two concrete tuples: one with no solution, one with a known solution.

  const Ones: seq<int> := [1, 1, 1, 1]

  /** The only arrangement of four ones is four ones. */
  lemma OnesPermutation(x: seq<int>)
    requires |x| == 4 && multiset(x) == multiset(Ones)
    ensures x == Ones
  {
    forall i | 0 <= i < 4
      ensures x[i] == 1
    {
      assert x[i] in multiset(x);
    }
  }

  /** Values of one leaf, two, three and four leaves over four ones. */
  ghost const OneLeaf: iset<real> := iset{1.0}
  ghost const TwoLeaves: iset<real> := iset{0.0, 1.0, 2.0}
  ghost const ThreeLeaves: iset<real> := iset{-1.0, 0.0, 0.5, 1.0, 2.0, 3.0}
  ghost const FourLeaves: iset<real> := iset z: real | -4.0 <= z <= 4.0

  const AllOps: string := "+*-/"

  lemma OnesLeaf(i: nat)
    requires i < 4
    ensures ValuesIn(Eval(Ones, Leaf(i)), OneLeaf)
  {
  }

  lemma OnesPair(i: nat, j: nat)
    requires i < 4 && j < 4
    ensures ValuesIn(Eval(Ones, Node(Leaf(i), AllOps, Leaf(j))), TwoLeaves)
  {
    OnesLeaf(i);
    OnesLeaf(j);
    assert Closed(OneLeaf, AllOps, OneLeaf, TwoLeaves);
    CombineValues(Eval(Ones, Leaf(i)), Eval(Ones, Leaf(j)), AllOps, OneLeaf, OneLeaf, TwoLeaves);
  }

  lemma OnesTripleRight(i: nat, j: nat, k: nat)
    requires i < 4 && j < 4 && k < 4
    ensures var s := Node(Leaf(i), AllOps, Node(Leaf(j), AllOps, Leaf(k)));
            Fits(s, |Ones|) && ValuesIn(Eval(Ones, s), ThreeLeaves)
  {
    assert |Ones| == 4 && Fits(Leaf(j), 4) && Fits(Leaf(k), 4);
    assert Fits(Node(Leaf(j), AllOps, Leaf(k)), |Ones|);
    OnesLeaf(i);
    OnesPair(j, k);
    assert Closed(OneLeaf, AllOps, TwoLeaves, ThreeLeaves);
    CombineValues(Eval(Ones, Leaf(i)), Eval(Ones, Node(Leaf(j), AllOps, Leaf(k))), AllOps, OneLeaf, TwoLeaves, ThreeLeaves);
  }

  lemma OnesTripleLeft(i: nat, j: nat, k: nat)
    requires i < 4 && j < 4 && k < 4
    ensures var s := Node(Node(Leaf(i), AllOps, Leaf(j)), AllOps, Leaf(k));
            Fits(s, |Ones|) && ValuesIn(Eval(Ones, s), ThreeLeaves)
  {
    assert |Ones| == 4 && Fits(Leaf(i), 4) && Fits(Leaf(j), 4);
    assert Fits(Node(Leaf(i), AllOps, Leaf(j)), |Ones|);
    OnesPair(i, j);
    OnesLeaf(k);
    assert Closed(TwoLeaves, AllOps, OneLeaf, ThreeLeaves);
    CombineValues(Eval(Ones, Node(Leaf(i), AllOps, Leaf(j))), Eval(Ones, Leaf(k)), AllOps, TwoLeaves, OneLeaf, ThreeLeaves);
  }

  lemma CloseOneThree()
    ensures Closed(OneLeaf, AllOps, ThreeLeaves, FourLeaves)
  {
  }

  lemma CloseThreeOne()
    ensures Closed(ThreeLeaves, AllOps, OneLeaf, FourLeaves)
  {
  }

  lemma CloseTwoTwo()
    ensures Closed(TwoLeaves, AllOps, TwoLeaves, FourLeaves)
  {
  }

  /** Every tree over four ones stays within -4..4. */
  lemma OnesTree(k: nat)
    requires k < |Configs|
    ensures ValuesIn(Tree(Ones, k), FourLeaves)
  {
    var c := Configs[k];
    assert |Ones| == 4;
    if k == 0 {
      OnesLeaf(0);
      OnesTripleRight(1, 2, 3);
      CloseOneThree();
      CombineValues(Eval(Ones, c.left), Eval(Ones, c.right), AllOps, OneLeaf, ThreeLeaves, FourLeaves);
    } else if k == 1 {
      OnesLeaf(0);
      OnesTripleLeft(1, 2, 3);
      CloseOneThree();
      CombineValues(Eval(Ones, c.left), Eval(Ones, c.right), AllOps, OneLeaf, ThreeLeaves, FourLeaves);
    } else if k == 2 {
      OnesTripleLeft(0, 1, 2);
      OnesLeaf(3);
      CloseThreeOne();
      CombineValues(Eval(Ones, c.left), Eval(Ones, c.right), AllOps, ThreeLeaves, OneLeaf, FourLeaves);
    } else if k == 3 {
      OnesTripleRight(0, 1, 2);
      OnesLeaf(3);
      CloseThreeOne();
      CombineValues(Eval(Ones, c.left), Eval(Ones, c.right), AllOps, ThreeLeaves, OneLeaf, FourLeaves);
    } else {
      OnesPair(0, 1);
      OnesPair(2, 3);
      CloseTwoTwo();
      CombineValues(Eval(Ones, c.left), Eval(Ones, c.right), AllOps, TwoLeaves, TwoLeaves, FourLeaves);
    }
  }

  /** No result of any tree over any arrangement of four ones is worth 24. */
  lemma OnesNoSolution(v: seq<int>, r: Result)
    requires v == Ones
    ensures r !in Solutions(v)
  {
    SolutionsMembers(v, r);
    forall x, k | |x| == 4 && multiset(x) == multiset(v) && 0 <= k < |Configs|
      ensures r in Tree(x, k) ==> r.value != 24.0
    {
      OnesPermutation(x);
      OnesTree(k);
    }
  }

  /** `solve([1, 1, 1, 1])` finds nothing. */
  lemma OnesUnsolvable(v: seq<int>)
    requires v == [1, 1, 1, 1]
    ensures Solutions(v) == []
  {
    if Solutions(v) != [] {
      OnesNoSolution(v, Solutions(v)[0]);
    }
  }

  /** A leaf over `x` gives the value and its decimal text. */
  lemma SampleLeaf(x: seq<int>, i: nat, text: string)
    requires x == [6, 8, 4, 2] && i < 4 && text == ["6", "8", "4", "2"][i]
    ensures Eval(x, Leaf(i)) == [Result(x[i] as real, text)]
  {
    assert Decimal.IntText(x[i]) == text;
  }

  /** `(6*8)` is a result of the left subtree `[0, '+*-/', 1]` over `[6, 8, 4, 2]`. */
  lemma SampleProduct(x: seq<int>)
    requires x == [6, 8, 4, 2]
    ensures Result(48.0, "(6*8)") in Eval(x, Node(Leaf(0), AllOps, Leaf(1)))
  {
    var six, eight := Result(6.0, "6"), Result(8.0, "8");
    SampleLeaf(x, 0, "6");
    SampleLeaf(x, 1, "8");
    assert Joined(six, '*', eight) == "(6*8)";
    assert Yields(six, AllOps[1], eight, Result(48.0, "(6*8)"));
    CombineMembers([six], [eight], AllOps, Result(48.0, "(6*8)"));
  }

  /** `(4-2)` is a result of the right subtree `[2, '+*-/', 3]` over `[6, 8, 4, 2]`. */
  lemma SampleDifference(x: seq<int>)
    requires x == [6, 8, 4, 2]
    ensures Result(2.0, "(4-2)") in Eval(x, Node(Leaf(2), AllOps, Leaf(3)))
  {
    var four, two := Result(4.0, "4"), Result(2.0, "2");
    SampleLeaf(x, 2, "4");
    SampleLeaf(x, 3, "2");
    assert Joined(four, '-', two) == "(4-2)";
    assert Yields(four, AllOps[2], two, Result(2.0, "(4-2)"));
    CombineMembers([four], [two], AllOps, Result(2.0, "(4-2)"));
  }

  /** `((6*8)/(4-2))` is a result of the last tree over `[6, 8, 4, 2]`. */
  lemma SampleTree(x: seq<int>, r: Result)
    requires x == [6, 8, 4, 2] && r == Result(24.0, "((6*8)/(4-2))")
    ensures r in Tree(x, 4)
  {
    var c := Configs[4];
    assert c == Node(Node(Leaf(0), AllOps, Leaf(1)), AllOps, Node(Leaf(2), AllOps, Leaf(3)));
    var product, difference := Result(48.0, "(6*8)"), Result(2.0, "(4-2)");
    SampleProduct(x);
    SampleDifference(x);
    var ls, rs := Eval(x, c.left), Eval(x, c.right);
    var p :| 0 <= p < |ls| && ls[p] == product;
    var n :| 0 <= n < |rs| && rs[n] == difference;
    assert Joined(product, '/', difference) == r.text;
    assert Yields(ls[p], AllOps[3], rs[n], r);
    CombineMembers(ls, rs, AllOps, r);
  }

  /** `((6*8)/(4-2))` is one of the solutions of `[4, 6, 8, 2]`, from the arrangement `[6, 8, 4, 2]` and the last tree. */
  lemma SampleSolution(v: seq<int>, r: Result)
    requires v == [4, 6, 8, 2] && r == Result(24.0, "((6*8)/(4-2))")
    ensures r in Solutions(v)
  {
    var x := [6, 8, 4, 2];
    SampleTree(x, r);
    assert multiset(x) == multiset(v);
    SolutionsMembers(v, r);
  }
}
