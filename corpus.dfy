/**
 * The corpus loop of `createLevelsModule` in solve.js: every non-decreasing
 * tuple of four values from 1 to 31, 24 excluded, is solved, and the tuples
 * with at least one solution are kept with their number of solutions.
 */
module Corpus {

  import opened Expressions
  import opened Arrangements
  import opened Solver

  /** A kept puzzle: `[solutions.length, values]`. */
  datatype Puzzle = Puzzle(count: nat, values: seq<int>)

  /** `COUNTER_MAX_VALUE`: the number of tuples the loops visit. */
  const CounterMaxValue: nat := 40920

  /** The first value of every loop position. */
  const Lowest: nat := 1

  /** The number of solutions of a tuple. */
  function Count(v: seq<int>): nat
    requires |v| == 4
  {
    |Solutions(v)|
  }

  /** What one visited tuple adds: the puzzle, when the tuple has solutions. */
  function Kept(v: seq<int>): seq<Puzzle>
    requires |v| == 4
  {
    var n := Count(v);
    if n == 0 then [] else [Puzzle(n, v)]
  }

  /** The puzzles kept from the tuples visited so far, in visiting order. */
  function Solved(visited: seq<seq<int>>): seq<Puzzle>
    requires Quadruples(visited)
    decreases |visited|
  {
    if visited == [] then []
    else
      var v := visited[|visited| - 1];
      Solved(visited[..|visited| - 1]) + Kept(v)
  }

  /** The `v3` loop from `a` on, appending each visited tuple to `acc`. */
  function Scan3(acc: seq<seq<int>>, v0: int, v1: int, v2: int, a: nat): seq<seq<int>>
    requires a <= 32
    decreases 32 - a
  {
    if a == 32 then acc
    else if a == 24 then Scan3(acc, v0, v1, v2, a + 1)
    else Scan3(acc + [[v0, v1, v2, a]], v0, v1, v2, a + 1)
  }

  /** The `v2` loop from `a` on; the `v3` loop starts at `v2`. */
  function Scan2(acc: seq<seq<int>>, v0: int, v1: int, a: nat): seq<seq<int>>
    requires a <= 32
    decreases 32 - a
  {
    if a == 32 then acc
    else if a == 24 then Scan2(acc, v0, v1, a + 1)
    else Scan2(Scan3(acc, v0, v1, a, a), v0, v1, a + 1)
  }

  /** The `v1` loop from `a` on. */
  function Scan1(acc: seq<seq<int>>, v0: int, a: nat): seq<seq<int>>
    requires a <= 32
    decreases 32 - a
  {
    if a == 32 then acc
    else if a == 24 then Scan1(acc, v0, a + 1)
    else Scan1(Scan2(acc, v0, a, a), v0, a + 1)
  }

  /** The `v0` loop from `a` on. */
  function Scan0(acc: seq<seq<int>>, a: nat): seq<seq<int>>
    requires a <= 32
    decreases 32 - a
  {
    if a == 32 then acc
    else if a == 24 then Scan0(acc, a + 1)
    else Scan0(Scan1(acc, a, a), a + 1)
  }

  /** Every tuple the four loops visit, in visiting order. */
  function Tuples(): seq<seq<int>>
  {
    Scan0([], Lowest)
  }

  /** `puzzles` after the corpus loop. */
  function CorpusPuzzles(): seq<Puzzle>
  {
    TuplesQuadruples();
    Solved(Tuples())
  }

  /** The state the corpus loop keeps after visiting `visited`. */
  ghost predicate Visited(visited: seq<seq<int>>, puzzles: seq<Puzzle>, counter: nat)
  {
    Quadruples(visited) && puzzles == Solved(visited) && counter == |visited|
  }

  /**
   * The corpus loop: `puzzles` as pushed, and `counter` once every tuple has
   * been visited (the loop uses it only to report progress). Each loop level
   * is its own method below.
   */
  method BuildCorpus() returns (puzzles: seq<Puzzle>, counter: nat)
    ensures puzzles == CorpusPuzzles()
    ensures counter == |Tuples()| == CounterMaxValue
  {
    TuplesCount();
    puzzles := [];
    counter := 0;
    ghost var visited: seq<seq<int>> := [];
    ghost var goal := Tuples();
    for v0 := 1 to 32
      invariant Scan0(visited, v0) == goal
      invariant Visited(visited, puzzles, counter)
    {
      if v0 == 24 {
        continue;
      }
      puzzles, counter, visited := ScanFirst(v0, puzzles, counter, visited);
    }
  }

  /** The `v1` loop for one `v0`. */
  method ScanFirst(v0: nat, puzzles: seq<Puzzle>, counter: nat, ghost visited: seq<seq<int>>)
    returns (puzzles': seq<Puzzle>, counter': nat, ghost visited': seq<seq<int>>)
    requires v0 <= 32 && Visited(visited, puzzles, counter)
    ensures visited' == Scan1(visited, v0, v0) && Visited(visited', puzzles', counter')
  {
    puzzles', counter', visited' := puzzles, counter, visited;
    ghost var goal := Scan1(visited, v0, v0);
    for v1 := v0 to 32
      invariant Scan1(visited', v0, v1) == goal
      invariant Visited(visited', puzzles', counter')
    {
      if v1 == 24 {
        continue;
      }
      puzzles', counter', visited' := ScanSecond(v0, v1, puzzles', counter', visited');
    }
  }

  /** The `v2` loop for one `v0, v1`. */
  method ScanSecond(v0: nat, v1: nat, puzzles: seq<Puzzle>, counter: nat, ghost visited: seq<seq<int>>)
    returns (puzzles': seq<Puzzle>, counter': nat, ghost visited': seq<seq<int>>)
    requires v1 <= 32 && Visited(visited, puzzles, counter)
    ensures visited' == Scan2(visited, v0, v1, v1) && Visited(visited', puzzles', counter')
  {
    puzzles', counter', visited' := puzzles, counter, visited;
    ghost var goal := Scan2(visited, v0, v1, v1);
    for v2 := v1 to 32
      invariant Scan2(visited', v0, v1, v2) == goal
      invariant Visited(visited', puzzles', counter')
    {
      if v2 == 24 {
        continue;
      }
      puzzles', counter', visited' := ScanThird(v0, v1, v2, puzzles', counter', visited');
    }
  }

  /** The `v3` loop for one `v0, v1, v2`: solve each tuple, keep it when it has solutions. */
  method ScanThird(v0: nat, v1: nat, v2: nat, puzzles: seq<Puzzle>, counter: nat, ghost visited: seq<seq<int>>)
    returns (puzzles': seq<Puzzle>, counter': nat, ghost visited': seq<seq<int>>)
    requires v2 <= 32 && Visited(visited, puzzles, counter)
    ensures visited' == Scan3(visited, v0, v1, v2, v2) && Visited(visited', puzzles', counter')
  {
    puzzles', counter', visited' := puzzles, counter, visited;
    ghost var goal := Scan3(visited, v0, v1, v2, v2);
    for v3 := v2 to 32
      invariant Scan3(visited', v0, v1, v2, v3) == goal
      invariant Visited(visited', puzzles', counter')
    {
      if v3 == 24 {
        continue;
      }
      counter' := counter' + 1;
      var values := [v0, v1, v2, v3];
      var length := SolutionsLength(values);
      VisitStep(visited', values);
      visited' := visited' + [values];
      if length == 0 {
        continue;
      }
      puzzles' := puzzles' + [Puzzle(length, values)];
    }
  }

  /** `solve(values).length`. */
  method SolutionsLength(values: seq<int>) returns (length: nat)
    requires |values| == 4
    ensures length == Count(values)
  {
    var solutions := Solve(values);
    length := |solutions|;
  }

  lemma VisitStep(visited: seq<seq<int>>, values: seq<int>)
    requires Quadruples(visited) && |values| == 4
    ensures Quadruples(visited + [values])
    ensures Solved(visited + [values]) ==
            Solved(visited) + Kept(values)
  {
    assert (visited + [values])[..|visited|] == visited;
  }

  lemma {:induction false} Scan3Quadruples(acc: seq<seq<int>>, v0: int, v1: int, v2: int, a: nat)
    requires a <= 32 && Quadruples(acc)
    ensures Quadruples(Scan3(acc, v0, v1, v2, a))
    decreases 32 - a
  {
    if a < 32 {
      Scan3Quadruples(if a == 24 then acc else acc + [[v0, v1, v2, a]], v0, v1, v2, a + 1);
    }
  }

  lemma {:induction false} Scan2Quadruples(acc: seq<seq<int>>, v0: int, v1: int, a: nat)
    requires a <= 32 && Quadruples(acc)
    ensures Quadruples(Scan2(acc, v0, v1, a))
    decreases 32 - a
  {
    if a < 32 {
      Scan3Quadruples(acc, v0, v1, a, a);
      Scan2Quadruples(if a == 24 then acc else Scan3(acc, v0, v1, a, a), v0, v1, a + 1);
    }
  }

  lemma {:induction false} Scan1Quadruples(acc: seq<seq<int>>, v0: int, a: nat)
    requires a <= 32 && Quadruples(acc)
    ensures Quadruples(Scan1(acc, v0, a))
    decreases 32 - a
  {
    if a < 32 {
      Scan2Quadruples(acc, v0, a, a);
      Scan1Quadruples(if a == 24 then acc else Scan2(acc, v0, a, a), v0, a + 1);
    }
  }

  lemma {:induction false} Scan0Quadruples(acc: seq<seq<int>>, a: nat)
    requires a <= 32 && Quadruples(acc)
    ensures Quadruples(Scan0(acc, a))
    decreases 32 - a
  {
    if a < 32 {
      Scan1Quadruples(acc, a, a);
      Scan0Quadruples(if a == 24 then acc else Scan1(acc, a, a), a + 1);
    }
  }

  lemma TuplesQuadruples()
    ensures Quadruples(Tuples())
  {
    Scan0Quadruples([], Lowest);
  }

  // Membership: which tuples the loops visit.

  /** A value the loops give a position: below 32 and not 24. */
  predicate Playable(d: int)
  {
    d < 32 && d != 24
  }

  /** The last position ranges from `a` on. */
  predicate From3(x: seq<int>, a: int)
  {
    |x| == 4 && a <= x[3] && Playable(x[3])
  }

  /** Positions 2..3 range from `a` on, non-decreasing. */
  predicate From2(x: seq<int>, a: int)
  {
    |x| == 4 && a <= x[2] && Playable(x[2]) && From3(x, x[2])
  }

  /** Positions 1..3 range from `a` on, non-decreasing. */
  predicate From1(x: seq<int>, a: int)
  {
    |x| == 4 && a <= x[1] && Playable(x[1]) && From2(x, x[1])
  }

  /** All four positions range from `a` on, non-decreasing. */
  predicate From0(x: seq<int>, a: int)
  {
    |x| == 4 && a <= x[0] && Playable(x[0]) && From1(x, x[0])
  }

  /** What the `v3` loop from `a` still visits. */
  predicate Under3(x: seq<int>, v0: int, v1: int, v2: int, a: int)
  {
    From3(x, a) && x[0] == v0 && x[1] == v1 && x[2] == v2
  }

  /** What the `v2` loop from `a` still visits. */
  predicate Under2(x: seq<int>, v0: int, v1: int, a: int)
  {
    From2(x, a) && x[0] == v0 && x[1] == v1
  }

  /** What the `v1` loop from `a` still visits. */
  predicate Under1(x: seq<int>, v0: int, a: int)
  {
    From1(x, a) && x[0] == v0
  }

  /** A corpus tuple: four values in 1..31, none 24, in non-decreasing order. */
  predicate Tuple(x: seq<int>)
  {
    |x| == 4 && 1 <= x[0] <= x[1] <= x[2] <= x[3] < 32 &&
    forall i :: 0 <= i < 4 ==> x[i] != 24
  }

  lemma From2Next(x: seq<int>, a: int)
    requires a < 32 && a != 24
    ensures From2(x, a) <==> From2(x, a + 1) || (|x| == 4 && x[2] == a && From3(x, a))
  {
  }

  lemma From1Next(x: seq<int>, a: int)
    requires a < 32 && a != 24
    ensures From1(x, a) <==> From1(x, a + 1) || (|x| == 4 && x[1] == a && From2(x, a))
  {
  }

  lemma From0Next(x: seq<int>, a: int)
    requires a < 32 && a != 24
    ensures From0(x, a) <==> From0(x, a + 1) || (|x| == 4 && x[0] == a && From1(x, a))
  {
  }

  lemma {:induction false} Scan3Members(acc: seq<seq<int>>, v0: int, v1: int, v2: int, a: nat, x: seq<int>)
    requires a <= 32
    ensures x in Scan3(acc, v0, v1, v2, a) <==> x in acc || Under3(x, v0, v1, v2, a)
    decreases 32 - a
  {
    if a == 24 {
      Scan3Members(acc, v0, v1, v2, a + 1, x);
    } else if a < 32 {
      var t := [v0, v1, v2, a];
      Scan3Members(acc + [t], v0, v1, v2, a + 1, x);
      assert x in acc + [t] <==> x in acc || x == t;
      if |x| == 4 && x[0] == v0 && x[1] == v1 && x[2] == v2 && x[3] == a {
        assert x == t;
      }
    }
  }

  lemma {:induction false} Scan2Members(acc: seq<seq<int>>, v0: int, v1: int, a: nat, x: seq<int>)
    requires a <= 32
    ensures x in Scan2(acc, v0, v1, a) <==> x in acc || Under2(x, v0, v1, a)
    decreases 32 - a
  {
    if a == 24 {
      Scan2Members(acc, v0, v1, a + 1, x);
    } else if a < 32 {
      From2Next(x, a);
      Scan3Members(acc, v0, v1, a, a, x);
      Scan2Members(Scan3(acc, v0, v1, a, a), v0, v1, a + 1, x);
    }
  }

  lemma {:induction false} Scan1Keeps(acc: seq<seq<int>>, v0: int, a: nat, x: seq<int>)
    requires a <= 32 && x in acc
    ensures x in Scan1(acc, v0, a)
    decreases 32 - a
  {
    if a == 24 {
      Scan1Keeps(acc, v0, a + 1, x);
    } else if a < 32 {
      Scan2Members(acc, v0, a, a, x);
      Scan1Keeps(Scan2(acc, v0, a, a), v0, a + 1, x);
    }
  }

  lemma {:induction false} Scan1Picks(acc: seq<seq<int>>, v0: int, a: nat, x: seq<int>)
    requires a <= 32 && Under1(x, v0, a)
    ensures x in Scan1(acc, v0, a)
    decreases 32 - a
  {
    if a == 24 {
      Scan1Picks(acc, v0, a + 1, x);
    } else if a < 32 {
      From1Next(x, a);
      if x[1] == a {
        Scan2Members(acc, v0, a, a, x);
        Scan1Keeps(Scan2(acc, v0, a, a), v0, a + 1, x);
      } else {
        Scan1Picks(Scan2(acc, v0, a, a), v0, a + 1, x);
      }
    }
  }

  lemma {:induction false} Scan1Sources(acc: seq<seq<int>>, v0: int, a: nat, x: seq<int>)
    requires a <= 32 && x in Scan1(acc, v0, a)
    ensures x in acc || Under1(x, v0, a)
    decreases 32 - a
  {
    if a == 24 {
      Scan1Sources(acc, v0, a + 1, x);
    } else if a < 32 {
      From1Next(x, a);
      Scan1Sources(Scan2(acc, v0, a, a), v0, a + 1, x);
      Scan2Members(acc, v0, a, a, x);
    }
  }

  lemma Scan1Members(acc: seq<seq<int>>, v0: int, a: nat, x: seq<int>)
    requires a <= 32
    ensures x in Scan1(acc, v0, a) <==> x in acc || Under1(x, v0, a)
  {
    if x in Scan1(acc, v0, a) {
      Scan1Sources(acc, v0, a, x);
    }
    if x in acc {
      Scan1Keeps(acc, v0, a, x);
    } else if Under1(x, v0, a) {
      Scan1Picks(acc, v0, a, x);
    }
  }

  lemma {:induction false} Scan0Keeps(acc: seq<seq<int>>, a: nat, x: seq<int>)
    requires a <= 32 && x in acc
    ensures x in Scan0(acc, a)
    decreases 32 - a
  {
    if a == 24 {
      Scan0Keeps(acc, a + 1, x);
    } else if a < 32 {
      Scan1Members(acc, a, a, x);
      Scan0Keeps(Scan1(acc, a, a), a + 1, x);
    }
  }

  lemma {:induction false} Scan0Picks(acc: seq<seq<int>>, a: nat, x: seq<int>)
    requires a <= 32 && From0(x, a)
    ensures x in Scan0(acc, a)
    decreases 32 - a
  {
    if a == 24 {
      Scan0Picks(acc, a + 1, x);
    } else if a < 32 {
      From0Next(x, a);
      if x[0] == a {
        Scan1Members(acc, a, a, x);
        Scan0Keeps(Scan1(acc, a, a), a + 1, x);
      } else {
        Scan0Picks(Scan1(acc, a, a), a + 1, x);
      }
    }
  }

  lemma {:induction false} Scan0Sources(acc: seq<seq<int>>, a: nat, x: seq<int>)
    requires a <= 32 && x in Scan0(acc, a)
    ensures x in acc || From0(x, a)
    decreases 32 - a
  {
    if a == 24 {
      Scan0Sources(acc, a + 1, x);
    } else if a < 32 {
      From0Next(x, a);
      Scan0Sources(Scan1(acc, a, a), a + 1, x);
      Scan1Members(acc, a, a, x);
    }
  }

  lemma Scan0Members(acc: seq<seq<int>>, a: nat, x: seq<int>)
    requires a <= 32
    ensures x in Scan0(acc, a) <==> x in acc || From0(x, a)
  {
    if x in Scan0(acc, a) {
      Scan0Sources(acc, a, x);
    }
    if x in acc {
      Scan0Keeps(acc, a, x);
    } else if From0(x, a) {
      Scan0Picks(acc, a, x);
    }
  }

  /** The loops visit exactly the corpus tuples. */
  lemma TuplesMembers(x: seq<int>)
    ensures x in Tuples() <==> Tuple(x)
  {
    Scan0Members([], Lowest, x);
    TupleFrom(x);
  }

  lemma TupleFrom(x: seq<int>)
    ensures From0(x, Lowest) <==> Tuple(x)
  {
    if |x| == 4 {
      assert Tuple(x) <==> 1 <= x[0] <= x[1] <= x[2] <= x[3] < 32 &&
                           x[0] != 24 && x[1] != 24 && x[2] != 24 && x[3] != 24;
    }
  }

  // Uniqueness: no tuple is visited twice.

  lemma {:induction false} Scan3Unique(acc: seq<seq<int>>, v0: int, v1: int, v2: int, a: nat)
    requires a <= 32 && Unique(acc)
    requires forall y :: y in acc ==> !Under3(y, v0, v1, v2, a)
    ensures Unique(Scan3(acc, v0, v1, v2, a))
    decreases 32 - a
  {
    if a == 24 {
      Scan3Unique(acc, v0, v1, v2, a + 1);
    } else if a < 32 {
      var t := [v0, v1, v2, a];
      assert Under3(t, v0, v1, v2, a);
      UniqueAppend(acc, [t]);
      Scan3Unique(acc + [t], v0, v1, v2, a + 1);
    }
  }

  lemma {:induction false} Scan2Unique(acc: seq<seq<int>>, v0: int, v1: int, a: nat)
    requires a <= 32 && Unique(acc)
    requires forall y :: y in acc ==> !Under2(y, v0, v1, a)
    ensures Unique(Scan2(acc, v0, v1, a))
    decreases 32 - a
  {
    if a == 24 {
      Scan2Unique(acc, v0, v1, a + 1);
    } else if a < 32 {
      Scan3Unique(acc, v0, v1, a, a);
      var next := Scan3(acc, v0, v1, a, a);
      forall y | y in next
        ensures !Under2(y, v0, v1, a + 1)
      {
        Scan3Members(acc, v0, v1, a, a, y);
      }
      Scan2Unique(next, v0, v1, a + 1);
    }
  }

  lemma {:induction false} Scan1Unique(acc: seq<seq<int>>, v0: int, a: nat)
    requires a <= 32 && Unique(acc)
    requires forall y :: y in acc ==> !Under1(y, v0, a)
    ensures Unique(Scan1(acc, v0, a))
    decreases 32 - a
  {
    if a == 24 {
      Scan1Unique(acc, v0, a + 1);
    } else if a < 32 {
      Scan2Unique(acc, v0, a, a);
      var next := Scan2(acc, v0, a, a);
      forall y | y in next
        ensures !Under1(y, v0, a + 1)
      {
        Scan2Members(acc, v0, a, a, y);
      }
      Scan1Unique(next, v0, a + 1);
    }
  }

  lemma {:induction false} Scan0Unique(acc: seq<seq<int>>, a: nat)
    requires a <= 32 && Unique(acc)
    requires forall y :: y in acc ==> !From0(y, a)
    ensures Unique(Scan0(acc, a))
    decreases 32 - a
  {
    if a == 24 {
      Scan0Unique(acc, a + 1);
    } else if a < 32 {
      Scan1Unique(acc, a, a);
      var next := Scan1(acc, a, a);
      forall y | y in next
        ensures !From0(y, a + 1)
      {
        Scan1Members(acc, a, a, y);
      }
      Scan0Unique(next, a + 1);
    }
  }

  /** No tuple is visited twice. */
  lemma TuplesUnique()
    ensures Unique(Tuples())
  {
    Scan0Unique([], Lowest);
  }

  // Counting: `COUNTER_MAX_VALUE` is the number of visited tuples.

  /** How many values from `a` to 31 the loops use (24 is skipped). */
  function Room(a: nat): nat
    requires a <= 32
  {
    (32 - a) - (if a <= 24 then 1 else 0)
  }

  /** Between two neighbouring starting values the room shrinks by one (24 is skipped). */
  lemma RoomStep(a: nat)
    requires a < 32 && a != 24
    ensures Room(a) == Room(a + 1) + 1
  {
  }

  /** The number of non-decreasing pairs over `r` values. */
  function Tri(r: nat): nat
  {
    if r == 0 then 0 else Tri(r - 1) + r
  }

  /** The number of non-decreasing triples over `r` values. */
  function Tet(r: nat): nat
  {
    if r == 0 then 0 else Tet(r - 1) + Tri(r)
  }

  /** The number of non-decreasing quadruples over `r` values. */
  function Pent(r: nat): nat
  {
    if r == 0 then 0 else Pent(r - 1) + Tet(r)
  }

  lemma {:induction false} Scan3Length(acc: seq<seq<int>>, v0: int, v1: int, v2: int, a: nat)
    requires a <= 32
    ensures |Scan3(acc, v0, v1, v2, a)| == |acc| + Room(a)
    decreases 32 - a
  {
    if a == 24 {
      Scan3Length(acc, v0, v1, v2, a + 1);
    } else if a < 32 {
      Scan3Length(acc + [[v0, v1, v2, a]], v0, v1, v2, a + 1);
    }
  }

  lemma {:induction false} Scan2Length(acc: seq<seq<int>>, v0: int, v1: int, a: nat)
    requires a <= 32
    ensures |Scan2(acc, v0, v1, a)| == |acc| + Tri(Room(a))
    decreases 32 - a
  {
    if a == 24 {
      Scan2Length(acc, v0, v1, a + 1);
    } else if a < 32 {
      Scan3Length(acc, v0, v1, a, a);
      Scan2Length(Scan3(acc, v0, v1, a, a), v0, v1, a + 1);
      RoomStep(a);
    }
  }

  lemma {:induction false} Scan1Length(acc: seq<seq<int>>, v0: int, a: nat)
    requires a <= 32
    ensures |Scan1(acc, v0, a)| == |acc| + Tet(Room(a))
    decreases 32 - a
  {
    if a == 24 {
      Scan1Length(acc, v0, a + 1);
    } else if a < 32 {
      Scan2Length(acc, v0, a, a);
      Scan1Length(Scan2(acc, v0, a, a), v0, a + 1);
      RoomStep(a);
    }
  }

  lemma {:induction false} Scan0Length(acc: seq<seq<int>>, a: nat)
    requires a <= 32
    ensures |Scan0(acc, a)| == |acc| + Pent(Room(a))
    decreases 32 - a
  {
    if a == 24 {
      Scan0Length(acc, a + 1);
    } else if a < 32 {
      Scan1Length(acc, a, a);
      Scan0Length(Scan1(acc, a, a), a + 1);
      RoomStep(a);
    }
  }

  lemma {:induction false} TriClosed(r: nat)
    ensures 2 * Tri(r) == r * (r + 1)
  {
    if r > 0 {
      TriClosed(r - 1);
      Pairs(r, r - 1);
    }
  }

  lemma {:induction false} TetClosed(r: nat)
    ensures 6 * Tet(r) == r * (r + 1) * (r + 2)
  {
    if r > 0 {
      TetClosed(r - 1);
      TriClosed(r);
      Triples(r, r - 1);
    }
  }

  lemma {:induction false} PentClosed(r: nat)
    ensures 24 * Pent(r) == r * (r + 1) * (r + 2) * (r + 3)
  {
    if r > 0 {
      PentClosed(r - 1);
      TetClosed(r);
      Quadruple(r, r - 1);
    }
  }

  lemma Pairs(x: int, y: int)
    requires x == y + 1
    ensures x * (x + 1) == 2 * x + y * (y + 1)
  {
  }

  lemma Triples(x: int, y: int)
    requires x == y + 1
    ensures x * (x + 1) * (x + 2) == 3 * (x * (x + 1)) + y * (y + 1) * (y + 2)
  {
    var p := x * (x + 1);
    assert x * (x + 1) * (x + 2) == p * (x + 2);
    assert y * (y + 1) * (y + 2) == (x - 1) * p;
  }

  lemma Quadruple(x: int, y: int)
    requires x == y + 1
    ensures x * (x + 1) * (x + 2) * (x + 3) == 4 * (x * (x + 1) * (x + 2)) + y * (y + 1) * (y + 2) * (y + 3)
  {
    var t := x * (x + 1) * (x + 2);
    assert x * (x + 1) * (x + 2) * (x + 3) == t * (x + 3);
    assert y * (y + 1) * (y + 2) * (y + 3) == (x - 1) * t;
  }

  /** The loops visit `COUNTER_MAX_VALUE` tuples: 30 * 31 * 32 * 33 / 24. */
  lemma TuplesCount()
    ensures |Tuples()| == CounterMaxValue
  {
    Scan0Length([], Lowest);
    PentClosed(Room(Lowest));
    Thirty();
  }

  lemma Thirty()
    ensures Room(Lowest) * (Room(Lowest) + 1) * (Room(Lowest) + 2) * (Room(Lowest) + 3) == 24 * CounterMaxValue
  {
    assert Room(Lowest) == 30;
  }

  // The kept puzzles.

  /** A puzzle is kept for a visited tuple exactly when the tuple has solutions, with their number. */
  lemma {:induction false} SolvedMembers(visited: seq<seq<int>>, p: Puzzle)
    requires Quadruples(visited)
    ensures p in Solved(visited) <==>
            p.values in visited && |p.values| == 4 && p.count == Count(p.values) && p.count > 0
    decreases |visited|
  {
    if visited != [] {
      var front := visited[..|visited| - 1];
      var v := visited[|visited| - 1];
      SolvedMembers(front, p);
      LastMembers(visited, p.values);
      KeptMembers(v, p);
      assert p in Solved(visited) <==> p in Solved(front) || p in Kept(v);
    }
  }

  lemma KeptMembers(v: seq<int>, p: Puzzle)
    requires |v| == 4
    ensures p in Kept(v) <==> p.values == v && p.count == Count(v) && p.count > 0
  {
  }

  lemma LastMembers<T>(s: seq<T>, x: T)
    requires s != []
    ensures x in s <==> x in s[..|s| - 1] || x == s[|s| - 1]
  {
    assert s == s[..|s| - 1] + [s[|s| - 1]];
  }

  lemma LastUnique<T>(s: seq<T>)
    requires s != [] && Unique(s)
    ensures Unique(s[..|s| - 1]) && s[|s| - 1] !in s[..|s| - 1]
  {
  }

  /** Distinct visited tuples give distinct puzzles. */
  lemma {:induction false} SolvedUnique(visited: seq<seq<int>>)
    requires Quadruples(visited) && Unique(visited)
    ensures Unique(Solved(visited))
    decreases |visited|
  {
    if visited != [] {
      var front := visited[..|visited| - 1];
      var v := visited[|visited| - 1];
      LastUnique(visited);
      SolvedUnique(front);
      var kept := Solved(front);
      forall q | q in kept
        ensures q !in Kept(v)
      {
        SolvedMembers(front, q);
        KeptMembers(v, q);
      }
      UniqueAppend(kept, Kept(v));
    }
  }

  /** The corpus holds one puzzle per solvable tuple, with its number of solutions. */
  lemma CorpusMembers(p: Puzzle)
    ensures p in CorpusPuzzles() <==> Tuple(p.values) && p.count == Count(p.values) && p.count > 0
  {
    TuplesQuadruples();
    SolvedMembers(Tuples(), p);
    TuplesMembers(p.values);
  }

  /** No puzzle appears twice in the corpus. */
  lemma CorpusUnique()
    ensures Unique(CorpusPuzzles())
  {
    TuplesQuadruples();
    TuplesUnique();
    SolvedUnique(Tuples());
  }

  /** Every corpus puzzle holds a corpus tuple. */
  lemma CorpusTuples()
    ensures forall p :: p in CorpusPuzzles() ==> Tuple(p.values)
  {
    forall p | p in CorpusPuzzles()
      ensures Tuple(p.values)
    {
      CorpusMembers(p);
    }
  }
}
