/**
 * `getAllArrangements` of solve.js: the values of a four-number puzzle in
 * every order of their positions, with repeated value sequences dropped
 * (the first occurrence of each is kept).
 */
module Arrangements {

  /** The values at positions a, b, c and d. */
  function Pick(v: seq<int>, a: nat, b: nat, c: nat, d: nat): seq<int>
    requires a < |v| && b < |v| && c < |v| && d < |v|
  {
    [v[a], v[b], v[c], v[d]]
  }

  /** Four different positions among 0..3. */
  predicate Distinct4(a: nat, b: nat, c: nat, d: nat)
  {
    a < 4 && b < 4 && c < 4 && d < 4 && a != b && a != c && a != d && b != c && b != d && c != d
  }

  /** The `idx3` loop from `i3` on, appending to `acc`. */
  function Loop3(acc: seq<seq<int>>, v: seq<int>, i0: nat, i1: nat, i2: nat, i3: nat): seq<seq<int>>
    requires |v| == 4 && i0 < 4 && i1 < 4 && i2 < 4 && i3 <= 4
    decreases 4 - i3
  {
    if i3 == |v| then acc
    else if i3 == i0 || i3 == i1 || i3 == i2 then Loop3(acc, v, i0, i1, i2, i3 + 1)
    else Loop3(acc + [Pick(v, i0, i1, i2, i3)], v, i0, i1, i2, i3 + 1)
  }

  /** The `idx2` loop from `i2` on. */
  function Loop2(acc: seq<seq<int>>, v: seq<int>, i0: nat, i1: nat, i2: nat): seq<seq<int>>
    requires |v| == 4 && i0 < 4 && i1 < 4 && i2 <= 4
    decreases 4 - i2
  {
    if i2 == |v| then acc
    else if i2 == i0 || i2 == i1 then Loop2(acc, v, i0, i1, i2 + 1)
    else Loop2(Loop3(acc, v, i0, i1, i2, 0), v, i0, i1, i2 + 1)
  }

  /** The `idx1` loop from `i1` on. */
  function Loop1(acc: seq<seq<int>>, v: seq<int>, i0: nat, i1: nat): seq<seq<int>>
    requires |v| == 4 && i0 < 4 && i1 <= 4
    decreases 4 - i1
  {
    if i1 == |v| then acc
    else if i1 == i0 then Loop1(acc, v, i0, i1 + 1)
    else Loop1(Loop2(acc, v, i0, i1, 0), v, i0, i1 + 1)
  }

  /** The `idx0` loop from `i0` on. */
  function Loop0(acc: seq<seq<int>>, v: seq<int>, i0: nat): seq<seq<int>>
    requires |v| == 4 && i0 <= 4
    decreases 4 - i0
  {
    if i0 == |v| then acc else Loop0(Loop1(acc, v, i0, 0), v, i0 + 1)
  }

  /** `result` after the four nested loops: the values in all 24 orders of positions, in loop order. */
  function Orders(v: seq<int>): seq<seq<int>>
    requires |v| == 4
  {
    Loop0([], v, 0)
  }

  /** The filter against the `already` set: each element kept only where it first occurs. */
  function FirstOccurrences(s: seq<seq<int>>): seq<seq<int>>
    decreases |s|
  {
    if s == [] then []
    else
      var init := s[..|s| - 1];
      FirstOccurrences(init) + (if s[|s| - 1] in init then [] else [s[|s| - 1]])
  }

  /** The elements of `s` as a set: the `already` set once `s` has been filtered. */
  function Keys(s: seq<seq<int>>): set<seq<int>>
    decreases |s|
  {
    if s == [] then {} else Keys(s[..|s| - 1]) + {s[|s| - 1]}
  }

  lemma {:induction false} KeysMembers(s: seq<seq<int>>)
    ensures forall x :: x in Keys(s) <==> x in s
    decreases |s|
  {
    if s != [] {
      var init := s[..|s| - 1];
      KeysMembers(init);
      assert s == init + [s[|s| - 1]];
    }
  }

  /** The result of `getAllArrangements(values)`. */
  function ArrangementsOf(v: seq<int>): seq<seq<int>>
    requires |v| == 4
  {
    FirstOccurrences(Orders(v))
  }

  /** `getAllArrangements(values)`: four nested index loops, then the filter through a set of seen keys. */
  method AllArrangements(values: seq<int>) returns (arrangements: seq<seq<int>>)
    requires |values| == 4
    ensures arrangements == ArrangementsOf(values)
  {
    ghost var goal := Orders(values);
    var result := [];
    for idx0 := 0 to 4
      invariant Loop0(result, values, idx0) == goal
    {
      ghost var goal1 := Loop1(result, values, idx0, 0);
      for idx1 := 0 to 4
        invariant Loop1(result, values, idx0, idx1) == goal1
      {
        if idx1 == idx0 {
          continue;
        }
        ghost var goal2 := Loop2(result, values, idx0, idx1, 0);
        for idx2 := 0 to 4
          invariant Loop2(result, values, idx0, idx1, idx2) == goal2
        {
          if idx2 == idx0 || idx2 == idx1 {
            continue;
          }
          ghost var goal3 := Loop3(result, values, idx0, idx1, idx2, 0);
          for idx3 := 0 to 4
            invariant Loop3(result, values, idx0, idx1, idx2, idx3) == goal3
          {
            if idx3 == idx0 || idx3 == idx1 || idx3 == idx2 {
              continue;
            }
            result := result + [[values[idx0], values[idx1], values[idx2], values[idx3]]];
          }
        }
      }
    }
    arrangements := KeepFirst(result);
  }

  /** The filter of `getAllArrangements`: a key is kept unless the `already` set holds it. */
  method KeepFirst(result: seq<seq<int>>) returns (arrangements: seq<seq<int>>)
    ensures arrangements == FirstOccurrences(result)
  {
    var already: set<seq<int>> := {};
    arrangements := [];
    for i := 0 to |result|
      invariant arrangements == FirstOccurrences(result[..i])
      invariant already == Keys(result[..i])
    {
      var arrangement := result[i];
      assert result[..i + 1][..i] == result[..i];
      KeysMembers(result[..i]);
      if arrangement in already {
        continue;
      }
      already := already + {arrangement};
      arrangements := arrangements + [arrangement];
    }
    assert result[..|result|] == result;
  }

  /** No element occurs twice. */
  predicate Unique<T(==)>(s: seq<T>)
  {
    forall i, j :: 0 <= i < j < |s| ==> s[i] != s[j]
  }

  lemma AppendAssociative<T>(a: seq<T>, b: seq<T>, c: seq<T>)
    ensures (a + b) + c == a + (b + c)
  {
  }

  lemma UniqueAppend<T>(a: seq<T>, b: seq<T>)
    requires Unique(a) && Unique(b)
    requires forall x :: x in a ==> x !in b
    ensures Unique(a + b)
  {
    forall i, j | 0 <= i < j < |a + b|
      ensures (a + b)[i] != (a + b)[j]
    {
      if j < |a| {
        assert (a + b)[i] == a[i] && (a + b)[j] == a[j];
      } else if i >= |a| {
        assert (a + b)[i] == b[i - |a|] && (a + b)[j] == b[j - |a|];
      } else {
        assert (a + b)[i] == a[i] && (a + b)[j] == b[j - |a|];
        assert a[i] in a;
      }
    }
  }

  // ---- the four loops ----

  lemma {:induction false} Loop3Acc(acc: seq<seq<int>>, v: seq<int>, i0: nat, i1: nat, i2: nat, i3: nat)
    requires |v| == 4 && i0 < 4 && i1 < 4 && i2 < 4 && i3 <= 4
    ensures Loop3(acc, v, i0, i1, i2, i3) == acc + Loop3([], v, i0, i1, i2, i3)
    decreases 4 - i3
  {
    if i3 < 4 {
      if i3 == i0 || i3 == i1 || i3 == i2 {
        Loop3Acc(acc, v, i0, i1, i2, i3 + 1);
      } else {
        var p := [Pick(v, i0, i1, i2, i3)];
        Loop3Acc(acc + p, v, i0, i1, i2, i3 + 1);
        Loop3Acc(p, v, i0, i1, i2, i3 + 1);
        assert [] + p == p;
      }
    }
  }

  lemma {:induction false} Loop2Acc(acc: seq<seq<int>>, v: seq<int>, i0: nat, i1: nat, i2: nat)
    requires |v| == 4 && i0 < 4 && i1 < 4 && i2 <= 4
    ensures Loop2(acc, v, i0, i1, i2) == acc + Loop2([], v, i0, i1, i2)
    decreases 4 - i2
  {
    if i2 < 4 {
      if i2 == i0 || i2 == i1 {
        Loop2Acc(acc, v, i0, i1, i2 + 1);
      } else {
        var p := Loop3([], v, i0, i1, i2, 0);
        Loop3Acc(acc, v, i0, i1, i2, 0);
        Loop2Acc(acc + p, v, i0, i1, i2 + 1);
        Loop2Acc(p, v, i0, i1, i2 + 1);
        assert Loop2(acc, v, i0, i1, i2) == (acc + p) + Loop2([], v, i0, i1, i2 + 1);
        assert Loop2([], v, i0, i1, i2) == p + Loop2([], v, i0, i1, i2 + 1);
      }
    }
  }

  lemma {:induction false} Loop1Acc(acc: seq<seq<int>>, v: seq<int>, i0: nat, i1: nat)
    requires |v| == 4 && i0 < 4 && i1 <= 4
    ensures Loop1(acc, v, i0, i1) == acc + Loop1([], v, i0, i1)
    decreases 4 - i1
  {
    if i1 < 4 {
      if i1 == i0 {
        Loop1Acc(acc, v, i0, i1 + 1);
      } else {
        var p := Loop2([], v, i0, i1, 0);
        Loop2Acc(acc, v, i0, i1, 0);
        Loop1Acc(acc + p, v, i0, i1 + 1);
        Loop1Acc(p, v, i0, i1 + 1);
        assert Loop1(acc, v, i0, i1) == (acc + p) + Loop1([], v, i0, i1 + 1);
        assert Loop1([], v, i0, i1) == p + Loop1([], v, i0, i1 + 1);
      }
    }
  }

  lemma {:induction false} Loop0Acc(acc: seq<seq<int>>, v: seq<int>, i0: nat)
    requires |v| == 4 && i0 <= 4
    ensures Loop0(acc, v, i0) == acc + Loop0([], v, i0)
    decreases 4 - i0
  {
    if i0 < 4 {
      var p := Loop1([], v, i0, 0);
      Loop1Acc(acc, v, i0, 0);
      Loop0Acc(acc + p, v, i0 + 1);
      Loop0Acc(p, v, i0 + 1);
    }
  }

  /** Each free position from i3 on contributes its pick to the last loop. */
  lemma {:induction false} Loop3Picks(v: seq<int>, i0: nat, i1: nat, i2: nat, i3: nat, e: nat)
    requires |v| == 4 && i0 < 4 && i1 < 4 && i2 < 4 && i3 <= e < 4 && e != i0 && e != i1 && e != i2
    ensures Pick(v, i0, i1, i2, e) in Loop3([], v, i0, i1, i2, i3)
    decreases 4 - i3
  {
    if i3 == i0 || i3 == i1 || i3 == i2 {
      Loop3Picks(v, i0, i1, i2, i3 + 1, e);
    } else {
      var p := [Pick(v, i0, i1, i2, i3)];
      Loop3Acc(p, v, i0, i1, i2, i3 + 1);
      assert [] + p == p;
      if e != i3 {
        Loop3Picks(v, i0, i1, i2, i3 + 1, e);
      }
    }
  }

  /** Every element of the last loop is the pick of a free position from i3 on. */
  lemma {:induction false} Loop3Sources(v: seq<int>, i0: nat, i1: nat, i2: nat, i3: nat, x: seq<int>) returns (e: nat)
    requires |v| == 4 && i0 < 4 && i1 < 4 && i2 < 4 && i3 <= 4
    requires x in Loop3([], v, i0, i1, i2, i3)
    ensures i3 <= e < 4 && e != i0 && e != i1 && e != i2 && x == Pick(v, i0, i1, i2, e)
    decreases 4 - i3
  {
    if i3 == i0 || i3 == i1 || i3 == i2 {
      e := Loop3Sources(v, i0, i1, i2, i3 + 1, x);
    } else {
      var p := [Pick(v, i0, i1, i2, i3)];
      Loop3Acc(p, v, i0, i1, i2, i3 + 1);
      assert [] + p == p;
      if x == Pick(v, i0, i1, i2, i3) {
        e := i3;
      } else {
        e := Loop3Sources(v, i0, i1, i2, i3 + 1, x);
      }
    }
  }

  lemma {:induction false} Loop2Picks(v: seq<int>, i0: nat, i1: nat, i2: nat, d: nat, e: nat)
    requires |v| == 4 && i0 < 4 && i1 < 4 && i2 <= d < 4 && d != i0 && d != i1
    requires e < 4 && e != i0 && e != i1 && e != d
    ensures Pick(v, i0, i1, d, e) in Loop2([], v, i0, i1, i2)
    decreases 4 - i2
  {
    if i2 == i0 || i2 == i1 {
      Loop2Picks(v, i0, i1, i2 + 1, d, e);
    } else {
      var p := Loop3([], v, i0, i1, i2, 0);
      Loop2Acc(p, v, i0, i1, i2 + 1);
      if d == i2 {
        Loop3Picks(v, i0, i1, i2, 0, e);
      } else {
        Loop2Picks(v, i0, i1, i2 + 1, d, e);
      }
    }
  }

  lemma {:induction false} Loop2Sources(v: seq<int>, i0: nat, i1: nat, i2: nat, x: seq<int>) returns (d: nat, e: nat)
    requires |v| == 4 && i0 < 4 && i1 < 4 && i2 <= 4
    requires x in Loop2([], v, i0, i1, i2)
    ensures i2 <= d < 4 && d != i0 && d != i1 && e < 4 && e != i0 && e != i1 && e != d
    ensures x == Pick(v, i0, i1, d, e)
    decreases 4 - i2
  {
    if i2 == i0 || i2 == i1 {
      d, e := Loop2Sources(v, i0, i1, i2 + 1, x);
    } else {
      var p := Loop3([], v, i0, i1, i2, 0);
      Loop2Acc(p, v, i0, i1, i2 + 1);
      if x in p {
        d := i2;
        e := Loop3Sources(v, i0, i1, i2, 0, x);
      } else {
        d, e := Loop2Sources(v, i0, i1, i2 + 1, x);
      }
    }
  }

  lemma {:induction false} Loop1Picks(v: seq<int>, i0: nat, i1: nat, c: nat, d: nat, e: nat)
    requires |v| == 4 && i1 <= c && Distinct4(i0, c, d, e)
    ensures Pick(v, i0, c, d, e) in Loop1([], v, i0, i1)
    decreases 4 - i1
  {
    if i1 == i0 {
      Loop1Picks(v, i0, i1 + 1, c, d, e);
    } else {
      var p := Loop2([], v, i0, i1, 0);
      Loop1Acc(p, v, i0, i1 + 1);
      if c == i1 {
        Loop2Picks(v, i0, i1, 0, d, e);
      } else {
        Loop1Picks(v, i0, i1 + 1, c, d, e);
      }
    }
  }

  lemma {:induction false} Loop1Sources(v: seq<int>, i0: nat, i1: nat, x: seq<int>) returns (c: nat, d: nat, e: nat)
    requires |v| == 4 && i0 < 4 && i1 <= 4
    requires x in Loop1([], v, i0, i1)
    ensures i1 <= c && Distinct4(i0, c, d, e) && x == Pick(v, i0, c, d, e)
    decreases 4 - i1
  {
    if i1 == i0 {
      c, d, e := Loop1Sources(v, i0, i1 + 1, x);
    } else {
      var p := Loop2([], v, i0, i1, 0);
      Loop1Acc(p, v, i0, i1 + 1);
      if x in p {
        c := i1;
        d, e := Loop2Sources(v, i0, i1, 0, x);
      } else {
        c, d, e := Loop1Sources(v, i0, i1 + 1, x);
      }
    }
  }

  lemma Loop0Split(v: seq<int>, i0: nat)
    requires |v| == 4 && i0 < 4
    ensures Loop0([], v, i0) == Loop1([], v, i0, 0) + Loop0([], v, i0 + 1)
  {
    Loop0Acc(Loop1([], v, i0, 0), v, i0 + 1);
  }

  /** What the outer loop yields from i0 on, it still yields from any earlier index. */
  lemma Loop1Split(v: seq<int>, i0: nat, i1: nat)
    requires |v| == 4 && i0 < 4 && i1 < 4 && i1 != i0
    ensures Loop1([], v, i0, i1) == Loop2([], v, i0, i1, 0) + Loop1([], v, i0, i1 + 1)
  {
    Loop1Acc(Loop2([], v, i0, i1, 0), v, i0, i1 + 1);
  }

  lemma {:induction false} Loop0Later(v: seq<int>, i0: nat, k: nat, x: seq<int>)
    requires |v| == 4 && i0 <= k <= 4 && x in Loop0([], v, k)
    ensures x in Loop0([], v, i0)
    decreases k - i0
  {
    if i0 < k {
      Loop0Later(v, i0 + 1, k, x);
      Loop0Split(v, i0);
    }
  }

  lemma Loop0Picks(v: seq<int>, i0: nat, b: nat, c: nat, d: nat, e: nat)
    requires |v| == 4 && i0 <= b && Distinct4(b, c, d, e)
    ensures Pick(v, b, c, d, e) in Loop0([], v, i0)
  {
    Loop0Split(v, b);
    Loop1Picks(v, b, 0, c, d, e);
    Loop0Later(v, i0, b, Pick(v, b, c, d, e));
  }

  lemma {:induction false} Loop0Sources(v: seq<int>, i0: nat, x: seq<int>) returns (b: nat, c: nat, d: nat, e: nat)
    requires |v| == 4 && i0 <= 4
    requires x in Loop0([], v, i0)
    ensures i0 <= b && Distinct4(b, c, d, e) && x == Pick(v, b, c, d, e)
    decreases 4 - i0
  {
    var p := Loop1([], v, i0, 0);
    Loop0Acc(p, v, i0 + 1);
    if x in p {
      b := i0;
      c, d, e := Loop1Sources(v, i0, 0, x);
    } else {
      b, c, d, e := Loop0Sources(v, i0 + 1, x);
    }
  }

  /** `result` holds exactly the values read at four different positions. */
  lemma OrdersMembers(v: seq<int>, x: seq<int>)
    requires |v| == 4
    ensures x in Orders(v) <==> exists a, b, c, d :: Distinct4(a, b, c, d) && x == Pick(v, a, b, c, d)
  {
    if x in Orders(v) {
      var a, b, c, d := Loop0Sources(v, 0, x);
    }
    if exists a, b, c, d :: Distinct4(a, b, c, d) && x == Pick(v, a, b, c, d) {
      var a, b, c, d :| Distinct4(a, b, c, d) && x == Pick(v, a, b, c, d);
      Loop0Picks(v, 0, a, b, c, d);
    }
  }

  // ---- how many orders ----

  /** The positions from k to 3 none of the loops outside uses (-1 stands for no loop). */
  function Free(i0: int, i1: int, i2: int, k: nat): nat
    requires k <= 4
    decreases 4 - k
  {
    if k == 4 then 0 else (if k == i0 || k == i1 || k == i2 then 0 else 1) + Free(i0, i1, i2, k + 1)
  }

  lemma FreeCounts(i0: nat, i1: int, i2: int)
    requires i0 < 4 && i1 < 4 && i2 < 4
    ensures i1 == -1 && i2 == -1 ==> Free(i0, i1, i2, 0) == 3
    ensures i1 >= 0 && i1 != i0 && i2 == -1 ==> Free(i0, i1, i2, 0) == 2
    ensures i1 >= 0 && i2 >= 0 && i1 != i0 && i2 != i0 && i2 != i1 ==> Free(i0, i1, i2, 0) == 1
  {
    assert Free(i0, i1, i2, 3) == if 3 == i0 || 3 == i1 || 3 == i2 then 0 else 1;
    assert Free(i0, i1, i2, 2) == (if 2 == i0 || 2 == i1 || 2 == i2 then 0 else 1) + Free(i0, i1, i2, 3);
    assert Free(i0, i1, i2, 1) == (if 1 == i0 || 1 == i1 || 1 == i2 then 0 else 1) + Free(i0, i1, i2, 2);
  }

  lemma {:induction false} Loop3Length(acc: seq<seq<int>>, v: seq<int>, i0: nat, i1: nat, i2: nat, i3: nat)
    requires |v| == 4 && i0 < 4 && i1 < 4 && i2 < 4 && i3 <= 4
    ensures |Loop3(acc, v, i0, i1, i2, i3)| == |acc| + Free(i0, i1, i2, i3)
    decreases 4 - i3
  {
    if i3 < 4 {
      if i3 == i0 || i3 == i1 || i3 == i2 {
        Loop3Length(acc, v, i0, i1, i2, i3 + 1);
      } else {
        Loop3Length(acc + [Pick(v, i0, i1, i2, i3)], v, i0, i1, i2, i3 + 1);
      }
    }
  }

  lemma {:induction false} Loop2Length(acc: seq<seq<int>>, v: seq<int>, i0: nat, i1: nat, i2: nat)
    requires |v| == 4 && i0 < 4 && i1 < 4 && i0 != i1 && i2 <= 4
    ensures |Loop2(acc, v, i0, i1, i2)| == |acc| + Free(i0, i1, -1, i2)
    decreases 4 - i2
  {
    if i2 < 4 {
      if i2 == i0 || i2 == i1 {
        Loop2Length(acc, v, i0, i1, i2 + 1);
      } else {
        Loop3Length(acc, v, i0, i1, i2, 0);
        FreeCounts(i0, i1, i2);
        Loop2Length(Loop3(acc, v, i0, i1, i2, 0), v, i0, i1, i2 + 1);
      }
    }
  }

  lemma {:induction false} Loop1Length(acc: seq<seq<int>>, v: seq<int>, i0: nat, i1: nat)
    requires |v| == 4 && i0 < 4 && i1 <= 4
    ensures |Loop1(acc, v, i0, i1)| == |acc| + 2 * Free(i0, -1, -1, i1)
    decreases 4 - i1
  {
    if i1 < 4 {
      if i1 == i0 {
        Loop1Length(acc, v, i0, i1 + 1);
      } else {
        Loop2Length(acc, v, i0, i1, 0);
        FreeCounts(i0, i1, -1);
        Loop1Length(Loop2(acc, v, i0, i1, 0), v, i0, i1 + 1);
      }
    }
  }

  lemma {:induction false} Loop0Length(acc: seq<seq<int>>, v: seq<int>, i0: nat)
    requires |v| == 4 && i0 <= 4
    ensures |Loop0(acc, v, i0)| == |acc| + 6 * (4 - i0)
    decreases 4 - i0
  {
    if i0 < 4 {
      Loop1Length(acc, v, i0, 0);
      FreeCounts(i0, -1, -1);
      Loop0Length(Loop1(acc, v, i0, 0), v, i0 + 1);
    }
  }

  /** The four loops push 4 * 3 * 2 * 1 sequences. */
  lemma OrdersLength(v: seq<int>)
    requires |v| == 4
    ensures |Orders(v)| == 24
  {
    Loop0Length([], v, 0);
  }

  // ---- no order twice when the values are distinct ----

  /** Two duplicate-free blocks that differ at position k of every element concatenate without duplicates. */
  lemma UniqueBlocks(p: seq<seq<int>>, rest: seq<seq<int>>, k: nat, z: int)
    requires Unique(p) && Unique(rest)
    requires forall x :: x in p ==> |x| > k && x[k] == z
    requires forall y :: y in rest ==> |y| > k && y[k] != z
    ensures Unique(p + rest)
  {
    UniqueAppend(p, rest);
  }

  lemma Loop3Tail(v: seq<int>, i0: nat, i1: nat, i2: nat, i3: nat)
    requires |v| == 4 && i0 < 4 && i1 < 4 && i2 < 4 && i3 < 4 && Unique(v)
    ensures forall y :: y in Loop3([], v, i0, i1, i2, i3 + 1) ==> |y| == 4 && y[3] != v[i3]
  {
    forall y | y in Loop3([], v, i0, i1, i2, i3 + 1)
      ensures |y| == 4 && y[3] != v[i3]
    {
      var e := Loop3Sources(v, i0, i1, i2, i3 + 1, y);
    }
  }

  lemma Loop2Head(v: seq<int>, i0: nat, i1: nat, i2: nat)
    requires |v| == 4 && i0 < 4 && i1 < 4 && i2 < 4
    ensures forall x :: x in Loop3([], v, i0, i1, i2, 0) ==> |x| == 4 && x[2] == v[i2]
  {
    forall x | x in Loop3([], v, i0, i1, i2, 0)
      ensures |x| == 4 && x[2] == v[i2]
    {
      var e := Loop3Sources(v, i0, i1, i2, 0, x);
    }
  }

  lemma Loop2Tail(v: seq<int>, i0: nat, i1: nat, i2: nat)
    requires |v| == 4 && i0 < 4 && i1 < 4 && i2 < 4 && Unique(v)
    ensures forall y :: y in Loop2([], v, i0, i1, i2 + 1) ==> |y| == 4 && y[2] != v[i2]
  {
    forall y | y in Loop2([], v, i0, i1, i2 + 1)
      ensures |y| == 4 && y[2] != v[i2]
    {
      var d, e := Loop2Sources(v, i0, i1, i2 + 1, y);
    }
  }

  lemma Loop1Head(v: seq<int>, i0: nat, i1: nat)
    requires |v| == 4 && i0 < 4 && i1 < 4
    ensures forall x :: x in Loop2([], v, i0, i1, 0) ==> |x| == 4 && x[1] == v[i1]
  {
    forall x | x in Loop2([], v, i0, i1, 0)
      ensures |x| == 4 && x[1] == v[i1]
    {
      var d, e := Loop2Sources(v, i0, i1, 0, x);
    }
  }

  lemma Loop1Tail(v: seq<int>, i0: nat, i1: nat)
    requires |v| == 4 && i0 < 4 && i1 < 4 && Unique(v)
    ensures forall y :: y in Loop1([], v, i0, i1 + 1) ==> |y| == 4 && y[1] != v[i1]
  {
    forall y | y in Loop1([], v, i0, i1 + 1)
      ensures |y| == 4 && y[1] != v[i1]
    {
      var c, d, e := Loop1Sources(v, i0, i1 + 1, y);
    }
  }

  lemma Loop0Head(v: seq<int>, i0: nat)
    requires |v| == 4 && i0 < 4
    ensures forall x :: x in Loop1([], v, i0, 0) ==> |x| == 4 && x[0] == v[i0]
  {
    forall x | x in Loop1([], v, i0, 0)
      ensures |x| == 4 && x[0] == v[i0]
    {
      var c, d, e := Loop1Sources(v, i0, 0, x);
    }
  }

  lemma Loop0Tail(v: seq<int>, i0: nat)
    requires |v| == 4 && i0 < 4 && Unique(v)
    ensures forall y :: y in Loop0([], v, i0 + 1) ==> |y| == 4 && y[0] != v[i0]
  {
    forall y | y in Loop0([], v, i0 + 1)
      ensures |y| == 4 && y[0] != v[i0]
    {
      var b, c, d, e := Loop0Sources(v, i0 + 1, y);
    }
  }

  lemma {:induction false} Loop3Unique(v: seq<int>, i0: nat, i1: nat, i2: nat, i3: nat)
    requires |v| == 4 && i0 < 4 && i1 < 4 && i2 < 4 && i3 <= 4 && Unique(v)
    ensures Unique(Loop3([], v, i0, i1, i2, i3))
    decreases 4 - i3
  {
    if i3 < 4 {
      Loop3Unique(v, i0, i1, i2, i3 + 1);
      if !(i3 == i0 || i3 == i1 || i3 == i2) {
        var p := [Pick(v, i0, i1, i2, i3)];
        Loop3Acc(p, v, i0, i1, i2, i3 + 1);
        assert [] + p == p;
        Loop3Tail(v, i0, i1, i2, i3);
        UniqueBlocks(p, Loop3([], v, i0, i1, i2, i3 + 1), 3, v[i3]);
      }
    }
  }

  lemma {:induction false} Loop2Unique(v: seq<int>, i0: nat, i1: nat, i2: nat)
    requires |v| == 4 && i0 < 4 && i1 < 4 && i2 <= 4 && Unique(v)
    ensures Unique(Loop2([], v, i0, i1, i2))
    decreases 4 - i2
  {
    if i2 < 4 {
      Loop2Unique(v, i0, i1, i2 + 1);
      if !(i2 == i0 || i2 == i1) {
        var p := Loop3([], v, i0, i1, i2, 0);
        Loop2Acc(p, v, i0, i1, i2 + 1);
        Loop3Unique(v, i0, i1, i2, 0);
        Loop2Head(v, i0, i1, i2);
        Loop2Tail(v, i0, i1, i2);
        UniqueBlocks(p, Loop2([], v, i0, i1, i2 + 1), 2, v[i2]);
      }
    }
  }

  lemma {:induction false} Loop1Unique(v: seq<int>, i0: nat, i1: nat)
    requires |v| == 4 && i0 < 4 && i1 <= 4 && Unique(v)
    ensures Unique(Loop1([], v, i0, i1))
    decreases 4 - i1
  {
    if i1 < 4 {
      Loop1Unique(v, i0, i1 + 1);
      if i1 != i0 {
        var p := Loop2([], v, i0, i1, 0);
        Loop1Split(v, i0, i1);
        Loop2Unique(v, i0, i1, 0);
        Loop1Head(v, i0, i1);
        Loop1Tail(v, i0, i1);
        UniqueBlocks(p, Loop1([], v, i0, i1 + 1), 1, v[i1]);
      }
    }
  }

  lemma {:induction false} Loop0Unique(v: seq<int>, i0: nat)
    requires |v| == 4 && i0 <= 4 && Unique(v)
    ensures Unique(Loop0([], v, i0))
    decreases 4 - i0
  {
    if i0 < 4 {
      Loop0Unique(v, i0 + 1);
      Loop0Split(v, i0);
      Loop1Unique(v, i0, 0);
      Loop0Head(v, i0);
      Loop0Tail(v, i0);
      UniqueBlocks(Loop1([], v, i0, 0), Loop0([], v, i0 + 1), 0, v[i0]);
    }
  }

  // ---- the filter ----

  /** The filter drops no value: exactly the elements of `s` survive. */
  lemma {:induction false} FirstOccurrencesMembers(s: seq<seq<int>>, x: seq<int>)
    ensures x in FirstOccurrences(s) <==> x in s
    decreases |s|
  {
    if s != [] {
      var init := s[..|s| - 1];
      FirstOccurrencesMembers(init, x);
      assert s == init + [s[|s| - 1]];
    }
  }

  /** The filter keeps each element once. */
  lemma {:induction false} FirstOccurrencesUnique(s: seq<seq<int>>)
    ensures Unique(FirstOccurrences(s))
    decreases |s|
  {
    if s != [] {
      var init := s[..|s| - 1];
      FirstOccurrencesUnique(init);
      if s[|s| - 1] !in init {
        FirstOccurrencesMembers(init, s[|s| - 1]);
        UniqueAppend(FirstOccurrences(init), [s[|s| - 1]]);
      }
    }
  }

  lemma {:induction false} FirstOccurrencesShorter(s: seq<seq<int>>)
    ensures |FirstOccurrences(s)| <= |s|
    decreases |s|
  {
    if s != [] {
      FirstOccurrencesShorter(s[..|s| - 1]);
    }
  }

  /** On a sequence without repetitions the filter changes nothing. */
  lemma {:induction false} FirstOccurrencesOfUnique(s: seq<seq<int>>)
    requires Unique(s)
    ensures FirstOccurrences(s) == s
    decreases |s|
  {
    if s != [] {
      var init := s[..|s| - 1];
      UniqueInit(s);
      FirstOccurrencesOfUnique(init);
      LastAppended(s);
    }
  }

  /** Dropping the last element keeps a sequence free of repetitions, and the last element occurs only there. */
  lemma UniqueInit<T>(s: seq<T>)
    requires Unique(s) && s != []
    ensures Unique(s[..|s| - 1]) && s[|s| - 1] !in s[..|s| - 1]
  {
    var init := s[..|s| - 1];
    forall i, j | 0 <= i < j < |init|
      ensures init[i] != init[j]
    {
      assert init[i] == s[i] && init[j] == s[j];
    }
    forall i | 0 <= i < |init|
      ensures init[i] != s[|s| - 1]
    {
      assert init[i] == s[i];
    }
  }

  lemma LastAppended<T>(s: seq<T>)
    requires s != []
    ensures s == s[..|s| - 1] + [s[|s| - 1]]
  {
  }

  // ---- arrangements are the permutations ----

  /** Every position in `p` is below `n`. */
  predicate Within(p: seq<nat>, n: nat)
  {
    forall i :: 0 <= i < |p| ==> p[i] < n
  }

  /** The values of `v` read at the positions `p`, in that order. */
  function Read(v: seq<int>, p: seq<nat>): seq<int>
    requires Within(p, |v|)
  {
    seq(|p|, i requires 0 <= i < |p| => v[p[i]])
  }

  lemma ReadAppend(v: seq<int>, p: seq<nat>, q: seq<nat>)
    requires Within(p, |v|) && Within(q, |v|)
    ensures Within(p + q, |v|)
    ensures Read(v, p + q) == Read(v, p) + Read(v, q)
  {
    assert Within(p + q, |v|) by {
      forall i | 0 <= i < |p + q|
        ensures (p + q)[i] < |v|
      {
        if i >= |p| {
          assert (p + q)[i] == q[i - |p|];
        }
      }
    }
  }

  lemma WithinPermutes(p: seq<nat>, q: seq<nat>, n: nat)
    requires Within(p, n) && multiset(p) == multiset(q)
    ensures Within(q, n)
  {
    forall i | 0 <= i < |q|
      ensures q[i] < n
    {
      assert q[i] in multiset(p);
    }
  }

  lemma Find<T>(q: seq<T>, x: T) returns (k: nat)
    requires x in multiset(q)
    ensures k < |q| && q[k] == x
  {
    assert x in q;
    k :| 0 <= k < |q| && q[k] == x;
  }

  lemma RemoveAt<T>(q: seq<T>, k: nat)
    requires k < |q|
    ensures multiset(q[..k] + q[k + 1..]) == multiset(q) - multiset{q[k]}
  {
    assert q == q[..k] + [q[k]] + q[k + 1..];
  }

  /** Dropping position k of `q` drops one occurrence of `q[k]` from the positions and one of `v[q[k]]` from the values. */
  lemma ReadRemove(v: seq<int>, q: seq<nat>, k: nat)
    requires Within(q, |v|) && k < |q|
    ensures Within(q[..k] + q[k + 1..], |v|)
    ensures multiset(q[..k] + q[k + 1..]) == multiset(q) - multiset{q[k]}
    ensures multiset(Read(v, q)) == multiset(Read(v, q[..k] + q[k + 1..])) + multiset{v[q[k]]}
  {
    var front, back := q[..k], q[k + 1..];
    RemoveAt(q, k);
    assert q == front + ([q[k]] + back);
    assert Within(front, |v|) && Within(back, |v|) && Within([q[k]], |v|);
    ReadAppend(v, front, [q[k]] + back);
    ReadAppend(v, [q[k]], back);
    ReadAppend(v, front, back);
    assert Read(v, [q[k]]) == [v[q[k]]];
  }

  lemma ReadRest(v: seq<int>, p: seq<nat>)
    requires Within(p, |v|) && p != []
    ensures Within(p[1..], |v|)
    ensures multiset(p[1..]) == multiset(p) - multiset{p[0]}
    ensures multiset(Read(v, p)) == multiset(Read(v, p[1..])) + multiset{v[p[0]]}
  {
    DropHead(p);
    var rest := p[1..];
    assert p == [p[0]] + rest;
    assert Within([p[0]], |v|) && Within(rest, |v|);
    ReadAppend(v, [p[0]], rest);
    assert Read(v, [p[0]]) == [v[p[0]]];
  }

  /** Reading the same positions in another order reads the same values in another order. */
  lemma {:induction false} ReadPermutes(v: seq<int>, p: seq<nat>, q: seq<nat>)
    requires Within(p, |v|)
    requires multiset(p) == multiset(q)
    ensures Within(q, |v|)
    ensures multiset(Read(v, p)) == multiset(Read(v, q))
    decreases |p|
  {
    WithinPermutes(p, q, |v|);
    if p != [] {
      var k := Find(q, p[0]);
      ReadRest(v, p);
      ReadRemove(v, q, k);
      ReadPermutes(v, p[1..], q[..k] + q[k + 1..]);
    } else {
      assert |q| == |multiset(q)|;
    }
  }

  lemma ReadFour(v: seq<int>, a: nat, b: nat, c: nat, d: nat)
    requires a < |v| && b < |v| && c < |v| && d < |v|
    ensures Within([a, b, c, d], |v|) && Read(v, [a, b, c, d]) == Pick(v, a, b, c, d)
  {
  }

  lemma ReadAll(v: seq<int>)
    requires |v| == 4
    ensures Within([0, 1, 2, 3], |v|) && Read(v, [0, 1, 2, 3]) == v
  {
    ReadFour(v, 0, 1, 2, 3);
  }

  /** Four different positions among 0..3 are 0..3 in some order. */
  lemma PositionsPermute(a: nat, b: nat, c: nat, d: nat)
    requires Distinct4(a, b, c, d)
    ensures multiset([a, b, c, d]) == multiset([0, 1, 2, 3])
  {
    assert multiset([a, b, c, d]) == multiset{a, b, c, d};
    assert multiset([0, 1, 2, 3]) == multiset{0, 1, 2, 3};
    FourPositions(a, b, c, d);
  }

  lemma FourPositions(a: nat, b: nat, c: nat, d: nat)
    requires Distinct4(a, b, c, d)
    ensures multiset{a, b, c, d} == multiset{0, 1, 2, 3}
  {
  }

  /** Values read at four different positions are the values in some order. */
  lemma PickPermutes(v: seq<int>, a: nat, b: nat, c: nat, d: nat)
    requires |v| == 4 && Distinct4(a, b, c, d)
    ensures multiset(Pick(v, a, b, c, d)) == multiset(v)
  {
    ReadFour(v, a, b, c, d);
    ReadAll(v);
    PositionsPermute(a, b, c, d);
    ReadPermutes(v, [a, b, c, d], [0, 1, 2, 3]);
  }

  /** The positions of `q` read in `v` after position `a` is put back: those from `a` on move up by one. */
  function Lift(q: seq<nat>, a: nat): seq<nat>
  {
    seq(|q|, i requires 0 <= i < |q| => if q[i] < a then q[i] else q[i] + 1)
  }

  lemma Lifted(v: seq<int>, a: nat, q: seq<nat>)
    requires a < |v| && Within(q, |v| - 1) && Unique(q)
    ensures Within(Lift(q, a), |v|) && Unique(Lift(q, a)) && a !in Lift(q, a)
    ensures Within(q, |v[..a] + v[a + 1..]|) && Read(v, Lift(q, a)) == Read(v[..a] + v[a + 1..], q)
  {
    var w := v[..a] + v[a + 1..];
    forall j | 0 <= j < |w|
      ensures w[j] == if j < a then v[j] else v[j + 1]
    {
    }
  }

  lemma RemoveMatch(x: seq<int>, v: seq<int>, a: nat)
    requires multiset(x) == multiset(v) && x != [] && a < |v| && v[a] == x[0]
    ensures multiset(x[1..]) == multiset(v[..a] + v[a + 1..])
  {
    RemoveAt(v, a);
    DropHead(x);
  }

  lemma DropHead<T>(x: seq<T>)
    requires x != []
    ensures multiset(x[1..]) == multiset(x) - multiset{x[0]}
  {
    assert x == [x[0]] + x[1..];
  }

  /** Position `a` in front of the lifted positions of the rest reads `x`. */
  lemma Extend(x: seq<int>, v: seq<int>, a: nat, q: seq<nat>)
    requires x != [] && a < |v| && v[a] == x[0]
    requires |q| == |x| - 1 && Within(q, |v| - 1) && Unique(q)
    requires Within(q, |v[..a] + v[a + 1..]|) && Read(v[..a] + v[a + 1..], q) == x[1..]
    ensures |[a] + Lift(q, a)| == |x| && Within([a] + Lift(q, a), |v|) && Unique([a] + Lift(q, a))
    ensures Read(v, [a] + Lift(q, a)) == x
  {
    Lifted(v, a, q);
    var lifted := Lift(q, a);
    assert Within([a], |v|);
    ReadAppend(v, [a], lifted);
    UniqueAppend([a], lifted);
    assert x == [x[0]] + x[1..];
  }

  /** Values with the same multiset as `v` are `v` read at some duplicate-free positions. */
  lemma {:induction false} Positions(x: seq<int>, v: seq<int>) returns (p: seq<nat>)
    requires multiset(x) == multiset(v)
    ensures |p| == |x| && Within(p, |v|) && Unique(p) && Read(v, p) == x
    decreases |x|
  {
    if x == [] {
      p := [];
    } else {
      var a := Find(v, x[0]);
      RemoveMatch(x, v, a);
      var q := Positions(x[1..], v[..a] + v[a + 1..]);
      Extend(x, v, a, q);
      p := [a] + Lift(q, a);
    }
  }

  /** Every order of the values is among the orders the loops produce. */
  lemma OrdersComplete(v: seq<int>, x: seq<int>)
    requires |v| == 4 && multiset(x) == multiset(v)
    ensures x in Orders(v)
  {
    var p := Positions(x, v);
    assert |x| == |multiset(x)|;
    assert p[0] != p[1] && p[0] != p[2] && p[0] != p[3] && p[1] != p[2] && p[1] != p[3] && p[2] != p[3];
    ReadFour(v, p[0], p[1], p[2], p[3]);
    assert p == [p[0], p[1], p[2], p[3]];
    Loop0Picks(v, 0, p[0], p[1], p[2], p[3]);
  }

  // ---- what getAllArrangements returns ----

  /** The arrangements are exactly the reorderings of the values. */
  lemma ArrangementsMembers(v: seq<int>, x: seq<int>)
    requires |v| == 4
    ensures x in ArrangementsOf(v) <==> multiset(x) == multiset(v)
  {
    FirstOccurrencesMembers(Orders(v), x);
    if x in Orders(v) {
      var a, b, c, d := Loop0Sources(v, 0, x);
      PickPermutes(v, a, b, c, d);
    }
    if multiset(x) == multiset(v) {
      OrdersComplete(v, x);
    }
  }

  /** No arrangement is returned twice, and there are at most 24; exactly 24 when the four values are different. */
  lemma ArrangementsCount(v: seq<int>)
    requires |v| == 4
    ensures Unique(ArrangementsOf(v))
    ensures |ArrangementsOf(v)| <= 24
    ensures Unique(v) ==> |ArrangementsOf(v)| == 24
  {
    FirstOccurrencesUnique(Orders(v));
    FirstOccurrencesShorter(Orders(v));
    OrdersLength(v);
    if Unique(v) {
      Loop0Unique(v, 0);
      FirstOccurrencesOfUnique(Orders(v));
    }
  }

  /** Every arrangement has four values. */
  lemma ArrangementsLength(v: seq<int>)
    requires |v| == 4
    ensures forall i :: 0 <= i < |ArrangementsOf(v)| ==> |ArrangementsOf(v)[i]| == 4
  {
    forall i | 0 <= i < |ArrangementsOf(v)|
      ensures |ArrangementsOf(v)[i]| == 4
    {
      var x := ArrangementsOf(v)[i];
      ArrangementsMembers(v, x);
      assert |x| == |multiset(x)|;
    }
  }
}
