/**
 * `compute` of solve.js: every value an expression tree over four numbers
 * can take, with the fully parenthesised text that produces it.
 *
 * A tree ("config") is a leaf holding an index into the values, or a node
 * `[left, operations, right]` whose operations string lists the operators
 * tried at that node. Arithmetic is exact (`real`).
 */
module Expressions {

  import opened Wrappers
  import opened Decimal

  datatype Shape = Leaf(index: nat) | Node(left: Shape, ops: string, right: Shape)

  /** A `[value, text]` pair produced by `compute`. */
  datatype Result = Result(value: real, text: string)

  /** `CONFIGS`: the five binary trees with four leaves, leaves in order 0..3. */
  const Configs: seq<Shape> := [
    Node(Leaf(0), "+*-/", Node(Leaf(1), "+*-/", Node(Leaf(2), "+*-/", Leaf(3)))),
    Node(Leaf(0), "+*-/", Node(Node(Leaf(1), "+*-/", Leaf(2)), "+*-/", Leaf(3))),
    Node(Node(Node(Leaf(0), "+*-/", Leaf(1)), "+*-/", Leaf(2)), "+*-/", Leaf(3)),
    Node(Node(Leaf(0), "+*-/", Node(Leaf(1), "+*-/", Leaf(2))), "+*-/", Leaf(3)),
    Node(Node(Leaf(0), "+*-/", Leaf(1)), "+*-/", Node(Leaf(2), "+*-/", Leaf(3)))
  ]

  /** Every leaf of the tree indexes into `n` values. */
  predicate Fits(s: Shape, n: nat)
  {
    match s
    case Leaf(i) => i < n
    case Node(l, _, r) => Fits(l, n) && Fits(r, n)
  }

  /** The `switch (ope)`: the four operators, division only by a non-zero value; any other character adds nothing. */
  function Apply(op: char, x: real, y: real): Option<real>
  {
    if op == '+' then Some(x + y)
    else if op == '-' then Some(x - y)
    else if op == '*' then Some(x * y)
    else if op == '/' && y != 0.0 then Some(x / y)
    else None
  }

  /** `(${leftText}<op>${rightText})` */
  function Joined(l: Result, op: char, r: Result): string
  {
    "(" + l.text + [op] + r.text + ")"
  }

  /** What one operator contributes for one pair of operand results. */
  function Step(l: Result, r: Result, op: char): seq<Result>
  {
    match Apply(op, l.value, r.value)
    case None => []
    case Some(z) => [Result(z, Joined(l, op, r))]
  }

  /** The innermost loop from operator `k` on: the results of the remaining operators appended to `acc`. */
  function OpFold(acc: seq<Result>, l: Result, r: Result, ops: string, k: nat): seq<Result>
    requires k <= |ops|
    decreases |ops| - k
  {
    if k == |ops| then acc else OpFold(acc + Step(l, r, ops[k]), l, r, ops, k + 1)
  }

  /** The middle loop from right operand result `j` on. */
  function RightFold(acc: seq<Result>, l: Result, rs: seq<Result>, ops: string, j: nat): seq<Result>
    requires j <= |rs|
    decreases |rs| - j
  {
    if j == |rs| then acc else RightFold(OpFold(acc, l, rs[j], ops, 0), l, rs, ops, j + 1)
  }

  /** The outer loop from left operand result `i` on. */
  function CombineFold(acc: seq<Result>, ls: seq<Result>, rs: seq<Result>, ops: string, i: nat): seq<Result>
    requires i <= |ls|
    decreases |ls| - i
  {
    if i == |ls| then acc else CombineFold(RightFold(acc, ls[i], rs, ops, 0), ls, rs, ops, i + 1)
  }

  /** The three loops of a node over the operand results `ls` and `rs`. */
  function Combine(ls: seq<Result>, rs: seq<Result>, ops: string): seq<Result>
  {
    CombineFold([], ls, rs, ops, 0)
  }

  /** The results of `compute(values, config)`. */
  function Eval(values: seq<int>, s: Shape): seq<Result>
    requires Fits(s, |values|)
  {
    match s
    case Leaf(i) => [Result(values[i] as real, IntText(values[i]))]
    case Node(l, ops, r) => Combine(Eval(values, l), Eval(values, r), ops)
  }

  /** The result one operator pushes, for operand values `x` and `y`. */
  lemma StepPlus(l: Result, r: Result, x: real, y: real)
    requires x == l.value && y == r.value
    ensures Step(l, r, '+') == [Result(x + y, Joined(l, '+', r))]
  {
  }

  lemma StepMinus(l: Result, r: Result, x: real, y: real)
    requires x == l.value && y == r.value
    ensures Step(l, r, '-') == [Result(x - y, Joined(l, '-', r))]
  {
  }

  lemma ApplyTimes(x: real, y: real)
    ensures Apply('*', x, y) == Some(x * y)
  {
  }

  lemma StepTimes(l: Result, r: Result, x: real, y: real)
    requires x == l.value && y == r.value
    ensures Step(l, r, '*') == [Result(x * y, Joined(l, '*', r))]
  {
    ApplyTimes(x, y);
  }

  lemma ApplyDivide(x: real, y: real)
    requires y != 0.0
    ensures Apply('/', x, y) == Some(x / y)
  {
  }

  lemma StepDivide(l: Result, r: Result, x: real, y: real)
    requires x == l.value && y == r.value
    ensures Step(l, r, '/') == if y != 0.0 then [Result(x / y, Joined(l, '/', r))] else []
  {
    if y != 0.0 {
      ApplyDivide(x, y);
    }
  }

  /** `compute(values, config)`: recursion on the subtrees, three nested loops pushing results. */
  method Compute(values: seq<int>, config: Shape) returns (results: seq<Result>)
    requires Fits(config, |values|)
    ensures results == Eval(values, config)
    decreases config
  {
    if config.Leaf? {
      var value := values[config.index];
      return [Result(value as real, IntText(value))];
    }
    var leftConfig, operations, rightConfig := config.left, config.ops, config.right;
    var leftResults := Compute(values, leftConfig);
    var rightResults := Compute(values, rightConfig);
    ghost var goal := Eval(values, config);
    assert goal == CombineFold([], leftResults, rightResults, operations, 0);
    results := [];
    for i := 0 to |leftResults|
      invariant CombineFold(results, leftResults, rightResults, operations, i) == goal
    {
      var leftResult := leftResults[i];
      for j := 0 to |rightResults|
        invariant CombineFold(RightFold(results, leftResult, rightResults, operations, j),
                              leftResults, rightResults, operations, i + 1) == goal
      {
        var rightResult := rightResults[j];
        for k := 0 to |operations|
          invariant CombineFold(RightFold(OpFold(results, leftResult, rightResult, operations, k),
                                          leftResult, rightResults, operations, j + 1),
                                leftResults, rightResults, operations, i + 1) == goal
        {
          var ope := operations[k];
          var leftValue, leftText := leftResult.value, leftResult.text;
          var rightValue, rightText := rightResult.value, rightResult.text;
          ghost var before := results;
          if ope == '+' {
            results := results + [Result(leftValue + rightValue, "(" + leftText + "+" + rightText + ")")];
            StepPlus(leftResult, rightResult, leftValue, rightValue);
          } else if ope == '-' {
            results := results + [Result(leftValue - rightValue, "(" + leftText + "-" + rightText + ")")];
            StepMinus(leftResult, rightResult, leftValue, rightValue);
          } else if ope == '*' {
            results := results + [Result(leftValue * rightValue, "(" + leftText + "*" + rightText + ")")];
            StepTimes(leftResult, rightResult, leftValue, rightValue);
          } else if ope == '/' {
            if rightValue != 0.0 {
              results := results + [Result(leftValue / rightValue, "(" + leftText + "/" + rightText + ")")];
            }
            StepDivide(leftResult, rightResult, leftValue, rightValue);
          } else {
            assert Step(leftResult, rightResult, ope) == [];
          }
          assert results == before + Step(leftResult, rightResult, ope);
        }
      }
    }
  }

  // ---------------------------------------------------------------------------
  // What a node produces

  /** `x` is what operator `op` makes of operand results `a` and `b`. */
  predicate Yields(a: Result, op: char, b: Result, x: Result)
  {
    Apply(op, a.value, b.value) == Some(x.value) && x.text == Joined(a, op, b)
  }

  lemma StepMembers(l: Result, r: Result, op: char)
    ensures forall x :: x in Step(l, r, op) <==> Yields(l, op, r, x)
  {
  }

  /** Each fold appends to its accumulator and leaves the accumulator itself alone. */
  lemma {:induction false} OpFoldAcc(acc: seq<Result>, l: Result, r: Result, ops: string, k: nat)
    requires k <= |ops|
    ensures OpFold(acc, l, r, ops, k) == acc + OpFold([], l, r, ops, k)
    decreases |ops| - k
  {
    if k < |ops| {
      var st := Step(l, r, ops[k]);
      OpFoldAcc(acc + st, l, r, ops, k + 1);
      OpFoldAcc(st, l, r, ops, k + 1);
      assert [] + st == st;
      assert (acc + st) + OpFold([], l, r, ops, k + 1) == acc + (st + OpFold([], l, r, ops, k + 1));
    } else {
      assert acc + [] == acc;
    }
  }

  lemma {:induction false} RightFoldAcc(acc: seq<Result>, l: Result, rs: seq<Result>, ops: string, j: nat)
    requires j <= |rs|
    ensures RightFold(acc, l, rs, ops, j) == acc + RightFold([], l, rs, ops, j)
    decreases |rs| - j
  {
    if j < |rs| {
      var os := OpFold([], l, rs[j], ops, 0);
      OpFoldAcc(acc, l, rs[j], ops, 0);
      RightFoldAcc(acc + os, l, rs, ops, j + 1);
      RightFoldAcc(os, l, rs, ops, j + 1);
      assert (acc + os) + RightFold([], l, rs, ops, j + 1) == acc + (os + RightFold([], l, rs, ops, j + 1));
    } else {
      assert acc + [] == acc;
    }
  }

  lemma {:induction false} CombineFoldAcc(acc: seq<Result>, ls: seq<Result>, rs: seq<Result>, ops: string, i: nat)
    requires i <= |ls|
    ensures CombineFold(acc, ls, rs, ops, i) == acc + CombineFold([], ls, rs, ops, i)
    decreases |ls| - i
  {
    if i < |ls| {
      var gs := RightFold([], ls[i], rs, ops, 0);
      RightFoldAcc(acc, ls[i], rs, ops, 0);
      CombineFoldAcc(acc + gs, ls, rs, ops, i + 1);
      CombineFoldAcc(gs, ls, rs, ops, i + 1);
      assert (acc + gs) + CombineFold([], ls, rs, ops, i + 1) == acc + (gs + CombineFold([], ls, rs, ops, i + 1));
    } else {
      assert acc + [] == acc;
    }
  }

  lemma {:induction false} OpFoldMembers(l: Result, r: Result, ops: string, k: nat)
    requires k <= |ops|
    ensures forall x :: x in OpFold([], l, r, ops, k) <==> exists m :: k <= m < |ops| && Yields(l, ops[m], r, x)
    decreases |ops| - k
  {
    if k < |ops| {
      var st := Step(l, r, ops[k]);
      assert [] + st == st;
      OpFoldAcc(st, l, r, ops, k + 1);
      OpFoldMembers(l, r, ops, k + 1);
      StepMembers(l, r, ops[k]);
      forall x
        ensures x in OpFold([], l, r, ops, k) <==> exists m :: k <= m < |ops| && Yields(l, ops[m], r, x)
      {
        if Yields(l, ops[k], r, x) {
          assert x in st;
        }
      }
    }
  }

  lemma {:induction false} RightFoldMembers(l: Result, rs: seq<Result>, ops: string, j: nat)
    requires j <= |rs|
    ensures forall x :: x in RightFold([], l, rs, ops, j) <==>
      exists n, m :: j <= n < |rs| && 0 <= m < |ops| && Yields(l, ops[m], rs[n], x)
    decreases |rs| - j
  {
    if j < |rs| {
      OpFoldAcc([], l, rs[j], ops, 0);
      RightFoldAcc(OpFold([], l, rs[j], ops, 0), l, rs, ops, j + 1);
      RightFoldMembers(l, rs, ops, j + 1);
      OpFoldMembers(l, rs[j], ops, 0);
    }
  }

  lemma {:induction false} CombineFoldMembers(ls: seq<Result>, rs: seq<Result>, ops: string, i: nat)
    requires i <= |ls|
    ensures forall x :: x in CombineFold([], ls, rs, ops, i) <==>
      exists p, n, m :: i <= p < |ls| && 0 <= n < |rs| && 0 <= m < |ops| && Yields(ls[p], ops[m], rs[n], x)
    decreases |ls| - i
  {
    if i < |ls| {
      RightFoldAcc([], ls[i], rs, ops, 0);
      CombineFoldAcc(RightFold([], ls[i], rs, ops, 0), ls, rs, ops, i + 1);
      CombineFoldMembers(ls, rs, ops, i + 1);
      RightFoldMembers(ls[i], rs, ops, 0);
    }
  }

  /** A node's results are exactly what some operator makes of some left and some right result. */
  lemma CombineMembers(ls: seq<Result>, rs: seq<Result>, ops: string, x: Result)
    ensures x in Combine(ls, rs, ops) <==>
      exists p, n, m :: 0 <= p < |ls| && 0 <= n < |rs| && 0 <= m < |ops| && Yields(ls[p], ops[m], rs[n], x)
  {
    CombineFoldMembers(ls, rs, ops, 0);
  }

  /** Every result of `rs` has its value in `s`. */
  ghost predicate ValuesIn(rs: seq<Result>, s: iset<real>)
  {
    forall x :: x in rs ==> x.value in s
  }

  /** Every operator of `ops` taking a value of `l` and a value of `r` gives a value in `s`. */
  ghost predicate Closed(l: iset<real>, ops: string, r: iset<real>, s: iset<real>)
  {
    forall a, m, b :: a in l && b in r && 0 <= m < |ops| && Apply(ops[m], a, b).Some? ==> Apply(ops[m], a, b).value in s
  }

  /** The values a node can produce are bounded by what its operators make of its operands' values. */
  lemma CombineValues(ls: seq<Result>, rs: seq<Result>, ops: string, l: iset<real>, r: iset<real>, s: iset<real>)
    requires ValuesIn(ls, l) && ValuesIn(rs, r) && Closed(l, ops, r, s)
    ensures ValuesIn(Combine(ls, rs, ops), s)
  {
    forall x | x in Combine(ls, rs, ops)
      ensures x.value in s
    {
      CombineMembers(ls, rs, ops, x);
      var p, n, m :| 0 <= p < |ls| && 0 <= n < |rs| && 0 <= m < |ops| && Yields(ls[p], ops[m], rs[n], x);
      assert ls[p] in ls && rs[n] in rs;
      assert Apply(ops[m], ls[p].value, rs[n].value) == Some(x.value);
    }
  }

  // ---------------------------------------------------------------------------
  // How many results

  /** Every operator of the string is one the `switch` handles. */
  predicate ValidOps(ops: string)
  {
    forall m :: 0 <= m < |ops| ==> ops[m] == '+' || ops[m] == '-' || ops[m] == '*' || ops[m] == '/'
  }

  function Occurrences(c: char, s: string): nat
  {
    if s == [] then 0 else (if s[0] == c then 1 else 0) + Occurrences(c, s[1..])
  }

  /** How many of the results have value 0. */
  function ZeroValued(rs: seq<Result>): nat
  {
    if rs == [] then 0 else (if rs[0].value == 0.0 then 1 else 0) + ZeroValued(rs[1..])
  }

  /** One more step of a count: (n + 1) * c - (e + z) * d == (c - e * d) + (n * c - z * d). */
  lemma Distribute(n: int, c: int, e: int, z: int, d: int)
    requires e == 0 || e == 1
    ensures (n + 1) * c - (e + z) * d == (c - e * d) + (n * c - z * d)
  {
    assert (n + 1) * c == c + n * c;
    assert (e + z) * d == e * d + z * d;
  }

  lemma Shrink(a: nat, b: nat, c: nat, y: nat)
    ensures a * (b * c - y) <= a * b * c
  {
    assert a * (b * c - y) == a * (b * c) - a * y;
    assert a * y >= 0;
  }

  lemma StepCount(l: Result, r: Result, op: char)
    requires op == '+' || op == '-' || op == '*' || op == '/'
    ensures |Step(l, r, op)| == if op == '/' && r.value == 0.0 then 0 else 1
  {
    if op == '*' {
      StepTimes(l, r, l.value, r.value);
    } else if op == '/' {
      StepDivide(l, r, l.value, r.value);
    }
  }

  /** One result per operator, except a division by a zero right operand. */
  lemma {:induction false} OpFoldCount(l: Result, r: Result, ops: string, k: nat)
    requires k <= |ops| && ValidOps(ops)
    ensures |OpFold([], l, r, ops, k)| == |ops| - k - (if r.value == 0.0 then Occurrences('/', ops[k..]) else 0)
    decreases |ops| - k
  {
    if k < |ops| {
      var st := Step(l, r, ops[k]);
      assert [] + st == st;
      OpFoldAcc(st, l, r, ops, k + 1);
      OpFoldCount(l, r, ops, k + 1);
      StepCount(l, r, ops[k]);
      assert ops[k..][1..] == ops[k + 1..];
    }
  }

  lemma {:induction false} RightFoldCount(l: Result, rs: seq<Result>, ops: string, j: nat)
    requires j <= |rs| && ValidOps(ops)
    ensures |RightFold([], l, rs, ops, j)| == (|rs| - j) * |ops| - ZeroValued(rs[j..]) * Occurrences('/', ops)
    decreases |rs| - j
  {
    if j < |rs| {
      var os := OpFold([], l, rs[j], ops, 0);
      OpFoldAcc([], l, rs[j], ops, 0);
      RightFoldAcc(os, l, rs, ops, j + 1);
      RightFoldCount(l, rs, ops, j + 1);
      OpFoldCount(l, rs[j], ops, 0);
      assert ops[0..] == ops;
      assert rs[j..][1..] == rs[j + 1..];
      var e := if rs[j].value == 0.0 then 1 else 0;
      assert ZeroValued(rs[j..]) == e + ZeroValued(rs[j + 1..]);
      Distribute(|rs| - (j + 1), |ops|, e, ZeroValued(rs[j + 1..]), Occurrences('/', ops));
    } else {
      assert rs[j..] == [];
    }
  }

  lemma {:induction false} CombineFoldCount(ls: seq<Result>, rs: seq<Result>, ops: string, i: nat)
    requires i <= |ls| && ValidOps(ops)
    ensures |CombineFold([], ls, rs, ops, i)| == (|ls| - i) * (|rs| * |ops| - ZeroValued(rs) * Occurrences('/', ops))
    decreases |ls| - i
  {
    if i < |ls| {
      var gs := RightFold([], ls[i], rs, ops, 0);
      RightFoldAcc([], ls[i], rs, ops, 0);
      CombineFoldAcc(gs, ls, rs, ops, i + 1);
      CombineFoldCount(ls, rs, ops, i + 1);
      RightFoldCount(ls[i], rs, ops, 0);
      assert rs[0..] == rs;
      Distribute(|ls| - (i + 1), |rs| * |ops| - ZeroValued(rs) * Occurrences('/', ops), 0, 0, 0);
    }
  }

  /** A node over `ls` and `rs` gives |ls| * |rs| * |ops| results, less |ls| for each division by a zero right result. */
  lemma CombineCount(ls: seq<Result>, rs: seq<Result>, ops: string)
    requires ValidOps(ops)
    ensures |Combine(ls, rs, ops)| == |ls| * (|rs| * |ops| - ZeroValued(rs) * Occurrences('/', ops))
  {
    CombineFoldCount(ls, rs, ops, 0);
  }

  lemma CombineBound(ls: seq<Result>, rs: seq<Result>, ops: string)
    requires ValidOps(ops)
    ensures |Combine(ls, rs, ops)| <= |ls| * |rs| * |ops|
  {
    CombineCount(ls, rs, ops);
    Shrink(|ls|, |rs|, |ops|, ZeroValued(rs) * Occurrences('/', ops));
  }

  /** Every node of the tree tries only operators the `switch` handles. */
  predicate WellFormed(s: Shape)
  {
    match s
    case Leaf(_) => true
    case Node(l, ops, r) => ValidOps(ops) && WellFormed(l) && WellFormed(r)
  }

  /** The number of operator choices: a leaf has one, a node the product of its parts and its operators. */
  function Bound(s: Shape): nat
  {
    match s
    case Leaf(_) => 1
    case Node(l, ops, r) => Bound(l) * Bound(r) * |ops|
  }

  lemma MulMono(a: nat, b: nat, c: nat, x: nat, y: nat)
    requires a <= x && b <= y
    ensures a * b * c <= x * y * c
  {
    assert a * b <= x * b <= x * y;
  }

  lemma FitsMore(s: Shape, m: nat, n: nat)
    requires Fits(s, m) && m <= n
    ensures Fits(s, n)
  {
  }

  /** A leaf gives exactly one result; a tree never more than its operator choices. */
  lemma {:induction false} EvalBound(values: seq<int>, s: Shape)
    requires Fits(s, |values|) && WellFormed(s)
    ensures s.Leaf? ==> |Eval(values, s)| == 1
    ensures |Eval(values, s)| <= Bound(s)
  {
    if s.Node? {
      var ls, rs := Eval(values, s.left), Eval(values, s.right);
      EvalBound(values, s.left);
      EvalBound(values, s.right);
      CombineBound(ls, rs, s.ops);
      MulMono(|ls|, |rs|, |s.ops|, Bound(s.left), Bound(s.right));
    }
  }

  /** The five trees use leaves 0..3 and the four operators at each of their three nodes. */
  lemma ConfigsShape(i: nat)
    requires i < |Configs|
    ensures Fits(Configs[i], 4) && WellFormed(Configs[i]) && Bound(Configs[i]) == 64
  {
    assert ValidOps("+*-/");
    if i == 0 {
      assert Fits(Configs[0], 4) && WellFormed(Configs[0]) && Bound(Configs[0]) == 64;
    } else if i == 1 {
      assert Fits(Configs[1], 4) && WellFormed(Configs[1]) && Bound(Configs[1]) == 64;
    } else if i == 2 {
      assert Fits(Configs[2], 4) && WellFormed(Configs[2]) && Bound(Configs[2]) == 64;
    } else if i == 3 {
      assert Fits(Configs[3], 4) && WellFormed(Configs[3]) && Bound(Configs[3]) == 64;
    } else {
      assert Fits(Configs[4], 4) && WellFormed(Configs[4]) && Bound(Configs[4]) == 64;
    }
  }

  /** Each of the five trees takes four values and gives at most 4 * 4 * 4 = 64 results. */
  lemma ConfigsBound(values: seq<int>, c: Shape)
    requires |values| >= 4 && c in Configs
    ensures Fits(c, |values|) && |Eval(values, c)| <= 64
  {
    var i :| 0 <= i < |Configs| && Configs[i] == c;
    ConfigsShape(i);
    FitsMore(c, 4, |values|);
    EvalBound(values, c);
  }

  // ---------------------------------------------------------------------------
  // Reading a result's text back

  /** An optional minus sign and a run of digits at the front of `s`, and what follows them. */
  function ReadNumber(s: string): (p: Option<(real, string)>)
    ensures p.Some? ==> |p.value.1| < |s|
  {
    var negative := s != [] && s[0] == '-';
    var body := if negative then s[1..] else s;
    var k := DigitRun(body);
    if k == 0 then None
    else
      var n: int := DigitsValue(body[..k]);
      Some(((if negative then -n else n) as real, body[k..]))
  }

  /** A number, or `(` operand operator operand `)`, evaluated exactly; None when the text is not of that form or divides by zero. */
  function ReadOperand(s: string): (p: Option<(real, string)>)
    ensures p.Some? ==> |p.value.1| < |s|
    decreases |s|, 0
  {
    if s != [] && s[0] == '(' then ReadGroup(s[1..]) else ReadNumber(s)
  }

  /** After an opening parenthesis: the left operand, then the rest of the group. */
  function ReadGroup(s: string): (p: Option<(real, string)>)
    ensures p.Some? ==> |p.value.1| < |s|
    decreases |s|, 1
  {
    match ReadOperand(s)
    case None => None
    case Some((x, r)) => ReadRight(x, r)
  }

  /** After the left operand `x`: an operator, the right operand and the closing parenthesis. */
  function ReadRight(x: real, s: string): (p: Option<(real, string)>)
    ensures p.Some? ==> |p.value.1| < |s|
    decreases |s|, 2
  {
    if s == [] then None
    else
      match ReadOperand(s[1..])
      case None => None
      case Some((y, r)) =>
        if r == [] || r[0] != ')' then None
        else
          match Apply(s[0], x, y)
          case None => None
          case Some(z) => Some((z, r[1..]))
  }

  /** The value a whole text denotes. */
  function ValueOfText(t: string): Option<real>
  {
    match ReadOperand(t)
    case None => None
    case Some((v, rest)) => if rest == [] then Some(v) else None
  }

  lemma ReadDigits(m: nat, rest: string)
    requires rest == [] || !IsDigit(rest[0])
    ensures var t := NatText(m) + rest; DigitRun(t) == |NatText(m)| && DigitsValue(t[..|NatText(m)|]) == m
    ensures (NatText(m) + rest)[|NatText(m)|..] == rest
  {
    var t := NatText(m);
    NatTextValue(m);
    DigitRunText(t, rest);
    assert (t + rest)[..|t|] == t;
  }

  lemma ReadNatural(m: nat, rest: string)
    requires rest == [] || !IsDigit(rest[0])
    ensures ReadNumber(NatText(m) + rest) == Some((m as real, rest))
  {
    var t := NatText(m);
    ReadDigits(m, rest);
    NatTextValue(m);
    assert (t + rest)[0] == t[0];
  }

  lemma ReadNegative(m: nat, rest: string)
    requires rest == [] || !IsDigit(rest[0])
    ensures ReadNumber("-" + (NatText(m) + rest)) == Some(((-(m as int)) as real, rest))
  {
    ReadDigits(m, rest);
    assert ("-" + (NatText(m) + rest))[1..] == NatText(m) + rest;
  }

  lemma ReadUngrouped(s: string)
    requires s == [] || s[0] != '('
    ensures ReadOperand(s) == ReadNumber(s)
  {
  }

  lemma ReadLeafNonNegative(i: int, rest: string)
    requires rest == [] || !IsDigit(rest[0])
    requires i >= 0
    ensures ReadOperand(IntText(i) + rest) == Some((i as real, rest))
  {
    var s := NatText(i) + rest;
    assert IntText(i) + rest == s;
    NatTextValue(i);
    assert s[0] == NatText(i)[0];
    ReadNatural(i, rest);
    ReadUngrouped(s);
  }

  lemma ReadLeafNegative(i: int, rest: string)
    requires rest == [] || !IsDigit(rest[0])
    requires i < 0
    ensures ReadOperand(IntText(i) + rest) == Some((i as real, rest))
  {
    var m: nat := -i;
    var s := "-" + (NatText(m) + rest);
    assert IntText(i) + rest == s;
    ReadNegative(m, rest);
    ReadUngrouped(s);
    assert (-(m as int)) as real == i as real;
  }

  /** `${value}` of an integer reads back as that integer, whatever non-digit follows. */
  lemma ReadLeaf(i: int, rest: string)
    requires rest == [] || !IsDigit(rest[0])
    ensures ReadOperand(IntText(i) + rest) == Some((i as real, rest))
  {
    if i < 0 {
      ReadLeafNegative(i, rest);
    } else {
      ReadLeafNonNegative(i, rest);
    }
  }

  lemma ApplyOperator(op: char, x: real, y: real)
    requires Apply(op, x, y).Some?
    ensures op == '+' || op == '-' || op == '*' || op == '/'
  {
  }

  lemma ReadRightStep(x: real, op: char, t: string, y: real, z: real, rest: string)
    requires ReadOperand(t + (")" + rest)) == Some((y, ")" + rest))
    requires Apply(op, x, y) == Some(z)
    ensures ReadRight(x, [op] + t + (")" + rest)) == Some((z, rest))
  {
    var r1 := [op] + t + (")" + rest);
    assert r1[0] == op && r1[1..] == t + (")" + rest);
    assert (")" + rest)[1..] == rest;
  }

  lemma ReadGroupStep(t: string, x: real, r: string, z: real, rest: string)
    requires ReadOperand(t + r) == Some((x, r))
    requires ReadRight(x, r) == Some((z, rest))
    ensures ReadGroup(t + r) == Some((z, rest))
  {
  }

  lemma JoinedParts(a: Result, op: char, b: Result, rest: string)
    ensures Joined(a, op, b) + rest == "(" + (a.text + ([op] + b.text + (")" + rest)))
  {
  }

  lemma ReadOpening(t: string)
    ensures ReadOperand("(" + t) == ReadGroup(t)
  {
    assert ("(" + t)[1..] == t;
  }

  /** A parenthesised text reads as the operator applied to what its two operands read as. */
  lemma ReadJoined(a: Result, op: char, b: Result, z: real, rest: string)
    requires ReadOperand(a.text + ([op] + b.text + (")" + rest))) == Some((a.value, [op] + b.text + (")" + rest)))
    requires ReadOperand(b.text + (")" + rest)) == Some((b.value, ")" + rest))
    requires Apply(op, a.value, b.value) == Some(z)
    ensures ReadOperand(Joined(a, op, b) + rest) == Some((z, rest))
  {
    var r1 := [op] + b.text + (")" + rest);
    JoinedParts(a, op, b, rest);
    ReadRightStep(a.value, op, b.text, b.value, z, rest);
    ReadGroupStep(a.text, a.value, r1, z, rest);
    ReadOpening(a.text + r1);
  }

  /** The text of every result, followed by anything that does not start with a digit, reads back as its value. */
  lemma {:induction false} ReadResult(values: seq<int>, s: Shape, x: Result, rest: string)
    requires Fits(s, |values|) && x in Eval(values, s)
    requires rest == [] || !IsDigit(rest[0])
    ensures ReadOperand(x.text + rest) == Some((x.value, rest))
    decreases s
  {
    match s
    case Leaf(i) =>
      ReadLeaf(values[i], rest);
    case Node(l, ops, r) =>
      var ls, rs := Eval(values, l), Eval(values, r);
      CombineMembers(ls, rs, ops, x);
      var p, n, m :| 0 <= p < |ls| && 0 <= n < |rs| && 0 <= m < |ops| && Yields(ls[p], ops[m], rs[n], x);
      var a, op, b := ls[p], ops[m], rs[n];
      ApplyOperator(op, a.value, b.value);
      var tail := ")" + rest;
      var r1 := [op] + b.text + tail;
      ReadResult(values, l, a, r1);
      ReadResult(values, r, b, tail);
      ReadJoined(a, op, b, x.value, rest);
  }

  /** Evaluating the text of any result of a tree gives back the result's value: the text says how the value was made. */
  lemma TextValue(values: seq<int>, s: Shape, x: Result)
    requires Fits(s, |values|) && x in Eval(values, s)
    ensures ValueOfText(x.text) == Some(x.value)
  {
    ReadResult(values, s, x, []);
    assert x.text + [] == x.text;
  }
}
