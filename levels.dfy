/**
 * The second half of `createLevelsModule` in solve.js: the kept puzzles are
 * sorted by decreasing number of solutions (easiest first) and cut into 100
 * levels; every level but the last holds a multiple of three puzzles, and
 * each level is stored as the packed text of its puzzles' values.
 */
module Levels {

  import opened BitPacking
  import opened Corpus

  // Sorting: `puzzles.sort(sortByValueReverse)`.

  /** No puzzle has more solutions than one before it. */
  predicate Descending(s: seq<Puzzle>)
  {
    forall i, j :: 0 <= i < j < |s| ==> s[i].count >= s[j].count
  }

  /** The puzzles of `s` with `c` solutions, in their order in `s`. */
  function Only(s: seq<Puzzle>, c: nat): seq<Puzzle>
  {
    if s == [] then []
    else (if s[0].count == c then [s[0]] else []) + Only(s[1..], c)
  }

  /** `x` placed before the first puzzle with at most as many solutions. */
  function Insert(x: Puzzle, s: seq<Puzzle>): seq<Puzzle>
  {
    if s == [] then [x]
    else if s[0].count <= x.count then [x] + s
    else [s[0]] + Insert(x, s[1..])
  }

  /**
   * `puzzles.sort(sortByValueReverse)`: the comparator orders by decreasing
   * `count`; the engine's sort is stable, so equal counts keep their order.
   */
  function SortByValueReverse(ps: seq<Puzzle>): seq<Puzzle>
  {
    if ps == [] then [] else Insert(ps[0], SortByValueReverse(ps[1..]))
  }

  lemma {:induction false} InsertPermutes(x: Puzzle, s: seq<Puzzle>)
    ensures multiset(Insert(x, s)) == multiset(s) + multiset{x}
  {
    if s != [] && s[0].count > x.count {
      InsertPermutes(x, s[1..]);
      assert s == [s[0]] + s[1..];
    }
  }

  lemma {:induction false} InsertDescending(x: Puzzle, s: seq<Puzzle>)
    requires Descending(s)
    ensures Descending(Insert(x, s))
  {
    if s != [] && s[0].count > x.count {
      InsertDescending(x, s[1..]);
      var t := Insert(x, s[1..]);
      forall k | 0 <= k < |t|
        ensures s[0].count >= t[k].count
      {
        InsertPermutes(x, s[1..]);
        assert t[k] in multiset(t);
        if t[k] != x {
          assert t[k] in s[1..];
        }
      }
    }
  }

  lemma OnlyCons(x: Puzzle, s: seq<Puzzle>, c: nat)
    ensures Only([x] + s, c) == (if x.count == c then [x] else []) + Only(s, c)
  {
    assert ([x] + s)[0] == x && ([x] + s)[1..] == s;
  }

  lemma {:induction false} InsertOnly(x: Puzzle, s: seq<Puzzle>, c: nat)
    ensures Only(Insert(x, s), c) == (if x.count == c then [x] else []) + Only(s, c)
  {
    if s != [] {
      if s[0].count <= x.count {
        OnlyCons(x, s, c);
      } else {
        var later := Insert(x, s[1..]);
        InsertOnly(x, s[1..], c);
        OnlyCons(s[0], later, c);
        assert s == [s[0]] + s[1..];
        OnlyCons(s[0], s[1..], c);
        var rest := Only(s[1..], c);
        if x.count == c {
          assert Only(Insert(x, s), c) == Only(later, c) == [x] + rest;
          assert Only(s, c) == rest;
        } else {
          assert Only(later, c) == rest;
        }
      }
    }
  }

  /** The sorted puzzles are the same puzzles, as many times each. */
  lemma {:induction false} SortPermutes(ps: seq<Puzzle>)
    ensures multiset(SortByValueReverse(ps)) == multiset(ps)
  {
    if ps != [] {
      SortPermutes(ps[1..]);
      InsertPermutes(ps[0], SortByValueReverse(ps[1..]));
      assert ps == [ps[0]] + ps[1..];
    }
  }

  /** The sorted puzzles go by decreasing number of solutions. */
  lemma {:induction false} SortDescending(ps: seq<Puzzle>)
    ensures Descending(SortByValueReverse(ps))
  {
    if ps != [] {
      SortDescending(ps[1..]);
      InsertDescending(ps[0], SortByValueReverse(ps[1..]));
    }
  }

  /** The sort is stable: puzzles with the same number of solutions keep their order. */
  lemma {:induction false} SortStable(ps: seq<Puzzle>, c: nat)
    ensures Only(SortByValueReverse(ps), c) == Only(ps, c)
  {
    if ps != [] {
      SortStable(ps[1..], c);
      InsertOnly(ps[0], SortByValueReverse(ps[1..]), c);
    }
  }

  lemma OnlyNonEmpty(s: seq<Puzzle>)
    requires s != []
    ensures Only(s, s[0].count) != [] && Only(s, s[0].count)[0] == s[0]
  {
  }

  lemma {:induction false} OnlyMembers(s: seq<Puzzle>, c: nat, x: Puzzle)
    requires x in Only(s, c)
    ensures x in s && x.count == c
  {
    if s != [] {
      if x != s[0] || s[0].count != c {
        OnlyMembers(s[1..], c, x);
      }
    }
  }

  /** In a descending sequence, a puzzle with `c` solutions means the first has at least `c`. */
  lemma FirstAtLeast(s: seq<Puzzle>, c: nat)
    requires Descending(s) && Only(s, c) != []
    ensures s != [] && s[0].count >= c
  {
    var x := Only(s, c)[0];
    OnlyMembers(s, c, x);
    var k :| 0 <= k < |s| && s[k] == x;
    assert s[0].count >= s[k].count;
  }

  lemma {:induction false} DescendingUnique(r: seq<Puzzle>, s: seq<Puzzle>)
    requires Descending(r) && Descending(s)
    requires forall c :: Only(r, c) == Only(s, c)
    ensures r == s
    decreases |r|
  {
    if r != [] && s == [] {
      OnlyNonEmpty(r);
      assert false;
    } else if r == [] && s != [] {
      OnlyNonEmpty(s);
      assert false;
    } else if r != [] {
      var c := r[0].count;
      var d := s[0].count;
      OnlyNonEmpty(r);
      OnlyNonEmpty(s);
      FirstAtLeast(s, c);
      FirstAtLeast(r, d);
      assert r[0] == s[0];
      forall e
        ensures Only(r[1..], e) == Only(s[1..], e)
      {
        OnlyCons(r[0], r[1..], e);
        OnlyCons(s[0], s[1..], e);
        assert r == [r[0]] + r[1..] && s == [s[0]] + s[1..];
        var p := if r[0].count == e then [r[0]] else [];
        assert Only(r, e) == p + Only(r[1..], e) && Only(s, e) == p + Only(s[1..], e);
        assert Only(r[1..], e) == Only(r, e)[|p|..] && Only(s[1..], e) == Only(s, e)[|p|..];
      }
      SuffixDescending(r, 1);
      SuffixDescending(s, 1);
      DescendingUnique(r[1..], s[1..]);
      assert r == [r[0]] + r[1..] && s == [s[0]] + s[1..];
    }
  }

  /**
   * The sort is determined by what it promises: any arrangement by
   * decreasing solutions that keeps equal counts in their order is this one.
   */
  lemma SortDetermined(ps: seq<Puzzle>, r: seq<Puzzle>)
    requires Descending(r) && forall c :: Only(r, c) == Only(ps, c)
    ensures r == SortByValueReverse(ps)
  {
    SortDescending(ps);
    forall c
      ensures Only(SortByValueReverse(ps), c) == Only(ps, c)
    {
      SortStable(ps, c);
    }
    DescendingUnique(r, SortByValueReverse(ps));
  }

  // Level sizes.

  /** `Math.floor(0.5 + n / k)` on exact rationals: `n / k` rounded, halves up. */
  function Rounded(n: nat, k: nat): (r: nat)
    requires k > 0
    ensures r as real <= n as real / k as real + 0.5 < r as real + 1.0
    ensures r <= n
  {
    var q := (2 * n + k) / (2 * k);
    RoundedBounds(n, k, q);
    RoundedFloor(n, k, q);
    q
  }

  lemma RoundedBounds(n: nat, k: nat, q: int)
    requires k > 0 && q == (2 * n + k) / (2 * k)
    ensures 2 * k * q <= 2 * n + k < 2 * k * (q + 1)
    ensures 0 <= q <= n
  {
    var m := (2 * n + k) % (2 * k);
    assert 2 * n + k == 2 * k * q + m && 0 <= m < 2 * k;
    Distribute(2 * k, q);
    Distribute(2 * k, n);
    Below(n, k);
    Cancel(2 * k, q, n + 1);
  }

  lemma Distribute(a: int, b: int)
    ensures a * (b + 1) == a * b + a
  {
  }

  lemma Below(n: nat, k: nat)
    requires k > 0
    ensures 2 * n + k < 2 * k * n + 2 * k
  {
    assert k * n >= n;
  }

  lemma Cancel(a: int, x: int, y: int)
    requires a > 0 && a * x < a * y
    ensures x < y
  {
    assert a * y - a * x == a * (y - x);
  }

  lemma CastProduct(a: int, b: int)
    ensures (a * b) as real == a as real * b as real
  {
  }

  /** For `K > 0`: `x * K <= y < z * K` gives `x <= y / K < z`. */
  lemma DivBounds(x: real, y: real, z: real, K: real)
    requires K > 0.0 && x * K <= y < z * K
    ensures x <= y / K < z
  {
    var q := y / K;
    assert q * K == y;
    assert (q - x) * K >= 0.0;
    assert (z - q) * K > 0.0;
  }

  lemma DivShift(N: real, K: real)
    requires K > 0.0
    ensures N / K + 0.5 == (N + 0.5 * K) / K
  {
    var q := (N + 0.5 * K) / K;
    assert q * K == N + 0.5 * K;
    assert (N / K) * K == N;
    var d := q - N / K - 0.5;
    assert d * K == q * K - (N / K) * K - 0.5 * K;
    assert d * K == 0.0;
  }

  /** The integer bounds of the rounded share, read on rationals. */
  lemma RoundedFloor(n: nat, k: nat, r: int)
    requires k > 0 && 2 * k * r <= 2 * n + k < 2 * k * (r + 1)
    ensures r as real <= n as real / k as real + 0.5 < r as real + 1.0
  {
    var K := k as real;
    var N := n as real;
    var R := r as real;
    CastProduct(2 * k, r);
    CastProduct(2 * k, r + 1);
    assert 2.0 * K * R <= 2.0 * N + K < 2.0 * K * (R + 1.0);
    DivBounds(R, N + 0.5 * K, R + 1.0, K);
    DivShift(N, K);
  }

  /** `value % 3` in JavaScript: the remainder takes the sign of `value`. */
  function Remainder3(value: int): (r: int)
    ensures -3 < r < 3 && (value - r) % 3 == 0
    ensures value >= 0 ==> r >= 0
    ensures value < 0 ==> r <= 0
  {
    if value >= 0 then value % 3 else -((-value) % 3)
  }

  /**
   * `getHigherMultipleOf3LowerThan(value)`: the multiple of 3 reached by
   * dropping the remainder; for a negative value it lies above the value.
   */
  function HigherMultipleOf3LowerThan(value: int): (r: int)
    ensures r % 3 == 0
    ensures value >= 0 ==> 0 <= r <= value < r + 3
    ensures value < 0 ==> r - 3 < value <= r <= 0
  {
    value - Remainder3(value)
  }

  /** How many elements `splice(0, d)` removes from an array of `len` elements. */
  function SpliceCount(d: int, len: nat): (n: nat)
    ensures n <= len
    ensures 0 <= d <= len ==> n == d
  {
    if d < 0 then 0 else if d > len then len else d
  }

  /** `nbLevels` before the loop. */
  const LevelCount: nat := 100

  /** How many puzzles the level takes when `nb` levels are still to fill from `rest`. */
  function Share(rest: seq<Puzzle>, nb: nat): nat
    requires nb > 0
  {
    SpliceCount(HigherMultipleOf3LowerThan(Rounded(|rest|, nb)), |rest|)
  }

  /**
   * The `while (nbLevels > 1)` loop and the push after it, on the puzzles
   * of each level: while more than one level is left, the next level takes
   * `Share` puzzles off the front; the last level takes the rest.
   */
  function Split(rest: seq<Puzzle>, nb: nat): seq<seq<Puzzle>>
    requires nb > 0
    decreases nb
  {
    if nb == 1 then [rest]
    else
      var n := Share(rest, nb);
      [rest[..n]] + Split(rest[n..], nb - 1)
  }

  /** `[].concat(...subArray.map(pair => pair[1]))`: the values of the puzzles, one after another. */
  function Flatten(ps: seq<Puzzle>): seq<int>
  {
    if ps == [] then [] else ps[0].values + Flatten(ps[1..])
  }

  /** The levels one after another. */
  function Concat<T>(parts: seq<seq<T>>): seq<T>
  {
    if parts == [] then [] else parts[0] + Concat(parts[1..])
  }

  /** A level as stored: the packed text of its values. */
  function Text(level: seq<Puzzle>): string
  {
    Characters(Outputs(Flatten(level)))
  }

  /** The texts of the levels, in order. */
  function Texts(parts: seq<seq<Puzzle>>): (t: seq<string>)
    ensures |t| == |parts|
  {
    seq(|parts|, k requires 0 <= k < |parts| => Text(parts[k]))
  }

  /** The levels of the sorted corpus. */
  function Parts(): seq<seq<Puzzle>>
  {
    Split(SortByValueReverse(CorpusPuzzles()), LevelCount)
  }

  /** `levels` at the end of `createLevelsModule`. */
  function LevelTexts(): seq<string>
  {
    Texts(Parts())
  }

  /**
   * `createLevelsModule` without its output: the corpus loop, the sort,
   * then the level loop.
   */
  method CreateLevelsModule() returns (levels: seq<string>)
    ensures levels == LevelTexts()
    ensures |levels| == LevelCount
  {
    var puzzles, counter := BuildCorpus();
    var sorted := SortByValueReverse(puzzles);
    levels := SplitLevels(sorted, LevelCount);
    SplitCount(sorted, LevelCount);
  }

  /**
   * The level loop from `count` levels down, and the push after it:
   * `splice` each level off the front, encode its values, push the text.
   */
  method SplitLevels(sorted: seq<Puzzle>, count: nat) returns (levels: seq<string>)
    requires count > 0
    ensures levels == Texts(Split(sorted, count))
  {
    var puzzles := sorted;
    levels := [];
    var nbLevels := count;
    ghost var parts := Split(sorted, count);
    SplitCount(sorted, count);
    while nbLevels > 1
      invariant Done(parts, levels, puzzles, nbLevels)
    {
      var text, rest, level := TakeLevel(puzzles, nbLevels);
      Advance(parts, levels, puzzles, nbLevels, text, level, rest);
      puzzles := rest;
      levels := levels + [text];
      nbLevels := nbLevels - 1;
    }
    var text := EncodeLevel(puzzles);
    Behead(parts, |levels|, puzzles, []);
    levels := levels + [text];
    TextsEach(levels, parts);
  }

  /** The loop's state: the texts pushed so far are those of the first levels, and the remaining puzzles split into the others. */
  ghost predicate Done(parts: seq<seq<Puzzle>>, levels: seq<string>, puzzles: seq<Puzzle>, nb: nat)
  {
    && nb > 0
    && |levels| + nb == |parts|
    && Split(puzzles, nb) == parts[|levels|..]
    && forall k :: 0 <= k < |levels| ==> levels[k] == Text(parts[k])
  }

  /** One turn of the level loop keeps its state. */
  lemma Advance(parts: seq<seq<Puzzle>>, levels: seq<string>, puzzles: seq<Puzzle>, nb: nat,
                text: string, level: seq<Puzzle>, rest: seq<Puzzle>)
    requires Done(parts, levels, puzzles, nb) && nb > 1
    requires text == Text(level)
    requires Split(puzzles, nb) == [level] + Split(rest, nb - 1)
    ensures Done(parts, levels + [text], rest, nb - 1)
  {
    Behead(parts, |levels|, level, Split(rest, nb - 1));
    var after := levels + [text];
    forall k | 0 <= k < |after|
      ensures after[k] == Text(parts[k])
    {
      if k < |levels| {
        assert after[k] == levels[k];
      }
    }
  }

  /** One turn of the level loop: round the share, `splice` it off the front, encode it. */
  method TakeLevel(puzzles: seq<Puzzle>, nbLevels: nat) returns (text: string, rest: seq<Puzzle>, ghost level: seq<Puzzle>)
    requires nbLevels > 1
    ensures level == puzzles[..Share(puzzles, nbLevels)] && rest == puzzles[Share(puzzles, nbLevels)..]
    ensures text == Text(level)
    ensures Split(puzzles, nbLevels) == [level] + Split(rest, nbLevels - 1)
  {
    var nbPuzzlesInThisLevel := Rounded(|puzzles|, nbLevels);
    var n := SpliceCount(HigherMultipleOf3LowerThan(nbPuzzlesInThisLevel), |puzzles|);
    var subArray := puzzles[..n];
    rest := puzzles[n..];
    level := subArray;
    text := EncodeLevel(subArray);
  }

  /** `encode` of the level's values. */
  method EncodeLevel(level: seq<Puzzle>) returns (text: string)
    ensures text == Text(level)
  {
    text := Encode(Flatten(level));
  }

  lemma Behead<T>(s: seq<T>, i: nat, x: T, tail: seq<T>)
    requires i < |s| && s[i..] == [x] + tail
    ensures s[i] == x && s[i + 1..] == tail
  {
    assert s[i..][0] == x;
    assert s[i + 1..] == s[i..][1..];
  }

  lemma TextsEach(levels: seq<string>, parts: seq<seq<Puzzle>>)
    requires |levels| == |parts|
    requires forall k :: 0 <= k < |levels| ==> levels[k] == Text(parts[k])
    ensures levels == Texts(parts)
  {
  }

  // What the levels are.

  /** The loop makes exactly `nb` levels. */
  lemma {:induction false} SplitCount(rest: seq<Puzzle>, nb: nat)
    requires nb > 0
    ensures |Split(rest, nb)| == nb
    decreases nb
  {
    if nb > 1 {
      SplitCount(rest[Share(rest, nb)..], nb - 1);
    }
  }

  /** The levels put back together are the sorted puzzles: none lost, none repeated, order kept. */
  lemma {:induction false} SplitConcat(rest: seq<Puzzle>, nb: nat)
    requires nb > 0
    ensures Concat(Split(rest, nb)) == rest
    decreases nb
  {
    if nb == 1 {
      ConcatCons(rest, []);
    } else {
      var n := Share(rest, nb);
      SplitFirst(rest, nb);
      SplitConcat(rest[n..], nb - 1);
      ConcatCons(rest[..n], Split(rest[n..], nb - 1));
      assert rest[..n] + rest[n..] == rest;
    }
  }

  /** One turn of the loop: the first level is the share off the front. */
  lemma SplitFirst(rest: seq<Puzzle>, nb: nat)
    requires nb > 1
    ensures Split(rest, nb) == [rest[..Share(rest, nb)]] + Split(rest[Share(rest, nb)..], nb - 1)
  {
  }

  lemma ConcatCons<T>(x: seq<T>, tail: seq<seq<T>>)
    ensures Concat([x] + tail) == x + Concat(tail)
  {
    assert ([x] + tail)[1..] == tail;
  }

  /** The clamp of `splice` never bites: a level takes the rounded share, dropped to a multiple of 3. */
  lemma ShareExact(rest: seq<Puzzle>, nb: nat)
    requires nb > 0
    ensures Share(rest, nb) == HigherMultipleOf3LowerThan(Rounded(|rest|, nb))
  {
  }

  /** Every level but the last holds a multiple of 3 puzzles. */
  lemma {:induction false} SplitThirds(rest: seq<Puzzle>, nb: nat, i: nat)
    requires nb > 0 && i < nb - 1
    ensures |Split(rest, nb)| == nb && |Split(rest, nb)[i]| % 3 == 0
    decreases nb
  {
    SplitCount(rest, nb);
    var n := Share(rest, nb);
    if i > 0 {
      SplitThirds(rest[n..], nb - 1, i - 1);
    }
  }

  lemma {:induction false} ConcatMembers(parts: seq<seq<Puzzle>>, i: nat, p: Puzzle)
    requires i < |parts| && p in parts[i]
    ensures p in Concat(parts)
  {
    if i > 0 {
      ConcatMembers(parts[1..], i - 1, p);
    }
  }

  lemma PrefixOrdered(rest: seq<Puzzle>, n: nat, p: Puzzle, q: Puzzle)
    requires Descending(rest) && n <= |rest| && p in rest[..n] && q in rest[n..]
    ensures p.count >= q.count
  {
    var a :| 0 <= a < n && rest[..n][a] == p;
    var b :| 0 <= b < |rest| - n && rest[n..][b] == q;
    assert rest[a] == p && rest[n + b] == q;
  }

  lemma SuffixDescending(rest: seq<Puzzle>, n: nat)
    requires Descending(rest) && n <= |rest|
    ensures Descending(rest[n..])
  {
    forall i, j | 0 <= i < j < |rest| - n
      ensures rest[n..][i].count >= rest[n..][j].count
    {
      assert rest[n..][i] == rest[n + i] && rest[n..][j] == rest[n + j];
    }
  }

  lemma {:induction false} ConcatOrdered(parts: seq<seq<Puzzle>>, i: nat, j: nat, p: Puzzle, q: Puzzle)
    requires Descending(Concat(parts))
    requires i < j < |parts| && p in parts[i] && q in parts[j]
    ensures p.count >= q.count
  {
    var all := Concat(parts);
    var later := Concat(parts[1..]);
    assert all == parts[0] + later;
    assert all[..|parts[0]|] == parts[0] && all[|parts[0]|..] == later;
    if i == 0 {
      ConcatMembers(parts[1..], j - 1, q);
      PrefixOrdered(all, |parts[0]|, p, q);
    } else {
      SuffixDescending(all, |parts[0]|);
      ConcatOrdered(parts[1..], i - 1, j - 1, p, q);
    }
  }

  /** On descending puzzles, an earlier level never has fewer solutions per puzzle than a later one. */
  lemma SplitOrdered(rest: seq<Puzzle>, nb: nat, i: nat, j: nat, p: Puzzle, q: Puzzle)
    requires nb > 0 && Descending(rest)
    requires i < j < |Split(rest, nb)| && p in Split(rest, nb)[i] && q in Split(rest, nb)[j]
    ensures p.count >= q.count
  {
    SplitConcat(rest, nb);
    ConcatOrdered(Split(rest, nb), i, j, p, q);
  }

  // The levels of the corpus.

  /** Every puzzle's four values fit in five bits. */
  predicate Packable(ps: seq<Puzzle>)
  {
    forall p :: p in ps ==> |p.values| == 4 && FiveBit(p.values)
  }

  lemma {:induction false} FlattenPackable(ps: seq<Puzzle>)
    requires Packable(ps)
    ensures |Flatten(ps)| == 4 * |ps| && FiveBit(Flatten(ps))
  {
    if ps != [] {
      assert ps[0] in ps;
      assert Packable(ps[1..]) by {
        forall p | p in ps[1..]
          ensures p in ps
        {
        }
      }
      FlattenPackable(ps[1..]);
      var f := Flatten(ps);
      forall k | 0 <= k < |f|
        ensures 0 <= f[k] < 32
      {
        if k >= 4 {
          assert f[k] == Flatten(ps[1..])[k - 4];
        }
      }
    }
  }

  lemma TuplesPackable(ps: seq<Puzzle>)
    requires forall p :: p in ps ==> Tuple(p.values)
    ensures Packable(ps)
  {
    forall p | p in ps
      ensures |p.values| == 4 && FiveBit(p.values)
    {
      assert Tuple(p.values);
    }
  }

  /** The corpus puzzles hold values from 1 to 31. */
  lemma CorpusPackable()
    ensures Packable(CorpusPuzzles())
  {
    CorpusTuples();
    TuplesPackable(CorpusPuzzles());
  }

  lemma SortPackable(ps: seq<Puzzle>)
    requires Packable(ps)
    ensures Packable(SortByValueReverse(ps))
  {
    SortPermutes(ps);
    forall p | p in SortByValueReverse(ps)
      ensures p in ps
    {
      assert p in multiset(SortByValueReverse(ps));
    }
  }

  /** The 100 levels put back together are the sorted corpus. */
  lemma PartsCover()
    ensures |Parts()| == LevelCount
    ensures Concat(Parts()) == SortByValueReverse(CorpusPuzzles())
  {
    SplitCount(SortByValueReverse(CorpusPuzzles()), LevelCount);
    SplitConcat(SortByValueReverse(CorpusPuzzles()), LevelCount);
  }

  /** A puzzle of a level is a corpus puzzle. */
  lemma PartsMembers(i: nat, p: Puzzle)
    requires i < |Parts()| && p in Parts()[i]
    ensures p in CorpusPuzzles()
  {
    PartsCover();
    ConcatMembers(Parts(), i, p);
    SortPermutes(CorpusPuzzles());
    assert p in multiset(SortByValueReverse(CorpusPuzzles()));
  }

  /** Easier puzzles first: no puzzle of a later level has more solutions than one of an earlier level. */
  lemma PartsOrdered(i: nat, j: nat, p: Puzzle, q: Puzzle)
    requires i < j < |Parts()| && p in Parts()[i] && q in Parts()[j]
    ensures p.count >= q.count
  {
    SortDescending(CorpusPuzzles());
    SplitOrdered(SortByValueReverse(CorpusPuzzles()), LevelCount, i, j, p, q);
  }

  /**
   * A level's sextets decode back to its values: exactly when the level is
   * not the last one, whose size is a multiple of 3 (12 values per 3
   * puzzles, whole groups of six), and with zero padding for the last one.
   */
  lemma SplitRoundTrip(rest: seq<Puzzle>, nb: nat, i: nat)
    requires nb > 0 && Packable(rest) && i < nb
    ensures |Split(rest, nb)| == nb
    ensures |Outputs(Flatten(Split(rest, nb)[i]))| % 5 == 0
    ensures Decode(Outputs(Flatten(Split(rest, nb)[i]))) == Padded(Flatten(Split(rest, nb)[i]))
    ensures i < nb - 1 ==> Decode(Outputs(Flatten(Split(rest, nb)[i]))) == Flatten(Split(rest, nb)[i])
  {
    SplitCount(rest, nb);
    var level := Split(rest, nb)[i];
    SplitConcat(rest, nb);
    forall p | p in level
      ensures p in rest
    {
      ConcatMembers(Split(rest, nb), i, p);
    }
    if i < nb - 1 {
      SplitThirds(rest, nb, i);
    }
    LevelRoundTrip(level);
  }

  /** A level of packable puzzles decodes back to its values, padded unless it holds a multiple of 3 puzzles. */
  lemma LevelRoundTrip(level: seq<Puzzle>)
    requires Packable(level)
    ensures |Outputs(Flatten(level))| % 5 == 0
    ensures Decode(Outputs(Flatten(level))) == Padded(Flatten(level))
    ensures |level| % 3 == 0 ==> Decode(Outputs(Flatten(level))) == Flatten(level)
  {
    var values := Flatten(level);
    FlattenPackable(level);
    DecodeOutputs(values);
    if |level| % 3 == 0 {
      WholeGroups(|level|, |values|);
      RoundTrip(values);
    }
  }

  /** Three puzzles make two groups of six values. */
  lemma WholeGroups(n: nat, m: nat)
    requires n % 3 == 0 && m == 4 * n
    ensures m % 6 == 0
  {
    assert m == 6 * (2 * (n / 3));
  }

  /** Each stored level decodes back to its puzzles' values (the last one padded with zeros). */
  lemma PartsRoundTrip(i: nat)
    requires i < LevelCount
    ensures |Parts()| == LevelCount
    ensures |Outputs(Flatten(Parts()[i]))| % 5 == 0
    ensures Decode(Outputs(Flatten(Parts()[i]))) == Padded(Flatten(Parts()[i]))
    ensures i < LevelCount - 1 ==> Decode(Outputs(Flatten(Parts()[i]))) == Flatten(Parts()[i])
  {
    var sorted := SortByValueReverse(CorpusPuzzles());
    CorpusPackable();
    SortPackable(CorpusPuzzles());
    SplitRoundTrip(sorted, LevelCount, i);
    assert Parts() == Split(sorted, LevelCount);
  }
}
