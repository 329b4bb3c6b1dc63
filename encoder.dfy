/**
 * The bit-packing encoder of solve.js: each group of six 5-bit inputs (a
 * "hexa-word") is repacked into five 6-bit outputs, and each output is
 * looked up in a fixed 64-character table.
 *
 * JavaScript's bitwise operators work on 32-bit two's-complement integers:
 * operands go through ToInt32, shift counts are taken modulo 32, `>>` is an
 * arithmetic shift and `x & 63` keeps the low six bits. These are written out
 * below over unbounded integers.
 */
module BitPacking {

  const Letters: string := "ABCDEFGHIJKLMNOPQRSTUVWXYZ"

  /** `BASE64_ALPHABET`, 64 characters in which A-Z occurs twice, at 0..25 and at 26..51. */
  const Alphabet: string := Letters + Letters + "0123456789+/"

  /** A value that `& 63` can produce. */
  type Sextet = x: int | 0 <= x < 64

  function Pow2(n: nat): (r: nat)
    ensures r >= 1
  {
    if n == 0 then 1 else 2 * Pow2(n - 1)
  }

  /** ECMAScript ToInt32 on an integer: the value modulo 2^32, read as signed. */
  function ToInt32(x: int): (r: int)
    ensures -0x8000_0000 <= r < 0x8000_0000
    decreases if x < -0x8000_0000 then -x else if x >= 0x8000_0000 then x else 0
  {
    if x < -0x8000_0000 then ToInt32(x + 0x1_0000_0000)
    else if x >= 0x8000_0000 then ToInt32(x - 0x1_0000_0000)
    else x
  }

  /** `x * 2^n`, by repeated doubling. */
  function Doubled(x: int, n: nat): int
  {
    if n == 0 then x else 2 * Doubled(x, n - 1)
  }

  /** `x / 2^n` rounded toward minus infinity, by repeated halving. */
  function Halved(x: int, n: nat): int
  {
    if n == 0 then x else Halved(x, n - 1) / 2
  }

  /** `v << n`: the shift count is taken modulo 32 and the result wraps to 32 bits. */
  function ShiftLeft(v: int, n: int): int
  {
    ToInt32(Doubled(ToInt32(v), n % 32))
  }

  /** `v >> n`: the sign-propagating shift, again with the count modulo 32. */
  function ShiftRight(v: int, n: int): int
  {
    Halved(ToInt32(v), n % 32)
  }

  /** `x & 63` on a 32-bit two's-complement value keeps its residue modulo 64. */
  function Low6(x: int): Sextet
  {
    x % 64
  }

  /** The low `n` bits of `a | b` on non-negative integers, one bit at a time. */
  function OrBits(a: nat, b: nat, n: nat): (r: nat)
    ensures r < Pow2(n)
  {
    if n == 0 then 0
    else 2 * OrBits(a / 2, b / 2, n - 1) + (if a % 2 == 1 || b % 2 == 1 then 1 else 0)
  }

  /** `a | b` on two operands that are already masked to six bits. */
  function Or6(a: Sextet, b: Sextet): Sextet
  {
    OrBits(a, b, 6)
  }

  /** `chunk(value, position)`: `value` shifted left by `1 - position` places, masked to 6 bits. */
  function Chunk(value: int, position: int): Sextet
  {
    var leftShift := 1 - position;
    if leftShift >= 0 then Low6(ShiftLeft(value, leftShift))
    else Low6(ShiftRight(value, -leftShift))
  }

  /** Element `k` of a hexa-word; a missing element is `undefined`, which ToInt32 turns into 0. */
  function At(w: seq<int>, k: nat): int
  {
    if k < |w| then w[k] else 0
  }

  /** The five 6-bit outputs o0..o4 computed from one hexa-word. */
  function Word(w: seq<int>): (o: seq<Sextet>)
    ensures |o| == 5
  {
    [ Or6(Chunk(At(w, 0), 0), Chunk(At(w, 1), 5)),
      Or6(Chunk(At(w, 1), -1), Chunk(At(w, 2), 4)),
      Or6(Chunk(At(w, 2), -2), Chunk(At(w, 3), 3)),
      Or6(Chunk(At(w, 3), -3), Chunk(At(w, 4), 2)),
      Or6(Chunk(At(w, 4), -4), Chunk(At(w, 5), 1)) ]
  }

  /** How many values `arr.splice(0, 6)` takes from an array of length `n`. */
  function GroupLength(n: nat): (g: nat)
    ensures g <= n && g <= 6 && (n > 0 ==> g > 0)
  {
    if n < 6 then n else 6
  }

  /** `f` applied to each successive group of six inputs (the last may be shorter), concatenated. */
  function Groupwise(s: seq<int>, f: seq<int> -> seq<Sextet>): seq<Sextet>
    decreases |s|
  {
    if s == [] then []
    else
      var g := GroupLength(|s|);
      f(s[..g]) + Groupwise(s[g..], f)
  }

  /** The 6-bit outputs of the whole input. */
  function Outputs(s: seq<int>): seq<Sextet>
  {
    Groupwise(s, Word)
  }

  /** Each 6-bit output looked up in the alphabet (`BASE64_ALPHABET.charAt`). */
  function Characters(o: seq<Sextet>): (t: string)
    ensures |t| == |o|
  {
    if o == [] then "" else [Alphabet[o[0]]] + Characters(o[1..])
  }

  /** The five outputs of a hexa-word of 5-bit values, with `|` on disjoint bits written as `+`. */
  function Packed(w: seq<int>): (o: seq<Sextet>)
    requires FiveBit(w) && |w| <= 6
  {
    var i0, i1, i2, i3, i4, i5 := At(w, 0), At(w, 1), At(w, 2), At(w, 3), At(w, 4), At(w, 5);
    [ 2 * i0 + i1 / 16,
      4 * (i1 % 16) + i2 / 8,
      8 * (i2 % 8) + i3 / 4,
      16 * (i3 % 4) + i4 / 2,
      32 * (i4 % 2) + i5 ]
  }

  /** `encode(arr)`: consumes the input six values at a time, appending five characters per group. */
  method Encode(input: seq<int>) returns (result: string)
    ensures result == Characters(Outputs(input))
    ensures |result| == 5 * ((|input| + 5) / 6)
  {
    var arr := input;
    result := "";
    while |arr| > 0
      invariant result + Characters(Outputs(arr)) == Characters(Outputs(input))
      decreases |arr|
    {
      var n := GroupLength(|arr|);
      var hexaWord := arr[..n];
      OutputsStep(arr);
      arr := arr[n..];
      var o := [ Or6(Chunk(At(hexaWord, 0), 0), Chunk(At(hexaWord, 1), 5)),
                 Or6(Chunk(At(hexaWord, 1), -1), Chunk(At(hexaWord, 2), 4)),
                 Or6(Chunk(At(hexaWord, 2), -2), Chunk(At(hexaWord, 3), 3)),
                 Or6(Chunk(At(hexaWord, 3), -3), Chunk(At(hexaWord, 4), 2)),
                 Or6(Chunk(At(hexaWord, 4), -4), Chunk(At(hexaWord, 5), 1)) ];
      assert o == Word(hexaWord);
      CharactersAppend(o, Outputs(arr));
      result := result + Characters(o);
    }
    assert Outputs(arr) == [];
    OutputsLength(input);
  }

  // ---------------------------------------------------------------------------
  // The 6-bit inverse: the contract a decoder of the levels has to meet.

  /** i0 = o0>>1, i1 = ((o0&1)<<4)|(o1>>2), ..., i5 = o4&31, written with + on disjoint bits. */
  function DecodeWord(o: seq<Sextet>): (w: seq<int>)
    requires |o| == 5
    ensures |w| == 6
  {
    [ o[0] / 2,
      (o[0] % 2) * 16 + o[1] / 4,
      (o[1] % 4) * 8 + o[2] / 8,
      (o[2] % 8) * 4 + o[3] / 16,
      (o[3] % 16) * 2 + o[4] / 32,
      o[4] % 32 ]
  }

  function Decode(o: seq<Sextet>): (s: seq<int>)
    requires |o| % 5 == 0
    ensures |s| == |o| / 5 * 6
  {
    if o == [] then [] else DecodeWord(o[..5]) + Decode(o[5..])
  }

  /** `const [i0, ..., i5] = hexaWord`: the six inputs, a missing one read as 0. */
  function Hexa(w: seq<int>): (h: seq<int>)
    ensures |h| == 6
  {
    [At(w, 0), At(w, 1), At(w, 2), At(w, 3), At(w, 4), At(w, 5)]
  }

  /** The input as the encoder reads it: each group of six, a short last group padded with zeros. */
  function Padded(s: seq<int>): (p: seq<int>)
    ensures |p| == 6 * ((|s| + 5) / 6)
    decreases |s|
  {
    if s == [] then []
    else
      var g := GroupLength(|s|);
      Hexa(s[..g]) + Padded(s[g..])
  }

  predicate FiveBit(s: seq<int>)
  {
    forall k :: 0 <= k < |s| ==> 0 <= s[k] < 32
  }

  // ---------------------------------------------------------------------------
  // Lemmas: the chunks of a 5-bit value

  lemma DoubledSmall(x: int)
    ensures Doubled(x, 1) == 2 * x && Doubled(x, 2) == 4 * x && Doubled(x, 3) == 8 * x
    ensures Doubled(x, 4) == 16 * x && Doubled(x, 5) == 32 * x
  {
    assert Doubled(x, 1) == 2 * Doubled(x, 0);
    assert Doubled(x, 2) == 2 * Doubled(x, 1);
    assert Doubled(x, 3) == 2 * Doubled(x, 2);
    assert Doubled(x, 4) == 2 * Doubled(x, 3);
  }

  lemma HalvedSmall(x: int)
    requires 0 <= x < 32
    ensures Halved(x, 1) == x / 2 && Halved(x, 2) == x / 4 && Halved(x, 3) == x / 8
    ensures Halved(x, 4) == x / 16
  {
    assert Halved(x, 1) == Halved(x, 0) / 2;
    assert Halved(x, 2) == Halved(x, 1) / 2;
    assert Halved(x, 3) == Halved(x, 2) / 2;
  }

  /** On a 5-bit value a left chunk is a plain shift of the low bits: no ToInt32 wrap occurs. */
  lemma ChunkLeft0(v: int) requires 0 <= v < 32 ensures Chunk(v, 0) == 2 * v { DoubledSmall(v); }
  lemma ChunkLeft1(v: int)
    requires 0 <= v < 32
    ensures Chunk(v, -1) == 4 * (v % 16)
  {
    DoubledSmall(v);
    assert ShiftLeft(v, 2) == 4 * v;
    assert 4 * v == 64 * (v / 16) + 4 * (v % 16);
  }

  lemma ChunkLeft2(v: int)
    requires 0 <= v < 32
    ensures Chunk(v, -2) == 8 * (v % 8)
  {
    DoubledSmall(v);
    assert ShiftLeft(v, 3) == 8 * v;
    assert 8 * v == 64 * (v / 8) + 8 * (v % 8);
  }

  lemma ChunkLeft3(v: int)
    requires 0 <= v < 32
    ensures Chunk(v, -3) == 16 * (v % 4)
  {
    DoubledSmall(v);
    assert ShiftLeft(v, 4) == 16 * v;
    assert 16 * v == 64 * (v / 4) + 16 * (v % 4);
  }

  lemma ChunkLeft4(v: int)
    requires 0 <= v < 32
    ensures Chunk(v, -4) == 32 * (v % 2)
  {
    DoubledSmall(v);
    assert ShiftLeft(v, 5) == 32 * v;
    assert 32 * v == 64 * (v / 2) + 32 * (v % 2);
  }

  /** On a 5-bit value a right chunk keeps the high bits. */
  lemma ChunkRight(v: int)
    requires 0 <= v < 32
    ensures Chunk(v, 5) == v / 16 && Chunk(v, 4) == v / 8 && Chunk(v, 3) == v / 4
    ensures Chunk(v, 2) == v / 2 && Chunk(v, 1) == v
  {
    HalvedSmall(v);
    assert Chunk(v, 5) == v / 16;
    assert Chunk(v, 4) == v / 8;
    assert Chunk(v, 3) == v / 4;
  }

  // ---------------------------------------------------------------------------
  // Lemmas: `|` on disjoint bits

  lemma {:induction false} OrZero(a: nat, n: nat)
    requires a < Pow2(n)
    ensures OrBits(a, 0, n) == a
  {
    if n > 0 {
      OrZero(a / 2, n - 1);
    }
  }

  /** When the bits of the two operands do not overlap, `a | b` is `a + b`. */
  lemma {:induction false} OrDisjoint(hi: nat, lo: nat, k: nat, n: nat)
    requires k <= n && lo < Pow2(k) && hi < Pow2(n - k)
    ensures Doubled(hi, k) >= 0 && OrBits(Doubled(hi, k), lo, n) == Doubled(hi, k) + lo
  {
    if k == 0 {
      OrZero(hi, n);
    } else {
      OrDisjoint(hi, lo / 2, k - 1, n - 1);
    }
  }

  lemma Output0(w: seq<int>)
    requires FiveBit(w) && |w| <= 6
    ensures Or6(Chunk(At(w, 0), 0), Chunk(At(w, 1), 5)) == Packed(w)[0]
  {
    var a, b := At(w, 0), At(w, 1);
    ChunkLeft0(a); ChunkRight(b); DoubledSmall(a);
    OrDisjoint(a, b / 16, 1, 6);
  }

  lemma Output1(w: seq<int>)
    requires FiveBit(w) && |w| <= 6
    ensures Or6(Chunk(At(w, 1), -1), Chunk(At(w, 2), 4)) == Packed(w)[1]
  {
    var a, b := At(w, 1), At(w, 2);
    ChunkLeft1(a); ChunkRight(b); DoubledSmall(a % 16);
    OrDisjoint(a % 16, b / 8, 2, 6);
  }

  lemma Output2(w: seq<int>)
    requires FiveBit(w) && |w| <= 6
    ensures Or6(Chunk(At(w, 2), -2), Chunk(At(w, 3), 3)) == Packed(w)[2]
  {
    var a, b := At(w, 2), At(w, 3);
    ChunkLeft2(a); ChunkRight(b); DoubledSmall(a % 8);
    OrDisjoint(a % 8, b / 4, 3, 6);
  }

  lemma Output3(w: seq<int>)
    requires FiveBit(w) && |w| <= 6
    ensures Or6(Chunk(At(w, 3), -3), Chunk(At(w, 4), 2)) == Packed(w)[3]
  {
    var a, b := At(w, 3), At(w, 4);
    ChunkLeft3(a); ChunkRight(b); DoubledSmall(a % 4);
    OrDisjoint(a % 4, b / 2, 4, 6);
  }

  lemma Output4(w: seq<int>)
    requires FiveBit(w) && |w| <= 6
    ensures Or6(Chunk(At(w, 4), -4), Chunk(At(w, 5), 1)) == Packed(w)[4]
  {
    var a, b := At(w, 4), At(w, 5);
    ChunkLeft4(a); ChunkRight(b); DoubledSmall(a % 2);
    OrDisjoint(a % 2, b, 5, 6);
  }

  /** On a hexa-word of 5-bit values every `|` in the encoder joins disjoint bits. */
  lemma WordPacked(w: seq<int>)
    requires FiveBit(w) && |w| <= 6
    ensures Word(w) == Packed(w)
  {
    Output0(w); Output1(w); Output2(w); Output3(w); Output4(w);
  }

  /** `(m * hi + lo) / m` and `% m` split a sum whose low part is below `m` back into its parts. */
  lemma Unjoin(hi: int, lo: int, m: int)
    requires m == 2 || m == 4 || m == 8 || m == 16 || m == 32
    requires 0 <= lo < m
    ensures (m * hi + lo) / m == hi && (m * hi + lo) % m == lo
  {
  }

  /** On 5-bit values the packed word has an inverse: five outputs give back the six inputs. */
  lemma PackedRoundTrip(w: seq<int>)
    requires FiveBit(w) && |w| <= 6
    ensures DecodeWord(Packed(w)) == Hexa(w)
  {
    var i0, i1, i2, i3, i4, i5 := At(w, 0), At(w, 1), At(w, 2), At(w, 3), At(w, 4), At(w, 5);
    Unjoin(i0, i1 / 16, 2);
    Unjoin(i1 % 16, i2 / 8, 4);
    Unjoin(i2 % 8, i3 / 4, 8);
    Unjoin(i3 % 4, i4 / 2, 16);
    Unjoin(i4 % 2, i5, 32);
  }

  /** The hexa-word map is inverted by DecodeWord on 5-bit inputs; a short word comes back zero-padded. */
  lemma WordRoundTrip(w: seq<int>)
    requires FiveBit(w) && |w| <= 6
    ensures DecodeWord(Word(w)) == Hexa(w)
  {
    WordPacked(w);
    PackedRoundTrip(w);
  }

  // ---------------------------------------------------------------------------
  // Lemmas: the whole input

  lemma OutputsStep(s: seq<int>)
    requires s != []
    ensures Outputs(s) == Word(s[..GroupLength(|s|)]) + Outputs(s[GroupLength(|s|)..])
  {
  }

  /** Groupwise output of a word function that always gives five outputs: five per started group. */
  lemma {:induction false} GroupwiseLength(s: seq<int>, f: seq<int> -> seq<Sextet>)
    requires forall w :: |f(w)| == 5
    ensures |Groupwise(s, f)| == 5 * ((|s| + 5) / 6)
    decreases |s|
  {
    if s != [] {
      GroupwiseLength(s[GroupLength(|s|)..], f);
    }
  }

  lemma OutputsLength(s: seq<int>)
    ensures |Outputs(s)| == 5 * ((|s| + 5) / 6)
  {
    GroupwiseLength(s, Word);
  }

  lemma DecodeAppend(a: seq<Sextet>, b: seq<Sextet>)
    requires |a| == 5 && |b| % 5 == 0
    ensures Decode(a + b) == DecodeWord(a) + Decode(b)
  {
    assert (a + b)[..5] == a && (a + b)[5..] == b;
  }

  /** Decoding a groupwise output whose word function DecodeWord inverts gives the padded input. */
  lemma {:induction false} GroupwiseDecode(s: seq<int>, f: seq<int> -> seq<Sextet>)
    requires FiveBit(s)
    requires forall w :: |f(w)| == 5
    requires forall w | FiveBit(w) && |w| <= 6 :: DecodeWord(f(w)) == Hexa(w)
    ensures |Groupwise(s, f)| % 5 == 0 && Decode(Groupwise(s, f)) == Padded(s)
    decreases |s|
  {
    GroupwiseLength(s, f);
    if s != [] {
      var g := GroupLength(|s|);
      var w, rest := s[..g], s[g..];
      assert FiveBit(w) && FiveBit(rest);
      assert Groupwise(s, f) == f(w) + Groupwise(rest, f);
      assert Padded(s) == Hexa(w) + Padded(rest);
      GroupwiseDecode(rest, f);
      GroupwiseLength(rest, f);
      DecodeAppend(f(w), Groupwise(rest, f));
      assert DecodeWord(f(w)) == Hexa(w);
    }
  }

  /** Round trip at the level of 6-bit values: decoding recovers the zero-padded input. */
  lemma DecodeOutputs(s: seq<int>)
    requires FiveBit(s)
    ensures |Outputs(s)| % 5 == 0 && Decode(Outputs(s)) == Padded(s)
  {
    forall w | FiveBit(w) && |w| <= 6
      ensures DecodeWord(Word(w)) == Hexa(w)
    {
      WordRoundTrip(w);
    }
    GroupwiseDecode(s, Word);
  }

  /** A multiple of six inputs is read without padding. */
  lemma {:induction false} PaddedWhole(s: seq<int>)
    requires |s| % 6 == 0
    ensures Padded(s) == s
    decreases |s|
  {
    if s != [] {
      assert Hexa(s[..6]) == s[..6];
      PaddedWhole(s[6..]);
      assert s == s[..6] + s[6..];
    }
  }

  /** A hexa-word reads a missing element as 0, exactly as if it had been padded. */
  lemma WordHexa(w: seq<int>)
    ensures Word(w) == Word(Hexa(w))
  {
  }

  /** A trailing short group encodes the same as that group padded with zeros. */
  lemma {:induction false} OutputsPadded(s: seq<int>)
    ensures Outputs(s) == Outputs(Padded(s))
    ensures Characters(Outputs(s)) == Characters(Outputs(Padded(s)))
    decreases |s|
  {
    if s != [] {
      var g := GroupLength(|s|);
      var p := Padded(s);
      assert p == Hexa(s[..g]) + Padded(s[g..]);
      assert p[..6] == Hexa(s[..g]) && p[6..] == Padded(s[g..]);
      OutputsStep(s);
      OutputsStep(p);
      WordHexa(s[..g]);
      OutputsPadded(s[g..]);
    }
  }

  /** Padding keeps the input as a prefix and adds only zeros. */
  lemma {:induction false} PaddedExtends(s: seq<int>)
    ensures |s| <= |Padded(s)| && Padded(s)[..|s|] == s
    ensures forall k :: |s| <= k < |Padded(s)| ==> Padded(s)[k] == 0
    decreases |s|
  {
    if s != [] {
      var g := GroupLength(|s|);
      PaddedExtends(s[g..]);
      var h, p := Hexa(s[..g]), Padded(s[g..]);
      if g < 6 {
        assert s[g..] == [] && Padded(s) == h;
        forall k | 0 <= k < |s| ensures h[k] == s[k] { }
      } else {
        forall k | 0 <= k < |s| ensures (h + p)[k] == s[k] {
          if k >= 6 {
            assert (h + p)[k] == p[k - 6] && s[k] == s[6..][k - 6];
          }
        }
      }
    }
  }

  /** Inputs of a multiple of six 5-bit values are recovered exactly. */
  lemma RoundTrip(s: seq<int>)
    requires FiveBit(s) && |s| % 6 == 0
    ensures |Outputs(s)| % 5 == 0 && Decode(Outputs(s)) == s
  {
    DecodeOutputs(s);
    PaddedWhole(s);
  }

  /** The map from inputs to 6-bit outputs is injective on 5-bit inputs of one length. */
  lemma OutputsInjective(s: seq<int>, t: seq<int>)
    requires FiveBit(s) && FiveBit(t) && |s| == |t|
    requires Outputs(s) == Outputs(t)
    ensures s == t
  {
    DecodeOutputs(s);
    DecodeOutputs(t);
    PaddedExtends(s);
    PaddedExtends(t);
  }

  lemma {:induction false} CharactersAppend(a: seq<Sextet>, b: seq<Sextet>)
    ensures Characters(a + b) == Characters(a) + Characters(b)
  {
    if a == [] {
      assert a + b == b;
    } else {
      assert (a + b)[1..] == a[1..] + b;
      CharactersAppend(a[1..], b);
    }
  }

  // ---------------------------------------------------------------------------
  // Lemmas: the alphabet

  /** The alphabet maps k and k + 26 to the same letter. */
  lemma AlphabetAliases(k: nat)
    requires k < 26
    ensures |Alphabet| == 64 && Alphabet[k] == Alphabet[k + 26]
  {
  }

  /** Encoding a single hexa-word is one application of the word map. */
  lemma OutputsSingle(w: seq<int>)
    requires |w| == 6
    ensures Outputs(w) == Word(w)
  {
    OutputsStep(w);
    assert w[..6] == w && w[6..] == [];
  }

  /** The characters of five outputs, one alphabet lookup each. */
  lemma CharactersFive(o: seq<Sextet>)
    requires |o| == 5
    ensures Characters(o) == [Alphabet[o[0]], Alphabet[o[1]], Alphabet[o[2]], Alphabet[o[3]], Alphabet[o[4]]]
  {
    assert Characters(o[4..]) == [Alphabet[o[4]]];
    assert Characters(o[3..]) == [Alphabet[o[3]], Alphabet[o[4]]];
    assert Characters(o[2..]) == [Alphabet[o[2]], Alphabet[o[3]], Alphabet[o[4]]];
    assert Characters(o[1..]) == [Alphabet[o[1]], Alphabet[o[2]], Alphabet[o[3]], Alphabet[o[4]]];
  }

  /** Two different hexa-words both give "AAAAA": the character string loses information. */
  lemma CharactersNotInjective(w: seq<int>, z: seq<int>)
    requires w == [13, 0, 0, 0, 0, 0] && z == [0, 0, 0, 0, 0, 0]
    ensures w != z
    ensures Outputs(w) == [26, 0, 0, 0, 0] && Outputs(z) == [0, 0, 0, 0, 0]
    ensures Characters(Outputs(w)) == Characters(Outputs(z)) == "AAAAA"
  {
    assert w[0] != z[0];
    assert Packed(w) == [26, 0, 0, 0, 0];
    assert Packed(z) == [0, 0, 0, 0, 0];
    WordPacked(w);
    WordPacked(z);
    OutputsSingle(w);
    OutputsSingle(z);
    CharactersFive(Outputs(w));
    CharactersFive(Outputs(z));
  }

  /** The vector of the debug block: [5, 16, 18, 27, 28, 13] gives 11, 2, 22, 62, 13 ... */
  lemma TestVector(w: seq<int>)
    requires w == [5, 16, 18, 27, 28, 13]
    ensures Outputs(w) == [11, 2, 22, 62, 13]
  {
    assert Packed(w) == [11, 2, 22, 62, 13];
    WordPacked(w);
    OutputsSingle(w);
  }

  /** The characters of the debug block's outputs. */
  lemma VectorText(o: seq<Sextet>)
    requires o == [11, 2, 22, 62, 13]
    ensures Characters(o) == "LCW+N"
  {
    CharactersFive(o);
    assert Alphabet[11] == 'L' && Alphabet[2] == 'C' && Alphabet[22] == 'W';
    assert Alphabet[62] == '+' && Alphabet[13] == 'N';
  }

  /** ... that is "LCW+N". */
  lemma TestVectorText(w: seq<int>)
    requires w == [5, 16, 18, 27, 28, 13]
    ensures Characters(Outputs(w)) == "LCW+N"
  {
    TestVector(w);
    VectorText(Outputs(w));
  }
}
