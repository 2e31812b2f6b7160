/** The incompressible padding of the download probe: SplitMix64 written a chunk at a time.
    A 64-bit word is a number below 2^64, and every wrap is written out. */
module Padding {

  const WORD: nat := 0x1_0000_0000_0000_0000
  const STEP: nat := 0x9E37_79B9_7F4A_7C15
  const MULT_A: nat := 0xBF58_476D_1CE4_E5B9
  const MULT_B: nat := 0x94D0_49BB_1331_11EB
  const CHUNK: nat := 1024 * 1024

  // ---- Bit operations -------------------------------------------------------

  function Xor(a: nat, b: nat): nat {
    if a == 0 && b == 0 then 0 else 2 * Xor(a / 2, b / 2) + if a % 2 == b % 2 then 0 else 1
  }

  /** `z >> k` */
  function Shr(z: nat, k: nat): (r: nat)
    ensures r <= z
    decreases k
  {
    if k == 0 then z else Shr(z / 2, k - 1)
  }

  function Pow2(k: nat): (r: nat)
    ensures r > 0
  {
    if k == 0 then 1 else 2 * Pow2(k - 1)
  }

  function Mul(z: nat, c: nat): nat {
    (z * c) % WORD
  }

  /** `z ^ (z >> k)` */
  function Fold(z: nat, k: nat): nat {
    Xor(z, Shr(z, k))
  }

  // ---- The closed-form stream -----------------------------------------------

  function Mix(z: nat): nat {
    Fold(Mul(Fold(Mul(Fold(z, 30), MULT_A), 27), MULT_B), 31)
  }

  /** Generator state after `k` wrapping additions; the seed is the step itself. */
  function State(k: nat): (state: nat)
    ensures state < WORD
  {
    if k == 0 then STEP else (State(k - 1) + STEP) % WORD
  }

  function Word(k: nat): nat {
    Mix(State(k + 1))
  }

  /** Byte `i` of a word, least significant first. */
  function ByteOf(w: nat, i: nat): (b: nat)
    ensures b < 256
  {
    if i == 0 then w % 256 else ByteOf(w / 256, i - 1)
  }

  function ByteAt(i: nat): nat {
    ByteOf(Word(i / 8), i % 8)
  }

  /** The padding of length `len`, byte by byte. */
  function Stream(len: nat): (s: seq<nat>)
    ensures |s| == len
  {
    seq(len, i requires 0 <= i < len => ByteAt(i))
  }

  // ---- The writer -----------------------------------------------------------

  /** Takes bytes until it fails, and then keeps a prefix of what it was given. */
  class Sink {
    var bytes: seq<nat>

    constructor ()
      ensures bytes == []
    {
      bytes := [];
    }

    method WriteAll(data: seq<nat>) returns (ok: bool)
      modifies this
      ensures ok ==> bytes == old(bytes) + data
      ensures !ok ==> old(bytes) <= bytes <= old(bytes) + data
    {
      var taken: int := *;
      if 0 <= taken < |data| {
        bytes := bytes + data[..taken];
        return false;
      }
      bytes := bytes + data;
      return true;
    }
  }

  /** Fills the whole chunk with the next words, starting after `first` of them. */
  method FillChunk(chunk: array<nat>, state0: nat, ghost first: nat) returns (state: nat)
    requires chunk.Length == CHUNK && state0 == State(first)
    modifies chunk
    ensures state == State(first + CHUNK / 8)
    ensures forall i :: 0 <= i < CHUNK ==> chunk[i] == ByteAt(8 * first + i)
  {
    hide State, Word, Mix, ByteAt, ByteOf;
    state := state0;
    for w := 0 to CHUNK / 8
      invariant state == State(first + w)
      invariant forall i :: 0 <= i < 8 * w ==> chunk[i] == ByteAt(8 * first + i)
    {
      var z;
      state, z := NextWord(state, first + w);
      PutWord(chunk, w, z, first);
    }
  }

  /** One generator step. */
  method NextWord(state: nat, ghost k: nat) returns (next: nat, z: nat)
    requires state == State(k)
    ensures next == State(k + 1) && z == Word(k)
  {
    hide Xor, Shr, Mul;
    next := (state + STEP) % WORD;
    z := next;
    z := Mul(Xor(z, Shr(z, 30)), MULT_A);
    z := Mul(Xor(z, Shr(z, 27)), MULT_B);
    z := Xor(z, Shr(z, 31));
    MixSteps(next);
  }

  lemma MixSteps(state: nat)
    ensures var a := Mul(Xor(state, Shr(state, 30)), MULT_A);
      var b := Mul(Xor(a, Shr(a, 27)), MULT_B);
      Xor(b, Shr(b, 31)) == Mix(state)
  {
    hide Xor, Shr, Mul;
  }

  /** `z.to_le_bytes()` into the word's place. */
  method PutWord(chunk: array<nat>, w: nat, z: nat, ghost first: nat)
    requires 8 * w + 8 <= chunk.Length && z == Word(first + w)
    requires forall i :: 0 <= i < 8 * w ==> chunk[i] == ByteAt(8 * first + i)
    modifies chunk
    ensures forall i :: 0 <= i < 8 * w + 8 ==> chunk[i] == ByteAt(8 * first + i)
  {
    hide ByteOf, Mix, State;
    for i := 0 to 8
      invariant forall j :: 0 <= j < 8 * w + i ==> chunk[j] == ByteAt(8 * first + j)
    {
      Position(first, w, i);
      chunk[8 * w + i] := ByteOf(z, i);
    }
  }

  lemma Position(first: nat, w: nat, i: nat)
    requires i < 8
    ensures (8 * first + (8 * w + i)) / 8 == first + w && (8 * first + (8 * w + i)) % 8 == i
  {
  }

  /** Writes exactly the closed-form stream, however the chunks fall; a failing sink has
      been given a prefix of it. */
  method WriteIncompressible(sink: Sink, len: nat) returns (ok: bool)
    modifies sink
    ensures ok ==> sink.bytes == old(sink.bytes) + Stream(len)
    ensures !ok ==> old(sink.bytes) <= sink.bytes <= old(sink.bytes) + Stream(len)
  {
    assert STEP == State(0) && |Stream(len)| == len && Stream(len)[..len] == Stream(len) by {
      StateStart();
    }
    hide *;
    var state := STEP;
    var chunk := new nat[CHUNK];
    var written := 0;
    ghost var words: nat := 0;
    while written < len
      invariant written == if 8 * words < len then 8 * words else len
      invariant state == State(words)
      invariant sink.bytes == old(sink.bytes) + Stream(len)[..written]
      decreases len - written
    {
      state := FillChunk(chunk, state, words);
      var n := if len - written < chunk.Length then len - written else chunk.Length;
      ghost var s := Stream(len);
      ChunkIsSlice(chunk[..], len, words, n);
      assert chunk[..n] == chunk[..][..n];
      var taken := sink.WriteAll(chunk[..n]);
      Wrote(old(sink.bytes), s, written, n, sink.bytes, taken);
      if !taken {
        return false;
      }
      written := written + n;
      words := words + CHUNK / 8;
    }
    return true;
  }

  lemma Wrote(base: seq<nat>, s: seq<nat>, a: nat, n: nat, after: seq<nat>, taken: bool)
    requires a + n <= |s|
    requires if taken then after == base + s[..a] + s[a..a + n] else base + s[..a] <= after <= base + s[..a] + s[a..a + n]
    ensures if taken then after == base + s[..a + n] else base <= after <= base + s
  {
    Pieces(s, a, n);
    assert base + s[..a] + s[a..a + n] == base + s[..a + n] <= base + s;
  }

  lemma StateStart()
    ensures State(0) == STEP
  {
  }

  lemma ChunkIsSlice(c: seq<nat>, len: nat, words: nat, n: nat)
    requires n <= |c| && 8 * words + n <= len && forall i :: 0 <= i < |c| ==> c[i] == ByteAt(8 * words + i)
    ensures c[..n] == Stream(len)[8 * words..8 * words + n]
  {
    hide ByteAt;
  }

  lemma Pieces<T>(s: seq<T>, a: nat, n: nat)
    requires a + n <= |s|
    ensures s[..a] + s[a..a + n] == s[..a + n] && s[..a + n] <= s
  {
  }

  // ---- Algebra of the bit operations ----------------------------------------

  lemma {:induction false} XorNeutral(a: nat)
    ensures Xor(a, 0) == a && Xor(0, a) == a && Xor(a, a) == 0
  {
    if a > 0 {
      XorNeutral(a / 2);
    }
  }

  lemma {:induction false} XorAssociates(a: nat, b: nat, c: nat)
    ensures Xor(Xor(a, b), c) == Xor(a, Xor(b, c))
    decreases a + b + c
  {
    if a + b + c > 0 {
      XorAssociates(a / 2, b / 2, c / 2);
      Halves(a, b);
      Halves(b, c);
      Halves(Xor(a, b), c);
      Halves(a, Xor(b, c));
    }
  }

  lemma Halves(a: nat, b: nat)
    ensures Xor(a, b) / 2 == Xor(a / 2, b / 2)
    ensures Xor(a, b) % 2 == if a % 2 == b % 2 then 0 else 1
    ensures Xor(a, b) == 2 * Xor(a / 2, b / 2) + if a % 2 == b % 2 then 0 else 1
  {
  }

  lemma {:induction false} ShrOfXor(a: nat, b: nat, k: nat)
    ensures Shr(Xor(a, b), k) == Xor(Shr(a, k), Shr(b, k))
    decreases k
  {
    if k > 0 {
      Halves(a, b);
      ShrOfXor(a / 2, b / 2, k - 1);
    }
  }

  lemma {:induction false} ShrTwice(z: nat, j: nat, k: nat)
    ensures Shr(Shr(z, j), k) == Shr(z, j + k)
    decreases j
  {
    if j > 0 {
      ShrTwice(z / 2, j - 1, k);
    }
  }

  lemma {:induction false} ShrOut(z: nat, j: nat, k: nat)
    requires z < Pow2(j) && j <= k
    ensures Shr(z, k) == 0
    decreases k
  {
    if k > 0 {
      ShrOut(z / 2, if j == 0 then 0 else j - 1, k - 1);
    }
  }

  lemma {:induction false} XorBelow(a: nat, b: nat, k: nat)
    requires a < Pow2(k) && b < Pow2(k)
    ensures Xor(a, b) < Pow2(k)
  {
    if k > 0 {
      XorBelow(a / 2, b / 2, k - 1);
    }
  }

  lemma WordIsPow2()
    ensures Pow2(64) == WORD
  {
    assert Pow2(8) == 256;
    Pow2Adds(8, 8);
    Pow2Adds(16, 16);
    Pow2Adds(32, 32);
  }

  lemma {:induction false} Pow2Adds(j: nat, k: nat)
    ensures Pow2(j + k) == Pow2(j) * Pow2(k)
    decreases k
  {
    if k > 0 {
      Pow2Adds(j, k - 1);
      Doubled(Pow2(j), Pow2(k - 1));
    }
  }

  lemma Doubled(a: nat, b: nat)
    ensures a * (2 * b) == 2 * (a * b)
  {
  }

  /** Undoes a fold by `k` on a word, for every `k` of at least a third of its width. */
  function Unfold(y: nat, k: nat): nat {
    Xor(Xor(y, Shr(y, k)), Shr(y, 2 * k))
  }

  lemma FoldUndone(z: nat, k: nat)
    requires z < WORD && 3 * k >= 64
    ensures Unfold(Fold(z, k), k) == z
    ensures Fold(Unfold(z, k), k) == z
  {
    hide Xor, Shr;
    var (s, t, u) := (Shr(z, k), Shr(z, 2 * k), Shr(z, 3 * k));
    WordIsPow2();
    ShrOut(z, 64, 3 * k);
    ShrTwice(z, k, k);
    ShrTwice(z, k, 2 * k);
    ShrTwice(z, 2 * k, k);
    ShrOfXor(z, s, k);
    ShrOfXor(z, s, 2 * k);
    ShrOfXor(Xor(z, s), t, k);
    Telescope(z, s, t, u);
  }

  /** With u = 0: ((z^s) ^ (s^t)) ^ (t^u) = z and ((z^s)^t) ^ ((s^t)^u) = z. */
  lemma Telescope(z: nat, s: nat, t: nat, u: nat)
    requires u == 0
    ensures Xor(Xor(Xor(z, s), Xor(s, t)), Xor(t, u)) == z
    ensures Xor(Xor(Xor(z, s), t), Xor(Xor(s, t), u)) == z
  {
    hide Xor;
    XorNeutral(t);
    XorNeutral(s);
    XorNeutral(z);
    XorNeutral(Xor(s, t));
    XorAssociates(z, s, Xor(s, t));
    XorAssociates(s, s, t);
    XorAssociates(z, t, t);
    XorAssociates(z, s, t);
    XorAssociates(z, Xor(s, t), Xor(s, t));
  }

  // ---- What the stream is good for ------------------------------------------

  /** A shorter padding is a prefix of a longer one. */
  lemma ShorterIsPrefix(a: nat, b: nat)
    requires a <= b
    ensures Stream(a) <= Stream(b)
  {
  }

  const INVERSE_STEP: nat := 0xF1DE_83E1_9937_733D
  const INVERSE_A: nat := 0x96DE_1B17_3F11_9089
  const INVERSE_B: nat := 0x3196_42B2_D24D_8EC3

  function Unmix(m: nat): nat {
    Unfold(Mul(Unfold(Mul(Unfold(m, 31), INVERSE_B), 27), INVERSE_A), 30)
  }

  lemma InversePairs()
    ensures STEP * INVERSE_STEP == 1 + 0x957B_BF35_006E_D677 * WORD
    ensures MULT_A * INVERSE_A == 1 + 0x70C3_BCA7_8F27_F46C * WORD
    ensures MULT_B * INVERSE_B == 1 + 0x1CD3_36ED_A85F_1453 * WORD
  {
  }

  /** Multiplying by a factor and then by its inverse is the identity on words. */
  lemma MulUndone(z: nat, c: nat, inverse: nat, q: nat)
    requires z < WORD && c * inverse == 1 + q * WORD
    ensures Mul(Mul(z, c), inverse) == z
  {
    var (d, r) := ((z * c) / WORD, (z * c) % WORD);
    calc {
      r * inverse;
      (z * c - d * WORD) * inverse;
      z * (c * inverse) - d * inverse * WORD;
      z * (1 + q * WORD) - d * inverse * WORD;
      z + (z * q - d * inverse) * WORD;
    }
    Residue(r * inverse, z, z * q - d * inverse);
  }

  lemma Residue(x: nat, r: nat, t: int)
    requires r < WORD && x == r + t * WORD
    ensures x % WORD == r
  {
  }

  lemma FoldBelow(z: nat, k: nat)
    requires z < WORD
    ensures Fold(z, k) < WORD && Unfold(z, k) < WORD
  {
    WordIsPow2();
    XorBelow(z, Shr(z, k), 64);
    XorBelow(Xor(z, Shr(z, k)), Shr(z, 2 * k), 64);
  }

  /** The mixer is a bijection on 64-bit words. */
  lemma MixIsBijective(z: nat)
    requires z < WORD
    ensures Mix(z) < WORD && Unmix(z) < WORD
    ensures Unmix(Mix(z)) == z && Mix(Unmix(z)) == z
  {
    hide Fold, Unfold;
    InversePairs();
    var a := Mul(Fold(z, 30), MULT_A);
    var b := Mul(Fold(a, 27), MULT_B);
    FoldBelow(z, 30);
    FoldBelow(a, 27);
    FoldBelow(b, 31);
    FoldUndone(b, 31);
    MulUndone(Fold(a, 27), MULT_B, INVERSE_B, 0x1CD3_36ED_A85F_1453);
    FoldUndone(a, 27);
    MulUndone(Fold(z, 30), MULT_A, INVERSE_A, 0x70C3_BCA7_8F27_F46C);
    FoldUndone(z, 30);

    var c := Mul(Unfold(z, 31), INVERSE_B);
    var d := Mul(Unfold(c, 27), INVERSE_A);
    FoldBelow(z, 31);
    FoldBelow(c, 27);
    FoldBelow(d, 30);
    FoldUndone(d, 30);
    MulUndone(Unfold(c, 27), INVERSE_A, MULT_A, 0x70C3_BCA7_8F27_F46C);
    FoldUndone(c, 27);
    MulUndone(Unfold(z, 31), INVERSE_B, MULT_B, 0x1CD3_36ED_A85F_1453);
    FoldUndone(z, 31);
  }

  lemma {:induction false} StateIsLinear(k: nat)
    ensures State(k) == (STEP + k * STEP) % WORD
  {
    if k > 0 {
      StateIsLinear(k - 1);
      var x := STEP + (k - 1) * STEP;
      var r := x % WORD + STEP;
      Residue(x + STEP, r % WORD, x / WORD + r / WORD);
    }
  }

  /** The step is odd: equal states are a whole number of periods apart. */
  lemma SameState(i: nat, j: nat)
    requires State(i) == State(j)
    ensures (j - i) % WORD == 0
  {
    StateIsLinear(i);
    StateIsLinear(j);
    var (a, b) := (STEP + i * STEP, STEP + j * STEP);
    var t := b / WORD - a / WORD;
    InversePairs();
    Periods(j - i, t, INVERSE_STEP, 0x957B_BF35_006E_D677);
    Multiple(t * INVERSE_STEP - (j - i) * 0x957B_BF35_006E_D677);
  }

  lemma Periods(d: int, t: int, inverse: nat, q: nat)
    requires d * STEP == t * WORD && STEP * inverse == 1 + q * WORD
    ensures d == (t * inverse - d * q) * WORD
  {
    calc {
      d;
      d * (1 + q * WORD) - d * q * WORD;
      d * (STEP * inverse) - d * q * WORD;
      (d * STEP) * inverse - d * q * WORD;
      (t * WORD) * inverse - d * q * WORD;
      (t * inverse - d * q) * WORD;
    }
  }

  lemma Multiple(t: int)
    ensures (t * WORD) % WORD == 0
  {
  }

  /** No two words of one period of the generator are equal. */
  lemma WordsDiffer(i: nat, j: nat)
    requires i < j && j - i < WORD
    ensures Word(i) != Word(j)
  {
    hide Mix, Unmix, State;
    MixIsBijective(State(i + 1));
    MixIsBijective(State(j + 1));
    if State(i + 1) == State(j + 1) {
      SameState(i + 1, j + 1);
    }
  }

  lemma {:induction false} BytesDecide(a: nat, b: nat, n: nat)
    requires a < Pow2(8 * n) && b < Pow2(8 * n)
    requires forall i :: 0 <= i < n ==> ByteOf(a, i) == ByteOf(b, i)
    ensures a == b
    decreases n
  {
    if n > 0 {
      Pow2Adds(8 * (n - 1), 8);
      assert Pow2(8) == 256;
      forall i | 0 <= i < n - 1
        ensures ByteOf(a / 256, i) == ByteOf(b / 256, i)
      {
        assert ByteOf(a, i + 1) == ByteOf(b, i + 1);
      }
      BytesDecide(a / 256, b / 256, n - 1);
      assert ByteOf(a, 0) == ByteOf(b, 0);
    }
  }

  /** Different words differ in one of their eight bytes. */
  lemma ByteDiffers(i: nat, j: nat) returns (k: nat)
    requires i < j && j - i < WORD
    ensures k < 8 && ByteOf(Word(i), k) != ByteOf(Word(j), k)
  {
    hide Mix, State, ByteOf;
    WordsDiffer(i, j);
    WordIsPow2();
    MixIsBijective(State(i + 1));
    MixIsBijective(State(j + 1));
    if forall k :: 0 <= k < 8 ==> ByteOf(Word(i), k) == ByteOf(Word(j), k) {
      BytesDecide(Word(i), Word(j), 8);
    }
    k :| 0 <= k < 8 && ByteOf(Word(i), k) != ByteOf(Word(j), k);
  }

  /** No two aligned 8-byte words of a padding are equal, so no aligned block repeats. */
  lemma NoAlignedRepeat(len: nat, i: nat, j: nat)
    requires len < WORD && i < j && 8 * j + 8 <= len
    ensures Stream(len)[8 * i..8 * i + 8] != Stream(len)[8 * j..8 * j + 8]
  {
    hide Word, ByteOf;
    var k := ByteDiffers(i, j);
    Position(i, 0, k);
    Position(j, 0, k);
    assert Stream(len)[8 * i..8 * i + 8][k] == ByteAt(8 * i + k);
    assert Stream(len)[8 * j..8 * j + 8][k] == ByteAt(8 * j + k);
  }
}
