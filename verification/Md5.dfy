/** MD5 (`algorithm/detail/md5_provider.hpp`) against RFC 1321. The tables `K` and `S` are
    parameters; words are read from memory low-order byte first. */
module Md5 {
  import opened Modular
  import opened Sequences
  import opened Streaming

  type word = bv32

  datatype Regs = Regs(a: word, b: word, c: word, d: word)

  const IV := Regs(0x67452301, 0xefcdab89, 0x98badcfe, 0x10325476)

  datatype AnyTables = Tables(K: seq<word>, S: seq<nat>)

  type Tables = t: AnyTables | |t.K| == |t.S| == 64 && forall i :: 0 <= i < 64 ==> t.S[i] < 32
    witness Tables(seq(64, _ => 0), seq(64, _ => 0))

  // RFC 1321, section 3.4

  function F(x: word, y: word, z: word): word { (x & y) | (!x & z) }
  function G(x: word, y: word, z: word): word { (x & z) | (y & !z) }
  function H(x: word, y: word, z: word): word { x ^ y ^ z }
  function I(x: word, y: word, z: word): word { y ^ (x | !z) }

  /** The message words used in rounds 2, 3 and 4, as the standard lists them. */
  const ROUND2: seq<nat> := [1, 6, 11, 0, 5, 10, 15, 4, 9, 14, 3, 8, 13, 2, 7, 12]
  const ROUND3: seq<nat> := [5, 8, 11, 14, 1, 4, 7, 10, 13, 0, 3, 6, 9, 12, 15, 2]
  const ROUND4: seq<nat> := [0, 7, 14, 5, 12, 3, 10, 1, 8, 15, 6, 13, 4, 11, 2, 9]

  function Listed(i: nat): nat
    requires i < 64
  {
    if i < 16 then i else if i < 32 then ROUND2[i - 16] else if i < 48 then ROUND3[i - 32] else ROUND4[i - 48]
  }

  function Mix(i: nat, x: word, y: word, z: word): word {
    if i < 16 then F(x, y, z) else if i < 32 then G(x, y, z) else if i < 48 then H(x, y, z) else I(x, y, z)
  }

  /** The sum of two words. */
  function Plus(x: word, y: word): word {
    x + y
  }

  /** It is the sum modulo 2^32, seen in arithmetic of twice the width. */
  lemma {:induction false} PlusIs(x: word, y: word)
    ensures (x as bv64 + y as bv64) & 0xffff_ffff == Plus(x, y) as bv64
  {
  }

  /** `b + ((a + mixed + X[k] + T[i]) <<< s)`. */
  function Turned(a: word, b: word, mixed: word, x: word, k: word, s: nat): word
    requires s < 32
  {
    Plus(b, Plus(Plus(Plus(a, mixed), k), x).RotateLeft(s))
  }

  /** Two instances, one with a carry out of the word and a bit turned round. */
  lemma {:induction false} TurnedInstances()
    ensures Turned(1, 2, 4, 8, 16, 7) == 2 + 29 * 128
    ensures Turned(0x8000_0000, 0xffff_ffff, 0, 0, 0, 1) == 0
  {
  }

  function Operation(t: Tables, i: nat, a: word, b: word, c: word, d: word, M: seq<word>): word
    requires i < 64 && |M| == 16
  {
    ListedIs(i);
    Turned(a, b, Mix(i, b, c, d), M[Listed(i)], t.K[i], t.S[i])
  }

  /** One step: the registers change places after every operation. */
  function Step(t: Tables, i: nat, r: Regs, M: seq<word>): Regs
    requires i < 64 && |M| == 16
  {
    Regs(r.d, Operation(t, i, r.a, r.b, r.c, r.d, M), r.b, r.c)
  }

  /** The first `n` steps. */
  function Steps(t: Tables, n: nat, r: Regs, M: seq<word>): Regs
    requires n <= 64 && |M| == 16
  {
    if n == 0 then r else Step(t, n - 1, Steps(t, n - 1, r, M), M)
  }

  // The code's rounds

  lemma {:induction false} Round2Is(j: nat)
    requires j < 16
    ensures ROUND2[j] == (5 * (j + 16) + 1) % 16
  {
    assert j == 0 || j == 1 || j == 2 || j == 3 || j == 4 || j == 5 || j == 6 || j == 7
        || j == 8 || j == 9 || j == 10 || j == 11 || j == 12 || j == 13 || j == 14 || j == 15;
  }

  lemma {:induction false} Round3Is(j: nat)
    requires j < 16
    ensures ROUND3[j] == (3 * (j + 32) + 5) % 16
  {
    assert j == 0 || j == 1 || j == 2 || j == 3 || j == 4 || j == 5 || j == 6 || j == 7
        || j == 8 || j == 9 || j == 10 || j == 11 || j == 12 || j == 13 || j == 14 || j == 15;
  }

  lemma {:induction false} Round4Is(j: nat)
    requires j < 16
    ensures ROUND4[j] == (7 * (j + 48)) % 16
  {
    assert j == 0 || j == 1 || j == 2 || j == 3 || j == 4 || j == 5 || j == 6 || j == 7
        || j == 8 || j == 9 || j == 10 || j == 11 || j == 12 || j == 13 || j == 14 || j == 15;
  }

  /** The formulas for the message words give the listed order. */
  lemma {:induction false} ListedIs(i: nat)
    requires i < 64
    ensures Listed(i) == if i < 16 then i else if i < 32 then (5 * i + 1) % 16
                         else if i < 48 then (3 * i + 5) % 16 else (7 * i) % 16
  {
    if 16 <= i < 32 {
      Round2Is(i - 16);
    } else if 32 <= i < 48 {
      Round3Is(i - 32);
    } else if i >= 48 {
      Round4Is(i - 48);
    }
  }

  /** The code's forms of F and G are those of the standard for all words. */
  lemma {:induction false} BooleanForms(x: word, y: word, z: word)
    ensures z ^ (x & (y ^ z)) == F(x, y, z)
    ensures y ^ (z & (x ^ y)) == G(x, y, z)
  {
  }

  method RoundF(t: Tables, round: nat, a: word, b: word, c: word, d: word, M: seq<word>) returns (a': word)
    requires round < 16 && |M| == 16
    ensures a' == Operation(t, round, a, b, c, d, M)
  {
    BooleanForms(b, c, d);
    a' := Turned(a, b, d ^ (b & (c ^ d)), M[round], t.K[round], t.S[round]);
  }

  method RoundG(t: Tables, round: nat, a: word, b: word, c: word, d: word, M: seq<word>) returns (a': word)
    requires 16 <= round < 32 && |M| == 16
    ensures a' == Operation(t, round, a, b, c, d, M)
  {
    BooleanForms(b, c, d);
    ListedIs(round);
    a' := Turned(a, b, c ^ (d & (b ^ c)), M[(5 * round + 1) % 16], t.K[round], t.S[round]);
  }

  method RoundH(t: Tables, round: nat, a: word, b: word, c: word, d: word, M: seq<word>) returns (a': word)
    requires 32 <= round < 48 && |M| == 16
    ensures a' == Operation(t, round, a, b, c, d, M)
  {
    ListedIs(round);
    a' := Turned(a, b, b ^ c ^ d, M[(3 * round + 5) % 16], t.K[round], t.S[round]);
  }

  method RoundI(t: Tables, round: nat, a: word, b: word, c: word, d: word, M: seq<word>) returns (a': word)
    requires 48 <= round < 64 && |M| == 16
    ensures a' == Operation(t, round, a, b, c, d, M)
  {
    ListedIs(round);
    a' := Turned(a, b, c ^ (b | !d), M[(7 * round) % 16], t.K[round], t.S[round]);
  }

  /** Four steps bring every register back to its place. */
  lemma {:induction false} FourSteps(t: Tables, n: nat, r: Regs, M: seq<word>)
    requires n + 4 <= 64 && |M| == 16
    ensures var q := Steps(t, n, r, M);
            var a := Operation(t, n, q.a, q.b, q.c, q.d, M);
            var d := Operation(t, n + 1, q.d, a, q.b, q.c, M);
            var c := Operation(t, n + 2, q.c, d, a, q.b, M);
            var b := Operation(t, n + 3, q.b, c, d, a, M);
            Steps(t, n + 4, r, M) == Regs(a, b, c, d)
  {
    assert Steps(t, n + 2, r, M) == Step(t, n + 1, Step(t, n, Steps(t, n, r, M), M), M);
    assert Steps(t, n + 4, r, M) == Step(t, n + 3, Step(t, n + 2, Steps(t, n + 2, r, M), M), M);
  }

  method FourF(t: Tables, n: nat, ghost r: Regs, a0: word, b0: word, c0: word, d0: word, M: seq<word>)
    returns (a: word, b: word, c: word, d: word)
    requires n <= 12 && |M| == 16 && Regs(a0, b0, c0, d0) == Steps(t, n, r, M)
    ensures Regs(a, b, c, d) == Steps(t, n + 4, r, M)
  {
    FourSteps(t, n, r, M);
    a := RoundF(t, n, a0, b0, c0, d0, M);
    d := RoundF(t, n + 1, d0, a, b0, c0, M);
    c := RoundF(t, n + 2, c0, d, a, b0, M);
    b := RoundF(t, n + 3, b0, c, d, a, M);
  }

  method FourG(t: Tables, n: nat, ghost r: Regs, a0: word, b0: word, c0: word, d0: word, M: seq<word>)
    returns (a: word, b: word, c: word, d: word)
    requires 16 <= n <= 28 && |M| == 16 && Regs(a0, b0, c0, d0) == Steps(t, n, r, M)
    ensures Regs(a, b, c, d) == Steps(t, n + 4, r, M)
  {
    FourSteps(t, n, r, M);
    a := RoundG(t, n, a0, b0, c0, d0, M);
    d := RoundG(t, n + 1, d0, a, b0, c0, M);
    c := RoundG(t, n + 2, c0, d, a, b0, M);
    b := RoundG(t, n + 3, b0, c, d, a, M);
  }

  method FourH(t: Tables, n: nat, ghost r: Regs, a0: word, b0: word, c0: word, d0: word, M: seq<word>)
    returns (a: word, b: word, c: word, d: word)
    requires 32 <= n <= 44 && |M| == 16 && Regs(a0, b0, c0, d0) == Steps(t, n, r, M)
    ensures Regs(a, b, c, d) == Steps(t, n + 4, r, M)
  {
    FourSteps(t, n, r, M);
    a := RoundH(t, n, a0, b0, c0, d0, M);
    d := RoundH(t, n + 1, d0, a, b0, c0, M);
    c := RoundH(t, n + 2, c0, d, a, b0, M);
    b := RoundH(t, n + 3, b0, c, d, a, M);
  }

  method FourI(t: Tables, n: nat, ghost r: Regs, a0: word, b0: word, c0: word, d0: word, M: seq<word>)
    returns (a: word, b: word, c: word, d: word)
    requires 48 <= n <= 60 && |M| == 16 && Regs(a0, b0, c0, d0) == Steps(t, n, r, M)
    ensures Regs(a, b, c, d) == Steps(t, n + 4, r, M)
  {
    FourSteps(t, n, r, M);
    a := RoundI(t, n, a0, b0, c0, d0, M);
    d := RoundI(t, n + 1, d0, a, b0, c0, M);
    c := RoundI(t, n + 2, c0, d, a, b0, M);
    b := RoundI(t, n + 3, b0, c, d, a, M);
  }

  /** The 64 calls, in sixteen fours. */
  method AllRounds(t: Tables, r: Regs, M: seq<word>) returns (a: word, b: word, c: word, d: word)
    requires |M| == 16
    ensures Regs(a, b, c, d) == Steps(t, 64, r, M)
  {
    a, b, c, d := r.a, r.b, r.c, r.d;
    a, b, c, d := FourF(t, 0, r, a, b, c, d, M);
    a, b, c, d := FourF(t, 4, r, a, b, c, d, M);
    a, b, c, d := FourF(t, 8, r, a, b, c, d, M);
    a, b, c, d := FourF(t, 12, r, a, b, c, d, M);
    a, b, c, d := FourG(t, 16, r, a, b, c, d, M);
    a, b, c, d := FourG(t, 20, r, a, b, c, d, M);
    a, b, c, d := FourG(t, 24, r, a, b, c, d, M);
    a, b, c, d := FourG(t, 28, r, a, b, c, d, M);
    a, b, c, d := FourH(t, 32, r, a, b, c, d, M);
    a, b, c, d := FourH(t, 36, r, a, b, c, d, M);
    a, b, c, d := FourH(t, 40, r, a, b, c, d, M);
    a, b, c, d := FourH(t, 44, r, a, b, c, d, M);
    a, b, c, d := FourI(t, 48, r, a, b, c, d, M);
    a, b, c, d := FourI(t, 52, r, a, b, c, d, M);
    a, b, c, d := FourI(t, 56, r, a, b, c, d, M);
    a, b, c, d := FourI(t, 60, r, a, b, c, d, M);
  }

  // Blocks

  /** A byte as eight bits, counting up from zero. */
  function Bits(b: nat): bv8
    decreases b
  {
    if b == 0 then 0 else Bits(b - 1) + 1
  }

  function Join(a: bv8, b: bv8, c: bv8, d: bv8): word {
    a as bv32 | (b as bv32 << 8) | (c as bv32 << 16) | (d as bv32 << 24)
  }

  /** The four bytes at the front of `s` as a word in memory, low-order byte first. */
  function Word(s: seq<byte>): word
    requires |s| >= 4
  {
    Join(Bits(s[0] as nat), Bits(s[1] as nat), Bits(s[2] as nat), Bits(s[3] as nat))
  }

  lemma {:induction false} NextBits(x: bv8)
    requires x != 255
    ensures (x + 1) as nat == x as nat + 1
  {
  }

  lemma {:induction false} BitsBack(b: nat)
    requires b < 256
    ensures Bits(b) as nat == b
    decreases b
  {
    if b > 0 {
      BitsBack(b - 1);
      NextBits(Bits(b - 1));
    }
  }

  lemma {:induction false} Joined(a: bv8, b: bv8, c: bv8, d: bv8, w: word)
    requires w == a as bv32 | (b as bv32 << 8) | (c as bv32 << 16) | (d as bv32 << 24)
    ensures w as nat == a as nat + 0x100 * (b as nat) + 0x1_0000 * (c as nat) + 0x100_0000 * (d as nat)
  {
  }

  /** A message word has the value of its bytes, the first one lowest. */
  lemma {:induction false} WordValue(s: seq<byte>)
    requires |s| >= 4
    ensures Word(s) as nat == s[0] as nat + 0x100 * s[1] as nat + 0x1_0000 * s[2] as nat + 0x100_0000 * s[3] as nat
    ensures Word(s) as nat == LittleEndian(s[..4])
  {
    BitsBack(s[0] as nat);
    BitsBack(s[1] as nat);
    BitsBack(s[2] as nat);
    BitsBack(s[3] as nat);
    Joined(Bits(s[0] as nat), Bits(s[1] as nat), Bits(s[2] as nat), Bits(s[3] as nat), Word(s));
    FourBytes(s[..4]);
  }

  /** Message word number `i` is read at byte `4 * i`. */
  lemma {:induction false} WordsAt(s: seq<byte>, n: nat, i: nat)
    requires |s| >= 4 * n && i < n
    ensures Words(s, n)[i] == Word(s[4 * i..])
  {
    if i > 0 {
      WordsAt(s[4..], n - 1, i - 1);
      assert s[4..][4 * (i - 1)..] == s[4 * i..];
    }
  }

  function Words(s: seq<byte>, n: nat): (M: seq<word>)
    requires |s| >= 4 * n
    ensures |M| == n
  {
    if n == 0 then [] else [Word(s)] + Words(s[4..], n - 1)
  }

  function Add(r: Regs, q: Regs): Regs {
    Regs(Plus(r.a, q.a), Plus(r.b, q.b), Plus(r.c, q.c), Plus(r.d, q.d))
  }

  /** Each register is added to its own, with the carry out of the word dropped. */
  lemma {:induction false} AddInstance()
    ensures Add(Regs(1, 2, 3, 0xffff_ffff), Regs(0x10, 0x200, 0x3000, 1)) == Regs(0x11, 0x202, 0x3003, 0)
  {
  }

  lemma {:induction false} AddEach(r: Regs, q: Regs)
    ensures Add(r, q).a == Plus(r.a, q.a) && Add(r, q).b == Plus(r.b, q.b)
    ensures Add(r, q).c == Plus(r.c, q.c) && Add(r, q).d == Plus(r.d, q.d)
  {
  }

  /** Section 3.4 for one block: all 64 steps, then the old registers are added. */
  function Compress(t: Tables, r: Regs, block: seq<byte>): Regs
    requires |block| == 64
  {
    Add(r, Steps(t, 64, r, Words(block, 16)))
  }

  /** After the 64 steps every register has its value from before the block added to it. */
  lemma {:induction false} FeedForward(t: Tables, r: Regs, block: seq<byte>)
    requires |block| == 64
    ensures var p, q := Compress(t, r, block), Steps(t, 64, r, Words(block, 16));
            && p.a == Plus(r.a, q.a) && p.b == Plus(r.b, q.b) && p.c == Plus(r.c, q.c) && p.d == Plus(r.d, q.d)
  {
    AddEach(r, Steps(t, 64, r, Words(block, 16)));
  }

  type Compressor = BlockFunction<Regs>

  /** The compression as the buffering sees it; it never looks at the count. */
  function Compression(t: Tables): Compressor {
    (r: Regs, block: seq<byte>, before: nat) => if |block| == 64 then Compress(t, r, block) else r
  }

  lemma {:induction false} NeverCounts(t: Tables)
    ensures CountBlind(Compression(t))
  {
  }

  /** The callback: `numBlks` blocks are the same as that many single blocks one after another. */
  method TransformBlocks(t: Tables, h: Regs, data: seq<byte>, numBlks: nat) returns (h': Regs)
    requires |data| == 64 * numBlks
    ensures h' == Fold(Compression(t), h, data, 64, 0)
  {
    NeverCounts(t);
    h' := h;
    var blk := 0;
    while blk < numBlks
      invariant blk <= numBlks
      invariant Fold(Compression(t), h, data, 64, 0) == Fold(Compression(t), h', data[64 * blk..], 64, 0)
    {
      ghost var left := data[64 * blk..];
      var M := Words(data[64 * blk..64 * blk + 64], 16);
      var a, b, c, d := AllRounds(t, h', M);
      assert left[..64] == data[64 * blk..64 * blk + 64] && left[64..] == data[64 * (blk + 1)..];
      FoldUncounted(Compression(t), Compress(t, h', left[..64]), left[64..], 64, 64, 0);
      h' := Add(h', Regs(a, b, c, d));
      blk := blk + 1;
    }
  }

  // RFC 1321, sections 3.1 and 3.2

  /** The zeros after the 1-bit: as few as bring the length to 56 modulo 64. */
  function ZerosNeeded(n: nat): nat {
    if Mod(n, 64) < 56 then 55 - Mod(n, 64) else 119 - Mod(n, 64)
  }

  lemma {:induction false} FewestZeros(n: nat, z: nat)
    requires z < 64
    ensures Mod(n + 1 + z, 64) == 56 <==> z == ZerosNeeded(n)
  {
    Further(n, 1 + z, 64);
  }

  /** The length as 64 bits, low-order byte first. */
  function LengthField(bits: nat): (s: seq<byte>)
    ensures |s| == 8
  {
    LowBytes(Word64(bits), 8)
  }

  /** What follows the message: a 1-bit, zeros, and the length in bits modulo 2^64. */
  function Tail(n: nat): seq<byte> {
    [0x80] + ZeroBytes(ZerosNeeded(n)) + LengthField(8 * n)
  }

  function Padded(x: seq<byte>): seq<byte> {
    x + Tail(|x|)
  }

  /** The digest of the standard, before it is written out as bytes. */
  function Digest(f: Compressor, x: seq<byte>): Regs {
    Fold(f, IV, Padded(x), 64, 0)
  }

  /** The registers as they lie in memory. */
  function Output(r: Regs): seq<byte> {
    LowBytes(r.a as nat, 4) + LowBytes(r.b as nat, 4) + LowBytes(r.c as nat, 4) + LowBytes(r.d as nat, 4)
  }

  lemma {:induction false} SameWord(x: word, y: word)
    requires x as nat == y as nat
    ensures x == y
  {
    assert (x as nat) as bv32 == x && (y as nat) as bv32 == y;
  }

  lemma {:induction false} WordBack(x: word)
    ensures Word(LowBytes(x as nat, 4)) == x
  {
    EightBytes();
    LowBytesValue(x as nat, 4);
    WordValue(LowBytes(x as nat, 4));
    assert LowBytes(x as nat, 4)[..4] == LowBytes(x as nat, 4);
    SameWord(Word(LowBytes(x as nat, 4)), x);
  }

  lemma {:induction false} FourWords(p: seq<byte>, q: seq<byte>, r: seq<byte>, t: seq<byte>)
    requires |p| == |q| == |r| == |t| == 4
    ensures Words(p + q + r + t, 4) == [Word(p), Word(q), Word(r), Word(t)]
  {
    FrontWord(t, [], 0);
    assert t + [] == t;
    FrontWord(r, t, 1);
    FrontWord(q, r + t, 2);
    FrontWord(p, q + (r + t), 3);
    Regroup(p, q, r, t);
  }

  lemma {:induction false} Regroup(p: seq<byte>, q: seq<byte>, r: seq<byte>, t: seq<byte>)
    ensures p + (q + (r + t)) == p + q + r + t
  {
  }

  lemma {:induction false} FrontWord(b: seq<byte>, s: seq<byte>, n: nat)
    requires |b| == 4 && |s| >= 4 * n
    ensures Words(b + s, n + 1) == [Word(b)] + Words(s, n)
  {
    assert (b + s)[4..] == s;
    WordFrom(b, b + s);
  }

  lemma {:induction false} WordFrom(b: seq<byte>, s: seq<byte>)
    requires |b| == 4 && b <= s
    ensures Word(s) == Word(b)
  {
  }

  /** The digest's 16 bytes, read as words, are the registers in order. */
  lemma {:induction false} OutputReadsBack(r: Regs)
    ensures |Output(r)| == 16 && Words(Output(r), 4) == [r.a, r.b, r.c, r.d]
  {
    WordBack(r.a);
    WordBack(r.b);
    WordBack(r.c);
    WordBack(r.d);
    FourWords(LowBytes(r.a as nat, 4), LowBytes(r.b as nat, 4), LowBytes(r.c as nat, 4), LowBytes(r.d as nat, 4));
  }

  lemma {:induction false} WordOf(s: seq<byte>, w: word)
    requires |s| == 4
    requires s[0] as nat + 0x100 * s[1] as nat + 0x1_0000 * s[2] as nat + 0x100_0000 * s[3] as nat == w as nat
    ensures Word(s) == w
  {
    WordValue(s);
    SameWord(Word(s), w);
  }

  /** The initial registers are, byte by byte as they lie in memory, those of section 3.3. */
  lemma {:induction false} InitialBytes()
    ensures Words([0x01, 0x23, 0x45, 0x67] + [0x89, 0xab, 0xcd, 0xef] + [0xfe, 0xdc, 0xba, 0x98]
                  + [0x76, 0x54, 0x32, 0x10], 4) == [IV.a, IV.b, IV.c, IV.d]
  {
    WordOf([0x01, 0x23, 0x45, 0x67], 0x67452301);
    WordOf([0x89, 0xab, 0xcd, 0xef], 0xefcdab89);
    WordOf([0xfe, 0xdc, 0xba, 0x98], 0x98badcfe);
    WordOf([0x76, 0x54, 0x32, 0x10], 0x10325476);
    FourWords([0x01, 0x23, 0x45, 0x67], [0x89, 0xab, 0xcd, 0xef], [0xfe, 0xdc, 0xba, 0x98], [0x76, 0x54, 0x32, 0x10]);
  }

  /** What is appended to a message: the bytes of sections 3.1 and 3.2, and no more of them than
      needed. */
  lemma {:induction false} PaddedShape(x: seq<byte>)
    ensures var p := Padded(x); var n := |p|;
            && Mod(n, 64) == 0 && |x| + 9 <= n < |x| + 9 + 64
            && p[..|x|] == x && p[|x|] == 0x80
            && (forall i :: |x| < i < n - 8 ==> p[i] == 0)
            && LittleEndian(p[n - 8..]) == (8 * |x|) % 0x1_0000_0000_0000_0000
  {
    var p, zeros := Padded(x), ZerosNeeded(|x|);
    FewestZeros(|x|, zeros);
    Further(|x| + 1 + zeros, 8, 64);
    EightBytes();
    Word64Is(8 * |x|);
    LowBytesValue(Word64(8 * |x|), 8);
    assert p[|p| - 8..] == LengthField(8 * |x|);
    assert p[|x|..] == Tail(|x|);
  }

  /** The blocks still to be compressed once the first `done` bytes are. */
  lemma {:induction false} RestBlocks(x: seq<byte>, done: nat)
    requires done <= |x| && |x| - done == Mod(|x|, 64)
    ensures var p := |x| - done; var rest := x[done..] + Tail(|x|); var end := LengthField(8 * |x|);
            if p < 56 then rest == (x[done..] + [0x80]) + (ZeroBytes(55 - p) + end) && |rest| == 64
            else rest == (x[done..] + [0x80] + ZeroBytes(63 - p)) + (ZeroBytes(56) + end) && |rest| == 128
  {
  }

  lemma {:induction false} DigestFromRest(f: Compressor, x: seq<byte>, done: nat)
    requires done <= |x| && |x| - done == Mod(|x|, 64) && CountBlind(f)
    ensures Mod(done, 64) == 0
    ensures var rest := x[done..] + Tail(|x|); var h := Fold(f, IV, x[..done], 64, 0);
            && Digest(f, x) == Fold(f, h, rest, 64, 0)
            && (|rest| == 128 ==>
                  Digest(f, x)
                  == Fold(f, Fold(f, h, rest[..64], 64, 0), rest[64..], 64, 0))
  {
    RoundedDown(|x|, 64);
    var rest := x[done..] + Tail(|x|);
    assert Padded(x) == x[..done] + rest;
    FoldAppend(f, IV, x[..done], rest, 64, 0);
    var h := Fold(f, IV, x[..done], 64, 0);
    FoldUncounted(f, h, rest, 64, done, 0);
    if |rest| == 128 {
      assert rest == rest[..64] + rest[64..];
      assert Mod(64, 64) == Mod(0, 64);
      FoldAppend(f, h, rest[..64], rest[64..], 64, 0);
      FoldUncounted(f, Fold(f, h, rest[..64], 64, 0), rest[64..], 64, 64, 0);
    }
  }

  /** Compressing what is buffered, then zeros, then the length, in one or two blocks. */
  function Ending(f: Compressor, h: Regs, u: seq<byte>, length: seq<byte>): Regs
    requires |u| <= 64
  {
    if |u| > 56
    then Fold(f, Fold(f, h, u + ZeroBytes(64 - |u|), 64, 0), ZeroBytes(56) + length, 64, 0)
    else Fold(f, h, u + (ZeroBytes(56 - |u|) + length), 64, 0)
  }

  lemma {:induction false} EndingIsDigest(f: Compressor, x: seq<byte>, done: nat)
    requires done <= |x| && |x| - done == Mod(|x|, 64) && CountBlind(f)
    ensures Digest(f, x)
            == Ending(f, Fold(f, IV, x[..done], 64, 0), x[done..] + [0x80], LengthField(8 * |x|))
  {
    DigestFromRest(f, x, done);
    RestBlocks(x, done);
    var p, end := |x| - done, LengthField(8 * |x|);
    if p >= 56 {
      var first, last := x[done..] + [0x80] + ZeroBytes(63 - p), ZeroBytes(56) + end;
      assert (first + last)[..64] == first && (first + last)[64..] == last;
    }
  }

  // The object

  class Provider {
    const f: Compressor
    var H: Regs
    const m: array<byte>
    var pos: nat
    var total: nat
    /** What has been given to `Update` since `Init`. */
    ghost var input: seq<byte>

    ghost predicate Valid()
      reads this, m
    {
      CountBlind(f) && Absorbed(f, IV, input, 64, false, H, m[..], pos, total)
    }

    constructor (t: Tables)
      ensures Valid() && input == [] && f == Compression(t) && fresh(m)
    {
      f := Compression(t);
      NeverCounts(t);
      H, pos, total, input := IV, 0, 0, [];
      m := new byte[64];
    }

    method Init()
      requires m.Length == 64 && CountBlind(f)
      modifies this
      ensures Valid() && input == []
    {
      H, pos, total, input := IV, 0, 0, [];
    }

    method Update(data: seq<byte>)
      requires Valid()
      modifies this, m
      ensures Valid() && input == old(input) + data
    {
      H, pos, total := AbsorbBytes(f, H, data, 64, 64, m, pos, total, IV, input);
      input := input + data;
    }

    /** Fill the rest of the buffer from `pos` to `to` with zeros. */
    method Clear(from: nat, to: nat)
      requires from <= to <= m.Length
      modifies m
      ensures m[..] == old(m[..])[..from] + ZeroBytes(to - from) + old(m[..])[to..]
    {
      CopyIn(m, from, ZeroBytes(to - from));
    }

    method TransformOne(h: Regs) returns (h': Regs)
      requires m.Length == 64
      ensures h' == Fold(f, h, m[..], 64, 0)
    {
      assert m[..][..1 * 64] == m[..];
      h' := Transform(f, h, m[..], 1, 64, 0);
    }

    /** A last-but-one block when the length does not fit behind the 1-bit. */
    method FlushEnd()
      requires m.Length == 64 && 1 <= pos <= 64
      modifies `H, `pos, m
      ensures pos <= 56
      ensures var p := old(pos);
              if p > 56
              then pos == 0 && H == Fold(f, old(H), old(m[..])[..p] + ZeroBytes(64 - p), 64, 0)
              else pos == p && H == old(H) && m[..p] == old(m[..])[..p]
    {
      if pos > 56 {
        Clear(pos, 64);
        assert m[..] == old(m[..])[..old(pos)] + ZeroBytes(64 - old(pos));
        H := TransformOne(H);
        pos := 0;
      }
    }

    /** The last block: zeros up to the length, then the length. */
    method LastBlock()
      requires m.Length == 64 && pos <= 56
      modifies `H, m
      ensures H == Fold(f, old(H), old(m[..])[..pos] + (ZeroBytes(56 - pos) + LowBytes(total, 8)), 64, 0)
    {
      Clear(pos, 56);
      CopyIn(m, 56, LowBytes(total, 8));
      assert m[..] == old(m[..])[..pos] + (ZeroBytes(56 - pos) + LowBytes(total, 8));
      H := TransformOne(H);
    }

    method EndBlocks()
      requires m.Length == 64 && 1 <= pos <= 64
      modifies `H, `pos, m
      ensures H == Ending(f, old(H), old(m[..])[..old(pos)], LowBytes(total, 8))
    {
      FlushEnd();
      ghost var u := m[..pos];
      LastBlock();
      assert pos == 0 ==> u + (ZeroBytes(56) + LowBytes(total, 8)) == ZeroBytes(56) + LowBytes(total, 8);
    }

    /** Count what is buffered and put the 1-bit behind it. */
    method MarkEnd()
      requires Valid()
      modifies `total, `pos, m
      ensures total == Word64(8 * |input|) && pos == Mod(|input|, 64) + 1
      ensures m[..pos] == input[|input| - Mod(|input|, 64)..] + [0x80]
    {
      Word64Add(8 * (|input| - pos), 8 * pos);
      total := Word64(total + pos * 8);
      m[pos] := 0x80;
      pos := pos + 1;
    }

    /** `final`: the digest of everything given to `Update`, however it was split. */
    method Final() returns (hash: seq<byte>)
      requires Valid()
      modifies this, m
      ensures hash == Output(Digest(f, old(input)))
    {
      EndingIsDigest(f, input, |input| - pos);
      MarkEnd();
      EndBlocks();
      hash := Output(H);
    }
  }

  /** The message in any number of updates gives the digest of the standard. */
  method HashParts(t: Tables, parts: seq<seq<byte>>) returns (hash: seq<byte>)
    ensures hash == Output(Digest(Compression(t), Flatten(parts)))
  {
    var provider := new Provider(t);
    assert parts[..0] == [];
    for i := 0 to |parts|
      invariant provider.Valid() && provider.f == Compression(t) && provider.input == Flatten(parts[..i])
      invariant fresh(provider) && fresh(provider.m)
    {
      provider.Update(parts[i]);
      assert parts[..i + 1][..i] == parts[..i];
    }
    assert parts[..|parts|] == parts;
    hash := provider.Final();
  }
}
