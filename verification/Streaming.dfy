/** Buffering of a byte stream into blocks (`detail/absorb_data.hpp`), shared by the hashes.

    A hash is a chaining value of type `S` and a compression `f(h, block, before)`, where
    `before` is the number of bytes compressed earlier as the code counts them. */
module Streaming {
  import opened Modular
  import opened Widths
  import opened Sequences

  newtype byte = b: int | 0 <= b < 256

  /** Chaining value, block and number of bytes before it to the next chaining value. */
  type BlockFunction<!S> = (S, seq<byte>, nat) -> S

  /** A 64-bit unsigned value. */
  function Word64(n: nat): (r: nat)
    ensures r < TWO64
  {
    Mod(n, TWO64)
  }

  lemma {:induction false} Word64Add(a: nat, b: nat)
    ensures Word64(Word64(a) + b) == Word64(a + b)
  {
    if a >= TWO64 {
      Word64Add(a - TWO64, b);
    }
  }

  // Bytes

  function ZeroBytes(n: nat): (z: seq<byte>)
    ensures |z| == n
  {
    seq(n, _ => 0)
  }

  function Pow256(i: nat): (p: nat)
    ensures p > 0
  {
    if i == 0 then 1 else 256 * Pow256(i - 1)
  }

  /** The `k` low-order bytes of `n`, the lowest first. */
  function LowBytes(n: nat, k: nat): (s: seq<byte>)
    ensures |s| == k
  {
    seq(k, i requires 0 <= i < k => (Shifted(n, i) - 256 * Shifted(n, i + 1)) as byte)
  }

  /** `n >> (8 * i)`. */
  function Shifted(n: nat, i: nat): nat {
    if i == 0 then n else Shifted(n, i - 1) / 256
  }

  lemma {:induction false} ShiftedNext(n: nat, i: nat)
    ensures Shifted(n, i + 1) == Shifted(n / 256, i)
  {
    if i > 0 {
      ShiftedNext(n, i - 1);
    }
  }

  /** The number that bytes denote when the first one is the lowest. */
  function LittleEndian(s: seq<byte>): nat {
    if s == [] then 0 else s[0] as nat + 256 * LittleEndian(s[1..])
  }

  /** The weights of four bytes. */
  lemma {:induction false} FourBytes(s: seq<byte>)
    requires |s| == 4
    ensures LittleEndian(s) == s[0] as nat + 0x100 * s[1] as nat + 0x1_0000 * s[2] as nat + 0x100_0000 * s[3] as nat
  {
    assert s[1..][1..] == s[2..] && s[2..][1..] == s[3..] && s[3..][1..] == [];
    assert LittleEndian(s[3..]) == s[3] as nat;
    assert LittleEndian(s[2..]) == s[2] as nat + 256 * LittleEndian(s[3..]);
    assert LittleEndian(s[1..]) == s[1] as nat + 256 * LittleEndian(s[2..]);
  }

  /** The low-order bytes of a number that fits are read back as that number. */
  lemma {:induction false} LowBytesValue(n: nat, k: nat)
    requires n < Pow256(k)
    ensures LittleEndian(LowBytes(n, k)) == n
  {
    if k > 0 {
      forall i | 0 <= i < k - 1 ensures LowBytes(n, k)[1..][i] == LowBytes(n / 256, k - 1)[i] {
        ShiftedNext(n, i);
        ShiftedNext(n, i + 1);
      }
      assert LowBytes(n, k)[1..] == LowBytes(n / 256, k - 1);
      assert Shifted(n, 1) == n / 256;
      LowBytesValue(n / 256, k - 1);
    }
  }

  lemma {:induction false} EightBytes()
    ensures Pow256(4) == 0x1_0000_0000 && Pow256(8) == TWO64 == 0x1_0000_0000_0000_0000
  {
    assert Pow256(2) == 0x1_0000;
    assert Pow256(4) == 0x1_0000_0000;
    assert Pow256(6) == 0x1_0000_0000_0000;
  }

  lemma {:induction false} AllZero(n: nat, i: nat)
    requires i < n
    ensures ZeroBytes(n)[i] == 0
  {
  }

  /** The 64-bit value is the number modulo 2^64. */
  lemma {:induction false} Word64Is(n: nat)
    ensures Word64(n) == n % 0x1_0000_0000_0000_0000
  {
    ModIsRemainder(n, TWO64);
  }

  // Blocks

  /** The blocks of `data` compressed one after another; an incomplete last block is ignored. */
  function Fold<S>(f: BlockFunction<S>, h: S, data: seq<byte>, bs: pos, before: nat): S
    decreases |data|
  {
    if |data| < bs then h else Fold(f, f(h, data[..bs], before), data[bs..], bs, before + bs)
  }

  /** How many of `n` bytes stay in the buffer: what does not fill a block, but in lazy mode at
      least one byte, so that the last block is never compressed early. */
  function Kept(n: nat, bs: pos, lazy: bool): (k: nat)
    ensures k <= n && k <= bs && (!lazy ==> k < bs)
  {
    if lazy && n > 0 then Mod(n - 1, bs) + 1 else Mod(n, bs)
  }

  // The state after the bytes `x`

  /** The first `done` bytes of `x` are compressed or counted as such, the rest is buffered. */
  ghost predicate Buffered(x: seq<byte>, done: nat, bs: pos, m: seq<byte>, pos: nat, total: nat) {
    && done <= |x| && Mod(done, bs) == 0 && |m| == bs
    && pos == |x| - done <= bs && m[..pos] == x[done..]
    && total == Word64(8 * done)
  }

  /** The state depends on the bytes absorbed only, not on how they were split into calls. */
  ghost predicate Absorbed<S(!new)>(f: BlockFunction<S>, h0: S, x: seq<byte>, bs: pos, lazy: bool,
                              h: S, m: seq<byte>, pos: nat, total: nat)
  {
    var done := |x| - Kept(|x|, bs, lazy);
    && Buffered(x, done, bs, m, pos, total)
    && (Counted(f, |x|) ==> h == Fold(f, h0, x[..done], bs, 0))
  }

  /** The compression does not look at the number of bytes. */
  ghost predicate CountBlind<S(!new)>(f: BlockFunction<S>) {
    forall h, b, t, t' :: f(h, b, t) == f(h, b, t')
  }

  /** The code's bit counter has not wrapped round, or the compression does not look at it. */
  ghost predicate Counted<S(!new)>(f: BlockFunction<S>, n: nat) {
    8 * n < TWO64 || CountBlind(f)
  }

  lemma {:induction false} FoldAppend<S>(f: BlockFunction<S>, h: S, a: seq<byte>, b: seq<byte>, bs: pos, t: nat)
    requires Mod(|a|, bs) == 0
    ensures Fold(f, h, a + b, bs, t) == Fold(f, Fold(f, h, a, bs, t), b, bs, t + |a|)
    decreases |a|
  {
    if |a| >= bs {
      assert (a + b)[..bs] == a[..bs] && (a + b)[bs..] == a[bs..] + b;
      FoldAppend(f, f(h, a[..bs], t), a[bs..], b, bs, t + bs);
    } else {
      assert a == [] && a + b == b;
    }
  }

  lemma {:induction false} FoldFirst<S>(f: BlockFunction<S>, h: S, x: seq<byte>, done: nat, bs: pos, t: nat)
    requires bs <= done <= |x|
    ensures Fold(f, h, x[..done], bs, t) == Fold(f, f(h, x[..bs], t), x[bs..][..done - bs], bs, t + bs)
  {
    assert x[..done][..bs] == x[..bs] && x[..done][bs..] == x[bs..][..done - bs];
  }

  lemma {:induction false} NothingAbsorbed<S(!new)>(f: BlockFunction<S>, h0: S, bs: pos, lazy: bool, m: seq<byte>)
    requires |m| == bs
    ensures Absorbed(f, h0, [], bs, lazy, h0, m, 0, 0)
  {
  }

  lemma {:induction false} FoldUncounted<S(!new)>(f: BlockFunction<S>, h: S, data: seq<byte>, bs: pos, t: nat, t': nat)
    requires CountBlind(f)
    ensures Fold(f, h, data, bs, t) == Fold(f, h, data, bs, t')
    decreases |data|
  {
    if |data| >= bs {
      assert f(h, data[..bs], t) == f(h, data[..bs], t');
      FoldUncounted(f, f(h, data[..bs], t), data[bs..], bs, t + bs, t' + bs);
    }
  }

  /** With the code's own counter at `done` bytes the next blocks get the true counts. */
  lemma {:induction false} FoldCounted<S(!new)>(f: BlockFunction<S>, h: S, data: seq<byte>, bs: pos, done: nat, n: nat)
    requires Counted(f, n) && done <= n
    ensures Fold(f, h, data, bs, Word64(8 * done) / 8) == Fold(f, h, data, bs, done)
  {
    if 8 * n >= TWO64 {
      FoldUncounted(f, h, data, bs, Word64(8 * done) / 8, done);
    }
  }

  /** Whole blocks done and at most a block left over: the left-over is `Kept`. */
  lemma {:induction false} KeptIs(done: nat, k: nat, bs: pos, lazy: bool)
    requires Mod(done, bs) == 0
    requires if lazy then k <= bs && (k == 0 ==> done == 0) else k < bs
    ensures Kept(done + k, bs, lazy) == k
  {
    if done >= bs {
      KeptIs(done - bs, k, bs, lazy);
      assert Mod(done + k, bs) == Mod(done + k - bs, bs);
      if lazy && k > 0 {
        assert Mod(done + k - 1, bs) == Mod(done + k - 1 - bs, bs);
      }
    }
  }

  lemma {:induction false} WholeBlocks(a: nat, bs: pos)
    ensures (a / bs) * bs == a - Mod(a, bs) && Mod((a / bs) * bs, bs) == 0
    decreases a
  {
    ModIsRemainder(a, bs);
    QuotientRemainder(a, bs);
    RoundedDown(a, bs);
  }

  lemma {:induction false} RoundedDown(a: nat, bs: pos)
    ensures Mod(a - Mod(a, bs), bs) == 0
  {
    if a >= bs {
      RoundedDown(a - bs, bs);
    }
  }

  lemma {:induction false} SumOfBlocks(a: nat, b: nat, bs: pos)
    requires Mod(a, bs) == 0 && Mod(b, bs) == 0
    ensures Mod(a + b, bs) == 0
  {
    if a >= bs {
      SumOfBlocks(a - bs, b, bs);
    }
  }

  // The code

  /** The callback: `blocks` blocks of `data`, compressed in a loop. */
  method Transform<S>(f: BlockFunction<S>, h: S, data: seq<byte>, blocks: nat, bs: pos, total: nat)
    returns (h': S)
    requires blocks * bs <= |data|
    ensures h' == Fold(f, h, data[..blocks * bs], bs, total / 8)
  {
    h' := h;
    ghost var left := data[..blocks * bs];
    var at, blk := 0, 0;
    while blk < blocks
      invariant blk <= blocks && at == blk * bs <= blocks * bs && left == data[at..blocks * bs]
      invariant Fold(f, h, data[..blocks * bs], bs, total / 8) == Fold(f, h', left, bs, total / 8 + at)
    {
      OneMore(blk, blocks, bs);
      assert left[..bs] == data[at..at + bs] && left[bs..] == data[at + bs..blocks * bs];
      h' := f(h', data[at..at + bs], total / 8 + at);
      left := left[bs..];
      at, blk := at + bs, blk + 1;
    }
    assert left == [];
  }

  lemma {:induction false} OneMore(blk: nat, blocks: nat, bs: pos)
    requires blk < blocks
    ensures (blk + 1) * bs == blk * bs + bs <= blocks * bs
    decreases blocks
  {
    assert (blk + 1) * bs == blk * bs + bs;
    if blk + 1 < blocks {
      OneMore(blk, blocks - 1, bs);
      assert blocks * bs == (blocks - 1) * bs + bs;
    }
  }

  /** `memset(m + from, 0, |m| - from)`. */
  method ClearFrom(m: array<byte>, from: nat)
    requires from <= m.Length
    modifies m
    ensures m[..] == old(m[..from]) + ZeroBytes(m.Length - from)
  {
    forall i | from <= i < m.Length {
      m[i] := 0;
    }
  }

  /** `memcpy(m + pos, data, |data|)`. */
  method CopyIn(m: array<byte>, pos: nat, data: seq<byte>)
    requires pos + |data| <= m.Length
    modifies m
    ensures m[..] == old(m[..])[..pos] + data + old(m[..])[pos + |data|..]
  {
    forall i | 0 <= i < |data| {
      m[pos + i] := data[i];
    }
  }

  /** Intermediate state: `done` bytes of `x` compressed, the rest buffered. */
  ghost predicate Midway<S(!new)>(f: BlockFunction<S>, h0: S, x: seq<byte>, done: nat, n: nat, bs: pos,
                                  h: S, m: seq<byte>, pos: nat, total: nat)
  {
    && Buffered(x, done, bs, m, pos, total)
    && (Counted(f, n) && |x| <= n ==> h == Fold(f, h0, x[..done], bs, 0))
  }

  /** Compressing more whole blocks: those of `more`, when nothing else is in front of them. */
  lemma {:induction false} CompressMore<S(!new)>(f: BlockFunction<S>, h0: S, x: seq<byte>, done: nat, n: nat, bs: pos,
                                                 h: S, total: nat, more: seq<byte>)
    requires done <= |x| && Mod(done, bs) == 0 && total == Word64(8 * done) && Mod(|more|, bs) == 0
    requires Counted(f, n) && |x| <= n ==> h == Fold(f, h0, x[..done], bs, 0)
    ensures Word64(total + 8 * |more|) == Word64(8 * (done + |more|))
    ensures Counted(f, n) && |x| <= n ==>
              Fold(f, h, more, bs, total / 8) == Fold(f, h0, x[..done] + more, bs, 0)
    ensures Mod(done + |more|, bs) == 0
  {
    Word64Add(8 * done, 8 * |more|);
    SumOfBlocks(done, |more|, bs);
    if Counted(f, n) && |x| <= n {
      FoldCounted(f, h, more, bs, done, n);
      FoldAppend(f, h0, x[..done], more, bs, 0);
    }
  }

  lemma {:induction false} AbsorbedIsMidway<S(!new)>(f: BlockFunction<S>, h0: S, x: seq<byte>, n: nat, bs: pos,
                                                     lazy: bool, h: S, m: seq<byte>, pos: nat, total: nat)
    requires Absorbed(f, h0, x, bs, lazy, h, m, pos, total) && |x| <= n
    ensures pos <= |x| && Midway(f, h0, x, |x| - pos, n, bs, h, m, pos, total)
    ensures if lazy then pos > 0 || x == [] else pos < bs
  {
  }

  /** Fill the buffer up, compress it, start again with an empty buffer. */
  method FlushBuffer<S(!new)>(f: BlockFunction<S>, h: S, data: seq<byte>, bs: pos, m: array<byte>, pos: nat,
                              total: nat, ghost h0: S, ghost x: seq<byte>, ghost n: nat)
    returns (h': S, data': seq<byte>, total': nat, ghost x': seq<byte>)
    requires pos <= |x| && Midway(f, h0, x, |x| - pos, n, bs, h, m[..], pos, total) && pos + |data| >= bs
    requires |x| + |data| <= n
    modifies m
    ensures x' + data' == x + data && |data'| == |data| - (bs - pos)
    ensures Midway(f, h0, x', |x'|, n, bs, h', m[..], 0, total')
  {
    ghost var done := |x| - pos;
    CopyIn(m, pos, data[..bs - pos]);
    assert m[..] == x[done..] + data[..bs - pos];
    assert m[..][..1 * bs] == m[..];
    h' := Transform(f, h, m[..], 1, bs, total);
    total' := Word64(total + bs * 8);
    assert Mod(bs, bs) == Mod(0, bs);
    CompressMore(f, h0, x, done, n, bs, h, total, m[..]);
    x', data' := x + data[..bs - pos], data[bs - pos..];
    assert x[..done] + m[..] == x' == x'[..|x'|];
  }

  /** Compress the whole blocks of `data` that need not stay behind. */
  method CompressBlocks<S(!new)>(f: BlockFunction<S>, h: S, data: seq<byte>, bs: pos, bschk: nat,
                                 ghost m: seq<byte>, total: nat, ghost h0: S, ghost x: seq<byte>, ghost n: nat)
    returns (h': S, data': seq<byte>, total': nat, ghost x': seq<byte>)
    requires bs <= bschk <= bs + 1 && bschk <= |data|
    requires Midway(f, h0, x, |x|, n, bs, h, m, 0, total) && |x| + |data| <= n
    ensures x' + data' == x + data && |data'| == Kept(|data|, bs, bschk > bs)
    ensures Midway(f, h0, x', |x'|, n, bs, h', m, 0, total')
  {
    var blocks := (|data| + bs - bschk) / bs;
    WholeBlocks(|data| + bs - bschk, bs);
    var bytes := blocks * bs;
    assert bytes <= |data|;
    h' := Transform(f, h, data, blocks, bs, total);
    total' := Word64(total + bytes * 8);
    CompressMore(f, h0, x, |x|, n, bs, h, total, data[..bytes]);
    x', data' := x + data[..bytes], data[bytes..];
    assert x[..|x|] + data[..bytes] == x' == x'[..|x'|];
  }

  /** What is left goes into the buffer. */
  method BufferRest<S(!new)>(f: BlockFunction<S>, ghost h: S, data: seq<byte>, ghost bs: pos, ghost bschk: nat,
                       m: array<byte>, pos: nat, ghost total: nat, ghost h0: S, ghost x: seq<byte>, ghost n: nat)
    returns (pos': nat)
    requires bs <= bschk <= bs + 1 && n == |x + data|
    requires pos <= |x| && Midway(f, h0, x, |x| - pos, n, bs, h, m[..], pos, total)
    requires pos + |data| < bschk && (bschk > bs && pos + |data| == 0 ==> x == [])
    modifies m
    ensures Absorbed(f, h0, x + data, bs, bschk > bs, h, m[..], pos', total)
  {
    ghost var before, done := m[..], |x| - pos;
    CopyIn(m, pos, data);
    pos' := pos + |data|;
    assert m[..pos'] == before[..pos] + data == (x + data)[done..];
    assert (x + data)[..done] == x[..done];
    KeptIs(done, pos', bs, bschk > bs);
  }

  /** `absorb_bytes`: from the state after `x` to the state after `x + data`. */
  method AbsorbBytes<S(!new)>(f: BlockFunction<S>, h: S, data: seq<byte>, bs: pos, bschk: nat,
                              m: array<byte>, pos: nat, total: nat, ghost h0: S, ghost x: seq<byte>)
    returns (h': S, pos': nat, total': nat)
    requires bs <= bschk <= bs + 1
    requires Absorbed(f, h0, x, bs, bschk > bs, h, m[..], pos, total)
    modifies m
    ensures Absorbed(f, h0, x + data, bs, bschk > bs, h', m[..], pos', total')
  {
    var data' := data;
    h', pos', total' := h, pos, total;
    ghost var n, x' := |x + data|, x;
    AbsorbedIsMidway(f, h0, x, n, bs, bschk > bs, h, m[..], pos, total);
    if pos' != 0 && pos' + |data'| >= bschk {
      h', data', total', x' := FlushBuffer(f, h', data', bs, m, pos', total', h0, x', n);
      pos' := 0;
    }
    if |data'| >= bschk {
      h', data', total', x' := CompressBlocks(f, h', data', bs, bschk, m[..], total', h0, x', n);
    }
    pos' := BufferRest(f, h', data', bs, bschk, m, pos', total', h0, x', n);
  }

  /** A stream given in any number of calls, starting from scratch. */
  method AbsorbAll<S(!new)>(f: BlockFunction<S>, h0: S, parts: seq<seq<byte>>, bs: pos, bschk: nat, m: array<byte>)
    returns (h: S, pos: nat, total: nat)
    requires bs <= bschk <= bs + 1 && m.Length == bs
    modifies m
    ensures Absorbed(f, h0, Flatten(parts), bs, bschk > bs, h, m[..], pos, total)
  {
    h, pos, total := h0, 0, 0;
    var i := 0;
    assert parts[..0] == [];
    while i < |parts|
      invariant i <= |parts|
      invariant Absorbed(f, h0, Flatten(parts[..i]), bs, bschk > bs, h, m[..], pos, total)
    {
      h, pos, total := AbsorbBytes(f, h, parts[i], bs, bschk, m, pos, total, h0, Flatten(parts[..i]));
      assert parts[..i + 1][..i] == parts[..i];
      i := i + 1;
    }
    assert parts[..i] == parts;
  }

  // What is compressed

  /** A compression that only keeps a log of what it was given. */
  function Record(log: seq<(seq<byte>, nat)>, block: seq<byte>, before: nat): seq<(seq<byte>, nat)> {
    log + [(block, before)]
  }

  function Bytes(log: seq<(seq<byte>, nat)>): seq<byte> {
    if log == [] then [] else Bytes(log[..|log| - 1]) + log[|log| - 1].0
  }

  /** Every block has `bs` bytes and is counted with the bytes in front of it. */
  ghost predicate Numbered(log: seq<(seq<byte>, nat)>, bs: pos) {
    log != [] ==>
      var before := log[..|log| - 1];
      && Numbered(before, bs)
      && |log[|log| - 1].0| == bs && log[|log| - 1].1 == |Bytes(before)|
  }

  /** The blocks compressed are the input cut into pieces of `bs` bytes, none lost, repeated or
      out of order, each with the right count. */
  lemma {:induction false} BlocksAreTheInput(data: seq<byte>, log: seq<(seq<byte>, nat)>, bs: pos)
    requires Mod(|data|, bs) == 0 && Numbered(log, bs)
    ensures var log' := Fold(Record, log, data, bs, |Bytes(log)|);
            Bytes(log') == Bytes(log) + data && Numbered(log', bs)
    decreases |data|
  {
    if |data| >= bs {
      var log' := Record(log, data[..bs], |Bytes(log)|);
      assert log'[..|log'| - 1] == log;
      BlocksAreTheInput(data[bs..], log', bs);
      assert data[..bs] + data[bs..] == data;
    }
  }
}
