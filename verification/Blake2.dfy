/** BLAKE2 in hash mode (`algorithm/detail/blake2_provider.hpp`) against RFC 7693: which
    blocks are compressed, with which counters and which final flag. The mixing of a block is
    a parameter. */
module Blake2 {
  import opened Options
  import opened Modular
  import opened Widths
  import opened Sequences
  import opened Streaming

  /** Blake2b has 64-bit words and `N == 512`, Blake2s 32-bit words and `N == 256`. */
  datatype Variant = Blake2b | Blake2s {
    function N(): nat { if Blake2b? then 512 else 256 }
    function Block(): pos { if Blake2b? then 128 else 64 }
  }

  /** `F(h, block, t, last)`; how `t` enters as two words is `CounterWords`. */
  type Mixing<!S> = (S, seq<byte>, nat, bool) -> S

  /** Blocks have 128 and 64 bytes, keys at most 64 and 32. */
  lemma {:induction false} VariantSizes()
    ensures Blake2b.Block() == Blake2b.N() / 4 == 128 && Blake2b.N() / 8 == 64
    ensures Blake2s.Block() == Blake2s.N() / 4 == 64 && Blake2s.N() / 8 == 32
  {
  }

  // RFC 7693

  /** Section 3.3: all blocks but the last with the bytes up to their end, the last one padded
      with zeros, with the number of all bytes and the final flag. */
  function Reference<S>(v: Variant, F: Mixing<S>, h: S, x: seq<byte>, t: nat): S
    decreases |x|
  {
    if |x| <= v.Block() then F(h, x + ZeroBytes(v.Block() - |x|), t + |x|, true)
    else Reference(v, F, F(h, x[..v.Block()], t + v.Block(), false), x[v.Block()..], t + v.Block())
  }

  /** A key is a block of its own in front of the message. */
  function Keyed(v: Variant, key: seq<byte>, message: seq<byte>): seq<byte>
    requires |key| <= v.Block()
  {
    (if key == [] then [] else key + ZeroBytes(v.Block() - |key|)) + message
  }

  /** Without a key there is only the message; otherwise the first block is the key with zeros
      behind it, and the message follows. */
  lemma {:induction false} KeyedShape(v: Variant, key: seq<byte>, message: seq<byte>)
    requires |key| <= v.Block()
    ensures key == [] ==> Keyed(v, key, message) == message
    ensures key != [] ==>
              var x := Keyed(v, key, message);
              && key <= x && |x| == v.Block() + |message| && x[v.Block()..] == message
              && forall i :: |key| <= i < v.Block() ==> x[i] == 0
  {
  }

  // The code

  /** The two counter words as `transform` computes them from a 64-bit count: the second one is
      never set for 64-bit words. */
  function CounterWords(v: Variant, t: nat): (nat, nat) {
    if v.Blake2b? then (t % TWO64, 0) else (t % TWO32, (t / TWO32) % TWO32)
  }

  /** They are the low-order and the high-order word of the standard's offset counter. */
  lemma {:induction false} CounterWordsExact(v: Variant, t: nat)
    requires t < TWO64
    ensures var (t0, t1) := CounterWords(v, t);
            if v.Blake2b? then t0 < TWO64 && t0 + TWO64 * t1 == t else t0 < TWO32 && t1 < TWO32 && t0 + TWO32 * t1 == t
  {
  }

  /** The callback of `update`: the 64-bit count includes the block itself. */
  function Updating<S>(v: Variant, F: Mixing<S>): BlockFunction<S> {
    (h: S, block: seq<byte>, before: nat) => F(h, block, Word64(before + v.Block()), false)
  }

  /** Compressing all whole blocks but the last, then the padded last one, is the standard's
      computation. */
  lemma {:induction false} LastBlockLast<S(!new)>(v: Variant, F: Mixing<S>, h: S, x: seq<byte>, done: nat, t: nat)
    requires done <= |x| && Mod(done, v.Block()) == 0 && |x| - done <= v.Block() && (x != [] ==> done < |x|)
    requires t + |x| < TWO64
    ensures var u := x[done..];
            Reference(v, F, h, x, t)
            == F(Fold(Updating(v, F), h, x[..done], v.Block(), t), u + ZeroBytes(v.Block() - |u|), t + |x|, true)
    decreases |x|
  {
    var bs := v.Block();
    if |x| <= bs {
      assert done == 0;
      assert x[done..] == x && x[..done] == [];
    } else {
      var h' := F(h, x[..bs], t + bs, false);
      assert Word64(t + bs) == t + bs;
      assert done >= bs;
      FoldFirst(Updating(v, F), h, x, done, bs, t);
      LastBlockLast(v, F, h', x[bs..], done - bs, t + bs);
      assert x[bs..][done - bs..] == x[done..];
    }
  }

  /** The same from the state the buffering leaves behind. */
  lemma {:induction false} AbsorbedLast<S(!new)>(v: Variant, F: Mixing<S>, h0: S, x: seq<byte>,
                                                h: S, m: seq<byte>, pos: nat, total: nat)
    requires Absorbed(Updating(v, F), h0, x, v.Block(), true, h, m, pos, total) && 8 * |x| < TWO64
    ensures F(h, m[..pos] + ZeroBytes(v.Block() - pos), |x|, true) == Reference(v, F, h0, x, 0)
  {
    LastBlockLast(v, F, h0, x, |x| - pos, 0);
  }

  /** A count of bytes kept as bits in 64 bits is right exactly when the bits fit. */
  lemma {:induction false} BitsFit(n: nat)
    ensures Word64(8 * n) / 8 == n <==> 8 * n < TWO64
  {
  }

  // What the standard's computation shows to the mixing

  datatype Call = Call(block: seq<byte>, t: nat, last: bool)

  function Log(calls: seq<Call>, block: seq<byte>, t: nat, last: bool): seq<Call> {
    calls + [Call(block, t, last)]
  }

  function BlocksOf(calls: seq<Call>): seq<byte> {
    if calls == [] then [] else BlocksOf(calls[..|calls| - 1]) + calls[|calls| - 1].block
  }

  /** No call has the final flag, and each has the bytes up to the end of its block. */
  ghost predicate NoneLast(v: Variant, calls: seq<Call>) {
    calls != [] ==>
      var n := |calls| - 1;
      NoneLast(v, calls[..n]) && !calls[n].last && |calls[n].block| == v.Block() && calls[n].t == |BlocksOf(calls)|
  }

  /** Exactly the last call has the final flag; the counters are right; the blocks are the input
      `y` and less than a block of padding (a whole one when there is no input). */
  ghost predicate Finished(v: Variant, y: seq<byte>, r: seq<Call>) {
    && r != []
    && var n := |r| - 1;
       && NoneLast(v, r[..n]) && r[n].last && r[n].t == |y|
       && Padded(v, y, BlocksOf(r))
  }

  ghost predicate Padded(v: Variant, y: seq<byte>, blocks: seq<byte>) {
    && |y| <= |blocks| && blocks == y + ZeroBytes(|blocks| - |y|)
    && |blocks| - |y| <= if y == [] then v.Block() else v.Block() - 1
  }

  lemma {:induction false} OneLast(v: Variant, calls: seq<Call>, x: seq<byte>)
    requires NoneLast(v, calls) && (x == [] ==> calls == [])
    ensures Finished(v, BlocksOf(calls) + x, Reference(v, Log, calls, x, |BlocksOf(calls)|))
    decreases |x|
  {
    var bs, t := v.Block(), |BlocksOf(calls)|;
    if |x| <= bs {
      LastCall(v, calls, x);
    } else {
      NextCall(v, calls, x[..bs]);
      OneLast(v, Log(calls, x[..bs], t + bs, false), x[bs..]);
      Rejoin(BlocksOf(calls), x, bs);
    }
  }

  lemma {:induction false} Rejoin(a: seq<byte>, x: seq<byte>, n: nat)
    requires n <= |x|
    ensures a + x[..n] + x[n..] == a + x
  {
  }

  lemma {:induction false} NextCall(v: Variant, calls: seq<Call>, block: seq<byte>)
    requires NoneLast(v, calls) && |block| == v.Block()
    ensures var r := Log(calls, block, |BlocksOf(calls)| + |block|, false);
            NoneLast(v, r) && BlocksOf(r) == BlocksOf(calls) + block
  {
  }

  lemma {:induction false} LastCall(v: Variant, calls: seq<Call>, x: seq<byte>)
    requires NoneLast(v, calls) && (x == [] ==> calls == []) && |x| <= v.Block()
    ensures Finished(v, BlocksOf(calls) + x, Reference(v, Log, calls, x, |BlocksOf(calls)|))
  {
  }

  // The object

  /** `initial(size, keyLength)` is the parameter block mixed into the initial value. */
  class Provider<S(!new)> {
    const v: Variant
    const F: Mixing<S>
    const f: BlockFunction<S>
    const initial: (nat, nat) -> S
    const hs: nat
    var k: seq<byte>
    var H: S
    const m: array<byte>
    var pos: nat
    var total: nat
    /** The key block and what has been given to `Update` since `Init`. */
    ghost var input: seq<byte>

    ghost predicate Valid()
      reads this, m
    {
      && |k| <= v.N() / 8 && f == Updating(v, F)
      && Absorbed(f, initial(hs, |k|), input, v.Block(), true, H, m[..], pos, total)
    }

    constructor (v: Variant, F: Mixing<S>, initial: (nat, nat) -> S, hs: nat)
      ensures Valid() && input == [] && k == [] && fresh(m)
      ensures this.v == v && this.F == F && this.initial == initial && this.hs == hs
    {
      this.v, this.F, this.initial, this.hs := v, F, initial, hs;
      f := Updating(v, F);
      k, H, pos, total, input := [], initial(hs, 0), 0, 0, [];
      m := new byte[v.Block()];
      new;
      NothingAbsorbed(f, H, v.Block(), true, m[..]);
    }

    /** `false` where the source throws: the key is too long. */
    method SetKey(key: seq<byte>) returns (accepted: bool)
      requires |k| <= v.N() / 8
      modifies `k
      ensures accepted <==> |key| <= v.N() / 8
      ensures k == (if accepted then key else old(k)) && |k| <= v.N() / 8
    {
      accepted := |key| <= v.N() / 8;
      if accepted {
        k := key;
      }
    }

    method Init()
      requires m.Length == v.Block() && |k| <= v.N() / 8 && f == Updating(v, F)
      modifies this, m
      ensures Valid() && input == Keyed(v, k, []) && k == old(k)
    {
      H, pos, total, input := initial(hs, |k|), 0, 0, [];
      AbsorbKey();
    }

    method AbsorbKey()
      requires Valid() && input == []
      modifies this, m
      ensures Valid() && input == Keyed(v, k, []) && k == old(k)
    {
      if k != [] {
        Update(k + ZeroBytes(v.N() / 4 - |k|));
      }
    }

    method Update(data: seq<byte>)
      requires Valid()
      modifies this, m
      ensures Valid() && input == old(input) + data && k == old(k)
    {
      H, pos, total := AbsorbBytes(f, H, data, v.N() / 4, v.N() / 4 + 1, m, pos, total, initial(hs, |k|), input);
      input := input + data;
    }

    method UpdateAll(parts: seq<seq<byte>>)
      requires Valid()
      modifies this, m
      ensures Valid() && input == old(input) + Flatten(parts) && k == old(k)
    {
      assert parts[..0] == [];
      for i := 0 to |parts|
        invariant Valid() && k == old(k) && input == old(input) + Flatten(parts[..i])
      {
        Update(parts[i]);
        assert parts[..i + 1][..i] == parts[..i];
        assert Flatten(parts[..i + 1]) == Flatten(parts[..i]) + parts[i];
      }
      assert parts[..|parts|] == parts;
    }

    /** The last block gets the final flag. The counter it gets is the number of all bytes
        exactly when that number of bits fits in 64 bits; then the result is the standard's. */
    method Final() returns (ghost t: nat)
      requires Valid()
      modifies this, m
      ensures k == old(k) && t == Word64(8 * |old(input)|) / 8
      ensures t == |old(input)| <==> 8 * |old(input)| < TWO64
      ensures t == |old(input)| ==> H == Reference(v, F, initial(hs, |k|), old(input), 0)
    {
      ghost var x, u := input, m[..pos];
      Word64Add(8 * (|x| - pos), 8 * pos);
      BitsFit(|x|);
      if 8 * |x| < TWO64 {
        AbsorbedLast(v, F, initial(hs, |k|), x, H, m[..], pos, total);
      }
      total := Word64(total + pos * 8);
      t := total / 8;
      ClearFrom(m, pos);
      H := F(H, m[..], total / 8, true);
    }
  }

  /** A keyed message in any number of updates: the computation of section 3.3. */
  method HashParts<S(!new)>(v: Variant, F: Mixing<S>, initial: (nat, nat) -> S, hs: nat,
                            key: seq<byte>, parts: seq<seq<byte>>)
    returns (result: Option<S>)
    ensures result.Some? <==> |key| <= v.N() / 8
    ensures result.Some? ==>
              var x := Keyed(v, key, Flatten(parts));
              8 * |x| < TWO64 ==> result.value == Reference(v, F, initial(hs, |key|), x, 0)
  {
    var provider := new Provider(v, F, initial, hs);
    var accepted := provider.SetKey(key);
    if !accepted {
      return None;
    }
    provider.Init();
    provider.UpdateAll(parts);
    KeyedAppend(v, key, Flatten(parts));
    var t := provider.Final();
    result := Some(provider.H);
  }

  lemma {:induction false} KeyedAppend(v: Variant, key: seq<byte>, message: seq<byte>)
    requires |key| <= v.Block()
    ensures Keyed(v, key, message) == Keyed(v, key, []) + message
  {
  }

  /** The compressions the code makes, logged: exactly the last one carries the final flag, each
      is given the number of bytes up to the end of its block, and their blocks are the key block,
      the message and less than a block of zeros. */
  method LogParts(v: Variant, hs: nat, key: seq<byte>, parts: seq<seq<byte>>) returns (calls: Option<seq<Call>>)
    ensures calls.Some? <==> |key| <= v.N() / 8
    ensures calls.Some? ==>
              var x := Keyed(v, key, Flatten(parts));
              8 * |x| < TWO64 ==> Finished(v, x, calls.value)
  {
    calls := HashParts(v, Log, (size: nat, keyLength: nat) => [], hs, key, parts);
    if calls.Some? {
      var x := Keyed(v, key, Flatten(parts));
      OneLast(v, [], x);
      assert [] + x == x;
    }
  }
}
