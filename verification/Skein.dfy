/** The output stream of Skein (`algorithm/detail/skein_provider.hpp`, `squeeze`): blocks made
    in counter mode from a saved chaining value, handed out in pieces of any length. The block
    transformation `U(chain, tweak, block, length)` is a parameter; a chaining value is its
    `bs` bytes in memory. */
module Skein {
  import opened Modular
  import opened Widths
  import opened Streaming

  type Tweak = (nat, nat)

  type Ubi = (seq<byte>, Tweak, seq<byte>, nat) -> (seq<byte>, Tweak)

  const LAST_BLOCK: nat := 0x8000_0000_0000_0000
  const OUTPUT_TWEAK: Tweak := (0, 0xff00_0000_0000_0000)

  datatype Config = Config(U: Ubi, bs: pos) {
    ghost predicate Ok() {
      bs >= 8 && forall c, t, m, n :: |U(c, t, m, n).0| == bs
    }
  }

  /** The fields `squeeze` works on. */
  datatype State = State(H: seq<byte>, hbk: seq<byte>, m: seq<byte>, pos: nat, total: nat, tweak: Tweak,
                         squeezing: bool) {
    ghost predicate Ok(bs: nat) {
      |H| == |m| == bs && pos <= bs && (squeezing ==> |hbk| == bs) && total < TWO64
    }
  }

  // The stream, byte by byte

  /** A state and the bytes handed out on the way to it. */
  datatype Output = Output(s: State, bytes: seq<byte>)

  /** Make the next output block; none of its bytes is used yet. */
  function NextBlock(cfg: Config, s: State): State
    requires |s.m| >= 8
  {
    var m := LowBytes(s.total, 8) + s.m[8..];
    var (H, tweak) := cfg.U(s.hbk, OUTPUT_TWEAK, m, 8);
    State(H, s.hbk, m, 0, Word64(s.total + 1), tweak, s.squeezing)
  }

  /** What one more byte of output does. */
  function NextByte(cfg: Config, s: State): State
    requires |s.m| >= 8
  {
    if s.pos < cfg.bs then s.(pos := s.pos + 1) else NextBlock(cfg, s).(pos := 1)
  }

  /** The state `n` bytes further on. */
  function StateAfter(cfg: Config, s: State, n: nat): State
    requires cfg.Ok() && s.Ok(cfg.bs) && s.squeezing
    ensures StateAfter(cfg, s, n).Ok(cfg.bs) && StateAfter(cfg, s, n).squeezing
    ensures n > 0 ==> StateAfter(cfg, s, n).pos > 0
  {
    if n == 0 then s else NextByte(cfg, StateAfter(cfg, s, n - 1))
  }

  /** The byte handed out last. */
  function LastByte(s: State): byte
    requires 0 < s.pos <= |s.H|
  {
    s.H[s.pos - 1]
  }

  /** `n` bytes of output from a squeezing state. */
  function Take(cfg: Config, s: State, n: nat): (r: Output)
    requires cfg.Ok() && s.Ok(cfg.bs) && s.squeezing
    ensures r.s.Ok(cfg.bs) && r.s.squeezing && |r.bytes| == n
  {
    Output(StateAfter(cfg, s, n), seq(n, k requires 0 <= k < n => LastByte(StateAfter(cfg, s, k + 1))))
  }

  /** The first call ends the input: compress what is buffered and save the chaining value. */
  function Started(cfg: Config, s: State): State
    requires cfg.Ok() && s.Ok(cfg.bs)
    ensures Started(cfg, s).Ok(cfg.bs) && Started(cfg, s).squeezing
  {
    var tweak := (s.tweak.0, if s.tweak.1 >= LAST_BLOCK then s.tweak.1 else s.tweak.1 + LAST_BLOCK);
    var (H, tweak') := cfg.U(s.H, tweak, s.m[..s.pos] + ZeroBytes(cfg.bs - s.pos), s.pos);
    State(H, H, ZeroBytes(cfg.bs), 0, 0, tweak', true)
  }

  /** What a call of `squeeze` for `n` bytes does: the first call with `n > 0` makes a block
      at once, a first call with `n == 0` does not. */
  function Squeezed(cfg: Config, s: State, n: nat): Output
    requires cfg.Ok() && s.Ok(cfg.bs)
    ensures Squeezed(cfg, s, n).s.Ok(cfg.bs)
  {
    if s.squeezing then Take(cfg, s, n)
    else if n == 0 then Output(Started(cfg, s), [])
    else Take(cfg, Started(cfg, s).(pos := cfg.bs), n)
  }

  lemma {:induction false} StateAfterSum(cfg: Config, s: State, a: nat, b: nat)
    requires cfg.Ok() && s.Ok(cfg.bs) && s.squeezing
    ensures StateAfter(cfg, s, a + b) == StateAfter(cfg, StateAfter(cfg, s, a), b)
  {
    if b > 0 {
      StateAfterSum(cfg, s, a, b - 1);
    }
  }

  lemma {:induction false} TakeAppend(cfg: Config, s: State, a: nat, b: nat)
    requires cfg.Ok() && s.Ok(cfg.bs) && s.squeezing
    ensures var p := Take(cfg, s, a); var q := Take(cfg, p.s, b);
            Take(cfg, s, a + b) == Output(q.s, p.bytes + q.bytes)
  {
    var p, all := Take(cfg, s, a), Take(cfg, s, a + b);
    var q := Take(cfg, p.s, b);
    StateAfterSum(cfg, s, a, b);
    forall k | 0 <= k < a + b ensures all.bytes[k] == (p.bytes + q.bytes)[k] {
      if k >= a {
        StateAfterSum(cfg, s, a, k - a + 1);
      }
    }
    assert all.bytes == p.bytes + q.bytes;
  }

  lemma {:induction false} StateWithin(cfg: Config, s: State, n: nat)
    requires cfg.Ok() && s.Ok(cfg.bs) && s.squeezing && s.pos + n <= cfg.bs
    ensures StateAfter(cfg, s, n) == s.(pos := s.pos + n)
  {
    if n > 0 {
      StateWithin(cfg, s, n - 1);
    }
  }

  /** Bytes left in the present block. */
  lemma {:induction false} TakeWithin(cfg: Config, s: State, n: nat)
    requires cfg.Ok() && s.Ok(cfg.bs) && s.squeezing && s.pos + n <= cfg.bs
    ensures Take(cfg, s, n) == Output(s.(pos := s.pos + n), s.H[s.pos..s.pos + n])
  {
    StateWithin(cfg, s, n);
    forall k | 0 <= k < n ensures Take(cfg, s, n).bytes[k] == s.H[s.pos..s.pos + n][k] {
      StateWithin(cfg, s, k + 1);
    }
    assert Take(cfg, s, n).bytes == s.H[s.pos..s.pos + n];
  }

  lemma {:induction false} StateInBlock(cfg: Config, s: State, n: nat)
    requires cfg.Ok() && s.Ok(cfg.bs) && s.squeezing && s.pos == cfg.bs && 0 < n <= cfg.bs
    ensures StateAfter(cfg, s, n) == NextBlock(cfg, s).(pos := n)
  {
    if n == 1 {
      assert StateAfter(cfg, s, 0) == s;
    } else {
      StateInBlock(cfg, s, n - 1);
    }
  }

  /** Bytes of a new block. */
  lemma {:induction false} TakeBlock(cfg: Config, s: State, n: nat)
    requires cfg.Ok() && s.Ok(cfg.bs) && s.squeezing && s.pos == cfg.bs && 0 < n <= cfg.bs
    ensures var s' := NextBlock(cfg, s); Take(cfg, s, n) == Output(s'.(pos := n), s'.H[..n])
  {
    var s' := NextBlock(cfg, s);
    StateInBlock(cfg, s, n);
    forall k | 0 <= k < n ensures Take(cfg, s, n).bytes[k] == s'.H[..n][k] {
      StateInBlock(cfg, s, k + 1);
    }
    assert Take(cfg, s, n).bytes == s'.H[..n];
  }

  /** Splitting one request into two gives the same bytes and the same state exactly when the
      first is not an empty first request with a request for bytes behind it. */
  lemma {:induction false} SplitExact(cfg: Config, s: State, a: nat, b: nat)
    requires cfg.Ok() && s.Ok(cfg.bs)
    ensures var p := Squeezed(cfg, s, a); var q := Squeezed(cfg, p.s, b);
            Squeezed(cfg, s, a + b) == Output(q.s, p.bytes + q.bytes) <==> s.squeezing || a > 0 || b == 0
  {
    if s.squeezing {
      TakeAppend(cfg, s, a, b);
    } else if a > 0 {
      TakeAppend(cfg, Started(cfg, s).(pos := cfg.bs), a, b);
    } else if b > 0 {
      TotalLags(cfg, Started(cfg, s), b);
    }
  }

  /** After an empty first request the block counter stays one behind for good. */
  lemma {:induction false} TotalLags(cfg: Config, s: State, n: nat)
    requires cfg.Ok() && s.Ok(cfg.bs) && s.squeezing && s.pos == 0 && n > 0
    ensures var u, v := StateAfter(cfg, s.(pos := cfg.bs), n), StateAfter(cfg, s, n);
            u.total == Word64(v.total + 1) && u.pos == v.pos
  {
    if n == 1 {
      assert StateAfter(cfg, s.(pos := cfg.bs), 0) == s.(pos := cfg.bs) && StateAfter(cfg, s, 0) == s;
    } else {
      TotalLags(cfg, s, n - 1);
    }
  }

  // What the stream contains

  /** Output block number `i` made from a chaining value. */
  function BlockOf(cfg: Config, chain: seq<byte>, i: nat): seq<byte>
    requires cfg.bs >= 8
  {
    cfg.U(chain, OUTPUT_TWEAK, LowBytes(Word64(i), 8) + ZeroBytes(cfg.bs - 8), 8).0
  }

  /** Byte number `j` of the blocks `0, 1, 2, ...` in a row. */
  function StreamByte(cfg: Config, chain: seq<byte>, j: nat): byte
    requires cfg.Ok()
  {
    BlockOf(cfg, chain, Laps(j, cfg.bs))[Mod(j, cfg.bs)]
  }

  /** The state reached after `n` bytes made from the saved chaining value `chain`. */
  ghost predicate After(cfg: Config, chain: seq<byte>, n: nat, s: State)
    requires cfg.bs >= 8
  {
    && s.hbk == chain && |s.m| == cfg.bs && s.m[8..] == ZeroBytes(cfg.bs - 8)
    && n > 0 && s.pos == Mod(n - 1, cfg.bs) + 1 && s.total == Word64(Laps(n - 1, cfg.bs) + 1)
    && s.H == BlockOf(cfg, chain, Laps(n - 1, cfg.bs))
  }

  lemma {:induction false} NextLapOrSame(n: nat, bs: pos)
    ensures Mod(n + 1, bs) == if Mod(n, bs) + 1 == bs then 0 else Mod(n, bs) + 1
    ensures Laps(n + 1, bs) == if Mod(n, bs) + 1 == bs then Laps(n, bs) + 1 else Laps(n, bs)
  {
    if n >= bs {
      NextLapOrSame(n - bs, bs);
    } else if n + 1 == bs {
      assert Laps(bs, bs) == 1 + Laps(0, bs) && Mod(bs, bs) == Mod(0, bs);
    }
  }

  /** `t'` is `t` with bit 63 of its second word set and everything else as it was. */
  predicate LastBlock(t: Tweak, t': Tweak) {
    t'.0 == t.0 && t'.1 == t.1 % 0x8000_0000_0000_0000 + 0x8000_0000_0000_0000
  }

  /** `block` is the bytes `u` and zeros. */
  ghost predicate ZeroPadded(u: seq<byte>, block: seq<byte>) {
    u <= block && forall i :: |u| <= i < |block| ==> block[i] == 0
  }

  /** The first request ends the input: the saved chaining value is made from the old one, the
      buffered bytes with zeros behind them, their number, and the tweak of a last block. */
  lemma {:induction false} FirstRequest(cfg: Config, s: State, n: nat) returns (t: Tweak, block: seq<byte>)
    requires cfg.Ok() && s.Ok(cfg.bs) && !s.squeezing && s.tweak.1 < TWO64
    ensures LastBlock(s.tweak, t) && |block| == cfg.bs && ZeroPadded(s.m[..s.pos], block)
    ensures Squeezed(cfg, s, n).s.hbk == cfg.U(s.H, t, block, s.pos).0
    ensures Squeezed(cfg, s, n).s.squeezing
  {
    t := (s.tweak.0, if s.tweak.1 >= LAST_BLOCK then s.tweak.1 else s.tweak.1 + LAST_BLOCK);
    block := s.m[..s.pos] + ZeroBytes(cfg.bs - s.pos);
    if n > 0 {
      SameChain(cfg, Started(cfg, s).(pos := cfg.bs), n);
    }
  }

  lemma {:induction false} SameChain(cfg: Config, s: State, n: nat)
    requires cfg.Ok() && s.Ok(cfg.bs) && s.squeezing
    ensures StateAfter(cfg, s, n).hbk == s.hbk
  {
    if n > 0 {
      SameChain(cfg, s, n - 1);
    }
  }

  /** An output block is made from the chaining value, type 63 in the first byte of the tweak, and
      the number of the block, low-order byte first, with zeros behind it. */
  lemma {:induction false} BlockMadeFrom(cfg: Config, chain: seq<byte>, i: nat) returns (block: seq<byte>)
    requires cfg.Ok() && i < TWO64
    ensures BlockOf(cfg, chain, i) == cfg.U(chain, (0, 0xff00_0000_0000_0000), block, 8).0
    ensures |block| == cfg.bs && LittleEndian(block[..8]) == i && ZeroPadded(block[..8], block)
  {
    block := LowBytes(Word64(i), 8) + ZeroBytes(cfg.bs - 8);
    EightBytes();
    LowBytesValue(i, 8);
    assert block[..8] == LowBytes(i, 8);
  }

  /** Whatever was absorbed, the bytes handed out are the blocks `0, 1, 2, ...` in order, made from
      the chaining value saved by the first request. */
  lemma {:induction false} OutputIsStream(cfg: Config, s: State, n: nat)
    requires cfg.Ok() && s.Ok(cfg.bs) && !s.squeezing && n > 0
    ensures var r := Squeezed(cfg, s, n);
            && After(cfg, r.s.hbk, n, r.s)
            && forall j :: 0 <= j < n ==> r.bytes[j] == StreamByte(cfg, r.s.hbk, j)
  {
    var start := Started(cfg, s).(pos := cfg.bs);
    SameChain(cfg, start, n);
    StreamFrom(cfg, start, n);
    forall j | 0 <= j < n ensures Squeezed(cfg, s, n).bytes[j] == StreamByte(cfg, start.hbk, j) {
      StreamFrom(cfg, start, j + 1);
    }
  }

  lemma {:induction false} StreamFrom(cfg: Config, s: State, n: nat)
    requires cfg.Ok() && s.Ok(cfg.bs) && s.squeezing && n > 0
    requires s.pos == cfg.bs && s.total == 0 && s.m == ZeroBytes(cfg.bs)
    ensures var s' := StateAfter(cfg, s, n);
            After(cfg, s.hbk, n, s') && LastByte(s') == StreamByte(cfg, s.hbk, n - 1)
  {
    if n == 1 {
      assert StateAfter(cfg, s, 0) == s;
      assert s.m[8..] == ZeroBytes(cfg.bs - 8);
      assert NextBlock(cfg, s).m[8..] == s.m[8..];
      assert Word64(0) == 0 && Laps(0, cfg.bs) == 0 && Mod(0, cfg.bs) == 0;
    } else {
      StreamFrom(cfg, s, n - 1);
      OneMoreByte(cfg, s.hbk, n - 1, StateAfter(cfg, s, n - 1));
    }
  }

  lemma {:induction false} OneMoreByte(cfg: Config, chain: seq<byte>, n: nat, s: State)
    requires cfg.Ok() && s.Ok(cfg.bs) && After(cfg, chain, n, s)
    ensures var s' := NextByte(cfg, s); After(cfg, chain, n + 1, s') && LastByte(s') == StreamByte(cfg, chain, n)
  {
    NextLapOrSame(n - 1, cfg.bs);
    if s.pos == cfg.bs {
      var s' := NextBlock(cfg, s);
      assert s'.m[8..] == s.m[8..];
      Word64Add(s.total, 1);
      Word64Add(Laps(n - 1, cfg.bs) + 1, 1);
    }
  }

  // The object

  class Provider {
    const cfg: Config
    var H: seq<byte>
    var hbk: seq<byte>
    const m: array<byte>
    var pos: nat
    var total: nat
    var tweak: Tweak
    var squeezing: bool

    ghost function View(): State
      reads this, m
    {
      State(H, hbk, m[..], pos, total, tweak, squeezing)
    }

    ghost predicate Valid()
      reads this, m
    {
      cfg.Ok() && View().Ok(cfg.bs)
    }

    /** The end of the input. */
    method Start()
      requires Valid()
      modifies this, m
      ensures Valid() && View() == Started(cfg, old(View()))
    {
      squeezing := true;
      if tweak.1 < LAST_BLOCK {
        tweak := (tweak.0, tweak.1 + LAST_BLOCK);
      }
      ClearFrom(m, pos);
      var (h, t) := cfg.U(H, tweak, m[..], pos);
      H, tweak := h, t;
      ClearFrom(m, 0);
      assert m[..] == ZeroBytes(cfg.bs);
      hbk := H;
      pos, total := 0, 0;
    }

    /** One round of the loop: a new block, of which `n` bytes are used. */
    method Block(n: nat)
      requires Valid() && squeezing && 0 < n <= cfg.bs
      modifies this, m
      ensures Valid() && squeezing && pos == n
      ensures Take(cfg, old(View()).(pos := cfg.bs), n) == Output(View(), H[..n])
    {
      TakeBlock(cfg, View().(pos := cfg.bs), n);
      pos := n;
      tweak := OUTPUT_TWEAK;
      CopyIn(m, 0, LowBytes(total, 8));
      assert m[..] == LowBytes(total, 8) + old(m[..])[8..];
      H := hbk;
      var (h, t) := cfg.U(H, tweak, m[..], 8);
      H, tweak := h, t;
      total := Word64(total + 1);
    }

    /** `squeeze`: the first `n` bytes of `hash` are the next `n` bytes of output. */
    method Squeeze(hash: array<byte>, n: nat)
      requires Valid() && n <= hash.Length && hash != m
      modifies this, m, hash
      ensures Valid() && hash[n..] == old(hash[n..])
      ensures Squeezed(cfg, old(View()), n) == Output(View(), hash[..n])
    {
      ghost var v0 := if squeezing then View() else Started(cfg, View()).(pos := cfg.bs);
      var processed := 0;
      if !squeezing {
        Start();
      } else if pos < cfg.bs {
        processed := TakeLeft(hash, n);
      }
      while processed < n
        invariant processed <= n && Valid() && squeezing && hash[n..] == old(hash[n..])
        invariant processed < n ==> Take(cfg, v0, processed) == Output(View().(pos := cfg.bs), hash[..processed])
        invariant processed == n ==> Squeezed(cfg, old(View()), n) == Output(View(), hash[..n])
      {
        processed := EmitBlock(hash, n, processed, v0);
      }
    }

    /** The rest of the present block, as far as it is asked for. */
    method TakeLeft(hash: array<byte>, n: nat) returns (processed: nat)
      requires Valid() && squeezing && pos < cfg.bs && n <= hash.Length && hash != m
      modifies `pos, hash
      ensures Valid() && processed <= n && hash[n..] == old(hash[n..])
      ensures Take(cfg, old(View()), processed) == Output(View(), hash[..processed])
      ensures processed < n ==> pos == cfg.bs
    {
      processed := if n <= cfg.bs - pos then n else cfg.bs - pos;
      TakeWithin(cfg, View(), processed);
      CopyIn(hash, 0, H[pos..pos + processed]);
      assert hash[..processed] == H[pos..pos + processed];
      pos := pos + processed;
    }

    /** The body of the loop. */
    method EmitBlock(hash: array<byte>, n: nat, processed: nat, ghost v0: State) returns (processed': nat)
      requires Valid() && squeezing && processed < n <= hash.Length && hash != m
      requires v0.Ok(cfg.bs) && v0.squeezing
      requires Take(cfg, v0, processed) == Output(View().(pos := cfg.bs), hash[..processed])
      modifies this, m, hash
      ensures Valid() && squeezing && processed < processed' <= n && hash[n..] == old(hash[n..])
      ensures Take(cfg, v0, processed') == Output(View(), hash[..processed'])
      ensures processed' < n ==> pos == cfg.bs
    {
      var k := if n - processed <= cfg.bs then n - processed else cfg.bs;
      TakeAppend(cfg, v0, processed, k);
      ghost var before := hash[..processed];
      Block(k);
      CopyIn(hash, processed, H[..k]);
      processed' := processed + k;
      assert hash[..processed'] == before + H[..k];
    }
  }
}
