/** The integer encodings and the prefix of cSHAKE (`algorithm/detail/shake_provider.hpp`)
    against NIST SP 800-185. */
module Shake {
  import opened Modular
  import opened Widths
  import opened Streaming

  // Section 2.3.1

  /** Big-endian, without leading zero bytes, but at least one byte. */
  function BigEndian(n: nat): (s: seq<byte>)
    ensures |s| >= 1
  {
    if n < 256 then [n as byte] else var q := n / 256; BigEndian(q) + [(n - 256 * q) as byte]
  }

  function ValueOf(s: seq<byte>): nat {
    if s == [] then 0 else 256 * ValueOf(s[..|s| - 1]) + s[|s| - 1] as nat
  }

  function LeftEncoded(n: nat): seq<byte>
    requires n < TWO64
  {
    LengthBound(n, 8);
    [|BigEndian(n)| as byte] + BigEndian(n)
  }

  /** With `k12` zero is encoded without any value byte. */
  function RightEncoded(n: nat, k12: bool): seq<byte>
    requires n < TWO64
  {
    LengthBound(n, 8);
    if k12 && n == 0 then [0] else BigEndian(n) + [|BigEndian(n)| as byte]
  }

  lemma {:induction false} ValueBack(n: nat)
    ensures ValueOf(BigEndian(n)) == n
  {
    if n < 256 {
      assert [n as byte][..0] == [];
    } else {
      var q := n / 256;
      ValueBack(q);
      assert BigEndian(n)[..|BigEndian(n)| - 1] == BigEndian(q);
    }
  }

  /** The encoding is as short as any: `k` bytes are enough exactly when the number is below
      the `k`-th power of 256. */
  lemma {:induction false} MinimalLength(n: nat, k: nat)
    requires k >= 1
    ensures |BigEndian(n)| <= k <==> n < Pow256(k)
  {
    assert Pow256(k) == 256 * Pow256(k - 1);
    if n >= 256 {
      if k == 1 {
        assert Pow256(0) == 1;
      } else {
        MinimalLength(n / 256, k - 1);
      }
    }
  }

  lemma {:induction false} LengthBound(n: nat, k: nat)
    requires n < TWO64 && k == 8
    ensures |BigEndian(n)| <= 8
  {
    assert Pow256(2) == 0x1_0000;
    assert Pow256(4) == 0x1_0000_0000;
    assert Pow256(6) == 0x1_0000_0000_0000;
    assert Pow256(8) == TWO64;
    MinimalLength(n, k);
  }

  /** How a left encoding is read: a length byte from 1 to 8, that many bytes with the highest
      first, and the rest. */
  ghost predicate Reads(t: seq<byte>, n: nat, rest: seq<byte>) {
    && t != [] && 1 <= t[0] <= 8 && t[0] as nat < |t|
    && ValueOf(t[1..1 + t[0] as nat]) == n && t[1 + t[0] as nat..] == rest
  }

  lemma {:induction false} LeftReads(n: nat, x: seq<byte>)
    requires n < TWO64
    ensures Reads(LeftEncoded(n) + x, n, x)
  {
    LengthBound(n, 8);
    ValueBack(n);
    var t := LeftEncoded(n) + x;
    assert t[1..1 + |BigEndian(n)|] == BigEndian(n) && t[1 + |BigEndian(n)|..] == x;
  }

  /** A right encoding is read from the end: the number of bytes that precede it, then these. In
      the form of KangarooTwelve zero has none. */
  lemma {:induction false} RightReads(x: seq<byte>, n: nat, k12: bool)
    requires n < TWO64
    ensures var t := x + RightEncoded(n, k12); var k := t[|t| - 1] as nat;
            && (if k12 && n == 0 then k == 0 else 1 <= k <= 8) && k < |t|
            && ValueOf(t[|t| - 1 - k..|t| - 1]) == n && t[..|t| - 1 - k] == x
  {
    LengthBound(n, 8);
    ValueBack(n);
    var t := x + RightEncoded(n, k12);
    var e := RightEncoded(n, k12);
    assert t[|t| - 1] == e[|e| - 1];
    if k12 && n == 0 {
      assert t[|t| - 1..|t| - 1] == [] && t[..|t| - 1] == x;
    } else {
      var b := BigEndian(n);
      assert e == b + [|b| as byte] && e[|e| - 1] == |b| as byte;
      assert t[|t| - 1 - |b|..|t| - 1] == b && t[..|t| - 1 - |b|] == x;
    }
  }

  /** Instances, the first two from the standard. */
  lemma {:induction false} EncodingInstances()
    ensures LeftEncoded(0) == [1, 0] && RightEncoded(0, false) == [0, 1] && RightEncoded(0, true) == [0]
    ensures LeftEncoded(0x1234) == [2, 0x12, 0x34] && RightEncoded(0x1234, true) == [0x12, 0x34, 2]
  {
    assert BigEndian(0x1234) == BigEndian(0x12) + [0x34];
  }

  /** Two texts that start with an encoded number start with the same one, and go on alike. */
  lemma {:induction false} LeftUnique(a: nat, x: seq<byte>, b: nat, y: seq<byte>)
    requires a < TWO64 && b < TWO64 && LeftEncoded(a) + x == LeftEncoded(b) + y
    ensures a == b && x == y
  {
    var s, t := LeftEncoded(a) + x, LeftEncoded(b) + y;
    assert s[0] == t[0];
    assert s[1..1 + |BigEndian(a)|] == BigEndian(a) && t[1..1 + |BigEndian(b)|] == BigEndian(b);
    ValueBack(a);
    ValueBack(b);
    assert s[|LeftEncoded(a)|..] == x && t[|LeftEncoded(b)|..] == y;
  }

  /** The same from the end: the last byte says how many bytes precede it. */
  lemma {:induction false} RightUnique(a: nat, x: seq<byte>, b: nat, y: seq<byte>, k12: bool)
    requires a < TWO64 && b < TWO64 && x + RightEncoded(a, k12) == y + RightEncoded(b, k12)
    ensures a == b && x == y
  {
    var u, v := RightEncoded(a, k12), RightEncoded(b, k12);
    var s, t := x + u, y + v;
    assert s[|s| - 1] == u[|u| - 1] && t[|t| - 1] == v[|v| - 1];
    assert |u| == |v| && |x| == |y|;
    assert s[..|x|] == x && t[..|y|] == y;
    assert s[|x|..] == u && t[|y|..] == v;
    if |u| > 1 {
      assert u[..|u| - 1] == BigEndian(a) && v[..|v| - 1] == BigEndian(b);
      ValueBack(a);
      ValueBack(b);
    }
  }

  // The code's encoders

  /** The last `n` base-256 digits. */
  function Digits(num: nat, n: nat): (s: seq<byte>)
    ensures |s| == n
  {
    if n == 0 then [] else var q := num / 256; Digits(q, n - 1) + [(num - 256 * q) as byte]
  }

  lemma {:induction false} AllDigits(num: nat)
    ensures Digits(num, |BigEndian(num)|) == BigEndian(num)
  {
    if num >= 256 {
      AllDigits(num / 256);
    } else {
      assert num / 256 == 0 && Digits(num, 1) == Digits(0, 0) + [num as byte];
    }
  }

  /** The number of bytes, counted by shifting, starting the count at `first`. */
  method CountBytes(num: nat, first: nat) returns (n: nat)
    requires num < TWO64
    ensures n == first + |BigEndian(num)| - 1
  {
    n := first;
    var tmp: nat := num / 256;
    while tmp != 0
      invariant |BigEndian(num)| == n - first + 1 + (if tmp == 0 then 0 else |BigEndian(tmp)|) && n >= first
    {
      n, tmp := n + 1, tmp / 256;
    }
  }

  /** The low-order byte goes last: fills `buf[lo..lo + n]` from the end. */
  method PutDigits(num: nat, n0: nat, lo: nat, buf: array<byte>)
    requires lo + n0 <= buf.Length
    modifies buf
    ensures buf[..] == old(buf[..lo]) + Digits(num, n0) + old(buf[lo + n0..])
  {
    var n: nat, i: nat, rest: nat := n0, 0, num;
    while n > 0
      invariant n <= n0 && i == n0 - n && rest == Shifted(num, i)
      invariant |buf[..]| == buf.Length && buf[..lo] == old(buf[..lo]) && buf[lo + n0..] == old(buf[lo + n0..])
      invariant Digits(num, n0) == Digits(rest, n) + buf[lo + n..lo + n0]
    {
      var q: nat := rest / 256;
      ghost var done := buf[lo + n..lo + n0];
      n := n - 1;
      buf[lo + n] := (rest - 256 * q) as byte;
      assert buf[lo + n..lo + n0] == [(rest - 256 * q) as byte] + done;
      rest, i := q, i + 1;
    }
  }

  method LeftEncode(num: nat, buf: array<byte>) returns (result: nat)
    requires num < TWO64 && buf.Length >= 9
    modifies buf
    ensures result <= 9 && buf[..result] == LeftEncoded(num)
  {
    LengthBound(num, 8);
    AllDigits(num);
    var n := CountBytes(num, 1);
    buf[0] := n as byte;
    result := n + 1;
    PutDigits(num, n, 1, buf);
  }

  method RightEncode(num: nat, buf: array<byte>, k12: bool) returns (result: nat)
    requires num < TWO64 && buf.Length >= 9
    modifies buf
    ensures result <= 9 && buf[..result] == RightEncoded(num, k12)
  {
    LengthBound(num, 8);
    AllDigits(num);
    var n := CountBytes(num, if k12 then if num != 0 then 1 else 0 else 1);
    buf[n] := n as byte;
    result := n + 1;
    PutDigits(num, n, 0, buf);
  }

  // The prefix of section 3.3

  /** Both names with their lengths in bits, behind the rate. */
  function Names(r: nat, name: seq<byte>, custom: seq<byte>): seq<byte>
    requires r < TWO64 && 8 * |name| < TWO64 && 8 * |custom| < TWO64
  {
    LeftEncoded(r) + (LeftEncoded(8 * |name|) + name + (LeftEncoded(8 * |custom|) + custom))
  }

  /** What `init` absorbs: zeros up to the next block boundary, a whole block of them when the
      names already end at one. */
  function Prefix(r: pos, name: seq<byte>, custom: seq<byte>): seq<byte>
    requires r < TWO64 && 8 * |name| < TWO64 && 8 * |custom| < TWO64
  {
    var x := Names(r, name, custom);
    x + ZeroBytes(r - Mod(|x|, r))
  }

  /** `bytepad` of section 2.3.3: as few zeros as reach a multiple of `w`. */
  function Bytepad(x: seq<byte>, w: pos): seq<byte> {
    x + ZeroBytes(if Mod(|x|, w) == 0 then 0 else w - Mod(|x|, w))
  }

  lemma {:induction false} UpToBoundary(n: nat, r: pos)
    ensures Mod(n + (r - Mod(n, r)), r) == 0
  {
    if n < r {
      assert Mod(r, r) == Mod(0, r);
    } else {
      UpToBoundary(n - r, r);
      assert Mod(n + (r - Mod(n, r)), r) == Mod(n - r + (r - Mod(n - r, r)), r);
    }
  }

  /** The prefix is a whole number of blocks; it is the standard's exactly when the names do
      not end at a block boundary by themselves. */
  lemma {:induction false} PrefixLength(r: pos, name: seq<byte>, custom: seq<byte>)
    requires r < TWO64 && 8 * |name| < TWO64 && 8 * |custom| < TWO64
    ensures Mod(|Prefix(r, name, custom)|, r) == 0
    ensures var x := Names(r, name, custom); Prefix(r, name, custom) == Bytepad(x, r) <==> Mod(|x|, r) != 0
  {
    var x := Names(r, name, custom);
    UpToBoundary(|x|, r);
    if Mod(|x|, r) == 0 {
      assert |Prefix(r, name, custom)| == |x| + r && |Bytepad(x, r)| == |x|;
    }
  }

  /** `bytepad` reaches the boundary with less than a block of zeros. */
  lemma {:induction false} BytepadLeast(x: seq<byte>, w: pos)
    ensures Mod(|Bytepad(x, w)|, w) == 0 && x <= Bytepad(x, w) && |Bytepad(x, w)| < |x| + w
    ensures forall i :: |x| <= i < |Bytepad(x, w)| ==> Bytepad(x, w)[i] == 0
  {
    UpToBoundary(|x|, w);
  }

  /** How prefix and message are read: the rate, the length of the function name in bits and the
      name, the same of the customization, and zeros to the end of a block, at least one. */
  lemma {:induction false} PrefixReads(r: pos, name: seq<byte>, custom: seq<byte>, x: seq<byte>)
    returns (t1: seq<byte>, t2: seq<byte>, zeros: seq<byte>)
    requires r < TWO64 && 8 * |name| < TWO64 && 8 * |custom| < TWO64
    ensures var t := Prefix(r, name, custom) + x;
            && Reads(t, r, t1) && Reads(t1, 8 * |name|, name + t2) && Reads(t2, 8 * |custom|, custom + (zeros + x))
            && 1 <= |zeros| <= r && (forall i :: 0 <= i < |zeros| ==> zeros[i] == 0)
            && Mod(|t| - |x|, r) == 0
  {
    zeros := ZeroBytes(r - Mod(|Names(r, name, custom)|, r));
    t2 := LeftEncoded(8 * |custom|) + (custom + (zeros + x));
    t1 := LeftEncoded(8 * |name|) + (name + t2);
    Regroup(LeftEncoded(r), LeftEncoded(8 * |name|), name, LeftEncoded(8 * |custom|), custom, zeros, x);
    LeftReads(r, t1);
    LeftReads(8 * |name|, name + t2);
    LeftReads(8 * |custom|, custom + (zeros + x));
    PrefixLength(r, name, custom);
  }

  /** Such names: the rate of 128-bit strength, no function name, a customization of 161 bytes. */
  lemma {:induction false} AlignedNames(custom: seq<byte>)
    requires |custom| == 161
    ensures Mod(|Names(168, [], custom)|, 168) == 0
    ensures Prefix(168, [], custom) == Names(168, [], custom) + ZeroBytes(168)
    ensures Prefix(168, [], custom) != Bytepad(Names(168, [], custom), 168)
  {
    assert |BigEndian(168)| == 1 && |BigEndian(0)| == 1;
    assert BigEndian(8 * 161) == BigEndian(5) + [(1288 - 256 * 5) as byte];
    assert |Names(168, [], custom)| == 168;
    assert Mod(168, 168) == Mod(0, 168);
    PrefixLength(168, [], custom);
  }

  /** The prefix, whatever message follows it, determines both names and the message. */
  lemma {:induction false} PrefixUnique(r: pos, name: seq<byte>, custom: seq<byte>, x: seq<byte>,
                                        name': seq<byte>, custom': seq<byte>, x': seq<byte>)
    requires r < TWO64 && 8 * |name| < TWO64 && 8 * |custom| < TWO64
    requires 8 * |name'| < TWO64 && 8 * |custom'| < TWO64
    requires Prefix(r, name, custom) + x == Prefix(r, name', custom') + x'
    ensures name == name' && custom == custom' && x == x'
  {
    var z, z' := ZeroBytes(r - Mod(|Names(r, name, custom)|, r)), ZeroBytes(r - Mod(|Names(r, name', custom')|, r));
    Regroup(LeftEncoded(r), LeftEncoded(8 * |name|), name, LeftEncoded(8 * |custom|), custom, z, x);
    Regroup(LeftEncoded(r), LeftEncoded(8 * |name'|), name', LeftEncoded(8 * |custom'|), custom', z', x');
    var end, end' := custom + (z + x), custom' + (z' + x');
    var mid, mid' := LeftEncoded(8 * |custom|) + end, LeftEncoded(8 * |custom'|) + end';
    var all, all' := LeftEncoded(8 * |name|) + (name + mid), LeftEncoded(8 * |name'|) + (name' + mid');
    LeftUnique(r, all, r, all');
    LeftUnique(8 * |name|, name + mid, 8 * |name'|, name' + mid');
    SamePrefix(name, mid, name', mid');
    LeftUnique(8 * |custom|, end, 8 * |custom'|, end');
    SamePrefix(custom, z + x, custom', z' + x');
    SamePrefix(z, x, z', x');
  }

  /** The parts of a prefix and a message one after another. */
  lemma {:induction false} Regroup(a: seq<byte>, b: seq<byte>, n: seq<byte>, c: seq<byte>, s: seq<byte>,
                                   z: seq<byte>, x: seq<byte>)
    ensures a + (b + n + (c + s)) + z + x == a + (b + (n + (c + (s + (z + x)))))
    ensures a + b + n + c + s == a + (b + n + (c + s))
  {
  }

  lemma {:induction false} SamePrefix(a: seq<byte>, x: seq<byte>, b: seq<byte>, y: seq<byte>)
    requires |a| == |b| && a + x == b + y
    ensures a == b && x == y
  {
    assert (a + x)[..|a|] == a && (b + y)[..|b|] == b;
    assert (a + x)[|a|..] == x && (b + y)[|b|..] == y;
  }

  // The object, up to `init`

  /** `f` absorbs one block; `r` is the number of bytes in a block. */
  class Provider<S(!new)> {
    const f: BlockFunction<S>
    const zero: S
    const r: pos
    var N: seq<byte>
    var C: seq<byte>
    var A: S
    const m: array<byte>
    var pos: nat
    var total: nat
    /** What has been absorbed since the last `Init`. */
    ghost var input: seq<byte>

    ghost predicate Valid()
      reads this, m
    {
      Absorbed(f, zero, input, r, false, A, m[..], pos, total)
    }

    constructor (f: BlockFunction<S>, zero: S, r: pos)
      ensures Valid() && input == N == C == [] && fresh(m)
      ensures this.f == f && this.zero == zero && this.r == r
    {
      this.f, this.zero, this.r := f, zero, r;
      N, C, A, pos, total, input := [], [], zero, 0, 0, [];
      m := new byte[r];
      new;
      NothingAbsorbed(f, zero, r, false, m[..]);
    }

    method SetFunctionName(name: seq<byte>)
      modifies `N
      ensures N == name
    {
      N := name;
    }

    method SetCustomization(custom: seq<byte>)
      modifies `C
      ensures C == custom
    {
      C := custom;
    }

    method Update(data: seq<byte>)
      requires Valid()
      modifies `A, `pos, `total, `input, m
      ensures Valid() && input == old(input) + data
    {
      A, pos, total := AbsorbBytes(f, A, data, r, r, m, pos, total, zero, input);
      input := input + data;
    }

    /** Absorbs nothing without names, and the whole prefix, ending at a block boundary, with
        one. */
    method Init()
      requires m.Length == r < TWO64 && 8 * |N| < TWO64 && 8 * |C| < TWO64
      modifies `A, `pos, `total, `input, m
      ensures Valid() && input == (if N == [] && C == [] then [] else Prefix(r, N, C)) && pos == 0
    {
      A, pos, total, input := zero, 0, 0, [];
      NothingAbsorbed(f, zero, r, false, m[..]);
      if N != [] || C != [] {
        var length := AbsorbNames();
        Update(ZeroBytes(r - Padding(length)));
        PrefixLength(r, N, C);
      }
    }

    /** `total % r`. */
    function Padding(length: nat): (k: nat)
      ensures k == Mod(length, r)
    {
      ModIsRemainder(length, r);
      length % r
    }

    method AbsorbNames() returns (length: nat)
      requires Valid() && input == [] && r < TWO64 && 8 * |N| < TWO64 && 8 * |C| < TWO64
      modifies `A, `pos, `total, `input, m
      ensures Valid() && input == Names(r, N, C) && length == |input|
    {
      var buf := new byte[1024](_ => 0);
      length := AbsorbRate(buf);
      ghost var a, b, c := LeftEncoded(r), LeftEncoded(8 * |N|), LeftEncoded(8 * |C|);
      var len := AbsorbName(N, buf);
      length := length + len;
      assert input == a + b + N;
      len := AbsorbName(C, buf);
      length := length + len;
      assert input == a + b + N + c + C;
      length := length + |C| + |N|;
      Regroup(a, b, N, c, C, [], []);
    }

    method AbsorbRate(buf: array<byte>) returns (len: nat)
      requires Valid() && input == [] && r < TWO64 && buf.Length >= 9 && buf != m
      modifies `A, `pos, `total, `input, m, buf
      ensures Valid() && input == LeftEncoded(r) && len == |input|
    {
      len := LeftEncode(r, buf);
      Update(buf[..len]);
      assert [] + LeftEncoded(r) == LeftEncoded(r);
    }

    /** The length in bits, encoded, then the name itself unless it is empty. */
    method AbsorbName(name: seq<byte>, buf: array<byte>) returns (len: nat)
      requires Valid() && 8 * |name| < TWO64 && buf.Length >= 9 && buf != m
      modifies `A, `pos, `total, `input, m, buf
      ensures Valid() && input == old(input) + LeftEncoded(8 * |name|) + name
      ensures len == |LeftEncoded(8 * |name|)|
    {
      len := LeftEncode(|name| * 8, buf);
      Update(buf[..len]);
      if name != [] {
        Update(name);
      }
    }
  }
}
