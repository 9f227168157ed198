/** The packet text format and the `Packet` object (`src/Packet.h`).

    A packet is its sequence number, left-padded with zeros to a fixed number of digits,
    followed by the 32 hexadecimal characters of the payload's digest and the payload.
    The digest is any function into 32-character strings. */
module Packets {
  import opened Options
  import opened Widths

  const DIGEST_LENGTH := 32

  type Digest = s: string | |s| == DIGEST_LENGTH witness seq(DIGEST_LENGTH, _ => '0')

  // Decimal numerals

  function Pow10(d: nat): (p: nat)
    ensures p >= 1
  {
    if d == 0 then 1 else 10 * Pow10(d - 1)
  }

  predicate IsDigit(c: char) {
    '0' <= c <= '9'
  }

  predicate AllDigits(s: string) {
    forall i :: 0 <= i < |s| ==> IsDigit(s[i])
  }

  function Digit(d: nat): (c: char)
    requires d < 10
    ensures IsDigit(c) && c as int - '0' as int == d
  {
    (d + '0' as int) as char
  }

  /** `std::to_string` of a number that is not negative. */
  function Decimal(n: nat): string {
    if n < 10 then [Digit(n)]
    else var rest := n / 10; Decimal(rest) + [Digit(n - 10 * rest)]
  }

  /** The number a run of digits denotes. */
  function Value(s: string): nat
    requires AllDigits(s)
  {
    if s == [] then 0
    else Value(s[..|s| - 1]) * 10 + (s[|s| - 1] as int - '0' as int)
  }

  function Zeros(k: int): string {
    if k <= 0 then [] else Zeros(k - 1) + ['0']
  }

  /** The number field of a packet: as many zeros as are missing, then the numeral. */
  function Field(d: nat, n: nat): string {
    Zeros(d - |Decimal(n)|) + Decimal(n)
  }

  function Wire(hash: string -> Digest, d: nat, n: nat, data: string): string {
    Field(d, n) + hash(data) + data
  }

  lemma {:induction false} DecimalValue(n: nat)
    ensures Decimal(n) != [] && AllDigits(Decimal(n)) && Value(Decimal(n)) == n
  {
    if n >= 10 {
      DecimalValue(n / 10);
      var s := Decimal(n);
      assert s[..|s| - 1] == Decimal(n / 10);
    }
  }

  lemma {:induction false} ZerosDigits(k: int)
    ensures AllDigits(Zeros(k)) && |Zeros(k)| == if k <= 0 then 0 else k
  {
    if k > 0 {
      ZerosDigits(k - 1);
    }
  }

  lemma {:induction false} DecimalLength(n: nat, d: nat)
    requires 1 <= d
    ensures |Decimal(n)| <= d <==> n < Pow10(d)
  {
    if n >= 10 {
      if d == 1 {
        assert Pow10(1) == 10 * Pow10(0);
        DecimalValue(n / 10);
      } else {
        DecimalLength(n / 10, d - 1);
      }
    } else {
      assert Pow10(d) == 10 * Pow10(d - 1);
    }
  }

  lemma {:induction false} ValueAppend(s: string, c: char)
    requires AllDigits(s) && IsDigit(c)
    ensures Value(s + [c]) == Value(s) * 10 + (c as int - '0' as int)
  {
  }

  lemma {:induction false} LeadingZeros(k: int, s: string)
    requires AllDigits(s)
    ensures AllDigits(Zeros(k) + s) && Value(Zeros(k) + s) == Value(s)
  {
    ZerosDigits(k);
    if s == [] {
      assert Zeros(k) + s == Zeros(k);
      if k > 0 {
        LeadingZeros(k - 1, []);
        assert Zeros(k - 1) + [] == Zeros(k - 1);
        ValueAppend(Zeros(k - 1), '0');
      }
    } else {
      var t := s[..|s| - 1];
      LeadingZeros(k, t);
      ValueAppend(Zeros(k) + t, s[|s| - 1]);
      assert Zeros(k) + t + [s[|s| - 1]] == Zeros(k) + s;
    }
  }

  /** The number field has exactly `d` characters precisely when the number has at most
      `d` digits; a larger number pushes the digest and the payload to the right. */
  lemma {:induction false} FieldWidth(d: nat, n: nat)
    requires 1 <= d
    ensures |Field(d, n)| == d <==> n < Pow10(d)
    ensures Field(d, n) != [] && AllDigits(Field(d, n)) && Value(Field(d, n)) == n
  {
    ZerosDigits(d - |Decimal(n)|);
    DecimalLength(n, d);
    DecimalValue(n);
    LeadingZeros(d - |Decimal(n)|, Decimal(n));
  }

  // Reading a packet back

  predicate IsSpace(c: char) {
    c in {' ', '\t', '\n', '\r', 11 as char, 12 as char}
  }

  function SkipSpace(s: string): string {
    if s != [] && IsSpace(s[0]) then SkipSpace(s[1..]) else s
  }

  function DigitRun(s: string): (run: string)
    ensures AllDigits(run) && run <= s
  {
    if s != [] && IsDigit(s[0]) then [s[0]] + DigitRun(s[1..]) else []
  }

  function Clamp(n: int): int {
    if n > INT_MAX then INT_MAX else if n < -INT_MAX - 1 then -INT_MAX - 1 else n
  }

  /** `std::istringstream >> int`: optional blanks and sign, then digits; 0 when there are
      none, the nearest bound when the numeral does not fit. */
  function ReadInt(s: string): int {
    var t := SkipSpace(s);
    var signed := t != [] && (t[0] == '-' || t[0] == '+');
    var run := DigitRun(if signed then t[1..] else t);
    var v: int := Value(run);
    if run == [] then 0 else Clamp(if signed && t[0] == '-' then -v else v)
  }

  /** `std::string::substr`: `None` where it throws `std::out_of_range`. */
  function Substr(s: string, pos: nat, count: nat): Option<string> {
    if pos > |s| then None
    else Some(s[pos..if pos + count <= |s| then pos + count else |s|])
  }

  function ExtractSeqNum(raw: string, d: nat): int {
    ReadInt(Substr(raw, 0, d).value)
  }

  /** `None` where the code throws: the packet is too short to be cut. */
  function CheckPacketIntegrity(hash: string -> Digest, raw: string, d: nat, checkAck: bool): Option<bool> {
    var digest := Substr(raw, d, DIGEST_LENGTH);
    var hashed := if checkAck then Substr(raw, 0, d) else Substr(raw, d + DIGEST_LENGTH, |raw|);
    if digest.None? || hashed.None? then None else Some(digest.value == hash(hashed.value))
  }

  /** A packet is accepted in data mode exactly when the 32 characters behind the number are the
      digest of all that follows, and is cut in the middle of them only if it is shorter. */
  lemma {:induction false} AcceptedData(hash: string -> Digest, raw: string, d: nat)
    ensures CheckPacketIntegrity(hash, raw, d, false) == Some(true)
       <==> |raw| >= d + 32 && raw[d..d + 32] == hash(raw[d + 32..])
    ensures CheckPacketIntegrity(hash, raw, d, false) == None <==> |raw| < d + 32
  {
    if |raw| >= d + 32 {
      assert raw[d + 32..|raw|] == raw[d + 32..];
    }
  }

  /** What is read of a numeral: blanks are skipped, a sign is heeded, what follows the digits is
      not looked at, and a value outside `int` becomes its nearest bound. */
  lemma {:induction false} ReadIntMeaning(blanks: string, sign: string, digits: string, rest: string)
    requires (forall i :: 0 <= i < |blanks| ==> IsSpace(blanks[i])) && sign in {"", "+", "-"}
    requires digits != [] && AllDigits(digits) && (rest != [] ==> !IsDigit(rest[0]))
    ensures var v: int := if sign == "-" then 0 - Value(digits) else Value(digits);
            var r := ReadInt(blanks + (sign + (digits + rest)));
            && -0x8000_0000 <= r <= 0x7fff_ffff
            && (-0x8000_0000 <= v <= 0x7fff_ffff ==> r == v)
            && (v < -0x8000_0000 ==> r == -0x8000_0000) && (v > 0x7fff_ffff ==> r == 0x7fff_ffff)
  {
    var t := sign + (digits + rest);
    SkipBlanks(blanks, t);
    Signed(sign, digits + rest);
    DigitRunThen(digits, rest);
  }

  /** A sign in front of something that does not start with one. */
  lemma {:induction false} Signed(sign: string, s: string)
    requires sign in {"", "+", "-"} && s != [] && IsDigit(s[0])
    ensures var t := sign + s;
            && t != [] && !IsSpace(t[0]) && (t[0] == '-' <==> sign == "-")
            && (t[0] == '-' || t[0] == '+' <==> sign != "")
            && (if sign == "" then t == s else t[1..] == s)
  {
    if sign == "" {
      assert sign + s == s;
    }
  }

  lemma {:induction false} SkipBlanks(blanks: string, t: string)
    requires (forall i :: 0 <= i < |blanks| ==> IsSpace(blanks[i])) && t != [] && !IsSpace(t[0])
    ensures SkipSpace(blanks + t) == t
  {
    if blanks == [] {
      assert blanks + t == t;
    } else {
      SkipBlanks(blanks[1..], t);
      assert (blanks + t)[1..] == blanks[1..] + t;
    }
  }

  lemma {:induction false} DigitRunThen(digits: string, rest: string)
    requires AllDigits(digits) && (rest != [] ==> !IsDigit(rest[0]))
    ensures DigitRun(digits + rest) == digits
  {
    if digits != [] {
      DigitRunThen(digits[1..], rest);
      assert (digits + rest)[1..] == digits[1..] + rest;
    } else {
      assert digits + rest == rest;
    }
  }

  lemma {:induction false} DigitRunAll(s: string)
    requires AllDigits(s)
    ensures DigitRun(s) == s
  {
    if s != [] {
      DigitRunAll(s[1..]);
    }
  }

  lemma {:induction false} ReadNumeral(s: string)
    requires s != [] && AllDigits(s) && Value(s) <= INT_MAX
    ensures ReadInt(s) == Value(s)
  {
    DigitRunAll(s);
  }

  lemma {:induction false} Parts(field: string, digest: Digest, data: string)
    ensures var raw := field + digest + data;
            && Substr(raw, 0, |field|) == Some(field)
            && Substr(raw, |field|, DIGEST_LENGTH) == Some(digest)
            && Substr(raw, |field| + DIGEST_LENGTH, |raw|) == Some(data)
  {
    var raw := field + digest + data;
    assert raw[0..|field|] == field;
    assert raw[|field|..|field| + DIGEST_LENGTH] == digest;
    assert raw[|field| + DIGEST_LENGTH..|raw|] == data;
  }

  lemma {:induction false} ReadBack(hash: string -> Digest, field: string, data: string)
    requires field != [] && AllDigits(field) && Value(field) <= INT_MAX
    ensures var raw := field + hash(data) + data;
            && ExtractSeqNum(raw, |field|) == Value(field)
            && CheckPacketIntegrity(hash, raw, |field|, false) == Some(true)
            && Substr(raw, |field| + DIGEST_LENGTH, |raw|) == Some(data)
  {
    Parts(field, hash(data), data);
    ReadNumeral(field);
  }

  /** Whatever is sent is read back: the number, an accepted digest and the payload. */
  lemma {:induction false} RoundTrip(hash: string -> Digest, d: nat, n: nat, data: string)
    requires 1 <= d && n < Pow10(d) && n <= INT_MAX
    ensures var raw := Wire(hash, d, n, data);
            && |Field(d, n)| == d
            && ExtractSeqNum(raw, d) == n
            && CheckPacketIntegrity(hash, raw, d, false) == Some(true)
            && Substr(raw, d + 32, |raw|) == Some(data)
  {
    FieldWidth(d, n);
    ReadBack(hash, Field(d, n), data);
  }

  /** Two packets with the same text have the same number and the same payload. */
  lemma {:induction false} WireInjective(hash: string -> Digest, d: nat, n: nat, data: string, n': nat, data': string)
    requires 1 <= d && n < Pow10(d) && n' < Pow10(d) && n <= INT_MAX && n' <= INT_MAX
    requires Wire(hash, d, n, data) == Wire(hash, d, n', data')
    ensures n == n' && data == data'
  {
    RoundTrip(hash, d, n, data);
    RoundTrip(hash, d, n', data');
  }

  /** In acknowledgement mode a text is accepted exactly when it starts with `d` characters
      followed by all 32 characters of their digest. */
  lemma {:induction false} AcceptedAck(hash: string -> Digest, raw: string, d: nat)
    ensures CheckPacketIntegrity(hash, raw, d, true) == Some(true)
       <==> |raw| >= d + DIGEST_LENGTH && raw[d..d + DIGEST_LENGTH] == hash(raw[..d])
    ensures CheckPacketIntegrity(hash, raw, d, true) == None <==> |raw| < d
  {
  }

  // The packet object

  /** The observable state of a `Packet`; the cached text is an implementation detail. */
  datatype Pkt = Pkt(seqnum: nat, data: string, start: int, retransmitted: bool, acked: bool)

  class Packet {
    const hash: string -> Digest
    const seqnumDigits: nat
    const seqnum: nat
    const packetData: string
    /** The packet's text, which the cache may contain. */
    ghost const wireText: string
    var packetString: string
    var cached: bool
    var retransmitted: bool
    var acked: bool
    var startingTime: int

    ghost predicate Valid()
      reads this
    {
      cached ==> packetString == wireText
    }

    ghost predicate TextOk() {
      wireText == Wire(hash, seqnumDigits, seqnum, packetData)
    }

    function View(): Pkt
      reads this
    {
      Pkt(seqnum, packetData, startingTime, retransmitted, acked)
    }

    constructor (hash: string -> Digest, seqnumDigits: nat, seqnum: nat, packetData: string)
      ensures Valid() && View() == Pkt(seqnum, packetData, 0, false, false)
      ensures this.hash == hash && this.seqnumDigits == seqnumDigits && TextOk()
    {
      this.hash, this.seqnumDigits := hash, seqnumDigits;
      this.seqnum, this.packetData := seqnum, packetData;
      packetString, cached, retransmitted, acked, startingTime := "", false, false, false, 0;
      wireText := Wire(hash, seqnumDigits, seqnum, packetData);
    }

    /** Counts decimal digits by repeated division; zero has one digit. */
    static method GetNumberOfDigits(number: nat) returns (result: nat)
      ensures result == |Decimal(number)|
      ensures forall d: nat :: 1 <= d ==> (result <= d <==> number < Pow10(d))
    {
      if number == 0 {
        result := 1;
        assert Decimal(0) == [Digit(0)];
      } else {
        var rest := number;
        result := 0;
        while rest > 0
          invariant |Decimal(number)| == if rest == 0 then result else result + |Decimal(rest)|
        {
          assert |Decimal(rest)| == if rest / 10 == 0 then 1 else |Decimal(rest / 10)| + 1;
          rest := rest / 10;
          result := result + 1;
        }
      }
      forall d: nat | 1 <= d ensures result <= d <==> number < Pow10(d) {
        DecimalLength(number, d);
      }
    }

    /** First call builds and keeps the text, later calls return the kept one: always the
        same text, with no other visible effect. */
    method GeneratePacketString() returns (text: string)
      requires Valid() && TextOk()
      modifies `packetString, `cached
      ensures Valid() && cached
      ensures text == wireText && text == Wire(hash, seqnumDigits, seqnum, packetData)
    {
      if cached {
        return packetString;
      }
      var ss := "";
      var digits := GetNumberOfDigits(seqnum);
      var extraZeros := seqnumDigits - digits;
      var i := 0;
      while i < extraZeros
        invariant 0 <= i && (i <= extraZeros || i == 0) && ss == Zeros(i)
      {
        ss := ss + "0";
        i := i + 1;
      }
      ss := ss + Decimal(seqnum);
      ss := ss + hash(packetData);
      ss := ss + packetData;
      packetString := ss;
      cached := true;
      text := packetString;
    }

    method SetRetransmitted()
      modifies `retransmitted
      ensures View() == old(View()).(retransmitted := true)
    {
      retransmitted := true;
    }

    method SetAcked()
      modifies `acked
      ensures View() == old(View()).(acked := true)
    {
      acked := true;
    }

    method StartTimeoutCount(now: int)
      modifies `startingTime
      ensures View() == old(View()).(start := now)
    {
      startingTime := now;
    }
  }
}
