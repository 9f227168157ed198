/** asio's `basic_streambuf` (`asio/basic_streambuf.hpp`): one array, with the characters to be
    read between the get and the put position, behaves as a queue of bounded length. */
module StreamBuf {
  import opened Options
  import opened Widths

  const BUFFER_DELTA: nat := 128

  function Min(a: nat, b: nat): nat {
    if a <= b then a else b
  }

  // The queue

  datatype Op = Write(data: string) | Put(c: char) | Consume(n: nat)

  /** `None` where the operation throws `std::length_error`. */
  function QueueStep(maxSize: nat, q: string, op: Op): Option<string> {
    match op
    case Write(data) => if |q| + |data| <= maxSize then Some(q + data) else None
    case Put(c) => if |q| < maxSize then Some(q + [c]) else None
    case Consume(n) => Some(q[Min(n, |q|)..])
  }

  /** Everything that was accepted and everything that has been taken out, in order. */
  datatype Traffic = Traffic(written: string, read: string)

  function TrafficStep(t: Traffic, q: string, op: Op): Traffic {
    match op
    case Write(data) => t.(written := t.written + data)
    case Put(c) => t.(written := t.written + [c])
    case Consume(n) => t.(read := t.read + q[..Min(n, |q|)])
  }

  function QueueRun(maxSize: nat, ops: seq<Op>): Option<string> {
    if ops == [] then Some([])
    else
      var before := QueueRun(maxSize, ops[..|ops| - 1]);
      if before.None? then None else QueueStep(maxSize, before.value, ops[|ops| - 1])
  }

  function TrafficRun(maxSize: nat, ops: seq<Op>): Traffic {
    if ops == [] then Traffic([], [])
    else
      var n := |ops| - 1;
      var before := QueueRun(maxSize, ops[..n]);
      if before.None? then TrafficRun(maxSize, ops[..n])
      else TrafficStep(TrafficRun(maxSize, ops[..n]), before.value, ops[n])
  }

  /** First in, first out: what was read and what is still queued is what was written; and
      the queue is never longer than its bound. */
  lemma {:induction false} FirstInFirstOut(maxSize: nat, ops: seq<Op>)
    requires QueueRun(maxSize, ops).Some?
    ensures var t := TrafficRun(maxSize, ops); t.read + QueueRun(maxSize, ops).value == t.written
    ensures |QueueRun(maxSize, ops).value| <= maxSize
  {
    if ops != [] {
      var n := |ops| - 1;
      FirstInFirstOut(maxSize, ops[..n]);
      var q := QueueRun(maxSize, ops[..n]).value;
      if ops[n].Consume? {
        assert q == q[..Min(ops[n].n, |q|)] + q[Min(ops[n].n, |q|)..];
      }
    }
  }

  /** How many characters a successful operation moves from one sequence to another. */
  function Moved(maxSize: nat, q: string, op: Op): nat {
    match op
    case Write(data) => if |q| + |data| <= maxSize then |data| else 0
    case Put(c) => 0
    case Consume(n) => Min(n, |q|)
  }

  /** No operation moves more characters at once than an `int` can count. */
  ghost predicate MovesFit(maxSize: nat, ops: seq<Op>) {
    ops != [] ==>
      var n := |ops| - 1;
      var before := QueueRun(maxSize, ops[..n]);
      MovesFit(maxSize, ops[..n]) && (before.Some? ==> Moved(maxSize, before.value, ops[n]) <= INT_MAX)
  }

  /** That is so for any operations when the bound itself fits. */
  lemma {:induction false} SmallBufferFits(maxSize: nat, ops: seq<Op>)
    requires maxSize <= INT_MAX
    ensures MovesFit(maxSize, ops)
  {
    if ops != [] {
      var n := |ops| - 1;
      SmallBufferFits(maxSize, ops[..n]);
      if QueueRun(maxSize, ops[..n]).Some? {
        FirstInFirstOut(maxSize, ops[..n]);
      }
    }
  }

  // When it throws

  /** The queued characters after a failed `reserve`: they were moved to the front of the
      array, but the positions still point `g` places further on. */
  function AfterThrow(q: string, g: nat): (r: string)
    ensures |r| == |q|
  {
    seq(|q|, i requires 0 <= i < |q| => if g + i < |q| then q[g + i] else q[i])
  }

  /** A failed `reserve` leaves every possible contents intact exactly when nothing has been
      read yet, or at least as much has been read as is queued. */
  lemma {:induction false} ThrowKeepsContents(size: nat, g: nat)
    ensures (forall q: string :: |q| == size ==> AfterThrow(q, g) == q) <==> g == 0 || g >= size
  {
    if 0 < g < size {
      var q: string := seq(size, i => if i == 0 then 'a' else 'b');
      assert AfterThrow(q, g)[0] == 'b';
      assert AfterThrow(q, g) != q;
    }
  }

  // The code

  class BasicStreambuf {
    const maxSize: nat
    var buffer: array<char>
    /** Offsets of `gptr`, `egptr`, `pptr` and `epptr`. */
    var gnext: int
    var gend: int
    var pnext: int
    var pend: int

    ghost predicate Valid()
      reads this
    {
      && 0 <= gnext <= gend <= pnext <= pend <= maxSize
      && buffer.Length == if pend == 0 then 1 else pend
    }

    /** The input sequence. */
    ghost function Contents(): string
      reads this, buffer
      requires Valid()
    {
      buffer[..][gnext..pnext]
    }

    constructor (maximumSize: nat)
      ensures Valid() && Contents() == [] && maxSize == maximumSize && fresh(buffer) && gnext == 0
    {
      maxSize := maximumSize;
      var end := Min(maximumSize, BUFFER_DELTA);
      buffer := new char[if end == 0 then 1 else end](_ => 0 as char);
      gnext, gend, pnext, pend := 0, 0, 0, end;
    }

    method Size() returns (n: nat)
      requires Valid()
      ensures n == |Contents()| <= maxSize
    {
      n := pnext - gnext;
    }

    /** `memmove` of the queued characters to the front of the array. */
    method MoveToFront()
      requires Valid()
      modifies buffer
      ensures buffer[..pnext - gnext] == old(Contents())
      ensures Contents() == AfterThrow(old(Contents()), gnext)
    {
      var n := pnext - gnext;
      forall i | 0 <= i < n {
        buffer[i] := buffer[gnext + i];
      }
    }

    /** Set the positions for `size` characters at the front and an array of `end`. */
    method Rebase(size: nat, end: nat)
      requires Valid() && size <= pend <= end <= maxSize
      modifies this
      ensures Valid() && pnext == size && pend == end && (buffer == old(buffer) || fresh(buffer))
      ensures Contents() == old(buffer[..size])
    {
      if end > pend {
        Enlarge(end);
      }
      gnext, gend, pnext, pend := 0, size, size, end;
    }

    /** `vector::resize` to a larger size. */
    method Enlarge(size: nat)
      requires buffer.Length <= size
      modifies `buffer
      ensures fresh(buffer) && buffer.Length == size
      ensures buffer[..old(buffer.Length)] == old(buffer[..])
    {
      var bigger := new char[size](_ => 0 as char);
      forall i | 0 <= i < buffer.Length {
        bigger[i] := buffer[i];
      }
      buffer := bigger;
    }

    /** Room for `n` characters, found without changing what is queued, unless that would
        exceed the bound. `false` where the source throws. */
    method Reserve(n: nat) returns (ok: bool)
      requires Valid()
      modifies this, buffer
      ensures Valid() && (buffer == old(buffer) || fresh(buffer))
      ensures ok <==> |old(Contents())| + n <= maxSize
      ensures ok ==> Contents() == old(Contents()) && n <= pend - pnext && (gnext == 0 || gnext == old(gnext))
      ensures !ok ==> Contents() == AfterThrow(old(Contents()), gnext) && gnext == old(gnext)
    {
      if n <= pend - pnext {
        return true;
      }
      var end := pnext - gnext;
      MoveToFront();
      if n > pend - end {
        if n <= maxSize && end <= maxSize - n {
          Rebase(end, end + n);
        } else {
          return false;
        }
      } else {
        Rebase(end, pend);
      }
      ok := true;
    }

    /** The output area handed out starts at `pnext`. */
    method Prepare(n: nat) returns (ok: bool)
      requires Valid()
      modifies this, buffer
      ensures Valid() && (buffer == old(buffer) || fresh(buffer))
      ensures ok <==> |old(Contents())| + n <= maxSize
      ensures ok ==> Contents() == old(Contents()) && n <= pend - pnext && (gnext == 0 || gnext == old(gnext))
      ensures !ok ==> Contents() == AfterThrow(old(Contents()), gnext) && gnext == old(gnext)
    {
      ok := Reserve(n);
    }

    /** What the output area contains becomes readable. The position moves as far as it should
        exactly when the number of characters fits an `int`. */
    method Commit(n: nat)
      requires Valid()
      modifies `pnext, `gend
      ensures var k := Min(n, old(pend - pnext)); pnext == old(pnext) + k <==> k <= INT_MAX
      ensures var k := Min(n, old(pend - pnext));
              k <= INT_MAX ==> Valid() && Contents() == old(Contents()) + old(buffer[pnext..pnext + k])
    {
      pnext := pnext + ToInt(Min(n, pend - pnext));
      gend := pnext;
    }

    /** Removes characters from the front; the same proviso. */
    method Consume(n: nat)
      requires Valid()
      modifies `gnext, `gend
      ensures var k := Min(n, |old(Contents())|); gnext == old(gnext) + k <==> k <= INT_MAX
      ensures var k := Min(n, |old(Contents())|); k <= INT_MAX ==> Valid() && Contents() == old(Contents())[k..]
    {
      if gend < pnext {
        gend := pnext;
      }
      var k: nat := if gnext + n > pnext then pnext - gnext else n;
      ghost var all, q, g := buffer[..], Contents(), gnext;
      gnext := gnext + ToInt(k);
      assert gnext == g + k <==> k <= INT_MAX;
      if k <= INT_MAX {
        FrontDropped(all, q, g, k);
      }
      assert |q| == pnext - g && k == Min(n, |q|);
    }

    lemma {:induction false} FrontDropped(all: string, q: string, g: int, k: nat)
      requires 0 <= g <= g + k == gnext <= gend == pnext <= pend <= maxSize
      requires buffer.Length == if pend == 0 then 1 else pend
      requires buffer[..] == all && q == all[g..pnext]
      ensures Valid() && Contents() == q[k..]
    {
    }

    /** The next character, which stays in the queue; `None` stands for end of file. */
    method Underflow() returns (c: Option<char>)
      requires Valid()
      modifies `gend
      ensures Valid() && Contents() == old(Contents())
      ensures c == if Contents() == [] then None else Some(Contents()[0])
      ensures c.Some? ==> gnext < gend
    {
      if gnext < pnext {
        gend := pnext;
        c := Some(buffer[gnext]);
      } else {
        c := None;
      }
    }

    method Store(c: char)
      requires Valid() && pnext < pend
      modifies `pnext, buffer
      ensures Valid() && Contents() == old(Contents()) + [c]
    {
      ghost var q := Contents();
      buffer[pnext] := c;
      assert Contents() == q;
      pnext := pnext + 1;
    }

    /** Appends one character; `None` is end of file and appends nothing. */
    method Overflow(c: Option<char>) returns (ok: bool)
      requires Valid()
      modifies this, buffer
      ensures Valid() && (buffer == old(buffer) || fresh(buffer))
      ensures c.None? ==> ok && Contents() == old(Contents())
      ensures c.Some? ==> (ok <==> |old(Contents())| < maxSize)
      ensures c.Some? && ok ==> Contents() == old(Contents()) + [c.value]
      ensures !ok ==> Contents() == AfterThrow(old(Contents()), gnext) && gnext == old(gnext)
    {
      if c.None? {
        return true;
      }
      if pnext == pend {
        var size := pnext - gnext;
        if size < maxSize && maxSize - size < BUFFER_DELTA {
          ok := Reserve(maxSize - size);
        } else {
          ok := Reserve(BUFFER_DELTA);
        }
        if !ok {
          return;
        }
      }
      Store(c.value);
      ok := true;
    }

    /** The way a reader of a socket uses the object: prepare, fill the area, commit. */
    method Write(data: string) returns (ok: bool)
      requires Valid() && (|Contents()| + |data| <= maxSize ==> |data| <= INT_MAX)
      modifies this, buffer
      ensures Valid() && (buffer == old(buffer) || fresh(buffer))
      ensures ok <==> |old(Contents())| + |data| <= maxSize
      ensures ok ==> Contents() == old(Contents()) + data && (gnext == 0 || gnext == old(gnext))
    {
      ok := Prepare(|data|);
      if ok {
        FillArea(data);
        Commit(|data|);
      }
    }

    /** What the caller of `Prepare` does with the area it gets. */
    method FillArea(data: string)
      requires Valid() && |data| <= pend - pnext
      modifies buffer
      ensures Contents() == old(Contents()) && buffer[pnext..pnext + |data|] == data
    {
      ghost var q := Contents();
      forall i | 0 <= i < |data| {
        buffer[pnext + i] := data[i];
      }
      assert Contents() == q;
    }
  }

  method Perform(sb: BasicStreambuf, op: Op) returns (ok: bool)
    requires sb.Valid() && Moved(sb.maxSize, sb.Contents(), op) <= INT_MAX
    modifies sb, sb.buffer
    ensures sb.Valid() && (sb.buffer == old(sb.buffer) || fresh(sb.buffer))
    ensures var r := QueueStep(sb.maxSize, old(sb.Contents()), op);
            if ok then r == Some(sb.Contents()) else r.None?
  {
    match op
    case Write(data) => ok := sb.Write(data);
    case Put(c) => ok := sb.Overflow(Some(c));
    case Consume(n) => sb.Consume(n); ok := true;
  }

  /** Any sequence of operations from the start: the queue's answers, up to the first throw. */
  method Replay(maxSize: nat, ops: seq<Op>) returns (sb: BasicStreambuf, done: nat)
    requires MovesFit(maxSize, ops)
    ensures fresh(sb) && sb.Valid() && sb.maxSize == maxSize && done <= |ops|
    ensures done < |ops| ==> QueueRun(maxSize, ops[..done + 1]).None?
    ensures done == |ops| ==> QueueRun(maxSize, ops) == Some(sb.Contents())
  {
    sb := new BasicStreambuf(maxSize);
    done := 0;
    while done < |ops|
      invariant done <= |ops| && fresh(sb) && fresh(sb.buffer) && sb.Valid() && sb.maxSize == maxSize
      invariant QueueRun(maxSize, ops[..done]) == Some(sb.Contents())
    {
      MovesFitPrefix(maxSize, ops, done + 1);
      assert ops[..done + 1][..done] == ops[..done];
      var ok := Perform(sb, ops[done]);
      if !ok {
        return;
      }
      done := done + 1;
    }
    assert ops[..done] == ops;
  }

  lemma {:induction false} MovesFitPrefix(maxSize: nat, ops: seq<Op>, n: nat)
    requires MovesFit(maxSize, ops) && n <= |ops|
    ensures MovesFit(maxSize, ops[..n])
  {
    if n < |ops| {
      var before := ops[..|ops| - 1];
      MovesFitPrefix(maxSize, before, n);
      assert before[..n] == ops[..n];
    } else {
      assert ops[..n] == ops;
    }
  }

  /** A reachable throw that does damage: with room for four, "abc" is written and its first
      character consumed; asking for room for three fails, and "bc" has become "cc". */
  method ThrowDoesDamage() returns (before: string, ok: bool, after: string)
    ensures before == "bc" && !ok && after == "cc"
  {
    var sb := new BasicStreambuf(4);
    ok := sb.Write("abc");
    sb.Consume(1);
    before := sb.buffer[sb.gnext..sb.pnext];
    assert "abc"[1..] == "bc";
    ok := sb.Prepare(3);
    after := sb.buffer[sb.gnext..sb.pnext];
    assert sb.gnext == 1;
  }
}
