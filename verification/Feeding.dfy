/** Cutting the file into chunks (`src/DataProcessor.cpp`) and a chunk into packet payloads
    (`ClientSender::generatePacketsData`). Both are the same cutting, `Pieces`. */
module Feeding {
  import opened Modular
  import opened Widths
  import opened Packets
  import opened Sequences

  // The cutting

  /** Consecutive pieces of length `n`, the last one possibly shorter but not empty. */
  function Pieces(s: string, n: pos): seq<string> {
    if s == [] then []
    else if |s| <= n then [s]
    else [s[..n]] + Pieces(s[n..], n)
  }

  /** The payloads of the file, chunk by chunk. */
  function Payloads(file: string, chunkSize: pos, packetSize: pos): seq<seq<string>> {
    PayloadsOf(Pieces(file, chunkSize), packetSize)
  }

  function PayloadsOf(chunks: seq<string>, packetSize: pos): seq<seq<string>> {
    if chunks == [] then [] else [Pieces(chunks[0], packetSize)] + PayloadsOf(chunks[1..], packetSize)
  }

  /** No piece is empty or too long. */
  ghost predicate Sized(ps: seq<string>, n: nat) {
    forall i :: 0 <= i < |ps| ==> 1 <= |ps[i]| <= n
  }

  /** Cutting loses and changes nothing, and no piece is empty or too long. */
  lemma {:induction false} PiecesJoin(s: string, n: pos)
    ensures Flatten(Pieces(s, n)) == s && Sized(Pieces(s, n), n)
  {
    if s == [] {
    } else if |s| <= n {
      FlattenCons(s, []);
    } else {
      PiecesJoin(s[n..], n);
      FlattenCons(s[..n], Pieces(s[n..], n));
      assert s[..n] + s[n..] == s;
    }
  }

  lemma {:induction false} PayloadsJoin(chunks: seq<string>, packetSize: pos)
    ensures Flatten(Flatten(PayloadsOf(chunks, packetSize))) == Flatten(chunks)
    ensures Sized(Flatten(PayloadsOf(chunks, packetSize)), packetSize)
  {
    if chunks != [] {
      var first, rest := Pieces(chunks[0], packetSize), PayloadsOf(chunks[1..], packetSize);
      PayloadsJoin(chunks[1..], packetSize);
      PiecesJoin(chunks[0], packetSize);
      FlattenCons(first, rest);
      FlattenAppend(first, Flatten(rest));
      SplitFirst(chunks);
    }
  }

  lemma {:induction false} SplitFirst(chunks: seq<string>)
    requires chunks != []
    ensures Flatten(chunks) == chunks[0] + Flatten(chunks[1..])
  {
    FlattenCons(chunks[0], chunks[1..]);
    assert [chunks[0]] + chunks[1..] == chunks;
  }

  /** All payloads in order are the file, each between 1 and `packetSize` characters. */
  lemma {:induction false} FileConserved(file: string, chunkSize: pos, packetSize: pos)
    ensures var ps := Flatten(Payloads(file, chunkSize, packetSize)); Flatten(ps) == file && Sized(ps, packetSize)
  {
    PiecesJoin(file, chunkSize);
    PayloadsJoin(Pieces(file, chunkSize), packetSize);
  }

  // Counting pieces by division

  lemma {:induction false} PiecesCount(s: string, n: pos)
    ensures |Pieces(s, n)| == Laps(|s|, n) + (if Mod(|s|, n) > 0 then 1 else 0)
  {
    if |s| > n {
      PiecesCount(s[n..], n);
    } else if |s| == n {
      assert Laps(|s|, n) == 1 + Laps(0, n) && Mod(|s|, n) == Mod(0, n);
    }
  }

  /** Taking off the first piece: a full one, or all that is left. */
  lemma {:induction false} FirstPiece(s: string, n: pos, size: nat)
    requires size == n <= |s| || 0 < size == |s| < n
    ensures Pieces(s, n) == [s[..size]] + Pieces(s[size..], n)
  {
    if size == |s| {
      assert s[..size] == s && s[size..] == [];
    }
  }

  /** Adding a full piece at the end. */
  lemma {:induction false} LastPiece(s: string, t: string, n: pos)
    requires Mod(|s|, n) == 0 && |t| == n
    ensures Pieces(s + t, n) == Pieces(s, n) + [t] && Mod(|s + t|, n) == 0
  {
    if s == [] {
      assert s + t == t && Mod(n, n) == Mod(0, n);
    } else {
      LastPiece(s[n..], t, n);
      assert (s + t)[..n] == s[..n] && (s + t)[n..] == s[n..] + t;
      assert Mod(|s + t|, n) == Mod(|s[n..] + t|, n);
      if |s| == n {
        assert s[..n] == s && s[n..] == [];
      }
    }
  }

  lemma {:induction false} FirstPayload(chunk: string, rest: seq<string>, packetSize: pos)
    ensures PayloadsOf([chunk] + rest, packetSize) == [Pieces(chunk, packetSize)] + PayloadsOf(rest, packetSize)
  {
    assert ([chunk] + rest)[1..] == rest;
  }

  lemma {:induction false} PayloadsAppend(chunks: seq<string>, chunk: string, packetSize: pos)
    ensures PayloadsOf(chunks + [chunk], packetSize) == PayloadsOf(chunks, packetSize) + [Pieces(chunk, packetSize)]
  {
    if chunks == [] {
      assert [] + [chunk] == [chunk] && [chunk][1..] == [];
    } else {
      PayloadsAppend(chunks[1..], chunk, packetSize);
      assert (chunks + [chunk])[1..] == chunks[1..] + [chunk];
    }
  }

  // The arithmetic of the constructor

  /** C++ division and remainder: towards zero, the remainder with the dividend's sign. */
  function CDiv(a: int, m: pos): int {
    if a >= 0 then a / m else -((-a) / m)
  }

  function CMod(a: int, m: pos): int {
    if a >= 0 then a % m else -((-a) % m)
  }

  /** Quotient and remainder give the number back; the remainder is smaller than the divisor and
      has the sign of the number. */
  lemma {:induction false} TowardsZero(a: int, m: pos)
    ensures CDiv(a, m) * m + CMod(a, m) == a
    ensures if a >= 0 then 0 <= CMod(a, m) < m else 0 < m + CMod(a, m) <= m
  {
    if a >= 0 {
      QuotientRemainder(a, m);
    } else {
      QuotientRemainder(-a, m);
      var q := (-a) / m;
      assert (-q) * m == -(q * m);
    }
  }

  /** The planned number of chunks is negative: no chunk index reached by counting up is the
      planned end, until an `int` overflows. */
  predicate Runaway(length: nat, chunkSize: pos) {
    CDiv(ToInt(length), chunkSize) < 0
  }

  /** How many chunks can then be read before the index, or the difference of the plan and the
      index, overflows: what happens after that the code leaves undefined. */
  function Countable(length: nat, chunkSize: pos): int {
    INT_MAX + 1 + CDiv(ToInt(length), chunkSize)
  }

  /** The part of a file that is read when reading does stop. */
  function ReadPart(file: string): string {
    if ToInt(|file|) >= 0 then file[..ToInt(|file|)] else []
  }

  /** The first `n` characters of the file, zeros behind its end. */
  function Filled(file: string, n: nat): (r: string)
    ensures |r| == n
  {
    if n <= |file| then file[..n] else file + seq(n - |file|, _ => 0 as char)
  }

  /** `size` characters from position `at` on, zeros behind the end of the file. */
  function Supply(file: string, at: nat, size: nat): (r: string)
    requires at <= |file|
    ensures |r| == size
  {
    if size <= |file| - at then file[at..at + size] else file[at..] + seq(size - (|file| - at), _ => 0 as char)
  }

  lemma {:induction false} SupplyOfPart(file: string, part: string, at: nat, size: nat)
    requires part <= file && at + size <= |part|
    ensures Supply(file, at, size) == part[at..][..size]
    ensures part[at..][size..] == part[at + size..]
  {
  }

  lemma {:induction false} FilledMore(file: string, wanted: nat, size: nat)
    ensures Filled(file, wanted + size)
            == Filled(file, wanted) + Supply(file, if wanted <= |file| then wanted else |file|, size)
  {
  }

  /** What is read of a file: `ReadPart`; or, when there is no planned end, the first `n` chunks
      of the file and then zeros. */
  function Fed(file: string, chunkSize: pos, n: nat): string {
    if Runaway(|file|, chunkSize) then Filled(file, n * chunkSize) else ReadPart(file)
  }

  /** The whole file is read, and no more, exactly when its length fits an `int`. */
  lemma {:induction false} PlanCoversFile(file: string, chunkSize: pos)
    ensures !Runaway(|file|, chunkSize) && ReadPart(file) == file <==> |file| <= INT_MAX
  {
    var size := ToInt(|file|);
    if size >= 0 {
      LapsIsQuotient(size, chunkSize);
    }
    assert |file| > INT_MAX ==> |ReadPart(file)| < |file|;
  }

  /** There is no planned end exactly when the length as an `int` is minus a chunk or less. */
  lemma {:induction false} RunawayExact(length: nat, chunkSize: pos)
    ensures Runaway(length, chunkSize) <==> ToInt(length) + chunkSize <= 0
    ensures 0 <= Countable(length, chunkSize)
    ensures Runaway(length, chunkSize) ==> Countable(length, chunkSize) <= INT_MAX
  {
    var size := ToInt(length);
    ToIntLow(length);
    LapsIsQuotient(if size >= 0 then size else -size, chunkSize);
    LapsBound(if size >= 0 then size else -size, chunkSize);
  }

  lemma {:induction false} LapsBound(a: nat, m: pos)
    ensures Laps(a, m) <= a
  {
    if a >= m {
      LapsBound(a - m, m);
    }
  }

  /** Reading stays inside the file, as far as its chunks can be counted, exactly when there is a
      planned end or all the chunks that can be counted are not longer than the file. */
  lemma {:induction false} InsideExact(file: string, chunkSize: pos)
    ensures (forall n: nat :: n <= Countable(|file|, chunkSize) ==> Fed(file, chunkSize, n) <= file)
       <==> !Runaway(|file|, chunkSize) || Countable(|file|, chunkSize) * chunkSize <= |file|
  {
    RunawayExact(|file|, chunkSize);
    var most: nat := Countable(|file|, chunkSize);
    if Runaway(|file|, chunkSize) && most * chunkSize <= |file| {
      forall n: nat | n <= most ensures Fed(file, chunkSize, n) <= file {
        ProductGrows(n, most, chunkSize);
      }
    } else if Runaway(|file|, chunkSize) {
      assert |Fed(file, chunkSize, most)| > |file|;
    }
  }

  lemma {:induction false} ProductGrows(a: nat, b: nat, c: nat)
    requires a <= b
    ensures a * c <= b * c
    decreases b
  {
    if a < b {
      ProductGrows(a, b - 1, c);
      NextProduct(b - 1, c);
    }
  }

  /** Files too long for an `int`, in the program's chunks of 2^18 characters: of 2^32 + 5
      characters 5 are read and of 2^32 - 1 none. Of 2^32 - 2^18 characters all are read in
      2^14 - 1 chunks, and then a chunk of zeros. */
  lemma {:induction false} LongFiles(file: string, whole: string, other: string)
    requires |file| == TWO32 + 5 && |whole| == TWO32 - 1 && |other| == TWO32 - 0x4_0000
    ensures !Runaway(|file|, 0x4_0000) && ReadPart(file) == file[..5]
    ensures !Runaway(|whole|, 0x4_0000) && ReadPart(whole) == []
    ensures Runaway(|other|, 0x4_0000) && 0x4000 <= Countable(|other|, 0x4_0000)
    ensures Fed(other, 0x4_0000, 0x4000) == other + seq(0x4_0000, _ => 0 as char)
  {
    assert Mod(TWO32 + 5, TWO32) == 5;
    RunawayExact(|whole|, 0x4_0000);
    RunawayExact(|other|, 0x4_0000);
    assert ToInt(|other|) == -0x4_0000;
  }

  // The reader object

  /** Before chunk number `index`, of `full` full ones and one of length `last` if that is
      positive, what is left of the text fits the plan. */
  ghost predicate Left(rest: string, n: pos, full: int, last: int, index: nat) {
    && full >= 0 && index <= full + (if last > 0 then 1 else 0)
    && (index <= full ==> Laps(|rest|, n) == full - index && Mod(|rest|, n) == if last > 0 then last else 0)
    && (index > full ==> rest == [])
  }

  /** The size read next is that of the next piece. */
  lemma {:induction false} LeftNext(rest: string, n: pos, full: int, last: int, index: nat)
    requires Left(rest, n, full, last, index) && last < n && index != full + (if last > 0 then 1 else 0)
    ensures var size: int := if index == full then last else n;
            && 0 < size <= |rest| && Left(rest[size..], n, full, last, index + 1)
            && Pieces(rest, n) == [rest[..size]] + Pieces(rest[size..], n)
  {
    FirstPiece(rest, n, if index == full then last else n);
  }

  /** There is nothing left exactly when all chunks planned are read. */
  lemma {:induction false} LeftCount(rest: string, n: pos, full: int, last: int, index: nat)
    requires Left(rest, n, full, last, index)
    ensures |Pieces(rest, n)| == full + (if last > 0 then 1 else 0) - index
    ensures rest == [] <==> index == full + (if last > 0 then 1 else 0)
  {
    PiecesCount(rest, n);
  }

  class DataProcessor {
    const file: string
    const chunkSize: pos
    var filePos: nat
    const fileSize: int
    const fullChunks: int
    const lastChunkSize: int
    const totalChunks: int
    var currentChunk: array<char>
    var chunkIndex: nat
    var currentChunkSize: nat
    /** The number of characters asked for so far. */
    ghost var wanted: nat

    /** Reading has a planned end, and then `part` has been read. */
    ghost const stops: bool
    ghost const part: string

    ghost predicate Planned() {
      (stops <==> !Runaway(|file|, chunkSize)) && part == ReadPart(file)
    }

    /** What has not been read yet, when reading stops. */
    ghost function Rest(): string
      reads this
      requires filePos <= |part|
    {
      part[filePos..]
    }

    /** Reading that stops: the chunks left are the pieces of the rest. */
    ghost predicate Stopping()
      reads this
    {
      filePos <= |part| && part <= file && Left(Rest(), chunkSize, fullChunks, lastChunkSize, chunkIndex)
    }

    ghost predicate Valid()
      reads this
    {
      && filePos <= |file| && currentChunk.Length == chunkSize + 1 && currentChunkSize <= chunkSize
      && totalChunks == fullChunks + (if lastChunkSize > 0 then 1 else 0)
      && lastChunkSize < chunkSize
      && if stops then Stopping()
         else fullChunks < 0 && lastChunkSize <= 0 && filePos == if wanted <= |file| then wanted else |file|
    }

    constructor (file: string, chunkSize: pos)
      ensures Valid() && this.file == file && this.chunkSize == chunkSize && fresh(currentChunk)
      ensures filePos == 0 && chunkIndex == 0 && wanted == 0 && fileSize == ToInt(|file|) && Planned()
    {
      this.file, this.chunkSize := file, chunkSize;
      var size := ToInt(|file|);
      var full, last := CDiv(size, chunkSize), CMod(size, chunkSize);
      fileSize, fullChunks, lastChunkSize := size, full, last;
      totalChunks := full + (if last > 0 then 1 else 0);
      chunkIndex, currentChunkSize, filePos, wanted := 0, 0, 0, 0;
      stops, part := !Runaway(|file|, chunkSize), ReadPart(file);
      currentChunk := new char[chunkSize + 1](_ => 0 as char);
      new;
      LapsIsQuotient(if size >= 0 then size else -size, chunkSize);
      assert Rest() == part;
    }

    method RemainingChunks() returns (r: int)
      requires Valid()
      ensures if stops then r == |Pieces(Rest(), chunkSize)| else r < 0
    {
      r := totalChunks - chunkIndex;
      if stops {
        LeftCount(Rest(), chunkSize, fullChunks, lastChunkSize, chunkIndex);
      }
    }

    /** Reads the next chunk into the buffer; `present` is false where the source returns null.
        Reading without a planned end goes on with zeros behind the end of the file. */
    method ReadChunk() returns (present: bool)
      requires Valid()
      modifies this, currentChunk
      ensures Valid() && currentChunk == old(currentChunk)
      ensures stops ==> (present <==> old(Rest()) != [])
      ensures stops && present ==>
                Pieces(old(Rest()), chunkSize) == [currentChunk[..currentChunkSize]] + Pieces(Rest(), chunkSize)
      ensures !stops ==> present && currentChunkSize == chunkSize && wanted == old(wanted) + chunkSize
      ensures !stops ==> Filled(file, wanted) == Filled(file, old(wanted)) + currentChunk[..currentChunkSize]
    {
      if stops {
        LeftCount(Rest(), chunkSize, fullChunks, lastChunkSize, chunkIndex);
      }
      if chunkIndex == totalChunks {
        return false;
      }
      if stops {
        LeftNext(Rest(), chunkSize, fullChunks, lastChunkSize, chunkIndex);
      }
      var size := if chunkIndex == fullChunks then lastChunkSize else chunkSize;
      NextText(size);
      FillBuffer(size);
      currentChunkSize := size;
      chunkIndex := chunkIndex + 1;
      present := true;
    }

    /** What the next `size` characters are: of the part read, or of the file and zeros. */
    lemma {:induction false} NextText(size: nat)
      requires Valid() && (stops ==> size <= |Rest()|)
      ensures stops ==> Supply(file, filePos, size) == Rest()[..size] && Rest()[size..] == part[filePos + size..]
      ensures !stops ==> Filled(file, wanted + size) == Filled(file, wanted) + Supply(file, filePos, size)
    {
      if stops {
        SupplyOfPart(file, part, filePos, size);
      } else {
        FilledMore(file, wanted, size);
      }
    }

    /** `file.read` into the cleared buffer. */
    method FillBuffer(size: nat)
      requires filePos <= |file| && size <= chunkSize && currentChunk.Length == chunkSize + 1
      modifies `filePos, `wanted, currentChunk
      ensures filePos == (if size <= |file| - old(filePos) then old(filePos) + size else |file|)
      ensures wanted == old(wanted) + size
      ensures currentChunk[..size] == Supply(file, old(filePos), size)
    {
      forall i | 0 <= i < currentChunk.Length {
        currentChunk[i] := 0 as char;
      }
      var n := if size <= |file| - filePos then size else |file| - filePos;
      forall i | 0 <= i < n {
        currentChunk[i] := file[filePos + i];
      }
      assert currentChunk[..size] == Supply(file, filePos, size);
      filePos := filePos + n;
      wanted := wanted + size;
    }
  }

  /** Quotient and remainder by the machine's operators. */
  method Divide(a: nat, m: pos) returns (q: nat, r: nat)
    ensures q == Laps(a, m) && r == Mod(a, m)
  {
    q, r := a / m, a % m;
    LapsIsQuotient(a, m);
  }

  /** `generatePacketsData`: the chunk in the buffer cut into payloads. */
  method GeneratePacketsData(raw: array<char>, dataSize: nat, packetSize: pos) returns (result: seq<string>)
    requires dataSize <= raw.Length
    ensures result == Pieces(raw[..dataSize], packetSize)
  {
    result := [];
    var full, last := Divide(dataSize, packetSize);
    var total := full + (if last > 0 then 1 else 0);
    var packetIdx := 0;
    ghost var rest, from := raw[..dataSize], 0;
    ghost var all := Pieces(rest, packetSize);
    PiecesCount(rest, packetSize);
    while packetIdx < total
      invariant packetIdx <= total && from == packetIdx * packetSize
      invariant all == result + Pieces(rest, packetSize)
      invariant if packetIdx > full then rest == []
        else from <= dataSize && rest == raw[from..dataSize]
             && Laps(|rest|, packetSize) == full - packetIdx && Mod(|rest|, packetSize) == last
    {
      var size := if packetIdx == full then last else packetSize;
      var payload := CopyOut(raw, dataSize, packetIdx * packetSize, size);
      FirstPiece(rest, packetSize, size);
      Append(result, payload, Pieces(rest[size..], packetSize));
      NextProduct(packetIdx, packetSize);
      from, rest := from + packetSize, rest[size..];
      result := result + [payload];
      packetIdx := packetIdx + 1;
    }
    assert rest == [];
  }

  /** `std::string(raw + at, raw + at + size)`. */
  method CopyOut(raw: array<char>, ghost end: nat, at: nat, size: nat) returns (payload: string)
    requires at + size <= end <= raw.Length
    ensures payload == raw[at..end][..size] && raw[at + size..end] == raw[at..end][size..]
  {
    payload := raw[at..at + size];
  }

  lemma {:induction false} Append<T>(xs: seq<T>, y: T, zs: seq<T>)
    ensures xs + ([y] + zs) == xs + [y] + zs
  {
  }

  lemma {:induction false} NextProduct(k: nat, n: nat)
    ensures (k + 1) * n == k * n + n
  {
  }

  /** The reading side of `while (sendChunk())`: every chunk is read and cut, and the loop ends. */
  method ReadAll(dp: DataProcessor, packetSize: pos) returns (payloads: seq<seq<string>>)
    requires dp.Valid() && dp.Planned() && dp.stops && dp.filePos == 0
    modifies dp, dp.currentChunk
    ensures payloads == Payloads(ReadPart(dp.file), dp.chunkSize, packetSize)
  {
    payloads := [];
    var remaining := dp.RemainingChunks();
    assert dp.Rest() == dp.part;
    while remaining != 0
      invariant dp.Valid() && dp.currentChunk == old(dp.currentChunk)
      invariant remaining == |Pieces(dp.Rest(), dp.chunkSize)|
      invariant Payloads(dp.part, dp.chunkSize, packetSize)
             == payloads + PayloadsOf(Pieces(dp.Rest(), dp.chunkSize), packetSize)
      decreases remaining
    {
      ghost var before := Pieces(dp.Rest(), dp.chunkSize);
      var present := dp.ReadChunk();
      var packets := GeneratePacketsData(dp.currentChunk, dp.currentChunkSize, packetSize);
      ghost var rest := Pieces(dp.Rest(), dp.chunkSize);
      FirstPayload(dp.currentChunk[..dp.currentChunkSize], rest, packetSize);
      Append(payloads, packets, PayloadsOf(rest, packetSize));
      payloads := payloads + [packets];
      remaining := dp.RemainingChunks();
    }
  }

  /** The first `n` rounds of the same loop when there is no planned end: as long as the chunks
      can be counted there is always another one. */
  method ReadSome(dp: DataProcessor, packetSize: pos, n: nat) returns (payloads: seq<seq<string>>, remaining: int)
    requires dp.Valid() && dp.Planned() && !dp.stops && dp.wanted == 0
    requires n <= Countable(|dp.file|, dp.chunkSize)
    modifies dp, dp.currentChunk
    ensures |payloads| == n && remaining != 0
    ensures payloads == Payloads(Fed(dp.file, dp.chunkSize, n), dp.chunkSize, packetSize)
  {
    payloads := [];
    remaining := dp.RemainingChunks();
    var i := 0;
    while i < n
      invariant i <= n && |payloads| == i && remaining != 0
      invariant dp.Valid() && dp.currentChunk == old(dp.currentChunk)
      invariant dp.wanted == i * dp.chunkSize && Mod(dp.wanted, dp.chunkSize) == 0
      invariant payloads == Payloads(Filled(dp.file, dp.wanted), dp.chunkSize, packetSize)
    {
      ghost var before := Filled(dp.file, dp.wanted);
      var present := dp.ReadChunk();
      var packets := GeneratePacketsData(dp.currentChunk, dp.currentChunkSize, packetSize);
      ghost var chunk := dp.currentChunk[..dp.currentChunkSize];
      LastPiece(before, chunk, dp.chunkSize);
      PayloadsAppend(Pieces(before, dp.chunkSize), chunk, packetSize);
      NextProduct(i, dp.chunkSize);
      payloads := payloads + [packets];
      remaining := dp.RemainingChunks();
      i := i + 1;
    }
  }
}
