/** The sender's fields, with indices that wrap round `M` slots, against the protocol with
    unbounded packet numbers. Each small step of the code is matched with its protocol step;
    the handlers follow. */
module Refinement {
  import opened Options
  import opened Packets
  import opened Modular
  import opened Window
  import Rtt
  import P = GoBackN

  // The relation

  /** The slot of packet `k` contains packet `k`, with the right flags. */
  ghost predicate InSlot(m: nat, slots: seq<Option<Pkt>>, sent: seq<string>, times: seq<int>,
                         repeated: set<nat>, named: set<nat>, k: nat)
    requires m > 0
  {
    && k < |sent| && k < |times| && |slots| == m
    && slots[Mod(k, m)] == Some(Pkt(Mod(k, m), sent[k], times[k], k in repeated, k in named))
  }

  ghost predicate Filled(m: nat, slots: seq<Option<Pkt>>, sent: seq<string>, times: seq<int>,
                         repeated: set<nat>, named: set<nat>, lo: int)
    requires m > 0
  {
    forall k: nat :: lo <= k < |sent| ==> InSlot(m, slots, sent, times, repeated, named, k)
  }

  ghost predicate Holds(cfg: Config, c: Core, a: P.Protocol, k: nat) {
    InSlot(cfg.m, c.slots, a.sent, a.times, a.repeated, a.named, k)
  }

  /** Every packet from number `lo` on is in its slot. */
  ghost predicate SlotsHold(cfg: Config, c: Core, a: P.Protocol, lo: int) {
    Filled(cfg.m, c.slots, a.sent, a.times, a.repeated, a.named, lo)
  }

  /** The texts of the packets the protocol put on the wire. */
  function WireOf(cfg: Config, sent: seq<string>, log: seq<nat>): seq<string>
    requires forall i :: 0 <= i < |log| ==> log[i] < |sent|
  {
    if log == [] then []
    else
      var k := log[|log| - 1];
      WireOf(cfg, sent, log[..|log| - 1]) + [cfg.text(Mod(k, cfg.m), sent[k])]
  }

  lemma {:induction false} WireLater(cfg: Config, sent: seq<string>, data: string, log: seq<nat>)
    requires forall i :: 0 <= i < |log| ==> log[i] < |sent|
    ensures WireOf(cfg, sent + [data], log) == WireOf(cfg, sent, log)
  {
    if log != [] {
      WireLater(cfg, sent, data, log[..|log| - 1]);
    }
  }

  lemma {:induction false} WireAt(cfg: Config, sent: seq<string>, log: seq<nat>)
    requires forall i :: 0 <= i < |log| ==> log[i] < |sent|
    ensures var w := WireOf(cfg, sent, log);
            && |w| == |log|
            && forall i :: 0 <= i < |log| ==> w[i] == cfg.text(Mod(log[i], cfg.m), sent[log[i]])
  {
    if log != [] {
      WireAt(cfg, sent, log[..|log| - 1]);
    }
  }

  lemma {:induction false} WireConcat(cfg: Config, sent: seq<string>, log: seq<nat>, more: seq<nat>)
    requires forall i :: 0 <= i < |log| ==> log[i] < |sent|
    requires forall i :: 0 <= i < |more| ==> more[i] < |sent|
    ensures WireOf(cfg, sent, log + more) == WireOf(cfg, sent, log) + WireOf(cfg, sent, more)
  {
    if more == [] {
      assert log + more == log;
    } else {
      var before := more[..|more| - 1];
      WireConcat(cfg, sent, log, before);
      assert (log + more)[..|log + more| - 1] == log + before;
    }
  }

  ghost predicate Common(cfg: Config, c: Core, a: P.Protocol) {
    && cfg.Ok() && P.Ok(a) && P.Near(a.log, cfg.window) && |c.slots| == cfg.m
    && c.base == Mod(a.base, cfg.m)
    && c.last == (if a.counted == 0 then -1 else Mod(a.counted - 1, cfg.m))
    && c.count == a.counted - a.chunk
    && c.rtt == Rtt.Estimate(Rtt.INITIAL, P.Samples(a.measures))
    && c.wire == WireOf(cfg, a.sent, a.log)
  }

  /** The relation between handler runs. */
  ghost predicate Refines(cfg: Config, c: Core, a: P.Protocol) {
    && Common(cfg, c, a)
    && c.next == Mod(|a.sent|, cfg.m)
    && |a.sent| <= a.base + cfg.window
    && a.counted == a.base && P.LastNamed(a) && a.repeated == a.resent
    && SlotsHold(cfg, c, a, |a.sent| - cfg.m)
  }

  // The tests

  /** The window test is exact, across any number of wrap-arounds. */
  lemma {:induction false} CanAdvanceExact(B: nat, N: nat, window: int, m: int)
    requires 0 < window < m && B <= N <= B + window
    ensures CanAdvance(Mod(B, m), Mod(N, m), window, m) <==> N < B + window
  {
    Gap(B, N, m);
    var b, n := Mod(B, m), Mod(N, m);
    if b > n {
      assert Mod(b + window, m) == Mod(b + window - m, m);
    }
  }

  /** The retransmission loop continues exactly while the index has not reached `next`. */
  lemma {:induction false} InResendExact(B: nat, N: nat, k: nat, window: int, m: int)
    requires 0 < window < m && B <= k <= N <= B + window
    ensures InResend(Mod(N, m), Mod(B, m), window, m, Mod(k, m)) <==> k < N
  {
    Gap(B, N, m);
    Gap(B, k, m);
    Gap(k, N, m);
  }

  /** The slots of the packets `k, k + 1, ..., N - 1`. */
  function Residues(k: nat, N: nat, m: pos): seq<nat>
    decreases N - k
  {
    if k >= N then [] else [Mod(k, m)] + Residues(k + 1, N, m)
  }

  /** The loop goes through the slots of exactly the outstanding packets, in order. */
  lemma {:induction false} LoopIndicesExact(B: nat, N: nat, k: nat, window: nat, m: pos)
    requires 0 < window < m && B <= k <= N <= B + window
    ensures LoopIndices(Mod(N, m), Mod(B, m), window, m, Mod(k, m)) == Residues(k, N, m)
    decreases N - k
  {
    InResendExact(B, N, k, window, m);
    if k < N {
      Successor(k, m);
      LoopIndicesExact(B, N, k + 1, window, m);
    }
  }

  /** The wrap-around case of the count: the number of packets from the last counted one. */
  lemma {:induction false} CountDeltaExact(C: nat, k: nat, m: int)
    requires 0 < m && C <= k < C + m - 1
    ensures CountDelta(Mod(k, m), if C == 0 then -1 else Mod(C - 1, m), m) == k + 1 - C
  {
    if C == 0 {
      assert Mod(k, m) == k;
    } else {
      Gap(C - 1, k, m);
    }
  }

  // Small steps keep the relation

  /** Slots of two different live packets differ. */
  lemma {:induction false} OtherSlot(cfg: Config, k: nat, n: nat)
    requires cfg.Ok() && k != n && k < n + cfg.m && n < k + cfg.m
    ensures Mod(k, cfg.m) != Mod(n, cfg.m)
  {
    if Mod(k, cfg.m) == Mod(n, cfg.m) {
      SameResidue(k, n, cfg.m);
    }
  }

  /** Storing the next packet overwrites only the packet a whole lap behind it. */
  lemma {:induction false} StoreKeeps(cfg: Config, c: Core, a: P.Protocol, data: string)
    requires cfg.Ok() && SlotsHold(cfg, c, a, |a.sent| - cfg.m) && |c.slots| == cfg.m
    ensures var n := Mod(|a.sent|, cfg.m); var c' := Store(cfg, c, n, data);
            && SlotsHold(cfg, c', a, |a.sent| + 1 - cfg.m)
            && c'.slots[n] == Some(Pkt(n, data, 0, false, false))
  {
    var n := Mod(|a.sent|, cfg.m);
    var c' := Store(cfg, c, n, data);
    forall k: nat | |a.sent| + 1 - cfg.m <= k < |a.sent|
      ensures InSlot(cfg.m, c'.slots, a.sent, a.times, a.repeated, a.named, k)
    {
      assert Holds(cfg, c, a, k);
      OtherSlot(cfg, k, |a.sent|);
    }
  }

  lemma {:induction false} TransmitKeeps(cfg: Config, c: Core, a: P.Protocol, data: string, now: int)
    requires Common(cfg, c, a) && SlotsHold(cfg, c, a, |a.sent| + 1 - cfg.m)
    requires c.slots[Mod(|a.sent|, cfg.m)] == Some(Pkt(Mod(|a.sent|, cfg.m), data, 0, false, false))
    ensures var a' := P.Send(a, data, now); var c' := Transmit(cfg, c, Mod(|a.sent|, cfg.m), now);
            Common(cfg, c', a') && SlotsHold(cfg, c', a', |a'.sent| - cfg.m)
  {
    SendLogged(cfg, a, data, now);
    TransmitSlots(cfg, c, a, data, now);
  }

  /** A first transmission in the protocol's log and on the wire. */
  lemma {:induction false} SendLogged(cfg: Config, a: P.Protocol, data: string, now: int)
    requires cfg.Ok() && P.Ok(a) && P.Near(a.log, cfg.window)
    ensures var a' := P.Send(a, data, now);
            && P.Ok(a') && P.Near(a'.log, cfg.window)
            && WireOf(cfg, a'.sent, a'.log) == WireOf(cfg, a.sent, a.log) + [cfg.text(Mod(|a.sent|, cfg.m), data)]
  {
    P.SendKeepsOk(a, data, now);
    WireLater(cfg, a.sent, data, a.log);
    assert P.Send(a, data, now).log[..|a.log|] == a.log;
  }

  lemma {:induction false} TransmitSlots(cfg: Config, c: Core, a: P.Protocol, data: string, now: int)
    requires cfg.Ok() && SlotsHold(cfg, c, a, |a.sent| + 1 - cfg.m) && |c.slots| == cfg.m && |a.times| == |a.sent|
    requires (forall k :: k in a.repeated ==> k < |a.sent|) && (forall k :: k in a.named ==> k < |a.sent|)
    requires c.slots[Mod(|a.sent|, cfg.m)] == Some(Pkt(Mod(|a.sent|, cfg.m), data, 0, false, false))
    ensures SlotsHold(cfg, Transmit(cfg, c, Mod(|a.sent|, cfg.m), now), P.Send(a, data, now), |a.sent| + 1 - cfg.m)
  {
    var n := |a.sent|;
    var a', c' := P.Send(a, data, now), Transmit(cfg, c, Mod(n, cfg.m), now);
    forall k: nat | n + 1 - cfg.m <= k < n + 1
      ensures InSlot(cfg.m, c'.slots, a'.sent, a'.times, a'.repeated, a'.named, k)
    {
      if k < n {
        assert Holds(cfg, c, a, k);
        OtherSlot(cfg, k, n);
      }
    }
  }

  /** Changing the flags of packet `k` in its slot and in the protocol. */
  lemma {:induction false} FlagKeeps(cfg: Config, c: Core, a: P.Protocol, c': Core, a': P.Protocol, lo: int, k: nat)
    requires cfg.Ok() && SlotsHold(cfg, c, a, lo) && lo <= k < |a.sent| && |a.sent| - lo <= cfg.m
    requires a'.sent == a.sent && a'.times == a.times && |c.slots| == cfg.m
    requires || (a'.repeated == a.repeated + {k} && a'.named == a.named)
             || (a'.repeated == a.repeated && a'.named == a.named + {k})
    requires Occupied(c, Mod(k, cfg.m))
    requires c'.slots == c.slots[Mod(k, cfg.m) := Some(c.slots[Mod(k, cfg.m)].value.(
                 retransmitted := k in a'.repeated, acked := k in a'.named))]
    ensures SlotsHold(cfg, c', a', lo)
  {
    forall j: nat | lo <= j < |a.sent| ensures InSlot(cfg.m, c'.slots, a'.sent, a'.times, a'.repeated, a'.named, j)
    {
      assert Holds(cfg, c, a, j);
      if j != k {
        OtherSlot(cfg, j, k);
      }
    }
  }

  lemma {:induction false} MarkKeeps(cfg: Config, c: Core, a: P.Protocol, lo: int, k: nat)
    requires Common(cfg, c, a) && SlotsHold(cfg, c, a, lo)
    requires lo <= k < |a.sent| && |a.sent| - lo <= cfg.m
    ensures Occupied(c, Mod(k, cfg.m))
    ensures var a' := P.MarkRepeated(a, k); var c' := Mark(c, Mod(k, cfg.m));
            Common(cfg, c', a') && SlotsHold(cfg, c', a', lo)
  {
    assert Holds(cfg, c, a, k);
    FlagKeeps(cfg, c, a, Mark(c, Mod(k, cfg.m)), P.MarkRepeated(a, k), lo, k);
  }

  lemma {:induction false} RepeatKeeps(cfg: Config, c: Core, a: P.Protocol, lo: int, k: nat)
    requires Common(cfg, c, a) && SlotsHold(cfg, c, a, lo)
    requires lo <= k < |a.sent| <= k + cfg.window && k in a.repeated
    ensures Occupied(c, Mod(k, cfg.m))
    ensures var a' := P.Again(a, k); var c' := Repeat(cfg, c, Mod(k, cfg.m));
            Common(cfg, c', a') && SlotsHold(cfg, c', a', lo)
  {
    assert Holds(cfg, c, a, k);
    var a', c' := P.Again(a, k), Repeat(cfg, c, Mod(k, cfg.m));
    P.AgainKeepsOk(a, k);
    assert a'.log[..|a'.log| - 1] == a.log;
  }

  /** Taking the time of a packet that had been transmitted once when its flag was read. */
  lemma {:induction false} TakeSampleKeeps(cfg: Config, c: Core, a: P.Protocol, lo: int, k: nat, now: int)
    requires Common(cfg, c, a) && SlotsHold(cfg, c, a, lo) && lo <= k < |a.sent|
    ensures Occupied(c, Mod(k, cfg.m))
    ensures var a' := P.TakeMeasure(a, k, now, 1); var c' := TakeSample(c, Mod(k, cfg.m), now);
            Common(cfg, c', a') && SlotsHold(cfg, c', a', lo)
  {
    assert Holds(cfg, c, a, k);
    P.MeasureKeepsOk(a, k, now);
    var samples := P.Samples(P.TakeMeasure(a, k, now, 1).measures);
    assert samples[..|samples| - 1] == P.Samples(a.measures);
  }

  lemma {:induction false} SampleKeeps(cfg: Config, c: Core, a: P.Protocol, lo: int, k: nat, now: int)
    requires Common(cfg, c, a) && SlotsHold(cfg, c, a, lo) && lo <= k < |a.sent|
    ensures Occupied(c, Mod(k, cfg.m))
    ensures var a' := P.MeasureAck(a, k, now); var c' := Sample(c, Mod(k, cfg.m), now);
            Common(cfg, c', a') && SlotsHold(cfg, c', a', lo)
  {
    assert Holds(cfg, c, a, k);
    TakeSampleKeeps(cfg, c, a, lo, k, now);
    P.MeasureKeepsOk(a, k, now);
  }

  lemma {:induction false} SetBaseKeeps(cfg: Config, c: Core, a: P.Protocol, lo: int, k: nat)
    requires Common(cfg, c, a) && SlotsHold(cfg, c, a, lo) && a.base <= k < |a.sent|
    ensures var a' := P.Advance(a, k); var c' := SetBase(cfg, c, Mod(k, cfg.m) + 1);
            Common(cfg, c', a') && SlotsHold(cfg, c', a', lo)
  {
    Successor(k, cfg.m);
  }

  lemma {:induction false} CountUpKeeps(cfg: Config, c: Core, a: P.Protocol, lo: int, k: nat)
    requires Common(cfg, c, a) && SlotsHold(cfg, c, a, lo)
    requires a.counted <= k < a.counted + cfg.window && a.base == k + 1
    ensures var a' := P.CountUp(a, k); var c' := CountUp(cfg, c, Mod(k, cfg.m));
            Common(cfg, c', a') && SlotsHold(cfg, c', a', lo)
  {
    CountDeltaExact(a.counted, k, cfg.m);
  }

  lemma {:induction false} MarkAckedKeeps(cfg: Config, c: Core, a: P.Protocol, lo: int, k: nat)
    requires Common(cfg, c, a) && SlotsHold(cfg, c, a, lo)
    requires lo <= k < a.counted && |a.sent| - lo <= cfg.m
    ensures Occupied(c, Mod(k, cfg.m))
    ensures var a' := P.Name(a, k); var c' := MarkAcked(c, Mod(k, cfg.m));
            Common(cfg, c', a') && SlotsHold(cfg, c', a', lo)
  {
    assert Holds(cfg, c, a, k);
    FlagKeeps(cfg, c, a, MarkAcked(c, Mod(k, cfg.m)), P.Name(a, k), lo, k);
  }

  lemma {:induction false} CountKeeps(cfg: Config, c: Core, a: P.Protocol, lo: int, k: nat)
    requires Common(cfg, c, a) && SlotsHold(cfg, c, a, lo)
    requires lo <= k && |a.sent| - lo <= cfg.m
    requires a.counted <= k < a.counted + cfg.window && a.base == k + 1
    ensures Occupied(c, Mod(k, cfg.m))
    ensures var a' := P.Count(a, k); var c' := CountAck(cfg, c, Mod(k, cfg.m));
            Common(cfg, c', a') && SlotsHold(cfg, c', a', lo)
  {
    CountUpKeeps(cfg, c, a, lo, k);
    MarkAckedKeeps(cfg, CountUp(cfg, c, Mod(k, cfg.m)), P.CountUp(a, k), lo, k);
  }

  /** At the end of a chunk the count starts again. */
  lemma {:induction false} ChunkKeeps(cfg: Config, c: Core, a: P.Protocol, lo: int)
    requires Common(cfg, c, a) && SlotsHold(cfg, c, a, lo) && a.counted == |a.sent|
    ensures var a' := P.NewChunk(a); var c' := c.(count := 0);
            Common(cfg, c', a') && SlotsHold(cfg, c', a', lo)
  {
  }

  // Handlers on the window fields

  /** Measuring and moving the base. */
  lemma {:induction false} MoveKeeps(cfg: Config, c: Core, a: P.Protocol, lo: int, k: nat, now: int)
    requires Common(cfg, c, a) && SlotsHold(cfg, c, a, lo) && lo <= k && a.base <= k < |a.sent|
    ensures Occupied(c, Mod(k, cfg.m))
    ensures var c' := SetBase(cfg, Sample(c, Mod(k, cfg.m), now), Mod(k, cfg.m) + 1);
            var a' := P.Advance(P.MeasureAck(a, k, now), k);
            && Common(cfg, c', a') && SlotsHold(cfg, c', a', lo) && c'.next == c.next
            && a' == a.(base := k + 1, measures := a'.measures)
  {
    SampleKeeps(cfg, c, a, lo, k, now);
    SetBaseKeeps(cfg, Sample(c, Mod(k, cfg.m), now), P.MeasureAck(a, k, now), lo, k);
  }

  /** A new acknowledgement: measure, move the base, count. */
  function AckCore(cfg: Config, c: Core, seqnum: nat, now: int): Core
    requires Occupied(c, seqnum)
  {
    CountAck(cfg, SetBase(cfg, Sample(c, seqnum, now), seqnum + 1), seqnum)
  }

  /** After a new acknowledgement the base meets `next` exactly when nothing is outstanding. */
  lemma {:induction false} AckCoreBase(cfg: Config, c: Core, a: P.Protocol, k: nat, now: int)
    requires Refines(cfg, c, a) && a.base <= k < |a.sent| && Occupied(c, Mod(k, cfg.m))
    ensures var c' := AckCore(cfg, c, Mod(k, cfg.m), now);
            && c'.base == Mod(k + 1, cfg.m) && c'.next == c.next
            && (c'.base == c'.next <==> k + 1 == |a.sent|)
  {
    Successor(k, cfg.m);
    Gap(k + 1, |a.sent|, cfg.m);
  }

  lemma {:induction false} AckCoreKeeps(cfg: Config, c: Core, a: P.Protocol, k: nat, now: int)
    requires Refines(cfg, c, a) && a.base <= k < |a.sent|
    ensures Occupied(c, Mod(k, cfg.m))
    ensures Refines(cfg, AckCore(cfg, c, Mod(k, cfg.m), now), P.Count(P.Advance(P.MeasureAck(a, k, now), k), k))
  {
    var lo := |a.sent| - cfg.m;
    MoveKeeps(cfg, c, a, lo, k, now);
    var i := Mod(k, cfg.m);
    CountRefines(cfg, SetBase(cfg, Sample(c, i, now), i + 1), P.Advance(P.MeasureAck(a, k, now), k), k);
  }

  lemma {:induction false} CountRefines(cfg: Config, c: Core, a: P.Protocol, k: nat)
    requires Common(cfg, c, a) && SlotsHold(cfg, c, a, |a.sent| - cfg.m) && c.next == Mod(|a.sent|, cfg.m)
    requires |a.sent| <= k + cfg.window && a.counted <= k < a.counted + cfg.window && a.base == k + 1
    requires a.repeated == a.resent
    ensures Occupied(c, Mod(k, cfg.m)) && Refines(cfg, CountAck(cfg, c, Mod(k, cfg.m)), P.Count(a, k))
  {
    CountKeeps(cfg, c, a, |a.sent| - cfg.m, k);
  }

  lemma {:induction false} ResendOneKeeps(cfg: Config, c: Core, a: P.Protocol, k: nat)
    requires Refines(cfg, c, a) && a.base <= k < |a.sent|
    ensures Occupied(c, Mod(k, cfg.m))
    ensures Refines(cfg, ResendOne(cfg, c, Mod(k, cfg.m)), P.Again(P.MarkRepeated(a, k), k))
  {
    var lo := |a.sent| - cfg.m;
    MarkKeeps(cfg, c, a, lo, k);
    RepeatKeeps(cfg, Mark(c, Mod(k, cfg.m)), P.MarkRepeated(a, k), lo, k);
  }

  lemma {:induction false} OutstandingOccupied(cfg: Config, c: Core, a: P.Protocol, k: nat, lo: int)
    requires SlotsHold(cfg, c, a, lo) && lo <= k <= |a.sent|
    ensures AllOccupied(c, Residues(k, |a.sent|, cfg.m))
    decreases |a.sent| - k
  {
    if k < |a.sent| {
      assert Holds(cfg, c, a, k);
      OutstandingOccupied(cfg, c, a, k + 1, lo);
    }
  }

  lemma {:induction false} ResendAllKeeps(cfg: Config, c: Core, a: P.Protocol, k: nat)
    requires Refines(cfg, c, a) && a.base <= k <= |a.sent|
    requires AllOccupied(c, Residues(k, |a.sent|, cfg.m))
    ensures Refines(cfg, ResendAll(cfg, c, Residues(k, |a.sent|, cfg.m)), P.ResendFrom(a, k))
    decreases |a.sent| - k
  {
    if k < |a.sent| {
      ResendNext(cfg, c, a, k);
      ResendAllKeeps(cfg, ResendOne(cfg, c, Mod(k, cfg.m)), P.Again(P.MarkRepeated(a, k), k), k + 1);
    }
  }

  lemma {:induction false} ResendNext(cfg: Config, c: Core, a: P.Protocol, k: nat)
    requires Refines(cfg, c, a) && a.base <= k < |a.sent|
    requires AllOccupied(c, Residues(k, |a.sent|, cfg.m))
    ensures Occupied(c, Mod(k, cfg.m))
    ensures var c' := ResendOne(cfg, c, Mod(k, cfg.m)); var rest := Residues(k + 1, |a.sent|, cfg.m);
            && Refines(cfg, c', P.Again(P.MarkRepeated(a, k), k)) && AllOccupied(c', rest)
            && ResendAll(cfg, c, Residues(k, |a.sent|, cfg.m)) == ResendAll(cfg, c', rest)
  {
    ResendOneKeeps(cfg, c, a, k);
    var c', a' := ResendOne(cfg, c, Mod(k, cfg.m)), P.Again(P.MarkRepeated(a, k), k);
    OutstandingOccupied(cfg, c', a', k + 1, |a.sent| - cfg.m);
    assert ([Mod(k, cfg.m)] + Residues(k + 1, |a.sent|, cfg.m))[1..] == Residues(k + 1, |a.sent|, cfg.m);
  }

  /** The code's whole sending sequence for the next packet. */
  function SendCore(cfg: Config, c: Core, data: string, now: int): Core
    requires c.next < |c.slots|
  {
    IncNext(cfg, Transmit(cfg, Store(cfg, c, c.next, data), c.next, now))
  }

  lemma {:induction false} SendCoreKeeps(cfg: Config, c: Core, a: P.Protocol, data: string, now: int)
    requires Refines(cfg, c, a) && |a.sent| < a.base + cfg.window
    ensures Refines(cfg, SendCore(cfg, c, data, now), P.Send(a, data, now))
  {
    StoreKeeps(cfg, c, a, data);
    TransmitKeeps(cfg, Store(cfg, c, c.next, data), a, data, now);
    Successor(|a.sent|, cfg.m);
  }
}
