/** The `ClientSender` object (`src/ClientSender.cpp`): fields updated in place, packets and
    timers as objects it owns. Every method is the function of the same name in `Window`
    on the object's view. The calls to the socket append to `wire`. */
module Sending {
  import opened Options
  import opened Packets
  import opened Timers
  import opened Modular
  import W = Window
  import Rtt

  class ClientSender {
    const cfg: W.Config
    const digits: nat
    const hash: string -> Digest
    var baseIdx: nat
    var nextSeqNumIdx: nat
    var ackedCount: int
    var lastAckedPacket: int
    const windowMap: array<Packet?>
    var estimatedRtt: int
    var timeoutTimer: TimerObject?
    var olderTimers: seq<TimerObject?>
    var finishedSendingData: bool
    var wire: seq<string>
    var closings: nat

    // The objects owned and what they amount to

    ghost function PacketSet(): set<Packet>
      reads windowMap
    {
      set i | 0 <= i < windowMap.Length && windowMap[i] != null :: windowMap[i]
    }

    ghost function Slot(i: nat): Option<Pkt>
      reads windowMap, PacketSet()
      requires i < windowMap.Length
    {
      if windowMap[i] == null then None
      else
        assert windowMap[i] in PacketSet();
        Some(windowMap[i].View())
    }

    ghost function Slots(): (r: seq<Option<Pkt>>)
      reads windowMap, PacketSet()
      ensures |r| == windowMap.Length && forall i :: 0 <= i < |r| ==> r[i] == Slot(i)
    {
      seq(windowMap.Length, i requires 0 <= i < windowMap.Length reads windowMap, PacketSet() => Slot(i))
    }

    ghost function CoreView(): W.Core
      reads this, windowMap, PacketSet()
    {
      W.Core(baseIdx, nextSeqNumIdx, ackedCount, lastAckedPacket, Slots(), estimatedRtt, wire)
    }

    static ghost function TimerView(t: TimerObject?): Option<Timer>
      reads t
    {
      if t == null then None else Some(t.View())
    }

    static ghost function TimerViews(ts: seq<TimerObject?>): (r: seq<Option<Timer>>)
      reads ts
      ensures |r| == |ts|
    {
      if ts == [] then [] else [TimerView(ts[0])] + TimerViews(ts[1..])
    }

    static lemma {:induction false} TimerViewsAppend(ts: seq<TimerObject?>, t: TimerObject?)
      ensures TimerViews(ts + [t]) == TimerViews(ts) + [TimerView(t)]
    {
      if ts != [] {
        TimerViewsAppend(ts[1..], t);
        assert (ts + [t])[1..] == ts[1..] + [t];
      }
    }

    ghost function BoxView(): TimerBox
      reads `olderTimers, `timeoutTimer, olderTimers, timeoutTimer
    {
      TimerBox(TimerView(timeoutTimer), TimerViews(olderTimers))
    }

    ghost function View(): W.Sender
      reads this, windowMap, PacketSet(), olderTimers, timeoutTimer
    {
      W.Sender(CoreView(), BoxView(), finishedSendingData, closings)
    }

    /** A packet made by this sender for slot `i`, with the text the configuration gives it. */
    ghost predicate PacketOf(p: Packet, i: int) {
      p.seqnum == i && p.hash == hash && p.seqnumDigits == digits && p.wireText == cfg.text(p.seqnum, p.packetData)
    }

    ghost predicate PacketsOk()
      reads windowMap, PacketSet()
    {
      && windowMap.Length == cfg.m
      && (forall i :: 0 <= i < windowMap.Length && windowMap[i] != null ==>
                        windowMap[i] in PacketSet() && windowMap[i].Valid() && PacketOf(windowMap[i], i))
    }

    ghost predicate TimersOk()
      reads `olderTimers, `timeoutTimer, olderTimers, timeoutTimer
    {
      && (forall t :: t in olderTimers && t != null ==> t.Valid())
      && (timeoutTimer != null ==> timeoutTimer.Valid() && timeoutTimer !in olderTimers)
    }

    ghost predicate Valid()
      reads this, windowMap, PacketSet(), olderTimers, timeoutTimer
    {
      PacketsOk() && TimersOk() && baseIdx < cfg.m && nextSeqNumIdx < cfg.m && Configured()
    }

    /** The texts of the configuration are the packets' texts. */
    ghost predicate Configured() {
      forall n: nat, data: string {:trigger Wire(hash, digits, n, data)} ::
        cfg.text(n, data) == Wire(hash, digits, n, data)
    }

    constructor (digits: nat, window: nat, hash: string -> Digest)
      ensures Valid() && View() == W.Initial(cfg) && cfg == W.ConfigOf(digits, window, hash)
      ensures fresh(windowMap)
    {
      this.cfg, this.digits, this.hash := W.ConfigOf(digits, window, hash), digits, hash;
      baseIdx, nextSeqNumIdx, ackedCount, lastAckedPacket := 0, 0, 0, -1;
      windowMap := new Packet?[Pow10(digits)](_ => null);
      estimatedRtt := Rtt.INITIAL;
      timeoutTimer, olderTimers, finishedSendingData, wire, closings := null, [], false, [], 0;
      new;
      assert Slots() == seq(cfg.m, _ => None);
    }

    // Timers

    /** Stops the current timer, if any, and moves it (or the null) to the queue. */
    method QueueTimer()
      requires Valid()
      modifies `timeoutTimer, `olderTimers, timeoutTimer
      ensures Valid() && timeoutTimer == null
      ensures var box := old(BoxView());
              View() == old(View()).(box := TimerBox(None, box.older + [StopOption(box.cur)]))
    {
      ghost var c, older := CoreView(), BoxView().older;
      if timeoutTimer != null {
        timeoutTimer.Stop();
      }
      assert CoreView() == c && TimerViews(olderTimers) == older;
      TimerViewsAppend(olderTimers, timeoutTimer);
      olderTimers := olderTimers + [timeoutTimer];
      timeoutTimer := null;
      assert CoreView() == c;
    }

    method ArmTimer()
      requires Valid()
      modifies `timeoutTimer
      ensures Valid() && timeoutTimer != null && fresh(timeoutTimer)
      ensures View() == old(View()).(box := TimerBox(Some(NewTimer(estimatedRtt)), old(BoxView()).older))
    {
      timeoutTimer := new TimerObject(estimatedRtt);
    }

    method StartTimeoutTimer()
      requires Valid()
      modifies `timeoutTimer, `olderTimers, timeoutTimer
      ensures Valid()
      ensures View() == old(View()).(box := StartTimeout(old(BoxView()), estimatedRtt))
    {
      QueueTimer();
      ArmTimer();
    }

    method StopTimeoutTimer()
      requires Valid() && timeoutTimer != null
      modifies timeoutTimer
      ensures Valid()
      ensures View() == old(View()).(box := old(BoxView()).(cur := StopOption(old(BoxView()).cur)))
    {
      timeoutTimer.Stop();
    }

    method CleanTimers()
      requires Valid()
      modifies `olderTimers
      ensures Valid()
      ensures View() == W.CleanTimers(old(View()))
    {
      while olderTimers != [] && (olderTimers[0] == null || olderTimers[0].finished)
        invariant TimersOk()
        invariant Clean(TimerViews(olderTimers)) == Clean(old(TimerViews(olderTimers)))
        decreases |olderTimers|
      {
        assert TimerViews(olderTimers)[1..] == TimerViews(olderTimers[1..]);
        olderTimers := olderTimers[1..];
      }
    }

    // Small accesses

    method GetBaseIdx() returns (r: nat)
      ensures r == baseIdx
    {
      r := baseIdx;
    }

    method SetBaseIdx(newValue: nat)
      requires Valid()
      modifies `baseIdx
      ensures Valid() && View() == old(View()).(core := W.SetBase(cfg, old(CoreView()), newValue))
    {
      ModIsRemainder(newValue, cfg.m);
      baseIdx := newValue % cfg.m;
    }

    method GetNextSeqNum() returns (r: nat)
      ensures r == nextSeqNumIdx
    {
      r := nextSeqNumIdx;
    }

    method IncNextSeqNum()
      requires Valid()
      modifies `nextSeqNumIdx
      ensures Valid() && View() == old(View()).(core := W.IncNext(cfg, old(CoreView())))
    {
      ModIsRemainder(nextSeqNumIdx + 1, cfg.m);
      nextSeqNumIdx := (nextSeqNumIdx + 1) % cfg.m;
    }

    method CanAdvance() returns (r: bool)
      ensures r == W.CanAdvance(baseIdx, nextSeqNumIdx, cfg.window, cfg.m)
    {
      var next := GetNextSeqNum();
      var base := GetBaseIdx();
      ModIsRemainder(base + cfg.window, cfg.m);
      r := (base <= next && next < base + cfg.window)
        || (base > next && next < (base + cfg.window) % cfg.m);
    }

    method SendPacketUnreliable(data: string)
      modifies `wire
      ensures wire == old(wire) + [data]
    {
      wire := wire + [data];
    }

    // Packets in their slots

    /** Puts a new packet into a slot; the old one is gone. */
    method StorePacket(n: nat, data: string) returns (p: Packet)
      requires PacketsOk() && Configured() && n < windowMap.Length
      modifies windowMap
      ensures PacketsOk() && p in PacketSet() && windowMap[n] == p && fresh(p)
      ensures forall i :: 0 <= i < windowMap.Length && i != n ==> windowMap[i] == old(windowMap[i])
      ensures Slots() == old(Slots())[n := Some(Pkt(n, data, 0, false, false))]
    {
      p := new Packet(hash, digits, n, data);
      windowMap[n] := p;
    }

    method TransmitSlot(i: nat, now: int)
      requires PacketsOk() && Configured() && i < windowMap.Length && windowMap[i] != null
      modifies windowMap[i], `wire
      ensures PacketsOk()
      ensures Slots() == old(Slots())[i := Some(old(Slots())[i].value.(start := now))]
      ensures var p := old(Slots())[i].value; wire == old(wire) + [cfg.text(p.seqnum, p.data)]
    {
      var p := windowMap[i];
      assert p in PacketSet() && Slots()[i] == Some(p.View());
      p.StartTimeoutCount(now);
      var text := p.GeneratePacketString();
      SendPacketUnreliable(text);
      forall k | 0 <= k < windowMap.Length && k != i ensures Slot(k) == old(Slot(k)) {
        assert windowMap[k] != null ==> windowMap[k] in PacketSet() && windowMap[k] != p;
      }
    }

    method ResendSlot(i: nat)
      requires PacketsOk() && Configured() && i < windowMap.Length && windowMap[i] != null
      modifies windowMap[i], `wire
      ensures PacketsOk()
      ensures Slots() == old(Slots())[i := Some(old(Slots())[i].value.(retransmitted := true))]
      ensures var p := old(Slots())[i].value; wire == old(wire) + [cfg.text(p.seqnum, p.data)]
    {
      var p := windowMap[i];
      assert p in PacketSet() && Slots()[i] == Some(p.View());
      p.SetRetransmitted();
      var text := p.GeneratePacketString();
      SendPacketUnreliable(text);
      forall k | 0 <= k < windowMap.Length && k != i ensures Slot(k) == old(Slot(k)) {
        assert windowMap[k] != null ==> windowMap[k] in PacketSet() && windowMap[k] != p;
      }
    }

    method MarkAcked(i: nat)
      requires PacketsOk() && i < windowMap.Length && windowMap[i] != null
      modifies windowMap[i]
      ensures PacketsOk()
      ensures Slots() == old(Slots())[i := Some(old(Slots())[i].value.(acked := true))]
    {
      var p := windowMap[i];
      assert p in PacketSet() && Slots()[i] == Some(p.View());
      p.SetAcked();
      forall k | 0 <= k < windowMap.Length && k != i ensures Slot(k) == old(Slot(k)) {
        assert windowMap[k] != null ==> windowMap[k] in PacketSet() && windowMap[k] != p;
      }
    }

    // Handlers

    method PutOnWire(n: nat, data: string, now: int)
      requires Valid() && n < windowMap.Length
      modifies windowMap, `wire
      ensures Valid() && View() == W.PutOnWire(cfg, old(View()), n, data, now)
    {
      ghost var c0 := CoreView();
      var p := StorePacket(n, data);
      assert CoreView() == W.Store(cfg, c0, n, data);
      TransmitSlot(n, now);
    }

    /** Start a timer when nothing is outstanding. */
    method StartTimeoutIfIdle()
      requires Valid()
      modifies `timeoutTimer, `olderTimers, timeoutTimer
      ensures Valid()
      ensures var v := old(View());
              View() == v.(box := if v.core.base == v.core.next then StartTimeout(v.box, v.core.rtt) else v.box)
    {
      var base := GetBaseIdx();
      var next := GetNextSeqNum();
      if base == next {
        StartTimeoutTimer();
      }
    }

    method ArmAndCount()
      requires Valid()
      modifies `timeoutTimer, `olderTimers, timeoutTimer, `nextSeqNumIdx
      ensures Valid() && View() == W.ArmAndCount(cfg, old(View()))
    {
      ghost var v := View();
      StartTimeoutIfIdle();
      assert CoreView() == v.core;
      IncNextSeqNum();
    }

    /** One pass through the wait: nothing happens while the window is full. */
    method SendPacketReliable(data: string, now: int) returns (sent: bool)
      requires Valid()
      modifies this, windowMap, timeoutTimer
      ensures Valid()
      ensures var r := W.SendPacketReliable(cfg, old(View()), data, now);
              if r.Some? then sent && View() == r.value else !sent && View() == old(View())
    {
      ghost var v := View();
      sent := CanAdvance();
      if sent {
        var n := GetNextSeqNum();
        PutOnWire(n, data, now);
        assert View() == W.PutOnWire(cfg, v, n, data, now);
        ArmAndCount();
      }
    }

    method ResendOneSlot(i: nat)
      requires Valid() && W.Occupied(CoreView(), i)
      modifies `wire, PacketSet()
      ensures Valid() && PacketSet() == old(PacketSet())
      ensures View() == old(View()).(core := W.ResendOne(cfg, old(CoreView()), i))
    {
      assert Slots()[i] == Slot(i);
      ResendSlot(i);
    }

    /** The body of the retransmission loop, and the index it goes on with. */
    method ResendAndGoOn(next: nat, base: nat, i: nat, ghost all: W.Core) returns (i': nat)
      requires Valid() && Remaining(cfg, CoreView(), next, base, i, all)
      requires W.InResend(next, base, cfg.window, cfg.m, i)
      modifies `wire, PacketSet()
      ensures Valid() && PacketSet() == old(PacketSet())
      ensures View() == old(View()).(core := CoreView())
      ensures Remaining(cfg, CoreView(), next, base, i', all)
      ensures 0 <= W.Distance(next, cfg.m, i') < W.Distance(next, cfg.m, i)
    {
      NextRemaining(cfg, CoreView(), next, base, i, all);
      ResendOneSlot(i);
      i' := Next(i);
    }

    /** The retransmission loop: sends what is outstanding, touches neither base nor timers. */
    method ResendLoop(next: nat, base: nat, ghost all: W.Core)
      requires Valid() && Remaining(cfg, CoreView(), next, base, base, all)
      modifies `wire, PacketSet()
      ensures Valid() && View() == old(View()).(core := all)
    {
      var i: nat := base;
      while W.InResend(next, base, cfg.window, cfg.m, i)
        invariant Valid() && PacketSet() == old(PacketSet())
        invariant View() == old(View()).(core := CoreView())
        invariant Remaining(cfg, CoreView(), next, base, i, all)
        decreases W.Distance(next, cfg.m, i)
      {
        i := ResendAndGoOn(next, base, i, all);
      }
    }

    method ResendOutstanding()
      requires Valid() && W.ResendSafe(cfg, CoreView())
      modifies `wire, PacketSet()
      ensures Valid()
      ensures var c := old(CoreView());
              View() == old(View()).(core := W.ResendAll(cfg, c, W.TimeoutIndices(cfg, c)))
    {
      var next := GetNextSeqNum();
      var base := GetBaseIdx();
      ResendLoop(next, base, W.ResendAll(cfg, CoreView(), W.TimeoutIndices(cfg, CoreView())));
    }

    /** `(i + 1) % buffer_size` for an index inside the buffer. */
    function Next(i: nat): (r: nat)
      requires i < cfg.m
      ensures r == if i + 1 == cfg.m then 0 else i + 1
    {
      ModIsRemainder(i + 1, cfg.m);
      (i + 1) % cfg.m
    }

    method TimeoutHandler()
      requires Valid()
      requires finishedSendingData || W.ResendSafe(cfg, CoreView())
      modifies this, PacketSet(), timeoutTimer
      ensures Valid() && View() == W.TimeoutHandler(cfg, old(View()))
    {
      if finishedSendingData {
        return;
      }
      ResendOutstanding();
      StartTimeoutTimer();
    }

    /** Measures the round trip of a packet that was never resent. */
    method MeasureRtt(seqnum: nat, now: int)
      requires Valid() && W.Occupied(CoreView(), seqnum)
      modifies `estimatedRtt
      ensures Valid() && View() == old(View()).(core := W.Sample(old(CoreView()), seqnum, now))
    {
      assert Slots()[seqnum] == Slot(seqnum);
      var p := windowMap[seqnum];
      if !p.retransmitted {
        estimatedRtt := Rtt.Next(estimatedRtt, now - p.startingTime);
      }
    }

    method CountAcked(seqnum: nat)
      requires Valid() && W.Occupied(CoreView(), seqnum)
      modifies `ackedCount, `lastAckedPacket, PacketSet()
      ensures Valid() && View() == old(View()).(core := W.CountAck(cfg, old(CoreView()), seqnum))
    {
      assert Slots()[seqnum] == Slot(seqnum);
      if seqnum < lastAckedPacket {
        ackedCount := ackedCount + (cfg.m - 1 - lastAckedPacket) + seqnum + 1;
      } else {
        ackedCount := ackedCount + (seqnum - lastAckedPacket);
      }
      lastAckedPacket := seqnum;
      MarkAcked(seqnum);
    }

    method IsAcked(seqnum: nat) returns (r: bool)
      requires Valid() && W.Occupied(CoreView(), seqnum)
      ensures r == View().core.slots[seqnum].value.acked
    {
      assert Slots()[seqnum] == Slot(seqnum);
      r := windowMap[seqnum].acked;
    }

    method MoveBase(seqnum: nat, now: int)
      requires Valid() && W.Occupied(CoreView(), seqnum)
      modifies `estimatedRtt, `baseIdx
      ensures Valid() && View() == W.MoveBase(cfg, old(View()), seqnum, now)
    {
      MeasureRtt(seqnum, now);
      SetBaseIdx(seqnum + 1);
    }

    method Rearm()
      requires Valid() && timeoutTimer != null
      modifies `timeoutTimer, `olderTimers, timeoutTimer
      ensures Valid() && View() == W.Rearm(old(View()))
    {
      var base := GetBaseIdx();
      var next := GetNextSeqNum();
      if base == next {
        StopTimeoutTimer();
      } else {
        StartTimeoutTimer();
      }
    }

    method NewlyAcked(seqnum: nat, now: int)
      requires Valid() && W.Occupied(CoreView(), seqnum) && timeoutTimer != null
      modifies this, PacketSet(), timeoutTimer
      ensures Valid() && View() == W.NewlyAcked(cfg, old(View()), seqnum, now)
    {
      MoveBase(seqnum, now);
      Rearm();
      CountAcked(seqnum);
    }

    method AckedPacket(seqnum: nat, now: int)
      requires Valid()
      requires finishedSendingData || (W.Occupied(CoreView(), seqnum) && timeoutTimer != null)
      modifies this, PacketSet(), timeoutTimer
      ensures Valid() && View() == W.AckedPacket(cfg, old(View()), seqnum, now)
    {
      CleanTimers();
      if finishedSendingData {
        closings := closings + 1;
      } else {
        AckedBeforeEnd(seqnum, now);
      }
    }

    method AckedBeforeEnd(seqnum: nat, now: int)
      requires Valid() && W.Occupied(CoreView(), seqnum) && timeoutTimer != null
      modifies this, PacketSet(), timeoutTimer
      ensures Valid()
      ensures var v := old(View());
              View() == if v.core.slots[seqnum].value.acked then v else W.NewlyAcked(cfg, v, seqnum, now)
    {
      var acked := IsAcked(seqnum);
      if !acked {
        NewlyAcked(seqnum, now);
      }
    }

    /** One pass through the wait at the end of a chunk of `quantity` packets. */
    method ChunkBarrier(quantity: nat) returns (released: bool)
      requires Valid()
      modifies `ackedCount, `olderTimers
      ensures Valid() && (released <==> old(ackedCount) == quantity)
      ensures var v := old(View());
              View() == if released then W.CleanTimers(v.(core := v.core.(count := 0))) else v
    {
      released := ackedCount == quantity;
      if released {
        CleanTimers();
        ackedCount := 0;
      }
    }

    /** What the sender thread does after its last chunk. */
    method Finish()
      requires Valid()
      modifies `finishedSendingData, `closings, timeoutTimer
      ensures Valid() && View() == W.Finish(old(View()))
    {
      finishedSendingData := true;
      closings := closings + 1;
      if timeoutTimer != null {
        StopTimeoutTimer();
      }
    }
  }

  /** Resending the slots from `i` on leads to `all`. */
  ghost predicate Remaining(cfg: W.Config, c: W.Core, next: nat, base: nat, i: nat, all: W.Core) {
    && next < cfg.m && i < cfg.m
    && var ix := W.LoopIndices(next, base, cfg.window, cfg.m, i);
       W.AllOccupied(c, ix) && W.ResendAll(cfg, c, ix) == all
  }

  lemma {:induction false} NextRemaining(cfg: W.Config, c: W.Core, next: nat, base: nat, i: nat, all: W.Core)
    requires Remaining(cfg, c, next, base, i, all) && W.InResend(next, base, cfg.window, cfg.m, i)
    ensures W.Occupied(c, i)
    ensures Remaining(cfg, W.ResendOne(cfg, c, i), next, base, if i + 1 == cfg.m then 0 else i + 1, all)
  {
  }
}
