/** Whole runs of the sender with atomic handlers: the sender thread, acknowledgements and
    timers in any order. Every run of the code is a run of the protocol. */
module Transfer {
  import opened Options
  import opened Packets
  import opened Timers
  import opened Modular
  import opened Window
  import opened Refinement
  import opened Sequences
  import Rtt
  import P = GoBackN

  /** The protocol together with the sender thread's position. */
  datatype Plan = Plan(a: P.Protocol, done: nat, pos: nat, finished: bool)

  /** What the network may do: acknowledgements name packets already sent and arrive in the
      order of their packets; they may be lost, cumulative or repeated. */
  ghost predicate Allowed(z: Plan, e: Event) {
    e.AckArrives? && !z.finished ==> e.k < |z.a.sent| && z.a.base <= e.k + 1
  }

  function PlanTurn(cfg: Config, chunks: seq<seq<string>>, z: Plan, now: int): Option<Plan> {
    if z.finished || z.done > |chunks| then None
    else if z.done == |chunks| then Some(z.(finished := true))
    else if z.pos < |chunks[z.done]| then
      if |z.a.sent| < z.a.base + cfg.window
      then Some(z.(a := P.Send(z.a, chunks[z.done][z.pos], now), pos := z.pos + 1)) else None
    else if z.a.base == |z.a.sent|
      then Some(z.(a := P.NewChunk(z.a), done := z.done + 1, pos := 0)) else None
  }

  function PlanStep(cfg: Config, chunks: seq<seq<string>>, z: Plan, e: Event): Option<Plan> {
    match e
    case Turn(now) => PlanTurn(cfg, chunks, z, now)
    case AckArrives(k, now) =>
      if z.finished then Some(z)
      else if k < |z.a.times| then Some(z.(a := P.Ack(z.a, k, now))) else None
    case TimerWakes(w) => Some(z)
    case HandlerRuns(w) => if z.finished then Some(z) else Some(z.(a := P.Timeout(z.a)))
  }

  function PlanRun(cfg: Config, chunks: seq<seq<string>>, es: seq<Event>): Option<Plan> {
    if es == [] then Some(Plan(P.START, 0, 0, false))
    else
      var before := PlanRun(cfg, chunks, es[..|es| - 1]);
      if before.Some? then PlanStep(cfg, chunks, before.value, es[|es| - 1]) else None
  }

  /** Every acknowledgement of the run was allowed when it arrived. */
  ghost predicate AllowedRun(cfg: Config, chunks: seq<seq<string>>, es: seq<Event>) {
    es != [] ==>
      var before := PlanRun(cfg, chunks, es[..|es| - 1]);
      AllowedRun(cfg, chunks, es[..|es| - 1]) && (before.Some? ==> Allowed(before.value, es[|es| - 1]))
  }

  /** Timers: none but the current one is armed, and while a packet is outstanding the
      current timer is armed or a handler is on its way. */
  ghost predicate TimersCover(s: Sender, a: P.Protocol) {
    && BoxOk(s.box)
    && (|a.sent| > 0 ==> s.box.cur.Some?)
    && (a.base < |a.sent| ==> Covered(s.box))
  }

  ghost predicate JobOk(y: System, z: Plan) {
    && y.done == z.done <= |y.chunks| && y.pos == z.pos && y.s.finished == z.finished
    && (z.done < |y.chunks| ==> z.pos <= |y.chunks[z.done]|)
    && (z.done == |y.chunks| ==> z.pos == 0)
    && z.a.sent == Flatten(y.chunks[..z.done]) + (if z.done < |y.chunks| then y.chunks[z.done][..z.pos] else [])
    && z.a.chunk == |Flatten(y.chunks[..z.done])|
    && (z.finished ==> z.done == |y.chunks|)
  }

  ghost predicate Related(cfg: Config, y: System, z: Plan) {
    Refines(cfg, y.s.core, z.a) && TimersCover(y.s, z.a) && JobOk(y, z)
  }

  // The sender thread

  lemma {:induction false} SendRefines(cfg: Config, s: Sender, a: P.Protocol, data: string, now: int)
    requires Refines(cfg, s.core, a) && TimersCover(s, a)
    ensures 0 <= s.core.next < cfg.m
    ensures var r := SendPacketReliable(cfg, s, data, now); var a' := P.Send(a, data, now);
            && (r.Some? <==> |a.sent| < a.base + cfg.window)
            && (r.Some? ==> Refines(cfg, r.value.core, a') && TimersCover(r.value, a')
                            && r.value.finished == s.finished)
  {
    CanAdvanceExact(a.base, |a.sent|, cfg.window, cfg.m);
    if |a.sent| < a.base + cfg.window {
      SendCoreKeeps(cfg, s.core, a, data, now);
      Gap(a.base, |a.sent|, cfg.m);
      StartKeepsOk(s.box, s.core.rtt);
    }
  }

  lemma {:induction false} ChunkGrows(chunks: seq<seq<string>>, done: nat, pos: nat)
    requires done < |chunks| && pos <= |chunks[done]|
    ensures pos < |chunks[done]| ==>
              Flatten(chunks[..done]) + chunks[done][..pos] + [chunks[done][pos]]
              == Flatten(chunks[..done]) + chunks[done][..pos + 1]
    ensures pos == |chunks[done]| ==>
              Flatten(chunks[..done]) + chunks[done][..pos] == Flatten(chunks[..done + 1])
  {
    if pos == |chunks[done]| {
      assert chunks[..done + 1][..done] == chunks[..done];
      assert chunks[done][..pos] == chunks[done];
    } else {
      assert chunks[done][..pos + 1] == chunks[done][..pos] + [chunks[done][pos]];
    }
  }

  /** The wait at the end of a chunk is released exactly when every packet sent is
      acknowledged, and resetting the counter leaves it in step with the next chunk. */
  lemma {:induction false} BarrierRefines(cfg: Config, y: System, z: Plan)
    requires Related(cfg, y, z) && z.done < |y.chunks| && z.pos == |y.chunks[z.done]| && !z.finished
    ensures y.s.core.count == |y.chunks[z.done]| <==> z.a.base == |z.a.sent|
    ensures var o := SenderTurn(cfg, y, 0); var r := PlanTurn(cfg, y.chunks, z, 0);
            if o.To? then r.Some? && Related(cfg, o.y, r.value) && o.y.chunks == y.chunks else o.Blocked? && r.None?
  {
    ChunkGrows(y.chunks, z.done, z.pos);
    CleanKeepsCover(y.s.box);
    var o, r := SenderTurn(cfg, y, 0), PlanTurn(cfg, y.chunks, z, 0);
    if o.To? {
      ChunkKeeps(cfg, y.s.core, z.a, |z.a.sent| - cfg.m);
      assert y.chunks[..z.done + 1] == if z.done + 1 < |y.chunks| then y.chunks[..z.done + 1] else y.chunks;
    }
  }

  lemma {:induction false} TurnRefines(cfg: Config, y: System, z: Plan, now: int)
    requires Related(cfg, y, z)
    ensures var o := SenderTurn(cfg, y, now); var r := PlanTurn(cfg, y.chunks, z, now);
            if o.To? then r.Some? && Related(cfg, o.y, r.value) && o.y.chunks == y.chunks else o.Blocked? && r.None?
  {
    if !z.finished {
      if z.done == |y.chunks| {
        FinishRefines(cfg, y, z);
      } else if z.pos < |y.chunks[z.done]| {
        SendRefines(cfg, y.s, z.a, y.chunks[z.done][z.pos], now);
        ChunkGrows(y.chunks, z.done, z.pos);
      } else {
        BarrierRefines(cfg, y, z);
      }
    }
  }

  /** The thread ends only when nothing is outstanding. */
  lemma {:induction false} FinishRefines(cfg: Config, y: System, z: Plan)
    requires Related(cfg, y, z) && z.done == |y.chunks| && !z.finished
    ensures z.a.chunk == z.a.base == |z.a.sent|
    ensures var o := SenderTurn(cfg, y, 0); o.To? && Related(cfg, o.y, z.(finished := true)) && o.y.chunks == y.chunks
  {
    assert z.a.sent == Flatten(y.chunks[..z.done]);
    if y.s.box.cur.Some? {
      assert Exists(y.s.box, Current) && At(y.s.box, Current) == y.s.box.cur.value;
      PutKeepsOk(y.s.box, Current, Stopped(y.s.box.cur.value));
    }
  }

  // Acknowledgements

  lemma {:induction false} AckRefines(cfg: Config, s: Sender, a: P.Protocol, k: nat, now: int)
    requires Refines(cfg, s.core, a) && TimersCover(s, a) && !s.finished
    requires k < |a.sent| && a.base <= k + 1
    ensures Occupied(s.core, Mod(k, cfg.m)) && s.box.cur.Some?
    ensures var s' := AckedPacket(cfg, s, Mod(k, cfg.m), now); var a' := P.Ack(a, k, now);
            Refines(cfg, s'.core, a') && TimersCover(s', a') && s'.finished == s.finished
  {
    assert Holds(cfg, s.core, a, k);
    CleanKeepsCover(s.box);
    if k !in a.named {
      AckCoreKeeps(cfg, s.core, a, k, now);
      AckCoreBase(cfg, s.core, a, k, now);
      var c := AckCore(cfg, s.core, Mod(k, cfg.m), now);
      var box := s.box.(older := Clean(s.box.older));
      StartKeepsOk(box, c.rtt);
      assert Exists(box, Current);
      PutKeepsOk(box, Current, Stopped(box.cur.value));
    }
  }

  /** Repeating the last acknowledgement changes no field of the window, the count or the
      estimate, and no live timer, however much has been sent or resent since. */
  lemma {:induction false} DuplicateAckInert(cfg: Config, s: Sender, a: P.Protocol, now: int)
    requires Refines(cfg, s.core, a) && TimersCover(s, a) && !s.finished && a.base > 0
    ensures Occupied(s.core, Mod(a.base - 1, cfg.m)) && s.box.cur.Some?
    ensures var s' := AckedPacket(cfg, s, Mod(a.base - 1, cfg.m), now);
            s' == s.(box := s'.box) && s'.box == s.box.(older := Clean(s.box.older))
  {
    assert Holds(cfg, s.core, a, a.base - 1);
  }

  /** Without the order of acknowledgements: one naming an earlier packet leaves the base in
      place precisely when that packet's slot is already marked, that is, when it has been
      named before. Otherwise the base moves back to just after that packet. */
  lemma {:induction false} LateAck(cfg: Config, s: Sender, a: P.Protocol, k: nat, now: int)
    requires Refines(cfg, s.core, a) && TimersCover(s, a) && !s.finished
    requires k < |a.sent| <= k + cfg.m && k + 1 < a.base
    ensures Occupied(s.core, Mod(k, cfg.m)) && s.box.cur.Some?
    ensures var s' := AckedPacket(cfg, s, Mod(k, cfg.m), now);
            && s'.core.base == Mod(if s.core.slots[Mod(k, cfg.m)].value.acked then a.base else k + 1, cfg.m)
            && (s'.core.base == s.core.base <==> s.core.slots[Mod(k, cfg.m)].value.acked)
            && (s.core.slots[Mod(k, cfg.m)].value.acked <==> k in a.named)
  {
    assert Holds(cfg, s.core, a, k);
    Successor(k, cfg.m);
    OtherSlot(cfg, k + 1, a.base);
  }

  /** One delayed by more than a lap cannot be told from one naming the newest packet `j` with
      the same sequence number. If `j` is not behind the base, it is taken as acknowledged,
      with all packets before it; if it is, `LateAck` applies to `j`. */
  lemma {:induction false} LapLateAck(cfg: Config, s: Sender, a: P.Protocol, k: nat, now: int) returns (j: nat)
    requires Refines(cfg, s.core, a) && TimersCover(s, a) && !s.finished && k + cfg.m < |a.sent|
    ensures k < j < |a.sent| <= j + cfg.m && Mod(j, cfg.m) == Mod(k, cfg.m)
    ensures Occupied(s.core, Mod(k, cfg.m)) && s.box.cur.Some?
    ensures a.base <= j + 1 ==>
              var s' := AckedPacket(cfg, s, Mod(k, cfg.m), now);
              Refines(cfg, s'.core, P.Ack(a, j, now)) && P.Ack(a, j, now).base == j + 1
  {
    j := k;
    while j + cfg.m < |a.sent|
      invariant k <= j < |a.sent| && Mod(j, cfg.m) == Mod(k, cfg.m)
      decreases |a.sent| - j
    {
      assert Mod(j + cfg.m, cfg.m) == Mod(j, cfg.m);
      j := j + cfg.m;
    }
    assert Holds(cfg, s.core, a, j);
    if a.base <= j + 1 {
      AckRefines(cfg, s, a, j, now);
      if j in a.named {
        assert j < a.counted;
      }
    }
  }

  /** Such an acknowledgement can arrive: three packets are sent, the third is acknowledged,
      then the first. The base falls back, so two acknowledged packets count as outstanding,
      and the packets counted exceed those sent. */
  lemma {:induction false} LateAckReachable(cfg: Config, chunks: seq<seq<string>>) returns (es: seq<Event>)
    requires cfg.Ok() && cfg.window >= 3 && |chunks| > 0 && |chunks[0]| == 3
    ensures |es| == 4 && (forall i :: 0 <= i < 3 ==> es[i] == Turn(0)) && es[3] == AckArrives(2, 0)
    ensures AllowedRun(cfg, chunks, es)
    ensures Run(cfg, chunks, es).To? && Run(cfg, chunks, es).y.s.core.base == 3
    ensures var o := Step(cfg, Run(cfg, chunks, es).y, AckArrives(0, 0));
            o.To? && o.y.s.core.base == 1 && o.y.s.core.next == 3 && o.y.s.core.count == cfg.m + 1
  {
    es := [];
    var a := P.START;
    for i := 0 to 3
      invariant |es| == |a.sent| == |a.times| == i && forall j :: 0 <= j < i ==> es[j] == Turn(0)
      invariant AllowedRun(cfg, chunks, es) && Run(cfg, chunks, es).To?
      invariant PlanRun(cfg, chunks, es) == Some(Plan(a, 0, i, false))
      invariant a.base == a.chunk == 0 && a.named == {}
    {
      SendsOn(cfg, chunks, es, a, i);
      es, a := es + [Turn(0)], P.Send(a, chunks[0][i], 0);
    }
    ThirdThenFirst(cfg, chunks, es, a);
    es := es + [AckArrives(2, 0)];
  }

  lemma {:induction false} SendsOn(cfg: Config, chunks: seq<seq<string>>, es: seq<Event>, a: P.Protocol, i: nat)
    requires cfg.Ok() && AllowedRun(cfg, chunks, es) && Run(cfg, chunks, es).To?
    requires PlanRun(cfg, chunks, es) == Some(Plan(a, 0, i, false))
    requires |chunks| > 0 && i < |chunks[0]| && |a.sent| == i < cfg.window && a.base == 0
    ensures AllowedRun(cfg, chunks, es + [Turn(0)]) && Run(cfg, chunks, es + [Turn(0)]).To?
    ensures PlanRun(cfg, chunks, es + [Turn(0)]) == Some(Plan(P.Send(a, chunks[0][i], 0), 0, i + 1, false))
  {
    RunsOn(cfg, chunks, es, Turn(0));
  }

  lemma {:induction false} ThirdThenFirst(cfg: Config, chunks: seq<seq<string>>, es: seq<Event>, a: P.Protocol)
    requires cfg.Ok() && cfg.window >= 3 && AllowedRun(cfg, chunks, es) && Run(cfg, chunks, es).To?
    requires PlanRun(cfg, chunks, es) == Some(Plan(a, 0, 3, false))
    requires |a.sent| == |a.times| == 3 && a.base == a.chunk == 0 && a.named == {}
    ensures var es' := es + [AckArrives(2, 0)];
            && AllowedRun(cfg, chunks, es') && Run(cfg, chunks, es').To? && Run(cfg, chunks, es').y.s.core.base == 3
            && var o := Step(cfg, Run(cfg, chunks, es').y, AckArrives(0, 0));
               o.To? && o.y.s.core.base == 1 && o.y.s.core.next == 3 && o.y.s.core.count == cfg.m + 1
  {
    RunsOn(cfg, chunks, es, AckArrives(2, 0));
    var es' := es + [AckArrives(2, 0)];
    var s, z := Run(cfg, chunks, es').y.s, PlanRun(cfg, chunks, es').value;
    assert |z.a.sent| == 3 && z.a.base == z.a.counted == 3 && z.a.named == {2} && z.a.chunk == 0;
    assert s.core.last == 2 && s.core.count == 3;
    LateAck(cfg, s, z.a, 0, 0);
  }

  /** An allowed event the protocol can take extends the run of the code. */
  lemma {:induction false} RunsOn(cfg: Config, chunks: seq<seq<string>>, es: seq<Event>, e: Event)
    requires cfg.Ok() && AllowedRun(cfg, chunks, es) && Run(cfg, chunks, es).To?
    requires PlanRun(cfg, chunks, es).Some? && Allowed(PlanRun(cfg, chunks, es).value, e)
    requires e.AckArrives? || (e.Turn? && PlanStep(cfg, chunks, PlanRun(cfg, chunks, es).value, e).Some?)
    ensures AllowedRun(cfg, chunks, es + [e]) && Run(cfg, chunks, es + [e]).To?
    ensures PlanRun(cfg, chunks, es + [e]) == PlanStep(cfg, chunks, PlanRun(cfg, chunks, es).value, e)
    ensures PlanRun(cfg, chunks, es + [e]).Some?
    ensures Related(cfg, Run(cfg, chunks, es + [e]).y, PlanRun(cfg, chunks, es + [e]).value)
  {
    assert (es + [e])[..|es + [e]| - 1] == es;
    RunRefines(cfg, chunks, es);
    RunRefines(cfg, chunks, es + [e]);
    StepRefines(cfg, Run(cfg, chunks, es).y, PlanRun(cfg, chunks, es).value, e);
  }

  // Timeouts

  lemma {:induction false} TimeoutRefines(cfg: Config, s: Sender, a: P.Protocol)
    requires Refines(cfg, s.core, a) && TimersCover(s, a) && !s.finished
    ensures ResendSafe(cfg, s.core)
    ensures var s' := TimeoutHandler(cfg, s); var a' := P.Timeout(a);
            Refines(cfg, s'.core, a') && TimersCover(s', a') && s'.finished == s.finished
  {
    LoopIndicesExact(a.base, |a.sent|, a.base, cfg.window, cfg.m);
    OutstandingOccupied(cfg, s.core, a, a.base, |a.sent| - cfg.m);
    ResendAllKeeps(cfg, s.core, a, a.base);
    P.ResendIsRange(a, a.base);
    StartKeepsOk(s.box, TimeoutHandler(cfg, s).core.rtt);
  }

  /** A timeout puts on the wire exactly the texts of the outstanding packets, each once, in
      order, with the payloads of their first transmission: at most a window full. */
  lemma {:induction false} TimeoutResends(cfg: Config, s: Sender, a: P.Protocol)
    requires Refines(cfg, s.core, a) && TimersCover(s, a) && !s.finished
    ensures ResendSafe(cfg, s.core) && |P.Range(a.base, |a.sent|)| <= cfg.window
    ensures TimeoutHandler(cfg, s).core.wire
            == s.core.wire + WireOf(cfg, a.sent, P.Range(a.base, |a.sent|))
  {
    TimeoutRefines(cfg, s, a);
    P.ResendIsRange(a, a.base);
    WireConcat(cfg, a.sent, a.log, P.Range(a.base, |a.sent|));
  }

  lemma {:induction false} HandlerRefines(cfg: Config, y: System, z: Plan, w: Which)
    requires Related(cfg, y, z) && Pending(y.s.box, w)
    ensures var o := Step(cfg, y, HandlerRuns(w)); var r := PlanStep(cfg, y.chunks, z, HandlerRuns(w));
            o.To? && r.Some? && Related(cfg, o.y, r.value) && o.y.chunks == y.chunks
  {
    var s := y.s;
    PutKeepsOk(s.box, w, Return(At(s.box, w)));
    var box := Put(s.box, w, Return(At(s.box, w)));
    if !z.finished {
      var s1 := s.(box := StartTimeout(box, s.core.rtt));
      StartKeepsOk(box, s.core.rtt);
      TimeoutRefines(cfg, s1, z.a);
      P.ResendIsRange(z.a, z.a.base);
      var o := Step(cfg, y, HandlerRuns(w));
      StartKeepsOk(box, o.y.s.core.rtt);
    } else {
      FinishedIdle(cfg, y, z);
    }
  }

  lemma {:induction false} FinishedIdle(cfg: Config, y: System, z: Plan)
    requires Related(cfg, y, z) && z.finished
    ensures z.a.chunk == z.a.base == |z.a.sent|
  {
  }

  lemma {:induction false} ArrivalRefines(cfg: Config, y: System, z: Plan, k: nat, now: int)
    requires Related(cfg, y, z) && Allowed(z, AckArrives(k, now))
    ensures var e := AckArrives(k, now); var o := Step(cfg, y, e); var r := PlanStep(cfg, y.chunks, z, e);
            o.To? && r.Some? && Related(cfg, o.y, r.value) && o.y.chunks == y.chunks
  {
    if z.finished {
      LateArrival(cfg, y, z, k, now);
    } else {
      AckRefines(cfg, y.s, z.a, k, now);
      AckKeepsJob(z.a, k, now);
    }
  }

  lemma {:induction false} AckKeepsJob(a: P.Protocol, k: nat, now: int)
    requires k < |a.times|
    ensures P.Ack(a, k, now).sent == a.sent && P.Ack(a, k, now).chunk == a.chunk
  {
  }

  /** After the end an acknowledgement changes nothing but the queue of timers. */
  lemma {:induction false} LateArrival(cfg: Config, y: System, z: Plan, k: nat, now: int)
    requires Related(cfg, y, z) && z.finished
    ensures var o := Step(cfg, y, AckArrives(k, now)); o.To? && Related(cfg, o.y, z) && o.y.chunks == y.chunks
  {
    FinishedIdle(cfg, y, z);
    CleanKeepsCover(y.s.box);
  }

  // Whole runs

  lemma {:induction false} StepRefines(cfg: Config, y: System, z: Plan, e: Event)
    requires Related(cfg, y, z) && Allowed(z, e)
    ensures var o := Step(cfg, y, e); var r := PlanStep(cfg, y.chunks, z, e);
            && !o.Crash?
            && (o.To? ==> r.Some? && Related(cfg, o.y, r.value) && o.y.chunks == y.chunks)
            && (e.Turn? && o.Blocked? ==> r.None?)
  {
    match e
    case Turn(now) => TurnRefines(cfg, y, z, now);
    case AckArrives(k, now) =>
      ArrivalRefines(cfg, y, z, k, now);
    case TimerWakes(w) =>
      if Exists(y.s.box, w) && At(y.s.box, w).pc == Waiting {
        WakeKeepsCover(y.s.box, w);
      }
    case HandlerRuns(w) =>
      if Pending(y.s.box, w) {
        HandlerRefines(cfg, y, z, w);
      }
  }

  lemma {:induction false} InitialRelated(cfg: Config, chunks: seq<seq<string>>)
    requires cfg.Ok()
    ensures Related(cfg, System(Initial(cfg), chunks, 0, 0), Plan(P.START, 0, 0, false))
  {
  }

  /** Every run of the code, whatever the order of its events and however often the sequence
      numbers wrap round, is a run of the protocol: no empty slot or timer is dereferenced,
      and the fields are the protocol's counters taken modulo `M`. */
  lemma {:induction false} RunRefines(cfg: Config, chunks: seq<seq<string>>, es: seq<Event>)
    requires cfg.Ok() && AllowedRun(cfg, chunks, es)
    ensures var o := Run(cfg, chunks, es); var r := PlanRun(cfg, chunks, es);
            && !o.Crash?
            && (o.To? ==> r.Some? && Related(cfg, o.y, r.value) && o.y.chunks == chunks)
  {
    if es == [] {
      InitialRelated(cfg, chunks);
    } else {
      var n := |es| - 1;
      RunRefines(cfg, chunks, es[..n]);
      var before := Run(cfg, chunks, es[..n]);
      if before.To? {
        StepRefines(cfg, before.y, PlanRun(cfg, chunks, es[..n]).value, es[n]);
      }
    }
  }

  /** The window in every run: the indices are unbounded counters `B <= N <= B + window` modulo
      `M`, the window test is exact, and the count is `B` less the first packet of the chunk. */
  lemma {:induction false} WindowInEveryRun(cfg: Config, chunks: seq<seq<string>>, es: seq<Event>)
    requires cfg.Ok() && AllowedRun(cfg, chunks, es) && Run(cfg, chunks, es).To?
    ensures PlanRun(cfg, chunks, es).Some?
    ensures WindowAt(cfg, Run(cfg, chunks, es).y.s.core, PlanRun(cfg, chunks, es).value.a)
  {
    RunRefines(cfg, chunks, es);
    WindowOf(cfg, Run(cfg, chunks, es).y.s.core, PlanRun(cfg, chunks, es).value.a);
  }

  ghost predicate WindowAt(cfg: Config, c: Core, a: P.Protocol) {
    var B, N := a.base, |a.sent|;
    && B <= N <= B + cfg.window
    && c.base == Mod(B, cfg.m) && c.next == Mod(N, cfg.m)
    && c.last == (if B == 0 then -1 else Mod(B - 1, cfg.m))
    && c.count == B - a.chunk
    && (CanAdvance(c.base, c.next, cfg.window, cfg.m) <==> N < B + cfg.window)
  }

  lemma {:induction false} WindowOf(cfg: Config, c: Core, a: P.Protocol)
    requires Refines(cfg, c, a)
    ensures WindowAt(cfg, c, a)
  {
    CanAdvanceExact(a.base, |a.sent|, cfg.window, cfg.m);
  }

  /** The timers in every run: none but the current one is armed, each has started its callback
      at most once, and while packets are outstanding one is armed or its handler pending. */
  lemma {:induction false} TimersInEveryRun(cfg: Config, chunks: seq<seq<string>>, es: seq<Event>, w: Which)
    requires cfg.Ok() && AllowedRun(cfg, chunks, es) && Run(cfg, chunks, es).To?
    ensures TimersAt(Run(cfg, chunks, es).y.s, w)
  {
    RunRefines(cfg, chunks, es);
    TimersOf(cfg, Run(cfg, chunks, es).y.s, PlanRun(cfg, chunks, es).value.a, w);
  }

  ghost predicate TimersAt(s: Sender, w: Which) {
    && (Armed(s.box, w) ==> w == Current)
    && (Exists(s.box, w) ==> At(s.box, w).calls <= 1 && (At(s.box, w).calls == 1 ==> At(s.box, w).stopped))
    && (s.core.base != s.core.next ==> Covered(s.box))
  }

  lemma {:induction false} TimersOf(cfg: Config, s: Sender, a: P.Protocol, w: Which)
    requires Refines(cfg, s.core, a) && TimersCover(s, a)
    ensures TimersAt(s, w)
  {
  }

  // The timers after each handler

  /** A send with packets outstanding leaves the timers alone; one without starts a timer that
      waits the estimate. */
  lemma {:induction false} SendTimers(cfg: Config, s: Sender, a: P.Protocol, data: string, now: int)
    requires Refines(cfg, s.core, a) && TimersCover(s, a) && |a.sent| < a.base + cfg.window
    ensures s.core.next < |s.core.slots| && SendPacketReliable(cfg, s, data, now).Some?
    ensures var box := SendPacketReliable(cfg, s, data, now).value.box;
            if a.base < |a.sent| then box == s.box else Restarted(s.box, box, s.core.rtt)
  {
    SendRefines(cfg, s, a, data, now);
    Gap(a.base, |a.sent|, cfg.m);
    StartRestarts(s.box, s.core.rtt);
  }

  /** Every acknowledgement cleans the queue. A repeated one does no more; a new one stops the timer
      when nothing is left outstanding, so that none is armed, and otherwise starts one that waits
      the new estimate. */
  lemma {:induction false} AckTimers(cfg: Config, s: Sender, a: P.Protocol, k: nat, now: int) returns (d: nat)
    requires Refines(cfg, s.core, a) && TimersCover(s, a) && !s.finished
    requires k < |a.sent| && a.base <= k + 1
    ensures Occupied(s.core, Mod(k, cfg.m)) && s.box.cur.Some?
    ensures d <= |s.box.older| && Dropped(s.box.older, s.box.older[d..], d)
    ensures var s' := AckedPacket(cfg, s, Mod(k, cfg.m), now); var cleaned := s.box.(older := s.box.older[d..]);
            if k in a.named then s'.box == cleaned
            else if k + 1 == |a.sent| then Halted(cleaned, s'.box) && NoneArmed(s'.box)
            else Restarted(cleaned, s'.box, s'.core.rtt)
  {
    assert Holds(cfg, s.core, a, k);
    d := CleanDrops(s.box);
    if k !in a.named {
      AckCoreBase(cfg, s.core, a, k, now);
      RearmTimers(cfg, CleanTimers(s), Mod(k, cfg.m), now);
    }
  }

  lemma {:induction false} RearmTimers(cfg: Config, s: Sender, seqnum: nat, now: int)
    requires BoxOk(s.box) && Occupied(s.core, seqnum)
    ensures var s', c := NewlyAcked(cfg, s, seqnum, now), AckCore(cfg, s.core, seqnum, now);
            && s'.core == c
            && if c.base == c.next then Halted(s.box, s'.box) && NoneArmed(s'.box)
               else Restarted(s.box, s'.box, c.rtt)
  {
    StopHalts(s.box);
    StartRestarts(s.box, AckCore(cfg, s.core, seqnum, now).rtt);
  }

  /** Past the wait at the end of a chunk the queue of timers is cleaned, the count starts again, and
      nothing else has changed. */
  lemma {:induction false} ChunkEndCleans(cfg: Config, y: System, z: Plan, now: int) returns (d: nat)
    requires Related(cfg, y, z) && z.done < |y.chunks| && z.pos == |y.chunks[z.done]|
    requires SenderTurn(cfg, y, now).To?
    ensures d <= |y.s.box.older| && Dropped(y.s.box.older, y.s.box.older[d..], d)
    ensures var s' := SenderTurn(cfg, y, now).y.s;
            s' == y.s.(core := y.s.core.(count := 0), box := y.s.box.(older := y.s.box.older[d..]))
  {
    d := CleanDrops(y.s.box);
  }

  /** A timeout leaves a new timer that waits the estimate. */
  lemma {:induction false} TimeoutTimers(cfg: Config, s: Sender, a: P.Protocol)
    requires Refines(cfg, s.core, a) && TimersCover(s, a) && !s.finished
    ensures ResendSafe(cfg, s.core) && Restarted(s.box, TimeoutHandler(cfg, s).box, s.core.rtt)
  {
    TimeoutRefines(cfg, s, a);
    P.ResendIsRange(a, a.base);
    StartRestarts(s.box, TimeoutHandler(cfg, s).core.rtt);
  }

  /** In every run: when the last packet sent is acknowledged for the first time, no timer is armed
      afterwards. */
  lemma {:induction false} LastAckStopsTimer(cfg: Config, chunks: seq<seq<string>>, es: seq<Event>, k: nat, now: int)
    requires cfg.Ok() && AllowedRun(cfg, chunks, es) && Run(cfg, chunks, es).To?
    requires !Run(cfg, chunks, es).y.s.finished && PlanRun(cfg, chunks, es).Some?
    requires var a := PlanRun(cfg, chunks, es).value.a; k + 1 == |a.sent| && a.base <= k
    ensures var o := Step(cfg, Run(cfg, chunks, es).y, AckArrives(k, now)); o.To? && NoneArmed(o.y.s.box)
  {
    RunRefines(cfg, chunks, es);
    var y, a := Run(cfg, chunks, es).y, PlanRun(cfg, chunks, es).value.a;
    var d := AckTimers(cfg, y.s, a, k, now);
  }

  // The end

  /** The datagrams of `endConnection`: one when the thread ends, and one for every acknowledgement
      that arrives afterwards. */
  function Goodbyes(cfg: Config, chunks: seq<seq<string>>, es: seq<Event>): nat {
    if es == [] then 0
    else
      var n := |es| - 1;
      var before, after := Run(cfg, chunks, es[..n]), Run(cfg, chunks, es);
      Goodbyes(cfg, chunks, es[..n])
      + (if before.To? && after.To?
            && ((!before.y.s.finished && after.y.s.finished) || (before.y.s.finished && es[n].AckArrives?))
         then 1 else 0)
  }

  /** In every run the connection is closed that often, and after the end no timer is armed. */
  lemma {:induction false} EndInEveryRun(cfg: Config, chunks: seq<seq<string>>, es: seq<Event>)
    requires cfg.Ok() && AllowedRun(cfg, chunks, es) && Run(cfg, chunks, es).To?
    ensures Run(cfg, chunks, es).y.s.closings == Goodbyes(cfg, chunks, es)
    ensures Run(cfg, chunks, es).y.s.finished ==> NoneArmed(Run(cfg, chunks, es).y.s.box)
  {
    if es != [] {
      var n := |es| - 1;
      EndInEveryRun(cfg, chunks, es[..n]);
      RunRefines(cfg, chunks, es[..n]);
      EndStep(cfg, Run(cfg, chunks, es[..n]).y, PlanRun(cfg, chunks, es[..n]).value, es[n]);
    }
  }

  lemma {:induction false} EndStep(cfg: Config, y: System, z: Plan, e: Event)
    requires Related(cfg, y, z) && Step(cfg, y, e).To? && (y.s.finished ==> NoneArmed(y.s.box))
    ensures var y' := Step(cfg, y, e).y;
            && (y'.s.finished ==> NoneArmed(y'.s.box)) && (y.s.finished ==> y'.s.finished)
            && y'.s.closings == y.s.closings + (if (!y.s.finished && y'.s.finished)
                                                   || (y.s.finished && e.AckArrives?) then 1 else 0)
  {
    var box := y.s.box;
    match e
    case Turn(now) => StopHalts(box);
    case AckArrives(k, now) => var d := CleanDrops(box);
    case TimerWakes(w) => if y.s.finished { PutArmsNone(box, w, Wake(At(box, w))); }
    case HandlerRuns(w) =>
      if y.s.finished {
        assert At(box, w).Ok();
        PutArmsNone(box, w, Return(At(box, w)));
      }
  }

  // What the protocol's counters and times are, read off the events

  /** One more than the greatest packet acknowledged before the end. */
  function Acknowledged(cfg: Config, chunks: seq<seq<string>>, es: seq<Event>): nat {
    if es == [] then 0
    else
      var n := |es| - 1;
      var before, most := Run(cfg, chunks, es[..n]), Acknowledged(cfg, chunks, es[..n]);
      if es[n].AckArrives? && before.To? && !before.y.s.finished && es[n].k >= most then es[n].k + 1 else most
  }

  /** The times at which the sender thread has sent its packets. */
  function SentTimes(cfg: Config, chunks: seq<seq<string>>, es: seq<Event>): seq<int> {
    if es == [] then []
    else
      var n := |es| - 1;
      var before, after := Run(cfg, chunks, es[..n]), Run(cfg, chunks, es);
      SentTimes(cfg, chunks, es[..n])
      + (if es[n].Turn? && before.To? && after.To? && after.y.pos > before.y.pos then [es[n].now] else [])
  }

  /** In every run the base is the first packet that no acknowledgement has reached, and the
      protocol's times are those of the events. */
  lemma {:induction false} CountersAreEvents(cfg: Config, chunks: seq<seq<string>>, es: seq<Event>)
    requires cfg.Ok() && AllowedRun(cfg, chunks, es) && Run(cfg, chunks, es).To?
    ensures PlanRun(cfg, chunks, es).Some?
    ensures var a := PlanRun(cfg, chunks, es).value.a;
            a.base == Acknowledged(cfg, chunks, es) && a.times == SentTimes(cfg, chunks, es)
  {
    RunRefines(cfg, chunks, es);
    if es != [] {
      var n := |es| - 1;
      CountersAreEvents(cfg, chunks, es[..n]);
      RunRefines(cfg, chunks, es[..n]);
      CountersStep(cfg, Run(cfg, chunks, es[..n]).y, PlanRun(cfg, chunks, es[..n]).value, es[n]);
    }
  }

  lemma {:induction false} CountersStep(cfg: Config, y: System, z: Plan, e: Event)
    requires Related(cfg, y, z) && Allowed(z, e) && Step(cfg, y, e).To?
    ensures PlanStep(cfg, y.chunks, z, e).Some?
    ensures var a, a' := z.a, PlanStep(cfg, y.chunks, z, e).value.a; var y' := Step(cfg, y, e).y;
            && a'.base == (if e.AckArrives? && !y.s.finished && e.k >= a.base then e.k + 1 else a.base)
            && a'.times == a.times + (if e.Turn? && y'.pos > y.pos then [e.now] else [])
  {
    match e
    case Turn(now) => TurnCounters(cfg, y, z, now);
    case AckArrives(k, now) => if !z.finished { AckCounters(z.a, k, now); }
    case TimerWakes(w) =>
    case HandlerRuns(w) => P.ResendIsRange(z.a, z.a.base);
  }

  lemma {:induction false} TurnCounters(cfg: Config, y: System, z: Plan, now: int)
    requires Related(cfg, y, z) && SenderTurn(cfg, y, now).To?
    ensures PlanTurn(cfg, y.chunks, z, now).Some?
    ensures var a' := PlanTurn(cfg, y.chunks, z, now).value.a;
            && a'.base == z.a.base
            && a'.times == z.a.times + (if SenderTurn(cfg, y, now).y.pos > y.pos then [now] else [])
  {
    TurnRefines(cfg, y, z, now);
    var z' := PlanTurn(cfg, y.chunks, z, now).value;
    assert SenderTurn(cfg, y, now).y.pos == z'.pos && y.pos == z.pos;
  }

  lemma {:induction false} AckCounters(a: P.Protocol, k: nat, now: int)
    requires P.Ok(a) && P.LastNamed(a) && a.counted == a.base <= k + 1 && k < |a.sent|
    ensures P.Ack(a, k, now).base == (if k >= a.base then k + 1 else a.base) && P.Ack(a, k, now).times == a.times
  {
  }

  /** In every run the first acknowledgement to reach packet `k`, naming it, changes the estimate by
      the time since the packet was sent if it was transmitted once, and not otherwise. */
  lemma {:induction false} RoundTripMeasured(cfg: Config, chunks: seq<seq<string>>, es: seq<Event>, k: nat, now: int)
    requires cfg.Ok() && AllowedRun(cfg, chunks, es) && Run(cfg, chunks, es).To?
    requires !Run(cfg, chunks, es).y.s.finished && Acknowledged(cfg, chunks, es) <= k
    requires k < |SentTimes(cfg, chunks, es)|
    ensures PlanRun(cfg, chunks, es).Some?
    ensures Measures(cfg, Run(cfg, chunks, es).y, PlanRun(cfg, chunks, es).value.a.log, k,
                     now, SentTimes(cfg, chunks, es)[k])
  {
    CountersAreEvents(cfg, chunks, es);
    RunRefines(cfg, chunks, es);
    ArrivalMeasures(cfg, Run(cfg, chunks, es).y, PlanRun(cfg, chunks, es).value, k, now);
  }

  /** An acknowledgement of packet `k`, which was sent at `start` and is in the log of what was put on
      the wire, moves the estimate an eighth of the way to the time elapsed, towards zero. */
  ghost predicate Measures(cfg: Config, y: System, log: seq<nat>, k: nat, now: int, start: int) {
    var o := Step(cfg, y, AckArrives(k, now));
    && o.To?
    && o.y.s.core.rtt == if P.Occurrences(log, k) == 1 then Weighted(y.s.core.rtt, now - start) else y.s.core.rtt
  }

  function Weighted(estimate: int, sample: int): int {
    Rtt.Trunc(0.875 * (estimate as real) + 0.125 * (sample as real))
  }

  lemma {:induction false} ArrivalMeasures(cfg: Config, y: System, z: Plan, k: nat, now: int)
    requires Related(cfg, y, z) && !z.finished && z.a.base <= k < |z.a.sent|
    ensures Measures(cfg, y, z.a.log, k, now, z.a.times[k])
  {
    AckMeasures(cfg, y.s, z.a, k, now);
    Rtt.NextIsWeighted(y.s.core.rtt, now - z.a.times[k]);
  }

  lemma {:induction false} AckMeasures(cfg: Config, s: Sender, a: P.Protocol, k: nat, now: int)
    requires Refines(cfg, s.core, a) && TimersCover(s, a) && !s.finished && a.base <= k < |a.sent|
    ensures Occupied(s.core, Mod(k, cfg.m)) && s.box.cur.Some?
    ensures AckedPacket(cfg, s, Mod(k, cfg.m), now).core.rtt
            == if P.Occurrences(a.log, k) == 1 then Rtt.Next(s.core.rtt, now - a.times[k]) else s.core.rtt
  {
    assert Holds(cfg, s.core, a, k);
  }

  /** When the send loop has ended, every packet of every chunk was put on the wire in order
      and acknowledged. */
  lemma {:induction false} FinishedMeansDelivered(cfg: Config, chunks: seq<seq<string>>, es: seq<Event>)
    requires cfg.Ok() && AllowedRun(cfg, chunks, es)
    requires Run(cfg, chunks, es).To? && Run(cfg, chunks, es).y.s.finished
    ensures PlanRun(cfg, chunks, es).Some?
    ensures var a := PlanRun(cfg, chunks, es).value.a;
            && P.Ok(a) && a.sent == Flatten(chunks) && a.base == |a.sent|
            && P.Near(a.log, cfg.window) && (forall i :: 0 <= i < |a.log| ==> a.log[i] < |a.sent|)
            && Run(cfg, chunks, es).y.s.core.wire == WireOf(cfg, a.sent, a.log)
            && P.FirstSeen(a.log) == P.Range(0, |a.sent|)
  {
    RunRefines(cfg, chunks, es);
    var y, z := Run(cfg, chunks, es).y, PlanRun(cfg, chunks, es).value;
    FinishedIdle(cfg, y, z);
    assert y.chunks[..z.done] == chunks;
  }
}
