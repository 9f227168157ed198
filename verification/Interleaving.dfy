/** The sender thread, the acknowledgement handler and a timeout handler interleaved at every
    mutex-protected access (`src/ClientSender.cpp`). `packet_send_mutex` keeps a send and a
    timeout apart, `ackcount_mutex` the sender's looks at the count and the stretches of the
    acknowledgement handler that hold it; everything else runs against everything. Of the timers
    only the pointer to the current one is kept here. */
module Interleaving {
  import opened Options
  import opened Packets
  import opened Modular
  import opened Sequences
  import opened Window
  import opened Refinement
  import Rtt
  import P = GoBackN

  /** Where a thread is and the values it has read so far; `b0`, `h` and `seen` are history. */
  datatype SenderPc =
    | Outside
    | ReadBase(data: string, n: nat)
    | Test(data: string, n: nat, b: nat, b0: nat)
    | ReadNext(data: string)
    | StoreIt(data: string, n: nat)
    | TransmitIt(data: string, n: nat)
    | CompareBase
    | CompareNext(b: nat)
    | StartIt
    | Increment
    | ResetCount

  datatype AckPc =
    | NoAck
    | CheckEnd(k: nat)
    | Look(k: nat)
    | ReadFlag(k: nat)
    | TakeTime(k: nat, seen: nat)
    | MoveBase(k: nat)
    | ReadBackBase(k: nat)
    | ReadBackNext(k: nat, b: nat)
    | Settle(k: nat, b: nat, n: nat)
    | CountIt(k: nat)
    | MarkIt(k: nat)

  datatype TimeoutPc =
    | NoTimeout
    | FetchBase(n: nat)
    | Loop(n: nat, b: nat, i: nat, h: Pass)
    | Resend(n: nat, b: nat, i: nat, h: Pass)
    | Restart(h: Pass)

  /** History of one pass of the retransmission loop: it started at packet `b0` when the log
      was `log0` and is now at packet `j`. */
  datatype Pass = Pass(b0: nat, log0: seq<nat>, j: nat)

  /** The sender thread's work: `done` chunks are complete, `pos` packets of the next one have
      been sent; `finished` is `finished_sending_data`. */
  datatype Job = Job(chunks: seq<seq<string>>, done: nat, pos: nat, finished: bool)

  /** `timeoutTimer`: no timer yet, a timer, or an empty pointer was dereferenced. Such a run goes
      on here as if that had no effect, so all that is proved holds up to that point at least. */
  datatype TimerPtr = Empty | Present | Fault

  function StartTimer(t: TimerPtr): TimerPtr {
    if t.Fault? then Fault else Present
  }

  function StopTimer(t: TimerPtr): TimerPtr {
    if t.Empty? then Fault else t
  }

  /** The shared fields, the protocol history, the work, the timer and the three program counters. */
  datatype State = State(c: Core, a: P.Protocol, job: Job, timer: TimerPtr,
                         sender: SenderPc, ack: AckPc, timeout: TimeoutPc)

  datatype Move =
    | SenderMoves(now: int)
    | AckEnters(k: nat)
    | AckMoves(now: int)
    | TimeoutEnters
    | TimeoutMoves

  /** `Stuck`: the thread cannot make this move now. `NullSlot`: an empty slot is dereferenced. */
  datatype Result = Next(s: State) | Stuck | NullSlot

  predicate HoldsSendLock(pc: SenderPc) {
    !pc.Outside? && !pc.ResetCount?
  }

  /** Between two steps the acknowledgement handler keeps `ackcount_mutex`. */
  predicate HoldsCountLock(pc: AckPc) {
    pc.Look? || pc.ReadFlag? || pc.TakeTime? || pc.MarkIt?
  }

  /** Outside of a send: the next packet of the chunk, or the wait for its end, or the end. */
  function SenderOutside(cfg: Config, s: State): Result {
    var job := s.job;
    if job.finished || job.done > |job.chunks| then Stuck
    else if job.done < |job.chunks| && job.pos < |job.chunks[job.done]| then
      if !s.timeout.NoTimeout? then Stuck
      else Next(s.(sender := ReadBase(job.chunks[job.done][job.pos], s.c.next)))
    else if HoldsCountLock(s.ack) then Stuck
    else if job.done == |job.chunks| then Next(s.(job := job.(finished := true)))
    else if s.c.count == |job.chunks[job.done]| then Next(s.(sender := ResetCount))
    else Stuck
  }

  function SenderStep(cfg: Config, s: State, now: int): Result {
    match s.sender
    case Outside => SenderOutside(cfg, s)
    case ReadBase(data, n) => Next(s.(sender := Test(data, n, s.c.base, s.a.base)))
    case Test(data, n, b, b0) =>
      if HoldsCountLock(s.ack) then Stuck
      else Next(s.(sender := if CanAdvance(b, n, cfg.window, cfg.m) then ReadNext(data) else Outside))
    case ReadNext(data) => Next(s.(sender := StoreIt(data, s.c.next)))
    case StoreIt(data, n) =>
      if n >= |s.c.slots| then NullSlot
      else Next(s.(c := Store(cfg, s.c, n, data), sender := TransmitIt(data, n)))
    case TransmitIt(data, n) =>
      if !Occupied(s.c, n) then NullSlot
      else Next(s.(c := Transmit(cfg, s.c, n, now), a := P.Send(s.a, data, now), sender := CompareBase))
    case CompareBase => Next(s.(sender := CompareNext(s.c.base)))
    case CompareNext(b) => Next(s.(sender := if b == s.c.next then StartIt else Increment))
    case StartIt => Next(s.(timer := StartTimer(s.timer), sender := Increment))
    case Increment =>
      Next(s.(c := IncNext(cfg, s.c), job := s.job.(pos := s.job.pos + 1), sender := Outside))
    case ResetCount =>
      if HoldsCountLock(s.ack) then Stuck
      else Next(s.(c := s.c.(count := 0), a := P.NewChunk(s.a),
                   job := s.job.(done := s.job.done + 1, pos := 0), sender := Outside))
  }

  function AckStep(cfg: Config, s: State, now: int): Result {
    match s.ack
    case NoAck => Stuck
    case CheckEnd(k) => Next(s.(ack := if s.job.finished then NoAck else Look(k)))
    case Look(k) =>
      var i := Mod(k, cfg.m);
      if !Occupied(s.c, i) then NullSlot
      else Next(s.(ack := if s.c.slots[i].value.acked then NoAck else ReadFlag(k)))
    case ReadFlag(k) =>
      var i := Mod(k, cfg.m);
      if !Occupied(s.c, i) then NullSlot
      else Next(s.(ack := if s.c.slots[i].value.retransmitted then MoveBase(k)
                          else TakeTime(k, P.Occurrences(s.a.log, k))))
    case TakeTime(k, seen) =>
      var i := Mod(k, cfg.m);
      if !Occupied(s.c, i) || k >= |s.a.times| then NullSlot
      else Next(s.(c := TakeSample(s.c, i, now), a := P.TakeMeasure(s.a, k, now, seen), ack := MoveBase(k)))
    case MoveBase(k) =>
      Next(s.(c := SetBase(cfg, s.c, Mod(k, cfg.m) + 1), a := P.Advance(s.a, k), ack := ReadBackBase(k)))
    case ReadBackBase(k) => Next(s.(ack := ReadBackNext(k, s.c.base)))
    case ReadBackNext(k, b) => Next(s.(ack := Settle(k, b, s.c.next)))
    case Settle(k, b, n) =>
      Next(s.(timer := if b == n then StopTimer(s.timer) else StartTimer(s.timer), ack := CountIt(k)))
    case CountIt(k) => Next(s.(c := CountUp(cfg, s.c, Mod(k, cfg.m)), a := P.CountUp(s.a, k), ack := MarkIt(k)))
    case MarkIt(k) =>
      if !Occupied(s.c, Mod(k, cfg.m)) then NullSlot
      else Next(s.(c := MarkAcked(s.c, Mod(k, cfg.m)), a := P.Name(s.a, k), ack := NoAck))
  }

  function TimeoutStep(cfg: Config, s: State): Result {
    match s.timeout
    case NoTimeout => Stuck
    case FetchBase(n) =>
      Next(s.(timeout := Loop(n, s.c.base, s.c.base, Pass(s.a.base, s.a.log, s.a.base))))
    case Loop(n, b, i, h) =>
      if !InResend(n, b, cfg.window, cfg.m, i) then Next(s.(timeout := Restart(h)))
      else if !Occupied(s.c, i) then NullSlot
      else Next(s.(c := Mark(s.c, i), a := P.MarkRepeated(s.a, h.j), timeout := Resend(n, b, i, h)))
    case Resend(n, b, i, h) =>
      if !Occupied(s.c, i) then NullSlot
      else Next(s.(c := Window.Repeat(cfg, s.c, i), a := P.Again(s.a, h.j),
                   timeout := Loop(n, b, if i + 1 == cfg.m then 0 else i + 1, h.(j := h.j + 1))))
    case Restart(h) => Next(s.(timer := StartTimer(s.timer), timeout := NoTimeout))
  }

  /** A timeout handler runs only once there has been a timer. It may have looked at `finished` at
      any time before it gets the lock, so entering does not depend on that. */
  function Step(cfg: Config, s: State, m: Move): Result {
    match m
    case SenderMoves(now) => SenderStep(cfg, s, now)
    case AckEnters(k) => if s.ack.NoAck? then Next(s.(ack := CheckEnd(k))) else Stuck
    case AckMoves(now) => AckStep(cfg, s, now)
    case TimeoutEnters =>
      if !HoldsSendLock(s.sender) && s.timeout.NoTimeout? && !s.timer.Empty?
      then Next(s.(timeout := FetchBase(s.c.next))) else Stuck
    case TimeoutMoves => TimeoutStep(cfg, s)
  }

  function Start(cfg: Config, chunks: seq<seq<string>>): State {
    State(Initial(cfg).core, P.START, Job(chunks, 0, 0, false), Empty, Outside, NoAck, NoTimeout)
  }

  /** The moves one after another; a move that is not possible is passed over. */
  function Run(cfg: Config, chunks: seq<seq<string>>, ms: seq<Move>): Result {
    if ms == [] then Next(Start(cfg, chunks))
    else
      var before := Run(cfg, chunks, ms[..|ms| - 1]);
      if !before.Next? then before
      else
        var r := Step(cfg, before.s, ms[|ms| - 1]);
        if r.Stuck? then before else r
  }

  /** Acknowledgements name transmitted packets and are not reordered. */
  ghost predicate Allowed(s: State, m: Move) {
    m.AckEnters? && s.ack.NoAck? && !s.job.finished ==> m.k < |s.a.sent| && s.a.base <= m.k + 1
  }

  ghost predicate AllowedRun(cfg: Config, chunks: seq<seq<string>>, ms: seq<Move>) {
    ms != [] ==>
      var before := Run(cfg, chunks, ms[..|ms| - 1]);
      AllowedRun(cfg, chunks, ms[..|ms| - 1]) && (before.Next? ==> Allowed(before.s, ms[|ms| - 1]))
  }

  // The invariant

  /** The sender has put its packet on the wire and not yet counted it. */
  predicate Uncounted(pc: SenderPc) {
    pc.CompareBase? || pc.CompareNext? || pc.StartIt? || pc.Increment?
  }

  /** Packets whose send is complete. */
  function Completed(s: State): int {
    if Uncounted(s.sender) then |s.a.sent| - 1 else |s.a.sent|
  }

  /** The oldest packet whose slot has not been reused. */
  function Oldest(cfg: Config, s: State): int {
    if s.sender.TransmitIt? then |s.a.sent| + 1 - cfg.m else |s.a.sent| - cfg.m
  }

  ghost predicate SenderOk(cfg: Config, c: Core, a: P.Protocol, pc: SenderPc) {
    match pc
    case ReadBase(data, n) => n == Mod(|a.sent|, cfg.m)
    case Test(data, n, b, b0) =>
      n == Mod(|a.sent|, cfg.m) && b == Mod(b0, cfg.m) && b0 <= a.base && |a.sent| <= b0 + cfg.window
    case ReadNext(data) => |a.sent| < a.base + cfg.window
    case StoreIt(data, n) => |a.sent| < a.base + cfg.window && n == Mod(|a.sent|, cfg.m)
    case TransmitIt(data, n) =>
      && |a.sent| < a.base + cfg.window && n == Mod(|a.sent|, cfg.m) && n < |c.slots|
      && c.slots[n] == Some(Pkt(n, data, 0, false, false))
    case ResetCount => a.counted == a.base == |a.sent|
    case _ => true
  }

  /** The packets put on the wire are those of the chunks before, then the first of this one. */
  ghost predicate JobOk(job: Job, sent: seq<string>, chunk: nat, pc: SenderPc) {
    && job.done <= |job.chunks| && chunk == |Flatten(job.chunks[..job.done])|
    && (job.finished ==> job.done == |job.chunks|)
    && if job.done == |job.chunks| then job.pos == 0 && pc.Outside? && sent == Flatten(job.chunks)
       else
         var begun := if Uncounted(pc) then job.pos + 1 else job.pos;
         && begun <= |job.chunks[job.done]|
         && sent == Flatten(job.chunks[..job.done]) + job.chunks[job.done][..begun]
         && (Carries(pc) ==> job.pos < |job.chunks[job.done]| && pc.data == job.chunks[job.done][job.pos])
         && (pc.ResetCount? ==> job.pos == |job.chunks[job.done]|)
  }

  /** The sender is at work on a packet not yet on the wire. */
  predicate Carries(pc: SenderPc) {
    pc.ReadBase? || pc.Test? || pc.ReadNext? || pc.StoreIt? || pc.TransmitIt?
  }

  ghost predicate AckOk(cfg: Config, a: P.Protocol, finished: bool, pc: AckPc) {
    && (pc.MarkIt? || P.LastNamed(a))
    && match pc
       case NoAck => a.counted == a.base
       case CheckEnd(k) => a.counted == a.base && (finished || (k < |a.sent| && a.base <= k + 1))
       case Look(k) => a.counted == a.base && k < |a.sent| && a.base <= k + 1
       case ReadFlag(k) => a.counted == a.base <= k < |a.sent|
       case TakeTime(k, seen) => a.counted == a.base <= k < |a.sent| && seen == 1
       case MoveBase(k) => a.counted == a.base <= k < |a.sent|
       case MarkIt(k) => a.counted == a.base == k + 1
       case _ => a.base == pc.k + 1 && a.counted <= pc.k < a.counted + cfg.window
  }

  ghost predicate TimeoutOk(cfg: Config, a: P.Protocol, pc: TimeoutPc) {
    match pc
    case FetchBase(n) => n == Mod(|a.sent|, cfg.m)
    case Loop(n, b, i, h) => InLoop(cfg, a, n, b, i, h)
    case Resend(n, b, i, h) => InLoop(cfg, a, n, b, i, h) && h.j in a.repeated
    case Restart(h) => h.b0 <= a.base && a.log == h.log0 + P.Range(h.b0, |a.sent|)
    case _ => true
  }

  /** What is marked has been resent, but for the packet the loop is about to send. */
  ghost predicate MarkedOk(a: P.Protocol, pc: TimeoutPc) {
    a.repeated == a.resent + (if pc.Resend? then {pc.h.j} else {})
  }

  /** The loop is at packet `h.j` and has put exactly the packets from the base it once read
      up to there on the wire. */
  ghost predicate InLoop(cfg: Config, a: P.Protocol, n: nat, b: nat, i: nat, h: Pass) {
    && n == Mod(|a.sent|, cfg.m) && b == Mod(h.b0, cfg.m) && i == Mod(h.j, cfg.m)
    && h.b0 <= a.base && h.b0 <= h.j <= |a.sent| <= h.b0 + cfg.window
    && a.log == h.log0 + P.Range(h.b0, h.j)
  }

  /** The shared fields against the protocol. */
  ghost predicate Fields(cfg: Config, s: State) {
    && Common(cfg, s.c, s.a)
    && SlotsHold(cfg, s.c, s.a, Oldest(cfg, s))
    && Completed(s) >= 0 && s.c.next == Mod(Completed(s), cfg.m)
    && |s.a.sent| <= s.a.base + cfg.window
  }

  /** The three threads. */
  ghost predicate Threads(cfg: Config, s: State) {
    && SenderOk(cfg, s.c, s.a, s.sender)
    && JobOk(s.job, s.a.sent, s.a.chunk, s.sender)
    && AckOk(cfg, s.a, s.job.finished, s.ack)
    && TimeoutOk(cfg, s.a, s.timeout)
    && MarkedOk(s.a, s.timeout)
    && (HoldsSendLock(s.sender) ==> s.timeout.NoTimeout?)
    && (s.sender.ResetCount? ==> !s.ack.MarkIt?)
  }

  ghost predicate Invariant(cfg: Config, s: State) {
    Fields(cfg, s) && Threads(cfg, s)
  }

  // Every move keeps it

  ghost predicate Safe(cfg: Config, r: Result) {
    r.Next? && Invariant(cfg, r.s)
  }

  /** A window test that passes on a base read earlier passes on the present base too. */
  lemma {:induction false} TestKeeps(cfg: Config, s: State)
    requires Invariant(cfg, s) && s.sender.Test? && !HoldsCountLock(s.ack)
    ensures Safe(cfg, SenderStep(cfg, s, 0))
    ensures SenderStep(cfg, s, 0).s.sender.ReadNext? ==> |s.a.sent| < s.a.base + cfg.window
  {
    CanAdvanceExact(s.sender.b0, |s.a.sent|, cfg.window, cfg.m);
  }

  /** Between two packets: go on, wait for the end of the chunk, or finish. */
  lemma {:induction false} OutsideKeeps(cfg: Config, s: State)
    requires Invariant(cfg, s) && s.sender.Outside?
    ensures !SenderOutside(cfg, s).NullSlot?
    ensures SenderOutside(cfg, s).Next? ==> Safe(cfg, SenderOutside(cfg, s))
  {
    if Waiting(s) {
      WaitExact(cfg, s);
    }
  }

  lemma {:induction false} StoreItKeeps(cfg: Config, s: State)
    requires Invariant(cfg, s) && s.sender.StoreIt?
    ensures Safe(cfg, SenderStep(cfg, s, 0))
  {
    StoreKeeps(cfg, s.c, s.a, s.sender.data);
  }

  lemma {:induction false} TransmitItKeeps(cfg: Config, s: State, now: int)
    requires Invariant(cfg, s) && s.sender.TransmitIt?
    ensures Safe(cfg, SenderStep(cfg, s, now))
  {
    TransmitKeeps(cfg, s.c, s.a, s.sender.data, now);
    JobSends(s.job, s.a.sent, s.a.chunk, s.sender);
  }

  lemma {:induction false} JobSends(job: Job, sent: seq<string>, chunk: nat, pc: SenderPc)
    requires JobOk(job, sent, chunk, pc) && pc.TransmitIt?
    ensures JobOk(job, sent + [pc.data], chunk, CompareBase)
  {
    var xs := job.chunks[job.done];
    assert xs[..job.pos + 1] == xs[..job.pos] + [xs[job.pos]];
  }

  lemma {:induction false} IncrementKeeps(cfg: Config, s: State)
    requires Invariant(cfg, s) && s.sender.Increment?
    ensures Safe(cfg, SenderStep(cfg, s, 0))
  {
    IncrementFields(cfg, s);
    IncrementThreads(cfg, s);
  }

  lemma {:induction false} IncrementFields(cfg: Config, s: State)
    requires Fields(cfg, s) && s.sender.Increment?
    ensures Fields(cfg, SenderStep(cfg, s, 0).s)
  {
    Successor(|s.a.sent| - 1, cfg.m);
  }

  lemma {:induction false} IncrementThreads(cfg: Config, s: State)
    requires Threads(cfg, s) && s.sender.Increment?
    ensures Threads(cfg, SenderStep(cfg, s, 0).s)
  {
  }

  lemma {:induction false} ResetCountKeeps(cfg: Config, s: State)
    requires Invariant(cfg, s) && s.sender.ResetCount? && !HoldsCountLock(s.ack)
    ensures Safe(cfg, SenderStep(cfg, s, 0))
  {
    ChunkKeeps(cfg, s.c, s.a, Oldest(cfg, s));
    JobResets(s.job, s.a.sent, s.a.chunk);
  }

  lemma {:induction false} JobResets(job: Job, sent: seq<string>, chunk: nat)
    requires JobOk(job, sent, chunk, ResetCount)
    ensures JobOk(job.(done := job.done + 1, pos := 0), sent, |sent|, Outside)
  {
    var d := job.done;
    assert job.chunks[..d + 1][..d] == job.chunks[..d];
    assert job.chunks[d][..|job.chunks[d]|] == job.chunks[d];
    assert d + 1 == |job.chunks| ==> job.chunks[..d + 1] == job.chunks;
    assert d + 1 < |job.chunks| ==> job.chunks[d + 1][..0] == [];
  }

  /** The steps of a send that touch neither the window nor the wire. */
  predicate ReadsOnly(pc: SenderPc) {
    pc.ReadBase? || pc.ReadNext? || pc.CompareBase? || pc.CompareNext? || pc.StartIt?
  }

  lemma {:induction false} SenderReadsKeep(cfg: Config, s: State, now: int)
    requires Invariant(cfg, s)
    requires ReadsOnly(s.sender)
    ensures Safe(cfg, SenderStep(cfg, s, now))
  {
    SenderReadsThreads(cfg, s, now);
  }

  lemma {:induction false} SenderReadsThreads(cfg: Config, s: State, now: int)
    requires Threads(cfg, s) && |s.a.sent| <= s.a.base + cfg.window && s.c.base == Mod(s.a.base, cfg.m)
    requires Completed(s) >= 0 && s.c.next == Mod(Completed(s), cfg.m)
    requires ReadsOnly(s.sender)
    ensures Threads(cfg, SenderStep(cfg, s, now).s)
  {
  }

  lemma {:induction false} SenderKeeps(cfg: Config, s: State, now: int)
    requires Invariant(cfg, s)
    ensures !SenderStep(cfg, s, now).NullSlot?
    ensures SenderStep(cfg, s, now).Next? ==> Safe(cfg, SenderStep(cfg, s, now))
  {
    match s.sender
    case Outside => OutsideKeeps(cfg, s);
    case Test(_, _, _, _) => if !HoldsCountLock(s.ack) { TestKeeps(cfg, s); }
    case StoreIt(_, _) => StoreItKeeps(cfg, s);
    case TransmitIt(_, _) => TransmitItKeeps(cfg, s, now);
    case Increment => IncrementKeeps(cfg, s);
    case ResetCount => if !HoldsCountLock(s.ack) { ResetCountKeeps(cfg, s); }
    case _ => SenderReadsKeep(cfg, s, now);
  }

  /** The count has reached the size of the chunk exactly when every packet of the chunk is
      acknowledged; then no acknowledgement is half processed. */
  lemma {:induction false} WaitExact(cfg: Config, s: State)
    requires Invariant(cfg, s) && s.sender.Outside? && s.job.done < |s.job.chunks|
    requires s.job.pos == |s.job.chunks[s.job.done]|
    ensures s.a.sent == Flatten(s.job.chunks[..s.job.done]) + s.job.chunks[s.job.done]
    ensures s.c.count == |s.job.chunks[s.job.done]| <==> s.a.counted == |s.a.sent|
    ensures s.a.counted == |s.a.sent| ==>
              s.ack.NoAck? || s.ack.MarkIt? || (s.ack.k in s.a.named && (s.ack.CheckEnd? || s.ack.Look?))
  {
    assert s.job.chunks[s.job.done][..s.job.pos] == s.job.chunks[s.job.done];
  }

  /** The packet being acknowledged is in its slot, and it is not the one being stored. */
  lemma {:induction false} AckedSlot(cfg: Config, s: State, k: nat)
    requires Invariant(cfg, s) && k < |s.a.sent| && s.a.base <= k + 1
    ensures Oldest(cfg, s) <= k && Holds(cfg, s.c, s.a, k)
    ensures s.sender.TransmitIt? ==> s.sender.n != Mod(k, cfg.m)
  {
    if s.sender.TransmitIt? {
      OtherSlot(cfg, k, |s.a.sent|);
    }
  }

  lemma {:induction false} LookKeeps(cfg: Config, s: State, now: int)
    requires Invariant(cfg, s) && s.ack.Look?
    ensures Safe(cfg, AckStep(cfg, s, now))
  {
    AckedSlot(cfg, s, s.ack.k);
    NewlyNamed(s.a, s.ack.k);
  }

  /** A packet no acknowledgement has named is not the last one acknowledged. */
  lemma {:induction false} NewlyNamed(a: P.Protocol, k: nat)
    requires P.LastNamed(a) && a.counted == a.base <= k + 1
    ensures k !in a.named ==> a.base <= k
  {
  }

  /** A packet whose flag is found clear has been transmitted exactly once. */
  lemma {:induction false} ReadFlagKeeps(cfg: Config, s: State, now: int)
    requires Invariant(cfg, s) && s.ack.ReadFlag?
    ensures Safe(cfg, AckStep(cfg, s, now))
    ensures AckStep(cfg, s, now).s.ack.TakeTime? ==> P.Occurrences(s.a.log, s.ack.k) == 1
  {
    AckedSlot(cfg, s, s.ack.k);
  }

  /** The packet measured was transmitted once when its flag was read; `TimeExact` says when
      that is still so. */
  lemma {:induction false} TakeTimeKeeps(cfg: Config, s: State, now: int)
    requires Invariant(cfg, s) && s.ack.TakeTime?
    ensures Safe(cfg, AckStep(cfg, s, now))
  {
    AckedSlot(cfg, s, s.ack.k);
    TakeTimeFields(cfg, s, now);
    TakeTimeThreads(cfg, s, now);
  }

  lemma {:induction false} TakeTimeFields(cfg: Config, s: State, now: int)
    requires Fields(cfg, s) && s.ack.TakeTime? && s.ack.seen == 1 && Oldest(cfg, s) <= s.ack.k < |s.a.sent|
    ensures AckStep(cfg, s, now).Next? && Fields(cfg, AckStep(cfg, s, now).s)
  {
    TakeSampleKeeps(cfg, s.c, s.a, Oldest(cfg, s), s.ack.k, now);
  }

  lemma {:induction false} TakeTimeThreads(cfg: Config, s: State, now: int)
    requires Threads(cfg, s) && s.ack.TakeTime? && AckStep(cfg, s, now).Next?
    ensures Threads(cfg, AckStep(cfg, s, now).s)
  {
  }

  /** When the time is taken the packet has been transmitted exactly once precisely when its
      flag is still clear, or set by a handler that has not yet sent the packet again. */
  lemma {:induction false} TimeExact(cfg: Config, s: State)
    requires Invariant(cfg, s) && s.ack.TakeTime?
    ensures Occupied(s.c, Mod(s.ack.k, cfg.m))
    ensures P.Occurrences(s.a.log, s.ack.k) == 1
       <==> || !s.c.slots[Mod(s.ack.k, cfg.m)].value.retransmitted
            || (s.timeout.Resend? && s.timeout.h.j == s.ack.k && s.ack.k !in s.a.resent)
  {
    AckedSlot(cfg, s, s.ack.k);
  }

  lemma {:induction false} ReadsKeep(cfg: Config, s: State, now: int)
    requires Invariant(cfg, s)
    requires s.ack.CheckEnd? || s.ack.ReadBackBase? || s.ack.ReadBackNext? || s.ack.Settle?
    ensures Safe(cfg, AckStep(cfg, s, now))
  {
    FinishedNow(cfg, s);
  }

  /** After the end nothing is outstanding. */
  lemma {:induction false} FinishedNow(cfg: Config, s: State)
    requires Invariant(cfg, s)
    ensures s.job.done == |s.job.chunks| ==> s.a.chunk == s.a.counted == s.a.base == |s.a.sent|
  {
    assert s.job.done == |s.job.chunks| ==> s.job.chunks[..s.job.done] == s.job.chunks;
  }

  lemma {:induction false} MoveBaseKeeps(cfg: Config, s: State)
    requires Invariant(cfg, s) && s.ack.MoveBase?
    ensures Safe(cfg, AckStep(cfg, s, 0))
  {
    MoveBaseFields(cfg, s);
    MoveBaseThreads(cfg, s);
  }

  lemma {:induction false} MoveBaseFields(cfg: Config, s: State)
    requires Fields(cfg, s) && s.ack.MoveBase? && s.a.base <= s.ack.k < |s.a.sent|
    ensures Fields(cfg, AckStep(cfg, s, 0).s)
  {
    SetBaseKeeps(cfg, s.c, s.a, Oldest(cfg, s), s.ack.k);
  }

  lemma {:induction false} MoveBaseThreads(cfg: Config, s: State)
    requires Threads(cfg, s) && s.ack.MoveBase? && |s.a.sent| <= s.a.base + cfg.window
    ensures Threads(cfg, AckStep(cfg, s, 0).s)
  {
  }

  lemma {:induction false} CountItKeeps(cfg: Config, s: State)
    requires Invariant(cfg, s) && s.ack.CountIt?
    ensures Safe(cfg, AckStep(cfg, s, 0))
  {
    CountItFields(cfg, s);
    CountItThreads(cfg, s);
  }

  lemma {:induction false} CountItFields(cfg: Config, s: State)
    requires Fields(cfg, s) && AckOk(cfg, s.a, s.job.finished, s.ack) && s.ack.CountIt?
    ensures Fields(cfg, AckStep(cfg, s, 0).s)
  {
    CountUpKeeps(cfg, s.c, s.a, Oldest(cfg, s), s.ack.k);
  }

  lemma {:induction false} CountItThreads(cfg: Config, s: State)
    requires Threads(cfg, s) && s.ack.CountIt?
    ensures Threads(cfg, AckStep(cfg, s, 0).s)
  {
  }

  /** The slot read again to mark the acknowledgement still contains the acknowledged packet. */
  lemma {:induction false} MarkItKeeps(cfg: Config, s: State)
    requires Invariant(cfg, s) && s.ack.MarkIt?
    ensures Holds(cfg, s.c, s.a, s.ack.k)
    ensures Safe(cfg, AckStep(cfg, s, 0))
  {
    AckedSlot(cfg, s, s.ack.k);
    MarkItFields(cfg, s);
    MarkItThreads(cfg, s);
  }

  lemma {:induction false} MarkItFields(cfg: Config, s: State)
    requires Fields(cfg, s) && s.ack.MarkIt? && Oldest(cfg, s) <= s.ack.k < s.a.counted
    ensures AckStep(cfg, s, 0).Next? && Fields(cfg, AckStep(cfg, s, 0).s)
  {
    MarkAckedKeeps(cfg, s.c, s.a, Oldest(cfg, s), s.ack.k);
  }

  lemma {:induction false} MarkItThreads(cfg: Config, s: State)
    requires Threads(cfg, s) && s.ack.MarkIt? && AckStep(cfg, s, 0).Next?
    requires s.sender.TransmitIt? ==> s.sender.n != Mod(s.ack.k, cfg.m)
    ensures Threads(cfg, AckStep(cfg, s, 0).s)
  {
  }

  lemma {:induction false} AckKeeps(cfg: Config, s: State, now: int)
    requires Invariant(cfg, s) && !s.ack.NoAck?
    ensures Safe(cfg, AckStep(cfg, s, now))
  {
    match s.ack
    case Look(_) => LookKeeps(cfg, s, now);
    case ReadFlag(_) => ReadFlagKeeps(cfg, s, now);
    case TakeTime(_, _) => TakeTimeKeeps(cfg, s, now);
    case MoveBase(_) => MoveBaseKeeps(cfg, s);
    case CountIt(_) => CountItKeeps(cfg, s);
    case MarkIt(_) => MarkItKeeps(cfg, s);
    case _ => ReadsKeep(cfg, s, now);
  }

  lemma {:induction false} LoopKeeps(cfg: Config, s: State)
    requires Invariant(cfg, s) && s.timeout.Loop?
    ensures Safe(cfg, TimeoutStep(cfg, s))
  {
    var t := s.timeout;
    InResendExact(t.h.b0, |s.a.sent|, t.h.j, cfg.window, cfg.m);
    if t.h.j < |s.a.sent| {
      LoopFields(cfg, s);
      LoopThreads(cfg, s);
    }
  }

  lemma {:induction false} LoopFields(cfg: Config, s: State)
    requires Fields(cfg, s) && TimeoutOk(cfg, s.a, s.timeout) && s.timeout.Loop? && !s.sender.TransmitIt?
    requires var t := s.timeout; InResend(t.n, t.b, cfg.window, cfg.m, t.i) && t.h.j < |s.a.sent|
    ensures TimeoutStep(cfg, s).Next? && Fields(cfg, TimeoutStep(cfg, s).s)
  {
    MarkKeeps(cfg, s.c, s.a, Oldest(cfg, s), s.timeout.h.j);
  }

  lemma {:induction false} LoopThreads(cfg: Config, s: State)
    requires Threads(cfg, s) && s.timeout.Loop? && TimeoutStep(cfg, s).Next?
    requires var t := s.timeout; InResend(t.n, t.b, cfg.window, cfg.m, t.i)
    ensures Threads(cfg, TimeoutStep(cfg, s).s)
  {
  }

  lemma {:induction false} ResendKeeps(cfg: Config, s: State)
    requires Invariant(cfg, s) && s.timeout.Resend?
    ensures Safe(cfg, TimeoutStep(cfg, s))
  {
    ResendFields(cfg, s);
    ResendThreads(cfg, s);
  }

  lemma {:induction false} ResendFields(cfg: Config, s: State)
    requires Fields(cfg, s) && TimeoutOk(cfg, s.a, s.timeout) && s.timeout.Resend? && !s.sender.TransmitIt?
    ensures s.timeout.h.j < |s.a.sent|
    ensures TimeoutStep(cfg, s).Next? && Fields(cfg, TimeoutStep(cfg, s).s)
  {
    RepeatKeeps(cfg, s.c, s.a, Oldest(cfg, s), s.timeout.h.j);
  }

  lemma {:induction false} ResendThreads(cfg: Config, s: State)
    requires Threads(cfg, s) && s.timeout.Resend? && TimeoutStep(cfg, s).Next? && s.timeout.h.j < |s.a.sent|
    ensures Threads(cfg, TimeoutStep(cfg, s).s)
  {
    var t := s.timeout;
    InLoopGoesOn(cfg, s.a, t.n, t.b, t.i, t.h);
  }

  lemma {:induction false} InLoopGoesOn(cfg: Config, a: P.Protocol, n: nat, b: nat, i: nat, h: Pass)
    requires InLoop(cfg, a, n, b, i, h) && h.j < |a.sent|
    ensures InLoop(cfg, P.Again(a, h.j), n, b, if i + 1 == cfg.m then 0 else i + 1, h.(j := h.j + 1))
  {
    Successor(h.j, cfg.m);
    P.LogGrows(h.log0, h.b0, h.j);
  }

  lemma {:induction false} TimeoutKeeps(cfg: Config, s: State)
    requires Invariant(cfg, s) && !s.timeout.NoTimeout?
    ensures Safe(cfg, TimeoutStep(cfg, s))
  {
    if s.timeout.Loop? { LoopKeeps(cfg, s); }
    else if s.timeout.Resend? { ResendKeeps(cfg, s); }
  }

  lemma {:induction false} EnterKeeps(cfg: Config, s: State, m: Move)
    requires Invariant(cfg, s) && Allowed(s, m) && (m.AckEnters? || m.TimeoutEnters?)
    ensures var r := Step(cfg, s, m); !r.NullSlot? && (r.Next? ==> Invariant(cfg, r.s))
  {
  }

  lemma {:induction false} StepKeeps(cfg: Config, s: State, m: Move)
    requires Invariant(cfg, s) && Allowed(s, m)
    ensures var r := Step(cfg, s, m); !r.NullSlot? && (r.Next? ==> Invariant(cfg, r.s))
  {
    match m
    case SenderMoves(now) => SenderKeeps(cfg, s, now);
    case AckMoves(now) => if !s.ack.NoAck? { AckKeeps(cfg, s, now); }
    case TimeoutMoves => if !s.timeout.NoTimeout? { TimeoutKeeps(cfg, s); }
    case _ => EnterKeeps(cfg, s, m);
  }

  lemma {:induction false} StartOk(cfg: Config, chunks: seq<seq<string>>)
    requires cfg.Ok()
    ensures Invariant(cfg, Start(cfg, chunks))
  {
    assert chunks[..0] == [];
    assert |chunks| > 0 ==> chunks[0][..0] == [];
  }

  /** No interleaving of the three threads dereferences an empty slot or leaves the invariant. */
  lemma {:induction false} RunKeeps(cfg: Config, chunks: seq<seq<string>>, ms: seq<Move>)
    requires cfg.Ok() && AllowedRun(cfg, chunks, ms)
    ensures Run(cfg, chunks, ms).Next? && Invariant(cfg, Run(cfg, chunks, ms).s)
    ensures Run(cfg, chunks, ms).s.job.chunks == chunks
  {
    if ms == [] {
      StartOk(cfg, chunks);
    } else {
      RunKeeps(cfg, chunks, ms[..|ms| - 1]);
      var s, m := Run(cfg, chunks, ms[..|ms| - 1]).s, ms[|ms| - 1];
      StepKeeps(cfg, s, m);
      SameChunks(cfg, s, m);
    }
  }

  lemma {:induction false} SameChunks(cfg: Config, s: State, m: Move)
    ensures Step(cfg, s, m).Next? ==> Step(cfg, s, m).s.job.chunks == s.job.chunks
  {
  }

  /** The window in every reachable state: never more than `window` packets from the base to
      `next`, the base at most one ahead of `next`, and ahead only while the sender is between
      transmitting a packet and counting it. */
  lemma {:induction false} WindowSafety(cfg: Config, chunks: seq<seq<string>>, ms: seq<Move>)
    requires cfg.Ok() && AllowedRun(cfg, chunks, ms)
    ensures Run(cfg, chunks, ms).Next?
    ensures var s := Run(cfg, chunks, ms).s; var B := s.a.base; var N := Completed(s);
            && s.c.base == Mod(B, cfg.m) && N >= 0 && s.c.next == Mod(N, cfg.m)
            && B <= N + 1 && N <= B + cfg.window
            && (B == N + 1 ==> Uncounted(s.sender))
  {
    RunKeeps(cfg, chunks, ms);
  }

  /** However acknowledgements interleave with it, a timeout handler that has finished its
      loop has put exactly the packets from the base it read to the last one sent on the wire,
      once each and in order, and nothing else was put on the wire meanwhile. */
  lemma {:induction false} TimeoutExact(cfg: Config, chunks: seq<seq<string>>, ms: seq<Move>)
    requires cfg.Ok() && AllowedRun(cfg, chunks, ms)
    requires Run(cfg, chunks, ms).Next? && Run(cfg, chunks, ms).s.timeout.Restart?
    ensures var s := Run(cfg, chunks, ms).s; var h := s.timeout.h;
            && h.b0 <= s.a.base && s.a.log == h.log0 + P.Range(h.b0, |s.a.sent|)
            && (forall i :: 0 <= i < |s.a.log| ==> s.a.log[i] < |s.a.sent|)
            && s.c.wire == WireOf(cfg, s.a.sent, s.a.log)
  {
    RunKeeps(cfg, chunks, ms);
  }

  /** In every interleaving packets are first transmitted in order, each with its own text, and
      one that no timeout has repeated is on the wire once. */
  lemma {:induction false} OrderKept(cfg: Config, chunks: seq<seq<string>>, ms: seq<Move>)
    requires cfg.Ok() && AllowedRun(cfg, chunks, ms)
    ensures Run(cfg, chunks, ms).Next?
    ensures var s := Run(cfg, chunks, ms).s; var a := s.a;
            && P.FirstSeen(a.log) == P.Range(0, |a.sent|) && |s.c.wire| == |a.log|
            && (forall i :: 0 <= i < |a.log| ==>
                  a.log[i] < |a.sent| && s.c.wire[i] == cfg.text(Mod(a.log[i], cfg.m), a.sent[a.log[i]]))
            && (forall k: nat :: k < |a.sent| && k !in a.repeated ==> P.Occurrences(a.log, k) == 1)
  {
    RunKeeps(cfg, chunks, ms);
    var s := Run(cfg, chunks, ms).s;
    WireAt(cfg, s.a.sent, s.a.log);
  }

  /** The sender, done with the packets of a chunk, gets past its wait exactly when every packet
      of the chunk is acknowledged. */
  lemma {:induction false} BarrierSafety(cfg: Config, chunks: seq<seq<string>>, ms: seq<Move>)
    requires cfg.Ok() && AllowedRun(cfg, chunks, ms)
    ensures Run(cfg, chunks, ms).Next? && Barrier(cfg, Run(cfg, chunks, ms).s)
  {
    RunKeeps(cfg, chunks, ms);
    BarrierAt(cfg, Run(cfg, chunks, ms).s);
  }

  /** The wait is left exactly when all is acknowledged and counted; then, and until the count
      is reset, the chunk is done. */
  ghost predicate Barrier(cfg: Config, s: State) {
    && (Waiting(s) && !HoldsCountLock(s.ack) ==> (SenderOutside(cfg, s).Next? <==> s.a.counted == |s.a.sent|))
    && (Waiting(s) && SenderOutside(cfg, s).Next? ==> ChunkDone(s))
    && (s.sender.ResetCount? ==> ChunkDone(s))
  }

  /** Every packet of the chunk has been handed to the window. */
  predicate Waiting(s: State) {
    s.sender.Outside? && s.job.done < |s.job.chunks| && s.job.pos == |s.job.chunks[s.job.done]|
  }

  /** The chunk is sent and acknowledged, its packets are all counted, and nothing is half
      processed that could change the count before it is reset. */
  ghost predicate ChunkDone(s: State) {
    && s.job.done < |s.job.chunks|
    && s.a.sent == Flatten(s.job.chunks[..s.job.done]) + s.job.chunks[s.job.done]
    && s.a.counted == s.a.base == |s.a.sent| && s.c.count == |s.job.chunks[s.job.done]|
    && (s.ack.NoAck? || ((s.ack.CheckEnd? || s.ack.Look?) && s.ack.k in s.a.named))
  }

  lemma {:induction false} ResetExact(cfg: Config, s: State)
    requires Invariant(cfg, s) && s.sender.ResetCount?
    ensures ChunkDone(s)
  {
    assert s.job.chunks[s.job.done][..s.job.pos] == s.job.chunks[s.job.done];
  }

  lemma {:induction false} BarrierAt(cfg: Config, s: State)
    requires Invariant(cfg, s)
    ensures Barrier(cfg, s)
  {
    if Waiting(s) {
      WaitExact(cfg, s);
    }
    if s.sender.ResetCount? {
      ResetExact(cfg, s);
    }
  }

  /** When the sender has finished, in whatever interleaving, every packet of every chunk was
      put on the wire, first transmissions in order, and all are acknowledged. */
  lemma {:induction false} FinishedDelivered(cfg: Config, chunks: seq<seq<string>>, ms: seq<Move>)
    requires cfg.Ok() && AllowedRun(cfg, chunks, ms)
    requires Run(cfg, chunks, ms).Next? && Run(cfg, chunks, ms).s.job.finished
    ensures var s := Run(cfg, chunks, ms).s; var a := s.a;
            && a.sent == Flatten(chunks) && a.counted == a.base == |a.sent|
            && P.FirstSeen(a.log) == P.Range(0, |a.sent|) && P.Near(a.log, cfg.window)
            && (forall i :: 0 <= i < |a.log| ==> a.log[i] < |a.sent|)
            && s.c.wire == WireOf(cfg, a.sent, a.log)
  {
    RunKeeps(cfg, chunks, ms);
    FinishedNow(cfg, Run(cfg, chunks, ms).s);
  }

  /** Every sample is of a packet that had been transmitted exactly once when its flag was read.
      When the time is taken it still has, exactly unless a timeout has sent it again in
      between. The estimate is the average over the samples. */
  lemma {:induction false} MeasuredOnce(cfg: Config, chunks: seq<seq<string>>, ms: seq<Move>)
    requires cfg.Ok() && AllowedRun(cfg, chunks, ms)
    ensures Run(cfg, chunks, ms).Next? && P.MeasuresOk(Run(cfg, chunks, ms).s.a.measures)
    ensures var s := Run(cfg, chunks, ms).s; s.c.rtt == Rtt.Estimate(1000, P.Samples(s.a.measures))
  {
    RunKeeps(cfg, chunks, ms);
  }

  /** In every interleaving the estimate stays between the smallest and the largest of the
      start value and the times measured. */
  lemma {:induction false} EstimateBounded(cfg: Config, chunks: seq<seq<string>>, ms: seq<Move>, lo: int, hi: int)
    requires cfg.Ok() && AllowedRun(cfg, chunks, ms) && Run(cfg, chunks, ms).Next? && lo <= 1000 <= hi
    requires var a := Run(cfg, chunks, ms).s.a;
             forall i :: 0 <= i < |a.measures| ==> lo <= a.measures[i].value <= hi
    ensures lo <= Run(cfg, chunks, ms).s.c.rtt <= hi
  {
    RunKeeps(cfg, chunks, ms);
    Rtt.Bounded(Rtt.INITIAL, P.Samples(Run(cfg, chunks, ms).s.a.measures), lo, hi);
  }

  /** While no thread is inside a handler the invariant is the relation of the atomic handlers,
      with the sender at its place in the chunks. */
  lemma {:induction false} Quiescent(cfg: Config, s: State)
    requires s.sender.Outside? && s.ack.NoAck? && s.timeout.NoTimeout?
    ensures Invariant(cfg, s) <==> Refines(cfg, s.c, s.a) && JobOk(s.job, s.a.sent, s.a.chunk, Outside)
  {
  }

  // Handlers that nothing interrupts are the atomic handlers

  /** The same move `n` times. */
  function Times(cfg: Config, s: State, m: Move, n: nat): Result
    decreases n
  {
    if n == 0 then Next(s)
    else var r := Step(cfg, s, m); if r.Next? then Times(cfg, r.s, m, n - 1) else r
  }

  lemma {:induction false} SendUninterrupted(cfg: Config, s: State, now: int)
    requires s.c.next < |s.c.slots| && s.sender.Outside? && s.timeout.NoTimeout? && !HoldsCountLock(s.ack)
    requires !s.job.finished && s.job.done < |s.job.chunks| && s.job.pos < |s.job.chunks[s.job.done]|
    ensures if CanAdvance(s.c.base, s.c.next, cfg.window, cfg.m)
            then Times(cfg, s, SenderMoves(now), if s.c.base == s.c.next then 10 else 9) == Next(AfterSend(cfg, s, now))
            else Times(cfg, s, SenderMoves(now), 3) == Next(s)
  {
    var s1 := SenderStep(cfg, s, now).s;
    var s2 := SenderStep(cfg, s1, now).s;
    var s3 := SenderStep(cfg, s2, now).s;
    assert Times(cfg, s, SenderMoves(now), 3) == Times(cfg, s2, SenderMoves(now), 1);
    if CanAdvance(s.c.base, s.c.next, cfg.window, cfg.m) {
      SendToWire(cfg, s, now);
      WireToEnd(cfg, OnWire(cfg, s, now), now);
      TimesSum(cfg, s, SenderMoves(now), 6, if s.c.base == s.c.next then 4 else 3);
    }
  }

  lemma {:induction false} TimesSum(cfg: Config, s: State, m: Move, i: nat, j: nat)
    requires Times(cfg, s, m, i).Next?
    ensures Times(cfg, s, m, i + j) == Times(cfg, Times(cfg, s, m, i).s, m, j)
    decreases i
  {
    if i > 0 {
      TimesSum(cfg, Step(cfg, s, m).s, m, i - 1, j);
    }
  }

  /** The first six steps: the packet is stored and on the wire. */
  function OnWire(cfg: Config, s: State, now: int): State
    requires s.c.next < |s.c.slots| && s.job.done < |s.job.chunks| && s.job.pos < |s.job.chunks[s.job.done]|
  {
    var data := s.job.chunks[s.job.done][s.job.pos];
    s.(c := Transmit(cfg, Store(cfg, s.c, s.c.next, data), s.c.next, now), a := P.Send(s.a, data, now),
       sender := CompareBase)
  }

  lemma {:induction false} SendToWire(cfg: Config, s: State, now: int)
    requires s.c.next < |s.c.slots| && s.sender.Outside? && s.timeout.NoTimeout? && !HoldsCountLock(s.ack)
    requires !s.job.finished && s.job.done < |s.job.chunks| && s.job.pos < |s.job.chunks[s.job.done]|
    requires CanAdvance(s.c.base, s.c.next, cfg.window, cfg.m)
    ensures Times(cfg, s, SenderMoves(now), 6) == Next(OnWire(cfg, s, now))
  {
    var s1 := SenderStep(cfg, s, now).s;
    var s2 := SenderStep(cfg, s1, now).s;
    var s3 := SenderStep(cfg, s2, now).s;
    var s4 := SenderStep(cfg, s3, now).s;
    var s5 := SenderStep(cfg, s4, now).s;
    assert Times(cfg, s4, SenderMoves(now), 2) == SenderStep(cfg, s5, now);
    assert Times(cfg, s2, SenderMoves(now), 4) == Times(cfg, s4, SenderMoves(now), 2);
    assert Times(cfg, s, SenderMoves(now), 6) == Times(cfg, s2, SenderMoves(now), 4);
  }

  /** The rest: start a timer if nothing was outstanding, count the packet. */
  lemma {:induction false} WireToEnd(cfg: Config, s: State, now: int)
    requires s.sender.CompareBase?
    ensures Times(cfg, s, SenderMoves(now), if s.c.base == s.c.next then 4 else 3)
            == Next(s.(c := IncNext(cfg, s.c), job := s.job.(pos := s.job.pos + 1), sender := Outside,
                       timer := if s.c.base == s.c.next then StartTimer(s.timer) else s.timer))
  {
    var s1 := SenderStep(cfg, s, now).s;
    var s2 := SenderStep(cfg, s1, now).s;
    var s3 := SenderStep(cfg, s2, now).s;
    assert Times(cfg, s2, SenderMoves(now), 1) == SenderStep(cfg, s2, now);
    assert Times(cfg, s2, SenderMoves(now), 2) == Times(cfg, s3, SenderMoves(now), 1);
  }

  /** The next packet sent as by the atomic handler. */
  function AfterSend(cfg: Config, s: State, now: int): State
    requires s.c.next < |s.c.slots| && s.job.done < |s.job.chunks| && s.job.pos < |s.job.chunks[s.job.done]|
  {
    var data := s.job.chunks[s.job.done][s.job.pos];
    s.(c := SendCore(cfg, s.c, data, now), a := P.Send(s.a, data, now), job := s.job.(pos := s.job.pos + 1),
       timer := if s.c.base == s.c.next then StartTimer(s.timer) else s.timer)
  }

  /** A new acknowledgement as by the atomic handler. */
  function AfterAck(cfg: Config, s: State, k: nat, now: int): State
    requires Occupied(s.c, Mod(k, cfg.m)) && k < |s.a.times|
  {
    var c := AckCore(cfg, s.c, Mod(k, cfg.m), now);
    s.(c := c, a := P.Count(P.Advance(P.MeasureAck(s.a, k, now), k), k),
       timer := if c.base == c.next then StopTimer(s.timer) else StartTimer(s.timer))
  }

  lemma {:induction false} AckUninterrupted(cfg: Config, s: State, k: nat, now: int)
    requires Invariant(cfg, s) && s.ack.NoAck? && !s.job.finished && k < |s.a.sent| && s.a.base <= k + 1
    ensures Occupied(s.c, Mod(k, cfg.m))
    ensures var s1 := s.(ack := CheckEnd(k)); var i := Mod(k, cfg.m); var p := s.c.slots[i].value;
            if p.acked then Times(cfg, s1, AckMoves(now), 2) == Next(s)
            else Times(cfg, s1, AckMoves(now), if p.retransmitted then 9 else 10)
                 == Next(AfterAck(cfg, s, k, now))
  {
    AckedSlot(cfg, s, k);
    AckSteps(cfg, s, k, now);
  }

  lemma {:induction false} AckSteps(cfg: Config, s: State, k: nat, now: int)
    requires s.ack.NoAck? && !s.job.finished && Occupied(s.c, Mod(k, cfg.m)) && k < |s.a.times|
    requires s.c.slots[Mod(k, cfg.m)].value.retransmitted <==> k in s.a.repeated
    ensures var s1 := s.(ack := CheckEnd(k)); var i := Mod(k, cfg.m); var p := s.c.slots[i].value;
            if p.acked then Times(cfg, s1, AckMoves(now), 2) == Next(s)
            else Times(cfg, s1, AckMoves(now), if p.retransmitted then 9 else 10)
                 == Next(AfterAck(cfg, s, k, now))
  {
    MeasureUninterrupted(cfg, s, k, now);
    if !s.c.slots[Mod(k, cfg.m)].value.acked {
      RestUninterrupted(cfg, Measured(cfg, s, k, now), now);
      MeasuredCounted(cfg, s, k, now);
    }
  }

  lemma {:induction false} MeasuredCounted(cfg: Config, s: State, k: nat, now: int)
    requires s.ack.NoAck? && Occupied(s.c, Mod(k, cfg.m)) && k < |s.a.times|
    ensures Counted(cfg, Measured(cfg, s, k, now))
            == AfterAck(cfg, s, k, now)
  {
  }

  /** The packet has been measured, the base is next. */
  function Measured(cfg: Config, s: State, k: nat, now: int): State
    requires Occupied(s.c, Mod(k, cfg.m)) && k < |s.a.times|
  {
    s.(c := Sample(s.c, Mod(k, cfg.m), now), a := P.MeasureAck(s.a, k, now), ack := MoveBase(k))
  }

  lemma {:induction false} MeasureUninterrupted(cfg: Config, s: State, k: nat, now: int)
    requires s.ack.NoAck? && !s.job.finished && Occupied(s.c, Mod(k, cfg.m)) && k < |s.a.times|
    requires s.c.slots[Mod(k, cfg.m)].value.retransmitted <==> k in s.a.repeated
    ensures var s1 := s.(ack := CheckEnd(k)); var i := Mod(k, cfg.m); var p := s.c.slots[i].value;
            if p.acked then Times(cfg, s1, AckMoves(now), 2) == Next(s)
            else
              Times(cfg, s1, AckMoves(now), if p.retransmitted then 9 else 10)
              == Times(cfg, Measured(cfg, s, k, now), AckMoves(now), 6)
  {
    var s1 := s.(ack := CheckEnd(k));
    var i := Mod(k, cfg.m);
    var s2 := AckStep(cfg, s1, now).s;
    assert Times(cfg, s1, AckMoves(now), 2) == AckStep(cfg, s2, now);
    if !s.c.slots[i].value.acked {
      var s3 := AckStep(cfg, s2, now).s;
      var s4 := AckStep(cfg, s3, now).s;
      var moved := Measured(cfg, s, k, now);
      if s.c.slots[i].value.retransmitted {
        assert s4 == moved;
        assert Times(cfg, s2, AckMoves(now), 8) == Times(cfg, moved, AckMoves(now), 6);
      } else {
        assert AckStep(cfg, s4, now) == Next(moved);
        assert Times(cfg, s4, AckMoves(now), 7) == Times(cfg, moved, AckMoves(now), 6);
        assert Times(cfg, s3, AckMoves(now), 8) == Times(cfg, s4, AckMoves(now), 7);
      }
    }
  }

  /** From the base on: the packet is counted and marked. */
  function Counted(cfg: Config, s: State): State
    requires s.ack.MoveBase? && Occupied(s.c, Mod(s.ack.k, cfg.m))
  {
    var k, i := s.ack.k, Mod(s.ack.k, cfg.m);
    var c := SetBase(cfg, s.c, i + 1);
    s.(c := CountAck(cfg, c, i), a := P.Count(P.Advance(s.a, k), k), ack := NoAck,
       timer := if c.base == c.next then StopTimer(s.timer) else StartTimer(s.timer))
  }

  lemma {:induction false} RestUninterrupted(cfg: Config, s: State, now: int)
    requires s.ack.MoveBase? && Occupied(s.c, Mod(s.ack.k, cfg.m))
    ensures Times(cfg, s, AckMoves(now), 6) == Next(Counted(cfg, s))
  {
    var s1 := AckStep(cfg, s, now).s;
    var s2 := AckStep(cfg, s1, now).s;
    var s3 := AckStep(cfg, s2, now).s;
    var s4 := AckStep(cfg, s3, now).s;
    var s5 := AckStep(cfg, s4, now).s;
    assert Times(cfg, s4, AckMoves(now), 2) == AckStep(cfg, s5, now);
    assert Times(cfg, s2, AckMoves(now), 4) == Times(cfg, s4, AckMoves(now), 2);
  }

  /** The loop uninterrupted, from any index. */
  lemma {:induction false} LoopUninterrupted(cfg: Config, s: State)
    requires s.timeout.Loop? && s.timeout.n < cfg.m && s.timeout.i < cfg.m
    requires var t := s.timeout; AllOccupied(s.c, LoopIndices(t.n, t.b, cfg.window, cfg.m, t.i))
    ensures var t := s.timeout; var ix := LoopIndices(t.n, t.b, cfg.window, cfg.m, t.i);
            var r := Times(cfg, s, TimeoutMoves, 2 * |ix| + 2);
            && r.Next? && r.s.c == ResendAll(cfg, s.c, ix)
            && r.s == s.(c := r.s.c, a := r.s.a, timer := StartTimer(s.timer), timeout := NoTimeout)
    decreases Distance(s.timeout.n, cfg.m, s.timeout.i)
  {
    var t := s.timeout;
    var ix := LoopIndices(t.n, t.b, cfg.window, cfg.m, t.i);
    if InResend(t.n, t.b, cfg.window, cfg.m, t.i) {
      assert Occupied(s.c, ix[0]);
      var s2 := TimeoutStep(cfg, s).s;
      var s3 := TimeoutStep(cfg, s2).s;
      var rest := LoopIndices(t.n, t.b, cfg.window, cfg.m, s3.timeout.i);
      assert ix[1..] == rest;
      forall x | 0 <= x < |rest| ensures Occupied(s3.c, rest[x]) {
        assert Occupied(s.c, ix[x + 1]);
      }
      LoopUninterrupted(cfg, s3);
      assert Times(cfg, s2, TimeoutMoves, 2 * |rest| + 3) == Times(cfg, s3, TimeoutMoves, 2 * |rest| + 2);
    } else {
      assert Times(cfg, s, TimeoutMoves, 2) == TimeoutStep(cfg, TimeoutStep(cfg, s).s);
    }
  }

  // A packet resent between the look at its flag and the taking of its time

  lemma {:induction false} RunThen(cfg: Config, chunks: seq<seq<string>>, ms: seq<Move>, m: Move)
    requires AllowedRun(cfg, chunks, ms) && Run(cfg, chunks, ms).Next? && Allowed(Run(cfg, chunks, ms).s, m)
    requires Step(cfg, Run(cfg, chunks, ms).s, m).Next?
    ensures AllowedRun(cfg, chunks, ms + [m])
    ensures Run(cfg, chunks, ms + [m]) == Step(cfg, Run(cfg, chunks, ms).s, m)
  {
    assert (ms + [m])[..|ms + [m]| - 1] == ms;
  }

  lemma {:induction false} FirstOf(cfg: Config, s: State, m: Move, n: nat)
    requires n > 0 && Times(cfg, s, m, n).Next?
    ensures Step(cfg, s, m).Next? && Times(cfg, s, m, n) == Times(cfg, Step(cfg, s, m).s, m, n - 1)
  {
  }

  /** The same move `n` times at the end of a run. */
  lemma {:induction false} GoesOn(cfg: Config, chunks: seq<seq<string>>, ms: seq<Move>, s: State, m: Move, n: nat)
    returns (ms': seq<Move>)
    requires Reached(cfg, chunks, ms, s) && !m.AckEnters? && Times(cfg, s, m, n).Next?
    ensures Reached(cfg, chunks, ms', Times(cfg, s, m, n).s)
    decreases n
  {
    ms' := ms;
    if n > 0 {
      FirstOf(cfg, s, m, n);
      RunThen(cfg, chunks, ms, m);
      ms' := GoesOn(cfg, chunks, ms + [m], Step(cfg, s, m).s, m, n - 1);
    }
  }

  /** The run `ms` is allowed and ends in `s`. */
  ghost predicate Reached(cfg: Config, chunks: seq<seq<string>>, ms: seq<Move>, s: State) {
    AllowedRun(cfg, chunks, ms) && Run(cfg, chunks, ms) == Next(s)
  }

  /** The first packet is on the wire, nothing has been acknowledged or resent. */
  ghost predicate FirstSent(cfg: Config, s: State) {
    && Invariant(cfg, s) && s.sender.Outside? && s.timeout.NoTimeout? && !s.job.finished && s.timer.Present?
    && |s.a.sent| == 1 && s.a.base == s.a.counted == 0 && s.a.log == [0]
    && s.a.named == s.a.repeated == {} && s.a.measures == []
  }

  lemma {:induction false} FirstSend(cfg: Config, chunks: seq<seq<string>>) returns (ms: seq<Move>)
    requires cfg.Ok() && |chunks| > 0 && |chunks[0]| > 0
    ensures AllowedRun(cfg, chunks, ms) && Run(cfg, chunks, ms).Next?
    ensures FirstSent(cfg, Run(cfg, chunks, ms).s) && Run(cfg, chunks, ms).s.ack.NoAck?
  {
    var s := Start(cfg, chunks);
    StartOk(cfg, chunks);
    CanAdvanceExact(0, 0, cfg.window, cfg.m);
    SendUninterrupted(cfg, s, 0);
    ms := GoesOn(cfg, chunks, [], s, SenderMoves(0), 10);
    RunKeeps(cfg, chunks, ms);
  }

  /** The acknowledgement handler up to where it has found the flag of packet 0 clear. */
  lemma {:induction false} FlagSeen(cfg: Config, chunks: seq<seq<string>>, ms: seq<Move>) returns (ms': seq<Move>)
    requires cfg.Ok() && AllowedRun(cfg, chunks, ms) && Run(cfg, chunks, ms).Next?
    requires FirstSent(cfg, Run(cfg, chunks, ms).s) && Run(cfg, chunks, ms).s.ack.NoAck?
    ensures AllowedRun(cfg, chunks, ms') && Run(cfg, chunks, ms').Next?
    ensures FirstSent(cfg, Run(cfg, chunks, ms').s) && Run(cfg, chunks, ms').s.ack == TakeTime(0, 1)
  {
    FlagClear(cfg, Run(cfg, chunks, ms).s);
    RunThen(cfg, chunks, ms, AckEnters(0));
    ms' := ms + [AckEnters(0)];
    ms' := GoesOn(cfg, chunks, ms', Run(cfg, chunks, ms').s, AckMoves(0), 3);
    RunKeeps(cfg, chunks, ms');
  }

  lemma {:induction false} FlagClear(cfg: Config, s: State)
    requires FirstSent(cfg, s)
    ensures Times(cfg, s.(ack := CheckEnd(0)), AckMoves(0), 3) == Next(s.(ack := TakeTime(0, 1)))
  {
    assert Holds(cfg, s.c, s.a, 0);
    assert P.Occurrences([0], 0) == P.Occurrences([0][..0], 0) + 1;
    var s1 := s.(ack := Look(0));
    var s2 := s.(ack := ReadFlag(0));
    assert AckStep(cfg, s.(ack := CheckEnd(0)), 0) == Next(s1) && AckStep(cfg, s1, 0) == Next(s2);
    assert Times(cfg, s1, AckMoves(0), 2) == AckStep(cfg, s2, 0);
  }

  /** A timeout sends packet 0 again meanwhile. */
  lemma {:induction false} SentAgain(cfg: Config, chunks: seq<seq<string>>, ms: seq<Move>) returns (ms': seq<Move>)
    requires cfg.Ok() && AllowedRun(cfg, chunks, ms) && Run(cfg, chunks, ms).Next?
    requires FirstSent(cfg, Run(cfg, chunks, ms).s)
    ensures AllowedRun(cfg, chunks, ms') && Run(cfg, chunks, ms').Next?
    ensures var s := Run(cfg, chunks, ms).s; var s' := Run(cfg, chunks, ms').s;
            s'.ack == s.ack && s'.a == P.Again(P.MarkRepeated(s.a, 0), 0)
  {
    var s := Run(cfg, chunks, ms).s;
    var s' := ResendsFirst(cfg, s);
    RunThen(cfg, chunks, ms, TimeoutEnters);
    ms' := ms + [TimeoutEnters];
    ms' := GoesOn(cfg, chunks, ms', Run(cfg, chunks, ms').s, TimeoutMoves, 3);
  }

  lemma {:induction false} ResendsFirst(cfg: Config, s: State) returns (s': State)
    requires FirstSent(cfg, s)
    ensures Times(cfg, s.(timeout := FetchBase(s.c.next)), TimeoutMoves, 3) == Next(s')
    ensures s'.ack == s.ack && s'.a == P.Again(P.MarkRepeated(s.a, 0), 0)
  {
    InResendExact(0, 1, 0, cfg.window, cfg.m);
    assert Holds(cfg, s.c, s.a, 0);
    var h := Pass(0, s.a.log, 0);
    var s1 := s.(timeout := Loop(s.c.next, 0, 0, h));
    var s2 := s.(c := Mark(s.c, 0), a := P.MarkRepeated(s.a, 0), timeout := Resend(s.c.next, 0, 0, h));
    assert TimeoutStep(cfg, s.(timeout := FetchBase(s.c.next))) == Next(s1) && TimeoutStep(cfg, s1) == Next(s2);
    s' := TimeoutStep(cfg, s2).s;
    assert Times(cfg, s1, TimeoutMoves, 2) == TimeoutStep(cfg, s2);
  }

  /** So a sample can be taken of a packet that is on the wire twice: its flag was clear when
      it was read, and the time measured may be that of either transmission. */
  lemma {:induction false} MeasuredTwice(cfg: Config, chunks: seq<seq<string>>) returns (ms: seq<Move>)
    requires cfg.Ok() && |chunks| > 0 && |chunks[0]| > 0
    ensures AllowedRun(cfg, chunks, ms) && Run(cfg, chunks, ms).Next?
    ensures var r := Run(cfg, chunks, ms).s.a.measures;
            |r| == 1 && r[0].seen == 1 && r[0].transmissions == 2 && r[0].again
  {
    ms := FirstSend(cfg, chunks);
    ms := FlagSeen(cfg, chunks, ms);
    ms := SentAgain(cfg, chunks, ms);
    RunKeeps(cfg, chunks, ms);
    var s := Run(cfg, chunks, ms).s;
    AckedSlot(cfg, s, 0);
    assert s.a.log[..1] == [0] && [0][..0] == [];
    assert P.Occurrences(s.a.log, 0) == 2;
    RunThen(cfg, chunks, ms, AckMoves(0));
    ms := ms + [AckMoves(0)];
  }

  // The pointer to the current timer

  /** As long as there has been no timer at most the first packet has been counted as sent, and no
      acknowledgement but one of packet 0 has got as far as moving the base. */
  ghost predicate TimerOk(s: State) {
    s.timer.Empty? ==>
      && s.a.counted == 0 && s.timeout.NoTimeout?
      && if s.a.base == 0 then
           |s.a.sent| == 0
           || (|s.a.sent| == 1 && (s.sender.CompareBase? || s.sender == CompareNext(0) || s.sender.StartIt?))
         else
           && s.a.base == 1 && FirstAck(s.ack)
           && (|s.a.sent| == 1 || (|s.a.sent| == 2
                && (s.sender.CompareBase? || s.sender == CompareNext(1) || s.sender.StartIt?)))
  }

  /** The handler of an acknowledgement of packet 0, between moving the base and counting. */
  predicate FirstAck(pc: AckPc) {
    pc == ReadBackBase(0) || pc == ReadBackNext(0, 1) || (pc.Settle? && pc.k == 0 && pc.b == 1)
  }

  lemma {:induction false} SenderTimerOk(cfg: Config, s: State, now: int)
    requires Invariant(cfg, s) && TimerOk(s)
    ensures SenderStep(cfg, s, now).Next? ==> TimerOk(SenderStep(cfg, s, now).s)
  {
    assert Mod(0, cfg.m) == 0 && Mod(1, cfg.m) == 1;
  }

  lemma {:induction false} AckTimerOk(cfg: Config, s: State, now: int)
    requires Invariant(cfg, s) && TimerOk(s)
    ensures AckStep(cfg, s, now).Next? ==> TimerOk(AckStep(cfg, s, now).s)
  {
    assert Mod(0, cfg.m) == 0 && Mod(1, cfg.m) == 1;
  }

  lemma {:induction false} StepTimerOk(cfg: Config, s: State, m: Move)
    requires Invariant(cfg, s) && TimerOk(s) && Allowed(s, m)
    ensures Step(cfg, s, m).Next? ==> TimerOk(Step(cfg, s, m).s)
  {
    match m
    case SenderMoves(now) => SenderTimerOk(cfg, s, now);
    case AckMoves(now) => AckTimerOk(cfg, s, now);
    case _ =>
  }

  lemma {:induction false} RunTimerOk(cfg: Config, chunks: seq<seq<string>>, ms: seq<Move>)
    requires cfg.Ok() && AllowedRun(cfg, chunks, ms)
    ensures Run(cfg, chunks, ms).Next? && TimerOk(Run(cfg, chunks, ms).s)
  {
    RunKeeps(cfg, chunks, ms);
    if ms != [] {
      var before := ms[..|ms| - 1];
      RunTimerOk(cfg, chunks, before);
      RunKeeps(cfg, chunks, before);
      StepTimerOk(cfg, Run(cfg, chunks, before).s, ms[|ms| - 1]);
    }
  }

  /** In every interleaving the acknowledgement handler stops a timer that does not exist exactly
      if there has been none and the handler has read 1 as the next number. It is then the first
      acknowledgement, of packet 0: the sender compared base and next after the handler had moved
      the base, and counted the packet before the handler read next. */
  lemma {:induction false} FaultExact(cfg: Config, chunks: seq<seq<string>>, ms: seq<Move>, s: State, now: int)
    requires cfg.Ok() && Reached(cfg, chunks, ms, s) && s.ack.Settle? && !s.timer.Fault?
    ensures AckStep(cfg, s, now).s.timer.Fault? <==> s.timer.Empty? && s.ack.n == 1
    ensures s.timer.Empty? ==> s.ack.k == 0 && s.a.base == 1 && s.a.counted == 0
  {
    RunTimerOk(cfg, chunks, ms);
    RunKeeps(cfg, chunks, ms);
    SettleExact(cfg, s, now);
  }

  lemma {:induction false} SettleExact(cfg: Config, s: State, now: int)
    requires Invariant(cfg, s) && TimerOk(s) && s.ack.Settle? && !s.timer.Fault?
    ensures AckStep(cfg, s, now).s.timer.Fault? <==> s.timer.Empty? && s.ack.n == 1
    ensures s.timer.Empty? ==> s.ack.k == 0 && s.a.base == 1 && s.a.counted == 0
  {
  }

  /** No other move does, and once there has been a timer none. */
  lemma {:induction false} OnlySettleFaults(cfg: Config, s: State, m: Move)
    requires Step(cfg, s, m).Next? && !s.timer.Fault?
    ensures Step(cfg, s, m).s.timer.Fault? ==> m.AckMoves? && s.ack.Settle? && s.timer.Empty?
    ensures !s.timer.Empty? ==> Step(cfg, s, m).s.timer.Present?
  {
  }

  /** Packet 0 is on the wire and not yet counted. */
  ghost predicate FirstOnWire(cfg: Config, s: State) {
    && Invariant(cfg, s) && s.sender.CompareBase? && !s.job.finished && s.timer.Empty?
    && |s.a.sent| == 1 && s.a.base == s.a.counted == 0 && s.a.log == [0] && s.a.named == s.a.repeated == {}
  }

  lemma {:induction false} FirstWire(cfg: Config, chunks: seq<seq<string>>) returns (ms: seq<Move>)
    requires cfg.Ok() && |chunks| > 0 && |chunks[0]| > 0
    ensures AllowedRun(cfg, chunks, ms) && Run(cfg, chunks, ms).Next?
    ensures FirstOnWire(cfg, Run(cfg, chunks, ms).s) && Run(cfg, chunks, ms).s.ack.NoAck?
  {
    var s := Start(cfg, chunks);
    StartOk(cfg, chunks);
    CanAdvanceExact(0, 0, cfg.window, cfg.m);
    SendToWire(cfg, s, 0);
    ms := GoesOn(cfg, chunks, [], s, SenderMoves(0), 6);
    RunKeeps(cfg, chunks, ms);
  }

  /** Its acknowledgement moves the base and reads it back. */
  lemma {:induction false} BaseMoves(cfg: Config, s: State) returns (s': State)
    requires FirstOnWire(cfg, s)
    ensures Times(cfg, s.(ack := CheckEnd(0)), AckMoves(0), 6) == Next(s')
    ensures s' == s.(c := s'.c, a := s'.a, ack := ReadBackNext(0, 1)) && s'.c.base == 1 && s'.c.next == 0
  {
    assert Holds(cfg, s.c, s.a, 0);
    assert Mod(0, cfg.m) == 0 && Mod(1, cfg.m) == 1;
    var s1 := s.(ack := Look(0));
    var s2 := s.(ack := ReadFlag(0));
    var s3 := AckStep(cfg, s2, 0).s;
    var s4 := AckStep(cfg, s3, 0).s;
    var s5 := AckStep(cfg, s4, 0).s;
    s' := AckStep(cfg, s5, 0).s;
    assert AckStep(cfg, s.(ack := CheckEnd(0)), 0) == Next(s1) && AckStep(cfg, s1, 0) == Next(s2);
    assert Times(cfg, s4, AckMoves(0), 2) == AckStep(cfg, s5, 0);
    assert Times(cfg, s2, AckMoves(0), 4) == Times(cfg, s4, AckMoves(0), 2);
    assert Times(cfg, s.(ack := CheckEnd(0)), AckMoves(0), 6) == Times(cfg, s2, AckMoves(0), 4);
  }

  /** Such a run: the sender compares base 1 with next 0, starts no timer and counts the packet;
      the handler reads next 1, takes nothing to be outstanding, and stops no timer. */
  lemma {:induction false} EmptyTimerStopped(cfg: Config, chunks: seq<seq<string>>) returns (ms: seq<Move>)
    requires cfg.Ok() && |chunks| > 0 && |chunks[0]| > 0
    ensures AllowedRun(cfg, chunks, ms) && Run(cfg, chunks, ms).Next? && Run(cfg, chunks, ms).s.timer.Fault?
  {
    ms := FirstWire(cfg, chunks);
    var s := Run(cfg, chunks, ms).s;
    RunThen(cfg, chunks, ms, AckEnters(0));
    ms := ms + [AckEnters(0)];
    var s1 := BaseMoves(cfg, s);
    ms := GoesOn(cfg, chunks, ms, s.(ack := CheckEnd(0)), AckMoves(0), 6);
    var s2 := CountsThenStops(cfg, s1);
    ms := GoesOn(cfg, chunks, ms, s1, SenderMoves(0), 3);
    ms := GoesOn(cfg, chunks, ms, s2, AckMoves(0), 2);
  }

  /** The sender starts no timer and counts the packet, then the handler stops none. */
  lemma {:induction false} CountsThenStops(cfg: Config, s: State) returns (s': State)
    requires cfg.Ok() && s.sender.CompareBase? && s.ack == ReadBackNext(0, 1) && s.timer.Empty?
    requires s.c.base == 1 && s.c.next == 0
    ensures Times(cfg, s, SenderMoves(0), 3) == Next(s')
    ensures var r := Times(cfg, s', AckMoves(0), 2); r.Next? && r.s.timer.Fault?
  {
    WireToEnd(cfg, s, 0);
    s' := Times(cfg, s, SenderMoves(0), 3).s;
    assert s'.c.next == Mod(1, cfg.m) == 1;
    var s1 := AckStep(cfg, s', 0).s;
    assert Times(cfg, s', AckMoves(0), 2) == AckStep(cfg, s1, 0);
  }
}
