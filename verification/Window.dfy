/** The sender's window code (`src/ClientSender.cpp`) as functions on its fields.

    The small steps are the stretches of code between two lock acquisitions; the handlers
    at the end are those steps run in program order without interruption. */
module Window {
  import opened Options
  import opened Packets
  import opened Timers
  import opened Modular
  import Rtt

  /** `m` is `max_seq_num_b10 + 1`, the number of sequence numbers and of slots; `text` is
      what a packet looks like on the wire. */
  datatype Config = Config(m: pos, window: nat, text: (nat, string) -> string) {
    /** What the source expects of its parameters without checking it. */
    ghost predicate Ok() {
      0 < window < m
    }
  }

  /** The configuration for `digits` digits per sequence number. */
  function ConfigOf(digits: nat, window: nat, hash: string -> Digest): (cfg: Config)
    ensures cfg.m == Pow10(digits) && cfg.window == window
    ensures forall n: nat, data :: cfg.text(n, data) == Wire(hash, digits, n, data)
  {
    Config(Pow10(digits), window, (n: nat, data: string) => Wire(hash, digits, n, data))
  }

  /** The fields the window logic works on; `wire` is everything handed to the socket. */
  datatype Core = Core(
    base: nat, next: nat, count: int, last: int,
    slots: seq<Option<Pkt>>, rtt: int, wire: seq<string>)

  predicate Occupied(c: Core, i: int) {
    0 <= i < |c.slots| && c.slots[i].Some?
  }

  // The tests written out over residues

  predicate CanAdvance(base: nat, next: int, window: nat, m: nat)
    requires m > 0
  {
    || (base <= next && next < base + window)
    || (base > next && next < Mod(base + window, m))
  }

  /** The condition of the retransmission loop. */
  predicate InResend(next: nat, base: nat, window: nat, m: nat, i: nat) {
    || (next >= base && i < next)
    || (next < base && m - (base - next) <= window && (i >= base || i < next))
  }

  function CountDelta(seqnum: int, last: int, m: int): int {
    if seqnum < last then (m - 1 - last) + seqnum + 1 else seqnum - last
  }

  // Small steps

  function Store(cfg: Config, c: Core, n: nat, data: string): Core
    requires n < |c.slots|
  {
    c.(slots := c.slots[n := Some(Pkt(n, data, 0, false, false))])
  }

  /** Note the time, then hand the packet to the socket. */
  function Transmit(cfg: Config, c: Core, n: nat, now: int): Core
    requires Occupied(c, n)
  {
    var p := c.slots[n].value.(start := now);
    c.(slots := c.slots[n := Some(p)], wire := c.wire + [cfg.text(p.seqnum, p.data)])
  }

  function IncNext(cfg: Config, c: Core): Core {
    c.(next := Mod(c.next + 1, cfg.m))
  }

  function TakeSample(c: Core, seqnum: nat, now: int): Core
    requires Occupied(c, seqnum)
  {
    c.(rtt := Rtt.Next(c.rtt, now - c.slots[seqnum].value.start))
  }

  function Sample(c: Core, seqnum: nat, now: int): Core
    requires Occupied(c, seqnum)
  {
    if c.slots[seqnum].value.retransmitted then c else TakeSample(c, seqnum, now)
  }

  function SetBase(cfg: Config, c: Core, v: nat): Core {
    c.(base := Mod(v, cfg.m))
  }

  function CountUp(cfg: Config, c: Core, seqnum: nat): Core {
    c.(count := c.count + CountDelta(seqnum, c.last, cfg.m), last := seqnum)
  }

  function MarkAcked(c: Core, seqnum: nat): Core
    requires Occupied(c, seqnum)
  {
    c.(slots := c.slots[seqnum := Some(c.slots[seqnum].value.(acked := true))])
  }

  function CountAck(cfg: Config, c: Core, seqnum: nat): Core
    requires Occupied(c, seqnum)
  {
    MarkAcked(CountUp(cfg, c, seqnum), seqnum)
  }

  function Mark(c: Core, i: nat): Core
    requires Occupied(c, i)
  {
    c.(slots := c.slots[i := Some(c.slots[i].value.(retransmitted := true))])
  }

  function Repeat(cfg: Config, c: Core, i: nat): Core
    requires Occupied(c, i)
  {
    var p := c.slots[i].value;
    c.(wire := c.wire + [cfg.text(p.seqnum, p.data)])
  }

  /** The body of the retransmission loop. */
  function ResendOne(cfg: Config, c: Core, i: nat): Core
    requires Occupied(c, i)
  {
    Repeat(cfg, Mark(c, i), i)
  }

  // The retransmission loop

  /** How far the loop index `i` still is from `next`, going round. */
  function Distance(next: nat, m: nat, i: nat): int {
    if i <= next then next - i else next - i + m
  }

  /** The values the loop index takes. */
  function LoopIndices(next: nat, base: nat, window: nat, m: pos, i: nat): seq<nat>
    requires next < m && i < m
    decreases Distance(next, m, i)
  {
    if InResend(next, base, window, m, i)
    then [i] + LoopIndices(next, base, window, m, if i + 1 == m then 0 else i + 1)
    else []
  }

  predicate AllOccupied(c: Core, ix: seq<nat>) {
    forall x :: 0 <= x < |ix| ==> Occupied(c, ix[x])
  }

  function ResendAll(cfg: Config, c: Core, ix: seq<nat>): (r: Core)
    requires AllOccupied(c, ix)
    decreases |ix|
  {
    if ix == [] then c
    else
      var c' := ResendOne(cfg, c, ix[0]);
      assert forall x :: Occupied(c, x) ==> Occupied(c', x);
      ResendAll(cfg, c', ix[1..])
  }

  // Handlers run without interruption

  /** `closings` counts the empty datagrams of `endConnection`, which are not in `wire`. */
  datatype Sender = Sender(core: Core, box: TimerBox, finished: bool, closings: nat)

  function Initial(cfg: Config): Sender {
    Sender(Core(0, 0, 0, -1, seq(cfg.m, _ => None), Rtt.INITIAL, []), TimerBox(None, []), false, 0)
  }

  /** Store the packet and hand it to the socket. */
  function PutOnWire(cfg: Config, s: Sender, n: nat, data: string, now: int): Sender
    requires n < |s.core.slots|
  {
    s.(core := Transmit(cfg, Store(cfg, s.core, n, data), n, now))
  }

  /** Start a timer for the first outstanding packet, then count the packet as sent. */
  function ArmAndCount(cfg: Config, s: Sender): Sender {
    var box := if s.core.base == s.core.next then StartTimeout(s.box, s.core.rtt) else s.box;
    s.(core := IncNext(cfg, s.core), box := box)
  }

  /** `None` while the window is full: the thread stays in its wait. */
  function SendPacketReliable(cfg: Config, s: Sender, data: string, now: int): Option<Sender>
    requires s.core.next < |s.core.slots|
  {
    if !CanAdvance(s.core.base, s.core.next, cfg.window, cfg.m) then None
    else Some(ArmAndCount(cfg, PutOnWire(cfg, s, s.core.next, data, now)))
  }

  function TimeoutIndices(cfg: Config, c: Core): seq<nat>
    requires c.next < cfg.m && c.base < cfg.m
  {
    LoopIndices(c.next, c.base, cfg.window, cfg.m, c.base)
  }

  /** The slots the timeout loop looks into are all filled. */
  predicate ResendSafe(cfg: Config, c: Core) {
    c.next < cfg.m && c.base < cfg.m && AllOccupied(c, TimeoutIndices(cfg, c))
  }

  /** The body of the timer callback. */
  function TimeoutHandler(cfg: Config, s: Sender): Sender
    requires s.finished || ResendSafe(cfg, s.core)
  {
    if s.finished then s else
    var c := ResendAll(cfg, s.core, TimeoutIndices(cfg, s.core));
    s.(core := c, box := StartTimeout(s.box, c.rtt))
  }

  /** A packet acknowledged for the first time: measure it and move the base. */
  function MoveBase(cfg: Config, s: Sender, seqnum: nat, now: int): Sender
    requires Occupied(s.core, seqnum)
  {
    s.(core := SetBase(cfg, Sample(s.core, seqnum, now), seqnum + 1))
  }

  /** Nothing outstanding: stop the timer; otherwise start a new one. */
  function Rearm(s: Sender): Sender {
    s.(box := if s.core.base == s.core.next then s.box.(cur := StopOption(s.box.cur))
              else StartTimeout(s.box, s.core.rtt))
  }

  function NewlyAcked(cfg: Config, s: Sender, seqnum: nat, now: int): Sender
    requires Occupied(s.core, seqnum)
  {
    var s' := Rearm(MoveBase(cfg, s, seqnum, now));
    s'.(core := CountAck(cfg, s'.core, seqnum))
  }

  function CleanTimers(s: Sender): Sender {
    s.(box := s.box.(older := Clean(s.box.older)))
  }

  /** After the end every acknowledgement is answered with an empty datagram. */
  function AckedPacket(cfg: Config, s: Sender, seqnum: nat, now: int): Sender
    requires s.finished || (Occupied(s.core, seqnum) && s.box.cur.Some?)
  {
    var s' := CleanTimers(s);
    if s.finished then s'.(closings := s.closings + 1)
    else if s.core.slots[seqnum].value.acked then s'
    else NewlyAcked(cfg, s', seqnum, now)
  }

  /** After the last chunk: say so, close the connection, stop the timer. */
  function Finish(s: Sender): Sender {
    s.(finished := true, closings := s.closings + 1, box := s.box.(cur := StopOption(s.box.cur)))
  }

  // The sender thread: send a chunk's packets, wait until all are acknowledged, go on

  /** `done` chunks are complete, `pos` packets of the next one have been sent. */
  datatype System = System(s: Sender, chunks: seq<seq<string>>, done: nat, pos: nat)

  /** The sender thread takes its next step, an acknowledgement of packet `k` arrives, a timer
      thread wakes, or a fired timer's handler gets its turn. */
  datatype Event = Turn(now: int) | AckArrives(k: nat, now: int) | TimerWakes(w: Which) | HandlerRuns(w: Which)

  /** `Blocked`: the event cannot happen now. `Crash`: an empty pointer is dereferenced. */
  datatype Outcome = To(y: System) | Blocked | Crash

  function SenderTurn(cfg: Config, y: System, now: int): Outcome {
    var s := y.s;
    if s.finished || y.done > |y.chunks| then Blocked
    else if y.done == |y.chunks| then
      To(y.(s := Finish(s)))
    else if y.pos < |y.chunks[y.done]| then
      if s.core.next >= |s.core.slots| then Crash else
      match SendPacketReliable(cfg, s, y.chunks[y.done][y.pos], now)
      case None => Blocked
      case Some(s') => To(y.(s := s', pos := y.pos + 1))
    else if s.core.count == |y.chunks[y.done]| then
      To(y.(s := s.(core := s.core.(count := 0), box := s.box.(older := Clean(s.box.older))),
            done := y.done + 1, pos := 0))
    else Blocked
  }

  function Step(cfg: Config, y: System, e: Event): Outcome {
    var s := y.s;
    match e
    case Turn(now) => SenderTurn(cfg, y, now)
    case AckArrives(k, now) =>
      var seqnum := Mod(k, cfg.m);
      if s.finished || (Occupied(s.core, seqnum) && s.box.cur.Some?)
      then To(y.(s := AckedPacket(cfg, s, seqnum, now))) else Crash
    case TimerWakes(w) =>
      if Exists(s.box, w) && At(s.box, w).pc == Waiting
      then To(y.(s := s.(box := Put(s.box, w, Wake(At(s.box, w)))))) else Blocked
    case HandlerRuns(w) =>
      if !Pending(s.box, w) then Blocked
      else if !s.finished && !ResendSafe(cfg, s.core) then Crash
      else To(y.(s := TimeoutHandler(cfg, s.(box := Put(s.box, w, Return(At(s.box, w)))))))
  }

  /** The events `es` one after another from the start. */
  function Run(cfg: Config, chunks: seq<seq<string>>, es: seq<Event>): Outcome {
    if es == [] then To(System(Initial(cfg), chunks, 0, 0))
    else
      var before := Run(cfg, chunks, es[..|es| - 1]);
      if before.To? then Step(cfg, before.y, es[|es| - 1]) else before
  }
}
