/** The one-shot cancellable timer (`src/Timer.h`) and the sender's collection of timers.

    A timer owns a thread that waits for the delay to pass or for `stopped` to be set. When
    it wakes it either exits without a call (stopped) or sets `stopped`, calls the callback
    and then finishes. The passing of time is a wake-up that may happen at any moment. */
module Timers {
  import opened Options

  datatype ThreadPc = Waiting | Calling | Exited

  /** `calls` counts how often the callback has been started. */
  datatype Timer = Timer(ms: int, stopped: bool, finished: bool, pc: ThreadPc, calls: nat) {
    predicate Ok() {
      match pc
      case Waiting => !finished && calls == 0
      case Calling => !finished && stopped && calls == 1
      case Exited => finished && stopped && calls <= 1
    }
  }

  function NewTimer(ms: int): Timer {
    Timer(ms, false, false, Waiting, 0)
  }

  /** `stop()` with no other thread in between. */
  function Stopped(t: Timer): Timer {
    if t.stopped || t.finished then t else t.(stopped := true)
  }

  /** The waiting thread wakes up. */
  function Wake(t: Timer): Timer
    requires t.pc == Waiting
  {
    if t.stopped then t.(finished := true, pc := Exited)
    else t.(stopped := true, pc := Calling, calls := t.calls + 1)
  }

  /** The callback returns. */
  function Return(t: Timer): Timer
    requires t.pc == Calling
  {
    t.(finished := true, pc := Exited)
  }

  // One timer, its thread and a caller of stop(), interleaved at every lock

  /** Where the caller of `stop()` is: outside, or past `is_stopped()`, or past `is_finished()`. */
  datatype StopPc = Outside | PastStopped | PastFinished

  datatype Shared = Shared(t: Timer, stopper: StopPc)

  datatype Move = StopMove | WakeMove | ReturnMove

  function StopStep(s: Shared): Shared {
    match s.stopper
    case Outside => if s.t.stopped then s else s.(stopper := PastStopped)
    case PastStopped => if s.t.finished then s.(stopper := Outside) else s.(stopper := PastFinished)
    case PastFinished => Shared(s.t.(stopped := true), Outside)
  }

  /** A move that is not possible in a state leaves it as it is. */
  function Advance(s: Shared, m: Move): Shared {
    match m
    case StopMove => StopStep(s)
    case WakeMove => if s.t.pc == Waiting then s.(t := Wake(s.t)) else s
    case ReturnMove => if s.t.pc == Calling then s.(t := Return(s.t)) else s
  }

  function RunMoves(s: Shared, ms: seq<Move>): Shared {
    if ms == [] then s else Advance(RunMoves(s, ms[..|ms| - 1]), ms[|ms| - 1])
  }

  /** The thread woke up while nobody had set the flag, after the moves `ms[..i]`. */
  predicate Expires(s: Shared, ms: seq<Move>, i: nat)
    requires i < |ms|
  {
    var before := RunMoves(s, ms[..i]).t;
    ms[i] == WakeMove && before.pc == Waiting && !before.stopped
  }

  /** However a stop and the expiry interleave, the callback is started at most once; it is
      started exactly when the thread woke up before a stop had set the flag; and a thread
      that has exited has either made its one call or was cancelled. */
  lemma {:induction false} FireOrCancel(ms: int, moves: seq<Move>)
    ensures var t := RunMoves(Shared(NewTimer(ms), Outside), moves).t;
            && t.Ok()
            && (t.calls == 1 <==> exists i: nat :: i < |moves| && Expires(Shared(NewTimer(ms), Outside), moves, i))
  {
    var s := Shared(NewTimer(ms), Outside);
    if moves != [] {
      var n := |moves| - 1;
      var prefix := moves[..n];
      FireOrCancel(ms, prefix);
      assert forall i: nat :: i < n ==> moves[..i] == prefix[..i];
      assert forall i: nat :: i < n ==> (Expires(s, moves, i) <==> Expires(s, prefix, i));
      if Expires(s, moves, n) {
        assert RunMoves(s, moves).t.calls == 1;
      }
    }
  }

  /** After the flag is set the number of calls never changes again. */
  lemma {:induction false} Settled(s: Shared, moves: seq<Move>)
    requires s.t.Ok() && s.t.stopped
    ensures var t := RunMoves(s, moves).t; t.Ok() && t.stopped && t.calls == s.t.calls
  {
    if moves != [] {
      Settled(s, moves[..|moves| - 1]);
    }
  }

  /** `stop()` run without interruption is the atomic `Stopped`. */
  lemma {:induction false} UninterruptedStop(t: Timer)
    requires t.Ok()
    ensures StopStep(StopStep(StopStep(Shared(t, Outside)))) == Shared(Stopped(t), Outside)
  {
  }

  // The sender's timers: the current one and the queue of replaced ones

  datatype TimerBox = TimerBox(cur: Option<Timer>, older: seq<Option<Timer>>)

  function StopOption(t: Option<Timer>): Option<Timer> {
    if t.Some? then Some(Stopped(t.value)) else None
  }

  /** Stop the current timer, queue it (even the empty first one), arm a new one. */
  function StartTimeout(tb: TimerBox, ms: int): TimerBox {
    TimerBox(Some(NewTimer(ms)), tb.older + [StopOption(tb.cur)])
  }

  /** Drop empty and finished timers from the front, up to the first that still runs. */
  function Clean(older: seq<Option<Timer>>): seq<Option<Timer>> {
    if older != [] && (older[0].None? || older[0].value.finished) then Clean(older[1..]) else older
  }

  /** Names a timer: the current one or a queued one. */
  datatype Which = Current | Older(i: nat)

  predicate Exists(tb: TimerBox, w: Which) {
    match w
    case Current => tb.cur.Some?
    case Older(i) => i < |tb.older| && tb.older[i].Some?
  }

  function At(tb: TimerBox, w: Which): Timer
    requires Exists(tb, w)
  {
    match w
    case Current => tb.cur.value
    case Older(i) => tb.older[i].value
  }

  function Put(tb: TimerBox, w: Which, t: Timer): TimerBox
    requires Exists(tb, w)
  {
    match w
    case Current => tb.(cur := Some(t))
    case Older(i) => tb.(older := tb.older[i := Some(t)])
  }

  /** A timer that has fired and whose handler has not returned. */
  predicate Pending(tb: TimerBox, w: Which) {
    Exists(tb, w) && At(tb, w).pc == Calling
  }

  predicate Armed(tb: TimerBox, w: Which) {
    Exists(tb, w) && !At(tb, w).stopped
  }

  ghost predicate BoxOk(tb: TimerBox) {
    && (forall w :: Exists(tb, w) ==> At(tb, w).Ok())
    && (forall w :: Armed(tb, w) ==> w == Current)
  }

  /** A retransmission is on its way: the current timer is armed or a handler is pending. */
  ghost predicate Covered(tb: TimerBox) {
    Armed(tb, Current) || exists w :: Pending(tb, w)
  }

  lemma {:induction false} CleanIsSuffix(older: seq<Option<Timer>>) returns (k: nat)
    ensures k <= |older| && Clean(older) == older[k..]
    ensures forall i :: 0 <= i < k ==> older[i].None? || older[i].value.finished
    ensures k < |older| ==> older[k].Some? && !older[k].value.finished
  {
    if older != [] && (older[0].None? || older[0].value.finished) {
      var k' := CleanIsSuffix(older[1..]);
      k := k' + 1;
    } else {
      k := 0;
    }
  }

  /** Cleaning the queue loses no timer that is armed or whose handler still runs. */
  lemma {:induction false} CleanKeepsCover(tb: TimerBox)
    requires BoxOk(tb)
    ensures var tb' := tb.(older := Clean(tb.older)); BoxOk(tb') && (Covered(tb) ==> Covered(tb'))
  {
    var tb' := tb.(older := Clean(tb.older));
    var k := CleanIsSuffix(tb.older);
    forall w | Exists(tb', w) ensures At(tb', w).Ok() && (Armed(tb', w) ==> w == Current) {
      if w.Older? {
        assert At(tb', w) == At(tb, Older(w.i + k));
        assert Armed(tb', w) ==> Armed(tb, Older(w.i + k));
      } else {
        assert At(tb', w) == At(tb, w);
      }
    }
    if w :| Pending(tb, w) {
      assert Exists(tb, w);
      if w.Older? {
        assert w.i >= k;
        assert Pending(tb', Older(w.i - k));
      } else {
        assert Pending(tb', Current);
      }
    }
  }

  lemma {:induction false} StartKeepsOk(tb: TimerBox, ms: int)
    requires BoxOk(tb)
    ensures var tb' := StartTimeout(tb, ms); BoxOk(tb') && Armed(tb', Current)
  {
    var tb' := StartTimeout(tb, ms);
    forall w | Exists(tb', w) ensures At(tb', w).Ok() && (Armed(tb', w) ==> w == Current) {
      if w.Older? {
        if w.i < |tb.older| {
          assert At(tb', w) == At(tb, w);
          assert Armed(tb', w) ==> Armed(tb, w);
        } else {
          assert At(tb, Current).Ok();
        }
      }
    }
  }

  /** A step of one timer's own thread or a stop keeps the collection in order. */
  lemma {:induction false} PutKeepsOk(tb: TimerBox, w: Which, t: Timer)
    requires BoxOk(tb) && Exists(tb, w) && t.Ok() && (!t.stopped ==> !At(tb, w).stopped)
    ensures BoxOk(Put(tb, w, t)) && At(Put(tb, w, t), w) == t && Exists(Put(tb, w, t), w)
    ensures forall v :: v != w ==> (Exists(Put(tb, w, t), v) <==> Exists(tb, v))
    ensures forall v :: v != w && Exists(tb, v) ==> At(Put(tb, w, t), v) == At(tb, v)
  {
    var tb' := Put(tb, w, t);
    forall v | Exists(tb', v) ensures At(tb', v).Ok() && (Armed(tb', v) ==> v == Current) {
      if v != w {
        assert Exists(tb, v) && At(tb', v) == At(tb, v);
        assert Armed(tb', v) ==> Armed(tb, v);
      } else {
        assert Armed(tb', v) ==> Armed(tb, v);
      }
    }
  }

  /** Waking a timer never loses the cover: an armed timer that fires is pending. */
  lemma {:induction false} WakeKeepsCover(tb: TimerBox, w: Which)
    requires BoxOk(tb) && Exists(tb, w) && At(tb, w).pc == Waiting
    ensures var tb' := Put(tb, w, Wake(At(tb, w))); BoxOk(tb') && (Covered(tb) ==> Covered(tb'))
  {
    var t := Wake(At(tb, w));
    var tb' := Put(tb, w, t);
    PutKeepsOk(tb, w, t);
    if Armed(tb, Current) {
      if w == Current {
        assert Pending(tb', Current);
      } else {
        assert Armed(tb', Current);
      }
    } else if v :| Pending(tb, v) {
      assert v != w && Exists(tb, v);
      assert Pending(tb', v);
    }
  }

  // What the handlers do to the timers

  /** No timer has a delay running. */
  ghost predicate NoneArmed(tb: TimerBox) {
    forall w :: !Armed(tb, w)
  }

  /** A new timer waits `ms`; the one before it is queued behind the others, its flag set. */
  ghost predicate Restarted(tb: TimerBox, tb': TimerBox, ms: int) {
    && tb'.cur == Some(Timer(ms, false, false, Waiting, 0))
    && |tb'.older| == |tb.older| + 1 && tb'.older[..|tb.older|] == tb.older
    && tb'.older[|tb.older|] == (if tb.cur.Some? then Some(tb.cur.value.(stopped := true)) else None)
  }

  /** The current timer's flag is set, and nothing else has changed. */
  ghost predicate Halted(tb: TimerBox, tb': TimerBox) {
    tb' == tb.(cur := if tb.cur.Some? then Some(tb.cur.value.(stopped := true)) else None)
  }

  /** Of the queue the first `d` timers, empty or finished ones, are gone, and the one after them
      is neither. */
  ghost predicate Dropped(older: seq<Option<Timer>>, older': seq<Option<Timer>>, d: nat) {
    && d <= |older| && older' == older[d..]
    && (forall i :: 0 <= i < d ==> older[i].None? || older[i].value.finished)
    && (older' != [] ==> older'[0].Some? && !older'[0].value.finished)
  }

  lemma {:induction false} StartRestarts(tb: TimerBox, ms: int)
    requires BoxOk(tb)
    ensures Restarted(tb, StartTimeout(tb, ms), ms)
  {
    if tb.cur.Some? {
      assert Exists(tb, Current) && At(tb, Current).Ok();
    }
  }

  lemma {:induction false} StopHalts(tb: TimerBox)
    requires BoxOk(tb)
    ensures var tb' := tb.(cur := StopOption(tb.cur)); Halted(tb, tb') && NoneArmed(tb')
  {
    var tb' := tb.(cur := StopOption(tb.cur));
    if tb.cur.Some? {
      assert Exists(tb, Current) && At(tb, Current).Ok();
    }
    forall w ensures !Armed(tb', w) {
      if w.Older? && Exists(tb', w) {
        assert At(tb, w) == At(tb', w);
        assert Armed(tb, w) ==> w == Current;
      }
    }
  }

  lemma {:induction false} CleanDrops(tb: TimerBox) returns (d: nat)
    requires BoxOk(tb)
    ensures Dropped(tb.older, Clean(tb.older), d)
    ensures var tb' := tb.(older := Clean(tb.older)); BoxOk(tb') && (NoneArmed(tb) ==> NoneArmed(tb'))
  {
    d := CleanIsSuffix(tb.older);
    CleanKeepsCover(tb);
    var tb' := tb.(older := Clean(tb.older));
    if NoneArmed(tb) {
      forall w ensures !Armed(tb', w) {
        if w.Older? && Exists(tb', w) {
          assert At(tb', w) == At(tb, Older(w.i + d));
          assert !Armed(tb, Older(w.i + d));
        } else if Exists(tb', w) {
          assert At(tb', w) == At(tb, w) && !Armed(tb, w);
        }
      }
    }
  }

  /** Putting a stopped timer in place of a timer arms none. */
  lemma {:induction false} PutArmsNone(tb: TimerBox, w: Which, t: Timer)
    requires NoneArmed(tb) && Exists(tb, w) && t.stopped
    ensures NoneArmed(Put(tb, w, t))
  {
    var tb' := Put(tb, w, t);
    forall v ensures !Armed(tb', v) {
      if v != w && Exists(tb', v) {
        assert Exists(tb, v) && At(tb', v) == At(tb, v) && !Armed(tb, v);
      }
    }
  }

  // The timer object

  class TimerObject {
    var ms: int
    var started: bool
    var stopped: bool
    var finished: bool
    ghost var pc: ThreadPc
    ghost var calls: nat

    ghost function View(): Timer
      reads this
    {
      Timer(ms, stopped, finished, pc, calls)
    }

    ghost predicate Valid()
      reads this
    {
      started && View().Ok()
    }

    constructor (ms: int)
      ensures Valid() && View() == NewTimer(ms)
    {
      this.ms, stopped, finished, pc, calls := ms, false, false, Waiting, 0;
      started := true;
    }

    method Stop()
      requires Valid()
      modifies `stopped
      ensures Valid() && View() == Stopped(old(View()))
    {
      if !started || stopped || finished {
        return;
      }
      stopped := true;
    }

    /** The thread body up to the callback; `fire` tells whether the callback must run. */
    method ThreadWakes() returns (fire: bool)
      requires Valid() && pc == Waiting
      modifies `stopped, `finished, `pc, `calls
      ensures Valid() && View() == Wake(old(View()))
      ensures fire <==> !old(stopped)
    {
      if stopped {
        finished := true;
        pc := Exited;
        return false;
      }
      stopped := true;
      pc, calls := Calling, calls + 1;
      fire := true;
    }

    method CallbackReturns()
      requires Valid() && pc == Calling
      modifies `finished, `pc
      ensures Valid() && View() == Return(old(View()))
    {
      finished := true;
      pc := Exited;
    }
  }
}
