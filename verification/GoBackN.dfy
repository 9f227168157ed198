/** Go-Back-N as the protocol describes it: packets are numbered `0, 1, 2, ...` without end,
    `base` is the first one not acknowledged and `|sent|` the next one to send. */
module GoBackN {

  /** A round-trip measurement of packet `k`: the time measured, how often the packet had been
      put on the wire when it was found never to have been resent (`seen`) and when the time was
      taken (`transmissions`), and whether by then a timeout had put it on the wire `again`. */
  datatype Measure = Measure(k: nat, value: int, seen: nat, transmissions: nat, again: bool)

  /** `sent` and `times` are the payloads and times of first transmissions, `log` the packet
      numbers in the order they were put on the wire. `named` are the packets an
      acknowledgement has named, `repeated` those a timeout has marked and `resent` those it has
      then put on the wire again. `counted` follows `base` with the delay the code has between
      the two, and `chunk` is the first packet of the current chunk. */
  datatype Protocol = Protocol(
    sent: seq<string>, times: seq<int>, log: seq<nat>,
    base: nat, counted: nat, chunk: nat,
    named: set<nat>, repeated: set<nat>, resent: set<nat>, measures: seq<Measure>)

  const START := Protocol([], [], [], 0, 0, 0, {}, {}, {}, [])

  function Occurrences(log: seq<nat>, k: nat): nat {
    if log == [] then 0
    else Occurrences(log[..|log| - 1], k) + (if log[|log| - 1] == k then 1 else 0)
  }

  /** The numbers `lo, lo + 1, ..., hi - 1`. */
  function Range(lo: nat, hi: nat): (r: seq<nat>)
    ensures |r| == (if lo <= hi then hi - lo else 0)
    ensures forall i :: 0 <= i < |r| ==> r[i] == lo + i
  {
    if lo >= hi then [] else seq(hi - lo, i requires 0 <= i < hi - lo => lo + i)
  }

  /** The first occurrences in `log`, in order. */
  function FirstSeen(log: seq<nat>): seq<nat> {
    if log == [] then []
    else
      var before := log[..|log| - 1];
      FirstSeen(before) + (if log[|log| - 1] in before then [] else [log[|log| - 1]])
  }

  /** Measured times, oldest first. */
  function Samples(ms: seq<Measure>): (r: seq<int>)
    ensures |r| == |ms| && forall i :: 0 <= i < |ms| ==> r[i] == ms[i].value
  {
    seq(|ms|, i requires 0 <= i < |ms| => ms[i].value)
  }

  /** What the log of `n` packets shows: their first transmissions are in order, and a
      packet was transmitted exactly once unless a timeout has resent it. */
  ghost predicate LogOk(n: nat, log: seq<nat>, resent: set<nat>) {
    && (forall i :: 0 <= i < |log| ==> log[i] < n)
    && FirstSeen(log) == Range(0, n)
    && (forall k: nat :: k < n ==> Occurrences(log, k) >= 1 && (Occurrences(log, k) == 1 <==> k !in resent))
  }

  /** Whatever is put on the wire is the next packet or at most `window` packets behind it. */
  ghost predicate Near(log: seq<nat>, window: nat) {
    log != [] ==>
      var before := log[..|log| - 1];
      Near(before, window) && log[|log| - 1] <= |FirstSeen(before)| <= log[|log| - 1] + window
  }

  /** The last packet counted has been named. */
  ghost predicate LastNamed(a: Protocol) {
    a.counted > 0 ==> a.counted - 1 in a.named
  }

  /** Whatever is measured had been transmitted exactly once when it was found never to have
      been resent, and is still so when the time is taken unless it was resent in between. */
  ghost predicate MeasuresOk(ms: seq<Measure>) {
    forall i :: 0 <= i < |ms| ==> ms[i].seen == 1 && (ms[i].transmissions == 1 <==> !ms[i].again)
  }

  ghost predicate Ok(a: Protocol) {
    && |a.times| == |a.sent|
    && a.chunk <= a.counted <= a.base <= |a.sent|
    && (forall k :: k in a.named ==> k < a.counted)
    && (forall k :: k in a.repeated ==> k < |a.sent|)
    && a.resent <= a.repeated
    && LogOk(|a.sent|, a.log, a.resent)
    && MeasuresOk(a.measures)
  }

  function Send(a: Protocol, data: string, now: int): Protocol {
    a.(sent := a.sent + [data], times := a.times + [now], log := a.log + [|a.sent|])
  }

  function MarkRepeated(a: Protocol, k: nat): Protocol {
    a.(repeated := a.repeated + {k})
  }

  function Again(a: Protocol, k: nat): Protocol {
    a.(log := a.log + [k], resent := a.resent + {k})
  }

  /** Packet `k` had been transmitted `seen` times when it was found never to have been resent. */
  function TakeMeasure(a: Protocol, k: nat, now: int, seen: nat): Protocol
    requires k < |a.times|
  {
    a.(measures := a.measures + [Measure(k, now - a.times[k], seen, Occurrences(a.log, k), k in a.resent)])
  }

  function MeasureAck(a: Protocol, k: nat, now: int): Protocol
    requires k < |a.times|
  {
    if k in a.repeated then a else TakeMeasure(a, k, now, Occurrences(a.log, k))
  }

  function Advance(a: Protocol, k: nat): Protocol {
    a.(base := k + 1)
  }

  function CountUp(a: Protocol, k: nat): Protocol {
    a.(counted := k + 1)
  }

  function Name(a: Protocol, k: nat): Protocol {
    a.(named := a.named + {k})
  }

  function Count(a: Protocol, k: nat): Protocol {
    Name(CountUp(a, k), k)
  }

  /** An acknowledgement of packet `k`: everything up to `k` has arrived. A repetition of the
      last one changes nothing. */
  function Ack(a: Protocol, k: nat, now: int): Protocol
    requires k < |a.times|
  {
    if k in a.named then a else Count(Advance(MeasureAck(a, k, now), k), k)
  }

  /** A timeout resends everything outstanding, in order. */
  function ResendFrom(a: Protocol, k: nat): Protocol
    decreases |a.sent| - k
  {
    if k >= |a.sent| then a else ResendFrom(Again(MarkRepeated(a, k), k), k + 1)
  }

  function Timeout(a: Protocol): Protocol {
    ResendFrom(a, a.base)
  }

  function NewChunk(a: Protocol): Protocol {
    a.(chunk := |a.sent|)
  }

  /** A timeout puts exactly the outstanding packets on the wire, each once and in order, and
      changes nothing else but the record of which packets were repeated. */
  lemma {:induction false} ResendIsRange(a: Protocol, k: nat)
    requires k <= |a.sent|
    ensures ResendFrom(a, k) == a.(log := a.log + Range(k, |a.sent|),
                                   repeated := a.repeated + (set j | j in Range(k, |a.sent|)),
                                   resent := a.resent + (set j | j in Range(k, |a.sent|)))
    decreases |a.sent| - k
  {
    var n := |a.sent|;
    if k < n {
      var b := Again(MarkRepeated(a, k), k);
      ResendIsRange(b, k + 1);
      assert Range(k, n) == [k] + Range(k + 1, n);
      assert a.log + Range(k, n) == b.log + Range(k + 1, n);
    } else {
      assert Range(k, n) == [];
    }
  }

  lemma {:induction false} LogGrows(log: seq<nat>, lo: nat, hi: nat)
    requires lo <= hi
    ensures log + Range(lo, hi) + [hi] == log + Range(lo, hi + 1)
  {
    assert Range(lo, hi + 1) == Range(lo, hi) + [hi];
  }

  lemma {:induction false} NoOccurrence(log: seq<nat>, k: nat)
    requires forall i :: 0 <= i < |log| ==> log[i] != k
    ensures Occurrences(log, k) == 0
  {
    if log != [] {
      NoOccurrence(log[..|log| - 1], k);
    }
  }

  lemma {:induction false} FirstSeenInLog(log: seq<nat>, k: nat)
    ensures k in FirstSeen(log) ==> k in log
  {
    if log != [] {
      FirstSeenInLog(log[..|log| - 1], k);
    }
  }

  lemma {:induction false} SendKeepsOk(a: Protocol, data: string, now: int)
    requires Ok(a)
    ensures Ok(Send(a, data, now))
  {
    var b := Send(a, data, now);
    assert b.log[..|b.log| - 1] == a.log;
    assert Range(0, |b.sent|) == Range(0, |a.sent|) + [|a.sent|];
    NoOccurrence(a.log, |a.sent|);
    assert forall k: nat :: Occurrences(b.log, k) == Occurrences(a.log, k) + if k == |a.sent| then 1 else 0;
  }

  lemma {:induction false} AgainKeepsOk(a: Protocol, k: nat)
    requires Ok(a) && k in a.repeated
    ensures Ok(Again(a, k))
  {
    var b := Again(a, k);
    assert Range(0, |a.sent|)[k] == k;
    FirstSeenInLog(a.log, k);
    assert b.log[..|b.log| - 1] == a.log;
  }

  lemma {:induction false} MeasureKeepsOk(a: Protocol, k: nat, now: int)
    requires Ok(a) && k < |a.sent|
    ensures Ok(TakeMeasure(a, k, now, 1))
    ensures Ok(MeasureAck(a, k, now))
    ensures k !in a.repeated ==> MeasureAck(a, k, now) == TakeMeasure(a, k, now, 1)
  {
  }
}
