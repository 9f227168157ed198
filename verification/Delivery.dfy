/** The whole path of a file: read and cut into chunks and payloads, sent by the window
    protocol, put on the wire as packet texts, and recovered from the wire. */
module Delivery {
  import opened Options
  import opened Packets
  import opened Widths
  import opened Modular
  import opened Sequences
  import opened Feeding
  import opened Window
  import opened Refinement
  import T = Transfer
  import I = Interleaving
  import P = GoBackN

  /** The payload part of a packet text with `d` digits. */
  function PayloadOf(d: nat, text: string): string {
    if d + DIGEST_LENGTH <= |text| then text[d + DIGEST_LENGTH..] else []
  }

  /** A receiver that looks at nothing but the wire and takes a text exactly when its digest is
      right and its number is the next one expected, modulo `m`. */
  function Received(hash: string -> Digest, d: nat, m: pos, wire: seq<string>): seq<string> {
    if wire == [] then []
    else
      var n := |wire| - 1;
      var before := Received(hash, d, m, wire[..n]);
      if Takes(hash, d, wire[n], Mod(|before|, m)) then before + [PayloadOf(d, wire[n])] else before
  }

  predicate Takes(hash: string -> Digest, d: nat, text: string, expected: nat) {
    CheckPacketIntegrity(hash, text, d, false) == Some(true) && ExtractSeqNum(text, d) == expected
  }

  /** All numbers of `digits` digits fit an `int`. */
  ghost predicate FitsInt(digits: nat) {
    1 <= digits && Pow10(digits) <= INT_MAX + 1
  }

  /** The text the configuration gives packet `k` names its slot, passes the integrity check and
      carries its payload, whatever the payload. */
  lemma {:induction false} TextReadBack(hash: string -> Digest, digits: nat, window: nat, k: nat, data: string)
    requires FitsInt(digits)
    ensures var cfg := ConfigOf(digits, window, hash); var text := cfg.text(Mod(k, cfg.m), data);
            && ExtractSeqNum(text, digits) == Mod(k, cfg.m)
            && CheckPacketIntegrity(hash, text, digits, false) == Some(true)
            && PayloadOf(digits, text) == data
  {
    RoundTrip(hash, digits, Mod(k, Pow10(digits)), data);
  }

  lemma {:induction false} SeenFirst(log: seq<nat>, k: nat)
    ensures k in log <==> k in P.FirstSeen(log)
  {
    if log != [] {
      var n := |log| - 1;
      SeenFirst(log[..n], k);
      assert log == log[..n] + [log[n]];
    }
  }

  /** One text more on the wire: the receiver takes it exactly when it is a first one. */
  lemma {:induction false} OneMoreText(hash: string -> Digest, digits: nat, window: nat,
                                       log: seq<nat>, k: nat)
    requires FitsInt(digits) && ConfigOf(digits, window, hash).Ok()
    requires P.FirstSeen(log) == P.Range(0, |P.FirstSeen(log)|)
    requires k <= |P.FirstSeen(log)| <= k + window
    ensures var m := Pow10(digits); Mod(k, m) == Mod(|P.FirstSeen(log)|, m) <==> k !in log
    ensures k !in log ==> k == |P.FirstSeen(log)|
  {
    var c, m := |P.FirstSeen(log)|, Pow10(digits);
    SeenFirst(log, k);
    assert k < c ==> P.Range(0, c)[k] == k;
    if k < c {
      OtherSlot(ConfigOf(digits, window, hash), k, c);
    }
  }

  lemma {:induction false} RangePrefix(c: nat)
    requires c > 0
    ensures P.Range(0, c)[..c - 1] == P.Range(0, c - 1)
  {
  }

  /** From a wire on which every text is the next one or at most a window behind, the receiver
      recovers all payloads in order, since the window is smaller than the number of numbers. */
  lemma {:induction false} ReceiverRecovers(hash: string -> Digest, digits: nat, window: nat,
                                            sent: seq<string>, log: seq<nat>)
    requires FitsInt(digits) && ConfigOf(digits, window, hash).Ok()
    requires (forall i :: 0 <= i < |log| ==> log[i] < |sent|) && P.Near(log, window)
    requires P.FirstSeen(log) == P.Range(0, |P.FirstSeen(log)|)
    ensures |P.FirstSeen(log)| <= |sent|
    ensures Received(hash, digits, Pow10(digits), WireOf(ConfigOf(digits, window, hash), sent, log))
            == sent[..|P.FirstSeen(log)|]
  {
    if log != [] {
      var n := |log| - 1;
      var k, before := log[n], log[..n];
      FirstSeenGrows(log);
      ReceiverRecovers(hash, digits, window, sent, before);
      ReceiverStep(hash, digits, window, sent, before, k);
      var cfg := ConfigOf(digits, window, hash);
      ReceivedMore(hash, digits, cfg.m, WireOf(cfg, sent, before), cfg.text(Mod(k, cfg.m), sent[k]));
    }
  }

  lemma {:induction false} FirstSeenGrows(log: seq<nat>)
    requires log != [] && P.FirstSeen(log) == P.Range(0, |P.FirstSeen(log)|)
    ensures var before := log[..|log| - 1];
            && P.FirstSeen(before) == P.Range(0, |P.FirstSeen(before)|)
            && |P.FirstSeen(log)| == |P.FirstSeen(before)| + if log[|log| - 1] in before then 0 else 1
  {
    var before := log[..|log| - 1];
    if log[|log| - 1] !in before {
      RangePrefix(|P.FirstSeen(log)|);
      assert P.FirstSeen(log)[..|P.FirstSeen(before)|] == P.FirstSeen(before);
    }
  }

  lemma {:induction false} ReceivedMore(hash: string -> Digest, d: nat, m: pos, wire: seq<string>, text: string)
    ensures var before := Received(hash, d, m, wire);
            Received(hash, d, m, wire + [text])
            == if Takes(hash, d, text, Mod(|before|, m)) then before + [PayloadOf(d, text)] else before
  {
    assert (wire + [text])[..|wire|] == wire;
  }

  lemma {:induction false} ReceiverStep(hash: string -> Digest, digits: nat, window: nat,
                                        sent: seq<string>, before: seq<nat>, k: nat)
    requires FitsInt(digits) && ConfigOf(digits, window, hash).Ok() && k < |sent|
    requires P.FirstSeen(before) == P.Range(0, |P.FirstSeen(before)|)
    requires k <= |P.FirstSeen(before)| <= k + window && |P.FirstSeen(before)| <= |sent|
    ensures var c := |P.FirstSeen(before)|; var cfg := ConfigOf(digits, window, hash);
            var text := cfg.text(Mod(k, cfg.m), sent[k]);
            && (Takes(hash, digits, text, Mod(c, cfg.m)) <==> k !in before)
            && (k !in before ==> k == c && sent[..c] + [PayloadOf(digits, text)] == sent[..c + 1])
  {
    OneMoreText(hash, digits, window, before, k);
    TextTaken(hash, digits, window, k, sent[k], |P.FirstSeen(before)|);
  }

  lemma {:induction false} TextTaken(hash: string -> Digest, digits: nat, window: nat, k: nat, data: string, c: nat)
    requires FitsInt(digits)
    ensures var cfg := ConfigOf(digits, window, hash); var text := cfg.text(Mod(k, cfg.m), data);
            && (Takes(hash, digits, text, Mod(c, cfg.m)) <==> Mod(k, cfg.m) == Mod(c, cfg.m))
            && PayloadOf(digits, text) == data
  {
    TextReadBack(hash, digits, window, k, data);
  }

  /** The wire after the protocol's log. */
  lemma {:induction false} WireDelivers(hash: string -> Digest, digits: nat, window: nat, a: P.Protocol)
    requires FitsInt(digits) && ConfigOf(digits, window, hash).Ok()
    requires (forall i :: 0 <= i < |a.log| ==> a.log[i] < |a.sent|) && P.Near(a.log, window)
    requires P.FirstSeen(a.log) == P.Range(0, |a.sent|)
    ensures Received(hash, digits, Pow10(digits), WireOf(ConfigOf(digits, window, hash), a.sent, a.log)) == a.sent
  {
    ReceiverRecovers(hash, digits, window, a.sent, a.log);
  }

  /** What a receiver of the wire has of the file when all of it that is read was sent. */
  ghost predicate Delivered(file: string, packetSize: nat, payloads: seq<string>) {
    && Flatten(payloads) == ReadPart(file) && Sized(payloads, packetSize)
    && (Flatten(payloads) == file <==> |file| <= INT_MAX)
  }

  lemma {:induction false} PayloadsDeliver(file: string, chunkSize: pos, packetSize: pos)
    requires !Runaway(|file|, chunkSize)
    ensures Delivered(file, packetSize, Flatten(Payloads(ReadPart(file), chunkSize, packetSize)))
  {
    FileConserved(ReadPart(file), chunkSize, packetSize);
    PlanCoversFile(file, chunkSize);
  }

  /** The configuration of a client with `digits` digits per number. */
  ghost predicate Configured(cfg: Config, hash: string -> Digest, digits: nat, window: nat) {
    FitsInt(digits) && cfg == ConfigOf(digits, window, hash) && cfg.Ok()
  }

  /** When the send loop has ended, whatever acknowledgements were lost and whatever timed out,
      a receiver that sees only the wire recovers what was read of the file, in payloads of 1 to
      `packetSize` characters, and everything is acknowledged. That is the file exactly when its
      length fits an `int`. */
  lemma {:induction false} FileDelivered(hash: string -> Digest, digits: nat, window: nat, cfg: Config, file: string,
                                         chunkSize: pos, packetSize: pos, chunks: seq<seq<string>>, es: seq<Event>)
    requires Configured(cfg, hash, digits, window) && !Runaway(|file|, chunkSize)
    requires chunks == Payloads(ReadPart(file), chunkSize, packetSize) && T.AllowedRun(cfg, chunks, es)
    requires Run(cfg, chunks, es).To? && Run(cfg, chunks, es).y.s.finished
    ensures var r := T.PlanRun(cfg, chunks, es); r.Some? && r.value.a.base == |r.value.a.sent|
    ensures Delivered(file, packetSize, Received(hash, digits, cfg.m, Run(cfg, chunks, es).y.s.core.wire))
  {
    T.FinishedMeansDelivered(cfg, chunks, es);
    WireDelivers(hash, digits, window, T.PlanRun(cfg, chunks, es).value.a);
    PayloadsDeliver(file, chunkSize, packetSize);
  }

  /** The same for every interleaving of the three threads. */
  lemma {:induction false} FileDeliveredInterleaved(hash: string -> Digest, digits: nat, window: nat, cfg: Config,
                                                    file: string, chunkSize: pos, packetSize: pos,
                                                    chunks: seq<seq<string>>, ms: seq<I.Move>, s: I.State)
    requires Configured(cfg, hash, digits, window) && !Runaway(|file|, chunkSize)
    requires chunks == Payloads(ReadPart(file), chunkSize, packetSize)
    requires I.Reached(cfg, chunks, ms, s) && s.job.finished
    ensures s.a.base == |s.a.sent|
    ensures Delivered(file, packetSize, Received(hash, digits, cfg.m, s.c.wire))
  {
    I.FinishedDelivered(cfg, chunks, ms);
    WireDelivers(hash, digits, window, s.a);
    PayloadsDeliver(file, chunkSize, packetSize);
  }

  /** At any moment a receiver of the wire has a prefix of what is read: of the file, or, when
      reading has no planned end, of the file and then zeros (`FedIsPrefix`). */
  lemma {:induction false} PrefixDelivered(hash: string -> Digest, digits: nat, window: nat, cfg: Config,
                                           file: string, chunkSize: pos, packetSize: pos, n: nat,
                                           chunks: seq<seq<string>>, es: seq<Event>, y: System)
    requires Configured(cfg, hash, digits, window)
    requires Runaway(|file|, chunkSize) ==> n <= Countable(|file|, chunkSize)
    requires chunks == Payloads(Fed(file, chunkSize, n), chunkSize, packetSize) && T.AllowedRun(cfg, chunks, es)
    requires Run(cfg, chunks, es) == To(y)
    ensures T.PlanRun(cfg, chunks, es).Some?
    ensures Received(hash, digits, cfg.m, y.s.core.wire) == T.PlanRun(cfg, chunks, es).value.a.sent
    ensures Flatten(Received(hash, digits, cfg.m, y.s.core.wire)) <= Fed(file, chunkSize, n)
  {
    T.RunRefines(cfg, chunks, es);
    var z := T.PlanRun(cfg, chunks, es).value;
    WireDelivers(hash, digits, window, z.a);
    var rest := SentIsPrefix(chunks, z.done, z.pos);
    FlattenAppend(z.a.sent, rest);
    FileConserved(Fed(file, chunkSize, n), chunkSize, packetSize);
  }

  /** The same for every interleaving of the three threads. */
  lemma {:induction false} PrefixDeliveredInterleaved(hash: string -> Digest, digits: nat, window: nat, cfg: Config,
                                                      file: string, chunkSize: pos, packetSize: pos, n: nat,
                                                      chunks: seq<seq<string>>, ms: seq<I.Move>, s: I.State)
    requires Configured(cfg, hash, digits, window)
    requires Runaway(|file|, chunkSize) ==> n <= Countable(|file|, chunkSize)
    requires chunks == Payloads(Fed(file, chunkSize, n), chunkSize, packetSize) && I.Reached(cfg, chunks, ms, s)
    ensures Received(hash, digits, cfg.m, s.c.wire) == s.a.sent
    ensures Flatten(Received(hash, digits, cfg.m, s.c.wire)) <= Fed(file, chunkSize, n)
  {
    I.RunKeeps(cfg, chunks, ms);
    WireDelivers(hash, digits, window, s.a);
    var begun := if s.job.done == |chunks| then 0 else |s.a.sent| - s.a.chunk;
    SentSoFar(cfg, s);
    var rest := SentIsPrefix(chunks, s.job.done, begun);
    FlattenAppend(s.a.sent, rest);
    FileConserved(Fed(file, chunkSize, n), chunkSize, packetSize);
  }

  lemma {:induction false} SentSoFar(cfg: Config, s: I.State)
    requires I.Invariant(cfg, s)
    ensures var job := s.job; var begun := if job.done == |job.chunks| then 0 else |s.a.sent| - s.a.chunk;
            && job.done <= |job.chunks| && 0 <= begun && (job.done < |job.chunks| ==> begun <= |job.chunks[job.done]|)
            && s.a.sent == Flatten(job.chunks[..job.done])
                           + (if job.done < |job.chunks| then job.chunks[job.done][..begun] else [])
  {
    assert s.job.done == |s.job.chunks| ==> s.job.chunks[..s.job.done] == s.job.chunks;
  }

  /** What is read, in `n` chunks if there is no planned end, is a prefix of the file exactly when
      there is one or the chunks are not longer. `InsideExact` says for which files that is so as
      far as chunks can be counted. */
  lemma {:induction false} FedIsPrefix(file: string, chunkSize: pos, n: nat)
    requires Runaway(|file|, chunkSize) ==> n <= Countable(|file|, chunkSize)
    ensures Fed(file, chunkSize, n) <= file <==> !Runaway(|file|, chunkSize) || n * chunkSize <= |file|
  {
  }

  lemma {:induction false} SentIsPrefix(chunks: seq<seq<string>>, done: nat, pos: nat) returns (rest: seq<string>)
    requires done <= |chunks| && (done < |chunks| ==> pos <= |chunks[done]|)
    ensures Flatten(chunks[..done]) + (if done < |chunks| then chunks[done][..pos] else []) + rest == Flatten(chunks)
  {
    if done == |chunks| {
      rest := [];
      assert chunks[..done] == chunks;
    } else {
      assert chunks == chunks[..done] + ([chunks[done]] + chunks[done + 1..]);
      FlattenAppend(chunks[..done], [chunks[done]] + chunks[done + 1..]);
      FlattenCons(chunks[done], chunks[done + 1..]);
      assert chunks[done] == chunks[done][..pos] + chunks[done][pos..];
      rest := chunks[done][pos..] + Flatten(chunks[done + 1..]);
    }
  }
}
