/** What a Dual transfer guarantees the two applications, over every run of the composed system. */
module Guarantees {
  import opened Types
  import opened Messages
  import opened Sending
  import opened Reassembly
  import opened Assembly
  import opened Receiving
  import opened StreamTask
  import opened Protocol
  import opened Histories

  // ---------------------------------------------------------------- delivery

  lemma GenuineOuts(p: Packet, outs: seq<Packet>)
    requires Genuine(p, outs)
    ensures p in outs
  {
  }

  /** Whatever is lost, reordered, duplicated, evicted or retransmitted, the reliable sink has handed out
      an initial part of what was sent, in order and without gap or repeat, and the unreliable sink only
      packets that were sent. */
  lemma ReliableSinkDeliversAPrefix(cfg: Config, x: Execution, k: nat)
    requires Legal(cfg, x) && k <= |x.actions|
    ensures var s := x.states[k];
            && s.done <= |s.items| && s.done < TWO32
            && var sent := Outs(cfg, s.items, s.done);
               s.delivered <= sent && forall i :: 0 <= i < |s.shown| ==> s.shown[i] in sent
  {
    RunKeepsInv(cfg, x, k);
    var s := x.states[k];
    SinkOf(cfg, s);
    ShownOf(cfg, s);
    var sent := Outs(cfg, s.items, s.done);
    hide Inv, Legal, Outs, Tidy, Genuine, CoordInv;
    forall i | 0 <= i < |s.shown|
      ensures s.shown[i] in sent
    {
      GenuineOuts(s.shown[i], sent);
    }
  }

  lemma ShownOf(cfg: Config, s: Sys)
    requires Inv(cfg, s)
    ensures Bounded(s.items, s.done) && AllSent(s.shown, Outs(cfg, s.items, s.done))
  {
    hide NetInv, GroupsFit, AllIn, RetransFrom, Outs, Src, EndInv, SinkInv, Ledger, NacksSent, AllSent;
  }

  /** A caller of `end` who got its acknowledgement: the reliable sink had by then handed out every packet
      sent before the call, and they are the ones that were sent. After `end_transfer` with a number of
      the caller's own choice, the same holds of the packets up to that number. */
  lemma AckMeansDelivered(cfg: Config, x: Execution, k: nat)
    requires Legal(cfg, x) && k <= |x.actions|
    ensures var s := x.states[k];
            s.acked ==>
              && s.ended.Some? && s.ended.value <= |s.delivered| && s.ended.value <= s.done <= |s.items| && s.done < TWO32
              && s.delivered[..s.ended.value] == Outs(cfg, s.items, s.done)[..s.ended.value]
  {
    RunKeepsInv(cfg, x, k);
    ReliableSinkDeliversAPrefix(cfg, x, k);
    AckedIsDelivered(cfg, x.states[k]);
    hide Inv, Legal, Outs, EndInv;
  }

  // ---------------------------------------------------------------- credits

  /** What is known of the counters: the ledger, the datagrams sent, and the drained counts. */
  lemma CountersOf(cfg: Config, s: Sys)
    requires Inv(cfg, s)
    ensures s.done <= |s.items| < TWO32 && Total(s.items, s.done) <= s.debited
    ensures s.snd.permits + s.debited + CreditsInFrames(s.toSender) + CreditsInCommands(s.commands) + s.lost
            == cfg.initialCredits + s.coord.lastEmitted + s.solicited
    ensures CoordInv(CoordBulk(cfg), s.coord) && s.coord.hasReliable
    ensures s.coord.reliableDrained == |s.delivered| <= s.done
  {
    OutsNumbered(cfg, s.items, s.done);
    hide NetInv, GroupsFit, AllSent, AllIn, RetransFrom, Outs, Src, EndInv, NacksSent, CoordInv, ItemOk, IsWindow,
        Total, Tidy, CreditsInFrames, CreditsInCommands, Sends;
  }

  /** Credits are conserved: those in the bank, those ever debited and those on their way back are the
      initial ones, those returned for drained chunks and those granted on request. (`lost` are returns
      that a stopped receiver's task no longer sent.) So the datagrams of finished sends exceed what any
      open sink has drained by at most the initial and the granted credits. */
  lemma CreditsAreConserved(cfg: Config, x: Execution, k: nat)
    requires Legal(cfg, x) && k <= |x.actions|
    ensures var s := x.states[k];
            && s.done <= |s.items|
            && s.snd.permits + s.debited + CreditsInFrames(s.toSender) + CreditsInCommands(s.commands) + s.lost
               == cfg.initialCredits + s.coord.lastEmitted + s.solicited
            && (!s.coord.reliableClosed ==> Total(s.items, s.done) <= |s.delivered| + cfg.initialCredits + s.solicited)
            && (!s.coord.unreliableClosed ==>
                  Total(s.items, s.done) <= s.coord.unreliableDrained + cfg.initialCredits + s.solicited)
  {
    RunKeepsInv(cfg, x, k);
    CountersOf(cfg, x.states[k]);
    hide Inv, Legal, Total, CreditsInFrames, CreditsInCommands;
  }

  lemma {:induction false} TotalAtLeast(items: seq<Item>, n: nat, f: nat)
    requires n <= |items| && forall i :: 0 <= i < n ==> f <= PartCount(items[i].chunk)
    ensures f * n <= Total(items, n)
  {
    hide PartCount;
    if n > 0 {
      TotalAtLeast(items, n - 1, f);
      assert f * n == f * (n - 1) + f;
    }
  }

  /** Credits are taken per datagram but returned per chunk: when every chunk needs `f` datagrams or more,
      a transfer stalls after (initial + granted) / (f - 1) chunks, as long as its reliable sink is open,
      and whichever sinks are open if no datagram was delivered or retransmitted twice. */
  lemma UnitMismatchStallsTheSender(cfg: Config, x: Execution, k: nat, f: nat)
    requires Legal(cfg, x) && k <= |x.actions|
    requires forall i :: 0 <= i < |x.states[k].items| ==> f <= PartCount(x.states[k].items[i].chunk)
    requires !x.states[k].coord.reliableClosed || HeardOnce(cfg, x, k)
    ensures var s := x.states[k]; (f - 1) * s.done <= cfg.initialCredits + s.solicited
  {
    CreditsAreConserved(cfg, x, k);
    RunKeepsInv(cfg, x, k);
    var s := x.states[k];
    CountersOf(cfg, s);
    hide Inv, Legal, Total, PartCount, CoordInv, HeardOnce, CreditsInFrames, CreditsInCommands;
    TotalAtLeast(s.items, s.done, f);
    if HeardOnce(cfg, x, k) {
      ReturnedAtMostSent(cfg, x, k);
    }
    assert (f - 1) * s.done == f * s.done - s.done;
  }

  /** Nothing on its way to the bank, nothing lost, and no `send` under way or failed. */
  ghost predicate Resting(s: Sys) {
    && (forall i :: 0 <= i < |s.commands| ==> s.commands[i].Nack?)
    && (forall i :: 0 <= i < |s.toSender| ==> !s.toSender[i].CreditsUpdate?)
    && s.lost == 0 && s.snd.inFlight == None && !s.failed
  }

  lemma {:induction false} NoCreditFrames(frames: seq<ManiMessage>)
    requires forall i :: 0 <= i < |frames| ==> !frames[i].CreditsUpdate?
    ensures CreditsInFrames(frames) == 0
  {
    if frames != [] {
      NoCreditFrames(frames[..|frames| - 1]);
    }
  }

  lemma {:induction false} NoCreditCommands(commands: seq<SenderCommand>)
    requires forall i :: 0 <= i < |commands| ==> commands[i].Nack?
    ensures CreditsInCommands(commands) == 0
  {
    if commands != [] {
      NoCreditCommands(commands[..|commands| - 1]);
    }
  }

  lemma DebitedExactly(cfg: Config, s: Sys)
    requires Inv(cfg, s) && s.snd.inFlight == None && !s.failed
    ensures s.done <= |s.items| && s.debited == Total(s.items, s.done)
  {
    hide NetInv, GroupsFit, AllSent, AllIn, RetransFrom, Outs, Src, EndInv, NacksSent, SinkInv, ItemOk, IsWindow, Total, Ledger, Sends;
  }

  /** At rest the bank holds exactly the initial, returned and granted credits less one for every
      datagram sent. */
  lemma CreditsAtRest(cfg: Config, x: Execution, k: nat)
    requires Legal(cfg, x) && k <= |x.actions| && Resting(x.states[k])
    ensures var s := x.states[k];
            && s.done <= |s.items|
            && s.snd.permits + Total(s.items, s.done) == cfg.initialCredits + s.coord.lastEmitted + s.solicited
  {
    CreditsAreConserved(cfg, x, k);
    RunKeepsInv(cfg, x, k);
    var s := x.states[k];
    DebitedExactly(cfg, s);
    NoCreditFrames(s.toSender);
    NoCreditCommands(s.commands);
    hide Inv, Legal, Total, CreditsInFrames, CreditsInCommands;
  }

  /** Hence exactly when the next `send` goes through without further credits: its datagrams and all
      earlier ones together are covered by the credits there ever were. Otherwise it stalls. */
  lemma NextSendCompletesIff(cfg: Config, x: Execution, k: nat, ts: u64, content: bytes, accepted: nat)
    requires Legal(cfg, x) && k <= |x.actions| && Resting(x.states[k])
    requires Can(cfg, x.states[k], StartSend(ts, content)) && !x.states[k].snd.closed
    requires accepted >= |PacketsFor(cfg.id, cfg.limit, x.states[k].done, ts, cfg.compress(content))|
    ensures var s := x.states[k];
            var n := |PacketsFor(cfg.id, cfg.limit, s.done, ts, cfg.compress(content))|;
            var t := Polled(cfg, StartItem(cfg, s, ts, content), accepted);
            && s.done <= |s.items|
            && (t.done == s.done + 1 <==> n + Total(s.items, s.done) <= cfg.initialCredits + s.coord.lastEmitted + s.solicited)
            && (t.done == s.done <==> t.snd.inFlight.Some?)
  {
    CreditsAtRest(cfg, x, k);
    hide Inv, Legal, Total, PacketsFor, Cut, Sendable, Resting, Stored;
  }

  // ---------------------------------------------------------------- capacity

  /** The reorder deque fills up only if the credits allow it: with fewer credits than slots, no arrival
      at an open reliable sink is ever refused. */
  lemma NoArrivalIsRefused(cfg: Config, x: Execution, k: nat)
    requires Legal(cfg, x) && k <= |x.actions|
    ensures var s := x.states[k];
            !s.coord.reliableClosed && cfg.initialCredits + s.solicited < cfg.cap ==>
              |s.deque.slots| < cfg.cap && !Stuck(cfg.cap, s.deque)
  {
    CreditsAreConserved(cfg, x, k);
    RunKeepsInv(cfg, x, k);
    var s := x.states[k];
    ChunksHaveParts(cfg, s);
    DequeIsBounded(cfg, s);
    hide Inv, Legal, Total, PartCount, CreditsInFrames, CreditsInCommands, IsWindow;
    TotalAtLeast(s.items, s.done, 1);
  }

  lemma DequeIsBounded(cfg: Config, s: Sys)
    requires Inv(cfg, s)
    ensures |s.delivered| + |s.deque.slots| <= s.done
  {
    SinkOf(cfg, s);
    var outs := Outs(cfg, s.items, s.done);
    hide Inv, Outs, CoordInv, Numbered;
    GoodIsBounded(s.deque, s.delivered, outs);
  }

  // ---------------------------------------------------------------- retransmission

  lemma ChunksHaveParts(cfg: Config, s: Sys)
    requires Inv(cfg, s)
    ensures forall i :: 0 <= i < |s.items| ==> 1 <= PartCount(s.items[i].chunk)
    ensures Bounded(s.items, s.done) && IsWindow(s.snd.entries, 0, cfg.max, Sends(cfg, s.items, s.done))
  {
    hide NetInv, GroupsFit, AllSent, SinkInv, AllIn, RetransFrom, Outs, Src, EndInv, NacksSent, Ledger, IsWindow,
        Sends, FlightOk;
    forall i | 0 <= i < |s.items|
      ensures 1 <= PartCount(s.items[i].chunk)
    {
      assert ItemOk(cfg, s.items[i]);
    }
  }

  lemma InTheWindow(cfg: Config, items: seq<Item>, done: nat, entries: Entries, n: nat)
    requires Bounded(items, done) && IsWindow(entries, 0, cfg.max, Sends(cfg, items, done))
    requires n < done <= n + cfg.max
    ensures n in entries && entries[n] == PartsList(cfg.id, n, items[n].chunk)
  {
    hide PartsList;
    var sends := Sends(cfg, items, done);
    assert WrapAdd(0, n) == n && sends[n] == PartsList(cfg.id, n, items[n].chunk);
    hide Sends;
    assert n in KeysOf(0, done - Min(done, cfg.max), done);
  }

  /** Retransmission coverage: while the initial and the granted credits together do not exceed the size of
      the retransmission map, every chunk sent but not yet handed out by an open reliable sink is still in
      the map, with all its datagrams. */
  lemma UndeliveredIsStillStored(cfg: Config, x: Execution, k: nat)
    requires Legal(cfg, x) && k <= |x.actions|
    ensures var s := x.states[k];
            && s.done <= |s.items| < TWO32
            && (cfg.initialCredits + s.solicited <= cfg.max && !s.coord.reliableClosed ==>
                  forall n: u32 :: |s.delivered| <= n < s.done ==>
                    n in s.snd.entries && s.snd.entries[n] == PartsList(cfg.id, n, s.items[n].chunk))
  {
    CreditsAreConserved(cfg, x, k);
    RunKeepsInv(cfg, x, k);
    var s := x.states[k];
    CountersOf(cfg, s);
    ChunksHaveParts(cfg, s);
    hide Inv, Legal, Total, PartCount, CoordInv, IsWindow, Sends, PartsList;
    TotalAtLeast(s.items, s.done, 1);
    if cfg.initialCredits + s.solicited <= cfg.max && !s.coord.reliableClosed {
      forall n: u32 | |s.delivered| <= n < s.done
        ensures n in s.snd.entries && s.snd.entries[n] == PartsList(cfg.id, n, s.items[n].chunk)
      {
        InTheWindow(cfg, s.items, s.done, s.snd.entries, n);
      }
    }
  }

  lemma PendingNacks(cfg: Config, s: Sys, i: nat)
    requires Inv(cfg, s) && i < |s.toSender| && s.toSender[i].NackMessage?
    ensures AllBelow(s.toSender[i].sequenceNumbers, s.done)
  {
    hide SenderInv, NetInv, GroupsFit, AllSent, SinkInv, AllIn, RetransFrom, Outs, Src, EndInv, Ledger, AllBelow;
  }

  /** Hence only a stale request goes unanswered: each number in a NACK on its way to the sender was sent,
      and either its chunk has been handed out meanwhile or every datagram of it is among the answers. */
  lemma OnlyStaleNacksMiss(cfg: Config, x: Execution, k: nat, i: nat, n: u32, j: nat)
    requires Legal(cfg, x) && k <= |x.actions|
    requires i < |x.states[k].toSender| && x.states[k].toSender[i].NackMessage?
    requires n in x.states[k].toSender[i].sequenceNumbers
    ensures n < x.states[k].done <= |x.states[k].items|
    ensures var s := x.states[k];
            cfg.initialCredits + s.solicited <= cfg.max && !s.coord.reliableClosed && j < PartCount(s.items[n].chunk) ==>
              || n < |s.delivered|
              || Retrans(n, s.items[n].chunk.timestamp, Part(cfg.id, n, s.items[n].chunk, j).content)
                 in Retransmissions(s.snd.entries, s.toSender[i].sequenceNumbers)
  {
    RunKeepsInv(cfg, x, k);
    UndeliveredIsStillStored(cfg, x, k);
    var s := x.states[k];
    PendingNacks(cfg, s, i);
    var numbers := s.toSender[i].sequenceNumbers;
    hide Inv, Legal, PartCount;
    assert exists k :: 0 <= k < |numbers| && numbers[k] == n;
    if cfg.initialCredits + s.solicited <= cfg.max && !s.coord.reliableClosed && j < PartCount(s.items[n].chunk)
        && n >= |s.delivered| {
      var m := Retrans(n, s.items[n].chunk.timestamp, Part(cfg.id, n, s.items[n].chunk, j).content);
      NackIsAnsweredFromTheMap(s.snd.entries, numbers, m);
      StoredPartAnswers(cfg, s, n, j);
    }
  }

  lemma StoredPartAnswers(cfg: Config, s: Sys, n: u32, j: nat)
    requires n < |s.items| && j < PartCount(s.items[n].chunk)
    requires n in s.snd.entries && s.snd.entries[n] == PartsList(cfg.id, n, s.items[n].chunk)
    ensures Answers(s.snd.entries, n, Retrans(n, s.items[n].chunk.timestamp, Part(cfg.id, n, s.items[n].chunk, j).content))
  {
    assert s.snd.entries[n][j] == Part(cfg.id, n, s.items[n].chunk, j);
  }
}
