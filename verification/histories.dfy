/** What a run has heard from the network, and what follows for the unreliable sink and the credits when
    nothing is heard twice. */
module Histories {
  import opened Types
  import opened Messages
  import opened Sending
  import opened Reassembly
  import opened Assembly
  import opened Receiving
  import opened StreamTask
  import opened Protocol

  /** The datagram a step takes off the network or out of a retransmission. */
  ghost function HeardAt(cfg: Config, s: Sys, a: Action): multiset<Packet> {
    match a
    case Deliver(p) => multiset{p}
    case ReceiverReads(_) =>
      if s.toReceiver != [] && s.toReceiver[0].Retrans?
      then multiset{Packet(cfg.id, s.toReceiver[0].sequenceNumber, s.toReceiver[0].timestamp, s.toReceiver[0].content)}
      else multiset{}
    case _ => multiset{}
  }

  /** Every datagram delivered or retransmitted in the first `k` steps, as often as it was. */
  ghost function Heard(cfg: Config, x: Execution, k: nat): multiset<Packet>
    requires |x.states| == |x.actions| + 1 && k <= |x.actions|
  {
    if k == 0 then multiset{} else Heard(cfg, x, k - 1) + HeardAt(cfg, x.states[k - 1], x.actions[k - 1])
  }

  ghost predicate HeardOnce(cfg: Config, x: Execution, k: nat)
    requires |x.states| == |x.actions| + 1 && k <= |x.actions|
  {
    forall p :: p in Heard(cfg, x, k) ==> Heard(cfg, x, k)[p] == 1
  }

  // ---------------------------------------------------------------- counting one chunk

  /** Packets numbered `m`. */
  ghost function CountOf(ps: seq<Packet>, m: nat): nat {
    if ps == [] then 0 else CountOf(ps[..|ps| - 1], m) + if ps[|ps| - 1].seqno == m then 1 else 0
  }

  lemma {:induction false} CountAppend(a: seq<Packet>, b: seq<Packet>, m: nat)
    ensures CountOf(a + b, m) == CountOf(a, m) + CountOf(b, m)
  {
    if b == [] {
      assert a + b == a;
    } else {
      CountAppend(a, b[..|b| - 1], m);
      assert (a + b)[..|a + b| - 1] == a + b[..|b| - 1];
    }
  }

  lemma CountOne(p: Packet, m: nat)
    ensures CountOf([p], m) == if p.seqno == m then 1 else 0
    ensures CountOf([], m) == 0
  {
    assert [p][..0] == [];
    assert CountOf([p], m) == CountOf([], m) + if p.seqno == m then 1 else 0;
  }

  lemma CountHead(ps: seq<Packet>, m: nat)
    requires ps != []
    ensures CountOf(ps, m) == (if ps[0].seqno == m then 1 else 0) + CountOf(ps[1..], m)
  {
    assert ps == [ps[0]] + ps[1..];
    CountAppend([ps[0]], ps[1..], m);
    CountOne(ps[0], m);
  }

  lemma {:induction false} CountNone(ps: seq<Packet>, m: nat)
    requires forall i :: 0 <= i < |ps| ==> ps[i].seqno != m
    ensures CountOf(ps, m) == 0
  {
    if ps != [] {
      CountNone(ps[..|ps| - 1], m);
    }
  }

  /** The first datagram of chunk `m`. */
  function FirstPart(cfg: Config, items: seq<Item>, m: u32): Packet
    requires m < |items|
  {
    Part(cfg.id, m, items[m].chunk, 0)
  }

  /** Chunk `m` as it was shown or is about to be, its first datagram held in a group, and that datagram
      still queued: together no more than the datagram was heard. */
  ghost predicate Tally(cfg: Config, s: Sys, heard: multiset<Packet>, m: u32) {
    m < |s.items| ==>
      CountOf(s.shown, m) + CountOf(s.unreliableQueue, m) + Held(Src(cfg, s.items), s.groups, m, 0)
        + multiset(s.datagrams)[FirstPart(cfg, s.items, m)]
      <= heard[FirstPart(cfg, s.items, m)]
  }

  lemma TallyAfterStart(cfg: Config, s: Sys, ts: u64, content: bytes, heard: multiset<Packet>, m: u32)
    requires Inv(cfg, s) && Can(cfg, s, StartSend(ts, content)) && Tally(cfg, s, heard, m)
    ensures Tally(cfg, StartItem(cfg, s, ts, content), heard, m)
  {
    var t := StartItem(cfg, s, ts, content);
    if m < |s.items| {
      assert t.items[m] == s.items[m];
    } else if m == |s.items| {
      NothingOfNewChunk(cfg, s, m, FirstPart(cfg, t.items, m));
    }
    hide Inv, Sendable, Cut, PacketsFor, Part;
  }

  /** Of a chunk that was not started nothing can have been heard. */
  lemma NothingOfNewChunk(cfg: Config, s: Sys, m: u32, p: Packet)
    requires Inv(cfg, s) && m == |s.items| && p.seqno == m
    ensures CountOf(s.shown, m) == 0 && CountOf(s.unreliableQueue, m) == 0
    ensures m !in s.groups && multiset(s.datagrams)[p] == 0
  {
    NumbersOf(cfg, s);
    hide Inv;
    CountNone(s.shown, m);
    CountNone(s.unreliableQueue, m);
    assert p !in s.datagrams;
  }

  /** Everything about in the system carries the number of a started chunk. */
  lemma NumbersOf(cfg: Config, s: Sys)
    requires Inv(cfg, s)
    ensures s.done <= |s.items|
    ensures forall i :: 0 <= i < |s.shown| ==> s.shown[i].seqno < s.done
    ensures forall i :: 0 <= i < |s.unreliableQueue| ==> s.unreliableQueue[i].seqno < s.done
    ensures forall i :: 0 <= i < |s.datagrams| ==> s.datagrams[i].seqno < |s.items|
    ensures forall key :: key in s.groups ==> key < |s.items|
  {
    hide SinkInv, RetransFrom, EndInv, NacksSent, Ledger, ItemOk, Part, FlightOk, IsWindow, FragsFit;
    forall i | 0 <= i < |s.datagrams|
      ensures s.datagrams[i].seqno < |s.items|
    {
      assert IsGenuine(Src(cfg, s.items), s.datagrams[i]);
    }
  }

  lemma TallyAfterReassembly(cfg: Config, s: Sys, heard: multiset<Packet>, m: u32)
    requires ValidConfig(cfg) && Inv(cfg, s) && s.datagrams != [] && Tally(cfg, s, heard, m)
    ensures Tally(cfg, After(cfg, s, Reassemble), heard, m)
  {
    hide Inv, Receive, Opened, Tally, Reassembled, ValidConfig, Held, FirstPart;
    var (groups, out) := Receive(cfg.groupCap, s.groups, s.datagrams[0]);
    var whole := if out.Some? then [Opened(cfg, out.value)] else [];
    if m < |s.items| {
      EmissionCounts(cfg, s, m);
      TallyReassembled(cfg, s, groups, whole, heard, m);
    } else {
      ReassembledItems(s, groups, whole);
      LaterTally(cfg, s, Reassembled(s, groups, whole), heard, m);
    }
  }

  lemma ReassembledItems(s: Sys, groups: Groups, whole: seq<Packet>)
    requires s.datagrams != []
    ensures Reassembled(s, groups, whole).items == s.items
  {
  }

  lemma LaterTally(cfg: Config, s: Sys, t: Sys, heard: multiset<Packet>, m: u32)
    requires t.items == s.items && m >= |s.items|
    ensures Tally(cfg, t, heard, m)
  {
  }

  /** What is emitted and what is still held, against the datagram that came in. */
  lemma EmissionCounts(cfg: Config, s: Sys, m: u32)
    requires ValidConfig(cfg) && Inv(cfg, s) && s.datagrams != [] && m < |s.items|
    ensures var (groups, out) := Receive(cfg.groupCap, s.groups, s.datagrams[0]);
            var whole := if out.Some? then [Opened(cfg, out.value)] else [];
            Held(Src(cfg, s.items), groups, m, 0) + CountOf(whole, m)
              <= Held(Src(cfg, s.items), s.groups, m, 0) + if s.datagrams[0] == FirstPart(cfg, s.items, m) then 1 else 0
  {
    hide Inv, GroupsFit, NetInv, AllIn, Receive, IsGenuine, Part, Held, ValidSource, ItemOk, Opened, EmittedWhole, Bounded, CountOf;
    var p, src := s.datagrams[0], Src(cfg, s.items);
    SourceIsValid(cfg, s);
    GenuineOnNetwork(cfg, s, p);
    ReceiveCounts(src, s.pool, cfg.groupCap, s.groups, p, m, 0);
    ReceiveIsSafe(src, s.pool, cfg.groupCap, s.groups, p);
    var (groups, out) := Receive(cfg.groupCap, s.groups, p);
    if out.Some? {
      OpenedIs(cfg, s, out.value, m);
      CountOne(Opened(cfg, out.value), m);
    } else {
      CountOne(p, m);
    }
  }

  lemma TallyReassembled(cfg: Config, s: Sys, groups: Groups, whole: seq<Packet>, heard: multiset<Packet>, m: u32)
    requires s.datagrams != [] && m < |s.items| && Tally(cfg, s, heard, m)
    requires Held(Src(cfg, s.items), groups, m, 0) + CountOf(whole, m)
             <= Held(Src(cfg, s.items), s.groups, m, 0) + if s.datagrams[0] == FirstPart(cfg, s.items, m) then 1 else 0
    ensures Tally(cfg, Reassembled(s, groups, whole), heard, m)
  {
    hide Held, FirstPart, CountOf;
    CountAppend(s.unreliableQueue, whole, m);
    var p, rest := s.datagrams[0], s.datagrams[1..];
    assert s.datagrams == [p] + rest;
    assert multiset(s.datagrams) == multiset{p} + multiset(rest);
  }

  /** An emitted chunk numbered `m` is chunk `m`. */
  lemma OpenedIs(cfg: Config, s: Sys, p: Packet, m: u32)
    requires m < |s.items| && EmittedWhole(Src(cfg, s.items), s.pool, p)
    ensures Opened(cfg, p).seqno == p.seqno
    ensures p.seqno == m ==> p == Whole(cfg.id, m, s.items[m].chunk)
  {
    hide Part;
  }

  lemma TallyAfterReads(cfg: Config, s: Sys, t: Sys, heard: multiset<Packet>, m: u32)
    requires s.unreliableQueue != [] && Tally(cfg, s, heard, m)
    requires t.items == s.items && t.groups == s.groups && t.datagrams == s.datagrams
    requires t.unreliableQueue == s.unreliableQueue[1..]
    requires t.shown == s.shown || t.shown == s.shown + [s.unreliableQueue[0]]
    ensures Tally(cfg, t, heard, m)
  {
    hide FirstPart, Held, CountOf;
    CountHead(s.unreliableQueue, m);
    CountAppend(s.shown, [s.unreliableQueue[0]], m);
    CountOne(s.unreliableQueue[0], m);
  }

  lemma TallyMore(cfg: Config, s: Sys, t: Sys, heard: multiset<Packet>, more: seq<Packet>, m: u32)
    requires Tally(cfg, s, heard, m)
    requires t.items == s.items && t.shown == s.shown && t.unreliableQueue == s.unreliableQueue && t.groups == s.groups
    requires t.datagrams == s.datagrams + more
    ensures forall h :: multiset(more) <= h ==> Tally(cfg, t, heard + h, m)
  {
    hide Part, Held;
    assert multiset(s.datagrams + more) == multiset(s.datagrams) + multiset(more);
  }

  /** The event behind a step of the receiver's task. */
  ghost function ReceiverEvent(cfg: Config, s: Sys, a: Action): Event
    requires ReceiverStep(a) && Can(cfg, s, a)
  {
    match a
    case ReceiverTask(ev, _) => ev
    case ReceiverSends(_) => FromSink(s.commands[0])
    case ReceiverReads(_) => FromPeer(s.toReceiver[0])
    case ReceiverAcks(_) => SendTransferEndAck
  }

  lemma ReceiverIsEnabled(cfg: Config, s: Sys, a: Action)
    requires ReceiverStep(a) && Can(cfg, s, a)
    ensures Enabled(s.receiverTask, ReceiverEvent(cfg, s, a))
    ensures match a case ReceiverTask(ev, _) => Local(ev)
                    case ReceiverSends(_) => s.commands != []
                    case ReceiverReads(_) => s.toReceiver != []
                    case _ => true
  {
    hide EndReached, Sendable, PacketsFor;
  }

  lemma ReceiverStepIs(cfg: Config, s: Sys, a: Action)
    requires ReceiverStep(a) && Can(cfg, s, a)
    ensures var ev := ReceiverEvent(cfg, s, a);
            var (t, fx) := TakeStep(TaskConfig(cfg.id, cfg.bulk), map[], s.receiverTask, ev, a.env);
            var u := After(cfg, s, a);
            && u == ReceiverNext(s, t, fx, u.commands, u.lost, u.toReceiver, u.solicited, u.answered)
            && u.commands == (if a.ReceiverSends? then s.commands[1..] else s.commands)
            && u.toReceiver == (if a.ReceiverReads? then s.toReceiver[1..] else s.toReceiver)
  {
    ReceiverIsEnabled(cfg, s, a);
    hide TakeStep, Can, CreditsInFrames, CreditsInCommands, ReceiverShows;
  }

  /** What the receiver's task does at any event leaves all but the datagram queue alone. */
  lemma ReceiverQueues(cfg: Config, s: Sys, a: Action) returns (more: seq<Packet>)
    requires Inv(cfg, s) && Can(cfg, s, a)
    requires ReceiverStep(a)
    ensures var t := After(cfg, s, a);
            && t.items == s.items && t.shown == s.shown && t.unreliableQueue == s.unreliableQueue && t.groups == s.groups
            && t.datagrams == s.datagrams + more && multiset(more) <= HeardAt(cfg, s, a)
  {
    hide Inv, TakeStep, After, Can, ReceiverSays, HeardAt, Enabled;
    ReceiverFacts(cfg, s);
    ReceiverStepIs(cfg, s, a);
    ReceiverIsEnabled(cfg, s, a);
    var ev := ReceiverEvent(cfg, s, a);
    ReceiverHandles(cfg, s.receiverTask, ev, a.env);
    var (t, fx) := TakeStep(TaskConfig(cfg.id, cfg.bulk), map[], s.receiverTask, ev, a.env);
    more := OptionSeq(fx.injected);
    InjectedIsHeard(cfg, s, a, ev, t, fx);
  }

  lemma InjectedIsHeard(cfg: Config, s: Sys, a: Action, ev: Event, t: Task, fx: Effects)
    requires a.ReceiverTask? ==> Local(ev)
    requires a.ReceiverSends? ==> ev.FromSink?
    requires a.ReceiverAcks? ==> ev.SendTransferEndAck?
    requires a.ReceiverReads? ==> s.toReceiver != [] && ev == FromPeer(s.toReceiver[0])
    requires ReceiverStep(a)
    requires ReceiverSays(cfg, ev, t, fx)
    ensures multiset(OptionSeq(fx.injected)) <= HeardAt(cfg, s, a)
  {
    hide CreditsInFrames, CreditsInCommands, NoStart;
  }

  predicate ReceiverStep(a: Action) {
    a.ReceiverTask? || a.ReceiverSends? || a.ReceiverReads? || a.ReceiverAcks?
  }

  predicate SenderStep(a: Action) {
    a.PollTheSend? || a.EndTheTransfer? || a.HandleEndsTheTransfer? || a.SenderTask? || a.SenderReads? || a.SenderShutsDown?
  }

  predicate SinkStep(a: Action) {
    a.SinkReads? || a.SinkTakesEnd? || a.SinkFinishes? || a.SinkEof? || a.SinkDropped? || a.SinkCloses? || a.UnreliableCloses?
  }

  /** The two states agree on all that the tally looks at. */
  ghost predicate SameQueues(s: Sys, t: Sys) {
    && t.items == s.items && t.shown == s.shown && t.unreliableQueue == s.unreliableQueue
    && t.groups == s.groups && t.datagrams == s.datagrams
  }

  lemma SenderStepQueues(cfg: Config, s: Sys, a: Action)
    requires Can(cfg, s, a) && SenderStep(a)
    ensures SameQueues(s, After(cfg, s, a)) && s.done <= After(cfg, s, a).done
  {
    hide TakeStep, PollSend, FinalSequenceNumber;
  }

  lemma CommandedQueues(s: Sys, commands: seq<SenderCommand>)
    ensures Commanded(s, commands) == s.(commands := Commanded(s, commands).commands, lost := Commanded(s, commands).lost)
  {
  }

  lemma RecvQueues(s: Sys, r: RecvState)
    ensures SameQueues(s, AfterRecv(s, r)) && AfterRecv(s, r).done == s.done
  {
    CommandedQueues(s, r.commands);
    hide Commanded;
  }

  lemma CoordQueues(cfg: Config, s: Sys, call: Call)
    ensures var t := AfterCoord(cfg, s, call);
            t == s.(coord := AfterCall(CoordBulk(cfg), s.coord, call).0, commands := t.commands, lost := t.lost)
  {
    CommandedQueues(s, Announce(AfterCall(CoordBulk(cfg), s.coord, call).1));
    hide Commanded, AfterCall, Announce;
  }

  lemma SinkStepQueues(cfg: Config, s: Sys, a: Action)
    requires Can(cfg, s, a) && SinkStep(a)
    ensures SameQueues(s, After(cfg, s, a)) && s.done <= After(cfg, s, a).done
  {
    hide AfterRecv, AfterCoord, OnPacket, SignalEof, Finish, EndReached, AfterCall;
    if a.SinkReads? && !s.reliableDropped {
      RecvQueues(s, OnPacket(RecvConfigOf(cfg), RecvStateOf(s), s.reliableQueue[0]).0);
    } else if a.SinkFinishes? {
      RecvQueues(s, Finish(RecvConfigOf(cfg), RecvStateOf(s)));
    } else if a.SinkEof? {
      RecvQueues(s, SignalEof(RecvConfigOf(cfg), RecvStateOf(s)));
    } else if a.SinkCloses? {
      CoordQueues(cfg, s, CloseReliable);
    } else if a.UnreliableCloses? {
      CoordQueues(cfg, s, CloseUnreliable);
    }
  }

  /** One step of a run keeps the tally. */
  lemma StepKeepsTally(cfg: Config, s: Sys, a: Action, heard: multiset<Packet>, m: u32)
    requires ValidConfig(cfg) && Inv(cfg, s) && Can(cfg, s, a) && Tally(cfg, s, heard, m)
    ensures Tally(cfg, After(cfg, s, a), heard + HeardAt(cfg, s, a), m)
  {
    hide Inv, TakeStep, Receive, Reassembled, StartItem, Polled, Tally, AfterCoord, SinkRead, AfterRecv, SignalEof, Finish,
      CreditsInFrames, CreditsInCommands;
    var t := After(cfg, s, a);
    if a.StartSend? {
      TallyAfterStart(cfg, s, a.timestamp, a.content, heard, m);
      assert heard + multiset{} == heard;
    } else if a.Deliver? {
      TallyMore(cfg, s, t, heard, [a.packet], m);
    } else if a.Reassemble? {
      TallyAfterReassembly(cfg, s, heard, m);
      assert heard + multiset{} == heard;
    } else if a.UnreliableReads? || a.UnreliableDrains? {
      CoordQueues(cfg, s, RecordUnreliable(1));
      TallyAfterReads(cfg, s, t, heard, m);
      assert heard + multiset{} == heard;
    } else if ReceiverStep(a) {
      var more := ReceiverQueues(cfg, s, a);
      TallyMore(cfg, s, t, heard, more, m);
    } else {
      if SenderStep(a) { SenderStepQueues(cfg, s, a); } else { SinkStepQueues(cfg, s, a); }
      assert s.datagrams + [] == s.datagrams;
      TallyMore(cfg, s, t, heard, [], m);
    }
  }

  /** What was started and sent stays started and sent. */
  lemma StepGrows(cfg: Config, s: Sys, a: Action)
    requires Inv(cfg, s) && Can(cfg, s, a)
    ensures s.items <= After(cfg, s, a).items && s.done <= After(cfg, s, a).done
  {
    hide Inv, TakeStep, Receive, StartItem, Polled, AfterCoord, SinkRead, AfterRecv, ReceiverShows, CreditsInFrames, CreditsInCommands;
    if a.StartSend? {
      StartGrows(cfg, s, a.timestamp, a.content);
    } else if a.UnreliableReads? || a.UnreliableDrains? {
      CoordQueues(cfg, s, RecordUnreliable(1));
    } else if ReceiverStep(a) {
      var more := ReceiverQueues(cfg, s, a);
      StepMovesCoord(cfg, s, a);
    } else if SenderStep(a) {
      SenderStepQueues(cfg, s, a);
    } else if SinkStep(a) {
      SinkStepQueues(cfg, s, a);
    }
  }

  lemma StartGrows(cfg: Config, s: Sys, ts: u64, content: bytes)
    requires Can(cfg, s, StartSend(ts, content))
    ensures s.items <= StartItem(cfg, s, ts, content).items && StartItem(cfg, s, ts, content).done == s.done
  {
    hide Sendable, Cut, PacketsFor;
  }

  lemma {:induction false} RunGrows(cfg: Config, x: Execution, i: nat, k: nat)
    requires Legal(cfg, x) && i <= k <= |x.actions|
    ensures x.states[i].items <= x.states[k].items && x.states[i].done <= x.states[k].done
  {
    hide Inv, Can, After, ReadGuard, ValidConfig;
    if i < k {
      RunGrows(cfg, x, i, k - 1);
      RunKeepsInv(cfg, x, k - 1);
      GuardHolds(cfg, x, k - 1);
      StepGrows(cfg, x.states[k - 1], x.actions[k - 1]);
    }
  }

  lemma {:induction false} RunKeepsTally(cfg: Config, x: Execution, k: nat, m: u32)
    requires Legal(cfg, x) && k <= |x.actions|
    ensures Tally(cfg, x.states[k], Heard(cfg, x, k), m)
  {
    hide Inv, Can, After, ReadGuard, ValidConfig, Tally, HeardAt;
    if k == 0 {
      LaterTally(cfg, x.states[0], x.states[0], Heard(cfg, x, 0), m);
    } else {
      RunKeepsTally(cfg, x, k - 1, m);
      RunKeepsInv(cfg, x, k - 1);
      GuardHolds(cfg, x, k - 1);
      StepKeepsTally(cfg, x.states[k - 1], x.actions[k - 1], Heard(cfg, x, k - 1), m);
    }
  }

  /** In every run, whatever is duplicated or retransmitted, the unreliable sink shows a chunk at most as
      often as the chunk's first datagram was delivered or retransmitted. */
  lemma ShownAtMostAsHeard(cfg: Config, x: Execution, k: nat, m: u32)
    requires Legal(cfg, x) && k <= |x.actions| && m < |x.states[k].items|
    ensures CountOf(x.states[k].shown, m) <= Heard(cfg, x, k)[FirstPart(cfg, x.states[k].items, m)]
  {
    RunKeepsTally(cfg, x, k, m);
    hide Legal, Heard, FirstPart, CountOf, Held;
  }

  // ---------------------------------------------------------------- the coordinator over a run

  /** A coordinator call counts what it was told, and only emits while a sink is open. */
  lemma CallEffects(bulk: nat, c: Coord, call: Call)
    ensures var d := AfterCall(bulk, c, call).0;
            && (!call.RecordUnreliable? ==> d.unreliableDrained == c.unreliableDrained)
            && (call == RecordUnreliable(1) ==> d.unreliableDrained == SaturatingAdd(c.unreliableDrained, 1))
            && (d.lastEmitted == c.lastEmitted || EffectiveCount(d).Some?)
  {
  }

  /** One chunk more counted for each one more shown. */
  ghost predicate CoordMoved(s: Sys, t: Sys) {
    && (if |t.shown| == |s.shown| then t.coord.unreliableDrained == s.coord.unreliableDrained
        else |t.shown| == |s.shown| + 1 && t.coord.unreliableDrained == SaturatingAdd(s.coord.unreliableDrained, 1))
    && (t.coord.lastEmitted == s.coord.lastEmitted || EffectiveCount(t.coord).Some?)
    && s.done <= t.done
  }

  lemma RecvMoves(cfg: Config, s: Sys, r: RecvState, call: Call)
    requires !call.RecordUnreliable? && (r.coord == s.coord || r.coord == AfterCall(CoordBulk(cfg), s.coord, call).0)
    ensures CoordMoved(s, AfterRecv(s, r))
  {
    CallEffects(CoordBulk(cfg), s.coord, call);
    RecvQueues(s, r);
    hide AfterCall, Commanded, EffectiveCount;
  }

  /** Every step of a run moves the coordinator by at most one call. */
  lemma StepMovesCoord(cfg: Config, s: Sys, a: Action)
    requires Inv(cfg, s) && Can(cfg, s, a)
    ensures CoordMoved(s, After(cfg, s, a))
  {
    hide Inv, TakeStep, Receive, Reassembled, Polled, AfterCoord, AfterRecv, Commanded, AfterCall, EffectiveCount,
      CreditsInFrames, CreditsInCommands, EndReached;
    if SinkStep(a) {
      SinkMoves(cfg, s, a);
    } else if a.UnreliableReads? {
      CoordQueues(cfg, s, RecordUnreliable(1));
      CallEffects(CoordBulk(cfg), s.coord, RecordUnreliable(1));
    } else if SenderStep(a) {
      SenderLeavesCoord(cfg, s, a);
    } else if a.Reassemble? {
      ReassemblyLeavesCoord(cfg, s);
    } else {
      hide StartItem;
      RestLeavesCoord(cfg, s, a);
    }
  }

  lemma SinkMoves(cfg: Config, s: Sys, a: Action)
    requires Can(cfg, s, a) && SinkStep(a)
    ensures CoordMoved(s, After(cfg, s, a))
  {
    hide AfterRecv, AfterCoord, AfterCall, EffectiveCount, Commanded, Pushed, Drained, MissingFrom;
    if a.SinkReads? && !s.reliableDropped {
      var r := OnPacket(RecvConfigOf(cfg), RecvStateOf(s), s.reliableQueue[0]).0;
      RecvMoves(cfg, s, r, RecordReliable(|Drained(Pushed(cfg.variant, cfg.cap, s.deque, s.reliableQueue[0])).1|));
    } else if a.SinkFinishes? {
      RecvMoves(cfg, s, Finish(RecvConfigOf(cfg), RecvStateOf(s)), CloseReliable);
    } else if a.SinkEof? {
      RecvMoves(cfg, s, SignalEof(RecvConfigOf(cfg), RecvStateOf(s)), CloseReliable);
    } else if a.SinkCloses? {
      CoordQueues(cfg, s, CloseReliable);
      CallEffects(CoordBulk(cfg), s.coord, CloseReliable);
    } else if a.UnreliableCloses? {
      CoordQueues(cfg, s, CloseUnreliable);
      CallEffects(CoordBulk(cfg), s.coord, CloseUnreliable);
    }
  }

  lemma SenderLeavesCoord(cfg: Config, s: Sys, a: Action)
    requires Can(cfg, s, a) && SenderStep(a)
    ensures CoordMoved(s, After(cfg, s, a))
  {
    hide TakeStep, PollSend, FinalSequenceNumber, EffectiveCount;
  }

  lemma ReassemblyLeavesCoord(cfg: Config, s: Sys)
    requires Can(cfg, s, Reassemble)
    ensures CoordMoved(s, After(cfg, s, Reassemble))
  {
    hide Receive, EffectiveCount;
  }

  lemma RestLeavesCoord(cfg: Config, s: Sys, a: Action)
    requires Can(cfg, s, a) && (a.StartSend? || a.Deliver? || a.UnreliableDrains? || ReceiverStep(a))
    ensures CoordMoved(s, After(cfg, s, a))
  {
    hide TakeStep, Sendable, PacketsFor, Cut, CreditsInFrames, CreditsInCommands, EffectiveCount;
  }

  // ---------------------------------------------------------------- nothing heard twice

  ghost function Numbers(ps: seq<Packet>): set<nat> {
    set i | 0 <= i < |ps| :: ps[i].seqno as nat
  }

  lemma {:induction false} CountPositive(ps: seq<Packet>, i: nat)
    requires i < |ps|
    ensures CountOf(ps, ps[i].seqno) >= 1
  {
    if i < |ps| - 1 {
      CountPositive(ps[..|ps| - 1], i);
    }
  }

  lemma {:induction false} DistinctNumbers(ps: seq<Packet>)
    requires forall m: u32 {:trigger CountOf(ps, m)} :: CountOf(ps, m) <= 1
    ensures |Numbers(ps)| == |ps|
  {
    if ps != [] {
      var rest, last := ps[..|ps| - 1], ps[|ps| - 1];
      forall m: u32
        ensures CountOf(rest, m) <= 1
      {
        assert CountOf(ps, m) <= 1;
      }
      DistinctNumbers(rest);
      assert last.seqno !in Numbers(rest) by {
        assert CountOf(ps, last.seqno) <= 1;
        NotCounted(rest, last.seqno);
      }
      assert Numbers(ps) == Numbers(rest) + {last.seqno as nat} by {
        assert forall i :: 0 <= i < |rest| ==> ps[i] == rest[i];
      }
    }
  }

  lemma NotCounted(ps: seq<Packet>, m: u32)
    ensures CountOf(ps, m) == 0 ==> m !in Numbers(ps)
  {
    if i: nat :| i < |ps| && ps[i].seqno == m {
      CountPositive(ps, i);
    }
  }

  lemma {:induction false} RangeSize(s: set<nat>, n: nat)
    requires forall x :: x in s ==> x < n
    ensures |s| <= n
  {
    if n > 0 {
      RangeSize(s - {n - 1}, n - 1);
    } else {
      assert s == {};
    }
  }

  /** Heard no datagram twice, the unreliable sink has shown no more chunks than were sent. */
  lemma ShownAtMostSent(cfg: Config, x: Execution, k: nat)
    requires Legal(cfg, x) && k <= |x.actions| && HeardOnce(cfg, x, k)
    ensures |x.states[k].shown| <= x.states[k].done
  {
    var s := x.states[k];
    RunKeepsInv(cfg, x, k);
    NumbersOf(cfg, s);
    hide Inv, Legal, Heard, FirstPart, Tally;
    forall m: u32
      ensures CountOf(s.shown, m) <= 1
    {
      if m < |s.items| {
        ShownAtMostAsHeard(cfg, x, k, m);
      } else {
        CountNone(s.shown, m);
      }
    }
    DistinctNumbers(s.shown);
    RangeSize(Numbers(s.shown), s.done);
  }

  lemma HeardBefore(cfg: Config, x: Execution, k: nat)
    requires |x.states| == |x.actions| + 1 && 0 < k <= |x.actions| && HeardOnce(cfg, x, k)
    ensures HeardOnce(cfg, x, k - 1)
  {
    hide HeardAt;
    var before := Heard(cfg, x, k - 1);
    forall p | p in before
      ensures before[p] == 1
    {
      assert p in Heard(cfg, x, k);
    }
  }

  /** The coordinator's count for the unreliable sink is the number of chunks it has shown, saturated. */
  lemma {:induction false} DrainedIsShown(cfg: Config, x: Execution, k: nat)
    requires Legal(cfg, x) && k <= |x.actions|
    ensures x.states[k].coord.unreliableDrained == Saturated(|x.states[k].shown|)
  {
    hide Inv, Can, After, ReadGuard, ValidConfig;
    if k > 0 {
      DrainedIsShown(cfg, x, k - 1);
      RunKeepsInv(cfg, x, k - 1);
      GuardHolds(cfg, x, k - 1);
      StepMovesCoord(cfg, x.states[k - 1], x.actions[k - 1]);
    }
  }

  lemma EmittedByOpenSink(cfg: Config, s: Sys)
    requires Inv(cfg, s) && EffectiveCount(s.coord).Some? && s.coord.unreliableDrained <= s.done
    ensures s.coord.lastEmitted <= s.done
  {
    SinkOf(cfg, s);
    hide SenderInv, NetInv, GroupsFit, AllSent, AllIn, RetransFrom, Outs, Src, EndInv, Ledger, NacksSent, Numbered, Tidy;
  }

  /** Heard no datagram twice, no more credits were returned than chunks were sent, whichever sinks are open. */
  lemma {:induction false} ReturnedAtMostSent(cfg: Config, x: Execution, k: nat)
    requires Legal(cfg, x) && k <= |x.actions| && HeardOnce(cfg, x, k)
    ensures x.states[k].coord.lastEmitted <= x.states[k].done
  {
    hide Inv, Can, After, ReadGuard, ValidConfig, HeardOnce, EffectiveCount;
    RunKeepsInv(cfg, x, k);
    if k > 0 {
      HeardBefore(cfg, x, k);
      ReturnedAtMostSent(cfg, x, k - 1);
      RunKeepsInv(cfg, x, k - 1);
      GuardHolds(cfg, x, k - 1);
      StepMovesCoord(cfg, x.states[k - 1], x.actions[k - 1]);
      if EffectiveCount(x.states[k].coord).Some? {
        DrainedIsShown(cfg, x, k);
        ShownAtMostSent(cfg, x, k);
        EmittedByOpenSink(cfg, x.states[k]);
      }
    }
  }
}
