/** A last chunk that the network loses is never asked for again, and its transfer never acknowledged:
    NACKs list only numbers that a later packet overtook, and the end of the transfer triggers none. */
module LastChunk {
  import opened Types
  import opened Messages
  import opened Sending
  import opened Reassembly
  import opened Assembly
  import opened Receiving
  import opened StreamTask
  import opened Protocol
  import opened Histories

  // ---------------------------------------------------------------- what a lost datagram leaves untouched

  ghost predicate NoNumber(ps: seq<Packet>, n: u32) {
    forall i :: 0 <= i < |ps| ==> ps[i].seqno != n
  }

  ghost predicate NoSlot(d: Deque, n: u32) {
    forall i :: 0 <= i < |d.slots| && d.slots[i].Payload? ==> d.slots[i].packet.seqno != n
  }

  ghost predicate NotAsked(commands: seq<SenderCommand>, toSender: seq<ManiMessage>, n: u32) {
    && (forall i :: 0 <= i < |commands| && commands[i].Nack? ==> n !in commands[i].sequenceNumbers)
    && (forall i :: 0 <= i < |toSender| && toSender[i].NackMessage? ==> n !in toSender[i].sequenceNumbers)
  }

  ghost predicate NotResent(frames: seq<ManiMessage>, n: u32) {
    forall i :: 0 <= i < |frames| && frames[i].Retrans? ==> frames[i].sequenceNumber != n
  }

  /** `p` has not come in, and nothing newer than its chunk has been sent: neither the chunk nor a
      request for it is anywhere behind the network. */
  ghost predicate Absent(cfg: Config, s: Sys, p: Packet) {
    && s.done <= p.seqno + 1
    && p !in s.datagrams
    && GroupsFit(Src(cfg, s.items), s.pool - {p}, s.groups)
    && NoNumber(s.reliableQueue, p.seqno)
    && NoSlot(s.deque, p.seqno) && |s.delivered| <= p.seqno
    && NotAsked(s.commands, s.toSender, p.seqno)
    && NotResent(s.toReceiver, p.seqno)
  }

  lemma InitAbsent(cfg: Config, p: Packet)
    ensures Absent(cfg, Init(cfg), p)
  {
  }

  // ---------------------------------------------------------------- sending

  lemma StartKeepsAbsent(cfg: Config, s: Sys, ts: u64, content: bytes, p: Packet)
    requires Can(cfg, s, StartSend(ts, content)) && Absent(cfg, s, p)
    ensures Absent(cfg, StartItem(cfg, s, ts, content), p)
  {
    var it := Item(content, Cut(cfg.limit, ts, cfg.compress(content)));
    SrcGrows(cfg, s.items, it, s.pool - {p}, s.groups);
    hide Cut, PacketsFor, Sendable, GroupsFit, Src, NoSlot, NoNumber, NotAsked, NotResent;
  }

  lemma PollKeepsAbsent(cfg: Config, s: Sys, accepted: nat, p: Packet)
    requires ValidConfig(cfg) && Inv(cfg, s) && Can(cfg, s, PollTheSend(accepted)) && Absent(cfg, s, p)
    requires Polled(cfg, s, accepted).done <= p.seqno + 1
    ensures Absent(cfg, Polled(cfg, s, accepted), p)
  {
    var t := Polled(cfg, s, accepted);
    PollFrame(cfg, s, accepted);
    PoolOfPoll(cfg, s, accepted);
    hide Inv, Polled, GroupsFit, Src, NoSlot, NoNumber, NotAsked, NotResent, NetInv;
    PoolGrows(Src(cfg, s.items), s.pool - {p}, t.pool - {p}, s.groups);
  }

  lemma {:induction false} AnswersLack(entries: Entries, numbers: seq<u32>, n: u32)
    requires n !in numbers
    ensures NotResent(Retransmissions(entries, numbers), n)
  {
    if numbers != [] {
      AnswersLack(entries, numbers[..|numbers| - 1], n);
    }
  }

  lemma NoRetrans(frames: seq<ManiMessage>, env: Env, n: u32)
    requires NotResent(frames, n)
    ensures NotResent(WrittenOf(env, frames), n)
  {
  }

  /** The sender's task resends nothing numbered `n` that it is not asked for. */
  lemma SenderResendsNot(cfg: Config, entries: Entries, t: Task, ev: Event, env: Env, n: u32)
    requires Local(ev) || ev.StreamEnds? || ev.HandleEnds? || ev.FromPeer?
    requires ev.FromPeer? && ev.message.NackMessage? ==> n !in ev.message.sequenceNumbers
    ensures NotResent(TakeStep(TaskConfig(cfg.id, cfg.senderBulk), entries, t, ev, env).1.written, n)
  {
    if ev.FromPeer? {
      MessageResendsNot(cfg, entries, t, ev.message, env, n);
    }
    hide OnMessage;
  }

  lemma MessageResendsNot(cfg: Config, entries: Entries, t: Task, m: ManiMessage, env: Env, n: u32)
    requires m.NackMessage? ==> n !in m.sequenceNumbers
    ensures NotResent(OnMessage(TaskConfig(cfg.id, cfg.senderBulk), entries, t, env, m).1.written, n)
  {
    hide Retransmissions, NotResent, WrittenOf;
    EmptyIsNoRetrans(n);
    SingleIsNoRetrans(CreditsUpdate(cfg.senderBulk), env, n);
    SingleIsNoRetrans(TransferEndAck, env, n);
    if m.NackMessage? {
      AnswersLack(entries, m.sequenceNumbers, n);
      NoRetrans(Retransmissions(entries, m.sequenceNumbers), env, n);
    }
  }

  lemma SingleIsNoRetrans(m: ManiMessage, env: Env, n: u32)
    requires !m.Retrans?
    ensures NotResent(WrittenOf(env, [m]), n)
  {
  }

  lemma EmptyIsNoRetrans(n: u32)
    ensures NotResent([], n)
  {
  }

  lemma ShowsKeepsAbsent(cfg: Config, s: Sys, t: Task, fx: Effects, rest: seq<ManiMessage>, ended: Option<nat>, p: Packet)
    requires Absent(cfg, s, p) && NotResent(fx.written, p.seqno)
    requires rest == s.toSender || (s.toSender != [] && rest == s.toSender[1..])
    ensures Absent(cfg, SenderShows(s, t, fx).(toSender := rest, ended := ended), p)
  {
    hide GroupsFit, Src, NoSlot, NoNumber;
  }

  lemma SenderKeepsAbsent(cfg: Config, s: Sys, a: Action, p: Packet)
    requires Can(cfg, s, a) && Absent(cfg, s, p)
    requires a.EndTheTransfer? || a.HandleEndsTheTransfer? || a.SenderTask? || a.SenderReads?
    ensures Absent(cfg, After(cfg, s, a), p)
  {
    hide TakeStep, Absent, NotResent, FinalSequenceNumber, NotAsked;
    var ev := if a.EndTheTransfer? then StreamEnds(FinalSequenceNumber(s.snd.counter), 0)
              else if a.HandleEndsTheTransfer? then HandleEnds(a.final, 0)
              else if a.SenderTask? then a.event else FromPeer(s.toSender[0]);
    var rest := if a.SenderReads? then s.toSender[1..] else s.toSender;
    HeadNotAsked(cfg, s, p);
    var ended := After(cfg, s, a).ended;
    SenderResendsNot(cfg, s.snd.entries, s.senderTask, ev, a.env, p.seqno);
    var (t, fx) := TakeStep(TaskConfig(cfg.id, cfg.senderBulk), s.snd.entries, s.senderTask, ev, a.env);
    ShowsKeepsAbsent(cfg, s, t, fx, rest, ended, p);
  }

  lemma HeadNotAsked(cfg: Config, s: Sys, p: Packet)
    requires Absent(cfg, s, p)
    ensures s.toSender != [] && s.toSender[0].NackMessage? ==> p.seqno !in s.toSender[0].sequenceNumbers
  {
  }

  // ---------------------------------------------------------------- receiving

  /** Without `p` its chunk is not emitted. */
  lemma ReassemblyKeepsAbsent(cfg: Config, s: Sys, p: Packet)
    requires ValidConfig(cfg) && Inv(cfg, s) && s.datagrams != [] && Absent(cfg, s, p)
    requires p.seqno < |s.items| ==> IsGenuine(Src(cfg, s.items), p)
    ensures Absent(cfg, After(cfg, s, Reassemble), p)
  {
    hide Inv, Receive, GroupsFit, Src, IsGenuine, EmittedWhole, ValidConfig, NetInv, ItemOk,
      NoSlot, NotAsked, NotResent, ValidSource, Bounded;
    var src, q := Src(cfg, s.items), s.datagrams[0];
    SourceIsValid(cfg, s);
    GenuineOnNetwork(cfg, s, q);
    ReceiveIsSafe(src, s.pool - {p}, cfg.groupCap, s.groups, q);
    var (groups, out) := Receive(cfg.groupCap, s.groups, q);
    if out.Some? {
      EmittedIsOther(cfg, s, p, out.value);
    }
    assert forall i :: 0 <= i < |s.datagrams[1..]| ==> s.datagrams[1..][i] == s.datagrams[i + 1];
  }

  lemma EmittedIsOther(cfg: Config, s: Sys, p: Packet, whole: Packet)
    requires p.seqno < |s.items| ==> IsGenuine(Src(cfg, s.items), p)
    requires EmittedWhole(Src(cfg, s.items), s.pool - {p}, whole)
    ensures whole.seqno != p.seqno && Opened(cfg, whole).seqno == whole.seqno
  {
    EmittedHasAll(Src(cfg, s.items), s.pool - {p}, whole, p);
    hide IsGenuine;
  }

  lemma EmittedHasAll(src: Source, pool: set<Packet>, whole: Packet, p: Packet)
    requires EmittedWhole(src, pool, whole)
    ensures IsGenuine(src, p) && p.seqno == whole.seqno ==> p in pool
  {
    hide Part;
  }

  /** What a read of the reliable sink does with a packet of another chunk: the missing one is neither
      handed out nor asked for. */
  lemma ReadKeepsAbsent(cfg: Config, outs: seq<Packet>, d: Deque, delivered: seq<Packet>, q: Packet, n: u32)
    requires Good(d, delivered, outs) && Numbered(outs) && |outs| <= n + 1
    requires Genuine(q, outs) && q.seqno != n && Guard(cfg.variant, cfg.cap, d, q.seqno)
    requires NoSlot(d, n) && |delivered| <= n
    ensures var pushed := Pushed(cfg.variant, cfg.cap, d, q);
            var (e, packets) := Drained(pushed);
            NoSlot(e, n) && |delivered + packets| <= n && n !in MissingFrom(pushed, 0)
  {
    var pushed := Pushed(cfg.variant, cfg.cap, d, q);
    PushKeepsGood(cfg.variant, cfg.cap, d, delivered, q, outs);
    PushHasNoSlot(cfg, d, q, n);
    hide Pushed;
    DrainStopsBefore(pushed, delivered, outs, n);
    HolesAreBelowLast(pushed, delivered, outs);
  }

  lemma PushHasNoSlot(cfg: Config, d: Deque, q: Packet, n: u32)
    requires NoSlot(d, n) && q.seqno != n
    ensures NoSlot(Pushed(cfg.variant, cfg.cap, d, q), n)
  {
  }

  lemma DrainStopsBefore(d: Deque, delivered: seq<Packet>, outs: seq<Packet>, n: u32)
    requires Good(d, delivered, outs) && NoSlot(d, n) && |delivered| <= n
    ensures NoSlot(Drained(d).0, n) && |delivered + Drained(d).1| <= n
  {
    DrainedIs(d);
    var gap := n - d.cursor;
    if gap < |d.slots| {
      ReadStopsAtHole(d, gap);
    }
    hide Drained;
    var (e, o) := Drained(d);
    forall i | 0 <= i < |e.slots| && e.slots[i].Payload?
      ensures e.slots[i].packet.seqno != n
    {
      assert e.slots[i] == d.slots[|o| + i];
    }
  }

  /** A hole is overtaken, so its number is not the last one sent. */
  lemma HolesAreBelowLast(d: Deque, delivered: seq<Packet>, outs: seq<Packet>)
    requires Good(d, delivered, outs) && Numbered(outs)
    ensures forall n :: n in MissingFrom(d, 0) ==> n + 1 < |outs|
  {
    GoodIsBounded(d, delivered, outs);
    MissingFromLists(d, 0);
    hide MissingFrom;
    forall n | n in MissingFrom(d, 0)
      ensures n + 1 < |outs|
    {
      assert HoleAt(d, n) && d.slots[|d.slots| - 1].Payload?;
    }
  }

  lemma SinkReadKeepsAbsent(cfg: Config, s: Sys, p: Packet)
    requires Inv(cfg, s) && s.reliableQueue != [] && Guard(cfg.variant, cfg.cap, s.deque, s.reliableQueue[0].seqno)
    requires Absent(cfg, s, p)
    ensures Absent(cfg, SinkRead(cfg, s), p)
  {
    hide Inv, Outs, Pushed, Drained, MissingFrom, AfterCall, SinkRead, Guard, GroupsFit, Src, Good, Genuine, CreditsInCommands, Numbered;
    QueueHead(cfg, s);
    SinkOf(cfg, s);
    var q := s.reliableQueue[0];
    GoodOf(cfg, s);
    ReadKeepsAbsent(cfg, Outs(cfg, s.items, s.done), s.deque, s.delivered, q, p.seqno);
    SinkReadIs(cfg, s);
    var pushed := Pushed(cfg.variant, cfg.cap, s.deque, q);
    var (e, packets) := Drained(pushed);
    var (c, credits) := AfterCall(CoordBulk(cfg), s.coord, RecordReliable(|packets|));
    HandedOutKeepsAbsent(cfg, s, e, packets, c, NackCommand(MissingFrom(pushed, 0)) + Announce(credits), p);
  }

  lemma GoodOf(cfg: Config, s: Sys)
    requires Inv(cfg, s)
    ensures Bounded(s.items, s.done) && Good(s.deque, s.delivered, Outs(cfg, s.items, s.done))
  {
    SinkOf(cfg, s);
    hide Inv, Good, CoordInv, Numbered, Outs, Bounded;
  }

  lemma HandedOutKeepsAbsent(cfg: Config, s: Sys, d: Deque, packets: seq<Packet>, c: Coord, commands: seq<SenderCommand>, p: Packet)
    requires s.reliableQueue != [] && Absent(cfg, s, p)
    requires NoSlot(d, p.seqno) && |s.delivered + packets| <= p.seqno && NotAsked(commands, [], p.seqno)
    ensures Absent(cfg, HandedOut(s, d, packets, c, commands), p)
  {
    hide GroupsFit, Src, NoSlot, NotResent;
    CommandedLacks(s, commands, p.seqno);
    hide Commanded;
    CommandedQueues(s, commands);
  }

  lemma CommandedLacks(s: Sys, commands: seq<SenderCommand>, n: u32)
    requires NotAsked(s.commands, s.toSender, n) && NotAsked(commands, [], n)
    ensures NotAsked(Commanded(s, commands).commands, s.toSender, n)
  {
    hide CreditsInCommands;
  }

  lemma CommandedKeepsAbsent(cfg: Config, s: Sys, commands: seq<SenderCommand>, p: Packet)
    requires Absent(cfg, s, p) && NotAsked(commands, [], p.seqno)
    ensures Absent(cfg, Commanded(s, commands), p)
  {
    hide GroupsFit, Src, NoSlot, NoNumber, NotResent;
    CommandedLacks(s, commands, p.seqno);
    CommandedQueues(s, commands);
    hide Commanded, NotAsked;
  }

  /** End of file and answered ends: the deque stays, and only credits are announced. */
  lemma EofKeepsAbsent(cfg: Config, s: Sys, r: RecvState, credits: nat, p: Packet)
    requires Absent(cfg, s, p) && r.deque == s.deque && (r.commands == [] || r.commands == Announce(credits))
    ensures Absent(cfg, AfterRecv(s, r), p)
  {
    hide GroupsFit, Src, NoSlot, NoNumber, NotResent, Commanded, NotAsked, Announce;
    AnnouncesAskNothing(p.seqno);
    CommandedKeepsAbsent(cfg, s, r.commands, p);
  }

  lemma CoordKeepsAbsent(cfg: Config, s: Sys, call: Call, p: Packet)
    requires Absent(cfg, s, p)
    ensures Absent(cfg, AfterCoord(cfg, s, call), p)
  {
    hide GroupsFit, Src, NoSlot, NoNumber, NotResent, Commanded, NotAsked, Announce, AfterCall;
    AnnouncesAskNothing(p.seqno);
    CommandedKeepsAbsent(cfg, s, Announce(AfterCall(CoordBulk(cfg), s.coord, call).1), p);
  }

  lemma QueuesShrink(cfg: Config, s: Sys, p: Packet)
    requires Absent(cfg, s, p)
    ensures s.reliableQueue != [] ==> Absent(cfg, s.(reliableQueue := s.reliableQueue[1..]), p)
    ensures forall shown, rest :: Absent(cfg, s.(shown := shown, unreliableQueue := rest), p)
    ensures forall end, requests :: Absent(cfg, s.(pendingEnd := end, endRequests := requests), p)
    ensures forall dropped :: Absent(cfg, s.(reliableDropped := dropped), p)
    ensures forall closed :: Absent(cfg, s.(closedSignaled := closed), p)
  {
    hide GroupsFit, Src, NoSlot, NotResent, NotAsked;
  }

  lemma EofIs(cfg: RecvConfig, st: RecvState)
    requires st.commands == []
    ensures var r, credits := SignalEof(cfg, st), AfterCall(cfg.bulk, st.coord, CloseReliable).1;
            r.deque == st.deque && (r.commands == [] || r.commands == Announce(credits))
  {
    hide AfterCall;
    assert forall credits :: [] + Announce(credits) == Announce(credits);
  }

  lemma SinkKeepsAbsent(cfg: Config, s: Sys, a: Action, p: Packet)
    requires Inv(cfg, s) && Can(cfg, s, a) && ReadGuard(cfg, s, a) && Absent(cfg, s, p)
    requires SinkStep(a) || a.UnreliableReads? || a.UnreliableDrains?
    ensures Absent(cfg, After(cfg, s, a), p)
  {
    hide Inv, SinkRead, AfterCall, AfterRecv, AfterCoord, Absent, Guard, SignalEof, Announce;
    var credits := AfterCall(CoordBulk(cfg), s.coord, CloseReliable).1;
    QueuesShrink(cfg, s, p);
    if a.SinkReads? && !s.reliableDropped {
      SinkReadKeepsAbsent(cfg, s, p);
    } else if a.SinkFinishes? {
      var asked := RecvStateOf(s).(pendingEnd := None, replies := [] + [s.pendingEnd.value.reply]);
      EofIs(RecvConfigOf(cfg), asked);
      EofKeepsAbsent(cfg, s, Finish(RecvConfigOf(cfg), RecvStateOf(s)), credits, p);
    } else if a.SinkEof? {
      EofIs(RecvConfigOf(cfg), RecvStateOf(s));
      EofKeepsAbsent(cfg, s, SignalEof(RecvConfigOf(cfg), RecvStateOf(s)), credits, p);
    } else if a.SinkCloses? {
      CoordKeepsAbsent(cfg, s, CloseReliable, p);
      QueuesShrink(cfg, AfterCoord(cfg, s, CloseReliable), p);
    } else if a.UnreliableCloses? {
      CoordKeepsAbsent(cfg, s, CloseUnreliable, p);
    } else if a.UnreliableReads? {
      CoordKeepsAbsent(cfg, s, RecordUnreliable(1), p);
      QueuesShrink(cfg, AfterCoord(cfg, s, RecordUnreliable(1)), p);
    } else if a.UnreliableDrains? {
      assert s.(unreliableQueue := s.unreliableQueue[1..]) == s.(shown := s.shown, unreliableQueue := s.unreliableQueue[1..]);
    }
  }

  lemma AnnouncesAskNothing(n: u32)
    ensures forall credits :: NotAsked(Announce(credits), [], n)
    ensures NotAsked([], [], n)
  {
  }

  // ---------------------------------------------------------------- the receiver's task

  lemma ReceiverKeepsAbsent(cfg: Config, s: Sys, a: Action, p: Packet)
    requires Inv(cfg, s) && Can(cfg, s, a) && ReceiverStep(a) && Absent(cfg, s, p)
    ensures Absent(cfg, After(cfg, s, a), p)
  {
    hide Inv, TakeStep, ReceiverSays, Absent, After, Can, Enabled;
    ReceiverFacts(cfg, s);
    ReceiverStepIs(cfg, s, a);
    ReceiverIsEnabled(cfg, s, a);
    var ev := ReceiverEvent(cfg, s, a);
    ReceiverHandles(cfg, s.receiverTask, ev, a.env);
    var (t, fx) := TakeStep(TaskConfig(cfg.id, cfg.bulk), map[], s.receiverTask, ev, a.env);
    var u := After(cfg, s, a);
    ReceiverNextKeepsAbsent(cfg, s, ev, t, fx, u.commands, u.lost, u.toReceiver, u.solicited, u.answered, p);
  }

  lemma ReceiverNextKeepsAbsent(cfg: Config, s: Sys, ev: Event, t: Task, fx: Effects, commands: seq<SenderCommand>, lost: nat,
                                rest: seq<ManiMessage>, solicited: nat, answered: nat, p: Packet)
    requires Absent(cfg, s, p) && ReceiverSays(cfg, ev, t, fx)
    requires commands == s.commands || (s.commands != [] && commands == s.commands[1..])
    requires ev.FromSink? ==> s.commands != [] && ev.command == s.commands[0]
    requires rest == s.toReceiver || (s.toReceiver != [] && rest == s.toReceiver[1..])
    requires ev.FromPeer? ==> s.toReceiver != [] && ev.message == s.toReceiver[0]
    ensures Absent(cfg, ReceiverNext(s, t, fx, commands, lost, rest, solicited, answered), p)
  {
    hide GroupsFit, Src, NoSlot, NoNumber, CreditsInFrames, CreditsInCommands, NoStart;
  }

  // ---------------------------------------------------------------- every run

  lemma StepKeepsAbsent(cfg: Config, s: Sys, a: Action, p: Packet)
    requires ValidConfig(cfg) && Inv(cfg, s) && Can(cfg, s, a) && ReadGuard(cfg, s, a) && Absent(cfg, s, p)
    requires a != Deliver(p) && After(cfg, s, a).done <= p.seqno + 1
    requires p.seqno < |s.items| ==> IsGenuine(Src(cfg, s.items), p)
    ensures Absent(cfg, After(cfg, s, a), p)
  {
    hide Inv, TakeStep, Receive, Reassembled, StartItem, Polled, AfterCoord, SinkRead, AfterRecv, SignalEof, Finish,
      ReadGuard, ValidConfig, IsGenuine, Src, GroupsFit, NoSlot, NoNumber, NotAsked, NotResent;
    if a.StartSend? {
      StartKeepsAbsent(cfg, s, a.timestamp, a.content, p);
    } else if a.PollTheSend? {
      PollKeepsAbsent(cfg, s, a.accepted, p);
    } else if a.EndTheTransfer? || a.HandleEndsTheTransfer? || a.SenderTask? || a.SenderReads? {
      SenderKeepsAbsent(cfg, s, a, p);
    } else if a.Reassemble? {
      ReassemblyKeepsAbsent(cfg, s, p);
    } else if ReceiverStep(a) {
      ReceiverKeepsAbsent(cfg, s, a, p);
    } else if SinkStep(a) || a.UnreliableReads? || a.UnreliableDrains? {
      SinkKeepsAbsent(cfg, s, a, p);
    }
  }

  lemma GenuineEarlier(cfg: Config, items: seq<Item>, later: seq<Item>, p: Packet)
    requires items <= later && IsGenuine(Src(cfg, later), p) && p.seqno < |items|
    ensures IsGenuine(Src(cfg, items), p)
  {
    hide Part;
    var i: nat :| IsPart(Src(cfg, later), p, i);
    assert later[p.seqno] == items[p.seqno];
    assert IsPart(Src(cfg, items), p, i);
  }

  ghost predicate NotDelivered(x: Execution, k: nat, p: Packet)
    requires k <= |x.actions|
  {
    forall i :: 0 <= i < k ==> x.actions[i] != Deliver(p)
  }

  lemma {:induction false} RunKeepsAbsent(cfg: Config, x: Execution, i: nat, k: nat, p: Packet)
    requires Legal(cfg, x) && i <= k <= |x.actions| && NotDelivered(x, k, p)
    requires x.states[k].done <= p.seqno + 1 && IsGenuine(Src(cfg, x.states[k].items), p)
    ensures Absent(cfg, x.states[i], p)
  {
    hide Inv, Can, After, ReadGuard, ValidConfig, Absent, IsGenuine, Src;
    if i == 0 {
      InitAbsent(cfg, p);
    } else {
      RunKeepsAbsent(cfg, x, i - 1, k, p);
      RunKeepsInv(cfg, x, i - 1);
      GuardHolds(cfg, x, i - 1);
      RunGrows(cfg, x, i - 1, k);
      RunGrows(cfg, x, i, k);
      if p.seqno < |x.states[i - 1].items| {
        GenuineEarlier(cfg, x.states[i - 1].items, x.states[k].items, p);
      }
      StepKeepsAbsent(cfg, x.states[i - 1], x.actions[i - 1], p);
    }
  }

  /** If some datagram of the last chunk sent never came in over the network, then in no run has the
      reliable sink handed the chunk out, asked for it or been resent any of it, and the announced end of
      the whole transfer is not acknowledged. */
  lemma LostLastChunkIsNeverAcked(cfg: Config, x: Execution, k: nat, j: nat)
    requires Legal(cfg, x) && k <= |x.actions| && 0 < x.states[k].done <= |x.states[k].items| < TWO32
    requires j < PartCount(x.states[k].items[x.states[k].done - 1].chunk)
    requires NotDelivered(x, k, Part(cfg.id, x.states[k].done - 1, x.states[k].items[x.states[k].done - 1].chunk, j))
    ensures var s := x.states[k];
            && |s.delivered| < s.done
            && NotAsked(s.commands, s.toSender, s.done - 1) && NotResent(s.toReceiver, s.done - 1)
            && (s.ended == Some(s.done) ==> !s.acked)
  {
    var s := x.states[k];
    var n: u32 := s.done - 1;
    var p := Part(cfg.id, n, s.items[n].chunk, j);
    ListIsGenuine(cfg, s.items, n, j);
    PartIsListed(cfg, s.items, n, j);
    RunKeepsAbsent(cfg, x, k, k, p);
    RunKeepsInv(cfg, x, k);
    AckedIsDelivered(cfg, s);
    hide Inv, Legal, GroupsFit, Src, IsGenuine, NotAsked, NotResent, NoSlot, NotDelivered;
    PartsAreNumbered(cfg.id, n, s.items[n].chunk);
  }

  lemma PartIsListed(cfg: Config, items: seq<Item>, n: u32, j: nat)
    requires n < |items| && j < PartCount(items[n].chunk)
    ensures PartsList(cfg.id, n, items[n].chunk)[j] == Part(cfg.id, n, items[n].chunk, j)
  {
  }
}
