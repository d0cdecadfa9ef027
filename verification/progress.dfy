/** What a Dual transfer must do, over every run of the composed system: ask for what is missing, return and
    grant credits, and acknowledge a transfer whose chunks have all been handed out. */
module Progress {
  import opened Types
  import opened Messages
  import opened Sending
  import opened Reassembly
  import opened Assembly
  import opened Receiving
  import opened StreamTask
  import opened Protocol
  import opened Histories

  // ---------------------------------------------------------------- asking for what is missing

  /** The number a step adds to those the reliable sink has stored. */
  ghost function StoredAt(cfg: Config, s: Sys, a: Action): set<u32>
    requires Can(cfg, s, a)
  {
    if a.SinkReads? && !s.reliableDropped && |s.deque.slots| < cfg.cap then {s.reliableQueue[0].seqno} else {}
  }

  /** Every number the reliable sink has stored in the first `k` steps. */
  ghost function Stored(cfg: Config, x: Execution, k: nat): set<u32>
    requires IsExecution(cfg, x) && k <= |x.actions|
  {
    if k == 0 then {} else
    assert StepAt(cfg, x, k - 1);
    Stored(cfg, x, k - 1) + StoredAt(cfg, x.states[k - 1], x.actions[k - 1])
  }

  /** The two states agree on the deque and on the credits granted on request. */
  ghost predicate SameDeque(s: Sys, t: Sys) {
    t.deque == s.deque && t.solicited == s.solicited
  }

  /** Only a packet taken in by the reliable sink moves its deque, and only a request answered the granted
      credits. */
  lemma MostlyStays(cfg: Config, s: Sys, a: Action)
    requires Can(cfg, s, a) && !a.ReceiverReads? && (!a.SinkReads? || s.reliableDropped)
    ensures SameDeque(s, After(cfg, s, a))
  {
    if SenderStep(a) {
      SenderLeavesDeque(cfg, s, a);
    } else if SinkStep(a) {
      SinkLeavesDeque(cfg, s, a);
    } else {
      RestLeavesDeque(cfg, s, a);
    }
    hide Can, After, SenderStep, SinkStep;
  }

  lemma SenderLeavesDeque(cfg: Config, s: Sys, a: Action)
    requires Can(cfg, s, a) && SenderStep(a)
    ensures SameDeque(s, After(cfg, s, a))
  {
    hide TakeStep, PollSend, FinalSequenceNumber;
  }

  lemma RecvLeaves(s: Sys, r: RecvState)
    ensures AfterRecv(s, r).deque == r.deque && AfterRecv(s, r).solicited == s.solicited
  {
    CommandedQueues(s, r.commands);
    hide Commanded;
  }

  lemma SinkLeavesDeque(cfg: Config, s: Sys, a: Action)
    requires Can(cfg, s, a) && SinkStep(a) && (!a.SinkReads? || s.reliableDropped)
    ensures SameDeque(s, After(cfg, s, a))
  {
    hide AfterRecv, AfterCoord, AfterCall, EndReached;
    if a.SinkFinishes? {
      RecvLeaves(s, Finish(RecvConfigOf(cfg), RecvStateOf(s)));
    } else if a.SinkEof? {
      RecvLeaves(s, SignalEof(RecvConfigOf(cfg), RecvStateOf(s)));
    } else if a.SinkCloses? {
      CoordQueues(cfg, s, CloseReliable);
    } else if a.UnreliableCloses? {
      CoordQueues(cfg, s, CloseUnreliable);
    }
  }

  lemma RestLeavesDeque(cfg: Config, s: Sys, a: Action)
    requires Can(cfg, s, a) && !SenderStep(a) && !SinkStep(a) && !a.ReceiverReads?
    ensures SameDeque(s, After(cfg, s, a))
  {
    hide TakeStep, Receive, Sendable, PacketsFor, Cut, CreditsInFrames, CreditsInCommands, AfterCoord;
    if a.UnreliableReads? {
      CoordQueues(cfg, s, RecordUnreliable(1));
    }
  }

  lemma ReadIsDrained(cfg: Config, s: Sys)
    requires s.reliableQueue != []
    ensures SinkRead(cfg, s).deque == Drained(Pushed(cfg.variant, cfg.cap, s.deque, s.reliableQueue[0])).0
  {
    SinkReadIs(cfg, s);
    hide Pushed, Drained, MissingFrom, AfterCall, NackCommand, Announce, CreditsInCommands, SinkRead;
  }

  lemma PushedIsTidy(cfg: Config, s: Sys)
    requires Inv(cfg, s) && s.reliableQueue != [] && Guard(cfg.variant, cfg.cap, s.deque, s.reliableQueue[0].seqno)
    ensures var pushed := Pushed(cfg.variant, cfg.cap, s.deque, s.reliableQueue[0]);
            Tidy(pushed) && pushed.cursor == s.deque.cursor == |s.delivered| && pushed.cursor + |pushed.slots| < TWO32
  {
    QueueHead(cfg, s);
    SinkOf(cfg, s);
    hide Inv, Outs, Pushed, CoordInv, Guard, Numbered, Genuine;
    var outs, p := Outs(cfg, s.items, s.done), s.reliableQueue[0];
    PushKeepsGood(cfg.variant, cfg.cap, s.deque, s.delivered, p, outs);
    PushLeavesCursor(cfg.variant, cfg.cap, s.deque, p);
    GoodIsTidy(Pushed(cfg.variant, cfg.cap, s.deque, p), s.delivered, outs);
    hide Tidy;
  }

  lemma DequeStays(cfg: Config, s: Sys, a: Action)
    requires Can(cfg, s, a) && (!a.SinkReads? || s.reliableDropped)
    ensures After(cfg, s, a).deque == s.deque
  {
    if a.ReceiverReads? {
      hide TakeStep, CreditsInFrames, CreditsInCommands;
    } else {
      hide Can, After;
      MostlyStays(cfg, s, a);
    }
  }

  /** The deque holds what was stored and not yet handed out. */
  lemma {:induction false} RunTracksStored(cfg: Config, x: Execution, k: nat)
    requires Legal(cfg, x) && k <= |x.actions|
    ensures Tracks(x.states[k].deque, Stored(cfg, x, k))
  {
    hide Inv, Can, After, ReadGuard, ValidConfig, Tracks, StoredAt;
    if k == 0 {
      NothingStored(cfg);
    } else {
      RunTracksStored(cfg, x, k - 1);
      RunKeepsInv(cfg, x, k - 1);
      GuardHolds(cfg, x, k - 1);
      StepKeepsStored(cfg, x.states[k - 1], x.actions[k - 1], Stored(cfg, x, k - 1));
    }
  }

  lemma NothingStored(cfg: Config)
    ensures Tracks(Init(cfg).deque, {})
  {
  }

  lemma StepKeepsStored(cfg: Config, s: Sys, a: Action, stored: set<u32>)
    requires Inv(cfg, s) && Can(cfg, s, a) && ReadGuard(cfg, s, a) && Tracks(s.deque, stored)
    ensures Tracks(After(cfg, s, a).deque, stored + StoredAt(cfg, s, a))
  {
    hide Inv, Tracks, Pushed, Drained, SinkRead, Guard, Tidy, EndReached, TakeStep;
    if a.SinkReads? && !s.reliableDropped {
      var p := s.reliableQueue[0];
      PushKeepsTracks(cfg.variant, cfg.cap, s.deque, p, stored);
      PushedIsTidy(cfg, s);
      ReadKeepsTracks(Pushed(cfg.variant, cfg.cap, s.deque, p), stored + StoredAt(cfg, s, a));
      ReadIsDrained(cfg, s);
    } else {
      DequeStays(cfg, s, a);
      assert stored + {} == stored;
    }
  }

  /** The reliable sink asks for what is missing: whenever it reads a packet, it sends a NACK if and only if a
      chunk it has not handed out was overtaken by one it has stored by then, and the NACK lists exactly
      those chunks. */
  lemma SinkAsks(cfg: Config, x: Execution, k: nat)
    requires Legal(cfg, x) && k < |x.actions| && x.actions[k].SinkReads?
    requires !x.states[k].reliableDropped && x.states[k].receiverTask.status.Running?
    ensures var s, t := x.states[k], x.states[k + 1];
            && s.commands <= t.commands
            && Asks(t.commands[|s.commands|..], |s.delivered|, Stored(cfg, x, k + 1))
  {
    hide Inv, Can, ReadGuard, After, Tracks, Asks, StoredAt, ValidConfig;
    RunTracksStored(cfg, x, k);
    RunKeepsInv(cfg, x, k);
    GuardHolds(cfg, x, k);
    StepAsks(cfg, x.states[k], Stored(cfg, x, k));
  }

  lemma StepAsks(cfg: Config, s: Sys, stored: set<u32>)
    requires Inv(cfg, s) && Can(cfg, s, SinkReads) && ReadGuard(cfg, s, SinkReads) && Tracks(s.deque, stored)
    requires !s.reliableDropped && s.receiverTask.status.Running?
    ensures var t := After(cfg, s, SinkReads);
            && s.commands <= t.commands
            && Asks(t.commands[|s.commands|..], |s.delivered|, stored + StoredAt(cfg, s, SinkReads))
  {
    hide Inv, Tracks, Pushed, Drained, Guard, Tidy, EndReached, Asks, MissingFrom, AfterCall, NackCommand, Announce, CreditsInCommands;
    var p := s.reliableQueue[0];
    PushKeepsTracks(cfg.variant, cfg.cap, s.deque, p, stored);
    PushedIsTidy(cfg, s);
    PacketAsks(RecvConfigOf(cfg), RecvStateOf(s), p, stored + StoredAt(cfg, s, SinkReads));
    var r := OnPacket(RecvConfigOf(cfg), RecvStateOf(s), p).0;
    assert SinkRead(cfg, s).commands == s.commands + r.commands;
  }

  // ---------------------------------------------------------------- returning and granting credits

  /** `n` chunks have been handed out by every sink that is still open, and there is one. */
  ghost predicate HandedOutByAll(s: Sys, n: nat) {
    && (!s.coord.reliableClosed ==> n <= |s.delivered|)
    && (!s.coord.unreliableClosed ==> n <= |s.shown|)
    && !(s.coord.reliableClosed && s.coord.unreliableClosed)
  }

  /** Credits come back: all that every open sink has handed out has been returned, but for less than one
      batch. */
  lemma CreditsComeBack(cfg: Config, x: Execution, k: nat, n: nat)
    requires Legal(cfg, x) && k <= |x.actions| && n < TWO64
    ensures HandedOutByAll(x.states[k], n) ==> n < x.states[k].coord.lastEmitted + CoordBulk(cfg)
  {
    RunKeepsInv(cfg, x, k);
    DrainedIsShown(cfg, x, k);
    var s := x.states[k];
    SinkOf(cfg, s);
    hide Inv, Legal, Outs, CoordInv, Good, Numbered;
    InvKeepsUp(CoordBulk(cfg), s.coord, n);
  }

  /** Requests for credits the receiver's task has answered in the first `k` steps. */
  ghost function Granted(x: Execution, k: nat): nat
    requires |x.states| == |x.actions| + 1 && k <= |x.actions|
  {
    if k == 0 then 0 else Granted(x, k - 1) + if Grants(x.states[k - 1], x.actions[k - 1]) then 1 else 0
  }

  ghost predicate Grants(s: Sys, a: Action) {
    a.ReceiverReads? && a.env.writes >= 1 && s.toReceiver != [] && s.toReceiver[0].CreditsRequest?
  }

  lemma ReadSolicits(cfg: Config, s: Sys, env: Env)
    requires Can(cfg, s, ReceiverReads(env)) && s.receiverTask.role == ReceiverRole(true, 0)
    ensures After(cfg, s, ReceiverReads(env)).solicited == s.solicited + if Grants(s, ReceiverReads(env)) then cfg.bulk else 0
  {
    OneFrame(env, TransferEndAck);
    OneFrame(env, CreditsUpdate(cfg.bulk));
    NoFrames();
    hide WrittenOf, IsEmptyTransfer, Retransmissions, CreditsInFrames, CreditsInCommands, ReceiverShows;
  }

  lemma OthersDoNotSolicit(cfg: Config, s: Sys, a: Action)
    requires Can(cfg, s, a) && !a.ReceiverReads?
    ensures After(cfg, s, a).solicited == s.solicited
  {
    hide Can, After;
    if a.SinkReads? && !s.reliableDropped {
      ReadDoesNotSolicit(cfg, s);
    } else {
      MostlyStays(cfg, s, a);
    }
  }

  lemma ReadDoesNotSolicit(cfg: Config, s: Sys)
    requires Can(cfg, s, SinkReads) && !s.reliableDropped
    ensures After(cfg, s, SinkReads).solicited == s.solicited
  {
    hide OnPacket, AfterRecv, EndReached;
    RecvLeaves(s, OnPacket(RecvConfigOf(cfg), RecvStateOf(s), s.reliableQueue[0]).0);
  }

  /** The credits granted on request are one batch for every answered request. */
  lemma {:induction false} SolicitedIsGranted(cfg: Config, x: Execution, k: nat)
    requires Legal(cfg, x) && k <= |x.actions|
    ensures x.states[k].solicited == cfg.bulk * Granted(x, k)
  {
    hide Inv, Can, After, ReadGuard, ValidConfig, Grants;
    if k > 0 {
      SolicitedIsGranted(cfg, x, k - 1);
      RunKeepsInv(cfg, x, k - 1);
      GuardHolds(cfg, x, k - 1);
      var s, a := x.states[k - 1], x.actions[k - 1];
      ReceiverFacts(cfg, s);
      if a.ReceiverReads? {
        ReadSolicits(cfg, s, a.env);
      } else {
        OthersDoNotSolicit(cfg, s, a);
        OnlyReadsGrant(s, a);
      }
      assert cfg.bulk * (Granted(x, k - 1) + 1) == cfg.bulk * Granted(x, k - 1) + cfg.bulk;
    }
  }

  lemma OnlyReadsGrant(s: Sys, a: Action)
    ensures !a.ReceiverReads? ==> !Grants(s, a)
  {
  }

  // ---------------------------------------------------------------- acknowledging a finished transfer

  /** An end request in the sink's hands is answered as soon as, and not before, everything it covers has
      been handed out. */
  lemma EndIsAnsweredIff(cfg: Config, x: Execution, k: nat)
    requires Legal(cfg, x) && k <= |x.actions|
    requires x.states[k].pendingEnd.Some? && !x.states[k].reliableDropped
    ensures var s := x.states[k];
            s.ended.Some? && (Can(cfg, s, SinkFinishes) <==> s.ended.value <= |s.delivered|)
  {
    RunKeepsInv(cfg, x, k);
    PendingCovers(cfg, x.states[k]);
    hide Inv, Legal;
  }

  lemma PendingCovers(cfg: Config, s: Sys)
    requires Inv(cfg, s)
    ensures s.deque.cursor == |s.delivered| && s.done < TWO32
    ensures s.pendingEnd.Some? ==> s.ended.Some? && s.pendingEnd.value.finalSequenceNumber + 1 == s.ended.value
  {
    hide SenderInv, NetInv, GroupsFit, AllSent, AllIn, RetransFrom, Outs, Src, Ledger, NacksSent, CoordInv, Tidy, Genuine;
  }

  /** Possible actions, one after the other, from `s` to `t`. */
  ghost predicate Leads(cfg: Config, s: Sys, actions: seq<Action>, t: Sys)
    decreases |actions|
  {
    if actions == [] then s == t
    else Can(cfg, s, actions[0]) && Leads(cfg, After(cfg, s, actions[0]), actions[1..], t)
  }

  /** Everything sent has been handed out, nothing is on its way, and both tasks are running. */
  ghost predicate AllQuiet(s: Sys) {
    && s.ended == None && s.snd.inFlight == None && !s.reliableDropped
    && s.senderTask.status.Running? && !s.senderTask.handleDropped && s.receiverTask.status.Running?
    && s.toReceiver == [] && s.toSender == [] && s.endRequests == [] && s.pendingEnd == None && s.answered == 0
    && |s.delivered| == s.done
  }

  /** `end`, its message read, taken by the sink, answered, acknowledged and reported; an empty transfer
      never gets to the sink. */
  function Ending(env: Env, empty: bool): seq<Action> {
    if empty then [EndTheTransfer(env), ReceiverReads(env), SenderReads(env)]
    else [EndTheTransfer(env), ReceiverReads(env), SinkTakesEnd, SinkFinishes, ReceiverAcks(env), SenderReads(env)]
  }

  /** The sender waits for the acknowledgement, both tasks run, and the sink is there. */
  ghost predicate Waiting(s: Sys) {
    && s.senderTask.role == SenderRole(Some(0)) && s.senderTask.status.Running? && !s.senderTask.handleDropped
    && s.receiverTask.role == ReceiverRole(true, 0) && s.receiverTask.status.Running?
    && !s.reliableDropped
  }

  lemma EndIsWritten(cfg: Config, s: Sys, env: Env)
    requires AllQuiet(s) && s.senderTask.role.SenderRole? && s.receiverTask.role == ReceiverRole(true, 0) && env.writes >= 2
    ensures Can(cfg, s, EndTheTransfer(env))
    ensures var t := After(cfg, s, EndTheTransfer(env));
            && Waiting(t) && t.toReceiver == [TransferEnd(FinalSequenceNumber(s.snd.counter)), CreditsUpdate(cfg.senderBulk)]
            && t == s.(senderTask := t.senderTask, toReceiver := t.toReceiver, ended := Some(s.done))
  {
    hide FinalSequenceNumber;
  }

  lemma EndIsForwarded(cfg: Config, s: Sys, final: u32, env: Env)
    requires Waiting(s) && s.toReceiver != [] && s.toReceiver[0] == TransferEnd(final) && WrapAdd(final, 1) != 0
    requires env.receiverThere && s.endRequests == []
    ensures Can(cfg, s, ReceiverReads(env))
    ensures var t := After(cfg, s, ReceiverReads(env));
            && Waiting(t) && t.endRequests == [EndRequest(final, 0)]
            && t == s.(receiverTask := t.receiverTask, toReceiver := t.toReceiver, endRequests := t.endRequests)
  {
    NoFrames();
    hide CreditsInFrames, CreditsInCommands;
  }

  lemma EmptyEndIsAnswered(cfg: Config, s: Sys, final: u32, env: Env)
    requires Waiting(s) && s.toReceiver != [] && s.toReceiver[0] == TransferEnd(final) && WrapAdd(final, 1) == 0
    requires env.writes >= 1 && s.toSender == []
    ensures Can(cfg, s, ReceiverReads(env))
    ensures var t := After(cfg, s, ReceiverReads(env)); t.senderTask == s.senderTask && t.toSender == [TransferEndAck]
  {
    hide CreditsInFrames, CreditsInCommands;
  }

  lemma EndIsTaken(cfg: Config, s: Sys, final: u32)
    requires Waiting(s) && s.endRequests == [EndRequest(final, 0)] && s.pendingEnd == None
    ensures Can(cfg, s, SinkTakesEnd)
    ensures After(cfg, s, SinkTakesEnd) == s.(pendingEnd := Some(EndRequest(final, 0)), endRequests := [])
  {
  }

  lemma EndIsAnswered(cfg: Config, s: Sys, final: u32)
    requires Waiting(s) && s.pendingEnd == Some(EndRequest(final, 0)) && s.deque.cursor > final
    ensures Can(cfg, s, SinkFinishes)
    ensures var t := After(cfg, s, SinkFinishes); Waiting(t) && t.answered == s.answered + 1 && t.toSender == s.toSender
  {
    FinishReplies(cfg, s);
    CommandedQueues(s, Finish(RecvConfigOf(cfg), RecvStateOf(s)).commands);
    hide Finish, Commanded;
  }

  lemma FinishReplies(cfg: Config, s: Sys)
    requires EndReached(RecvStateOf(s))
    ensures |Finish(RecvConfigOf(cfg), RecvStateOf(s)).replies| == 1
  {
    hide AfterCall, Announce, EndReached;
  }

  lemma AnswerIsWritten(cfg: Config, s: Sys, env: Env)
    requires Waiting(s) && s.answered > 0 && s.toSender == [] && env.writes >= 1
    ensures Can(cfg, s, ReceiverAcks(env))
    ensures var t := After(cfg, s, ReceiverAcks(env)); t.senderTask == s.senderTask && t.toSender == [TransferEndAck]
  {
    hide CreditsInFrames, CreditsInCommands;
  }

  lemma AckIsReported(cfg: Config, s: Sys, env: Env)
    requires s.senderTask.role == SenderRole(Some(0)) && s.senderTask.status.Running? && !s.senderTask.handleDropped
    requires s.toSender == [TransferEndAck]
    ensures Can(cfg, s, SenderReads(env)) && After(cfg, s, SenderReads(env)).acked
  {
    hide CreditsInFrames, CreditsInCommands;
  }

  lemma QuietFacts(cfg: Config, s: Sys)
    requires Inv(cfg, s)
    ensures s.senderTask.role.SenderRole? && s.receiverTask.role == ReceiverRole(true, 0)
    ensures s.snd.counter == s.done < TWO32
  {
    hide NetInv, GroupsFit, AllSent, SinkInv, AllIn, RetransFrom, Outs, Src, NacksSent, Ledger, IsWindow, FlightOk, ItemOk;
  }

  /** A finished transfer can always be closed: once every chunk sent has been handed out and nothing is on
      its way, `end` is acknowledged by the six steps of the handshake, three if nothing was sent. */
  lemma DeliveredTransferIsAcknowledged(cfg: Config, x: Execution, k: nat, env: Env)
    requires Legal(cfg, x) && k <= |x.actions| && AllQuiet(x.states[k]) && env.writes >= 2 && env.receiverThere
    ensures var s := x.states[k]; exists t :: Leads(cfg, s, Ending(env, s.done == 0), t) && t.acked
  {
    RunKeepsInv(cfg, x, k);
    var s := x.states[k];
    QuietFacts(cfg, s);
    PendingCovers(cfg, s);
    EndIsWritten(cfg, s, env);
    hide Inv, Legal, Waiting, Can, After;
    if s.done == 0 {
      EmptyEnds(cfg, s, env);
    } else {
      FullEnds(cfg, s, env);
    }
  }

  lemma EmptyEnds(cfg: Config, s: Sys, env: Env)
    requires Can(cfg, s, EndTheTransfer(env)) && env.writes >= 2
    requires var t := After(cfg, s, EndTheTransfer(env));
             Waiting(t) && t.toReceiver != [] && t.toReceiver[0] == TransferEnd(FinalSequenceNumber(0)) && t.toSender == []
    ensures exists t :: Leads(cfg, s, Ending(env, true), t) && t.acked
  {
    var s1 := After(cfg, s, EndTheTransfer(env));
    EmptyEndIsAnswered(cfg, s1, FinalSequenceNumber(0), env);
    var s2 := After(cfg, s1, ReceiverReads(env));
    EmptyEndLeaves(s1);
    hide Can, After, Waiting;
    AckIsReported(cfg, s2, env);
    var s3 := After(cfg, s2, SenderReads(env));
    LeadsThree(cfg, s, EndTheTransfer(env), s1, ReceiverReads(env), s2, SenderReads(env), s3);
  }

  lemma EmptyEndLeaves(s: Sys)
    requires Waiting(s)
    ensures s.senderTask.role == SenderRole(Some(0)) && s.senderTask.status.Running? && !s.senderTask.handleDropped
  {
  }

  lemma LeadsThree(cfg: Config, s: Sys, a: Action, s1: Sys, b: Action, s2: Sys, c: Action, s3: Sys)
    requires Can(cfg, s, a) && s1 == After(cfg, s, a)
    requires Can(cfg, s1, b) && s2 == After(cfg, s1, b)
    requires Can(cfg, s2, c) && s3 == After(cfg, s2, c)
    ensures Leads(cfg, s, [a, b, c], s3)
  {
    hide Can, After;
    assert [a, b, c][1..] == [b, c] && [b, c][1..] == [c] && [c][1..] == [];
    assert Leads(cfg, s3, [], s3);
    assert Leads(cfg, s2, [c], s3);
    assert Leads(cfg, s1, [b, c], s3);
  }

  lemma {:induction false} LeadsOn(cfg: Config, s: Sys, first: seq<Action>, t: Sys, second: seq<Action>, u: Sys)
    requires Leads(cfg, s, first, t) && Leads(cfg, t, second, u)
    ensures Leads(cfg, s, first + second, u)
    decreases |first|
  {
    hide Can, After;
    if first == [] {
      assert first + second == second;
    } else {
      LeadsOn(cfg, After(cfg, s, first[0]), first[1..], t, second, u);
      assert (first + second)[1..] == first[1..] + second;
    }
  }

  lemma FullEnds(cfg: Config, s: Sys, env: Env)
    requires Can(cfg, s, EndTheTransfer(env)) && env.writes >= 2 && env.receiverThere
    requires 0 < s.done < TWO32 && s.snd.counter == s.done && s.deque.cursor == s.done
    requires s.endRequests == [] && s.pendingEnd == None && s.toSender == []
    requires var t := After(cfg, s, EndTheTransfer(env));
             && Waiting(t) && t.toReceiver != [] && t.toReceiver[0] == TransferEnd(FinalSequenceNumber(s.snd.counter))
             && t == s.(senderTask := t.senderTask, toReceiver := t.toReceiver, ended := Some(s.done))
    ensures exists t :: Leads(cfg, s, Ending(env, false), t) && t.acked
  {
    hide Can, After, Waiting;
    var final: u32 := s.done - 1;
    var s1 := After(cfg, s, EndTheTransfer(env));
    EndIsForwarded(cfg, s1, final, env);
    var s2 := After(cfg, s1, ReceiverReads(env));
    EndIsTaken(cfg, s2, final);
    var s3 := After(cfg, s2, SinkTakesEnd);
    LeadsThree(cfg, s, EndTheTransfer(env), s1, ReceiverReads(env), s2, SinkTakesEnd, s3);
    EndIsWaiting(s2, final);
    EndIsAnswered(cfg, s3, final);
    var s4 := After(cfg, s3, SinkFinishes);
    AnswerIsWritten(cfg, s4, env);
    var s5 := After(cfg, s4, ReceiverAcks(env));
    EmptyEndLeaves(s4);
    AckIsReported(cfg, s5, env);
    var s6 := After(cfg, s5, SenderReads(env));
    LeadsThree(cfg, s3, SinkFinishes, s4, ReceiverAcks(env), s5, SenderReads(env), s6);
    LeadsOn(cfg, s, [EndTheTransfer(env), ReceiverReads(env), SinkTakesEnd], s3, [SinkFinishes, ReceiverAcks(env), SenderReads(env)], s6);
    assert Ending(env, false)
        == [EndTheTransfer(env), ReceiverReads(env), SinkTakesEnd] + [SinkFinishes, ReceiverAcks(env), SenderReads(env)];
  }

  lemma EndIsWaiting(s: Sys, final: u32)
    requires Waiting(s)
    ensures Waiting(s.(pendingEnd := Some(EndRequest(final, 0)), endRequests := []))
  {
  }
}
