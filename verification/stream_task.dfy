/** The loop behind one Mani stream, `ManiStreamTask` (src/mani/stream.rs): roles, NACK answering, the end-of-transfer
    handshake, and when the write side is closed. */
module StreamTask {
  import opened Types
  import opened Messages
  import opened Backpressure
  import opened Sending
  import opened Receiving

  /** `ackWaiter` names the end request whose caller is waiting for TransferEndAck. */
  datatype Role =
    | UnknownRole
    | SenderRole(ackWaiter: Option<nat>)
    | ReceiverRole(hasPipeline: bool, initialSequenceNumber: u32)

  /** `Finished` has closed the write side; `Exited` left the loop without doing so. */
  datatype Status = Running | Finished | Exited

  datatype Task = Task(role: Role, pendingAckCount: nat, isEnded: bool, handleDropped: bool, status: Status)

  datatype TaskConfig = TaskConfig(id: u64, bulk: nat)

  const NewTask := Task(UnknownRole, 0, false, false, Running)

  /** What the select can pick. */
  datatype Event =
    | HandleGone
    | StartTransfer(mode: TransferMode, compression: CompressionType, initial: u32, dataSize: Option<u64>)
    | HandleEnds(final: u32, token: nat)
    | SendPayload(payload: bytes)
    | StreamEnds(final: u32, token: nat)
    | SendTransferEndAck
    | FromSink(command: SenderCommand)
    | FromPeer(message: ManiMessage)
    | PeerClosed
    | Tick

  /** What the surroundings do during one event: how many frame writes succeed before one fails, whether
      the channel the event feeds has a receiver, and whether it is full. */
  datatype Env = Env(writes: nat, receiverThere: bool, full: bool)

  /** What one event makes visible outside the loop. */
  datatype Effects = Effects(
    written: seq<ManiMessage>,
    /** A final sequence number passed to the reliable sink. */
    forwarded: Option<u32>,
    /** A retransmitted packet put on the datagram channel. */
    injected: Option<Packet>,
    /** Credits added to the bank. */
    credits: nat,
    /** An end request whose TransferEndAck has arrived. */
    fired: Option<nat>,
    /** An end request refused at once. */
    refused: Option<nat>)

  const Nothing := Effects([], None, None, 0, None, None)

  function WrittenOf(env: Env, frames: seq<ManiMessage>): seq<ManiMessage> {
    if env.writes >= |frames| then frames else frames[..env.writes]
  }

  function Write(env: Env, frames: seq<ManiMessage>): Effects {
    Nothing.(written := WrittenOf(env, frames))
  }

  function ExitUnless(ok: bool, t: Task): Task {
    if ok then t else t.(status := Exited)
  }

  /** The state after writing `frames`, when a failed write ends the loop. */
  function WriteOrExit(env: Env, t: Task, frames: seq<ManiMessage>): (Task, Effects) {
    (ExitUnless(env.writes >= |frames|, t), Write(env, frames))
  }

  /** One Retrans per stored datagram of each requested number; numbers not in the map are skipped. */
  function Retransmissions(entries: Entries, numbers: seq<u32>): seq<ManiMessage> {
    if numbers == [] then [] else
    Retransmissions(entries, numbers[..|numbers| - 1]) + RetransmissionsOf(entries, numbers[|numbers| - 1])
  }

  function RetransmissionsOf(entries: Entries, n: u32): seq<ManiMessage> {
    if n in entries
    then seq(|entries[n]|, i requires 0 <= i < |entries[n]| => Retrans(n, entries[n][i].timestamp, entries[n][i].content))
    else []
  }

  function OnEndTransfer(cfg: TaskConfig, t: Task, env: Env, final: u32, token: nat): (Task, Effects) {
    if t.role.SenderRole? then
      var frames := [TransferEnd(final), CreditsUpdate(cfg.bulk)];
      (t.(role := SenderRole(Some(token))),
       Write(env, frames).(refused := if env.writes >= 2 then None else Some(token)))
    else (t, Nothing.(refused := Some(token)))
  }

  function OnTransferEnd(t: Task, env: Env, final: u32): (Task, Effects) {
    if !t.role.ReceiverRole? then (t, Nothing)
    else if IsEmptyTransfer(t.role.initialSequenceNumber, final) || !t.role.hasPipeline then
      WriteOrExit(env, t.(isEnded := true), [TransferEndAck])
    else if !env.receiverThere then (t.(status := Exited), Nothing)
    else (t.(pendingAckCount := t.pendingAckCount + 1), Nothing.(forwarded := Some(final)))
  }

  function OnRetrans(cfg: TaskConfig, t: Task, env: Env, s: u32, ts: u64, content: bytes): (Task, Effects) {
    if !t.role.ReceiverRole? then (t, Nothing)
    else if !env.receiverThere then (t.(status := Exited), Nothing)
    else if env.full then (t, Nothing)
    else (t, Nothing.(injected := Some(Packet(cfg.id, s, ts, content))))
  }

  function OnMessage(cfg: TaskConfig, entries: Entries, t: Task, env: Env, m: ManiMessage): (Task, Effects) {
    match m
    case TransferStart(mode, _, initial, _) =>
      (ExitUnless(env.receiverThere, t.(role := ReceiverRole(mode.Dual?, initial))), Nothing)
    case PayloadMessage(_) => (ExitUnless(env.receiverThere, t), Nothing)
    case NackMessage(numbers) =>
      if t.role.SenderRole? then WriteOrExit(env, t, Retransmissions(entries, numbers)) else (t, Nothing)
    case Retrans(s, ts, content) => OnRetrans(cfg, t, env, s, ts, content)
    case TransferEnd(final) => OnTransferEnd(t, env, final)
    case TransferEndAck =>
      if t.role.SenderRole? then (t.(role := SenderRole(None)), Nothing.(fired := t.role.ackWaiter)) else (t, Nothing)
    case CreditsUpdate(n) => (t, Nothing.(credits := n))
    case CreditsRequest => WriteOrExit(env, t, [CreditsUpdate(cfg.bulk)])
    case _ => (t, Nothing)
  }

  function CommandFrame(c: SenderCommand): ManiMessage {
    match c
    case UpdateCredits(n) => CreditsUpdate(n)
    case Nack(numbers) => NackMessage(numbers)
  }

  /** Handling one event, `entries` being the retransmission map at that moment. */
  function Handle(cfg: TaskConfig, entries: Entries, t: Task, ev: Event, env: Env): (Task, Effects) {
    match ev
    case HandleGone => (t.(handleDropped := true), Nothing)
    case StartTransfer(mode, compression, initial, dataSize) =>
      (if env.writes >= 1 then t.(role := SenderRole(None)) else t,
       Write(env, [TransferStart(mode, compression, initial, dataSize)]))
    case HandleEnds(final, token) => OnEndTransfer(cfg, t, env, final, token)
    case SendPayload(payload) => (t, Write(env, [PayloadMessage(payload)]))
    case StreamEnds(final, token) => OnEndTransfer(cfg, t, env, final, token)
    case SendTransferEndAck =>
      WriteOrExit(env, t.(pendingAckCount := SaturatingSub(t.pendingAckCount, 1), isEnded := true), [TransferEndAck])
    case FromSink(command) => WriteOrExit(env, t, [CommandFrame(command)])
    case FromPeer(m) => OnMessage(cfg, entries, t, env, m)
    case PeerClosed => (t.(status := Exited), Nothing)
    case Tick => WriteOrExit(env, t, [CreditsRequest])
  }

  /** Once the handle is dropped, its commands and the credit timer are no longer polled. */
  predicate Enabled(t: Task, ev: Event) {
    t.status.Running? && (t.handleDropped ==>
      ev.StreamEnds? || ev.SendTransferEndAck? || ev.FromSink? || ev.FromPeer? || ev.PeerClosed?)
  }

  /** The check at the top of the loop. */
  function TopOfLoop(t: Task): Task {
    if t.status.Running? && t.handleDropped && t.pendingAckCount == 0 && !(t.role.ReceiverRole? && !t.isEnded)
    then t.(status := Finished) else t
  }

  function TakeStep(cfg: TaskConfig, entries: Entries, t: Task, ev: Event, env: Env): (Task, Effects) {
    if Enabled(t, ev) then
      var (after, fx) := Handle(cfg, entries, t, ev, env);
      (TopOfLoop(after), fx)
    else (t, Nothing)
  }

  /** Everything made visible so far, oldest first. */
  datatype History = History(
    written: seq<ManiMessage>,
    forwarded: seq<u32>,
    injected: seq<Packet>,
    fired: seq<nat>,
    refused: seq<nat>,
    credits: nat)

  const NoHistory := History([], [], [], [], [], 0)

  function OptionSeq<T>(o: Option<T>): seq<T> {
    match o case None => [] case Some(x) => [x]
  }

  function Grown(h: History, fx: Effects): History {
    History(h.written + fx.written, h.forwarded + OptionSeq(fx.forwarded), h.injected + OptionSeq(fx.injected),
            h.fired + OptionSeq(fx.fired), h.refused + OptionSeq(fx.refused), h.credits + fx.credits)
  }

  /** One turn of the loop; `stored` is what the sending handle has put in the retransmission map by then. */
  datatype Turn = Turn(event: Event, env: Env, stored: Entries)

  /** The loop over any turns. */
  function RunTask(cfg: TaskConfig, t: Task, h: History, turns: seq<Turn>): (Task, History) {
    if turns == [] then (t, h) else
    var (t1, h1) := RunTask(cfg, t, h, turns[..|turns| - 1]);
    var turn := turns[|turns| - 1];
    var (t2, fx) := TakeStep(cfg, turn.stored, t1, turn.event, turn.env);
    (t2, Grown(h1, fx))
  }

  // ---------------------------------------------------------------- the stream task itself

  class ManiStreamTask {
    const config: TaskConfig
    const bank: BackpressureBank
    var buffer: RetransmissionBuffer
    var role: Role
    var pendingAckCount: nat
    var isEnded: bool
    var handleDropped: bool
    var status: Status
    var written: seq<ManiMessage>
    var forwarded: seq<u32>
    var injected: seq<Packet>
    var fired: seq<nat>
    var refused: seq<nat>
    var credits: nat

    constructor (config: TaskConfig, initialCredits: nat)
      ensures this.config == config && fresh(bank) && fresh(buffer)
      ensures bank.permits == initialCredits && !bank.closed && buffer.entries == map[]
      ensures Value() == NewTask
      ensures Visible() == NoHistory
    {
      this.config := config;
      bank := new BackpressureBank(initialCredits);
      buffer := new RetransmissionBuffer();
      role, pendingAckCount, isEnded, handleDropped, status := UnknownRole, 0, false, false, Running;
      written, forwarded, injected, fired, refused, credits := [], [], [], [], [], 0;
    }

    function Value(): Task
      reads this
    {
      Task(role, pendingAckCount, isEnded, handleDropped, status)
    }

    function Visible(): History
      reads this
    {
      History(written, forwarded, injected, fired, refused, credits)
    }

    /** What is visible, and the bank, have grown by exactly `fx`. */
    twostate predicate Showed(fx: Effects)
      reads this, bank
    {
      && Visible() == Grown(old(Visible()), fx)
      && bank.permits == old(bank.permits) + fx.credits
      && bank.closed == old(bank.closed)
    }

    method WriteFrames(env: Env, frames: seq<ManiMessage>) returns (ok: bool)
      modifies this`written
      ensures ok == (env.writes >= |frames|)
      ensures written == old(written) + WrittenOf(env, frames)
    {
      for i := 0 to |frames|
        invariant i <= env.writes && written == old(written) + frames[..i]
      {
        if i == env.writes {
          return false;
        }
        written := written + [frames[i]];
      }
      assert frames[..|frames|] == frames;
      ok := true;
    }

    method EndTransferInternal(final: u32, token: nat, env: Env)
      modifies this
      ensures buffer == old(buffer)
      ensures var (t, fx) := OnEndTransfer(config, old(Value()), env, final, token); Value() == t && Showed(fx)
    {
      if !role.SenderRole? {
        refused := refused + [token];
        return;
      }
      role := SenderRole(Some(token));
      var ok := WriteFrames(env, [TransferEnd(final), CreditsUpdate(config.bulk)]);
      if !ok {
        refused := refused + [token];
      }
    }

    method HandleNack(numbers: seq<u32>, env: Env) returns (keep: bool)
      modifies this`written
      ensures var (t, fx) := OnMessage(config, buffer.entries, old(Value()), env, NackMessage(numbers));
              Value().(status := if keep then status else Exited) == t && Showed(fx)
    {
      if !role.SenderRole? {
        return true;
      }
      var messages := [];
      for i := 0 to |numbers|
        invariant messages == Retransmissions(buffer.entries, numbers[..i])
      {
        assert numbers[..i + 1][..i] == numbers[..i];
        if numbers[i] in buffer.entries {
          messages := messages + RetransmissionsOf(buffer.entries, numbers[i]);
        }
      }
      assert numbers[..|numbers|] == numbers;
      keep := WriteFrames(env, messages);
    }

    method HandleRetrans(s: u32, ts: u64, content: bytes, env: Env) returns (keep: bool)
      modifies this`injected
      ensures var (t, fx) := OnRetrans(config, old(Value()), env, s, ts, content);
              Value().(status := if keep then status else Exited) == t && Showed(fx)
    {
      if !role.ReceiverRole? {
        return true;
      }
      if !env.receiverThere {
        return false;
      }
      if !env.full {
        injected := injected + [Packet(config.id, s, ts, content)];
      }
      keep := true;
    }

    method End()
      modifies this`isEnded
      ensures isEnded
    {
      isEnded := true;
    }

    method HandleTransferEnd(final: u32, env: Env) returns (keep: bool)
      modifies this
      ensures buffer == old(buffer)
      ensures var (t, fx) := OnTransferEnd(old(Value()), env, final);
              Value().(status := if keep then status else Exited) == t && Showed(fx)
    {
      if !role.ReceiverRole? {
        return true;
      }
      if WrapAdd(final, 1) == role.initialSequenceNumber {
        End();
        keep := WriteFrames(env, [TransferEndAck]);
      } else if role.hasPipeline {
        if !env.receiverThere {
          return false;
        }
        forwarded := forwarded + [final];
        pendingAckCount := pendingAckCount + 1;
        keep := true;
      } else {
        End();
        keep := WriteFrames(env, [TransferEndAck]);
      }
    }

    method HandleTransferEndAck()
      modifies this`role, this`fired
      ensures var (t, fx) := OnMessage(config, map[], old(Value()), Env(0, true, false),
          TransferEndAck); Value() == t && Showed(fx)
    {
      if role.SenderRole? {
        fired := fired + OptionSeq(role.ackWaiter);
        role := SenderRole(None);
      }
    }

    method HandleMessage(m: ManiMessage, env: Env) returns (keep: bool)
      modifies this, bank
      ensures buffer == old(buffer)
      ensures var (t, fx) := OnMessage(config, buffer.entries, old(Value()), env, m);
              Value().(status := if keep then status else Exited) == t && Showed(fx)
    {
      keep := true;
      match m
      case TransferStart(mode, _, initial, _) =>
        role := ReceiverRole(mode.Dual?, initial);
        keep := env.receiverThere;
      case PayloadMessage(_) => keep := env.receiverThere;
      case NackMessage(numbers) => keep := HandleNack(numbers, env);
      case Retrans(s, ts, content) => keep := HandleRetrans(s, ts, content, env);
      case TransferEnd(final) => keep := HandleTransferEnd(final, env);
      case TransferEndAck => HandleTransferEndAck();
      case CreditsUpdate(n) =>
        bank.IncreaseCredits(n);
        credits := credits + n;
      case CreditsRequest => keep := WriteFrames(env, [CreditsUpdate(config.bulk)]);
      case _ =>
    }

    method HandleStart(mode: TransferMode, compression: CompressionType, initial: u32, dataSize: Option<u64>, env: Env)
      modifies this
      ensures fresh(buffer) || buffer == old(buffer)
      ensures var (t, fx) := Handle(config, old(buffer.entries), old(Value()), StartTransfer(mode, compression,
          initial, dataSize), env);
              Value() == t && Showed(fx)
    {
      hide OnMessage, OnEndTransfer, WrittenOf;
      var ok := WriteFrames(env, [TransferStart(mode, compression, initial, dataSize)]);
      if ok {
        buffer := new RetransmissionBuffer();
        role := SenderRole(None);
      }
    }

    method HandleSendTransferEndAck(env: Env) returns (keep: bool)
      modifies this
      ensures buffer == old(buffer)
      ensures var (t, fx) := Handle(config, map[], old(Value()), SendTransferEndAck, env);
              Value().(status := if keep then status else Exited) == t && Showed(fx)
    {
      hide OnMessage, OnEndTransfer, WrittenOf;
      pendingAckCount := SaturatingSub(pendingAckCount, 1);
      End();
      keep := WriteFrames(env, [TransferEndAck]);
    }

    /** One select arm. */
    method HandleEvent(ev: Event, env: Env)
      requires status == Running
      modifies this, bank
      ensures fresh(buffer) || buffer == old(buffer)
      ensures var (t, fx) := Handle(config, old(buffer.entries), old(Value()), ev, env); Value() == t && Showed(fx)
    {
      hide OnMessage, OnEndTransfer, WrittenOf;
      var keep := true;
      match ev {
        case HandleGone => handleDropped := true;
        case StartTransfer(mode, compression, initial, dataSize) => HandleStart(mode, compression, initial, dataSize, env);
        case HandleEnds(final, token) => EndTransferInternal(final, token, env);
        case SendPayload(payload) =>
          var _ := WriteFrames(env, [PayloadMessage(payload)]);
        case StreamEnds(final, token) => EndTransferInternal(final, token, env);
        case SendTransferEndAck => keep := HandleSendTransferEndAck(env);
        case FromSink(command) => keep := WriteFrames(env, [CommandFrame(command)]);
        case FromPeer(m) => keep := HandleMessage(m, env);
        case PeerClosed => keep := false;
        case Tick => keep := WriteFrames(env, [CreditsRequest]);
      }
      if !keep {
        status := Exited;
      }
    }

    /** `run`: one select arm after another until the loop is left, then the bank is shut down.
        An event that the select does not poll in the current mode is passed over. */
    method Run(turns: seq<Turn>)
      requires status == Running && !handleDropped
      modifies this, bank, buffer
      ensures (Value(), Visible()) == RunTask(config, old(Value()), old(Visible()), turns)
      ensures bank.closed && bank.permits - old(bank.permits) == credits - old(credits)
    {
      ghost var start, shown := Value(), Visible();
      for i := 0 to |turns|
        invariant fresh(buffer) || buffer == old(buffer)
        invariant (Value(), Visible()) == RunTask(config, start, shown, turns[..i])
        invariant TopOfLoop(Value()) == Value()
        invariant bank.permits - old(bank.permits) == credits - old(credits)
      {
        assert turns[..i + 1][..i] == turns[..i];
        var turn := turns[i];
        if Enabled(Value(), turn.event) {
          buffer.entries := turn.stored;
          HandleEvent(turn.event, turn.env);
          if status == Running && handleDropped {
            var receiverWaiting := role.ReceiverRole? && !isEnded;
            if pendingAckCount == 0 && !receiverWaiting {
              status := Finished;
            }
          }
        } else {
          GrownByNothing(Visible());
        }
      }
      assert turns[..|turns|] == turns;
      bank.SignalShutdown();
    }
  }

  lemma GrownByNothing(h: History)
    ensures Grown(h, Nothing) == h
  {
  }

  // ---------------------------------------------------------------- FIN and ack accounting

  /** The stream task, the spawned tasks that wait for the reliable sink's reply, and their commands on the way
      back; then what has happened so far. */
  datatype Accounts = Accounts(
    task: Task,
    waiting: nat,
    queued: nat,
    forwarded: nat,
    acked: nat,
    acksWritten: nat)

  datatype Move =
    | TakesTurn(turn: Turn)
    | ReplyArrives
    | ReplyDropped

  /** SendTransferEndAck is only ever picked from the command queue. */
  function AfterMove(cfg: TaskConfig, a: Accounts, m: Move): Accounts {
    match m
    case ReplyArrives => if a.waiting > 0 then a.(waiting := a.waiting - 1, queued := a.queued + 1) else a
    case ReplyDropped => if a.waiting > 0 then a.(waiting := a.waiting - 1) else a
    case TakesTurn(Turn(ev, env, stored)) =>
      if !Enabled(a.task, ev) || (ev.SendTransferEndAck? && a.queued == 0) then a else
      var (t, fx) := TakeStep(cfg, stored, a.task, ev, env);
      var n := if fx.forwarded.Some? then 1 else 0;
      var k := if ev.SendTransferEndAck? then 1 else 0;
      Accounts(t, a.waiting + n, a.queued - k, a.forwarded + n, a.acked + k,
               a.acksWritten + if TransferEndAck in fx.written then 1 else 0)
  }

  function RunMoves(cfg: TaskConfig, moves: seq<Move>): Accounts {
    if moves == [] then Accounts(NewTask, 0, 0, 0, 0, 0)
    else AfterMove(cfg, RunMoves(cfg, moves[..|moves| - 1]), moves[|moves| - 1])
  }

  ghost predicate Balanced(a: Accounts) {
    && a.forwarded == a.acked + a.task.pendingAckCount
    && a.waiting + a.queued <= a.task.pendingAckCount
    && (a.task.isEnded && !a.task.status.Exited? ==> a.acksWritten > 0)
    && (a.task.status.Finished? ==>
          a.task.handleDropped && a.task.pendingAckCount == 0 && (a.task.role.ReceiverRole? ==> a.task.isEnded))
    && (a.task.status.Running? && a.task.handleDropped ==>
          a.task.pendingAckCount > 0 || (a.task.role.ReceiverRole? && !a.task.isEnded))
  }

  /** What the accounts need to know of one event. */
  lemma HandleAccounts(cfg: TaskConfig, entries: Entries, t: Task, ev: Event, env: Env)
    requires ev.SendTransferEndAck? ==> t.pendingAckCount > 0
    requires t.status.Running?
    ensures var (after, fx) := Handle(cfg, entries, t, ev, env);
            && after.pendingAckCount == t.pendingAckCount
                + (if fx.forwarded.Some? then 1 else 0) - (if ev.SendTransferEndAck? then 1 else 0)
            && !after.status.Finished?
            && (after.isEnded && !t.isEnded && !after.status.Exited? ==> TransferEndAck in fx.written)
            && (t.isEnded ==> after.isEnded)
  {
    hide Retransmissions;
    assert WrittenOf(env, [TransferEndAck]) == if env.writes >= 1 then [TransferEndAck] else [];
  }

  lemma MoveKeepsBalance(cfg: TaskConfig, a: Accounts, m: Move)
    requires Balanced(a)
    ensures Balanced(AfterMove(cfg, a, m))
  {
    hide Handle;
    if m.TakesTurn? && Enabled(a.task, m.turn.event) && (m.turn.event.SendTransferEndAck? ==> a.queued > 0) {
      HandleAccounts(cfg, m.turn.stored, a.task, m.turn.event, m.turn.env);
    }
  }

  /** For any peer, any timing and any failures: ends forwarded to the sink are exactly those acknowledged
      plus those still owed, an acknowledgement command never meets a zero count (so the saturating
      decrement never saturates), and when it closes its write side after the handle was dropped,
      nothing forwarded is owed and, as a receiver, it has acknowledged an end of transfer. It goes on
      after the drop only for one of these reasons. */
  lemma {:induction false} FinMeansAcknowledged(cfg: TaskConfig, moves: seq<Move>)
    ensures var a := RunMoves(cfg, moves);
            && Balanced(a)
            && (a.queued > 0 ==> a.task.pendingAckCount > 0)
            && (a.task.status.Finished? ==> a.forwarded == a.acked)
            && (a.task.status.Finished? && a.task.role.ReceiverRole? ==> a.acksWritten > 0)
            && (a.task.status.Running? && a.task.handleDropped && a.forwarded == a.acked ==> a.task.role.ReceiverRole? && !a.task.isEnded)
  {
    if moves != [] {
      FinMeansAcknowledged(cfg, moves[..|moves| - 1]);
      MoveKeepsBalance(cfg, RunMoves(cfg, moves[..|moves| - 1]), moves[|moves| - 1]);
      hide AfterMove;
    }
  }

  /** What goes out for a NACK: for each requested number in the map, every stored datagram of it, and
      nothing else. */
  lemma {:induction false} NackIsAnsweredFromTheMap(entries: Entries, numbers: seq<u32>, m: ManiMessage)
    ensures m in Retransmissions(entries, numbers) <==> exists n :: n in numbers && Answers(entries, n, m)
  {
    if numbers != [] {
      var rest, last := numbers[..|numbers| - 1], numbers[|numbers| - 1];
      NackIsAnsweredFromTheMap(entries, rest, m);
      AnswersOf(entries, last, m);
      hide Answers, RetransmissionsOf;
      assert numbers == rest + [last];
    }
  }

  ghost predicate Answers(entries: Entries, n: u32, m: ManiMessage) {
    n in entries && exists i :: 0 <= i < |entries[n]| && m == Retrans(n, entries[n][i].timestamp, entries[n][i].content)
  }

  lemma AnswersOf(entries: Entries, n: u32, m: ManiMessage)
    ensures m in RetransmissionsOf(entries, n) <==> Answers(entries, n, m)
  {
    if Answers(entries, n, m) {
      var i :| 0 <= i < |entries[n]| && m == Retrans(n, entries[n][i].timestamp, entries[n][i].content);
      assert RetransmissionsOf(entries, n)[i] == m;
    }
  }

  // ---------------------------------------------------------------- starting and ending

  /** The mode decides how an end is answered: TransferStart followed by TransferEnd is acknowledged at
      once if and only if there is no reliable sink or nothing was sent; otherwise exactly the announced
      number goes to the reliable sink and one more acknowledgement is owed. */
  lemma StartThenEnd(cfg: TaskConfig, entries: Entries, t: Task, mode: TransferMode, compression: CompressionType, initial: u32,
                     size: Option<u64>, final: u32, first: Env, second: Env)
    requires t.status.Running? && first.receiverThere && second.receiverThere && second.writes >= 1
    ensures var (t1, fx1) := Handle(cfg, entries, t, FromPeer(TransferStart(mode, compression, initial, size)), first);
            var (t2, fx2) := Handle(cfg, entries, t1, FromPeer(TransferEnd(final)), second);
            && fx1 == Nothing && t2.status.Running?
            && if mode == UnreliableOnly || (final + 1) % TWO32 == initial
               then fx2.written == [TransferEndAck] && fx2.forwarded == None && t2.isEnded && t2.pendingAckCount == t.pendingAckCount
               else fx2.written == [] && fx2.forwarded == Some(final) && t2.isEnded == t.isEnded
                    && t2.pendingAckCount == t.pendingAckCount + 1
  {
  }

  /** `StartTransfer` becomes a sender if and only if its message was written, and the message, whatever
      the compression and size, makes the peer a receiver of the same mode and initial number. */
  lemma StartReachesPeer(cfg: TaskConfig, peer: TaskConfig, entries: Entries, t: Task, u: Task, mode: TransferMode,
                         compression: CompressionType, initial: u32, size: Option<u64>, env: Env, there: Env)
    requires there.receiverThere
    ensures var (t1, fx) := Handle(cfg, entries, t, StartTransfer(mode, compression, initial, size), env);
            && (env.writes >= 1 ==> t1 == t.(role := SenderRole(None)) && |fx.written| == 1)
            && (env.writes == 0 ==> t1 == t && fx.written == [])
            && forall i :: 0 <= i < |fx.written| ==>
                 Handle(peer, map[], u, FromPeer(fx.written[i]), there) ==
                 (u.(role := ReceiverRole(mode == Dual, initial)), Nothing)
  {
  }

  /** An end announced by a sender: TransferEnd goes out first, the caller is refused if and only if a write
      fails, and the peer's acknowledgement is reported to this caller, once. Outside the sender role the
      caller is refused and nothing is written. */
  lemma EndIsAnnouncedAndReported(cfg: TaskConfig, entries: Entries, t: Task, final: u32, token: nat, env: Env, later: Env)
    ensures var (t1, fx1) := Handle(cfg, entries, t, StreamEnds(final, token), env);
            var (t2, fx2) := Handle(cfg, entries, t1, FromPeer(TransferEndAck), later);
            var (t3, fx3) := Handle(cfg, entries, t2, FromPeer(TransferEndAck), later);
            && Handle(cfg, entries, t, HandleEnds(final, token), env) == (t1, fx1)
            && fx3.fired == None
            && if t.role.SenderRole?
               then && fx1.refused == (if env.writes >= 2 then None else Some(token))
                    && (env.writes >= 1 <==> fx1.written != [] && fx1.written[0] == TransferEnd(final))
                    && (env.writes >= 2 ==> fx1.written[1..] == [CreditsUpdate(cfg.bulk)])
                    && fx2.fired == Some(token)
               else fx1 == Nothing.(refused := Some(token)) && fx2.fired == None
  {
  }

  /** A request for credits gets one batch of the answering side into the asking side's bank. */
  lemma CreditRequestRoundTrip(cfg: TaskConfig, peer: TaskConfig, t: Task, u: Task, env: Env)
    requires env.writes >= 1
    ensures var asked := Handle(cfg, map[], t, Tick, env).1.written;
            && |asked| == 1
            && var answer := Handle(peer, map[], u, FromPeer(asked[0]), env).1.written;
               && |answer| == 1
               && Handle(cfg, map[], t, FromPeer(answer[0]), env) == (t, Nothing.(credits := peer.bulk))
  {
  }

  /** Credits announced by a sink reach the peer's bank. */
  lemma CreditsReachTheBank(cfg: TaskConfig, peer: TaskConfig, t: Task, u: Task, credits: nat, env: Env)
    requires env.writes >= 1
    ensures var written := Handle(cfg, map[], t, FromSink(UpdateCredits(credits)), env).1.written;
            && |written| == 1
            && Handle(peer, map[], u, FromPeer(written[0]), env) == (u, Nothing.(credits := credits))
  {
  }

  /** The writes or channels one of the peer's messages depends on have failed. */
  ghost predicate MessageFails(entries: Entries, role: Role, m: ManiMessage, env: Env) {
    match m
    case TransferStart(_, _, _, _) => !env.receiverThere
    case PayloadMessage(_) => !env.receiverThere
    case NackMessage(numbers) => role.SenderRole? && env.writes < |StoredFor(entries, numbers)|
    case Retrans(_, _, _) => role.ReceiverRole? && !env.receiverThere
    case TransferEnd(final) =>
      && role.ReceiverRole?
      && if role.hasPipeline && (final + 1) % TWO32 != role.initialSequenceNumber then !env.receiverThere else env.writes == 0
    case CreditsRequest => env.writes == 0
    case _ => false
  }

  /** When an event ends the loop: the peer closed, a write that had to succeed did not, or a channel that
      had to be there was gone. Announcing a transfer, an end or a payload never does. */
  lemma WhenTheLoopIsLeft(cfg: TaskConfig, entries: Entries, t: Task, ev: Event, env: Env)
    requires t.status.Running?
    ensures var left := || ev.PeerClosed?
                        || ((ev.SendTransferEndAck? || ev.FromSink? || ev.Tick?) && env.writes == 0)
                        || (ev.FromPeer? && MessageFails(entries, t.role, ev.message, env));
            Handle(cfg, entries, t, ev, env).0.status == if left then Exited else Running
  {
    if ev.FromPeer? && ev.message.NackMessage? {
      AnswersCounted(entries, ev.message.sequenceNumbers);
    }
    hide Retransmissions, StoredFor, WrittenOf;
  }

  lemma {:induction false} AnswersCounted(entries: Entries, numbers: seq<u32>)
    ensures |Retransmissions(entries, numbers)| == |StoredFor(entries, numbers)|
  {
    if numbers != [] {
      AnswersCounted(entries, numbers[..|numbers| - 1]);
    }
  }

  /** What a dropped handle still lets through: its own commands and the credit timer do nothing any more,
      everything else is handled as before. */
  lemma DroppedHandleIsSilent(cfg: TaskConfig, entries: Entries, t: Task, ev: Event, env: Env)
    requires t.status.Running?
    ensures var own := ev.HandleGone? || ev.StartTransfer? || ev.HandleEnds? || ev.SendPayload? || ev.Tick?;
            var (after, fx) := TakeStep(cfg, entries, t, ev, env);
            && (t.handleDropped && own ==> after == t && fx == Nothing)
            && (!(t.handleDropped && own) ==>
                  && fx == Handle(cfg, entries, t, ev, env).1
                  && after.(status := Running) == Handle(cfg, entries, t, ev, env).0.(status := Running))
            && (after.handleDropped <==> t.handleDropped || ev.HandleGone?)
  {
    hide Retransmissions, WrittenOf;
  }

  /** A resent datagram is put on the datagram channel, labelled with the stream's own number, if and only if
      the stream task is a receiver, the channel is there and has room; a full one only loses the datagram. */
  lemma ResentIsInjectedIff(cfg: TaskConfig, entries: Entries, t: Task, s: u32, ts: u64, content: bytes, env: Env)
    ensures var (after, fx) := Handle(cfg, entries, t, FromPeer(Retrans(s, ts, content)), env);
            && fx == Nothing.(injected := fx.injected)
            && (fx.injected.Some? <==> t.role.ReceiverRole? && env.receiverThere && !env.full)
            && (fx.injected.Some? ==> fx.injected == Some(Packet(cfg.id, s, ts, content)))
            && (env.full && env.receiverThere ==> after == t)
  {
  }

  /** A payload goes out as it is, and a failed write of it is not fatal. */
  lemma PayloadIsWritten(cfg: TaskConfig, entries: Entries, t: Task, payload: bytes, env: Env)
    ensures var (after, fx) := Handle(cfg, entries, t, SendPayload(payload), env);
            && after == t && fx == Nothing.(written := fx.written)
            && fx.written == if env.writes >= 1 then [PayloadMessage(payload)] else []
  {
  }

  // ---------------------------------------------------------------- a NACK and back

  /** What a task puts on its datagram channel for one frame of the peer after the other. */
  function InjectedBy(cfg: TaskConfig, t: Task, env: Env, frames: seq<ManiMessage>): seq<Packet> {
    if frames == [] then [] else
    InjectedBy(cfg, t, env, frames[..|frames| - 1]) + OptionSeq(Handle(cfg, map[], t, FromPeer(frames[|frames| - 1]), env).1.injected)
  }

  /** The stored datagrams of the requested numbers, in the order of the request. */
  ghost function StoredFor(entries: Entries, numbers: seq<u32>): seq<Packet> {
    if numbers == [] then [] else
    StoredFor(entries, numbers[..|numbers| - 1])
      + if numbers[|numbers| - 1] in entries then entries[numbers[|numbers| - 1]] else []
  }

  /** Each stored datagram carries its stream and number. */
  ghost predicate Labelled(id: u64, entries: Entries) {
    forall n {:trigger n in entries} :: n in entries ==>
      forall i :: 0 <= i < |entries[n]| ==> entries[n][i].streamId == id && entries[n][i].seqno == n
  }

  lemma {:induction false} InjectedAppend(cfg: TaskConfig, t: Task, env: Env, a: seq<ManiMessage>, b: seq<ManiMessage>)
    ensures InjectedBy(cfg, t, env, a + b) == InjectedBy(cfg, t, env, a) + InjectedBy(cfg, t, env, b)
  {
    hide Handle;
    if b == [] {
      assert a + b == a;
    } else {
      InjectedAppend(cfg, t, env, a, b[..|b| - 1]);
      assert (a + b)[..|a + b| - 1] == a + b[..|b| - 1];
    }
  }

  /** One resent datagram. */
  lemma InjectedOnce(cfg: TaskConfig, t: Task, env: Env, p: Packet)
    requires t.role.ReceiverRole? && env.receiverThere && !env.full && p.streamId == cfg.id
    ensures InjectedBy(cfg, t, env, [Retrans(p.seqno, p.timestamp, p.content)]) == [p]
  {
    NothingInjected(cfg, t, env);
    var m := Retrans(p.seqno, p.timestamp, p.content);
    assert Handle(cfg, map[], t, FromPeer(m), env).1.injected == Some(p);
    hide Handle;
    assert [m][..0] == [];
  }

  lemma {:induction false} EntryIsInjected(cfg: TaskConfig, t: Task, env: Env, n: u32, stored: seq<Packet>)
    requires t.role.ReceiverRole? && env.receiverThere && !env.full
    requires forall i :: 0 <= i < |stored| ==> stored[i].streamId == cfg.id && stored[i].seqno == n
    ensures InjectedBy(cfg, t, env, RetransmissionsOf(map[n := stored], n)) == stored
  {
    hide Handle, InjectedBy;
    var frames := RetransmissionsOf(map[n := stored], n);
    if stored == [] {
      assert frames == [];
      NothingInjected(cfg, t, env);
    } else {
      var init, last := stored[..|stored| - 1], stored[|stored| - 1];
      var before := RetransmissionsOf(map[n := init], n);
      EntryIsInjected(cfg, t, env, n, init);
      InjectedOnce(cfg, t, env, last);
      InjectedAppend(cfg, t, env, before, [Retrans(n, last.timestamp, last.content)]);
      assert frames == before + [Retrans(n, last.timestamp, last.content)];
      assert stored == init + [last];
    }
  }

  lemma {:induction false} AnswersAreInjected(cfg: TaskConfig, t: Task, env: Env, entries: Entries, numbers: seq<u32>)
    requires t.role.ReceiverRole? && env.receiverThere && !env.full && Labelled(cfg.id, entries)
    ensures InjectedBy(cfg, t, env, Retransmissions(entries, numbers)) == StoredFor(entries, numbers)
  {
    hide Handle, InjectedBy;
    if numbers == [] {
      NothingInjected(cfg, t, env);
    } else {
      var rest, n := numbers[..|numbers| - 1], numbers[|numbers| - 1];
      AnswersAreInjected(cfg, t, env, entries, rest);
      InjectedAppend(cfg, t, env, Retransmissions(entries, rest), RetransmissionsOf(entries, n));
      if n in entries {
        EntryIsInjected(cfg, t, env, n, entries[n]);
        assert RetransmissionsOf(map[n := entries[n]], n) == RetransmissionsOf(entries, n);
      } else {
        NothingInjected(cfg, t, env);
      }
    }
  }

  lemma NothingInjected(cfg: TaskConfig, t: Task, env: Env)
    ensures InjectedBy(cfg, t, env, []) == []
  {
  }

  /** A NACK and back: the sink's request, written by the receiver's task, answered by the sender's task and
      taken in by the receiver's task again, puts exactly the stored datagrams of the requested numbers
      on the receiver's datagram channel, in order. */
  lemma NackRoundTrip(cfg: TaskConfig, peer: TaskConfig, r: Task, t: Task, entries: Entries, numbers: seq<u32>, env: Env)
    requires r.role.ReceiverRole? && t.role.SenderRole? && cfg.id == peer.id && Labelled(cfg.id, entries)
    requires env.receiverThere && !env.full && env.writes >= 1 && env.writes >= |Retransmissions(entries, numbers)|
    ensures var asked := Handle(cfg, map[], r, FromSink(Nack(numbers)), env).1.written;
            && |asked| == 1
            && var answers := Handle(peer, entries, t, FromPeer(asked[0]), env).1.written;
               InjectedBy(cfg, r, env, answers) == StoredFor(entries, numbers)
  {
    AnswersAreInjected(cfg, r, env, entries, numbers);
    hide Retransmissions, InjectedBy, StoredFor;
  }
}
