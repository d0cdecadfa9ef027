/** Playout through the end of the stream: the call that takes the end, and the order of everything a jitter
    buffer ever puts out (src/mani/transfer/jitter.rs). */
module Playout {
  import opened Types
  import opened Jitter

  // ---------------------------------------------------------------- the call that takes the end

  /** `e` is the state right when the loop takes the end of the stream, the last of `taken` inputs. */
  ghost predicate TakesEnd(cfg: JitterConfig, inputs: seq<Input>, st: JitterState, k: nat, failed: bool, taken: nat, e: JitterState) {
    && 1 <= taken <= |st.inbox| && st.inbox[taken - 1].Ends?
    && e.isEof && e.inbox == st.inbox[taken..]
    && Playing(cfg, inputs + st.inbox[..taken - 1], e.(isEof := false), k, failed)
  }

  /** A call that starts before the end and passes it goes on from there as a call of its own would; if no
      frame ever came, it ends there. */
  lemma {:induction false} YieldThroughEnd(cfg: JitterConfig, inputs: seq<Input>, st: JitterState, k: nat, failed: bool,
                                           decodes: bool) returns (taken: nat, e: JitterState)
    requires 1 <= cfg.frameSize && 1 <= cfg.playoutDelay && Fits(cfg, inputs + st.inbox)
    requires Playing(cfg, inputs, st, k, failed)
    ensures Yield(cfg, st, decodes).0.isEof ==>
              && TakesEnd(cfg, inputs, st, k, failed, taken, e)
              && Yield(cfg, st, decodes) == if e.nextPlayTs.Some? then Yield(cfg, e, decodes) else (e, NoMore)
    decreases |st.inbox|
  {
    hide Playing, TakesEnd, FarAhead, Iterate, Fits;
    taken, e := 0, st;
    PlayingIsOpen(cfg, inputs, st, k, failed);
    if st.nextPlayTs.Some? && (st.nextPlayTs.value in st.buffer || FarAhead(cfg, st.buffer, st.nextPlayTs.value)) {
      DueIsBeforeEnd(cfg, inputs, st, k, failed, decodes);
    } else {
      NothingDue(cfg, inputs, st, k, failed, decodes);
      if st.inbox != [] {
        InputKeepsPlaying(cfg, inputs, st, k, failed);
        var input, rest := st.inbox[0], st.inbox[1..];
        if input.Ends? {
          taken, e := 1, OnInput(st).state;
          EndIsTaken(cfg, inputs, st, k, failed);
        } else if input.Arrives? {
          assert inputs + st.inbox == (inputs + [input]) + rest;
          var more, end := YieldThroughEnd(cfg, inputs + [input], OnInput(st).state, k, failed, decodes);
          taken, e := more + 1, end;
          if Yield(cfg, st, decodes).0.isEof {
            TakesEndLater(cfg, inputs, st, OnInput(st).state, k, failed, more, e);
          }
        }
      }
    }
  }

  lemma PlayingIsOpen(cfg: JitterConfig, inputs: seq<Input>, st: JitterState, k: nat, failed: bool)
    requires Playing(cfg, inputs, st, k, failed)
    ensures !st.isEof && (st.nextPlayTs == None ==> st.buffer == map[] && k == 0)
    ensures st.nextPlayTs == None <==> FirstTs(inputs) == None
    ensures st.nextPlayTs.Some? ==> st.nextPlayTs.value == FirstTs(inputs).value + k * cfg.frameSize
    ensures st.buffer.Keys <= Received(inputs).Keys
  {
  }

  lemma TakesEndLater(cfg: JitterConfig, inputs: seq<Input>, st: JitterState, next: JitterState, k: nat, failed: bool, more: nat,
                      e: JitterState)
    requires st.inbox != [] && next.inbox == st.inbox[1..] && TakesEnd(cfg, inputs + [st.inbox[0]], next, k, failed, more, e)
    ensures TakesEnd(cfg, inputs, st, k, failed, more + 1, e)
  {
    assert inputs + st.inbox[..more] == (inputs + [st.inbox[0]]) + next.inbox[..more - 1];
    hide Playing;
  }

  lemma DueIsBeforeEnd(cfg: JitterConfig, inputs: seq<Input>, st: JitterState, k: nat, failed: bool, decodes: bool)
    requires 1 <= cfg.frameSize && 1 <= cfg.playoutDelay && Fits(cfg, inputs + st.inbox)
    requires Playing(cfg, inputs, st, k, failed) && st.nextPlayTs.Some?
    requires st.nextPlayTs.value in st.buffer || FarAhead(cfg, st.buffer, st.nextPlayTs.value)
    ensures !Yield(cfg, st, decodes).0.isEof
  {
    HighestFits(cfg, inputs, st.inbox);
    OutputKeepsPlaying(cfg, inputs, st, k, failed, decodes);
    hide FarAhead, Received, FirstTs, Iterate, Right;
  }

  lemma EndChangesNothing(cfg: JitterConfig, inputs: seq<Input>, st: JitterState, e: JitterState, k: nat, failed: bool)
    requires Playing(cfg, inputs, st, k, failed) && st.inbox != [] && e == st.(isEof := true, inbox := st.inbox[1..])
    ensures Playing(cfg, inputs + st.inbox[..0], e.(isEof := false), k, failed)
  {
    assert inputs + st.inbox[..0] == inputs;
    hide Received, FirstTs, Covers, LastKeyOr0;
  }

  lemma EndIsTaken(cfg: JitterConfig, inputs: seq<Input>, st: JitterState, k: nat, failed: bool)
    requires Playing(cfg, inputs, st, k, failed) && st.inbox != [] && st.inbox[0].Ends?
    ensures TakesEnd(cfg, inputs, st, k, failed, 1, OnInput(st).state)
  {
    EndChangesNothing(cfg, inputs, st, OnInput(st).state, k, failed);
    hide Playing;
  }

  /** Call `i` of a run is the one that passes the end, the last of the first `taken` inputs, and `e` the state
      in which it does: the play point is where the outputs made so far put it. */
  ghost predicate PassesEnd(cfg: JitterConfig, inbox: seq<Input>, fates: seq<bool>, i: nat, taken: nat, e: JitterState) {
    && i < |fates| && 1 <= taken <= |inbox| && inbox[taken - 1].Ends?
    && var (st, outs) := Calls(cfg, Fresh(inbox), fates[..i]);
    && !st.isEof && e.isEof && e.inbox == inbox[taken..]
    && Playing(cfg, inbox[..taken - 1], e.(isEof := false), Outputs(outs), FailedHere(outs))
    && Yield(cfg, st, fates[i]) == if e.nextPlayTs.Some? then Yield(cfg, e, fates[i]) else (e, NoMore)
  }

  lemma InTheWholeInbox(cfg: JitterConfig, inbox: seq<Input>, before: nat, st: JitterState, k: nat, failed: bool, more: nat,
                        e: JitterState)
    requires before <= |inbox| && st.inbox == inbox[before..] && TakesEnd(cfg, inbox[..before], st, k, failed, more, e)
    ensures before + more <= |inbox| && more >= 1 && inbox[before + more - 1].Ends?
    ensures e.isEof && e.inbox == inbox[before + more..]
    ensures Playing(cfg, inbox[..before + more - 1], e.(isEof := false), k, failed)
  {
    assert inbox[..before] + inbox[before..][..more - 1] == inbox[..before + more - 1];
    hide Playing;
  }

  /** Every run that passes the end does so in one of its calls. */
  lemma {:induction false} EndIsPassed(cfg: JitterConfig, inbox: seq<Input>, fates: seq<bool>)
    returns (i: nat, taken: nat, e: JitterState)
    requires 1 <= cfg.frameSize && 1 <= cfg.playoutDelay && Fits(cfg, inbox)
    requires Calls(cfg, Fresh(inbox), fates).0.isEof
    ensures PassesEnd(cfg, inbox, fates, i, taken, e)
  {
    hide Playing, Fits, Yield, Outputs, FailedHere, TakesEnd, PassesEnd;
    var init, last := fates[..|fates| - 1], fates[|fates| - 1];
    var (st, outs) := Calls(cfg, Fresh(inbox), init);
    if st.isEof {
      i, taken, e := EndIsPassed(cfg, inbox, init);
      PassesLonger(cfg, inbox, init, [last], i, taken, e);
      assert init + [last] == fates;
    } else {
      var before := CallsKeepPlaying(cfg, inbox, init);
      i := |init|;
      taken, e := LastCallPasses(cfg, inbox, init, last, before);
      assert init + [last] == fates;
    }
  }

  lemma PassesLonger(cfg: JitterConfig, inbox: seq<Input>, fates: seq<bool>, more: seq<bool>, i: nat, taken: nat, e: JitterState)
    requires PassesEnd(cfg, inbox, fates, i, taken, e)
    ensures PassesEnd(cfg, inbox, fates + more, i, taken, e)
  {
    hide Calls, Yield, Playing, Outputs, FailedHere;
    assert (fates + more)[..i] == fates[..i];
  }

  lemma LastCallPasses(cfg: JitterConfig, inbox: seq<Input>, fates: seq<bool>, last: bool, before: nat)
    returns (taken: nat, e: JitterState)
    requires 1 <= cfg.frameSize && 1 <= cfg.playoutDelay && Fits(cfg, inbox) && before <= |inbox|
    requires var (st, outs) := Calls(cfg, Fresh(inbox), fates);
             && !st.isEof && st.inbox == inbox[before..] && Yield(cfg, st, last).0.isEof
             && Playing(cfg, inbox[..before], st, Outputs(outs), FailedHere(outs))
    ensures PassesEnd(cfg, inbox, fates + [last], |fates|, taken, e)
  {
    hide Calls, Yield, Playing, Outputs, FailedHere, TakesEnd, Fits;
    var (st, outs) := Calls(cfg, Fresh(inbox), fates);
    assert inbox[..before] + inbox[before..] == inbox;
    var more: nat;
    more, e := YieldThroughEnd(cfg, inbox[..before], st, Outputs(outs), FailedHere(outs), last);
    taken := before + more;
    InTheWholeInbox(cfg, inbox, before, st, Outputs(outs), FailedHere(outs), more, e);
    assert (fates + [last])[..|fates|] == fates;
  }

  // ---------------------------------------------------------------- the timestamps put out

  function Stamps(outs: seq<Outcome>): seq<u64> {
    if outs == [] then [] else
    Stamps(outs[..|outs| - 1]) + if outs[|outs| - 1].Pcm? then [outs[|outs| - 1].at] else []
  }

  lemma {:induction false} StampsAppend(a: seq<Outcome>, b: seq<Outcome>)
    ensures Stamps(a + b) == Stamps(a) + Stamps(b)
  {
    if b == [] {
      assert a + b == a;
    } else {
      StampsAppend(a, b[..|b| - 1]);
      assert (a + b)[..|a + b| - 1] == a + b[..|b| - 1];
    }
  }

  lemma StampsOne(o: Outcome)
    ensures Stamps([o]) == if o.Pcm? then [o.at] else []
  {
    assert [o][..0] == [];
  }

  lemma {:induction false} CallsAppend(cfg: JitterConfig, st: JitterState, a: seq<bool>, b: seq<bool>)
    ensures var (mid, outs) := Calls(cfg, st, a);
            && Calls(cfg, st, a + b).0 == Calls(cfg, mid, b).0
            && Calls(cfg, st, a + b).1 == outs + Calls(cfg, mid, b).1
  {
    hide Yield;
    if b == [] {
      assert a + b == a;
    } else {
      CallsAppend(cfg, st, a, b[..|b| - 1]);
      assert (a + b)[..|a + b| - 1] == a + b[..|b| - 1];
    }
  }

  lemma {:induction false} FirstStays(a: seq<Input>, b: seq<Input>)
    ensures FirstTs(a).Some? ==> FirstTs(a + b) == FirstTs(a)
  {
    if b == [] {
      assert a + b == a;
    } else {
      FirstStays(a, b[..|b| - 1]);
      assert (a + b)[..|a + b| - 1] == a + b[..|b| - 1];
    }
  }

  /** Frame by frame from `first` on. */
  ghost predicate Steady(cfg: JitterConfig, stamps: seq<u64>, first: int) {
    forall j :: 0 <= j < |stamps| ==> stamps[j] == first + j * cfg.frameSize
  }

  /** Before the end of the stream the outputs follow each other frame by frame, from the first timestamp on. */
  lemma {:induction false} SteadyBeforeEnd(cfg: JitterConfig, inbox: seq<Input>, fates: seq<bool>)
    requires 1 <= cfg.frameSize && 1 <= cfg.playoutDelay && Fits(cfg, inbox)
    requires !Calls(cfg, Fresh(inbox), fates).0.isEof
    ensures var outs := Calls(cfg, Fresh(inbox), fates).1;
            && |Stamps(outs)| == Outputs(outs)
            && (Outputs(outs) > 0 ==> FirstTs(inbox).Some? && Steady(cfg, Stamps(outs), FirstTs(inbox).value))
  {
    hide Yield, Right, Fits, Consumed, Stamps, Outputs, FailedHere, Steady, FirstTs;
    if fates == [] {
      assert Stamps([]) == [] && Outputs([]) == 0 by { NothingPutOut(); }
    } else {
      var init, last := fates[..|fates| - 1], fates[|fates| - 1];
      var (st, outs) := Calls(cfg, Fresh(inbox), init);
      if st.isEof {
        EofStays(cfg, st, last);
      }
      SteadyBeforeEnd(cfg, inbox, init);
      OneMoreStamp(cfg, inbox, init, last);
    }
  }

  lemma NothingPutOut()
    ensures Stamps([]) == [] && Outputs([]) == 0
  {
  }

  lemma OneMoreStamp(cfg: JitterConfig, inbox: seq<Input>, fates: seq<bool>, last: bool)
    requires 1 <= cfg.frameSize && 1 <= cfg.playoutDelay && Fits(cfg, inbox)
    requires var (st, outs) := Calls(cfg, Fresh(inbox), fates);
             && !Yield(cfg, st, last).0.isEof && |Stamps(outs)| == Outputs(outs)
             && (Outputs(outs) > 0 ==> FirstTs(inbox).Some? && Steady(cfg, Stamps(outs), FirstTs(inbox).value))
    ensures var (st, outs) := Calls(cfg, Fresh(inbox), fates);
            var more := outs + [Yield(cfg, st, last).1];
            && |Stamps(more)| == Outputs(more)
            && (Outputs(more) > 0 ==> FirstTs(inbox).Some? && Steady(cfg, Stamps(more), FirstTs(inbox).value))
  {
    var (st, outs) := Calls(cfg, Fresh(inbox), fates);
    var o := Yield(cfg, st, last).1;
    hide Yield, Right, Fits, Consumed, Calls, FailedHere, FirstTs;
    var _, taken := PlayoutBeforeEof(cfg, inbox, fates, last);
    FirstStays(inbox[..taken], inbox[taken..]);
    assert inbox[..taken] + inbox[taken..] == inbox;
    OneMoreOutcome(outs, o);
    assert (outs + [o])[..|outs|] == outs;
    hide Outputs;
  }

  lemma {:induction false} NoStamps(outs: seq<Outcome>)
    requires forall i :: 0 <= i < |outs| ==> !outs[i].Pcm?
    ensures Stamps(outs) == []
  {
    if outs != [] {
      NoStamps(outs[..|outs| - 1]);
    }
  }

  /** What is heard of the drain. */
  lemma {:induction false} StampsOfResults(buffer: FrameBuffer, order: seq<u64>, fates: seq<bool>)
    requires |order| <= |fates| && forall i :: 0 <= i < |order| ==> order[i] in buffer
    requires forall i, j :: 0 <= i < j < |order| ==> order[i] != order[j]
    ensures Stamps(Results(buffer, order, fates)) == Played(order, fates)
    decreases |order|
  {
    if order == [] {
      NoStamps(Results(buffer, order, fates));
    } else {
      var t, rest := order[0], order[1..];
      assert order == [t] + rest;
      ResultsTail(buffer, t, rest, fates);
      StampsOfResults(buffer - {t}, rest, fates[1..]);
      var o := if fates[0] then Pcm(t, Some(buffer[t])) else DecoderFailed;
      StampsOne(o);
      StampsAppend([o], Results(buffer - {t}, rest, fates[1..]));
      hide Results, Stamps;
    }
  }

  // ---------------------------------------------------------------- after the end

  /** From the call that passes the end on, the run is that of the state in which it does. */
  lemma RunFromEnd(cfg: JitterConfig, inbox: seq<Input>, fates: seq<bool>, i: nat, taken: nat, e: JitterState)
    requires PassesEnd(cfg, inbox, fates, i, taken, e) && e.nextPlayTs.Some?
    ensures Calls(cfg, Fresh(inbox), fates).0 == Calls(cfg, e, fates[i..]).0
    ensures Calls(cfg, Fresh(inbox), fates).1 == Calls(cfg, Fresh(inbox), fates[..i]).1 + Calls(cfg, e, fates[i..]).1
  {
    hide Calls, Yield, Playing, Outputs, FailedHere;
    CallsAppend(cfg, Fresh(inbox), fates[..i], fates[i..]);
    assert fates[..i] + fates[i..] == fates;
    var st := Calls(cfg, Fresh(inbox), fates[..i]).0;
    CallsHead(cfg, st, fates[i..]);
    CallsHead(cfg, e, fates[i..]);
  }

  /** What is left to play at the end, in the order it is taken out, behind the last output before. */
  lemma {:induction false} JoinDescents(pre: seq<u64>, q: seq<u64>)
    requires pre != [] && forall j :: 0 < j < |pre| ==> pre[j - 1] < pre[j]
    ensures Descents(pre + q) == Descents([pre[|pre| - 1]] + q)
    decreases |pre|
  {
    if |pre| == 1 {
      assert pre == [pre[0]];
    } else {
      var rest := pre[1..];
      JoinDescents(rest, q);
      DescentsHead(pre[0], rest + q);
      assert pre + q == [pre[0]] + (rest + q);
      hide Descents;
    }
  }

  lemma {:induction false} GridMany(f: nat, a: nat, k: nat)
    requires 1 <= f
    ensures (a + k * f) % f == a % f
  {
    if k > 0 {
      GridMany(f, a, k - 1);
      GridStep(f, a + (k - 1) * f);
      assert a + k * f == a + (k - 1) * f + f;
    }
  }

  /** The drain behind an output that came before it: back at most once, and never if nothing is late. */
  lemma DrainBehind(cfg: JitterConfig, keys: set<u64>, at: u64, fates: seq<bool>, last: u64)
    requires |keys| <= |fates| && Congruent(cfg, keys, at) && last < at
    ensures var order := DrainOrder(cfg, keys, at, fates);
            && Descents([last] + order) <= 1
            && ((forall t :: t in keys ==> at <= t) ==> Descents([last] + order) == 0)
  {
    hide Congruent, DrainOrder, Descents;
    var order := DrainOrder(cfg, keys, at, fates);
    DescentsHead(last, order);
    AtMostOneDescent(cfg, keys, at, fates);
    OrderFromKeys(cfg, keys, at, fates);
    if keys != {} {
      var t := if at in keys then at else FirstKey(keys);
      OrderHead(cfg, keys, at, fates, t, DrainOrder(cfg, keys - {t}, PointAfter(cfg, t, fates[0]), fates[1..]));
      if at !in keys {
        FromFirst(cfg, keys, at, fates);
      }
    }
    if forall t :: t in keys ==> at <= t {
      NoLateFrameNoDescent(cfg, keys, at, fates);
    }
  }

  lemma DistinctOrder(cfg: JitterConfig, keys: set<u64>, at: u64, fates: seq<bool>)
    requires |keys| <= |fates|
    ensures var order := DrainOrder(cfg, keys, at, fates); forall i, j :: 0 <= i < j < |order| ==> order[i] != order[j]
  {
    DrainIsPermutation(cfg, keys, at, fates);
    hide DrainOrder;
    var order := DrainOrder(cfg, keys, at, fates);
    forall i, j | 0 <= i < j < |order|
      ensures order[i] != order[j]
    {
      assert order == order[..j] + [order[j]] + order[j + 1..];
      assert order[i] in order[..j];
      assert multiset(order)[order[j]] <= 1;
    }
  }

  /** Steady output up to the play point, then the drain. */
  lemma SteadyThenDrain(cfg: JitterConfig, pre: seq<u64>, first: u64, keys: set<u64>, at: u64, fates: seq<bool>)
    requires |keys| <= |fates| && Congruent(cfg, keys, at)
    requires Steady(cfg, pre, first) && at == first + |pre| * cfg.frameSize
    ensures var order := DrainOrder(cfg, keys, at, fates);
            && |order| <= |fates|
            && Descents(pre + Played(order, fates)) <= 1
            && ((forall t :: t in keys ==> at <= t) ==> Descents(pre + Played(order, fates)) == 0)
  {
    var order := DrainOrder(cfg, keys, at, fates);
    OrderFromKeys(cfg, keys, at, fates);
    assert 1 <= cfg.frameSize;
    if pre == [] {
      PlayedDescendsNoMore(order, fates);
      AtMostOneDescent(cfg, keys, at, fates);
      if forall t :: t in keys ==> at <= t {
        NoLateFrameNoDescent(cfg, keys, at, fates);
      }
      assert pre + Played(order, fates) == Played(order, fates);
    } else {
      var last := pre[|pre| - 1];
      SteadyIncreases(cfg, pre, first);
      JoinDescents(pre, Played(order, fates));
      PlayedBehind(last, order, fates);
      DrainBehind(cfg, keys, at, fates, last);
    }
    hide Congruent, DrainOrder, Descents, Played;
  }

  lemma SteadyIncreases(cfg: JitterConfig, pre: seq<u64>, first: u64)
    requires 1 <= cfg.frameSize && Steady(cfg, pre, first) && pre != []
    ensures forall j :: 0 < j < |pre| ==> pre[j - 1] < pre[j]
    ensures pre[|pre| - 1] < first + |pre| * cfg.frameSize
  {
    forall j | 0 < j < |pre|
      ensures pre[j - 1] < pre[j]
    {
      assert (j - 1) * cfg.frameSize + cfg.frameSize == j * cfg.frameSize;
    }
    assert (|pre| - 1) * cfg.frameSize + cfg.frameSize == |pre| * cfg.frameSize;
  }

  // ---------------------------------------------------------------- the order of the whole run

  /** All frames of the stream on one grid of frame-sized steps. */
  ghost predicate OnGrid(cfg: JitterConfig, inbox: seq<Input>) {
    1 <= cfg.frameSize &&
    forall i, j :: 0 <= i < |inbox| && 0 <= j < |inbox| && inbox[i].Arrives? && inbox[j].Arrives? ==>
      inbox[i].timestamp % cfg.frameSize == inbox[j].timestamp % cfg.frameSize
  }

  ghost predicate CameIn(inputs: seq<Input>, t: u64) {
    exists i :: 0 <= i < |inputs| && inputs[i].Arrives? && inputs[i].timestamp == t
  }

  lemma CameInMore(inputs: seq<Input>, n: nat, t: u64)
    requires n <= |inputs| && CameIn(inputs[..n], t)
    ensures CameIn(inputs, t)
  {
    var i :| 0 <= i < n && inputs[..n][i].Arrives? && inputs[..n][i].timestamp == t;
    assert inputs[i] == inputs[..n][i];
  }

  lemma {:induction false} FramesCameIn(inputs: seq<Input>)
    ensures forall t :: t in Received(inputs) ==> CameIn(inputs, t)
    ensures FirstTs(inputs).Some? ==> CameIn(inputs, FirstTs(inputs).value)
  {
    if inputs != [] {
      var init, last := inputs[..|inputs| - 1], inputs[|inputs| - 1];
      FramesCameIn(init);
      hide CameIn;
      if last.Arrives? {
        LastCameIn(inputs);
      }
      forall t | CameIn(init, t)
        ensures CameIn(inputs, t)
      {
        CameInMore(inputs, |init|, t);
      }
    }
  }

  lemma LastCameIn(inputs: seq<Input>)
    requires inputs != [] && inputs[|inputs| - 1].Arrives?
    ensures CameIn(inputs, inputs[|inputs| - 1].timestamp)
  {
  }

  /** What is buffered at the end is on the grid of the play point. */
  lemma EndOnGrid(cfg: JitterConfig, inbox: seq<Input>, n: nat, k: nat, failed: bool, e: JitterState)
    requires n <= |inbox| && OnGrid(cfg, inbox) && Fits(cfg, inbox) && e.nextPlayTs.Some?
    requires Playing(cfg, inbox[..n], e.(isEof := false), k, failed)
    ensures Congruent(cfg, e.buffer.Keys, e.nextPlayTs.value)
  {
    var inputs, keys, at := inbox[..n], e.buffer.Keys, e.nextPlayTs.value;
    PlayingIsOpen(cfg, inputs, e.(isEof := false), k, failed);
    hide Playing, Received, FirstTs;
    FramesCameIn(inputs);
    var first := FirstTs(inputs).value;
    CameInMore(inbox, n, first);
    GridMany(cfg.frameSize, first, k);
    forall t | t in keys
      ensures t % cfg.frameSize == at % cfg.frameSize && t + cfg.frameSize < TWO64
    {
      assert t in Received(inputs);
      CameInMore(inbox, n, t);
    }
  }

  /** Nothing buffered when the end is taken is behind the play point. */
  ghost predicate NothingLate(e: JitterState) {
    e.nextPlayTs.Some? ==> forall t :: t in e.buffer ==> e.nextPlayTs.value <= t
  }

  lemma DescentsOfPrefix(a: seq<u64>, b: seq<u64>)
    ensures Descents(a) <= Descents(a + b)
    decreases |a|
  {
    if |a| < 2 {
    } else {
      assert (a + b)[1..] == a[1..] + b;
      DescentsOfPrefix(a[1..], b);
    }
  }

  /** The whole run past the end, once it is long enough to empty the buffer. */
  lemma LongRunOrder(cfg: JitterConfig, inbox: seq<Input>, fates: seq<bool>, i: nat, taken: nat, e: JitterState)
    requires 1 <= cfg.playoutDelay && Fits(cfg, inbox) && OnGrid(cfg, inbox)
    requires PassesEnd(cfg, inbox, fates, i, taken, e) && e.nextPlayTs.Some? && |e.buffer.Keys| <= |fates[i..]|
    ensures var stamps := Stamps(Calls(cfg, Fresh(inbox), fates).1);
            Descents(stamps) <= 1 && (NothingLate(e) ==> Descents(stamps) == 0)
  {
    hide Calls, Yield, Playing, Outputs, FailedHere, Results, DrainOrder, Stamps, Descents, Congruent, Played, Fits, OnGrid;
    RunFromEnd(cfg, inbox, fates, i, taken, e);
    var outs, after := Calls(cfg, Fresh(inbox), fates[..i]).1, fates[i..];
    var at := e.nextPlayTs.value;
    DrainPlaysEveryFrame(cfg, e, after);
    var order := DrainOrder(cfg, e.buffer.Keys, at, after);
    DistinctOrder(cfg, e.buffer.Keys, at, after);
    StampsOfResults(e.buffer, order, after);
    StampsAppend(outs, Calls(cfg, e, after).1);
    GridOf(cfg, inbox);
    SteadyBeforeEnd(cfg, inbox, fates[..i]);
    PlayingIsOpen(cfg, inbox[..taken - 1], e.(isEof := false), Outputs(outs), FailedHere(outs));
    FirstStays(inbox[..taken - 1], inbox[taken - 1..]);
    assert inbox[..taken - 1] + inbox[taken - 1..] == inbox;
    EndOnGrid(cfg, inbox, taken - 1, Outputs(outs), FailedHere(outs), e);
    SteadyThenDrain(cfg, Stamps(outs), FirstTs(inbox).value, e.buffer.Keys, at, after);
  }

  lemma GridOf(cfg: JitterConfig, inbox: seq<Input>)
    requires OnGrid(cfg, inbox)
    ensures 1 <= cfg.frameSize
  {
  }

  /** The end came before any frame, and so has none since. */
  predicate Idle(st: JitterState) {
    st.isEof && st.nextPlayTs == None && st.buffer == map[]
  }

  /** One frame that comes after such an end is taken out by the call that receives it. */
  lemma {:induction false} IdleYield(cfg: JitterConfig, st: JitterState, decodes: bool)
    requires Idle(st)
    ensures var (after, o) := Yield(cfg, st, decodes);
            (Idle(after) && !o.Pcm?) || (after.isEof && after.nextPlayTs.Some? && after.buffer.Keys == {})
    decreases |st.inbox|
  {
    if st.inbox != [] && st.inbox[0].Arrives? {
      var next := OnInput(st).state;
      assert next.buffer - {st.inbox[0].timestamp} == map[];
      assert Yield(cfg, st, decodes) == Yield(cfg, next, decodes);
    }
  }

  lemma {:induction false} IdleStamps(cfg: JitterConfig, st: JitterState, fates: seq<bool>)
    requires Idle(st)
    ensures |Stamps(Calls(cfg, st, fates).1)| <= 1
    decreases |fates|
  {
    hide Yield;
    if fates != [] {
      var (after, o) := Yield(cfg, st, fates[0]);
      var rest := Calls(cfg, after, fates[1..]).1;
      IdleYield(cfg, st, fates[0]);
      CallsHead(cfg, st, fates);
      StampsOne(o);
      StampsAppend([o], rest);
      if Idle(after) && !o.Pcm? {
        IdleStamps(cfg, after, fates[1..]);
      } else {
        EmptyStays(cfg, after, fates[1..]);
        NoStamps(rest);
      }
      hide Calls, Stamps;
    }
  }

  lemma ShortIsInOrder(s: seq<u64>)
    requires |s| <= 1
    ensures Descents(s) == 0
  {
  }

  /** A run whose stream ended before any frame came. */
  lemma EmptyRunOrder(cfg: JitterConfig, inbox: seq<Input>, fates: seq<bool>, i: nat, taken: nat, e: JitterState)
    requires 1 <= cfg.frameSize && 1 <= cfg.playoutDelay && Fits(cfg, inbox)
    requires PassesEnd(cfg, inbox, fates, i, taken, e) && e.nextPlayTs == None
    ensures Descents(Stamps(Calls(cfg, Fresh(inbox), fates).1)) == 0
  {
    hide Calls, Yield, Playing, Outputs, FailedHere, Stamps, Descents, Fits;
    var (st, outs) := Calls(cfg, Fresh(inbox), fates[..i]);
    CallsAppend(cfg, Fresh(inbox), fates[..i], fates[i..]);
    assert fates[..i] + fates[i..] == fates;
    CallsHead(cfg, st, fates[i..]);
    SteadyBeforeEnd(cfg, inbox, fates[..i]);
    PlayingIsOpen(cfg, inbox[..taken - 1], e.(isEof := false), Outputs(outs), FailedHere(outs));
    var rest := Calls(cfg, e, fates[i..][1..]).1;
    IdleStamps(cfg, e, fates[i..][1..]);
    StampsOne(NoMore);
    StampsAppend([NoMore], rest);
    StampsAppend(outs, [NoMore] + rest);
    ShortIsInOrder(Stamps(outs) + Stamps([NoMore] + rest));
  }

  lemma SteadyRunOrder(cfg: JitterConfig, inbox: seq<Input>, fates: seq<bool>)
    requires 1 <= cfg.frameSize && 1 <= cfg.playoutDelay && Fits(cfg, inbox)
    requires !Calls(cfg, Fresh(inbox), fates).0.isEof
    ensures Descents(Stamps(Calls(cfg, Fresh(inbox), fates).1)) == 0
  {
    hide Calls, Outputs, Stamps, Descents, Fits, FirstTs;
    SteadyBeforeEnd(cfg, inbox, fates);
    var stamps := Stamps(Calls(cfg, Fresh(inbox), fates).1);
    if stamps == [] {
      ShortIsInOrder(stamps);
    } else {
      SteadyIncreases(cfg, stamps, FirstTs(inbox).value);
      JoinDescents(stamps, []);
      assert stamps + [] == stamps;
      ShortIsInOrder([stamps[|stamps| - 1]] + []);
    }
  }

  /** A whole run, with any losses, reordering, duplicates, timeouts and decoder failures, through the end of
      the stream and beyond, for frames on one grid: before the end nothing is ever put out behind what came
      before; the call that passes the end takes it with the play point where the outputs made so far put
      it; and over the whole run the output goes back at most once, and never if no frame still buffered
      at the end is behind that play point. */
  lemma WholeRunOrder(cfg: JitterConfig, inbox: seq<Input>, fates: seq<bool>) returns (i: nat, taken: nat, e: JitterState)
    requires 1 <= cfg.playoutDelay && Fits(cfg, inbox) && OnGrid(cfg, inbox)
    ensures var (st, outs) := Calls(cfg, Fresh(inbox), fates);
            && Descents(Stamps(outs)) <= 1
            && (!st.isEof ==> Descents(Stamps(outs)) == 0)
            && (st.isEof ==> PassesEnd(cfg, inbox, fates, i, taken, e) && (NothingLate(e) ==> Descents(Stamps(outs)) == 0))
  {
    hide Calls, Yield, PassesEnd, Stamps, Descents, Fits, OnGrid, NothingLate;
    i, taken, e := 0, 0, Fresh(inbox);
    GridOf(cfg, inbox);
    if Calls(cfg, Fresh(inbox), fates).0.isEof {
      i, taken, e := EndIsPassed(cfg, inbox, fates);
      if e.nextPlayTs == None {
        EmptyRunOrder(cfg, inbox, fates, i, taken, e);
      } else {
        EndedRunOrder(cfg, inbox, fates, i, taken, e);
      }
    } else {
      SteadyRunOrder(cfg, inbox, fates);
    }
  }

  /** The run so far goes back no more often than the run with enough calls to empty the buffer. */
  lemma EndedRunOrder(cfg: JitterConfig, inbox: seq<Input>, fates: seq<bool>, i: nat, taken: nat, e: JitterState)
    requires 1 <= cfg.playoutDelay && Fits(cfg, inbox) && OnGrid(cfg, inbox)
    requires PassesEnd(cfg, inbox, fates, i, taken, e) && e.nextPlayTs.Some?
    ensures var stamps := Stamps(Calls(cfg, Fresh(inbox), fates).1);
            Descents(stamps) <= 1 && (NothingLate(e) ==> Descents(stamps) == 0)
  {
    var more := seq(|e.buffer.Keys|, _ => true);
    hide Calls, Yield, Stamps, Descents, Fits, OnGrid, NothingLate, Playing, Outputs, FailedHere;
    PassesLonger(cfg, inbox, fates, more, i, taken, e);
    LongRunOrder(cfg, inbox, fates + more, i, taken, e);
    CallsAppend(cfg, Fresh(inbox), fates, more);
    var (mid, outs) := Calls(cfg, Fresh(inbox), fates);
    StampsAppend(outs, Calls(cfg, mid, more).1);
    DescentsOfPrefix(Stamps(outs), Stamps(Calls(cfg, mid, more).1));
  }

  /** One call after the end: the frame at the play point is taken out, or else the earliest buffered one;
      None if nothing is left. */
  ghost predicate TakesOut(cfg: JitterConfig, e: JitterState, point: u64, decodes: bool, after: JitterState, o: Outcome) {
    if e.buffer == map[] then after == e && o == NoMore
    else exists t: u64 :: t in e.buffer && (if point in e.buffer then t == point else IsLeast(e.buffer.Keys, t))
           && after == e.(buffer := e.buffer - {t}, nextPlayTs := Some(PointAfter(cfg, t, decodes)))
           && o == if decodes then Pcm(t, Some(e.buffer[t])) else DecoderFailed
  }

  lemma EndedCall(cfg: JitterConfig, e: JitterState, decodes: bool)
    requires e.isEof && e.nextPlayTs.Some?
    ensures TakesOut(cfg, e, e.nextPlayTs.value, decodes, Yield(cfg, e, decodes).0, Yield(cfg, e, decodes).1)
  {
    hide Yield, PointAfter;
    if e.buffer == map[] {
      EmptyStays(cfg, e, []);
    } else {
      assert e.buffer.Keys != {};
      var t := if e.nextPlayTs.value in e.buffer then e.nextPlayTs.value else FirstKey(e.buffer.Keys);
      DrainStep(cfg, e, t, decodes);
      assert e.nextPlayTs.value !in e.buffer ==> IsLeast(e.buffer.Keys, t);
    }
  }

  /** The call that passes the end: the play point is where the outputs made so far put it, and the call
      takes out the frame there, or else the earliest one left. */
  lemma EndingCall(cfg: JitterConfig, inbox: seq<Input>, fates: seq<bool>, i: nat, taken: nat, e: JitterState)
    requires PassesEnd(cfg, inbox, fates, i, taken, e) && e.nextPlayTs.Some?
    ensures var (st, outs) := Calls(cfg, Fresh(inbox), fates[..i]);
            var (after, o) := Yield(cfg, st, fates[i]);
            && FirstTs(inbox[..taken - 1]).Some?
            && e.nextPlayTs.value == FirstTs(inbox[..taken - 1]).value + Outputs(outs) * cfg.frameSize
            && TakesOut(cfg, e, e.nextPlayTs.value, fates[i], after, o)
  {
    hide Calls, Yield, Outputs, FailedHere, Playing, TakesOut, FirstTs;
    var outs := Calls(cfg, Fresh(inbox), fates[..i]).1;
    PlayingIsOpen(cfg, inbox[..taken - 1], e.(isEof := false), Outputs(outs), FailedHere(outs));
    EndedCall(cfg, e, fates[i]);
  }
}
