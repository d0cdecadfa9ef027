/** Fragment grouping and reassembly at the receiver (src/mani/transfer/compression.rs). */
module Reassembly {
  import opened Types
  import opened PacketCodec
  import opened Sending

  /** The fragments received so far of one chunk. */
  datatype Group = Group(total: u16, frags: map<u16, bytes>, timestamp: u64)

  type Groups = map<u32, Group>

  lemma {:induction false} LeastOf(s: set<u32>) returns (m: u32)
    requires s != {}
    ensures m in s && forall x :: x in s ==> m <= x
    decreases |s|
  {
    m :| m in s;
    if s != {m} {
      var n := LeastOf(s - {m});
      forall x | x in s
        ensures x == m || n <= x
      {
        assert x == m || x in s - {m};
      }
      m := if m <= n then m else n;
    }
  }

  lemma HasMin(s: set<u32>)
    requires s != {}
    ensures exists m :: m in s && forall x :: x in s ==> m <= x
  {
    var m := LeastOf(s);
    assert m in s;
  }

  /** The least key, which the code takes for the oldest group. */
  ghost function Oldest(s: set<u32>): (m: u32)
    requires s != {}
    ensures m in s && forall x :: x in s ==> m <= x
  {
    HasMin(s);
    var m :| m in s && forall x :: x in s ==> m <= x;
    m
  }

  ghost predicate Evicts(cap: nat, groups: Groups, key: u32) {
    key !in groups && |groups| >= cap && groups.Keys != {}
  }

  ghost function AfterEviction(cap: nat, groups: Groups, key: u32): Groups {
    if Evicts(cap, groups, key) then groups - {Oldest(groups.Keys)} else groups
  }

  function WithFragment(groups: Groups, p: Packet, i: u16, total: u16, payload: bytes): Group {
    var g := if p.seqno in groups then groups[p.seqno] else Group(total, map[], p.timestamp);
    g.(frags := g.frags[i := payload])
  }

  /** Fragments 0 to `n - 1` in order, if all are there. */
  function Assemble(frags: map<u16, bytes>, n: u16): Option<bytes> {
    if n == 0 then Some([])
    else match Assemble(frags, n - 1)
      case None => None
      case Some(b) => if n - 1 in frags then Some(b + frags[n - 1]) else None
  }

  /** One packet: the new groups, and the chunk it completes, still compressed. */
  ghost function Receive(cap: nat, groups: Groups, p: Packet): (Groups, Option<Packet>) {
    match DecodeContent(p.content)
    case None => (groups, None)
    case Some(Single(payload)) => (groups, Some(p.(content := payload)))
    case Some(Fragment(i, total, payload)) =>
      var kept := AfterEviction(cap, groups, p.seqno);
      Settle(kept, p, WithFragment(kept, p, i, total, payload))
  }

  /** Stores a group that has just grown, or takes it out and assembles it if its count is reached. */
  function Settle(kept: Groups, p: Packet, g: Group): (Groups, Option<Packet>) {
    if |g.frags| == g.total then
      (kept - {p.seqno},
       match Assemble(g.frags, g.total)
       case None => None
       case Some(b) => Some(Packet(p.streamId, p.seqno, g.timestamp, b)))
    else (kept[p.seqno := g], None)
  }

  // ---------------------------------------------------------------- the receive loop

  /** A channel to one sink; `open` is whether its receiver still exists. */
  datatype Sink = Sink(open: bool, queue: seq<Packet>)

  function Routed(sinks: seq<Sink>, p: Packet): (r: seq<Sink>)
    ensures |r| == |sinks|
  {
    seq(|sinks|, i requires 0 <= i < |sinks| =>
      if sinks[i].open then sinks[i].(queue := sinks[i].queue + [p]) else sinks[i])
  }

  predicate AllDropped(sinks: seq<Sink>) {
    |sinks| > 0 && forall i :: 0 <= i < |sinks| ==> !sinks[i].open
  }

  datatype TaskState = TaskState(groups: Groups, sinks: seq<Sink>, stopped: bool)

  /** The body of the receive loop. */
  ghost function TaskStep(cap: nat, decompress: bytes -> bytes, st: TaskState, p: Packet): TaskState {
    if st.stopped then st else
    var (groups, out) := Receive(cap, st.groups, p);
    match out
    case None => st.(groups := groups)
    case Some(c) => TaskState(groups, Routed(st.sinks, c.(content := decompress(c.content))), AllDropped(st.sinks))
  }

  ghost function TaskRun(cap: nat, decompress: bytes -> bytes, st: TaskState, arrivals: seq<Packet>): TaskState {
    if arrivals == [] then st
    else TaskStep(cap, decompress, TaskRun(cap, decompress, st, arrivals[..|arrivals| - 1]), arrivals[|arrivals| - 1])
  }

  class CompressedPacketReceiver {
    const decompress: bytes -> bytes
    const maxFragmentGroups: nat
    var fragmentBuffers: Groups
    var senders: seq<Sink>

    constructor (decompress: bytes -> bytes, maxFragmentGroups: nat, sinks: nat)
      ensures this.decompress == decompress && this.maxFragmentGroups == maxFragmentGroups
      ensures fragmentBuffers == map[] && senders == seq(sinks, _ => Sink(true, []))
    {
      this.decompress, this.maxFragmentGroups := decompress, maxFragmentGroups;
      fragmentBuffers, senders := map[], seq(sinks, _ => Sink(true, []));
    }

    method OldestKey() returns (oldest: u32)
      requires fragmentBuffers.Keys != {}
      ensures oldest == Oldest(fragmentBuffers.Keys)
    {
      var keys := fragmentBuffers.Keys;
      oldest :| oldest in keys;
      var left := keys - {oldest};
      while left != {}
        invariant left <= keys && oldest in keys
        invariant forall x :: x in keys && x !in left ==> oldest <= x
        decreases left
      {
        var x :| x in left;
        if x < oldest {
          oldest := x;
        }
        left := left - {x};
      }
    }

    /** Returns `true` if every sink is gone. */
    method Route(p: Packet) returns (stop: bool)
      modifies this`senders
      ensures senders == Routed(old(senders), p)
      ensures stop == AllDropped(old(senders))
    {
      var anyAlive := false;
      var routed := [];
      for i := 0 to |senders|
        invariant senders == old(senders) && |routed| == i
        invariant routed == Routed(senders, p)[..i]
        invariant anyAlive <==> exists j :: 0 <= j < i && senders[j].open
      {
        if senders[i].open {
          routed := routed + [senders[i].(queue := senders[i].queue + [p])];
          anyAlive := true;
        } else {
          routed := routed + [senders[i]];
        }
      }
      senders := routed;
      stop := !anyAlive && |senders| > 0;
    }

    method AssembleGroup(g: Group) returns (r: Option<bytes>)
      ensures r == Assemble(g.frags, g.total)
    {
      var assembled: bytes := [];
      for i := 0 to g.total
        invariant Assemble(g.frags, i) == Some(assembled)
      {
        if i !in g.frags {
          MissingStaysMissing(g.frags, i + 1, g.total);
          return None;
        }
        assembled := assembled + g.frags[i];
      }
      r := Some(assembled);
    }

    /** Evicts if need be and adds one fragment to its group. */
    method InsertFragment(p: Packet, i: u16, total: u16, payload: bytes) returns (g: Group)
      modifies this`fragmentBuffers
      ensures var kept := AfterEviction(maxFragmentGroups, old(fragmentBuffers), p.seqno);
              g == WithFragment(kept, p, i, total, payload) && fragmentBuffers == kept[p.seqno := g]
    {
      var key := p.seqno;
      if key !in fragmentBuffers && |fragmentBuffers| >= maxFragmentGroups && fragmentBuffers.Keys != {} {
        var oldest := OldestKey();
        fragmentBuffers := fragmentBuffers - {oldest};
      }
      if key !in fragmentBuffers {
        fragmentBuffers := fragmentBuffers[key := Group(total, map[], p.timestamp)];
      }
      g := fragmentBuffers[key];
      g := g.(frags := g.frags[i := payload]);
      fragmentBuffers := fragmentBuffers[key := g];
    }

    method ReceivePacket(p: Packet) returns (out: Option<Packet>)
      modifies this`fragmentBuffers
      ensures (fragmentBuffers, out) == Receive(maxFragmentGroups, old(fragmentBuffers), p)
    {
      var decoded := DecodeContent(p.content);
      match decoded {
        case None => out := None;
        case Some(Single(payload)) => out := Some(p.(content := payload));
        case Some(Fragment(i, total, payload)) =>
          ghost var kept := AfterEviction(maxFragmentGroups, fragmentBuffers, p.seqno);
          var g := InsertFragment(p, i, total, payload);
          out := None;
          if |g.frags| == g.total {
            assert fragmentBuffers - {p.seqno} == kept - {p.seqno};
            fragmentBuffers := fragmentBuffers - {p.seqno};
            var assembled := AssembleGroup(g);
            if assembled.Some? {
              out := Some(Packet(p.streamId, p.seqno, g.timestamp, assembled.value));
            }
          }
      }
    }

    /** The receive loop, over the packets that arrive until the channel closes. */
    method Run(arrivals: seq<Packet>) returns (stopped: bool)
      modifies this
      ensures TaskState(fragmentBuffers, senders, stopped)
           == TaskRun(maxFragmentGroups, decompress, TaskState(old(fragmentBuffers), old(senders), false), arrivals)
    {
      ghost var start := TaskState(fragmentBuffers, senders, false);
      stopped := false;
      for i := 0 to |arrivals|
        invariant !stopped
        invariant TaskState(fragmentBuffers, senders, false) == TaskRun(maxFragmentGroups, decompress, start, arrivals[..i])
      {
        assert arrivals[..i + 1][..i] == arrivals[..i];
        var out := ReceivePacket(arrivals[i]);
        if out.Some? {
          stopped := Route(out.value.(content := decompress(out.value.content)));
          if stopped {
            StoppedStays(maxFragmentGroups, decompress, start, arrivals, i + 1);
            return;
          }
        }
      }
      assert arrivals[..|arrivals|] == arrivals;
    }
  }

  lemma {:induction false} MissingStaysMissing(frags: map<u16, bytes>, i: u16, n: u16)
    requires i <= n && Assemble(frags, i) == None
    ensures Assemble(frags, n) == None
    decreases n - i
  {
    if i < n {
      MissingStaysMissing(frags, i + 1, n);
    }
  }

  lemma {:induction false} StoppedStays(cap: nat, decompress: bytes -> bytes, st: TaskState, arrivals: seq<Packet>, k: nat)
    requires k <= |arrivals| && TaskRun(cap, decompress, st, arrivals[..k]).stopped
    ensures TaskRun(cap, decompress, st, arrivals) == TaskRun(cap, decompress, st, arrivals[..k])
    decreases |arrivals|
  {
    if k == |arrivals| {
      assert arrivals[..k] == arrivals;
    } else {
      var rest := arrivals[..|arrivals| - 1];
      assert rest[..k] == arrivals[..k];
      StoppedStays(cap, decompress, st, rest, k);
    }
  }

  // ---------------------------------------------------------------- what was sent

  /** A compressed chunk and its pieces; no pieces if it travels in a single datagram. */
  datatype Chunk = Chunk(timestamp: u64, data: bytes, frags: seq<bytes>)

  /** The chunks of one transfer, numbered from 0. */
  datatype Source = Source(id: u64, chunks: seq<Chunk>)

  /** Cuts a compressed chunk as the sender does. */
  function Cut(limit: Option<nat>, timestamp: u64, data: bytes): Chunk
    requires Sendable(limit, data)
  {
    Chunk(timestamp, data, if NeedsFragment(limit, data) then Chunks(data, FragSize(limit)) else [])
  }

  function PartCount(c: Chunk): (n: nat)
    ensures n >= 1
  {
    if c.frags == [] then 1 else |c.frags|
  }

  function PartContent(c: Chunk, i: nat): Content
    requires i < PartCount(c)
  {
    if c.frags == [] then Single(c.data) else Fragment(i % TWO16, |c.frags| % TWO16, c.frags[i])
  }

  /** Datagram `i` of chunk number `s`. */
  function Part(id: u64, s: u32, c: Chunk, i: nat): Packet
    requires i < PartCount(c)
  {
    Packet(id, s, c.timestamp, EncodeContent(PartContent(c, i)))
  }

  /** These are the datagrams the sender makes. */
  lemma SenderMakesParts(id: u64, limit: Option<nat>, s: u32, timestamp: u64, data: bytes)
    requires Sendable(limit, data)
    ensures var c := Cut(limit, timestamp, data);
            var ps := PacketsFor(id, limit, s, timestamp, data);
            |ps| == PartCount(c) && forall i :: 0 <= i < |ps| ==> ps[i] == Part(id, s, c, i)
  {
    var c := Cut(limit, timestamp, data);
    assert NeedsFragment(limit, data) ==> data != [];
    assert |Contents(limit, data)| == PartCount(c);
  }

  /** The pieces make up the chunk, and their number fits the `u16` it is sent in. */
  ghost predicate ValidChunk(c: Chunk) {
    |c.frags| < TWO16 && (c.frags != [] ==> Join(c.frags) == c.data)
  }

  lemma CutIsValid(limit: Option<nat>, timestamp: u64, data: bytes)
    requires Sendable(limit, data) && |PacketsFor(0, limit, 0, timestamp, data)| < TWO16
    ensures ValidChunk(Cut(limit, timestamp, data))
  {
    SenderMakesParts(0, limit, 0, timestamp, data);
    if NeedsFragment(limit, data) {
      ChunksJoin(data, FragSize(limit));
    }
  }

  ghost predicate ValidSource(src: Source) {
    |src.chunks| < TWO32 && forall s :: 0 <= s < |src.chunks| ==> ValidChunk(src.chunks[s])
  }

  /** The chunk as it is handed to the sinks, before decompression. */
  function Whole(id: u64, s: u32, c: Chunk): Packet {
    Packet(id, s, c.timestamp, c.data)
  }

  /** `p` is datagram `i` of its chunk. */
  ghost predicate IsPart(src: Source, p: Packet, i: nat) {
    && p.seqno < |src.chunks|
    && i < PartCount(src.chunks[p.seqno])
    && p == Part(src.id, p.seqno, src.chunks[p.seqno], i)
  }

  ghost predicate IsGenuine(src: Source, p: Packet) {
    exists i: nat :: IsPart(src, p, i)
  }

  lemma PartDecodes(src: Source, p: Packet, i: nat)
    requires IsPart(src, p, i)
    ensures DecodeContent(p.content) == Some(PartContent(src.chunks[p.seqno], i))
  {
    ContentInverse(p.content, PartContent(src.chunks[p.seqno], i));
  }

  // ---------------------------------------------------------------- safety

  /** A group holds true fragments of its chunk, and only such as are in `pool`. */
  ghost predicate FragsFit(id: u64, pool: set<Packet>, key: u32, c: Chunk, g: Group) {
    && c.frags != []
    && g.total == |c.frags| && g.timestamp == c.timestamp
    && forall i {:trigger i in g.frags} :: i in g.frags ==>
         i < g.total && g.frags[i] == c.frags[i] && Part(id, key, c, i) in pool
  }

  /** Stored groups are not complete yet. */
  ghost predicate GroupsFit(src: Source, pool: set<Packet>, groups: Groups) {
    forall key {:trigger key in groups} :: key in groups ==>
      && key < |src.chunks|
      && FragsFit(src.id, pool, key, src.chunks[key], groups[key])
      && |groups[key].frags| < groups[key].total
  }

  /** `p` is a whole chunk, all of whose datagrams are in `pool`. */
  ghost predicate EmittedWhole(src: Source, pool: set<Packet>, p: Packet) {
    && p.seqno < |src.chunks|
    && var c := src.chunks[p.seqno];
    && p == Whole(src.id, p.seqno, c)
    && forall i :: 0 <= i < PartCount(c) ==> Part(src.id, p.seqno, c, i) in pool
  }

  lemma {:induction false} JoinSnoc(fs: seq<bytes>, x: bytes)
    ensures Join(fs + [x]) == Join(fs) + x
  {
    if fs == [] {
      assert (fs + [x])[1..] == [];
    } else {
      assert (fs + [x])[1..] == fs[1..] + [x];
      JoinSnoc(fs[1..], x);
    }
  }

  lemma {:induction false} AssembleIsJoin(frags: map<u16, bytes>, fs: seq<bytes>, n: u16)
    requires n <= |fs| && forall i :: 0 <= i < n ==> i in frags && frags[i] == fs[i]
    ensures Assemble(frags, n) == Some(Join(fs[..n]))
  {
    if n > 0 {
      AssembleIsJoin(frags, fs, n - 1);
      JoinSnoc(fs[..n - 1], fs[n - 1]);
      assert fs[..n - 1] + [fs[n - 1]] == fs[..n];
    }
  }

  predicate IsBelow(i: int, n: int) {
    0 <= i < n
  }

  function Below(n: nat): set<u16> {
    set i: u16 | 0 <= i < n && IsBelow(i, n)
  }

  lemma {:induction false} BelowSize(n: nat)
    requires n <= TWO16
    ensures |Below(n)| == n
  {
    if n > 0 {
      BelowSize(n - 1);
      assert Below(n) == Below(n - 1) + {n - 1};
    }
  }

  lemma SubsetSize<T>(a: set<T>, b: set<T>)
    requires a <= b
    ensures |a| <= |b|
  {
    if a != {} {
      var x :| x in a;
      SubsetSize(a - {x}, b - {x});
    }
  }

  lemma SubsetOfSameSize(a: set<u16>, b: set<u16>)
    requires a <= b && |a| == |b|
    ensures a == b
  {
    if b - a != {} {
      var x :| x in b - a;
      SubsetSize(a, b - {x});
    }
  }

  /** Pigeonhole: `n` distinct indices below `n` are all of them, so the missing-fragment branch of the
      assembly loop is unreachable for the fragments of a real chunk. */
  lemma CompleteGroupAssembles(c: Chunk, frags: map<u16, bytes>)
    requires ValidChunk(c) && c.frags != [] && |frags| == |c.frags|
    requires forall i :: i in frags ==> i < |c.frags| && frags[i] == c.frags[i]
    ensures frags.Keys == Below(|c.frags|)
    ensures Assemble(frags, |c.frags|) == Some(c.data)
  {
    BelowSize(|c.frags|);
    SubsetOfSameSize(frags.Keys, Below(|c.frags|));
    AssembleIsJoin(frags, c.frags, |c.frags|);
    assert c.frags[..|c.frags|] == c.frags;
  }

  /** What the group of a genuine fragment looks like once the fragment is in. */
  lemma GrownGroup(id: u64, pool: set<Packet>, key: u32, c: Chunk, before: Group, after: Group, i: u16)
    requires FragsFit(id, pool, key, c, before)
    requires i < |c.frags| && Part(id, key, c, i) in pool
    requires after == before.(frags := before.frags[i := c.frags[i]])
    ensures FragsFit(id, pool, key, c, after) && |after.frags| <= |c.frags|
    ensures after.frags.Keys == before.frags.Keys + {i}
  {
    hide Part;
    BelowSize(|c.frags|);
    assert after.frags.Keys == before.frags.Keys + {i};
    FragsBelow(id, pool, key, c, after);
    hide FragsFit;
    SubsetSize(after.frags.Keys, Below(|c.frags|));
  }

  lemma FragsBelow(id: u64, pool: set<Packet>, key: u32, c: Chunk, g: Group)
    requires FragsFit(id, pool, key, c, g)
    ensures g.frags.Keys <= Below(|c.frags|)
  {
    hide Part;
  }

  /** A genuine fragment's arrival, spelled out: the group grows, and is emitted if that completes it. */
  ghost predicate Arrived(src: Source, pool: set<Packet>, kept: Groups, p: Packet, i: u16, r: (Groups, Option<Packet>),
      g: Group)
    requires p.seqno < |src.chunks|
  {
    var c := src.chunks[p.seqno];
    && FragsFit(src.id, pool, p.seqno, c, g) && |g.frags| <= |c.frags|
    && g.frags.Keys == {i} + (if p.seqno in kept then kept[p.seqno].frags.Keys else {})
    && (if |g.frags| == |c.frags|
        then r == (kept - {p.seqno}, Some(Whole(src.id, p.seqno, c))) && g.frags.Keys == Below(|c.frags|)
        else r == (kept[p.seqno := g], None))
  }

  lemma FragmentArrival(src: Source, pool: set<Packet>, cap: nat, groups: Groups, p: Packet, i: u16) returns (g: Group)
    requires ValidSource(src) && GroupsFit(src, pool, groups)
    requires IsPart(src, p, i) && src.chunks[p.seqno].frags != [] && p in pool
    ensures Arrived(src, pool, AfterEviction(cap, groups, p.seqno), p, i, Receive(cap, groups, p), g)
  {
    hide Receive, AfterEviction, DecodeContent, FragsFit, GroupsFit, Settle, Arrived, ValidSource, ValidChunk, WithFragment, IsPart,
      Part, PartContent;
    var kept := AfterEviction(cap, groups, p.seqno);
    FragmentReceived(src, cap, groups, p, i);
    EvictionKeeps(cap, groups, p.seqno);
    PartIsBounded(src, p, i);
    var c := src.chunks[p.seqno];
    g := WithFragment(kept, p, i, |c.frags|, c.frags[i]);
    GroupGrows(src, pool, groups, kept, p, i, g);
    Settled(src, pool, kept, p, i, g);
  }

  /** The group a genuine fragment goes to, with the fragment in it. */
  lemma GroupGrows(src: Source, pool: set<Packet>, groups: Groups, kept: Groups, p: Packet, i: u16, g: Group)
    requires GroupsFit(src, pool, groups) && p.seqno < |src.chunks| && p in pool
    requires forall k {:trigger k in kept} :: k in kept ==> k in groups && kept[k] == groups[k]
    requires i < |src.chunks[p.seqno].frags| < TWO16 && p == Part(src.id, p.seqno, src.chunks[p.seqno], i)
    requires p.timestamp == src.chunks[p.seqno].timestamp
    requires g == WithFragment(kept, p, i, |src.chunks[p.seqno].frags|, src.chunks[p.seqno].frags[i])
    ensures FragsFit(src.id, pool, p.seqno, src.chunks[p.seqno], g) && |g.frags| <= |src.chunks[p.seqno].frags|
    ensures g.frags.Keys == {i} + (if p.seqno in kept then kept[p.seqno].frags.Keys else {})
  {
    hide FragsFit, GroupsFit, Part, WithFragment;
    var c := src.chunks[p.seqno];
    var before := if p.seqno in kept then kept[p.seqno] else Group(|c.frags|, map[], c.timestamp);
    BeforeFits(src, pool, groups, kept, p.seqno, before);
    GroupBefore(kept, p, i, |c.frags|, c.frags[i]);
    GrownGroup(src.id, pool, p.seqno, c, before, g, i);
  }

  lemma GroupBefore(kept: Groups, p: Packet, i: u16, total: u16, payload: bytes)
    ensures var before := if p.seqno in kept then kept[p.seqno] else Group(total, map[], p.timestamp);
            WithFragment(kept, p, i, total, payload) == before.(frags := before.frags[i := payload])
  {
  }

  lemma PartIsBounded(src: Source, p: Packet, i: u16)
    requires ValidSource(src) && IsPart(src, p, i) && src.chunks[p.seqno].frags != []
    ensures p.seqno < |src.chunks| && ValidChunk(src.chunks[p.seqno]) && i < |src.chunks[p.seqno].frags| < TWO16
    ensures p == Part(src.id, p.seqno, src.chunks[p.seqno], i)
    ensures p.streamId == src.id && p.timestamp == src.chunks[p.seqno].timestamp
    ensures PartContent(src.chunks[p.seqno], i) == Fragment(i, |src.chunks[p.seqno].frags|, src.chunks[p.seqno].frags[i])
  {
    hide EncodeContent, Join;
  }

  lemma BeforeFits(src: Source, pool: set<Packet>, groups: Groups, kept: Groups, key: u32, before: Group)
    requires GroupsFit(src, pool, groups) && key < |src.chunks|
    requires key in kept ==> key in groups && kept[key] == groups[key]
    requires src.chunks[key].frags != [] && |src.chunks[key].frags| < TWO16
    requires before == if key in kept then kept[key] else Group(|src.chunks[key].frags|, map[], src.chunks[key].timestamp)
    ensures FragsFit(src.id, pool, key, src.chunks[key], before)
  {
  }

  lemma FragmentReceived(src: Source, cap: nat, groups: Groups, p: Packet, i: u16)
    requires ValidSource(src) && IsPart(src, p, i) && src.chunks[p.seqno].frags != []
    ensures |src.chunks[p.seqno].frags| < TWO16
    ensures var c := src.chunks[p.seqno];
            var kept := AfterEviction(cap, groups, p.seqno);
            Receive(cap, groups, p) == Settle(kept, p, WithFragment(kept, p, i, |c.frags|, c.frags[i]))
  {
    hide DecodeContent, AfterEviction, Settle, WithFragment, Part, PartContent, ValidSource;
    PartIsBounded(src, p, i);
    PartDecodes(src, p, i);
  }

  lemma EvictionKeeps(cap: nat, groups: Groups, key: u32)
    ensures var kept := AfterEviction(cap, groups, key);
            && (forall k {:trigger k in kept} :: k in kept ==> k in groups && kept[k] == groups[k])
            && (key in groups ==> key in kept)
  {
  }

  lemma Settled(src: Source, pool: set<Packet>, kept: Groups, p: Packet, i: u16, g: Group)
    requires p.seqno < |src.chunks| && ValidChunk(src.chunks[p.seqno]) && p.streamId == src.id
    requires FragsFit(src.id, pool, p.seqno, src.chunks[p.seqno], g) && |g.frags| <= |src.chunks[p.seqno].frags|
    requires g.frags.Keys == {i} + (if p.seqno in kept then kept[p.seqno].frags.Keys else {})
    ensures Arrived(src, pool, kept, p, i, Settle(kept, p, g), g)
  {
    var c := src.chunks[p.seqno];
    SettleIs(src.id, pool, kept, p, c, g);
    hide FragsFit, Settle, ValidChunk, Below;
  }

  /** A genuine group either waits on or is emitted whole. */
  lemma SettleIs(id: u64, pool: set<Packet>, kept: Groups, p: Packet, c: Chunk, g: Group)
    requires ValidChunk(c) && p.streamId == id && FragsFit(id, pool, p.seqno, c, g)
    ensures if |g.frags| == |c.frags|
            then Settle(kept, p, g) == (kept - {p.seqno}, Some(Whole(id, p.seqno, c))) && g.frags.Keys == Below(|c.frags|)
            else Settle(kept, p, g) == (kept[p.seqno := g], None)
  {
    hide Part, Below, Assemble;
    if |g.frags| == |c.frags| {
      CompleteGroupAssembles(c, g.frags);
      hide FragsFit, ValidChunk;
    }
  }

  /** One arrival, in any state the fragments of a transfer can lead to. */
  lemma ReceiveIsSafe(src: Source, pool: set<Packet>, cap: nat, groups: Groups, p: Packet)
    requires ValidSource(src) && GroupsFit(src, pool, groups)
    requires IsGenuine(src, p) && p in pool
    ensures var (after, out) := Receive(cap, groups, p);
            && GroupsFit(src, pool, after)
            && (out.Some? ==> out.value.seqno == p.seqno && EmittedWhole(src, pool, out.value))
  {
    var i: nat :| IsPart(src, p, i);
    var c := src.chunks[p.seqno];
    if c.frags != [] {
      var g := FragmentArrival(src, pool, cap, groups, p, i);
      var kept := AfterEviction(cap, groups, p.seqno);
      ArrivalIsSafe(src, pool, groups, kept, p, i, Receive(cap, groups, p), g);
      hide *;
    } else {
      PartDecodes(src, p, i);
      assert Receive(cap, groups, p) == (groups, Some(Whole(src.id, p.seqno, c)));
      hide Receive, DecodeContent;
      assert EmittedWhole(src, pool, Whole(src.id, p.seqno, c));
    }
  }

  lemma ArrivalIsSafe(src: Source, pool: set<Packet>, groups: Groups, kept: Groups, p: Packet, i: u16,
                      r: (Groups, Option<Packet>), g: Group)
    requires ValidSource(src) && GroupsFit(src, pool, groups)
    requires forall key {:trigger key in kept} :: key in kept ==> key in groups && kept[key] == groups[key]
    requires p.seqno < |src.chunks| && Arrived(src, pool, kept, p, i, r, g)
    ensures GroupsFit(src, pool, r.0)
    ensures r.1.Some? ==> r.1.value.seqno == p.seqno && EmittedWhole(src, pool, r.1.value)
  {
    hide Part, ValidSource;
    if r.1.Some? {
      AllPartsInPool(src, pool, p, g);
    }
  }

  lemma AllPartsInPool(src: Source, pool: set<Packet>, p: Packet, g: Group)
    requires p.seqno < |src.chunks|
    requires FragsFit(src.id, pool, p.seqno, src.chunks[p.seqno], g)
    requires g.frags.Keys == Below(|src.chunks[p.seqno].frags|)
    ensures EmittedWhole(src, pool, Whole(src.id, p.seqno, src.chunks[p.seqno]))
  {
    hide Part;
    var c := src.chunks[p.seqno];
    forall k | 0 <= k < PartCount(c)
      ensures Part(src.id, p.seqno, c, k) in pool
    {
      assert k in Below(|c.frags|);
      assert k in g.frags;
    }
  }

  /** The groups after any arrivals, and everything emitted, in order. */
  ghost function ReceiveAll(cap: nat, arrivals: seq<Packet>): (Groups, seq<Packet>) {
    if arrivals == [] then (map[], []) else
    var (groups, out) := ReceiveAll(cap, arrivals[..|arrivals| - 1]);
    var (after, c) := Receive(cap, groups, arrivals[|arrivals| - 1]);
    (after, if c.Some? then out + [c.value] else out)
  }

  ghost predicate AllGenuine(src: Source, arrivals: seq<Packet>) {
    forall k :: 0 <= k < |arrivals| ==> IsGenuine(src, arrivals[k])
  }

  lemma {:induction false} RunIsSafe(src: Source, pool: set<Packet>, cap: nat, arrivals: seq<Packet>)
    requires ValidSource(src) && AllGenuine(src, arrivals)
    requires forall k :: 0 <= k < |arrivals| ==> arrivals[k] in pool
    ensures var (groups, out) := ReceiveAll(cap, arrivals);
            && GroupsFit(src, pool, groups)
            && forall j :: 0 <= j < |out| ==> EmittedWhole(src, pool, out[j])
  {
    hide Receive, EmittedWhole, IsGenuine;
    if arrivals != [] {
      var rest, p := arrivals[..|arrivals| - 1], arrivals[|arrivals| - 1];
      RunIsSafe(src, pool, cap, rest);
      ReceiveIsSafe(src, pool, cap, ReceiveAll(cap, rest).0, p);
      hide GroupsFit;
    }
  }

  ghost function PoolOf(arrivals: seq<Packet>): set<Packet> {
    set k | 0 <= k < |arrivals| :: arrivals[k]
  }

  /** Under any loss, order, repetition and interleaving, and whatever is evicted, everything emitted
      is a sent chunk, byte for byte and with its own timestamp, all of whose datagrams arrived. */
  lemma ReassemblySafety(src: Source, cap: nat, arrivals: seq<Packet>, j: nat)
    requires ValidSource(src) && AllGenuine(src, arrivals)
    requires j < |ReceiveAll(cap, arrivals).1|
    ensures var p := ReceiveAll(cap, arrivals).1[j];
            && p.seqno < |src.chunks|
            && p == Whole(src.id, p.seqno, src.chunks[p.seqno])
            && forall i :: 0 <= i < PartCount(src.chunks[p.seqno]) ==>
                 Part(src.id, p.seqno, src.chunks[p.seqno], i) in arrivals
  {
    RunIsSafe(src, PoolOf(arrivals), cap, arrivals);
    assert EmittedWhole(src, PoolOf(arrivals), ReceiveAll(cap, arrivals).1[j]);
  }

  // ---------------------------------------------------------------- how often a chunk is emitted

  ghost function Held(src: Source, groups: Groups, s: u32, i: nat): nat {
    if s in groups && i < TWO16 && i in groups[s].frags then 1 else 0
  }

  lemma ReceiveCounts(src: Source, pool: set<Packet>, cap: nat, groups: Groups, p: Packet, s: u32, i: nat)
    requires ValidSource(src) && GroupsFit(src, pool, groups) && IsGenuine(src, p) && p in pool
    requires s < |src.chunks| && i < PartCount(src.chunks[s])
    ensures var (after, out) := Receive(cap, groups, p);
            Held(src, after, s, i) + (if out == Some(Whole(src.id, s, src.chunks[s])) then 1 else 0)
              <= Held(src, groups, s, i) + (if p == Part(src.id, s, src.chunks[s], i) then 1 else 0)
  {
    var j: nat :| IsPart(src, p, j);
    var c := src.chunks[p.seqno];
    if c.frags != [] {
      var g := FragmentArrival(src, pool, cap, groups, p, j);
      var kept := AfterEviction(cap, groups, p.seqno);
      ArrivalCounts(src, pool, groups, kept, p, j, Receive(cap, groups, p), g, s, i);
      hide *;
    } else {
      PartDecodes(src, p, j);
      assert Receive(cap, groups, p) == (groups, Some(Whole(src.id, p.seqno, c)));
      hide Receive, DecodeContent, Part;
    }
  }

  lemma ArrivalCounts(src: Source, pool: set<Packet>, groups: Groups, kept: Groups, p: Packet, j: u16,
                      r: (Groups, Option<Packet>), g: Group, s: u32, i: nat)
    requires forall key {:trigger key in kept} :: key in kept ==> key in groups && kept[key] == groups[key]
    requires p.seqno in groups ==> p.seqno in kept
    requires IsPart(src, p, j) && ValidSource(src) && src.chunks[p.seqno].frags != []
    requires Arrived(src, pool, kept, p, j, r, g)
    requires s < |src.chunks| && i < PartCount(src.chunks[s])
    ensures Held(src, r.0, s, i) + (if r.1 == Some(Whole(src.id, s, src.chunks[s])) then 1 else 0)
         <= Held(src, groups, s, i) + (if p == Part(src.id, s, src.chunks[s], i) then 1 else 0)
  {
    hide Part, FragsFit;
    var c := src.chunks[p.seqno];
    if s == p.seqno && r.1.Some? {
      assert i in Below(|c.frags|);
    }
  }

  lemma PoolHasAll(arrivals: seq<Packet>)
    ensures forall k :: 0 <= k < |arrivals| ==> arrivals[k] in PoolOf(arrivals)
  {
  }

  lemma NothingHeld(src: Source, s: u32, i: nat)
    ensures Held(src, map[], s, i) == 0
  {
  }

  /** A chunk is emitted at most as often as the rarest of its datagrams arrived. */
  lemma {:induction false} EmittedAtMostAsReceived(src: Source, cap: nat, arrivals: seq<Packet>, s: u32, i: nat)
    requires ValidSource(src) && AllGenuine(src, arrivals)
    requires s < |src.chunks| && i < PartCount(src.chunks[s])
    ensures multiset(ReceiveAll(cap, arrivals).1)[Whole(src.id, s, src.chunks[s])] + Held(src, ReceiveAll(cap,
        arrivals).0, s, i)
         <= multiset(arrivals)[Part(src.id, s, src.chunks[s], i)]
  {
    hide Receive, Part, Whole, IsGenuine, GroupsFit, EmittedWhole, Held, PoolOf, ValidSource;
    if arrivals == [] {
      NothingHeld(src, s, i);
    } else {
      var rest, p := arrivals[..|arrivals| - 1], arrivals[|arrivals| - 1];
      EmittedAtMostAsReceived(src, cap, rest, s, i);
      PoolHasAll(arrivals);
      RunIsSafe(src, PoolOf(arrivals), cap, rest);
      ReceiveCounts(src, PoolOf(arrivals), cap, ReceiveAll(cap, rest).0, p, s, i);
      assert arrivals == rest + [p];
    }
  }

  // ---------------------------------------------------------------- completion

  /** The distinct parts of chunk `s` among the arrivals. */
  ghost function Indices(src: Source, arrivals: seq<Packet>, s: u32): set<u16>
    requires s < |src.chunks|
  {
    set i: u16 | IsBelow(i, PartCount(src.chunks[s])) && Part(src.id, s, src.chunks[s], i) in arrivals
  }

  ghost predicate EvictsGroup(cap: nat, groups: Groups, p: Packet, s: u32) {
    && DecodeContent(p.content).Some? && DecodeContent(p.content).value.Fragment?
    && s in groups && s !in AfterEviction(cap, groups, p.seqno)
  }

  /** The group of chunk `s` is never the one evicted. */
  ghost predicate Survives(cap: nat, arrivals: seq<Packet>, s: u32) {
    arrivals != [] ==>
      var rest, p := arrivals[..|arrivals| - 1], arrivals[|arrivals| - 1];
      Survives(cap, rest, s) && !EvictsGroup(cap, ReceiveAll(cap, rest).0, p, s)
  }

  ghost predicate HoldsExactly(groups: Groups, s: u32, received: set<u16>) {
    if s in groups then groups[s].frags.Keys == received else received == {}
  }

  lemma IndicesGrow(src: Source, rest: seq<Packet>, p: Packet, s: u32)
    requires ValidSource(src) && s < |src.chunks|
    ensures forall i: u16 :: IsPart(src, p, i) && p.seqno == s ==> Indices(src, rest + [p], s) == Indices(src, rest, s) + {i}
    ensures p.seqno != s ==> Indices(src, rest + [p], s) == Indices(src, rest, s)
    ensures Indices(src, rest, s) <= Indices(src, rest + [p], s)
  {
    forall i: u16 | IsPart(src, p, i) && p.seqno == s
      ensures Indices(src, rest + [p], s) == Indices(src, rest, s) + {i}
    {
      forall j: u16 | IsBelow(j, PartCount(src.chunks[s])) && Part(src.id, s, src.chunks[s], j) == p
        ensures j == i
      {
        SamePart(src, p, i, j);
      }
    }
  }

  lemma SamePart(src: Source, p: Packet, i: u16, j: u16)
    requires ValidSource(src) && IsPart(src, p, i) && IsPart(src, p, j)
    ensures i == j
  {
    PartDecodes(src, p, i);
    PartDecodes(src, p, j);
    hide DecodeContent, Part;
    var c := src.chunks[p.seqno];
    assert ValidChunk(c);
    if c.frags != [] {
      PartIsBounded(src, p, i);
      PartIsBounded(src, p, j);
    }
  }

  /** Until the last part is in, the group holds exactly the distinct parts received. */
  lemma {:induction false} Accumulates(src: Source, cap: nat, arrivals: seq<Packet>, s: u32)
    requires ValidSource(src) && AllGenuine(src, arrivals) && s < |src.chunks| && src.chunks[s].frags != []
    requires Survives(cap, arrivals, s)
    requires Indices(src, arrivals, s) != Below(|src.chunks[s].frags|)
    ensures HoldsExactly(ReceiveAll(cap, arrivals).0, s, Indices(src, arrivals, s))
  {
    assert ValidChunk(src.chunks[s]);
    hide Receive, EvictsGroup, IsGenuine, GroupsFit, EmittedWhole, IsPart, ValidSource, Part, HoldsExactly, Indices;
    if arrivals == [] {
      NoIndices(src, s);
    } else {
      var rest, p := arrivals[..|arrivals| - 1], arrivals[|arrivals| - 1];
      assert rest + [p] == arrivals;
      IndicesGrow(src, rest, p, s);
      StillIncomplete(src, rest, arrivals, s);
      Accumulates(src, cap, rest, s);
      RunIsSafe(src, PoolOf(arrivals), cap, rest);
      ArrivalAccumulates(src, PoolOf(arrivals), cap, rest, ReceiveAll(cap, rest).0, p, s);
    }
  }

  lemma NoIndices(src: Source, s: u32)
    requires s < |src.chunks|
    ensures Indices(src, [], s) == {} && HoldsExactly(map[], s, Indices(src, [], s))
  {
  }

  lemma StillIncomplete(src: Source, rest: seq<Packet>, arrivals: seq<Packet>, s: u32)
    requires s < |src.chunks| && src.chunks[s].frags != [] && |src.chunks[s].frags| < TWO16
    requires Indices(src, rest, s) <= Indices(src, arrivals, s) != Below(|src.chunks[s].frags|)
    ensures Indices(src, rest, s) != Below(|src.chunks[s].frags|)
  {
    hide Part;
    assert Indices(src, arrivals, s) <= Below(|src.chunks[s].frags|);
  }

  lemma ArrivalAccumulates(src: Source, pool: set<Packet>, cap: nat, rest: seq<Packet>, groups: Groups, p: Packet, s: u32)
    requires ValidSource(src) && GroupsFit(src, pool, groups) && IsGenuine(src, p) && p in pool
    requires s < |src.chunks| && src.chunks[s].frags != [] && |src.chunks[s].frags| < TWO16
    requires !EvictsGroup(cap, groups, p, s)
    requires HoldsExactly(groups, s, Indices(src, rest, s))
    requires Indices(src, rest + [p], s) != Below(|src.chunks[s].frags|)
    ensures HoldsExactly(Receive(cap, groups, p).0, s, Indices(src, rest + [p], s))
  {
    hide Indices, Part, GroupsFit, FragsFit, HoldsExactly, AfterEviction, ValidSource, DecodeContent, Receive, Arrived,
        IsPart;
    IndicesGrow(src, rest, p, s);
    var i: nat :| IsPart(src, p, i);
    GenuineDecodes(src, p, i);
    EvictionKeeps(cap, groups, p.seqno);
    if src.chunks[p.seqno].frags != [] {
      PartIsBounded(src, p, i);
      var g := FragmentArrival(src, pool, cap, groups, p, i);
      var kept := AfterEviction(cap, groups, p.seqno);
      SettledAccumulates(src, pool, groups, kept, p, i, Receive(cap, groups, p), g, s,
                         Indices(src, rest, s), Indices(src, rest + [p], s));
    } else {
      SingleChangesNothing(src, cap, groups, p);
    }
  }

  lemma GenuineDecodes(src: Source, p: Packet, i: nat)
    requires ValidSource(src) && IsPart(src, p, i)
    ensures p.seqno < |src.chunks| && i < TWO16
    ensures DecodeContent(p.content).Some?
    ensures DecodeContent(p.content).value.Fragment? <==> src.chunks[p.seqno].frags != []
    ensures src.chunks[p.seqno].frags == [] ==> DecodeContent(p.content).value == Single(src.chunks[p.seqno].data)
    ensures i < PartCount(src.chunks[p.seqno]) && p.streamId == src.id && p.timestamp == src.chunks[p.seqno].timestamp
  {
    PartDecodes(src, p, i);
    hide DecodeContent;
  }

  lemma SingleChangesNothing(src: Source, cap: nat, groups: Groups, p: Packet)
    requires p.seqno < |src.chunks| && p.streamId == src.id && p.timestamp == src.chunks[p.seqno].timestamp
    requires DecodeContent(p.content) == Some(Single(src.chunks[p.seqno].data))
    ensures Receive(cap, groups, p) == (groups, Some(Whole(src.id, p.seqno, src.chunks[p.seqno])))
  {
    hide DecodeContent;
  }

  lemma SettledAccumulates(src: Source, pool: set<Packet>, groups: Groups, kept: Groups, p: Packet, i: u16,
                           r: (Groups, Option<Packet>), g: Group, s: u32, before: set<u16>, after: set<u16>)
    requires p.seqno < |src.chunks| && s < |src.chunks| && Arrived(src, pool, kept, p, i, r, g)
    requires forall k {:trigger k in kept} :: k in kept ==> k in groups && kept[k] == groups[k]
    requires s in groups ==> s in kept
    requires HoldsExactly(groups, s, before) && after != Below(|src.chunks[s].frags|)
    requires after == if p.seqno == s then before + {i} else before
    ensures HoldsExactly(r.0, s, after)
  {
    hide FragsFit, Below;
  }

  /** Whatever the order, repetition and interleaving: the arrival of the last distinct part of a chunk
      whose group was not evicted hands the whole chunk on. */
  lemma LastPartCompletes(src: Source, cap: nat, rest: seq<Packet>, p: Packet, s: u32)
    requires ValidSource(src) && AllGenuine(src, rest + [p]) && s < |src.chunks|
    requires Survives(cap, rest + [p], s)
    requires |Indices(src, rest, s)| < PartCount(src.chunks[s]) == |Indices(src, rest + [p], s)|
    ensures ReceiveAll(cap, rest + [p]).1 == ReceiveAll(cap, rest).1 + [Whole(src.id, s, src.chunks[s])]
  {
    LastInRun(src, cap, rest, p, s);
    hide Receive, EvictsGroup, GroupsFit, EmittedWhole, IsPart, ValidSource, Part, HoldsExactly, Indices, Whole,
        DecodeContent;
    IndicesGrow(src, rest, p, s);
    var i: nat :| IsPart(src, p, i);
    GenuineDecodes(src, p, i);
    if src.chunks[s].frags != [] {
      LastFragmentCompletes(src, cap, rest, p, s, i);
    } else {
      SingleChangesNothing(src, cap, ReceiveAll(cap, rest).0, p);
    }
  }

  lemma LastInRun(src: Source, cap: nat, rest: seq<Packet>, p: Packet, s: u32)
    requires AllGenuine(src, rest + [p]) && Survives(cap, rest + [p], s)
    ensures AllGenuine(src, rest) && Survives(cap, rest, s) && IsGenuine(src, p)
    ensures var out := Receive(cap, ReceiveAll(cap, rest).0, p).1;
            ReceiveAll(cap, rest + [p]).1 == ReceiveAll(cap, rest).1 + (if out.Some? then [out.value] else [])
  {
    hide Receive, EvictsGroup, IsGenuine;
    assert (rest + [p])[..|rest|] == rest && (rest + [p])[|rest|] == p;
    forall k | 0 <= k < |rest|
      ensures IsGenuine(src, rest[k])
    {
      assert (rest + [p])[k] == rest[k];
    }
  }

  lemma LastFragmentCompletes(src: Source, cap: nat, rest: seq<Packet>, p: Packet, s: u32, i: u16)
    requires ValidSource(src) && AllGenuine(src, rest) && IsPart(src, p, i) && p.seqno == s
    requires s < |src.chunks| && src.chunks[s].frags != [] && Survives(cap, rest, s)
    requires |Indices(src, rest, s)| < |src.chunks[s].frags| == |Indices(src, rest, s) + {i}|
    requires Indices(src, rest + [p], s) == Indices(src, rest, s) + {i}
    ensures Receive(cap, ReceiveAll(cap, rest).0, p).1 == Some(Whole(src.id, s, src.chunks[s]))
  {
    hide Receive, EvictsGroup, GroupsFit, EmittedWhole, IsPart, ValidSource, Part, HoldsExactly, Indices, Whole,
        DecodeContent;
    hide FragsFit, Arrived, AfterEviction, IsGenuine, Survives;
    var pool := PoolOf(rest + [p]);
    assert p in pool by { assert (rest + [p])[|rest|] == p; }
    assert forall k :: 0 <= k < |rest| ==> rest[k] in pool by {
      assert forall k :: 0 <= k < |rest| ==> rest[k] == (rest + [p])[k];
    }
    PartIsBounded(src, p, i);
    AllIndices(src, rest + [p], s);
    BelowSize(|src.chunks[s].frags|);
    Accumulates(src, cap, rest, s);
    RunIsSafe(src, pool, cap, rest);
    var groups := ReceiveAll(cap, rest).0;
    hide ReceiveAll, PoolOf, AllGenuine;
    var g := FragmentArrival(src, pool, cap, groups, p, i);
    EvictionKeeps(cap, groups, s);
    SettledCompletes(src, pool, groups, AfterEviction(cap, groups, s), p, i, Receive(cap, groups, p), g, Indices(src,
        rest, s));
  }

  lemma AllIndices(src: Source, arrivals: seq<Packet>, s: u32)
    requires s < |src.chunks| && src.chunks[s].frags != [] && |src.chunks[s].frags| < TWO16
    requires |Indices(src, arrivals, s)| == |src.chunks[s].frags|
    ensures Indices(src, arrivals, s) == Below(|src.chunks[s].frags|)
  {
    hide Part;
    BelowSize(|src.chunks[s].frags|);
    SubsetOfSameSize(Indices(src, arrivals, s), Below(|src.chunks[s].frags|));
  }

  lemma SettledCompletes(src: Source, pool: set<Packet>, groups: Groups, kept: Groups, p: Packet, i: u16,
                         r: (Groups, Option<Packet>), g: Group, before: set<u16>)
    requires p.seqno < |src.chunks| && Arrived(src, pool, kept, p, i, r, g)
    requires forall k {:trigger k in kept} :: k in kept ==> k in groups && kept[k] == groups[k]
    requires p.seqno in groups ==> p.seqno in kept
    requires HoldsExactly(groups, p.seqno, before)
    requires before + {i} == Below(|src.chunks[p.seqno].frags|) && |src.chunks[p.seqno].frags| < TWO16
    ensures r.1 == Some(Whole(src.id, p.seqno, src.chunks[p.seqno]))
  {
    BelowSize(|src.chunks[p.seqno].frags|);
    hide FragsFit, Below;
    assert g.frags.Keys == before + {i};
  }

  // ---------------------------------------------------------------- eviction

  /** The datagram carries one fragment of several. */
  predicate IsFragment(p: Packet) {
    DecodeContent(p.content).Some? && DecodeContent(p.content).value.Fragment?
  }

  /** Another chunk's group is dropped if and only if a fragment opens a new group at capacity and no group
      has a smaller number. */
  lemma EvictedIff(cap: nat, groups: Groups, p: Packet, k: u32)
    requires k in groups && k != p.seqno
    ensures var after := Receive(cap, groups, p).0;
            && (k !in after <==> IsFragment(p) && p.seqno !in groups && |groups| >= cap && forall x :: x in groups ==> k <= x)
            && (k in after ==> after[k] == groups[k])
  {
    hide DecodeContent, WithFragment, Assemble;
    assert groups.Keys != {};
    assert k == Oldest(groups.Keys) <==> forall x :: x in groups ==> k <= x;
  }

  /** A group keeps the count and the timestamp its first fragment brought, whatever later ones say. */
  lemma FirstFragmentNames(cap: nat, groups: Groups, p: Packet)
    ensures var after := Receive(cap, groups, p).0;
            p.seqno in after && IsFragment(p) ==>
              && (p.seqno in groups ==> after[p.seqno].total == groups[p.seqno].total
                                        && after[p.seqno].timestamp == groups[p.seqno].timestamp)
              && (p.seqno !in groups ==> after[p.seqno].total == DecodeContent(p.content).value.totalFrags
                                         && after[p.seqno].timestamp == p.timestamp)
  {
    hide DecodeContent, Assemble;
    if IsFragment(p) && p.seqno in groups {
      EvictionKeeps(cap, groups, p.seqno);
    }
  }

  /** A group is put together exactly if no index below its count is missing, in the order of the indices. */
  lemma {:induction false} AssembledIff(frags: map<u16, bytes>, n: u16, fs: seq<bytes>)
    requires |fs| == n && forall i :: 0 <= i < n && i in frags ==> frags[i] == fs[i]
    ensures Assemble(frags, n) == if forall i :: 0 <= i < n ==> i in frags then Some(Join(fs)) else None
  {
    if forall i :: 0 <= i < n ==> i in frags {
      AssembleIsJoin(frags, fs, n);
      assert fs[..n] == fs;
    } else {
      var i: u16 :| i < n && i !in frags;
      MissingStaysMissing(frags, i + 1, n);
    }
  }

  /** There are never more groups than allowed, and one even if none is. */
  lemma {:induction false} GroupsAreBounded(cap: nat, arrivals: seq<Packet>)
    ensures |ReceiveAll(cap, arrivals).0| <= if cap == 0 then 1 else cap
  {
    hide Receive;
    if arrivals != [] {
      var rest := arrivals[..|arrivals| - 1];
      GroupsAreBounded(cap, rest);
      OnePacketBounded(cap, ReceiveAll(cap, rest).0, arrivals[|arrivals| - 1]);
    }
  }

  lemma OnePacketBounded(cap: nat, groups: Groups, p: Packet)
    requires |groups| <= if cap == 0 then 1 else cap
    ensures |Receive(cap, groups, p).0| <= if cap == 0 then 1 else cap
    ensures Receive(cap, groups, p).0.Keys <= groups.Keys + if IsFragment(p) then {p.seqno} else {}
  {
    hide DecodeContent, WithFragment, Assemble, Evicts;
    if IsFragment(p) {
      var kept := AfterEviction(cap, groups, p.seqno);
      EvictionMakesRoom(cap, groups, p.seqno);
      var Fragment(i, total, payload) := DecodeContent(p.content).value;
      var g := WithFragment(kept, p, i, total, payload);
      assert kept[p.seqno := g].Keys == kept.Keys + {p.seqno};
      SubsetSize((kept - {p.seqno}).Keys, kept.Keys);
      assert (kept - {p.seqno}).Keys <= kept.Keys <= groups.Keys;
    }
  }

  lemma EvictionMakesRoom(cap: nat, groups: Groups, key: u32)
    requires |groups| <= if cap == 0 then 1 else cap
    ensures var kept := AfterEviction(cap, groups, key);
            && kept.Keys <= groups.Keys && |kept| <= |groups|
            && |kept.Keys + {key}| <= if cap == 0 then 1 else cap
  {
    if key in groups {
      assert groups.Keys + {key} == groups.Keys;
    } else if |groups| >= cap && groups.Keys != {} {
      var oldest := Oldest(groups.Keys);
      assert groups.Keys == (groups - {oldest}).Keys + {oldest};
    }
  }

  /** The numbers of the chunks of which a fragment arrived. */
  ghost function Fragmented(arrivals: seq<Packet>): set<u32> {
    set k | 0 <= k < |arrivals| && IsFragment(arrivals[k]) :: arrivals[k].seqno
  }

  lemma FragmentedMore(rest: seq<Packet>, p: Packet)
    ensures Fragmented(rest + [p]) == Fragmented(rest) + if IsFragment(p) then {p.seqno} else {}
  {
    hide IsFragment;
    assert forall k :: 0 <= k < |rest| ==> (rest + [p])[k] == rest[k];
    assert (rest + [p])[|rest|] == p;
    forall n | n in Fragmented(rest) + if IsFragment(p) then {p.seqno} else {}
      ensures n in Fragmented(rest + [p])
    {
      if n in Fragmented(rest) {
        var k :| 0 <= k < |rest| && IsFragment(rest[k]) && rest[k].seqno == n;
        assert (rest + [p])[k] == rest[k];
      }
    }
  }

  /** While no more chunks are in fragments than there may be groups, nothing is ever evicted. */
  lemma {:induction false} FewChunksSurvive(cap: nat, arrivals: seq<Packet>, s: u32)
    requires |Fragmented(arrivals)| <= cap
    ensures Survives(cap, arrivals, s)
    ensures ReceiveAll(cap, arrivals).0.Keys <= Fragmented(arrivals)
  {
    hide Receive, IsFragment, Fragmented, EvictsGroup;
    if arrivals != [] {
      var rest, p := arrivals[..|arrivals| - 1], arrivals[|arrivals| - 1];
      assert rest + [p] == arrivals;
      FragmentedMore(rest, p);
      SubsetSize(Fragmented(rest), Fragmented(arrivals));
      FewChunksSurvive(cap, rest, s);
      GroupsAreBounded(cap, rest);
      var groups := ReceiveAll(cap, rest).0;
      OnePacketBounded(cap, groups, p);
      RoomForAll(cap, groups, p, s, Fragmented(arrivals));
    }
  }

  lemma RoomForAll(cap: nat, groups: Groups, p: Packet, s: u32, all: set<u32>)
    requires groups.Keys <= all && (IsFragment(p) ==> p.seqno in all) && |all| <= cap
    ensures !EvictsGroup(cap, groups, p, s)
  {
    hide DecodeContent;
    if IsFragment(p) && p.seqno !in groups {
      SubsetSize(groups.Keys + {p.seqno}, all);
    }
  }

  // ---------------------------------------------------------------- routing

  /** The chunks handed to a sink: what was emitted, decompressed. */
  function Decompressed(decompress: bytes -> bytes, out: seq<Packet>): seq<Packet> {
    seq(|out|, j requires 0 <= j < |out| => out[j].(content := decompress(out[j].content)))
  }

  /** Every sink whose receiver exists gets every emitted chunk, in emission order, decompressed;
      dropped sinks get nothing, and the receive loop keeps going while one sink is left. */
  lemma {:induction false} SinksGetEveryChunk(cap: nat, decompress: bytes -> bytes, sinks: seq<Sink>, arrivals: seq<Packet>)
    requires exists j :: 0 <= j < |sinks| && sinks[j].open
    ensures var st := TaskRun(cap, decompress, TaskState(map[], sinks, false), arrivals);
            var (groups, out) := ReceiveAll(cap, arrivals);
            && st.groups == groups && !st.stopped && |st.sinks| == |sinks|
            && forall j :: 0 <= j < |sinks| ==>
                 st.sinks[j] == if sinks[j].open then Sink(true, sinks[j].queue + Decompressed(decompress,
                     out)) else sinks[j]
  {
    hide Receive;
    if arrivals == [] {
      assert Decompressed(decompress, []) == [];
    } else {
      var rest, p := arrivals[..|arrivals| - 1], arrivals[|arrivals| - 1];
      SinksGetEveryChunk(cap, decompress, sinks, rest);
      var (groups, out) := ReceiveAll(cap, rest);
      var c := Receive(cap, groups, p).1;
      if c.Some? {
        assert Decompressed(decompress, out + [c.value])
            == Decompressed(decompress, out) + [c.value.(content := decompress(c.value.content))];
      }
    }
  }

  ghost predicate SameOpen(a: seq<Sink>, b: seq<Sink>) {
    |a| == |b| && forall j :: 0 <= j < |a| ==> a[j].open == b[j].open
  }

  lemma SameOpenDropped(a: seq<Sink>, b: seq<Sink>, p: Packet)
    requires SameOpen(a, b)
    ensures AllDropped(a) <==> AllDropped(b)
    ensures SameOpen(Routed(a, p), b)
  {
    assert AllDropped(a) ==> forall j :: 0 <= j < |b| ==> !a[j].open;
  }

  /** The receive loop stops if and only if there are sinks, all of them are gone, and a chunk was to be
      handed to them. */
  lemma {:induction false} StopsIffAllGone(cap: nat, decompress: bytes -> bytes, sinks: seq<Sink>, arrivals: seq<Packet>)
    ensures var st := TaskRun(cap, decompress, TaskState(map[], sinks, false), arrivals);
            var (groups, out) := ReceiveAll(cap, arrivals);
            && (st.stopped <==> AllDropped(sinks) && out != [])
            && (!st.stopped ==> st.groups == groups)
            && SameOpen(st.sinks, sinks)
  {
    hide Receive, SameOpen, AllDropped, Routed;
    if arrivals == [] {
      assert SameOpen(sinks, sinks) by { SameOpenSelf(sinks); }
    } else {
      var rest, p := arrivals[..|arrivals| - 1], arrivals[|arrivals| - 1];
      StopsIffAllGone(cap, decompress, sinks, rest);
      var st := TaskRun(cap, decompress, TaskState(map[], sinks, false), rest);
      var out := Receive(cap, st.groups, p).1;
      if out.Some? {
        SameOpenDropped(st.sinks, sinks, out.value.(content := decompress(out.value.content)));
      }
    }
  }

  lemma SameOpenSelf(sinks: seq<Sink>)
    ensures SameOpen(sinks, sinks)
  {
  }
}
