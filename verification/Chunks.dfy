/** Chunks are conserved: whatever is streamed out of a message while it is being written, before, during and after
    the life of its receiver, makes up together with what the buffer kept exactly what was written. */
module Chunks {
  import opened Types
  import opened Stores

  /** The chunks of a message that was written piece by piece onto `chunks`. Only a `Chunk` opens a new one. */
  function Gather(chunks: seq<Bytes>, pieces: seq<Yield>): (r: seq<Bytes>)
    requires chunks != []
    ensures r != []
    decreases |pieces|
  {
    if pieces == [] then chunks else Gather(Gathered(chunks, pieces[0]), pieces[1..])
  }

  function Gathered(chunks: seq<Bytes>, piece: Yield): (r: seq<Bytes>)
    requires chunks != []
    ensures r != []
  {
    var extended := Extend(chunks, piece.bytes);
    if piece.terminator.Chunk? then extended + [[]] else extended
  }

  // --- The reference grouping ---

  function Joined(pieces: seq<Yield>): Bytes {
    if pieces == [] then [] else pieces[0].bytes + Joined(pieces[1..])
  }

  /** The position of the first piece that ends a chunk, or the number of pieces. */
  function FirstBreak(pieces: seq<Yield>): (n: nat)
    ensures n <= |pieces|
    ensures forall i :: 0 <= i < n ==> !pieces[i].terminator.Chunk?
    ensures n < |pieces| ==> pieces[n].terminator.Chunk?
  {
    if pieces == [] || pieces[0].terminator.Chunk? then 0 else 1 + FirstBreak(pieces[1..])
  }

  /** The pieces up to and including each `Chunk` are joined; what follows the last `Chunk` is one more group, which
      is there even when it is empty. */
  function Grouped(pieces: seq<Yield>): seq<Bytes>
    decreases |pieces|
  {
    var n := FirstBreak(pieces);
    if n == |pieces| then [Joined(pieces)] else [Joined(pieces[..n + 1])] + Grouped(pieces[n + 1..])
  }

  lemma {:induction false} GatherAppend(chunks: seq<Bytes>, pieces: seq<Yield>, piece: Yield)
    requires chunks != []
    ensures Gather(chunks, pieces + [piece]) == Gathered(Gather(chunks, pieces), piece)
    decreases |pieces|
  {
    if pieces == [] {
      assert pieces + [piece] == [piece] && [piece][1..] == [];
      assert Gather(chunks, [piece]) == Gather(Gathered(chunks, piece), []);
    } else {
      assert (pieces + [piece])[1..] == pieces[1..] + [piece];
      GatherAppend(Gathered(chunks, pieces[0]), pieces[1..], piece);
    }
  }

  /** Chunks behind those already finished, the first of which continues the open one. */
  function Behind(done: seq<Bytes>, open: Bytes, groups: seq<Bytes>): seq<Bytes>
    requires groups != []
  {
    done + ([open + groups[0]] + groups[1..])
  }

  lemma BehindEmpty(done: seq<Bytes>, open: Bytes)
    ensures Behind(done, open, [[]]) == done + [open]
  {
    assert open + [] == open;
  }

  lemma BehindStep(done: seq<Bytes>, open: Bytes, p: Yield, g: seq<Bytes>)
    requires g != []
    ensures Behind(done + [open + p.bytes], [], g) == Behind(done, open, [p.bytes] + g)
    ensures Behind(done, open + p.bytes, g) == Behind(done, open, [p.bytes + g[0]] + g[1..])
  {
    assert [] + g[0] == g[0] && [g[0]] + g[1..] == g;
    assert open + p.bytes + g[0] == open + (p.bytes + g[0]);
    assert ([p.bytes] + g)[1..] == g && ([p.bytes + g[0]] + g[1..])[1..] == g[1..];
  }

  /** Writing onto a message whose open chunk holds `open` already. */
  lemma {:induction false} GatherIsGrouped(done: seq<Bytes>, open: Bytes, pieces: seq<Yield>)
    ensures Grouped(pieces) != [] && Gather(done + [open], pieces) == Behind(done, open, Grouped(pieces))
    decreases |pieces|
  {
    hide Behind;
    if pieces == [] {
      assert Grouped(pieces) == [[]];
      BehindEmpty(done, open);
    } else {
      var (p, rest) := (pieces[0], pieces[1..]);
      var extended := Extend(done + [open], p.bytes);
      assert extended == done + [open + p.bytes];
      GroupedStep(pieces);
      BehindStep(done, open, p, Grouped(rest));
      if p.terminator.Chunk? {
        GatherIsGrouped(extended, [], rest);
      } else {
        GatherIsGrouped(done, open + p.bytes, rest);
      }
    }
  }

  lemma GroupedStep(pieces: seq<Yield>)
    requires pieces != []
    ensures Grouped(pieces[1..]) != []
    ensures var (p, g) := (pieces[0], Grouped(pieces[1..]));
            Grouped(pieces) == if p.terminator.Chunk? then [p.bytes] + g else [p.bytes + g[0]] + g[1..]
  {
    var (p, rest) := (pieces[0], pieces[1..]);
    var n := FirstBreak(pieces);
    if p.terminator.Chunk? {
      assert n == 0 && pieces[..1] == [p] && [p][1..] == [];
      assert Joined([p]) == p.bytes + Joined([]) == p.bytes;
    } else {
      var m := FirstBreak(rest);
      assert n == m + 1;
      if m == |rest| {
        assert Joined(pieces) == p.bytes + Joined(rest);
      } else {
        assert pieces[..n + 1][0] == p && pieces[..n + 1][1..] == rest[..m + 1];
        assert pieces[n + 1..] == rest[m + 1..];
      }
    }
  }

  /** A message written from nothing holds exactly the groups: pieces ending in `None` are merged into the next one,
      and the final piece leaves no empty chunk behind. */
  lemma GatheredFromNothing(pieces: seq<Yield>)
    ensures Gather([[]], pieces) == Grouped(pieces)
  {
    hide Gather, Grouped;
    var (none: seq<Bytes>, open: Bytes, g) := ([], [], Grouped(pieces));
    GatherIsGrouped(none, open, pieces);
    assert none + [open] == [[]] && open + g[0] == g[0];
    assert none + ([open + g[0]] + g[1..]) == g;
  }

  // --- Where the chunks are ---

  /** Everything written to a message: what the buffer held when its stream was fed, what went down the stream,
      and what the buffer has held since. */
  function Content(s: Store, id: nat): (c: seq<Bytes>)
    requires s.Valid() && id in s.messages
    ensures c != []
  {
    var b := s.messages[id];
    if b.sender.Sender? then
      var c := s.channels[b.sender.channel];
      b.chunks[..c.kept] + c.sent + b.chunks[c.kept..]
    else b.chunks
  }

  lemma SendManyContent(s: Store, data: Bytes, id: nat)
    requires s.Valid() && s.Accepts(id).Ok?
    ensures var t := s.SendMany(data, id);
            t.Valid() && id in t.messages && Content(t, id) == Extend(Content(s, id), data)
  {
    SendManyKeeps(s, data, id);
    var b := s.messages[id];
    hide Store.Valid, Extend;
    if b.sender.Sender? {
      ExtendInside(b.chunks, s.channels[b.sender.channel].kept, s.channels[b.sender.channel].sent, data);
    }
  }

  /** Extending the open chunk commutes with setting sent chunks between the kept ones and the rest. */
  lemma ExtendInside(chunks: seq<Bytes>, kept: nat, sent: seq<Bytes>, data: Bytes)
    requires kept < |chunks|
    ensures var e := Extend(chunks, data);
            e[..kept] + sent + e[kept..] == Extend(chunks[..kept] + sent + chunks[kept..], data)
  {
    var (n, whole) := (|chunks| - 1, chunks[..kept] + sent + chunks[kept..]);
    assert Extend(chunks, data)[kept..] == chunks[kept..n] + [Last(chunks) + data];
    assert AllButLast(whole) == chunks[..kept] + sent + chunks[kept..n] && Last(whole) == Last(chunks);
  }

  lemma TerminateChunkContent(s: Store, id: nat)
    requires s.Valid() && s.Accepts(id).Ok?
    ensures var t := s.TerminateChunk(id);
            t.Valid() && id in t.messages && Content(t, id) == Content(s, id) + [[]]
  {
    TerminateChunkKeeps(s, id);
    var (b, t) := (s.messages[id], s.TerminateChunk(id));
    if b.sender.Sender? {
      var c := s.channels[b.sender.channel];
      var n := |b.chunks| - 1;
      if s.Streams(b) {
        assert c.kept == n;
        assert b.chunks[..n] + c.sent + b.chunks[n..] + [[]] == b.chunks[..n] + (c.sent + [Last(b.chunks)]) + [[]];
        assert t.messages[id].chunks[..n] == b.chunks[..n] && t.messages[id].chunks[n..] == [[]];
      } else {
        assert (b.chunks + [[]])[..c.kept] == b.chunks[..c.kept];
        assert (b.chunks + [[]])[c.kept..] == b.chunks[c.kept..] + [[]];
      }
    }
  }

  lemma OpenStreamContent(s: Store, id: nat)
    requires s.Valid() && id in s.messages && s.messages[id].sender.NoSender?
    ensures var t := s.OpenStream(id);
            t.Valid() && id in t.messages && Content(t, id) == Content(s, id)
  {
    OpenStreamKeeps(s, id);
    var chunks := s.messages[id].chunks;
    assert chunks[..|chunks| - 1] + [] + chunks[|chunks| - 1..] == chunks;
  }

  /** One write as a response makes it: the bytes, then the end of the chunk if the piece says so. */
  function Write(s: Store, id: nat, piece: Yield): Store
    requires s.Valid()
  {
    SendManyKeeps(s, piece.bytes, id);
    var t := s.SendMany(piece.bytes, id);
    if piece.terminator.Chunk? then t.TerminateChunk(id) else t
  }

  /** What a write leaves alone: the sender, the other messages, and the channel unless it is being listened to. */
  ghost predicate SamePlace(s: Store, t: Store, id: nat) {
    && s.Valid() && t.Valid() && s.Accepts(id).Ok? && t.Accepts(id).Ok?
    && t.messages[id].sender == s.messages[id].sender && t.messages[id].lock == s.messages[id].lock
    && t.messages - {id} == s.messages - {id} && t.locks == s.locks && t.messageIds == s.messageIds
    && |t.channels| == |s.channels|
    && (s.messages[id].sender.Sender? ==>
          var (c, d) := (s.channels[s.messages[id].sender.channel], t.channels[s.messages[id].sender.channel]);
          && d.(sent := c.sent) == c
          && (!c.receiverAlive ==> d == c)
          && c.kept < |t.messages[id].chunks|
          && t.messages[id].chunks[..c.kept] == s.messages[id].chunks[..c.kept])
  }

  lemma SendManyInPlace(s: Store, data: Bytes, id: nat)
    requires s.Valid() && s.Accepts(id).Ok?
    ensures SamePlace(s, s.SendMany(data, id), id)
  {
    SendManyKeeps(s, data, id);
    var t := s.SendMany(data, id);
    assert t.messages - {id} == s.messages - {id};
    var b := s.messages[id];
    if b.sender.Sender? {
      var kept := s.channels[b.sender.channel].kept;
      assert Extend(b.chunks, data)[..kept] == b.chunks[..kept];
    }
  }

  lemma TerminateChunkInPlace(s: Store, id: nat)
    requires s.Valid() && s.Accepts(id).Ok?
    ensures SamePlace(s, s.TerminateChunk(id), id)
  {
    TerminateChunkKeeps(s, id);
    var t := s.TerminateChunk(id);
    assert t.messages - {id} == s.messages - {id};
    var b := s.messages[id];
    if b.sender.Sender? {
      var kept := s.channels[b.sender.channel].kept;
      assert t.messages[id].chunks[..kept] == b.chunks[..kept];
    }
  }

  lemma WriteContent(s: Store, id: nat, piece: Yield)
    requires s.Valid() && s.Accepts(id).Ok?
    ensures SamePlace(s, Write(s, id, piece), id)
    ensures Content(Write(s, id, piece), id) == Gathered(Content(s, id), piece)
  {
    SendManyContent(s, piece.bytes, id);
    SendManyInPlace(s, piece.bytes, id);
    var t := s.SendMany(piece.bytes, id);
    if piece.terminator.Chunk? {
      hide Content;
      TerminateChunkContent(t, id);
      TerminateChunkInPlace(t, id);
    }
  }

  function WriteAll(s: Store, id: nat, pieces: seq<Yield>): (t: Store)
    requires s.Valid() && s.Accepts(id).Ok?
    ensures SamePlace(s, t, id)
    decreases |pieces|
  {
    if pieces == [] then s
    else
      WriteContent(s, id, pieces[0]);
      WriteAll(Write(s, id, pieces[0]), id, pieces[1..])
  }

  lemma {:induction false} WriteAllContent(s: Store, id: nat, pieces: seq<Yield>)
    requires s.Valid() && s.Accepts(id).Ok?
    ensures Content(WriteAll(s, id, pieces), id) == Gather(Content(s, id), pieces)
    decreases |pieces|
  {
    if pieces != [] {
      WriteContent(s, id, pieces[0]);
      WriteAllContent(Write(s, id, pieces[0]), id, pieces[1..]);
    }
  }

  lemma {:induction false} GatherTwice(chunks: seq<Bytes>, first: seq<Yield>, second: seq<Yield>)
    requires chunks != []
    ensures Gather(chunks, first + second) == Gather(Gather(chunks, first), second)
    decreases |first|
  {
    if first == [] {
      assert first + second == second;
    } else {
      assert (first + second)[1..] == first[1..] + second;
      GatherTwice(Gathered(chunks, first[0]), first[1..], second);
    }
  }

  /** A message is written to and then a stream is opened on it. */
  function Open(s: Store, id: nat, before: seq<Yield>): (t: Store)
    requires s.Valid() && s.Accepts(id).Ok?
    ensures t.Valid() && t.Accepts(id).Ok? && t.messages[id].sender.Sender?
  {
    var w := WriteAll(s, id, before);
    OpenStreamKeeps(w, id);
    w.OpenStream(id)
  }

  /** It is written to while the stream is listened to, and then the receiver is dropped. */
  function Stop(s: Store, id: nat, during: seq<Yield>): (t: Store)
    requires s.Valid() && s.Accepts(id).Ok? && s.messages[id].sender.Sender?
    ensures t.Valid() && t.Accepts(id).Ok? && t.messages[id].sender == s.messages[id].sender
  {
    WriteAll(s, id, during).DropReceiver(s.messages[id].sender.channel)
  }

  lemma OpenHolds(s: Store, id: nat, before: seq<Yield>)
    requires s.Valid() && s.Accepts(id).Ok? && s.messages[id].chunks == [[]] && s.messages[id].sender.NoSender?
    ensures var (t, g1) := (Open(s, id, before), Grouped(before));
            && t.messages[id].sender.channel == |s.channels| && t.messages[id].chunks == g1 && g1 != []
            && t.channels[|s.channels|] == Channel([], 0, true, true, |g1| - 1)
            && Content(t, id) == g1
  {
    var w := WriteAll(s, id, before);
    WriteAllContent(s, id, before);
    GatheredFromNothing(before);
    OpenStreamContent(w, id);
  }

  lemma StopHolds(s: Store, id: nat, g1: seq<Bytes>, during: seq<Yield>)
    requires s.Valid() && s.Accepts(id).Ok? && s.messages[id].sender.Sender? && s.messages[id].chunks == g1
    requires var c := s.channels[s.messages[id].sender.channel]; c.receiverAlive && c.sent == [] && c.kept == |g1| - 1
    requires Content(s, id) == g1
    ensures var (t, g2, ch) := (Stop(s, id, during), Gather(g1, during), s.messages[id].sender.channel);
            && |g1| <= |g2| && t.channels[ch].sent == g2[|g1| - 1..|g2| - 1]
            && !t.channels[ch].receiverAlive && t.channels[ch].kept == |g1| - 1
            && |t.messages[id].chunks| == |g1| && t.messages[id].chunks[..|g1| - 1] == g1[..|g1| - 1]
            && Content(t, id) == g2
  {
    var (w, ch) := (WriteAll(s, id, during), s.messages[id].sender.channel);
    WriteAllContent(s, id, during);
    var b := w.messages[id];
    var sent := w.channels[ch].sent;
    assert Gather(g1, during) == b.chunks[..|g1| - 1] + sent + b.chunks[|g1| - 1..];
  }

  /** A whole whose first part is kept at the front of `chunks` and whose last part is the remainder of `chunks`. */
  lemma ThreeParts(chunks: seq<Bytes>, first: seq<Bytes>, second: seq<Bytes>, whole: seq<Bytes>)
    requires |first| <= |chunks| && chunks[..|first|] == first
    requires whole == chunks[..|first|] + second + chunks[|first|..]
    ensures |first| + |second| <= |whole| && chunks == first + whole[|first| + |second|..]
  {
    assert whole[|first| + |second|..] == chunks[|first|..];
  }

  lemma KeepHolds(s: Store, id: nat, g1: seq<Bytes>, g2: seq<Bytes>, after: seq<Yield>)
    requires s.Valid() && s.Accepts(id).Ok? && s.messages[id].sender.Sender? && 0 < |g1| <= |g2|
    requires |s.messages[id].chunks| == |g1| && s.messages[id].chunks[..|g1| - 1] == g1[..|g1| - 1]
    requires var c := s.channels[s.messages[id].sender.channel];
             !c.receiverAlive && c.sent == g2[|g1| - 1..|g2| - 1] && c.kept == |g1| - 1
    requires Content(s, id) == g2
    ensures var (t, g3, ch) := (WriteAll(s, id, after), Gather(g2, after), s.messages[id].sender.channel);
            && t.channels[ch] == s.channels[ch] && |g2| <= |g3|
            && t.messages[id].chunks == g1[..|g1| - 1] + g3[|g2| - 1..]
  {
    var (t, ch) := (WriteAll(s, id, after), s.messages[id].sender.channel);
    WriteAllContent(s, id, after);
    ThreeParts(t.messages[id].chunks, g1[..|g1| - 1], s.channels[ch].sent, Gather(g2, after));
  }

  /** A new message is written to, a stream is opened on it, it is written to again, the receiver is dropped, and it
      is written to once more. The stream carries exactly the chunks finished while the receiver lived; the buffer
      keeps those finished before and after, in order, and one open chunk. */
  lemma ChunksAreConserved(s: Store, id: nat, before: seq<Yield>, during: seq<Yield>, after: seq<Yield>)
    requires s.Valid() && s.Accepts(id).Ok? && s.messages[id].chunks == [[]] && s.messages[id].sender.NoSender?
    ensures var end := WriteAll(Stop(Open(s, id, before), id, during), id, after);
            var (g1, g2, g3) := (Grouped(before), Grouped(before + during), Grouped(before + during + after));
            && 1 <= |g1| <= |g2| <= |g3|
            && end.messages[id].sender == Sender(|s.channels|, true)
            && end.channels[|s.channels|].sent == g2[|g1| - 1..|g2| - 1]
            && end.messages[id].chunks == g1[..|g1| - 1] + g3[|g2| - 1..]
  {
    hide Gather, Grouped, Stop, Content, Store.Valid;
    var fed := Open(s, id, before);
    OpenHolds(s, id, before);
    var (g1, g2) := (Grouped(before), Grouped(before + during));
    GatheredFromNothing(before);
    GatherTwice([[]], before, during);
    GatheredFromNothing(before + during);
    StopHolds(fed, id, g1, during);
    GatherTwice([[]], before + during, after);
    GatheredFromNothing(before + during + after);
    KeepHolds(Stop(fed, id, during), id, g1, g2, after);
  }

  /** Termination with a live receiver sends the last chunk, closes the stream and frees the identifier once; with no
      stream, or none listening, it keeps what the buffer holds. Either way the lock is completed. */
  lemma TerminationConserves(s: Store, id: nat)
    requires s.Valid() && s.Accepts(id).Ok?
    ensures var (b, t) := (s.messages[id], s.TerminateMessage(id));
            && t.Valid() && b.lock < |t.locks| && t.locks[b.lock].Completed?
            && (b.sender.Sender? ==>
                  && b.sender.channel < |t.channels| && s.channels[b.sender.channel].kept < |b.chunks|
                  && !t.channels[b.sender.channel].senderAlive)
            && if s.Streams(b) then
                 && id !in t.messages && t.messageIds == s.messageIds.Returned(id)
                 && AllButLast(b.chunks) + t.channels[b.sender.channel].sent == Content(s, id)
               else
                 && id in t.messages && t.messageIds == s.messageIds && Content(t, id) == Content(s, id)
  {
    TerminateMessageKeeps(s, id);
    var (b, t) := (s.messages[id], s.TerminateMessage(id));
    if s.Streams(b) {
      var c := s.channels[b.sender.channel];
      var n := |b.chunks| - 1;
      assert b.chunks[..n] + c.sent + b.chunks[n..] == b.chunks[..n] + (c.sent + [Last(b.chunks)]);
    }
  }
}
