/** Coalescing outgoing datagrams into segmented messages, and splitting received ones in place. */
module Datagrams {
  import opened Bytes
  import opened Options
  import Words

  const MaxIPv4PayloadLen := 65507
  const MaxIPv6PayloadLen := 65527
  const UdpSegmentMaxDatagrams := 64

  /** A slice: its bytes and the capacity behind it. */
  datatype Buffer = Buffer(data: seq<byte>, capacity: nat)

  /** What is handed to the socket: payload, addresses, and the segment size in the control data. */
  datatype Message = Message(buf: Buffer, addr: nat, source: nat, gso: Option<u16>)

  /** Consecutive pieces of g bytes, the last one what is left. */
  function Cut(data: seq<byte>, g: nat): (r: seq<seq<byte>>)
    requires g > 0
    ensures |r| > 0
  {
    if |data| <= g then [data] else [data[..g]] + Cut(data[g..], g)
  }

  /** The datagrams the kernel makes of a message. */
  function Pieces(m: Message): (r: seq<seq<byte>>)
    ensures |r| > 0
  {
    if m.gso.Some? && m.gso.value > 0 then Cut(m.buf.data, m.gso.value) else [m.buf.data]
  }

  function AllPieces(ms: seq<Message>): seq<seq<byte>> {
    if ms == [] then [] else AllPieces(ms[..|ms| - 1]) + Pieces(ms[|ms| - 1])
  }

  function Datas(bufs: seq<Buffer>): seq<seq<byte>> {
    seq(|bufs|, i requires 0 <= i < |bufs| => bufs[i].data)
  }

  /** A batch: pieces of g bytes each but for a last one that may be shorter; only a lone piece may be empty. */
  ghost predicate Batch(cur: seq<seq<byte>>, g: nat) {
    && |cur| > 0
    && (forall i :: 0 <= i < |cur| - 1 ==> |cur[i]| == g)
    && |cur[|cur| - 1]| <= g && (|cur| > 1 ==> |cur[|cur| - 1]| > 0)
  }

  /** Cutting undoes joining. */
  lemma {:induction false} CutJoins(cur: seq<seq<byte>>, g: nat)
    requires g > 0 && Batch(cur, g)
    ensures Cut(Flatten(cur), g) == cur
    decreases |cur|
  {
    if |cur| == 1 {
      FlattenOne(cur[0]);
      assert cur == [cur[0]];
    } else {
      var rest := cur[1..];
      CutJoins(rest, g);
      var f := Flatten(cur);
      assert cur == [cur[0]] + rest;
      FlattenCons(cur[0], rest);
      LongerThanNothing(rest);
      assert f[..g] == cur[0] && f[g..] == Flatten(rest);
    }
  }

  lemma LongerThanNothing(cur: seq<seq<byte>>)
    requires |cur| > 0 && |cur[|cur| - 1]| > 0
    ensures |Flatten(cur)| > 0
  {
  }

  lemma AllPiecesSnoc(ms: seq<Message>, m: Message)
    ensures AllPieces(ms + [m]) == AllPieces(ms) + Pieces(m)
  {
    assert (ms + [m])[..|ms|] == ms;
  }

  lemma DatasSnoc(bufs: seq<Buffer>, i: nat)
    requires i < |bufs|
    ensures Datas(bufs[..i + 1]) == Datas(bufs[..i]) + [bufs[i].data]
  {
  }

  // ---------------------------------------------------------------------------------------------
  // Which datagrams survive, from lengths and capacities alone.

  /** What the loop knows of the message being filled. */
  datatype Track = Track(len: nat, capacity: nat, gso: nat, count: nat, ended: bool)

  function Opened(b: Buffer): Track { Track(|b.data|, b.capacity, |b.data|, 1, false) }

  /** The join test. */
  predicate Takes(t: Track, limit: nat, n: nat) {
    && n + t.len <= limit && n <= t.gso && n <= t.capacity - t.len
    && t.count < UdpSegmentMaxDatagrams && !t.ended
  }

  function Grown(t: Track, n: nat): Track { t.(len := t.len + n, count := t.count + 1, ended := n < t.gso) }

  function TrackAt(bufs: seq<Buffer>, i: nat, limit: nat): Track
    requires 0 < i <= |bufs|
  {
    if i == 1 then Opened(bufs[0])
    else
      var t, n := TrackAt(bufs, i - 1, limit), |bufs[i - 1].data|;
      if Takes(t, limit, n) then Grown(t, n) else Opened(bufs[i - 1])
  }

  /** Datagram i is empty and joins: the message is not ended, not full, and within the payload limit. */
  predicate EmptyJoins(bufs: seq<Buffer>, i: nat, limit: nat)
    requires i < |bufs|
  {
    && 0 < i && |bufs[i].data| == 0
    && var t := TrackAt(bufs, i, limit);
      t.len <= limit && t.count < UdpSegmentMaxDatagrams && !t.ended
  }

  ghost predicate Lost(bufs: seq<Buffer>, n: nat, limit: nat)
    requires n <= |bufs|
  {
    exists i :: 0 <= i < n && EmptyJoins(bufs, i, limit)
  }

  /** The first n datagrams without the empty ones that join. */
  function Kept(bufs: seq<Buffer>, n: nat, limit: nat): seq<seq<byte>>
    requires n <= |bufs|
  {
    if n == 0 then []
    else Kept(bufs, n - 1, limit) + (if EmptyJoins(bufs, n - 1, limit) then [] else [bufs[n - 1].data])
  }

  lemma KeptNext(bufs: seq<Buffer>, i: nat, limit: nat)
    requires i < |bufs|
    ensures EmptyJoins(bufs, i, limit) ==> Kept(bufs, i + 1, limit) == Kept(bufs, i, limit) && Lost(bufs, i + 1, limit)
    ensures !EmptyJoins(bufs, i, limit) ==> Kept(bufs, i + 1, limit) == Kept(bufs, i, limit) + [bufs[i].data]
    ensures !EmptyJoins(bufs, i, limit) ==> (Lost(bufs, i + 1, limit) <==> Lost(bufs, i, limit))
  {
    hide EmptyJoins;
  }

  /** Every datagram survives exactly when no empty one joins. */
  lemma {:induction false} KeptAll(bufs: seq<Buffer>, n: nat, limit: nat)
    requires n <= |bufs|
    ensures |Kept(bufs, n, limit)| <= n
    ensures Kept(bufs, n, limit) == Datas(bufs[..n]) <==> !Lost(bufs, n, limit)
    ensures Lost(bufs, n, limit) ==> |Kept(bufs, n, limit)| < n
  {
    hide EmptyJoins, Lost, Kept;
    if n == 0 {
      KeptNothing(bufs, limit);
    } else {
      KeptAll(bufs, n - 1, limit);
      KeptNext(bufs, n - 1, limit);
      DatasSnoc(bufs, n - 1);
    }
  }

  lemma KeptNothing(bufs: seq<Buffer>, limit: nat)
    ensures Kept(bufs, 0, limit) == [] && !Lost(bufs, 0, limit)
  {
  }

  // ---------------------------------------------------------------------------------------------
  // The messages.

  /** A message with a segment size has at least two and at most 64 datagrams; any other is one. */
  ghost predicate Legal(m: Message) {
    m.gso.Some? <==> 2 <= |Pieces(m)| <= UdpSegmentMaxDatagrams
  }

  ghost predicate AllLegal(ms: seq<Message>) {
    forall k :: 0 <= k < |ms| ==> Legal(ms[k])
  }

  /** The join test fails: datagram b may not be added to this message. */
  ghost predicate Stuck(m: Message, limit: nat, b: seq<byte>) {
    var ps := Pieces(m);
    || |b| + |m.buf.data| > limit
    || |b| > |ps[0]|
    || |b| > m.buf.capacity - |m.buf.data|
    || |ps| >= UdpSegmentMaxDatagrams
    || |ps[|ps| - 1]| < |ps[0]|
  }

  /** No message could have taken the first datagram of the next one. */
  ghost predicate Greedy(ms: seq<Message>, limit: nat) {
    forall k :: 0 < k < |ms| ==> Stuck(ms[k - 1], limit, Pieces(ms[k])[0])
  }

  /** The message being filled: cur are the datagrams it keeps, and its segment size is not yet set. */
  ghost predicate Filling(m: Message, cur: seq<seq<byte>>, t: Track, lost: bool) {
    && m.gso.None? && m.buf.data == Flatten(cur) && |m.buf.data| == t.len && m.buf.capacity == t.capacity
    && 0 < |cur| <= t.count <= UdpSegmentMaxDatagrams
    && Batch(cur, t.gso) && |cur[0]| == t.gso
    && (!t.ended ==> |cur[|cur| - 1]| == t.gso)
    && (!lost ==> |cur| == t.count && (t.ended <==> |cur[|cur| - 1]| < t.gso))
  }

  /** A message at its end: several datagrams set the segment size. */
  function Closed(m: Message, t: Track): Message {
    if t.count > 1 then m.(gso := Some(t.gso % 0x1_0000)) else m
  }

  lemma FillingCloses(m: Message, cur: seq<seq<byte>>, t: Track, lost: bool)
    requires Filling(m, cur, t, lost) && (t.count > 1 ==> t.gso < 0x1_0000)
    ensures Pieces(Closed(m, t)) == cur
    ensures !lost ==> Legal(Closed(m, t))
  {
    if t.count > 1 && t.gso > 0 {
      CutJoins(cur, t.gso);
    } else {
      FlattenOne(cur[0]);
      assert cur == [cur[0]];
    }
  }

  /** All messages but the last are finished and the last is being filled. */
  ghost predicate Progress(limit: nat, ms: seq<Message>, kept: seq<seq<byte>>, cur: seq<seq<byte>>, t: Track,
                           lost: bool) {
    && |ms| > 0 && |cur| > 0
    && AllPieces(ms[..|ms| - 1]) + cur == kept
    && Filling(ms[|ms| - 1], cur, t, lost)
    && (!lost ==>
        && AllLegal(ms[..|ms| - 1]) && Greedy(ms[..|ms| - 1], limit)
        && (|ms| > 1 ==> Stuck(ms[|ms| - 2], limit, cur[0])))
  }

  ghost predicate Finished(limit: nat, ms: seq<Message>, kept: seq<seq<byte>>, lost: bool) {
    AllPieces(ms) == kept && (!lost ==> AllLegal(ms) && Greedy(ms, limit))
  }

  function Last(ms: seq<Message>): Message
    requires |ms| > 0
  {
    ms[|ms| - 1]
  }

  lemma Closes(limit: nat, ms: seq<Message>, kept: seq<seq<byte>>, cur: seq<seq<byte>>, t: Track, lost: bool)
    requires Progress(limit, ms, kept, cur, t, lost) && (t.count > 1 ==> t.gso < 0x1_0000)
    ensures Finished(limit, ms[|ms| - 1 := Closed(Last(ms), t)], kept, lost)
  {
    hide Filling, Legal, Pieces, Stuck, Closed;
    var front, m := ms[..|ms| - 1], Closed(Last(ms), t);
    FillingCloses(Last(ms), cur, t, lost);
    AllPiecesSnoc(front, m);
    assert ms[|ms| - 1 := m] == front + [m];
  }

  /** A datagram with bytes joins the message; an empty one leaves its bytes as they are. */
  lemma Joins(limit: nat, ms: seq<Message>, ms': seq<Message>, kept: seq<seq<byte>>, b: seq<byte>, cur: seq<seq<byte>>,
              t: Track, lost: bool)
    requires Progress(limit, ms, kept, cur, t, lost) && Takes(t, limit, |b|)
    requires ms' == ms[|ms| - 1 := Last(ms).(buf := Last(ms).buf.(data := Last(ms).buf.data + b))]
    ensures |b| > 0 ==> Progress(limit, ms', kept + [b], cur + [b], Grown(t, |b|), lost)
    ensures |b| == 0 ==> Progress(limit, ms', kept, cur, Grown(t, 0), true)
  {
    assert ms'[..|ms'| - 1] == ms[..|ms| - 1];
    FlattenSnoc(cur, b);
    assert |b| == 0 ==> Last(ms).buf.data + b == Last(ms).buf.data;
  }

  lemma Starts(limit: nat, ms: seq<Message>, kept: seq<seq<byte>>, m: Message, lost: bool)
    requires Finished(limit, ms, kept, lost) && m.gso.None?
    requires !lost && |ms| > 0 ==> Stuck(Last(ms), limit, m.buf.data)
    ensures Progress(limit, ms + [m], kept + [m.buf.data], [m.buf.data], Opened(m.buf), lost)
  {
    hide Stuck;
    assert (ms + [m])[..|ms|] == ms;
    FlattenOne(m.buf.data);
  }

  /** The loop of CoalesceMessages after i > 0 datagrams. */
  ghost predicate Going(limit: nat, all: seq<Message>, base: int, bufs: seq<Buffer>, i: nat, cur: seq<seq<byte>>) {
    && 0 <= base < |all| && 0 < i <= |bufs|
    && var t, kept, lost := TrackAt(bufs, i, limit), Kept(bufs, i, limit), Lost(bufs, i, limit);
      && (i < |bufs| ==> Progress(limit, all[..base + 1], kept, cur, t, lost))
      && (i == |bufs| ==> Finished(limit, all[..base + 1], kept, lost))
  }

  /** A message with one more datagram; its segment size is set when no datagram follows. */
  function Joined(m: Message, b: seq<byte>, g: u16, last: bool): Message {
    var m' := m.(buf := m.buf.(data := m.buf.data + b));
    if last then m'.(gso := Some(g)) else m'
  }

  /** The kept datagrams of the message after datagram b joined. */
  function JoinedPieces(cur: seq<seq<byte>>, b: seq<byte>): seq<seq<byte>> {
    if |b| > 0 then cur + [b] else cur
  }

  lemma JoinStep(limit: nat, all: seq<Message>, base: int, bufs: seq<Buffer>, i: nat, cur: seq<seq<byte>>)
    requires i < |bufs| && Going(limit, all, base, bufs, i, cur)
    requires var t := TrackAt(bufs, i, limit); Takes(t, limit, |bufs[i].data|) && t.gso < 0x1_0000
    ensures Going(limit, all[base := Joined(all[base], bufs[i].data, TrackAt(bufs, i, limit).gso, i == |bufs| - 1)],
                  base, bufs, i + 1, JoinedPieces(cur, bufs[i].data))
  {
    hide Progress, Finished, Lost, Kept;
    var b, ms, t := bufs[i].data, all[..base + 1], TrackAt(bufs, i, limit);
    var ms' := ms[base := Joined(all[base], b, t.gso, false)];
    KeptNext(bufs, i, limit);
    Joins(limit, ms, ms', Kept(bufs, i, limit), b, cur, t, Lost(bufs, i, limit));
    var t', kept, lost := TrackAt(bufs, i + 1, limit), Kept(bufs, i + 1, limit), Lost(bufs, i + 1, limit);
    assert t' == Grown(t, |b|);
    hide TrackAt, EmptyJoins, Takes;
    ProgressCount(limit, ms, Kept(bufs, i, limit), cur, t, Lost(bufs, i, limit));
    Closes(limit, ms', kept, JoinedPieces(cur, b), t', lost);
    var all' := all[base := Joined(all[base], b, t.gso, i == |bufs| - 1)];
    assert i < |bufs| - 1 ==> all'[..base + 1] == ms';
    assert i == |bufs| - 1 ==> all'[..base + 1] == ms'[base := Closed(ms'[base], t')];
  }

  lemma ProgressCount(limit: nat, ms: seq<Message>, kept: seq<seq<byte>>, cur: seq<seq<byte>>, t: Track, lost: bool)
    requires Progress(limit, ms, kept, cur, t, lost)
    ensures t.count >= 1
  {
  }

  lemma ProgressLast(limit: nat, ms: seq<Message>, kept: seq<seq<byte>>, cur: seq<seq<byte>>, t: Track, lost: bool)
    requires Progress(limit, ms, kept, cur, t, lost)
    ensures |ms| > 0 && Filling(Last(ms), cur, t, lost)
  {
  }

  lemma StuckNow(m: Message, cur: seq<seq<byte>>, t: Track, limit: nat, b: seq<byte>)
    requires Filling(m, cur, t, false) && (t.count > 1 ==> t.gso < 0x1_0000)
    requires !Takes(t, limit, |b|)
    ensures Stuck(Closed(m, t), limit, b)
  {
    FillingCloses(m, cur, t, false);
  }

  /** The messages once the one being filled is closed. */
  function ClosedAt(all: seq<Message>, base: int, t: Track): (r: seq<Message>)
    requires base < |all|
    ensures |r| == |all|
  {
    if 0 <= base then all[base := Closed(all[base], t)] else all
  }

  lemma FirstStep(limit: nat, all: seq<Message>, bufs: seq<Buffer>, m: Message)
    requires 0 < |bufs| && 0 < |all| && m.buf == bufs[0] && m.gso.None?
    ensures Going(limit, all[0 := m], 0, bufs, 1, [m.buf.data])
  {
    hide Progress, Finished, Lost;
    KeptNothing(bufs, limit);
    KeptNext(bufs, 0, limit);
    assert Finished(limit, [], [], false) by { NothingFinished(limit); }
    Starts(limit, [], [], m, false);
    assert all[0 := m][..1] == [m];
    var none: seq<Message>, nothing: seq<seq<byte>> := [], [];
    assert none + [m] == [m] && nothing + [m.buf.data] == [m.buf.data];
    Closes(limit, [m], [m.buf.data], [m.buf.data], Opened(m.buf), false);
    assert [m][0 := Closed(m, Opened(m.buf))] == [m];
  }

  lemma StartStep(limit: nat, all: seq<Message>, base: int, bufs: seq<Buffer>, i: nat, cur: seq<seq<byte>>, m: Message)
    requires i < |bufs| && base + 1 < |all| && Going(limit, all, base, bufs, i, cur)
    requires m.buf == bufs[i] && m.gso.None?
    requires var t := TrackAt(bufs, i, limit); !Takes(t, limit, |m.buf.data|) && (t.count > 1 ==> t.gso < 0x1_0000)
    requires !EmptyJoins(bufs, i, limit)
    ensures Going(limit, ClosedAt(all, base, TrackAt(bufs, i, limit))[base + 1 := m], base + 1, bufs, i + 1,
                  [m.buf.data])
  {
    hide Progress, Finished, Stuck, Lost, Kept, EmptyJoins, Closed;
    var ms, t, kept, lost := all[..base + 1], TrackAt(bufs, i, limit), Kept(bufs, i, limit), Lost(bufs, i, limit);
    var closed := ClosedAt(all, base, t);
    KeptNext(bufs, i, limit);
    Closes(limit, ms, kept, cur, t, lost);
    assert closed[..base + 1] == ms[base := Closed(Last(ms), t)];
    if !lost {
      ProgressLast(limit, ms, kept, cur, t, lost);
      StuckNow(all[base], cur, t, limit, m.buf.data);
    }
    assert TrackAt(bufs, i + 1, limit) == Opened(m.buf);
    hide TrackAt, Takes;
    Starts(limit, closed[..base + 1], kept, m, lost);
    assert closed[base + 1 := m][..base + 2] == closed[..base + 1] + [m];
    var ms' := closed[..base + 1] + [m];
    Closes(limit, ms', kept + [m.buf.data], [m.buf.data], Opened(m.buf), lost);
    assert ms'[base + 1 := Closed(m, Opened(m.buf))] == ms' by { OpenStays(m); }
  }

  lemma OpenStays(m: Message)
    ensures Closed(m, Opened(m.buf)) == m
  {
  }

  /** What every message keeps, empty datagrams or not. */
  ghost predicate Sane(m: Message, addr: nat, source: nat, limit: nat) {
    && m.addr == addr && m.source == source && |m.buf.data| <= m.buf.capacity
    && (m.gso.Some? ==> |m.buf.data| <= limit)
  }

  ghost predicate AllSane(ms: seq<Message>, n: nat, addr: nat, source: nat, limit: nat) {
    n <= |ms| && forall k :: 0 <= k < n ==> Sane(ms[k], addr, source, limit)
  }

  lemma NoneSane(ms: seq<Message>, addr: nat, source: nat, limit: nat)
    ensures AllSane(ms, 0, addr, source, limit)
  {
  }

  lemma AllSaneSet(ms: seq<Message>, n: nat, addr: nat, source: nat, limit: nat, k: nat, m: Message)
    requires AllSane(ms, n, addr, source, limit) && k <= n && k < |ms| && Sane(m, addr, source, limit)
    ensures AllSane(ms[k := m], if k == n then n + 1 else n, addr, source, limit)
  {
  }

  lemma AllSaneAt(ms: seq<Message>, n: nat, addr: nat, source: nat, limit: nat)
    requires AllSane(ms, n, addr, source, limit)
    ensures n > 0 ==> n <= |ms| && Sane(ms[n - 1], addr, source, limit)
  {
  }

  lemma AllSaneMeans(ms: seq<Message>, n: nat, addr: nat, source: nat, limit: nat)
    requires AllSane(ms, n, addr, source, limit)
    ensures n <= |ms| && forall k :: 0 <= k < n ==> Sane(ms[k], addr, source, limit)
  {
  }

  /**
   Cutting each message at its segment size gives back the datagrams in order, without the empty ones that joined a
   message, so all of them exactly when none does. Then a segment size is set exactly on messages of several datagrams,
   which stay within the limits, and a message ends only when it cannot take the next datagram.
   */
  method CoalesceMessages(addr: nat, source: nat, is6: bool, bufs: seq<Buffer>, msgs: array<Message>)
    returns (count: nat)
    requires |bufs| <= msgs.Length
    requires forall i :: 0 <= i < |bufs| ==> |bufs[i].data| <= bufs[i].capacity
    modifies msgs
    ensures count <= |bufs| && forall k :: count <= k < msgs.Length ==> msgs[k] == old(msgs[k])
    ensures forall k :: 0 <= k < count ==> Sane(msgs[k], addr, source, Limit(is6))
    ensures AllPieces(msgs[..count]) == Kept(bufs, |bufs|, Limit(is6))
    ensures AllPieces(msgs[..count]) == Datas(bufs) <==> !Lost(bufs, |bufs|, Limit(is6))
    ensures !Lost(bufs, |bufs|, Limit(is6)) ==> AllLegal(msgs[..count]) && Greedy(msgs[..count], Limit(is6))
  {
    hide AllPieces, AllLegal, Datas, Going, Greedy, AllSane, TrackAt, Kept, Lost, EmptyJoins;
    var maxPayloadLen := Limit(is6);
    NoneSane(msgs[..], addr, source, maxPayloadLen);
    var base := -1;
    var gsoSize: nat, dgramCnt: nat, endBatch := 0, 0, false;
    ghost var cur: seq<seq<byte>> := [];
    var i := 0;
    while i < |bufs|
      invariant 0 <= i <= |bufs| && -1 <= base < i && (base == -1 <==> i == 0) && (i == 0 ==> dgramCnt == 0)
      invariant forall k :: base < k < msgs.Length ==> msgs[k] == old(msgs[k])
      invariant AllSane(msgs[..], base + 1, addr, source, maxPayloadLen)
      invariant i > 0 ==> gsoSize <= |msgs[base].buf.data| && (dgramCnt > 1 ==> |msgs[base].buf.data| <= maxPayloadLen)
      invariant i > 0 ==> Going(maxPayloadLen, msgs[..], base, bufs, i, cur)
      invariant i > 0 ==>
        TrackAt(bufs, i, maxPayloadLen) ==
          Track(|msgs[base].buf.data|, msgs[base].buf.capacity, gsoSize, dgramCnt, endBatch)
    {
      var buf := bufs[i];
      ghost var all := msgs[..];
      AllSaneAt(all, base + 1, addr, source, maxPayloadLen);
      if i > 0 {
        TrackNext(bufs, i, maxPayloadLen);
        var msgLen := |buf.data|;
        var baseLenBefore := |msgs[base].buf.data|;
        var freeBaseCap := msgs[base].buf.capacity - baseLenBefore;
        if msgLen + baseLenBefore <= maxPayloadLen && msgLen <= gsoSize && msgLen <= freeBaseCap
           && dgramCnt < UdpSegmentMaxDatagrams && !endBatch {
          msgs[base] := msgs[base].(buf := msgs[base].buf.(data := msgs[base].buf.data + buf.data));
          if i == |bufs| - 1 {
            msgs[base] := msgs[base].(gso := Some(gsoSize));
          }
          AllSaneSet(all, base + 1, addr, source, maxPayloadLen, base, msgs[base]);
          JoinStep(maxPayloadLen, all, base, bufs, i, cur);
          assert msgs[..] == all[base := Joined(all[base], buf.data, gsoSize, i == |bufs| - 1)];
          cur := JoinedPieces(cur, buf.data);
          dgramCnt := dgramCnt + 1;
          if msgLen < gsoSize { endBatch := true; }
          i := i + 1;
          continue;
        }
      }
      if dgramCnt > 1 {
        msgs[base] := msgs[base].(gso := Some(gsoSize));
        AllSaneSet(all, base + 1, addr, source, maxPayloadLen, base, msgs[base]);
        assert msgs[..] == all[base := msgs[base]];
      }
      AllSaneSet(msgs[..], base + 1, addr, source, maxPayloadLen, base + 1, Message(buf, addr, source, None));
      msgs[base + 1] := Message(buf, addr, source, None);
      if i == 0 {
        FirstStep(maxPayloadLen, all, bufs, msgs[0]);
        FirstTrack(bufs, maxPayloadLen);
        assert msgs[..] == all[0 := msgs[0]];
      } else {
        StartStep(maxPayloadLen, all, base, bufs, i, cur, msgs[base + 1]);
        assert msgs[..] == ClosedAt(all, base, TrackAt(bufs, i, maxPayloadLen))[base + 1 := msgs[base + 1]];
      }
      cur := [buf.data];
      endBatch := false;
      base := base + 1;
      gsoSize := |buf.data|;
      dgramCnt := 1;
      i := i + 1;
    }
    count := base + 1;
    AllSaneMeans(msgs[..], count, addr, source, maxPayloadLen);
    Delivered(maxPayloadLen, msgs[..], base, bufs, cur);
  }

  function Limit(is6: bool): nat { if is6 then MaxIPv6PayloadLen else MaxIPv4PayloadLen }

  lemma FirstTrack(bufs: seq<Buffer>, limit: nat)
    requires |bufs| > 0
    ensures TrackAt(bufs, 1, limit) == Opened(bufs[0])
  {
  }

  lemma TrackNext(bufs: seq<Buffer>, i: nat, limit: nat)
    requires 0 < i < |bufs| && TrackAt(bufs, i, limit).len <= TrackAt(bufs, i, limit).capacity
    ensures var t, n := TrackAt(bufs, i, limit), |bufs[i].data|;
      && TrackAt(bufs, i + 1, limit) == (if Takes(t, limit, n) then Grown(t, n) else Opened(bufs[i]))
      && (EmptyJoins(bufs, i, limit) <==> Takes(t, limit, n) && n == 0)
  {
  }

  lemma Delivered(limit: nat, all: seq<Message>, base: int, bufs: seq<Buffer>, cur: seq<seq<byte>>)
    requires -1 <= base < |all| && (|bufs| == 0 ==> base == -1)
    requires |bufs| > 0 ==> Going(limit, all, base, bufs, |bufs|, cur)
    ensures AllPieces(all[..base + 1]) == Kept(bufs, |bufs|, limit)
    ensures AllPieces(all[..base + 1]) == Datas(bufs) <==> !Lost(bufs, |bufs|, limit)
    ensures !Lost(bufs, |bufs|, limit) ==> AllLegal(all[..base + 1]) && Greedy(all[..base + 1], limit)
  {
    hide Kept, Lost, TrackAt;
    KeptAll(bufs, |bufs|, limit);
    KeptNothing(bufs, limit);
    assert bufs[..|bufs|] == bufs;
  }

  lemma NothingFinished(limit: nat)
    ensures Finished(limit, [], [], false)
  {
  }

  /** An empty datagram behind another is lost. */
  method EmptyIsLost(addr: nat, source: nat, is6: bool, msgs: array<Message>) returns (count: nat)
    requires msgs.Length >= 2
    modifies msgs
    ensures count <= 2 && AllPieces(msgs[..count]) == [[1]]
  {
    hide AllPieces;
    var bufs := [Buffer([1], 1), Buffer([], 0)];
    count := CoalesceMessages(addr, source, is6, bufs, msgs);
    KeptOfTwo(bufs, Limit(is6));
    assert [bufs[0].data] == [[1]];
  }

  /** An empty datagram in front is not. */
  method EmptyIsKept(addr: nat, source: nat, is6: bool, msgs: array<Message>) returns (count: nat)
    requires msgs.Length >= 2
    modifies msgs
    ensures count <= 2 && AllPieces(msgs[..count]) == [[], [1]]
  {
    hide AllPieces;
    var bufs := [Buffer([], 1), Buffer([1], 1)];
    count := CoalesceMessages(addr, source, is6, bufs, msgs);
    KeptOfTwo(bufs, Limit(is6));
    assert [bufs[0].data, bufs[1].data] == [[], [1]];
  }

  lemma KeptOfTwo(bufs: seq<Buffer>, limit: nat)
    requires |bufs| == 2
    ensures Kept(bufs, 2, limit) ==
      if |bufs[1].data| == 0 && |bufs[0].data| <= limit then [bufs[0].data] else [bufs[0].data, bufs[1].data]
  {
    FirstTrack(bufs, limit);
    KeptNext(bufs, 1, limit);
    KeptNext(bufs, 0, limit);
    KeptNothing(bufs, limit);
    hide Kept, Lost;
    assert [] + [bufs[0].data] == [bufs[0].data];
    assert [bufs[0].data] + [bufs[1].data] == [bufs[0].data, bufs[1].data];
  }

  /* Splitting what was received. */

  /**
   A receive slot: its buffer, how many bytes arrived, from where, and the segment size if the control data parses.
   */
  datatype Received = Received(buf: seq<byte>, n: nat, addr: nat, gso: Option<nat>)

  datatype Outcome = Done | BadControl | Overflow

  /** What the slicing in the source needs: lengths inside the buffer. */
  predicate InBuffer(m: Received) {
    m.n <= |m.buf| && (m.gso.Some? ==> m.gso.value <= |m.buf|)
  }

  /** The pieces one received message is split into; a segment size beyond the message is not clamped. */
  function Parts(m: Received): (r: seq<seq<byte>>)
    requires InBuffer(m) && m.gso.Some?
    ensures |r| > 0
  {
    if m.gso.value == 0 then [m.buf[..m.n]]
    else if m.gso.value > m.n then [m.buf[..m.gso.value]]
    else Cut(m.buf[..m.n], m.gso.value)
  }

  /** The pieces are the message, cut, exactly when the segment size does not exceed the message. */
  lemma PartsAreTheMessage(m: Received)
    requires InBuffer(m) && m.gso.Some? && m.n > 0
    ensures Flatten(Parts(m)) == m.buf[..m.n] <==> m.gso.value <= m.n
  {
    if m.gso.value == 0 {
      FlattenOne(m.buf[..m.n]);
    } else if m.gso.value > m.n {
      FlattenOne(m.buf[..m.gso.value]);
      assert |m.buf[..m.gso.value]| != |m.buf[..m.n]|;
    } else {
      JoinCuts(m.buf[..m.n], m.gso.value);
    }
  }

  lemma {:induction false} JoinCuts(d: seq<byte>, g: nat)
    requires g > 0
    ensures Flatten(Cut(d, g)) == d
    decreases |d|
  {
    if |d| <= g {
      FlattenOne(d);
    } else {
      JoinCuts(d[g..], g);
      FlattenCons(d[..g], Cut(d[g..], g));
    }
  }

  lemma {:induction false} CutCount(d: seq<byte>, g: nat)
    requires g > 0 && |d| > 0
    ensures |Cut(d, g)| == (|d| + g - 1) / g
    decreases |d|
  {
    if |d| <= g {
      DivisionStep(|d| + g - 1, g);
    } else {
      CutCount(d[g..], g);
      DivisionStep(|d| + g - 1, g);
    }
  }

  lemma DivisionStep(x: nat, g: nat)
    requires 0 < g <= x
    ensures x / g == (x - g) / g + 1
    ensures x - g < g ==> (x - g) / g == 0
  {
    var q, r := (x - g) / g, (x - g) % g;
    assert (q + 1) * g + r == x;
    Words.QuotientUnique(x, g, q + 1, r);
    if x - g < g { Words.QuotientUnique(x - g, g, 0, x - g); }
  }

  /** Messages are processed until one has no bytes. */
  function Stop(ms: seq<Received>, i: nat): (r: nat)
    ensures i <= |ms| ==> i <= r <= |ms|
    decreases |ms| - i
  {
    if i >= |ms| || ms[i].n == 0 then i else Stop(ms, i + 1)
  }

  function AllParts(ms: seq<Received>, first: nat, upto: nat): seq<(seq<byte>, nat)>
    requires first <= upto <= |ms|
    requires forall i :: first <= i < upto ==> InBuffer(ms[i]) && ms[i].gso.Some?
  {
    if upto == first then [] else AllParts(ms, first, upto - 1) + Tagged(Parts(ms[upto - 1]), ms[upto - 1].addr)
  }

  function Tagged(parts: seq<seq<byte>>, addr: nat): (r: seq<(seq<byte>, nat)>)
    ensures |r| == |parts|
  {
    seq(|parts|, i requires 0 <= i < |parts| => (parts[i], addr))
  }

  /** How splitting ends: piece number n may go to slot n only once slot n has been read. */
  function Result(ms: seq<Received>, i: nat, n: nat): Outcome
    requires forall k :: i <= k < |ms| ==> InBuffer(ms[k])
    decreases |ms| - i
  {
    if i >= |ms| || ms[i].n == 0 then Done
    else if ms[i].gso.None? then BadControl
    else if n + |Parts(ms[i])| > i + 1 then Overflow
    else Result(ms, i + 1, n + |Parts(ms[i])|)
  }

  /** copy(dst, src). */
  function Copied(dst: seq<byte>, src: seq<byte>): (r: seq<byte>)
    ensures |r| == |dst|
  {
    if |src| <= |dst| then src + dst[|src|..] else src[..|dst|]
  }

  function Put(slot: Received, part: (seq<byte>, nat)): Received {
    slot.(buf := Copied(slot.buf, part.0), n := if |part.0| <= |slot.buf| then |part.0| else |slot.buf|, addr := part.1)
  }

  /** A slot holds a piece: the whole of it when the slot's buffer is large enough. */
  ghost predicate HoldsPart(slot: Received, part: (seq<byte>, nat)) {
    && slot.addr == part.1 && slot.n <= |part.0| && slot.n <= |slot.buf|
    && slot.buf[..slot.n] == part.0[..slot.n]
    && (|part.0| <= |slot.buf| ==> slot.n == |part.0|)
  }

  lemma PutHolds(slot: Received, part: (seq<byte>, nat))
    ensures HoldsPart(Put(slot, part), part)
    ensures |Put(slot, part).buf| == |slot.buf|
  {
  }

  /** Where the inner loop stands: pieces j and on are cut from the rest of the message. */
  ghost predicate Cutting(m: Received, j: nat, start: nat, end: nat)
    requires InBuffer(m) && m.gso.Some?
  {
    && j < |Parts(m)| && start <= end <= |m.buf|
    && m.buf[start..end] == Parts(m)[j]
    && (m.gso.value == 0 || m.gso.value > m.n ==> j == 0)
    && (0 < m.gso.value <= m.n ==>
        && end == (if start + m.gso.value > m.n then m.n else start + m.gso.value)
        && start <= m.n && Cut(m.buf[start..m.n], m.gso.value) == Parts(m)[j..])
  }

  function NumToSplit(n: nat, g: nat): nat
    requires g > 0
  {
    (n + g - 1) / g
  }

  lemma CuttingStarts(m: Received)
    requires InBuffer(m) && m.gso.Some? && m.n > 0
    ensures Cutting(m, 0, 0, if m.gso.value > 0 then m.gso.value else m.n)
    ensures |Parts(m)| == if m.gso.value > 0 then NumToSplit(m.n, m.gso.value) else 1
  {
    if 0 < m.gso.value <= m.n {
      CutCount(m.buf[..m.n], m.gso.value);
      assert m.buf[0..m.n] == m.buf[..m.n];
      assert Parts(m)[0..] == Parts(m);
      assert m.buf[0..m.gso.value] == m.buf[..m.n][..m.gso.value];
    } else if m.gso.value > m.n {
      DivisionStep(m.n + m.gso.value - 1, m.gso.value);
      assert m.buf[0..m.gso.value] == m.buf[..m.gso.value];
    } else {
      assert m.buf[0..m.n] == m.buf[..m.n];
    }
  }

  lemma CuttingMoves(m: Received, j: nat, start: nat, end: nat)
    requires InBuffer(m) && m.gso.Some? && m.n > 0
    requires Cutting(m, j, start, end) && j + 1 < |Parts(m)|
    ensures Cutting(m, j + 1, end, if end + m.gso.value > m.n then m.n else end + m.gso.value)
  {
    var g, rest := m.gso.value, m.buf[start..m.n];
    assert |Parts(m)[j..]| > 1;
    assert rest[g..] == m.buf[end..m.n];
    assert Parts(m)[j..][1..] == Parts(m)[j + 1..];
    assert Parts(m)[j + 1] == Cut(rest[g..], g)[0];
    var end' := if end + g > m.n then m.n else end + g;
    var tail := m.buf[end..m.n];
    CutHead(tail, g);
    assert m.buf[end..end'] == tail[..end' - end];
    assert tail[..|tail|] == tail;
  }

  lemma CutHead(d: seq<byte>, g: nat)
    requires g > 0
    ensures Cut(d, g)[0] == if |d| <= g then d else d[..g]
  {
  }

  /** The slots below n hold the pieces, and the slots from i on are as they were read. */
  ghost predicate Placed(ms: seq<Received>, now: seq<Received>, parts: seq<(seq<byte>, nat)>, i: nat) {
    && |now| == |ms| && |parts| <= |ms|
    && (forall k :: 0 <= k < |ms| ==> |now[k].buf| == |ms[k].buf|)
    && (forall k :: 0 <= k < |parts| ==> HoldsPart(now[k], parts[k]))
    && forall k :: i <= k < |ms| ==> now[k] == ms[k]
  }

  lemma PlacedPut(ms: seq<Received>, now: seq<Received>, parts: seq<(seq<byte>, nat)>, i: nat, i': nat,
                  part: (seq<byte>, nat))
    requires Placed(ms, now, parts, i) && |parts| < i' && i <= i' && |parts| < |now|
    ensures Placed(ms, now[|parts| := Put(now[|parts|], part)], parts + [part], i')
  {
    PutHolds(now[|parts|], part);
  }

  /**
   * On success slot k holds piece k of everything received, in order and with its sender's address;
   * success is decided by the counts alone, so no slot is overwritten before it has been read.
   */
  method SplitCoalescedMessages(msgs: array<Received>, firstMsgAt: nat) returns (n: nat, err: Outcome)
    requires firstMsgAt <= msgs.Length
    requires forall i :: 0 <= i < msgs.Length ==> InBuffer(msgs[i])
    modifies msgs
    ensures err == Result(old(msgs[..]), firstMsgAt, 0)
    ensures err == Done ==>
      var ms, stop := old(msgs[..]), Stop(old(msgs[..]), firstMsgAt);
      && (forall i :: firstMsgAt <= i < stop ==> ms[i].gso.Some?)
      && var parts := AllParts(ms, firstMsgAt, stop);
      && n == |parts| <= msgs.Length
      && forall k :: 0 <= k < n ==> HoldsPart(msgs[k], parts[k]) && |msgs[k].buf| == |ms[k].buf|
  {
    hide Parts, HoldsPart, Result, Stop, Placed;
    ghost var ms := msgs[..];
    ghost var parts: seq<(seq<byte>, nat)> := [];
    n := 0;
    var i := firstMsgAt;
    PlacedNothing(ms, i);
    while i < msgs.Length
      invariant firstMsgAt <= i <= msgs.Length && n <= i && n == |parts|
      invariant forall k :: firstMsgAt <= k < i ==> ms[k].gso.Some?
      invariant parts == AllParts(ms, firstMsgAt, i)
      invariant Placed(ms, msgs[..], parts, i)
      invariant Stop(ms, firstMsgAt) == Stop(ms, i)
      invariant Result(ms, firstMsgAt, 0) == Result(ms, i, n)
    {
      PlacedAt(ms, msgs[..], parts, i);
      StopStep(ms, i);
      ResultStep(ms, i, n);
      if msgs[i].n == 0 {
        PlacedMeans(ms, msgs[..], parts, i);
        return n, Done;
      }
      if msgs[i].gso.None? { return n, BadControl; }
      var ok;
      ghost var more := Tagged(Parts(ms[i]), ms[i].addr);
      n, ok := SplitOne(msgs, i, n, ms, parts);
      if !ok { return n, Overflow; }
      parts := parts + more;
      if i != n - 1 {
        ghost var was := msgs[..];
        msgs[i] := msgs[i].(n := 0);
        PlacedCleared(ms, was, parts, i);
        assert msgs[..] == was[i := was[i].(n := 0)];
      }
      i := i + 1;
    }
    StopStep(ms, i);
    ResultStep(ms, i, n);
    PlacedMeans(ms, msgs[..], parts, i);
    return n, Done;
  }

  /** The inner loop: message i is cut, and its pieces go to the slots from n on. */
  method SplitOne(msgs: array<Received>, i: nat, n0: nat, ghost ms: seq<Received>, ghost parts: seq<(seq<byte>, nat)>)
    returns (n: nat, ok: bool)
    requires i < msgs.Length && n0 <= i && n0 == |parts| && |ms| == msgs.Length
    requires InBuffer(ms[i]) && ms[i].gso.Some? && ms[i].n > 0
    requires Placed(ms, msgs[..], parts, i)
    modifies msgs
    ensures ok <==> n0 + |Parts(ms[i])| <= i + 1
    ensures ok ==> n == n0 + |Parts(ms[i])| && Placed(ms, msgs[..], parts + Tagged(Parts(ms[i]), ms[i].addr), i + 1)
  {
    hide Parts, HoldsPart, Cutting, Placed, Put, Tagged, NumToSplit, InBuffer;
    PlacedAt(ms, msgs[..], parts, i);
    ghost var m := ms[i];
    ghost var tagged := Tagged(Parts(m), m.addr);
    var gsoSize := msgs[i].gso.value;
    var start: nat, end: nat, numToSplit := 0, msgs[i].n, 1;
    if gsoSize > 0 {
      numToSplit := NumToSplit(msgs[i].n, gsoSize);
      end := gsoSize;
    }
    CuttingStarts(m);
    n := n0;
    var j := 0;
    assert parts + tagged[..0] == parts;
    while j < numToSplit
      invariant 0 <= j <= numToSplit == |Parts(m)| && n == n0 + j <= i + 1
      invariant n <= i ==> msgs[i] == m
      invariant n <= i && j < numToSplit ==> Cutting(m, j, start, end)
      invariant Placed(ms, msgs[..], parts + tagged[..j], if n <= i then i else i + 1)
    {
      if n > i { return n, false; }
      ghost var was := msgs[..];
      CuttingNow(m, j, start, end);
      TaggedAt(Parts(m), m.addr, j);
      PlacedPut(ms, was, parts + tagged[..j], i, if n < i then i else i + 1, tagged[j]);
      var src := msgs[i];
      msgs[n] := Put(msgs[n], (src.buf[start..end], src.addr));
      assert msgs[..] == was[n := Put(was[n], tagged[j])];
      assert (parts + tagged[..j]) + [tagged[j]] == parts + tagged[..j + 1];
      if n < i && j + 1 < numToSplit { CuttingMoves(m, j, start, end); }
      start := end;
      end := end + gsoSize;
      if end > msgs[i].n { end := msgs[i].n; }
      n := n + 1;
      j := j + 1;
    }
    assert tagged[..j] == tagged;
    if n <= i { PlacedLater(ms, msgs[..], parts + tagged, i); }
    return n, true;
  }

  lemma TaggedAt(parts: seq<seq<byte>>, addr: nat, j: nat)
    requires j < |parts|
    ensures Tagged(parts, addr)[j] == (parts[j], addr)
  {
  }

  lemma CuttingNow(m: Received, j: nat, start: nat, end: nat)
    requires InBuffer(m) && m.gso.Some? && Cutting(m, j, start, end)
    ensures j < |Parts(m)| && start <= end <= |m.buf| && m.buf[start..end] == Parts(m)[j]
  {
  }

  lemma PlacedNothing(ms: seq<Received>, i: nat)
    ensures Placed(ms, ms, [], i)
  {
  }

  lemma PlacedAt(ms: seq<Received>, now: seq<Received>, parts: seq<(seq<byte>, nat)>, i: nat)
    requires Placed(ms, now, parts, i) && i < |ms|
    ensures i < |now| && now[i] == ms[i]
  {
  }

  lemma PlacedLater(ms: seq<Received>, now: seq<Received>, parts: seq<(seq<byte>, nat)>, i: nat)
    requires Placed(ms, now, parts, i)
    ensures Placed(ms, now, parts, i + 1)
  {
  }

  lemma PlacedCleared(ms: seq<Received>, now: seq<Received>, parts: seq<(seq<byte>, nat)>, i: nat)
    requires i < |now| && |parts| <= i && Placed(ms, now, parts, i + 1)
    ensures Placed(ms, now[i := now[i].(n := 0)], parts, i + 1)
  {
  }

  lemma PlacedMeans(ms: seq<Received>, now: seq<Received>, parts: seq<(seq<byte>, nat)>, i: nat)
    requires Placed(ms, now, parts, i)
    ensures |parts| <= |now| == |ms|
    ensures forall k :: 0 <= k < |parts| ==> HoldsPart(now[k], parts[k]) && |now[k].buf| == |ms[k].buf|
  {
  }

  lemma StopStep(ms: seq<Received>, i: nat)
    ensures Stop(ms, i) == if i >= |ms| || ms[i].n == 0 then i else Stop(ms, i + 1)
  {
  }

  lemma ResultStep(ms: seq<Received>, i: nat, n: nat)
    requires forall k :: i <= k < |ms| ==> InBuffer(ms[k])
    ensures Result(ms, i, n) ==
      if i >= |ms| || ms[i].n == 0 then Done
      else if ms[i].gso.None? then BadControl
      else if n + |Parts(ms[i])| > i + 1 then Overflow
      else Result(ms, i + 1, n + |Parts(ms[i])|)
  {
  }

  /** A legal message that arrives as it was sent is split into the datagrams it was made of. */
  lemma SplitUndoesCoalesce(m: Message, r: Received)
    requires Legal(m) && InBuffer(r)
    requires r.n == |m.buf.data| && r.buf[..r.n] == m.buf.data
    requires r.gso == Some(if m.gso.Some? then m.gso.value else 0)
    ensures Parts(r) == Pieces(m)
  {
    if m.gso.Some? {
      assert m.gso.value > 0;
      assert |Cut(m.buf.data, m.gso.value)| >= 2;
      assert m.gso.value < |m.buf.data|;
    }
  }
}
