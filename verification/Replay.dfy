/** The sliding-window replay filter: a ring of bitmaps that stands for a set of accepted counters. */
module Replay {
  import opened Bytes
  import opened Words

  const RingBlocks := 128
  const WindowSize := 8128

  /** What the filter decides, in terms of the counters accepted so far. */
  ghost predicate Admits(accepted: set<u64>, counter: u64, limit: u64) {
    && counter < limit
    && counter !in accepted
    && forall a :: a in accepted ==> a - counter <= WindowSize
  }

  /** The set after one decision. */
  ghost function After(accepted: set<u64>, counter: u64, limit: u64): set<u64> {
    if Admits(accepted, counter, limit) then accepted + {counter} else accepted
  }

  /** The counter's bit is where the ring keeps it. */
  ghost predicate Marked(ring: seq<u64>, counter: u64)
    requires |ring| == RingBlocks
  {
    HasBit(ring[(counter / 64) % 128], counter % 64)
  }

  /**
   * The 128 blocks that end with the block of the largest accepted counter are exact. Any other
   * block may hold anything, so a reset need only clear block 0.
   */
  ghost predicate Exact(ring: seq<u64>, last: u64, accepted: set<u64>)
    requires |ring| == RingBlocks
  {
    forall c: u64 {:trigger Marked(ring, c)} ::
      last / 64 - 127 <= c / 64 <= last / 64 ==> (Marked(ring, c) <==> c in accepted)
  }

  ghost predicate Largest(last: u64, accepted: set<u64>) {
    && (accepted == {} ==> last == 0)
    && (accepted != {} ==> last in accepted)
    && forall a :: a in accepted ==> a <= last
  }

  class Filter {
    var last: u64
    const ring: array<u64>
    ghost var accepted: set<u64>

    ghost predicate Valid()
      reads this, ring
    {
      && ring.Length == RingBlocks
      && Largest(last, accepted)
      && Exact(ring[..], last, accepted)
    }

    /** The zero value. */
    constructor ()
      ensures Valid() && accepted == {} && fresh(ring)
    {
      ring := new u64[128](_ => 0);
      last := 0;
      accepted := {};
      new;
      forall c: u64 ensures !Marked(ring[..], c) { ZeroHasNoBit(c % 64); }
    }

    /** Works from any ring contents: only block 0 is cleared. */
    method Reset()
      requires ring.Length == RingBlocks
      modifies this, ring
      ensures Valid() && accepted == {}
    {
      last := 0;
      ring[0] := 0;
      accepted := {};
      forall c: u64 | c / 64 == 0 ensures !Marked(ring[..], c) { ZeroHasNoBit(c % 64); }
    }

    /** Clears the blocks the window enters when it moves forward to counter. */
    method Advance(counter: u64)
      requires Valid() && counter > last
      modifies this`last, ring
      ensures ring.Length == RingBlocks && last == counter && accepted == old(accepted)
      ensures Exact(ring[..], counter, accepted)
    {
      var current := last / 64;
      var diff := counter / 64 - current;
      if diff > 128 { diff := 128; }
      var i := current + 1;
      while i <= current + diff
        invariant current + 1 <= i <= current + diff + 1
        invariant Cleared(old(ring[..]), ring[..], current, i)
      {
        ghost var before := ring[..];
        RingMasks(i, i);
        ring[BitAnd(i, 127)] := 0;
        ClearedStep(old(ring[..]), before, ring[..], current, i);
        i := i + 1;
      }
      last := counter;
      ClearedExact(old(ring[..]), ring[..], old(last), counter, accepted);
    }

    /** Accepts a counter exactly when it is below the limit, new, and inside the window. */
    method ValidateCounter(counter: u64, limit: u64) returns (ok: bool)
      requires Valid()
      modifies this, ring
      ensures Valid()
      ensures ok <==> Admits(old(accepted), counter, limit)
      ensures accepted == After(old(accepted), counter, limit)
    {
      if counter >= limit { return false; }
      var indexBlock := counter / 64;
      if counter > last {
        Advance(counter);
      } else if last - counter > 8128 {
        assert last in accepted;
        return false;
      }
      RingMasks(indexBlock, counter);
      indexBlock := BitAnd(indexBlock, 127);
      var indexBit := BitAnd(counter, 63);
      var was := ring[indexBlock];
      WordFits(was, indexBit);
      var now := BitOr(was, Pow2(indexBit));
      ghost var before := ring[..];
      ring[indexBlock] := now;
      ok := was != now;
      SettingChanges(was, indexBit);
      MarkExact(before, ring[..], last, counter, accepted);
      accepted := accepted + {counter};
    }
  }

  lemma RingMasks(i: nat, c: nat)
    ensures BitAnd(i, 127) == i % 128
    ensures BitAnd(c, 63) == c % 64
  {
    assert Pow2(7) == 128 && Pow2(6) == 64;
    LowMask(i, 7);
    LowMask(c, 6);
  }

  lemma WordFits(w: u64, k: nat)
    requires k < 64
    ensures BitOr(w, Pow2(k)) < 0x1_0000_0000_0000_0000
  {
    PowValues();
    PowGrows(k, 64);
    OrFits(w, Pow2(k), 64);
  }

  /** Blocks current + 1 up to (not including) upto have been cleared, the others kept. */
  ghost predicate Cleared(was: seq<u64>, now: seq<u64>, current: int, upto: int) {
    && |was| == |now| == RingBlocks
    && forall b {:trigger now[b]} :: 0 <= b < 128 ==>
      && (Entered(b, current, upto) ==> now[b] == 0)
      && (!Entered(b, current, upto) ==> now[b] == was[b])
  }

  /** Slot b holds one of the blocks after current and before upto. */
  ghost predicate Entered(b: int, current: int, upto: int) {
    0 < SlotDistance(b, current) < upto - current
  }

  /** How many blocks after current the next block of slot b comes, counting 128 for current itself. */
  function SlotDistance(b: int, current: int): (d: int)
    ensures 1 <= d <= 128 && (current + d) % 128 == b % 128
  {
    (b - current - 1) % 128 + 1
  }

  lemma SlotOfBlock(b: int, current: int, i: int)
    requires 0 <= b < 128 && current < i <= current + 128
    ensures b == i % 128 <==> SlotDistance(b, current) == i - current
  {
  }

  lemma ClearedStep(was: seq<u64>, before: seq<u64>, now: seq<u64>, current: int, i: int)
    requires 0 <= current < i <= current + 128
    requires Cleared(was, before, current, i)
    requires now == before[i % 128 := 0]
    ensures Cleared(was, now, current, i + 1)
  {
    hide SlotDistance;
    forall b | 0 <= b < 128
      ensures b == i % 128 <==> SlotDistance(b, current) == i - current
    {
      SlotOfBlock(b, current, i);
    }
  }

  lemma SlotAhead(block: int, current: int)
    requires block > current
    ensures SlotDistance(block % 128, current) <= block - current
    ensures block - current <= 128 ==> SlotDistance(block % 128, current) == block - current
  {
  }

  /** Moving the window forward leaves it exact: the entered blocks hold no accepted counter. */
  lemma ClearedExact(was: seq<u64>, now: seq<u64>, last: u64, counter: u64, accepted: set<u64>)
    requires |was| == RingBlocks && counter > last
    requires Largest(last, accepted) && Exact(was, last, accepted)
    requires var current := last / 64; var diff := counter / 64 - current;
      Cleared(was, now, current, current + (if diff > 128 then 128 else diff) + 1)
    ensures Exact(now, counter, accepted)
  {
    forall c: u64 | counter / 64 - 127 <= c / 64 <= counter / 64
      ensures Marked(now, c) <==> c in accepted
    {
      ClearedExactAt(was, now, last, counter, accepted, c);
    }
  }

  lemma ClearedExactAt(was: seq<u64>, now: seq<u64>, last: u64, counter: u64, accepted: set<u64>, c: u64)
    requires |was| == RingBlocks && counter > last
    requires Largest(last, accepted) && Exact(was, last, accepted)
    requires var current := last / 64; var diff := counter / 64 - current;
      Cleared(was, now, current, current + (if diff > 128 then 128 else diff) + 1)
    requires counter / 64 - 127 <= c / 64 <= counter / 64
    ensures Marked(now, c) <==> c in accepted
  {
    hide SlotDistance;
    var current, block := last / 64, c / 64;
    if block > current {
      SlotAhead(block, current);
      ZeroHasNoBit(c % 64);
    } else {
      SlotAhead(block + 128, current);
      assert SlotDistance(block % 128, current) > counter / 64 - current;
      assert Marked(was, c) <==> c in accepted;
    }
  }

  /** Setting the bit of one counter inside the window adds exactly that counter. */
  lemma MarkExact(before: seq<u64>, now: seq<u64>, last: u64, counter: u64, accepted: set<u64>)
    requires |before| == RingBlocks
    requires Exact(before, last, accepted)
    requires last / 64 - 127 <= counter / 64 <= last / 64
    requires var slot, bit := (counter / 64) % 128, counter % 64;
      BitOr(before[slot], Pow2(bit)) < 0x1_0000_0000_0000_0000 && now == before[slot := BitOr(before[slot], Pow2(bit))]
    ensures Exact(now, last, accepted + {counter})
    ensures HasBit(before[(counter / 64) % 128], counter % 64) <==> counter in accepted
  {
    var slot, bit := (counter / 64) % 128, counter % 64;
    assert Marked(before, counter) <==> counter in accepted;
    forall c: u64 | last / 64 - 127 <= c / 64 <= last / 64
      ensures Marked(now, c) <==> c in accepted + {counter}
    {
      assert Marked(before, c) <==> c in accepted;
      if (c / 64) % 128 == slot {
        assert c / 64 == counter / 64;
        OrBit(before[slot], Pow2(bit), c % 64);
        PowBit(bit, c % 64);
      }
    }
  }

  /** The decisions of a whole run, one (counter, limit) pair after another. */
  ghost function Decisions(accepted: set<u64>, run: seq<(u64, u64)>): (r: seq<bool>)
    ensures |r| == |run|
    decreases |run|
  {
    if run == [] then []
    else [Admits(accepted, run[0].0, run[0].1)] + Decisions(After(accepted, run[0].0, run[0].1), run[1..])
  }

  /** A counter that is in the set is refused for the rest of the run. */
  lemma {:induction false} AcceptedStaysRefused(accepted: set<u64>, run: seq<(u64, u64)>, j: nat)
    requires j < |run| && run[j].0 in accepted
    ensures !Decisions(accepted, run)[j]
    decreases j
  {
    if j > 0 {
      AcceptedStaysRefused(After(accepted, run[0].0, run[0].1), run[1..], j - 1);
    }
  }

  /** No counter is accepted twice in any run, whatever the limits. */
  lemma {:induction false} NeverTwice(accepted: set<u64>, run: seq<(u64, u64)>, i: nat, j: nat)
    requires i < j < |run| && run[i].0 == run[j].0
    ensures !(Decisions(accepted, run)[i] && Decisions(accepted, run)[j])
    decreases i
  {
    var rest := After(accepted, run[0].0, run[0].1);
    if i > 0 {
      NeverTwice(rest, run[1..], i - 1, j - 1);
    } else if Decisions(accepted, run)[0] {
      AcceptedStaysRefused(rest, run[1..], j - 1);
    }
  }

  /** A run that keeps every counter within the window of all the others refuses nothing new. */
  lemma {:induction false} NothingNewRefused(accepted: set<u64>, run: seq<(u64, u64)>, j: nat)
    requires j < |run| && run[j].0 < run[j].1
    requires run[j].0 !in accepted && forall i :: 0 <= i < j ==> run[i].0 != run[j].0
    requires forall a :: a in accepted ==> a - run[j].0 <= WindowSize
    requires forall i :: 0 <= i < j ==> run[i].0 - run[j].0 <= WindowSize
    ensures Decisions(accepted, run)[j]
    decreases j
  {
    if j > 0 {
      forall i | 0 <= i < j - 1 ensures run[1..][i].0 == run[i + 1].0 {}
      NothingNewRefused(After(accepted, run[0].0, run[0].1), run[1..], j - 1);
    }
  }
}
