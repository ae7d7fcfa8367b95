/** The per-address token bucket and its garbage collection. Times are in nanoseconds. */
module Limiter {

  type Addr = nat

  const PacketCost := 50_000_000
  const MaxTokens := 250_000_000
  const GarbageCollectTime := 1_000_000_000

  datatype Entry = Entry(lastTime: int, tokens: int)

  type Table = map<Addr, Entry>

  /** What is in the bucket at a time; an address without an entry has a full one. */
  function Credit(t: Table, ip: Addr, now: int): int {
    if ip !in t then MaxTokens
    else
      var tokens := t[ip].tokens + (now - t[ip].lastTime);
      if tokens > MaxTokens then MaxTokens else tokens
  }

  /** The answer, and the table after it, of a limiter that never collects garbage. */
  function Allowed(t: Table, ip: Addr, now: int): bool {
    Credit(t, ip, now) > PacketCost
  }

  function After(t: Table, ip: Addr, now: int): Table {
    t[ip := Entry(now, Credit(t, ip, now) - if Allowed(t, ip, now) then PacketCost else 0)]
  }

  /** No bucket is ever emptied, since the test is strict, and no entry is from the future. */
  ghost predicate Sane(t: Table, now: int) {
    forall ip :: ip in t ==> t[ip].tokens > 0 && t[ip].lastTime <= now
  }

  /** The table is the full one without some entries that are old enough to have filled up. */
  ghost predicate Collected(t: Table, full: Table, now: int) {
    && (forall ip :: ip in t ==> ip in full && full[ip] == t[ip])
    && (forall ip :: ip in full && ip !in t ==> now - full[ip].lastTime > GarbageCollectTime)
  }

  lemma SameCredit(t: Table, full: Table, now: int, later: int, ip: Addr)
    requires Sane(full, now) && Collected(t, full, now) && now <= later
    ensures Credit(t, ip, later) == Credit(full, ip, later)
  {
  }

  class Ratelimiter {
    var table: Table
    ghost var full: Table      // the table of a limiter that has seen the same calls and never collected
    ghost var time: int        // when the last call was

    ghost predicate Valid()
      reads this
    {
      Sane(full, time) && Collected(table, full, time)
    }

    constructor (start: int)
      ensures Valid() && full == map[] && time == start
    {
      table, full, time := map[], map[], start;
    }

    /** The answer is that of a limiter without garbage collection. */
    method Allow(ip: Addr, now: int) returns (ok: bool)
      requires Valid() && time <= now
      modifies this
      ensures Valid() && time == now
      ensures ok == Allowed(old(full), ip, now) && full == After(old(full), ip, now)
    {
      SameCredit(table, full, time, now, ip);
      ghost var was := full;
      full, time := After(full, ip, now), now;
      if ip !in table {
        table := table[ip := Entry(now, MaxTokens - PacketCost)];
        assert full[ip] == table[ip];
        return true;
      }
      var entry := table[ip];
      entry := entry.(tokens := entry.tokens + (now - entry.lastTime));
      entry := entry.(lastTime := now);
      if entry.tokens > MaxTokens { entry := entry.(tokens := MaxTokens); }
      ok := entry.tokens > PacketCost;
      if ok { entry := entry.(tokens := entry.tokens - PacketCost); }
      table := table[ip := entry];
      assert full[ip] == entry;
    }

    /** One collection, reading the clock for each entry; now is when it ends. */
    method Cleanup(clock: Addr -> int, now: int) returns (empty: bool)
      requires Valid() && time <= now && forall ip :: ip in table ==> clock(ip) <= now
      modifies this
      ensures Valid() && time == now && full == old(full)
      ensures empty <==> table == map[]
      ensures table == Kept(old(table), clock)
    {
      var rest := table.Keys;
      ghost var was := table;
      while rest != {}
        invariant rest <= was.Keys && full == old(full) && time == old(time)
        invariant forall ip :: ip in table <==> ip in was && (ip in rest || Fresh(was, clock, ip))
        invariant forall ip :: ip in table ==> table[ip] == was[ip]
        decreases |rest|
      {
        var ip :| ip in rest;
        rest := rest - {ip};
        if clock(ip) - table[ip].lastTime > GarbageCollectTime {
          table := table - {ip};
        }
      }
      assert table == Kept(was, clock);
      CollectKeeps(was, full, clock, time, now);
      time := now;
      empty := |table| == 0;
    }
  }

  predicate Fresh(t: Table, clock: Addr -> int, ip: Addr) {
    ip in t && clock(ip) - t[ip].lastTime <= GarbageCollectTime
  }

  /** The entries a collection leaves. */
  function Kept(t: Table, clock: Addr -> int): Table {
    map ip | ip in t && Fresh(t, clock, ip) :: t[ip]
  }

  lemma CollectKeeps(t: Table, full: Table, clock: Addr -> int, time: int, now: int)
    requires Sane(full, time) && Collected(t, full, time) && time <= now
    requires forall ip :: ip in t ==> clock(ip) <= now
    ensures Sane(full, now) && Collected(Kept(t, clock), full, now)
  {
  }

  /* The rate bound, over every run of calls. */

  datatype Call = Call(ip: Addr, now: int)

  ghost predicate InOrder(run: seq<Call>, from: int)
    decreases |run|
  {
    run == [] || (from <= run[0].now && InOrder(run[1..], run[0].now))
  }

  /** How many of a run's calls for an address are allowed. */
  function Permits(t: Table, run: seq<Call>, ip: Addr): (n: nat)
    decreases |run|
  {
    if run == [] then 0
    else
      var permit := if run[0].ip == ip && Allowed(t, ip, run[0].now) then 1 else 0;
      permit + Permits(After(t, run[0].ip, run[0].now), run[1..], ip)
  }

  function Final(t: Table, run: seq<Call>): Table
    decreases |run|
  {
    if run == [] then t else Final(After(t, run[0].ip, run[0].now), run[1..])
  }

  function End(run: seq<Call>, from: int): int {
    if run == [] then from else run[|run| - 1].now
  }

  /** One call: the bucket gains at most the time that passed and pays for the permit. */
  lemma CallPays(t: Table, call: Call, from: int, ip: Addr)
    requires Sane(t, from) && from <= call.now
    ensures Sane(After(t, call.ip, call.now), call.now)
    ensures
      Credit(After(t, call.ip, call.now), ip, call.now)
      + (if call.ip == ip && Allowed(t, ip, call.now) then PacketCost else 0)
      <= Credit(t, ip, from) + (call.now - from)
    ensures 0 < Credit(t, ip, from) <= MaxTokens
  {
  }

  /** Every permit is paid for out of the bucket and the time that passes. */
  lemma {:induction false} PermitsArePaid(t: Table, run: seq<Call>, from: int, ip: Addr)
    requires Sane(t, from) && InOrder(run, from)
    ensures Sane(Final(t, run), End(run, from))
    ensures PacketCost * Permits(t, run, ip) + Credit(Final(t, run), ip, End(run, from))
      <= Credit(t, ip, from) + (End(run, from) - from)
    decreases |run|
  {
    if run != [] {
      hide Credit, After, Sane;
      CallPays(t, run[0], from, ip);
      PermitsArePaid(After(t, run[0].ip, run[0].now), run[1..], run[0].now, ip);
      assert End(run, from) == End(run[1..], run[0].now);
    }
  }

  /**
   * In any window of length T an address gets at most (MaxTokens + T) / PacketCost permits, whatever
   * came before it, and strictly fewer when that quotient is exact.
   */
  lemma WindowBound(t: Table, run: seq<Call>, from: int, window: nat, ip: Addr)
    requires Sane(t, from) && InOrder(run, from) && End(run, from) <= from + window
    ensures PacketCost * Permits(t, run, ip) < MaxTokens + window
    ensures Permits(t, run, ip) <= (MaxTokens + window) / PacketCost
  {
    PermitsArePaid(t, run, from, ip);
    CallPays(Final(t, run), Call(ip, End(run, from)), End(run, from), ip);
    CallPays(t, Call(ip, from), from, ip);
  }

  /** The bound is met: a full bucket lets four packets through in one instant, and not a fifth. */
  lemma FourInAnInstant(t: Table, ip: Addr, now: int)
    requires ip !in t
    ensures Permits(t, [Call(ip, now), Call(ip, now), Call(ip, now), Call(ip, now), Call(ip, now)], ip) == 4
    ensures Permits(t, [Call(ip, now), Call(ip, now), Call(ip, now), Call(ip, now)], ip) == 4
  {
    hide Permits;
    var c := Call(ip, now);
    var t1 := After(t, ip, now);
    var t2 := After(t1, ip, now);
    var t3 := After(t2, ip, now);
    var t4 := After(t3, ip, now);
    var t5 := After(t4, ip, now);
    NoCalls(t4, ip);
    NoCalls(t5, ip);
    OneCall(t4, c, [], ip);
    OneCall(t3, c, [], ip);
    OneCall(t3, c, [c], ip);
    OneCall(t2, c, [c], ip);
    OneCall(t2, c, [c, c], ip);
    OneCall(t1, c, [c, c], ip);
    OneCall(t1, c, [c, c, c], ip);
    OneCall(t, c, [c, c, c], ip);
    OneCall(t, c, [c, c, c, c], ip);
    assert [c] + [c, c, c, c] == [c, c, c, c, c] && [c] + [c, c, c] == [c, c, c, c] && [c] + [c, c] == [c, c, c];
    assert [c] + [c] == [c, c] && [c] + [] == [c];
  }

  lemma NoCalls(t: Table, ip: Addr)
    ensures Permits(t, [], ip) == 0
  {
  }

  lemma OneCall(t: Table, call: Call, rest: seq<Call>, ip: Addr)
    requires call.ip == ip
    ensures Permits(t, [call] + rest, ip) ==
      (if Allowed(t, ip, call.now) then 1 else 0) + Permits(After(t, ip, call.now), rest, ip)
  {
    assert ([call] + rest)[1..] == rest;
  }
}
