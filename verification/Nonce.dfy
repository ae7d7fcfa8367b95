/**
 * Nonce allocation under one keypair: any number of senders interleave an atomic add, a comparison
 * and, past the limit, a store; expiry stores the limit at any time.
 */
module Nonces {
  import opened Bytes

  const RejectAfterMessages: u64 := 0xFFFF_FFFF_FFFF_DFFF

  /** The counter, what each sender holds between its add and its next action, and the nonces sent. */
  datatype State = State(counter: u64, held: map<nat, u64>, sent: seq<u64>)

  datatype Step = Add(sender: nat) | Use(sender: nat) | Store(sender: nat) | Expire

  const Init := State(0, map[], [])

  predicate Enabled(s: State, step: Step) {
    match step
    case Add(t) => t !in s.held
    case Use(t) => t in s.held && s.held[t] < RejectAfterMessages
    case Store(t) => t in s.held && s.held[t] >= RejectAfterMessages
    case Expire => true
  }

  function Next(s: State, step: Step): State
    requires Enabled(s, step)
  {
    match step
    case Add(t) => State((s.counter + 1) % 0x1_0000_0000_0000_0000, s.held[t := s.counter], s.sent)
    case Use(t) => State(s.counter, s.held - {t}, s.sent + [s.held[t]])
    case Store(t) => State(RejectAfterMessages, s.held - {t}, s.sent)
    case Expire => s.(counter := RejectAfterMessages)
  }

  /** The senders past the limit that have added and not yet stored. */
  function Over(s: State): set<nat> {
    set t | t in s.held && s.held[t] >= RejectAfterMessages
  }

  predicate IsRun(s: State, run: seq<Step>)
    decreases |run|
  {
    run == [] || (Enabled(s, run[0]) && IsRun(Next(s, run[0]), run[1..]))
  }

  function Reached(s: State, run: seq<Step>): State
    requires IsRun(s, run)
    decreases |run|
  {
    if run == [] then s else Reached(Next(s, run[0]), run[1..])
  }

  /** At no point are more than 2^13 senders between add and store. */
  predicate Bounded(s: State, run: seq<Step>)
    requires IsRun(s, run)
    decreases |run|
  {
    |Over(s)| <= 0x2000 && (run == [] || Bounded(Next(s, run[0]), run[1..]))
  }

  ghost predicate Distinct(q: seq<u64>) {
    forall i, j :: 0 <= i < j < |q| ==> q[i] != q[j]
  }

  ghost predicate Inv(s: State) {
    s.counter <= RejectAfterMessages + |Over(s)| && Issued(s)
  }

  /** Every nonce below the limit that was ever handed out is below the counter, and was handed out once. */
  ghost predicate Issued(s: State) {
    && Distinct(s.sent)
    && (forall i :: 0 <= i < |s.sent| ==> s.sent[i] < RejectAfterMessages && s.sent[i] < s.counter)
    && (forall t :: t in s.held && s.held[t] < RejectAfterMessages ==> s.held[t] < s.counter && s.held[t] !in s.sent)
    && (forall t, u :: t in s.held && u in s.held && t != u && s.held[t] < RejectAfterMessages ==>
      s.held[t] != s.held[u])
  }

  lemma OverAfter(s: State, step: Step)
    requires Enabled(s, step)
    ensures Over(Next(s, step)) == match step
      case Add(t) => if s.counter >= RejectAfterMessages then Over(s) + {t} else Over(s)
      case Use(_) => Over(s)
      case Store(t) => Over(s) - {t}
      case Expire => Over(s)
  {
  }

  lemma CounterKeeps(s: State, step: Step)
    requires s.counter <= RejectAfterMessages + |Over(s)|
    requires Enabled(s, step) && |Over(Next(s, step))| <= 0x2000
    ensures step.Add? ==> s.counter + 1 < 0x1_0000_0000_0000_0000
    ensures Next(s, step).counter <= RejectAfterMessages + |Over(Next(s, step))|
  {
    OverAfter(s, step);
    if step.Add? && s.counter >= RejectAfterMessages {
      assert step.sender !in Over(s);
    }
  }

  lemma IssuedKeeps(s: State, step: Step)
    requires Issued(s) && Enabled(s, step)
    requires step.Add? ==> s.counter + 1 < 0x1_0000_0000_0000_0000
    ensures Issued(Next(s, step))
  {
    var s' := Next(s, step);
    if step.Use? {
      assert forall i :: 0 <= i < |s.sent| ==> s'.sent[i] == s.sent[i];
    }
  }

  /** One step keeps the invariant, and the counter does not wrap, while the bound holds afterwards. */
  lemma StepKeeps(s: State, step: Step)
    requires Inv(s) && Enabled(s, step) && |Over(Next(s, step))| <= 0x2000
    ensures Inv(Next(s, step))
    ensures step.Add? ==> Next(s, step).counter == s.counter + 1
  {
    hide Over, Issued;
    CounterKeeps(s, step);
    IssuedKeeps(s, step);
  }

  /**
   * In every run that respects the bound, whatever the interleaving and however often the keypair
   * is expired: no nonce is sent twice, and none at or above the limit is sent.
   */
  lemma {:induction false} NeverReused(s: State, run: seq<Step>)
    requires Inv(s) && IsRun(s, run) && Bounded(s, run)
    ensures Inv(Reached(s, run))
    decreases |run|
  {
    hide Inv, Over;
    if run != [] {
      StepKeeps(s, run[0]);
      NeverReused(Next(s, run[0]), run[1..]);
    }
  }

  lemma UniqueFromStart(run: seq<Step>)
    requires IsRun(Init, run) && Bounded(Init, run)
    ensures Distinct(Reached(Init, run).sent)
    ensures forall i :: 0 <= i < |Reached(Init, run).sent| ==> Reached(Init, run).sent[i] < RejectAfterMessages
  {
    assert Inv(Init);
    NeverReused(Init, run);
  }

  /* The bound is exact: with one sender more, the counter wraps and a nonce is sent twice. */

  function Adds(first: nat, n: nat): seq<Step>
    decreases n
  {
    if n == 0 then [] else [Add(first)] + Adds(first + 1, n - 1)
  }

  /** The state after n senders have added one after another. */
  function AfterAdds(s: State, first: nat, n: nat): State {
    State((s.counter + n) % 0x1_0000_0000_0000_0000, HeldAfter(s, first, n), s.sent)
  }

  lemma {:induction false} AddsAdvance(s: State, first: nat, n: nat, rest: seq<Step>)
    requires forall t :: t in s.held ==> t < first
    requires IsRun(AfterAdds(s, first, n), rest)
    ensures IsRun(s, Adds(first, n) + rest)
    ensures Reached(s, Adds(first, n) + rest) == Reached(AfterAdds(s, first, n), rest)
    decreases n
  {
    if n == 0 {
      assert Adds(first, n) + rest == rest;
      assert AfterAdds(s, first, n) == s;
    } else {
      var s' := Next(s, Add(first));
      assert AfterAdds(s', first + 1, n - 1) == AfterAdds(s, first, n) by { Wraps(s.counter, n); }
      AddsAdvance(s', first + 1, n - 1, rest);
      assert (Adds(first, n) + rest)[1..] == Adds(first + 1, n - 1) + rest;
      assert (Adds(first, n) + rest)[0] == Add(first);
    }
  }

  lemma Wraps(c: u64, n: nat)
    requires n > 0
    ensures ((c + 1) % 0x1_0000_0000_0000_0000 + (n - 1)) % 0x1_0000_0000_0000_0000 == (c + n) % 0x1_0000_0000_0000_0000
  {
  }

  /** What the senders first .. first + n - 1 hold after adding one after another. */
  function HeldAfter(s: State, first: nat, n: nat): map<nat, u64>
    decreases n
  {
    if n == 0 then s.held
    else HeldAfter(State((s.counter + 1) % 0x1_0000_0000_0000_0000, s.held[first := s.counter], s.sent), first + 1,
                   n - 1)
  }

  lemma {:induction false} HeldKeys(s: State, first: nat, n: nat)
    ensures forall t :: t in HeldAfter(s, first, n) ==> t in s.held || first <= t < first + n
    decreases n
  {
    if n > 0 {
      HeldKeys(State((s.counter + 1) % 0x1_0000_0000_0000_0000, s.held[first := s.counter], s.sent), first + 1, n - 1);
    }
  }

  /** Nonce 0 is sent, the keypair expires, and n senders add before any of them stores. */
  function OverrunRun(n: nat): seq<Step> {
    [Add(0), Use(0), Expire] + (Adds(1, n) + [Add(0), Use(0)])
  }

  lemma OneMoreReuses(n: nat)
    requires n == 0x2001
    ensures IsRun(Init, OverrunRun(n))
    ensures Reached(Init, OverrunRun(n)).sent == [0, 0]
  {
    hide Adds, HeldAfter, IsRun, Reached;
    var s3 := State(RejectAfterMessages, map[], [0]);
    HeldKeys(s3, 1, n);
    LastTwo(AfterAdds(s3, 1, n));
    AddsAdvance(s3, 1, n, [Add(0), Use(0)]);
    FirstThree(Adds(1, n) + [Add(0), Use(0)], s3);
  }

  lemma LastTwo(w: State)
    requires 0 !in w.held && w.counter == 0
    ensures IsRun(w, [Add(0), Use(0)])
    ensures Reached(w, [Add(0), Use(0)]).sent == w.sent + [0]
  {
    var run := [Add(0), Use(0)];
    var w1 := Next(w, Add(0));
    assert run[1..] == [Use(0)];
    assert IsRun(w1, [Use(0)]);
    assert Reached(w, run) == Reached(w1, [Use(0)]) == Next(w1, Use(0));
  }

  lemma FirstThree(tail: seq<Step>, s3: State)
    requires s3 == State(RejectAfterMessages, map[], [0]) && IsRun(s3, tail)
    ensures IsRun(Init, [Add(0), Use(0), Expire] + tail)
    ensures Reached(Init, [Add(0), Use(0), Expire] + tail) == Reached(s3, tail)
  {
    var run := [Add(0), Use(0), Expire] + tail;
    var s1 := State(1, map[0 := 0], []);
    var s2 := State(1, map[], [0]);
    assert s1.held - {0} == map[];
    StepFirst(Expire, s2, tail, s3);
    StepFirst(Use(0), s1, [Expire] + tail, s2);
    StepFirst(Add(0), Init, [Use(0)] + ([Expire] + tail), s1);
    assert run == [Add(0)] + ([Use(0)] + ([Expire] + tail));
  }

  lemma StepFirst(step: Step, s: State, rest: seq<Step>, s': State)
    requires Enabled(s, step) && Next(s, step) == s' && IsRun(s', rest)
    ensures IsRun(s, [step] + rest) && Reached(s, [step] + rest) == Reached(s', rest)
  {
    assert ([step] + rest)[1..] == rest;
  }
}
