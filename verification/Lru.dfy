/** A bounded least-recently-used assignment of indices to names, least recent first. */
module Lru {
  import opened Bytes

  type Name = seq<byte>

  datatype Node = Node(name: Name, idx: nat)

  /** Distinct names, and the indices are exactly those below the length. */
  ghost predicate Good(l: seq<Node>, max: nat) {
    && |l| <= max
    && (forall i, j :: 0 <= i < j < |l| ==> l[i].name != l[j].name && l[i].idx != l[j].idx)
    && (forall i :: 0 <= i < |l| ==> l[i].idx < |l|)
  }

  /** The position of a name, or the length when it is absent. */
  function Where(l: seq<Node>, name: Name): (k: nat)
    ensures k <= |l|
    ensures k < |l| ==> l[k].name == name
    ensures forall i :: 0 <= i < k ==> l[i].name != name
  {
    if l == [] || l[0].name == name then 0
    else
      var k := Where(l[1..], name) + 1;
      assert forall i :: 1 <= i < k ==> l[i] == l[1..][i - 1];
      k
  }

  function ToTail(l: seq<Node>, k: nat): seq<Node>
    requires k < |l|
  {
    l[..k] + l[k + 1..] + [l[k]]
  }

  /** A known name becomes the most recent; a new one takes a free index or that of the least recent. */
  function Touch(l: seq<Node>, max: nat, name: Name): (r: seq<Node>)
    requires max > 0
    ensures |r| > 0 && r[|r| - 1].name == name
  {
    var k := Where(l, name);
    if k < |l| then ToTail(l, k)
    else if |l| < max then l + [Node(name, |l|)]
    else l[1..] + [Node(name, l[0].idx)]
  }

  lemma ToTailKeeps(l: seq<Node>, max: nat, k: nat)
    requires Good(l, max) && k < |l|
    ensures Good(ToTail(l, k), max)
    ensures forall n :: n in ToTail(l, k) <==> n in l
  {
    var r := ToTail(l, k);
    forall i | 0 <= i < |r| ensures r[i] == l[Old(|l|, k, i)] { }
    forall n | n in l ensures n in r {
      var i :| 0 <= i < |l| && l[i] == n;
      if i < k { assert r[i] == n; } else if i > k { assert r[i - 1] == n; } else { assert r[|r| - 1] == n; }
    }
  }

  /** Where the element at position i came from. */
  function Old(len: nat, k: nat, i: nat): nat
    requires k < len && i < len
  {
    if i == len - 1 then k else if i < k then i else i + 1
  }

  lemma TouchKeeps(l: seq<Node>, max: nat, name: Name)
    requires Good(l, max) && max > 0
    ensures Good(Touch(l, max, name), max)
  {
    var k := Where(l, name);
    if k < |l| {
      ToTailKeeps(l, max, k);
    } else if |l| >= max {
      FullHasAll(l, max);
    }
  }

  lemma FullHasAll(l: seq<Node>, max: nat)
    requires Good(l, max) && |l| == max > 0
    ensures l[0].idx < max
  {
  }

  /* Retention: what happens to one name while others are touched. */

  ghost function Touched(l: seq<Node>, max: nat, run: seq<Name>): seq<Node>
    requires max > 0
  {
    if run == [] then l else Touch(Touched(l, max, run[..|run| - 1]), max, run[|run| - 1])
  }

  lemma {:induction false} TouchedKeeps(l: seq<Node>, max: nat, run: seq<Name>)
    requires Good(l, max) && max > 0
    ensures Good(Touched(l, max, run), max)
    decreases |run|
  {
    if run != [] {
      TouchedKeeps(l, max, run[..|run| - 1]);
      TouchKeeps(Touched(l, max, run[..|run| - 1]), max, run[|run| - 1]);
    }
  }

  lemma TouchedSnoc(l: seq<Node>, max: nat, run: seq<Name>, name: Name)
    requires max > 0
    ensures Touched(l, max, run + [name]) == Touch(Touched(l, max, run), max, name)
  {
    assert (run + [name])[..|run|] == run;
  }

  ghost function Others(run: seq<Name>, name: Name): set<Name> {
    set i | 0 <= i < |run| && run[i] != name :: run[i]
  }

  /** The node sits at position k and everything more recent was touched since. */
  ghost predicate Since(l: seq<Node>, n: Node, k: nat, s: set<Name>) {
    && k < |l| && l[k] == n
    && forall j :: k < j < |l| ==> l[j].name in s
  }

  lemma SinceStep(l: seq<Node>, max: nat, n: Node, k: nat, s: set<Name>, s': set<Name>, name: Name) returns (k': nat)
    requires Good(l, max) && max > 0 && Since(l, n, k, s)
    requires s' == (if name == n.name then s else s + {name}) && |s'| < max
    ensures Since(Touch(l, max, name), n, k', s')
  {
    var w := Where(l, name);
    var r := Touch(l, max, name);
    if name == n.name {
      assert w <= k && l[w].name == l[k].name;
      k' := |l| - 1;
      assert r[k'] == n;
    } else if w < |l| {
      k' := if w < k then k - 1 else k;
      forall j | k' < j < |r| ensures r[j].name in s' { }
    } else if |l| < max {
      k' := k;
      forall j | k' < j < |r| ensures r[j].name in s' { }
    } else {
      if k == 0 {
        NamesAfter(l, s, name);
      }
      k' := k - 1;
      forall j | k' < j < |r| ensures r[j].name in s' {
        if j < |r| - 1 { assert r[j] == l[j + 1]; }
      }
    }
  }

  /** If all but the least recent of a full list are in s, so that name is none of them, s + {name} is too large. */
  lemma NamesAfter(l: seq<Node>, s: set<Name>, name: Name)
    requires |l| > 0
    requires forall i, j :: 0 <= i < j < |l| ==> l[i].name != l[j].name
    requires forall j :: 0 < j < |l| ==> l[j].name in s && l[j].name != name
    ensures |s + {name}| >= |l|
  {
    var ns := set j | 0 < j < |l| :: l[j].name;
    NamesCount(l, |l|, ns);
    assert ns + {name} <= s + {name};
    assert name !in ns;
    SubsetSize(ns + {name}, s + {name});
  }

  lemma {:induction false} NamesCount(l: seq<Node>, m: nat, ns: set<Name>)
    requires 0 < m <= |l| && ns == set j | 0 < j < m :: l[j].name
    requires forall i, j :: 0 <= i < j < |l| ==> l[i].name != l[j].name
    ensures |ns| == m - 1
    decreases m
  {
    if m == 1 {
      assert ns == {};
    } else {
      var fewer := set j | 0 < j < m - 1 :: l[j].name;
      NamesCount(l, m - 1, fewer);
      assert ns == fewer + {l[m - 1].name};
    }
  }

  lemma {:induction false} SubsetSize(a: set<Name>, b: set<Name>)
    requires a <= b
    ensures |a| <= |b|
    decreases a
  {
    if a != {} {
      var x :| x in a;
      SubsetSize(a - {x}, b - {x});
    }
  }

  /** A name just touched keeps its index while fewer than max distinct other names are touched. */
  lemma Retained(l: seq<Node>, max: nat, run: seq<Name>)
    requires Good(l, max) && max > 0 && |l| > 0
    requires |Others(run, l[|l| - 1].name)| < max
    ensures l[|l| - 1] in Touched(l, max, run)
  {
    var k := RetainedAt(l, max, run);
  }

  lemma {:induction false} RetainedAt(l: seq<Node>, max: nat, run: seq<Name>) returns (k: nat)
    requires Good(l, max) && max > 0 && |l| > 0
    requires |Others(run, l[|l| - 1].name)| < max
    ensures Since(Touched(l, max, run), l[|l| - 1], k, Others(run, l[|l| - 1].name))
    decreases |run|
  {
    var n := l[|l| - 1];
    if run == [] {
      k := |l| - 1;
    } else {
      var front, last := run[..|run| - 1], run[|run| - 1];
      var s, s' := Others(front, n.name), Others(run, n.name);
      assert s' == if last == n.name then s else s + {last} by {
        OthersSnoc(front, n.name, last);
        assert run == front + [last];
      }
      SubsetSize(s, s');
      k := RetainedAt(l, max, front);
      TouchedKeeps(l, max, front);
      k := SinceStep(Touched(l, max, front), max, n, k, s, s', last);
    }
  }

  lemma OthersSnoc(run: seq<Name>, name: Name, last: Name)
    ensures Others(run + [last], name) == if last == name then Others(run, name) else Others(run, name) + {last}
  {
    var r := run + [last];
    assert r[|run|] == last;
    forall x | x in Others(run, name) ensures x in Others(r, name) {
      var i :| 0 <= i < |run| && run[i] != name && run[i] == x;
      assert r[i] == x;
    }
  }

  /** The names of run in place of those of l, with their indices. */
  function Renamed(l: seq<Node>, run: seq<Name>): (r: seq<Node>)
    requires |run| <= |l|
    ensures |r| == |run|
  {
    seq(|run|, i requires 0 <= i < |run| => Node(run[i], l[i].idx))
  }

  lemma RenamedSnoc(l: seq<Node>, front: seq<Name>, last: Name)
    requires |front| < |l|
    ensures Renamed(l, front + [last]) == Renamed(l, front) + [Node(last, l[|front|].idx)]
  {
  }

  lemma NewcomerTouches(l: seq<Node>, max: nat, front: seq<Name>, last: Name)
    requires |l| == max > |front|
    requires last !in front && forall j :: 0 <= j < |l| ==> l[j].name != last
    ensures Touch(l[|front|..] + Renamed(l, front), max, last) == l[|front| + 1..] + Renamed(l, front + [last])
  {
    var t := l[|front|..] + Renamed(l, front);
    forall i | 0 <= i < |t| ensures t[i].name != last { }
    assert Where(t, last) == |t|;
    RenamedSnoc(l, front, last);
    assert t[0] == l[|front|] && t[1..] == l[|front| + 1..] + Renamed(l, front);
  }

  /** The bound is exact: after max distinct new names every index has been given away. */
  lemma {:induction false} EvictedByMax(l: seq<Node>, max: nat, run: seq<Name>)
    requires |l| == max > 0 && |run| <= max
    requires forall i, j :: 0 <= i < j < |run| ==> run[i] != run[j]
    requires forall i, j :: 0 <= i < |run| && 0 <= j < |l| ==> run[i] != l[j].name
    ensures Touched(l, max, run) == l[|run|..] + Renamed(l, run)
    decreases |run|
  {
    if run == [] {
      assert l[0..] + Renamed(l, run) == l;
    } else {
      var front, last := run[..|run| - 1], run[|run| - 1];
      EvictedByMax(l, max, front);
      NewcomerTouches(l, max, front, last);
      assert run == front + [last];
    }
  }
}
