/** Header ranges, paddings and the header key, as set operations change them. */
module HeaderConfig {
  import opened Bytes
  import opened Options
  import opened UintRanges

  const HeaderCipherNonceSize := 12

  datatype Kind = Initiation | Response | Cookie | Transport

  /** The staged or stored settings, one range and one padding for each kind of message. */
  datatype Settings = Settings(headers: map<Kind, UintRange>, paddings: map<Kind, nat>, key: seq<byte>)

  ghost predicate Complete(c: Settings) {
    && (forall k: Kind :: k in c.headers && k in c.paddings)
    && (forall k: Kind :: Proper(c.headers[k]) && c.paddings[k] < 0x1_0000)
  }

  ghost predicate Disjoint(headers: map<Kind, UintRange>)
    requires forall k: Kind :: k in headers
  {
    forall j: Kind, k: Kind, n: u32 :: j != k ==> !(Contains(headers[j], n) && Contains(headers[k], n))
  }

  ghost predicate Padded(c: Settings)
    requires forall k: Kind :: k in c.paddings
  {
    !IsZero(c.key) ==> forall k: Kind :: c.paddings[k] >= HeaderCipherNonceSize
  }

  ghost predicate Sound(c: Settings) {
    Complete(c) && Disjoint(c.headers) && Padded(c)
  }

  /** One line of a set operation; a value that does not parse is None. */
  datatype Line =
    | Blank
    | PaddingLine(kind: Kind, padding: Option<u16>)
    | HeaderLine(kind: Kind, text: string)
    | KeyLine(key: Option<seq<byte>>)
    | OtherLine(ok: bool)

  datatype Status = Ok | Invalid | Overlapping | PaddingTooShort

  const Kinds: seq<Kind> := [Initiation, Response, Cookie, Transport]

  lemma KindsAreAll(k: Kind)
    ensures exists i :: 0 <= i < |Kinds| && Kinds[i] == k
  {
    match k
    case Initiation => assert Kinds[0] == k;
    case Response => assert Kinds[1] == k;
    case Cookie => assert Kinds[2] == k;
    case Transport => assert Kinds[3] == k;
  }

  /** The message's own number on the wire. */
  function TypeOf(k: Kind): u32 {
    match k
    case Initiation => 1
    case Response => 2
    case Cookie => 3
    case Transport => 4
  }

  function Single(k: Kind): UintRange { FromUint32(TypeOf(k), TypeOf(k)) }

  function Defaults(): Settings {
    Settings(
      map[Initiation := Single(Initiation), Response := Single(Response), Cookie := Single(Cookie),
          Transport := Single(Transport)],
      map[Initiation := 0, Response := 0, Cookie := 0, Transport := 0],
      seq(32, _ => 0))
  }

  lemma SingleContains(k: Kind)
    ensures Proper(Single(k)) && forall n: u32 :: Contains(Single(k), n) <==> n == TypeOf(k)
  {
    hide FromUint32, Lo, Hi;
    Bounds(TypeOf(k), TypeOf(k));
  }

  lemma DefaultsAt(k: Kind)
    ensures var d := Defaults(); k in d.headers && k in d.paddings && d.headers[k] == Single(k) && d.paddings[k] == 0
  {
    hide Single;
    match k
    case Initiation =>
    case Response =>
    case Cookie =>
    case Transport =>
  }

  lemma DefaultsSound()
    ensures Sound(Defaults())
  {
    hide Single, Proper, Contains, TypeOf;
    var d := Defaults();
    forall k: Kind ensures k in d.headers && k in d.paddings && d.headers[k] == Single(k) && d.paddings[k] == 0 {
      DefaultsAt(k);
    }
    forall k: Kind ensures Proper(d.headers[k]) { SingleContains(k); }
    forall j: Kind, k: Kind, n: u32 | j != k ensures !(Contains(d.headers[j], n) && Contains(d.headers[k], n)) {
      SingleContains(j);
      SingleContains(k);
      TypesDiffer(j, k);
    }
  }

  lemma TypesDiffer(j: Kind, k: Kind)
    requires j != k
    ensures TypeOf(j) != TypeOf(k)
  {
  }

  /** The settings with one line applied, if its value parses. */
  function Stage(d: Settings, line: Line): Option<Settings> {
    match line
    case Blank => Some(d)
    case PaddingLine(kind, padding) => if padding.None? then None
      else Some(d.(paddings := d.paddings[kind := padding.value]))
    case HeaderLine(kind, text) =>
      var r := FromString(text);
      if r.None? then None else Some(d.(headers := d.headers[kind := r.value]))
    case KeyLine(key) => if key.None? then None else Some(d.(key := key.value))
    case OtherLine(ok) => if ok then Some(d) else None
  }

  /** What is merged: every line up to a blank one, in order, unless one does not parse. */
  function Staged(d: Settings, lines: seq<Line>): Option<Settings>
    decreases |lines|
  {
    if lines == [] || lines[0].Blank? then Some(d)
    else
      var d' := Stage(d, lines[0]);
      if d'.None? then None else Staged(d'.value, lines[1..])
  }

  lemma StageKeeps(d: Settings, line: Line)
    requires Complete(d)
    ensures Stage(d, line).Some? ==> Complete(Stage(d, line).value)
  {
  }

  lemma StoredComplete(c: Settings)
    requires Sound(c)
    ensures Complete(c)
  {
  }

  /** How a merge may end, and what is then stored. */
  ghost predicate Merged(before: Settings, d: Settings, status: Status, now: Settings)
    requires Complete(d)
  {
    if !Disjoint(d.headers) then status == Overlapping && now == before
    else if !Padded(d) then status == PaddingTooShort && now == before.(headers := d.headers)
    else status == Ok && now == d
  }

  class ConfigStore {
    var stored: Settings

    /** NewDevice: each header range is the message's own number; no padding, no key. */
    constructor ()
      ensures Sound(stored) && stored == Defaults()
    {
      DefaultsSound();
      stored := Defaults();
    }

    /** The pairwise test over the four ranges. */
    method AnyOverlap(headers: map<Kind, UintRange>) returns (r: bool)
      requires forall k: Kind :: k in headers && Proper(headers[k])
      ensures r <==> !Disjoint(headers)
    {
      var i := 0;
      while i < |Kinds|
        invariant 0 <= i <= |Kinds|
        invariant forall a, b :: 0 <= a < i && a < b < |Kinds| ==> !Overlap(headers[Kinds[a]], headers[Kinds[b]])
      {
        var j := i + 1;
        while j < |Kinds|
          invariant i < j <= |Kinds|
          invariant forall b :: i < b < j ==> !Overlap(headers[Kinds[i]], headers[Kinds[b]])
        {
          if Overlap(headers[Kinds[i]], headers[Kinds[j]]) {
            OverlapMeans(headers[Kinds[i]], headers[Kinds[j]]);
            return true;
          }
          j := j + 1;
        }
        i := i + 1;
      }
      NoOverlap(headers);
      return false;
    }

    /** mergeWithDevice: the headers are stored before the paddings are looked at. */
    method Merge(d: Settings) returns (status: Status)
      requires Sound(stored) && Complete(d)
      modifies this
      ensures Sound(stored)
      ensures status != Invalid && Merged(old(stored), d, status, stored)
    {
      var overlap := AnyOverlap(d.headers);
      if overlap { return Overlapping; }
      stored := stored.(headers := d.headers);
      if !IsZero(d.key) {
        var i := 0;
        while i < |Kinds|
          invariant 0 <= i <= |Kinds| && stored == old(stored).(headers := d.headers)
          invariant forall a :: 0 <= a < i ==> d.paddings[Kinds[a]] >= HeaderCipherNonceSize
        {
          if d.paddings[Kinds[i]] < HeaderCipherNonceSize { return PaddingTooShort; }
          i := i + 1;
        }
        forall k: Kind ensures d.paddings[k] >= HeaderCipherNonceSize { KindsAreAll(k); }
      }
      stored := stored.(paddings := d.paddings, key := d.key);
      return Ok;
    }

    /**
     * A whole set operation: lines are staged, and merged at a blank line or the end. A line that
     * does not parse ends it with nothing stored; short paddings end it with the headers stored.
     */
    method Set(lines: seq<Line>) returns (status: Status)
      requires Sound(stored)
      modifies this
      ensures Sound(stored)
      ensures status == Invalid <==> Staged(old(stored), lines).None?
      ensures status == Invalid ==> stored == old(stored)
      ensures status != Invalid ==>
        && Complete(Staged(old(stored), lines).value)
        && Merged(old(stored), Staged(old(stored), lines).value, status, stored)
    {
      hide Complete, Disjoint, Padded;
      StoredComplete(stored);
      var d := stored;
      var i := 0;
      while i < |lines|
        invariant 0 <= i <= |lines| && Complete(d) && stored == old(stored)
        invariant Staged(old(stored), lines) == Staged(d, lines[i..])
      {
        StageKeeps(d, lines[i]);
        match lines[i] {
          case Blank =>
            status := Merge(d);
            return;
          case PaddingLine(kind, padding) =>
            if padding.None? { return Invalid; }
            d := d.(paddings := d.paddings[kind := padding.value]);
          case HeaderLine(kind, text) =>
            var r := FromString(text);
            if r.None? { return Invalid; }
            d := d.(headers := d.headers[kind := r.value]);
          case KeyLine(key) =>
            if key.None? { return Invalid; }
            d := d.(key := key.value);
          case OtherLine(ok) =>
            if !ok { return Invalid; }
        }
        i := i + 1;
      }
      status := Merge(d);
    }
  }

  lemma NoOverlap(headers: map<Kind, UintRange>)
    requires forall k: Kind :: k in headers && Proper(headers[k])
    requires forall a, b :: 0 <= a < b < |Kinds| ==> !Overlap(headers[Kinds[a]], headers[Kinds[b]])
    ensures Disjoint(headers)
  {
    forall j: Kind, k: Kind, n: u32 | j != k ensures !(Contains(headers[j], n) && Contains(headers[k], n)) {
      KindsAreAll(j);
      KindsAreAll(k);
      var a :| 0 <= a < |Kinds| && Kinds[a] == j;
      var b :| 0 <= b < |Kinds| && Kinds[b] == k;
      OverlapMeans(headers[j], headers[k]);
      if a < b {
        assert !Overlap(headers[Kinds[a]], headers[Kinds[b]]);
      } else {
        assert !Overlap(headers[Kinds[b]], headers[Kinds[a]]);
      }
    }
  }
}
