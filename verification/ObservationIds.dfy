/** The knowledge repository's file names, and the identifiers read back from them. */
module ObservationIds {
  import opened Wrappers
  import opened Decimal

  const PREFIX := "observation-"
  const SUFFIX := ".json"
  const WIDTH := 6
  const MAX_ID := 999_999

  /** `path_for`, inside the repository's directory. */
  function PathFor(id: nat): string {
    PREFIX + ZeroFilled(id, WIDTH) + SUFFIX
  }

  /** `^observation-(\d{6})\.json$`; the final `$` also matches before one closing line feed. */
  function ReadName(name: string): Option<nat> {
    if |name| < 23 || name[..12] != PREFIX || !AllDigits(name[12..18]) || name[18..23] != SUFFIX then None
    else if name[23..] == "" || name[23..] == "\n" then Some(ValueOf(name[12..18]))
    else None
  }

  lemma MillionIsPower()
    ensures Pow10(6) == 1_000_000
  {
    assert Pow10(3) == 1000;
  }

  lemma PathParts(id: nat)
    ensures var d := ZeroFilled(id, WIDTH);
      |PathFor(id)| == 17 + |d| && PathFor(id)[..12] == PREFIX && PathFor(id)[12..12 + |d|] == d
      && PathFor(id)[12 + |d|..] == SUFFIX
  {
  }

  lemma FilledLength(id: nat)
    ensures id <= MAX_ID ==> |ZeroFilled(id, WIDTH)| == 6
    ensures id > MAX_ID ==> |ZeroFilled(id, WIDTH)| > 6
  {
    MillionIsPower();
    PaddedShape(id, WIDTH);
    PlainLength(id, WIDTH);
  }

  lemma ReadBack(id: nat)
    requires id <= MAX_ID
    ensures ReadName(PathFor(id)) == Some(id)
  {
    MillionIsPower();
    PaddedShape(id, WIDTH);
    PaddedValue(id, WIDTH);
    PathParts(id);
  }

  lemma TooLongToRead(id: nat)
    requires id > MAX_ID
    ensures ReadName(PathFor(id)) == None
  {
    FilledLength(id);
    PathParts(id);
    var name := PathFor(id);
    assert name[|name| - 1] == SUFFIX[4];
    if |name| == 24 { assert name[23..] == [name[23]]; }
  }

  /** The name of an identifier's file: six digits with leading zeros up to 999,999, and all its digits above. */
  lemma PathForExact(id: nat)
    ensures id <= 999_999 ==> PathFor(id) == "observation-" + Padded(id, 6) + ".json"
    ensures id > 999_999 ==> PathFor(id) == "observation-" + Plain(id) + ".json"
    ensures id <= 999_999 ==> |Padded(id, 6)| == 6 && AllDigits(Padded(id, 6)) && ValueOf(Padded(id, 6)) == id
    ensures AllDigits(Plain(id)) && ValueOf(Plain(id)) == id
  {
    MillionIsPower();
    PaddedShape(id, 6);
    if id <= 999_999 { PaddedValue(id, 6); }
    PlainValue(id);
  }

  /** A file name gives back its identifier exactly while six digits hold it. */
  lemma FilenameRoundTrip(id: nat)
    ensures ReadName(PathFor(id)) == Some(id) <==> id <= MAX_ID
    ensures id > MAX_ID ==> ReadName(PathFor(id)) == None
  {
    if id <= MAX_ID { ReadBack(id); } else { TooLongToRead(id); }
  }

  /** A name is read as an identifier exactly when it is that identifier's file name, which one line feed may follow. */
  lemma ReadNameExact(name: string, id: nat)
    ensures ReadName(name) == Some(id) <==> id <= 999_999 && (name == PathFor(id) || name == PathFor(id) + "\n")
  {
    MillionIsPower();
    PathParts(id);
    FilledLength(id);
    if ReadName(name) == Some(id) {
      ValuePadded(name[12..18]);
      assert name == name[..12] + name[12..18] + name[18..23] + name[23..];
    }
    if id <= 999_999 {
      ReadBack(id);
      var longer := PathFor(id) + "\n";
      assert longer[..12] == PathFor(id)[..12] && longer[12..18] == PathFor(id)[12..18];
      assert longer[18..23] == PathFor(id)[18..23] && longer[23..] == "\n";
    }
  }

  lemma ReadBound(name: string)
    requires ReadName(name).Some?
    ensures ReadName(name).value <= MAX_ID
  {
    ValuePadded(name[12..18]);
    MillionIsPower();
  }

  ghost predicate HasId(names: set<string>, id: nat) {
    exists name :: name in names && ReadName(name) == Some(id)
  }

  /** One more than the highest identifier present, and 1 when there is none. */
  ghost predicate IsNext(names: set<string>, next: nat) {
    && next >= 1
    && (forall name :: name in names && ReadName(name).Some? ==> ReadName(name).value < next)
    && (next > 1 ==> HasId(names, next - 1))
  }

  lemma NextAtLeast(names: set<string>, a: nat, b: nat)
    requires IsNext(names, a) && IsNext(names, b)
    ensures a >= b
  {
    if b > 1 {
      var name :| name in names && ReadName(name) == Some(b - 1);
      assert ReadName(name).value < a;
    }
  }

  lemma NextUnique(names: set<string>, a: nat, b: nat)
    requires IsNext(names, a) && IsNext(names, b)
    ensures a == b
  {
    NextAtLeast(names, a, b);
    NextAtLeast(names, b, a);
  }

  /** The next identifier names no existing file while it fits six digits. */
  lemma NextIsFresh(names: set<string>, next: nat)
    requires IsNext(names, next) && next <= MAX_ID
    ensures PathFor(next) !in names
  {
    FilenameRoundTrip(next);
  }

  lemma NextAfterSave(names: set<string>, next: nat)
    requires IsNext(names, next)
    ensures IsNext(names + {PathFor(next)}, if next <= MAX_ID then next + 1 else next)
  {
    var after := names + {PathFor(next)};
    FilenameRoundTrip(next);
    if next <= MAX_ID {
      assert PathFor(next) in after;
    } else {
      var name :| name in names && ReadName(name) == Some(next - 1);
      assert name in after;
    }
  }

  lemma NextBound(names: set<string>, next: nat)
    requires IsNext(names, next)
    ensures next <= MAX_ID + 1
  {
    if next > 1 {
      var name :| name in names && ReadName(name) == Some(next - 1);
      ReadBound(name);
    }
  }

  /** The next identifier fits six digits exactly while no file is numbered 999,999. */
  lemma RoomLeftExactly(names: set<string>, next: nat)
    requires IsNext(names, next)
    ensures next <= MAX_ID <==> !HasId(names, MAX_ID)
  {
    NextBound(names, next);
    if HasId(names, MAX_ID) {
      var name :| name in names && ReadName(name) == Some(MAX_ID);
      assert MAX_ID < next;
    }
  }

  /** Saving under the next identifier moves on to a new one exactly while no file is numbered 999,999; after
      that the same identifier is handed out again, and the next save overwrites the file. */
  lemma NeverReusedExactly(names: set<string>, next: nat, after: nat)
    requires IsNext(names, next) && IsNext(names + {PathFor(next)}, after)
    ensures after != next <==> !HasId(names, MAX_ID)
    ensures HasId(names, MAX_ID) ==> next == MAX_ID + 1 && PathFor(after) in names + {PathFor(next)}
  {
    RoomLeftExactly(names, next);
    NextBound(names, next);
    NextAfterSave(names, next);
    NextUnique(names + {PathFor(next)}, after, if next <= MAX_ID then next + 1 else next);
  }

  /** A directory in which the promise fails: with file 999,999 present, two captures in a row are both given
      1,000,000, and the second overwrites what the first saved. */
  lemma ReuseHappens()
    ensures var full := {PathFor(MAX_ID)};
      && IsNext(full, 1_000_000)
      && IsNext(full + {PathFor(1_000_000)}, 1_000_000)
      && CaptureRun([full, full + {PathFor(1_000_000)}, full + {PathFor(1_000_000)}], [1_000_000, 1_000_000])
  {
    var full := {PathFor(MAX_ID)};
    ReadBack(MAX_ID);
    assert PathFor(MAX_ID) in full;
    NextAfterSave(full, 1_000_000);
    var saved := full + {PathFor(1_000_000)};
    assert saved + {PathFor(1_000_000)} == saved;
  }

  /** A run of captures: each takes the next identifier and saves under it. */
  ghost predicate CaptureRun(states: seq<set<string>>, ids: seq<nat>) {
    && |states| == |ids| + 1
    && (forall i :: 0 <= i < |ids| ==> IsNext(states[i], ids[i]))
    && (forall i :: 0 <= i < |ids| ==> states[i + 1] == states[i] + {PathFor(ids[i])})
  }

  /** Identifiers run consecutively up to 1,000,000 and then stay there. */
  lemma {:induction false} CaptureRunIds(states: seq<set<string>>, ids: seq<nat>, i: nat)
    requires CaptureRun(states, ids) && i < |ids|
    ensures ids[i] == if ids[0] + i <= MAX_ID + 1 then ids[0] + i else MAX_ID + 1
  {
    if i == 0 {
      NextBound(states[0], ids[0]);
    } else {
      CaptureRunIds(states, ids, i - 1);
      NextAfterSave(states[i - 1], ids[i - 1]);
      assert states[i - 1 + 1] == states[i - 1] + {PathFor(ids[i - 1])};
      NextUnique(states[i], ids[i], if ids[i - 1] <= MAX_ID then ids[i - 1] + 1 else ids[i - 1]);
    }
  }

  /** `count` captures starting from this directory stay within 1,000,000. */
  ghost predicate HasRoomFor(names: set<string>, count: nat) {
    count <= MAX_ID + 1 && forall id: nat :: HasId(names, id) ==> id + count <= MAX_ID + 1
  }

  lemma RoomFromNext(names: set<string>, next: nat, count: nat)
    requires IsNext(names, next)
    ensures HasRoomFor(names, count) <==> next + count <= MAX_ID + 2
  {
    if next + count <= MAX_ID + 2 {
      forall id: nat | HasId(names, id) ensures id + count <= MAX_ID + 1 {
        var name :| name in names && ReadName(name) == Some(id);
        assert id < next;
      }
    }
  }

  /** A whole run hands out no identifier twice exactly when the directory it starts from has room for it. */
  lemma CaptureRunDistinct(states: seq<set<string>>, ids: seq<nat>)
    requires CaptureRun(states, ids) && ids != []
    ensures (forall i, j :: 0 <= i < j < |ids| ==> ids[i] != ids[j]) <==> HasRoomFor(states[0], |ids|)
  {
    var n := |ids|;
    RoomFromNext(states[0], ids[0], n);
    if ids[0] + n <= MAX_ID + 2 {
      forall i, j | 0 <= i < j < n ensures ids[i] != ids[j] {
        CaptureRunIds(states, ids, i);
        CaptureRunIds(states, ids, j);
      }
    } else {
      NextBound(states[0], ids[0]);
      CaptureRunIds(states, ids, n - 1);
      CaptureRunIds(states, ids, n - 2);
      assert ids[n - 2] == ids[n - 1];
    }
  }

  /** Different identifiers have different file names, also past six digits. */
  lemma PathForInjective(a: nat, b: nat)
    requires PathFor(a) == PathFor(b)
    ensures a == b
  {
    FilenameRoundTrip(a);
    FilenameRoundTrip(b);
    if a > MAX_ID && b > MAX_ID {
      PathParts(a);
      PathParts(b);
      MillionIsPower();
      PlainValue(a);
      PlainValue(b);
    }
  }

  /** A directory of named files. */
  class ObservationRepository {
    var files: map<string, string>

    constructor ()
      ensures files == map[]
    {
      files := map[];
    }

    method ExistingIds() returns (ids: seq<nat>)
      ensures forall id: nat :: id in ids <==> HasId(files.Keys, id)
    {
      ids := [];
      var left := files.Keys;
      ghost var done: set<string> := {};
      while left != {}
        invariant done + left == files.Keys
        invariant forall id: nat :: id in ids <==> HasId(done, id)
        decreases left
      {
        var name :| name in left;
        left := left - {name};
        HasIdStep(done, name);
        done := done + {name};
        var id := ReadName(name);
        if id.Some? { ids := ids + [id.value]; }
      }
      assert done == files.Keys;
    }

    method NextObservationId() returns (next: nat)
      ensures IsNext(files.Keys, next)
    {
      var ids := ExistingIds();
      var highest := 0;
      for i := 0 to |ids|
        invariant forall k :: 0 <= k < i ==> ids[k] <= highest
        invariant highest > 0 ==> highest in ids
      {
        if ids[i] > highest { highest := ids[i]; }
      }
      next := highest + 1;
      forall name | name in files.Keys && ReadName(name).Some? ensures ReadName(name).value < next {
        assert HasId(files.Keys, ReadName(name).value);
      }
    }

    /** The text saved under an identifier. */
    function Stored(id: nat): Option<string>
      reads this
    {
      if PathFor(id) in files then Some(files[PathFor(id)]) else None
    }

    method Save(id: nat, text: string)
      modifies this
      ensures files == old(files)[PathFor(id) := text]
      ensures Stored(id) == Some(text)
      ensures forall other: nat :: other != id ==> Stored(other) == old(Stored(other))
    {
      forall other: nat | PathFor(other) == PathFor(id) ensures other == id { PathForInjective(other, id); }
      files := files[PathFor(id) := text];
    }

    /** Nothing when no file has the identifier's name, which the program raises. */
    method Load(id: nat) returns (text: Option<string>)
      ensures text == Stored(id)
    {
      var path := PathFor(id);
      if path !in files { return None; }
      return Some(files[path]);
    }
  }

  lemma HasIdStep(done: set<string>, name: string)
    ensures forall id: nat :: HasId(done + {name}, id) <==> HasId(done, id) || ReadName(name) == Some(id)
  {
    forall id: nat ensures HasId(done + {name}, id) <==> HasId(done, id) || ReadName(name) == Some(id) {
      assert name in done + {name};
      if HasId(done, id) {
        var n :| n in done && ReadName(n) == Some(id);
        assert n in done + {name};
      }
    }
  }
}
