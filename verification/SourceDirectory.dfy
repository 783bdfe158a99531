/** The build cache's source directory: one record for each source, in source order, whose ranges
    are laid out one after another. Built with running cursors from the sources' physical state
    and the frontend blocks found for them. */
module SourceDirectory {
  import opened Wrappers

  /** Positions from `begin`, `count` of them. */
  datatype Range = Range(begin: nat, count: nat)

  datatype Section = LocalTypes | TypeSlots | ObjectSlots | MemberSlots

  datatype Layout = Layout(source: nat, localTypes: Range, typeSlots: Range, objectSlots: Range, memberSlots: Range) {
    function At(s: Section): Range {
      match s
      case LocalTypes => localTypes
      case TypeSlots => typeSlots
      case ObjectSlots => objectSlots
      case MemberSlots => memberSlots
    }
  }

  /** `flags` has one defined bit, presence. */
  datatype Physical = Physical(flags: nat, reserved: nat, size: nat) {
    predicate Present() { flags % 2 == 1 }
  }

  /** What the frontend cache knows of a source: its block's layout, none, or an error. */
  datatype Block = Found(layout: Layout) | Missing | Unreadable(status: Status) | NoLayout

  datatype Record = Record(source: nat, text: Option<Range>, frontend: Option<Layout>)

  datatype Summary = Summary(frontends: nat, localTypes: nat, typeSlots: nat, objectSlots: nat, memberSlots: nat) {
    function At(s: Section): nat {
      match s
      case LocalTypes => localTypes
      case TypeSlots => typeSlots
      case ObjectSlots => objectSlots
      case MemberSlots => memberSlots
    }
  }

  /** `compiled` tells whether the project has a construction state at all; `ready` stands for the
      other checks made before the sources are walked. */
  datatype Inputs = Inputs(
    compiled: bool, ready: bool, physical: seq<Physical>, blocks: seq<Block>, summary: Summary, textBytes: nat)

  // ---------- Ranges laid end to end ----------

  /** The ranges present follow one another from `first` up to `end`. */
  predicate Tiles(s: seq<Option<Range>>, first: nat, end: nat)
    decreases |s|
  {
    if s == [] then first == end
    else
      var last := s[|s| - 1];
      if last.None? then Tiles(s[..|s| - 1], first, end)
      else last.value.begin + last.value.count == end && Tiles(s[..|s| - 1], first, last.value.begin)
  }

  predicate Covers(s: seq<Option<Range>>, i: nat, p: nat)
    requires i < |s|
  {
    s[i].Some? && s[i].value.begin <= p < s[i].value.begin + s[i].value.count
  }

  /** Position `p` belongs to exactly one range if it lies below `total`, and else to none. */
  ghost predicate OwnedOnce(s: seq<Option<Range>>, total: nat, p: nat) {
    && (p < total <==> exists i :: 0 <= i < |s| && Covers(s, i, p))
    && forall i, j | 0 <= i < |s| && 0 <= j < |s| && Covers(s, i, p) && Covers(s, j, p) :: i == j
  }

  lemma {:induction false} TilesAreInside(s: seq<Option<Range>>, first: nat, end: nat)
    requires Tiles(s, first, end)
    ensures first <= end
    ensures
      forall i | 0 <= i < |s| && s[i].Some? :: first <= s[i].value.begin && s[i].value.begin + s[i].value.count <= end
    decreases |s|
  {
    if s != [] {
      var last, front := s[|s| - 1], s[..|s| - 1];
      TilesAreInside(front, first, if last.None? then end else last.value.begin);
      forall i | 0 <= i < |s| && s[i].Some?
        ensures first <= s[i].value.begin && s[i].value.begin + s[i].value.count <= end
      {
        if i < |s| - 1 { assert front[i] == s[i]; }
      }
    }
  }

  /** Ranges laid end to end cover every position between the ends exactly once. */
  lemma {:induction false} TilesPartition(s: seq<Option<Range>>, first: nat, end: nat, p: nat)
    requires Tiles(s, first, end)
    ensures first <= p < end <==> exists i :: 0 <= i < |s| && Covers(s, i, p)
    ensures forall i, j | 0 <= i < |s| && 0 <= j < |s| && Covers(s, i, p) && Covers(s, j, p) :: i == j
    decreases |s|
  {
    TilesAreInside(s, first, end);
    if s != [] {
      var last, front := s[|s| - 1], s[..|s| - 1];
      var stop := if last.None? then end else last.value.begin;
      TilesPartition(front, first, stop, p);
      TilesAreInside(front, first, stop);
      forall i | 0 <= i < |front| ensures Covers(s, i, p) == Covers(front, i, p) {
        assert front[i] == s[i];
      }
      if first <= p < end {
        if p < stop {
          var i :| 0 <= i < |front| && Covers(front, i, p);
          assert Covers(s, i, p);
        } else {
          assert Covers(s, |s| - 1, p);
        }
      }
    }
  }

  // ---------- What the sources add up to ----------

  function TextBefore(a: Inputs, n: nat): nat
    requires n <= |a.physical|
  {
    if n == 0 then 0 else TextBefore(a, n - 1) + if a.physical[n - 1].Present() then a.physical[n - 1].size else 0
  }

  function CountBefore(a: Inputs, s: Section, n: nat): nat
    requires n <= |a.blocks|
  {
    if n == 0 then 0
    else CountBefore(a, s, n - 1) + if a.blocks[n - 1].Found? then a.blocks[n - 1].layout.At(s).count else 0
  }

  function FrontendsBefore(a: Inputs, n: nat): nat
    requires n <= |a.blocks|
  {
    if n == 0 then 0 else FrontendsBefore(a, n - 1) + if a.blocks[n - 1].Found? then 1 else 0
  }

  predicate StartsReady(a: Inputs) { a.compiled && a.ready && |a.physical| == |a.blocks| && a.physical != [] }

  /** Source `i` has defined flags, a text that fits, and a block only where the earlier blocks
      end, without overflowing a 32-bit cursor. */
  predicate SourceFits(a: Inputs, i: nat)
    requires i < |a.physical| == |a.blocks|
  {
    && a.physical[i].reserved == 0 && a.physical[i].flags <= 1
    && (a.physical[i].Present() ==> a.physical[i].size <= MAX_U32 && TextBefore(a, i + 1) <= MAX_SIZE)
    && (a.blocks[i].Found? || a.blocks[i].Missing?)
    && (a.blocks[i].Found? ==> a.blocks[i].layout.source == i + 1)
    && (a.blocks[i].Found? ==> forall s: Section :: SectionFits(a, s, i))
  }

  /** What checking source `i` answers, once the sources before it have passed. */
  ghost function SourceStatus(a: Inputs, i: nat): Status
    requires i < |a.physical| == |a.blocks|
  {
    if a.physical[i].reserved != 0 || a.physical[i].flags > 1 then InitializationFailed
    else if a.physical[i].Present() && (a.physical[i].size > MAX_U32 || TextBefore(a, i + 1) > MAX_SIZE) then NotAvailable
    else
      match a.blocks[i]
      case Missing => Ok
      case Unreadable(failed) => failed
      case NoLayout => InitializationFailed
      case Found(layout) =>
        if layout.source != i + 1 || exists s: Section :: Misplaced(a, s, i) then InitializationFailed
        else if exists s: Section :: TooMany(a, s, i) then NotAvailable
        else Ok
  }

  /** The section of source `i` does not begin where those before it end. */
  predicate Misplaced(a: Inputs, s: Section, i: nat)
    requires i < |a.blocks| && a.blocks[i].Found?
  {
    a.blocks[i].layout.At(s).begin != CountBefore(a, s, i)
  }

  /** And its end overflows a 32-bit cursor. */
  predicate TooMany(a: Inputs, s: Section, i: nat)
    requires i < |a.blocks|
  {
    CountBefore(a, s, i + 1) > MAX_U32
  }

  /** The checks of all sources, one after another, and of the totals. */
  ghost function Statuses(a: Inputs): seq<Status>
    requires |a.physical| == |a.blocks|
  {
    seq(|a.physical|, i requires 0 <= i < |a.physical| => SourceStatus(a, i))
    + [if Totals(a) then Ok else InitializationFailed]
  }

  predicate SectionFits(a: Inputs, s: Section, i: nat)
    requires i < |a.blocks| && a.blocks[i].Found?
  {
    a.blocks[i].layout.At(s).begin == CountBefore(a, s, i) && CountBefore(a, s, i + 1) <= MAX_U32
  }

  predicate Totals(a: Inputs)
    requires |a.physical| == |a.blocks|
  {
    var n := |a.physical|;
    && TextBefore(a, n) == a.textBytes && FrontendsBefore(a, n) == a.summary.frontends
    && forall s: Section :: CountBefore(a, s, n) == a.summary.At(s)
  }

  /** Inputs for which a directory exists. */
  predicate Coherent(a: Inputs) {
    && StartsReady(a) && |a.physical| <= MAX_U32
    && (forall i :: 0 <= i < |a.physical| ==> SourceFits(a, i)) && Totals(a)
  }

  function RecordOf(a: Inputs, i: nat): Record
    requires i < |a.physical| == |a.blocks|
  {
    Record(
      i + 1,
      if a.physical[i].Present() then Some(Range(TextBefore(a, i), a.physical[i].size)) else None,
      if a.blocks[i].Found? then Some(a.blocks[i].layout) else None)
  }

  function DirectoryOf(a: Inputs, n: nat): (d: seq<Record>)
    requires n <= |a.physical| == |a.blocks|
    ensures |d| == n
  {
    if n == 0 then [] else DirectoryOf(a, n - 1) + [RecordOf(a, n - 1)]
  }

  function TextRanges(d: seq<Record>): (r: seq<Option<Range>>)
    ensures |r| == |d|
    ensures forall i :: 0 <= i < |d| ==> r[i] == d[i].text
  {
    if d == [] then [] else TextRanges(d[..|d| - 1]) + [d[|d| - 1].text]
  }

  function SectionRange(r: Record, s: Section): Option<Range> {
    if r.frontend.Some? then Some(r.frontend.value.At(s)) else None
  }

  function SectionRanges(d: seq<Record>, s: Section): (r: seq<Option<Range>>)
    ensures |r| == |d|
    ensures forall i :: 0 <= i < |d| ==> r[i] == SectionRange(d[i], s)
  {
    if d == [] then [] else SectionRanges(d[..|d| - 1], s) + [SectionRange(d[|d| - 1], s)]
  }

  lemma {:induction false} TextsTile(a: Inputs, n: nat)
    requires n <= |a.physical| == |a.blocks|
    ensures Tiles(TextRanges(DirectoryOf(a, n)), 0, TextBefore(a, n))
  {
    if n > 0 {
      TextsTile(a, n - 1);
      var d := DirectoryOf(a, n);
      assert d[..n - 1] == DirectoryOf(a, n - 1);
      assert TextRanges(d)[..n - 1] == TextRanges(d[..n - 1]);
    }
  }

  lemma {:induction false} SectionsTile(a: Inputs, s: Section, n: nat)
    requires n <= |a.physical| == |a.blocks| && forall i :: 0 <= i < n ==> SourceFits(a, i)
    ensures Tiles(SectionRanges(DirectoryOf(a, n), s), 0, CountBefore(a, s, n))
  {
    if n > 0 {
      SectionsTile(a, s, n - 1);
      var d := DirectoryOf(a, n);
      assert d[..n - 1] == DirectoryOf(a, n - 1);
      assert SectionRanges(d, s)[..n - 1] == SectionRanges(d[..n - 1], s);
      assert SourceFits(a, n - 1);
      if a.blocks[n - 1].Found? { assert SectionFits(a, s, n - 1); }
    }
  }

  lemma {:induction false} RecordsInOrder(a: Inputs, n: nat, i: nat)
    requires i < n <= |a.physical| == |a.blocks|
    ensures DirectoryOf(a, n)[i] == RecordOf(a, i)
  {
    if i < n - 1 { RecordsInOrder(a, n - 1, i); }
  }

  /** The directory of coherent inputs has one record for each source in source order; the texts
      cover the total text bytes exactly once, and so do the ranges of each section. */
  lemma {:induction false} DirectoryPartitions(a: Inputs, p: nat)
    requires Coherent(a)
    ensures
      var d := DirectoryOf(a, |a.physical|);
      && |d| == |a.physical| && (forall i :: 0 <= i < |d| ==> d[i].source == i + 1)
      && OwnedOnce(TextRanges(d), a.textBytes, p)
      && forall s: Section :: OwnedOnce(SectionRanges(d, s), a.summary.At(s), p)
  {
    hide SourceFits, OwnedOnce, Tiles;
    var n := |a.physical|;
    var d := DirectoryOf(a, n);
    forall i | 0 <= i < n ensures d[i].source == i + 1 { RecordsInOrder(a, n, i); }
    TextsTile(a, n);
    TilesOwnOnce(TextRanges(d), a.textBytes, p);
    forall s: Section ensures OwnedOnce(SectionRanges(d, s), a.summary.At(s), p) {
      SectionsTile(a, s, n);
      TilesOwnOnce(SectionRanges(d, s), a.summary.At(s), p);
    }
  }

  lemma {:induction false} TilesOwnOnce(s: seq<Option<Range>>, total: nat, p: nat)
    requires Tiles(s, 0, total)
    ensures OwnedOnce(s, total, p)
  {
    TilesPartition(s, 0, total, p);
  }

  // ---------- Building ----------

  class Segments {
    /** The published directory; empty when none is. */
    var directory: seq<Record>

    constructor ()
      ensures directory == []
    {
      directory := [];
    }

    /** Publishes the directory of coherent inputs and fails on all others. Of the failures only
        one clears what was published earlier: that a construction state exists but is not ready
        to be walked. Without a construction state, with too many sources, or after a failure
        during the walk, the earlier directory stays. */
    method Prepare(a: Inputs) returns (status: Status)
      requires |a.physical| == |a.blocks|
      requires forall i | 0 <= i < |a.blocks| && a.blocks[i].Unreadable? :: a.blocks[i].status !in {Ok, NotFound}
      modifies this
      ensures status == Ok <==> Coherent(a)
      ensures status == Ok ==> directory == DirectoryOf(a, |a.physical|)
      ensures !StartsReady(a) ==> status == InvalidState
      ensures StartsReady(a) && |a.physical| > MAX_U32 ==> status == NotAvailable
      ensures StartsReady(a) && |a.physical| <= MAX_U32 ==> status == First(Statuses(a))
      ensures a.compiled && !StartsReady(a) ==> directory == []
      ensures status != Ok && (!a.compiled || StartsReady(a)) ==> directory == old(directory)
    {
      hide Coherent, SourceFits, Totals, DirectoryOf, RecordOf, SectionFits, SourceStatus, First, Statuses;
      CoherentIsFirst(a);
      FirstOfStatuses(a);
      if !a.compiled { return InvalidState; }
      if !a.ready || a.physical == [] {
        directory := [];
        return InvalidState;
      }
      if |a.physical| > MAX_U32 { return NotAvailable; }
      var records: seq<Record> := [];
      var text, localTypes, typeSlots, objectSlots, memberSlots, frontends := 0, 0, 0, 0, 0, 0;
      var i := 0;
      NothingBefore(a);
      while i < |a.physical|
        invariant 0 <= i <= |a.physical| && records == DirectoryOf(a, i)
        invariant forall k :: 0 <= k < i ==> SourceStatus(a, k) == Ok
        invariant text == TextBefore(a, i) && frontends == FrontendsBefore(a, i)
        invariant localTypes == CountBefore(a, LocalTypes, i) <= MAX_U32
        invariant typeSlots == CountBefore(a, TypeSlots, i) <= MAX_U32
        invariant objectSlots == CountBefore(a, ObjectSlots, i) <= MAX_U32
        invariant memberSlots == CountBefore(a, MemberSlots, i) <= MAX_U32
        invariant text <= MAX_SIZE
        invariant directory == old(directory)
      {
        var physical := a.physical[i];
        SourceStep(a, i);
        StatusStep(a, i);
        if physical.reserved != 0 || physical.flags > 1 { return InitializationFailed; }
        var record := Record(i + 1, None, None);
        if physical.Present() {
          if physical.size > MAX_U32 || text > MAX_SIZE - physical.size { return NotAvailable; }
          record := record.(text := Some(Range(text, physical.size)));
          text := text + physical.size;
        }
        match a.blocks[i] {
          case Missing =>
          case Unreadable(failed) => return failed;
          case NoLayout => return InitializationFailed;
          case Found(layout) =>
            if layout.source != i + 1 || layout.localTypes.begin != localTypes || layout.typeSlots.begin != typeSlots ||
               layout.objectSlots.begin != objectSlots || layout.memberSlots.begin != memberSlots {
              return InitializationFailed;
            }
            record := record.(frontend := Some(layout));
            if layout.localTypes.count > MAX_U32 - localTypes || layout.typeSlots.count > MAX_U32 - typeSlots ||
               layout.objectSlots.count > MAX_U32 - objectSlots || layout.memberSlots.count > MAX_U32 - memberSlots {
              return NotAvailable;
            }
            localTypes := localTypes + layout.localTypes.count;
            typeSlots := typeSlots + layout.typeSlots.count;
            objectSlots := objectSlots + layout.objectSlots.count;
            memberSlots := memberSlots + layout.memberSlots.count;
            frontends := frontends + 1;
        }
        records := records + [record];
        i := i + 1;
      }
      TotalsAre(a);
      if text != a.textBytes || frontends != a.summary.frontends || localTypes != a.summary.localTypes ||
         typeSlots != a.summary.typeSlots || objectSlots != a.summary.objectSlots ||
         memberSlots != a.summary.memberSlots {
        return InitializationFailed;
      }
      directory := records;
      status := Ok;
    }
  }

  /** The first source that fails its checks decides, and if none does, the totals. */
  lemma {:induction false} FirstOfStatuses(a: Inputs)
    requires |a.physical| == |a.blocks|
    ensures
      forall i | 0 <= i < |a.physical| && SourceStatus(a, i) != Ok &&
        (forall k :: 0 <= k < i ==> SourceStatus(a, k) == Ok) ::
        First(Statuses(a)) == SourceStatus(a, i)
    ensures
      (forall i :: 0 <= i < |a.physical| ==> SourceStatus(a, i) == Ok) ==>
        First(Statuses(a)) == if Totals(a) then Ok else InitializationFailed
  {
    hide SourceStatus, Totals;
    var all, n := Statuses(a), |a.physical|;
    forall i | 0 <= i < n && SourceStatus(a, i) != Ok && (forall k :: 0 <= k < i ==> SourceStatus(a, k) == Ok)
      ensures First(all) == SourceStatus(a, i)
    {
      FirstAt(all, i);
    }
    if (forall i :: 0 <= i < n ==> SourceStatus(a, i) == Ok) && !Totals(a) { FirstAt(all, n); }
  }

  /** One source's checks, cursor by cursor, and what they answer. */
  lemma {:induction false} StatusStep(a: Inputs, i: nat)
    requires i < |a.physical| == |a.blocks|
    ensures
      SourceStatus(a, i)
      == if a.physical[i].reserved != 0 || a.physical[i].flags > 1 then InitializationFailed
         else if a.physical[i].Present()
                 && (a.physical[i].size > MAX_U32 || TextBefore(a, i) + a.physical[i].size > MAX_SIZE) then NotAvailable
         else
           match a.blocks[i]
           case Missing => Ok
           case Unreadable(failed) => failed
           case NoLayout => InitializationFailed
           case Found(l) =>
             if || l.source != i + 1
                || l.localTypes.begin != CountBefore(a, LocalTypes, i)
                || l.typeSlots.begin != CountBefore(a, TypeSlots, i)
                || l.objectSlots.begin != CountBefore(a, ObjectSlots, i)
                || l.memberSlots.begin != CountBefore(a, MemberSlots, i) then InitializationFailed
             else if || CountBefore(a, LocalTypes, i) + l.localTypes.count > MAX_U32
                     || CountBefore(a, TypeSlots, i) + l.typeSlots.count > MAX_U32
                     || CountBefore(a, ObjectSlots, i) + l.objectSlots.count > MAX_U32
                     || CountBefore(a, MemberSlots, i) + l.memberSlots.count > MAX_U32 then NotAvailable
             else Ok
  {
    hide TextBefore;
    if a.blocks[i].Found? {
      SectionsOf(a, i, LocalTypes);
      SectionsOf(a, i, TypeSlots);
      SectionsOf(a, i, ObjectSlots);
      SectionsOf(a, i, MemberSlots);
      hide Misplaced, TooMany, CountBefore;
      FourSections(a, i);
    }
    assert a.physical[i].Present() ==> TextBefore(a, i + 1) == TextBefore(a, i) + a.physical[i].size by { TextStep(a, i); }
  }

  lemma {:induction false} TextStep(a: Inputs, i: nat)
    requires i < |a.physical|
    ensures a.physical[i].Present() ==> TextBefore(a, i + 1) == TextBefore(a, i) + a.physical[i].size
  {}

  lemma {:induction false} FourSections(a: Inputs, i: nat)
    requires i < |a.blocks| && a.blocks[i].Found?
    ensures
      (exists s: Section :: Misplaced(a, s, i))
      <==> Misplaced(a, LocalTypes, i) || Misplaced(a, TypeSlots, i) || Misplaced(a, ObjectSlots, i)
           || Misplaced(a, MemberSlots, i)
    ensures
      (exists s: Section :: TooMany(a, s, i))
      <==> TooMany(a, LocalTypes, i) || TooMany(a, TypeSlots, i) || TooMany(a, ObjectSlots, i) || TooMany(a, MemberSlots, i)
  {
    hide Misplaced, TooMany;
    forall s: Section | Misplaced(a, s, i) || TooMany(a, s, i)
      ensures s == LocalTypes || s == TypeSlots || s == ObjectSlots || s == MemberSlots
    {
      match s {
        case LocalTypes =>
        case TypeSlots =>
        case ObjectSlots =>
        case MemberSlots =>
      }
    }
  }

  lemma {:induction false} SectionsOf(a: Inputs, i: nat, s: Section)
    requires i < |a.blocks| && a.blocks[i].Found?
    ensures Misplaced(a, s, i) <==> a.blocks[i].layout.At(s).begin != CountBefore(a, s, i)
    ensures TooMany(a, s, i) <==> CountBefore(a, s, i) + a.blocks[i].layout.At(s).count > MAX_U32
  {}

  lemma {:induction false} NothingBefore(a: Inputs)
    requires |a.physical| == |a.blocks|
    ensures DirectoryOf(a, 0) == []
  {}

  /** One source's checks, cursor by cursor. */
  lemma {:induction false} SourceStep(a: Inputs, i: nat)
    requires i < |a.physical| == |a.blocks|
    ensures DirectoryOf(a, i + 1) == DirectoryOf(a, i) + [RecordOf(a, i)]
    ensures
      RecordOf(a, i)
      == Record(i + 1, if a.physical[i].Present() then Some(Range(TextBefore(a, i), a.physical[i].size)) else None,
                if a.blocks[i].Found? then Some(a.blocks[i].layout) else None)
  {}

  lemma {:induction false} FitsIsOk(a: Inputs, i: nat)
    requires i < |a.physical| == |a.blocks|
    requires a.blocks[i].Unreadable? ==> a.blocks[i].status != Ok
    ensures SourceFits(a, i) <==> SourceStatus(a, i) == Ok
  {
    hide TextBefore, CountBefore;
    if a.blocks[i].Found? {
      forall s: Section ensures SectionFits(a, s, i) <==> !Misplaced(a, s, i) && !TooMany(a, s, i) {}
    }
  }

  /** The checks pass exactly for coherent inputs. */
  lemma {:induction false} CoherentIsFirst(a: Inputs)
    requires |a.physical| == |a.blocks|
    requires forall i | 0 <= i < |a.blocks| && a.blocks[i].Unreadable? :: a.blocks[i].status != Ok
    ensures Coherent(a) <==> StartsReady(a) && |a.physical| <= MAX_U32 && First(Statuses(a)) == Ok
  {
    hide SourceFits, SourceStatus, Totals, StartsReady;
    var all, n := Statuses(a), |a.physical|;
    forall i | 0 <= i < n ensures SourceFits(a, i) <==> all[i] == Ok { FitsIsOk(a, i); }
    assert all[n] == if Totals(a) then Ok else InitializationFailed;
  }

  lemma {:induction false} TotalsAre(a: Inputs)
    requires |a.physical| == |a.blocks|
    ensures
      var n := |a.physical|;
      Totals(a)
      <==>
      && TextBefore(a, n) == a.textBytes && FrontendsBefore(a, n) == a.summary.frontends
      && CountBefore(a, LocalTypes, n) == a.summary.localTypes && CountBefore(a, TypeSlots, n) == a.summary.typeSlots
      && CountBefore(a, ObjectSlots, n) == a.summary.objectSlots
      && CountBefore(a, MemberSlots, n) == a.summary.memberSlots
  {
    var n := |a.physical|;
    if Totals(a) {
      assert CountBefore(a, LocalTypes, n) == a.summary.At(LocalTypes);
      assert CountBefore(a, TypeSlots, n) == a.summary.At(TypeSlots);
      assert CountBefore(a, ObjectSlots, n) == a.summary.At(ObjectSlots);
      assert CountBefore(a, MemberSlots, n) == a.summary.At(MemberSlots);
    }
  }
}
