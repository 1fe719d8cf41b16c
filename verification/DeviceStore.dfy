/** The device store: a directory of record files that refines a map from id to device, at every
    point where the daemon can be stopped. */
module DeviceStore {
  import opened Wrappers
  import opened Numbers
  import opened Records

  type Directory = map<string, string>

  // ---- The map a directory stands for ----------------------------------------------------

  /** `list` takes this file for a record. */
  predicate Listed(dir: Directory, name: string) {
    name in dir && IsRecordName(name) && ReadRecord(dir[name]).Some?
  }

  function Ids(dir: Directory): set<string> {
    set name | name in dir && Listed(dir, name) :: ReadRecord(dir[name]).value.id
  }

  /** The file that a record with this id is kept in. */
  function Lookup(dir: Directory, id: string): Option<Device> {
    if id + ".json" in dir then ReadRecord(dir[id + ".json"]) else None
  }

  function Devices(dir: Directory): map<string, Device> {
    map id | id in Ids(dir) && Lookup(dir, id).Some? :: Lookup(dir, id).value
  }

  /** Every record is readable and kept under its own id; other files are never records. */
  predicate Tidy(dir: Directory) {
    forall name :: name in dir && IsRecordName(name) ==>
      Listed(dir, name) && SafeId(ReadRecord(dir[name]).value.id) && name == ReadRecord(dir[name]).value.id + ".json"
  }

  lemma RecordNameOf(id: string)
    requires SafeId(id)
    ensures IsRecordName(id + ".json") && FileName(id) == id + ".json"
    ensures TempName(id) == id + ".json" + ".tmp" && !IsRecordName(TempName(id))
  {
    FilterSafe(id);
    NamesOf(id);
  }

  lemma DevicesAt(dir: Directory, id: string)
    requires Tidy(dir)
    ensures id in Devices(dir) <==> id + ".json" in dir && SafeId(id)
    ensures id in Devices(dir) ==> Lookup(dir, id) == Some(Devices(dir)[id]) && Devices(dir)[id].id == id
  {
    var name := id + ".json";
    if name in dir && SafeId(id) {
      RecordNameOf(id);
      var d := ReadRecord(dir[name]).value;
      assert d.id + ".json" == name;
      assert d.id == name[..|name| - 5] == id;
      assert Listed(dir, name) && d.id in Ids(dir);
    }
    if id in Devices(dir) {
      var other :| other in dir && Listed(dir, other) && ReadRecord(dir[other]).value.id == id;
      assert other == name;
    }
  }

  // ---- Listing ---------------------------------------------------------------------------

  /** The devices of the entries, in the order the directory gives them. */
  function Collected(dir: Directory, entries: seq<string>): seq<Device> {
    if entries == [] then []
    else
      var last := entries[|entries| - 1];
      Collected(dir, entries[..|entries| - 1]) + if Listed(dir, last) then [ReadRecord(dir[last]).value] else []
  }

  lemma CollectedGrows(dir: Directory, entries: seq<string>, i: nat)
    requires i < |entries|
    ensures Collected(dir, entries[..i + 1])
         == Collected(dir, entries[..i]) + if Listed(dir, entries[i]) then [ReadRecord(dir[entries[i]]).value] else []
  {
    assert entries[..i + 1][..i] == entries[..i];
  }

  /** One step of the stable sort: before the first device that was not paired earlier. */
  function InsertByAge(d: Device, s: seq<Device>): seq<Device> {
    if s == [] || d.pairedAt <= s[0].pairedAt then [d] + s else [s[0]] + InsertByAge(d, s[1..])
  }

  /** `sort_by_key(|device| device.paired_at)`. */
  function SortByAge(s: seq<Device>): seq<Device> {
    if s == [] then [] else InsertByAge(s[0], SortByAge(s[1..]))
  }

  predicate SortedByAge(s: seq<Device>) {
    forall i, j :: 0 <= i < j < |s| ==> s[i].pairedAt <= s[j].pairedAt
  }

  lemma {:induction false} InsertAdds(d: Device, s: seq<Device>)
    ensures multiset(InsertByAge(d, s)) == multiset(s) + multiset{d}
  {
    if s != [] && d.pairedAt > s[0].pairedAt {
      InsertAdds(d, s[1..]);
      assert s == [s[0]] + s[1..];
    }
  }

  lemma SortedCons(d: Device, s: seq<Device>)
    requires SortedByAge(s) && forall x :: x in s ==> d.pairedAt <= x.pairedAt
    ensures SortedByAge([d] + s)
  {
  }

  lemma {:induction false} InsertSorts(d: Device, s: seq<Device>)
    requires SortedByAge(s)
    ensures SortedByAge(InsertByAge(d, s))
  {
    if s == [] || d.pairedAt <= s[0].pairedAt {
      SortedCons(d, s);
    } else {
      InsertSorts(d, s[1..]);
      InsertAdds(d, s[1..]);
      forall x | x in InsertByAge(d, s[1..]) ensures s[0].pairedAt <= x.pairedAt {
        assert x in multiset(InsertByAge(d, s[1..]));
        assert x == d || x in s[1..];
      }
      SortedCons(s[0], InsertByAge(d, s[1..]));
    }
  }

  lemma {:induction false} SortSorts(s: seq<Device>)
    ensures SortedByAge(SortByAge(s)) && multiset(SortByAge(s)) == multiset(s)
  {
    if s != [] {
      SortSorts(s[1..]);
      InsertSorts(s[0], SortByAge(s[1..]));
      InsertAdds(s[0], SortByAge(s[1..]));
      assert s == [s[0]] + s[1..];
    }
  }

  /** Every file of a directory is among the entries, which are distinct and in any order; others
      may be gone or unreadable by now. */
  ghost predicate Enumerates(dir: Directory, entries: seq<string>) {
    && (forall name :: name in dir ==> name in entries)
    && (forall i, j :: 0 <= i < j < |entries| ==> entries[i] != entries[j])
  }

  predicate DistinctIds(s: seq<Device>) {
    forall i, j :: 0 <= i < j < |s| ==> s[i].id != s[j].id
  }

  predicate StoredIn(dir: Directory, entries: seq<string>, d: Device) {
    d.id + ".json" in entries && Lookup(dir, d.id) == Some(d) && SafeId(d.id)
  }

  /** What has been collected comes from the entries read so far, each record once. */
  lemma {:induction false} CollectedFrom(dir: Directory, entries: seq<string>)
    requires Tidy(dir)
    requires forall i, j :: 0 <= i < j < |entries| ==> entries[i] != entries[j]
    ensures forall d :: d in Collected(dir, entries) <==> StoredIn(dir, entries, d)
    ensures DistinctIds(Collected(dir, entries))
    decreases |entries|
  {
    if entries != [] {
      var last := entries[|entries| - 1];
      var init := entries[..|entries| - 1];
      CollectedFrom(dir, init);
      var before := Collected(dir, init);
      var ds := Collected(dir, entries);
      assert last !in init;
      assert entries == init + [last];
      if Listed(dir, last) {
        var e := ReadRecord(dir[last]).value;
        assert ds == before + [e] && last == e.id + ".json";
        forall d | d in ds ensures StoredIn(dir, entries, d) {
          if d !in before { assert d == e; }
        }
        forall d | StoredIn(dir, entries, d) ensures d in ds {
          if d.id + ".json" == last { assert d == e; }
        }
        assert forall i :: 0 <= i < |before| ==> before[i] in before;
      } else {
        forall d | StoredIn(dir, entries, d) ensures d in ds {
          RecordNameOf(d.id);
        }
      }
    }
  }

  lemma InsertMembers(d: Device, s: seq<Device>)
    ensures forall x :: x in InsertByAge(d, s) <==> x == d || x in s
  {
    InsertAdds(d, s);
    assert forall x :: x in InsertByAge(d, s) <==> x in multiset(InsertByAge(d, s));
  }

  lemma DistinctCons(d: Device, s: seq<Device>)
    requires DistinctIds(s) && forall x :: x in s ==> x.id != d.id
    ensures DistinctIds([d] + s)
  {
  }

  lemma {:induction false} InsertKeepsDistinct(d: Device, s: seq<Device>)
    requires DistinctIds(s) && forall x :: x in s ==> x.id != d.id
    ensures DistinctIds(InsertByAge(d, s))
  {
    if s == [] || d.pairedAt <= s[0].pairedAt {
      DistinctCons(d, s);
    } else {
      InsertKeepsDistinct(d, s[1..]);
      InsertMembers(d, s[1..]);
      DistinctCons(s[0], InsertByAge(d, s[1..]));
    }
  }

  lemma {:induction false} SortKeepsDistinct(s: seq<Device>)
    requires DistinctIds(s)
    ensures DistinctIds(SortByAge(s))
  {
    if s != [] {
      SortKeepsDistinct(s[1..]);
      SortMembers(s[1..]);
      InsertKeepsDistinct(s[0], SortByAge(s[1..]));
    }
  }

  lemma SortMembers(s: seq<Device>)
    ensures forall x :: x in SortByAge(s) <==> x in s
  {
    SortSorts(s);
    assert forall x :: x in SortByAge(s) <==> x in multiset(SortByAge(s));
    assert forall x :: x in s <==> x in multiset(s);
  }

  /** Exactly the devices of the map, each once, the one paired longest ago first. */
  ghost predicate Lists(ds: seq<Device>, devices: map<string, Device>) {
    && SortedByAge(ds) && DistinctIds(ds)
    && (forall d :: d in ds <==> d.id in devices && devices[d.id] == d)
  }

  /** Whatever order the directory is read in, `list` shows exactly the map. */
  lemma ListRefines(dir: Directory, entries: seq<string>)
    requires Tidy(dir) && Enumerates(dir, entries)
    ensures Lists(SortByAge(Collected(dir, entries)), Devices(dir))
  {
    CollectedFrom(dir, entries);
    var ds := Collected(dir, entries);
    SortSorts(ds);
    SortMembers(ds);
    SortKeepsDistinct(ds);
    forall d ensures d in ds <==> d.id in Devices(dir) && Devices(dir)[d.id] == d {
      DevicesAt(dir, d.id);
      assert d in ds <==> StoredIn(dir, entries, d);
    }
  }

  /** The device a verification is checked against: none only when none is paired, and otherwise
      one that was paired no later than any other. */
  lemma ActiveDeviceIsOldest(ds: seq<Device>, devices: map<string, Device>)
    requires Lists(ds, devices) && forall id :: id in devices ==> devices[id].id == id
    ensures ds == [] <==> devices == map[]
    ensures ds != [] ==> ds[0].id in devices && devices[ds[0].id] == ds[0]
    ensures ds != [] ==> forall id :: id in devices ==> ds[0].pairedAt <= devices[id].pairedAt
  {
    forall id | id in devices ensures devices[id] in ds {
    }
    if ds == [] {
      assert devices.Keys == {};
    } else {
      assert ds[0] in ds;
    }
  }

  // ---- Saving and removing -----------------------------------------------------------------

  /** What the directory can hold if the daemon stops during `save`: nothing new, any part of the
      temporary file, or the record in place. */
  ghost predicate DuringSave(dir: Directory, d: Device, now: Directory) {
    || now == dir
    || (exists k: nat :: k <= |RecordText(d)| && now == dir[TempName(d.id) := RecordText(d)[..k]])
    || now == dir[FileName(d.id) := RecordText(d)] - {TempName(d.id)}
  }

  ghost predicate SameRecords(dir: Directory, now: Directory) {
    && (forall name :: IsRecordName(name) ==> (name in now <==> name in dir))
    && (forall name :: IsRecordName(name) && name in dir && name in now ==> now[name] == dir[name])
  }

  lemma SameRecordsTidy(dir: Directory, now: Directory)
    requires Tidy(dir) && SameRecords(dir, now)
    ensures Tidy(now)
  {
    forall name | name in now && IsRecordName(name)
      ensures Listed(now, name) && SafeId(ReadRecord(now[name]).value.id)
          && name == ReadRecord(now[name]).value.id + ".json"
    {
      assert Listed(dir, name);
    }
  }

  lemma SameRecordsAt(dir: Directory, now: Directory, id: string)
    requires Tidy(dir) && Tidy(now) && SameRecords(dir, now)
    ensures id in Devices(now) <==> id in Devices(dir)
    ensures id in Devices(dir) ==> Devices(now)[id] == Devices(dir)[id]
  {
    DevicesAt(now, id);
    DevicesAt(dir, id);
    if SafeId(id) { RecordNameOf(id); }
  }

  /** A change to other files than records changes no device. */
  lemma IrrelevantFile(dir: Directory, now: Directory)
    requires Tidy(dir) && SameRecords(dir, now)
    ensures Tidy(now) && Devices(now) == Devices(dir)
  {
    SameRecordsTidy(dir, now);
    forall id ensures id in Devices(now) <==> id in Devices(dir) {
      SameRecordsAt(dir, now, id);
    }
    forall id | id in Devices(dir) ensures Devices(now)[id] == Devices(dir)[id] {
      SameRecordsAt(dir, now, id);
    }
  }

  lemma RecordInPlaceTidy(dir: Directory, d: Device)
    requires Tidy(dir) && SafeId(d.id) && Storable(d)
    ensures Tidy(dir[d.id + ".json" := RecordText(d)] - {TempName(d.id)})
  {
    var name := d.id + ".json";
    var now := dir[name := RecordText(d)] - {TempName(d.id)};
    RecordNameOf(d.id);
    RecordRoundTrip(d);
    forall other | other in now && IsRecordName(other)
      ensures Listed(now, other) && SafeId(ReadRecord(now[other]).value.id)
          && other == ReadRecord(now[other]).value.id + ".json"
    {
      if other != name { assert Listed(dir, other); }
    }
  }

  lemma RecordInPlaceAt(dir: Directory, d: Device, now: Directory, id: string)
    requires Tidy(dir) && SafeId(d.id) && Storable(d) && Tidy(now)
    requires now == dir[d.id + ".json" := RecordText(d)] - {TempName(d.id)}
    ensures id in Devices(now) <==> id == d.id || id in Devices(dir)
    ensures id in Devices(now) ==> Devices(now)[id] == if id == d.id then d else Devices(dir)[id]
  {
    RecordNameOf(d.id);
    RecordRoundTrip(d);
    DevicesAt(now, id);
    DevicesAt(dir, id);
    SameName(id, d.id);
    if SafeId(id) { RecordNameOf(id); }
  }

  lemma RecordInPlace(dir: Directory, d: Device)
    requires Tidy(dir) && SafeId(d.id) && Storable(d)
    ensures var now := dir[d.id + ".json" := RecordText(d)] - {TempName(d.id)};
      Tidy(now) && Devices(now) == Devices(dir)[d.id := d]
  {
    var now := dir[d.id + ".json" := RecordText(d)] - {TempName(d.id)};
    RecordInPlaceTidy(dir, d);
    forall id ensures id in Devices(now) <==> id == d.id || id in Devices(dir) {
      RecordInPlaceAt(dir, d, now, id);
    }
    forall id | id in Devices(now) ensures Devices(now)[id] == Devices(dir)[d.id := d][id] {
      RecordInPlaceAt(dir, d, now, id);
    }
  }

  lemma SameName(a: string, b: string)
    ensures a + ".json" == b + ".json" ==> a == b
  {
    if a + ".json" == b + ".json" {
      assert a == (a + ".json")[..|a + ".json"| - 5] == b;
    }
  }

  /** At every point where `save` can be cut short, the store shows the old map or the new one. */
  lemma SaveIsAtomic(dir: Directory, d: Device, now: Directory)
    requires Tidy(dir) && SafeId(d.id) && Storable(d) && DuringSave(dir, d, now)
    ensures Tidy(now) && (Devices(now) == Devices(dir) || Devices(now) == Devices(dir)[d.id := d])
  {
    RecordNameOf(d.id);
    if now == dir[FileName(d.id) := RecordText(d)] - {TempName(d.id)} {
      RecordInPlace(dir, d);
    } else {
      IrrelevantFile(dir, now);
    }
  }

  lemma RemovedAt(dir: Directory, name: string, now: Directory, id: string, other: string)
    requires Tidy(dir) && name == id + ".json" && now == dir - {name} && Tidy(now)
    ensures other in Devices(now) <==> other != id && other in Devices(dir)
    ensures other in Devices(now) ==> Devices(now)[other] == Devices(dir)[other]
  {
    DevicesAt(now, other);
    DevicesAt(dir, other);
    SameName(other, id);
  }

  lemma SameButOne(before: map<string, Device>, after: map<string, Device>, id: string)
    requires forall other :: other in after <==> other != id && other in before
    requires forall other :: other in after ==> after[other] == before[other]
    ensures after == before - {id}
  {
  }

  lemma RemovedDevices(dir: Directory, name: string, now: Directory, id: string)
    requires Tidy(dir) && name == id + ".json" && now == dir - {name} && Tidy(now)
    ensures Devices(now) == Devices(dir) - {id}
  {
    var before, after := Devices(dir), Devices(now);
    forall other ensures other in after <==> other != id && other in before {
      RemovedAt(dir, name, now, id, other);
    }
    forall other | other in after ensures after[other] == before[other] {
      RemovedAt(dir, name, now, id, other);
    }
    SameButOne(before, after, id);
  }

  lemma RemoveTidy(dir: Directory, name: string)
    requires Tidy(dir)
    ensures Tidy(dir - {name})
  {
    var now := dir - {name};
    forall other | other in now && IsRecordName(other)
      ensures Listed(now, other) && SafeId(ReadRecord(now[other]).value.id)
          && other == ReadRecord(now[other]).value.id + ".json"
    {
      assert Listed(dir, other);
    }
  }

  /** Removing takes away the one record with that id, and nothing for an id of no record. */
  lemma RemoveRefines(dir: Directory, id: string)
    requires Tidy(dir)
    ensures Tidy(dir - {FileName(id)})
    ensures Devices(dir - {FileName(id)}) == Devices(dir) - {Filter(id)}
    ensures SafeId(Filter(id)) ==> (FileName(id) in dir <==> Filter(id) in Devices(dir))
  {
    RemoveTidy(dir, FileName(id));
    RemovedDevices(dir, FileName(id), dir - {FileName(id)}, Filter(id));
    DevicesAt(dir, Filter(id));
  }

  // ---- Histories -----------------------------------------------------------------------------

  /** What becomes of the directory: a record saved, a save cut short with part of its temporary
      file written, a save that could not begin, or a record removed. */
  datatype Change = Saved(device: Device) | CutShort(device: Device, written: nat) | Unchanged | Removed(id: string)

  predicate Allowed(c: Change) {
    c.Saved? || c.CutShort? ==> SafeId(c.device.id) && Storable(c.device)
  }

  function Perform(dir: Directory, c: Change): Directory {
    match c
    case Saved(d) => dir[FileName(d.id) := RecordText(d)] - {TempName(d.id)}
    case CutShort(d, written) => dir[TempName(d.id) := RecordText(d)[..Min(written, |RecordText(d)|)]]
    case Unchanged => dir
    case Removed(id) => dir - {FileName(id)}
  }

  /** What it means for the devices. */
  function Meaning(devices: map<string, Device>, c: Change): map<string, Device> {
    match c
    case Saved(d) => devices[d.id := d]
    case CutShort(_, _) => devices
    case Unchanged => devices
    case Removed(id) => devices - {Filter(id)}
  }

  function PerformAll(dir: Directory, cs: seq<Change>): Directory
    decreases |cs|
  {
    if cs == [] then dir else PerformAll(Perform(dir, cs[0]), cs[1..])
  }

  function MeaningOfAll(devices: map<string, Device>, cs: seq<Change>): map<string, Device>
    decreases |cs|
  {
    if cs == [] then devices else MeaningOfAll(Meaning(devices, cs[0]), cs[1..])
  }

  lemma CutShortChangesNothing(dir: Directory, d: Device, written: nat)
    requires Tidy(dir) && SafeId(d.id)
    ensures var now := Perform(dir, CutShort(d, written)); Tidy(now) && Devices(now) == Devices(dir)
  {
    RecordNameOf(d.id);
    IrrelevantFile(dir, Perform(dir, CutShort(d, written)));
  }

  lemma ChangeRefines(dir: Directory, c: Change)
    requires Tidy(dir) && Allowed(c)
    ensures Tidy(Perform(dir, c)) && Devices(Perform(dir, c)) == Meaning(Devices(dir), c)
  {
    match c
    case Saved(d) =>
      RecordNameOf(d.id);
      RecordInPlace(dir, d);
    case CutShort(d, written) => CutShortChangesNothing(dir, d, written);
    case Unchanged =>
    case Removed(id) => RemoveRefines(dir, id);
  }

  lemma {:induction false} ChangesRefine(dir: Directory, cs: seq<Change>)
    requires Tidy(dir) && forall i :: 0 <= i < |cs| ==> Allowed(cs[i])
    ensures Tidy(PerformAll(dir, cs)) && Devices(PerformAll(dir, cs)) == MeaningOfAll(Devices(dir), cs)
    decreases |cs|
  {
    if cs != [] {
      ChangeRefines(dir, cs[0]);
      ChangesRefine(Perform(dir, cs[0]), cs[1..]);
    }
  }

  /** From an empty directory, over any history of saves, saves cut short and removals, whatever
      order the directory is read in: the list shows exactly the devices saved and not removed
      since, each as it was last saved, the one paired longest ago first. */
  lemma ListShowsHistory(cs: seq<Change>, entries: seq<string>)
    requires forall i :: 0 <= i < |cs| ==> Allowed(cs[i])
    requires Enumerates(PerformAll(map[], cs), entries)
    ensures Lists(SortByAge(Collected(PerformAll(map[], cs), entries)), MeaningOfAll(map[], cs))
  {
    assert Devices(map[]) == map[];
    ChangesRefine(map[], cs);
    ListRefines(PerformAll(map[], cs), entries);
  }

  // ---- The store -----------------------------------------------------------------------------

  /** Where a save can fail: opening the temporary file, writing (after so many characters),
      renaming or syncing. */
  datatype Fault = NoFault | OpenFails | WriteStops(after: nat) | RenameFails | SyncFails

  function ChangeOf(d: Device, fault: Fault): Change {
    match fault
    case OpenFails => Unchanged
    case WriteStops(after) => CutShort(d, after)
    case RenameFails => CutShort(d, |RecordText(d)|)
    case _ => Saved(d)
  }

  lemma FaultIsDuringSave(dir: Directory, d: Device, fault: Fault)
    ensures DuringSave(dir, d, Perform(dir, ChangeOf(d, fault)))
  {
    match ChangeOf(d, fault)
    case CutShort(_, written) =>
      var k := Min(written, |RecordText(d)|);
      assert Perform(dir, ChangeOf(d, fault)) == dir[TempName(d.id) := RecordText(d)[..k]];
    case _ =>
  }

  /** All that a save does to the files, by where it fails. */
  function Saving(dir: Directory, d: Device, fault: Fault): Directory {
    match fault
    case OpenFails => dir
    case WriteStops(after) => dir[TempName(d.id) := RecordText(d)[..Min(after, |RecordText(d)|)]]
    case RenameFails => dir[TempName(d.id) := RecordText(d)]
    case _ => dir[FileName(d.id) := RecordText(d)] - {TempName(d.id)}
  }

  lemma SavingPerforms(dir: Directory, d: Device, fault: Fault)
    ensures Saving(dir, d, fault) == Perform(dir, ChangeOf(d, fault))
  {
    assert RecordText(d)[..|RecordText(d)|] == RecordText(d);
  }

  /** The same, as a change. */
  ghost predicate IsSaved(dir: Directory, d: Device, fault: Fault, now: Directory) {
    && now == Perform(dir, ChangeOf(d, fault)) && DuringSave(dir, d, now)
    && Tidy(now) && Devices(now) == Meaning(Devices(dir), ChangeOf(d, fault))
  }

  lemma SavingRefines(dir: Directory, d: Device, fault: Fault)
    requires Tidy(dir) && SafeId(d.id) && Storable(d)
    ensures IsSaved(dir, d, fault, Saving(dir, d, fault))
  {
    SavingPerforms(dir, d, fault);
    ChangeRefines(dir, ChangeOf(d, fault));
    FaultIsDuringSave(dir, d, fault);
  }

  class Store {
    var files: Directory

    constructor (files: Directory)
      ensures this.files == files
    {
      this.files := files;
    }

    /** `list`: skips what is not a readable record, and sorts by age. */
    method List(entries: seq<string>, unreadable: set<string>) returns (devices: seq<Device>)
      ensures devices == SortByAge(Collected(files - unreadable, entries))
    {
      var found: seq<Device> := [];
      var i := 0;
      while i < |entries|
        invariant 0 <= i <= |entries|
        invariant found == Collected(files - unreadable, entries[..i])
      {
        CollectedGrows(files - unreadable, entries, i);
        var name := entries[i];
        i := i + 1;
        if !IsRecordName(name) {
          continue;
        }
        if name !in files || name in unreadable {
          continue;
        }
        var record := ReadRecord(files[name]);
        if record.None? {
          continue;
        }
        found := found + [record.value];
      }
      assert entries[..|entries|] == entries;
      devices := SortByAge(found);
    }

    /** The first of the list, which shows the files that can be read. */
    method ActiveDevice(entries: seq<string>, unreadable: set<string>) returns (d: Option<Device>)
      requires Enumerates(files, entries) && Tidy(files)
      ensures var devices := Devices(files - unreadable);
        && (d.None? <==> devices == map[])
        && (d.Some? ==> d.value.id in devices && devices[d.value.id] == d.value)
        && (d.Some? ==> forall id :: id in devices ==> d.value.pairedAt <= devices[id].pairedAt)
    {
      var dir := files - unreadable;
      FewerAreTidy(files, unreadable);
      var devices := List(entries, unreadable);
      ListRefines(dir, entries);
      forall id | id in Devices(dir) ensures Devices(dir)[id].id == id {
        DevicesAt(dir, id);
      }
      ActiveDeviceIsOldest(devices, Devices(dir));
      d := if devices == [] then None else Some(devices[0]);
    }

    /** `save`: temporary file, rename, sync. Stopping at any fault leaves the old map or the new
        one; success leaves the new one. */
    method Save(d: Device, fault: Fault) returns (ok: bool)
      requires Tidy(files) && SafeId(d.id) && Storable(d)
      modifies this
      ensures IsSaved(old(files), d, fault, files)
      ensures ok <==> fault == NoFault
    {
      ghost var before := files;
      SavingRefines(files, d, fault);
      var path := FileName(d.id);
      var temporary := TempName(d.id);
      var text := RecordText(d);
      if fault == OpenFails {
        return false;
      }
      if fault.WriteStops? {
        files := files[temporary := text[..Min(fault.after, |text|)]];
        return false;
      }
      files := files[temporary := text];
      if fault == RenameFails {
        return false;
      }
      files := files[path := text] - {temporary};
      assert files == before[path := text] - {temporary};
      return fault != SyncFails;
    }

    method Remove(id: string) returns (found: bool)
      requires Tidy(files)
      modifies this
      ensures files == Perform(old(files), Removed(id))
      ensures Tidy(files) && Devices(files) == Devices(old(files)) - {Filter(id)}
      ensures Filter(id) != "" ==> (found <==> Filter(id) in Devices(old(files)))
    {
      RemoveRefines(files, id);
      var path := FileName(id);
      if path !in files {
        assert files - {path} == files;
        return false;
      }
      files := files - {path};
      return true;
    }
  }

  lemma FewerAreTidy(dir: Directory, gone: set<string>)
    requires Tidy(dir)
    ensures Tidy(dir - gone)
  {
    var now := dir - gone;
    forall name | name in now && IsRecordName(name)
      ensures Listed(now, name) && SafeId(ReadRecord(now[name]).value.id)
          && name == ReadRecord(now[name]).value.id + ".json"
    {
      assert Listed(dir, name);
    }
  }
}
