/** `RollingCaseArchiver`: bundle saved case folders into numbered zip archives. Every write to disk
    or to the store is one step, and the process may crash between any two of them. */
module Archiver {
  import opened Wrappers
  import opened Counting
  import opened Sorting

  // ---------- What is on disk and in the store ----------

  /** Cases and archives belong to a tenant; marks are keyed by the case id alone. */
  datatype CaseKey = CaseKey(tenant: string, caseId: string)

  /** File contents by name. */
  type Files = map<string, string>

  datatype Folder = Folder(files: Files, mtime: int)

  const CASE_FILE := "case.json"

  predicate Complete(f: Folder) {
    CASE_FILE in f.files
  }

  /** Every one of `files` is in `content`, unchanged. */
  ghost predicate Includes(content: Files, files: Files) {
    forall f <- files :: f in content && content[f] == files[f]
  }

  /** The date range and the batch number of an archive's file name. */
  datatype ArchiveName = ArchiveName(tenant: string, dates: string, index: nat)

  datatype Record = Record(tenant: string, name: ArchiveName, caseIds: seq<string>)

  datatype Disk = Disk(
    folders: map<CaseKey, Folder>,
    zips: map<ArchiveName, map<string, Files>>,
    records: seq<Record>,
    marks: map<string, string>)

  /** How many archives the store lists for a tenant. */
  function CountOf(records: seq<Record>, tenant: string): nat {
    if records == [] then 0 else (if records[0].tenant == tenant then 1 else 0) + CountOf(records[1..], tenant)
  }

  lemma {:induction false} CountAppend(records: seq<Record>, r: Record, tenant: string)
    ensures CountOf(records + [r], tenant) == CountOf(records, tenant) + (if r.tenant == tenant then 1 else 0)
  {
    if records != [] {
      assert (records + [r])[1..] == records[1..] + [r];
      CountAppend(records[1..], r, tenant);
    } else {
      assert [r][1..] == [];
    }
  }

  /** `batch_number or (existing + 1)`: zero and absent both mean the default. */
  function BatchIndex(d: Disk, tenant: string, batchNumber: nat): nat {
    if batchNumber != 0 then batchNumber else CountOf(d.records, tenant) + 1
  }

  /** What the zip of a bundle contains: the folders that exist. */
  function Copies(d: Disk, tenant: string, caseIds: seq<string>): map<string, Files> {
    map c | c in caseIds && CaseKey(tenant, c) in d.folders :: d.folders[CaseKey(tenant, c)].files
  }

  function KeysOf(tenant: string, caseIds: seq<string>): set<CaseKey> {
    set c | c in caseIds :: CaseKey(tenant, c)
  }

  function MarksOf(tenant: string, caseIds: seq<string>): map<string, string> {
    map c | c in caseIds :: tenant
  }

  function OfTenant(tenant: string): Record -> bool {
    (r: Record) => r.tenant == tenant
  }

  lemma {:induction false} CountIsNumber(records: seq<Record>, tenant: string)
    ensures CountOf(records, tenant) == |Where(records, OfTenant(tenant))|
  {
    if records != [] {
      var init, last := records[..|records| - 1], records[|records| - 1];
      assert records == init + [last];
      CountIsNumber(init, tenant);
      CountAppend(init, last, tenant);
      WhereOneMore(init, last, OfTenant(tenant));
    }
  }

  /** What a completed bundle comes to: one more record and one more zip, numbered as asked or after the
      tenant's archives; in it the files of every folder bundled, which is gone; every case marked; and
      everything else as before. */
  ghost predicate IsArchived(d: Disk, tenant: string, caseIds: seq<string>, batchNumber: nat, dates: string, d': Disk) {
    var number := if batchNumber > 0 then batchNumber else |Where(d.records, OfTenant(tenant))| + 1;
    var name := ArchiveName(tenant, dates, number);
    && d'.records == d.records + [Record(tenant, name, caseIds)]
    && IsPruned(d, tenant, caseIds, d') && IsZipped(d, tenant, caseIds, name, d') && AreMarked(d, tenant, caseIds, d')
  }

  ghost predicate IsPruned(d: Disk, tenant: string, caseIds: seq<string>, d': Disk) {
    && (forall k :: k in d'.folders <==> k in d.folders && !(k.tenant == tenant && k.caseId in caseIds))
    && (forall k <- d'.folders :: d'.folders[k] == d.folders[k])
  }

  ghost predicate IsZipped(d: Disk, tenant: string, caseIds: seq<string>, name: ArchiveName, d': Disk) {
    && (forall z :: z in d'.zips <==> z in d.zips || z == name)
    && (forall z <- d.zips :: z != name ==> d'.zips[z] == d.zips[z])
    && (forall c :: c in d'.zips[name] <==> c in caseIds && CaseKey(tenant, c) in d.folders)
    && (forall c <- d'.zips[name] :: d'.zips[name][c] == d.folders[CaseKey(tenant, c)].files)
  }

  ghost predicate AreMarked(d: Disk, tenant: string, caseIds: seq<string>, d': Disk) {
    && (forall c :: c in d'.marks <==> c in d.marks || c in caseIds)
    && forall c <- d'.marks :: d'.marks[c] == if c in caseIds then tenant else d.marks[c]
  }

  lemma CompletedIsArchived(d: Disk, tenant: string, caseIds: seq<string>, batchNumber: nat, dates: string)
    ensures IsArchived(d, tenant, caseIds, batchNumber, dates,
                       Completed(d, tenant, caseIds, ArchiveName(tenant, dates, BatchIndex(d, tenant, batchNumber))))
  {
    var name := ArchiveName(tenant, dates, BatchIndex(d, tenant, batchNumber));
    CountIsNumber(d.records, tenant);
    CompletedIsPruned(d, tenant, caseIds, name);
    CompletedIsZipped(d, tenant, caseIds, name);
  }

  lemma CompletedIsPruned(d: Disk, tenant: string, caseIds: seq<string>, name: ArchiveName)
    ensures IsPruned(d, tenant, caseIds, Completed(d, tenant, caseIds, name))
    ensures AreMarked(d, tenant, caseIds, Completed(d, tenant, caseIds, name))
  {
    forall k ensures k in KeysOf(tenant, caseIds) <==> k.tenant == tenant && k.caseId in caseIds {
      KeysOfIff(tenant, caseIds, k);
    }
  }

  lemma CompletedIsZipped(d: Disk, tenant: string, caseIds: seq<string>, name: ArchiveName)
    ensures IsZipped(d, tenant, caseIds, name, Completed(d, tenant, caseIds, name))
  {
  }

  lemma KeysOfIff(tenant: string, caseIds: seq<string>, k: CaseKey)
    ensures k in KeysOf(tenant, caseIds) <==> k.tenant == tenant && k.caseId in caseIds
  {
    if k.tenant == tenant && k.caseId in caseIds { assert k == CaseKey(tenant, k.caseId); }
  }

  /** The effect of a bundle that was not interrupted. */
  function Completed(d: Disk, tenant: string, caseIds: seq<string>, name: ArchiveName): Disk {
    Disk(d.folders - KeysOf(tenant, caseIds), d.zips[name := Copies(d, tenant, caseIds)],
         d.records + [Record(tenant, name, caseIds)], d.marks + MarksOf(tenant, caseIds))
  }

  // ---------- No case is lost ----------

  /** The files are in the case's folder, or in a zip the store knows. */
  ghost predicate Kept(d: Disk, key: CaseKey, files: Files) {
    || (key in d.folders && Includes(d.folders[key].files, files))
    || exists r <- d.records :: Holds(d, r, key, files)
  }

  ghost predicate Holds(d: Disk, r: Record, key: CaseKey, files: Files) {
    && r.tenant == key.tenant && r.name in d.zips
    && key.caseId in d.zips[r.name] && Includes(d.zips[r.name][key.caseId], files)
  }

  /** `saved`: the files of every case's last save. */
  ghost predicate NothingLost(d: Disk, saved: map<CaseKey, Files>) {
    forall key :: key in saved ==> Kept(d, key, saved[key])
  }

  /** Batch numbers never run ahead of the number of archives. */
  ghost predicate NumbersBounded(d: Disk) {
    forall r <- d.records :: r.name.tenant == r.tenant && r.name.index <= CountOf(d.records, r.tenant)
  }

  ghost predicate Unrecorded(d: Disk, name: ArchiveName) {
    forall r <- d.records :: r.name != name
  }

  lemma DefaultNameIsUnrecorded(d: Disk, tenant: string, dates: string)
    requires NumbersBounded(d)
    ensures Unrecorded(d, ArchiveName(tenant, dates, BatchIndex(d, tenant, 0)))
  {
  }

  /** How far a bundle of `d0` may have got when the disk is `d`: before its record is stored only
      its own zip has changed; after that, the zip is complete and only its cases' folders and
      marks have, the folders not before the marks. */
  ghost predicate Reached(d0: Disk, tenant: string, caseIds: seq<string>, name: ArchiveName, d: Disk) {
    && (forall z :: z in d0.zips && z != name ==> z in d.zips && d.zips[z] == d0.zips[z])
    && if d.records == d0.records then
         d.folders == d0.folders && d.marks == d0.marks
       else
         && d.records == d0.records + [Record(tenant, name, caseIds)]
         && name in d.zips && d.zips[name] == Copies(d0, tenant, caseIds)
         && (forall k :: k in d0.folders && k !in KeysOf(tenant, caseIds) ==>
             k in d.folders && d.folders[k] == d0.folders[k])
         && (d.marks == d0.marks || d.marks == d0.marks + MarksOf(tenant, caseIds))
         && (d.folders != d0.folders ==> d.marks == d0.marks + MarksOf(tenant, caseIds))
  }

  /** A bundle that crashed got some way; one that did not is complete. */
  ghost predicate Bundled(d0: Disk, tenant: string, caseIds: seq<string>, name: ArchiveName,
                          crashed: bool, record: Option<Record>, d: Disk)
  {
    && Reached(d0, tenant, caseIds, name, d)
    && (!crashed ==> record == Some(Record(tenant, name, caseIds)) && d == Completed(d0, tenant, caseIds, name))
  }

  /** Wherever a bundle under an unrecorded name is interrupted, no case is lost. */
  lemma BundleLosesNothing(d0: Disk, tenant: string, caseIds: seq<string>, name: ArchiveName, d: Disk,
                           saved: map<CaseKey, Files>)
    requires Reached(d0, tenant, caseIds, name, d) && Unrecorded(d0, name) && name.tenant == tenant
    requires NothingLost(d0, saved)
    ensures NothingLost(d, saved)
  {
    forall key | key in saved ensures Kept(d, key, saved[key]) {
      if exists r <- d0.records :: Holds(d0, r, key, saved[key]) {
        var r :| r in d0.records && Holds(d0, r, key, saved[key]);
        assert r in d.records && Holds(d, r, key, saved[key]);
      } else if d.records != d0.records && key in KeysOf(tenant, caseIds) {
        var r := d.records[|d0.records|];
        assert key.caseId in caseIds;
        assert Holds(d, r, key, saved[key]);
      }
    }
  }

  lemma BundleKeepsNumbers(d0: Disk, tenant: string, caseIds: seq<string>, name: ArchiveName, d: Disk)
    requires Reached(d0, tenant, caseIds, name, d) && NumbersBounded(d0)
    requires name.tenant == tenant && name.index <= CountOf(d0.records, tenant) + 1
    ensures NumbersBounded(d)
  {
    if d.records != d0.records {
      var r' := Record(tenant, name, caseIds);
      forall r | r in d.records ensures r.name.tenant == r.tenant && r.name.index <= CountOf(d.records, r.tenant) {
        CountAppend(d0.records, r', r.tenant);
      }
    }
  }

  // ---------- Pending cases ----------

  /** A save writes its files over those of the folder, if there is one, and leaves the others; the
      folder's time is renewed only when some file is new. */
  function Saved(d: Disk, tenant: string, caseId: string, files: Files, now: int): Disk {
    var key := CaseKey(tenant, caseId);
    var folder := if key in d.folders then d.folders[key] else Folder(map[], now);
    var time := if files.Keys <= folder.files.Keys then folder.mtime else now;
    d.(folders := d.folders[key := Folder(folder.files + files, time)])
  }

  /** What a save comes to: the folder has the new files and those of its earlier ones that have no new version;
      its time is now unless it was there with all these names; nothing else changes. */
  ghost predicate IsSave(d: Disk, key: CaseKey, files: Files, now: int, d': Disk) {
    var before := if key in d.folders then d.folders[key].files else map[];
    && d'.zips == d.zips && d'.records == d.records && d'.marks == d.marks
    && d'.folders.Keys == d.folders.Keys + {key}
    && (forall k <- d.folders :: k != key ==> d'.folders[k] == d.folders[k])
    && (forall f <- files :: f in d'.folders[key].files && d'.folders[key].files[f] == files[f])
    && (forall f <- before :: f !in files ==> f in d'.folders[key].files && d'.folders[key].files[f] == before[f])
    && (forall f <- d'.folders[key].files :: f in files || f in before)
    && d'.folders[key].mtime ==
       if key in d.folders && forall f <- files :: f in before then d.folders[key].mtime else now
  }

  predicate MarkedFor(d: Disk, tenant: string, c: string) {
    c in d.marks && d.marks[c] == tenant
  }

  predicate Pending(d: Disk, tenant: string, c: string) {
    var key := CaseKey(tenant, c);
    key in d.folders && Complete(d.folders[key]) && !MarkedFor(d, tenant, c)
  }

  function AgeOf(d: Disk, tenant: string, c: string): int {
    var key := CaseKey(tenant, c);
    if key in d.folders then d.folders[key].mtime else 0
  }

  function ByAge(d: Disk, tenant: string): (le: (string, string) -> bool)
    ensures Linear(le)
  {
    (a, b) => AgeOf(d, tenant, a) <= AgeOf(d, tenant, b)
  }

  /** `a` was last changed no later than `b`. */
  ghost predicate NoYounger(d: Disk, a: CaseKey, b: CaseKey) {
    a in d.folders && b in d.folders && d.folders[a].mtime <= d.folders[b].mtime
  }

  /** Each once, exactly the cases of the tenant that have a folder with a `case.json` and no mark of the
      tenant, the folder changed longest ago first. */
  ghost predicate IsPendingList(d: Disk, tenant: string, ids: seq<string>) {
    && NoDuplicates(ids)
    && (forall c :: c in ids <==>
        && CaseKey(tenant, c) in d.folders && "case.json" in d.folders[CaseKey(tenant, c)].files
        && !(c in d.marks && d.marks[c] == tenant))
    && (forall i, j :: 0 <= i < j < |ids| ==> NoYounger(d, CaseKey(tenant, ids[i]), CaseKey(tenant, ids[j])))
  }

  /** None of the archived cases was changed later than one that is left over. */
  ghost predicate OldestFirst(d: Disk, tenant: string, archived: seq<string>, leftover: seq<string>) {
    forall a <- archived, b <- leftover :: NoYounger(d, CaseKey(tenant, a), CaseKey(tenant, b))
  }

  lemma SplitIsOldestFirst(d: Disk, tenant: string, archived: seq<string>, leftover: seq<string>)
    requires IsPendingList(d, tenant, archived + leftover)
    ensures OldestFirst(d, tenant, archived, leftover)
  {
    var ids := archived + leftover;
    forall a, b | a in archived && b in leftover ensures NoYounger(d, CaseKey(tenant, a), CaseKey(tenant, b)) {
      var i :| 0 <= i < |archived| && archived[i] == a;
      var j :| 0 <= j < |leftover| && leftover[j] == b;
      assert ids[i] == a && ids[|archived| + j] == b;
    }
  }

  /** A list sorted by age. */
  lemma ByAgeIsPendingList(d: Disk, tenant: string, ids: seq<string>)
    requires NoDuplicates(ids) && (forall c :: c in ids <==> Pending(d, tenant, c)) && Sorted(ids, ByAge(d, tenant))
    ensures IsPendingList(d, tenant, ids)
  {
    forall i, j | 0 <= i < j < |ids| ensures NoYounger(d, CaseKey(tenant, ids[i]), CaseKey(tenant, ids[j])) {
      assert ids[i] in ids && ids[j] in ids;
      assert ByAge(d, tenant)(ids[i], ids[j]);
    }
  }

  // ---------- The archiver ----------

  /** The most writes a bundle of `n` cases makes: copies, zip, record and marks, removals. */
  function Writes(n: nat): nat {
    3 * n + 4
  }

  class RollingCaseArchiver {
    const batchSize: int
    var disk: Disk
    /** How many more writes succeed before the process dies. */
    var budget: nat

    constructor (batchSize: int, disk: Disk, budget: nat)
      ensures this.batchSize == batchSize && this.disk == disk && this.budget == budget
    {
      this.batchSize, this.disk, this.budget := batchSize, disk, budget;
    }

    /** One write may be attempted; false when the process dies instead. */
    method Alive() returns (ok: bool)
      modifies this`budget
      ensures ok <==> old(budget) > 0
      ensures budget == if ok then old(budget) - 1 else 0
    {
      ok := budget > 0;
      if ok { budget := budget - 1; }
    }

    /** `files`: case.json, and those of the optional files that have content. */
    method SaveCaseBundle(tenant: string, caseId: string, files: Files, now: int)
      requires CASE_FILE in files
      modifies this`disk
      ensures disk == Saved(old(disk), tenant, caseId, files, now)
      ensures IsSave(old(disk), CaseKey(tenant, caseId), files, now, disk)
    {
      var key := CaseKey(tenant, caseId);
      if key !in disk.folders {
        disk := disk.(folders := disk.folders[key := Folder(files, now)]);
        assert map[] + files == files;
      } else {
        var folder := disk.folders[key];
        var time := if files.Keys <= folder.files.Keys then folder.mtime else now;
        disk := disk.(folders := disk.folders[key := Folder(folder.files + files, time)]);
      }
    }

    /** Pending cases, oldest first: complete folders of the tenant that are not marked for it. */
    method GetUnarchivedCaseIds(tenant: string) returns (ids: seq<string>)
      ensures IsPendingList(disk, tenant, ids)
    {
      var names := set k | k in disk.folders && k.tenant == tenant && Complete(disk.folders[k]) :: k.caseId;
      ids := [];
      var rest := names;
      while rest != {}
        invariant rest <= names
        invariant NoDuplicates(ids)
        invariant forall c :: c in ids <==> c in names - rest && !MarkedFor(disk, tenant, c)
        decreases rest
      {
        var c :| c in rest;
        rest := rest - {c};
        if !MarkedFor(disk, tenant, c) {
          ids := ids + [c];
        }
      }
      forall c
        ensures c in names <==> CaseKey(tenant, c) in disk.folders && Complete(disk.folders[CaseKey(tenant, c)])
      {
        if CaseKey(tenant, c) in disk.folders { assert CaseKey(tenant, c).caseId == c; }
      }
      var le := ByAge(disk, tenant);
      var sorted := Sort(ids, le);
      SortSorts(ids, le);
      RearrangementKeepsNoDuplicates(ids, sorted);
      forall c ensures c in sorted <==> c in ids { SameMembers(sorted, ids, c); }
      ByAgeIsPendingList(disk, tenant, sorted);
      ids := sorted;
    }

    /** Copy, zip, record, mark, prune. Whatever write the process dies at, the disk is one the
        bundle may reach; if it survives, the bundle is complete. `remains` is what an interrupted
        removal leaves of a folder. */
    method CreateArchiveBundle(tenant: string, caseIds: seq<string>, batchNumber: nat, dates: string, remains: Folder)
      returns (crashed: bool, record: Option<Record>)
      modifies this
      ensures caseIds == [] ==> !crashed && record == None && disk == old(disk)
      ensures caseIds != [] ==>
        Bundled(old(disk), tenant, caseIds, ArchiveName(tenant, dates, BatchIndex(old(disk), tenant, batchNumber)),
                crashed, record, disk)
      ensures caseIds != [] && !crashed ==> IsArchived(old(disk), tenant, caseIds, batchNumber, dates, disk)
      ensures crashed ==> budget == 0 && old(budget) < Writes(|caseIds|)
      ensures !crashed ==> budget >= old(budget) - Writes(|caseIds|)
    {
      crashed, record := true, None;
      if caseIds == [] {
        return false, None;
      }
      var name := ArchiveName(tenant, dates, BatchIndex(disk, tenant, batchNumber));
      var staged, staging := Stage(tenant, caseIds);
      if !staged { return; }
      var zipped := WriteZip(name, staging);
      if !zipped { return; }
      var stored := Store(Record(tenant, name, caseIds));
      if !stored { return; }
      var pruned := Prune(tenant, caseIds, remains);
      if !pruned { return; }
      CompletedIsArchived(old(disk), tenant, caseIds, batchNumber, dates);
      return false, Some(Record(tenant, name, caseIds));
    }

    /** Copy the folders that exist into a staging directory of this call's own. */
    method Stage(tenant: string, caseIds: seq<string>) returns (ok: bool, staging: map<string, Files>)
      modifies this`budget
      ensures ok ==> staging == Copies(disk, tenant, caseIds) && budget >= old(budget) - |caseIds|
      ensures !ok ==> budget == 0 && old(budget) < |caseIds|
    {
      ok, staging := true, map[];
      for i := 0 to |caseIds|
        invariant ok && staging == Copies(disk, tenant, caseIds[..i]) && budget >= old(budget) - i
      {
        var key := CaseKey(tenant, caseIds[i]);
        assert caseIds[..i + 1] == caseIds[..i] + [caseIds[i]];
        if key in disk.folders {
          ok := Alive();
          if !ok { return; }
          staging := staging[caseIds[i] := disk.folders[key].files];
        }
      }
      assert caseIds[..|caseIds|] == caseIds;
    }

    /** Opening the zip truncates it; then it is filled. */
    method WriteZip(name: ArchiveName, staging: map<string, Files>) returns (ok: bool)
      modifies this
      ensures disk == old(disk).(zips := disk.zips)
      ensures forall z :: z in old(disk).zips && z != name ==> z in disk.zips && disk.zips[z] == old(disk).zips[z]
      ensures ok ==> disk.zips == old(disk).zips[name := staging] && budget == old(budget) - 2
      ensures !ok ==> budget == 0 && old(budget) < 2
    {
      ok := Alive();
      if !ok { return; }
      disk := disk.(zips := disk.zips[name := map[]]);
      ok := Alive();
      if !ok { return; }
      disk := disk.(zips := disk.zips[name := staging]);
    }

    /** Record the archive, then mark its cases. */
    method Store(record: Record) returns (ok: bool)
      modifies this
      ensures disk == old(disk).(records := disk.records, marks := disk.marks)
      ensures disk == old(disk) || disk.records == old(disk).records + [record]
      ensures disk.marks == old(disk).marks || disk.marks == old(disk).marks + MarksOf(record.tenant, record.caseIds)
      ensures ok ==> disk.records == old(disk).records + [record] && budget == old(budget) - 2
      ensures ok ==> disk.marks == old(disk).marks + MarksOf(record.tenant, record.caseIds)
      ensures !ok ==> budget == 0 && old(budget) < 2
    {
      ok := Alive();
      if !ok { return; }
      disk := disk.(records := disk.records + [record]);
      ok := Alive();
      if !ok { return; }
      disk := disk.(marks := disk.marks + MarksOf(record.tenant, record.caseIds));
    }

    /** Remove the bundled folders, each in two steps that may be separated by a crash. */
    method Prune(tenant: string, caseIds: seq<string>, remains: Folder) returns (ok: bool)
      modifies this
      ensures disk == old(disk).(folders := disk.folders)
      ensures forall k :: k in old(disk).folders && k !in KeysOf(tenant, caseIds) ==>
        k in disk.folders && disk.folders[k] == old(disk).folders[k]
      ensures ok ==> disk.folders == old(disk).folders - KeysOf(tenant, caseIds)
      ensures ok ==> budget >= old(budget) - 2 * |caseIds|
      ensures !ok ==> budget == 0 && old(budget) < 2 * |caseIds|
    {
      ghost var d1 := disk;
      for i := 0 to |caseIds|
        invariant budget >= old(budget) - 2 * i
        invariant disk == d1.(folders := d1.folders - KeysOf(tenant, caseIds[..i]))
      {
        var key := CaseKey(tenant, caseIds[i]);
        assert caseIds[..i + 1] == caseIds[..i] + [caseIds[i]];
        assert key in KeysOf(tenant, caseIds);
        assert KeysOf(tenant, caseIds[..i]) <= KeysOf(tenant, caseIds);
        assert KeysOf(tenant, caseIds[..i + 1]) == KeysOf(tenant, caseIds[..i]) + {key};
        if key in disk.folders {
          var thinned := Alive();
          if !thinned { return false; }
          disk := disk.(folders := disk.folders[key := remains]);
          var removed := Alive();
          if !removed { return false; }
          disk := disk.(folders := disk.folders - {key});
        }
        assert d1.folders - KeysOf(tenant, caseIds[..i]) - {key} == d1.folders - KeysOf(tenant, caseIds[..i + 1]);
      }
      assert caseIds[..|caseIds|] == caseIds;
      return true;
    }

    /** Archive full batches until fewer than `batchSize` cases are left over. `dates` names an
        archive after the cases in it. `events` and `trail` tell what happened to the disk. */
    method CheckAndArchive(tenant: string, dates: seq<string> -> string, remains: Folder)
      returns (crashed: bool, created: seq<Record>,
              ghost pending: seq<string>, ghost leftover: seq<string>, ghost events: seq<Event>, ghost trail: seq<Disk>)
      requires batchSize >= 1
      modifies this
      ensures IsPendingList(old(disk), tenant, pending)
      ensures CaseIdsOf(created) + leftover == pending
      ensures OldestFirst(old(disk), tenant, CaseIdsOf(created), leftover)
      ensures forall r <- created :: r.tenant == tenant && |r.caseIds| == batchSize
      ensures IsRun(trail, events) && trail[0] == old(disk) && trail[|events|] == disk
      ensures !crashed ==> |leftover| < batchSize && CrashFree(trail, events)
      ensures !crashed ==> disk.records == old(disk).records + created
      ensures crashed ==> budget == 0 && old(budget) < 7 * |pending|
    {
      var unarchived := GetUnarchivedCaseIds(tenant);
      crashed, created, pending, leftover, events, trail := false, [], unarchived, unarchived, [], [disk];
      while |unarchived| >= batchSize
        invariant !crashed && leftover == unarchived && |unarchived| <= |pending|
        invariant budget >= old(budget) - 7 * (|pending| - |unarchived|)
        invariant BatchesDone(old(disk), tenant, batchSize, pending, created, unarchived, events, trail, disk)
      {
        var batch := unarchived[..batchSize];
        ghost var before, rest := disk, unarchived[batchSize..];
        assert unarchived == batch + rest;
        unarchived := unarchived[batchSize..];
        var record;
        crashed, record := CreateArchiveBundle(tenant, batch, 0, dates(batch), remains);
        BatchDone(old(disk), tenant, batchSize, pending, created, batch, rest, events, trail, before, dates(batch),
                      crashed, record, disk);
        trail, events := trail + [disk], events + [Bundle(tenant, batch, dates(batch))];
        if crashed {
          SplitIsOldestFirst(old(disk), tenant, CaseIdsOf(created), leftover);
          return;
        }
        leftover, created := unarchived, created + [record.value];
      }
      SplitIsOldestFirst(old(disk), tenant, CaseIdsOf(created), leftover);
    }

    /** Archive whatever is pending. */
    method ForceArchive(tenant: string, dates: seq<string> -> string, remains: Folder)
      returns (crashed: bool, record: Option<Record>, ghost pending: seq<string>)
      modifies this
      ensures IsPendingList(old(disk), tenant, pending)
      ensures pending == [] ==> !crashed && record == None && disk == old(disk)
      ensures pending != [] ==>
        Bundled(old(disk), tenant, pending, DefaultName(old(disk), tenant, dates(pending)), crashed, record, disk)
      ensures pending != [] && !crashed ==> IsArchived(old(disk), tenant, pending, 0, dates(pending), disk)
      ensures crashed ==> budget == 0 && old(budget) < Writes(|pending|)
    {
      var unarchived := GetUnarchivedCaseIds(tenant);
      pending := unarchived;
      if unarchived == [] { return false, None, unarchived; }
      crashed, record := CreateArchiveBundle(tenant, unarchived, 0, dates(unarchived), remains);
    }
  }

  // ---------- Runs interrupted anywhere ----------

  /** Archivers come and go, crash and restart; the disk sees only saves and bundles. */
  datatype Event =
    | SaveCase(tenant: string, caseId: string, files: Files, now: int)
    | Bundle(tenant: string, caseIds: seq<string>, dates: string)

  function DefaultName(d: Disk, tenant: string, dates: string): ArchiveName {
    ArchiveName(tenant, dates, BatchIndex(d, tenant, 0))
  }

  ghost predicate Steps(d: Disk, e: Event, d': Disk) {
    match e
    case SaveCase(tenant, caseId, files, now) => CASE_FILE in files && d' == Saved(d, tenant, caseId, files, now)
    case Bundle(tenant, caseIds, dates) => Reached(d, tenant, caseIds, DefaultName(d, tenant, dates), d')
  }

  /** `trail[i]` is the disk after the first `i` events. */
  ghost predicate IsRun(trail: seq<Disk>, events: seq<Event>) {
    && |trail| == |events| + 1
    && forall i :: 0 <= i < |events| ==> Steps(trail[i], events[i], trail[i + 1])
  }

  const EMPTY := Disk(map[], map[], [], map[])

  /** The files of each case's last save. */
  function LastSaved(events: seq<Event>): map<CaseKey, Files> {
    if events == [] then map[] else
      var e, earlier := events[|events| - 1], LastSaved(events[..|events| - 1]);
      if e.SaveCase? then earlier[CaseKey(e.tenant, e.caseId) := e.files] else earlier
  }

  /** The `i`-th event saves a case, and none of those after it saves the same case again. */
  ghost predicate IsLastSave(events: seq<Event>, i: nat)
    requires i < |events|
  {
    && events[i].SaveCase?
    && forall j :: i < j < |events| && events[j].SaveCase? ==>
        CaseKey(events[j].tenant, events[j].caseId) != CaseKey(events[i].tenant, events[i].caseId)
  }

  lemma {:induction false} LastSaveIsLast(events: seq<Event>, i: nat)
    requires i < |events| && IsLastSave(events, i)
    ensures var e := events[i];
      CaseKey(e.tenant, e.caseId) in LastSaved(events) && LastSaved(events)[CaseKey(e.tenant, e.caseId)] == e.files
  {
    var n := |events| - 1;
    if i < n {
      assert events[..n][i] == events[i];
      LastSaveIsLast(events[..n], i);
    }
  }

  /** Whatever is saved and bundled, and wherever each bundle is interrupted, every case is still, as it was
      last saved, in its folder or in a recorded zip. */
  lemma NoRunLosesACase(trail: seq<Disk>, events: seq<Event>, i: nat)
    requires IsRun(trail, events) && trail[0] == EMPTY && i < |events| && IsLastSave(events, i)
    ensures
      var d, e := trail[|events|], events[i];
      var key := CaseKey(e.tenant, e.caseId);
      || (key in d.folders && Includes(d.folders[key].files, e.files))
      || exists r <- d.records ::
          && r.tenant == e.tenant && r.name in d.zips && e.caseId in d.zips[r.name]
          && Includes(d.zips[r.name][e.caseId], e.files)
  {
    var d, e := trail[|events|], events[i];
    var key := CaseKey(e.tenant, e.caseId);
    NothingIsLost(trail, events, |events|);
    LastSaveIsLast(events, i);
    assert events[..|events|] == events;
    if exists r <- d.records :: Holds(d, r, key, e.files) {
      var r :| r in d.records && Holds(d, r, key, e.files);
    }
  }

  lemma {:induction false} NothingIsLost(trail: seq<Disk>, events: seq<Event>, k: nat)
    requires IsRun(trail, events) && trail[0] == EMPTY && k <= |events|
    ensures NothingLost(trail[k], LastSaved(events[..k])) && NumbersBounded(trail[k])
  {
    if k > 0 {
      NothingIsLost(trail, events, k - 1);
      var d, e, d', saved := trail[k - 1], events[k - 1], trail[k], LastSaved(events[..k - 1]);
      assert Steps(trail[k - 1], events[k - 1], trail[k - 1 + 1]);
      assert events[..k][..k - 1] == events[..k - 1];
      if e.Bundle? {
        var name := DefaultName(d, e.tenant, e.dates);
        DefaultNameIsUnrecorded(d, e.tenant, e.dates);
        BundleLosesNothing(d, e.tenant, e.caseIds, name, d', saved);
        BundleKeepsNumbers(d, e.tenant, e.caseIds, name, d');
      } else {
        SaveLosesNothing(d, e, saved);
      }
    }
  }

  lemma SaveLosesNothing(d: Disk, e: Event, saved: map<CaseKey, Files>)
    requires e.SaveCase? && NothingLost(d, saved)
    ensures NothingLost(Saved(d, e.tenant, e.caseId, e.files, e.now), saved[CaseKey(e.tenant, e.caseId) := e.files])
  {
    var d', at := Saved(d, e.tenant, e.caseId, e.files, e.now), CaseKey(e.tenant, e.caseId);
    forall key | key in saved && key != at ensures Kept(d', key, saved[key]) {
      if exists r <- d.records :: Holds(d, r, key, saved[key]) {
        var r :| r in d.records && Holds(d, r, key, saved[key]);
        assert Holds(d', r, key, saved[key]);
      }
    }
  }

  /** A recorded archive stays recorded, and its zip is never written again. */
  lemma {:induction false} ArchivesAreImmutable(trail: seq<Disk>, events: seq<Event>, i: nat, j: nat, r: Record)
    requires IsRun(trail, events) && trail[0] == EMPTY && i <= j <= |events| && r in trail[i].records
    ensures r in trail[j].records && r.name in trail[j].zips
    ensures r.name in trail[i].zips && trail[j].zips[r.name] == trail[i].zips[r.name]
    decreases j
  {
    if j > 0 {
      NothingIsLost(trail, events, j - 1);
      var d, e, d' := trail[j - 1], events[j - 1], trail[j];
      assert Steps(trail[j - 1], events[j - 1], trail[j - 1 + 1]);
      if e.Bundle? { DefaultNameIsUnrecorded(d, e.tenant, e.dates); }
      if i < j {
        ArchivesAreImmutable(trail, events, i, j - 1, r);
      } else if r in d.records {
        ArchivesAreImmutable(trail, events, j - 1, j - 1, r);
      }
    }
  }

  /** No two archives of a run have the same name. */
  lemma {:induction false} NamesAreUnique(trail: seq<Disk>, events: seq<Event>, k: nat, a: nat, b: nat)
    requires IsRun(trail, events) && trail[0] == EMPTY && k <= |events|
    requires a < b < |trail[k].records|
    ensures trail[k].records[a].name != trail[k].records[b].name
  {
    if k > 0 {
      NothingIsLost(trail, events, k - 1);
      var d, e := trail[k - 1], events[k - 1];
      assert Steps(trail[k - 1], events[k - 1], trail[k - 1 + 1]);
      if e.Bundle? { DefaultNameIsUnrecorded(d, e.tenant, e.dates); }
      if b < |d.records| { NamesAreUnique(trail, events, k - 1, a, b); }
    }
  }

  // ---------- Explicit batch numbers ----------

  /** The case is no longer a folder, and every recorded zip that holds it is `name`. */
  ghost predicate OnlyIn(d: Disk, name: ArchiveName, key: CaseKey, files: Files) {
    && key !in d.folders && name.tenant == key.tenant
    && (exists r <- d.records :: r.name == name && Holds(d, r, key, files))
    && forall r <- d.records :: Holds(d, r, key, files) ==> r.name == name
  }

  /** A caller that chooses the batch number can overwrite a recorded zip: an archived case survives
      exactly when the new name is not that of its archive. */
  lemma ArchivedCaseSurvivesIff(d: Disk, tenant: string, caseIds: seq<string>, batchNumber: nat, dates: string,
                                n: ArchiveName, key: CaseKey, files: Files)
    requires OnlyIn(d, n, key, files)
    ensures
      var name := ArchiveName(tenant, dates, BatchIndex(d, tenant, batchNumber));
      Kept(Completed(d, tenant, caseIds, name), key, files) <==> name != n
  {
    var name := ArchiveName(tenant, dates, BatchIndex(d, tenant, batchNumber));
    var d' := Completed(d, tenant, caseIds, name);
    if name != n {
      var r :| r in d.records && r.name == n && Holds(d, r, key, files);
      assert r in d'.records && Holds(d', r, key, files);
    } else {
      forall r | r in d'.records ensures !Holds(d', r, key, files) {
        assert r in d.records || r == Record(tenant, name, caseIds);
      }
    }
  }

  /** The first archive of a case is the only place it is kept. */
  lemma FirstArchiveIsOnly(d: Disk, tenant: string, c: string, name: ArchiveName, files: Files)
    requires d.records == [] && name.tenant == tenant
    requires CaseKey(tenant, c) in d.folders && d.folders[CaseKey(tenant, c)].files == files
    ensures OnlyIn(Completed(d, tenant, [c], name), name, CaseKey(tenant, c), files)
  {
    var d', r, key := Completed(d, tenant, [c], name), Record(tenant, name, [c]), CaseKey(tenant, c);
    assert d'.records == [r];
    assert c in [c] && key in KeysOf(tenant, [c]);
    assert Holds(d', r, key, files);
  }

  /** Two bundles on the same day, both asked to be number 1: the first case is gone. */
  lemma ExplicitNumberLosesACase(d: Disk, tenant: string, a: string, b: string, dates: string)
    requires d.records == [] && CaseKey(tenant, a) in d.folders && a != b
    ensures
      var name, key := ArchiveName(tenant, dates, 1), CaseKey(tenant, a);
      var d1 := Completed(d, tenant, [a], name);
      && Kept(d1, key, d.folders[key].files)
      && !Kept(Completed(d1, tenant, [b], name), key, d.folders[key].files)
  {
    var name, files := ArchiveName(tenant, dates, 1), d.folders[CaseKey(tenant, a)].files;
    FirstArchiveIsOnly(d, tenant, a, name, files);
    ArchivedCaseSurvivesIff(Completed(d, tenant, [a], name), tenant, [b], 1, dates, name, CaseKey(tenant, a), files);
  }

  // ---------- Crash-free runs ----------

  function CaseIdsOf(records: seq<Record>): seq<string> {
    if records == [] then [] else records[0].caseIds + CaseIdsOf(records[1..])
  }

  lemma {:induction false} CaseIdsAppend(records: seq<Record>, r: Record)
    ensures CaseIdsOf(records + [r]) == CaseIdsOf(records) + r.caseIds
  {
    if records != [] {
      assert (records + [r])[1..] == records[1..] + [r];
      CaseIdsAppend(records[1..], r);
    } else {
      assert [r][1..] == [];
    }
  }

  ghost predicate PendingBatch(d: Disk, tenant: string, caseIds: seq<string>) {
    caseIds != [] && NoDuplicates(caseIds) && forall c <- caseIds :: Pending(d, tenant, c)
  }

  /** Every bundle is of pending cases and completes. */
  ghost predicate CrashFree(trail: seq<Disk>, events: seq<Event>) {
    && IsRun(trail, events)
    && forall i :: 0 <= i < |events| && events[i].Bundle? ==> Completes(trail[i], events[i], trail[i + 1])
  }

  ghost predicate Completes(d: Disk, e: Event, d': Disk)
    requires e.Bundle?
  {
    PendingBatch(d, e.tenant, e.caseIds) && d' == Completed(d, e.tenant, e.caseIds, DefaultName(d, e.tenant, e.dates))
  }

  lemma Extend(trail: seq<Disk>, events: seq<Event>, e: Event, d: Disk)
    requires IsRun(trail, events) && Steps(trail[|events|], e, d)
    ensures IsRun(trail + [d], events + [e])
    ensures CrashFree(trail, events) && (e.Bundle? ==> Completes(trail[|events|], e, d)) ==>
      CrashFree(trail + [d], events + [e])
  {
    var trail', events' := trail + [d], events + [e];
    forall i | 0 <= i < |events'| ensures Steps(trail'[i], events'[i], trail'[i + 1]) {
      if i < |events| { assert Steps(trail[i], events[i], trail[i + 1]); }
    }
    if CrashFree(trail, events) && (e.Bundle? ==> Completes(trail[|events|], e, d)) {
      forall i | 0 <= i < |events'| && events'[i].Bundle? ensures Completes(trail'[i], events'[i], trail'[i + 1]) {
        if i < |events| { assert Completes(trail[i], events[i], trail[i + 1]); }
      }
    }
  }

  /** After some batches: what was archived, what is left, and how the disk got there. */
  ghost predicate BatchesDone(d0: Disk, tenant: string, batchSize: int, pending: seq<string>, created: seq<Record>,
                              unarchived: seq<string>, events: seq<Event>, trail: seq<Disk>, d: Disk)
  {
    && CaseIdsOf(created) + unarchived == pending
    && (forall r <- created :: r.tenant == tenant && |r.caseIds| == batchSize)
    && CrashFree(trail, events) && trail[0] == d0 && trail[|events|] == d
    && d.records == d0.records + created
    && NoDuplicates(unarchived) && forall c <- unarchived :: Pending(d, tenant, c)
  }

  lemma BatchDone(d0: Disk, tenant: string, batchSize: int, pending: seq<string>, created: seq<Record>,
                  batch: seq<string>, rest: seq<string>, events: seq<Event>, trail: seq<Disk>, d: Disk, dates: string,
                  crashed: bool, record: Option<Record>, d': Disk)
    requires BatchesDone(d0, tenant, batchSize, pending, created, batch + rest, events, trail, d)
    requires |batch| == batchSize >= 1
    requires Bundled(d, tenant, batch, DefaultName(d, tenant, dates), crashed, record, d')
    ensures IsRun(trail + [d'], events + [Bundle(tenant, batch, dates)])
    ensures !crashed ==> record.Some?
    ensures !crashed ==>
      BatchesDone(d0, tenant, batchSize, pending, created + [record.value], rest,
                  events + [Bundle(tenant, batch, dates)], trail + [d'], d')
  {
    var name := DefaultName(d, tenant, dates);
    Extend(trail, events, Bundle(tenant, batch, dates), d');
    StillPending(d, tenant, batch, rest, name);
    CaseIdsAppend(created, Record(tenant, name, batch));
  }

  lemma StillPending(d: Disk, tenant: string, batch: seq<string>, rest: seq<string>, name: ArchiveName)
    requires NoDuplicates(batch + rest) && forall c <- batch + rest :: Pending(d, tenant, c)
    ensures NoDuplicates(batch) && NoDuplicates(rest)
    ensures forall c <- batch :: Pending(d, tenant, c)
    ensures forall c <- rest :: Pending(Completed(d, tenant, batch, name), tenant, c)
  {
    var all := batch + rest;
    assert forall i :: 0 <= i < |batch| ==> batch[i] == all[i];
    assert forall i :: 0 <= i < |rest| ==> rest[i] == all[|batch| + i];
    forall c | c in rest ensures Pending(Completed(d, tenant, batch, name), tenant, c) {
      assert c in all && c !in batch;
    }
  }

  /** Every archived case carries the mark of some tenant that archived it. */
  ghost predicate Marked(d: Disk) {
    forall r <- d.records, c <- r.caseIds :: c in d.marks && ArchivedFor(d, d.marks[c], c)
  }

  ghost predicate ArchivedFor(d: Disk, tenant: string, c: string) {
    exists r <- d.records :: r.tenant == tenant && c in r.caseIds
  }

  /** Every archived case carries the mark of every tenant that archived it. */
  ghost predicate Owned(d: Disk) {
    forall r <- d.records, c <- r.caseIds :: MarkedFor(d, r.tenant, c)
  }

  /** No case id is archived for two tenants. */
  ghost predicate Unshared(records: seq<Record>) {
    forall r <- records, q <- records, c <- r.caseIds :: c in q.caseIds ==> r.tenant == q.tenant
  }

  /** No tenant has a case in two archives, or twice in one. */
  ghost predicate ArchivedOnce(records: seq<Record>) {
    && (forall r <- records :: NoDuplicates(r.caseIds))
    && forall i, j, c :: 0 <= i < j < |records| && records[i].tenant == records[j].tenant && c in records[i].caseIds ==>
        c !in records[j].caseIds
  }

  /** Marks are kept per case id, not per tenant, so they are exact only while no id is shared. */
  lemma OwnedIffUnshared(d: Disk)
    requires Marked(d)
    ensures Owned(d) <==> Unshared(d.records)
  {
    if Unshared(d.records) {
      forall r, c | r in d.records && c in r.caseIds ensures MarkedFor(d, r.tenant, c) {
        var q :| q in d.records && q.tenant == d.marks[c] && c in q.caseIds;
        assert r.tenant == q.tenant;
      }
    }
    if Owned(d) {
      forall r, q, c | r in d.records && q in d.records && c in r.caseIds && c in q.caseIds
        ensures r.tenant == q.tenant
      {
        assert MarkedFor(d, r.tenant, c) && MarkedFor(d, q.tenant, c);
      }
    }
  }

  lemma BundleKeepsMarked(d: Disk, tenant: string, caseIds: seq<string>, name: ArchiveName)
    requires Marked(d)
    ensures Marked(Completed(d, tenant, caseIds, name))
  {
    var d' := Completed(d, tenant, caseIds, name);
    var added := Record(tenant, name, caseIds);
    assert added in d'.records;
    forall r, c | r in d'.records && c in r.caseIds ensures c in d'.marks && ArchivedFor(d', d'.marks[c], c) {
      if c in caseIds {
        assert d'.marks[c] == tenant && ArchivedFor(d', tenant, c);
      } else {
        assert r in d.records;
        var q :| q in d.records && q.tenant == d.marks[c] && c in q.caseIds;
        assert q in d'.records;
      }
    }
  }

  lemma PendingWasNotArchived(d: Disk, tenant: string, caseIds: seq<string>, r: Record, c: string)
    requires Owned(d) && PendingBatch(d, tenant, caseIds)
    requires r in d.records && r.tenant == tenant && c in r.caseIds
    ensures c !in caseIds
  {
    assert MarkedFor(d, r.tenant, c);
  }

  /** A batch of pending cases was not archived for this tenant before. */
  lemma BundleKeepsArchivedOnce(d: Disk, tenant: string, caseIds: seq<string>, name: ArchiveName)
    requires ArchivedOnce(d.records) && Owned(d) && PendingBatch(d, tenant, caseIds)
    ensures ArchivedOnce(d.records + [Record(tenant, name, caseIds)])
  {
    var n, added := |d.records|, Record(tenant, name, caseIds);
    var records' := d.records + [added];
    forall r | r in records' ensures NoDuplicates(r.caseIds) {
      if r != added { assert r in d.records; }
    }
    forall i, j, c | 0 <= i < j < |records'| && records'[i].tenant == records'[j].tenant && c in records'[i].caseIds
      ensures c !in records'[j].caseIds
    {
      assert records'[i] == d.records[i] && d.records[i] in d.records;
      if j == n {
        PendingWasNotArchived(d, tenant, caseIds, d.records[i], c);
      } else {
        assert records'[j] == d.records[j];
      }
    }
  }

  /** While no case id is archived for two tenants, no tenant's case is archived twice. */
  lemma {:induction false} NoCaseIsArchivedTwice(trail: seq<Disk>, events: seq<Event>, k: nat)
    requires CrashFree(trail, events) && trail[0] == EMPTY && k <= |events|
    ensures Marked(trail[k])
    ensures Unshared(trail[k].records) ==> ArchivedOnce(trail[k].records)
  {
    if k > 0 {
      NoCaseIsArchivedTwice(trail, events, k - 1);
      var d, e, d' := trail[k - 1], events[k - 1], trail[k];
      assert Steps(trail[k - 1], events[k - 1], trail[k - 1 + 1]);
      if e.Bundle? {
        assert Completes(trail[k - 1], events[k - 1], trail[k - 1 + 1]);
        BundleKeepsMarked(d, e.tenant, e.caseIds, DefaultName(d, e.tenant, e.dates));
        if Unshared(d'.records) {
          BundleOfUnshared(d, e, d');
        }
      } else {
        SaveKeepsMarked(d, d');
      }
    }
  }

  lemma SaveKeepsMarked(d: Disk, d': Disk)
    requires Marked(d) && d'.records == d.records && d'.marks == d.marks
    ensures Marked(d')
  {
    forall r, c | r in d'.records && c in r.caseIds ensures c in d'.marks && ArchivedFor(d', d'.marks[c], c) {
      assert ArchivedFor(d, d.marks[c], c);
    }
  }

  lemma BundleOfUnshared(d: Disk, e: Event, d': Disk)
    requires e.Bundle? && Completes(d, e, d') && Marked(d) && Unshared(d'.records)
    requires Unshared(d.records) ==> ArchivedOnce(d.records)
    ensures ArchivedOnce(d'.records)
  {
    assert forall r <- d.records :: r in d'.records;
    OwnedIffUnshared(d);
    BundleKeepsArchivedOnce(d, e.tenant, e.caseIds, DefaultName(d, e.tenant, e.dates));
  }

  // ---------- Which tenants and case ids are safe ----------

  ghost predicate SavesOnly(events: seq<Event>, cases: set<CaseKey>) {
    forall i :: 0 <= i < |events| && events[i].SaveCase? ==> CaseKey(events[i].tenant, events[i].caseId) in cases
  }

  ghost predicate SharesNoId(cases: set<CaseKey>) {
    forall a <- cases, b <- cases :: a.caseId == b.caseId ==> a.tenant == b.tenant
  }

  /** Every crash-free run that saves none but these cases archives each at most once for its tenant. */
  ghost predicate EveryRunArchivesOnce(cases: set<CaseKey>) {
    forall trail: seq<Disk>, events: seq<Event> ::
      CrashFree(trail, events) && trail[0] == EMPTY && SavesOnly(events, cases)
      ==> ArchivedOnce(trail[|events|].records)
  }

  /** Everything on disk and in the records is one of these cases. */
  ghost predicate HasOnly(d: Disk, cases: set<CaseKey>) {
    && d.folders.Keys <= cases
    && forall r <- d.records, c <- r.caseIds :: CaseKey(r.tenant, c) in cases
  }

  lemma {:induction false} OnlySavedAreArchived(trail: seq<Disk>, events: seq<Event>, cases: set<CaseKey>, k: nat)
    requires CrashFree(trail, events) && trail[0] == EMPTY && SavesOnly(events, cases) && k <= |events|
    ensures HasOnly(trail[k], cases)
  {
    if k > 0 {
      OnlySavedAreArchived(trail, events, cases, k - 1);
      var d, e, d' := trail[k - 1], events[k - 1], trail[k];
      assert Steps(trail[k - 1], events[k - 1], trail[k - 1 + 1]);
      if e.Bundle? {
        assert Completes(trail[k - 1], events[k - 1], trail[k - 1 + 1]);
        BundleHasOnly(d, e, d', cases);
      }
    }
  }

  lemma BundleHasOnly(d: Disk, e: Event, d': Disk, cases: set<CaseKey>)
    requires e.Bundle? && Completes(d, e, d') && HasOnly(d, cases)
    ensures HasOnly(d', cases)
  {
    forall r, c | r in d'.records && c in r.caseIds ensures CaseKey(r.tenant, c) in cases {
      if r !in d.records { assert Pending(d, e.tenant, c); }
    }
  }

  lemma UnsharedCasesAreUnsharedRecords(d: Disk, cases: set<CaseKey>)
    requires HasOnly(d, cases) && SharesNoId(cases)
    ensures Unshared(d.records)
  {
    forall r, q, c | r in d.records && q in d.records && c in r.caseIds && c in q.caseIds ensures r.tenant == q.tenant {
      assert CaseKey(r.tenant, c) in cases && CaseKey(q.tenant, c) in cases;
    }
  }

  /** No tenant's case is archived twice, whatever the run, exactly when no two tenants use the same
      case id. */
  lemma ArchivedOnceIff(cases: set<CaseKey>)
    ensures EveryRunArchivesOnce(cases) <==> SharesNoId(cases)
  {
    if SharesNoId(cases) {
      forall trail: seq<Disk>, events: seq<Event>
        | CrashFree(trail, events) && trail[0] == EMPTY && SavesOnly(events, cases)
        ensures ArchivedOnce(trail[|events|].records)
      {
        OnlySavedAreArchived(trail, events, cases, |events|);
        UnsharedCasesAreUnsharedRecords(trail[|events|], cases);
        NoCaseIsArchivedTwice(trail, events, |events|);
      }
    } else {
      var a, b :| a in cases && b in cases && a.caseId == b.caseId && a.tenant != b.tenant;
      var trail, events := SharedIdIsArchivedTwice(a.tenant, b.tenant, a.caseId);
      assert SavesOnly(events, cases) by {
        assert a == CaseKey(a.tenant, a.caseId) && b == CaseKey(b.tenant, a.caseId);
      }
    }
  }

  /** Two tenants with the same case id: the second archive takes the first one's mark, and when the
      first tenant saves its case again it is archived a second time. */
  lemma SharedIdIsArchivedTwice(a: string, b: string, c: string) returns (trail: seq<Disk>, events: seq<Event>)
    requires a != b
    ensures CrashFree(trail, events) && trail[0] == EMPTY && SavesOnly(events, {CaseKey(a, c), CaseKey(b, c)})
    ensures !ArchivedOnce(trail[|events|].records)
  {
    trail, events := SaveThenBundle([EMPTY], [], a, c);
    trail, events := SaveThenBundle(trail, events, b, c);
    trail, events := SaveThenBundle(trail, events, a, c);
    var records := trail[|events|].records;
    assert records[0].tenant == records[2].tenant && c in records[0].caseIds && c in records[2].caseIds;
  }

  lemma SaveThenBundle(trail0: seq<Disk>, events0: seq<Event>, tenant: string, c: string)
    returns (trail: seq<Disk>, events: seq<Event>)
    requires CrashFree(trail0, events0) && trail0[0] == EMPTY && !MarkedFor(trail0[|events0|], tenant, c)
    ensures CrashFree(trail, events) && trail[0] == EMPTY
    ensures events == events0 + [SaveCase(tenant, c, map[CASE_FILE := ""], 0), Bundle(tenant, [c], "")]
    ensures var d0, d := trail0[|events0|], trail[|events|];
      && d.marks == d0.marks[c := tenant]
      && |d.records| == |d0.records| + 1 && d0.records <= d.records
      && d.records[|d0.records|].tenant == tenant && d.records[|d0.records|].caseIds == [c]
  {
    var d0 := trail0[|events0|];
    var save, bundle := SaveCase(tenant, c, map[CASE_FILE := ""], 0), Bundle(tenant, [c], "");
    var d1 := Saved(d0, tenant, c, save.files, 0);
    Extend(trail0, events0, save, d1);
    var d2 := BundleOne(d1, tenant, c);
    Extend(trail0 + [d1], events0 + [save], bundle, d2);
    trail, events := trail0 + [d1] + [d2], events0 + [save] + [bundle];
  }

  lemma BundleOne(d: Disk, tenant: string, c: string) returns (d': Disk)
    requires Pending(d, tenant, c)
    ensures Steps(d, Bundle(tenant, [c], ""), d') && Completes(d, Bundle(tenant, [c], ""), d')
    ensures d'.marks == d.marks[c := tenant]
      && d'.records == d.records + [Record(tenant, DefaultName(d, tenant, ""), [c])]
  {
    var name := DefaultName(d, tenant, "");
    d' := Completed(d, tenant, [c], name);
    CompletedIsReached(d, tenant, [c], name);
    OneMark(d.marks, tenant, c);
  }

  lemma OneMark(marks: map<string, string>, tenant: string, c: string)
    ensures marks + MarksOf(tenant, [c]) == marks[c := tenant]
  {
    assert MarksOf(tenant, [c]) == map[c := tenant] by { assert c in [c]; }
  }

  lemma CompletedIsReached(d: Disk, tenant: string, caseIds: seq<string>, name: ArchiveName)
    ensures Reached(d, tenant, caseIds, name, Completed(d, tenant, caseIds, name))
  {
    var d' := Completed(d, tenant, caseIds, name);
    assert |d'.records| == |d.records| + 1;
  }
}
