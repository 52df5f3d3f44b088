/** The byte-budgeted store of message bodies (src/cache.rs).

    Every operation is a row of disk writes. `...Writes` says which, in order; a crash leaves any
    prefix of them, and of an unfinished sweep any part. */
module BodyStore {
  import opened Numbers
  import opened Results
  import opened Text
  import opened Sorting
  import opened MessageIds

  const BODY_VERSION: nat := 5
  const MANIFEST_VERSION: nat := 3
  const MAX_CACHE_JSON_BYTES: nat := 128 * 1024 * 1024
  const MANIFEST_NAME := "manifest.json"

  type Body = string

  datatype BodyFile =
    | Record(version: nat, account: string, id: MessageId, body: Body, size: nat)
    | Garbage(size: nat)

  datatype Entry = Entry(account: string, id: MessageId, fileName: string, bytes: nat, lastAccessed: nat)

  datatype ManifestFile = NoManifest | BadManifest | Manifest(version: nat, entries: seq<Entry>)

  /** The bodies directory and the account-cleanup marker. */
  datatype Disk = Disk(files: map<string, BodyFile>, manifest: ManifestFile, marker: bool)

  datatype Write =
    | PutFile(name: string, file: BodyFile)
    | RemoveFiles(names: set<string>)
    | RemoveDirectory
    | PutManifest(entries: seq<Entry>)
    | SetMarker(present: bool)

  function Perform(d: Disk, w: Write): Disk {
    match w
    case PutFile(name, file) => d.(files := d.files[name := file])
    case RemoveFiles(names) => d.(files := d.files - names)
    case RemoveDirectory => d.(files := map[], manifest := NoManifest)
    case PutManifest(entries) => d.(manifest := Manifest(MANIFEST_VERSION, entries))
    case SetMarker(present) => d.(marker := present)
  }

  function PerformAll(d: Disk, ws: seq<Write>): Disk {
    if ws == [] then d else Perform(PerformAll(d, ws[..|ws| - 1]), ws[|ws| - 1])
  }

  /** What a crash inside a write can leave: a single write is atomic, of a sweep any `part` is done. */
  function PerformPart(d: Disk, w: Write, part: set<string>): Disk {
    match w
    case RemoveFiles(names) => d.(files := d.files - (names * part))
    case RemoveDirectory =>
      d.(files := d.files - part, manifest := if MANIFEST_NAME in part then NoManifest else d.manifest)
    case _ => d
  }

  datatype StoreError = EmptyAccount | InvalidId

  predicate ReadableRecord(f: BodyFile) {
    f.Record? && f.size <= MAX_CACHE_JSON_BYTES
  }

  function Entries(d: Disk): seq<Entry> {
    if d.manifest.Manifest? && d.manifest.version == MANIFEST_VERSION then d.manifest.entries else []
  }

  // ----- reconciling the manifest with the directory -----

  predicate Acceptable(e: Entry, account: string, retained: Option<set<MessageId>>) {
    && EqualIgnoringCase(e.account, account)
    && BodyFileName(e.id) == Some(e.fileName)
    && (retained.None? || e.id in retained.value)
  }

  /** The entries kept, their sizes read afresh. */
  function KeptEntries(files: map<string, BodyFile>, entries: seq<Entry>, account: string,
                       retained: Option<set<MessageId>>, seen: set<MessageId>): seq<Entry>
  {
    if entries == [] then []
    else
      var e := entries[0];
      if !Acceptable(e, account, retained) || e.id in seen then
        KeptEntries(files, entries[1..], account, retained, seen)
      else if e.fileName in files then
        [e.(bytes := files[e.fileName].size)] + KeptEntries(files, entries[1..], account, retained, seen + {e.id})
      else
        KeptEntries(files, entries[1..], account, retained, seen + {e.id})
  }

  function Names(entries: seq<Entry>): set<string> {
    set e <- entries :: e.fileName
  }

  predicate IsOrphan(name: string, known: set<string>) {
    name != MANIFEST_NAME && (Contains(name, ".tmp-") || (name !in known && EndsWith(name, ".json")))
  }

  function Orphans(files: map<string, BodyFile>, known: set<string>): set<string> {
    set name <- files.Keys | IsOrphan(name, known)
  }

  // ----- eviction -----

  predicate AccessedNoLater(l: Entry, r: Entry) {
    l.lastAccessed < r.lastAccessed || (l.lastAccessed == r.lastAccessed && AtMost(l.fileName, r.fileName))
  }

  function LeastRecentFirst(): (Entry, Entry) -> bool {
    (l: Entry, r: Entry) => AccessedNoLater(l, r)
  }

  function TotalFrom(sum: nat, entries: seq<Entry>): nat {
    if entries == [] then sum else SaturatingAdd(TotalFrom(sum, entries[..|entries| - 1]), entries[|entries| - 1].bytes)
  }

  datatype Sweep = Sweep(kept: seq<Entry>, evicted: seq<Entry>, total: nat)

  /** One entry of the pass: evicted while the total exceeds the budget, unless protected. */
  function SweepMore(so: Sweep, e: Entry, budget: nat, protected: Option<MessageId>): Sweep {
    if so.total > budget && protected != Some(e.id) then
      Sweep(so.kept, so.evicted + [e], SaturatingSub(so.total, e.bytes))
    else Sweep(so.kept + [e], so.evicted, so.total)
  }

  /** One pass over the entries, least recently used first. */
  function SweepEntries(entries: seq<Entry>, total: nat, budget: nat, protected: Option<MessageId>): Sweep {
    if entries == [] then Sweep([], [], total)
    else SweepMore(SweepEntries(entries[..|entries| - 1], total, budget, protected), entries[|entries| - 1], budget,
                   protected)
  }

  function Removals(evicted: seq<Entry>): seq<Write> {
    if evicted == [] then [] else Removals(evicted[..|evicted| - 1]) + [RemoveFiles({evicted[|evicted| - 1].fileName})]
  }

  function SweepOf(d: Disk, account: string, retained: Option<set<MessageId>>, protected: Option<MessageId>,
                   budget: nat): Sweep
  {
    var sorted := SortBy(KeptEntries(d.files, Entries(d), account, retained, {}), LeastRecentFirst());
    SweepEntries(sorted, TotalFrom(0, sorted), budget, protected)
  }

  function OrphanSweep(d: Disk, account: string, retained: Option<set<MessageId>>): Write {
    RemoveFiles(Orphans(d.files, Names(KeptEntries(d.files, Entries(d), account, retained, {}))))
  }

  function ReconcileWrites(d: Disk, account: string, retained: Option<set<MessageId>>, protected: Option<MessageId>,
                           budget: nat): seq<Write> {
    var sweep := SweepOf(d, account, retained, protected, budget);
    [OrphanSweep(d, account, retained)] + Removals(sweep.evicted) + [PutManifest(sweep.kept)]
  }

  // ----- saving and loading -----

  function OtherThan(account: string, id: MessageId): Entry -> bool {
    (e: Entry) => !(EqualIgnoringCase(e.account, account) && e.id == id)
  }

  function EntriesWith(d: Disk, account: string, id: MessageId, name: string, size: nat, at: nat): seq<Entry> {
    Filter(Entries(d), OtherThan(account, id)) + [Entry(account, id, name, size, at)]
  }

  function SaveWrites(d: Disk, account: string, id: MessageId, body: Body, size: nat, at: nat, budget: nat): seq<Write>
  {
    if IsBlank(account) || BodyFileName(id).None? then []
    else
      var name := BodyFileName(id).value;
      var put := PutFile(name, Record(BODY_VERSION, account, id, body, size));
      var list := PutManifest(EntriesWith(Perform(d, put), account, id, name, size, at));
      [put, list] + ReconcileWrites(Perform(Perform(d, put), list), account, None, Some(id), budget)
  }

  function Position(entries: seq<Entry>, account: string, id: MessageId): (i: nat)
    ensures i <= |entries|
    ensures i < |entries| ==>
              EqualIgnoringCase(entries[i].account, account) && entries[i].id == id
              && BodyFileName(id) == Some(entries[i].fileName)
  {
    if entries == [] then 0
    else if EqualIgnoringCase(entries[0].account, account) && entries[0].id == id
            && BodyFileName(id) == Some(entries[0].fileName) then 0
    else 1 + Position(entries[1..], account, id)
  }

  /** The record a load would serve from a file. */
  predicate Serves(f: BodyFile, account: string, id: MessageId) {
    ReadableRecord(f) && f.version == BODY_VERSION && EqualIgnoringCase(f.account, account) && f.id == id
  }

  function LoadWrites(d: Disk, account: string, id: MessageId, at: nat): seq<Write> {
    if IsBlank(account) || d.marker || BodyFileName(id).None? then []
    else
      var name := BodyFileName(id).value;
      var kept := KeptEntries(d.files, Entries(d), account, None, {});
      var i := Position(kept, account, id);
      var sweep := OrphanSweep(d, account, None);
      if i == |kept| then [sweep, PutManifest(kept)]
      else if name in Perform(d, sweep).files && Serves(d.files[name], account, id) then
        [sweep, PutManifest(kept[i := kept[i].(lastAccessed := at, bytes := d.files[name].size)])]
      else [sweep, RemoveFiles({name}), PutManifest(kept[..i] + kept[i + 1..])]
  }

  function LoadResult(d: Disk, account: string, id: MessageId): Result<Option<Body>, StoreError> {
    if IsBlank(account) then Err(EmptyAccount)
    else if d.marker then Ok(None)
    else if BodyFileName(id).None? then Err(InvalidId)
    else
      var name := BodyFileName(id).value;
      var kept := KeptEntries(d.files, Entries(d), account, None, {});
      if Position(kept, account, id) == |kept| then Ok(None)
      else if name in Perform(d, OrphanSweep(d, account, None)).files && Serves(d.files[name], account, id) then
        Ok(Some(d.files[name].body))
      else Ok(None)
  }

  const CLEAR_WRITES: seq<Write> := [RemoveDirectory, PutManifest([])]
  const CLEANUP_WRITES: seq<Write> := [SetMarker(true), RemoveDirectory, SetMarker(false)]

  lemma {:induction false} PerformAppend(d: Disk, a: seq<Write>, b: seq<Write>)
    ensures PerformAll(d, a + b) == PerformAll(PerformAll(d, a), b)
  {
    if b == [] {
      assert a + b == a;
    } else {
      var front := b[..|b| - 1];
      PerformAppend(d, a, front);
      assert (a + b)[..|a + b| - 1] == a + front;
    }
  }

  /** Writes performed one after the other. */
  lemma Chained(d0: Disk, d1: Disk, d2: Disk, a: seq<Write>, b: seq<Write>,
                j0: seq<Write>, j1: seq<Write>, j2: seq<Write>)
    requires d1 == PerformAll(d0, a) && d2 == PerformAll(d1, b)
    requires j1 == j0 + a && j2 == j1 + b
    ensures d2 == PerformAll(d0, a + b) && j2 == j0 + (a + b)
  {
    PerformAppend(d0, a, b);
  }

  lemma NoRemovals(d: Disk)
    ensures Removals([]) == [] && PerformAll(d, []) == d
  {
  }

  lemma RemovalsSnoc(evicted: seq<Entry>, e: Entry)
    ensures Removals(evicted + [e]) == Removals(evicted) + [RemoveFiles({e.fileName})]
  {
    assert (evicted + [e])[..|evicted|] == evicted;
  }

  // ----- the operations -----

  class BodyCache {
    var files: map<string, BodyFile>
    var manifest: ManifestFile
    var marker: bool
    ghost var journal: seq<Write>  // every write performed, in order

    ghost function View(): Disk
      reads this
    {
      Disk(files, manifest, marker)
    }

    /** The writes `ws` have been performed since the state `before`. */
    twostate predicate Performed(ws: seq<Write>)
      reads this
    {
      View() == PerformAll(old(View()), ws) && journal == old(journal) + ws
    }

    method WriteBody(name: string, file: BodyFile)
      modifies this
      ensures Performed([PutFile(name, file)])
    {
      files := files[name := file];
      journal := journal + [PutFile(name, file)];
      OneWrite(old(View()), PutFile(name, file));
    }

    method RemoveFileIfExists(name: string)
      modifies this
      ensures Performed([RemoveFiles({name})])
    {
      files := files - {name};
      journal := journal + [RemoveFiles({name})];
      OneWrite(old(View()), RemoveFiles({name}));
    }

    method RemoveDirIfExists()
      modifies this
      ensures Performed([RemoveDirectory])
    {
      files := map[];
      manifest := NoManifest;
      journal := journal + [RemoveDirectory];
      OneWrite(old(View()), RemoveDirectory);
    }

    method WriteManifest(entries: seq<Entry>)
      modifies this
      ensures Performed([PutManifest(entries)])
    {
      manifest := Manifest(MANIFEST_VERSION, entries);
      journal := journal + [PutManifest(entries)];
      OneWrite(old(View()), PutManifest(entries));
    }

    method ReadManifest() returns (entries: seq<Entry>)
      ensures entries == Entries(View())
    {
      if manifest.Manifest? && manifest.version == MANIFEST_VERSION {
        return manifest.entries;
      }
      return [];
    }

    /** Drops the entries without a body of their own and the files without an entry. */
    method ReconcileManifestEntries(entries: seq<Entry>, account: string, retained: Option<set<MessageId>>)
      returns (kept: seq<Entry>)
      modifies this
      ensures kept == KeptEntries(old(files), entries, account, retained, {})
      ensures Performed([RemoveFiles(Orphans(old(files), Names(kept)))])
    {
      hide Acceptable, IsOrphan;
      kept := [];
      var seen: set<MessageId> := {};
      ghost var all := KeptEntries(files, entries, account, retained, {});
      for i := 0 to |entries|
        invariant kept + KeptEntries(files, entries[i..], account, retained, seen) == all
      {
        var entry := entries[i];
        assert entries[i..][1..] == entries[i + 1..];
        if Acceptable(entry, account, retained) && entry.id !in seen {
          seen := seen + {entry.id};
          if entry.fileName in files {
            kept := kept + [entry.(bytes := files[entry.fileName].size)];
          }
        }
      }
      assert entries[|entries|..] == [];
      var known := Names(kept);
      var left := files.Keys;
      while left != {}
        invariant left <= old(files).Keys
        invariant files == old(files) - (Orphans(old(files), known) - left)
        invariant manifest == old(manifest) && marker == old(marker) && journal == old(journal)
        decreases left
      {
        var name :| name in left;
        if IsOrphan(name, known) {
          files := files - {name};
        }
        left := left - {name};
      }
      assert Orphans(old(files), known) - {} == Orphans(old(files), known);
      journal := journal + [RemoveFiles(Orphans(old(files), known))];
      OneWrite(old(View()), RemoveFiles(Orphans(old(files), known)));
    }

    static method SumBytes(entries: seq<Entry>) returns (total: nat)
      ensures total == TotalFrom(0, entries)
    {
      total := 0;
      for i := 0 to |entries|
        invariant total == TotalFrom(0, entries[..i])
      {
        assert entries[..i + 1][..i] == entries[..i];
        total := SaturatingAdd(total, entries[i].bytes);
      }
      assert entries[..|entries|] == entries;
    }

    /** Removes the least recently used bodies until the budget is met, sparing the protected one. */
    method EvictOverBudget(entries: seq<Entry>, protected: Option<MessageId>, budget: nat) returns (kept: seq<Entry>)
      modifies this
      ensures var sweep := SweepEntries(entries, TotalFrom(0, entries), budget, protected);
              kept == sweep.kept && Performed(Removals(sweep.evicted))
    {
      NoRemovals(View());
      hide Removals, PerformAll, TotalFrom;
      var total: nat := SumBytes(entries);
      ghost var whole := total;
      kept := [];
      ghost var evicted: seq<Entry> := [];
      for i := 0 to |entries|
        invariant SweepEntries(entries[..i], whole, budget, protected) == Sweep(kept, evicted, total)
        invariant View() == PerformAll(old(View()), Removals(evicted))
        invariant journal == old(journal) + Removals(evicted)
      {
        var entry := entries[i];
        assert entries[..i + 1][..i] == entries[..i];
        if total > budget && protected != Some(entry.id) {
          ghost var before, written := View(), journal;
          RemoveFileIfExists(entry.fileName);
          ghost var removal := [RemoveFiles({entry.fileName})];
          RemovalsSnoc(evicted, entry);
          Chained(old(View()), before, View(), Removals(evicted), removal, old(journal), written, journal);
          evicted := evicted + [entry];
          total := SaturatingSub(total, entry.bytes);
        } else {
          kept := kept + [entry];
        }
      }
      assert entries[..|entries|] == entries;
    }

    method ReconcileBodies(account: string, retained: Option<set<MessageId>>, protected: Option<MessageId>, budget: nat)
      modifies this
      ensures Performed(ReconcileWrites(old(View()), account, retained, protected, budget))
    {
      hide KeptEntries, Orphans, Names, SortBy, Removals, SweepEntries, TotalFrom, PerformAll;
      var entries := ReadManifest();
      entries := ReconcileManifestEntries(entries, account, retained);
      ghost var first := [OrphanSweep(old(View()), account, retained)];
      ghost var d1, j1 := View(), journal;
      entries := SortBy(entries, LeastRecentFirst());
      ghost var second := Removals(SweepEntries(entries, TotalFrom(0, entries), budget, protected).evicted);
      var kept := EvictOverBudget(entries, protected, budget);
      ghost var d2, j2 := View(), journal;
      WriteManifest(kept);
      Chained(old(View()), d1, d2, first, second, old(journal), j1, j2);
      Chained(old(View()), d2, View(), first + second, [PutManifest(kept)], old(journal), j2, journal);
    }

    method SaveBody(account: string, id: MessageId, body: Body, size: nat, accessedAt: nat, budget: nat)
      returns (r: Result<(), StoreError>)
      modifies this
      ensures r == if IsBlank(account) then Err(EmptyAccount)
                   else if BodyFileName(id).None? then Err(InvalidId) else Ok(())
      ensures Performed(SaveWrites(old(View()), account, id, body, size, accessedAt, budget))
    {
      hide ReconcileWrites;
      assert old(journal) + [] == old(journal);
      if IsBlank(account) {
        return Err(EmptyAccount);
      }
      var fileName := BodyFileName(id);
      if fileName.None? {
        return Err(InvalidId);
      }
      ghost var d := View();
      ghost var put := PutFile(fileName.value, Record(BODY_VERSION, account, id, body, size));
      WriteBody(fileName.value, Record(BODY_VERSION, account, id, body, size));
      OneWrite(d, put);
      var entries := ReadManifest();
      entries := Filter(entries, OtherThan(account, id));
      entries := entries + [Entry(account, id, fileName.value, size, accessedAt)];
      WriteManifest(entries);
      ghost var list := PutManifest(entries);
      OneWrite(Perform(d, put), list);
      PerformAppend(d, [put], [list]);
      ReconcileBodies(account, None, Some(id), budget);
      ghost var rest := ReconcileWrites(Perform(Perform(d, put), list), account, None, Some(id), budget);
      PerformAppend(d, [put, list], rest);
      assert [put] + [list] == [put, list];
      assert journal == old(journal) + ([put, list] + rest);
      return Ok(());
    }

    method LoadBody(account: string, id: MessageId, accessedAt: nat) returns (r: Result<Option<Body>, StoreError>)
      modifies this
      ensures r == LoadResult(old(View()), account, id)
      ensures Performed(LoadWrites(old(View()), account, id, accessedAt))
    {
      hide KeptEntries, Orphans, Names, PerformAll;
      OneWrite(View(), RemoveDirectory);
      assert old(journal) + [] == old(journal);
      if IsBlank(account) {
        return Err(EmptyAccount);
      }
      if marker {
        return Ok(None);
      }
      var expected := BodyFileName(id);
      if expected.None? {
        return Err(InvalidId);
      }
      ghost var d := View();
      var entries := ReadManifest();
      entries := ReconcileManifestEntries(entries, account, None);
      ghost var sweep := OrphanSweep(d, account, None);
      OneWrite(d, sweep);
      ghost var d1, j1 := View(), journal;
      var at := Position(entries, account, id);
      if at == |entries| {
        WriteManifest(entries);
        Chained(d, d1, View(), [sweep], [PutManifest(entries)], old(journal), j1, journal);
        assert [sweep] + [PutManifest(entries)] == [sweep, PutManifest(entries)];
        return Ok(None);
      }
      var name := expected.value;
      if name in files && Serves(files[name], account, id) {
        var stored := files[name];
        entries := entries[at := entries[at].(lastAccessed := accessedAt, bytes := stored.size)];
        WriteManifest(entries);
        Chained(d, d1, View(), [sweep], [PutManifest(entries)], old(journal), j1, journal);
        assert [sweep] + [PutManifest(entries)] == [sweep, PutManifest(entries)];
        return Ok(Some(stored.body));
      }
      entries := entries[..at] + entries[at + 1..];
      RemoveFileIfExists(name);
      Chained(d, d1, View(), [sweep], [RemoveFiles({name})], old(journal), j1, journal);
      ghost var d2, j2 := View(), journal;
      WriteManifest(entries);
      Chained(d, d2, View(), [sweep] + [RemoveFiles({name})], [PutManifest(entries)], old(journal), j2, journal);
      assert [sweep] + [RemoveFiles({name})] + [PutManifest(entries)]
             == [sweep, RemoveFiles({name}), PutManifest(entries)];
      return Ok(None);
    }

    method ClearBodies()
      modifies this
      ensures Performed(CLEAR_WRITES)
    {
      RemoveDirIfExists();
      WriteManifest([]);
      PerformAppend(old(View()), [RemoveDirectory], [PutManifest([])]);
      assert [RemoveDirectory] + [PutManifest([])] == CLEAR_WRITES;
    }
  }

  lemma OneWrite(d: Disk, w: Write)
    ensures PerformAll(d, [w]) == Perform(d, w)
    ensures PerformAll(d, []) == d
  {
    assert [w][..0] == [];
  }
}
