/** What each operation of the body store leaves on disk, stated on entries and files themselves (src/cache.rs):
    which bodies are evicted, which files stay, which stamps are set. */
module BodyUpkeep {
  import opened Numbers
  import opened Results
  import opened Text
  import opened Sorting
  import opened MessageIds
  import opened BodyStore
  import opened BodyStoreGuarantees

  // ----- eviction takes the least recently used -----

  predicate UsedBefore(e: Entry, x: Entry) {
    e.lastAccessed < x.lastAccessed || (e.lastAccessed == x.lastAccessed && AtMost(e.fileName, x.fileName))
  }

  /** Of the entries in `before`, those no longer listed were used before every unprotected one that is. */
  ghost predicate OldestGone(before: seq<Entry>, after: seq<Entry>, protected: Option<MessageId>) {
    forall e, x | e in before && e !in after && x in after && protected != Some(x.id) :: UsedBefore(e, x)
  }

  lemma PlacedBefore(queue: seq<Entry>, n: nat, e: Entry, x: Entry)
    requires n <= |queue| && Sorted(queue, LeastRecentFirst())
    requires e in queue[..n] && x in queue && x !in queue[..n]
    ensures UsedBefore(e, x)
  {
    var i :| 0 <= i < n && queue[i] == e;
    var j :| 0 <= j < |queue| && queue[j] == x;
    assert queue[j] in queue[..n] || j >= n;
    assert LeastRecentFirst()(queue[i], queue[j]);
  }

  /** Eviction removes bodies in the order of their last use; only the protected one may be spared out of turn. */
  lemma EvictedAreLeastRecent(d: Disk, account: string, retained: Option<set<MessageId>>, protected: Option<MessageId>,
                              budget: nat)
    ensures var after := PerformAll(d, ReconcileWrites(d, account, retained, protected, budget));
            OldestGone(KeptEntries(d.files, Entries(d), account, retained, {}), Entries(after), protected)
  {
    hide KeptEntries, SweepOf, Names, PerformAll, ReconcileWrites, UsedBefore, LeastRecentFirst, Bytes, Filter;
    var before := KeptEntries(d.files, Entries(d), account, retained, {});
    var entries := SortBy(before, LeastRecentFirst());
    var queue := Filter(entries, Unprotected(protected));
    var sweep := SweepOf(d, account, retained, protected, budget);
    ReconciledDisk(d, account, retained, protected, budget);
    SweptEntries(d, account, retained, protected, budget);
    EvictionIsLeastRecentAndMinimal(d, account, retained, protected, budget);
    SortKeepsMembers(before, LeastRecentFirst());
    FilterSorted(entries, Unprotected(protected), LeastRecentFirst());
    FilterMembers(entries, Unprotected(protected));
    forall e, x | e in before && e !in sweep.kept && x in sweep.kept && protected != Some(x.id)
      ensures UsedBefore(e, x)
    {
      assert e in sweep.evicted && x in before && Unprotected(protected)(x);
      NamedApart(x, sweep.evicted);
      PlacedBefore(queue, |sweep.evicted|, e, x);
    }
  }

  lemma NamedApart(x: Entry, evicted: seq<Entry>)
    ensures x.fileName !in Names(evicted) ==> x !in evicted
  {
  }

  /** A save evicts in the same order, its own body apart. */
  lemma SaveEvictsLeastRecent(d: Disk, account: string, id: MessageId, body: Body, size: nat, at: nat, budget: nat)
    requires !IsBlank(account) && BodyFileName(id).Some?
    ensures var listed := Listed(d, account, id, body, size, at);
            var after := PerformAll(d, SaveWrites(d, account, id, body, size, at, budget));
            OldestGone(KeptEntries(listed.files, Entries(listed), account, None, {}), Entries(after), Some(id))
  {
    hide BodyFileName, IsBlank, KeptEntries, PerformAll, ReconcileWrites, SaveWrites, OldestGone, Listed;
    SaveIsReconcile(d, account, id, body, size, at, budget);
    EvictedAreLeastRecent(Listed(d, account, id, body, size, at), account, None, Some(id), budget);
  }

  // ----- which entries and files stay -----

  /** The manifest names a body of the account that is on disk under the message's own file name. */
  ghost predicate Claims(d: Disk, account: string, retained: Option<set<MessageId>>, id: MessageId) {
    && (retained.Some? ==> id in retained.value)
    && exists e <- Entries(d) ::
         e.id == id && EqualIgnoringCase(e.account, account) && BodyFileName(id) == Some(e.fileName)
         && e.fileName in d.files
  }

  lemma FirstClaim(entries: seq<Entry>, account: string, retained: Option<set<MessageId>>, i: nat) returns (first: nat)
    requires i < |entries| && Acceptable(entries[i], account, retained)
    ensures first <= i && entries[first].id == entries[i].id && Acceptable(entries[first], account, retained)
    ensures forall j | 0 <= j < first && Acceptable(entries[j], account, retained) :: entries[j].id != entries[i].id
  {
    hide Acceptable;
    first := 0;
    while entries[first].id != entries[i].id || !Acceptable(entries[first], account, retained)
      invariant first <= i
      invariant forall j | 0 <= j < first && Acceptable(entries[j], account, retained) :: entries[j].id != entries[i].id
      decreases i - first
    {
      first := first + 1;
    }
  }

  lemma {:induction false} KeptFromEntries(files: map<string, BodyFile>, entries: seq<Entry>, account: string,
                                           retained: Option<set<MessageId>>, seen: set<MessageId>)
    ensures forall e <- KeptEntries(files, entries, account, retained, seen) ::
              exists x <- entries :: Acceptable(x, account, retained) && e == x.(bytes := e.bytes)
  {
    hide Acceptable;
    if entries != [] {
      var e, rest := entries[0], entries[1..];
      KeptFromEntries(files, rest, account, retained, seen);
      KeptFromEntries(files, rest, account, retained, seen + {e.id});
      forall k <- KeptEntries(files, entries, account, retained, seen)
        ensures exists x <- entries :: Acceptable(x, account, retained) && k == x.(bytes := k.bytes)
      {
        if k == e.(bytes := k.bytes) && Acceptable(e, account, retained) {
          assert e in entries;
        } else {
          var x :| x in rest && Acceptable(x, account, retained) && k == x.(bytes := k.bytes);
          assert x in entries;
        }
      }
    }
  }

  lemma AcceptableHere(e: Entry, account: string, retained: Option<set<MessageId>>)
    ensures Acceptable(e, account, retained) <==>
            EqualIgnoringCase(e.account, account) && BodyFileName(e.id) == Some(e.fileName)
            && (retained.Some? ==> e.id in retained.value)
  {
  }

  /** Reconciling keeps exactly the messages so claimed, each with a stamp the manifest had for it. */
  lemma KeptExactly(d: Disk, account: string, retained: Option<set<MessageId>>, id: MessageId)
    ensures var kept := KeptEntries(d.files, Entries(d), account, retained, {});
            && ((exists e <- kept :: e.id == id) <==> Claims(d, account, retained, id))
            && forall e <- kept :: exists x <- Entries(d) :: e == x.(bytes := e.bytes)
  {
    hide BodyFileName, EqualIgnoringCase, KeptEntries, Acceptable;
    var entries := Entries(d);
    var kept := KeptEntries(d.files, entries, account, retained, {});
    KeptFromEntries(d.files, entries, account, retained, {});
    KeptDescribe(d.files, entries, account, retained, {});
    if e :| e in kept && e.id == id {
      var x :| x in entries && Acceptable(x, account, retained) && e == x.(bytes := e.bytes);
      AcceptableHere(x, account, retained);
      assert Describes(e, d.files, account);
    }
    if Claims(d, account, retained, id) {
      var e :| e in entries && e.id == id && EqualIgnoringCase(e.account, account)
               && BodyFileName(id) == Some(e.fileName) && e.fileName in d.files;
      AcceptableHere(e, account, retained);
      var i :| 0 <= i < |entries| && entries[i] == e;
      var first := FirstClaim(entries, account, retained, i);
      AcceptableHere(entries[first], account, retained);
      KeptHolds(d.files, entries, account, retained, {}, first);
    }
  }

  /** After a reconciliation exactly these files are left, each as it was: the manifest, what is neither a body
      nor a temporary, and the bodies still listed. */
  lemma FilesLeft(d: Disk, account: string, retained: Option<set<MessageId>>, protected: Option<MessageId>, budget: nat)
    ensures var after := PerformAll(d, ReconcileWrites(d, account, retained, protected, budget));
            && after.marker == d.marker
            && (forall name | name in after.files :: name in d.files && after.files[name] == d.files[name])
            && forall name | name in d.files ::
                 name in after.files <==>
                 || name == MANIFEST_NAME || (exists e <- Entries(after) :: e.fileName == name)
                 || (!EndsWith(name, ".json") && !Contains(name, ".tmp-"))
  {
    hide BodyFileName, EqualIgnoringCase, KeptEntries, SweepOf, EndsWith, Contains, ReconcileWrites, PerformAll;
    ReconciledDisk(d, account, retained, protected, budget);
    SweptEntries(d, account, retained, protected, budget);
    ManifestMatchesDirectory(d, account, retained, protected, budget);
    var kept := KeptEntries(d.files, Entries(d), account, retained, {});
    var sweep := SweepOf(d, account, retained, protected, budget);
    forall name | name in d.files && !EndsWith(name, ".json") && !Contains(name, ".tmp-")
      ensures name !in Orphans(d.files, Names(kept)) && name !in Names(sweep.evicted)
    {
      forall e <- sweep.evicted ensures e.fileName != name {
        assert Describes(e, d.files, account);
        ShapeOf(e.id);
      }
    }
    forall e <- sweep.evicted ensures e.fileName != MANIFEST_NAME {
      assert Describes(e, d.files, account);
      ShapeOf(e.id);
    }
  }

  /** Without a manifest, or with one of another version, a reconciliation sweeps every body. */
  lemma ForeignManifestSweeps(d: Disk, account: string, retained: Option<set<MessageId>>,
                              protected: Option<MessageId>, budget: nat)
    requires !(d.manifest.Manifest? && d.manifest.version == 3)
    ensures var after := PerformAll(d, ReconcileWrites(d, account, retained, protected, budget));
            && after.manifest == Manifest(3, [])
            && forall name | name in after.files :: name == MANIFEST_NAME || !EndsWith(name, ".json")
  {
    hide PerformAll, EndsWith, Contains;
    ReconciledDisk(d, account, retained, protected, budget);
    FilesLeft(d, account, retained, protected, budget);
  }

  // ----- stamps -----

  /** After a completed save the message's one entry carries the time and the size of the save. */
  lemma SaveStamps(d: Disk, account: string, id: MessageId, body: Body, size: nat, at: nat, budget: nat)
    requires !IsBlank(account) && BodyFileName(id).Some?
    ensures var after := PerformAll(d, SaveWrites(d, account, id, body, size, at, budget));
            && DistinctEntryIds(Entries(after))
            && Entry(account, id, BodyFileName(id).value, size, at) in Entries(after)
  {
    hide BodyFileName, EqualIgnoringCase, KeptEntries, SweepOf, IsBlank, Names, PerformAll, Orphans, SaveWrites;
    SaveIsReconcile(d, account, id, body, size, at, budget);
    var listed := Listed(d, account, id, body, size, at);
    SavedEntryKept(d, account, id, body, size, at);
    ReconciledDisk(listed, account, None, Some(id), budget);
    SavedSurvives(listed, account, budget, Entry(account, id, BodyFileName(id).value, size, at));
    SweptEntries(listed, account, None, Some(id), budget);
  }

  lemma PerformTwo(d: Disk, a: Write, b: Write)
    ensures PerformAll(d, [a, b]) == Perform(Perform(d, a), b)
  {
    OneWrite(d, a);
    OneWrite(Perform(d, a), b);
    PerformAppend(d, [a], [b]);
    assert [a] + [b] == [a, b];
  }

  lemma PerformThree(d: Disk, a: Write, b: Write, c: Write)
    ensures PerformAll(d, [a, b, c]) == Perform(Perform(Perform(d, a), b), c)
  {
    PerformTwo(d, a, b);
    OneWrite(Perform(Perform(d, a), b), c);
    PerformAppend(d, [a, b], [c]);
    assert [a, b] + [c] == [a, b, c];
  }

  /** A hit stamps the entry it serves with the time of the load and leaves every other entry as it was. */
  lemma LoadStamps(d: Disk, account: string, id: MessageId, at: nat)
    requires LoadResult(d, account, id).Ok? && LoadResult(d, account, id).value.Some?
    ensures var was := KeptEntries(d.files, Entries(d), account, None, {});
            var now := Entries(PerformAll(d, LoadWrites(d, account, id, at)));
            && |now| == |was|
            && (exists i | 0 <= i < |now| :: now[i].id == id && now[i].lastAccessed == at)
            && (forall i | 0 <= i < |now| :: now[i].id != id ==> now[i] == was[i])
            && forall i | 0 <= i < |now| :: now[i].id == was[i].id && now[i].fileName == was[i].fileName
  {
    hide EqualIgnoringCase, KeptEntries, Orphans, Names, IsBlank, BodyFileName, PerformAll, Serves;
    var kept := KeptEntries(d.files, Entries(d), account, None, {});
    var i := Position(kept, account, id);
    var name := BodyFileName(id).value;
    var touched := kept[i := kept[i].(lastAccessed := at, bytes := d.files[name].size)];
    PerformTwo(d, OrphanSweep(d, account, None), PutManifest(touched));
    assert touched[i].id == id && touched[i].lastAccessed == at;
  }

  lemma BadRecordWrites(d: Disk, account: string, id: MessageId, at: nat) returns (kept: seq<Entry>, i: nat)
    requires !d.marker && !IsBlank(account) && Claims(d, account, None, id)
    requires LoadResult(d, account, id) == Ok(None)
    ensures DistinctEntryIds(kept) && i < |kept| && kept[i].id == id && BodyFileName(id).Some?
    ensures LoadWrites(d, account, id, at)
         == [OrphanSweep(d, account, None), RemoveFiles({BodyFileName(id).value}),
             PutManifest(kept[..i] + kept[i + 1..])]
  {
    hide EqualIgnoringCase, KeptEntries, OrphanSweep, Names, IsBlank, Serves, BodyFileName, Perform;
    kept := KeptEntries(d.files, Entries(d), account, None, {});
    KeptExactly(d, account, None, id);
    KeptDescribe(d.files, Entries(d), account, None, {});
    var e :| e in kept && e.id == id;
    assert Describes(e, d.files, account);
    PositionFinds(kept, account, id, e);
    i := Position(kept, account, id);
    hide DistinctEntryIds, Claims;
  }

  /** A record that cannot be served, though listed, loses its entry and its file. */
  lemma BadRecordGoes(d: Disk, account: string, id: MessageId, at: nat)
    requires !d.marker && !IsBlank(account) && Claims(d, account, None, id)
    requires LoadResult(d, account, id) == Ok(None)
    ensures BodyFileName(id).Some?
    ensures var after := PerformAll(d, LoadWrites(d, account, id, at));
            BodyFileName(id).value !in after.files && forall e <- Entries(after) :: e.id != id
  {
    hide LoadWrites, LoadResult, DistinctEntryIds, Claims, IsBlank, BodyFileName, OrphanSweep, PerformAll;
    var kept, i := BadRecordWrites(d, account, id, at);
    PerformThree(d, OrphanSweep(d, account, None), RemoveFiles({BodyFileName(id).value}),
                 PutManifest(kept[..i] + kept[i + 1..]));
    OthersRemain(kept, i);
  }

  lemma OthersRemain(entries: seq<Entry>, i: nat)
    requires DistinctEntryIds(entries) && i < |entries|
    ensures forall e <- entries[..i] + entries[i + 1..] :: e.id != entries[i].id
  {
  }

  /** A load is a hit exactly when no cleanup is pending and the manifest claims a body whose file is a readable
      record of the current version, of that account and message; it then serves the record's body. */
  lemma HitExactly(d: Disk, account: string, id: MessageId, body: Body)
    requires !IsBlank(account)
    ensures LoadResult(d, account, id) == Ok(Some(body)) <==>
            && !d.marker && BodyFileName(id).Some? && Claims(d, account, None, id)
            && var file := d.files[BodyFileName(id).value];
               && file.Record? && file.version == 5 && file.size <= 134_217_728
               && Lower(file.account) == Lower(account) && file.id == id && file.body == body
  {
    hide BodyFileName, KeptEntries, Orphans, IsBlank, Lower;
    if !d.marker && BodyFileName(id).Some? {
      var kept := KeptEntries(d.files, Entries(d), account, None, {});
      var name := BodyFileName(id).value;
      KeptExactly(d, account, None, id);
      KeptDescribe(d.files, Entries(d), account, None, {});
      if Claims(d, account, None, id) {
        var e :| e in kept && e.id == id;
        assert Describes(e, d.files, account);
        PositionFinds(kept, account, id, e);
        assert name in Names(kept);
        NotSwept(d.files, kept, id);
      } else if Position(kept, account, id) < |kept| {
        assert kept[Position(kept, account, id)] in kept;
        assert false;
      }
    }
  }

  lemma NotSwept(files: map<string, BodyFile>, kept: seq<Entry>, id: MessageId)
    requires BodyFileName(id).Some? && BodyFileName(id).value in Names(kept)
    ensures BodyFileName(id).value !in Orphans(files, Names(kept))
  {
    hide BodyFileName, EndsWith, Contains;
    ShapeOf(id);
  }

  // ----- gates, errors and clearing -----

  /** While an account cleanup is pending no load serves or changes anything; errors are told by their inputs. */
  lemma LoadGates(d: Disk, account: string, id: MessageId, at: nat)
    ensures d.marker ==> LoadWrites(d, account, id, at) == [] && LoadResult(d, account, id) in
                           [Ok(None), Err(EmptyAccount)]
    ensures LoadResult(d, account, id) == Err(EmptyAccount) <==> IsBlank(account)
    ensures LoadResult(d, account, id) == Err(InvalidId)
       <==> !IsBlank(account) && !d.marker && forall n | 1 <= n <= U64_MAX :: id != Gmail(n)
  {
    hide KeptEntries, Orphans, Names, IsBlank;
    if BodyFileName(id).Some? {
      GmailRoundTrip(id, GmailValue(id).value);
    } else {
      forall n | 1 <= n <= U64_MAX ensures id != Gmail(n) { GmailRoundTrip(id, n); }
    }
  }

  /** Clearing and the account cleanup leave no body and no entry; the cleanup leaves no marker either. */
  lemma ClearedIsEmpty(d: Disk)
    ensures PerformAll(d, CLEAR_WRITES) == d.(files := map[], manifest := Manifest(MANIFEST_VERSION, []))
    ensures PerformAll(d, CLEANUP_WRITES) == Disk(map[], NoManifest, false)
    ensures Entries(PerformAll(d, CLEAR_WRITES)) == [] && Entries(PerformAll(d, CLEANUP_WRITES)) == []
  {
    PerformTwo(d, RemoveDirectory, PutManifest([]));
    PerformThree(d, SetMarker(true), RemoveDirectory, SetMarker(false));
  }
}
