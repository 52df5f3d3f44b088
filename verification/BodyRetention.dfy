/** How long the body store keeps a body: as long as all the bodies saved fit the budget (src/cache.rs). */
module BodyRetention {
  import opened Numbers
  import opened Results
  import opened Text
  import opened Sorting
  import opened MessageIds
  import opened BodyStore
  import opened BodyStoreGuarantees

  // ----- the reference: nothing is ever dropped -----

  datatype Kept = Kept(body: Body, size: nat)

  /** The body last saved for each message. */
  type Stock = map<MessageId, Kept>

  ghost function Pick(stock: Stock): (id: MessageId)
    requires stock != map[]
    ensures id in stock
  {
    var id :| id in stock;
    id
  }

  ghost function TotalSize(stock: Stock): nat
    decreases |stock|
  {
    if stock == map[] then 0
    else
      var id := Pick(stock);
      assert |(stock - {id}).Keys| < |stock.Keys| by { Fewer(stock, id); }
      stock[id].size + TotalSize(stock - {id})
  }

  lemma Fewer(stock: Stock, id: MessageId)
    requires id in stock
    ensures |stock - {id}| < |stock|
  {
    assert stock.Keys == (stock - {id}).Keys + {id};
  }

  lemma {:induction false} TotalWithout(stock: Stock, id: MessageId)
    requires id in stock
    ensures TotalSize(stock) == stock[id].size + TotalSize(stock - {id})
    decreases |stock|
  {
    var first := Pick(stock);
    if first != id {
      Fewer(stock, first);
      Fewer(stock, id);
      TotalWithout(stock - {first}, id);
      TotalWithout(stock - {id}, first);
      assert stock - {first} - {id} == stock - {id} - {first};
    }
  }

  function StepStock(stock: Stock, e: Event): Stock {
    match e
    case Finished(Save(account, id, body, size, _, _)) =>
      if IsBlank(account) || BodyFileName(id).None? then stock else stock[id := Kept(body, size)]
    case _ => stock
  }

  function RunStock(stock: Stock, events: seq<Event>): Stock {
    if events == [] then stock else StepStock(RunStock(stock, events[..|events| - 1]), events[|events| - 1])
  }

  /** A finished save, load or reconciliation of the account, of a body the reader accepts. */
  predicate Quiet(e: Event, account: string) {
    match e
    case Finished(Save(who, _, _, size, _, _)) => EqualIgnoringCase(who, account) && size <= MAX_CACHE_JSON_BYTES
    case Finished(Load(who, _, _)) => EqualIgnoringCase(who, account)
    case Finished(Reconcile(who, _)) => EqualIgnoringCase(who, account)
    case _ => false
  }

  /** What was saved fits the budget of the event. */
  ghost predicate Fits(stock: Stock, e: Event) {
    match e
    case Finished(Save(_, _, _, _, _, budget)) => TotalSize(stock) <= budget
    case Finished(Reconcile(_, budget)) => TotalSize(stock) <= budget
    case _ => true
  }

  // ----- a disk that holds all that was saved -----

  /** The entry describes a file that a load serves, with the body last saved. */
  predicate Standing(e: Entry, files: map<string, BodyFile>, account: string, stock: Stock) {
    && Describes(e, files, account) && e.id in stock
    && Serves(files[e.fileName], account, e.id)
    && files[e.fileName].body == stock[e.id].body && files[e.fileName].size == stock[e.id].size
  }

  ghost predicate Covers(entries: seq<Entry>, ids: set<MessageId>) {
    forall id <- ids :: exists e <- entries :: e.id == id
  }

  ghost predicate Stocked(d: Disk, account: string, stock: Stock) {
    && !d.marker && DistinctEntryIds(Entries(d)) && Covers(Entries(d), stock.Keys)
    && forall e <- Entries(d) :: Standing(e, d.files, account, stock)
  }

  /** The entries of `before`, in any order and with any access times. */
  ghost predicate Relists(before: seq<Entry>, entries: seq<Entry>) {
    forall e <- entries :: exists x <- before :: e == x.(lastAccessed := e.lastAccessed)
  }

  lemma EmptyStocked(account: string)
    ensures Stocked(EMPTY_DISK, account, map[])
  {
  }

  /** Entries of distinct messages that cover the stock weigh what the stock weighs. */
  lemma {:induction false} EntriesWeigh(entries: seq<Entry>, stock: Stock)
    requires DistinctEntryIds(entries)
    requires Covers(entries, stock.Keys)
    requires forall e <- entries :: e.id in stock && e.bytes == stock[e.id].size
    ensures Bytes(entries) == TotalSize(stock)
  {
    if entries == [] {
      assert stock == map[];
    } else {
      var front, last := entries[..|entries| - 1], entries[|entries| - 1];
      assert last in entries;
      var rest := stock - {last.id};
      forall e <- front ensures e.id in rest && e.bytes == rest[e.id].size {
        var i :| 0 <= i < |front| && front[i] == e;
        assert entries[i] == e && e in entries;
      }
      forall id <- rest.Keys ensures exists e <- front :: e.id == id {
        var e :| e in entries && e.id == id;
        assert e in front;
      }
      EntriesWeigh(front, rest);
      TotalWithout(stock, last.id);
    }
  }

  /** Nothing is dropped when every entry describes its file. */
  lemma {:induction false} KeptAll(files: map<string, BodyFile>, entries: seq<Entry>, account: string,
                                   seen: set<MessageId>)
    requires DistinctEntryIds(entries) && forall e <- entries :: Describes(e, files, account) && e.id !in seen
    ensures KeptEntries(files, entries, account, None, seen) == entries
  {
    hide BodyFileName, EqualIgnoringCase;
    if entries != [] {
      var e, rest := entries[0], entries[1..];
      assert e in entries;
      forall x <- rest ensures Describes(x, files, account) && x.id !in seen + {e.id} {
        var i :| 0 <= i < |rest| && rest[i] == x;
        assert entries[i + 1] == x && x in entries;
      }
      assert forall i | 0 <= i < |rest| :: rest[i] == entries[i + 1];
      KeptAll(files, rest, account, seen + {e.id});
    }
  }

  lemma {:induction false} NothingEvicted(entries: seq<Entry>, total: nat, budget: nat, protected: Option<MessageId>)
    requires total <= budget
    ensures SweepEntries(entries, total, budget, protected) == Sweep(entries, [], total)
  {
    if entries != [] {
      var front := entries[..|entries| - 1];
      NothingEvicted(front, total, budget, protected);
      assert entries == front + [entries[|entries| - 1]];
    }
  }

  /** Another spelling of the account describes the same files. */
  lemma SameDescribes(e: Entry, files: map<string, BodyFile>, account: string, who: string)
    requires EqualIgnoringCase(who, account)
    ensures Describes(e, files, account) <==> Describes(e, files, who)
  {
  }

  lemma StockKept(d: Disk, account: string, who: string, stock: Stock)
    requires Stocked(d, account, stock) && EqualIgnoringCase(who, account)
    ensures KeptEntries(d.files, Entries(d), who, None, {}) == Entries(d)
  {
    hide Describes, EqualIgnoringCase, KeptEntries;
    forall e <- Entries(d) ensures Describes(e, d.files, who) {
      assert Standing(e, d.files, account, stock);
      SameDescribes(e, d.files, account, who);
    }
    KeptAll(d.files, Entries(d), who, {});
  }

  lemma StandsStill(x: Entry, e: Entry, files: map<string, BodyFile>, names: set<string>, account: string, stock: Stock)
    requires Standing(x, files, account, stock) && e == x.(lastAccessed := e.lastAccessed) && x.fileName !in names
    ensures Standing(e, files - names, account, stock)
  {
    hide BodyFileName, EqualIgnoringCase;
  }

  /** Entries listed anew over no fewer files. */
  lemma ListedAnew(d: Disk, account: string, stock: Stock, names: set<string>, entries: seq<Entry>)
    requires Stocked(d, account, stock) && DistinctEntryIds(entries)
    requires Relists(Entries(d), entries) && Covers(entries, stock.Keys)
    requires forall e <- Entries(d) :: e.fileName !in names
    ensures Stocked(Disk(d.files - names, Manifest(MANIFEST_VERSION, entries), d.marker), account, stock)
  {
    hide Standing, DistinctEntryIds, Covers;
    forall e <- entries ensures Standing(e, d.files - names, account, stock) {
      var x :| x in Entries(d) && e == x.(lastAccessed := e.lastAccessed);
      StandsStill(x, e, d.files, names, account, stock);
    }
  }

  /** The sweep of files without an entry spares every stocked body. */
  lemma SparedBySweep(d: Disk, account: string, stock: Stock)
    requires Stocked(d, account, stock)
    ensures forall e <- Entries(d) :: e.fileName !in Orphans(d.files, Names(Entries(d)))
  {
    hide BodyFileName, EqualIgnoringCase, EndsWith, Contains;
    forall e <- Entries(d) ensures e.fileName !in Orphans(d.files, Names(Entries(d))) {
      assert Standing(e, d.files, account, stock);
      ShapeOf(e.id);
      assert e.fileName in Names(Entries(d));
    }
  }

  // ----- each operation keeps it -----

  lemma ReconcileKeeps(d: Disk, account: string, stock: Stock, who: string, protected: Option<MessageId>, budget: nat)
    requires Stocked(d, account, stock) && EqualIgnoringCase(who, account) && TotalSize(stock) <= budget
    ensures Stocked(PerformAll(d, ReconcileWrites(d, who, None, protected, budget)), account, stock)
  {
    hide Standing, EqualIgnoringCase, KeptEntries, Orphans, Names, PerformAll, ReconcileWrites, LeastRecentFirst, Bytes;
    var entries := Entries(d);
    var sorted := SortBy(entries, LeastRecentFirst());
    StockKept(d, account, who, stock);
    SortElements(entries, LeastRecentFirst());
    SortKeepsMembers(entries, LeastRecentFirst());
    DistinctByMultiset(entries, sorted, multiset{});
    StockWeighs(d, account, stock, sorted);
    TotalSaturates(sorted);
    NothingEvicted(sorted, TotalFrom(0, sorted), budget, protected);
    ReconciledDisk(d, who, None, protected, budget);
    SparedBySweep(d, account, stock);
    Reordered(entries, sorted, stock.Keys);
    NoNames(d.files, Orphans(d.files, Names(entries)));
    ListedAnew(d, account, stock, Orphans(d.files, Names(entries)), sorted);
  }

  lemma NoNames(files: map<string, BodyFile>, names: set<string>)
    ensures Names([]) == {} && files - names - {} == files - names
  {
  }

  lemma Reordered(before: seq<Entry>, entries: seq<Entry>, ids: set<MessageId>)
    requires forall e :: e in entries <==> e in before
    ensures Covers(before, ids) ==> Covers(entries, ids)
    ensures Relists(before, entries)
  {
    forall e <- entries ensures exists x <- before :: e == x.(lastAccessed := e.lastAccessed) {
      assert e in before && e == e.(lastAccessed := e.lastAccessed);
    }
  }

  lemma StockWeighs(d: Disk, account: string, stock: Stock, entries: seq<Entry>)
    requires Stocked(d, account, stock) && DistinctEntryIds(entries)
    requires forall e :: e in entries <==> e in Entries(d)
    ensures Bytes(entries) == TotalSize(stock)
  {
    hide Bytes, TotalSize, BodyFileName, EqualIgnoringCase;
    forall e <- entries ensures e.id in stock && e.bytes == stock[e.id].size {
      assert Standing(e, d.files, account, stock);
    }
    Reordered(Entries(d), entries, stock.Keys);
    EntriesWeigh(entries, stock);
  }

  lemma {:induction false} FilterDistinct(entries: seq<Entry>, keep: Entry -> bool)
    requires DistinctEntryIds(entries)
    ensures DistinctEntryIds(Filter(entries, keep))
  {
    if entries != [] {
      var rest := entries[1..];
      assert forall i | 0 <= i < |rest| :: rest[i] == entries[i + 1];
      FilterDistinct(rest, keep);
      FilterMembers(rest, keep);
      forall e <- Filter(rest, keep) ensures e.id != entries[0].id {
        var i :| 0 <= i < |rest| && rest[i] == e;
        assert entries[i + 1] == e;
      }
    }
  }

  lemma DistinctSnoc(entries: seq<Entry>, e: Entry)
    requires DistinctEntryIds(entries) && forall x <- entries :: x.id != e.id
    ensures DistinctEntryIds(entries + [e])
  {
  }

  lemma OthersFile(e: Entry, files: map<string, BodyFile>, account: string, stock: Stock, id: MessageId, kept: Kept,
                   name: string, file: BodyFile)
    requires Standing(e, files, account, stock) && e.id != id && BodyFileName(id) == Some(name)
    ensures Standing(e, files[name := file], account, stock[id := kept])
  {
    hide BodyFileName, EqualIgnoringCase;
    if e.fileName == name { BodyFileNameInjective(e.id, id); }
  }

  lemma StocksOne(d: Disk, account: string, stock: Stock, who: string, id: MessageId, body: Body, size: nat, at: nat)
    requires Stocked(d, account, stock) && EqualIgnoringCase(who, account)
    requires BodyFileName(id).Some? && size <= MAX_CACHE_JSON_BYTES
    ensures Stocked(Listed(d, who, id, body, size, at), account, stock[id := Kept(body, size)])
  {
    hide BodyFileName, Filter;
    var name := BodyFileName(id).value;
    var file := Record(BODY_VERSION, who, id, body, size);
    var others, mine := Filter(Entries(d), OtherThan(who, id)), Entry(who, id, name, size, at);
    var now := Listed(d, who, id, body, size, at);
    assert now.files == d.files[name := file] && Entries(now) == others + [mine];
    FilterMembers(Entries(d), OtherThan(who, id));
    FilterDistinct(Entries(d), OtherThan(who, id));
    forall e <- others ensures e.id != id && Standing(e, now.files, account, stock[id := Kept(body, size)]) {
      assert Standing(e, d.files, account, stock) && OtherThan(who, id)(e);
      OthersFile(e, d.files, account, stock, id, Kept(body, size), name, file);
    }
    DistinctSnoc(others, mine);
    var more := stock[id := Kept(body, size)];
    forall other <- more.Keys ensures exists e <- others + [mine] :: e.id == other {
      if other == id {
        assert mine in others + [mine];
      } else {
        var e :| e in Entries(d) && e.id == other;
        assert OtherThan(who, id)(e);
        assert e in others + [mine];
      }
    }
  }

  lemma SaveKeeps(d: Disk, account: string, stock: Stock, who: string, id: MessageId, body: Body, size: nat, at: nat,
                  budget: nat)
    requires Stocked(d, account, stock) && EqualIgnoringCase(who, account) && size <= MAX_CACHE_JSON_BYTES
    requires !IsBlank(who) && BodyFileName(id).Some? && TotalSize(stock[id := Kept(body, size)]) <= budget
    ensures Stocked(PerformAll(d, SaveWrites(d, who, id, body, size, at, budget)), account,
                    stock[id := Kept(body, size)])
  {
    hide BodyFileName, Stocked, EqualIgnoringCase, IsBlank, SaveWrites, ReconcileWrites, PerformAll, Listed;
    SaveIsReconcile(d, who, id, body, size, at, budget);
    StocksOne(d, account, stock, who, id, body, size, at);
    ReconcileKeeps(Listed(d, who, id, body, size, at), account, stock[id := Kept(body, size)], who, Some(id), budget);
  }

  /** The entry a load finds leads to a body it serves. */
  lemma FoundIsServed(d: Disk, account: string, stock: Stock, who: string, id: MessageId)
    requires Stocked(d, account, stock) && EqualIgnoringCase(who, account)
    requires Position(Entries(d), who, id) < |Entries(d)|
    ensures var e := Entries(d)[Position(Entries(d), who, id)];
            && BodyFileName(id) == Some(e.fileName) && e.fileName in d.files
            && e.bytes == d.files[e.fileName].size && Serves(d.files[e.fileName], who, id)
            && e.fileName !in Orphans(d.files, Names(Entries(d)))
  {
    hide BodyFileName, Orphans;
    var e := Entries(d)[Position(Entries(d), who, id)];
    assert e in Entries(d) && Standing(e, d.files, account, stock);
    SparedBySweep(d, account, stock);
  }

  /** A load sweeps the files without an entry and lists the entries, the one it serves with a new access time. */
  lemma LoadLists(d: Disk, account: string, stock: Stock, who: string, id: MessageId, at: nat)
    requires Stocked(d, account, stock) && EqualIgnoringCase(who, account) && !IsBlank(who) && BodyFileName(id).Some?
    ensures var entries := Entries(d);
            var i := Position(entries, who, id);
            LoadWrites(d, who, id, at)
            == [RemoveFiles(Orphans(d.files, Names(entries))),
                PutManifest(if i == |entries| then entries else entries[i := entries[i].(lastAccessed := at)])]
  {
    hide BodyFileName, EqualIgnoringCase, IsBlank, KeptEntries, Orphans, Names, Standing, Serves;
    StockKept(d, account, who, stock);
    if Position(Entries(d), who, id) < |Entries(d)| { FoundIsServed(d, account, stock, who, id); }
    hide Stocked;
  }

  lemma LoadKeeps(d: Disk, account: string, stock: Stock, who: string, id: MessageId, at: nat)
    requires Stocked(d, account, stock) && EqualIgnoringCase(who, account)
    ensures Stocked(PerformAll(d, LoadWrites(d, who, id, at)), account, stock)
  {
    hide EqualIgnoringCase, IsBlank, Orphans, Names, Standing, Serves;
    if IsBlank(who) || BodyFileName(id).None? {
      OneWrite(d, RemoveDirectory);
    } else {
      hide LoadWrites, PerformAll, BodyFileName;
      var entries := Entries(d);
      var i, names := Position(entries, who, id), Orphans(d.files, Names(entries));
      LoadLists(d, account, stock, who, id, at);
      SparedBySweep(d, account, stock);
      if i == |entries| {
        TwoWrites(d, names, entries);
        Reordered(entries, entries, stock.Keys);
        ListedAnew(d, account, stock, names, entries);
      } else {
        var touched := entries[i := entries[i].(lastAccessed := at)];
        TwoWrites(d, names, touched);
        TouchedAlike(entries, i, at);
        TouchedCovers(entries, i, at, stock.Keys);
        ListedAnew(d, account, stock, names, touched);
      }
    }
  }

  lemma TwoWrites(d: Disk, names: set<string>, entries: seq<Entry>)
    ensures PerformAll(d, [RemoveFiles(names), PutManifest(entries)])
         == Disk(d.files - names, Manifest(MANIFEST_VERSION, entries), d.marker)
  {
    PerformAppend(d, [RemoveFiles(names)], [PutManifest(entries)]);
    OneWrite(d, RemoveFiles(names));
    OneWrite(Perform(d, RemoveFiles(names)), PutManifest(entries));
    assert [RemoveFiles(names)] + [PutManifest(entries)] == [RemoveFiles(names), PutManifest(entries)];
  }

  lemma TouchedAlike(entries: seq<Entry>, i: nat, at: nat)
    requires DistinctEntryIds(entries) && i < |entries|
    ensures var touched := entries[i := entries[i].(lastAccessed := at)];
            DistinctEntryIds(touched) && Relists(entries, touched)
  {
    var touched := entries[i := entries[i].(lastAccessed := at)];
    forall e <- touched ensures exists x <- entries :: e == x.(lastAccessed := e.lastAccessed) {
      var k :| 0 <= k < |touched| && touched[k] == e;
      assert entries[k] in entries && e == entries[k].(lastAccessed := e.lastAccessed);
    }
  }

  lemma TouchedCovers(entries: seq<Entry>, i: nat, at: nat, ids: set<MessageId>)
    requires i < |entries| && Covers(entries, ids)
    ensures Covers(entries[i := entries[i].(lastAccessed := at)], ids)
  {
    var touched := entries[i := entries[i].(lastAccessed := at)];
    forall id <- ids ensures exists e <- touched :: e.id == id {
      var x :| x in entries && x.id == id;
      var k :| 0 <= k < |entries| && entries[k] == x;
      assert touched[k] in touched && touched[k].id == x.id;
    }
  }

  lemma StepStocked(d: Disk, account: string, stock: Stock, e: Event)
    requires Stocked(d, account, stock) && Quiet(e, account) && Fits(StepStock(stock, e), e)
    ensures Stocked(Step(d, e), account, StepStock(stock, e))
  {
    hide Stocked, SaveWrites, LoadWrites, ReconcileWrites, PerformAll, TotalSize;
    hide IsBlank, BodyFileName, EqualIgnoringCase;
    match e.op
    case Save(who, id, body, size, at, budget) =>
      if IsBlank(who) || BodyFileName(id).None? {
        NothingWritten(d, who, id, body, size, at, budget);
      } else {
        SaveKeeps(d, account, stock, who, id, body, size, at, budget);
      }
    case Load(who, id, at) => LoadKeeps(d, account, stock, who, id, at);
    case Reconcile(who, budget) => ReconcileKeeps(d, account, stock, who, None, budget);
  }

  lemma NothingWritten(d: Disk, who: string, id: MessageId, body: Body, size: nat, at: nat, budget: nat)
    requires IsBlank(who) || BodyFileName(id).None?
    ensures PerformAll(d, SaveWrites(d, who, id, body, size, at, budget)) == d
  {
  }

  // ----- whole runs -----

  ghost predicate AlwaysFits(account: string, events: seq<Event>) {
    forall i | 0 <= i < |events| :: Quiet(events[i], account) && Fits(RunStock(map[], events[..i + 1]), events[i])
  }

  lemma {:induction false} RunStocked(account: string, events: seq<Event>)
    requires AlwaysFits(account, events)
    ensures Stocked(Run(EMPTY_DISK, events), account, RunStock(map[], events))
  {
    hide Stocked, Quiet, Fits, Step, StepStock;
    if events == [] {
      EmptyStocked(account);
    } else {
      var front, e := events[..|events| - 1], events[|events| - 1];
      forall i | 0 <= i < |front| ensures Quiet(front[i], account) && Fits(RunStock(map[], front[..i + 1]), front[i]) {
        assert front[..i + 1] == events[..i + 1];
      }
      RunStocked(account, front);
      assert events[..|events| - 1 + 1] == events;
      StepStocked(Run(EMPTY_DISK, front), account, RunStock(map[], front), e);
    }
  }

  /** While the bodies one account saved, the last of each message, fit the budget together, every one of them
      is a hit: through any number of saves, loads and reconciliations, in any order. */
  lemma SavedStaysServed(account: string, events: seq<Event>, reader: string, id: MessageId)
    requires AlwaysFits(account, events) && id in RunStock(map[], events)
    requires EqualIgnoringCase(reader, account) && !IsBlank(reader)
    ensures LoadResult(Run(EMPTY_DISK, events), reader, id) == Ok(Some(RunStock(map[], events)[id].body))
  {
    hide Run, RunStock, AlwaysFits, IsBlank, LoadResult;
    RunStocked(account, events);
    StockServed(Run(EMPTY_DISK, events), account, RunStock(map[], events), reader, id);
  }

  lemma StockServed(d: Disk, account: string, stock: Stock, reader: string, id: MessageId)
    requires Stocked(d, account, stock) && id in stock && EqualIgnoringCase(reader, account) && !IsBlank(reader)
    ensures LoadResult(d, reader, id) == Ok(Some(stock[id].body))
  {
    hide IsBlank, LoadResult, BodyFileName;
    var e :| e in Entries(d) && e.id == id;
    assert Standing(e, d.files, account, stock);
    LoadHits(d, reader, e);
  }
}
