/** Which rows the folder cache keeps and in what order, stated on the rows' own dates (src/cache.rs). */
module NewestRows {
  import opened Numbers
  import opened Results
  import opened Text
  import opened Sorting
  import opened Mail
  import opened FolderStore
  import opened FolderCacheRefinement
  import opened FolderCacheRetention

  /** A dated row comes before an undated or older one; of rows of one date the larger id comes first. */
  predicate Outranks(k: MessageSummary, d: MessageSummary) {
    && (d.receivedAt.Some? ==> k.receivedAt.Some? && k.receivedAt.value >= d.receivedAt.value)
    && (k.receivedAt == d.receivedAt ==> AtMost(d.id.text, k.id.text))
  }

  /** `kept` lists the `n` newest rows of `pool`, or all of them, newest first. */
  ghost predicate AreNewest(kept: Rows, pool: Rows, n: nat) {
    && |kept| == Least(n, |pool|) && multiset(kept) <= multiset(pool)
    && (forall i, j | 0 <= i < j < |kept| :: Outranks(kept[i], kept[j]))
    && forall k, d | k in kept && d in multiset(pool) - multiset(kept) :: Outranks(k, d)
  }

  /** The rows of one folder, as they come. */
  function OfFolder(rows: Rows, folder: FolderId): Rows {
    if rows == [] then []
    else
      OfFolder(rows[..|rows| - 1], folder) + if rows[|rows| - 1].folderId == folder then [rows[|rows| - 1]] else []
  }

  lemma {:induction false} OfFolderFilters(rows: Rows, folder: FolderId)
    ensures Filter(rows, InFolder(folder)) == OfFolder(rows, folder)
  {
    if rows != [] {
      var front, last := rows[..|rows| - 1], rows[|rows| - 1];
      assert rows == front + [last];
      OfFolderFilters(front, folder);
      FilterAppend(front, [last], InFolder(folder));
      assert [last][1..] == [];
    }
  }

  lemma {:induction false} FilterOccurs(rows: Rows, keep: MessageSummary -> bool, row: MessageSummary)
    ensures multiset(Filter(rows, keep))[row] == if keep(row) then multiset(rows)[row] else 0
  {
    if rows != [] {
      FilterOccurs(rows[1..], keep, row);
      assert rows == [rows[0]] + rows[1..];
    }
  }

  lemma FilterSameRows(a: Rows, b: Rows, keep: MessageSummary -> bool)
    requires multiset(a) == multiset(b)
    ensures multiset(Filter(a, keep)) == multiset(Filter(b, keep))
  {
    forall row ensures multiset(Filter(a, keep))[row] == multiset(Filter(b, keep))[row] {
      FilterOccurs(a, keep, row);
      FilterOccurs(b, keep, row);
    }
  }

  lemma SortedOutranks(a: MessageSummary, b: MessageSummary)
    requires NewestFirst()(a, b)
    ensures Outranks(a, b)
  {
  }

  lemma SameSize(a: Rows, b: Rows)
    requires multiset(a) == multiset(b)
    ensures |a| == |b|
  {
    assert |multiset(a)| == |a| && |multiset(b)| == |b|;
  }

  /** The front of the sorted rows is the newest of them. */
  lemma FrontIsNewest(sorted: Rows, pool: Rows, n: nat)
    requires Sorted(sorted, NewestFirst()) && multiset(sorted) == multiset(pool)
    ensures AreNewest(Take(sorted, n), pool, n)
  {
    hide NewestFirst, Outranks;
    var kept := Take(sorted, n);
    var rest := sorted[|kept|..];
    assert sorted == kept + rest;
    SameSize(sorted, pool);
    assert multiset(pool) - multiset(kept) == multiset(rest);
    forall i, j | 0 <= i < j < |kept| ensures Outranks(kept[i], kept[j]) {
      SortedOutranks(sorted[i], sorted[j]);
    }
    forall k, d | k in kept && d in rest ensures Outranks(k, d) {
      FrontOutranks(sorted, |kept|, k, d);
    }
  }

  lemma FrontOutranks(sorted: Rows, n: nat, k: MessageSummary, d: MessageSummary)
    requires n <= |sorted| && Sorted(sorted, NewestFirst()) && k in sorted[..n] && d in sorted[n..]
    ensures Outranks(k, d)
  {
    hide NewestFirst, Outranks;
    var i :| 0 <= i < n && sorted[i] == k;
    var j :| n <= j < |sorted| && sorted[j] == d;
    SortedOutranks(sorted[i], sorted[j]);
  }

  lemma NewestAreNewest(rows: Rows, folder: FolderId, limit: nat)
    ensures AreNewest(Newest(rows, folder, limit), OfFolder(rows, folder), Least(limit, 500))
  {
    hide NewestFirst, Sorted, AreNewest, Outranks;
    var sorted := SortBy(rows, NewestFirst());
    NewestFirstIsOrder();
    SortSorts(rows, NewestFirst());
    SortElements(rows, NewestFirst());
    FilterSorted(sorted, InFolder(folder), NewestFirst());
    FilterSameRows(sorted, rows, InFolder(folder));
    OfFolderFilters(rows, folder);
    FrontIsNewest(Filter(sorted, InFolder(folder)), OfFolder(rows, folder), Bound(limit));
  }

  lemma TrimmedAreNewest(rows: Rows, limit: nat)
    ensures AreNewest(Trimmed(rows, limit), rows, Least(limit, 500))
  {
    hide NewestFirst, Sorted, AreNewest, Outranks;
    NewestFirstIsOrder();
    SortSorts(rows, NewestFirst());
    SortElements(rows, NewestFirst());
    FrontIsNewest(SortBy(rows, NewestFirst()), rows, Bound(limit));
  }

  /** The newest of the newest are the newest. */
  lemma FewerAreNewest(kept: Rows, pool: Rows, n: nat, m: nat)
    requires AreNewest(kept, pool, n)
    ensures AreNewest(Take(kept, m), pool, Least(m, n))
  {
    hide Outranks;
    var fewer := Take(kept, m);
    var rest := kept[|fewer|..];
    assert kept == fewer + rest;
    assert multiset(kept) == multiset(fewer) + multiset(rest);
    forall k, d | k in fewer && d in multiset(pool) - multiset(fewer) ensures Outranks(k, d) {
      if d in rest {
        OrderedOutranks(kept, |fewer|, k, d);
      } else {
        assert k in kept && d in multiset(pool) - multiset(kept);
      }
    }
  }

  lemma OrderedOutranks(kept: Rows, n: nat, k: MessageSummary, d: MessageSummary)
    requires forall i, j | 0 <= i < j < |kept| :: Outranks(kept[i], kept[j])
    requires n <= |kept| && k in kept[..n] && d in kept[n..]
    ensures Outranks(k, d)
  {
    hide Outranks;
    var i :| 0 <= i < n && kept[i] == k;
    var j :| n <= j < |kept| && kept[j] == d;
  }

  function FallbackPlaces(rows: Rows): set<nat> {
    set i: nat | i < |rows| && rows[i].usedFallback
  }

  lemma {:induction false} FallbacksCounted(rows: Rows)
    ensures CountFallbacks(rows) == |FallbackPlaces(rows)|
  {
    if rows != [] {
      var front, last := rows[..|rows| - 1], |rows| - 1;
      FallbacksCounted(front);
      assert FallbackPlaces(rows) == FallbackPlaces(front) + if rows[last].usedFallback then {last} else {};
    }
  }

  /** A snapshot counts its own rows. */
  ghost predicate Counted(snapshot: Snapshot) {
    snapshot.loadedCount == |snapshot.messages| && snapshot.fallbackCount == |FallbackPlaces(snapshot.messages)|
  }

  // ----- the operations -----

  /** What a commit returns, and what it stores unless eight views accessed later crowd it out: the newest
      rows fetched for the folder, newest first, with the fetch's own figures. */
  lemma CommitKeepsNewest(s: Store, e: Event)
    requires Commits(s, e)
    ensures var pool, n := OfFolder(e.incoming.messages, e.folderId), Least(e.limit, 500);
            var served := ReplaceResult(s, e.account, e.folderId, e.incoming, e.limit, e.at).value;
            && AreNewest(served.messages, pool, n) && Counted(served)
            && served == e.incoming.(messages := served.messages, requestedLimit := e.limit,
                                     loadedCount := served.loadedCount, fallbackCount := served.fallbackCount)
            && forall view <- Step(s, e).index.mailbox.views | view.folderId == e.folderId ::
                 && AreNewest(view.messages, pool, n) && view.lastAccessed == e.at
                 && view.completedAt == e.incoming.completedAt && view.skippedCount == e.incoming.skippedCount
                 && view.requestedLimit == e.limit
  {
    hide ValidStored, Newest, OfFolder, AreNewest, Candidates, SortBy, Take;
    NewestAreNewest(e.incoming.messages, e.folderId, e.limit);
    FallbacksCounted(Newest(e.incoming.messages, e.folderId, e.limit));
    CommittedIndex(s, e);
    CandidateMembers(Before(s, e), e.folderId, e.incoming, e.limit, e.at);
  }

  /** The rows shown after such a commit, whatever else happened before. */
  lemma NewestAreServed(before: seq<Event>, commit: Event, reader: string, limit: nat)
    requires Commits(Run(EMPTY_STORE, before), commit) && IsLatest(Run(EMPTY_STORE, before), commit)
    requires ValidLimit(limit) && !IsBlank(reader) && EqualIgnoringCase(commit.account, reader)
    ensures var r := LoadResult(Step(Run(EMPTY_STORE, before), commit), reader, commit.folderId, limit);
            && r.Ok? && r.value.Some? && Counted(r.value.value)
            && AreNewest(r.value.value.messages, OfFolder(commit.incoming.messages, commit.folderId),
                         Least(Least(limit, commit.limit), 500))
            && r.value.value.catalog == commit.incoming.catalog
            && r.value.value.completedAt == commit.incoming.completedAt
            && r.value.value.requestedLimit == commit.limit
            && r.value.value.skippedCount == commit.incoming.skippedCount
  {
    hide ValidStored, Newest, OfFolder, AreNewest, Step, IsLatest, EqualIgnoringCase, Trimmed, ReplaceResult;
    var s := Step(Run(EMPTY_STORE, before), commit);
    CommitIsServed(before, commit, reader, limit);
    NewestAreNewest(commit.incoming.messages, commit.folderId, commit.limit);
    FewerAreNewest(Newest(commit.incoming.messages, commit.folderId, commit.limit),
                   OfFolder(commit.incoming.messages, commit.folderId), Least(commit.limit, 500), Bound(limit));
    LoadServesNewest(s, reader, commit.folderId, limit);
    CommitKeepsNewest(Run(EMPTY_STORE, before), commit);
    CommittedCatalog(Run(EMPTY_STORE, before), commit);
  }

  lemma CommittedCatalog(s: Store, e: Event)
    requires Commits(s, e)
    ensures Step(s, e).index.Holding? && Step(s, e).index.mailbox.catalog == e.incoming.catalog
  {
    hide ValidStored, Newest, SortBy, Candidates;
  }

  /** A hit shows the newest rows of the stored view, newest first, counts them, and gives the view's own
      figures. */
  lemma LoadServesNewest(s: Store, account: string, folder: FolderId, limit: nat)
    ensures var r := LoadResult(s, account, folder, limit);
            r.Ok? && r.value.Some? ==>
              var snapshot := r.value.value;
              && s.index.Holding? && Counted(snapshot) && snapshot.catalog == s.index.mailbox.catalog
              && exists view <- s.index.mailbox.views ::
                   && view.folderId == folder && AreNewest(snapshot.messages, view.messages, Least(limit, 500))
                   && snapshot.completedAt == view.completedAt && snapshot.requestedLimit == view.requestedLimit
                   && snapshot.skippedCount == view.skippedCount
  {
    hide ValidStored, Trimmed, AreNewest, EqualIgnoringCase;
    var r := LoadResult(s, account, folder, limit);
    if r.Ok? && r.value.Some? {
      var view := Findable(s, account, folder).value;
      assert view in s.index.mailbox.views;
      TrimmedAreNewest(view.messages, limit);
      FallbacksCounted(r.value.value.messages);
    }
  }

  /** Pruning leaves every view its newest rows, newest first, and changes nothing else of it but the limit. */
  lemma PruneKeepsNewest(s: Store, limit: nat)
    requires ValidLimit(limit) && Accepted(s.index).Some?
    ensures var now := PruneStore(s, limit);
            && now.index.Holding? && now.marker == s.marker
            && now.index.mailbox == s.index.mailbox.(views := now.index.mailbox.views)
            && |now.index.mailbox.views| == |s.index.mailbox.views|
            && forall v | 0 <= v < |s.index.mailbox.views| ::
                 var was, view := s.index.mailbox.views[v], now.index.mailbox.views[v];
                 && AreNewest(view.messages, was.messages, Least(limit, 500))
                 && view == was.(messages := view.messages, requestedLimit := limit)
  {
    hide ValidStored, Trimmed, AreNewest;
    forall v | 0 <= v < |s.index.mailbox.views|
      ensures AreNewest(Trimmed(s.index.mailbox.views[v].messages, limit), s.index.mailbox.views[v].messages,
                        Least(limit, 500))
    {
      TrimmedAreNewest(s.index.mailbox.views[v].messages, limit);
    }
  }
}
