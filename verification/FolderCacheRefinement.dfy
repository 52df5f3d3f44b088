/** What the folder cache promises over whole runs: it agrees with an unbounded map from folders to
    rows, stays valid, evicts the least recently used views, and announces each new message once. */
module FolderCacheRefinement {
  import opened Results
  import opened Text
  import opened Sorting
  import opened MessageIds
  import opened Mail
  import opened FolderStore

  /** The unbounded cache: the rows last put in each folder of the current account, and the ids of
      the last Inbox window committed for it. */
  datatype Truth = Truth(account: string, rows: map<FolderId, Rows>, window: Option<seq<MessageId>>)

  /** One durable operation, or what a crash or a damaged file does to the disk between them. */
  datatype Event =
    | Replace(account: string, folderId: FolderId, incoming: Snapshot, limit: nat, at: nat)
    | Load(loadAccount: string, loadFolder: FolderId, loadLimit: nat, loadAt: nat)
    | Prune(pruneLimit: nat)
    | Persist(persistAccount: string, id: MessageId, change: Change)
    | CleanupInterrupted(indexGone: bool)
    | IndexDamaged(readable: bool)

  function Step(s: Store, e: Event): Store {
    match e
    case Replace(account, folderId, incoming, limit, at) => ReplaceStore(s, account, folderId, incoming, limit, at)
    case Load(account, folderId, limit, at) => LoadStore(s, account, folderId, limit, at)
    case Prune(limit) => PruneStore(s, limit)
    case Persist(account, id, change) => ChangeStore(s, account, id, change)
    case CleanupInterrupted(indexGone) => Store(if indexGone then Absent else s.index, true)
    case IndexDamaged(missing) => s.(index := if missing then Absent else Unreadable)
  }

  predicate Commits(s: Store, e: Event) {
    e.Replace? && ReplaceResult(s, e.account, e.folderId, e.incoming, e.limit, e.at).Ok?
  }

  function StepTruth(s: Store, t: Truth, e: Event): Truth {
    match e
    case Replace(account, folderId, incoming, limit, at) =>
      if !Commits(s, e) then t
      else
        var base := if EqualIgnoringCase(t.account, account) then t else Truth(account, map[], None);
        var rows := Newest(incoming.messages, folderId, limit);
        Truth(base.account, base.rows[folderId := rows], if folderId == Inbox then Some(Ids(rows)) else base.window)
    case Prune(limit) =>
      if ValidLimit(limit) then t.(rows := map f | f in t.rows :: Trimmed(t.rows[f], limit)) else t
    case Persist(account, id, change) =>
      if !IsBlank(account) && EqualIgnoringCase(t.account, account) then
        t.(rows := map f | f in t.rows :: ChangedRows(f, t.rows[f], id, change))
      else t
    case _ => t
  }

  ghost predicate ViewAgrees(view: FolderView, t: Truth) {
    view.folderId in t.rows && view.messages == t.rows[view.folderId]
  }

  ghost predicate RecordAgrees(m: StoredMailbox, t: Truth) {
    && EqualIgnoringCase(m.account, t.account)
    && (forall view <- m.views :: ViewAgrees(view, t))
    && (m.watermark.initialized ==> t.window == Some(m.watermark.observed))
  }

  ghost predicate RowsSorted(t: Truth) {
    forall f | f in t.rows :: Sorted(t.rows[f], NewestFirst())
  }

  /** Every view of an accepted record shows exactly the map's rows. */
  ghost predicate Agrees(s: Store, t: Truth) {
    && (Accepted(s.index).Some? ==> RecordAgrees(s.index.mailbox, t))
    && RowsSorted(t)
  }

  // ----- each operation keeps the agreement -----

  lemma NewestSorted(rows: Rows, folderId: FolderId, limit: nat)
    ensures Sorted(Newest(rows, folderId, limit), NewestFirst())
  {
    NewestFirstIsOrder();
    SortSorts(rows, NewestFirst());
    FilterSorted(SortBy(rows, NewestFirst()), InFolder(folderId), NewestFirst());
  }

  lemma TrimmedSorted(rows: Rows, limit: nat)
    ensures Sorted(Trimmed(rows, limit), NewestFirst())
    ensures Sorted(rows, NewestFirst()) ==> Trimmed(rows, limit) == Take(rows, Bound(limit))
  {
    NewestFirstIsOrder();
    SortSorts(rows, NewestFirst());
    if Sorted(rows, NewestFirst()) { SortedStays(rows, NewestFirst()); }
  }

  lemma CandidateMembers(base: StoredMailbox, folderId: FolderId, incoming: Snapshot, limit: nat, at: nat)
    ensures forall view | view in Take(SortBy(Candidates(base, folderId, incoming, limit, at), RecentFirst()),
                                       MAX_CACHED_FOLDER_VIEWS) ::
              view == FreshView(folderId, incoming, limit, at) || (view in base.views && view.folderId != folderId)
  {
    hide FreshView;
    var all := Candidates(base, folderId, incoming, limit, at);
    SortKeepsMembers(all, RecentFirst());
    TakeMembers(SortBy(all, RecentFirst()), MAX_CACHED_FOLDER_VIEWS);
    FilterMembers(base.views, StillListed(folderId, incoming.catalog));
  }

  lemma ReplaceAgrees(s: Store, t: Truth, e: Event)
    requires Agrees(s, t) && e.Replace?
    ensures Agrees(Step(s, e), StepTruth(s, t, e))
  {
    hide ValidStored, EqualIgnoringCase, Newest, SortBy, Filter, Take;
    var t' := StepTruth(s, t, e);
    if Commits(s, e) {
      NewestSorted(e.incoming.messages, e.folderId, e.limit);
      var base := BaseRecord(Accepted(Resumed(s).index), e.account, e.incoming.catalog);
      CandidateMembers(base, e.folderId, e.incoming, e.limit, e.at);
      var next := Step(s, e).index.mailbox;
      SameCase(base.account, t.account, e.account);
      forall view <- next.views ensures ViewAgrees(view, t') {
        if view in base.views && view.folderId != e.folderId {
          assert ViewAgrees(view, t);
        }
      }
    }
  }

  lemma SameCase(a: string, b: string, c: string)
    ensures EqualIgnoringCase(a, a)
    ensures EqualIgnoringCase(a, b) ==> EqualIgnoringCase(b, a)
    ensures EqualIgnoringCase(a, b) && EqualIgnoringCase(a, c) ==> EqualIgnoringCase(b, c)
    ensures EqualIgnoringCase(b, c) && EqualIgnoringCase(a, c) ==> EqualIgnoringCase(a, b)
    ensures EqualIgnoringCase(a, b) && EqualIgnoringCase(b, c) ==> EqualIgnoringCase(a, c)
  {
  }

  lemma LoadAgrees(s: Store, t: Truth, e: Event)
    requires Agrees(s, t) && e.Load?
    ensures Agrees(Step(s, e), StepTruth(s, t, e))
  {
    hide ValidStored, EqualIgnoringCase;
    if Step(s, e) != s {
      var before, now := s.index.mailbox, Step(s, e).index.mailbox;
      var i := IndexOf(before.views, e.loadFolder);
      forall view <- now.views ensures ViewAgrees(view, t) {
        var j :| 0 <= j < |now.views| && now.views[j] == view;
        assert ViewAgrees(before.views[j], t);
      }
    }
  }

  lemma MappedViews(views: seq<FolderView>, f: FolderView -> FolderView, t: Truth, t': Truth)
    requires forall view <- views :: ViewAgrees(view, t)
    requires forall view | ViewAgrees(view, t) :: ViewAgrees(f(view), t')
    ensures forall view <- MapViews(views, f) :: ViewAgrees(view, t')
  {
    forall view <- MapViews(views, f) ensures ViewAgrees(view, t') {
      var j :| 0 <= j < |views| && MapViews(views, f)[j] == view;
      assert ViewAgrees(views[j], t);
    }
  }

  lemma PruneAgrees(s: Store, t: Truth, e: Event)
    requires Agrees(s, t) && e.Prune?
    ensures Agrees(Step(s, e), StepTruth(s, t, e))
  {
    hide ValidStored, EqualIgnoringCase, Trimmed;
    var t' := StepTruth(s, t, e);
    if ValidLimit(e.pruneLimit) {
      forall f | f in t.rows ensures Sorted(t'.rows[f], NewestFirst()) {
        TrimmedSorted(t.rows[f], e.pruneLimit);
      }
      if Accepted(s.index).Some? {
        MappedViews(s.index.mailbox.views, Pruning(e.pruneLimit), t, t');
      }
    }
  }

  ghost predicate KeepsOrder(f: MessageSummary -> MessageSummary) {
    forall row :: f(row).id == row.id && f(row).receivedAt == row.receivedAt
  }

  lemma MapSorted(rows: Rows, f: MessageSummary -> MessageSummary)
    requires Sorted(rows, NewestFirst()) && KeepsOrder(f)
    ensures Sorted(MapRows(rows, f), NewestFirst())
  {
    var mapped := MapRows(rows, f);
    forall i, j | 0 <= i < j < |mapped| ensures NewestFirst()(mapped[i], mapped[j]) {
      assert NewestFirst()(rows[i], rows[j]);
    }
  }

  lemma RowChangesKeepOrder(id: MessageId, mutation: Mutation, state: ReconciledState)
    ensures KeepsOrder(Flagging(id, mutation)) && KeepsOrder(Applying(id, mutation))
    ensures KeepsOrder(Reconciling(id, state))
  {
    hide WithLabel;
  }

  lemma ChangedSorted(folderId: FolderId, rows: Rows, id: MessageId, change: Change)
    requires Sorted(rows, NewestFirst())
    ensures Sorted(ChangedRows(folderId, rows, id, change), NewestFirst())
  {
    hide MapRows, Filter, Sorted, KeepsOrder;
    match change
    case Confirmed(mutation) =>
      RowChangesKeepOrder(id, mutation, ReconciledState(false, false, false, false, []));
      MapSorted(rows, Flagging(id, mutation));
      var flagged := MapRows(rows, Flagging(id, mutation));
      MapSorted(flagged, Applying(id, mutation));
      FilterSorted(flagged, NotId(id), NewestFirst());
    case Reconciled(state) =>
      if state.Some? {
        RowChangesKeepOrder(id, Archive, state.value);
        MapSorted(rows, Reconciling(id, state.value));
      }
      FilterSorted(rows, NotId(id), NewestFirst());
  }

  lemma PersistAgrees(s: Store, t: Truth, e: Event)
    requires Agrees(s, t) && e.Persist?
    ensures Agrees(Step(s, e), StepTruth(s, t, e))
  {
    hide ValidStored, EqualIgnoringCase, ChangedRows, NewestFirst;
    var t' := StepTruth(s, t, e);
    forall f | f in t'.rows ensures Sorted(t'.rows[f], NewestFirst()) {
      ChangedSorted(f, t.rows[f], e.id, e.change);
    }
    if Accepted(s.index).Some? {
      SameCase(s.index.mailbox.account, t.account, e.persistAccount);
    }
    if !IsBlank(e.persistAccount) && SameAccount(Accepted(s.index), e.persistAccount).Some? {
      MappedViews(s.index.mailbox.views, Changing(e.id, e.change), t, t');
    }
  }

  lemma StepAgrees(s: Store, t: Truth, e: Event)
    requires Agrees(s, t)
    ensures Agrees(Step(s, e), StepTruth(s, t, e))
  {
    match e
    case Replace(_, _, _, _, _) => ReplaceAgrees(s, t, e);
    case Load(_, _, _, _) => LoadAgrees(s, t, e);
    case Prune(_) => PruneAgrees(s, t, e);
    case Persist(_, _, _) => PersistAgrees(s, t, e);
    case CleanupInterrupted(_) =>
    case IndexDamaged(_) =>
  }

  // ----- whole runs -----

  function Run(s: Store, events: seq<Event>): Store {
    if events == [] then s else Step(Run(s, events[..|events| - 1]), events[|events| - 1])
  }

  function RunTruth(s: Store, t: Truth, events: seq<Event>): Truth {
    if events == [] then t
    else
      var front := events[..|events| - 1];
      StepTruth(Run(s, front), RunTruth(s, t, front), events[|events| - 1])
  }

  /** In every run the cache agrees with the unbounded map. */
  lemma {:induction false} RunAgrees(s: Store, t: Truth, events: seq<Event>)
    requires Agrees(s, t)
    ensures Agrees(Run(s, events), RunTruth(s, t, events))
  {
    if events != [] {
      var front := events[..|events| - 1];
      RunAgrees(s, t, front);
      StepAgrees(Run(s, front), RunTruth(s, t, front), events[|events| - 1]);
    }
  }

  const EMPTY_STORE := Store(Absent, false)
  const NOTHING := Truth("", map[], None)

  /** After any run from an empty disk, a load is a miss or the map's newest rows for that folder of
      that account. */
  lemma LoadRefinesMap(events: seq<Event>, account: string, folderId: FolderId, limit: nat)
    ensures var s, t := Run(EMPTY_STORE, events), RunTruth(EMPTY_STORE, NOTHING, events);
            match LoadResult(s, account, folderId, limit)
            case Ok(Some(snapshot)) =>
              && EqualIgnoringCase(t.account, account)
              && folderId in t.rows
              && snapshot.messages == Take(t.rows[folderId], Bound(limit))
            case _ => true
  {
    hide ValidStored, EqualIgnoringCase, Trimmed;
    RunAgrees(EMPTY_STORE, NOTHING, events);
    var s, t := Run(EMPTY_STORE, events), RunTruth(EMPTY_STORE, NOTHING, events);
    var found := Findable(s, account, folderId);
    if found.Some? {
      SameCase(s.index.mailbox.account, t.account, account);
      assert ViewAgrees(found.value, t);
      TrimmedSorted(found.value.messages, limit);
    }
  }

  // ----- what is evicted -----

  /** At most eight views are kept, and every view left out was accessed no later than every view kept. */
  lemma EvictedAreOldest(base: StoredMailbox, folderId: FolderId, incoming: Snapshot, limit: nat, at: nat)
    ensures var all := Candidates(base, folderId, incoming, limit, at);
            var kept := Take(SortBy(all, RecentFirst()), MAX_CACHED_FOLDER_VIEWS);
            && |kept| == (if |all| < MAX_CACHED_FOLDER_VIEWS then |all| else MAX_CACHED_FOLDER_VIEWS)
            && (forall view <- kept :: view in all)
            && forall view, other | view in all && view !in kept && other in kept ::
                 view.lastAccessed <= other.lastAccessed
  {
    hide Candidates;
    var all := Candidates(base, folderId, incoming, limit, at);
    var sorted := SortBy(all, RecentFirst());
    var kept := Take(sorted, MAX_CACHED_FOLDER_VIEWS);
    RecentFirstIsOrder();
    SortSorts(all, RecentFirst());
    SortElements(all, RecentFirst());
    SortKeepsMembers(all, RecentFirst());
    forall view, other | view in all && view !in kept && other in kept
      ensures view.lastAccessed <= other.lastAccessed
    {
      assert view in sorted;
      var i :| 0 <= i < |sorted| && sorted[i] == view;
      var j :| 0 <= j < |kept| && kept[j] == other;
      assert i >= |kept|;
      assert RecentFirst()(sorted[j], sorted[i]);
    }
  }

  /** The candidates that rank strictly before a view. */
  function Ahead(view: FolderView): FolderView -> bool {
    (other: FolderView) => other.folderId != view.folderId && RecentOrSame(other, view)
  }

  ghost predicate DistinctFolders(views: seq<FolderView>) {
    forall i, j | 0 <= i < j < |views| :: views[i].folderId != views[j].folderId
  }

  lemma {:induction false} FilterKeepsDistinct(views: seq<FolderView>, keep: FolderView -> bool)
    requires DistinctFolders(views)
    ensures DistinctFolders(Filter(views, keep))
  {
    if views != [] {
      FilterKeepsDistinct(views[1..], keep);
      FilterMembers(views[1..], keep);
      forall other <- Filter(views[1..], keep) ensures other.folderId != views[0].folderId {
        assert other in views[1..];
      }
    }
  }

  lemma {:induction false} InsertKeepsDistinct(view: FolderView, views: seq<FolderView>)
    requires DistinctFolders(views) && forall other <- views :: other.folderId != view.folderId
    ensures DistinctFolders(Insert(view, views, RecentFirst()))
  {
    hide RecentFirst;
    if views != [] && !RecentFirst()(view, views[0]) {
      InsertKeepsDistinct(view, views[1..]);
      var later := Insert(view, views[1..], RecentFirst());
      InsertElements(view, views[1..], RecentFirst());
      forall other <- later ensures other.folderId != views[0].folderId {
        assert other in multiset(later);
        assert other == view || other in views[1..];
      }
    }
  }

  lemma {:induction false} SortKeepsDistinct(views: seq<FolderView>)
    requires DistinctFolders(views)
    ensures DistinctFolders(SortBy(views, RecentFirst()))
  {
    if views != [] {
      SortKeepsDistinct(views[1..]);
      SortKeepsMembers(views[1..], RecentFirst());
      InsertKeepsDistinct(views[0], SortBy(views[1..], RecentFirst()));
    }
  }

  /** In a sorted list of views of distinct folders, as many rank before a view as stand before it. */
  lemma AheadCounts(sorted: seq<FolderView>, i: nat)
    requires i < |sorted| && DistinctFolders(sorted) && Sorted(sorted, RecentFirst())
    ensures |Filter(sorted, Ahead(sorted[i]))| == i
  {
    var keep := Ahead(sorted[i]);
    var front, rest := sorted[..i], sorted[i..];
    assert sorted == front + rest;
    FilterAppend(front, rest, keep);
    forall view <- front ensures keep(view) {
      var j :| 0 <= j < i && sorted[j] == view;
      assert RecentFirst()(sorted[j], sorted[i]);
    }
    forall view <- rest ensures !keep(view) {
      var j :| 0 <= j < |rest| && rest[j] == view;
      assert view == sorted[i + j];
      if j > 0 && keep(view) {
        assert RecentFirst()(sorted[i], sorted[i + j]);
        AtMostTotal(FolderKey(view.folderId), FolderKey(sorted[i].folderId));
        FolderKeyInjective(view.folderId, sorted[i].folderId);
      }
    }
    FilterAll(front, keep);
    FilterNone(rest, keep);
  }

  /** A candidate is kept exactly when fewer than eight others rank before it. */
  lemma CandidateSurvives(all: seq<FolderView>, view: FolderView)
    requires DistinctFolders(all) && view in all
    ensures view in Take(SortBy(all, RecentFirst()), MAX_CACHED_FOLDER_VIEWS)
       <==> |Filter(all, Ahead(view))| < MAX_CACHED_FOLDER_VIEWS
  {
    var sorted := SortBy(all, RecentFirst());
    RecentFirstIsOrder();
    SortSorts(all, RecentFirst());
    SortKeepsMembers(all, RecentFirst());
    SortKeepsDistinct(all);
    FilterSort(all, Ahead(view), RecentFirst());
    var i :| 0 <= i < |sorted| && sorted[i] == view;
    AheadCounts(sorted, i);
  }

  lemma CandidatesDistinct(base: StoredMailbox, folderId: FolderId, incoming: Snapshot, limit: nat, at: nat)
    requires DistinctFolders(base.views)
    ensures DistinctFolders(Candidates(base, folderId, incoming, limit, at))
    ensures forall view :: view in Candidates(base, folderId, incoming, limit, at) <==>
              view == FreshView(folderId, incoming, limit, at)
              || (view in base.views && view.folderId != folderId && incoming.catalog.Find(view.folderId).Some?)
  {
    hide FreshView;
    FreshViewFolder(folderId, incoming, limit, at);
    FilterKeepsDistinct(base.views, StillListed(folderId, incoming.catalog));
    FilterMembers(base.views, StillListed(folderId, incoming.catalog));
    forall view ensures view in Filter(base.views, StillListed(folderId, incoming.catalog)) <==>
              view in base.views && view.folderId != folderId && incoming.catalog.Find(view.folderId).Some?
    {
      assert StillListed(folderId, incoming.catalog)(view)
          == (view.folderId != folderId && incoming.catalog.Find(view.folderId).Some?);
    }
  }

  lemma FreshViewFolder(folderId: FolderId, incoming: Snapshot, limit: nat, at: nat)
    ensures FreshView(folderId, incoming, limit, at).folderId == folderId
    ensures FreshView(folderId, incoming, limit, at).lastAccessed == at
  {
  }

  // ----- the notification gate -----

  predicate IsInboxCommit(s: Store, e: Event) {
    Commits(s, e) && e.folderId == Inbox
  }

  /** No Inbox window is committed during the run. */
  ghost predicate NoInboxCommit(s: Store, events: seq<Event>) {
    forall i | 0 <= i < |events| :: !IsInboxCommit(Run(s, events[..i]), events[i])
  }

  /** A gated commit announces exactly the unread Inbox ids absent from the last committed window of
      the same account, and nothing when there is no initialized baseline. */
  lemma GateAnnounces(events: seq<Event>, account: string, incoming: Snapshot)
    ensures var s, t := Run(EMPTY_STORE, events), RunTruth(EMPTY_STORE, NOTHING, events);
            && (Baseline(s, account).None? ==> Announced(s, account, incoming) == [])
            && (Baseline(s, account).Some? ==>
                  && EqualIgnoringCase(t.account, account) && t.window.Some?
                  && (forall id :: id in Announced(s, account, incoming) <==>
                        exists row <- incoming.messages ::
                          row.id == id && row.folderId == Inbox && row.unread && id !in t.window.value))
  {
    hide ValidStored, EqualIgnoringCase;
    RunAgrees(EMPTY_STORE, NOTHING, events);
    var s, t := Run(EMPTY_STORE, events), RunTruth(EMPTY_STORE, NOTHING, events);
    if Baseline(s, account).Some? {
      SameCase(s.index.mailbox.account, t.account, account);
      AnnouncedRows(incoming.messages, t.window.value);
    }
  }

  lemma AnnouncedRows(rows: Rows, observed: seq<MessageId>)
    ensures forall id :: id in Ids(Filter(rows, Unannounced(observed))) <==>
              exists row <- rows :: row.id == id && row.folderId == Inbox && row.unread && id !in observed
  {
    var kept := Filter(rows, Unannounced(observed));
    FilterMembers(rows, Unannounced(observed));
    forall id ensures id in Ids(kept) <==>
              exists row <- rows :: row.id == id && row.folderId == Inbox && row.unread && id !in observed
    {
      if id in Ids(kept) {
        var i :| 0 <= i < |kept| && Ids(kept)[i] == id;
        assert kept[i] in rows && Unannounced(observed)(kept[i]);
      }
      if row :| row in rows && row.id == id && row.folderId == Inbox && row.unread && id !in observed {
        assert Unannounced(observed)(row);
        assert row in kept;
        var i :| 0 <= i < |kept| && kept[i] == row;
        assert Ids(kept)[i] == id;
      }
    }
  }

  /** Loads, prunes, mutations, damage and other folders' commits keep the window or forget it. */
  lemma {:induction false} WindowStays(s: Store, t: Truth, events: seq<Event>)
    requires NoInboxCommit(s, events)
    ensures RunTruth(s, t, events).window == t.window || RunTruth(s, t, events).window == None
  {
    if events != [] {
      var front := events[..|events| - 1];
      forall i | 0 <= i < |front| ensures !IsInboxCommit(Run(s, front[..i]), front[i]) {
        assert front[..i] == events[..i];
      }
      WindowStays(s, t, front);
      assert events[..|events| - 1] == front;
      assert !IsInboxCommit(Run(s, front), events[|events| - 1]);
    }
  }

  /** Whatever happens after an Inbox commit, crashes and damage included: if there still is a baseline at
      the next one, an unread Inbox row is announced by it exactly when its id did not fit the window. */
  lemma AnnouncedFromWindow(before: seq<Event>, commit: Event, between: seq<Event>, account: string, incoming: Snapshot,
                      row: MessageSummary)
    requires IsInboxCommit(Run(EMPTY_STORE, before), commit)
    requires NoInboxCommit(Run(EMPTY_STORE, before + [commit]), between)
    requires Baseline(Run(Run(EMPTY_STORE, before + [commit]), between), account).Some?
    requires row in incoming.messages && row.folderId == Inbox && row.unread
    ensures row.id in Announced(Run(Run(EMPTY_STORE, before + [commit]), between), account, incoming)
       <==> row.id !in Ids(Newest(commit.incoming.messages, Inbox, commit.limit))
  {
    hide ValidStored, EqualIgnoringCase, Newest;
    var s0, t0 := Run(EMPTY_STORE, before), RunTruth(EMPTY_STORE, NOTHING, before);
    var first := before + [commit];
    assert first[..|before|] == before;
    RunAgrees(EMPTY_STORE, NOTHING, before);
    StepAgrees(s0, t0, commit);
    var s1, t1 := Run(EMPTY_STORE, first), StepTruth(s0, t0, commit);
    assert t1.window == Some(Ids(Newest(commit.incoming.messages, Inbox, commit.limit)));
    RunAgrees(s1, t1, between);
    WindowStays(s1, t1, between);
    AnnouncedRows(incoming.messages, t1.window.value);
  }

  /** When at most `limit` Inbox rows were fetched the window holds them all. */
  lemma WindowHoldsAll(rows: Rows, limit: nat, row: MessageSummary)
    requires |Filter(rows, InFolder(Inbox))| <= Bound(limit)
    requires row in rows && row.folderId == Inbox
    ensures row.id in Ids(Newest(rows, Inbox, limit))
  {
    var sorted := SortBy(rows, NewestFirst());
    FilterSort(rows, InFolder(Inbox), NewestFirst());
    SortKeepsMembers(rows, NewestFirst());
    FilterMembers(sorted, InFolder(Inbox));
    assert InFolder(Inbox)(row);
    var kept := Newest(rows, Inbox, limit);
    assert row in kept;
    var i :| 0 <= i < |kept| && kept[i] == row;
    assert Ids(kept)[i] == row.id;
  }

  // ----- every write path writes a valid record -----

  predicate WellFormed(change: Change) {
    match change
    case Confirmed(SetLabel(name, true)) => ValidLabel(name)
    case Reconciled(Some(state)) =>
      |state.labels| <= MAX_MESSAGE_LABELS && forall name <- state.labels :: ValidLabel(name)
    case _ => true
  }

  ghost predicate KeepsValidity(f: MessageSummary -> MessageSummary) {
    forall row :: f(row).id == row.id && f(row).folderId == row.folderId && f(row).locator == row.locator
                  && (ValidLabels(row.labels) ==> ValidLabels(f(row).labels))
  }

  predicate ValidLabels(labels: seq<string>) {
    |labels| <= MAX_MESSAGE_LABELS && forall name <- labels :: ValidLabel(name)
  }

  lemma LabelChangesValid(labels: seq<string>, name: string)
    requires ValidLabels(labels)
    ensures ValidLabels(Filter(labels, OtherThan(name)))
    ensures ValidLabel(name) ==> ValidLabels(Take(WithLabel(labels, name), MAX_MESSAGE_LABELS))
  {
    hide ValidLabel;
    FilterMembers(labels, OtherThan(name));
    WithLabelMembers(labels, name);
    TakeMembers(WithLabel(labels, name), MAX_MESSAGE_LABELS);
  }

  lemma RowChangesKeepValidity(id: MessageId, mutation: Mutation)
    requires WellFormed(Confirmed(mutation))
    ensures KeepsValidity(Flagging(id, mutation)) && KeepsValidity(Applying(id, mutation))
  {
    hide WithLabel, ValidLabels;
    forall row: MessageSummary | ValidLabels(row.labels)
      ensures ValidLabels(Applying(id, mutation)(row).labels)
    {
      if mutation.SetLabel? { LabelChangesValid(row.labels, mutation.name); }
    }
  }

  ghost predicate ValidRows(catalog: FolderCatalog, folderId: FolderId, rows: Rows) {
    && |rows| <= MAX_SUMMARIES_PER_FOLDER
    && (forall row <- rows :: ValidRow(catalog, folderId, row))
    && DistinctIds(rows)
  }

  lemma MapValid(catalog: FolderCatalog, folderId: FolderId, rows: Rows, f: MessageSummary -> MessageSummary)
    requires ValidRows(catalog, folderId, rows) && KeepsValidity(f)
    ensures ValidRows(catalog, folderId, MapRows(rows, f))
  {
    hide ValidLabel;
    var mapped := MapRows(rows, f);
    forall row <- mapped ensures ValidRow(catalog, folderId, row) {
      var i :| 0 <= i < |rows| && mapped[i] == row;
      assert ValidRow(catalog, folderId, rows[i]);
      assert ValidLabels(rows[i].labels);
    }
  }

  lemma {:induction false} FilterDistinct(rows: Rows, keep: MessageSummary -> bool)
    requires DistinctIds(rows)
    ensures DistinctIds(Filter(rows, keep))
  {
    if rows != [] {
      FilterDistinct(rows[1..], keep);
      FilterMembers(rows[1..], keep);
      forall row <- Filter(rows[1..], keep) ensures row.id != rows[0].id {
        assert row in rows[1..];
      }
    }
  }

  lemma FilterValid(catalog: FolderCatalog, folderId: FolderId, rows: Rows, keep: MessageSummary -> bool)
    requires ValidRows(catalog, folderId, rows)
    ensures ValidRows(catalog, folderId, Filter(rows, keep))
  {
    hide ValidRow;
    FilterDistinct(rows, keep);
    FilterMembers(rows, keep);
  }

  lemma {:induction false} InsertDistinct(row: MessageSummary, rows: Rows)
    requires DistinctIds(rows) && forall other <- rows :: other.id != row.id
    ensures DistinctIds(Insert(row, rows, NewestFirst()))
  {
    hide NewestFirst;
    if rows != [] && !NewestFirst()(row, rows[0]) {
      InsertDistinct(row, rows[1..]);
      var later := Insert(row, rows[1..], NewestFirst());
      InsertElements(row, rows[1..], NewestFirst());
      forall other <- later ensures other.id != rows[0].id {
        assert other in multiset(later);
        assert other == row || other in rows[1..];
      }
    }
  }

  lemma {:induction false} SortDistinct(rows: Rows)
    requires DistinctIds(rows)
    ensures DistinctIds(SortBy(rows, NewestFirst()))
  {
    if rows != [] {
      SortDistinct(rows[1..]);
      SortKeepsMembers(rows[1..], NewestFirst());
      InsertDistinct(rows[0], SortBy(rows[1..], NewestFirst()));
    }
  }

  lemma TrimValid(catalog: FolderCatalog, folderId: FolderId, rows: Rows, limit: nat)
    requires ValidRows(catalog, folderId, rows)
    ensures ValidRows(catalog, folderId, Trimmed(rows, limit))
  {
    hide ValidRow, NewestFirst;
    SortDistinct(rows);
    SortElements(rows, NewestFirst());
    SortKeepsMembers(rows, NewestFirst());
    TakeMembers(SortBy(rows, NewestFirst()), Bound(limit));
  }

  lemma ChangedValid(catalog: FolderCatalog, folderId: FolderId, rows: Rows, id: MessageId, change: Change)
    requires ValidRows(catalog, folderId, rows) && WellFormed(change)
    ensures ValidRows(catalog, folderId, ChangedRows(folderId, rows, id, change))
  {
    hide MapRows, Filter, ValidRows, KeepsValidity;
    match change
    case Confirmed(mutation) =>
      RowChangesKeepValidity(id, mutation);
      MapValid(catalog, folderId, rows, Flagging(id, mutation));
      var flagged := MapRows(rows, Flagging(id, mutation));
      MapValid(catalog, folderId, flagged, Applying(id, mutation));
      FilterValid(catalog, folderId, flagged, NotId(id));
    case Reconciled(state) =>
      if state.Some? {
        ReconcilingKeepsValidity(id, state.value);
        MapValid(catalog, folderId, rows, Reconciling(id, state.value));
      }
      FilterValid(catalog, folderId, rows, NotId(id));
  }

  lemma ReconcilingKeepsValidity(id: MessageId, state: ReconciledState)
    requires ValidLabels(state.labels)
    ensures KeepsValidity(Reconciling(id, state))
  {
    hide ValidLabel;
  }

  ghost predicate MapsValid(f: FolderView -> FolderView) {
    forall catalog, view | ValidView(catalog, view) :: ValidView(catalog, f(view)) && f(view).folderId == view.folderId
  }

  lemma MappedStored(m: StoredMailbox, f: FolderView -> FolderView)
    requires ValidStored(m) && MapsValid(f)
    ensures ValidStored(m.(views := MapViews(m.views, f)))
  {
    hide ValidView, ValidWatermark, IsBlank, HasControl, Utf8Length, FolderDescriptor.IsValid;
    var views := MapViews(m.views, f);
    forall view <- views ensures ValidView(m.catalog, view) {
      var i :| 0 <= i < |views| && views[i] == view;
      assert ValidView(m.catalog, m.views[i]);
    }
    forall i, j | 0 <= i < j < |views| ensures views[i].folderId != views[j].folderId {
      assert ValidView(m.catalog, m.views[i]) && ValidView(m.catalog, m.views[j]);
    }
  }

  lemma ViewMapsValid(limit: nat, id: MessageId, change: Change)
    ensures ValidLimit(limit) ==> MapsValid(Pruning(limit))
    ensures WellFormed(change) ==> MapsValid(Changing(id, change))
  {
    hide ValidRow, Trimmed, ChangedRows, WellFormed, ValidLimit;
    forall catalog, view | ValidView(catalog, view)
      ensures ValidRows(catalog, view.folderId, Trimmed(view.messages, limit))
      ensures WellFormed(change) ==>
              ValidRows(catalog, view.folderId, ChangedRows(view.folderId, view.messages, id, change))
    {
      TrimValid(catalog, view.folderId, view.messages, limit);
      if WellFormed(change) { ChangedValid(catalog, view.folderId, view.messages, id, change); }
    }
  }

  lemma TouchedStored(m: StoredMailbox, i: nat, at: nat)
    requires ValidStored(m) && i < |m.views|
    ensures ValidStored(m.(views := m.views[i := m.views[i].(lastAccessed := at)]))
  {
    hide ValidRow, ValidWatermark, IsBlank, HasControl, Utf8Length, FolderDescriptor.IsValid;
    var views := m.views[i := m.views[i].(lastAccessed := at)];
    assert ValidView(m.catalog, views[i]) by { assert ValidView(m.catalog, m.views[i]); }
    forall view <- views ensures ValidView(m.catalog, view) {
      var j :| 0 <= j < |views| && views[j] == view;
      assert j != i ==> view == m.views[j];
    }
  }

  ghost predicate Sound(s: Store) {
    s.index.Holding? ==> ValidStored(s.index.mailbox)
  }

  /** No operation ever leaves an invalid record where there was none: replacement reports an error
      instead, and every other write preserves validity (labels being well-formed). */
  lemma WritesStayValid(s: Store, e: Event)
    requires Sound(s) && (e.Persist? ==> WellFormed(e.change))
    ensures Sound(Step(s, e))
    ensures e.Replace? && !Commits(s, e) ==> Step(s, e) == s || Step(s, e) == Resumed(s)
  {
    hide ValidStored, Replaced;
    match e
    case Load(account, folderId, limit, at) =>
      if Step(s, e) != s { TouchedStored(s.index.mailbox, IndexOf(s.index.mailbox.views, folderId), at); }
    case Prune(limit) =>
      ViewMapsValid(limit, MessageId(""), Confirmed(Archive));
      if Step(s, e) != s { MappedStored(s.index.mailbox, Pruning(limit)); }
    case Persist(account, id, change) =>
      ViewMapsValid(50, id, change);
      if Step(s, e) != s { MappedStored(s.index.mailbox, Changing(id, change)); }
    case _ =>
  }
}
