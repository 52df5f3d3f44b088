/** What the folder cache keeps, over whole runs: which views a commit evicts, how long a view is
    served, and that the notification watermark changes with Inbox commits alone. */
module FolderCacheRetention {
  import opened Results
  import opened Text
  import opened Sorting
  import opened MessageIds
  import opened Mail
  import opened FolderStore
  import opened FolderCacheRefinement

  /** The record a commit builds on. */
  function Before(s: Store, e: Event): StoredMailbox
    requires e.Replace?
  {
    BaseRecord(Accepted(Resumed(s).index), e.account, e.incoming.catalog)
  }

  function Written(e: Event): FolderView
    requires e.Replace?
  {
    FreshView(e.folderId, e.incoming, e.limit, e.at)
  }

  /** The views a commit chooses from: the one it writes, and those of other folders still listed. */
  predicate Competes(s: Store, e: Event, view: FolderView)
    requires e.Replace?
  {
    view == Written(e)
    || (view in Before(s, e).views && view.folderId != e.folderId && e.incoming.catalog.Find(view.folderId).Some?)
  }

  lemma BaseIsDistinct(s: Store, e: Event)
    requires e.Replace?
    ensures DistinctFolders(Before(s, e).views)
  {
    hide ValidView, ValidWatermark;
  }

  lemma CommittedIndex(s: Store, e: Event)
    requires Commits(s, e)
    ensures var next := Step(s, e);
            && Accepted(next.index).Some? && !next.marker
            && next.index.mailbox.account == Before(s, e).account
            && next.index.mailbox.views
               == Take(SortBy(Candidates(Before(s, e), e.folderId, e.incoming, e.limit, e.at), RecentFirst()),
                       MAX_CACHED_FOLDER_VIEWS)
            && next.index.mailbox.watermark
               == if e.folderId == Inbox then InboxWatermark(true, Ids(Newest(e.incoming.messages, Inbox, e.limit)))
                  else Before(s, e).watermark
  {
    hide ValidStored, SortBy, Candidates, Newest;
  }

  /** After a commit the store holds at most eight views, all of them candidates. A candidate is there
      exactly when fewer than eight others rank before it, so whatever is missing was accessed no later
      than everything that stayed, and nothing is dropped while there is room. */
  lemma CommitEvictsOldest(s: Store, e: Event)
    requires Commits(s, e)
    ensures var views := Step(s, e).index.mailbox.views;
            && Accepted(Step(s, e).index).Some? && |views| <= MAX_CACHED_FOLDER_VIEWS && DistinctFolders(views)
            && (forall view <- views :: Competes(s, e, view))
            && (forall view | Competes(s, e, view) && view !in views ::
                  && |views| == MAX_CACHED_FOLDER_VIEWS
                  && forall other <- views :: view.lastAccessed <= other.lastAccessed)
            && (forall view | Competes(s, e, view) ::
                  view in views <==>
                  |Filter(Candidates(Before(s, e), e.folderId, e.incoming, e.limit, e.at), Ahead(view))|
                    < MAX_CACHED_FOLDER_VIEWS)
  {
    hide ValidStored, Candidates, FreshView, Filter, SortBy, Step, Ahead, ReplaceResult;
    var base := Before(s, e);
    var all := Candidates(base, e.folderId, e.incoming, e.limit, e.at);
    CommittedIndex(s, e);
    BaseIsDistinct(s, e);
    CandidatesDistinct(base, e.folderId, e.incoming, e.limit, e.at);
    EvictedAreOldest(base, e.folderId, e.incoming, e.limit, e.at);
    SortKeepsDistinct(all);
    var views := Step(s, e).index.mailbox.views;
    forall view | Competes(s, e, view)
      ensures view in views <==> |Filter(all, Ahead(view))| < MAX_CACHED_FOLDER_VIEWS
      ensures view !in views ==> |views| == MAX_CACHED_FOLDER_VIEWS
    {
      CandidateSurvives(all, view);
      if |all| < MAX_CACHED_FOLDER_VIEWS {
        SortKeepsMembers(all, RecentFirst());
        SortElements(all, RecentFirst());
        TakeMembers(SortBy(all, RecentFirst()), MAX_CACHED_FOLDER_VIEWS);
      }
    }
  }

  /** The order in which views of one access time stay. */
  function Rank(folder: FolderId): nat {
    match folder
    case Inbox => 0
    case Starred => 1
    case Sent => 2
    case AllMail => 3
    case Trash => 4
    case Label(_) => 5
  }

  /** One folder stays before another: by rank, and labels by name. */
  predicate StaysBefore(a: FolderId, b: FolderId) {
    Rank(a) < Rank(b) || (a.Label? && b.Label? && AtMost(a.mailbox, b.mailbox))
  }

  lemma KeyOrder(a: FolderId, b: FolderId)
    requires a != b
    ensures AtMost(FolderKey(a), FolderKey(b)) <==> StaysBefore(a, b)
  {
    if a.Label? && b.Label? {
      PrefixOrder("5-", a.mailbox, b.mailbox);
    } else {
      assert FolderKey(a)[0] as int == '0' as int + Rank(a) && FolderKey(b)[0] as int == '0' as int + Rank(b);
    }
  }

  lemma {:induction false} PrefixOrder(prefix: string, a: string, b: string)
    ensures AtMost(prefix + a, prefix + b) <==> AtMost(a, b)
  {
    if prefix == "" {
      assert prefix + a == a && prefix + b == b;
    } else {
      PrefixOrder(prefix[1..], a, b);
      assert (prefix + a)[1..] == prefix[1..] + a && (prefix + b)[1..] == prefix[1..] + b;
    }
  }

  /** What a commit drops was accessed before everything that stayed, or at the same time and comes after it in the
      order of folders. */
  lemma CommitDropsInOrder(s: Store, e: Event, view: FolderView, other: FolderView)
    requires Commits(s, e) && Competes(s, e, view) && view !in Step(s, e).index.mailbox.views
    requires other in Step(s, e).index.mailbox.views
    ensures view.lastAccessed < other.lastAccessed
         || (view.lastAccessed == other.lastAccessed && StaysBefore(other.folderId, view.folderId))
  {
    hide ValidStored, Candidates, FreshView, Step, ReplaceResult, FolderKey, StaysBefore, SortBy;
    var base := Before(s, e);
    var all := Candidates(base, e.folderId, e.incoming, e.limit, e.at);
    var sorted := SortBy(all, RecentFirst());
    CommittedIndex(s, e);
    BaseIsDistinct(s, e);
    CandidatesDistinct(base, e.folderId, e.incoming, e.limit, e.at);
    RecentFirstIsOrder();
    SortSorts(all, RecentFirst());
    SortKeepsMembers(all, RecentFirst());
    SortKeepsDistinct(all);
    assert view in sorted;
    var i :| 0 <= i < |sorted| && sorted[i] == view;
    var kept := Take(sorted, MAX_CACHED_FOLDER_VIEWS);
    var j :| 0 <= j < |kept| && kept[j] == other;
    assert i >= |kept|;
    assert RecentFirst()(sorted[j], sorted[i]);
    KeyOrder(other.folderId, view.folderId);
  }

  // ----- runs that no other account, cleanup or damage disturbs -----

  /** The store is the account's own and can be read. */
  predicate Current(s: Store, account: string) {
    !s.marker && Accepted(s.index).Some? && EqualIgnoringCase(s.index.mailbox.account, account)
  }

  predicate Undisturbed(s: Store, e: Event, account: string) {
    match e
    case Replace(_, _, _, _, _) => Commits(s, e) ==> EqualIgnoringCase(e.account, account)
    case Persist(_, _, change) => WellFormed(change)
    case CleanupInterrupted(_) => false
    case IndexDamaged(_) => false
    case _ => true
  }

  ghost predicate UndisturbedRun(s: Store, events: seq<Event>, account: string) {
    forall i | 0 <= i < |events| :: Undisturbed(Run(s, events[..i]), events[i], account)
  }

  lemma RunSnoc(s: Store, events: seq<Event>, account: string)
    requires events != [] && UndisturbedRun(s, events, account)
    ensures UndisturbedRun(s, events[..|events| - 1], account)
    ensures Undisturbed(Run(s, events[..|events| - 1]), events[|events| - 1], account)
  {
    var front := events[..|events| - 1];
    forall i | 0 <= i < |front| ensures Undisturbed(Run(s, front[..i]), front[i], account) {
      assert front[..i] == events[..i];
    }
  }

  /** Loads, prunes, changes and other folders' commits leave the watermark as it is; an Inbox commit
      sets it to its own window; each leaves the account and the store's validity. */
  lemma StepKeepsWatermark(s: Store, e: Event, account: string)
    requires Current(s, account) && Undisturbed(s, e, account)
    ensures Current(Step(s, e), account)
    ensures Step(s, e).index.mailbox.watermark
         == if IsInboxCommit(s, e) then InboxWatermark(true, Ids(Newest(e.incoming.messages, Inbox, e.limit)))
            else s.index.mailbox.watermark
  {
    hide ValidStored, Newest, Replaced, EqualIgnoringCase;
    WritesStayValid(s, e);
    if e.Replace? && Commits(s, e) {
      CommittedIndex(s, e);
      SameCase(s.index.mailbox.account, e.account, account);
    }
  }

  /** In every undisturbed run without an Inbox commit the watermark on disk stays what it was. */
  lemma {:induction false} WatermarkStays(s: Store, events: seq<Event>, account: string)
    requires Current(s, account) && UndisturbedRun(s, events, account) && NoInboxCommit(s, events)
    ensures Current(Run(s, events), account)
    ensures Run(s, events).index.mailbox.watermark == s.index.mailbox.watermark
  {
    hide Undisturbed, Step, IsInboxCommit, EqualIgnoringCase, ValidStored;
    if events != [] {
      var front := events[..|events| - 1];
      RunSnoc(s, events, account);
      forall i | 0 <= i < |front| ensures !IsInboxCommit(Run(s, front[..i]), front[i]) {
        assert front[..i] == events[..i];
      }
      WatermarkStays(s, front, account);
      assert events[..|events| - 1] == front;
      StepKeepsWatermark(Run(s, front), events[|events| - 1], account);
    }
  }

  // ----- how long a view is served -----

  /** The folder's view is stored with a stamp of at least `since`, and only the `touched` folders have
      one as recent. */
  ghost predicate Retained(s: Store, folder: FolderId, since: nat, touched: set<FolderId>) {
    && Accepted(s.index).Some?
    && (exists view <- s.index.mailbox.views :: view.folderId == folder && view.lastAccessed >= since)
    && (forall view <- s.index.mailbox.views | view.lastAccessed >= since ::
        view.folderId == folder || view.folderId in touched)
  }

  /** The clock does not run behind `since` for the folder itself, and catalogs go on listing it. */
  predicate Spares(s: Store, e: Event, folder: FolderId, since: nat) {
    match e
    case Load(_, loaded, _, at) => loaded == folder ==> at >= since
    case Replace(_, written, incoming, _, at) =>
      Commits(s, e) ==> if written == folder then at >= since else incoming.catalog.Find(folder).Some?
    case _ => true
  }

  ghost predicate SparesRun(s: Store, events: seq<Event>, folder: FolderId, since: nat) {
    forall i | 0 <= i < |events| :: Spares(Run(s, events[..i]), events[i], folder, since)
  }

  /** The folder an event makes recent. */
  function TouchedBy(e: Event): set<FolderId> {
    match e
    case Load(_, folder, _, _) => {folder}
    case Replace(_, folder, _, _, _) => {folder}
    case _ => {}
  }

  function Touched(events: seq<Event>): set<FolderId> {
    if events == [] then {} else Touched(events[..|events| - 1]) + TouchedBy(events[|events| - 1])
  }

  function Folders(views: seq<FolderView>): (r: seq<FolderId>)
    ensures |r| == |views| && forall i | 0 <= i < |views| :: r[i] == views[i].folderId
  {
    seq(|views|, i requires 0 <= i < |views| => views[i].folderId)
  }

  /** Views of distinct folders are no more than the folders they come from. */
  lemma AtMostFolders(views: seq<FolderView>, folders: set<FolderId>)
    requires DistinctFolders(views) && forall view <- views :: view.folderId in folders
    ensures |views| <= |folders|
  {
    var names := Folders(views);
    DistinctLength(names);
    assert Elements(names) <= folders by {
      forall f <- names ensures f in folders {
        var i :| 0 <= i < |names| && names[i] == f;
        assert views[i] in views;
      }
    }
    assert folders == Elements(names) + (folders - Elements(names));
  }

  lemma CommitRetains(s: Store, e: Event, folder: FolderId, since: nat, touched: set<FolderId>)
    requires Commits(s, e) && Spares(s, e, folder, since)
    requires e.folderId != folder ==>
               Retained(Resumed(s), folder, since, touched)
               && EqualIgnoringCase(Resumed(s).index.mailbox.account, e.account)
    requires forall view <- Before(s, e).views | view.lastAccessed >= since && view.folderId != e.folderId ::
               view.folderId == folder || view.folderId in touched
    requires |(touched + {e.folderId}) - {folder}| < MAX_CACHED_FOLDER_VIEWS
    ensures Retained(Step(s, e), folder, since, (touched + {e.folderId}) - {folder})
  {
    hide ValidStored, Candidates, Filter, SortBy, ReplaceResult, Step, EqualIgnoringCase;
    var all := Candidates(Before(s, e), e.folderId, e.incoming, e.limit, e.at);
    CommitEvictsOldest(s, e);
    BaseIsDistinct(s, e);
    CandidatesDistinct(Before(s, e), e.folderId, e.incoming, e.limit, e.at);
    var view := Written(e);
    if e.folderId != folder {
      view :| view in Before(s, e).views && view.folderId == folder && view.lastAccessed >= since;
    }
    assert Competes(s, e, view) && view.folderId == folder && view.lastAccessed >= since;
    var ahead := Filter(all, Ahead(view));
    FilterMembers(all, Ahead(view));
    FilterKeepsDistinct(all, Ahead(view));
    forall other <- ahead ensures other.folderId in (touched + {e.folderId}) - {folder} {
      assert Ahead(view)(other) && Competes(s, e, other);
    }
    AtMostFolders(ahead, (touched + {e.folderId}) - {folder});
    assert view in Step(s, e).index.mailbox.views;
  }

  lemma MappedRetained(s: Store, f: FolderView -> FolderView, folder: FolderId, since: nat, touched: set<FolderId>)
    requires Retained(s, folder, since, touched)
    requires forall view: FolderView :: f(view).folderId == view.folderId && f(view).lastAccessed == view.lastAccessed
    requires Accepted(Holding(s.index.mailbox.(views := MapViews(s.index.mailbox.views, f)))).Some?
    ensures Retained(s.(index := Holding(s.index.mailbox.(views := MapViews(s.index.mailbox.views, f)))), folder, since,
                     touched)
  {
    hide ValidStored;
    var views := s.index.mailbox.views;
    var view :| view in views && view.folderId == folder && view.lastAccessed >= since;
    var i :| 0 <= i < |views| && views[i] == view;
    var mapped := MapViews(views, f);
    assert mapped[i] in mapped && mapped[i].folderId == folder && mapped[i].lastAccessed >= since;
    forall other <- mapped | other.lastAccessed >= since ensures other.folderId == folder || other.folderId in touched {
      var k :| 0 <= k < |views| && mapped[k] == other;
      assert views[k] in views;
    }
  }

  lemma LoadRetains(s: Store, e: Event, folder: FolderId, since: nat, touched: set<FolderId>)
    requires e.Load? && Retained(s, folder, since, touched) && Spares(s, e, folder, since)
    requires Accepted(Step(s, e).index).Some?
    ensures Retained(Step(s, e), folder, since, touched + TouchedBy(e))
  {
    hide ValidStored, EqualIgnoringCase;
    if Step(s, e) != s {
      var views, now := s.index.mailbox.views, Step(s, e).index.mailbox.views;
      var at := IndexOf(views, e.loadFolder);
      var view :| view in views && view.folderId == folder && view.lastAccessed >= since;
      var i :| 0 <= i < |views| && views[i] == view;
      assert now[i] in now && now[i].folderId == folder && now[i].lastAccessed >= since;
      forall other <- now | other.lastAccessed >= since
        ensures other.folderId == folder || other.folderId in touched + TouchedBy(e)
      {
        var k :| 0 <= k < |now| && now[k] == other;
        assert views[k] in views;
      }
    }
  }

  lemma StepRetains(s: Store, e: Event, account: string, folder: FolderId, since: nat, touched: set<FolderId>)
    requires Current(s, account) && Undisturbed(s, e, account)
    requires Retained(s, folder, since, touched) && Spares(s, e, folder, since)
    requires |(touched + TouchedBy(e)) - {folder}| < MAX_CACHED_FOLDER_VIEWS
    ensures Current(Step(s, e), account) && Retained(Step(s, e), folder, since, touched + TouchedBy(e))
  {
    hide ValidStored, EqualIgnoringCase, Retained, Replaced, ReplaceResult, Pruning, Changing;
    StepKeepsWatermark(s, e, account);
    match e
    case Load(_, _, _, _) => LoadRetains(s, e, folder, since, touched);
    case Prune(limit) =>
      assert touched + TouchedBy(e) == touched;
      if Step(s, e) != s { PruneRetains(s, limit, folder, since, touched); }
    case Persist(_, id, change) =>
      assert touched + TouchedBy(e) == touched;
      if Step(s, e) != s { ChangeRetains(s, id, change, folder, since, touched); }
    case Replace(_, _, _, _, _) =>
      if Commits(s, e) {
        SameCase(s.index.mailbox.account, e.account, account);
        RecentInBase(s, e, folder, since, touched);
        CommitRetains(s, e, folder, since, touched);
        RetainedMore(Step(s, e), folder, since, (touched + {e.folderId}) - {folder}, touched + {e.folderId});
        assert ((touched + {e.folderId}) - {folder}) + (touched + {e.folderId}) == touched + {e.folderId};
      } else {
        WritesStayValid(s, e);
        RetainedMore(s, folder, since, touched, TouchedBy(e));
      }
    case _ =>
  }

  lemma PruneRetains(s: Store, limit: nat, folder: FolderId, since: nat, touched: set<FolderId>)
    requires Retained(s, folder, since, touched) && ValidLimit(limit)
    ensures Retained(PruneStore(s, limit), folder, since, touched)
  {
    hide ValidStored, Retained, Trimmed, WellFormed;
    assert Accepted(s.index).Some? by { AcceptedWhenRetained(s, folder, since, touched); }
    ViewMapsValid(limit, MessageId(""), Change.Confirmed(Archive));
    MappedStored(s.index.mailbox, Pruning(limit));
    MappedRetained(s, Pruning(limit), folder, since, touched);
  }

  lemma ChangeRetains(s: Store, id: MessageId, change: Change, folder: FolderId, since: nat, touched: set<FolderId>)
    requires Retained(s, folder, since, touched) && WellFormed(change)
    ensures Retained(s.(index := Holding(s.index.mailbox.(views :=
                       MapViews(s.index.mailbox.views, Changing(id, change))))),
                     folder, since, touched)
  {
    hide ValidStored, Retained, ChangedRows, WellFormed;
    AcceptedWhenRetained(s, folder, since, touched);
    ViewMapsValid(50, id, change);
    MappedStored(s.index.mailbox, Changing(id, change));
    MappedRetained(s, Changing(id, change), folder, since, touched);
  }

  lemma AcceptedWhenRetained(s: Store, folder: FolderId, since: nat, touched: set<FolderId>)
    requires Retained(s, folder, since, touched)
    ensures Accepted(s.index).Some?
  {
  }

  lemma RecentInBase(s: Store, e: Event, folder: FolderId, since: nat, touched: set<FolderId>)
    requires Commits(s, e) && !s.marker && Retained(s, folder, since, touched)
    requires EqualIgnoringCase(s.index.mailbox.account, e.account)
    ensures forall view <- Before(s, e).views | view.lastAccessed >= since ::
            view.folderId == folder || view.folderId in touched
  {
    hide ValidStored, EqualIgnoringCase;
  }

  lemma RetainedMore(s: Store, folder: FolderId, since: nat, touched: set<FolderId>, more: set<FolderId>)
    requires Retained(s, folder, since, touched)
    ensures Retained(s, folder, since, touched + more)
  {
    hide ValidStored;
  }

  lemma {:induction false} RunRetains(s: Store, events: seq<Event>, account: string, folder: FolderId, since: nat)
    requires Current(s, account) && UndisturbedRun(s, events, account)
    requires Retained(s, folder, since, {}) && SparesRun(s, events, folder, since)
    requires |Touched(events) - {folder}| < MAX_CACHED_FOLDER_VIEWS
    ensures Current(Run(s, events), account) && Retained(Run(s, events), folder, since, Touched(events))
  {
    hide Current, Undisturbed, Step, Retained, Spares, TouchedBy;
    if events != [] {
      var front, last := events[..|events| - 1], events[|events| - 1];
      RunSnoc(s, events, account);
      forall i | 0 <= i < |front| ensures Spares(Run(s, front[..i]), front[i], folder, since) {
        assert front[..i] == events[..i];
      }
      assert Spares(Run(s, front), last, folder, since);
      var more := Touched(events) - {folder} - (Touched(front) - {folder});
      assert Touched(events) - {folder} == (Touched(front) - {folder}) + more;
      RunRetains(s, front, account, folder, since);
      StepRetains(Run(s, front), last, account, folder, since, Touched(front));
    }
  }

  /** No other view had an access time as late as the commit's. */
  predicate IsLatest(s: Store, e: Event)
    requires e.Replace?
  {
    forall view <- Before(s, e).views | view.folderId != e.folderId :: view.lastAccessed < e.at
  }

  lemma LatestIsRetained(s: Store, e: Event)
    requires Commits(s, e) && IsLatest(s, e)
    ensures Current(Step(s, e), e.account) && Retained(Step(s, e), e.folderId, e.at, {})
  {
    hide ValidStored, Candidates, Filter, SortBy, ReplaceResult, Step, EqualIgnoringCase;
    CommittedIndex(s, e);
    SameCase(e.account, e.account, e.account);
    assert {e.folderId} - {e.folderId} == {} && {} + {e.folderId} == {e.folderId};
    CommitRetains(s, e, e.folderId, e.at, {});
  }

  lemma RetainedIsFound(s: Store, account: string, reader: string, folder: FolderId, since: nat, touched: set<FolderId>,
                        limit: nat)
    requires Current(s, account) && Retained(s, folder, since, touched)
    requires ValidLimit(limit) && !IsBlank(reader) && EqualIgnoringCase(account, reader)
    ensures var r := LoadResult(s, reader, folder, limit); r.Ok? && r.value.Some?
  {
    hide ValidStored, EqualIgnoringCase;
    SameCase(s.index.mailbox.account, account, reader);
    var views := s.index.mailbox.views;
    var view :| view in views && view.folderId == folder && view.lastAccessed >= since;
    var i :| 0 <= i < |views| && views[i] == view;
    assert IndexOf(views, folder) <= i;
  }

  lemma {:induction false} RunAppend(s: Store, t: Truth, a: seq<Event>, b: seq<Event>)
    ensures Run(s, a + b) == Run(Run(s, a), b)
    ensures RunTruth(s, t, a + b) == RunTruth(Run(s, a), RunTruth(s, t, a), b)
  {
    hide Step, StepTruth;
    if b == [] {
      assert a + b == a;
    } else {
      RunAppend(s, t, a, b[..|b| - 1]);
      assert (a + b)[..|a + b| - 1] == a + b[..|b| - 1];
    }
  }

  /** A view written with the latest access time is served for as long as fewer than eight other folders
      are opened or written, catalogs go on listing it and nothing disturbs the account: every load of it
      is a hit and shows the unbounded map's newest rows for that folder. */
  lemma RecentlyUsedIsServed(before: seq<Event>, commit: Event, between: seq<Event>, reader: string, limit: nat)
    requires Commits(Run(EMPTY_STORE, before), commit) && IsLatest(Run(EMPTY_STORE, before), commit)
    requires var s := Step(Run(EMPTY_STORE, before), commit);
             UndisturbedRun(s, between, commit.account) && SparesRun(s, between, commit.folderId, commit.at)
    requires |Touched(between) - {commit.folderId}| < MAX_CACHED_FOLDER_VIEWS
    requires ValidLimit(limit) && !IsBlank(reader) && EqualIgnoringCase(commit.account, reader)
    ensures var events := before + [commit] + between;
            var t := RunTruth(EMPTY_STORE, NOTHING, events);
            var r := LoadResult(Run(EMPTY_STORE, events), reader, commit.folderId, limit);
            && commit.folderId in t.rows && r.Ok? && r.value.Some?
            && r.value.value.messages == Take(t.rows[commit.folderId], Bound(limit))
  {
    hide ValidStored, Step, StepTruth, ReplaceResult, UndisturbedRun, SparesRun, Current, Retained, EqualIgnoringCase,
         LoadResult,
         IsLatest;
    var s := Run(EMPTY_STORE, before);
    LatestIsRetained(s, commit);
    RunRetains(Step(s, commit), between, commit.account, commit.folderId, commit.at);
    RetainedIsFound(Run(Step(s, commit), between), commit.account, reader, commit.folderId, commit.at, Touched(between),
                    limit);
    assert (before + [commit])[..|before|] == before;
    assert Run(EMPTY_STORE, before + [commit]) == Step(s, commit);
    RunAppend(EMPTY_STORE, NOTHING, before + [commit], between);
    LoadRefinesMap(before + [commit] + between, reader, commit.folderId, limit);
  }

  /** In particular a load right after such a commit shows exactly the rows it wrote. */
  lemma CommitIsServed(before: seq<Event>, commit: Event, reader: string, limit: nat)
    requires Commits(Run(EMPTY_STORE, before), commit) && IsLatest(Run(EMPTY_STORE, before), commit)
    requires ValidLimit(limit) && !IsBlank(reader) && EqualIgnoringCase(commit.account, reader)
    ensures var r := LoadResult(Step(Run(EMPTY_STORE, before), commit), reader, commit.folderId, limit);
            && r.Ok? && r.value.Some?
            && r.value.value.messages
               == Take(Newest(commit.incoming.messages, commit.folderId, commit.limit), Bound(limit))
  {
    hide ValidStored, IsLatest, EqualIgnoringCase, LoadResult, Newest, Step;
    RecentlyUsedIsServed(before, commit, [], reader, limit);
    assert before + [commit] + [] == before + [commit];
    assert (before + [commit])[..|before|] == before;
  }

  // ----- the notification gate -----

  /** Between two Inbox commits of an account that nothing disturbs, an unread Inbox row of the second is
      announced by it exactly when its id did not fit the first one's window. */
  lemma AnnouncedOnce(before: seq<Event>, commit: Event, between: seq<Event>, account: string, incoming: Snapshot,
                      row: MessageSummary)
    requires IsInboxCommit(Run(EMPTY_STORE, before), commit)
    requires var s := Step(Run(EMPTY_STORE, before), commit);
             UndisturbedRun(s, between, commit.account) && NoInboxCommit(s, between)
    requires EqualIgnoringCase(commit.account, account)
    requires row in incoming.messages && row.folderId == Inbox && row.unread
    ensures row.id in Announced(Run(Step(Run(EMPTY_STORE, before), commit), between), account, incoming)
       <==> row.id !in Ids(Newest(commit.incoming.messages, Inbox, commit.limit))
  {
    hide ValidStored, EqualIgnoringCase, Newest, Step, ReplaceResult, UndisturbedRun, NoInboxCommit;
    var s := Step(Run(EMPTY_STORE, before), commit);
    CommitIsCurrent(Run(EMPTY_STORE, before), commit);
    WatermarkStays(s, between, commit.account);
    var now := Run(s, between);
    SameCase(now.index.mailbox.account, commit.account, account);
    AnnouncedRows(incoming.messages, now.index.mailbox.watermark.observed);
  }

  lemma CommitIsCurrent(s: Store, e: Event)
    requires Commits(s, e)
    ensures Current(Step(s, e), e.account)
    ensures e.folderId == Inbox ==>
              Step(s, e).index.mailbox.watermark
                  == InboxWatermark(true, Ids(Newest(e.incoming.messages, Inbox, e.limit)))
  {
    hide ValidStored, Newest, Step, ReplaceResult, EqualIgnoringCase;
    CommittedIndex(s, e);
    SameCase(e.account, e.account, e.account);
  }

  /** The message is in the Inbox rows the event fetched, and it fetched no more than its limit. */
  predicate FetchesInbox(e: Event, id: MessageId) {
    && e.Replace? && |e.incoming.messages| <= e.limit
    && exists row <- e.incoming.messages :: row.id == id && row.folderId == Inbox
  }

  /** Every Inbox commit of the account during the run fetches the message. */
  ghost predicate StaysInInbox(s: Store, events: seq<Event>, account: string, id: MessageId) {
    forall i | 0 <= i < |events| && IsInboxCommit(Run(s, events[..i]), events[i])
               && EqualIgnoringCase(events[i].account, account) ::
      FetchesInbox(events[i], id)
  }

  /** The account has no baseline, or one that holds the message. */
  predicate Silent(s: Store, account: string, id: MessageId) {
    match Baseline(s, account)
    case None => true
    case Some(observed) => id in observed
  }

  lemma FetchedIsSilent(s: Store, e: Event, account: string, id: MessageId)
    requires IsInboxCommit(s, e) && FetchesInbox(e, id)
    ensures Silent(Step(s, e), account, id)
  {
    hide ValidStored, Step, Newest, Current, EqualIgnoringCase;
    CommitIsCurrent(s, e);
    var row :| row in e.incoming.messages && row.id == id && row.folderId == Inbox;
    FilterMembers(e.incoming.messages, InFolder(Inbox));
    CommitLimit(s, e);
    WindowHoldsAll(e.incoming.messages, e.limit, row);
    CommittedIndex(s, e);
  }

  lemma CommitLimit(s: Store, e: Event)
    requires Commits(s, e)
    ensures ValidLimit(e.limit) && e.limit <= MAX_SUMMARIES_PER_FOLDER
  {
    hide ValidStored;
  }

  lemma CommitKeepsSilence(s: Store, e: Event, account: string, id: MessageId)
    requires Commits(s, e) && Silent(s, account, id)
    requires e.folderId == Inbox && EqualIgnoringCase(e.account, account) ==> FetchesInbox(e, id)
    ensures Silent(Step(s, e), account, id)
  {
    hide ValidStored, Step, Newest, EqualIgnoringCase, FetchesInbox, SortBy, Candidates, ReplaceResult;
    if e.folderId == Inbox && EqualIgnoringCase(e.account, account) {
      FetchedIsSilent(s, e, account, id);
    } else {
      CommittedIndex(s, e);
      var base := Before(s, e);
      SameCase(e.account, e.account, e.account);
      SameCase(base.account, e.account, account);
    }
  }

  lemma StepKeepsSilence(s: Store, e: Event, account: string, id: MessageId)
    requires Silent(s, account, id)
    requires IsInboxCommit(s, e) && EqualIgnoringCase(e.account, account) ==> FetchesInbox(e, id)
    ensures Silent(Step(s, e), account, id)
  {
    hide ValidStored, Newest, Replaced, EqualIgnoringCase, FetchesInbox;
    if e.Replace? {
      if Commits(s, e) { CommitKeepsSilence(s, e, account, id); }
    }
  }

  lemma {:induction false} SilenceStays(s: Store, events: seq<Event>, account: string, id: MessageId)
    requires Silent(s, account, id) && StaysInInbox(s, events, account, id)
    ensures Silent(Run(s, events), account, id)
  {
    hide Silent, Step, ReplaceResult, FetchesInbox, EqualIgnoringCase;
    if events != [] {
      var front, last := events[..|events| - 1], events[|events| - 1];
      forall i | 0 <= i < |front| && IsInboxCommit(Run(s, front[..i]), front[i])
                 && EqualIgnoringCase(front[i].account, account)
        ensures FetchesInbox(front[i], id)
      {
        assert front[..i] == events[..i];
      }
      SilenceStays(s, front, account, id);
      StepKeepsSilence(Run(s, front), last, account, id);
    }
  }

  /** Fetches committed with their own limit announce a message at most once: after one that holds it,
      through every run, crashes, damage, restarts and other accounts included, no gated commit announces
      it for as long as the account's own Inbox commits still hold it. */
  lemma NeverAnnouncedAgain(before: seq<Event>, commit: Event, events: seq<Event>, id: MessageId, account: string,
                            incoming: Snapshot)
    requires IsInboxCommit(Run(EMPTY_STORE, before), commit) && FetchesInbox(commit, id)
    requires StaysInInbox(Step(Run(EMPTY_STORE, before), commit), events, account, id)
    ensures id !in Announced(Run(Step(Run(EMPTY_STORE, before), commit), events), account, incoming)
  {
    hide ValidStored, Step, StaysInInbox, ReplaceResult, FetchesInbox, EqualIgnoringCase;
    var s := Step(Run(EMPTY_STORE, before), commit);
    FetchedIsSilent(Run(EMPTY_STORE, before), commit, account, id);
    SilenceStays(s, events, account, id);
    var now := Run(s, events);
    if Baseline(now, account).Some? {
      AnnouncedRows(incoming.messages, Baseline(now, account).value);
    }
  }
}
