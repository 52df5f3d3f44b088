/** When the folder cache takes a fetched folder (src/cache.rs), stated on what was fetched and what is stored:
    the rows must be sound, and no other view may hold rows of a mailbox the new catalog has renamed. */
module CommitValidity {
  import opened Numbers
  import opened Results
  import opened Text
  import opened Sorting
  import opened MessageIds
  import opened Mail
  import opened FolderStore
  import opened FolderCacheRefinement
  import opened FolderCacheRetention

  // ----- sound rows and catalogs -----

  predicate Printable(s: string, bytes: nat) {
    Utf8Length(s) <= bytes && !HasControl(s)
  }

  ghost predicate CanonicalId(id: MessageId) {
    exists n | 1 <= n <= 0xFFFF_FFFF_FFFF_FFFF :: id == Gmail(n)
  }

  /** A row of the folder, whose mailbox goes by this name. */
  ghost predicate SoundRow(row: MessageSummary, folder: FolderId, mailbox: string) {
    && CanonicalId(row.id) && row.folderId == folder && row.locator.folderId == folder
    && row.locator.mailbox == mailbox && row.locator.uid >= 1 && row.locator.uidValidity >= 1
    && !IsBlank(mailbox) && Printable(mailbox, 1024)
    && (folder == Inbox ==> Lower(mailbox) == Lower("INBOX")) && (folder.Label? ==> folder.mailbox == mailbox)
    && |row.labels| <= 256 && forall name <- row.labels :: name != "" && Printable(name, 1024)
  }

  function KindOf(id: FolderId): FolderKind {
    match id
    case Inbox => InboxKind
    case Sent => SentKind
    case AllMail => AllMailKind
    case Trash => TrashKind
    case Starred => StarredKind
    case Label(_) => LabelKind
  }

  predicate SoundFolder(d: FolderDescriptor) {
    && !IsBlank(d.mailbox) && Printable(d.mailbox, 1024) && !IsBlank(d.displayName) && Printable(d.displayName, 1024)
    && d.kind == KindOf(d.id) && (d.id.Label? ==> d.id.mailbox == d.mailbox)
  }

  predicate SoundCatalog(catalog: FolderCatalog) {
    |catalog.folders| <= 256 && forall d <- catalog.folders :: SoundFolder(d)
  }

  lemma CanonicalExact(id: MessageId)
    ensures GmailValue(id).Some? <==> CanonicalId(id)
  {
    if GmailValue(id).Some? { GmailRoundTrip(id, GmailValue(id).value); }
    if n :| 1 <= n <= 0xFFFF_FFFF_FFFF_FFFF && id == Gmail(n) { GmailRoundTrip(id, n); }
  }

  lemma RowExact(catalog: FolderCatalog, folder: FolderId, row: MessageSummary)
    ensures ValidRow(catalog, folder, row) <==>
            catalog.Find(folder).Some? && SoundRow(row, folder, catalog.Find(folder).value.mailbox)
  {
    hide IsBlank, HasControl, Utf8Length, CanonicalId, GmailValue, Lower, FolderCatalog.Find;
    CanonicalExact(row.id);
  }

  lemma FolderExact(d: FolderDescriptor)
    ensures d.IsValid() <==> SoundFolder(d)
  {
    hide IsBlank, HasControl, Utf8Length;
  }

  // ----- the record a reader accepts -----

  ghost predicate SoundView(catalog: FolderCatalog, view: FolderView) {
    view.requestedLimit in [50, 100, 250, 500] && |view.messages| <= 500
    && SoundRows(view.messages, view.folderId, catalog)
  }

  ghost predicate SoundRecord(stored: StoredMailbox) {
    && stored.version in [3, 4] && !IsBlank(stored.account) && Printable(stored.account, 320)
    && SoundCatalog(stored.catalog)
    && |stored.watermark.observed| <= 500
    && (forall id <- stored.watermark.observed :: CanonicalId(id))
    && (forall i, j | 0 <= i < j < |stored.watermark.observed| ::
          stored.watermark.observed[i] != stored.watermark.observed[j])
    && |stored.views| <= 8 && DistinctFolders(stored.views)
    && forall view <- stored.views :: SoundView(stored.catalog, view)
  }

  lemma ViewExact(catalog: FolderCatalog, view: FolderView)
    ensures ValidView(catalog, view) <==> SoundView(catalog, view)
  {
    hide ValidRow, SoundRow, FolderCatalog.Find;
    forall row <- view.messages
      ensures ValidRow(catalog, view.folderId, row) <==>
              catalog.Find(view.folderId).Some?
              && SoundRow(row, view.folderId, catalog.Find(view.folderId).value.mailbox)
    {
      RowExact(catalog, view.folderId, row);
    }
  }

  /** A reader accepts a record exactly when all its parts are sound and it is of this version or the one before. */
  lemma AcceptedExactly(index: IndexFile)
    ensures Accepted(index).Some? <==> index.Holding? && SoundRecord(index.mailbox)
  {
    hide ValidView, SoundView, CanonicalId, IsBlank, HasControl, Utf8Length, SoundCatalog, FolderDescriptor.IsValid;
    hide GmailValue;
    if index.Holding? {
      CatalogExact(index.mailbox.catalog);
      forall view <- index.mailbox.views
        ensures ValidView(index.mailbox.catalog, view) <==> SoundView(index.mailbox.catalog, view)
      {
        ViewExact(index.mailbox.catalog, view);
      }
      forall id <- index.mailbox.watermark.observed ensures GmailValue(id).Some? <==> CanonicalId(id) {
        CanonicalExact(id);
      }
    }
  }

  // ----- the views a commit leaves -----

  /** The views that stay, if the commit succeeds. */
  function Staying(s: Store, e: Event): seq<FolderView>
    requires e.Replace?
  {
    Take(SortBy(Candidates(Before(s, e), e.folderId, e.incoming, e.limit, e.at), RecentFirst()), 8)
  }

  /** The fetched rows the cache is to hold are sound and their ids distinct. */
  ghost predicate SoundRows(rows: Rows, folder: FolderId, catalog: FolderCatalog) {
    && catalog.Find(folder).Some? && DistinctIds(rows)
    && forall row <- rows :: SoundRow(row, folder, catalog.Find(folder).value.mailbox)
  }

  ghost predicate CanonicalIds(rows: Rows) {
    DistinctIds(rows) && forall row <- rows :: CanonicalId(row.id)
  }

  /** The view's rows come from the mailbox the catalog now names. */
  predicate KeepsMailbox(view: FolderView, catalog: FolderCatalog) {
    var folder := catalog.Find(view.folderId);
    folder.Some? && forall row <- view.messages :: row.locator.mailbox == folder.value.mailbox
  }

  lemma OldViewExact(former: FolderCatalog, catalog: FolderCatalog, view: FolderView)
    requires ValidView(former, view) && catalog.Find(view.folderId).Some?
    ensures ValidView(catalog, view) <==> KeepsMailbox(view, catalog)
  {
    hide GmailValue, ValidLabel, FolderCatalog.Find, Locator.IsValid;
    if KeepsMailbox(view, catalog) {
      forall row <- view.messages ensures ValidRow(catalog, view.folderId, row) {
        assert ValidRow(former, view.folderId, row);
      }
    }
    if ValidView(catalog, view) {
      forall row <- view.messages ensures row.locator.mailbox == catalog.Find(view.folderId).value.mailbox {
        assert ValidRow(catalog, view.folderId, row);
      }
    }
  }

  lemma NewViewExact(e: Event)
    requires e.Replace? && ValidLimit(e.limit)
    ensures ValidView(e.incoming.catalog, Written(e)) <==>
            SoundRows(Newest(e.incoming.messages, e.folderId, e.limit), e.folderId, e.incoming.catalog)
  {
    hide ValidView, SoundRows, Newest, FolderCatalog.Find;
    NewestBound(e.incoming.messages, e.folderId, e.limit);
    ViewExact(e.incoming.catalog, Written(e));
  }

  lemma NewestBound(rows: Rows, folder: FolderId, limit: nat)
    ensures |Newest(rows, folder, limit)| <= MAX_SUMMARIES_PER_FOLDER
  {
    hide SortBy, Filter;
  }

  lemma WatermarkExact(rows: Rows)
    requires |rows| <= MAX_SUMMARIES_PER_FOLDER
    ensures ValidWatermark(InboxWatermark(true, Ids(rows))) <==> CanonicalIds(rows)
  {
    hide GmailValue, CanonicalId;
    var ids := Ids(rows);
    forall row <- rows ensures GmailValue(row.id).Some? <==> CanonicalId(row.id) { CanonicalExact(row.id); }
    if ValidWatermark(InboxWatermark(true, ids)) {
      forall row <- rows ensures CanonicalId(row.id) {
        var i :| 0 <= i < |rows| && rows[i] == row;
        assert ids[i] in ids;
      }
    }
    if CanonicalIds(rows) {
      forall id <- ids ensures GmailValue(id).Some? {
        var i :| 0 <= i < |ids| && ids[i] == id;
        assert rows[i] in rows;
      }
    }
  }

  lemma StayingShape(s: Store, e: Event)
    requires e.Replace?
    ensures |Staying(s, e)| <= 8 && DistinctFolders(Staying(s, e))
    ensures forall view <- Staying(s, e) ::
              view == Written(e)
              || (view in Before(s, e).views && view.folderId != e.folderId
                  && e.incoming.catalog.Find(view.folderId).Some?)
  {
    hide FreshView, Candidates, SortBy, FolderCatalog.Find;
    var base := Before(s, e);
    var all := Candidates(base, e.folderId, e.incoming, e.limit, e.at);
    BaseIsDistinct(s, e);
    CandidatesDistinct(base, e.folderId, e.incoming, e.limit, e.at);
    SortKeepsDistinct(all);
    SortKeepsMembers(all, RecentFirst());
    TakeMembers(SortBy(all, RecentFirst()), 8);
  }

  /** What the parts of the new record must satisfy. */
  ghost predicate SoundCommit(s: Store, e: Event)
    requires e.Replace?
  {
    var rows := Newest(e.incoming.messages, e.folderId, e.limit);
    && (SameAccount(Accepted(Resumed(s).index), e.account).None? ==> Printable(e.account, 320))
    && SoundCatalog(e.incoming.catalog)
    && (e.folderId == Inbox ==> CanonicalIds(rows))
    && forall view <- Staying(s, e) ::
         if view == Written(e) then SoundRows(rows, e.folderId, e.incoming.catalog)
         else KeepsMailbox(view, e.incoming.catalog)
  }

  lemma ViewsExact(s: Store, e: Event)
    requires e.Replace? && ValidLimit(e.limit)
    ensures forall view <- Staying(s, e) ::
              ValidView(e.incoming.catalog, view) <==>
              if view == Written(e)
              then SoundRows(Newest(e.incoming.messages, e.folderId, e.limit), e.folderId, e.incoming.catalog)
              else KeepsMailbox(view, e.incoming.catalog)
  {
    hide ValidView, SoundRows, KeepsMailbox, Staying, FreshView, FolderCatalog.Find, Newest;
    StayingShape(s, e);
    NewViewExact(e);
    forall view <- Staying(s, e) | view != Written(e)
      ensures ValidView(e.incoming.catalog, view) <==> KeepsMailbox(view, e.incoming.catalog)
    {
      StoredViewValid(s, e, view);
      OldViewExact(Before(s, e).catalog, e.incoming.catalog, view);
    }
  }

  lemma StoredViewValid(s: Store, e: Event, view: FolderView)
    requires e.Replace? && view in Before(s, e).views
    ensures ValidView(Before(s, e).catalog, view)
  {
    hide ValidView, ValidWatermark, IsBlank, HasControl, Utf8Length;
  }

  lemma BaseSound(s: Store, e: Event)
    requires e.Replace? && !IsBlank(e.account)
    ensures var base := Before(s, e);
            && ValidWatermark(base.watermark) && !IsBlank(base.account)
            && (SameAccount(Accepted(Resumed(s).index), e.account).Some? ==> Printable(base.account, 320))
            && (SameAccount(Accepted(Resumed(s).index), e.account).None? ==> base.account == e.account)
  {
    hide ValidView, IsBlank, HasControl, Utf8Length, GmailValue;
  }

  lemma CatalogExact(catalog: FolderCatalog)
    ensures SoundCatalog(catalog) <==>
            |catalog.folders| <= MAX_FOLDER_CATALOG_ENTRIES && forall d <- catalog.folders :: d.IsValid()
  {
    hide FolderDescriptor.IsValid, SoundFolder;
    forall d <- catalog.folders ensures d.IsValid() <==> SoundFolder(d) { FolderExact(d); }
  }

  lemma RecordExact(s: Store, e: Event)
    requires e.Replace? && ValidLimit(e.limit) && !IsBlank(e.account)
    ensures ValidStored(Replaced(Accepted(Resumed(s).index), e.account, e.folderId, e.incoming, e.limit, e.at))
       <==> SoundCommit(s, e)
  {
    hide ValidView, SoundRows, KeepsMailbox, FreshView, FolderCatalog.Find, Newest, Candidates, ValidWatermark;
    hide CanonicalIds, IsBlank, HasControl, Utf8Length, SoundCatalog, FolderDescriptor.IsValid;
    StayingShape(s, e);
    ViewsExact(s, e);
    BaseSound(s, e);
    CatalogExact(e.incoming.catalog);
    NewestBound(e.incoming.messages, e.folderId, e.limit);
    WatermarkExact(Newest(e.incoming.messages, e.folderId, e.limit));
  }

  /** A fetched folder is committed exactly when the limit is one of those offered, the account's address is sound,
      the catalog is sound, the rows to be kept are sound, and each other view that stays holds rows of the mailbox
      the new catalog names for its folder. */
  lemma CommitsExactly(s: Store, e: Event)
    requires e.Replace?
    ensures Commits(s, e) <==> e.limit in [50, 100, 250, 500] && !IsBlank(e.account) && SoundCommit(s, e)
  {
    hide ValidStored, SoundCommit, Replaced, IsBlank;
    if ValidLimit(e.limit) && !IsBlank(e.account) { RecordExact(s, e); }
  }

  /** The record committed is of version 4, under the fetched catalog, for the account under the spelling it was first
      stored with; the other views that stay are as they were. */
  lemma CommittedRecord(s: Store, e: Event)
    requires Commits(s, e)
    ensures var now := Step(s, e);
            && now.index.Holding? && !now.marker && SoundRecord(now.index.mailbox)
            && now.index.mailbox.version == 4 && now.index.mailbox.catalog == e.incoming.catalog
            && (now.index.mailbox.account ==
                if !s.marker && s.index.Holding? && SoundRecord(s.index.mailbox)
                   && Lower(s.index.mailbox.account) == Lower(e.account) then s.index.mailbox.account
                else e.account)
            && forall view <- now.index.mailbox.views ::
                 view.folderId == e.folderId || (s.index.Holding? && view in s.index.mailbox.views)
  {
    hide ValidStored, SoundRecord, Lower, FreshView, SortBy, Take, FolderCatalog.Find, Newest, IsBlank;
    AcceptedExactly(s.index);
    AcceptedExactly(Step(s, e).index);
    StayingShape(s, e);
    WrittenFolder(e);
  }

  /** Once the catalog gives another folder's mailbox a new name, no commit succeeds while that folder's view, with
      rows of the old name, stays among the eight: not even of sound rows. The store is left as it was. */
  lemma RenamedFolderBlocksCommit(s: Store, e: Event, view: FolderView, row: MessageSummary)
    requires e.Replace? && !s.marker && view in Staying(s, e) && view.folderId != e.folderId && row in view.messages
    requires e.incoming.catalog.Find(view.folderId).Some?
    requires e.incoming.catalog.Find(view.folderId).value.mailbox != row.locator.mailbox
    ensures !Commits(s, e) && Step(s, e) == s
    ensures ValidLimit(e.limit) && !IsBlank(e.account) ==>
              ReplaceResult(s, e.account, e.folderId, e.incoming, e.limit, e.at) == Err(InvalidSnapshot)
  {
    hide ValidStored, Replaced, IsBlank, Staying, FolderCatalog.Find, Newest;
    CommitsExactly(s, e);
    WrittenFolder(e);
    assert !KeepsMailbox(view, e.incoming.catalog);
  }

  const SENT_ROW := MessageSummary(Gmail(7), Sent, Locator(Sent, "S", 1, 1), "", None, false, false, false, false, [],
                                   false)
  const SENT_VIEW := FolderView(Sent, 0, 50, 0, 0, [SENT_ROW])
  const OLD_CATALOG := FolderCatalog([FolderDescriptor(Sent, "S", "S", SentKind)])
  const NEW_CATALOG := FolderCatalog([FolderDescriptor(Inbox, "INBOX", "I", InboxKind),
                                      FolderDescriptor(Sent, "T", "T", SentKind)])

  lemma OneLetter(name: string)
    requires |name| == 1 && 'A' <= name[0] <= 'z'
    ensures !IsBlank(name) && Printable(name, 320) && Printable(name, 1024)
  {
    assert name[0] in name && name[1..] == "" && forall c <- name :: c == name[0];
  }

  lemma SentIsSound()
    ensures SoundRecord(StoredMailbox(4, "a", OLD_CATALOG, [SENT_VIEW], NO_WATERMARK))
  {
    OneLetter("a");
    OneLetter("S");
    assert CanonicalId(Gmail(7));
    assert OLD_CATALOG.Find(Sent) == Some(OLD_CATALOG.folders[0]);
    hide IsBlank, Printable, CanonicalId;
    assert SoundRow(SENT_ROW, Sent, "S");
  }

  /** With Sent cached under its old name, an Inbox fetched without any mail, under a sound catalog with the new
      name, is not committed. */
  lemma RenamedFolderExample()
    ensures var s := Store(Holding(StoredMailbox(4, "a", OLD_CATALOG, [SENT_VIEW], NO_WATERMARK)), false);
            var e := Replace("a", Inbox, Snapshot([], NEW_CATALOG, 0, 50, 0, 0, 0), 50, 1);
            SoundCatalog(NEW_CATALOG) && ReplaceResult(s, "a", Inbox, e.incoming, 50, 1) == Err(InvalidSnapshot)
  {
    var stored := StoredMailbox(4, "a", OLD_CATALOG, [SENT_VIEW], NO_WATERMARK);
    var s, e := Store(Holding(stored), false), Replace("a", Inbox, Snapshot([], NEW_CATALOG, 0, 50, 0, 0, 0), 50, 1);
    SentIsSound();
    AcceptedExactly(s.index);
    OneLetter("a");
    OneLetter("I");
    OneLetter("T");
    InboxName();
    hide SoundRecord, IsBlank, Printable;
    assert SoundFolder(NEW_CATALOG.folders[0]) && SoundFolder(NEW_CATALOG.folders[1]);
    assert NEW_CATALOG.Find(Sent) == Some(NEW_CATALOG.folders[1]) by {
      var at := FindAt(NEW_CATALOG.folders, Sent);
    }
    hide FreshView;
    SentStays(s, e);
    RenamedFolderBlocksCommit(s, e, SENT_VIEW, SENT_ROW);
  }

  lemma InboxName()
    ensures !IsBlank("INBOX") && Printable("INBOX", 1024)
  {
    assert "INBOX"[0] in "INBOX";
    assert "INBOX"[1..] == "NBOX" && "NBOX"[1..] == "BOX" && "BOX"[1..] == "OX" && "OX"[1..] == "X" && "X"[1..] == "";
  }

  lemma SentStays(s: Store, e: Event)
    requires e.Replace? && e.folderId == Inbox && Before(s, e).views == [SENT_VIEW]
    requires e.incoming.catalog.Find(Sent).Some?
    ensures SENT_VIEW in Staying(s, e)
  {
    hide FreshView, SortBy, FolderCatalog.Find;
    var all := Candidates(Before(s, e), e.folderId, e.incoming, e.limit, e.at);
    assert [SENT_VIEW][1..] == [];
    assert Filter([SENT_VIEW], StillListed(e.folderId, e.incoming.catalog)) == [SENT_VIEW];
    assert all == [SENT_VIEW, Written(e)];
    SortKeepsMembers(all, RecentFirst());
    SortElements(all, RecentFirst());
    assert |multiset(all)| == |all| && |multiset(SortBy(all, RecentFirst()))| == |SortBy(all, RecentFirst())|;
  }

  lemma WrittenFolder(e: Event)
    requires e.Replace?
    ensures Written(e).folderId == e.folderId
  {
  }

  // ----- gates of a load -----

  /** While an account cleanup is pending, for another account, for a folder never cached and for an index that
      cannot be read, a load is a miss that writes nothing; errors are told by the limit and the address. */
  lemma LoadGates(s: Store, account: string, folder: FolderId, limit: nat, at: nat)
    ensures var r := LoadResult(s, account, folder, limit);
            && (r == Err(InvalidLimit) <==> limit !in [50, 100, 250, 500])
            && (r == Err(EmptyAccount) <==> limit in [50, 100, 250, 500] && IsBlank(account))
            && (r.Ok? && r.value.Some? <==>
                  && limit in [50, 100, 250, 500] && !IsBlank(account) && !s.marker
                  && s.index.Holding? && SoundRecord(s.index.mailbox)
                  && Lower(s.index.mailbox.account) == Lower(account)
                  && exists view <- s.index.mailbox.views :: view.folderId == folder)
            && (!(r.Ok? && r.value.Some?) ==> LoadStore(s, account, folder, limit, at) == s)
  {
    hide ValidStored, SoundRecord, Trimmed, IsBlank, Lower;
    AcceptedExactly(s.index);
  }

  /** A hit stamps the view it shows with the time of the load, and changes nothing else. */
  lemma LoadStamps(s: Store, account: string, folder: FolderId, limit: nat, at: nat)
    requires LoadResult(s, account, folder, limit).Ok? && LoadResult(s, account, folder, limit).value.Some?
    ensures var now := LoadStore(s, account, folder, limit, at);
            && now.index.Holding? && now.marker == s.marker
            && now.index.mailbox == s.index.mailbox.(views := now.index.mailbox.views)
            && |now.index.mailbox.views| == |s.index.mailbox.views|
            && forall v | 0 <= v < |s.index.mailbox.views| ::
                 var was, view := s.index.mailbox.views[v], now.index.mailbox.views[v];
                 view == was.(lastAccessed := if was.folderId == folder then at else was.lastAccessed)
  {
    hide ValidView, ValidWatermark, Trimmed, IsBlank, EqualIgnoringCase;
  }

  /** A folder loaded at a time later than every other view's is kept like one just written: over every undisturbed
      run in which fewer than eight other folders are opened or written, every load of it stays a hit. */
  lemma LoadedIsKept(s: Store, load: Event, events: seq<Event>, reader: string, limit: nat)
    requires load.Load? && Current(s, load.loadAccount)
    requires LoadResult(s, load.loadAccount, load.loadFolder, load.loadLimit).Ok?
             && LoadResult(s, load.loadAccount, load.loadFolder, load.loadLimit).value.Some?
    requires forall view <- s.index.mailbox.views | view.folderId != load.loadFolder :: view.lastAccessed < load.loadAt
    requires UndisturbedRun(Step(s, load), events, load.loadAccount)
             && SparesRun(Step(s, load), events, load.loadFolder, load.loadAt)
    requires |Touched(events) - {load.loadFolder}| < 8
    requires ValidLimit(limit) && !IsBlank(reader) && EqualIgnoringCase(load.loadAccount, reader)
    ensures var r := LoadResult(Run(Step(s, load), events), reader, load.loadFolder, limit); r.Ok? && r.value.Some?
  {
    hide ValidStored, UndisturbedRun, SparesRun, Run, EqualIgnoringCase, IsBlank, LoadResult;
    StepKeepsWatermark(s, load, load.loadAccount);
    LoadRetained(s, load);
    RunRetains(Step(s, load), events, load.loadAccount, load.loadFolder, load.loadAt);
    RetainedIsFound(Run(Step(s, load), events), load.loadAccount, reader, load.loadFolder, load.loadAt, Touched(events),
                    limit);
  }

  lemma LoadRetained(s: Store, load: Event)
    requires load.Load? && Accepted(Step(s, load).index).Some?
    requires LoadResult(s, load.loadAccount, load.loadFolder, load.loadLimit).Ok?
             && LoadResult(s, load.loadAccount, load.loadFolder, load.loadLimit).value.Some?
    requires forall view <- s.index.mailbox.views | view.folderId != load.loadFolder :: view.lastAccessed < load.loadAt
    ensures Retained(Step(s, load), load.loadFolder, load.loadAt, {})
  {
    hide ValidStored, Trimmed, IsBlank, EqualIgnoringCase;
    var views, now := s.index.mailbox.views, Step(s, load).index.mailbox.views;
    var i := IndexOf(views, load.loadFolder);
    assert now[i] in now && now[i].folderId == load.loadFolder && now[i].lastAccessed >= load.loadAt;
    forall view <- now | view.lastAccessed >= load.loadAt ensures view.folderId == load.loadFolder {
      var k :| 0 <= k < |now| && now[k] == view;
      assert views[k] in views;
    }
  }
}
