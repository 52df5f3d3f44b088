/** The bounded folder-view cache and its notification watermark (src/cache.rs).

    `Store` is what is on disk: the mailbox index and the account-cleanup marker. The functions
    below say what each operation leaves there; the class performs them. */
module FolderStore {
  import opened Results
  import opened Text
  import opened Sorting
  import opened MessageIds
  import opened Mail

  const MAX_CACHED_FOLDER_VIEWS: nat := 8
  const MAX_SUMMARIES_PER_FOLDER: nat := 500
  const MAILBOX_VERSION: nat := 4
  const PREVIOUS_MAILBOX_VERSION: nat := 3

  type Rows = seq<MessageSummary>

  datatype Snapshot = Snapshot(messages: Rows, catalog: FolderCatalog, completedAt: nat, requestedLimit: nat,
                               loadedCount: nat, fallbackCount: nat, skippedCount: nat)

  datatype FolderView = FolderView(folderId: FolderId, completedAt: nat, requestedLimit: nat, skippedCount: nat,
                                   lastAccessed: nat, messages: Rows)

  datatype InboxWatermark = InboxWatermark(initialized: bool, observed: seq<MessageId>)

  const NO_WATERMARK := InboxWatermark(false, [])

  datatype StoredMailbox = StoredMailbox(version: nat, account: string, catalog: FolderCatalog,
                                         views: seq<FolderView>, watermark: InboxWatermark)

  /** The index file: missing, over-size or unparsable, or a record (valid or not). */
  datatype IndexFile = Absent | Unreadable | Holding(mailbox: StoredMailbox)

  datatype Store = Store(index: IndexFile, marker: bool)

  datatype StoreError = InvalidLimit | EmptyAccount | InvalidSnapshot | UnreadableIndex

  predicate ValidLimit(limit: nat) {
    limit == 50 || limit == 100 || limit == 250 || limit == 500
  }

  // ----- validity -----

  ghost predicate DistinctIds(rows: Rows) {
    forall i, j | 0 <= i < j < |rows| :: rows[i].id != rows[j].id
  }

  /** Rows listed for one folder. */
  predicate RowsOf(folder: FolderId, rows: Rows) {
    forall row <- rows :: row.folderId == folder
  }

  predicate ValidLabel(name: string) {
    name != "" && Utf8Length(name) <= MAX_FOLDER_MAILBOX_BYTES && !HasControl(name)
  }

  predicate ValidRow(catalog: FolderCatalog, folderId: FolderId, row: MessageSummary) {
    && GmailValue(row.id).Some?
    && |row.labels| <= MAX_MESSAGE_LABELS && (forall name <- row.labels :: ValidLabel(name))
    && row.folderId == folderId && row.locator.folderId == folderId && row.locator.IsValid()
    && catalog.Find(folderId).Some? && catalog.Find(folderId).value.mailbox == row.locator.mailbox
  }

  predicate ValidView(catalog: FolderCatalog, view: FolderView) {
    && ValidLimit(view.requestedLimit)
    && |view.messages| <= MAX_SUMMARIES_PER_FOLDER
    && catalog.Find(view.folderId).Some?
    && (forall row <- view.messages :: ValidRow(catalog, view.folderId, row))
    && (forall i, j | 0 <= i < j < |view.messages| :: view.messages[i].id != view.messages[j].id)
  }

  predicate ValidWatermark(w: InboxWatermark) {
    && |w.observed| <= MAX_SUMMARIES_PER_FOLDER
    && (forall id <- w.observed :: GmailValue(id).Some?)
    && (forall i, j | 0 <= i < j < |w.observed| :: w.observed[i] != w.observed[j])
  }

  predicate ValidStored(stored: StoredMailbox) {
    && (stored.version == MAILBOX_VERSION || stored.version == PREVIOUS_MAILBOX_VERSION)
    && !IsBlank(stored.account) && Utf8Length(stored.account) <= 320 && !HasControl(stored.account)
    && |stored.views| <= MAX_CACHED_FOLDER_VIEWS
    && |stored.catalog.folders| <= MAX_FOLDER_CATALOG_ENTRIES
    && (forall folder <- stored.catalog.folders :: folder.IsValid())
    && ValidWatermark(stored.watermark)
    && (forall view <- stored.views :: ValidView(stored.catalog, view))
    && (forall i, j | 0 <= i < j < |stored.views| :: stored.views[i].folderId != stored.views[j].folderId)
  }

  /** The record a reader accepts. */
  function Accepted(index: IndexFile): Option<StoredMailbox> {
    if index.Holding? && ValidStored(index.mailbox) then Some(index.mailbox) else None
  }

  // ----- newest-first rows -----

  predicate NewerOrSame(l: MessageSummary, r: MessageSummary) {
    match (l.receivedAt, r.receivedAt)
    case (None, None) => AtMost(r.id.text, l.id.text)
    case (Some(a), Some(b)) => a > b || (a == b && AtMost(r.id.text, l.id.text))
    case (Some(_), None) => true
    case (None, Some(_)) => false
  }

  function NewestFirst(): (MessageSummary, MessageSummary) -> bool {
    (l, r) => NewerOrSame(l, r)
  }

  lemma NewestFirstIsOrder()
    ensures TotalOrder(NewestFirst())
  {
    forall x, y ensures NewestFirst()(x, y) || NewestFirst()(y, x) {
      AtMostTotal(x.id.text, y.id.text);
    }
    forall x, y, z | NewestFirst()(x, y) && NewestFirst()(y, z) ensures NewestFirst()(x, z) {
      if AtMost(y.id.text, x.id.text) && AtMost(z.id.text, y.id.text) {
        AtMostTransitive(z.id.text, y.id.text, x.id.text);
      }
    }
  }

  function InFolder(folderId: FolderId): MessageSummary -> bool {
    (row: MessageSummary) => row.folderId == folderId
  }

  function Bound(limit: nat): nat {
    if limit < MAX_SUMMARIES_PER_FOLDER then limit else MAX_SUMMARIES_PER_FOLDER
  }

  function Trimmed(rows: Rows, limit: nat): Rows {
    Take(SortBy(rows, NewestFirst()), Bound(limit))
  }

  /** The newest rows of one folder. */
  function Newest(rows: Rows, folderId: FolderId, limit: nat): Rows {
    Take(Filter(SortBy(rows, NewestFirst()), InFolder(folderId)), Bound(limit))
  }

  function MapRows(rows: Rows, f: MessageSummary -> MessageSummary): (r: Rows)
    ensures |r| == |rows| && forall i | 0 <= i < |rows| :: r[i] == f(rows[i])
  {
    seq(|rows|, i requires 0 <= i < |rows| => f(rows[i]))
  }

  function MapViews(views: seq<FolderView>, f: FolderView -> FolderView): (r: seq<FolderView>)
    ensures |r| == |views| && forall i | 0 <= i < |views| :: r[i] == f(views[i])
  {
    seq(|views|, i requires 0 <= i < |views| => f(views[i]))
  }

  function Ids(rows: Rows): (r: seq<MessageId>)
    ensures |r| == |rows| && forall i | 0 <= i < |rows| :: r[i] == rows[i].id
  {
    seq(|rows|, i requires 0 <= i < |rows| => rows[i].id)
  }

  // ----- replacing a folder -----

  function FolderKey(id: FolderId): string {
    match id
    case Inbox => "0-inbox"
    case Starred => "1-starred"
    case Sent => "2-sent"
    case AllMail => "3-all"
    case Trash => "4-trash"
    case Label(mailbox) => "5-" + mailbox
  }

  predicate RecentOrSame(l: FolderView, r: FolderView) {
    l.lastAccessed > r.lastAccessed
    || (l.lastAccessed == r.lastAccessed && AtMost(FolderKey(l.folderId), FolderKey(r.folderId)))
  }

  function RecentFirst(): (FolderView, FolderView) -> bool {
    (l, r) => RecentOrSame(l, r)
  }

  lemma RecentFirstIsOrder()
    ensures TotalOrder(RecentFirst())
  {
    forall x, y ensures RecentFirst()(x, y) || RecentFirst()(y, x) {
      AtMostTotal(FolderKey(x.folderId), FolderKey(y.folderId));
    }
    forall x, y, z | RecentFirst()(x, y) && RecentFirst()(y, z) ensures RecentFirst()(x, z) {
      if AtMost(FolderKey(x.folderId), FolderKey(y.folderId)) && AtMost(FolderKey(y.folderId), FolderKey(z.folderId)) {
        AtMostTransitive(FolderKey(x.folderId), FolderKey(y.folderId), FolderKey(z.folderId));
      }
    }
  }

  lemma FolderKeyInjective(a: FolderId, b: FolderId)
    requires FolderKey(a) == FolderKey(b)
    ensures a == b
  {
    if a.Label? { assert FolderKey(a)[0] == '5' && FolderKey(a)[2..] == a.mailbox; }
    if b.Label? { assert FolderKey(b)[0] == '5' && FolderKey(b)[2..] == b.mailbox; }
    assert FolderKey(a)[0] == FolderKey(b)[0];
  }

  /** The other views a replacement keeps: those of folders the new catalog still lists. */
  function StillListed(folderId: FolderId, catalog: FolderCatalog): FolderView -> bool {
    (view: FolderView) => view.folderId != folderId && catalog.Find(view.folderId).Some?
  }

  function FreshView(folderId: FolderId, incoming: Snapshot, limit: nat, at: nat): FolderView {
    FolderView(folderId, incoming.completedAt, limit, incoming.skippedCount, at,
               Newest(incoming.messages, folderId, limit))
  }

  function SameAccount(previous: Option<StoredMailbox>, account: string): Option<StoredMailbox> {
    if previous.Some? && EqualIgnoringCase(previous.value.account, account) then previous else None
  }

  /** The record a replacement starts from: the account's own, or an empty one. */
  function BaseRecord(previous: Option<StoredMailbox>, account: string, catalog: FolderCatalog): StoredMailbox {
    var same := SameAccount(previous, account);
    if same.Some? then same.value else StoredMailbox(MAILBOX_VERSION, account, catalog, [], NO_WATERMARK)
  }

  /** The views competing for the eight places. */
  function Candidates(base: StoredMailbox, folderId: FolderId, incoming: Snapshot, limit: nat, at: nat): seq<FolderView>
  {
    Filter(base.views, StillListed(folderId, incoming.catalog)) + [FreshView(folderId, incoming, limit, at)]
  }

  /** The record a replacement writes over `previous`, the accepted record of the index. */
  function Replaced(previous: Option<StoredMailbox>, account: string, folderId: FolderId, incoming: Snapshot,
                    limit: nat, at: nat): StoredMailbox {
    var base := BaseRecord(previous, account, incoming.catalog);
    StoredMailbox(
      MAILBOX_VERSION, base.account, incoming.catalog,
      Take(SortBy(Candidates(base, folderId, incoming, limit, at), RecentFirst()), MAX_CACHED_FOLDER_VIEWS),
      if folderId == Inbox then InboxWatermark(true, Ids(Newest(incoming.messages, folderId, limit)))
      else base.watermark)
  }

  /** An interrupted account cleanup is finished before anything is replaced. */
  function Resumed(s: Store): Store {
    if s.marker then Store(Absent, false) else s
  }

  function CountFallbacks(rows: Rows): nat {
    if rows == [] then 0 else (if rows[|rows| - 1].usedFallback then 1 else 0) + CountFallbacks(rows[..|rows| - 1])
  }

  function Served(incoming: Snapshot, folderId: FolderId, limit: nat): Snapshot {
    var rows := Newest(incoming.messages, folderId, limit);
    incoming.(messages := rows, requestedLimit := limit, loadedCount := |rows|, fallbackCount := CountFallbacks(rows))
  }

  function ReplaceStore(s: Store, account: string, folderId: FolderId, incoming: Snapshot, limit: nat, at: nat): Store {
    if !ValidLimit(limit) || IsBlank(account) then s
    else
      var r := Resumed(s);
      var next := Replaced(Accepted(r.index), account, folderId, incoming, limit, at);
      if ValidStored(next) then Store(Holding(next), false) else r
  }

  function ReplaceResult(s: Store, account: string, folderId: FolderId, incoming: Snapshot, limit: nat, at: nat)
    : Result<Snapshot, StoreError>
  {
    if !ValidLimit(limit) then Err(InvalidLimit)
    else if IsBlank(account) then Err(EmptyAccount)
    else if ValidStored(Replaced(Accepted(Resumed(s).index), account, folderId, incoming, limit, at)) then
      Ok(Served(incoming, folderId, limit))
    else Err(InvalidSnapshot)
  }

  // ----- the notification gate -----

  function Unannounced(observed: seq<MessageId>): MessageSummary -> bool {
    (row: MessageSummary) => row.folderId == Inbox && row.unread && row.id !in observed
  }

  /** The baseline a gated commit compares with, if there is one. */
  function Baseline(s: Store, account: string): Option<seq<MessageId>> {
    var same := SameAccount(Accepted(s.index), account);
    if same.Some? && same.value.watermark.initialized then Some(same.value.watermark.observed) else None
  }

  function Announced(s: Store, account: string, incoming: Snapshot): seq<MessageId> {
    match Baseline(s, account)
    case None => []
    case Some(observed) => Ids(Filter(incoming.messages, Unannounced(observed)))
  }

  // ----- loading -----

  function IndexOf(views: seq<FolderView>, folderId: FolderId): (i: nat)
    ensures i <= |views| && (i < |views| ==> views[i].folderId == folderId)
    ensures forall j | 0 <= j < i :: views[j].folderId != folderId
  {
    if views == [] || views[0].folderId == folderId then 0 else 1 + IndexOf(views[1..], folderId)
  }

  /** The view a load finds. */
  function Findable(s: Store, account: string, folderId: FolderId): Option<FolderView> {
    var same := SameAccount(Accepted(s.index), account);
    if s.marker || same.None? then None
    else
      var i := IndexOf(same.value.views, folderId);
      if i == |same.value.views| then None else Some(same.value.views[i])
  }

  function SnapshotOf(catalog: FolderCatalog, view: FolderView): Snapshot {
    Snapshot(view.messages, catalog, view.completedAt, view.requestedLimit, |view.messages|,
             CountFallbacks(view.messages), view.skippedCount)
  }

  function LoadResult(s: Store, account: string, folderId: FolderId, limit: nat): Result<Option<Snapshot>, StoreError> {
    if !ValidLimit(limit) then Err(InvalidLimit)
    else if IsBlank(account) then Err(EmptyAccount)
    else
      match Findable(s, account, folderId)
      case None => Ok(None)
      case Some(view) =>
        Ok(Some(SnapshotOf(s.index.mailbox.catalog, view.(messages := Trimmed(view.messages, limit)))))
  }

  /** A load that finds its view stamps the access time; no other load writes. */
  function LoadStore(s: Store, account: string, folderId: FolderId, limit: nat, at: nat): Store {
    if !ValidLimit(limit) || IsBlank(account) || Findable(s, account, folderId).None? then s
    else
      var stored := s.index.mailbox;
      var i := IndexOf(stored.views, folderId);
      s.(index := Holding(stored.(views := stored.views[i := stored.views[i].(lastAccessed := at)])))
  }

  // ----- retention, confirmed mutations, reconciliation -----

  function Pruning(limit: nat): FolderView -> FolderView {
    (view: FolderView) => view.(messages := Trimmed(view.messages, limit), requestedLimit := limit)
  }

  function PruneStore(s: Store, limit: nat): Store {
    if ValidLimit(limit) && Accepted(s.index).Some? then
      s.(index := Holding(s.index.mailbox.(views := MapViews(s.index.mailbox.views, Pruning(limit)))))
    else s
  }

  function NotId(id: MessageId): MessageSummary -> bool {
    (row: MessageSummary) => row.id != id
  }

  function ConfirmFlags(mutation: Mutation, row: MessageSummary): MessageSummary {
    match mutation
    case Archive => row.(inInbox := false)
    case MoveToTrash(_) => row.(inInbox := false, inTrash := true)
    case RestoreArchive(_) => row.(inInbox := true, inTrash := false)
    case RestoreFromTrash(_, _, restoreInbox, _) => row.(inInbox := restoreInbox, inTrash := false)
    case _ => row
  }

  function Flagging(id: MessageId, mutation: Mutation): MessageSummary -> MessageSummary {
    (row: MessageSummary) => if row.id == id then ConfirmFlags(mutation, row) else row
  }

  function Applying(id: MessageId, mutation: Mutation): MessageSummary -> MessageSummary {
    (row: MessageSummary) => if row.id == id then Apply(mutation, row) else row
  }

  /** What a confirmed mutation does to the cached rows of one folder. */
  function ConfirmedRows(folderId: FolderId, rows: Rows, id: MessageId, mutation: Mutation): Rows {
    var flagged := MapRows(rows, Flagging(id, mutation));
    match mutation
    case RestoreArchive(_) => flagged
    case RestoreFromTrash(_, _, _, _) => flagged
    case Archive => if folderId == Inbox then Filter(flagged, NotId(id)) else MapRows(flagged, Applying(id, mutation))
    case MoveToTrash(_) =>
      if folderId != Trash then Filter(flagged, NotId(id)) else MapRows(flagged, Applying(id, mutation))
    case _ => MapRows(flagged, Applying(id, mutation))
  }

  function ReconcileRow(state: ReconciledState, row: MessageSummary): MessageSummary {
    row.(unread := state.unread, starred := state.starred, inInbox := state.inInbox, inTrash := state.inTrash,
         labels := state.labels)
  }

  function Reconciling(id: MessageId, state: ReconciledState): MessageSummary -> MessageSummary {
    (row: MessageSummary) => if row.id == id then ReconcileRow(state, row) else row
  }

  function ReconciledRows(folderId: FolderId, rows: Rows, id: MessageId, state: Option<ReconciledState>): Rows {
    match state
    case None => if folderId == Inbox then Filter(rows, NotId(id)) else rows
    case Some(known) => MapRows(rows, Reconciling(id, known))
  }

  /** The two kinds of change that are written to every view of the account. */
  datatype Change = Confirmed(mutation: Mutation) | Reconciled(state: Option<ReconciledState>)

  function ChangedRows(folderId: FolderId, rows: Rows, id: MessageId, change: Change): Rows {
    match change
    case Confirmed(mutation) => ConfirmedRows(folderId, rows, id, mutation)
    case Reconciled(state) => ReconciledRows(folderId, rows, id, state)
  }

  function Changing(id: MessageId, change: Change): FolderView -> FolderView {
    (view: FolderView) => view.(messages := ChangedRows(view.folderId, view.messages, id, change))
  }

  function ChangeStore(s: Store, account: string, id: MessageId, change: Change): Store {
    if !IsBlank(account) && SameAccount(Accepted(s.index), account).Some? then
      s.(index := Holding(s.index.mailbox.(views := MapViews(s.index.mailbox.views, Changing(id, change)))))
    else s
  }

  /** A change reports a blank account and an index it cannot read; other records are left alone. */
  function ChangeResult(s: Store, account: string): Result<(), StoreError> {
    if IsBlank(account) then Err(EmptyAccount)
    else if s.index.Unreadable? then Err(UnreadableIndex)
    else Ok(())
  }

  // ----- the operations -----

  class FolderCache {
    var index: IndexFile
    var marker: bool

    ghost function Disk(): Store
      reads this
    {
      Store(index, marker)
    }

    method ResumePendingAccountCleanup()
      modifies this
      ensures Disk() == Resumed(old(Disk()))
    {
      if !marker {
        return;
      }
      index := Absent;
      marker := false;
    }

    method BeginAccountCleanup()
      modifies this
      ensures Disk() == Store(Absent, false)
    {
      marker := true;
      ResumePendingAccountCleanup();
    }

    method ReplaceFolderAndSave(account: string, folderId: FolderId, incoming: Snapshot, limit: nat, accessedAt: nat)
      returns (r: Result<Snapshot, StoreError>)
      modifies this
      ensures r == ReplaceResult(old(Disk()), account, folderId, incoming, limit, accessedAt)
      ensures Disk() == ReplaceStore(old(Disk()), account, folderId, incoming, limit, accessedAt)
    {
      hide ValidStored;
      if !ValidLimit(limit) {
        return Err(InvalidLimit);
      }
      if IsBlank(account) {
        return Err(EmptyAccount);
      }
      ResumePendingAccountCleanup();
      var previous := Accepted(index);
      var accountChanged := previous.Some? && !EqualIgnoringCase(previous.value.account, account);
      var rows := SortBy(incoming.messages, NewestFirst());
      rows := Filter(rows, InFolder(folderId));
      rows := Take(rows, Bound(limit));
      var served := incoming.(messages := rows, requestedLimit := limit, loadedCount := |rows|,
                           fallbackCount := CountFallbacks(rows));
      var view := FolderView(folderId, incoming.completedAt, limit, incoming.skippedCount, accessedAt, rows);
      var stored := if previous.Some? && !accountChanged then previous.value
                    else StoredMailbox(MAILBOX_VERSION, account, incoming.catalog, [], NO_WATERMARK);
      stored := stored.(version := MAILBOX_VERSION, catalog := incoming.catalog);
      stored := stored.(views := Filter(stored.views, StillListed(folderId, incoming.catalog)));
      stored := stored.(views := stored.views + [view]);
      if folderId == Inbox {
        stored := stored.(watermark := InboxWatermark(true, Ids(rows)));
      }
      stored := stored.(views := SortBy(stored.views, RecentFirst()));
      stored := stored.(views := Take(stored.views, MAX_CACHED_FOLDER_VIEWS));
      if !ValidStored(stored) {
        return Err(InvalidSnapshot);
      }
      if accountChanged {
        BeginAccountCleanup();
      }
      index := Holding(stored);
      return Ok(served);
    }

    method ReplaceInboxWithNotificationGate(account: string, incoming: Snapshot, limit: nat, now: nat)
      returns (r: Result<(Snapshot, seq<MessageId>), StoreError>)
      modifies this
      ensures Disk() == ReplaceStore(old(Disk()), account, Inbox, incoming, limit, now)
      ensures match ReplaceResult(old(Disk()), account, Inbox, incoming, limit, now)
              case Err(e) => r == Err(e)
              case Ok(served) => r == Ok((served, Announced(old(Disk()), account, incoming)))
    {
      hide ValidStored;
      if !ValidLimit(limit) {
        return Err(InvalidLimit);
      }
      if IsBlank(account) {
        return Err(EmptyAccount);
      }
      var accepted := Accepted(index);
      var previous := if accepted.Some? && EqualIgnoringCase(accepted.value.account, account) then accepted else None;
      var observed := if previous.Some? && previous.value.watermark.initialized then previous.value.watermark.observed
                      else [];
      var newUnread := Ids(Filter(incoming.messages, Unannounced(observed)));
      var saved := ReplaceFolderAndSave(account, Inbox, incoming, limit, now);
      if saved.Err? {
        return Err(saved.error);
      }
      return Ok((saved.value, if previous.Some? && previous.value.watermark.initialized then newUnread else []));
    }

    method LoadFolder(account: string, folderId: FolderId, limit: nat, accessedAt: nat)
      returns (r: Result<Option<Snapshot>, StoreError>)
      modifies this
      ensures r == LoadResult(old(Disk()), account, folderId, limit)
      ensures Disk() == LoadStore(old(Disk()), account, folderId, limit, accessedAt)
    {
      hide ValidStored;
      if !ValidLimit(limit) {
        return Err(InvalidLimit);
      }
      if IsBlank(account) {
        return Err(EmptyAccount);
      }
      if marker {
        return Ok(None);
      }
      var accepted := Accepted(index);
      if accepted.None? || !EqualIgnoringCase(accepted.value.account, account) {
        return Ok(None);
      }
      var stored := accepted.value;
      var at := IndexOf(stored.views, folderId);
      if at == |stored.views| {
        return Ok(None);
      }
      stored := stored.(views := stored.views[at := stored.views[at].(lastAccessed := accessedAt)]);
      var view := stored.views[at];
      view := view.(messages := SortBy(view.messages, NewestFirst()));
      view := view.(messages := Take(view.messages, Bound(limit)));
      index := Holding(stored);
      return Ok(Some(SnapshotOf(stored.catalog, view)));
    }

    method SavePreferencesAndPrune(limit: nat) returns (r: Result<(), StoreError>)
      modifies this
      ensures r == if !ValidLimit(limit) then Err(InvalidLimit)
                   else if old(index).Unreadable? then Err(UnreadableIndex) else Ok(())
      ensures Disk() == PruneStore(old(Disk()), limit)
    {
      hide ValidStored;
      if !ValidLimit(limit) {
        return Err(InvalidLimit);
      }
      if index.Unreadable? {
        return Err(UnreadableIndex);
      }
      var accepted := Accepted(index);
      if accepted.Some? {
        var stored := accepted.value;
        var views := stored.views;
        for i := 0 to |views|
          invariant |views| == |stored.views|
          invariant forall j | 0 <= j < i :: views[j] == Pruning(limit)(stored.views[j])
          invariant forall j | i <= j < |views| :: views[j] == stored.views[j]
        {
          var rows := SortBy(views[i].messages, NewestFirst());
          views := views[i := views[i].(messages := Take(rows, Bound(limit)), requestedLimit := limit)];
        }
        assert views == MapViews(stored.views, Pruning(limit));
        index := Holding(stored.(views := views));
      }
      return Ok(());
    }

    method PersistConfirmedMutation(account: string, id: MessageId, mutation: Mutation)
      returns (r: Result<(), StoreError>)
      modifies this
      ensures r == ChangeResult(old(Disk()), account)
      ensures Disk() == ChangeStore(old(Disk()), account, id, Confirmed(mutation))
    {
      hide ValidStored, ConfirmedRows;
      if IsBlank(account) {
        return Err(EmptyAccount);
      }
      if index.Unreadable? {
        return Err(UnreadableIndex);
      }
      var accepted := Accepted(index);
      if accepted.None? || !EqualIgnoringCase(accepted.value.account, account) {
        return Ok(());
      }
      var stored := accepted.value;
      var views := stored.views;
      for i := 0 to |views|
        invariant |views| == |stored.views|
        invariant index == old(index) && marker == old(marker)
        invariant forall j | 0 <= j < i :: views[j] == Changing(id, Confirmed(mutation))(stored.views[j])
        invariant forall j | i <= j < |views| :: views[j] == stored.views[j]
      {
        var rows := ConfirmInView(views[i].folderId, views[i].messages, id, mutation);
        assert rows == ChangedRows(views[i].folderId, views[i].messages, id, Confirmed(mutation));
        views := views[i := views[i].(messages := rows)];
      }
      assert views == MapViews(stored.views, Changing(id, Confirmed(mutation)));
      index := Holding(stored.(views := views));
      return Ok(());
    }

    static method ConfirmInView(folderId: FolderId, messages: Rows, id: MessageId, mutation: Mutation)
      returns (rows: Rows)
      ensures rows == ConfirmedRows(folderId, messages, id, mutation)
    {
      hide ConfirmFlags, Apply;
      rows := messages;
      for i := 0 to |rows|
        invariant |rows| == |messages|
        invariant forall j | 0 <= j < i :: rows[j] == Flagging(id, mutation)(messages[j])
        invariant forall j | i <= j < |rows| :: rows[j] == messages[j]
      {
        if rows[i].id == id {
          rows := rows[i := ConfirmFlags(mutation, rows[i])];
        }
      }
      assert rows == MapRows(messages, Flagging(id, mutation));
      if mutation.Archive? && folderId == Inbox {
        rows := Filter(rows, NotId(id));
      } else if mutation.MoveToTrash? && folderId != Trash {
        rows := Filter(rows, NotId(id));
      } else if !mutation.RestoreArchive? && !mutation.RestoreFromTrash? {
        ghost var flagged := rows;
        for i := 0 to |rows|
          invariant |rows| == |flagged|
          invariant forall j | 0 <= j < i :: rows[j] == Applying(id, mutation)(flagged[j])
          invariant forall j | i <= j < |rows| :: rows[j] == flagged[j]
        {
          if rows[i].id == id {
            rows := rows[i := Apply(mutation, rows[i])];
          }
        }
        assert rows == MapRows(flagged, Applying(id, mutation));
      }
    }

    method PersistReconciledInbox(account: string, id: MessageId, state: Option<ReconciledState>)
      returns (r: Result<(), StoreError>)
      modifies this
      ensures r == ChangeResult(old(Disk()), account)
      ensures Disk() == ChangeStore(old(Disk()), account, id, Reconciled(state))
    {
      hide ValidStored;
      if IsBlank(account) {
        return Err(EmptyAccount);
      }
      if index.Unreadable? {
        return Err(UnreadableIndex);
      }
      var accepted := Accepted(index);
      if accepted.None? || !EqualIgnoringCase(accepted.value.account, account) {
        return Ok(());
      }
      var stored := accepted.value;
      var views := stored.views;
      for i := 0 to |views|
        invariant |views| == |stored.views|
        invariant forall j | 0 <= j < i :: views[j] == Changing(id, Reconciled(state))(stored.views[j])
        invariant forall j | i <= j < |views| :: views[j] == stored.views[j]
      {
        var rows := views[i].messages;
        if state.None? {
          if views[i].folderId == Inbox {
            rows := Filter(rows, NotId(id));
          }
        } else {
          for k := 0 to |rows|
            invariant |rows| == |views[i].messages|
            invariant forall j | 0 <= j < k :: rows[j] == Reconciling(id, state.value)(views[i].messages[j])
            invariant forall j | k <= j < |rows| :: rows[j] == views[i].messages[j]
          {
            if rows[k].id == id {
              rows := rows[k := ReconcileRow(state.value, rows[k])];
            }
          }
          assert rows == MapRows(views[i].messages, Reconciling(id, state.value));
        }
        views := views[i := views[i].(messages := rows)];
      }
      assert views == MapViews(stored.views, Changing(id, Reconciled(state)));
      index := Holding(stored.(views := views));
      return Ok(());
    }
  }
}
