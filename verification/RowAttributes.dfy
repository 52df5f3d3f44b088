/** What confirmed changes and Gmail's own reports write into each row, attribute by attribute, on screen
    (src/state.rs) and in the cached views (src/cache.rs). */
module RowAttributes {
  import opened Results
  import opened Text
  import opened Sorting
  import opened MessageIds
  import opened Mail
  import opened FolderStore
  import opened RowRemoval
  import opened MutationReducer
  import opened AnyOrderRefusal
  import opened RowMovement

  /** The attributes no change and no report touches. */
  predicate SameMail(a: MessageSummary, b: MessageSummary) {
    && a.id == b.id && a.folderId == b.folderId && a.locator == b.locator && a.heading == b.heading
    && a.receivedAt == b.receivedAt && a.usedFallback == b.usedFallback
  }

  /** The row carries what Gmail reported. */
  predicate Carries(row: MessageSummary, state: ReconciledState) {
    && row.unread == state.unread && row.starred == state.starred && row.inInbox == state.inInbox
    && row.inTrash == state.inTrash && row.labels == state.labels
  }

  /** Gmail lists a message with these attributes in the folder. */
  predicate ListedBy(folder: FolderId, starred: bool, inInbox: bool, inTrash: bool, labels: seq<string>) {
    && (folder == Inbox ==> inInbox)
    && (folder == Trash ==> inTrash)
    && (folder.Sent? || folder.AllMail? || folder.Starred? || folder.Label? ==> !inTrash)
    && (folder == Starred ==> starred)
    && (folder.Label? ==> folder.mailbox in labels)
  }

  predicate Stands(row: MessageSummary) {
    ListedBy(row.folderId, row.starred, row.inInbox, row.inTrash, row.labels)
  }

  lemma BelongsExact(row: MessageSummary)
    ensures BelongsInProjection(row) <==> Stands(row)
  {
  }

  lemma ReportExact(state: ReconciledState, row: MessageSummary)
    ensures SameMail(ReconcileRow(state, row), row) && Carries(ReconcileRow(state, row), state)
  {
  }

  /** The rows of other messages, in order. */
  function Others(rows: Rows, id: MessageId): Rows {
    if rows == [] then []
    else Others(rows[..|rows| - 1], id) + if rows[|rows| - 1].id == id then [] else [rows[|rows| - 1]]
  }

  lemma {:induction false} OthersFilter(rows: Rows, id: MessageId)
    ensures Filter(rows, NotId(id)) == Others(rows, id)
  {
    if rows != [] {
      var front, last := rows[..|rows| - 1], rows[|rows| - 1];
      assert rows == front + [last];
      OthersFilter(front, id);
      FilterAppend(front, [last], NotId(id));
      assert [last][1..] == [];
    }
  }

  // ----- on screen -----

  /** `row` is what the report makes of a row that stood in the list or was taken from a list by the change. */
  ghost predicate MadeFrom(rows: Rows, previous: PendingValue, row: MessageSummary) {
    || (exists was <- rows :: SameMail(row, was))
    || (exists r <- RestoredRows(previous) :: SameMail(row, r.message))
  }

  /** What a list shows after the report: rows of the message carry it and nothing else of them changed; no row
      stands where Gmail does not list it; and each row that stood there and belongs there still does. */
  ghost predicate ShowsReport(rows: Rows, previous: PendingValue, id: MessageId, state: ReconciledState, after: Rows) {
    && (forall row <- after :: Stands(row) && MadeFrom(rows, previous, row) && (row.id == id ==> Carries(row, state)))
    && (forall row <- after | row.id != id ::
          row in rows || exists r <- RestoredRows(previous) :: r.message.id == row.id)
    && (forall was <- rows | was.id != id && Stands(was) :: was in after)
    && forall was <- rows | was.id == id
         && ListedBy(was.folderId, state.starred, state.inInbox, state.inTrash, state.labels) ::
         exists row <- after :: SameMail(row, was)
  }

  /** The rows put back are rows of `previous` as reported. */
  lemma {:induction false} BackAsReported(rows: seq<Removed>, state: ReconciledState)
    ensures forall r <- ReconciledRemovals(rows, state) ::
              Carries(r.message, state) && exists x <- rows :: SameMail(r.message, x.message)
  {
    hide BelongsInProjection;
    if rows != [] {
      var front, last := rows[..|rows| - 1], rows[|rows| - 1];
      BackAsReported(front, state);
      forall r <- ReconciledRemovals(rows, state)
        ensures Carries(r.message, state) && exists x <- rows :: SameMail(r.message, x.message)
      {
        if r in ReconciledRemovals(front, state) {
          var x :| x in front && SameMail(r.message, x.message);
          assert x in rows;
        } else {
          ReportExact(state, last.message);
          assert last in rows;
        }
      }
    }
  }

  /** Rows put back join the list and push none out. */
  ghost predicate Joined(rows: Rows, back: seq<Removed>, after: Rows) {
    && (forall row <- rows :: row in after)
    && forall row <- after :: row in rows || exists r <- back :: r.message == row
  }

  lemma {:induction false} WithRowsJoined(s: State, back: seq<Removed>, view: RowView)
    requires Present(s, view)
    ensures Joined(ListOf(s, view), back, ListOf(WithRows(s, back), view))
  {
    hide RestoreOne, WithRow;
    if back != [] {
      var front, last := back[..|back| - 1], back[|back| - 1];
      WithRowsJoined(s, front, view);
      WithRowsKin(s, front);
      WithRowList(WithRows(s, front), last, view);
      RestoredMembers(ListOf(WithRows(s, front), view), last);
      assert last in back && forall r <- front :: r in back;
    }
  }

  lemma RestoredMembers(rows: Rows, r: Removed)
    ensures forall row :: row in RestoreOne(rows, r) ==> row in rows || row == r.message
    ensures forall row <- rows :: row in RestoreOne(rows, r)
  {
    hide InsertAt;
    InsertedMembers(rows, r.index, r.message);
  }

  lemma ReportedList(rows: Rows, previous: PendingValue, mid: Rows, id: MessageId, state: ReconciledState)
    requires Joined(rows, ReconciledRemovals(RestoredRows(previous), state), mid)
    ensures ShowsReport(rows, previous, id, state, Filter(MapRows(mid, Reconciling(id, state)), Belonging()))
  {
    hide Filter, MapRows, ReconciledRemovals, RestoredRows, BelongsInProjection, ListedBy, SameMail, Carries;
    var back := ReconciledRemovals(RestoredRows(previous), state);
    BackAsReported(RestoredRows(previous), state);
    var mapped := MapRows(mid, Reconciling(id, state));
    var after := Filter(mapped, Belonging());
    FilterMembers(mapped, Belonging());
    MappedMember(mid, Reconciling(id, state));
    forall row <- after
      ensures Stands(row) && MadeFrom(rows, previous, row) && (row.id == id ==> Carries(row, state))
      ensures row.id != id ==> row in rows || exists r <- RestoredRows(previous) :: r.message.id == row.id
    {
      BelongsExact(row);
      var was :| was in mid && row == Reconciling(id, state)(was);
      RowReported(rows, previous, back, was, id, state);
    }
    forall was <- rows
      ensures was.id != id && Stands(was) ==> was in after
      ensures was.id == id && ListedBy(was.folderId, state.starred, state.inInbox, state.inTrash, state.labels) ==>
                exists row <- after :: SameMail(row, was)
    {
      var row := Reconciling(id, state)(was);
      ReportExact(state, was);
      BelongsExact(row);
      ReportStands(state, was);
      assert row in mapped && (Belonging()(row) <==> BelongsInProjection(row));
    }
  }

  lemma ReportStands(state: ReconciledState, was: MessageSummary)
    ensures Stands(ReconcileRow(state, was))
       <==> ListedBy(was.folderId, state.starred, state.inInbox, state.inTrash, state.labels)
  {
  }

  lemma RowReported(rows: Rows, previous: PendingValue, back: seq<Removed>, was: MessageSummary, id: MessageId,
                    state: ReconciledState)
    requires was in rows || exists r <- back :: r.message == was
    requires forall r <- back ::
               Carries(r.message, state) && exists x <- RestoredRows(previous) :: SameMail(r.message, x.message)
    ensures var row := Reconciling(id, state)(was);
            && MadeFrom(rows, previous, row) && (row.id == id ==> Carries(row, state))
            && (row.id != id ==> row in rows || exists r <- RestoredRows(previous) :: r.message.id == row.id)
  {
    hide RestoredRows;
    ReportExact(state, was);
    var row := Reconciling(id, state)(was);
    if was in rows {
      assert SameMail(row, was);
    } else {
      var r :| r in back && r.message == was;
      var x :| x in RestoredRows(previous) && SameMail(r.message, x.message);
      assert SameMail(row, x.message);
    }
  }

  /** After Gmail's own account of a message both lists show exactly that: the message's rows carry the five
      reported attributes and are otherwise the rows they were, and rows stand where Gmail lists them; a message
      Gmail no longer has is out of both lists. */
  lemma ReportIsShown(s: State, id: MessageId, previous: PendingValue, state: Option<ReconciledState>, view: RowView)
    requires Present(s, view)
    ensures var rows, after := ListOf(s, view), ListOf(WithReconciled(s, id, previous, state), view);
            if state.None? then after == Others(rows, id) else ShowsReport(rows, previous, id, state.value, after)
  {
    hide Filter, MapRows, WithRows, ReconciledRemovals, ShowsReport, Joined, Belonging, Reconciling, NotId;
    match state
    case None => OthersFilter(ListOf(s, view), id);
    case Some(known) =>
      var back := ReconciledRemovals(RestoredRows(previous), known);
      NoRowsBack(s, known);
      WithRowsKin(s, back);
      WithRowsJoined(s, back, view);
      ReportedList(ListOf(s, view), previous, ListOf(WithRows(s, back), view), id, known);
  }

  // ----- in the cached views -----

  /** What a confirmed change makes of a row of its message. */
  ghost predicate WritesChange(mutation: Mutation, was: MessageSummary, now: MessageSummary) {
    && SameMail(now, was)
    && (if mutation.SetRead? then now.unread == !mutation.read else now.unread == was.unread)
    && (if mutation.SetStarred? then now.starred == mutation.star else now.starred == was.starred)
    && (match mutation
        case Archive => !now.inInbox && now.inTrash == was.inTrash
        case MoveToTrash(_) => !now.inInbox && now.inTrash
        case RestoreArchive(_) => now.inInbox && !now.inTrash
        case RestoreFromTrash(_, _, restoreInbox, _) => now.inInbox == restoreInbox && !now.inTrash
        case _ => now.inInbox == was.inInbox && now.inTrash == was.inTrash)
    && (match mutation
        case SetLabel(name, true) =>
          && (forall l <- now.labels :: l in was.labels || l == name)
          && (|was.labels| < MAX_MESSAGE_LABELS ==> forall l :: l in was.labels || l == name ==> l in now.labels)
        case SetLabel(name, false) => forall l :: l in now.labels <==> l in was.labels && l != name
        case _ => now.labels == was.labels)
  }

  /** The message leaves the view: Inbox when archived, every folder but Trash when trashed. */
  predicate LeavesView(folder: FolderId, mutation: Mutation) {
    (mutation.Archive? && folder == Inbox) || (mutation.MoveToTrash? && folder != Trash)
  }

  lemma ConfirmedRow(id: MessageId, mutation: Mutation, was: MessageSummary)
    requires was.id == id
    ensures var flagged := Flagging(id, mutation)(was);
            WritesChange(mutation, was, if mutation.RestoreArchive? || mutation.RestoreFromTrash? then flagged
                                        else Applying(id, mutation)(flagged))
  {
    hide WithLabel, Filter;
    if mutation.SetLabel? {
      LabelsWritten(was.labels, mutation.name);
      if mutation.applied { WithLabelMembers(was.labels, mutation.name); }
      TakeMembers(WithLabel(was.labels, mutation.name), MAX_MESSAGE_LABELS);
    }
  }

  lemma LabelsWritten(labels: seq<string>, name: string)
    ensures forall l :: l in Filter(labels, OtherThan(name)) <==> l in labels && l != name
  {
    FilterMembers(labels, OtherThan(name));
    forall l ensures l in Filter(labels, OtherThan(name)) <==> l in labels && l != name {
      if l in labels && l != name { assert OtherThan(name)(l); }
    }
  }

  lemma OtherRowStays(id: MessageId, mutation: Mutation, was: MessageSummary)
    requires was.id != id
    ensures Flagging(id, mutation)(was) == was && Applying(id, mutation)(was) == was
  {
  }

  /** Row by row, the view after a change of one message. */
  ghost predicate RowByRow(rows: Rows, after: Rows, id: MessageId, writes: (MessageSummary, MessageSummary) -> bool) {
    && |after| == |rows|
    && forall i | 0 <= i < |rows| :: if rows[i].id == id then writes(rows[i], after[i]) else after[i] == rows[i]
  }

  lemma ConfirmedView(folder: FolderId, rows: Rows, id: MessageId, mutation: Mutation)
    ensures var after := ConfirmedRows(folder, rows, id, mutation);
            if LeavesView(folder, mutation) then after == Others(rows, id)
            else RowByRow(rows, after, id, (was, now) => WritesChange(mutation, was, now))
  {
    hide Filter, Flagging, Applying, WritesChange, NotId;
    var flagged := MapRows(rows, Flagging(id, mutation));
    forall i | 0 <= i < |rows|
      ensures rows[i].id == id ==>
                WritesChange(mutation, rows[i],
                             if mutation.RestoreArchive? || mutation.RestoreFromTrash? then flagged[i]
                             else Applying(id, mutation)(flagged[i]))
      ensures rows[i].id != id ==> flagged[i] == rows[i] && Applying(id, mutation)(flagged[i]) == rows[i]
    {
      if rows[i].id == id { ConfirmedRow(id, mutation, rows[i]); } else { OtherRowStays(id, mutation, rows[i]); }
    }
    if LeavesView(folder, mutation) {
      OthersFilter(flagged, id);
      FlaggedOthers(rows, id, mutation);
    }
  }

  lemma {:induction false} FlaggedOthers(rows: Rows, id: MessageId, mutation: Mutation)
    ensures Others(MapRows(rows, Flagging(id, mutation)), id) == Others(rows, id)
  {
    hide ConfirmFlags;
    var flagged := MapRows(rows, Flagging(id, mutation));
    if rows != [] {
      var front, last := rows[..|rows| - 1], rows[|rows| - 1];
      FlaggedOthers(front, id, mutation);
      assert flagged[..|rows| - 1] == MapRows(front, Flagging(id, mutation));
      FlaggedId(id, mutation, last);
      if last.id != id { OtherRowStays(id, mutation, last); }
    }
  }

  lemma FlaggedId(id: MessageId, mutation: Mutation, row: MessageSummary)
    ensures Flagging(id, mutation)(row).id == row.id
  {
  }

  /** The rows of a cached view after a change, confirmed or reported. */
  ghost predicate ViewWritten(folder: FolderId, rows: Rows, after: Rows, id: MessageId, change: Change) {
    match change
    case Confirmed(mutation) =>
      if LeavesView(folder, mutation) then after == Others(rows, id)
      else RowByRow(rows, after, id, (was, now) => WritesChange(mutation, was, now))
    case Reconciled(Some(state)) => RowByRow(rows, after, id, (was, now) => SameMail(now, was) && Carries(now, state))
    case Reconciled(None) => after == if folder == Inbox then Others(rows, id) else rows
  }

  lemma ChangedView(folder: FolderId, rows: Rows, id: MessageId, change: Change)
    ensures ViewWritten(folder, rows, ChangedRows(folder, rows, id, change), id, change)
  {
    hide Filter, ConfirmedRows, ReconcileRow, SameMail, Carries, LeavesView, NotId;
    match change
    case Confirmed(mutation) => ConfirmedView(folder, rows, id, mutation);
    case Reconciled(None) => OthersFilter(rows, id);
    case Reconciled(Some(state)) =>
      forall i | 0 <= i < |rows|
        ensures SameMail(ReconcileRow(state, rows[i]), rows[i]) && Carries(ReconcileRow(state, rows[i]), state)
      {
        ReportExact(state, rows[i]);
      }
  }

  /** A confirmed change or a report is written to every cached view of its account, row by row, and to nothing
      else on disk; for a blank or another account nothing is written. */
  lemma ChangeIsWritten(s: Store, account: string, id: MessageId, change: Change)
    ensures var now := ChangeStore(s, account, id, change);
            if IsBlank(account) || Accepted(s.index).None? || !EqualIgnoringCase(s.index.mailbox.account, account)
            then now == s
            else
              && now.index.Holding? && now.marker == s.marker
              && now.index.mailbox == s.index.mailbox.(views := now.index.mailbox.views)
              && |now.index.mailbox.views| == |s.index.mailbox.views|
              && forall v | 0 <= v < |s.index.mailbox.views| ::
                   var was, view := s.index.mailbox.views[v], now.index.mailbox.views[v];
                   && view == was.(messages := view.messages)
                   && ViewWritten(was.folderId, was.messages, view.messages, id, change)
  {
    hide ValidStored, ChangedRows, ViewWritten, IsBlank, EqualIgnoringCase;
    if Accepted(s.index).Some? {
      forall v | 0 <= v < |s.index.mailbox.views|
        ensures var was := s.index.mailbox.views[v];
                ViewWritten(was.folderId, was.messages, ChangedRows(was.folderId, was.messages, id, change), id, change)
      {
        ChangedView(s.index.mailbox.views[v].folderId, s.index.mailbox.views[v].messages, id, change);
      }
    }
  }
}
