/** The optimistic list on screen and the cached view on disk change alike (src/state.rs against
    `persist_confirmed_mutation_at` in src/cache.rs). */
module ScreenAndDisk {
  import opened Results
  import opened Text
  import opened Sorting
  import opened MessageIds
  import opened Mail
  import opened FolderStore
  import opened RowRemoval
  import opened MutationReducer
  import opened LabelLists
  import opened OverlayInvariant
  import MutationRollback
  import FolderCacheRefinement

  // ----- read, starred and label changes, over runs -----

  /** The edit confirms a change that is still pending; only then is it written to disk. */
  ghost predicate Confirms(o: Overlay, e: Edit) {
    e.Reply? && e.confirmed && e.generation == o.state.generation && KeyOf(o.state.pending, e.request, e.id).Some?
  }

  ghost function ConfirmedMutation(o: Overlay, e: Edit): Mutation
    requires Confirms(o, e)
  {
    o.state.pending[KeyOf(o.state.pending, e.request, e.id).value].mutation
  }

  /** The cached view of one folder after the worker handled the edit. */
  ghost function DiskAfter(o: Overlay, e: Edit, folderId: FolderId, disk: Rows): Rows {
    if Confirms(o, e) then ConfirmedRows(folderId, disk, e.id, ConfirmedMutation(o, e)) else disk
  }

  ghost function RunDisk(start: Overlay, edits: seq<Edit>, folderId: FolderId, disk: Rows): Rows {
    if edits == [] then disk
    else
      var front := edits[..|edits| - 1];
      DiskAfter(RunEdits(start, front), edits[|edits| - 1], folderId, RunDisk(start, front, folderId, disk))
  }

  /** A label Gmail confirms fits the message's list. */
  ghost predicate FitsOnServer(o: Overlay, e: Edit) {
    Confirms(o, e) && e.id in o.server && ConfirmedMutation(o, e).SetLabel? && ConfirmedMutation(o, e).applied ==>
      |WithLabel(o.server[e.id].labels, ConfirmedMutation(o, e).name)| <= MAX_MESSAGE_LABELS
  }

  ghost predicate AlwaysFits(start: Overlay, edits: seq<Edit>) {
    forall i | 0 <= i < |edits| :: FitsOnServer(RunEdits(start, edits[..i]), edits[i])
  }

  function ServedRow(original: MessageSummary, a: Attributes): MessageSummary {
    original.(unread := a.unread, starred := a.starred, labels := a.labels)
  }

  /** The view holds the original rows with the attributes Gmail holds. */
  ghost predicate Served(disk: Rows, original: Rows, server: Server) {
    && |disk| == |original|
    && forall i | 0 <= i < |disk| ::
       original[i].id in server && disk[i] == ServedRow(original[i], server[original[i].id])
  }

  lemma ConfirmServes(original: MessageSummary, a: Attributes, mutation: Mutation)
    requires mutation.SetRead? || mutation.SetStarred? || mutation.SetLabel?
    requires mutation.SetLabel? && mutation.applied ==> |WithLabel(a.labels, mutation.name)| <= MAX_MESSAGE_LABELS
    ensures Applying(original.id, mutation)(Flagging(original.id, mutation)(ServedRow(original, a)))
         == ServedRow(original, AfterConfirm(mutation, a))
  {
    hide WithLabel, Filter;
  }

  lemma ConfirmElsewhere(row: MessageSummary, id: MessageId, mutation: Mutation)
    requires row.id != id
    ensures Applying(id, mutation)(Flagging(id, mutation)(row)) == row
  {
  }

  lemma DiskStep(start: State, o: Overlay, e: Edit, folderId: FolderId, disk: Rows, original: Rows)
    requires Overlaid(start, o) && Served(disk, original, o.server) && FitsOnServer(o, e)
    ensures Served(DiskAfter(o, e, folderId, disk), original, StepEdit(o, e).server)
  {
    hide ListsOverlaid, ServerOrdered, Finish, Mutate, KeyOf, AfterConfirm, ServedRow, Applying, Flagging, WithLabel;
    if Confirms(o, e) {
      var key := KeyOf(o.state.pending, e.request, e.id).value;
      var mutation := o.state.pending[key].mutation;
      var next := StepEdit(o, e).server;
      assert Remembers(key, o.state.pending[key], o.server[key.id]);
      var after := DiskAfter(o, e, folderId, disk);
      assert after == MapRows(MapRows(disk, Flagging(e.id, mutation)), Applying(e.id, mutation));
      forall i | 0 <= i < |disk| ensures after[i] == ServedRow(original[i], next[original[i].id]) {
        if original[i].id == e.id {
          ConfirmServes(original[i], o.server[e.id], mutation);
        } else {
          assert disk[i].id != e.id by { ServedId(original[i], o.server[original[i].id]); }
          ConfirmElsewhere(disk[i], e.id, mutation);
        }
      }
    }
  }

  lemma ServedId(original: MessageSummary, a: Attributes)
    ensures ServedRow(original, a).id == original.id
  {
  }

  lemma {:induction false} DiskIsServed(start: Overlay, edits: seq<Edit>, folderId: FolderId, original: Rows)
    requires AtRest(start) && WithRoom(start, edits) && AlwaysFits(start, edits)
    requires forall e <- edits :: e.Toggle? ==> Flags(e.action)
    requires Agreeing(original, start.server)
    ensures Served(RunDisk(start, edits, folderId, original), original, RunEdits(start, edits).server)
  {
    hide AtRest, StepEdit, FitsOnServer, DiskAfter, HasRoom;
    if edits == [] {
      assert forall i | 0 <= i < |original| :: original[i] in original;
    } else {
      hide Served, Agreeing;
      var front, last := edits[..|edits| - 1], edits[|edits| - 1];
      assert forall e <- front :: e in edits;
      forall i | 0 <= i < |front| ensures FitsOnServer(RunEdits(start, front[..i]), front[i]) {
        assert front[..i] == edits[..i];
      }
      DiskIsServed(start, front, folderId, original);
      AlwaysOverlaid(start, front);
      DiskStep(start.state, RunEdits(start, front), last, folderId, RunDisk(start, front, folderId, original),
               original);
    }
  }

  /** In every run of read, starred and label changes, however their answers are ordered and with any stale
      ones among them, the cached view of the folder on screen holds what Gmail holds; the list on screen is
      that view overlaid by the pending changes, and equal to it whenever nothing is pending. */
  lemma ScreenMeetsDisk(start: Overlay, edits: seq<Edit>, folderId: FolderId)
    requires AtRest(start) && WithRoom(start, edits) && AlwaysFits(start, edits)
    requires forall e <- edits :: e.Toggle? ==> Flags(e.action)
    requires start.state.mailbox.Some?
    ensures var original := start.state.mailbox.value.messages;
            var end, disk := RunEdits(start, edits), RunDisk(start, edits, folderId, original);
            && Served(disk, original, end.server)
            && end.state.mailbox.Some?
            && RowsOverlaid(end.state.mailbox.value.messages, original, end.server, end.state.pending)
            && (end.state.pending == map[] ==> end.state.mailbox.value.messages == disk)
  {
    hide RunEdits, RunDisk, WithRoom, AlwaysFits, Served, Agreeing, RowsOverlaid, ServerOrdered;
    var original := start.state.mailbox.value.messages;
    var end, disk := RunEdits(start, edits), RunDisk(start, edits, folderId, original);
    AlwaysOverlaid(start, edits);
    DiskIsServed(start, edits, folderId, original);
    if end.state.pending == map[] {
      RowsServed(end.state.mailbox.value.messages, original, end.server);
      SameServed(end.state.mailbox.value.messages, disk, original, end.server);
    }
  }

  lemma SameServed(rows: Rows, disk: Rows, original: Rows, server: Server)
    requires |rows| == |original| && Served(disk, original, server)
    requires forall i | 0 <= i < |rows| ::
               original[i].id in server
               && rows[i]
                  == original[i].(unread := server[original[i].id].unread, starred := server[original[i].id].starred,
                                          labels := server[original[i].id].labels)
    ensures rows == disk
  {
  }

  // ----- archive and trash -----

  predicate Evicts(folderId: FolderId, archive: bool) {
    if archive then folderId == Inbox else folderId != Trash
  }

  /** On a list of one folder, removal is all or nothing for the message. */
  lemma {:induction false} KeptRows(folderId: FolderId, rows: Rows, id: MessageId, archive: bool, view: RowView)
    requires RowsOf(folderId, rows)
    ensures RemoveFrom(rows, id, archive, view).kept
         == if Evicts(folderId, archive) then Filter(rows, NotId(id)) else rows
  {
    hide Filter;
    if rows == [] {
      FilterNone(rows, NotId(id));
    } else {
      var front, last := rows[..|rows| - 1], rows[|rows| - 1];
      assert rows == front + [last] && last in rows;
      KeptRows(folderId, front, id, archive, view);
      RemoveFromSnoc(front, last, id, archive, view);
      FilterAppend(front, [last], NotId(id));
      if last.id == id { FilterNone([last], NotId(id)); } else { FilterAll([last], NotId(id)); }
    }
  }

  /** Changing only the rows of a message is invisible once they are filtered out. */
  lemma {:induction false} FilteredAway(rows: Rows, id: MessageId, f: MessageSummary -> MessageSummary)
    requires forall row: MessageSummary :: f(row).id == row.id && (row.id != id ==> f(row) == row)
    ensures Filter(MapRows(rows, f), NotId(id)) == Filter(rows, NotId(id))
  {
    if rows != [] {
      FilteredAway(rows[1..], id, f);
      assert MapRows(rows, f)[1..] == MapRows(rows[1..], f);
    }
  }

  /** Archiving and trashing keep the same messages on screen as in the cached view, in every folder;
      where the folder loses the message, the remaining rows are equal too. */
  lemma SameIds(s: State, folderId: FolderId, id: MessageId, mutation: Mutation)
    requires Moves(mutation) && s.mailbox.Some? && RowsOf(folderId, s.mailbox.value.messages)
    ensures var screen := Shown(s, id, mutation).mailbox.value.messages;
            var disk := ConfirmedRows(folderId, s.mailbox.value.messages, id, mutation);
            && Ids(screen) == Ids(disk)
            && (Evicts(folderId, mutation.Archive?) ==> screen == disk)
            && (!Evicts(folderId, mutation.Archive?) ==>
                  forall i | 0 <= i < |screen| && screen[i].id != id :: disk[i] == screen[i])
  {
    hide Filter, RemoveFrom;
    var rows := s.mailbox.value.messages;
    KeptRows(folderId, rows, id, mutation.Archive?, FolderRows);
    FilteredAway(rows, id, Flagging(id, mutation));
  }

  // ----- an archive and its inverse, on disk -----

  function ArchivedAndBack(folderId: FolderId, rows: Rows, id: MessageId, inboxMailbox: string): Rows {
    ConfirmedRows(folderId, ConfirmedRows(folderId, rows, id, Archive), id, RestoreArchive(inboxMailbox))
  }

  /** Outside Inbox a cached row is as it was exactly when it was in Inbox and not in Trash, or is
      another message's. */
  lemma ArchiveUndone(folderId: FolderId, rows: Rows, id: MessageId, inboxMailbox: string)
    requires folderId != Inbox
    ensures var after := ArchivedAndBack(folderId, rows, id, inboxMailbox);
            && |after| == |rows|
            && forall i | 0 <= i < |rows| ::
                 after[i] == rows[i] <==> rows[i].id != id || (rows[i].inInbox && !rows[i].inTrash)
  {
  }

  /** Inbox loses the message, and the cache does not bring it back. */
  lemma ArchiveLeavesInbox(rows: Rows, id: MessageId, inboxMailbox: string)
    ensures ArchivedAndBack(Inbox, rows, id, inboxMailbox) == Filter(rows, NotId(id))
  {
    hide Filter;
    FilteredAway(rows, id, Flagging(id, Archive));
    var kept := Filter(rows, NotId(id));
    FilterMembers(rows, NotId(id));
    forall i | 0 <= i < |kept| ensures Flagging(id, RestoreArchive(inboxMailbox))(kept[i]) == kept[i] {
      assert kept[i] in kept;
    }
    assert MapRows(kept, Flagging(id, RestoreArchive(inboxMailbox))) == kept;
  }

  /** A message archived from a list other than Inbox, with the change and then its Undo confirmed: the
      cached view of that list is again exactly what it was, and so is the list on screen. */
  lemma ArchiveCycle(s: State, selection: Option<MessageId>, folderId: FolderId, inboxMailbox: string)
    requires MutationRollback.Listed(s) && WellNumbered(s) && folderId != Inbox
    requires Mutate(s, selection, ArchiveMessage).sent != [] && s.mailbox.Some?
    requires SelectedMessage(s, selection).Some? && SelectedMessage(s, selection).value in s.mailbox.value.messages
    requires s.mailbox.value.catalog.Find(Inbox).Some?
    ensures var rows := s.mailbox.value.messages;
            var moved, c := Mutate(s, selection, ArchiveMessage).state, Mutate(s, selection, ArchiveMessage).sent[0];
            var undoing := PressUndo(Finish(moved, s.next, s.generation, c.id, Outcome.Confirmed).state).state;
            var end := Finish(undoing, s.next + 1, s.generation, c.id, Outcome.Confirmed).state;
            && ArchivedAndBack(folderId, rows, c.id, inboxMailbox) == rows
            && end.mailbox == s.mailbox
  {
    hide Finish, PressUndo, ArchivedAndBack, SelectedMessage, WellNumbered;
    var rows := s.mailbox.value.messages;
    var c := Mutate(s, selection, ArchiveMessage).sent[0];
    MutationRollback.UndoRoundTrip(s, selection, ArchiveMessage, false);
    var m := SelectedMessage(s, selection).value;
    var k :| 0 <= k < |rows| && rows[k] == m;
    assert c.id == m.id && m.inInbox && !m.inTrash;
    ArchiveUndone(folderId, rows, c.id, inboxMailbox);
    forall i | 0 <= i < |rows| ensures rows[i].id != c.id || (rows[i].inInbox && !rows[i].inTrash) {
      assert i != k ==> rows[i].id != rows[k].id;
    }
  }

  /** A trashed message is out of every cached view but Trash, and its inverse does not bring it back. */
  lemma TrashLeavesViews(folderId: FolderId, rows: Rows, id: MessageId, trash: Mutation, back: Mutation)
    requires folderId != Trash && trash.MoveToTrash? && back.RestoreFromTrash?
    ensures ConfirmedRows(folderId, ConfirmedRows(folderId, rows, id, trash), id, back) == Filter(rows, NotId(id))
  {
    hide Filter;
    FilteredAway(rows, id, Flagging(id, trash));
    var kept := Filter(rows, NotId(id));
    FilterMembers(rows, NotId(id));
    forall i | 0 <= i < |kept| ensures Flagging(id, back)(kept[i]) == kept[i] {
      assert kept[i] in kept;
    }
    assert MapRows(kept, Flagging(id, back)) == kept;
  }

  // ----- the same on the stored record -----

  /** The cached rows of a folder after an archive of the message and its inverse. */
  ghost predicate BackOutsideInbox(before: FolderView, after: FolderView, id: MessageId) {
    && after == before.(messages := after.messages)
    && if before.folderId == Inbox then after.messages == Filter(before.messages, NotId(id))
       else
         && |after.messages| == |before.messages|
         && forall i | 0 <= i < |before.messages| ::
              after.messages[i] == before.messages[i] <==>
              before.messages[i].id != id || (before.messages[i].inInbox && !before.messages[i].inTrash)
  }

  lemma ViewBack(view: FolderView, id: MessageId, inboxMailbox: string)
    ensures BackOutsideInbox(view, Changing(id, Change.Confirmed(RestoreArchive(inboxMailbox)))
                                     (Changing(id, Change.Confirmed(Archive))(view)), id)
  {
    hide ConfirmedRows, Filter;
    if view.folderId == Inbox {
      ArchiveLeavesInbox(view.messages, id, inboxMailbox);
    } else {
      ArchiveUndone(view.folderId, view.messages, id, inboxMailbox);
    }
  }

  /** Both confirmed, the record keeps its views in place, and outside Inbox each row is as it was
      exactly under the condition above. */
  lemma ArchiveUndoneInStore(s: Store, account: string, id: MessageId, inboxMailbox: string)
    requires !IsBlank(account) && SameAccount(Accepted(s.index), account).Some?
    ensures var middle := ChangeStore(s, account, id, Change.Confirmed(Archive));
            var end := ChangeStore(middle, account, id, Change.Confirmed(RestoreArchive(inboxMailbox)));
            && end.index.Holding? && |end.index.mailbox.views| == |s.index.mailbox.views|
            && forall v | 0 <= v < |s.index.mailbox.views| ::
                 BackOutsideInbox(s.index.mailbox.views[v], end.index.mailbox.views[v], id)
  {
    hide ValidStored, BackOutsideInbox, Changing, IsBlank;
    var stored := s.index.mailbox;
    FolderCacheRefinement.ViewMapsValid(50, id, Change.Confirmed(Archive));
    FolderCacheRefinement.MappedStored(stored, Changing(id, Change.Confirmed(Archive)));
    forall v | 0 <= v < |stored.views|
      ensures BackOutsideInbox(stored.views[v], Changing(id, Change.Confirmed(RestoreArchive(inboxMailbox)))
                                                  (Changing(id, Change.Confirmed(Archive))(stored.views[v])), id)
    {
      ViewBack(stored.views[v], id, inboxMailbox);
    }
  }
}
