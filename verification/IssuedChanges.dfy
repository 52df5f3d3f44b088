/** Which changes are sent, what each asks of Gmail and what it shows at once (src/state.rs), stated on the user's
    action and the selected row. */
module IssuedChanges {
  import opened Results
  import opened Sorting
  import opened MessageIds
  import opened Mail
  import opened FolderStore
  import opened RowRemoval
  import opened MutationReducer
  import opened AnyOrderRefusal
  import opened RowMovement
  import opened RowAttributes

  // ----- the selected row -----

  /** The row is the first of its message in the list. */
  predicate IsFirst(rows: Rows, id: MessageId, row: MessageSummary) {
    exists i | 0 <= i < |rows| :: rows[i] == row && row.id == id && forall j | 0 <= j < i :: rows[j].id != id
  }

  lemma {:induction false} FirstExact(rows: Rows, id: MessageId)
    ensures FirstById(rows, id).None? <==> forall row <- rows :: row.id != id
    ensures FirstById(rows, id).Some? ==> IsFirst(rows, id, FirstById(rows, id).value)
  {
    if rows != [] {
      FirstExact(rows[1..], id);
      if rows[0].id == id {
        assert rows[0] == FirstById(rows, id).value;
      } else if FirstById(rows, id).Some? {
        var i :| 0 <= i < |rows[1..]| && rows[1..][i] == FirstById(rows, id).value
                 && forall j | 0 <= j < i :: rows[1..][j].id != id;
        assert rows[i + 1] == FirstById(rows, id).value;
        assert forall j | 0 < j < i + 1 :: rows[j] == rows[1..][j - 1];
      }
    }
  }

  /** The first search result of the selected message, or else its first row in the list. */
  lemma SelectedExact(s: State, id: MessageId)
    ensures var found := SelectedMessage(s, Some(id));
            var inResults := s.results.Some? && exists row <- s.results.value :: row.id == id;
            var inList := s.mailbox.Some? && exists row <- s.mailbox.value.messages :: row.id == id;
            && (found.Some? <==> inResults || inList)
            && (inResults ==> IsFirst(s.results.value, id, found.value))
            && (!inResults && inList ==> IsFirst(s.mailbox.value.messages, id, found.value))
  {
    hide IsFirst, FirstById;
    if s.results.Some? { FirstExact(s.results.value, id); }
    if s.mailbox.Some? { FirstExact(s.mailbox.value.messages, id); }
  }

  // ----- what an action asks for -----

  /** The attribute an action changes. */
  function AttributeOf(action: Action): Dimension {
    match action
    case ToggleRead => ReadDimension
    case ToggleStar => StarredDimension
    case ToggleLabel(name) => LabelDimension(name)
    case _ => InboxDimension
  }

  /** What the message and the catalog allow. */
  predicate Allowed(action: Action, row: MessageSummary, catalog: FolderCatalog) {
    match action
    case ArchiveMessage => row.inInbox && !row.inTrash
    case TrashMessage => !row.inTrash && catalog.Find(Trash).Some? && catalog.Find(Trash).value.mailbox != ""
    case ToggleLabel(name) => catalog.Find(Label(name)).Some? && catalog.Find(Label(name)).value.mailbox == name
    case _ => true
  }

  /** An unread message is to be marked read and a read one unread; a star and a label turn over. */
  predicate AsksFor(action: Action, row: MessageSummary, catalog: FolderCatalog, mutation: Mutation) {
    match action
    case ToggleRead => mutation.SetRead? && (if row.unread then mutation.read else !mutation.read)
    case ToggleStar => mutation.SetStarred? && (if row.starred then !mutation.star else mutation.star)
    case ArchiveMessage => mutation == Archive
    case TrashMessage => mutation.MoveToTrash? && Some(mutation.mailbox) == MailboxOf(catalog, Trash)
    case ToggleLabel(name) =>
      mutation.SetLabel? && mutation.name == name
      && (if name in row.labels then !mutation.applied else mutation.applied)
  }

  function MailboxOf(catalog: FolderCatalog, folder: FolderId): Option<string> {
    if catalog.Find(folder).Some? then Some(catalog.Find(folder).value.mailbox) else None
  }

  lemma BuildExact(action: Action, row: MessageSummary, catalog: FolderCatalog)
    ensures var mutation := Build(action, row, catalog);
            && DimensionOf(mutation) == AttributeOf(action)
            && (Permitted(mutation, row, catalog) <==> Allowed(action, row, catalog))
            && (Allowed(action, row, catalog) ==> AsksFor(action, row, catalog, mutation))
  {
  }

  /** A change is sent exactly when the session is ready, the account and its list are there, the message allows
      it and no change of that attribute is pending; the one command names the request, the account, the row's
      message and place, and what the action asks for. Otherwise nothing happens. */
  lemma ChangeIsSent(s: State, selection: Option<MessageId>, action: Action)
    ensures var turn := Mutate(s, selection, action);
            var row := SelectedMessage(s, selection);
            && (turn.sent != [] <==>
                  && s.ready && s.account.Some? && s.mailbox.Some? && row.Some?
                  && Allowed(action, row.value, s.mailbox.value.catalog)
                  && Key(row.value.id, AttributeOf(action)) !in s.pending)
            && (turn.sent == [] ==> turn.state == s)
            && (turn.sent != [] ==>
                  && |turn.sent| == 1
                  && var c := turn.sent[0];
                     && c.request == s.next && c.generation == s.generation && c.account == s.account.value
                     && c.id == row.value.id && c.locator == row.value.locator
                     && c.catalog == s.mailbox.value.catalog
                     && AsksFor(action, row.value, s.mailbox.value.catalog, c.mutation)
                     && Records(s, c, turn.state))
  {
    hide SelectedMessage, Shown, PreviousOf, Permitted, Build, DimensionOf, Allowed, AsksFor, AttributeOf;
    var row := SelectedMessage(s, selection);
    if row.Some? && s.mailbox.Some? {
      BuildExact(action, row.value, s.mailbox.value.catalog);
      if Request(s, selection, action).Some? {
        ShownFrame(s, s, row.value, Request(s, selection, action).value.1);
      }
    }
  }

  /** The change is pending under its attribute for the open folder, and request ids move on. */
  predicate Records(s: State, c: Command, t: State) {
    var key := Key(c.id, DimensionOf(c.mutation));
    && key in t.pending && t.pending == s.pending[key := t.pending[key]]
    && t.pending[key].request == s.next && t.pending[key].origin == s.selected && t.pending[key].mutation == c.mutation
    && t.next == s.next + 1 && t.generation == s.generation && t.selected == s.selected
  }

  // ----- what is shown at once -----

  /** The rows a move leaves: archiving takes the message's Inbox rows, trashing all but its Trash rows. */
  function Left(rows: Rows, id: MessageId, archive: bool): Rows {
    if rows == [] then []
    else
      var row := rows[|rows| - 1];
      var taken := row.id == id && if archive then row.folderId == Inbox else row.folderId != Trash;
      Left(rows[..|rows| - 1], id, archive) + if taken then [] else [row]
  }

  lemma {:induction false} LeftIsKept(rows: Rows, id: MessageId, archive: bool, view: RowView)
    ensures RemoveFrom(rows, id, archive, view).kept == Left(rows, id, archive)
  {
    if rows != [] { LeftIsKept(rows[..|rows| - 1], id, archive, view); }
  }

  /** A mutation of an attribute shows as Gmail would write it. */
  lemma AppliedShows(id: MessageId, mutation: Mutation, was: MessageSummary)
    requires mutation.SetRead? || mutation.SetStarred? || mutation.SetLabel?
    ensures was.id == id ==> WritesChange(mutation, was, Applying(id, mutation)(was))
    ensures was.id != id ==> Applying(id, mutation)(was) == was
  {
    hide Apply, WritesChange;
    if was.id == id {
      ConfirmedRow(id, mutation, was);
      NothingFlagged(id, mutation, was);
    }
  }

  lemma NothingFlagged(id: MessageId, mutation: Mutation, was: MessageSummary)
    requires mutation.SetRead? || mutation.SetStarred? || mutation.SetLabel?
    ensures Flagging(id, mutation)(was) == was
  {
  }

  /** Both lists show the change sent: a move takes the message's rows out, any other is written into them, and the
      rows of other messages stay as they are. */
  lemma ChangeIsShown(s: State, selection: Option<MessageId>, action: Action, view: RowView)
    requires Mutate(s, selection, action).sent != [] && Present(s, view)
    ensures var turn := Mutate(s, selection, action);
            var c, rows, after := turn.sent[0], ListOf(s, view), ListOf(turn.state, view);
            if action.ArchiveMessage? || action.TrashMessage? then after == Left(rows, c.id, action.ArchiveMessage?)
            else RowByRow(rows, after, c.id, (was, now) => WritesChange(c.mutation, was, now))
  {
    hide SelectedMessage, Permitted, Apply, WritesChange, Applying, RemoveFrom, MapRows;
    var c, rows := Mutate(s, selection, action).sent[0], ListOf(s, view);
    LeftIsKept(rows, c.id, action.ArchiveMessage?, view);
    if !(action.ArchiveMessage? || action.TrashMessage?) {
      forall i | 0 <= i < |rows|
        ensures rows[i].id == c.id ==> WritesChange(c.mutation, rows[i], Applying(c.id, c.mutation)(rows[i]))
        ensures rows[i].id != c.id ==> Applying(c.id, c.mutation)(rows[i]) == rows[i]
      {
        AppliedShows(c.id, c.mutation, rows[i]);
      }
    }
  }

  // ----- answers that leave the lists alone -----

  /** An answer of another generation, or to no pending request, changes nothing; a confirmation, or a failure
      that may have reached Gmail, of a change Undo is not about only takes it off the pending ones. */
  lemma QuietAnswers(s: State, request: nat, generation: nat, id: MessageId, outcome: Outcome)
    requires s.undo.Some? && s.undo.value.id == id ==>
               match s.undo.value.phase
               case ForwardPending(r, _) => r != request
               case UndoPending(r) => r != request
               case Available => true
    requires outcome.Confirmed? || outcome == Failed(true)
    ensures var turn := Finish(s, request, generation, id, outcome);
            && turn.sent == []
            && if generation == s.generation && exists key :: IsPending(s.pending, key, request, id)
               then exists key ::
                 IsPending(s.pending, key, request, id) && turn.state == s.(pending := s.pending - {key})
               else turn.state == s
  {
    var key := KeyOf(s.pending, request, id);
    if generation == s.generation && key.Some? { assert IsPending(s.pending, key.value, request, id); }
  }

  /** The inverse of an archive puts the message back into the catalog's Inbox; without one, and for any other
      change than a move, there is none. */
  lemma InverseExact(undo: Undo)
    ensures var inbox := MailboxOf(undo.catalog, Inbox);
            && (Inverse(undo).Some? <==> inbox.Some? && (undo.forward.Archive? || undo.forward.MoveToTrash?))
            && (inbox.Some? && undo.forward.Archive? ==> Inverse(undo) == Some(RestoreArchive(inbox.value)))
            && (inbox.Some? && undo.forward.MoveToTrash? ==>
                  && Inverse(undo).value.RestoreFromTrash? && Inverse(undo).value.inboxMailbox == inbox.value
                  && Inverse(undo).value.trashMailbox == undo.forward.mailbox)
  {
  }
}
