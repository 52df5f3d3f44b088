/** What is on screen while read, starred and label changes are in flight: the server's last word on
    every attribute, overlaid by the one change that is pending for it. */
module OverlayInvariant {
  import opened Results
  import opened Text
  import opened Sorting
  import opened MessageIds
  import opened Mail
  import opened LabelLists
  import opened FolderStore
  import opened MutationReducer

  datatype Attributes = Attributes(unread: bool, starred: bool, labels: seq<string>)

  type Server = map<MessageId, Attributes>

  /** A user's toggle, or a definite answer of the worker, in time or stale. */
  datatype Edit =
    | Toggle(selection: Option<MessageId>, action: Action)
    | Reply(request: nat, generation: nat, id: MessageId, confirmed: bool)

  /** The reducer, and what the server holds. */
  datatype Overlay = Overlay(state: State, server: Server)

  function AfterConfirm(mutation: Mutation, a: Attributes): Attributes {
    match mutation
    case SetRead(read) => a.(unread := !read)
    case SetStarred(star) => a.(starred := star)
    case SetLabel(name, applied) =>
      a.(labels := if applied then WithLabel(a.labels, name) else Filter(a.labels, OtherThan(name)))
    case _ => a
  }

  predicate Flags(action: Action) {
    action.ToggleRead? || action.ToggleStar? || action.ToggleLabel?
  }

  ghost function StepEdit(o: Overlay, e: Edit): Overlay {
    match e
    case Toggle(selection, action) => o.(state := Mutate(o.state, selection, action).state)
    case Reply(request, generation, id, confirmed) =>
      var key := KeyOf(o.state.pending, request, id);
      Overlay(Finish(o.state, request, generation, id, if confirmed then Outcome.Confirmed else Failed(false)).state,
              if confirmed && generation == o.state.generation && key.Some? && id in o.server
              then o.server[id := AfterConfirm(o.state.pending[key.value].mutation, o.server[id])]
              else o.server)
  }

  ghost function RunEdits(start: Overlay, edits: seq<Edit>): Overlay {
    if edits == [] then start else StepEdit(RunEdits(start, edits[..|edits| - 1]), edits[|edits| - 1])
  }

  /** A label is added only to a list with room for it. */
  predicate HasRoom(s: State, e: Edit) {
    e.Toggle? ==>
      var request := Request(s, e.selection, e.action);
      request.Some? && request.value.1.SetLabel? && request.value.1.applied ==>
        |request.value.0.labels| < MAX_MESSAGE_LABELS
  }

  ghost predicate WithRoom(start: Overlay, edits: seq<Edit>) {
    edits == [] || (WithRoom(start, edits[..|edits| - 1])
                    && HasRoom(RunEdits(start, edits[..|edits| - 1]).state, edits[|edits| - 1]))
  }

  // ----- the invariant -----

  predicate UnreadShown(id: MessageId, a: Attributes, pending: map<Key, Pending>) {
    var key := Key(id, ReadDimension);
    if key in pending && pending[key].mutation.SetRead? then !pending[key].mutation.read else a.unread
  }

  predicate StarShown(id: MessageId, a: Attributes, pending: map<Key, Pending>) {
    var key := Key(id, StarredDimension);
    if key in pending && pending[key].mutation.SetStarred? then pending[key].mutation.star else a.starred
  }

  predicate LabelShown(name: string, id: MessageId, a: Attributes, pending: map<Key, Pending>) {
    var key := Key(id, LabelDimension(name));
    if key in pending && pending[key].mutation.SetLabel? then pending[key].mutation.applied else name in a.labels
  }

  /** A row of the original list as the server and the pending changes make it. */
  ghost predicate RowOverlaid(row: MessageSummary, original: MessageSummary, a: Attributes, pending: map<Key, Pending>)
  {
    && row == original.(unread := UnreadShown(original.id, a, pending), starred := StarShown(original.id, a, pending),
                        labels := row.labels)
    && Ordered(row.labels)
    && forall name :: name in row.labels <==> LabelShown(name, original.id, a, pending)
  }

  ghost predicate RowsOverlaid(rows: Rows, original: Rows, server: Server, pending: map<Key, Pending>) {
    && |rows| == |original|
    && forall i | 0 <= i < |rows| ::
         original[i].id in server && RowOverlaid(rows[i], original[i], server[original[i].id], pending)
  }

  ghost predicate ListsOverlaid(s: State, start: State, server: Server, pending: map<Key, Pending>) {
    && s.mailbox.Some? == start.mailbox.Some? && s.results.Some? == start.results.Some?
    && (s.mailbox.Some? ==>
          && s.mailbox.value.catalog == start.mailbox.value.catalog
          && RowsOverlaid(s.mailbox.value.messages, start.mailbox.value.messages, server, pending))
    && (s.results.Some? ==> RowsOverlaid(s.results.value, start.results.value, server, pending))
  }

  /** A pending change remembers what the server holds. */
  predicate Remembers(key: Key, change: Pending, a: Attributes) {
    match change.mutation
    case SetRead(_) => key.dimension == ReadDimension && change.previous == WasFlag(a.unread)
    case SetStarred(_) => key.dimension == StarredDimension && change.previous == WasFlag(a.starred)
    case SetLabel(name, _) => key.dimension == LabelDimension(name) && change.previous == WasLabeled(name in a.labels)
    case _ => false
  }

  ghost predicate PendingFits(pending: map<Key, Pending>, server: Server, selected: FolderId) {
    forall key | key in pending ::
      key.id in server && pending[key].origin == selected && Remembers(key, pending[key], server[key.id])
  }

  ghost predicate ServerOrdered(server: Server) {
    forall id | id in server :: Ordered(server[id].labels)
  }

  ghost predicate Overlaid(start: State, o: Overlay) {
    && o.state.undo == None && o.state.selected == start.selected
    && ServerOrdered(o.server)
    && PendingFits(o.state.pending, o.server, o.state.selected)
    && ListsOverlaid(o.state, start, o.server, o.state.pending)
  }

  // ----- one row -----

  /** Showing a new change of an attribute that had none pending. */
  lemma IssueShows(row: MessageSummary, original: MessageSummary, a: Attributes, pending: map<Key, Pending>,
                   id: MessageId, change: Pending)
    requires RowOverlaid(row, original, a, pending)
    requires !Moves(change.mutation) && Key(id, DimensionOf(change.mutation)) !in pending
    requires change.mutation.SetRead? || change.mutation.SetStarred? || change.mutation.SetLabel?
    requires row.id == id && change.mutation.SetLabel? && change.mutation.applied ==>
               change.mutation.name !in row.labels && |row.labels| < MAX_MESSAGE_LABELS
    ensures RowOverlaid(Applying(id, change.mutation)(row), original, a,
                        pending[Key(id, DimensionOf(change.mutation)) := change])
  {
    hide WithLabel, Filter, Ordered;
    if row.id == id && change.mutation.SetLabel? {
      var name := change.mutation.name;
      if change.mutation.applied {
        AddedLabel(row.labels, name);
        AddedLength(row.labels, name);
      } else {
        RemovedLabel(row.labels, name);
      }
    }
  }

  /** Settling a change leaves every other attribute of every row as it shows. */
  lemma OthersShow(id: MessageId, a: Attributes, b: Attributes, pending: map<Key, Pending>, key: Key)
    requires key in pending
    requires key != Key(id, ReadDimension) ==> a.unread == b.unread
    requires key != Key(id, StarredDimension) ==> a.starred == b.starred
    requires forall name :: key != Key(id, LabelDimension(name)) ==> (name in a.labels <==> name in b.labels)
    ensures key != Key(id, ReadDimension) ==> UnreadShown(id, a, pending) == UnreadShown(id, b, pending - {key})
    ensures key != Key(id, StarredDimension) ==> StarShown(id, a, pending) == StarShown(id, b, pending - {key})
    ensures forall name :: key != Key(id, LabelDimension(name)) ==>
              LabelShown(name, id, a, pending) == LabelShown(name, id, b, pending - {key})
  {
    forall name | key != Key(id, LabelDimension(name))
      ensures LabelShown(name, id, a, pending) == LabelShown(name, id, b, pending - {key}) {
      assert name in a.labels <==> name in b.labels;
    }
  }

  lemma ConfirmFlagShows(row: MessageSummary, original: MessageSummary, a: Attributes, pending: map<Key, Pending>,
                         key: Key)
    requires RowOverlaid(row, original, a, pending)
    requires key in pending && !pending[key].mutation.SetLabel? && Remembers(key, pending[key], a)
             && original.id == key.id
    ensures RowOverlaid(row, original, AfterConfirm(pending[key].mutation, a), pending - {key})
  {
    hide Ordered, UnreadShown, StarShown, LabelShown;
    var b := AfterConfirm(pending[key].mutation, a);
    OthersShow(key.id, a, b, pending, key);
    ConfirmedShows(key, a, b, pending);
  }

  lemma ConfirmLabelShows(row: MessageSummary, original: MessageSummary, a: Attributes, pending: map<Key, Pending>,
                          key: Key)
    requires RowOverlaid(row, original, a, pending) && Ordered(a.labels)
    requires key in pending && pending[key].mutation.SetLabel? && Remembers(key, pending[key], a)
             && original.id == key.id
    ensures RowOverlaid(row, original, AfterConfirm(pending[key].mutation, a), pending - {key})
  {
    hide WithLabel, Filter, Ordered, UnreadShown, StarShown, LabelShown;
    var mutation := pending[key].mutation;
    var b := AfterConfirm(mutation, a);
    AddedLabel(a.labels, mutation.name);
    RemovedLabel(a.labels, mutation.name);
    OthersShow(key.id, a, b, pending, key);
    ConfirmedShows(key, a, b, pending);
  }

  /** Confirming moves the pending value to the server; the row does not change. */
  lemma ConfirmShows(row: MessageSummary, original: MessageSummary, a: Attributes, pending: map<Key, Pending>, key: Key)
    requires RowOverlaid(row, original, a, pending) && Ordered(a.labels)
    requires key in pending && Remembers(key, pending[key], a) && original.id == key.id
    ensures RowOverlaid(row, original, AfterConfirm(pending[key].mutation, a), pending - {key})
  {
    hide RowOverlaid, AfterConfirm, Remembers;
    if pending[key].mutation.SetLabel? {
      ConfirmLabelShows(row, original, a, pending, key);
    } else {
      ConfirmFlagShows(row, original, a, pending, key);
    }
  }

  lemma ConfirmedShows(key: Key, a: Attributes, b: Attributes, pending: map<Key, Pending>)
    requires key in pending && Remembers(key, pending[key], a) && b == AfterConfirm(pending[key].mutation, a)
    requires pending[key].mutation.SetLabel? ==>
             (pending[key].mutation.name in b.labels <==> pending[key].mutation.applied)
    ensures key.dimension == ReadDimension ==>
            UnreadShown(key.id, a, pending) == UnreadShown(key.id, b, pending - {key})
    ensures key.dimension == StarredDimension ==> StarShown(key.id, a, pending) == StarShown(key.id, b, pending - {key})
    ensures key.dimension.LabelDimension? ==>
              LabelShown(key.dimension.name, key.id, a, pending)
                  == LabelShown(key.dimension.name, key.id, b, pending - {key})
  {
  }

  lemma OtherRowShows(row: MessageSummary, original: MessageSummary, a: Attributes, pending: map<Key, Pending>,
                      key: Key)
    requires RowOverlaid(row, original, a, pending) && key in pending && original.id != key.id
    ensures RowOverlaid(row, original, a, pending - {key})
  {
    hide Ordered, UnreadShown, StarShown, LabelShown;
    OthersShow(original.id, a, a, pending, key);
  }

  /** What a refusal of the change puts into a row. */
  function Back(id: MessageId, change: Pending): MessageSummary -> MessageSummary {
    if change.previous.WasFlag? then FlagBack(id, change.mutation, change.previous.flag)
    else if change.previous.WasLabeled? && change.mutation.SetLabel? then
      LabelBack(id, change.mutation.name, change.previous.applied)
    else (row: MessageSummary) => row
  }

  lemma RefuseFlagShows(row: MessageSummary, original: MessageSummary, a: Attributes, pending: map<Key, Pending>,
                        key: Key)
    requires RowOverlaid(row, original, a, pending)
    requires key in pending && !pending[key].mutation.SetLabel? && original.id == key.id
             && Remembers(key, pending[key], a)
    ensures RowOverlaid(Back(key.id, pending[key])(row), original, a, pending - {key})
  {
    hide Ordered, UnreadShown, StarShown, LabelShown;
    OthersShow(key.id, a, a, pending, key);
    ServerShows(key, a, pending);
  }

  lemma RefuseLabelShows(row: MessageSummary, original: MessageSummary, a: Attributes, pending: map<Key, Pending>,
                         key: Key)
    requires RowOverlaid(row, original, a, pending)
    requires key in pending && pending[key].mutation.SetLabel? && original.id == key.id
             && Remembers(key, pending[key], a)
    ensures RowOverlaid(Back(key.id, pending[key])(row), original, a, pending - {key})
  {
    hide WithLabel, Filter, Ordered, UnreadShown, StarShown, LabelShown;
    AddedLabel(row.labels, pending[key].mutation.name);
    RemovedLabel(row.labels, pending[key].mutation.name);
    OthersShow(key.id, a, a, pending, key);
    ServerShows(key, a, pending);
  }

  lemma RefuseShows(row: MessageSummary, original: MessageSummary, a: Attributes, pending: map<Key, Pending>, key: Key)
    requires RowOverlaid(row, original, a, pending)
    requires key in pending && original.id == key.id && Remembers(key, pending[key], a)
    ensures RowOverlaid(Back(key.id, pending[key])(row), original, a, pending - {key})
  {
    hide RowOverlaid, Back, Remembers;
    if pending[key].mutation.SetLabel? {
      RefuseLabelShows(row, original, a, pending, key);
    } else {
      RefuseFlagShows(row, original, a, pending, key);
    }
  }

  lemma ServerShows(key: Key, a: Attributes, pending: map<Key, Pending>)
    ensures key.dimension == ReadDimension ==> UnreadShown(key.id, a, pending - {key}) == a.unread
    ensures key.dimension == StarredDimension ==> StarShown(key.id, a, pending - {key}) == a.starred
    ensures key.dimension.LabelDimension? ==>
              LabelShown(key.dimension.name, key.id, a, pending - {key}) == (key.dimension.name in a.labels)
  {
  }

  // ----- both lists -----

  lemma IssueList(rows: Rows, original: Rows, server: Server, pending: map<Key, Pending>, id: MessageId,
                  change: Pending)
    requires RowsOverlaid(rows, original, server, pending)
    requires !Moves(change.mutation) && Key(id, DimensionOf(change.mutation)) !in pending
    requires change.mutation.SetRead? || change.mutation.SetStarred? || change.mutation.SetLabel?
    requires forall row <- rows | row.id == id && change.mutation.SetLabel? && change.mutation.applied ::
               change.mutation.name !in row.labels && |row.labels| < MAX_MESSAGE_LABELS
    ensures RowsOverlaid(MapRows(rows, Applying(id, change.mutation)), original, server,
                         pending[Key(id, DimensionOf(change.mutation)) := change])
  {
    hide RowOverlaid, Applying;
    forall i | 0 <= i < |rows|
      ensures RowOverlaid(Applying(id, change.mutation)(rows[i]), original[i], server[original[i].id],
                          pending[Key(id, DimensionOf(change.mutation)) := change])
    {
      assert rows[i] in rows;
      IssueShows(rows[i], original[i], server[original[i].id], pending, id, change);
    }
  }

  lemma ConfirmList(rows: Rows, original: Rows, server: Server, pending: map<Key, Pending>, key: Key)
    requires RowsOverlaid(rows, original, server, pending) && ServerOrdered(server)
    requires key in pending && key.id in server && Remembers(key, pending[key], server[key.id])
    ensures RowsOverlaid(rows, original, server[key.id := AfterConfirm(pending[key].mutation, server[key.id])],
                         pending - {key})
  {
    hide RowOverlaid, Remembers, AfterConfirm;
    var next := server[key.id := AfterConfirm(pending[key].mutation, server[key.id])];
    forall i | 0 <= i < |rows|
      ensures RowOverlaid(rows[i], original[i], next[original[i].id], pending - {key})
    {
      if original[i].id == key.id {
        ConfirmShows(rows[i], original[i], server[key.id], pending, key);
      } else {
        OtherRowShows(rows[i], original[i], server[original[i].id], pending, key);
      }
    }
  }

  lemma RefuseList(rows: Rows, original: Rows, server: Server, pending: map<Key, Pending>, key: Key)
    requires RowsOverlaid(rows, original, server, pending)
    requires key in pending && key.id in server && Remembers(key, pending[key], server[key.id])
    ensures RowsOverlaid(MapRows(rows, Back(key.id, pending[key])), original, server, pending - {key})
  {
    hide RowOverlaid, Remembers, Back;
    forall i | 0 <= i < |rows|
      ensures RowOverlaid(Back(key.id, pending[key])(rows[i]), original[i], server[original[i].id], pending - {key})
    {
      if original[i].id == key.id {
        RefuseShows(rows[i], original[i], server[key.id], pending, key);
      } else {
        OtherRowShows(rows[i], original[i], server[original[i].id], pending, key);
        BackElsewhere(rows[i], original[i], server[original[i].id], pending, key);
      }
    }
  }

  lemma BackElsewhere(row: MessageSummary, original: MessageSummary, a: Attributes, pending: map<Key, Pending>,
                      key: Key)
    requires RowOverlaid(row, original, a, pending) && key in pending && original.id != key.id
    ensures Back(key.id, pending[key])(row) == row
  {
  }

  // ----- steps -----

  lemma {:induction false} FirstByIdPlace(rows: Rows, id: MessageId) returns (i: nat)
    requires FirstById(rows, id).Some?
    ensures i < |rows| && rows[i] == FirstById(rows, id).value && rows[i].id == id
  {
    if rows[0].id == id {
      i := 0;
    } else {
      i := FirstByIdPlace(rows[1..], id);
      i := i + 1;
    }
  }

  /** The selected message is overlaid like every row. */
  lemma SelectedShown(s: State, start: State, server: Server, selection: Option<MessageId>)
    returns (original: MessageSummary)
    requires ListsOverlaid(s, start, server, s.pending) && SelectedMessage(s, selection).Some?
    ensures var m := SelectedMessage(s, selection).value;
            m.id == original.id && m.id in server && RowOverlaid(m, original, server[m.id], s.pending)
  {
    hide FirstById, RowOverlaid;
    var id := selection.value;
    if s.results.Some? && FirstById(s.results.value, id).Some? {
      var i := FirstByIdPlace(s.results.value, id);
      original := start.results.value[i];
    } else {
      var i := FirstByIdPlace(s.mailbox.value.messages, id);
      original := start.mailbox.value.messages[i];
    }
    SameId(SelectedMessage(s, selection).value, original, server[original.id], s.pending);
  }

  lemma SameId(row: MessageSummary, original: MessageSummary, a: Attributes, pending: map<Key, Pending>)
    requires RowOverlaid(row, original, a, pending)
    ensures row.id == original.id
  {
  }

  /** Copies of a message show the same labels. */
  lemma CopiesAgree(rows: Rows, original: Rows, server: Server, pending: map<Key, Pending>,
                    m: MessageSummary, o: MessageSummary)
    requires RowsOverlaid(rows, original, server, pending)
    requires m.id in server && o.id == m.id && RowOverlaid(m, o, server[m.id], pending)
    ensures forall row <- rows | row.id == m.id :: row.labels == m.labels
  {
    hide LabelShown, UnreadShown, StarShown, Ordered;
    forall row <- rows | row.id == m.id ensures row.labels == m.labels {
      var i :| 0 <= i < |rows| && rows[i] == row;
      assert RowOverlaid(rows[i], original[i], server[original[i].id], pending);
      OrderedUnique(row.labels, m.labels);
    }
  }

  lemma NewChangeRemembers(s: State, m: MessageSummary, o: MessageSummary, a: Attributes, mutation: Mutation)
    requires o.id == m.id && RowOverlaid(m, o, a, s.pending) && Key(m.id, DimensionOf(mutation)) !in s.pending
    requires mutation.SetRead? || mutation.SetStarred? || mutation.SetLabel?
    ensures Remembers(Key(m.id, DimensionOf(mutation)),
                      Pending(s.next, s.selected, mutation, PreviousOf(s, m, mutation)), a)
  {
  }

  lemma ToggleKeeps(start: State, o: Overlay, e: Edit)
    requires Overlaid(start, o) && e.Toggle? && Flags(e.action) && HasRoom(o.state, e)
    ensures Overlaid(start, StepEdit(o, e))
  {
    hide RowsOverlaid, RowOverlaid, Remembers, SelectedMessage, Applying, ServerOrdered;
    var s := o.state;
    var request := Request(s, e.selection, e.action);
    if request.Some? {
      var (m, mutation) := request.value;
      assert m == SelectedMessage(s, e.selection).value;
      var original := SelectedShown(s, start, o.server, e.selection);
      var key := Key(m.id, DimensionOf(mutation));
      var change := Pending(s.next, s.selected, mutation, PreviousOf(s, m, mutation));
      NewChangeRemembers(s, m, original, o.server[m.id], mutation);
      if s.mailbox.Some? {
        CopiesAgree(s.mailbox.value.messages, start.mailbox.value.messages, o.server, s.pending, m, original);
        IssueList(s.mailbox.value.messages, start.mailbox.value.messages, o.server, s.pending, m.id, change);
      }
      if s.results.Some? {
        CopiesAgree(s.results.value, start.results.value, o.server, s.pending, m, original);
        IssueList(s.results.value, start.results.value, o.server, s.pending, m.id, change);
      }
    }
  }

  lemma ConfirmFits(pending: map<Key, Pending>, server: Server, selected: FolderId, key: Key)
    requires PendingFits(pending, server, selected) && ServerOrdered(server) && key in pending
    ensures var next := server[key.id := AfterConfirm(pending[key].mutation, server[key.id])];
            PendingFits(pending - {key}, next, selected) && ServerOrdered(next)
  {
    hide WithLabel, Filter, Ordered;
    var a := server[key.id];
    if pending[key].mutation.SetLabel? {
      AddedLabel(a.labels, pending[key].mutation.name);
      RemovedLabel(a.labels, pending[key].mutation.name);
    }
  }

  lemma ReplyKeeps(start: State, o: Overlay, e: Edit)
    requires Overlaid(start, o) && e.Reply?
    ensures Overlaid(start, StepEdit(o, e))
  {
    hide RowsOverlaid, RowOverlaid, Remembers, AfterConfirm, FlagBack, LabelBack, ServerOrdered;
    var s := o.state;
    var key := KeyOf(s.pending, e.request, e.id);
    if e.generation == s.generation && key.Some? {
      var k := key.value;
      if e.confirmed {
        ConfirmFits(s.pending, o.server, s.selected, k);
        if s.mailbox.Some? {
          ConfirmList(s.mailbox.value.messages, start.mailbox.value.messages, o.server, s.pending, k);
        }
        if s.results.Some? { ConfirmList(s.results.value, start.results.value, o.server, s.pending, k); }
      } else {
        RefusedLists(s, k, o.server[k.id]);
        if s.mailbox.Some? {
          RefuseList(s.mailbox.value.messages, start.mailbox.value.messages, o.server, s.pending, k);
        }
        if s.results.Some? { RefuseList(s.results.value, start.results.value, o.server, s.pending, k); }
      }
    }
  }

  lemma RefusedLists(s: State, key: Key, a: Attributes)
    requires key in s.pending && Remembers(key, s.pending[key], a) && s.pending[key].origin == s.selected
    ensures var rest := s.(pending := s.pending - {key});
            Settled(rest, s.pending[key], key.id, Failed(false), false) == Mapped(rest, Back(key.id, s.pending[key]))
  {
  }

  // ----- whole runs -----

  /** The server holds what the lists show, and lists labels in order. */
  ghost predicate Agreeing(rows: Rows, server: Server) {
    forall row <- rows :: row.id in server && server[row.id] == Attributes(row.unread, row.starred, row.labels)
  }

  ghost predicate AtRest(start: Overlay) {
    && start.state.pending == map[] && start.state.undo == None && ServerOrdered(start.server)
    && (start.state.mailbox.Some? ==> Agreeing(start.state.mailbox.value.messages, start.server))
    && (start.state.results.Some? ==> Agreeing(start.state.results.value, start.server))
  }

  lemma AgreeingOverlaid(rows: Rows, server: Server)
    requires Agreeing(rows, server) && ServerOrdered(server)
    ensures RowsOverlaid(rows, rows, server, map[])
  {
    forall i | 0 <= i < |rows|
      ensures rows[i].id in server && RowOverlaid(rows[i], rows[i], server[rows[i].id], map[])
    {
      assert rows[i] in rows;
    }
  }

  /** In every run of toggles and definite answers, in any order and with any stale answers between
      them, every attribute of every row is the server's, overlaid by the change pending for it. */
  lemma {:induction false} AlwaysOverlaid(start: Overlay, edits: seq<Edit>)
    requires AtRest(start) && WithRoom(start, edits)
    requires forall e <- edits :: e.Toggle? ==> Flags(e.action)
    ensures Overlaid(start.state, RunEdits(start, edits))
  {
    hide RowsOverlaid, Agreeing, StepEdit, HasRoom;
    if edits == [] {
      if start.state.mailbox.Some? { AgreeingOverlaid(start.state.mailbox.value.messages, start.server); }
      if start.state.results.Some? { AgreeingOverlaid(start.state.results.value, start.server); }
    } else {
      var front, last := edits[..|edits| - 1], edits[|edits| - 1];
      assert last in edits && forall e <- front :: e in edits;
      AlwaysOverlaid(start, front);
      if last.Toggle? {
        ToggleKeeps(start.state, RunEdits(start, front), last);
      } else {
        ReplyKeeps(start.state, RunEdits(start, front), last);
      }
    }
  }

  lemma RowServed(row: MessageSummary, original: MessageSummary, a: Attributes)
    requires RowOverlaid(row, original, a, map[]) && Ordered(a.labels)
    ensures row == original.(unread := a.unread, starred := a.starred, labels := a.labels)
  {
    hide Ordered;
    assert forall name :: LabelShown(name, original.id, a, map[]) == (name in a.labels);
    OrderedUnique(row.labels, a.labels);
  }

  lemma RowsServed(rows: Rows, original: Rows, server: Server)
    requires RowsOverlaid(rows, original, server, map[]) && ServerOrdered(server)
    ensures |rows| == |original|
    ensures forall i | 0 <= i < |rows| ::
              original[i].id in server
              && rows[i]
                 == original[i].(unread := server[original[i].id].unread, starred := server[original[i].id].starred,
                                         labels := server[original[i].id].labels)
  {
    hide RowOverlaid;
    forall i | 0 <= i < |rows|
      ensures rows[i]
           == original[i].(unread := server[original[i].id].unread, starred := server[original[i].id].starred,
                                      labels := server[original[i].id].labels)
    {
      RowServed(rows[i], original[i], server[original[i].id]);
    }
  }

  lemma {:induction false} NothingConfirmed(start: Overlay, edits: seq<Edit>)
    requires forall e <- edits :: e.Reply? ==> !e.confirmed
    ensures RunEdits(start, edits).server == start.server
  {
    hide Mutate, Finish;
    if edits != [] {
      var front, last := edits[..|edits| - 1], edits[|edits| - 1];
      assert last in edits && forall e <- front :: e in edits;
      NothingConfirmed(start, front);
    }
  }

  lemma RowsUnchanged(rows: Rows, original: Rows, server: Server)
    requires RowsOverlaid(rows, original, server, map[]) && ServerOrdered(server) && Agreeing(original, server)
    ensures rows == original
  {
    hide RowsOverlaid, ServerOrdered;
    RowsServed(rows, original, server);
    forall i | 0 <= i < |rows| ensures rows[i] == original[i] {
      assert original[i] in original;
    }
  }

  /** If every change of a run was refused, both lists are exactly what they were. */
  lemma AllRefusedRestores(start: Overlay, edits: seq<Edit>)
    requires AtRest(start) && WithRoom(start, edits)
    requires forall e <- edits :: if e.Toggle? then Flags(e.action) else !e.confirmed
    requires RunEdits(start, edits).state.pending == map[]
    ensures var end := RunEdits(start, edits).state;
            end.mailbox == start.state.mailbox && end.results == start.state.results
  {
    hide RowsOverlaid, Agreeing, RunEdits, WithRoom, ServerOrdered;
    AlwaysOverlaid(start, edits);
    NothingConfirmed(start, edits);
    var end := RunEdits(start, edits).state;
    if end.mailbox.Some? {
      RowsUnchanged(end.mailbox.value.messages, start.state.mailbox.value.messages, start.server);
    }
    if end.results.Some? { RowsUnchanged(end.results.value, start.state.results.value, start.server); }
  }

  /** Adding a label and having it refused restores a row exactly when there was room for it, or when
      the cap cut the new label itself. */
  lemma RefusedLabelExact(row: MessageSummary, name: string)
    requires Ordered(row.labels) && name !in row.labels
    ensures LabelBack(row.id, name, false)(Applying(row.id, SetLabel(name, true))(row)) == row <==>
            |row.labels| < MAX_MESSAGE_LABELS
            || (|row.labels| == MAX_MESSAGE_LABELS && forall l <- row.labels :: AtMost(l, name))
  {
    hide WithLabel, Filter, Ordered;
    RefusedAdditionExact(row.labels, name);
  }
}
