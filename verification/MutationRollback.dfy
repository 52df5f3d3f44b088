/** Archive and Trash on the whole reducer state: refused in reverse they leave no trace, and Undo
    brings back exactly what they took. */
module MutationRollback {
  import opened Results
  import opened Sorting
  import opened MessageIds
  import opened Mail
  import opened FolderStore
  import opened RowRemoval
  import opened MutationReducer

  /** No message stands twice in a list. */
  ghost predicate Listed(s: State) {
    && (s.mailbox.Some? ==> DistinctIds(s.mailbox.value.messages))
    && (s.results.Some? ==> DistinctIds(s.results.value))
  }

  // ----- rows of two lists -----

  lemma {:induction false} WithFolderRows(s: State, removed: seq<Removed>)
    requires forall r <- removed :: r.view == FolderRows
    ensures s.mailbox.None? ==> WithRows(s, removed) == s
    ensures s.mailbox.Some? ==>
              WithRows(s, removed)
              == s.(mailbox := Some(s.mailbox.value.(messages := RestoreInto(s.mailbox.value.messages, removed))))
  {
    hide RestoreOne;
    if removed != [] {
      assert removed[|removed| - 1] in removed;
      WithFolderRows(s, removed[..|removed| - 1]);
    }
  }

  lemma {:induction false} WithSearchRows(s: State, removed: seq<Removed>)
    requires forall r <- removed :: r.view == SearchRows
    ensures s.results.None? ==> WithRows(s, removed) == s
    ensures s.results.Some? ==> WithRows(s, removed) == s.(results := Some(RestoreInto(s.results.value, removed)))
  {
    hide RestoreOne;
    if removed != [] {
      assert removed[|removed| - 1] in removed;
      WithSearchRows(s, removed[..|removed| - 1]);
    }
  }

  lemma {:induction false} WithRowsAppend(s: State, a: seq<Removed>, b: seq<Removed>)
    ensures WithRows(s, a + b) == WithRows(WithRows(s, a), b)
  {
    hide WithRow;
    if b == [] {
      assert a + b == a;
    } else {
      WithRowsAppend(s, a, b[..|b| - 1]);
      assert (a + b)[..|a + b| - 1] == a + b[..|b| - 1];
    }
  }

  lemma TakenByView(s: State, id: MessageId, archive: bool)
    ensures forall r <- FolderRemoval(s, id, archive).removed :: r.view == FolderRows
    ensures forall r <- SearchRemoval(s, id, archive).removed :: r.view == SearchRows
  {
    hide RemoveFrom;
    if s.mailbox.Some? { RemovalKeepsOthers(s.mailbox.value.messages, id, archive, FolderRows); }
    if s.results.Some? { RemovalKeepsOthers(s.results.value, id, archive, SearchRows); }
  }

  /** What each list gives back. */
  lemma WithTaken(s: State, t: State, id: MessageId, archive: bool)
    requires t.mailbox.Some? == s.mailbox.Some? && t.results.Some? == s.results.Some?
    ensures WithRows(t, TakenRows(s, id, archive))
         == t.(mailbox := if t.mailbox.None? then None
                          else Some(t.mailbox.value.(messages :=
                                      RestoreInto(t.mailbox.value.messages, FolderRemoval(s, id, archive).removed))),
               results := if t.results.None? then None
                          else Some(RestoreInto(t.results.value, SearchRemoval(s, id, archive).removed)))
  {
    hide RemoveFrom, WithRows, RestoreInto;
    var f, r := FolderRemoval(s, id, archive).removed, SearchRemoval(s, id, archive).removed;
    TakenByView(s, id, archive);
    WithRowsAppend(t, f, r);
    WithFolderRows(t, f);
    WithSearchRows(WithRows(t, f), r);
  }

  lemma TakenGoBack(s: State, t: State, id: MessageId, archive: bool)
    requires Listed(s)
    requires t.mailbox == WithoutRows(s, id, archive).mailbox && t.results == WithoutRows(s, id, archive).results
    ensures WithRows(t, TakenRows(s, id, archive)) == t.(mailbox := s.mailbox, results := s.results)
  {
    hide RemoveFrom, WithRows, RestoreInto, DistinctIds;
    WithTaken(s, t, id, archive);
    if s.mailbox.Some? { RestoreUndoesRemoval(s.mailbox.value.messages, id, archive, FolderRows); }
    if s.results.Some? { RestoreUndoesRemoval(s.results.value, id, archive, SearchRows); }
  }

  /** Rows that are back already are not put back again. */
  lemma TakenStayOnce(s: State, t: State, id: MessageId, archive: bool)
    requires t.mailbox == s.mailbox && t.results == s.results
    ensures WithRows(t, TakenRows(s, id, archive)) == t
  {
    hide RemoveFrom, WithRows, RestoreInto;
    WithTaken(s, t, id, archive);
    if s.mailbox.Some? {
      RemovalKeepsOthers(s.mailbox.value.messages, id, archive, FolderRows);
      AllHeld(s.mailbox.value.messages, FolderRemoval(s, id, archive).removed);
    }
    if s.results.Some? {
      RemovalKeepsOthers(s.results.value, id, archive, SearchRows);
      AllHeld(s.results.value, SearchRemoval(s, id, archive).removed);
    }
  }

  lemma WithoutKeepsListed(s: State, id: MessageId, archive: bool)
    requires Listed(s)
    ensures Listed(WithoutRows(s, id, archive))
  {
    hide RemoveFrom, DistinctIds;
    if s.mailbox.Some? { RemovalKeepsDistinct(s.mailbox.value.messages, id, archive, FolderRows); }
    if s.results.Some? { RemovalKeepsDistinct(s.results.value, id, archive, SearchRows); }
  }

  // ----- one move -----

  predicate IsMove(action: Action) {
    action.ArchiveMessage? || action.TrashMessage?
  }

  /** The state after a move was sent. */
  lemma MoveShape(s: State, selection: Option<MessageId>, action: Action)
    requires IsMove(action) && Mutate(s, selection, action).sent != []
    ensures var turn := Mutate(s, selection, action);
            var c := turn.sent[0];
            var key := Key(c.id, InboxDimension);
            var rows := TakenRows(s, c.id, c.mutation.Archive?);
            && Moves(c.mutation) && key !in s.pending && s.account.Some? && s.mailbox.Some?
            && c.catalog == s.mailbox.value.catalog
            && turn.state == WithoutRows(s, c.id, c.mutation.Archive?)
                 .(pending := s.pending[key := Pending(s.next, s.selected, c.mutation, TookRows(rows))],
                   undo := Some(Undo(s.next, c.id, c.mutation, TookRows(rows), c.locator, c.catalog,
                                     ForwardPending(s.next, false))),
                   next := s.next + 1)
  {
    hide TakenRows, WithoutRows, SelectedMessage;
  }

  lemma FoundPending(pending: map<Key, Pending>, key: Key)
    requires key in pending
    requires forall a, b | a in pending && b in pending && pending[a].request == pending[b].request :: a == b
    ensures KeyOf(pending, pending[key].request, key.id) == Some(key)
  {
    assert IsPending(pending, key, pending[key].request, key.id);
  }

  lemma MoveKeepsNumbers(s: State, key: Key, change: Pending)
    requires WellNumbered(s) && key !in s.pending && change.request == s.next
    ensures WellNumbered(s.(pending := s.pending[key := change], next := s.next + 1))
  {
  }

  /** A definite refusal of the newest move gives back the lists and the pending table. */
  lemma RefusedMove(s: State, selection: Option<MessageId>, action: Action, inner: State)
    requires Listed(s) && WellNumbered(s) && IsMove(action) && Mutate(s, selection, action).sent != []
    requires var t := Mutate(s, selection, action).state;
             inner == t.(next := inner.next, undo := inner.undo) && (inner.undo == t.undo || inner.undo == None)
    ensures Finish(inner, s.next, s.generation, Mutate(s, selection, action).sent[0].id, Failed(false))
         == Turn(s.(next := inner.next, undo := None), [])
  {
    hide TakenRows, WithoutRows, WithRows, Listed, Mutate, WellNumbered;
    var turn := Mutate(s, selection, action);
    var c := turn.sent[0];
    MoveShape(s, selection, action);
    var key := Key(c.id, InboxDimension);
    assert WellNumbered(s.(pending := turn.state.pending, next := s.next + 1)) by {
      MoveKeepsNumbers(s, key, turn.state.pending[key]);
    }
    FoundOnly(s.(pending := turn.state.pending, next := s.next + 1), key);
    assert inner.pending - {key} == s.pending;
    var rest := inner.(pending := inner.pending - {key}, undo := None);
    WithoutFrame(s, c.id, c.mutation.Archive?);
    TakenGoBack(s, rest, c.id, c.mutation.Archive?);
  }

  lemma FoundOnly(s: State, key: Key)
    requires WellNumbered(s) && key in s.pending
    ensures KeyOf(s.pending, s.pending[key].request, key.id) == Some(key)
  {
    FoundPending(s.pending, key);
  }

  lemma WithoutFrame(s: State, id: MessageId, archive: bool)
    ensures var w := WithoutRows(s, id, archive); w == s.(mailbox := w.mailbox, results := w.results)
  {
  }

  // ----- runs of moves -----

  /** Sends the moves one after the other; Gmail then refuses them, the last one first. */
  ghost function UnwoundMoves(s: State, moves: seq<(Option<MessageId>, Action)>): State
    decreases |moves|
  {
    if moves == [] then s
    else
      var turn := Mutate(s, moves[0].0, moves[0].1);
      var inner := UnwoundMoves(turn.state, moves[1..]);
      if turn.sent == [] then inner
      else Finish(inner, s.next, s.generation, turn.sent[0].id, Failed(false)).state
  }

  /** Any run of archives and trashes refused in reverse leaves lists and pending table as they were;
      only request ids are spent and, once anything was sent, no Undo token is left. */
  lemma {:induction false} RefusedInReverse(s: State, moves: seq<(Option<MessageId>, Action)>)
    requires Listed(s) && WellNumbered(s) && forall m <- moves :: IsMove(m.1)
    ensures var r := UnwoundMoves(s, moves);
            && r == s.(next := r.next, undo := r.undo) && s.next <= r.next
            && r.undo == if r.next == s.next then s.undo else None
    decreases |moves|
  {
    hide Mutate, Finish, Listed, WellNumbered, WithoutRows, TakenRows;
    if moves != [] {
      var (selection, action) := moves[0];
      assert moves[0] in moves;
      var turn := Mutate(s, selection, action);
      if turn.sent == [] {
        RefusedRequest(s, selection, action);
        RefusedInReverse(turn.state, moves[1..]);
      } else {
        MoveShape(s, selection, action);
        var c := turn.sent[0];
        WithoutFrame(s, c.id, c.mutation.Archive?);
        MoveKeepsListed(s, turn.state, c.id, c.mutation.Archive?);
        MoveKeepsNumbers(s, Key(c.id, InboxDimension), turn.state.pending[Key(c.id, InboxDimension)]);
        SameNumbers(s.(pending := turn.state.pending, next := s.next + 1), turn.state);
        RefusedInReverse(turn.state, moves[1..]);
        RefusedMove(s, selection, action, UnwoundMoves(turn.state, moves[1..]));
      }
    }
  }

  lemma RefusedRequest(s: State, selection: Option<MessageId>, action: Action)
    requires Mutate(s, selection, action).sent == []
    ensures Mutate(s, selection, action).state == s
  {
  }

  lemma SameNumbers(s: State, t: State)
    requires WellNumbered(s) && t.pending == s.pending && t.next == s.next
    ensures WellNumbered(t)
  {
  }

  lemma MoveKeepsListed(s: State, t: State, id: MessageId, archive: bool)
    requires Listed(s)
    requires t.mailbox == WithoutRows(s, id, archive).mailbox && t.results == WithoutRows(s, id, archive).results
    ensures Listed(t)
  {
    hide WithoutRows, DistinctIds;
    WithoutKeepsListed(s, id, archive);
  }

  // ----- Undo -----

  /** The refused or undone move: its own lists, without its pending entry. */
  function MovedAway(s: State, c: Command, next: nat): State {
    WithoutRows(s, c.id, c.mutation.Archive?).(undo := None, next := next)
  }

  /** Undo pressed while the change is still pending puts the rows back at once; the token waits. */
  lemma PressedEarly(s: State, selection: Option<MessageId>, action: Action)
    requires Listed(s) && WellNumbered(s) && IsMove(action) && Mutate(s, selection, action).sent != []
    ensures var moved := Mutate(s, selection, action).state;
            && moved.undo.Some?
            && PressUndo(moved)
            == Turn(moved.(mailbox := s.mailbox, results := s.results,
                           undo := Some(moved.undo.value.(phase := ForwardPending(s.next, true)))), [])
  {
    hide TakenRows, WithoutRows, WithRows, Listed, Mutate, WellNumbered;
    MoveShape(s, selection, action);
    var moved, c := Mutate(s, selection, action).state, Mutate(s, selection, action).sent[0];
    TakenGoBack(s, moved, c.id, c.mutation.Archive?);
  }

  /** The answer to a move is found, with or without Undo pressed. */
  lemma MoveIsFound(s: State, selection: Option<MessageId>, action: Action)
    requires WellNumbered(s) && IsMove(action) && Mutate(s, selection, action).sent != []
    ensures var moved, c := Mutate(s, selection, action).state, Mutate(s, selection, action).sent[0];
            var key := Key(c.id, InboxDimension);
            && KeyOf(moved.pending, s.next, c.id) == Some(key)
            && moved.pending - {key} == s.pending
  {
    hide TakenRows, WithoutRows, Mutate, WellNumbered;
    MoveShape(s, selection, action);
    var moved, c := Mutate(s, selection, action).state, Mutate(s, selection, action).sent[0];
    var key := Key(c.id, InboxDimension);
    MoveKeepsNumbers(s, key, moved.pending[key]);
    FoundOnly(s.(pending := moved.pending, next := s.next + 1), key);
  }

  /** If Gmail refuses a change whose Undo was already pressed, everything is as before the change; if
      its fate is unknown, the message stays away. */
  lemma UndoBeforeAnswer(s: State, selection: Option<MessageId>, action: Action)
    requires Listed(s) && WellNumbered(s) && IsMove(action) && Mutate(s, selection, action).sent != []
    ensures var c := Mutate(s, selection, action).sent[0];
            var pressed := PressUndo(Mutate(s, selection, action).state).state;
            && Finish(pressed, s.next, s.generation, c.id, Failed(false)).state == s.(next := s.next + 1, undo := None)
            && Finish(pressed, s.next, s.generation, c.id, Failed(true)).state == MovedAway(s, c, s.next + 1)
  {
    hide TakenRows, WithoutRows, WithRows, Listed, Mutate, WellNumbered, PressUndo, KeyOf;
    MoveShape(s, selection, action);
    PressedEarly(s, selection, action);
    MoveIsFound(s, selection, action);
    var c := Mutate(s, selection, action).sent[0];
    var pressed := PressUndo(Mutate(s, selection, action).state).state;
    var rest := pressed.(pending := s.pending, undo := None);
    WithoutFrame(s, c.id, c.mutation.Archive?);
    TakenStayOnce(s, rest, c.id, c.mutation.Archive?);
    WithoutSame(s, rest, c.id, c.mutation.Archive?);
  }

  lemma WithoutSame(s: State, t: State, id: MessageId, archive: bool)
    requires s.mailbox == t.mailbox && s.results == t.results
    ensures var w := WithoutRows(s, id, archive);
            WithoutRows(t, id, archive) == t.(mailbox := w.mailbox, results := w.results)
  {
  }

  /** The state in which the inverse has been sent. */
  function Undoing(s: State, c: Command): State {
    s.(undo := Some(Undo(s.next, c.id, c.mutation, TookRows(TakenRows(s, c.id, c.mutation.Archive?)), c.locator,
                         c.catalog, UndoPending(s.next + 1))),
       next := s.next + 2)
  }

  /** The turn that sends the inverse of the move. */
  predicate SendsInverse(s: State, c: Command, turn: Turn) {
    && turn.state == Undoing(s, c)
    && |turn.sent| == 1 && s.account.Some? && Inverse(turn.state.undo.value).Some?
    && turn.sent[0] == MutateMessage(s.next + 1, s.generation, s.account.value, c.id, c.locator, c.catalog,
                                     Inverse(turn.state.undo.value).value)
  }

  lemma UndoLate(s: State, selection: Option<MessageId>, action: Action)
    requires Listed(s) && WellNumbered(s) && IsMove(action) && Mutate(s, selection, action).sent != []
    requires s.mailbox.Some? && s.mailbox.value.catalog.Find(Inbox).Some?
    ensures var moved, c := Mutate(s, selection, action).state, Mutate(s, selection, action).sent[0];
            SendsInverse(s, c, PressUndo(Finish(moved, s.next, s.generation, c.id, Outcome.Confirmed).state))
  {
    hide TakenRows, WithoutRows, WithRows, Listed, Mutate, WellNumbered, KeyOf;
    MoveShape(s, selection, action);
    MoveIsFound(s, selection, action);
    var moved, c := Mutate(s, selection, action).state, Mutate(s, selection, action).sent[0];
    WithoutFrame(s, c.id, c.mutation.Archive?);
    TakenGoBack(s, moved.(pending := s.pending, undo := None), c.id, c.mutation.Archive?);
  }

  lemma UndoEarly(s: State, selection: Option<MessageId>, action: Action)
    requires Listed(s) && WellNumbered(s) && IsMove(action) && Mutate(s, selection, action).sent != []
    requires s.mailbox.Some? && s.mailbox.value.catalog.Find(Inbox).Some?
    ensures var moved, c := Mutate(s, selection, action).state, Mutate(s, selection, action).sent[0];
            SendsInverse(s, c, Finish(PressUndo(moved).state, s.next, s.generation, c.id, Outcome.Confirmed))
  {
    hide TakenRows, WithoutRows, WithRows, Listed, Mutate, WellNumbered, KeyOf, PressUndo;
    MoveShape(s, selection, action);
    PressedEarly(s, selection, action);
    MoveIsFound(s, selection, action);
    var c := Mutate(s, selection, action).sent[0];
    WithoutFrame(s, c.id, c.mutation.Archive?);
    TakenStayOnce(s, s.(next := s.next + 1, undo := None), c.id, c.mutation.Archive?);
  }

  /** Pressing Undo before or after the confirmation sends the same inverse and leaves the same state. */
  lemma UndoEarlyOrLate(s: State, selection: Option<MessageId>, action: Action)
    requires Listed(s) && WellNumbered(s) && IsMove(action) && Mutate(s, selection, action).sent != []
    requires s.mailbox.Some? && s.mailbox.value.catalog.Find(Inbox).Some?
    ensures var moved, c := Mutate(s, selection, action).state, Mutate(s, selection, action).sent[0];
            var late := PressUndo(Finish(moved, s.next, s.generation, c.id, Outcome.Confirmed).state);
            var early := Finish(PressUndo(moved).state, s.next, s.generation, c.id, Outcome.Confirmed);
            early == late && SendsInverse(s, c, late)
  {
    hide Mutate, Finish, PressUndo, Listed, WellNumbered, Undoing;
    UndoLate(s, selection, action);
    UndoEarly(s, selection, action);
  }

  lemma UndoSettles(s: State, c: Command, uncertain: bool)
    ensures Finish(Undoing(s, c), s.next + 1, s.generation, c.id, Outcome.Confirmed)
         == Turn(s.(undo := None, next := s.next + 2), [])
    ensures Finish(Undoing(s, c), s.next + 1, s.generation, c.id, Failed(uncertain))
         == Turn(MovedAway(s, c, s.next + 2), [])
  {
    hide TakenRows;
  }

  /** A move, its confirmation, Undo, and Gmail's answer to it: confirmed, both lists and the pending table
      are those before the move; failed, the message is away as if Undo had never been pressed. */
  lemma UndoRoundTrip(s: State, selection: Option<MessageId>, action: Action, uncertain: bool)
    requires Listed(s) && WellNumbered(s) && IsMove(action) && Mutate(s, selection, action).sent != []
    requires s.mailbox.Some? && s.mailbox.value.catalog.Find(Inbox).Some?
    ensures var moved, c := Mutate(s, selection, action).state, Mutate(s, selection, action).sent[0];
            var confirmed := Finish(moved, s.next, s.generation, c.id, Outcome.Confirmed).state;
            var undoing := PressUndo(confirmed).state;
            && Finish(undoing, s.next + 1, s.generation, c.id, Outcome.Confirmed).state
               == s.(undo := None, next := s.next + 2)
            && Finish(undoing, s.next + 1, s.generation, c.id, Failed(uncertain)).state == MovedAway(s, c, s.next + 2)
            && confirmed.mailbox == MovedAway(s, c, s.next + 2).mailbox
            && confirmed.results == MovedAway(s, c, s.next + 2).results
  {
    hide Mutate, PressUndo, Listed, WellNumbered, Undoing, MovedAway, WithoutRows, TakenRows, Finish;
    var moved, c := Mutate(s, selection, action).state, Mutate(s, selection, action).sent[0];
    UndoLate(s, selection, action);
    UndoSettles(s, c, uncertain);
    ConfirmedLists(s, selection, action);
  }

  lemma ConfirmedLists(s: State, selection: Option<MessageId>, action: Action)
    requires WellNumbered(s) && IsMove(action) && Mutate(s, selection, action).sent != []
    ensures var moved, c := Mutate(s, selection, action).state, Mutate(s, selection, action).sent[0];
            var confirmed := Finish(moved, s.next, s.generation, c.id, Outcome.Confirmed).state;
            && confirmed.mailbox == MovedAway(s, c, s.next + 2).mailbox
            && confirmed.results == MovedAway(s, c, s.next + 2).results
  {
    hide TakenRows, WithoutRows, Mutate, WellNumbered, KeyOf;
    MoveShape(s, selection, action);
    MoveIsFound(s, selection, action);
  }

  /** The rows of a message in both lists. */
  predicate InLists(s: State, row: MessageSummary) {
    (s.mailbox.Some? && row in s.mailbox.value.messages) || (s.results.Some? && row in s.results.value)
  }

  lemma TakenFromLists(s: State, id: MessageId, archive: bool)
    ensures forall r <- TakenRows(s, id, archive) :: InLists(s, r.message) && r.message.id == id
    ensures forall row | InLists(s, row) && ShouldRemove(row, id, archive) :: Names(TakenRows(s, id, archive), row)
  {
    hide RemoveFrom, ShouldRemove;
    var f, r := FolderRemoval(s, id, archive).removed, SearchRemoval(s, id, archive).removed;
    if s.mailbox.Some? { RemovalKeepsOthers(s.mailbox.value.messages, id, archive, FolderRows); }
    if s.results.Some? { RemovalKeepsOthers(s.results.value, id, archive, SearchRows); }
    forall row | InLists(s, row) && ShouldRemove(row, id, archive) ensures Names(f + r, row) {
      if s.mailbox.Some? && row in s.mailbox.value.messages {
        TakesEligible(s.mailbox.value.messages, id, archive, FolderRows, row);
        var x :| x in f && x.message == row;
        assert x in f + r;
      } else {
        TakesEligible(s.results.value, id, archive, SearchRows, row);
        var x :| x in r && x.message == row;
        assert x in f + r;
      }
    }
  }

  lemma SelectedIsListed(s: State, selection: Option<MessageId>)
    requires SelectedMessage(s, selection).Some?
    ensures InLists(s, SelectedMessage(s, selection).value)
  {
    if s.results.Some? && FirstById(s.results.value, selection.value).Some? {
      FirstIsMember(s.results.value, selection.value);
    } else {
      FirstIsMember(s.mailbox.value.messages, selection.value);
    }
  }

  lemma {:induction false} FirstIsMember(rows: Rows, id: MessageId)
    requires FirstById(rows, id).Some?
    ensures FirstById(rows, id).value in rows
  {
    if rows[0].id != id { FirstIsMember(rows[1..], id); }
  }

  /** The inverse of a trash gives back the Inbox membership and the labels the message had, so an
      undone message never enters Inbox anew. */
  lemma TrashInverseRestores(s: State, selection: Option<MessageId>)
    requires Mutate(s, selection, TrashMessage).sent != [] && SelectedMessage(s, selection).Some?
    requires SelectedMessage(s, selection).value.folderId != Trash
    requires var m := SelectedMessage(s, selection).value;
             forall row | InLists(s, row) && row.id == m.id :: row.inInbox == m.inInbox && row.labels == m.labels
    ensures var m := SelectedMessage(s, selection).value;
            var moved, c := Mutate(s, selection, TrashMessage).state, Mutate(s, selection, TrashMessage).sent[0];
            var inbox := c.catalog.Find(Inbox);
            && c.id == m.id && c.mutation.MoveToTrash? && moved.undo.Some?
            && Inverse(moved.undo.value) == if inbox.None? then None
                 else Some(RestoreFromTrash(inbox.value.mailbox, c.mutation.mailbox, m.inInbox, m.labels))
  {
    hide SelectedMessage, TakenRows, WithoutRows, InLists;
    var m := SelectedMessage(s, selection).value;
    SelectedIsListed(s, selection);
    TakenFromLists(s, m.id, false);
    assert ShouldRemove(m, m.id, false);
    var rows := TakenRows(s, m.id, false);
    var x :| x in rows && x.message == m;
    assert RestoredRows(TookRows(rows)) == rows && rows[0] in rows;
  }

  // ----- reconciliation -----

  ghost predicate Truthful(rows: Rows, id: MessageId, state: Option<ReconciledState>) {
    forall row <- rows ::
      if state.None? then row.id != id
      else BelongsInProjection(row) && (row.id == id ==> row == ReconcileRow(state.value, row))
  }

  lemma ReconciledList(rows: Rows, id: MessageId, state: Option<ReconciledState>)
    ensures state.None? ==> Truthful(Filter(rows, NotId(id)), id, state)
    ensures state.Some? ==> Truthful(Filter(MapRows(rows, Reconciling(id, state.value)), Belonging()), id, state)
  {
    hide Filter;
    FilterMembers(rows, NotId(id));
    if state.Some? {
      var mapped := MapRows(rows, Reconciling(id, state.value));
      FilterMembers(mapped, Belonging());
      forall row <- Filter(mapped, Belonging())
        ensures BelongsInProjection(row) && (row.id == id ==> row == ReconcileRow(state.value, row))
      {
        assert row in mapped;
        var i :| 0 <= i < |rows| && mapped[i] == row;
      }
    }
  }

  /** After Gmail's own account of a message, whichever change it answers, both lists tell the truth:
      its rows carry exactly what Gmail said, and no row stands in a list it does not belong to. */
  lemma ReconciledIsTruthful(s: State, id: MessageId, previous: PendingValue, state: Option<ReconciledState>)
    ensures var t := WithReconciled(s, id, previous, state);
            && (t.mailbox.Some? ==> Truthful(t.mailbox.value.messages, id, state))
            && (t.results.Some? ==> Truthful(t.results.value, id, state))
  {
    hide Filter, MapRows, WithRows, Truthful, ReconciledRemovals;
    var back := if state.Some? && previous.TookRows? then WithRows(s, ReconciledRemovals(previous.rows, state.value))
                else s;
    if back.mailbox.Some? { ReconciledList(back.mailbox.value.messages, id, state); }
    if back.results.Some? { ReconciledList(back.results.value, id, state); }
  }
}
