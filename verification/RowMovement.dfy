/** Where the rows of a list come from through one event of the reducer (src/state.rs): each stood in the
    list before, or is one of the rows the event puts back. */
module RowMovement {
  import opened Results
  import opened Sorting
  import opened MessageIds
  import opened Mail
  import opened FolderStore
  import opened RowRemoval
  import opened MutationReducer
  import opened UndoMachine
  import opened AnyOrderRefusal

  // ----- lists -----

  predicate Present(s: State, view: RowView) {
    if view.FolderRows? then s.mailbox.Some? else s.results.Some?
  }

  /** The message stood in the list, as a row of the same folder. */
  ghost predicate Stood(rows: Rows, row: MessageSummary) {
    exists x <- rows :: x.id == row.id && x.folderId == row.folderId
  }

  /** The row is one put back into a list that did not show its message. */
  ghost predicate CameBack(rows: Rows, back: seq<Removed>, view: RowView, row: MessageSummary) {
    !Holds(rows, row.id) && exists r <- back :: r.view == view && r.message == row
  }

  /** `after` holds rows of `before` and rows put back; of each message put back and not shown before
      it holds one. */
  ghost predicate Moved(before: Rows, back: seq<Removed>, view: RowView, after: Rows) {
    && (forall row <- after :: Stood(before, row) || CameBack(before, back, view, row))
    && (forall r <- back | r.view == view && !Holds(before, r.message.id) ::
          exists row <- after :: row.id == r.message.id && CameBack(before, back, view, row))
  }

  lemma CameBackMore(before: Rows, back: seq<Removed>, more: seq<Removed>, view: RowView, row: MessageSummary)
    requires CameBack(before, back, view, row)
    ensures CameBack(before, back + more, view, row)
  {
    var r :| r in back && r.view == view && r.message == row;
    assert r in back + more;
  }

  lemma NotHeldBefore(before: Rows, mid: Rows, id: MessageId)
    requires forall row <- before :: Holds(mid, row.id)
    requires !Holds(mid, id)
    ensures !Holds(before, id)
  {
    forall row <- before ensures row.id != id {
      assert Holds(mid, row.id);
    }
  }

  /** Each row after a further row went back stood before or came back. */
  lemma OneMoreCame(before: Rows, back: seq<Removed>, view: RowView, mid: Rows, last: Removed, row: MessageSummary)
    requires Moved(before, back, view, mid) && last.view == view
    requires forall row <- before :: Holds(mid, row.id)
    requires row in mid || (row == last.message && !Holds(mid, row.id))
    ensures Stood(before, row) || CameBack(before, back + [last], view, row)
  {
    assert last in back + [last];
    if row in mid {
      if CameBack(before, back, view, row) { CameBackMore(before, back, [last], view, row); }
    } else {
      NotHeldBefore(before, mid, row.id);
    }
  }

  lemma NotStood(before: Rows, row: MessageSummary)
    ensures Stood(before, row) ==> Holds(before, row.id)
  {
  }

  lemma ShownIsHeld(before: Rows, back: seq<Removed>, view: RowView, mid: Rows, r: Removed)
    ensures (exists row <- mid :: row.id == r.message.id && CameBack(before, back, view, row)) ==>
              Holds(mid, r.message.id)
  {
    hide CameBack;
  }

  lemma CameNow(before: Rows, back: seq<Removed>, view: RowView, last: Removed)
    requires last.view == view && !Holds(before, last.message.id)
    ensures CameBack(before, back + [last], view, last.message)
  {
    hide Holds;
    assert last in back + [last];
  }

  lemma ShownOnceMore(before: Rows, back: seq<Removed>, view: RowView, mid: Rows, last: Removed, r: Removed)
    returns (row: MessageSummary)
    requires last.view == view && r in back + [last] && r.view == view && !Holds(before, r.message.id)
    requires forall row <- mid | row.id == r.message.id :: CameBack(before, back, view, row)
    requires r in back ==> Holds(mid, r.message.id)
    ensures row in mid || (row == last.message && !Holds(mid, row.id))
    ensures row.id == r.message.id && CameBack(before, back + [last], view, row)
  {
    hide CameBack, Stood;
    if Holds(mid, r.message.id) {
      row :| row in mid && row.id == r.message.id;
      CameBackMore(before, back, [last], view, row);
    } else {
      row := r.message;
      CameNow(before, back, view, last);
    }
  }

  /** A further row of the view goes back. */
  lemma MovedOne(before: Rows, back: seq<Removed>, view: RowView, mid: Rows, last: Removed)
    requires Moved(before, back, view, mid) && last.view == view
    requires forall row <- before :: Holds(mid, row.id)
    ensures Moved(before, back + [last], view, RestoreOne(mid, last))
    ensures forall row <- before :: Holds(RestoreOne(mid, last), row.id)
  {
    hide InsertAt, Stood, CameBack, Holds;
    HeldAfterOne(mid, last);
    InsertedMembers(mid, last.index, last.message);
    var after := RestoreOne(mid, last);
    forall row <- after ensures Stood(before, row) || CameBack(before, back + [last], view, row) {
      OneMoreCame(before, back, view, mid, last, row);
    }
    forall r <- back + [last] | r.view == view && !Holds(before, r.message.id)
      ensures exists row <- after :: row.id == r.message.id && CameBack(before, back + [last], view, row)
    {
      forall row <- mid | row.id == r.message.id ensures CameBack(before, back, view, row) {
        NotStood(before, row);
      }
      if r in back { ShownIsHeld(before, back, view, mid, r); }
      var row := ShownOnceMore(before, back, view, mid, last, r);
      assert row in after;
    }
  }

  /** A row of the other view goes back. */
  lemma MovedElsewhere(before: Rows, back: seq<Removed>, view: RowView, after: Rows, last: Removed)
    requires Moved(before, back, view, after) && last.view != view
    ensures Moved(before, back + [last], view, after)
  {
    hide CameBack, Stood, Holds;
    forall row <- after ensures Stood(before, row) || CameBack(before, back + [last], view, row) {
      if CameBack(before, back, view, row) { CameBackMore(before, back, [last], view, row); }
    }
    forall r <- back + [last] | r.view == view && !Holds(before, r.message.id)
      ensures exists row <- after :: row.id == r.message.id && CameBack(before, back + [last], view, row)
    {
      var row :| row in after && row.id == r.message.id && CameBack(before, back, view, row);
      CameBackMore(before, back, [last], view, row);
    }
  }

  /** Rows leave, or change in anything but message and folder. */
  ghost predicate Thinned(before: Rows, after: Rows) {
    forall row <- after :: Stood(before, row)
  }

  lemma ThinnedByMap(rows: Rows, f: MessageSummary -> MessageSummary)
    requires forall row: MessageSummary :: f(row).id == row.id && f(row).folderId == row.folderId
    ensures Thinned(rows, MapRows(rows, f))
  {
    var after := MapRows(rows, f);
    forall row <- after ensures Stood(rows, row) {
      var i :| 0 <= i < |after| && after[i] == row;
      assert rows[i] in rows;
    }
  }

  lemma ThinnedByFilter(rows: Rows, keep: MessageSummary -> bool)
    ensures Thinned(rows, Filter(rows, keep))
  {
    hide Filter;
    FilterMembers(rows, keep);
  }

  lemma ThinnedByRemoval(rows: Rows, id: MessageId, archive: bool, view: RowView)
    ensures Thinned(rows, RemoveFrom(rows, id, archive, view).kept)
  {
    hide RemoveFrom;
    RemovalKeepsOthers(rows, id, archive, view);
  }

  lemma ThinnedMoved(before: Rows, view: RowView, after: Rows)
    requires Thinned(before, after)
    ensures Moved(before, [], view, after)
  {
  }

  // ----- both lists -----

  /** The same lists are there, over the same catalog, and nothing else on screen changed. */
  predicate Kin(s: State, t: State) {
    && t.ready == s.ready && t.account == s.account && t.selected == s.selected
    && (forall view :: Present(t, view) == Present(s, view))
    && (s.mailbox.Some? && t.mailbox.Some? ==> t.mailbox.value.catalog == s.mailbox.value.catalog)
  }

  ghost predicate MovedBoth(s: State, back: seq<Removed>, t: State) {
    Kin(s, t) && forall view | Present(s, view) :: Moved(ListOf(s, view), back, view, ListOf(t, view))
  }

  lemma SameListsMoved(s: State, s': State, back: seq<Removed>, t: State, t': State)
    requires MovedBoth(s, back, t)
    requires s'.mailbox == s.mailbox && s'.results == s.results && t'.mailbox == t.mailbox && t'.results == t.results
    requires Kin(s', t')
    ensures MovedBoth(s', back, t')
  {
    hide Moved;
    forall view | Present(s', view) ensures Moved(ListOf(s', view), back, view, ListOf(t', view)) {
      assert Present(s, view) && ListOf(s', view) == ListOf(s, view) && ListOf(t', view) == ListOf(t, view);
    }
  }

  lemma NothingMoved(s: State, t: State)
    requires Kin(s, t) && t.mailbox == s.mailbox && t.results == s.results
    ensures MovedBoth(s, [], t)
  {
    forall view | Present(s, view) ensures Moved(ListOf(s, view), [], view, ListOf(t, view)) {
      ThinnedMoved(ListOf(s, view), view, ListOf(t, view));
    }
  }

  lemma MappedMoved(s: State, f: MessageSummary -> MessageSummary)
    requires forall row: MessageSummary :: f(row).id == row.id && f(row).folderId == row.folderId
    ensures MovedBoth(s, [], Mapped(s, f))
  {
    hide Moved, MapRows;
    forall view | Present(s, view) ensures Moved(ListOf(s, view), [], view, ListOf(Mapped(s, f), view)) {
      ThinnedByMap(ListOf(s, view), f);
      ThinnedMoved(ListOf(s, view), view, ListOf(Mapped(s, f), view));
    }
  }

  lemma RetainedMoved(s: State, keep: MessageSummary -> bool)
    ensures MovedBoth(s, [], Retained(s, keep))
  {
    hide Moved, Filter;
    forall view | Present(s, view) ensures Moved(ListOf(s, view), [], view, ListOf(Retained(s, keep), view)) {
      ThinnedByFilter(ListOf(s, view), keep);
      ThinnedMoved(ListOf(s, view), view, ListOf(Retained(s, keep), view));
    }
  }

  lemma WithoutMoved(s: State, id: MessageId, archive: bool)
    ensures MovedBoth(s, [], WithoutRows(s, id, archive))
  {
    hide Moved, RemoveFrom;
    var t := WithoutRows(s, id, archive);
    forall view | Present(s, view) ensures Moved(ListOf(s, view), [], view, ListOf(t, view)) {
      ThinnedByRemoval(ListOf(s, view), id, archive, view);
      ThinnedMoved(ListOf(s, view), view, ListOf(t, view));
    }
  }

  lemma {:induction false} WithRowsKin(s: State, back: seq<Removed>)
    ensures Kin(s, WithRows(s, back))
  {
    hide RestoreOne;
    if back != [] { WithRowsKin(s, back[..|back| - 1]); }
  }

  lemma WithRowList(s: State, r: Removed, view: RowView)
    requires Present(s, view)
    ensures ListOf(WithRow(s, r), view) == if r.view == view then RestoreOne(ListOf(s, view), r) else ListOf(s, view)
  {
    hide RestoreOne;
  }

  lemma {:induction false} WithRowsMovedIn(s: State, back: seq<Removed>, view: RowView)
    requires Present(s, view)
    ensures Moved(ListOf(s, view), back, view, ListOf(WithRows(s, back), view))
    ensures forall row <- ListOf(s, view) :: Holds(ListOf(WithRows(s, back), view), row.id)
  {
    hide Moved, RestoreOne, WithRow;
    if back == [] {
      ThinnedMoved(ListOf(s, view), view, ListOf(s, view));
    } else {
      var front, last := back[..|back| - 1], back[|back| - 1];
      assert back == front + [last];
      WithRowsMovedIn(s, front, view);
      WithRowsKin(s, front);
      WithRowList(WithRows(s, front), last, view);
      if last.view == view {
        MovedOne(ListOf(s, view), front, view, ListOf(WithRows(s, front), view), last);
      } else {
        MovedElsewhere(ListOf(s, view), front, view, ListOf(WithRows(s, front), view), last);
      }
    }
  }

  lemma WithRowsMoved(s: State, back: seq<Removed>)
    ensures MovedBoth(s, back, WithRows(s, back))
  {
    hide Moved, WithRows;
    WithRowsKin(s, back);
    forall view | Present(s, view) ensures Moved(ListOf(s, view), back, view, ListOf(WithRows(s, back), view)) {
      WithRowsMovedIn(s, back, view);
    }
  }

  // ----- rows put back as Gmail reports them -----

  ghost predicate AsReported(back: seq<Removed>, state: ReconciledState) {
    forall r <- back :: BelongsInProjection(r.message) && ReconcileRow(state, r.message) == r.message
  }

  lemma {:induction false} ReportedRows(rows: seq<Removed>, state: ReconciledState)
    ensures AsReported(ReconciledRemovals(rows, state), state)
    ensures forall r <- ReconciledRemovals(rows, state) ::
              exists x <- rows ::
                  x.view == r.view && x.message.id == r.message.id && x.message.folderId == r.message.folderId
  {
    hide BelongsInProjection;
    if rows != [] {
      var front, last := rows[..|rows| - 1], rows[|rows| - 1];
      ReportedRows(front, state);
      forall r <- ReconciledRemovals(rows, state)
        ensures exists x <- rows :: x.view == r.view && x.message.id == r.message.id
                                    && x.message.folderId == r.message.folderId
      {
        if r in ReconciledRemovals(front, state) {
          var x :| x in front && x.view == r.view && x.message.id == r.message.id
                   && x.message.folderId == r.message.folderId;
          assert x in rows;
        } else {
          assert last in rows;
        }
      }
    }
  }

  lemma ReportedStays(before: Rows, back: seq<Removed>, view: RowView, row: MessageSummary, id: MessageId,
                      state: ReconciledState)
    requires AsReported(back, state) && CameBack(before, back, view, row)
    ensures Reconciling(id, state)(row) == row && Belonging()(row)
  {
    hide BelongsInProjection;
  }

  lemma ReportedRow(before: Rows, back: seq<Removed>, view: RowView, row: MessageSummary, id: MessageId,
                    state: ReconciledState)
    requires AsReported(back, state) && (Stood(before, row) || CameBack(before, back, view, row))
    ensures var now := Reconciling(id, state)(row);
            Stood(before, now) || CameBack(before, back, view, now)
  {
    hide BelongsInProjection;
    if CameBack(before, back, view, row) {
      ReportedStays(before, back, view, row, id, state);
    } else {
      var x :| x in before && x.id == row.id && x.folderId == row.folderId;
      assert Stood(before, Reconciling(id, state)(row));
    }
  }

  lemma MappedMember(rows: Rows, f: MessageSummary -> MessageSummary)
    ensures forall row <- rows :: f(row) in MapRows(rows, f)
    ensures forall y <- MapRows(rows, f) :: exists row <- rows :: y == f(row)
  {
    var mapped := MapRows(rows, f);
    forall row <- rows ensures f(row) in mapped {
      var i :| 0 <= i < |rows| && rows[i] == row;
      assert mapped[i] == f(row);
    }
    forall y <- mapped ensures exists row <- rows :: y == f(row) {
      var i :| 0 <= i < |mapped| && mapped[i] == y;
      assert rows[i] in rows;
    }
  }

  /** Updating and filtering the rows by the report keeps every row just put back. */
  lemma ReportedMoved(before: Rows, back: seq<Removed>, view: RowView, mid: Rows, id: MessageId,
                      state: ReconciledState)
    requires Moved(before, back, view, mid) && AsReported(back, state)
    ensures Moved(before, back, view, Filter(MapRows(mid, Reconciling(id, state)), Belonging()))
  {
    hide Filter, MapRows, AsReported, CameBack, Stood, Reconciling, Belonging;
    var f := Reconciling(id, state);
    var mapped := MapRows(mid, f);
    var after := Filter(mapped, Belonging());
    FilterMembers(mapped, Belonging());
    MappedMember(mid, f);
    forall row <- after ensures Stood(before, row) || CameBack(before, back, view, row) {
      var was :| was in mid && row == f(was);
      ReportedRow(before, back, view, was, id, state);
    }
    forall r <- back | r.view == view && !Holds(before, r.message.id)
      ensures exists row <- after :: row.id == r.message.id && CameBack(before, back, view, row)
    {
      var row :| row in mid && row.id == r.message.id && CameBack(before, back, view, row);
      ReportedStays(before, back, view, row, id, state);
      assert f(row) in mapped;
      assert row in after;
    }
  }

  /** The rows an answer of reconciliation puts back. */
  function Reported(previous: PendingValue, outcome: Outcome): seq<Removed> {
    if outcome.Reconciled? && outcome.state.Some? then ReconciledRemovals(RestoredRows(previous), outcome.state.value)
    else []
  }

  lemma WithReconciledMoved(s: State, id: MessageId, previous: PendingValue, state: Option<ReconciledState>)
    ensures MovedBoth(s, Reported(previous, Outcome.Reconciled(state)), WithReconciled(s, id, previous, state))
  {
    hide Moved, Filter, MapRows, WithRows, ReconciledRemovals, BelongsInProjection;
    match state
    case None => RetainedMoved(s, NotId(id));
    case Some(known) =>
      var back := Reported(previous, Outcome.Reconciled(state));
      var mid := WithRows(s, back);
      NoRowsBack(s, known);
      WithRowsMoved(s, back);
      ReportedRows(RestoredRows(previous), known);
      var t := WithReconciled(s, id, previous, state);
      assert t == Retained(Mapped(mid, Reconciling(id, known)), Belonging());
      forall view | Present(s, view) ensures Moved(ListOf(s, view), back, view, ListOf(t, view)) {
        ReportedMoved(ListOf(s, view), back, view, ListOf(mid, view), id, known);
      }
  }

  lemma NoRowsBack(s: State, state: ReconciledState)
    ensures WithRows(s, []) == s && ReconciledRemovals([], state) == []
  {
  }

  // ----- one event of the reducer -----

  predicate SendsInverse(s: State, undo: Undo) {
    s.account.Some? && Inverse(undo).Some?
  }

  /** The rows a change gives back when its answer is no confirmation, if its folder is still open. */
  function SettledRows(s: State, change: Pending, outcome: Outcome): seq<Removed> {
    if s.selected != change.origin then []
    else if outcome == Failed(false) then RestoredRows(change.previous)
    else Reported(change.previous, outcome)
  }

  /** The rows an event puts back on screen: Undo and a confirmation it waited for put them into whatever
      is open, any other answer only where the change was made. */
  ghost function PutsBack(s: State, e: Event): seq<Removed> {
    match e
    case Undoing =>
      if s.undo.None? || s.undo.value.phase.UndoPending? then []
      else if s.undo.value.phase.Available? && !SendsInverse(s, s.undo.value) then []
      else RestoredRows(s.undo.value.previous)
    case Answer(request, generation, id, outcome) =>
      if generation != s.generation then []
      else if AwaitsInverse(s.undo, request, id) then Reported(s.undo.value.previous, outcome)
      else
        var key := KeyOf(s.pending, request, id);
        if key.None? then []
        else if !AwaitsForward(s.undo, request, id) || !outcome.Confirmed? then
          SettledRows(s, s.pending[key.value], outcome)
        else if s.undo.value.phase.requested && SendsInverse(s, s.undo.value) then RestoredRows(s.undo.value.previous)
        else []
    case _ => []
  }

  lemma AppliedInPlace(id: MessageId, mutation: Mutation)
    ensures forall row: MessageSummary ::
              Applying(id, mutation)(row).id == row.id && Applying(id, mutation)(row).folderId == row.folderId
  {
  }

  lemma ChangeMoved(s: State, selection: Option<MessageId>, action: Action)
    ensures MovedBoth(s, [], Mutate(s, selection, action).state)
  {
    hide MovedBoth, Moved, WithoutRows, Mapped, Request, PreviousOf, Applying;
    var request := Request(s, selection, action);
    if request.None? {
      NothingMoved(s, s);
    } else {
      RequestNeeds(s, selection, action);
      var (message, mutation) := request.value;
      if Moves(mutation) {
        WithoutMoved(s, message.id, mutation.Archive?);
      } else {
        AppliedInPlace(message.id, mutation);
        MappedMoved(s, Applying(message.id, mutation));
      }
      ShownFrame(s, s, message, mutation);
      MovedFrame(s, [], Shown(s, message.id, mutation), Mutate(s, selection, action).state);
    }
  }

  lemma RequestNeeds(s: State, selection: Option<MessageId>, action: Action)
    ensures Request(s, selection, action).Some? ==> s.mailbox.Some? && s.account.Some?
  {
  }

  /** Recording and numbering leave the screen as it is. */
  lemma MovedFrame(s: State, back: seq<Removed>, t: State, t': State)
    requires MovedBoth(s, back, t)
    requires t' == t.(pending := t'.pending, undo := t'.undo, next := t'.next, generation := t'.generation)
    ensures MovedBoth(s, back, t')
  {
    hide Moved;
    SameListsMoved(s, s, back, t, t');
  }

  lemma MovedFrom(s: State, s': State, back: seq<Removed>, t: State)
    requires MovedBoth(s, back, t)
    requires s' == s.(pending := s'.pending, undo := s'.undo, next := s'.next, generation := s'.generation)
    ensures MovedBoth(s', back, t)
  {
    hide Moved;
    SameListsMoved(s, s', back, t, t);
  }

  lemma DispatchMoved(s: State, undo: Undo)
    ensures MovedBoth(s, if SendsInverse(s, undo) then RestoredRows(undo.previous) else [], Dispatch(s, undo).state)
  {
    hide MovedBoth, Moved, WithRows, Inverse;
    var taken := s.(undo := None);
    if SendsInverse(s, undo) {
      WithRowsMoved(taken, RestoredRows(undo.previous));
      MovedFrom(taken, s, RestoredRows(undo.previous), WithRows(taken, RestoredRows(undo.previous)));
      MovedFrame(s, RestoredRows(undo.previous), WithRows(taken, RestoredRows(undo.previous)), Dispatch(s, undo).state);
    } else {
      assert Kin(s, taken);
      NothingMoved(s, taken);
    }
  }

  lemma PutBackMoved(s: State, id: MessageId, mutation: Mutation, previous: PendingValue)
    ensures MovedBoth(s, RestoredRows(previous), PutBack(s, id, mutation, previous))
  {
    hide MovedBoth, Moved, WithRows, Mapped, WithLabel, Filter;
    match previous
    case WasFlag(flag) => MappedMoved(s, FlagBack(id, mutation, flag));
    case WasLabeled(applied) =>
      if mutation.SetLabel? { MappedMoved(s, LabelBack(id, mutation.name, applied)); } else { NothingMoved(s, s); }
    case TookRows(rows) => WithRowsMoved(s, rows);
  }

  lemma SettledMoved(s: State, change: Pending, id: MessageId, outcome: Outcome, restored: bool)
    ensures MovedBoth(s, SettledRows(s, change, outcome), Settled(s, change, id, outcome, restored))
  {
    hide MovedBoth, Moved, WithRows, WithReconciled, WithoutRows, PutBack, RestoredRows, Kin;
    if s.selected != change.origin {
      SameKin(s);
      NothingMoved(s, s);
    } else {
      match outcome
      case Confirmed =>
        SameKin(s);
        NothingMoved(s, s);
      case Failed(uncertain) =>
        if !uncertain {
          PutBackMoved(s, id, change.mutation, change.previous);
        } else if restored {
          WithoutMoved(s, id, change.mutation.Archive?);
        } else {
          SameKin(s);
          NothingMoved(s, s);
        }
      case Reconciled(state) => WithReconciledMoved(s, id, change.previous, state);
    }
  }

  lemma SameKin(s: State)
    ensures Kin(s, s)
  {
  }

  lemma FinishUndoMoved(s: State, undo: Undo, outcome: Outcome)
    ensures MovedBoth(s, Reported(undo.previous, outcome), FinishUndo(s, undo, outcome))
  {
    hide MovedBoth, Moved, WithRows, WithReconciled, WithoutRows, RestoredRows, Kin;
    var dropped := s.(undo := None);
    match outcome {
      case Confirmed =>
        SameKin(dropped);
        NothingMoved(dropped, dropped);
      case Reconciled(state) => WithReconciledMoved(dropped, undo.id, undo.previous, state);
      case Failed(_) => WithoutMoved(dropped, undo.id, undo.forward.Archive?);
    }
    MovedFrom(dropped, s, Reported(undo.previous, outcome), FinishUndo(s, undo, outcome));
  }

  lemma AnswerMoved(s: State, request: nat, generation: nat, id: MessageId, outcome: Outcome)
    ensures MovedBoth(s, PutsBack(s, Answer(request, generation, id, outcome)),
                      Finish(s, request, generation, id, outcome).state)
  {
    hide MovedBoth, Moved, Dispatch, Settled, FinishUndo, KeyOf, Inverse, RestoredRows, Reported, Kin;
    SameKin(s);
    NothingMoved(s, s);
    if generation == s.generation {
      if AwaitsInverse(s.undo, request, id) {
        FinishUndoMoved(s, s.undo.value, outcome);
      } else {
        var key := KeyOf(s.pending, request, id);
        if key.Some? {
          var change := s.pending[key.value];
          var rest := s.(pending := s.pending - {key.value});
          if AwaitsForward(s.undo, request, id) {
            var undo := s.undo.value;
            if outcome.Confirmed? {
              ConfirmedMoved(s, rest, undo);
            } else {
              var dropped := rest.(undo := None);
              SettledMoved(dropped, change, id, outcome, undo.phase.requested);
              MovedFrom(dropped, s, SettledRows(s, change, outcome),
                        Settled(dropped, change, id, outcome, undo.phase.requested));
            }
          } else {
            SettledMoved(rest, change, id, outcome, false);
            MovedFrom(rest, s, SettledRows(s, change, outcome), Settled(rest, change, id, outcome, false));
          }
        }
      }
    }
  }

  lemma ConfirmedMoved(s: State, rest: State, undo: Undo)
    requires rest == s.(pending := rest.pending) && undo.phase.ForwardPending?
    ensures MovedBoth(s, if undo.phase.requested && SendsInverse(s, undo) then RestoredRows(undo.previous) else [],
                      if undo.phase.requested then Dispatch(rest, undo.(phase := Available)).state
                      else rest.(undo := Some(undo.(phase := Available))))
  {
    hide MovedBoth, Moved, Dispatch, Kin, RestoredRows;
    var ready := undo.(phase := Available);
    if undo.phase.requested {
      assert SendsInverse(rest, ready) == SendsInverse(s, undo);
      DispatchMoved(rest, ready);
      MovedFrom(rest, s, if SendsInverse(rest, ready) then RestoredRows(ready.previous) else [],
                Dispatch(rest, ready).state);
      assert RestoredRows(ready.previous) == RestoredRows(undo.previous);
    } else {
      SameKin(s);
      NothingMoved(s, s);
      MovedFrame(s, [], s, rest.(undo := Some(ready)));
    }
  }

  lemma UndoingMoved(s: State)
    ensures MovedBoth(s, PutsBack(s, Undoing), PressUndo(s).state)
  {
    hide MovedBoth, Moved, Dispatch, Kin, RestoredRows, WithRows, Inverse;
    SameKin(s);
    NothingMoved(s, s);
    if s.undo.Some? {
      var undo := s.undo.value;
      match undo.phase
      case ForwardPending(request, _) =>
        WithRowsMoved(s, RestoredRows(undo.previous));
        MovedFrame(s, RestoredRows(undo.previous), WithRows(s, RestoredRows(undo.previous)), PressUndo(s).state);
      case Available => DispatchMoved(s, undo);
      case UndoPending(_) =>
    }
  }

  /** Through every event of the reducer each row of either list stood there before or is one the event
      puts back, and of each message put back and not shown before there is one. */
  lemma TurnMoved(s: State, e: Event)
    requires !e.Show?
    ensures MovedBoth(s, PutsBack(s, e), Respond(s, e).state)
  {
    hide MovedBoth, Moved, Mutate, Finish, PressUndo, Kin;
    match e
    case Change(selection, action) => ChangeMoved(s, selection, action);
    case Answer(request, generation, id, outcome) => AnswerMoved(s, request, generation, id, outcome);
    case Undoing => UndoingMoved(s);
    case _ =>
      SameKin(s);
      NothingMoved(s, s);
      MovedFrame(s, [], s, Respond(s, e).state);
  }
}
