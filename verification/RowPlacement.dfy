/** The request lanes and the mutation reducer as one machine (src/state.rs): whose rows the open folder
    shows, and whose the search results, over whole runs of both. */
module RowPlacement {
  import opened Results
  import opened Sorting
  import opened MessageIds
  import opened Mail
  import opened FolderStore
  import opened RowRemoval
  import opened MutationReducer
  import opened MutationRollback
  import opened AnyOrderRefusal
  import opened RowMovement
  import RequestLanes
  import UndoMachine

  // ----- rows that fit where they stand -----

  ghost predicate AllFit(rows: Rows, fits: (MessageId, FolderId) -> bool) {
    forall row <- rows :: fits(row.id, row.folderId)
  }

  /** A row put back does not fit, and its message is not shown. */
  ghost predicate Misfit(rows: Rows, back: seq<Removed>, view: RowView, fits: (MessageId, FolderId) -> bool) {
    exists r <- back ::
      r.view == view && !Holds(rows, r.message.id) && !fits(r.message.id, r.message.folderId)
  }

  /** Rows of one message fit together or not at all. */
  ghost predicate Alike(back: seq<Removed>, view: RowView, fits: (MessageId, FolderId) -> bool) {
    forall a, b | a in back && b in back && a.view == view && b.view == view && a.message.id == b.message.id ::
      fits(a.message.id, a.message.folderId) == fits(b.message.id, b.message.folderId)
  }

  lemma MisfitShows(before: Rows, back: seq<Removed>, view: RowView, after: Rows, r: Removed, row: MessageSummary,
                    fits: (MessageId, FolderId) -> bool)
    requires r in back && r.view == view && !fits(r.message.id, r.message.folderId)
    requires row in after && row.id == r.message.id && CameBack(before, back, view, row)
    requires Alike(back, view, fits)
    ensures !AllFit(after, fits)
  {
    hide Holds;
    var put :| put in back && put.view == view && put.message == row;
    assert !fits(put.message.id, put.message.folderId);
  }

  lemma RowFits(before: Rows, back: seq<Removed>, view: RowView, row: MessageSummary,
                fits: (MessageId, FolderId) -> bool)
    requires Stood(before, row) || CameBack(before, back, view, row)
    requires AllFit(before, fits) && !Misfit(before, back, view, fits)
    ensures fits(row.id, row.folderId)
  {
    hide Holds;
  }

  /** A list whose rows fit keeps only fitting rows exactly when no misfit is put back. */
  lemma FitExactly(before: Rows, back: seq<Removed>, view: RowView, after: Rows,
                   fits: (MessageId, FolderId) -> bool)
    requires Moved(before, back, view, after) && AllFit(before, fits) && Alike(back, view, fits)
    ensures AllFit(after, fits) <==> !Misfit(before, back, view, fits)
  {
    hide Holds, Stood, CameBack, Alike;
    if Misfit(before, back, view, fits) {
      var r :| r in back && r.view == view && !Holds(before, r.message.id)
               && !fits(r.message.id, r.message.folderId);
      var row :| row in after && row.id == r.message.id && CameBack(before, back, view, row);
      MisfitShows(before, back, view, after, r, row, fits);
    } else {
      forall row <- after ensures fits(row.id, row.folderId) {
        RowFits(before, back, view, row, fits);
      }
    }
  }

  // ----- the machine -----

  /** `email` is the address commands are sent under. `answered` holds the ids the search answer on screen
      brought; it is kept for the statements below and no transition reads it. */
  datatype Screen = Screen(lane: RequestLanes.State, email: string, pending: map<Key, Pending>, undo: Option<Undo>,
                           next: nat, generation: nat, answered: set<MessageId>)

  /** What the mutation reducer works on. */
  function View(w: Screen): State {
    var lane := w.lane;
    State(lane.ready, if lane.account then Some(w.email) else None,
          if lane.mailbox.Some? then Some(Mailbox(lane.mailbox.value.messages, lane.mailbox.value.catalog)) else None,
          if lane.search.Found? then Some(lane.search.messages) else None,
          lane.selected, w.pending, w.undo, w.next, w.generation)
  }

  function Back(w: Screen, s: State): Screen {
    var lane := w.lane;
    w.(lane := lane.(mailbox := if lane.mailbox.Some? && s.mailbox.Some?
                                then Some(lane.mailbox.value.(messages := s.mailbox.value.messages)) else lane.mailbox,
                     search := if lane.search.Found? && s.results.Some?
                               then lane.search.(messages := s.results.value) else lane.search),
       pending := s.pending, undo := s.undo, next := s.next, generation := s.generation)
  }

  /** An event of the lanes, with the address of the account it brings, if any; an event of the reducer; a
      background snapshot; a new limit for the list; or the worker's end. */
  datatype Event =
    | Lane(step: RequestLanes.Event, email: string)
    | Turned(turn: UndoMachine.Event)
    | Background(snapshot: Snapshot, readerClosed: bool)
    | LimitSet(limit: nat)
    | WorkerLost

  /** What these events do to the lists is what the reducer's own events, the background and the limit do here. */
  predicate StandsForOthers(step: RequestLanes.Event) {
    step.RowsChanged? || step.ResultsChanged?
  }

  predicate ForgetsChanges(step: RequestLanes.Event) {
    step.NewIdentity? || step.Leave? || step.Disconnect?
  }

  predicate BringsAccount(step: RequestLanes.Event) {
    step.NewIdentity? || step.CacheLoaded? || step.SyncDone?
  }

  /** The answer the running search waits for. */
  predicate BringsFindings(w: Screen, step: RequestLanes.Event) {
    step.SearchAnswer? && RequestLanes.AwaitsSearch(w.lane, step.found, step.foundGeneration)
  }

  function FoundIds(rows: Rows): set<MessageId> {
    set row <- rows :: row.id
  }

  function LaneStep(w: Screen, step: RequestLanes.Event, email: string): Screen {
    w.(lane := RequestLanes.Step(w.lane, step),
       email := if BringsAccount(step) then email else w.email,
       pending := if ForgetsChanges(step) then map[] else w.pending,
       undo := if ForgetsChanges(step) then None else w.undo,
       generation := if step.Leave? then w.generation + 1 else w.generation,
       answered := if BringsFindings(w, step) then FoundIds(step.messages) else w.answered)
  }

  /** A background snapshot is shown only while the Inbox list is the whole surface. */
  predicate Publishes(w: Screen, readerClosed: bool) {
    w.lane.selected == Inbox && w.lane.search.Idle? && readerClosed
  }

  function Limited(lane: RequestLanes.State, limit: nat): RequestLanes.State {
    if !ValidLimit(limit) || lane.cacheLimit == limit then lane
    else
      lane.(cacheLimit := limit,
            mailbox := if lane.mailbox.None? then None
                       else Some(lane.mailbox.value.(messages := Take(lane.mailbox.value.messages, limit),
                                                     requestedLimit := limit)))
  }

  ghost function StepScreen(w: Screen, e: Event): Screen {
    match e
    case Lane(step, email) => if StandsForOthers(step) then w else LaneStep(w, step, email)
    case Turned(turn) => if turn.Show? then w else Back(w, UndoMachine.Respond(View(w), turn).state)
    case Background(snapshot, readerClosed) =>
      if Publishes(w, readerClosed) then w.(lane := w.lane.(mailbox := Some(snapshot))) else w
    case LimitSet(limit) => w.(lane := Limited(w.lane, limit))
    case WorkerLost => w.(lane := RequestLanes.Invalidated(w.lane).0.(ready := false), pending := map[], undo := None)
  }

  ghost function RunScreen(w: Screen, events: seq<Event>): Screen {
    if events == [] then w else StepScreen(RunScreen(w, events[..|events| - 1]), events[|events| - 1])
  }

  /** The machine's own state after a reducer event is the reducer's. */
  lemma TurnIsRespond(w: Screen, turn: UndoMachine.Event)
    requires !turn.Show?
    ensures View(StepScreen(w, Turned(turn))) == UndoMachine.Respond(View(w), turn).state
  {
    hide UndoMachine.Respond;
    TurnKin(View(w), turn);
    var t := UndoMachine.Respond(View(w), turn).state;
    assert Present(t, FolderRows) == Present(View(w), FolderRows);
    assert Present(t, SearchRows) == Present(View(w), SearchRows);
  }

  lemma TurnKin(s: State, turn: UndoMachine.Event)
    requires !turn.Show?
    ensures Kin(s, UndoMachine.Respond(s, turn).state)
  {
    hide UndoMachine.Respond, Moved, Kin;
    TurnMoved(s, turn);
  }

  // ----- where the taken rows belong -----

  /** The list shows rows of the folder that is open. */
  predicate Matching(s: State) {
    s.mailbox.Some? ==> RowsOf(s.selected, s.mailbox.value.messages)
  }

  predicate FromFolder(rows: seq<Removed>, folder: FolderId) {
    forall r <- rows :: r.view.FolderRows? ==> r.message.folderId == folder
  }

  predicate OneFolder(rows: seq<Removed>) {
    forall a, b | a in rows && b in rows && a.view.FolderRows? && b.view.FolderRows? ::
      a.message.folderId == b.message.folderId
  }

  /** Rows taken from the list belong to the folder they were taken in. */
  ghost predicate Placed(s: State) {
    && (forall key | key in s.pending :: FromFolder(RestoredRows(s.pending[key].previous), s.pending[key].origin))
    && (s.undo.Some? ==> OneFolder(RestoredRows(s.undo.value.previous)))
  }

  lemma TakenPlaced(s: State, id: MessageId, archive: bool)
    requires Matching(s)
    ensures FromFolder(TakenRows(s, id, archive), s.selected)
  {
    hide RemoveFrom;
    if s.mailbox.Some? { RemovalKeepsOthers(s.mailbox.value.messages, id, archive, FolderRows); }
    if s.results.Some? { RemovalKeepsOthers(s.results.value, id, archive, SearchRows); }
  }

  lemma PreviousPlaced(s: State, message: MessageSummary, mutation: Mutation)
    requires Matching(s)
    ensures FromFolder(RestoredRows(PreviousOf(s, message, mutation)), s.selected)
  {
    hide TakenRows, Matching;
    TakenPlaced(s, message.id, mutation.Archive?);
  }

  lemma ChangePlaced(s: State, selection: Option<MessageId>, action: Action)
    requires Matching(s) && Placed(s)
    ensures Placed(Mutate(s, selection, action).state)
  {
    hide Matching, FromFolder, Request, PreviousOf, Shown, RestoredRows;
    RequestNeeds(s, selection, action);
    var request := Request(s, selection, action);
    if request.Some? {
      var (message, mutation) := request.value;
      PreviousPlaced(s, message, mutation);
      FolderIsOne(RestoredRows(PreviousOf(s, message, mutation)), s.selected);
      ShownFrame(s, s, message, mutation);
    }
  }

  lemma FolderIsOne(rows: seq<Removed>, folder: FolderId)
    requires FromFolder(rows, folder)
    ensures OneFolder(rows)
  {
  }

  /** An answer, Undo or a forgetting leaves no change and no token that was not there. */
  predicate NoNewChange(s: State, t: State) {
    && (forall key | key in t.pending :: key in s.pending && t.pending[key] == s.pending[key])
    && (t.undo.Some? ==> s.undo.Some? && t.undo.value.previous == s.undo.value.previous)
  }

  lemma NoNewPlaced(s: State, t: State)
    requires Placed(s) && NoNewChange(s, t)
    ensures Placed(t)
  {
    hide FromFolder, OneFolder, RestoredRows;
  }

  lemma DispatchNoNew(s: State, undo: Undo)
    ensures var t := Dispatch(s, undo).state;
            t.pending == s.pending && (t.undo.Some? ==> t.undo.value.previous == undo.previous)
  {
    hide WithRows, Inverse, RestoredRows;
    WithRowsFrame(s.(undo := None), s.(undo := None), RestoredRows(undo.previous));
  }

  lemma ReconciledNoNew(s: State, id: MessageId, previous: PendingValue, state: Option<ReconciledState>)
    ensures var t := WithReconciled(s, id, previous, state); t.pending == s.pending && t.undo == s.undo
  {
    hide WithRows, Filter, MapRows, ReconciledRemovals;
    if state.Some? && previous.TookRows? {
      WithRowsFrame(s, s, ReconciledRemovals(previous.rows, state.value));
    }
  }

  lemma SettledNoNew(s: State, change: Pending, id: MessageId, outcome: Outcome, restored: bool)
    ensures var t := Settled(s, change, id, outcome, restored); t.pending == s.pending && t.undo == s.undo
  {
    hide WithRows, Filter, MapRows, WithReconciled, RemoveFrom;
    if outcome.Reconciled? { ReconciledNoNew(s, id, change.previous, outcome.state); }
    if change.previous.TookRows? { WithRowsFrame(s, s, change.previous.rows); }
  }

  lemma AnswerNoNew(s: State, request: nat, generation: nat, id: MessageId, outcome: Outcome)
    ensures NoNewChange(s, Finish(s, request, generation, id, outcome).state)
  {
    hide Dispatch, Settled, KeyOf, WithReconciled, WithoutRows;
    if generation == s.generation {
      if AwaitsInverse(s.undo, request, id) {
        var dropped := s.(undo := None);
        if outcome.Reconciled? { ReconciledNoNew(dropped, s.undo.value.id, s.undo.value.previous, outcome.state); }
        WithoutFrame(dropped, s.undo.value.id, s.undo.value.forward.Archive?);
      } else {
        var key := KeyOf(s.pending, request, id);
        if key.Some? {
          var rest := s.(pending := s.pending - {key.value});
          if AwaitsForward(s.undo, request, id) {
            DispatchNoNew(rest, s.undo.value.(phase := Available));
            SettledNoNew(rest.(undo := None), s.pending[key.value], id, outcome, s.undo.value.phase.requested);
          } else {
            SettledNoNew(rest, s.pending[key.value], id, outcome, false);
          }
        }
      }
    }
  }

  lemma UndoingNoNew(s: State)
    ensures NoNewChange(s, PressUndo(s).state)
  {
    hide Dispatch, WithRows;
    if s.undo.Some? {
      DispatchNoNew(s, s.undo.value);
      WithRowsFrame(s, s, RestoredRows(s.undo.value.previous));
    }
  }

  lemma TurnPlaced(s: State, turn: UndoMachine.Event)
    requires !turn.Show? && Matching(s) && Placed(s)
    ensures Placed(UndoMachine.Respond(s, turn).state)
  {
    hide Matching, Placed, Mutate, Finish, PressUndo;
    var t := UndoMachine.Respond(s, turn).state;
    match turn
    case Change(selection, action) => ChangePlaced(s, selection, action);
    case Answer(request, generation, id, outcome) =>
      AnswerNoNew(s, request, generation, id, outcome);
      NoNewPlaced(s, t);
    case Undoing =>
      UndoingNoNew(s);
      NoNewPlaced(s, t);
    case _ => NoNewPlaced(s, t);
  }

  // ----- the open folder -----

  /** Snapshots hold rows of the folder they were made for. */
  predicate Honest(e: Event) {
    match e
    case Lane(FolderAnswer(_, _, of, snapshot, _), _) => RowsOf(of, snapshot.messages)
    case Lane(CacheLoaded(_, snapshot), _) => RowsOf(Inbox, snapshot.messages)
    case Lane(SyncDone(_, snapshot), _) => RowsOf(Inbox, snapshot.messages)
    case Background(snapshot, _) => RowsOf(Inbox, snapshot.messages)
    case _ => true
  }

  /** A row of another folder than the open one goes back into the list, which does not show its message. */
  predicate Strays(s: State, back: seq<Removed>) {
    s.mailbox.Some? && exists r <- back ::
      r.view.FolderRows? && r.message.folderId != s.selected && !Holds(s.mailbox.value.messages, r.message.id)
  }

  /** A sync of the same account finishes, with mail, over another folder than Inbox; or Undo, the
      confirmation it waited for, or Gmail's report on it brings rows of another folder. */
  ghost predicate Misplaces(w: Screen, e: Event) {
    match e
    case Lane(step, _) =>
      step.SyncDone? && !step.syncIsNew && w.lane.selected != Inbox && step.syncSnapshot.messages != []
    case Turned(turn) => !turn.Show? && Strays(View(w), PutsBack(View(w), turn))
    case _ => false
  }

  lemma ReportedOneFolder(previous: PendingValue, outcome: Outcome)
    requires OneFolder(RestoredRows(previous))
    ensures OneFolder(Reported(previous, outcome))
  {
    hide ReconciledRemovals, RestoredRows;
    if outcome.Reconciled? && outcome.state.Some? { ReportedRows(RestoredRows(previous), outcome.state.value); }
  }

  lemma ReportedFromFolder(previous: PendingValue, outcome: Outcome, folder: FolderId)
    requires FromFolder(RestoredRows(previous), folder)
    ensures FromFolder(Reported(previous, outcome), folder)
  {
    hide ReconciledRemovals, RestoredRows;
    if outcome.Reconciled? && outcome.state.Some? { ReportedRows(RestoredRows(previous), outcome.state.value); }
  }

  lemma SettledFromFolder(s: State, key: Key, outcome: Outcome)
    requires Placed(s) && key in s.pending
    ensures FromFolder(SettledRows(s, s.pending[key], outcome), s.selected)
  {
    hide FromFolder, OneFolder, RestoredRows, Reported;
    ReportedFromFolder(s.pending[key].previous, outcome, s.pending[key].origin);
    assert FromFolder([], s.selected) by { NoRows(s.selected); }
  }

  lemma NoRows(folder: FolderId)
    ensures FromFolder([], folder) && OneFolder([])
  {
  }

  /** The event puts back what Undo is about: it is Undo itself or an answer its token waits for. */
  predicate ConcernsUndo(s: State, turn: UndoMachine.Event) {
    && s.undo.Some?
    && (turn.Undoing? || (turn.Answer? && (AwaitsInverse(s.undo, turn.request, turn.id)
                                           || (AwaitsForward(s.undo, turn.request, turn.id)
                                               && turn.outcome.Confirmed?))))
  }

  lemma BackPlaced(s: State, turn: UndoMachine.Event)
    requires Placed(s)
    ensures OneFolder(PutsBack(s, turn))
    ensures !ConcernsUndo(s, turn) ==> FromFolder(PutsBack(s, turn), s.selected)
  {
    hide FromFolder, OneFolder, RestoredRows, Reported, SettledRows, KeyOf, Inverse;
    NoRows(s.selected);
    if s.undo.Some? && turn.Answer? { ReportedOneFolder(s.undo.value.previous, turn.outcome); }
    if turn.Answer? {
      var key := KeyOf(s.pending, turn.request, turn.id);
      if key.Some? {
        SettledFromFolder(s, key.value, turn.outcome);
        FolderIsOne(SettledRows(s, s.pending[key.value], turn.outcome), s.selected);
      }
    }
  }

  /** A change refused or reconciled is put back only where it was made: no answer strays but those Undo
      waits for. */
  lemma OnlyUndoStrays(s: State, turn: UndoMachine.Event)
    requires Placed(s) && Strays(s, PutsBack(s, turn))
    ensures ConcernsUndo(s, turn)
  {
    hide Placed, PutsBack, ConcernsUndo, Holds;
    BackPlaced(s, turn);
  }

  lemma OneFolderAlike(back: seq<Removed>, selected: FolderId)
    requires OneFolder(back)
    ensures Alike(back, FolderRows, (id: MessageId, folder: FolderId) => folder == selected)
  {
  }

  lemma StraysMisfit(s: State, back: seq<Removed>)
    requires s.mailbox.Some?
    ensures Strays(s, back)
       <==> Misfit(s.mailbox.value.messages, back, FolderRows,
                   (id: MessageId, folder: FolderId) => folder == s.selected)
  {
    hide Holds;
  }

  lemma MatchingFits(s: State)
    requires s.mailbox.Some?
    ensures Matching(s) <==> AllFit(ListOf(s, FolderRows), (id: MessageId, folder: FolderId) => folder == s.selected)
  {
  }

  lemma TurnMatching(s: State, turn: UndoMachine.Event)
    requires !turn.Show? && Matching(s) && Placed(s)
    ensures Matching(UndoMachine.Respond(s, turn).state) <==> !Strays(s, PutsBack(s, turn))
  {
    hide UndoMachine.Respond, PutsBack, Placed, Matching, Strays, Moved, AllFit, Misfit, Alike, OneFolder, FromFolder;
    var t, back := UndoMachine.Respond(s, turn).state, PutsBack(s, turn);
    TurnMoved(s, turn);
    assert Present(t, FolderRows) == Present(s, FolderRows);
    if s.mailbox.Some? {
      var fits := (id: MessageId, folder: FolderId) => folder == s.selected;
      BackPlaced(s, turn);
      OneFolderAlike(back, s.selected);
      MatchingFits(s);
      MatchingFits(t);
      StraysMisfit(s, back);
      FitExactly(ListOf(s, FolderRows), back, FolderRows, ListOf(t, FolderRows), fits);
    } else {
      NoList(s, t, back);
    }
  }

  lemma NoList(s: State, t: State, back: seq<Removed>)
    requires s.mailbox.None? && t.mailbox.None?
    ensures Matching(t) && !Strays(s, back)
  {
  }

  lemma LaneMatching(w: Screen, step: RequestLanes.Event, email: string)
    requires Matching(View(w)) && Honest(Lane(step, email)) && !StandsForOthers(step)
    ensures Matching(View(LaneStep(w, step, email))) <==> !Misplaces(w, Lane(step, email))
  {
    hide RequestLanes.ValidQuery, RequestLanes.Lists, FoundIds;
    if Misplaces(w, Lane(step, email)) {
      var row := step.syncSnapshot.messages[0];
      assert row in step.syncSnapshot.messages && row.folderId == Inbox;
    }
  }

  lemma LanePlaced(w: Screen, step: RequestLanes.Event, email: string)
    requires Placed(View(w))
    ensures Placed(View(LaneStep(w, step, email)))
  {
    hide RequestLanes.Step, FoundIds, FromFolder, OneFolder;
  }

  lemma LimitedMatching(w: Screen, limit: nat)
    requires Matching(View(w))
    ensures Matching(View(w.(lane := Limited(w.lane, limit))))
  {
    if w.lane.mailbox.Some? { TakeMembers(w.lane.mailbox.value.messages, limit); }
  }

  /** The rows shown stay those of the open folder exactly through the events that misplace none. */
  lemma PlacementStep(w: Screen, e: Event)
    requires Matching(View(w)) && Placed(View(w)) && Honest(e)
    ensures Placed(View(StepScreen(w, e)))
    ensures Matching(View(StepScreen(w, e))) <==> !Misplaces(w, e)
  {
    hide UndoMachine.Respond, RequestLanes.Step, Placed, Matching, PutsBack, Strays, LaneStep, Limited, Back;
    match e
    case Lane(step, email) =>
      if !StandsForOthers(step) {
        LaneMatching(w, step, email);
        LanePlaced(w, step, email);
      }
    case Turned(turn) =>
      if !turn.Show? {
        TurnIsRespond(w, turn);
        TurnMatching(View(w), turn);
        TurnPlaced(View(w), turn);
      }
    case Background(snapshot, readerClosed) => OtherPlacement(w, e);
    case LimitSet(limit) =>
      LimitedMatching(w, limit);
      OtherPlacement(w, e);
    case WorkerLost => OtherPlacement(w, e);
  }

  lemma OtherPlacement(w: Screen, e: Event)
    requires Matching(View(w)) && Placed(View(w)) && Honest(e) && !e.Lane? && !e.Turned?
    ensures Placed(View(StepScreen(w, e)))
    ensures !e.LimitSet? ==> Matching(View(StepScreen(w, e)))
  {
    hide FromFolder, OneFolder, Take;
  }

  ghost predicate WellPlaced(w: Screen, events: seq<Event>) {
    forall i | 0 <= i < |events| :: Honest(events[i]) && !Misplaces(RunScreen(w, events[..i]), events[i])
  }

  /** In every run in which no sync finishes over another folder and Undo brings no rows of another folder, the
      rows shown are those of the folder that is open. */
  lemma {:induction false} RowsMatchFolder(w: Screen, events: seq<Event>)
    requires Matching(View(w)) && Placed(View(w)) && WellPlaced(w, events)
    ensures Matching(View(RunScreen(w, events))) && Placed(View(RunScreen(w, events)))
  {
    hide Matching, Placed, Honest, Misplaces, StepScreen;
    if events != [] {
      var front := events[..|events| - 1];
      forall i | 0 <= i < |front| ensures Honest(front[i]) && !Misplaces(RunScreen(w, front[..i]), front[i]) {
        assert front[..i] == events[..i];
      }
      RowsMatchFolder(w, front);
      PlacementStep(RunScreen(w, front), events[|events| - 1]);
    }
  }

  // ----- the inputs that misplace rows -----

  lemma RunTwo(w: Screen, a: Event, b: Event)
    ensures RunScreen(w, [a, b]) == StepScreen(StepScreen(w, a), b)
  {
    hide StepScreen;
    assert [a, b][..1] == [a] && [a][..0] == [];
    assert RunScreen(w, [a]) == StepScreen(w, a);
  }

  lemma RunThree(w: Screen, a: Event, b: Event, c: Event)
    ensures RunScreen(w, [a, b, c]) == StepScreen(StepScreen(StepScreen(w, a), b), c)
  {
    hide StepScreen;
    RunTwo(w, a, b);
    assert [a, b, c][..2] == [a, b];
  }

  lemma OpenedEmpty(w: Screen, folder: FolderId, email: string)
    requires RequestLanes.CanLoad(w.lane, folder) && folder != w.lane.selected
    ensures var s, t := View(w), View(StepScreen(w, Lane(RequestLanes.Select(folder), email)));
            && t.selected == folder && t.mailbox.Some? && t.mailbox.value.messages == []
            && t.pending == s.pending && t.undo == s.undo && t.next == s.next && t.generation == s.generation
            && t.account == s.account
  {
    hide RequestLanes.Lists;
  }

  lemma ArchivedRow(s: State, id: MessageId) returns (r: Removed)
    requires s.mailbox.Some? && RowsOf(Inbox, s.mailbox.value.messages) && Holds(s.mailbox.value.messages, id)
    ensures r in TakenRows(s, id, true) && r.view == FolderRows && r.message.id == id && r.message.folderId == Inbox
  {
    hide RemoveFrom;
    var row :| row in s.mailbox.value.messages && row.id == id;
    TakesEligible(s.mailbox.value.messages, id, true, FolderRows, row);
    r :| r in FolderRemoval(s, id, true).removed && r.message == row;
    RemovalKeepsOthers(s.mailbox.value.messages, id, true, FolderRows);
  }

  lemma CanStillLoad(w: Screen, folder: FolderId, turn: UndoMachine.Event)
    requires RequestLanes.CanLoad(w.lane, folder)
    ensures RequestLanes.CanLoad(StepScreen(w, Turned(turn)).lane, folder)
    ensures StepScreen(w, Turned(turn)).lane.selected == w.lane.selected
  {
    hide UndoMachine.Respond, RequestLanes.Lists;
  }

  /** Archiving a message of the Inbox list, opening another folder and pressing Undo ends with the Inbox row in
      that folder's list. */
  lemma UndoMisplacesArchived(w: Screen, selection: Option<MessageId>, folder: FolderId, email: string)
    requires Matching(View(w)) && Placed(View(w)) && w.lane.selected == Inbox
    requires folder != Inbox && RequestLanes.CanLoad(w.lane, folder)
    requires var sent := Mutate(View(w), selection, ArchiveMessage).sent;
             sent != [] && Holds(w.lane.mailbox.value.messages, sent[0].id)
    ensures var now := RunScreen(w, [Turned(UndoMachine.Change(selection, ArchiveMessage)),
                               Lane(RequestLanes.Select(folder), email), Turned(UndoMachine.Undoing)]);
            now.lane.selected == folder && !Matching(View(now))
  {
    hide Mutate, Matching, Placed, TakenRows, WithoutRows, RequestLanes.CanLoad, Holds, UndoMachine.Respond, StepScreen;
    var change, opening := UndoMachine.Change(selection, ArchiveMessage), Lane(RequestLanes.Select(folder), email);
    var s := View(w);
    var c := Mutate(s, selection, ArchiveMessage).sent[0];
    var w1 := StepScreen(w, Turned(change));
    var w2 := StepScreen(w1, opening);
    RunThree(w, Turned(change), opening, Turned(UndoMachine.Undoing));
    ArchiveSends(s, selection);
    MoveShape(s, selection, ArchiveMessage);
    TurnIsRespond(w, change);
    ChangeAnswers(s, selection, ArchiveMessage);
    CanStillLoad(w, folder, change);
    OpenedEmpty(w1, folder, email);
    PlacementStep(w, Turned(change));
    PlacementStep(w1, opening);
    PlacementStep(w2, Turned(UndoMachine.Undoing));
    CanStillSelect(w2, UndoMachine.Undoing);
    InboxRows(s);
    var r := ArchivedRow(s, c.id);
    assert r in PutsBack(View(w2), UndoMachine.Undoing);
    NothingHeld(View(w2), r);
  }

  lemma ArchiveSends(s: State, selection: Option<MessageId>)
    requires Mutate(s, selection, ArchiveMessage).sent != []
    ensures Mutate(s, selection, ArchiveMessage).sent[0].mutation == Archive
  {
    hide SelectedMessage, Shown, PreviousOf;
  }

  lemma ChangeAnswers(s: State, selection: Option<MessageId>, action: Action)
    ensures UndoMachine.Respond(s, UndoMachine.Change(selection, action)) == Mutate(s, selection, action)
  {
  }

  lemma CanStillSelect(w: Screen, turn: UndoMachine.Event)
    ensures StepScreen(w, Turned(turn)).lane.selected == w.lane.selected
  {
    hide UndoMachine.Respond;
  }

  lemma InboxRows(s: State)
    requires Matching(s) && s.mailbox.Some? && s.selected == Inbox
    ensures RowsOf(Inbox, s.mailbox.value.messages)
  {
  }

  lemma NothingHeld(s: State, r: Removed)
    requires s.mailbox.Some? && s.mailbox.value.messages == []
    ensures !Holds(s.mailbox.value.messages, r.message.id)
  {
  }

  lemma SyncedList(w: Screen, snapshot: Snapshot, email: string)
    requires RowsOf(Inbox, snapshot.messages)
    ensures var now := StepScreen(w, Lane(RequestLanes.SyncDone(false, snapshot), email));
            && now.lane.selected == w.lane.selected && now.lane.mailbox == Some(snapshot)
            && (Matching(View(now)) <==> w.lane.selected == Inbox || snapshot.messages == [])
  {
    if snapshot.messages != [] { assert snapshot.messages[0] in snapshot.messages; }
  }

  lemma StartKeepsFolder(w: Screen, email: string)
    ensures StepScreen(w, Lane(RequestLanes.StartSync, email)).lane.selected == w.lane.selected
  {
  }

  /** A refresh begun over another folder: the list matches at its end exactly if the stored Inbox was brought
      on the way, which opens Inbox, or there is no mail. */
  lemma RefreshOverFolder(w: Screen, folder: FolderId, cached: Option<Snapshot>, snapshot: Snapshot, email: string)
    requires RequestLanes.CanLoad(w.lane, folder) && folder != Inbox && RowsOf(Inbox, snapshot.messages)
    ensures var begun := RunScreen(w, [Lane(RequestLanes.Select(folder), email), Lane(RequestLanes.StartSync, email)]);
            var shown := if cached.Some?
                         then StepScreen(begun, Lane(RequestLanes.CacheLoaded(false, cached.value), email))
                         else begun;
            var now := StepScreen(shown, Lane(RequestLanes.SyncDone(false, snapshot), email));
            && now.lane.mailbox == Some(snapshot)
            && (Matching(View(now)) <==> cached.Some? || snapshot.messages == [])
  {
    hide Matching, RowsOf, StepScreen, RequestLanes.CanLoad;
    var opening := Lane(RequestLanes.Select(folder), email);
    RunTwo(w, opening, Lane(RequestLanes.StartSync, email));
    OpensFolder(w, folder, email);
    StartKeepsFolder(StepScreen(w, opening), email);
    var begun := StepScreen(StepScreen(w, opening), Lane(RequestLanes.StartSync, email));
    if cached.Some? {
      CacheOpensInbox(begun, cached.value, email);
      SyncedList(StepScreen(begun, Lane(RequestLanes.CacheLoaded(false, cached.value), email)), snapshot, email);
    } else {
      SyncedList(begun, snapshot, email);
    }
  }

  lemma OpensFolder(w: Screen, folder: FolderId, email: string)
    requires RequestLanes.CanLoad(w.lane, folder)
    ensures StepScreen(w, Lane(RequestLanes.Select(folder), email)).lane.selected == folder
  {
    hide RequestLanes.Lists;
  }

  lemma CacheOpensInbox(w: Screen, cached: Snapshot, email: string)
    ensures var now := StepScreen(w, Lane(RequestLanes.CacheLoaded(false, cached), email));
            now.lane.selected == Inbox && now.lane.account && now.lane.mailbox == Some(cached)
  {
  }

  /** A folder opened after the stored Inbox was brought: the refresh ends with Inbox rows under it, if any. */
  lemma FolderOpenedDuringRefresh(w: Screen, cached: Snapshot, folder: FolderId, snapshot: Snapshot, email: string)
    requires RequestLanes.Lists(cached.catalog, folder) && folder != Inbox && RowsOf(Inbox, snapshot.messages)
    ensures var begun := RunScreen(w, [Lane(RequestLanes.StartSync, email),
                                 Lane(RequestLanes.CacheLoaded(false, cached), email),
                                 Lane(RequestLanes.Select(folder), email)]);
            var now := StepScreen(begun, Lane(RequestLanes.SyncDone(false, snapshot), email));
            && now.lane.selected == folder && now.lane.mailbox == Some(snapshot)
            && (Matching(View(now)) <==> snapshot.messages == [])
  {
    hide RequestLanes.Lists, Matching, RowsOf, StepScreen;
    var starting := Lane(RequestLanes.StartSync, email);
    var shown := StepScreen(StepScreen(w, starting), Lane(RequestLanes.CacheLoaded(false, cached), email));
    RunThree(w, starting, Lane(RequestLanes.CacheLoaded(false, cached), email),
             Lane(RequestLanes.Select(folder), email));
    CacheOpensInbox(StepScreen(w, starting), cached, email);
    OpensFolder(shown, folder, email);
    SyncedList(StepScreen(shown, Lane(RequestLanes.Select(folder), email)), snapshot, email);
  }
}
