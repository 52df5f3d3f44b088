/** The search results on screen against the search that was answered, over whole runs (src/state.rs): rows
    taken from one search's results can go back into another's. */
module FindingsPlacement {
  import opened Results
  import opened MessageIds
  import opened Mail
  import opened FolderStore
  import opened RowRemoval
  import opened MutationReducer
  import opened MutationRollback
  import opened AnyOrderRefusal
  import opened RowMovement
  import opened RowPlacement
  import RequestLanes
  import UndoMachine

  /** The results on screen are of messages the search answer brought. */
  predicate FromAnswer(w: Screen) {
    w.lane.search.Found? ==> forall row <- w.lane.search.messages :: row.id in w.answered
  }

  /** A row taken from earlier results goes back into results whose search did not find its message. */
  ghost predicate Intrudes(w: Screen, e: Event) {
    && e.Turned? && !e.turn.Show? && w.lane.search.Found?
    && exists r <- PutsBack(View(w), e.turn) :: r.view.SearchRows? && r.message.id !in w.answered
  }

  lemma FindingsMisfit(s: State, back: seq<Removed>, answered: set<MessageId>)
    requires s.results.Some? && forall row <- s.results.value :: row.id in answered
    ensures (exists r <- back :: r.view.SearchRows? && r.message.id !in answered)
       <==> Misfit(s.results.value, back, SearchRows, (id: MessageId, folder: FolderId) => id in answered)
  {
    if r :| r in back && r.view.SearchRows? && r.message.id !in answered {
      assert !Holds(s.results.value, r.message.id);
    }
  }

  lemma FindingsAlike(back: seq<Removed>, answered: set<MessageId>)
    ensures Alike(back, SearchRows, (id: MessageId, folder: FolderId) => id in answered)
  {
  }

  lemma FindingsFit(rows: Rows, answered: set<MessageId>)
    ensures (forall row <- rows :: row.id in answered)
       <==> AllFit(rows, (id: MessageId, folder: FolderId) => id in answered)
  {
  }

  lemma TurnFindings(w: Screen, turn: UndoMachine.Event)
    requires FromAnswer(w) && !turn.Show?
    ensures FromAnswer(StepScreen(w, Turned(turn))) <==> !Intrudes(w, Turned(turn))
  {
    hide UndoMachine.Respond, PutsBack, Moved, AllFit, Misfit, Alike;
    var s, t, back := View(w), UndoMachine.Respond(View(w), turn).state, PutsBack(View(w), turn);
    TurnMoved(s, turn);
    assert Present(t, SearchRows) == Present(s, SearchRows);
    if s.results.Some? {
      var fits := (id: MessageId, folder: FolderId) => id in w.answered;
      FindingsMisfit(s, back, w.answered);
      FindingsAlike(back, w.answered);
      FindingsFit(s.results.value, w.answered);
      FindingsFit(t.results.value, w.answered);
      assert Moved(ListOf(s, SearchRows), back, SearchRows, ListOf(t, SearchRows));
      FitExactly(ListOf(s, SearchRows), back, SearchRows, ListOf(t, SearchRows), fits);
    }
  }

  lemma LaneFindings(w: Screen, step: RequestLanes.Event, email: string)
    requires FromAnswer(w) && !StandsForOthers(step)
    ensures FromAnswer(LaneStep(w, step, email))
  {
    hide RequestLanes.ValidQuery, RequestLanes.Lists;
  }

  /** The results stay those of the answered search exactly through the events by which no row intrudes. */
  lemma FindingsStep(w: Screen, e: Event)
    requires FromAnswer(w)
    ensures FromAnswer(StepScreen(w, e)) <==> !Intrudes(w, e)
  {
    hide UndoMachine.Respond, RequestLanes.Step, PutsBack, LaneStep, Back;
    match e
    case Lane(step, email) => if !StandsForOthers(step) { LaneFindings(w, step, email); }
    case Turned(turn) => if !turn.Show? { TurnFindings(w, turn); }
    case _ =>
  }

  ghost predicate NoIntrusion(w: Screen, events: seq<Event>) {
    forall i | 0 <= i < |events| :: !Intrudes(RunScreen(w, events[..i]), events[i])
  }

  lemma {:induction false} ResultsAreAnswered(w: Screen, events: seq<Event>)
    requires FromAnswer(w) && NoIntrusion(w, events)
    ensures FromAnswer(RunScreen(w, events))
  {
    hide FromAnswer, Intrudes, StepScreen;
    if events != [] {
      var front := events[..|events| - 1];
      forall i | 0 <= i < |front| ensures !Intrudes(RunScreen(w, front[..i]), front[i]) {
        assert front[..i] == events[..i];
      }
      ResultsAreAnswered(w, front);
      FindingsStep(RunScreen(w, front), events[|events| - 1]);
    }
  }

  // ----- one search at a time -----

  predicate FromFindings(rows: seq<Removed>, ids: set<MessageId>) {
    forall r <- rows :: r.view.SearchRows? ==> r.message.id in ids
  }

  /** Whatever pending changes and the Undo token took from results, they took from these. */
  ghost predicate Owned(w: Screen) {
    && FromAnswer(w)
    && (forall key | key in w.pending :: FromFindings(RestoredRows(w.pending[key].previous), w.answered))
    && (w.undo.Some? ==> FromFindings(RestoredRows(w.undo.value.previous), w.answered))
  }

  lemma ReportedFindings(previous: PendingValue, outcome: Outcome, ids: set<MessageId>)
    requires FromFindings(RestoredRows(previous), ids)
    ensures FromFindings(Reported(previous, outcome), ids)
  {
    hide ReconciledRemovals, RestoredRows;
    if outcome.Reconciled? && outcome.state.Some? { ReportedRows(RestoredRows(previous), outcome.state.value); }
  }

  lemma NoFindings(ids: set<MessageId>)
    ensures FromFindings([], ids)
  {
  }

  lemma BackOwned(w: Screen, turn: UndoMachine.Event)
    requires Owned(w)
    ensures FromFindings(PutsBack(View(w), turn), w.answered)
  {
    hide FromFindings, FromAnswer, RestoredRows, Reported, KeyOf, Inverse;
    NoFindings(w.answered);
    if w.undo.Some? && turn.Answer? { ReportedFindings(w.undo.value.previous, turn.outcome, w.answered); }
    if turn.Answer? {
      var key := KeyOf(w.pending, turn.request, turn.id);
      if key.Some? { ReportedFindings(w.pending[key.value].previous, turn.outcome, w.answered); }
    }
  }

  lemma TakenFindings(w: Screen, message: MessageSummary, mutation: Mutation)
    requires FromAnswer(w)
    ensures FromFindings(RestoredRows(PreviousOf(View(w), message, mutation)), w.answered)
  {
    hide RemoveFrom;
    var s, id, archive := View(w), message.id, mutation.Archive?;
    if s.mailbox.Some? { RemovalKeepsOthers(s.mailbox.value.messages, id, archive, FolderRows); }
    if s.results.Some? { RemovalKeepsOthers(s.results.value, id, archive, SearchRows); }
  }

  /** The rows changes and token hold are from the answered search. */
  ghost predicate TablesOwned(s: State, ids: set<MessageId>) {
    && (forall key | key in s.pending :: FromFindings(RestoredRows(s.pending[key].previous), ids))
    && (s.undo.Some? ==> FromFindings(RestoredRows(s.undo.value.previous), ids))
  }

  lemma NoNewOwned(s: State, t: State, ids: set<MessageId>)
    requires TablesOwned(s, ids) && NoNewChange(s, t)
    ensures TablesOwned(t, ids)
  {
    hide FromFindings, RestoredRows;
  }

  lemma ChangeOwned(w: Screen, selection: Option<MessageId>, action: Action)
    requires Owned(w)
    ensures TablesOwned(Mutate(View(w), selection, action).state, w.answered)
  {
    hide FromAnswer, FromFindings, Request, PreviousOf, Shown, RestoredRows;
    var s := View(w);
    RequestNeeds(s, selection, action);
    var request := Request(s, selection, action);
    if request.Some? {
      var (message, mutation) := request.value;
      TakenFindings(w, message, mutation);
      ShownFrame(s, s, message, mutation);
    }
  }

  lemma TurnOwned(w: Screen, turn: UndoMachine.Event)
    requires Owned(w) && !turn.Show?
    ensures TablesOwned(UndoMachine.Respond(View(w), turn).state, w.answered)
  {
    hide FromAnswer, FromFindings, RestoredRows, Mutate, Finish, PressUndo;
    var s, t := View(w), UndoMachine.Respond(View(w), turn).state;
    assert TablesOwned(s, w.answered);
    hide TablesOwned, Owned;
    match turn
    case Change(selection, action) => ChangeOwned(w, selection, action);
    case Answer(request, generation, id, outcome) =>
      AnswerNoNew(s, request, generation, id, outcome);
      NoNewOwned(s, t, w.answered);
    case Undoing =>
      UndoingNoNew(s);
      NoNewOwned(s, t, w.answered);
    case _ => NoNewOwned(s, t, w.answered);
  }

  /** The event brings the findings of another search. */
  predicate ShowsFindings(w: Screen, e: Event) {
    e.Lane? && BringsFindings(w, e.step)
  }

  lemma NoneIntrudes(w: Screen, turn: UndoMachine.Event)
    requires FromFindings(PutsBack(View(w), turn), w.answered)
    ensures !Intrudes(w, Turned(turn))
  {
    hide PutsBack;
  }

  lemma OwnedStep(w: Screen, e: Event)
    requires Owned(w) && !ShowsFindings(w, e)
    ensures Owned(StepScreen(w, e)) && !Intrudes(w, e)
  {
    hide UndoMachine.Respond, RequestLanes.Step, PutsBack, FromFindings, RestoredRows, FromAnswer;
    FindingsStep(w, e);
    if e.Turned? && !e.turn.Show? {
      BackOwned(w, e.turn);
      NoneIntrudes(w, e.turn);
      TurnOwned(w, e.turn);
    }
  }

  ghost predicate OneSearch(w: Screen, events: seq<Event>) {
    forall i | 0 <= i < |events| :: !ShowsFindings(RunScreen(w, events[..i]), events[i])
  }

  /** As long as no other search is answered, nothing intrudes: through every run of changes, answers, Undo and
      anything else the results are of messages that search found. */
  lemma {:induction false} OneSearchStays(w: Screen, events: seq<Event>)
    requires Owned(w) && OneSearch(w, events)
    ensures Owned(RunScreen(w, events)) && FromAnswer(RunScreen(w, events))
  {
    if events == [] {
    } else {
      hide Owned, ShowsFindings, StepScreen;
      var front := events[..|events| - 1];
      forall i | 0 <= i < |front| ensures !ShowsFindings(RunScreen(w, front[..i]), front[i]) {
        assert front[..i] == events[..i];
      }
      OneSearchStays(w, front);
      OwnedStep(RunScreen(w, front), events[|events| - 1]);
      OwnedFromAnswer(RunScreen(w, events));
    }
  }

  lemma OwnedFromAnswer(w: Screen)
    requires Owned(w)
    ensures FromAnswer(w)
  {
  }

  /** Findings that arrive while nothing is pending and Undo has nothing to give back are owned. */
  lemma AnswerOwns(w: Screen, e: Event)
    requires ShowsFindings(w, e) && w.pending == map[] && w.undo == None
    ensures Owned(StepScreen(w, e))
  {
  }

  // ----- the input by which a row intrudes -----

  lemma TakenResult(s: State, id: MessageId, archive: bool, row: MessageSummary) returns (r: Removed)
    requires s.results.Some? && row in s.results.value && ShouldRemove(row, id, archive)
    ensures r in TakenRows(s, id, archive) && r.view == SearchRows && r.message.id == id
  {
    hide RemoveFrom;
    TakesEligible(s.results.value, id, archive, SearchRows, row);
    r :| r in SearchRemoval(s, id, archive).removed && r.message == row;
    RemovalKeepsOthers(s.results.value, id, archive, SearchRows);
  }

  lemma TrashSends(s: State, selection: Option<MessageId>)
    requires Mutate(s, selection, TrashMessage).sent != []
    ensures !Mutate(s, selection, TrashMessage).sent[0].mutation.Archive?
  {
    hide SelectedMessage, Shown, PreviousOf;
  }

  /** Another search, submitted and answered. */
  ghost function NextFindings(w: Screen, email: string, messages: Rows, truncated: bool, skipped: nat): Screen {
    var begun := StepScreen(w, Lane(RequestLanes.Submit, email));
    var answer := RequestLanes.SearchAnswer(w.lane.nextSearchRequest, begun.lane.searchGeneration, messages, truncated,
                                            skipped);
    StepScreen(begun, Lane(answer, email))
  }

  lemma NextSearch(w: Screen, email: string, messages: Rows, truncated: bool, skipped: nat)
    requires RequestLanes.CanSearch(w.lane)
    ensures var now := NextFindings(w, email, messages, truncated, skipped);
            && now.lane.search == RequestLanes.Found(messages, truncated, skipped)
            && now.answered == FoundIds(messages) && now.lane.selected == w.lane.selected
            && now.pending == w.pending && now.undo == w.undo && now.generation == w.generation
  {
    hide RequestLanes.ValidQuery, RequestLanes.Lists, FoundIds;
  }

  lemma CanStillSearch(w: Screen, turn: UndoMachine.Event)
    requires RequestLanes.CanSearch(w.lane)
    ensures RequestLanes.CanSearch(StepScreen(w, Turned(turn)).lane)
    ensures StepScreen(w, Turned(turn)).lane.selected == w.lane.selected
  {
    hide UndoMachine.Respond, RequestLanes.ValidQuery, RequestLanes.Lists;
  }

  /** Trashing a result, having another search answered without that message, and Gmail then refusing the change
      ends with the old row among the new results. */
  lemma RefusalIntrudes(w: Screen, selection: Option<MessageId>, row: MessageSummary, email: string, messages: Rows,
                        truncated: bool, skipped: nat)
    requires WellNumbered(View(w)) && RequestLanes.CanSearch(w.lane) && w.lane.search.Found?
    requires Mutate(View(w), selection, TrashMessage).sent != []
    requires row in w.lane.search.messages && row.folderId != Trash
    requires row.id == Mutate(View(w), selection, TrashMessage).sent[0].id && row.id !in FoundIds(messages)
    ensures var trashed := StepScreen(w, Turned(UndoMachine.Change(selection, TrashMessage)));
            var found := NextFindings(trashed, email, messages, truncated, skipped);
            var now := StepScreen(found, Turned(UndoMachine.Answer(w.next, w.generation, row.id, Failed(false))));
            found.answered == now.answered == FoundIds(messages) && FromAnswer(found) && !FromAnswer(now)
  {
    hide Mutate, WellNumbered, RequestLanes.CanSearch, StepScreen, NextFindings, TakenRows, WithoutRows, FoundIds;
    hide KeyOf;
    var s, change := View(w), UndoMachine.Change(selection, TrashMessage);
    var trashed := StepScreen(w, Turned(change));
    var found := NextFindings(trashed, email, messages, truncated, skipped);
    var refusal := UndoMachine.Answer(w.next, w.generation, row.id, Failed(false));
    TurnIsRespond(w, change);
    ChangeAnswers(s, selection, TrashMessage);
    TrashSends(s, selection);
    MoveShape(s, selection, TrashMessage);
    MoveIsFound(s, selection, TrashMessage);
    WithoutFrame(s, row.id, false);
    CanStillSearch(w, change);
    NextSearch(trashed, email, messages, truncated, skipped);
    var r := TakenResult(s, row.id, false, row);
    assert r in PutsBack(View(found), refusal);
    FindingsOfAnswer(found, messages);
    FindingsStep(found, Turned(refusal));
    KeepsAnswered(found, refusal);
  }

  lemma FindingsOfAnswer(w: Screen, messages: Rows)
    requires w.lane.search.Found? && w.lane.search.messages == messages && w.answered == FoundIds(messages)
    ensures FromAnswer(w)
  {
  }

  lemma KeepsAnswered(w: Screen, turn: UndoMachine.Event)
    ensures StepScreen(w, Turned(turn)).answered == w.answered
  {
    hide UndoMachine.Respond;
  }
}
