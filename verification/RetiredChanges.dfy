/** Changes the state has forgotten, and answers from before a bumped generation (src/state.rs): through every
    further run they do nothing. */
module RetiredChanges {
  import opened Results
  import opened Sorting
  import opened MessageIds
  import opened Mail
  import opened FolderStore
  import opened RowRemoval
  import opened MutationReducer
  import opened UndoMachine

  ghost function RunOn(s: State, events: seq<Event>): State {
    if events == [] then s else Respond(RunOn(s, events[..|events| - 1]), events[|events| - 1]).state
  }

  /** The request the Undo token waits for, if any. */
  function Awaited(undo: Option<Undo>): Option<nat> {
    if undo.None? then None
    else
      match undo.value.phase
      case ForwardPending(request, _) => Some(request)
      case UndoPending(request) => Some(request)
      case Available => None
  }

  /** Nothing under way is older than request `n` or of a generation before `g`. */
  ghost predicate NewerThan(s: State, n: nat, g: nat) {
    && n <= s.next && g <= s.generation
    && (forall key | key in s.pending :: s.pending[key].request >= n)
    && (Awaited(s.undo).Some? ==> Awaited(s.undo).value >= n)
  }

  lemma KeepsNewer(s: State, t: State, n: nat, g: nat)
    requires NewerThan(s, n, g) && t == s.(mailbox := t.mailbox, results := t.results)
    ensures NewerThan(t, n, g)
  {
  }

  lemma SettledNewer(s: State, pending: Pending, id: MessageId, outcome: Outcome, restored: bool, n: nat, g: nat)
    requires NewerThan(s, n, g)
    ensures NewerThan(Settled(s, pending, id, outcome, restored), n, g)
  {
    hide NewerThan, WithRows, Filter, MapRows, ReconciledRemovals, RemoveFrom;
    match pending.previous
    case TookRows(rows) =>
      WithRowsFrame(s, s, rows);
      if outcome.Reconciled? && outcome.state.Some? {
        WithRowsFrame(s, s, ReconciledRemovals(rows, outcome.state.value));
      }
      KeepsNewer(s, Settled(s, pending, id, outcome, restored), n, g);
    case _ => KeepsNewer(s, Settled(s, pending, id, outcome, restored), n, g);
  }

  lemma DispatchNewer(s: State, undo: Undo, n: nat, g: nat)
    requires NewerThan(s, n, g)
    ensures NewerThan(Dispatch(s, undo).state, n, g)
  {
    hide WithRows, Inverse, RestoredRows;
    WithRowsFrame(s.(undo := None), s.(undo := None), RestoredRows(undo.previous));
  }

  lemma FinishUndoNewer(s: State, undo: Undo, outcome: Outcome, n: nat, g: nat)
    requires NewerThan(s, n, g)
    ensures NewerThan(FinishUndo(s, undo, outcome), n, g)
  {
    hide WithRows, Filter, MapRows, ReconciledRemovals, RemoveFrom;
    var dropped := s.(undo := None);
    if outcome.Reconciled? && outcome.state.Some? && undo.previous.TookRows? {
      WithRowsFrame(dropped, dropped, ReconciledRemovals(undo.previous.rows, outcome.state.value));
    }
  }

  lemma FinishNewer(s: State, request: nat, generation: nat, id: MessageId, outcome: Outcome, n: nat, g: nat)
    requires NewerThan(s, n, g)
    ensures NewerThan(Finish(s, request, generation, id, outcome).state, n, g)
  {
    hide Settled, Dispatch, FinishUndo, KeyOf;
    if s.undo.Some? { FinishUndoNewer(s, s.undo.value, outcome, n, g); }
    var key := KeyOf(s.pending, request, id);
    if key.Some? && key.value in s.pending {
      var rest := s.(pending := s.pending - {key.value});
      if s.undo.Some? {
        DispatchNewer(rest, s.undo.value.(phase := Available), n, g);
        SettledNewer(rest.(undo := None), s.pending[key.value], id, outcome, true, n, g);
        SettledNewer(rest.(undo := None), s.pending[key.value], id, outcome, false, n, g);
      }
      SettledNewer(rest, s.pending[key.value], id, outcome, false, n, g);
    }
  }

  lemma MutateNewer(s: State, selection: Option<MessageId>, action: Action, n: nat, g: nat)
    requires NewerThan(s, n, g)
    ensures NewerThan(Mutate(s, selection, action).state, n, g)
  {
    hide Shown, PreviousOf, Request, Build;
    var request := Request(s, selection, action);
    if request.Some? { ShownFrame(s, s, request.value.0, request.value.1); }
  }

  lemma UndoNewer(s: State, n: nat, g: nat)
    requires NewerThan(s, n, g)
    ensures NewerThan(PressUndo(s).state, n, g)
  {
    hide WithRows, Dispatch, RestoredRows;
    if s.undo.Some? {
      WithRowsFrame(s, s, RestoredRows(s.undo.value.previous));
      DispatchNewer(s, s.undo.value, n, g);
    }
  }

  lemma RespondNewer(s: State, e: Event, n: nat, g: nat)
    requires NewerThan(s, n, g)
    ensures NewerThan(Respond(s, e).state, n, g)
  {
    hide Mutate, Finish, PressUndo;
    match e
    case Change(selection, action) => MutateNewer(s, selection, action, n, g);
    case Answer(request, generation, id, outcome) => FinishNewer(s, request, generation, id, outcome, n, g);
    case Undoing => UndoNewer(s, n, g);
    case _ =>
  }

  lemma {:induction false} RunNewer(s: State, events: seq<Event>, n: nat, g: nat)
    requires NewerThan(s, n, g)
    ensures NewerThan(RunOn(s, events), n, g)
  {
    hide Respond, NewerThan;
    if events != [] {
      RunNewer(s, events[..|events| - 1], n, g);
      RespondNewer(RunOn(s, events[..|events| - 1]), events[|events| - 1], n, g);
    }
  }

  /** Once the worker is lost, the user leaves or another account appears, no answer to a change sent before ever
      does anything again: no row returns or goes, nothing is settled, no inverse is sent. */
  lemma ForgottenStayForgotten(s: State, events: seq<Event>, request: nat, generation: nat, id: MessageId,
                               outcome: Outcome)
    requires request < s.next
    ensures var later := RunOn(Respond(s, Forget).state, events);
            Respond(later, Answer(request, generation, id, outcome)) == Turn(later, [])
  {
    hide RunOn, Settled, FinishUndo, Dispatch;
    RunNewer(Respond(s, Forget).state, events, s.next, 0);
  }

  /** Once the downloaded bodies are cleared, no answer of that generation or an earlier one ever does anything. */
  lemma OutdatedStayOutdated(s: State, events: seq<Event>, request: nat, generation: nat, id: MessageId,
                             outcome: Outcome)
    requires generation <= s.generation
    ensures var later := RunOn(Respond(s, BumpGeneration).state, events);
            Respond(later, Answer(request, generation, id, outcome)) == Turn(later, [])
  {
    hide RunOn, Settled, FinishUndo, Dispatch;
    RunNewer(Respond(s, BumpGeneration).state, events, 0, s.generation + 1);
  }
}
