/** The Undo token over whole runs, and rejections that unwind a run of removals. */
module UndoMachine {
  import opened Results
  import opened MessageIds
  import opened Mail
  import opened FolderStore
  import opened RowRemoval
  import opened MutationReducer

  datatype Event =
    | Change(selection: Option<MessageId>, action: Action)
    | Answer(request: nat, generation: nat, id: MessageId, outcome: Outcome)
    | Undoing
    | Forget                     // worker loss, disconnecting, a new identity verified or persisted
    | BumpGeneration             // clearing downloaded bodies
    | IssueElsewhere             // a change of the account-scoped inbox takes a request id
    | Show(ready: bool, account: Option<string>, mailbox: Option<Mailbox>, results: Option<Rows>, selected: FolderId)

  /** The reducer, everything it sent, the answer each request got while it was pending, and the
      operations whose inverse was sent, in order. */
  datatype World = World(state: State, sent: seq<Command>, answered: map<nat, Outcome>, undone: seq<nat>)

  ghost predicate Settles(s: State, e: Event) {
    && e.Answer? && e.generation == s.generation
    && !AwaitsInverse(s.undo, e.request, e.id)
    && KeyOf(s.pending, e.request, e.id).Some?
  }

  ghost function Respond(s: State, e: Event): Turn {
    match e
    case Change(selection, action) => Mutate(s, selection, action)
    case Answer(request, generation, id, outcome) => Finish(s, request, generation, id, outcome)
    case Undoing => PressUndo(s)
    case Forget => Turn(Forgotten(s), [])
    case BumpGeneration => Turn(s.(generation := s.generation + 1), [])
    case IssueElsewhere => Turn(s.(next := s.next + 1), [])
    case Show(ready, account, mailbox, results, selected) =>
      Turn(s.(ready := ready, account := account, mailbox := mailbox, results := results, selected := selected), [])
  }

  predicate IsInverse(mutation: Mutation) {
    mutation.RestoreArchive? || mutation.RestoreFromTrash?
  }

  /** The operations an event's commands undo: the one of the token that was held. */
  function Undoes(s: State, sent: seq<Command>): seq<nat> {
    if sent != [] && IsInverse(sent[0].mutation) && s.undo.Some? then [s.undo.value.operation] else []
  }

  ghost function StepWorld(w: World, e: Event): World {
    var turn := Respond(w.state, e);
    World(turn.state, w.sent + turn.sent,
          if Settles(w.state, e) then w.answered[e.request := e.outcome] else w.answered,
          w.undone + Undoes(w.state, turn.sent))
  }

  function Start(generation: nat): World {
    World(State(false, None, None, None, Inbox, map[], None, 1, generation), [], map[], [])
  }

  ghost function RunWorld(generation: nat, events: seq<Event>): World {
    if events == [] then Start(generation)
    else StepWorld(RunWorld(generation, events[..|events| - 1]), events[|events| - 1])
  }

  // ----- the invariant -----

  predicate WasConfirmed(answered: map<nat, Outcome>, request: nat) {
    request in answered && answered[request] == Outcome.Confirmed
  }

  /** A token waiting for its change names that pending change; one past it follows a confirmation. */
  predicate TokenSound(token: Undo, pending: map<Key, Pending>, answered: map<nat, Outcome>, undone: seq<nat>) {
    && Moves(token.forward)
    && match token.phase
       case ForwardPending(request, _) =>
         var key := Key(token.id, InboxDimension);
         && request == token.operation && key in pending
         && pending[key].request == request && pending[key].mutation == token.forward
       case Available => WasConfirmed(answered, token.operation) && token.operation !in undone
       case UndoPending(_) => WasConfirmed(answered, token.operation)
  }

  ghost predicate UndoneOnce(answered: map<nat, Outcome>, undone: seq<nat>) {
    && (forall k <- undone :: WasConfirmed(answered, k))
    && (forall i, j | 0 <= i < j < |undone| :: undone[i] != undone[j])
  }

  /** A request is pending under one key and unanswered. */
  ghost predicate Live(pending: map<Key, Pending>, answered: map<nat, Outcome>, next: nat) {
    && (forall a, b | a in pending && b in pending && pending[a].request == pending[b].request :: a == b)
    && (forall key | key in pending :: pending[key].request < next && pending[key].request !in answered)
    && (forall r <- answered :: r < next)
  }

  ghost predicate SentInOrder(sent: seq<Command>, next: nat) {
    && (forall c <- sent :: c.request < next)
    && (forall i, j | 0 <= i < j < |sent| :: sent[i].request < sent[j].request)
  }

  /** The change a token undoes was sent, for the same message. */
  ghost predicate WasSent(token: Undo, sent: seq<Command>) {
    exists c <- sent :: c.request == token.operation && c.id == token.id && c.mutation == token.forward
  }

  lemma SentStays(token: Undo, sent: seq<Command>, more: seq<Command>)
    requires WasSent(token, sent)
    ensures WasSent(token, sent + more)
  {
    var c :| c in sent && c.request == token.operation && c.id == token.id && c.mutation == token.forward;
    assert c in sent + more;
  }

  lemma SentNow(token: Undo, sent: seq<Command>, c: Command)
    requires c.request == token.operation && c.id == token.id && c.mutation == token.forward
    ensures WasSent(token, sent + [c])
  {
    assert c in sent + [c];
  }

  ghost predicate UndoSafe(w: World) {
    && Live(w.state.pending, w.answered, w.state.next)
    && UndoneOnce(w.answered, w.undone)
    && SentInOrder(w.sent, w.state.next)
    && (w.state.undo.Some? ==>
          TokenSound(w.state.undo.value, w.state.pending, w.answered, w.undone) && WasSent(w.state.undo.value, w.sent))
  }

  lemma IssueKeepsLive(pending: map<Key, Pending>, answered: map<nat, Outcome>, next: nat, key: Key, change: Pending)
    requires Live(pending, answered, next) && key !in pending && change.request == next
    ensures Live(pending[key := change], answered, next + 1)
  {
  }

  lemma AnswerKeepsLive(pending: map<Key, Pending>, answered: map<nat, Outcome>, next: nat, key: Key, outcome: Outcome)
    requires Live(pending, answered, next) && key in pending
    ensures Live(pending - {key}, answered[pending[key].request := outcome], next)
  {
  }

  lemma AnswerKeepsUndone(answered: map<nat, Outcome>, undone: seq<nat>, request: nat, outcome: Outcome)
    requires UndoneOnce(answered, undone) && request !in answered
    ensures UndoneOnce(answered[request := outcome], undone) && request !in undone
  {
  }

  /** A token that was not waiting for this answer stays sound. */
  lemma AnswerKeepsToken(token: Undo, pending: map<Key, Pending>, answered: map<nat, Outcome>, undone: seq<nat>,
                         key: Key, outcome: Outcome)
    requires TokenSound(token, pending, answered, undone) && key in pending && pending[key].request !in answered
    requires !AwaitsForward(Some(token), pending[key].request, key.id)
    ensures TokenSound(token, pending - {key}, answered[pending[key].request := outcome], undone)
  {
  }

  lemma SendKeepsOrder(sent: seq<Command>, next: nat, command: Command)
    requires SentInOrder(sent, next) && command.request == next
    ensures SentInOrder(sent + [command], next + 1)
  {
    var all := sent + [command];
    assert forall i | 0 <= i < |sent| :: all[i] == sent[i] && sent[i] in sent;
  }

  lemma UndoKeepsOnce(answered: map<nat, Outcome>, undone: seq<nat>, k: nat)
    requires UndoneOnce(answered, undone) && WasConfirmed(answered, k) && k !in undone
    ensures UndoneOnce(answered, undone + [k])
  {
  }

  // ----- what the operations leave alone -----

  ghost predicate OnlyLists(s: State, t: State) {
    t == s.(mailbox := t.mailbox, results := t.results)
  }

  lemma WithReconciledFrame(s: State, id: MessageId, previous: PendingValue, state: Option<ReconciledState>)
    ensures OnlyLists(s, WithReconciled(s, id, previous, state))
  {
    hide WithRows, MapRows;
    if state.Some? && previous.TookRows? {
      WithRowsFrame(s, s, ReconciledRemovals(previous.rows, state.value));
    }
  }

  lemma SettledFrame(s: State, change: Pending, id: MessageId, outcome: Outcome, restored: bool)
    ensures OnlyLists(s, Settled(s, change, id, outcome, restored))
  {
    hide WithRows, MapRows, WithReconciled;
    if outcome.Reconciled? { WithReconciledFrame(s, id, change.previous, outcome.state); }
    if change.previous.TookRows? { WithRowsFrame(s, s, change.previous.rows); }
  }

  lemma FinishUndoFrame(s: State, undo: Undo, outcome: Outcome)
    ensures OnlyLists(s.(undo := None), FinishUndo(s, undo, outcome))
  {
    hide WithRows, MapRows, WithReconciled;
    if outcome.Reconciled? { WithReconciledFrame(s.(undo := None), undo.id, undo.previous, outcome.state); }
  }

  /** Dispatching drops the token or marks it as waiting for the one command it sends. */
  lemma DispatchShape(s: State, undo: Undo)
    ensures var turn := Dispatch(s, undo);
            || (turn.sent == [] && OnlyLists(s.(undo := None), turn.state))
            || (&& |turn.sent| == 1 && turn.sent[0].request == s.next && turn.sent[0].id == undo.id
                && Inverse(undo) == Some(turn.sent[0].mutation) && IsInverse(turn.sent[0].mutation)
                && OnlyLists(s.(undo := Some(undo.(phase := UndoPending(s.next))), next := s.next + 1), turn.state))
  {
    hide WithRows;
    WithRowsFrame(s.(undo := None), s.(undo := None), RestoredRows(undo.previous));
  }

  lemma IssuedShape(s: State, message: MessageSummary, mutation: Mutation)
    requires s.mailbox.Some? && s.account.Some?
    ensures var turn := Issued(s, message, mutation);
            var key := Key(message.id, DimensionOf(mutation));
            && |turn.sent| == 1 && turn.sent[0].request == s.next && turn.sent[0].mutation == mutation
            && turn.sent[0].id == message.id
            && key in turn.state.pending
            && turn.state.pending[key].request == s.next && turn.state.pending[key].mutation == mutation
            && turn.state.pending == s.pending[key := turn.state.pending[key]]
            && turn.state.next == s.next + 1 && turn.state.generation == s.generation
            && turn.state.selected == s.selected
            && (!Moves(mutation) ==> turn.state.undo == s.undo)
            && (Moves(mutation) ==>
                  && turn.state.undo.Some?
                  && var token := turn.state.undo.value;
                     && token.operation == s.next && token.id == message.id && token.forward == mutation
                     && token.phase == ForwardPending(s.next, false))
  {
    hide Shown, PreviousOf;
    ShownFrame(s, s, message, mutation);
  }

  // ----- every event keeps the invariant -----

  lemma ChangeKeeps(w: World, e: Event)
    requires UndoSafe(w) && e.Change?
    ensures UndoSafe(StepWorld(w, e))
  {
    hide Issued, KeyOf, Live, UndoneOnce, SentInOrder;
    var s := w.state;
    var request := Request(s, e.selection, e.action);
    if request.Some? {
      var (message, mutation) := request.value;
      assert !IsInverse(mutation);
      IssuedShape(s, message, mutation);
      var turn := Issued(s, message, mutation);
      var key := Key(message.id, DimensionOf(mutation));
      IssueKeepsLive(s.pending, w.answered, s.next, key, turn.state.pending[key]);
      SendKeepsOrder(w.sent, s.next, turn.sent[0]);
      assert turn.sent == [turn.sent[0]] && w.undone + [] == w.undone;
      if Moves(mutation) {
        SentNow(turn.state.undo.value, w.sent, turn.sent[0]);
      } else if s.undo.Some? {
        SentStays(s.undo.value, w.sent, turn.sent);
      }
    } else {
      assert w.sent + [] == w.sent && w.undone + [] == w.undone;
    }
  }

  /** Sending the inverse of a confirmed token that was not undone. */
  lemma DispatchKeeps(w: World, s: State, token: Undo, turn: Turn)
    requires Live(s.pending, w.answered, s.next) && UndoneOnce(w.answered, w.undone) && SentInOrder(w.sent, s.next)
    requires Moves(token.forward) && WasConfirmed(w.answered, token.operation) && token.operation !in w.undone
    requires turn == Dispatch(s, token) && WasSent(token, w.sent)
    ensures UndoSafe(World(turn.state, w.sent + turn.sent, w.answered,
                           w.undone + if turn.sent != [] then [token.operation] else []))
    ensures turn.sent != [] ==> IsInverse(turn.sent[0].mutation)
  {
    hide Dispatch, UndoneOnce, SentInOrder;
    DispatchShape(s, token);
    if turn.sent == [] {
      assert w.sent + [] == w.sent && w.undone + [] == w.undone;
    } else {
      SendKeepsOrder(w.sent, s.next, turn.sent[0]);
      SentStays(token, w.sent, turn.sent);
      assert WasSent(turn.state.undo.value, w.sent + turn.sent);
      UndoKeepsOnce(w.answered, w.undone, token.operation);
      assert turn.sent == [turn.sent[0]];
    }
  }

  lemma AnswerKeeps(w: World, e: Event)
    requires UndoSafe(w) && e.Answer?
    ensures UndoSafe(StepWorld(w, e))
  {
    hide Settled, FinishUndo, Dispatch, Live, UndoneOnce, SentInOrder, TokenSound;
    var s := w.state;
    assert w.sent + [] == w.sent && w.undone + [] == w.undone;
    if Settles(s, e) {
      SettlingKeeps(w, e);
    } else if e.generation == s.generation && AwaitsInverse(s.undo, e.request, e.id) {
      FinishUndoFrame(s, s.undo.value, e.outcome);
    }
  }

  lemma SettlingKeeps(w: World, e: Event)
    requires UndoSafe(w) && Settles(w.state, e)
    ensures UndoSafe(StepWorld(w, e))
  {
    hide Settled, Dispatch, UndoneOnce, SentInOrder, Live;
    var s := w.state;
    var key := KeyOf(s.pending, e.request, e.id).value;
    assert e.request !in w.answered by { PendingUnanswered(w, key); }
    AnswerKeepsLive(s.pending, w.answered, s.next, key, e.outcome);
    AnswerKeepsUndone(w.answered, w.undone, e.request, e.outcome);
    var after := World(s.(pending := s.pending - {key}), w.sent, w.answered[e.request := e.outcome], w.undone);
    assert w.sent + [] == w.sent && w.undone + [] == w.undone;
    if AwaitsForward(s.undo, e.request, e.id) {
      var token := s.undo.value.(phase := Available);
      assert token.operation == e.request by {
        AwaitedIsOperation(s.undo.value, s.pending, w.answered, w.undone, e.request, e.id);
      }
      assert WasSent(token, w.sent);
      if e.outcome.Confirmed? {
        DispatchKeeps(after, after.state, token, Dispatch(after.state, token));
      } else {
        SettledFrame(after.state.(undo := None), s.pending[key], e.id, e.outcome, s.undo.value.phase.requested);
      }
    } else {
      SettledFrame(after.state, s.pending[key], e.id, e.outcome, false);
      if s.undo.Some? {
        AnswerKeepsToken(s.undo.value, s.pending, w.answered, w.undone, key, e.outcome);
      }
    }
  }

  lemma PendingUnanswered(w: World, key: Key)
    requires Live(w.state.pending, w.answered, w.state.next) && key in w.state.pending
    ensures w.state.pending[key].request !in w.answered
  {
  }

  lemma AwaitedIsOperation(token: Undo, pending: map<Key, Pending>, answered: map<nat, Outcome>, undone: seq<nat>,
                           request: nat, id: MessageId)
    requires TokenSound(token, pending, answered, undone) && AwaitsForward(Some(token), request, id)
    ensures token.operation == request && Moves(token.forward) && token.phase.ForwardPending?
  {
  }

  lemma UndoingKeeps(w: World, e: Event)
    requires UndoSafe(w) && e.Undoing?
    ensures UndoSafe(StepWorld(w, e))
  {
    hide WithRows, Dispatch, Live, UndoneOnce, SentInOrder;
    var s := w.state;
    assert w.sent + [] == w.sent && w.undone + [] == w.undone;
    if s.undo.Some? {
      WithRowsFrame(s, s, RestoredRows(s.undo.value.previous));
      if s.undo.value.phase.Available? {
        DispatchKeeps(w, s, s.undo.value, Dispatch(s, s.undo.value));
      }
    }
  }

  lemma StepKeeps(w: World, e: Event)
    requires UndoSafe(w)
    ensures UndoSafe(StepWorld(w, e))
  {
    hide Mutate, Finish, PressUndo;
    match e
    case Change(_, _) => ChangeKeeps(w, e);
    case Answer(_, _, _, _) => AnswerKeeps(w, e);
    case Undoing => UndoingKeeps(w, e);
    case _ =>
  }

  /** In every reachable state a waiting token names its live change, inverses were sent only for
      confirmed changes and at most once for each, and request ids were never reused. */
  lemma {:induction false} UndoAlwaysSafe(generation: nat, events: seq<Event>)
    ensures UndoSafe(RunWorld(generation, events)) && WellNumbered(RunWorld(generation, events).state)
  {
    if events != [] {
      UndoAlwaysSafe(generation, events[..|events| - 1]);
      StepKeeps(RunWorld(generation, events[..|events| - 1]), events[|events| - 1]);
    }
  }

  /** A change is answered once: what Gmail said about it is never replaced. */
  lemma AnswersAreFinal(generation: nat, events: seq<Event>, e: Event, request: nat)
    requires request in RunWorld(generation, events).answered
    ensures var w := RunWorld(generation, events);
            request in StepWorld(w, e).answered && StepWorld(w, e).answered[request] == w.answered[request]
  {
    hide RunWorld, Live, UndoneOnce, SentInOrder, TokenSound, Respond;
    var w := RunWorld(generation, events);
    UndoAlwaysSafe(generation, events);
    if Settles(w.state, e) {
      PendingUnanswered(w, KeyOf(w.state.pending, e.request, e.id).value);
    }
  }

  /** The command undoes the change of the held token: it was sent for that message, has been confirmed
      once the event is handled, and was never undone before. */
  ghost predicate UndoesConfirmed(w: World, e: Event, c: Command) {
    && w.state.undo.Some?
    && var token := w.state.undo.value;
       && c.id == token.id && Inverse(token) == Some(c.mutation)
       && (exists f <- w.sent :: f.request == token.operation && f.id == c.id && f.mutation == token.forward)
       && WasConfirmed(StepWorld(w, e).answered, token.operation)
       && token.operation !in w.undone && token.operation in StepWorld(w, e).undone
  }

  /** In every run, an inverse goes out only on behalf of the held token, for a confirmed change. */
  lemma InverseFollowsConfirmation(generation: nat, events: seq<Event>, e: Event)
    ensures var w := RunWorld(generation, events);
            forall c <- Respond(w.state, e).sent | IsInverse(c.mutation) :: UndoesConfirmed(w, e, c)
  {
    hide RunWorld;
    UndoAlwaysSafe(generation, events);
    var w := RunWorld(generation, events);
    forall c <- Respond(w.state, e).sent | IsInverse(c.mutation) ensures UndoesConfirmed(w, e, c) {
      InverseUndoesConfirmed(w, e, c);
    }
  }

  lemma InverseUndoesConfirmed(w: World, e: Event, c: Command)
    requires UndoSafe(w) && c in Respond(w.state, e).sent && IsInverse(c.mutation)
    ensures UndoesConfirmed(w, e, c)
  {
    hide Live, UndoneOnce, SentInOrder, Dispatch, Settled, FinishUndo, Issued;
    match e
    case Change(selection, action) =>
      var request := Request(w.state, selection, action);
      if request.Some? { IssuedShape(w.state, request.value.0, request.value.1); }
      assert false;
    case Undoing => SentByUndoing(w, e, c);
    case Answer(_, _, _, _) => SentByAnswer(w, e, c);
    case _ => assert false;
  }

  lemma SentByUndoing(w: World, e: Event, c: Command)
    requires UndoSafe(w) && e.Undoing? && c in Respond(w.state, e).sent
    ensures w.state.undo.Some?
    ensures var token := w.state.undo.value;
            && c.id == token.id && Inverse(token) == Some(c.mutation)
            && WasConfirmed(StepWorld(w, e).answered, token.operation)
            && token.operation !in w.undone && token.operation in StepWorld(w, e).undone
  {
    hide Live, UndoneOnce, SentInOrder, Dispatch, WithRows;
    DispatchShape(w.state, w.state.undo.value);
  }

  lemma SentByAnswer(w: World, e: Event, c: Command)
    requires UndoSafe(w) && e.Answer? && c in Respond(w.state, e).sent
    ensures w.state.undo.Some?
    ensures var token := w.state.undo.value;
            && c.id == token.id && Inverse(token) == Some(c.mutation)
            && WasConfirmed(StepWorld(w, e).answered, token.operation)
            && token.operation !in w.undone && token.operation in StepWorld(w, e).undone
  {
    hide Live, SentInOrder, Dispatch, Settled, FinishUndo, UndoneOnce;
    var s := w.state;
    var key := KeyOf(s.pending, e.request, e.id).value;
    var token := s.undo.value;
    PendingUnanswered(w, key);
    AnswerKeepsUndone(w.answered, w.undone, e.request, e.outcome);
    DispatchShape(s.(pending := s.pending - {key}), token.(phase := Available));
    assert Inverse(token.(phase := Available)) == Inverse(token);
  }

  // ----- an inverse under way -----

  ghost function RunOn(w: World, events: seq<Event>): World {
    if events == [] then w else StepWorld(RunOn(w, events[..|events| - 1]), events[|events| - 1])
  }

  /** The event is no new move, no answer to the inverse, and forgets nothing. */
  predicate LeavesInverse(s: State, e: Event, request: nat) {
    match e
    case Change(selection, action) =>
      !(action.ArchiveMessage? || action.TrashMessage?) || Mutate(s, selection, action).sent == []
    case Answer(answered, _, _, _) => answered != request
    case Forget => false
    case BumpGeneration => false
    case _ => true
  }

  lemma StepLeavesInverse(w: World, e: Event, request: nat)
    requires w.state.undo.Some? && w.state.undo.value.phase == UndoPending(request)
    requires LeavesInverse(w.state, e, request)
    ensures StepWorld(w, e).state.undo == w.state.undo && StepWorld(w, e).state.generation == w.state.generation
  {
    hide Settled, FinishUndo, Dispatch, KeyOf, Issued;
    var s := w.state;
    match e
    case Change(selection, action) =>
      var r := Request(s, selection, action);
      if r.Some? { IssuedShape(s, r.value.0, r.value.1); }
    case Answer(answered, generation, id, outcome) =>
      var key := KeyOf(s.pending, answered, id);
      if key.Some? { SettledFrame(s.(pending := s.pending - {key.value}), s.pending[key.value], id, outcome, false); }
    case _ =>
  }

  /** While the inverse is under way, other changes, their answers in any order, stale answers, folder
      switches and further presses of Undo leave its token waiting. The answer to it then ends it: a
      confirmation touches neither list, a failure takes the message away again, and Gmail's own account
      is shown; nothing else that happened meanwhile is disturbed. */
  lemma {:induction false} InverseSettlesLater(w: World, events: seq<Event>, request: nat, outcome: Outcome)
    requires w.state.undo.Some? && w.state.undo.value.phase == UndoPending(request)
    requires forall i | 0 <= i < |events| :: LeavesInverse(RunOn(w, events[..i]).state, events[i], request)
    ensures var token, now := w.state.undo.value, RunOn(w, events).state;
            && now.undo == w.state.undo && now.generation == w.state.generation
            && var after := Finish(now, request, now.generation, token.id, outcome);
               && after.sent == [] && after.state.undo == None
               && after.state == now.(undo := None, mailbox := after.state.mailbox, results := after.state.results)
               && match outcome
                  case Confirmed => after.state.mailbox == now.mailbox && after.state.results == now.results
                  case Failed(_) => after.state == WithoutRows(now.(undo := None), token.id, token.forward.Archive?)
                  case Reconciled(state) =>
                    after.state == WithReconciled(now.(undo := None), token.id, token.previous, state)
  {
    hide StepWorld, LeavesInverse, WithReconciled, WithoutRows, KeyOf;
    if events != [] {
      var front := events[..|events| - 1];
      forall i | 0 <= i < |front| ensures LeavesInverse(RunOn(w, front[..i]).state, front[i], request) {
        assert front[..i] == events[..i];
      }
      InverseSettlesLater(w, front, request, outcome);
      StepLeavesInverse(RunOn(w, front), events[|events| - 1], request);
    }
    FinishUndoFrame(RunOn(w, events).state, w.state.undo.value, outcome);
  }
}
