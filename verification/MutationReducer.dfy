/** Optimistic changes to messages and the Undo token (src/state.rs).

    A change is shown at once, recorded under its message and dimension, and settled by the worker's
    answer. `State` is the reducer's state; the functions say what each event leaves there and which
    command it sends, and the class performs them field by field. */
module MutationReducer {
  import opened Results
  import opened Sorting
  import opened MessageIds
  import opened Mail
  import opened FolderStore
  import opened RowRemoval

  datatype Action = ToggleRead | ToggleStar | ArchiveMessage | TrashMessage | ToggleLabel(name: string)

  /** What a definite rejection puts back. */
  datatype PendingValue = WasFlag(flag: bool) | WasLabeled(applied: bool) | TookRows(rows: seq<Removed>)

  datatype Key = Key(id: MessageId, dimension: Dimension)

  datatype Pending = Pending(request: nat, origin: FolderId, mutation: Mutation, previous: PendingValue)

  datatype UndoPhase = ForwardPending(request: nat, requested: bool) | Available | UndoPending(request: nat)

  /** `operation` is the request id of the change it undoes. */
  datatype Undo = Undo(operation: nat, id: MessageId, forward: Mutation, previous: PendingValue, locator: Locator,
                       catalog: FolderCatalog, phase: UndoPhase)

  datatype Mailbox = Mailbox(messages: Rows, catalog: FolderCatalog)

  datatype Command = MutateMessage(request: nat, generation: nat, account: string, id: MessageId, locator: Locator,
                                   catalog: FolderCatalog, mutation: Mutation)

  /** The worker's answer. A failure is uncertain when Gmail may have received the change. */
  datatype Outcome = Confirmed | Reconciled(state: Option<ReconciledState>) | Failed(uncertain: bool)

  /** `results` is a loaded server search; `selected` the folder on screen. */
  datatype State = State(ready: bool, account: Option<string>, mailbox: Option<Mailbox>, results: Option<Rows>,
                         selected: FolderId, pending: map<Key, Pending>, undo: Option<Undo>, next: nat, generation: nat)

  datatype Turn = Turn(state: State, sent: seq<Command>)

  // ----- both lists -----

  function OnRows(s: State, f: Rows -> Rows): State {
    s.(mailbox := if s.mailbox.Some? then Some(s.mailbox.value.(messages := f(s.mailbox.value.messages))) else None,
       results := if s.results.Some? then Some(f(s.results.value)) else None)
  }

  function Mapped(s: State, f: MessageSummary -> MessageSummary): State {
    OnRows(s, (rows: Rows) => MapRows(rows, f))
  }

  function Retained(s: State, keep: MessageSummary -> bool): State {
    OnRows(s, (rows: Rows) => Filter(rows, keep))
  }

  function FolderRemoval(s: State, id: MessageId, archive: bool): Removal {
    if s.mailbox.Some? then RemoveFrom(s.mailbox.value.messages, id, archive, FolderRows) else Removal([], [])
  }

  function SearchRemoval(s: State, id: MessageId, archive: bool): Removal {
    if s.results.Some? then RemoveFrom(s.results.value, id, archive, SearchRows) else Removal([], [])
  }

  function TakenRows(s: State, id: MessageId, archive: bool): seq<Removed> {
    FolderRemoval(s, id, archive).removed + SearchRemoval(s, id, archive).removed
  }

  function WithoutRows(s: State, id: MessageId, archive: bool): State {
    s.(mailbox := if s.mailbox.Some? then Some(s.mailbox.value.(messages := FolderRemoval(s, id, archive).kept))
                  else None,
       results := if s.results.Some? then Some(SearchRemoval(s, id, archive).kept) else None)
  }

  function WithRow(s: State, r: Removed): State {
    match r.view
    case FolderRows =>
      if s.mailbox.None? then s
      else s.(mailbox := Some(s.mailbox.value.(messages := RestoreOne(s.mailbox.value.messages, r))))
    case SearchRows =>
      if s.results.None? then s else s.(results := Some(RestoreOne(s.results.value, r)))
  }

  function WithRows(s: State, removed: seq<Removed>): State {
    if removed == [] then s else WithRow(WithRows(s, removed[..|removed| - 1]), removed[|removed| - 1])
  }

  /** Putting rows back touches nothing but the two lists. */
  lemma {:induction false} WithRowsFrame(s: State, t: State, removed: seq<Removed>)
    requires s.mailbox == t.mailbox && s.results == t.results
    ensures var w := WithRows(s, removed);
            && w == s.(mailbox := w.mailbox, results := w.results)
            && WithRows(t, removed) == t.(mailbox := w.mailbox, results := w.results)
  {
    hide RestoreOne;
    if removed != [] { WithRowsFrame(s, t, removed[..|removed| - 1]); }
  }

  // ----- issuing a change -----

  function FirstById(rows: Rows, id: MessageId): Option<MessageSummary> {
    if rows == [] then None else if rows[0].id == id then Some(rows[0]) else FirstById(rows[1..], id)
  }

  /** The row the selection names: a search result before a folder row. */
  function SelectedMessage(s: State, selection: Option<MessageId>): Option<MessageSummary> {
    if selection.None? then None
    else if s.results.Some? && FirstById(s.results.value, selection.value).Some? then
      FirstById(s.results.value, selection.value)
    else if s.mailbox.Some? then FirstById(s.mailbox.value.messages, selection.value)
    else None
  }

  function Build(action: Action, message: MessageSummary, catalog: FolderCatalog): Mutation {
    match action
    case ToggleRead => SetRead(message.unread)
    case ToggleStar => SetStarred(!message.starred)
    case ArchiveMessage => Archive
    case TrashMessage =>
      var trash := catalog.Find(Trash);
      MoveToTrash(if trash.Some? then trash.value.mailbox else "")
    case ToggleLabel(name) => SetLabel(name, name !in message.labels)
  }

  predicate Permitted(mutation: Mutation, message: MessageSummary, catalog: FolderCatalog) {
    match mutation
    case Archive => message.inInbox && !message.inTrash
    case MoveToTrash(mailbox) => !message.inTrash && mailbox != ""
    case SetLabel(name, _) =>
      var folder := catalog.Find(Label(name));
      folder.Some? && folder.value.mailbox == name
    case _ => true
  }

  predicate Moves(mutation: Mutation) {
    mutation.Archive? || mutation.MoveToTrash?
  }

  function PreviousOf(s: State, message: MessageSummary, mutation: Mutation): PendingValue {
    match mutation
    case SetRead(_) => WasFlag(message.unread)
    case SetStarred(_) => WasFlag(message.starred)
    case SetLabel(name, _) => WasLabeled(name in message.labels)
    case _ => if Moves(mutation) then TookRows(TakenRows(s, message.id, mutation.Archive?)) else TookRows([])
  }

  function Shown(s: State, id: MessageId, mutation: Mutation): State {
    if Moves(mutation) then WithoutRows(s, id, mutation.Archive?) else Mapped(s, Applying(id, mutation))
  }

  /** Showing a change touches nothing but the two lists, and depends on nothing else. */
  lemma ShownFrame(s: State, t: State, message: MessageSummary, mutation: Mutation)
    requires s.mailbox == t.mailbox && s.results == t.results
    ensures var w := Shown(s, message.id, mutation);
            && w == s.(mailbox := w.mailbox, results := w.results)
            && Shown(t, message.id, mutation) == t.(mailbox := w.mailbox, results := w.results)
            && PreviousOf(t, message, mutation) == PreviousOf(s, message, mutation)
  {
  }

  /** What a change of one row needs before it is sent. */
  function Request(s: State, selection: Option<MessageId>, action: Action): Option<(MessageSummary, Mutation)> {
    var message := SelectedMessage(s, selection);
    if !s.ready || s.account.None? || message.None? || s.mailbox.None? then None
    else
      var catalog := s.mailbox.value.catalog;
      var mutation := Build(action, message.value, catalog);
      if !Permitted(mutation, message.value, catalog) then None
      else if Key(message.value.id, DimensionOf(mutation)) in s.pending then None
      else Some((message.value, mutation))
  }

  /** A change is shown, recorded and sent under a new request id. */
  function Issued(s: State, message: MessageSummary, mutation: Mutation): Turn
    requires s.mailbox.Some? && s.account.Some?
  {
    var catalog := s.mailbox.value.catalog;
    var previous := PreviousOf(s, message, mutation);
    var shown := Shown(s, message.id, mutation);
    Turn(
      shown.(pending := s.pending[Key(message.id, DimensionOf(mutation)) :=
                                    Pending(s.next, s.selected, mutation, previous)],
             undo := if Moves(mutation)
                     then Some(Undo(s.next, message.id, mutation, previous, message.locator, catalog,
                                    ForwardPending(s.next, false)))
                     else s.undo,
             next := s.next + 1),
      [MutateMessage(s.next, s.generation, s.account.value, message.id, message.locator, catalog, mutation)])
  }

  function Mutate(s: State, selection: Option<MessageId>, action: Action): Turn {
    var request := Request(s, selection, action);
    if request.None? then Turn(s, []) else Issued(s, request.value.0, request.value.1)
  }

  // ----- settling a change -----

  function FlagBack(id: MessageId, mutation: Mutation, flag: bool): MessageSummary -> MessageSummary {
    (row: MessageSummary) =>
      if row.id != id then row
      else if mutation.SetRead? then row.(unread := flag)
      else if mutation.SetStarred? then row.(starred := flag)
      else row
  }

  function LabelBack(id: MessageId, name: string, applied: bool): MessageSummary -> MessageSummary {
    (row: MessageSummary) =>
      if row.id != id then row
      else row.(labels := if applied then WithLabel(row.labels, name) else Filter(row.labels, OtherThan(name)))
  }

  predicate BelongsInProjection(row: MessageSummary) {
    match row.folderId
    case Inbox => row.inInbox
    case Trash => row.inTrash
    case AllMail => !row.inTrash
    case Starred => row.starred && !row.inTrash
    case Sent => !row.inTrash
    case Label(name) => name in row.labels && !row.inTrash
  }

  function Belonging(): MessageSummary -> bool {
    (row: MessageSummary) => BelongsInProjection(row)
  }

  /** The taken rows as Gmail now describes the message, where their view still lists it. */
  function ReconciledRemovals(removed: seq<Removed>, state: ReconciledState): seq<Removed> {
    if removed == [] then []
    else
      var so := ReconciledRemovals(removed[..|removed| - 1], state);
      var last := removed[|removed| - 1];
      var row := ReconcileRow(state, last.message);
      if BelongsInProjection(row) then so + [last.(message := row)] else so
  }

  function WithReconciled(s: State, id: MessageId, previous: PendingValue, state: Option<ReconciledState>): State {
    match state
    case None => Retained(s, NotId(id))
    case Some(known) =>
      var back := if previous.TookRows? then WithRows(s, ReconciledRemovals(previous.rows, known)) else s;
      Retained(Mapped(back, Reconciling(id, known)), Belonging())
  }

  function PutBack(s: State, id: MessageId, mutation: Mutation, previous: PendingValue): State {
    match previous
    case WasFlag(flag) => Mapped(s, FlagBack(id, mutation, flag))
    case WasLabeled(applied) => if mutation.SetLabel? then Mapped(s, LabelBack(id, mutation.name, applied)) else s
    case TookRows(rows) => WithRows(s, rows)
  }

  /** How an unconfirmed answer changes the lists, when the folder it was issued in is on screen. */
  function Settled(s: State, pending: Pending, id: MessageId, outcome: Outcome, restored: bool): State {
    if s.selected != pending.origin then s
    else
      match outcome
      case Confirmed => s
      case Failed(uncertain) =>
        if !uncertain then PutBack(s, id, pending.mutation, pending.previous)
        else if restored then WithoutRows(s, id, pending.mutation.Archive?)
        else s
      case Reconciled(state) => WithReconciled(s, id, pending.previous, state)
  }

  ghost predicate IsPending(pending: map<Key, Pending>, key: Key, request: nat, id: MessageId) {
    key in pending && key.id == id && pending[key].request == request
  }

  ghost function KeyOf(pending: map<Key, Pending>, request: nat, id: MessageId): (r: Option<Key>)
    ensures r.Some? ==> IsPending(pending, r.value, request, id)
    ensures r.None? ==> forall key :: !IsPending(pending, key, request, id)
  {
    if exists key :: IsPending(pending, key, request, id) then
      var key :| IsPending(pending, key, request, id);
      Some(key)
    else None
  }

  // ----- undo -----

  function RestoredRows(previous: PendingValue): seq<Removed> {
    if previous.TookRows? then previous.rows else []
  }

  predicate WasInInbox(previous: PendingValue) {
    exists r <- RestoredRows(previous) :: r.message.inInbox
  }

  function FormerLabels(previous: PendingValue): seq<string> {
    if RestoredRows(previous) == [] then [] else RestoredRows(previous)[0].message.labels
  }

  function Inverse(undo: Undo): Option<Mutation> {
    var inbox := undo.catalog.Find(Inbox);
    if inbox.None? then None
    else
      match undo.forward
      case Archive => Some(RestoreArchive(inbox.value.mailbox))
      case MoveToTrash(mailbox) =>
        Some(RestoreFromTrash(inbox.value.mailbox, mailbox, WasInInbox(undo.previous), FormerLabels(undo.previous)))
      case _ => None
  }

  /** Sends the inverse of `undo`, which leaves the state first, or drops it. */
  function Dispatch(s: State, undo: Undo): Turn {
    var inverse := Inverse(undo);
    var taken := s.(undo := None);
    if inverse.None? || s.account.None? then Turn(taken, [])
    else
      Turn(WithRows(taken, RestoredRows(undo.previous))
             .(undo := Some(undo.(phase := UndoPending(s.next))), next := s.next + 1),
           [MutateMessage(s.next, s.generation, s.account.value, undo.id, undo.locator, undo.catalog, inverse.value)])
  }

  function PressUndo(s: State): Turn {
    if s.undo.None? then Turn(s, [])
    else
      var undo := s.undo.value;
      match undo.phase
      case ForwardPending(request, _) =>
        Turn(WithRows(s, RestoredRows(undo.previous)).(undo := Some(undo.(phase := ForwardPending(request, true)))), [])
      case Available => Dispatch(s, undo)
      case UndoPending(_) => Turn(s, [])
  }

  function FinishUndo(s: State, undo: Undo, outcome: Outcome): State {
    var dropped := s.(undo := None);
    match outcome
    case Confirmed => dropped
    case Reconciled(state) => WithReconciled(dropped, undo.id, undo.previous, state)
    case Failed(_) => WithoutRows(dropped, undo.id, undo.forward.Archive?)
  }

  predicate AwaitsInverse(undo: Option<Undo>, request: nat, id: MessageId) {
    undo.Some? && undo.value.phase == UndoPending(request) && undo.value.id == id
  }

  predicate AwaitsForward(undo: Option<Undo>, request: nat, id: MessageId) {
    undo.Some? && undo.value.phase.ForwardPending? && undo.value.phase.request == request && undo.value.id == id
  }

  ghost function Finish(s: State, request: nat, generation: nat, id: MessageId, outcome: Outcome): Turn {
    if generation != s.generation then Turn(s, [])
    else if AwaitsInverse(s.undo, request, id) then Turn(FinishUndo(s, s.undo.value, outcome), [])
    else
      var key := KeyOf(s.pending, request, id);
      if key.None? then Turn(s, [])
      else
        var pending := s.pending[key.value];
        var rest := s.(pending := s.pending - {key.value});
        if AwaitsForward(s.undo, request, id) then
          var undo := s.undo.value;
          if outcome.Confirmed? then
            if undo.phase.requested then Dispatch(rest, undo.(phase := Available))
            else Turn(rest.(undo := Some(undo.(phase := Available))), [])
          else Turn(Settled(rest.(undo := None), pending, id, outcome, undo.phase.requested), [])
        else Turn(Settled(rest, pending, id, outcome, false), [])
  }

  /** The events that forget every change together with its Undo token. */
  function Forgotten(s: State): State {
    s.(pending := map[], undo := None)
  }

  /** Every request id in use was handed out once. */
  ghost predicate WellNumbered(s: State) {
    && (forall a, b | a in s.pending && b in s.pending && s.pending[a].request == s.pending[b].request :: a == b)
    && (forall key | key in s.pending :: s.pending[key].request < s.next)
  }

  // ----- the loops over one list -----

  /** Takes the ineligible rows of a message out of a list, walking it by index. */
  method RemoveRows(rows: Rows, id: MessageId, archive: bool, view: RowView) returns (left: Rows, removed: seq<Removed>)
    ensures Removal(left, removed) == RemoveFrom(rows, id, archive, view)
  {
    left, removed := rows, [];
    var index := 0;
    ghost var done := 0;
    while index < |left|
      invariant 0 <= index <= |left| && 0 <= done <= |rows|
      invariant left[index..] == rows[done..]
      invariant Removal(left[..index], removed) == RemoveFrom(rows[..done], id, archive, view)
      decreases |left| - index
    {
      var row := left[index];
      assert rows[done] == left[index..][0];
      assert rows[..done + 1] == rows[..done] + [row];
      RemoveFromSnoc(rows[..done], row, id, archive, view);
      ghost var before := left;
      if row.id == id && (if archive then row.folderId == Inbox else row.folderId != Trash) {
        left := left[..index] + left[index + 1..];
        removed := removed + [Removed(view, row, index)];
        assert left[..index] == before[..index] && left[index..] == before[index..][1..];
      } else {
        index := index + 1;
        assert left[..index] == before[..index - 1] + [row] && left[index..] == before[index - 1..][1..];
      }
      done := done + 1;
      assert rows[done..] == rows[done - 1..][1..];
    }
    assert left == left[..index] && rows == rows[..done];
  }

  method ApplyRows(rows: Rows, id: MessageId, mutation: Mutation) returns (r: Rows)
    ensures r == MapRows(rows, Applying(id, mutation))
  {
    r := rows;
    for i := 0 to |rows|
      invariant |r| == |rows|
      invariant forall k | 0 <= k < i :: r[k] == Applying(id, mutation)(rows[k])
      invariant forall k | i <= k < |rows| :: r[k] == rows[k]
    {
      if r[i].id == id {
        r := r[i := Apply(mutation, r[i])];
      }
    }
    assert r == MapRows(rows, Applying(id, mutation));
  }

  class Reducer {
    var ready: bool
    var account: Option<string>
    var mailbox: Option<Mailbox>
    var results: Option<Rows>
    var selected: FolderId
    var pending: map<Key, Pending>
    var undo: Option<Undo>
    var next: nat
    var generation: nat

    ghost function Now(): State
      reads this
    {
      State(ready, account, mailbox, results, selected, pending, undo, next, generation)
    }

    method ApplyToVisibleRepresentations(id: MessageId, mutation: Mutation)
      modifies this`mailbox, this`results
      ensures Now() == Mapped(old(Now()), Applying(id, mutation))
    {
      if mailbox.Some? {
        var rows := ApplyRows(mailbox.value.messages, id, mutation);
        mailbox := Some(mailbox.value.(messages := rows));
      }
      if results.Some? {
        var rows := ApplyRows(results.value, id, mutation);
        results := Some(rows);
      }
    }

    method RemoveFromViews(id: MessageId, archive: bool) returns (removed: seq<Removed>)
      modifies this`mailbox, this`results
      ensures Now() == WithoutRows(old(Now()), id, archive)
      ensures removed == TakenRows(old(Now()), id, archive)
    {
      removed := [];
      if mailbox.Some? {
        var left, taken := RemoveRows(mailbox.value.messages, id, archive, FolderRows);
        removed := removed + taken;
        mailbox := Some(mailbox.value.(messages := left));
      }
      if results.Some? {
        var left, taken := RemoveRows(results.value, id, archive, SearchRows);
        removed := removed + taken;
        results := Some(left);
      }
    }

    method RestoreRemovedRows(rows: seq<Removed>)
      modifies this`mailbox, this`results
      ensures Now() == WithRows(old(Now()), rows)
    {
      hide Holds;
      for i := 0 to |rows|
        invariant Now() == WithRows(old(Now()), rows[..i])
      {
        var row := rows[i];
        match row.view {
          case FolderRows =>
            if mailbox.Some? && !Holds(mailbox.value.messages, row.message.id) {
              mailbox := Some(mailbox.value.(messages := InsertAt(mailbox.value.messages, row.index, row.message)));
            }
          case SearchRows =>
            if results.Some? && !Holds(results.value, row.message.id) {
              results := Some(InsertAt(results.value, row.index, row.message));
            }
        }
        assert rows[..i + 1][..|rows[..i + 1]| - 1] == rows[..i];
      }
      assert rows[..|rows|] == rows;
    }

    method MapVisible(f: MessageSummary -> MessageSummary)
      modifies this`mailbox, this`results
      ensures Now() == Mapped(old(Now()), f)
    {
      if mailbox.Some? {
        mailbox := Some(mailbox.value.(messages := MapRows(mailbox.value.messages, f)));
      }
      if results.Some? {
        results := Some(MapRows(results.value, f));
      }
    }

    method RetainVisible(keep: MessageSummary -> bool)
      modifies this`mailbox, this`results
      ensures Now() == Retained(old(Now()), keep)
    {
      if mailbox.Some? {
        mailbox := Some(mailbox.value.(messages := Filter(mailbox.value.messages, keep)));
      }
      if results.Some? {
        results := Some(Filter(results.value, keep));
      }
    }

    method RestoreReconciled(id: MessageId, previous: PendingValue, state: Option<ReconciledState>)
      modifies this`mailbox, this`results
      ensures Now() == WithReconciled(old(Now()), id, previous, state)
    {
      match state {
        case None =>
          RetainVisible(NotId(id));
        case Some(known) =>
          if previous.TookRows? {
            var back: seq<Removed> := [];
            for i := 0 to |previous.rows|
              invariant back == ReconciledRemovals(previous.rows[..i], known)
              invariant Now() == old(Now())
            {
              var row := previous.rows[i].(message := ReconcileRow(known, previous.rows[i].message));
              if BelongsInProjection(row.message) {
                back := back + [row];
              }
              assert previous.rows[..i + 1][..i] == previous.rows[..i];
            }
            assert previous.rows[..|previous.rows|] == previous.rows;
            RestoreRemovedRows(back);
          }
          MapVisible(Reconciling(id, known));
          RetainVisible(Belonging());
      }
    }

    method ShowChange(row: MessageSummary, mutation: Mutation) returns (previous: PendingValue)
      modifies this`mailbox, this`results
      ensures Now() == Shown(old(Now()), row.id, mutation)
      ensures previous == PreviousOf(old(Now()), row, mutation)
    {
      match mutation {
        case SetRead(_) => previous := WasFlag(row.unread);
        case SetStarred(_) => previous := WasFlag(row.starred);
        case SetLabel(name, _) => previous := WasLabeled(name in row.labels);
        case Archive =>
          var removed := RemoveFromViews(row.id, true);
          previous := TookRows(removed);
        case MoveToTrash(_) =>
          var removed := RemoveFromViews(row.id, false);
          previous := TookRows(removed);
        case _ => previous := TookRows([]);
      }
      if !Moves(mutation) {
        ApplyToVisibleRepresentations(row.id, mutation);
      }
    }

    /** The guards a change passes before anything is touched. */
    method CheckRequest(selection: Option<MessageId>, action: Action) returns (r: Option<(MessageSummary, Mutation)>)
      ensures r == Request(Now(), selection, action)
    {
      hide Build, SelectedMessage, DimensionOf;
      if !ready || account.None? {
        return None;
      }
      var message := SelectedMessage(State(ready, account, mailbox, results, selected, pending, undo, next, generation),
                                     selection);
      if message.None? || mailbox.None? {
        return None;
      }
      var row, catalog := message.value, mailbox.value.catalog;
      var mutation := Build(action, row, catalog);
      if mutation.Archive? && !(row.inInbox && !row.inTrash) {
        return None;
      }
      if mutation.MoveToTrash? && row.inTrash {
        return None;
      }
      if mutation.MoveToTrash? && mutation.mailbox == "" {
        return None;
      }
      if mutation.SetLabel? {
        var folder := catalog.Find(Label(mutation.name));
        if folder.None? || folder.value.mailbox != mutation.name {
          return None;
        }
      }
      if Key(row.id, DimensionOf(mutation)) in pending {
        return None;
      }
      return Some((row, mutation));
    }

    method MutateSelected(selection: Option<MessageId>, action: Action) returns (sent: seq<Command>)
      modifies this
      ensures Turn(Now(), sent) == Mutate(old(Now()), selection, action)
    {
      hide Build, SelectedMessage, DimensionOf, Shown, PreviousOf, Permitted;
      var checked := CheckRequest(selection, action);
      if checked.None? {
        return [];
      }
      var (row, mutation) := checked.value;
      var catalog := mailbox.value.catalog;
      var request := next;
      next := next + 1;
      ShownFrame(old(Now()), Now(), row, mutation);
      var previous := ShowChange(row, mutation);
      pending := pending[Key(row.id, DimensionOf(mutation)) := Pending(request, selected, mutation, previous)];
      if Moves(mutation) {
        undo := Some(Undo(request, row.id, mutation, previous, row.locator, catalog, ForwardPending(request, false)));
      }
      return [MutateMessage(request, generation, account.value, row.id, row.locator, catalog, mutation)];
    }

    method FindPending(request: nat, id: MessageId) returns (r: Option<Key>)
      requires WellNumbered(Now())
      ensures r == KeyOf(pending, request, id)
    {
      var left := pending.Keys;
      while left != {}
        invariant left <= pending.Keys
        invariant forall key | key in pending && key !in left :: !IsPending(pending, key, request, id)
      {
        var key :| key in left;
        if key.id == id && pending[key].request == request {
          assert IsPending(pending, key, request, id);
          return Some(key);
        }
        left := left - {key};
      }
      return None;
    }

    method Settle(change: Pending, id: MessageId, outcome: Outcome, restored: bool)
      modifies this`mailbox, this`results
      ensures Now() == Settled(old(Now()), change, id, outcome, restored)
    {
      if outcome.Failed? && outcome.uncertain && restored && selected == change.origin {
        var _ := RemoveFromViews(id, change.mutation.Archive?);
      } else if outcome.Failed? && !outcome.uncertain && selected == change.origin {
        RestorePendingValue(id, change.mutation, change.previous);
      } else if selected == change.origin && outcome.Reconciled? {
        RestoreReconciled(id, change.previous, outcome.state);
      }
    }

    method FinishMutation(request: nat, answered: nat, id: MessageId, outcome: Outcome) returns (sent: seq<Command>)
      requires WellNumbered(Now())
      modifies this
      ensures Turn(Now(), sent) == Finish(old(Now()), request, answered, id, outcome)
    {
      hide KeyOf, Settled, FinishUndo, Dispatch;
      sent := [];
      if answered != generation {
        return;
      }
      if undo.Some? && undo.value.phase == UndoPending(request) && undo.value.id == id {
        FinishUndoMutation(outcome);
        return;
      }
      var key := FindPending(request, id);
      if key.None? {
        return;
      }
      var change := pending[key.value];
      pending := pending - {key.value};
      var restored := false;
      if undo.Some? && undo.value.id == id && undo.value.phase.ForwardPending? && undo.value.phase.request == request {
        if outcome.Confirmed? {
          var token := undo.value;
          if token.phase.requested {
            sent := DispatchUndo(token.(phase := Available));
          } else {
            undo := Some(token.(phase := Available));
          }
          return;
        }
        restored := undo.value.phase.requested;
        undo := None;
      }
      Settle(change, id, outcome, restored);
    }

    method RestorePendingValue(id: MessageId, mutation: Mutation, previous: PendingValue)
      modifies this`mailbox, this`results
      ensures Now() == PutBack(old(Now()), id, mutation, previous)
    {
      match previous {
        case WasFlag(flag) => MapVisible(FlagBack(id, mutation, flag));
        case WasLabeled(applied) =>
          if mutation.SetLabel? {
            MapVisible(LabelBack(id, mutation.name, applied));
          }
        case TookRows(rows) => RestoreRemovedRows(rows);
      }
    }

    method FinishUndoMutation(outcome: Outcome)
      requires undo.Some?
      modifies this`undo, this`mailbox, this`results
      ensures Now() == FinishUndo(old(Now()), old(undo.value), outcome)
    {
      var token := undo.value;
      undo := None;
      match outcome {
        case Confirmed =>
        case Reconciled(state) => RestoreReconciled(token.id, token.previous, state);
        case Failed(_) => var _ := RemoveFromViews(token.id, token.forward.Archive?);
      }
    }

    method UndoMessageOperation() returns (sent: seq<Command>)
      modifies this
      ensures Turn(Now(), sent) == PressUndo(old(Now()))
    {
      sent := [];
      if undo.None? {
        return;
      }
      var token := undo.value;
      undo := None;
      match token.phase {
        case ForwardPending(request, _) =>
          WithRowsFrame(old(Now()), Now(), RestoredRows(token.previous));
          RestoreRemovedRows(RestoredRows(token.previous));
          undo := Some(token.(phase := ForwardPending(request, true)));
        case Available =>
          sent := DispatchUndo(token);
        case UndoPending(_) =>
          undo := Some(token);
      }
    }

    /** `token` has been taken out of the state; it comes back only when its inverse was sent. */
    method DispatchUndo(token: Undo) returns (sent: seq<Command>)
      modifies this`mailbox, this`results, this`next, this`undo
      ensures Turn(Now(), sent) == Dispatch(old(Now()), token)
    {
      undo := None;
      sent := [];
      var inverse := Inverse(token);
      if inverse.None? || account.None? {
        return;
      }
      var request := next;
      WithRowsFrame(Now(), Now().(next := next + 1), RestoredRows(token.previous));
      next := next + 1;
      RestoreRemovedRows(RestoredRows(token.previous));
      undo := Some(token.(phase := UndoPending(request)));
      return [MutateMessage(request, generation, account.value, token.id, token.locator, token.catalog, inverse.value)];
    }

    method ForgetChanges()
      modifies this`pending, this`undo
      ensures Now() == Forgotten(old(Now()))
    {
      pending := map[];
      undo := None;
    }
  }
}
