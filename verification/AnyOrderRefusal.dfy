/** Archives and trashes sent and refused in any order, on the whole reducer. */
module AnyOrderRefusal {
  import opened Results
  import opened Sorting
  import opened MessageIds
  import opened Mail
  import opened FolderStore
  import opened RowRemoval
  import opened MutationReducer
  import opened MutationRollback

  /** A move by the user, or a definite refusal by Gmail of any request, pending or not. */
  datatype Trip = Move(selection: Option<MessageId>, action: Action) | Refusal(request: nat, id: MessageId)

  ghost function StepTrip(s: State, trip: Trip): State {
    match trip
    case Move(selection, action) => Mutate(s, selection, action).state
    case Refusal(request, id) => Finish(s, request, s.generation, id, Failed(false)).state
  }

  ghost function RunTrips(s: State, trips: seq<Trip>): State {
    if trips == [] then s else StepTrip(RunTrips(s, trips[..|trips| - 1]), trips[|trips| - 1])
  }

  /** A list on screen; a missing one has no rows. */
  function ListOf(s: State, view: RowView): Rows {
    match view
    case FolderRows => if s.mailbox.Some? then s.mailbox.value.messages else []
    case SearchRows => if s.results.Some? then s.results.value else []
  }

  /** A pending change holds the removed row of a view. */
  predicate HeldBack(change: Pending, view: RowView, r: Removed) {
    change.previous.TookRows? && r in change.previous.rows && r.view == view
  }

  ghost predicate Outstanding(pending: map<Key, Pending>, view: RowView, r: Removed) {
    exists key | key in pending :: HeldBack(pending[key], view, r)
  }

  /** Rows of the folder list, then rows of the search results, at most one of each. */
  predicate Split(rows: seq<Removed>, f: seq<Removed>, g: seq<Removed>) {
    && rows == f + g && |f| <= 1 && |g| <= 1
    && (forall r <- f :: r.view == FolderRows) && (forall r <- g :: r.view == SearchRows)
  }

  /** Every pending change is a move that remembers what it took of its own message. */
  ghost predicate MovesOnly(s: State) {
    forall key | key in s.pending ::
      && key.dimension == InboxDimension && s.pending[key].origin == s.selected && s.pending[key].previous.TookRows?
      && (forall r <- s.pending[key].previous.rows :: r.message.id == key.id)
      && exists f, g :: Split(s.pending[key].previous.rows, f, g)
  }

  /** `desk` is the list of the view and the rows its pending moves hold back. */
  ghost predicate OnDesk(s: State, view: RowView, desk: Desk) {
    desk.rows == ListOf(s, view) && forall r :: r in desk.out <==> Outstanding(s.pending, view, r)
  }

  predicate NoInverse(s: State) {
    s.undo.Some? ==> s.undo.value.phase.ForwardPending?
  }

  // ----- one move -----

  lemma Taken(s: State, id: MessageId, archive: bool)
    ensures FolderRemoval(s, id, archive) == RemoveFrom(ListOf(s, FolderRows), id, archive, FolderRows)
    ensures SearchRemoval(s, id, archive) == RemoveFrom(ListOf(s, SearchRows), id, archive, SearchRows)
    ensures ListOf(WithoutRows(s, id, archive), FolderRows) == FolderRemoval(s, id, archive).kept
    ensures ListOf(WithoutRows(s, id, archive), SearchRows) == SearchRemoval(s, id, archive).kept
  {
  }

  lemma TakenSplits(s: State, id: MessageId, archive: bool)
    requires Listed(s)
    ensures Split(TakenRows(s, id, archive), FolderRemoval(s, id, archive).removed,
                  SearchRemoval(s, id, archive).removed)
    ensures forall r <- TakenRows(s, id, archive) :: r.message.id == id
  {
    hide RemoveFrom;
    Taken(s, id, archive);
    RemovalKeepsOthers(ListOf(s, FolderRows), id, archive, FolderRows);
    RemovalKeepsOthers(ListOf(s, SearchRows), id, archive, SearchRows);
    AtMostOne(ListOf(s, FolderRows), id, archive, FolderRows);
    AtMostOne(ListOf(s, SearchRows), id, archive, SearchRows);
  }

  lemma AtMostOne(rows: Rows, id: MessageId, archive: bool, view: RowView)
    requires DistinctIds(rows)
    ensures |RemoveFrom(rows, id, archive, view).removed| <= 1
  {
    hide RemoveFrom, DistinctIds;
    var i := RemovesOne(rows, id, archive, view);
  }

  /** The rows a new pending change holds back join those held back already. */
  lemma MoreOutstanding(s: State, t: State, key: Key, view: RowView, desk: Desk, f: seq<Removed>, g: seq<Removed>)
    requires OnDesk(s, view, desk) && key !in s.pending
    requires key in t.pending && t.pending == s.pending[key := t.pending[key]]
    requires t.pending[key].previous.TookRows? && Split(t.pending[key].previous.rows, f, g)
    ensures var mine := if view == FolderRows then f else g;
            forall r :: r in mine + desk.out <==> Outstanding(t.pending, view, r)
  {
    var mine := if view == FolderRows then f else g;
    forall r ensures r in mine + desk.out <==> Outstanding(t.pending, view, r) {
      if r in mine {
        assert HeldBack(t.pending[key], view, r);
      }
      if r in desk.out {
        var other :| other in s.pending && HeldBack(s.pending[other], view, r);
        assert HeldBack(t.pending[other], view, r);
      }
      if Outstanding(t.pending, view, r) {
        var other :| other in t.pending && HeldBack(t.pending[other], view, r);
        if other != key { assert HeldBack(s.pending[other], view, r); }
      }
    }
  }

  // ----- one refusal -----

  /** Settling a change takes its own rows off those held back, and no other change's. */
  lemma OutstandingLess(s: State, key: Key, view: RowView)
    requires MovesOnly(s) && key in s.pending
    ensures forall r ::
              Outstanding(s.pending - {key}, view, r) <==> Outstanding(s.pending, view, r) && r.message.id != key.id
  {
    var left := s.pending - {key};
    forall r ensures Outstanding(left, view, r) <==> Outstanding(s.pending, view, r) && r.message.id != key.id {
      if Outstanding(left, view, r) {
        var other :| other in left && HeldBack(left[other], view, r);
        assert HeldBack(s.pending[other], view, r) && other.id != key.id;
      }
      if Outstanding(s.pending, view, r) && r.message.id != key.id {
        var other :| other in s.pending && HeldBack(s.pending[other], view, r);
        assert HeldBack(left[other], view, r);
      }
    }
  }

  lemma WithoutOne(out: seq<Removed>, at: nat)
    requires ApartIds(out) && at < |out|
    ensures forall r :: r in out[..at] + out[at + 1..] <==> r in out && r.message.id != out[at].message.id
  {
    var rest := out[..at] + out[at + 1..];
    assert out == out[..at] + [out[at]] + out[at + 1..];
    assert forall k | 0 <= k < |rest| :: rest[k] == out[if k < at then k else k + 1];
  }

  /** Nothing of an untouched view is held back by the change. */
  lemma NoneOfView(s: State, key: Key, view: RowView, f: seq<Removed>, g: seq<Removed>)
    requires MovesOnly(s) && key in s.pending
    requires Split(s.pending[key].previous.rows, f, g) && (if view == FolderRows then f else g) == []
    ensures forall r | Outstanding(s.pending, view, r) :: r.message.id != key.id
  {
    forall r | Outstanding(s.pending, view, r) ensures r.message.id != key.id {
      var other :| other in s.pending && HeldBack(s.pending[other], view, r);
      assert other != key;
    }
  }

  lemma WithParts(s: State, rows: seq<Removed>, f: seq<Removed>, g: seq<Removed>)
    requires Split(rows, f, g) && (s.mailbox.None? ==> f == []) && (s.results.None? ==> g == [])
    ensures var t := WithRows(s, rows);
            && t == s.(mailbox := t.mailbox, results := t.results)
            && t.mailbox.Some? == s.mailbox.Some? && t.results.Some? == s.results.Some?
            && ListOf(t, FolderRows) == RestoreInto(ListOf(s, FolderRows), f)
            && ListOf(t, SearchRows) == RestoreInto(ListOf(s, SearchRows), g)
  {
    hide WithRows, RestoreInto;
    WithRowsFrame(s, s, rows);
    WithRowsAppend(s, f, g);
    WithFolderRows(s, f);
    WithSearchRows(WithRows(s, f), g);
    RestoreNothing(ListOf(s, FolderRows));
    RestoreNothing(ListOf(s, SearchRows));
  }

  lemma RestoreNothing(rows: Rows)
    ensures RestoreInto(rows, []) == rows
  {
  }

  // ----- a step, on both lists -----

  /** One list with its desk. */
  ghost predicate Balanced(s: State, start: State, view: RowView, desk: Desk, keep: MessageSummary -> bool) {
    OnDesk(s, view, desk) && Accounted(ListOf(start, view), desk) && OrderKept(ListOf(start, view), desk, keep)
  }

  ghost predicate Steady(s: State, start: State) {
    && MovesOnly(s) && WellNumbered(s) && NoInverse(s)
    && s.mailbox.Some? == start.mailbox.Some? && s.results.Some? == start.results.Some?
  }

  lemma BalancedListed(s: State, start: State, folder: Desk, search: Desk, keep: MessageSummary -> bool)
    requires Balanced(s, start, FolderRows, folder, keep) && Balanced(s, start, SearchRows, search, keep)
    ensures Listed(s)
  {
    hide DistinctIds, Filter;
  }

  lemma MoveOnList(s: State, start: State, t: State, key: Key, archive: bool, view: RowView, desk: Desk,
                   keep: MessageSummary -> bool, f: seq<Removed>, g: seq<Removed>)
    requires Balanced(s, start, view, desk, keep) && key !in s.pending
    requires key in t.pending && t.pending == s.pending[key := t.pending[key]]
    requires t.pending[key].previous.TookRows? && Split(t.pending[key].previous.rows, f, g)
    requires var removal := RemoveFrom(ListOf(s, view), key.id, archive, view);
             ListOf(t, view) == removal.kept && (if view == FolderRows then f else g) == removal.removed
    requires forall row :: keep(row) ==> !ShouldRemove(row, key.id, archive)
    ensures Balanced(t, start, view, StepDesk(desk, TakeOut(key.id, archive), view), keep)
  {
    hide RemoveFrom, DistinctIds, Filter, ApartIds, NoneHeld;
    TakeOutKeeps(ListOf(start, view), desk, TakeOut(key.id, archive), view, keep);
    MoreOutstanding(s, t, key, view, desk, f, g);
  }

  lemma RefusalOnList(s: State, start: State, t: State, key: Key, view: RowView, desk: Desk,
                      keep: MessageSummary -> bool, f: seq<Removed>, g: seq<Removed>) returns (next: Desk)
    requires Balanced(s, start, view, desk, keep) && MovesOnly(s) && key in s.pending && t.pending == s.pending - {key}
    requires Split(s.pending[key].previous.rows, f, g)
    requires ListOf(t, view) == RestoreInto(ListOf(s, view), if view == FolderRows then f else g)
    ensures Balanced(t, start, view, next, keep)
  {
    hide DistinctIds, Filter, RestoreOne, NoneHeld, MovesOnly;
    var mine := if view == FolderRows then f else g;
    if mine == [] {
      next := desk;
      NoneOfView(s, key, view, f, g);
      OutstandingLess(s, key, view);
    } else {
      var r := mine[0];
      assert mine == [r] && r in mine && HeldBack(s.pending[key], view, r) by { HeldHere(s, key, view, f, g); }
      assert Outstanding(s.pending, view, r);
      var at :| 0 <= at < |desk.out| && desk.out[at] == r;
      next := StepDesk(desk, Reinstate(at), view);
      ReinstateKeeps(ListOf(start, view), desk, Reinstate(at), view, keep);
      OutstandingLess(s, key, view);
      WithoutOne(desk.out, at);
      assert r.message.id == key.id by { OwnRow(s, key, view, f, g); }
      OneRestored(ListOf(s, view), r);
    }
  }

  lemma OwnRow(s: State, key: Key, view: RowView, f: seq<Removed>, g: seq<Removed>)
    requires MovesOnly(s) && key in s.pending && Split(s.pending[key].previous.rows, f, g)
    ensures forall r <- (if view == FolderRows then f else g) :: r.message.id == key.id
  {
  }

  lemma HeldHere(s: State, key: Key, view: RowView, f: seq<Removed>, g: seq<Removed>)
    requires MovesOnly(s) && key in s.pending && Split(s.pending[key].previous.rows, f, g)
    ensures forall r <- (if view == FolderRows then f else g) :: HeldBack(s.pending[key], view, r)
  {
  }

  /** What the moves of a run may take out of a list. */
  predicate Takes(s: State, trip: Trip, row: MessageSummary) {
    trip.Move? &&
    var sent := Mutate(s, trip.selection, trip.action).sent;
    sent != [] && ShouldRemove(row, sent[0].id, sent[0].mutation.Archive?)
  }

  lemma MoveStep(s: State, start: State, trip: Trip, folder: Desk, search: Desk, keep: MessageSummary -> bool)
    returns (folder': Desk, search': Desk)
    requires Steady(s, start) && trip.Move? && IsMove(trip.action)
    requires Balanced(s, start, FolderRows, folder, keep) && Balanced(s, start, SearchRows, search, keep)
    requires forall row :: keep(row) ==> !Takes(s, trip, row)
    ensures Steady(StepTrip(s, trip), start) && StepTrip(s, trip).selected == s.selected
    ensures Balanced(StepTrip(s, trip), start, FolderRows, folder', keep)
    ensures Balanced(StepTrip(s, trip), start, SearchRows, search', keep)
  {
    hide Mutate, WithoutRows, TakenRows, Balanced, ShouldRemove, RemoveFrom;
    var turn := Mutate(s, trip.selection, trip.action);
    if turn.sent == [] {
      folder', search' := folder, search;
      RefusedRequest(s, trip.selection, trip.action);
    } else {
      var t, c := turn.state, turn.sent[0];
      var key, archive := Key(c.id, InboxDimension), c.mutation.Archive?;
      MoveShape(s, trip.selection, trip.action);
      BalancedListed(s, start, folder, search, keep);
      Taken(s, c.id, archive);
      TakenSplits(s, c.id, archive);
      MoveKeepsNumbers(s, key, t.pending[key]);
      WithoutFrame(s, c.id, archive);
      WithoutPresence(s, c.id, archive);
      var f, g := FolderRemoval(s, c.id, archive).removed, SearchRemoval(s, c.id, archive).removed;
      assert forall row :: keep(row) ==> !ShouldRemove(row, key.id, archive) by {
        forall row | keep(row) ensures !ShouldRemove(row, key.id, archive) {
          assert !Takes(s, trip, row);
        }
      }
      SameLists(WithoutRows(s, c.id, archive), t);
      MoveOnList(s, start, t, key, archive, FolderRows, folder, keep, f, g);
      MoveOnList(s, start, t, key, archive, SearchRows, search, keep, f, g);
      folder' := StepDesk(folder, TakeOut(key.id, archive), FolderRows);
      search' := StepDesk(search, TakeOut(key.id, archive), SearchRows);
    }
  }

  lemma WithoutPresence(s: State, id: MessageId, archive: bool)
    ensures WithoutRows(s, id, archive).mailbox.Some? == s.mailbox.Some?
    ensures WithoutRows(s, id, archive).results.Some? == s.results.Some?
  {
  }

  lemma SameLists(s: State, t: State)
    requires s.mailbox == t.mailbox && s.results == t.results
    ensures forall view :: ListOf(s, view) == ListOf(t, view)
  {
  }

  /** Only rows that once stood in a list are held back from it. */
  lemma HeldWereListed(s: State, start: State, view: RowView, desk: Desk, keep: MessageSummary -> bool, key: Key,
                       f: seq<Removed>, g: seq<Removed>)
    requires Balanced(s, start, view, desk, keep) && MovesOnly(s)
    requires key in s.pending && Split(s.pending[key].previous.rows, f, g)
    ensures (if view == FolderRows then f else g) != [] ==> ListOf(start, view) != []
  {
    hide DistinctIds, Filter, NoneHeld, ApartIds;
    var mine := if view == FolderRows then f else g;
    if mine != [] {
      HeldHere(s, key, view, f, g);
      assert HeldBack(s.pending[key], view, mine[0]);
      assert mine[0] in desk.out;
      assert Names(desk.out, mine[0].message);
      assert mine[0].message in ListOf(start, view);
    }
  }

  lemma RefusalShape(s: State, start: State, request: nat, id: MessageId)
    requires Steady(s, start)
    ensures var t := Finish(s, request, s.generation, id, Failed(false)).state;
            match KeyOf(s.pending, request, id)
            case None => t == s
            case Some(key) =>
              && key in s.pending && t.pending == s.pending - {key} && NoInverse(t)
              && t == WithRows(s.(pending := t.pending, undo := t.undo), s.pending[key].previous.rows)
  {
    hide WithRows, KeyOf, WellNumbered;
    var key := KeyOf(s.pending, request, id);
    if key.Some? {
      var rest := s.(pending := s.pending - {key.value});
      WithRowsFrame(rest, rest, s.pending[key.value].previous.rows);
      WithRowsFrame(rest, rest.(undo := None), s.pending[key.value].previous.rows);
    }
  }

  lemma RefusalStep(s: State, start: State, trip: Trip, folder: Desk, search: Desk, keep: MessageSummary -> bool)
    returns (folder': Desk, search': Desk)
    requires Steady(s, start) && trip.Refusal?
    requires Balanced(s, start, FolderRows, folder, keep) && Balanced(s, start, SearchRows, search, keep)
    ensures Steady(StepTrip(s, trip), start) && StepTrip(s, trip).selected == s.selected
    ensures Balanced(StepTrip(s, trip), start, FolderRows, folder', keep)
    ensures Balanced(StepTrip(s, trip), start, SearchRows, search', keep)
  {
    hide Finish, WithRows, Balanced, KeyOf;
    RefusalShape(s, start, trip.request, trip.id);
    var found := KeyOf(s.pending, trip.request, trip.id);
    var t := StepTrip(s, trip);
    if found.None? {
      folder', search' := folder, search;
    } else {
      var key := found.value;
      var f, g :| Split(s.pending[key].previous.rows, f, g);
      HeldWereListed(s, start, FolderRows, folder, keep, key, f, g);
      HeldWereListed(s, start, SearchRows, search, keep, key, f, g);
      var rest := s.(pending := t.pending, undo := t.undo);
      WithParts(rest, s.pending[key].previous.rows, f, g);
      SameLists(s, rest);
      folder' := RefusalOnList(s, start, t, key, FolderRows, folder, keep, f, g);
      search' := RefusalOnList(s, start, t, key, SearchRows, search, keep, f, g);
    }
  }

  // ----- whole runs -----

  /** The rows `keep` picks are taken by no move of the run. */
  ghost predicate NeverTaken(s: State, trips: seq<Trip>, keep: MessageSummary -> bool) {
    forall i, row | 0 <= i < |trips| && keep(row) :: !Takes(RunTrips(s, trips[..i]), trips[i], row)
  }

  lemma {:induction false} RunBalanced(s: State, trips: seq<Trip>, keep: MessageSummary -> bool)
    returns (folder: Desk, search: Desk)
    requires Listed(s) && s.pending == map[] && s.undo == None
    requires forall trip <- trips :: trip.Move? ==> IsMove(trip.action)
    requires NeverTaken(s, trips, keep)
    ensures Steady(RunTrips(s, trips), s)
    ensures Balanced(RunTrips(s, trips), s, FolderRows, folder, keep)
    ensures Balanced(RunTrips(s, trips), s, SearchRows, search, keep)
  {
    hide StepTrip, Takes, Filter, DistinctIds;
    if trips == [] {
      folder, search := Desk(ListOf(s, FolderRows), []), Desk(ListOf(s, SearchRows), []);
      AtStart(s, FolderRows, keep);
      AtStart(s, SearchRows, keep);
    } else {
      hide Balanced, Steady;
      var front, last := trips[..|trips| - 1], trips[|trips| - 1];
      assert last in trips && forall trip <- front :: trip in trips;
      forall i, row | 0 <= i < |front| && keep(row) ensures !Takes(RunTrips(s, front[..i]), front[i], row) {
        assert front[..i] == trips[..i];
      }
      folder, search := RunBalanced(s, front, keep);
      if last.Move? {
        folder, search := MoveStep(RunTrips(s, front), s, last, folder, search, keep);
      } else {
        folder, search := RefusalStep(RunTrips(s, front), s, last, folder, search, keep);
      }
    }
  }

  lemma AtStart(s: State, view: RowView, keep: MessageSummary -> bool)
    requires Listed(s) && s.pending == map[]
    ensures Balanced(s, s, view, Desk(ListOf(s, view), []), keep)
  {
    hide Filter;
  }

  /** Any run of archives and trashes with refusals in any order among them, stale ones included: in both
      lists no row is lost or doubled, a missing one is held back by a change still pending, the rows no
      move took keep their order, and once nothing is pending the original rows are back. */
  lemma RefusedInAnyOrder(s: State, trips: seq<Trip>, keep: MessageSummary -> bool, view: RowView)
    requires Listed(s) && s.pending == map[] && s.undo == None
    requires forall trip <- trips :: trip.Move? ==> IsMove(trip.action)
    requires NeverTaken(s, trips, keep)
    ensures var end := RunTrips(s, trips);
            var before, now := ListOf(s, view), ListOf(end, view);
            && DistinctIds(now)
            && (forall row :: row in before <==>
                  row in now || exists r :: Outstanding(end.pending, view, r) && r.message == row)
            && Filter(now, keep) == Filter(before, keep)
            && (end.pending == map[] ==> |now| == |before| && forall row :: row in now <==> row in before)
  {
    hide DistinctIds, Filter, RunTrips, NeverTaken, ApartIds, NoneHeld;
    var folder, search := RunBalanced(s, trips, keep);
    var end := RunTrips(s, trips);
    var desk := if view == FolderRows then folder else search;
    assert Balanced(end, s, view, desk, keep);
    var before, now := ListOf(s, view), ListOf(end, view);
    forall row
      ensures row in before <==> row in now || exists r :: Outstanding(end.pending, view, r) && r.message == row
    {
      if Names(desk.out, row) {
        var r :| r in desk.out && r.message == row;
        assert Outstanding(end.pending, view, r);
      }
      if r :| Outstanding(end.pending, view, r) && r.message == row {
        assert r in desk.out;
      }
    }
    if end.pending == map[] {
      assert forall r :: !Outstanding(end.pending, view, r);
      StartDistinct(s, view);
      SameLength(now, before);
    }
  }

  lemma StartDistinct(s: State, view: RowView)
    requires Listed(s)
    ensures DistinctIds(ListOf(s, view))
  {
  }
}
