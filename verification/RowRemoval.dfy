/** Taking a message's rows off the screen and putting them back (src/state.rs, `remove_from_views`
    and `restore_removed_rows`), one list at a time. */
module RowRemoval {
  import opened Results
  import opened Sorting
  import opened MessageIds
  import opened Mail
  import opened FolderStore

  datatype RowView = FolderRows | SearchRows

  /** A row taken out of a view, and the place it had when it was taken. */
  datatype Removed = Removed(view: RowView, message: MessageSummary, index: nat)

  datatype Removal = Removal(kept: Rows, removed: seq<Removed>)

  predicate ShouldRemove(row: MessageSummary, id: MessageId, archive: bool) {
    row.id == id && if archive then row.folderId == Inbox else row.folderId != Trash
  }

  /** Removing every ineligible row of a message, first to last. */
  function RemoveFrom(rows: Rows, id: MessageId, archive: bool, view: RowView): Removal {
    if rows == [] then Removal([], [])
    else
      var so := RemoveFrom(rows[..|rows| - 1], id, archive, view);
      var row := rows[|rows| - 1];
      if ShouldRemove(row, id, archive) then Removal(so.kept, so.removed + [Removed(view, row, |so.kept|)])
      else Removal(so.kept + [row], so.removed)
  }

  predicate Holds(rows: Rows, id: MessageId) {
    exists row <- rows :: row.id == id
  }

  function InsertAt(rows: Rows, index: nat, row: MessageSummary): Rows {
    var i := if index < |rows| then index else |rows|;
    rows[..i] + [row] + rows[i..]
  }

  /** A row goes back to its place, or to the end, unless its message is already shown. */
  function RestoreOne(rows: Rows, r: Removed): Rows {
    if Holds(rows, r.message.id) then rows else InsertAt(rows, r.index, r.message)
  }

  function RestoreInto(rows: Rows, removed: seq<Removed>): Rows {
    if removed == [] then rows
    else RestoreOne(RestoreInto(rows, removed[..|removed| - 1]), removed[|removed| - 1])
  }

  // ----- removal -----

  lemma {:induction false} RemovalKeepsOthers(rows: Rows, id: MessageId, archive: bool, view: RowView)
    ensures var r := RemoveFrom(rows, id, archive, view);
            && (forall row <- r.kept :: row in rows && !ShouldRemove(row, id, archive))
            && (forall x <- r.removed :: x.view == view && x.message in rows && x.message.id == id)
  {
    if rows != [] {
      RemovalKeepsOthers(rows[..|rows| - 1], id, archive, view);
      assert rows == rows[..|rows| - 1] + [rows[|rows| - 1]];
    }
  }

  /** Every ineligible row is taken. */
  lemma {:induction false} TakesEligible(rows: Rows, id: MessageId, archive: bool, view: RowView, row: MessageSummary)
    requires row in rows && ShouldRemove(row, id, archive)
    ensures Names(RemoveFrom(rows, id, archive, view).removed, row)
  {
    var front, last := rows[..|rows| - 1], rows[|rows| - 1];
    assert rows == front + [last];
    var so := RemoveFrom(front, id, archive, view);
    if row in front {
      TakesEligible(front, id, archive, view, row);
      var r :| r in so.removed && r.message == row;
      assert r in RemoveFrom(rows, id, archive, view).removed;
    } else {
      assert Removed(view, last, |so.kept|) in RemoveFrom(rows, id, archive, view).removed;
    }
  }

  lemma RemoveFromSnoc(front: Rows, last: MessageSummary, id: MessageId, archive: bool, view: RowView)
    ensures RemoveFrom(front + [last], id, archive, view) ==
            var so := RemoveFrom(front, id, archive, view);
            if ShouldRemove(last, id, archive) then Removal(so.kept, so.removed + [Removed(view, last, |so.kept|)])
            else Removal(so.kept + [last], so.removed)
  {
    assert (front + [last])[..|front|] == front;
  }

  ghost predicate Spared(rows: Rows, id: MessageId, archive: bool) {
    forall row <- rows :: !ShouldRemove(row, id, archive)
  }

  lemma {:induction false} NothingToRemove(rows: Rows, id: MessageId, archive: bool, view: RowView)
    requires Spared(rows, id, archive)
    ensures RemoveFrom(rows, id, archive, view) == Removal(rows, [])
  {
    if rows != [] {
      var front := rows[..|rows| - 1];
      assert rows == front + [rows[|rows| - 1]];
      NothingToRemove(front, id, archive, view);
    }
  }

  lemma {:induction false} RemovalAt(before: Rows, row: MessageSummary, after: Rows, id: MessageId, archive: bool,
                                     view: RowView)
    requires ShouldRemove(row, id, archive) && Spared(before, id, archive) && Spared(after, id, archive)
    ensures RemoveFrom(before + [row] + after, id, archive, view)
         == Removal(before + after, [Removed(view, row, |before|)])
  {
    hide RemoveFrom, ShouldRemove;
    if after == [] {
      assert before + [row] + after == before + [row] && before + after == before;
      NothingToRemove(before, id, archive, view);
      RemoveFromSnoc(before, row, id, archive, view);
    } else {
      var front, last := after[..|after| - 1], after[|after| - 1];
      assert last in after;
      RemovalAt(before, row, front, id, archive, view);
      assert before + [row] + after == (before + [row] + front) + [last];
      RemoveFromSnoc(before + [row] + front, last, id, archive, view);
      assert before + after == before + front + [last];
    }
  }

  lemma ElsewhereSpared(rows: Rows, i: nat, archive: bool)
    requires DistinctIds(rows) && i < |rows|
    ensures Spared(rows[..i], rows[i].id, archive) && Spared(rows[i + 1..], rows[i].id, archive)
  {
    forall row <- rows[..i] ensures row.id != rows[i].id {
      var k :| 0 <= k < i && rows[k] == row;
    }
    forall row <- rows[i + 1..] ensures row.id != rows[i].id {
      var k :| i < k < |rows| && rows[k] == row;
    }
  }

  /** Among distinct ids a removal takes out at most one row, at its own place. */
  lemma RemovesOne(rows: Rows, id: MessageId, archive: bool, view: RowView) returns (i: nat)
    requires DistinctIds(rows)
    ensures i <= |rows|
    ensures i == |rows| ==> RemoveFrom(rows, id, archive, view) == Removal(rows, [])
    ensures i < |rows| ==>
              ShouldRemove(rows[i], id, archive)
              && RemoveFrom(rows, id, archive, view) == Removal(rows[..i] + rows[i + 1..], [Removed(view, rows[i], i)])
  {
    hide RemoveFrom, DistinctIds;
    if Spared(rows, id, archive) {
      i := |rows|;
      NothingToRemove(rows, id, archive, view);
    } else {
      var row :| row in rows && ShouldRemove(row, id, archive);
      i :| 0 <= i < |rows| && rows[i] == row;
      ElsewhereSpared(rows, i, archive);
      assert rows == rows[..i] + [row] + rows[i + 1..];
      RemovalAt(rows[..i], row, rows[i + 1..], id, archive, view);
    }
  }

  // ----- putting back -----

  /** A row put back among others of different ids keeps the ids distinct. */
  lemma InsertedDistinct(rows: Rows, index: nat, row: MessageSummary)
    requires DistinctIds(rows) && !Holds(rows, row.id)
    ensures DistinctIds(InsertAt(rows, index, row))
  {
    var i := if index < |rows| then index else |rows|;
    var all := InsertAt(rows, index, row);
    assert forall k | 0 <= k < |rows| :: rows[k].id != row.id by {
      assert forall k | 0 <= k < |rows| :: rows[k] in rows;
    }
    forall a, b | 0 <= a < b < |all| ensures all[a].id != all[b].id {
      if b < i {
      } else if b == i {
        assert all[a] == rows[a];
      } else {
        assert all[b] == rows[b - 1];
        assert all[a] == if a < i then rows[a] else if a == i then row else rows[a - 1];
      }
    }
  }

  lemma InsertedMembers(rows: Rows, index: nat, row: MessageSummary)
    ensures forall x :: x in InsertAt(rows, index, row) <==> x in rows || x == row
  {
    var i := if index < |rows| then index else |rows|;
    assert rows == rows[..i] + rows[i..];
  }

  lemma InsertedBetween(rows: Rows, index: nat, row: MessageSummary, keep: MessageSummary -> bool)
    requires !keep(row)
    ensures Filter(InsertAt(rows, index, row), keep) == Filter(rows, keep)
  {
    hide Filter;
    var i := if index < |rows| then index else |rows|;
    FilterAppend(rows[..i], rows[i..], keep);
    assert rows == rows[..i] + rows[i..];
    FilterAppend(rows[..i], [row] + rows[i..], keep);
    FilterAppend([row], rows[i..], keep);
    FilterNone([row], keep);
    assert InsertAt(rows, index, row) == rows[..i] + ([row] + rows[i..]);
  }

  lemma ReinsertedInPlace(rows: Rows, i: nat)
    requires DistinctIds(rows) && i < |rows|
    ensures var kept := rows[..i] + rows[i + 1..];
            && DistinctIds(kept) && !Holds(kept, rows[i].id)
            && InsertAt(kept, i, rows[i]) == rows
            && (forall x :: x in rows <==> x in kept || x == rows[i])
  {
    var kept := rows[..i] + rows[i + 1..];
    assert forall k | 0 <= k < |kept| :: kept[k] == rows[if k < i then k else k + 1];
    assert InsertAt(kept, i, rows[i]) == rows;
    InsertedMembers(kept, i, rows[i]);
  }

  lemma OneRestored(rows: Rows, r: Removed)
    ensures RestoreInto(rows, [r]) == RestoreOne(rows, r)
  {
    assert [r][..0] == [];
  }

  /** What one removal took out of a list of distinct ids goes back exactly. */
  lemma RestoreUndoesRemoval(rows: Rows, id: MessageId, archive: bool, view: RowView)
    requires DistinctIds(rows)
    ensures var r := RemoveFrom(rows, id, archive, view); RestoreInto(r.kept, r.removed) == rows
  {
    hide RemoveFrom, InsertAt, DistinctIds;
    var i := RemovesOne(rows, id, archive, view);
    if i < |rows| {
      ReinsertedInPlace(rows, i);
      OneRestored(rows[..i] + rows[i + 1..], Removed(view, rows[i], i));
    }
  }

  lemma RemovalKeepsDistinct(rows: Rows, id: MessageId, archive: bool, view: RowView)
    requires DistinctIds(rows)
    ensures DistinctIds(RemoveFrom(rows, id, archive, view).kept)
  {
    hide RemoveFrom, InsertAt, DistinctIds;
    var i := RemovesOne(rows, id, archive, view);
    if i < |rows| { ReinsertedInPlace(rows, i); }
  }

  /** Removing step by step and then putting back step by step, the last removal first. */
  function RemoveThenRestoreReversed(rows: Rows, steps: seq<(MessageId, bool)>, view: RowView): Rows
    decreases |steps|
  {
    if steps == [] then rows
    else
      var first := RemoveFrom(rows, steps[0].0, steps[0].1, view);
      RestoreInto(RemoveThenRestoreReversed(first.kept, steps[1..], view), first.removed)
  }

  /** Archiving or trashing any messages and rejecting them in reverse order restores the exact list. */
  lemma {:induction false} ReverseRollbackIsExact(rows: Rows, steps: seq<(MessageId, bool)>, view: RowView)
    requires DistinctIds(rows)
    ensures RemoveThenRestoreReversed(rows, steps, view) == rows
    decreases |steps|
  {
    if steps != [] {
      var first := RemoveFrom(rows, steps[0].0, steps[0].1, view);
      RemovalKeepsDistinct(rows, steps[0].0, steps[0].1, view);
      ReverseRollbackIsExact(first.kept, steps[1..], view);
      RestoreUndoesRemoval(rows, steps[0].0, steps[0].1, view);
    }
  }

  ghost predicate ApartIds(removed: seq<Removed>) {
    forall i, j | 0 <= i < j < |removed| :: removed[i].message.id != removed[j].message.id
  }

  predicate Names(removed: seq<Removed>, row: MessageSummary) {
    exists r <- removed :: r.message == row
  }

  ghost predicate NoneHeld(rows: Rows, removed: seq<Removed>) {
    forall r <- removed :: !Holds(rows, r.message.id)
  }

  lemma OneMore(r: Removed, removed: seq<Removed>, kept: Rows)
    requires ApartIds(removed) && NoneHeld(kept, removed) && !Holds(kept, r.message.id)
    requires forall other <- removed :: other.message.id != r.message.id
    ensures ApartIds([r] + removed) && NoneHeld(kept, [r] + removed)
    ensures forall x :: Names([r] + removed, x) <==> x == r.message || Names(removed, x)
  {
    forall x ensures Names([r] + removed, x) <==> x == r.message || Names(removed, x) {
      if x == r.message { assert r in [r] + removed; }
      if Names(removed, x) {
        var other :| other in removed && other.message == x;
        assert other in [r] + removed;
      }
    }
  }

  lemma OneLess(removed: seq<Removed>, at: nat, kept: Rows)
    requires at < |removed| && ApartIds(removed) && NoneHeld(kept, removed)
    ensures var rest := removed[..at] + removed[at + 1..];
            && ApartIds(rest) && NoneHeld(kept, rest)
            && (forall r <- rest :: r.message.id != removed[at].message.id)
            && (forall x :: Names(removed, x) <==> x == removed[at].message || Names(rest, x))
  {
    var rest := removed[..at] + removed[at + 1..];
    assert forall k | 0 <= k < |rest| :: rest[k] == removed[if k < at then k else k + 1];
    forall r <- rest ensures r in removed && r.message.id != removed[at].message.id {
      var k :| 0 <= k < |rest| && rest[k] == r;
    }
    assert removed == removed[..at] + [removed[at]] + removed[at + 1..];
    forall x ensures Names(removed, x) <==> x == removed[at].message || Names(rest, x) {
      if Names(removed, x) {
        var r :| r in removed && r.message == x;
        assert r == removed[at] || r in rest;
      }
    }
  }

  lemma StillApart(rows: Rows, index: nat, r: Removed, rest: seq<Removed>)
    requires NoneHeld(rows, rest) && forall other <- rest :: other.message.id != r.message.id
    ensures NoneHeld(InsertAt(rows, index, r.message), rest)
  {
    InsertedMembers(rows, index, r.message);
  }

  // ----- removals and rejections in any order -----

  datatype Step = TakeOut(id: MessageId, archive: bool) | Reinstate(at: nat)

  /** A list on screen and the rows taken from it whose changes are still undecided. */
  datatype Desk = Desk(rows: Rows, out: seq<Removed>)

  function StepDesk(desk: Desk, step: Step, view: RowView): Desk {
    match step
    case TakeOut(id, archive) =>
      var r := RemoveFrom(desk.rows, id, archive, view);
      Desk(r.kept, r.removed + desk.out)
    case Reinstate(at) =>
      if at < |desk.out| then Desk(RestoreOne(desk.rows, desk.out[at]), desk.out[..at] + desk.out[at + 1..]) else desk
  }

  function RunDesk(rows: Rows, steps: seq<Step>, view: RowView): Desk {
    if steps == [] then Desk(rows, [])
    else StepDesk(RunDesk(rows, steps[..|steps| - 1], view), steps[|steps| - 1], view)
  }

  ghost predicate Accounted(rows: Rows, desk: Desk) {
    && DistinctIds(desk.rows) && ApartIds(desk.out) && NoneHeld(desk.rows, desk.out)
    && forall x :: x in rows <==> x in desk.rows || Names(desk.out, x)
  }

  /** The rows no removal of the run takes out. */
  function Untouched(steps: seq<Step>): MessageSummary -> bool {
    (row: MessageSummary) => forall step <- steps :: !(step.TakeOut? && ShouldRemove(row, step.id, step.archive))
  }

  ghost predicate OrderKept(rows: Rows, desk: Desk, keep: MessageSummary -> bool) {
    && Filter(desk.rows, keep) == Filter(rows, keep)
    && forall r <- desk.out :: !keep(r.message)
  }

  lemma TakeOutKeeps(rows: Rows, desk: Desk, step: Step, view: RowView, keep: MessageSummary -> bool)
    requires step.TakeOut? && Accounted(rows, desk) && OrderKept(rows, desk, keep)
    requires forall row :: keep(row) ==> !ShouldRemove(row, step.id, step.archive)
    ensures Accounted(rows, StepDesk(desk, step, view)) && OrderKept(rows, StepDesk(desk, step, view), keep)
  {
    hide RemoveFrom, InsertAt, DistinctIds, Filter, ApartIds, NoneHeld;
    var i := RemovesOne(desk.rows, step.id, step.archive, view);
    if i < |desk.rows| {
      var row := desk.rows[i];
      var kept := desk.rows[..i] + desk.rows[i + 1..];
      ReinsertedInPlace(desk.rows, i);
      NoneHeldFewer(desk.rows, kept, desk.out);
      NoneHeldThere(desk.rows, row, desk.out);
      OneMore(Removed(view, row, i), desk.out, kept);
      InsertedBetween(kept, i, row, keep);
    } else {
      assert [] + desk.out == desk.out;
    }
  }

  lemma ReinstateKeeps(rows: Rows, desk: Desk, step: Step, view: RowView, keep: MessageSummary -> bool)
    requires step.Reinstate? && Accounted(rows, desk) && OrderKept(rows, desk, keep)
    ensures Accounted(rows, StepDesk(desk, step, view)) && OrderKept(rows, StepDesk(desk, step, view), keep)
  {
    hide InsertAt, DistinctIds, Filter, ApartIds;
    if step.at < |desk.out| {
      var r := desk.out[step.at];
      OneLess(desk.out, step.at, desk.rows);
      assert !Holds(desk.rows, r.message.id);
      InsertedDistinct(desk.rows, r.index, r.message);
      InsertedMembers(desk.rows, r.index, r.message);
      InsertedBetween(desk.rows, r.index, r.message, keep);
      StillApart(desk.rows, r.index, r, desk.out[..step.at] + desk.out[step.at + 1..]);
    }
  }

  lemma NoneHeldFewer(rows: Rows, kept: Rows, removed: seq<Removed>)
    requires NoneHeld(rows, removed) && forall row <- kept :: row in rows
    ensures NoneHeld(kept, removed)
  {
  }

  lemma NoneHeldThere(rows: Rows, row: MessageSummary, removed: seq<Removed>)
    requires NoneHeld(rows, removed) && row in rows
    ensures forall r <- removed :: r.message.id != row.id
  {
  }

  lemma {:induction false} RunKeeps(rows: Rows, steps: seq<Step>, view: RowView, keep: MessageSummary -> bool)
    requires DistinctIds(rows)
    requires forall row, step | step in steps && step.TakeOut? && keep(row) :: !ShouldRemove(row, step.id, step.archive)
    ensures Accounted(rows, RunDesk(rows, steps, view)) && OrderKept(rows, RunDesk(rows, steps, view), keep)
  {
    hide StepDesk;
    if steps != [] {
      var front, last := steps[..|steps| - 1], steps[|steps| - 1];
      assert last in steps && forall step <- front :: step in steps;
      RunKeeps(rows, front, view, keep);
      if last.TakeOut? {
        TakeOutKeeps(rows, RunDesk(rows, front, view), last, view, keep);
      } else {
        ReinstateKeeps(rows, RunDesk(rows, front, view), last, view, keep);
      }
    }
  }

  /** Removals and rejections interleaved in any order: no row is lost or doubled, the rows no removal
      took keep their order, and once every removal was rejected the original rows are back. */
  lemma RollbackInAnyOrder(rows: Rows, steps: seq<Step>, view: RowView)
    requires DistinctIds(rows)
    ensures var desk := RunDesk(rows, steps, view);
            && DistinctIds(desk.rows)
            && (forall x :: x in rows <==> x in desk.rows || Names(desk.out, x))
            && Filter(desk.rows, Untouched(steps)) == Filter(rows, Untouched(steps))
            && (desk.out == [] ==> |desk.rows| == |rows| && forall x :: x in desk.rows <==> x in rows)
  {
    RunKeeps(rows, steps, view, Untouched(steps));
    if RunDesk(rows, steps, view).out == [] {
      SameLength(RunDesk(rows, steps, view).rows, rows);
    }
  }

  lemma SameLength(a: Rows, b: Rows)
    requires DistinctIds(a) && DistinctIds(b) && forall x :: x in a <==> x in b
    ensures |a| == |b|
  {
    DistinctLength(a);
    DistinctLength(b);
    assert Elements(a) == Elements(b);
  }

  /** Restoring twice is restoring once. */
  lemma {:induction false} RestoreTwice(rows: Rows, removed: seq<Removed>)
    ensures RestoreInto(RestoreInto(rows, removed), removed) == RestoreInto(rows, removed)
  {
    RestoredHold(rows, removed);
    AllHeld(RestoreInto(rows, removed), removed);
  }

  lemma {:induction false} RestoredHold(rows: Rows, removed: seq<Removed>)
    ensures forall r <- removed :: Holds(RestoreInto(rows, removed), r.message.id)
    ensures forall id :: Holds(rows, id) ==> Holds(RestoreInto(rows, removed), id)
  {
    if removed != [] {
      var front, last := removed[..|removed| - 1], removed[|removed| - 1];
      RestoredHold(rows, front);
      var mid := RestoreInto(rows, front);
      HeldAfterOne(mid, last);
      forall r <- removed ensures Holds(RestoreInto(rows, removed), r.message.id) {
        assert r in front || r == last;
      }
    }
  }

  lemma HeldAfterOne(rows: Rows, r: Removed)
    ensures Holds(RestoreOne(rows, r), r.message.id)
    ensures forall id :: Holds(rows, id) ==> Holds(RestoreOne(rows, r), id)
  {
    var all := RestoreOne(rows, r);
    if !Holds(rows, r.message.id) {
      var i := if r.index < |rows| then r.index else |rows|;
      assert all[i] == r.message;
      forall id | Holds(rows, id) ensures Holds(all, id) {
        var k :| 0 <= k < |rows| && rows[k].id == id;
        assert all[if k < i then k else k + 1] == rows[k];
      }
    }
  }

  lemma {:induction false} AllHeld(rows: Rows, removed: seq<Removed>)
    requires forall r <- removed :: Holds(rows, r.message.id)
    ensures RestoreInto(rows, removed) == rows
  {
    if removed != [] {
      var front := removed[..|removed| - 1];
      assert forall r <- front :: r in removed;
      AllHeld(rows, front);
    }
  }
}
