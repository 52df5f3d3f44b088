/** The marker-based cleanup that separates one account's cached mail from the next (src/cache.rs).

    The disk is a record of artifacts, each with the accounts whose data it holds. Every operation is
    a row of atomic steps; it may stop before any of them, inside a directory removal, or be resumed
    any number of times. Accounts are addresses compared without regard to ASCII case. */
module AccountSwitch {
  import opened Results

  type Account = string

  /** The mailbox index: whose it is, and whether it still parses. */
  datatype Index = Index(owner: Account, readable: bool)

  datatype Place = IndexV2 | IndexV1 | Bodies | LegacyBodies | Attachments

  datatype Disk = Disk(marker: bool, index: Option<Index>, data: map<Place, set<Account>>)

  function At(d: Disk, p: Place): set<Account> {
    if p in d.data then d.data[p] else {}
  }

  datatype Step =
    | WriteMarker
    | RemoveMarker
    | WriteIndex(owner: Account)
    | RemoveIndex
    | Remove(place: Place)
    | Add(to: Place, who: Account)
    | KeepOnly(from: Place, keeper: Account)

  function Perform(d: Disk, s: Step): Disk {
    match s
    case WriteMarker => d.(marker := true)
    case RemoveMarker => d.(marker := false)
    case WriteIndex(owner) => d.(index := Some(Index(owner, true)))
    case RemoveIndex => d.(index := None)
    case Remove(place) => d.(data := d.data[place := {}])
    case Add(place, who) => d.(data := d.data[place := At(d, place) + {who}])
    case KeepOnly(place, keeper) => d.(data := d.data[place := At(d, place) * {keeper}])
  }

  /** A directory removal or sweep that stops halfway has removed the data of `gone` at most in part. */
  function PerformPart(d: Disk, s: Step, gone: set<Account>): Disk {
    match s
    case Remove(place) => d.(data := d.data[place := At(d, place) - gone])
    case KeepOnly(place, keeper) => d.(data := d.data[place := At(d, place) - (gone - {keeper})])
    case _ => d
  }

  function PerformAll(d: Disk, steps: seq<Step>): Disk {
    if steps == [] then d else Perform(PerformAll(d, steps[..|steps| - 1]), steps[|steps| - 1])
  }

  /** The stages of the cleanup: the indexes, the body caches, the attachments, then the marker. */
  const CLEANUP: seq<Step> := [
    RemoveIndex, Remove(IndexV2), Remove(IndexV1),
    Remove(Bodies), Remove(LegacyBodies), Remove(Attachments), RemoveMarker]

  function ResumeSteps(d: Disk): seq<Step> {
    if d.marker then CLEANUP else []
  }

  /** The account of an index that can be read. */
  function Previous(d: Disk): Option<Account> {
    if d.index.Some? && d.index.value.readable then Some(d.index.value.owner) else None
  }

  function SwitchSteps(d: Disk, account: Account): seq<Step> {
    if Previous(d).Some? && Previous(d).value != account then [WriteMarker] + CLEANUP else []
  }

  function PrepareSteps(d: Disk, account: Account): seq<Step> {
    ResumeSteps(d) + SwitchSteps(PerformAll(d, ResumeSteps(d)), account)
  }

  function CommitSteps(account: Account): seq<Step> {
    [WriteIndex(account), Remove(IndexV1), Remove(IndexV2), Remove(LegacyBodies), KeepOnly(Bodies, account)]
  }

  /** `valid` says whether the record to be written passes validation. */
  function ReplaceSteps(d: Disk, account: Account, valid: bool): seq<Step> {
    ResumeSteps(d)
    + if valid then SwitchSteps(PerformAll(d, ResumeSteps(d)), account) + CommitSteps(account) else []
  }

  datatype Operation =
    | Prepare(account: Account)
    | Replace(account: Account, valid: bool)
    | Rewrite                     // a touch, a prune or a confirmed mutation of the index
    | SaveBody(account: Account)
    | SaveAttachment(account: Account)
    | ClearBodies
    | ClearAllMail

  function StepsOf(d: Disk, op: Operation): seq<Step> {
    match op
    case Prepare(account) => PrepareSteps(d, account)
    case Replace(account, valid) => ReplaceSteps(d, account, valid)
    case Rewrite => if Previous(d).Some? then [WriteIndex(Previous(d).value)] else []
    case SaveBody(account) => [Add(Bodies, account), KeepOnly(Bodies, account)]
    case SaveAttachment(account) => [Add(Attachments, account)]
    case ClearBodies => [Remove(Bodies), Remove(LegacyBodies), Remove(Attachments)]
    case ClearAllMail => CLEANUP
  }

  /** What the mailbox loads can show. */
  function Exposed(d: Disk): Option<Account> {
    if d.marker then None else Previous(d)
  }

  /** The accounts whose bodies a body load can serve: behind the marker none, else those on disk. */
  function ServedBodies(d: Disk): set<Account> {
    if d.marker then {} else At(d, Bodies)
  }

  // ----- the operations, any of whose disk steps may fail -----

  predicate PrefixDone(d0: Disk, steps: seq<Step>, left0: nat, d1: Disk, left1: nat, ok: bool) {
    var k := if left0 < |steps| then left0 else |steps|;
    d1 == PerformAll(d0, steps[..k]) && left1 == left0 - k && (ok <==> left0 >= |steps|)
  }

  lemma {:induction false} PerformAppend(d: Disk, a: seq<Step>, b: seq<Step>)
    ensures PerformAll(d, a + b) == PerformAll(PerformAll(d, a), b)
  {
    if b == [] {
      assert a + b == a;
    } else {
      var front := b[..|b| - 1];
      PerformAppend(d, a, front);
      assert (a + b)[..|a + b| - 1] == a + front;
    }
  }

  lemma PrefixChain(d0: Disk, a: seq<Step>, left0: nat, d1: Disk, left1: nat, ok1: bool,
                    b: seq<Step>, d2: Disk, left2: nat, ok2: bool)
    requires PrefixDone(d0, a, left0, d1, left1, ok1)
    ensures ok1 && PrefixDone(d1, b, left1, d2, left2, ok2) ==> PrefixDone(d0, a + b, left0, d2, left2, ok2)
    ensures !ok1 ==> PrefixDone(d0, a + b, left0, d1, left1, false)
  {
    if ok1 {
      var k := if left1 < |b| then left1 else |b|;
      assert a[..|a|] == a;
      assert (a + b)[..|a| + k] == a + b[..k];
      PerformAppend(d0, a, b[..k]);
    } else {
      assert (a + b)[..left0] == a[..left0];
    }
  }

  lemma OneStep(d: Disk, s: Step)
    ensures PerformAll(d, [s]) == Perform(d, s) && PerformAll(d, []) == d
  {
    assert [s][..0] == [];
  }

  class CacheRoot {
    var disk: Disk
    var stepsLeft: nat  // disk steps until one fails

    method Do(s: Step) returns (ok: bool)
      modifies this
      ensures PrefixDone(old(disk), [s], old(stepsLeft), disk, stepsLeft, ok)
    {
      OneStep(disk, s);
      assert [s][..0] == [] && [s][..1] == [s];
      if stepsLeft == 0 {
        return false;
      }
      disk := Perform(disk, s);
      stepsLeft := stepsLeft - 1;
      return true;
    }

    method DoAll(steps: seq<Step>) returns (ok: bool)
      modifies this
      ensures PrefixDone(old(disk), steps, old(stepsLeft), disk, stepsLeft, ok)
    {
      assert steps[..0] == [];
      for i := 0 to |steps|
        invariant PrefixDone(old(disk), steps[..i], old(stepsLeft), disk, stepsLeft, true)
      {
        ghost var d1, left1 := disk, stepsLeft;
        ok := Do(steps[i]);
        PrefixChain(old(disk), steps[..i], old(stepsLeft), d1, left1, true, [steps[i]], disk, stepsLeft, ok);
        assert steps[..i] + [steps[i]] == steps[..i + 1];
        if !ok {
          assert old(stepsLeft) == i;
          assert steps[..i + 1][..i] == steps[..i];
          return false;
        }
      }
      assert steps[..|steps|] == steps;
      return true;
    }

    method ResumePendingAccountCleanup() returns (ok: bool)
      modifies this
      ensures PrefixDone(old(disk), ResumeSteps(old(disk)), old(stepsLeft), disk, stepsLeft, ok)
    {
      if !disk.marker {
        return true;
      }
      ok := DoAll(CLEANUP);
    }

    method BeginAccountCleanup() returns (ok: bool)
      modifies this
      ensures PrefixDone(old(disk), [WriteMarker] + CLEANUP, old(stepsLeft), disk, stepsLeft, ok)
    {
      ok := Do(WriteMarker);
      ghost var d1, left1, ok1 := disk, stepsLeft, ok;
      if ok {
        OneStep(old(disk), WriteMarker);
        assert [WriteMarker][..1] == [WriteMarker];
        ok := ResumePendingAccountCleanup();
      }
      PrefixChain(old(disk), [WriteMarker], old(stepsLeft), d1, left1, ok1, CLEANUP, disk, stepsLeft, ok);
    }

    method SwitchIfNeeded(account: Account) returns (ok: bool)
      modifies this
      ensures PrefixDone(old(disk), SwitchSteps(old(disk), account), old(stepsLeft), disk, stepsLeft, ok)
    {
      var previous := Previous(disk);
      if previous.Some? && previous.value != account {
        ok := BeginAccountCleanup();
      } else {
        ok := true;
      }
    }

    method PrepareVerifiedAccount(account: Account) returns (ok: bool)
      modifies this
      ensures PrefixDone(old(disk), PrepareSteps(old(disk), account), old(stepsLeft), disk, stepsLeft, ok)
    {
      ghost var d0, left0 := disk, stepsLeft;
      ok := ResumePendingAccountCleanup();
      ghost var d1, left1, ok1 := disk, stepsLeft, ok;
      ghost var resume := ResumeSteps(d0);
      if ok {
        assert resume[..|resume|] == resume;
        ok := SwitchIfNeeded(account);
      }
      PrefixChain(d0, resume, left0, d1, left1, ok1, SwitchSteps(PerformAll(d0, resume), account), disk, stepsLeft, ok);
    }

    method ReplaceAndSave(account: Account, valid: bool) returns (ok: bool)
      modifies this
      ensures PrefixDone(old(disk), ReplaceSteps(old(disk), account, valid), old(stepsLeft), disk, stepsLeft, ok)
    {
      ghost var d0, left0 := disk, stepsLeft;
      ghost var resume := ResumeSteps(d0);
      ok := ResumePendingAccountCleanup();
      ghost var d1, left1, ok1 := disk, stepsLeft, ok;
      ghost var second := SwitchSteps(PerformAll(d0, resume), account);
      ghost var third := CommitSteps(account);
      if !ok {
        PrefixChain(d0, resume, left0, d1, left1, ok1, if valid then second + third else [], d1, left1, false);
        return;
      }
      assert resume[..|resume|] == resume;
      if !valid {
        assert resume + [] == resume;
        return;
      }
      ok := SwitchIfNeeded(account);
      ghost var d2, left2, ok2 := disk, stepsLeft, ok;
      if ok {
        ok := DoAll(CommitSteps(account));
      }
      PrefixChain(d1, second, left1, d2, left2, ok2, third, disk, stepsLeft, ok);
      PrefixChain(d0, resume, left0, d1, left1, ok1, second + third, disk, stepsLeft, ok);
    }
  }

  // ----- crash safety -----

  /** An operation run to its end or stopped inside step number `done`, or a damaged index. */
  datatype Event =
    | Finished(op: Operation)
    | CutOff(cut: Operation, done: nat, gone: set<Account>)
    | IndexDamaged

  function Stopped(d: Disk, steps: seq<Step>, done: nat, gone: set<Account>): Disk {
    if done >= |steps| then PerformAll(d, steps) else PerformPart(PerformAll(d, steps[..done]), steps[done], gone)
  }

  function After(d: Disk, e: Event): Disk {
    match e
    case Finished(op) => PerformAll(d, StepsOf(d, op))
    case CutOff(op, done, gone) => Stopped(d, StepsOf(d, op), done, gone)
    case IndexDamaged =>
      if d.index.Some? then d.(index := Some(d.index.value.(readable := false))) else d
  }

  function Run(d: Disk, events: seq<Event>): Disk {
    if events == [] then d else After(Run(d, events[..|events| - 1]), events[|events| - 1])
  }

  /** Nothing on disk belongs to `prev`. */
  ghost predicate Gone(prev: Account, d: Disk) {
    && (d.index.Some? ==> d.index.value.owner != prev)
    && forall p :: prev !in At(d, p)
  }

  /** The marker stands, and no index but that of `prev` has been written behind it. */
  ghost predicate Guarded(prev: Account, d: Disk) {
    d.marker && (d.index.Some? ==> d.index.value.owner == prev)
  }

  ghost predicate Switched(prev: Account, d: Disk) {
    Gone(prev, d) || Guarded(prev, d)
  }

  ghost predicate ByOther(prev: Account, e: Event) {
    e.IndexDamaged?
    || var op := if e.Finished? then e.op else e.cut;
       (op.Prepare? || op.Replace? || op.SaveBody? || op.SaveAttachment?) ==> op.account != prev
  }

  /** The step writes nothing for `prev`. */
  predicate Foreign(prev: Account, s: Step) {
    match s
    case WriteIndex(owner) => owner != prev
    case Add(_, who) => who != prev
    case _ => true
  }

  lemma GoneStep(prev: Account, d: Disk, s: Step, part: set<Account>)
    requires Gone(prev, d) && Foreign(prev, s)
    ensures Gone(prev, Perform(d, s)) && Gone(prev, PerformPart(d, s, part))
  {
    forall p ensures prev !in At(Perform(d, s), p) && prev !in At(PerformPart(d, s, part), p) {
      assert prev !in At(d, p);
    }
  }

  lemma {:induction false} GoneStays(prev: Account, d: Disk, steps: seq<Step>)
    requires Gone(prev, d) && forall s <- steps :: Foreign(prev, s)
    ensures Gone(prev, PerformAll(d, steps))
  {
    if steps != [] {
      var front, last := steps[..|steps| - 1], steps[|steps| - 1];
      assert forall s <- front :: s in steps;
      GoneStays(prev, d, front);
      GoneStep(prev, PerformAll(d, front), last, {});
    }
  }

  lemma GoneStopped(prev: Account, d: Disk, steps: seq<Step>, done: nat, part: set<Account>)
    requires Gone(prev, d) && forall s <- steps :: Foreign(prev, s)
    ensures Gone(prev, Stopped(d, steps, done, part))
  {
    if done >= |steps| {
      GoneStays(prev, d, steps);
    } else {
      assert forall s <- steps[..done] :: s in steps;
      GoneStays(prev, d, steps[..done]);
      GoneStep(prev, PerformAll(d, steps[..done]), steps[done], part);
    }
  }

  /** Along the cleanup the marker stays until everything is gone. */
  lemma CleanupProgress(prev: Account, d: Disk, k: nat)
    requires k <= |CLEANUP|
    ensures var d' := PerformAll(d, CLEANUP[..k]);
            && (k < 7 ==> d'.marker == d.marker)
            && (k >= 1 ==> d'.index == None) && (k == 0 ==> d' == d)
            && (k >= 2 ==> prev !in At(d', IndexV2)) && (k >= 3 ==> prev !in At(d', IndexV1))
            && (k >= 4 ==> prev !in At(d', Bodies)) && (k >= 5 ==> prev !in At(d', LegacyBodies))
            && (k >= 6 ==> prev !in At(d', Attachments))
            && (k == 7 ==> !d'.marker)
    decreases k
  {
    if k > 0 {
      CleanupProgress(prev, d, k - 1);
      CleanupStage(d, k);
      hide PerformAll;
    }
  }

  lemma CleanupStage(d: Disk, k: nat)
    requires 0 < k <= |CLEANUP|
    ensures PerformAll(d, CLEANUP[..k]) == Perform(PerformAll(d, CLEANUP[..k - 1]), CLEANUP[k - 1])
  {
    assert CLEANUP[..k][..k - 1] == CLEANUP[..k - 1];
  }

  lemma CleanupEnds(prev: Account, d: Disk)
    ensures Gone(prev, PerformAll(d, CLEANUP)) && !PerformAll(d, CLEANUP).marker
            && PerformAll(d, CLEANUP).index == None
  {
    CleanupProgress(prev, d, |CLEANUP|);
    assert CLEANUP[..|CLEANUP|] == CLEANUP;
    forall p ensures prev !in At(PerformAll(d, CLEANUP), p) {
      match p {
        case IndexV2 =>
        case IndexV1 =>
        case Bodies =>
        case LegacyBodies =>
        case Attachments =>
      }
    }
  }

  lemma CleanupStopped(prev: Account, d: Disk, done: nat, part: set<Account>)
    requires Guarded(prev, d)
    ensures Switched(prev, Stopped(d, CLEANUP, done, part))
  {
    if done >= |CLEANUP| {
      CleanupEnds(prev, d);
    } else {
      CleanupProgress(prev, d, done);
    }
  }

  lemma StoppedAppend(d: Disk, a: seq<Step>, b: seq<Step>, done: nat, part: set<Account>)
    ensures Stopped(d, a + b, done, part)
         == if done < |a| then Stopped(d, a, done, part) else Stopped(PerformAll(d, a), b, done - |a|, part)
  {
    hide PerformAll, PerformPart;
    if done < |a| {
      assert (a + b)[..done] == a[..done];
    } else {
      PerformAppend(d, a, b);
      if done < |a + b| {
        assert (a + b)[..done] == a + b[..done - |a|];
        PerformAppend(d, a, b[..done - |a|]);
      }
    }
  }

  /** Stopping inside a row of steps whose first half leads from a guarded disk to a clean one. */
  lemma StoppedInTwo(prev: Account, d: Disk, a: seq<Step>, b: seq<Step>, done: nat, part: set<Account>)
    requires done < |a| ==> Switched(prev, Stopped(d, a, done, part))
    requires Gone(prev, PerformAll(d, a)) && forall s <- b :: Foreign(prev, s)
    ensures Switched(prev, Stopped(d, a + b, done, part))
  {
    hide Stopped, Gone, Guarded, PerformAll;
    StoppedAppend(d, a, b, done, part);
    if done >= |a| {
      GoneStopped(prev, PerformAll(d, a), b, done - |a|, part);
    }
  }

  lemma ForeignSteps(prev: Account, d: Disk, account: Account)
    requires account != prev
    ensures forall s <- SwitchSteps(d, account) :: Foreign(prev, s)
    ensures forall s <- CommitSteps(account) :: Foreign(prev, s)
    ensures forall s <- ResumeSteps(d) :: Foreign(prev, s)
  {
  }

  lemma OperationForeign(prev: Account, d: Disk, op: Operation)
    requires ByOther(prev, Finished(op)) && Gone(prev, d)
    ensures forall s <- StepsOf(d, op) :: Foreign(prev, s)
  {
    hide PerformAll;
    match op
    case Prepare(account) =>
      ForeignSteps(prev, d, account);
      ForeignSteps(prev, PerformAll(d, ResumeSteps(d)), account);
    case Replace(account, valid) =>
      ForeignSteps(prev, d, account);
      ForeignSteps(prev, PerformAll(d, ResumeSteps(d)), account);
    case _ =>
  }

  lemma GuardedStops(prev: Account, d: Disk, op: Operation, done: nat, part: set<Account>)
    requires Guarded(prev, d) && ByOther(prev, Finished(op))
    ensures Switched(prev, Stopped(d, StepsOf(d, op), done, part))
  {
    match op
    case Prepare(account) =>
      CleanupStopped(prev, d, done, part);
      CleanupEnds(prev, d);
      ForeignSteps(prev, PerformAll(d, CLEANUP), account);
      StoppedInTwo(prev, d, CLEANUP, SwitchSteps(PerformAll(d, CLEANUP), account), done, part);
    case Replace(account, valid) =>
      CleanupStopped(prev, d, done, part);
      CleanupEnds(prev, d);
      ForeignSteps(prev, PerformAll(d, CLEANUP), account);
      StoppedInTwo(prev, d, CLEANUP,
                   if valid then SwitchSteps(PerformAll(d, CLEANUP), account) + CommitSteps(account) else [],
                   done, part);
    case ClearAllMail => CleanupStopped(prev, d, done, part);
    case Rewrite => SmallStops(prev, d, StepsOf(d, op), done, part);
    case SaveBody(account) => SmallStops(prev, d, StepsOf(d, op), done, part);
    case SaveAttachment(account) => SmallStops(prev, d, StepsOf(d, op), done, part);
    case ClearBodies => SmallStops(prev, d, StepsOf(d, op), done, part);
  }

  predicate Quiet(prev: Account, s: Step) {
    match s
    case RemoveMarker => false
    case WriteIndex(owner) => owner == prev
    case _ => true
  }

  lemma {:induction false} SmallStays(prev: Account, d: Disk, steps: seq<Step>)
    requires Guarded(prev, d) && forall s <- steps :: Quiet(prev, s)
    ensures Guarded(prev, PerformAll(d, steps))
  {
    if steps != [] {
      var front, last := steps[..|steps| - 1], steps[|steps| - 1];
      assert forall s <- front :: s in steps;
      SmallStays(prev, d, front);
      assert Quiet(prev, last);
    }
  }

  lemma SmallStops(prev: Account, d: Disk, steps: seq<Step>, done: nat, part: set<Account>)
    requires Guarded(prev, d) && forall s <- steps :: Quiet(prev, s)
    ensures Guarded(prev, Stopped(d, steps, done, part))
  {
    if done >= |steps| {
      SmallStays(prev, d, steps);
    } else {
      assert forall s <- steps[..done] :: s in steps;
      SmallStays(prev, d, steps[..done]);
    }
  }

  lemma StepSwitched(prev: Account, d: Disk, e: Event)
    requires Switched(prev, d) && ByOther(prev, e)
    ensures Switched(prev, After(d, e))
  {
    hide StepsOf;
    if e.IndexDamaged? {
      assert forall p :: At(After(d, e), p) == At(d, p);
    } else {
      var op := if e.Finished? then e.op else e.cut;
      var steps := StepsOf(d, op);
      var done := if e.Finished? then |steps| else e.done;
      var part := if e.Finished? then {} else e.gone;
      assert After(d, e) == Stopped(d, steps, done, part);
      if Gone(prev, d) {
        OperationForeign(prev, d, op);
        GoneStopped(prev, d, steps, done, part);
      } else {
        GuardedStops(prev, d, op, done, part);
      }
    }
  }

  /** Once the marker is durable, whatever operations of other accounts follow, each finished or cut
      off anywhere and resumed any number of times: no mailbox or body load shows the previous account's
      mail, the marker is gone only when all its data are, and so is the first index of another account. */
  lemma {:induction false} SwitchIsCrashSafe(prev: Account, d: Disk, events: seq<Event>)
    requires Guarded(prev, d) && forall e <- events :: ByOther(prev, e)
    ensures var d' := Run(d, events);
            && Switched(prev, d')
            && Exposed(d') != Some(prev) && prev !in ServedBodies(d')
            && (!d'.marker ==> Gone(prev, d'))
            && (d'.index.Some? && d'.index.value.owner != prev ==> Gone(prev, d'))
  {
    if events != [] {
      var front, last := events[..|events| - 1], events[|events| - 1];
      assert forall e <- front :: e in events;
      SwitchIsCrashSafe(prev, d, front);
      assert last in events;
      StepSwitched(prev, Run(d, front), last);
    }
  }

  function Commit(op: Operation): seq<Step> {
    if op.Replace? then CommitSteps(op.account) else []
  }

  lemma SwitchShape(prev: Account, d: Disk, op: Operation)
    requires !d.marker && d.index == Some(Index(prev, true))
    requires (op.Prepare? || (op.Replace? && op.valid)) && op.account != prev
    ensures StepsOf(d, op) == [WriteMarker] + (CLEANUP + Commit(op))
  {
    assert PerformAll(d, ResumeSteps(d)) == d;
    assert StepsOf(d, op) == [] + ([WriteMarker] + CLEANUP + Commit(op));
  }

  lemma SwitchEnds(prev: Account, d: Disk, op: Operation)
    requires !d.marker && d.index == Some(Index(prev, true))
    requires (op.Prepare? || (op.Replace? && op.valid)) && op.account != prev
    ensures var d' := PerformAll(d, StepsOf(d, op));
            && Gone(prev, d') && !d'.marker
            && (op.Replace? ==> d'.index == Some(Index(op.account, true)))
  {
    SwitchShape(prev, d, op);
    var marked := Perform(d, WriteMarker);
    OneStep(d, WriteMarker);
    CleanupEnds(prev, marked);
    ForeignSteps(prev, marked, op.account);
    if op.Replace? { CommitEnds(PerformAll(marked, CLEANUP), op.account); }
    NothingToCommit(op);
    OneStep(PerformAll(marked, CLEANUP), WriteMarker);
    hide StepsOf, PerformAll, Commit, Gone, CommitSteps;
    PerformAppend(d, [WriteMarker], CLEANUP + Commit(op));
    PerformAppend(marked, CLEANUP, Commit(op));
    GoneStays(prev, PerformAll(marked, CLEANUP), Commit(op));
  }

  lemma SwitchStops(prev: Account, d: Disk, op: Operation, done: nat, part: set<Account>)
    requires !d.marker && d.index == Some(Index(prev, true))
    requires (op.Prepare? || (op.Replace? && op.valid)) && op.account != prev
    ensures var d' := Stopped(d, StepsOf(d, op), done, part); d' == d || Switched(prev, d')
  {
    SwitchShape(prev, d, op);
    var begin, rest := [WriteMarker], CLEANUP + Commit(op);
    var marked := Perform(d, WriteMarker);
    OneStep(d, WriteMarker);
    CleanupEnds(prev, marked);
    ForeignSteps(prev, marked, op.account);
    NothingToCommit(op);
    assert Stopped(d, begin, 0, part) == d by { assert begin[..0] == []; }
    assert Guarded(prev, marked);
    hide StepsOf, PerformAll, Commit, Stopped, Gone, CommitSteps, Guarded, Switched, Perform, At;
    StoppedAppend(d, begin, rest, done, part);
    if done > 0 {
      CleanupStopped(prev, marked, done - 1, part);
      StoppedInTwo(prev, marked, CLEANUP, Commit(op), done - 1, part);
    }
  }

  /** A switch away from a readable index either has not begun or has made the marker durable; when
      it ends nothing of the previous account is left. */
  lemma SwitchBegins(prev: Account, d: Disk, op: Operation, done: nat, part: set<Account>)
    requires !d.marker && d.index == Some(Index(prev, true))
    requires (op.Prepare? || (op.Replace? && op.valid)) && op.account != prev
    ensures var d' := Stopped(d, StepsOf(d, op), done, part); d' == d || Switched(prev, d')
    ensures var d' := PerformAll(d, StepsOf(d, op));
            && Gone(prev, d') && !d'.marker
            && (op.Replace? ==> d'.index == Some(Index(op.account, true)))
  {
    hide StepsOf, PerformAll, Stopped, Gone, Switched;
    SwitchStops(prev, d, op, done, part);
    SwitchEnds(prev, d, op);
  }

  lemma NothingToCommit(op: Operation)
    ensures op.Prepare? ==> Commit(op) == []
    ensures op.Replace? ==> Commit(op) == CommitSteps(op.account)
  {
  }

  lemma CommitEnds(d: Disk, account: Account)
    ensures var d' := PerformAll(d, CommitSteps(account));
            && d'.index == Some(Index(account, true)) && d'.marker == d.marker
            && At(d', Attachments) == At(d, Attachments)
            && At(d', Bodies) == At(d, Bodies) * {account}
            && At(d', IndexV1) == {} && At(d', IndexV2) == {} && At(d', LegacyBodies) == {}
  {
    var c := CommitSteps(account);
    assert c[..4][..3] == c[..3] && c[..3][..2] == c[..2] && c[..2][..1] == c[..1] && c[..1][..0] == []
           && c[..4] == c[..|c| - 1];
    var d1 := Perform(d, c[0]);
    assert PerformAll(d, c[..1]) == d1;
    var d2 := Perform(d1, c[1]);
    assert PerformAll(d, c[..2]) == d2;
    var d3 := Perform(d2, c[2]);
    assert PerformAll(d, c[..3]) == d3;
    var d4 := Perform(d3, c[3]);
    assert PerformAll(d, c[..4]) == d4;
  }

  /** The cleanup hangs on a readable index: after a completed replacement on an unmarked disk, the
      previous account's attachments are still there exactly when the index could not be read (or was
      already the new account's). */
  lemma DamagedIndexKeepsAttachments(prev: Account, d: Disk, account: Account)
    requires !d.marker && account != prev && prev in At(d, Attachments)
    ensures prev in At(PerformAll(d, StepsOf(d, Replace(account, true))), Attachments)
       <==> Previous(d).None? || Previous(d).value == account
  {
    assert PerformAll(d, ResumeSteps(d)) == d;
    var switch, commit := SwitchSteps(d, account), CommitSteps(account);
    assert StepsOf(d, Replace(account, true)) == [] + (switch + commit) == switch + commit;
    PerformAppend(d, switch, commit);
    CommitEnds(PerformAll(d, switch), account);
    if switch != [] {
      OneStep(d, WriteMarker);
      PerformAppend(d, [WriteMarker], CLEANUP);
      CleanupEnds(prev, Perform(d, WriteMarker));
    }
  }

  /** A damaged index, and attachments of its account that outlive the switch to another. */
  lemma UnreadableIndexExample()
    ensures var d := Disk(false, Some(Index("first", false)), map[Attachments := {"first"}]);
            "first" in At(PerformAll(d, StepsOf(d, Replace("second", true))), Attachments)
  {
    hide PerformAll, StepsOf;
    var d := Disk(false, Some(Index("first", false)), map[Attachments := {"first"}]);
    DamagedIndexKeepsAttachments("first", d, "second");
  }

  // ----- what an operation leaves when it ends -----

  /** A pending cleanup is finished by whatever prepares an account: no data of anyone, no index, no marker. */
  lemma ResumeFinishes(d: Disk, account: Account)
    requires d.marker
    ensures var d' := PerformAll(d, StepsOf(d, Prepare(account)));
            !d'.marker && d'.index == None && forall p :: At(d', p) == {}
  {
    CleanupEnds(account, d);
    assert CLEANUP + [] == CLEANUP;
    assert StepsOf(d, Prepare(account)) == CLEANUP;
    hide PerformAll, StepsOf;
    forall p ensures At(PerformAll(d, CLEANUP), p) == {} {
      forall who | who in At(PerformAll(d, CLEANUP), p) ensures false {
        CleanupEnds(who, d);
        assert false;
      }
    }
  }

  /** With no cleanup pending, an account whose index it is, or with no index to read, finds its data as it left
      them: preparing it and a record that fails validation change nothing, and a replacement keeps every
      attachment and the account's own bodies. */
  lemma SameAccountKeepsData(d: Disk, account: Account)
    requires !d.marker && (Previous(d).None? || Previous(d).value == account)
    ensures PerformAll(d, StepsOf(d, Prepare(account))) == d
    ensures PerformAll(d, StepsOf(d, Replace(account, false))) == d
    ensures var d' := PerformAll(d, StepsOf(d, Replace(account, true)));
            && !d'.marker && d'.index == Some(Index(account, true))
            && At(d', Attachments) == At(d, Attachments) && At(d', Bodies) == At(d, Bodies) * {account}
            && At(d', IndexV1) == {} && At(d', IndexV2) == {} && At(d', LegacyBodies) == {}
  {
    OneStep(d, WriteMarker);
    assert PerformAll(d, ResumeSteps(d)) == d && [] + [] == ResumeSteps(d) + SwitchSteps(d, account);
    assert StepsOf(d, Replace(account, true)) == [] + ([] + CommitSteps(account)) == CommitSteps(account);
    CommitEnds(d, account);
  }

  lemma TwoSteps(d: Disk, a: Step, b: Step)
    ensures PerformAll(d, [a, b]) == Perform(Perform(d, a), b)
  {
    hide Perform;
    assert [a, b][..1] == [a];
    OneStep(d, a);
  }

  /** Saving writes one account's data and, of the bodies, keeps no other's. */
  lemma SavesEnd(d: Disk, account: Account)
    ensures PerformAll(d, StepsOf(d, SaveAttachment(account)))
         == d.(data := d.data[Attachments := At(d, Attachments) + {account}])
    ensures var d' := PerformAll(d, StepsOf(d, SaveBody(account)));
            d' == d.(data := d'.data) && At(d', Bodies) == {account}
            && forall p | p != Bodies :: At(d', p) == At(d, p)
  {
    OneStep(d, Add(Attachments, account));
    TwoSteps(d, Add(Bodies, account), KeepOnly(Bodies, account));
    hide PerformAll;
  }

  lemma ThreeSteps(d: Disk, a: Step, b: Step, c: Step)
    ensures PerformAll(d, [a, b, c]) == Perform(Perform(Perform(d, a), b), c)
  {
    TwoSteps(d, a, b);
    OneStep(PerformAll(d, [a, b]), c);
    PerformAppend(d, [a, b], [c]);
    assert [a, b] + [c] == [a, b, c];
    hide Perform;
  }

  /** Clearing the downloads takes bodies and attachments and leaves the mailbox indexes. */
  lemma ClearEnds(d: Disk)
    ensures var d' := PerformAll(d, StepsOf(d, ClearBodies));
            d' == d.(data := d'.data) && At(d', Bodies) == {} && At(d', LegacyBodies) == {} && At(d', Attachments) == {}
            && At(d', IndexV1) == At(d, IndexV1) && At(d', IndexV2) == At(d, IndexV2)
  {
    ThreeSteps(d, Remove(Bodies), Remove(LegacyBodies), Remove(Attachments));
    hide PerformAll;
  }
}
