/** What the body store promises: crash or not, a load never serves the wrong body; a completed save
    is followed by a hit; the manifest matches the directory; eviction is least-recently-used and
    minimal. */
module BodyStoreGuarantees {
  import opened Numbers
  import opened Results
  import opened Text
  import opened Sorting
  import opened MessageIds
  import opened BodyStore

  // ----- runs with crashes -----

  datatype Operation =
    | Save(account: string, id: MessageId, body: Body, size: nat, at: nat, budget: nat)
    | Load(loadAccount: string, loadId: MessageId, loadAt: nat)
    | Reconcile(reconcileAccount: string, reconcileBudget: nat)
    | Clear
    | AccountCleanup

  /** An operation run to its end, cut off inside write number `done`, or a damaged file. */
  datatype Event =
    | Finished(op: Operation)
    | CutOff(cut: Operation, done: nat, part: set<string>)
    | FileDamaged(name: string, size: nat)
    | ManifestDamaged

  function WritesOf(d: Disk, op: Operation): seq<Write> {
    match op
    case Save(account, id, body, size, at, budget) => SaveWrites(d, account, id, body, size, at, budget)
    case Load(account, id, at) => LoadWrites(d, account, id, at)
    case Reconcile(account, budget) => ReconcileWrites(d, account, None, None, budget)
    case Clear => CLEAR_WRITES
    case AccountCleanup => CLEANUP_WRITES
  }

  function Step(d: Disk, e: Event): Disk {
    match e
    case Finished(op) => PerformAll(d, WritesOf(d, op))
    case CutOff(op, done, part) =>
      var ws := WritesOf(d, op);
      if done >= |ws| then PerformAll(d, ws) else PerformPart(PerformAll(d, ws[..done]), ws[done], part)
    case FileDamaged(name, size) => if name in d.files then d.(files := d.files[name := Garbage(size)]) else d
    case ManifestDamaged => d.(manifest := BadManifest)
  }

  datatype Saved = Saved(account: string, body: Body)

  /** The body most recently written for each message, and by which account. */
  type History = map<MessageId, Saved>

  function Recorded(h: History, ws: seq<Write>): History {
    if ws == [] then h
    else
      var before := Recorded(h, ws[..|ws| - 1]);
      match ws[|ws| - 1]
      case PutFile(_, Record(_, account, id, body, _)) => before[id := Saved(account, body)]
      case _ => before
  }

  function StepHistory(d: Disk, h: History, e: Event): History {
    match e
    case Finished(op) => Recorded(h, WritesOf(d, op))
    case CutOff(op, done, _) =>
      var ws := WritesOf(d, op);
      Recorded(h, if done >= |ws| then ws else ws[..done])
    case _ => h
  }

  function Run(d: Disk, events: seq<Event>): Disk {
    if events == [] then d else Step(Run(d, events[..|events| - 1]), events[|events| - 1])
  }

  function RunHistory(d: Disk, h: History, events: seq<Event>): History {
    if events == [] then h
    else
      var front := events[..|events| - 1];
      StepHistory(Run(d, front), RunHistory(d, h, front), events[|events| - 1])
  }

  /** Every record that stands in its own file is the last one written for its message. */
  ghost predicate Faithful(d: Disk, h: History) {
    forall name | name in d.files && d.files[name].Record? && BodyFileName(d.files[name].id) == Some(name) ::
      d.files[name].id in h && h[d.files[name].id] == Saved(d.files[name].account, d.files[name].body)
  }

  ghost predicate Proper(ws: seq<Write>) {
    forall i | 0 <= i < |ws| && ws[i].PutFile? ::
      ws[i].file.Record? && BodyFileName(ws[i].file.id) == Some(ws[i].name)
  }

  lemma {:induction false} WritesFaithful(d: Disk, h: History, ws: seq<Write>)
    requires Faithful(d, h) && Proper(ws)
    ensures Faithful(PerformAll(d, ws), Recorded(h, ws))
  {
    hide BodyFileName, Orphans;
    if ws != [] {
      var front := ws[..|ws| - 1];
      assert forall i | 0 <= i < |front| :: front[i] == ws[i];
      WritesFaithful(d, h, front);
    }
  }

  lemma {:induction false} RemovalsOnly(evicted: seq<Entry>)
    ensures forall i | 0 <= i < |Removals(evicted)| :: Removals(evicted)[i].RemoveFiles?
  {
    if evicted != [] { RemovalsOnly(evicted[..|evicted| - 1]); }
  }

  lemma OperationsProper(d: Disk, op: Operation)
    ensures Proper(WritesOf(d, op))
  {
    hide BodyFileName, KeptEntries, Orphans, SweepOf, Filter, Names;
    match op
    case Save(account, id, body, size, at, budget) =>
      if !IsBlank(account) && BodyFileName(id).Some? {
        var name := BodyFileName(id).value;
        var put := PutFile(name, Record(BODY_VERSION, account, id, body, size));
        var list := PutManifest(EntriesWith(Perform(d, put), account, id, name, size, at));
        RemovalsOnly(SweepOf(Perform(Perform(d, put), list), account, None, Some(id), budget).evicted);
      }
    case Reconcile(account, budget) => RemovalsOnly(SweepOf(d, account, None, None, budget).evicted);
    case _ =>
  }

  lemma StepFaithful(d: Disk, h: History, e: Event)
    requires Faithful(d, h)
    ensures Faithful(Step(d, e), StepHistory(d, h, e))
  {
    hide WritesOf, BodyFileName;
    match e
    case Finished(op) =>
      OperationsProper(d, op);
      WritesFaithful(d, h, WritesOf(d, op));
    case CutOff(op, done, part) =>
      var ws := WritesOf(d, op);
      OperationsProper(d, op);
      if done >= |ws| {
        WritesFaithful(d, h, ws);
      } else {
        assert Proper(ws[..done]);
        WritesFaithful(d, h, ws[..done]);
      }
    case _ =>
  }

  lemma {:induction false} RunFaithful(d: Disk, h: History, events: seq<Event>)
    requires Faithful(d, h)
    ensures Faithful(Run(d, events), RunHistory(d, h, events))
  {
    if events != [] {
      var front := events[..|events| - 1];
      RunFaithful(d, h, front);
      StepFaithful(Run(d, front), RunHistory(d, h, front), events[|events| - 1]);
    }
  }

  const EMPTY_DISK := Disk(map[], NoManifest, false)

  /** After any run of saves, loads, clears and cleanups, each possibly cut off anywhere, a load for
      an account and a message is a miss or serves the body most recently written for that message,
      and then it was that account that wrote it. */
  lemma LoadServesLastSave(events: seq<Event>, account: string, id: MessageId)
    ensures var d, h := Run(EMPTY_DISK, events), RunHistory(EMPTY_DISK, map[], events);
            match LoadResult(d, account, id)
            case Ok(Some(body)) =>
              id in h && h[id].body == body && EqualIgnoringCase(h[id].account, account)
            case _ => true
  {
    hide EqualIgnoringCase, KeptEntries, Orphans;
    RunFaithful(EMPTY_DISK, map[], events);
  }

  // ----- reconciling -----

  ghost predicate DistinctEntryIds(entries: seq<Entry>) {
    forall i, j | 0 <= i < j < |entries| :: entries[i].id != entries[j].id
  }

  /** The entry describes a file on disk under its own name, with its true size. */
  predicate Describes(e: Entry, files: map<string, BodyFile>, account: string) {
    && EqualIgnoringCase(e.account, account)
    && BodyFileName(e.id) == Some(e.fileName)
    && e.fileName in files && e.bytes == files[e.fileName].size
  }

  lemma {:induction false} KeptDescribe(files: map<string, BodyFile>, entries: seq<Entry>, account: string,
                                        retained: Option<set<MessageId>>, seen: set<MessageId>)
    ensures var kept := KeptEntries(files, entries, account, retained, seen);
            && DistinctEntryIds(kept)
            && forall e <- kept :: Describes(e, files, account) && e.id !in seen
  {
    hide BodyFileName, EqualIgnoringCase;
    if entries != [] {
      var e := entries[0];
      KeptDescribe(files, entries[1..], account, retained, seen);
      KeptDescribe(files, entries[1..], account, retained, seen + {e.id});
    }
  }

  /** An acceptable entry with a file keeps a place, as the first of its id. */
  lemma {:induction false} KeptHolds(files: map<string, BodyFile>, entries: seq<Entry>, account: string,
                                     retained: Option<set<MessageId>>, seen: set<MessageId>, i: nat)
    requires i < |entries| && Acceptable(entries[i], account, retained) && entries[i].id !in seen
    requires entries[i].fileName in files
    requires forall j | 0 <= j < i && Acceptable(entries[j], account, retained) :: entries[j].id != entries[i].id
    ensures entries[i].(bytes := files[entries[i].fileName].size)
         in KeptEntries(files, entries, account, retained, seen)
  {
    hide Acceptable;
    if i > 0 {
      var e := entries[0];
      var seen' := if !Acceptable(e, account, retained) || e.id in seen then seen else seen + {e.id};
      assert forall j | 0 <= j < i - 1 :: entries[1..][j] == entries[j + 1];
      KeptHolds(files, entries[1..], account, retained, seen', i - 1);
    }
  }

  lemma {:induction false} SweepSplits(entries: seq<Entry>, total: nat, budget: nat, protected: Option<MessageId>)
    ensures var sweep := SweepEntries(entries, total, budget, protected);
            && multiset(sweep.kept) + multiset(sweep.evicted) == multiset(entries)
            && forall e <- sweep.evicted :: protected != Some(e.id)
  {
    if entries != [] {
      SweepSplits(entries[..|entries| - 1], total, budget, protected);
      assert entries == entries[..|entries| - 1] + [entries[|entries| - 1]];
    }
  }

  lemma SplitMembers(entries: seq<Entry>, kept: seq<Entry>, evicted: seq<Entry>)
    requires multiset(kept) + multiset(evicted) == multiset(entries)
    ensures forall e :: e in entries <==> e in kept || e in evicted
  {
    forall e ensures e in entries <==> e in kept || e in evicted {
      assert e in multiset(entries) <==> e in multiset(kept) || e in multiset(evicted);
    }
  }

  lemma DistinctByMultiset(a: seq<Entry>, b: seq<Entry>, rest: multiset<Entry>)
    requires DistinctEntryIds(a) && multiset(b) + rest == multiset(a)
    ensures DistinctEntryIds(b)
    ensures forall e, f | e in b && f in rest :: e.id != f.id
  {
    forall i, j | 0 <= i < j < |b| ensures b[i].id != b[j].id {
      PairInMultiset(b, i, j);
      TwoPlaces(a, b[i], b[j]);
    }
    forall e, f | e in b && f in rest ensures e.id != f.id {
      assert e in multiset(b) && multiset{e, f} <= multiset(a);
      TwoPlaces(a, e, f);
    }
  }

  lemma PairInMultiset(b: seq<Entry>, i: nat, j: nat)
    requires i < j < |b|
    ensures multiset{b[i], b[j]} <= multiset(b)
  {
    assert b == b[..i] + [b[i]] + b[i + 1..j] + [b[j]] + b[j + 1..];
  }

  lemma {:induction false} OnePlace(a: seq<Entry>, e: Entry)
    requires DistinctEntryIds(a)
    ensures multiset(a)[e] <= 1
  {
    if a != [] {
      OnePlace(a[1..], e);
      assert a == [a[0]] + a[1..];
      assert forall k | 0 <= k < |a[1..]| :: a[1..][k] == a[k + 1];
    }
  }

  lemma TwoPlaces(a: seq<Entry>, e: Entry, f: Entry)
    requires DistinctEntryIds(a) && multiset{e, f} <= multiset(a)
    ensures e.id != f.id
  {
    OnePlace(a, e);
    assert e in multiset{e, f} && f in multiset{e, f};
    var i :| 0 <= i < |a| && a[i] == e;
    var k :| 0 <= k < |a| && a[k] == f;
    assert e == f ==> multiset{e, f}[e] == 2;
  }

  lemma MinusMinus(files: map<string, BodyFile>, a: set<string>, b: set<string>)
    ensures files - a - b == files - (a + b)
  {
  }

  lemma {:induction false} RemovalsRemove(d: Disk, evicted: seq<Entry>)
    ensures PerformAll(d, Removals(evicted)) == d.(files := d.files - Names(evicted))
  {
    NoRemovals(d);
    hide PerformAll, Removals;
    if evicted == [] {
      assert d.files - {} == d.files;
    } else {
      var front, e := evicted[..|evicted| - 1], evicted[|evicted| - 1];
      var removal := RemoveFiles({e.fileName});
      assert evicted == front + [e];
      RemovalsRemove(d, front);
      RemovalsSnoc(front, e);
      PerformAppend(d, Removals(front), [removal]);
      OneWrite(PerformAll(d, Removals(front)), removal);
      assert Names(evicted) == Names(front) + {e.fileName};
      MinusMinus(d.files, Names(front), {e.fileName});
    }
  }

  /** The disk a completed reconciliation leaves. */
  lemma ReconciledDisk(d: Disk, account: string, retained: Option<set<MessageId>>, protected: Option<MessageId>,
                       budget: nat)
    ensures var kept := KeptEntries(d.files, Entries(d), account, retained, {});
            var sweep := SweepOf(d, account, retained, protected, budget);
            var files := d.files - Orphans(d.files, Names(kept)) - Names(sweep.evicted);
            PerformAll(d, ReconcileWrites(d, account, retained, protected, budget))
            == Disk(files, Manifest(MANIFEST_VERSION, sweep.kept), d.marker)
  {
    hide KeptEntries, Orphans, SweepOf, Names, Removals;
    var sweep := SweepOf(d, account, retained, protected, budget);
    var first := OrphanSweep(d, account, retained);
    OneWrite(d, first);
    var d1 := Perform(d, first);
    RemovalsRemove(d1, sweep.evicted);
    PerformAppend(d, [first], Removals(sweep.evicted));
    PerformAppend(d, [first] + Removals(sweep.evicted), [PutManifest(sweep.kept)]);
    OneWrite(PerformAll(d1, Removals(sweep.evicted)), PutManifest(sweep.kept));
  }

  /** The sweep splits the kept entries: distinct ids, each with a file of its own. */
  lemma SweptEntries(d: Disk, account: string, retained: Option<set<MessageId>>, protected: Option<MessageId>,
                     budget: nat)
    ensures var kept := KeptEntries(d.files, Entries(d), account, retained, {});
            var sweep := SweepOf(d, account, retained, protected, budget);
            && DistinctEntryIds(sweep.kept)
            && (forall e :: e in kept <==> e in sweep.kept || e in sweep.evicted)
            && (forall e <- kept :: Describes(e, d.files, account))
            && (forall e <- sweep.kept :: e.fileName !in Names(sweep.evicted))
            && (forall e <- sweep.evicted :: protected != Some(e.id))
  {
    hide Describes, KeptEntries, SweepEntries, LeastRecentFirst;
    var kept := KeptEntries(d.files, Entries(d), account, retained, {});
    KeptDescribe(d.files, Entries(d), account, retained, {});
    var sorted := SortBy(kept, LeastRecentFirst());
    SortElements(kept, LeastRecentFirst());
    SortKeepsMembers(kept, LeastRecentFirst());
    var sweep := SweepOf(d, account, retained, protected, budget);
    SweepSplits(sorted, TotalFrom(0, sorted), budget, protected);
    SplitMembers(sorted, sweep.kept, sweep.evicted);
    DistinctByMultiset(kept, sorted, multiset{});
    DistinctByMultiset(sorted, sweep.kept, multiset(sweep.evicted));
    forall e, f | e in sweep.kept && f in sweep.evicted ensures f.fileName != e.fileName {
      assert f in multiset(sweep.evicted);
      OwnFile(e, f, d.files, account);
    }
  }

  /** After a completed reconciliation the manifest has distinct ids and true sizes, and names
      exactly the `.json` files in the directory (the manifest itself apart). */
  lemma ManifestMatchesDirectory(d: Disk, account: string, retained: Option<set<MessageId>>,
                                 protected: Option<MessageId>, budget: nat)
    ensures var after := PerformAll(d, ReconcileWrites(d, account, retained, protected, budget));
            && DistinctEntryIds(Entries(after))
            && (forall e <- Entries(after) :: Describes(e, after.files, account))
            && (forall name | name in after.files && name != MANIFEST_NAME && EndsWith(name, ".json") ::
                  name in Names(Entries(after)))
            && (forall name | name in after.files && name != MANIFEST_NAME :: !Contains(name, ".tmp-"))
  {
    hide BodyFileName, EqualIgnoringCase, KeptEntries, SweepOf, EndsWith, Contains, ReconcileWrites, PerformAll;
    ReconciledDisk(d, account, retained, protected, budget);
    SweptEntries(d, account, retained, protected, budget);
    var kept := KeptEntries(d.files, Entries(d), account, retained, {});
    var sweep := SweepOf(d, account, retained, protected, budget);
    var after := PerformAll(d, ReconcileWrites(d, account, retained, protected, budget));
    forall e <- sweep.kept ensures Describes(e, after.files, account) {
      assert e in kept && e.fileName in Names(kept);
      ShapeOf(e.id);
      assert e.fileName in after.files;
    }
    forall name | name in after.files && name != MANIFEST_NAME && EndsWith(name, ".json")
      ensures name in Names(sweep.kept)
    {
      assert !IsOrphan(name, Names(kept));
      var e :| e in kept && e.fileName == name;
      assert e in sweep.evicted ==> name in Names(sweep.evicted);
    }
    forall name | name in after.files && name != MANIFEST_NAME ensures !Contains(name, ".tmp-") {
      assert !IsOrphan(name, Names(kept));
    }
  }

  lemma ShapeOf(id: MessageId)
    ensures BodyFileName(id).Some? ==>
              var name := BodyFileName(id).value;
              EndsWith(name, ".json") && !Contains(name, ".tmp-") && name != MANIFEST_NAME
  {
    hide EndsWith, Contains;
    if BodyFileName(id).Some? { BodyFileNameShape(id); }
  }

  lemma OwnFile(e: Entry, f: Entry, files: map<string, BodyFile>, account: string)
    requires Describes(e, files, account) && Describes(f, files, account) && e.id != f.id
    ensures e.fileName != f.fileName
  {
    hide BodyFileName, EqualIgnoringCase;
    if e.fileName == f.fileName { BodyFileNameInjective(e.id, f.id); }
  }

  // ----- a completed save is followed by a hit -----

  lemma {:induction false} PositionFinds(entries: seq<Entry>, account: string, id: MessageId, e: Entry)
    requires e in entries && e.id == id && EqualIgnoringCase(e.account, account) && BodyFileName(id) == Some(e.fileName)
    ensures Position(entries, account, id) < |entries|
  {
    hide BodyFileName, EqualIgnoringCase;
    if entries[0] != e { PositionFinds(entries[1..], account, id, e); }
  }

  lemma SavedEntryKept(d: Disk, account: string, id: MessageId, body: Body, size: nat, at: nat)
    requires BodyFileName(id).Some?
    ensures var name := BodyFileName(id).value;
            var d1 := Perform(d, PutFile(name, Record(BODY_VERSION, account, id, body, size)));
            var entries := EntriesWith(d1, account, id, name, size, at);
            Entry(account, id, name, size, at) in KeptEntries(d1.files, entries, account, None, {})
  {
    hide BodyFileName, EqualIgnoringCase, KeptEntries;
    var name := BodyFileName(id).value;
    var d1 := Perform(d, PutFile(name, Record(BODY_VERSION, account, id, body, size)));
    var others := Filter(Entries(d1), OtherThan(account, id));
    var entries := EntriesWith(d1, account, id, name, size, at);
    FilterMembers(Entries(d1), OtherThan(account, id));
    forall j | 0 <= j < |others| && Acceptable(entries[j], account, None) ensures entries[j].id != id {
      assert others[j] in others;
      assert OtherThan(account, id)(others[j]);
    }
    SameText(account);
    KeptHolds(d1.files, entries, account, None, {}, |others|);
  }

  lemma SameText(account: string)
    ensures EqualIgnoringCase(account, account)
  {
  }

  /** The disk once the body and its entry are written, before the reconciliation. */
  function Listed(d: Disk, account: string, id: MessageId, body: Body, size: nat, at: nat): Disk
    requires BodyFileName(id).Some?
  {
    var name := BodyFileName(id).value;
    var d1 := Perform(d, PutFile(name, Record(BODY_VERSION, account, id, body, size)));
    Perform(d1, PutManifest(EntriesWith(d1, account, id, name, size, at)))
  }

  lemma SaveIsReconcile(d: Disk, account: string, id: MessageId, body: Body, size: nat, at: nat, budget: nat)
    requires !IsBlank(account) && BodyFileName(id).Some?
    ensures var d2 := Listed(d, account, id, body, size, at);
            PerformAll(d, SaveWrites(d, account, id, body, size, at, budget))
            == PerformAll(d2, ReconcileWrites(d2, account, None, Some(id), budget))
  {
    hide BodyFileName, EntriesWith, ReconcileWrites, IsBlank;
    var name := BodyFileName(id).value;
    var put := PutFile(name, Record(BODY_VERSION, account, id, body, size));
    var d1 := Perform(d, put);
    var list := PutManifest(EntriesWith(d1, account, id, name, size, at));
    OneWrite(d, put);
    OneWrite(d1, list);
    PerformAppend(d, [put], [list]);
    assert [put] + [list] == [put, list];
    PerformAppend(d, [put, list], ReconcileWrites(Perform(d1, list), account, None, Some(id), budget));
  }

  /** Loading right after a completed save returns the saved body (for a record the reader accepts),
      under any spelling of the account and whatever the budget and the disk were before. */
  lemma SaveThenLoad(d: Disk, account: string, id: MessageId, body: Body, size: nat, at: nat, budget: nat,
                     reader: string)
    requires !d.marker && !IsBlank(account) && BodyFileName(id).Some? && size <= MAX_CACHE_JSON_BYTES
    requires !IsBlank(reader) && EqualIgnoringCase(reader, account)
    ensures LoadResult(PerformAll(d, SaveWrites(d, account, id, body, size, at, budget)), reader, id) == Ok(Some(body))
  {
    hide BodyFileName, EqualIgnoringCase, KeptEntries, SweepOf, IsBlank, Removals, Orphans, Names, PerformAll;
    hide LoadResult;
    SaveIsReconcile(d, account, id, body, size, at, budget);
    var d2 := Listed(d, account, id, body, size, at);
    var saved := Entry(account, id, BodyFileName(id).value, size, at);
    SavedEntryKept(d, account, id, body, size, at);
    ReconciledDisk(d2, account, None, Some(id), budget);
    SavedSurvives(d2, account, budget, saved);
    ManifestMatchesDirectory(d2, account, None, Some(id), budget);
    SameFold(reader, account);
    LoadHits(PerformAll(d2, ReconcileWrites(d2, account, None, Some(id), budget)), reader, saved);
  }

  lemma SameFold(a: string, b: string)
    ensures EqualIgnoringCase(a, b) ==> EqualIgnoringCase(b, a)
  {
  }

  /** The protected entry and its file outlive the reconciliation. */
  lemma SavedSurvives(d: Disk, account: string, budget: nat, saved: Entry)
    requires saved in KeptEntries(d.files, Entries(d), account, None, {})
    ensures var sweep := SweepOf(d, account, None, Some(saved.id), budget);
            && saved in sweep.kept && saved.fileName !in Names(sweep.evicted)
    ensures saved.fileName !in Orphans(d.files, Names(KeptEntries(d.files, Entries(d), account, None, {})))
  {
    hide BodyFileName, EqualIgnoringCase, KeptEntries, SweepOf, EndsWith, Contains;
    SweptEntries(d, account, None, Some(saved.id), budget);
    ShapeOf(saved.id);
    assert Describes(saved, d.files, account);
    assert saved.fileName in Names(KeptEntries(d.files, Entries(d), account, None, {}));
  }

  lemma LoadHits(d: Disk, reader: string, saved: Entry)
    requires !d.marker && !IsBlank(reader) && saved in Entries(d)
    requires BodyFileName(saved.id) == Some(saved.fileName) && EqualIgnoringCase(saved.account, reader)
    requires saved.fileName in d.files && Serves(d.files[saved.fileName], reader, saved.id)
    ensures LoadResult(d, reader, saved.id) == Ok(Some(d.files[saved.fileName].body))
  {
    hide BodyFileName, EqualIgnoringCase, KeptEntries, IsBlank, EndsWith, Contains;
    var entries := Entries(d);
    var i :| 0 <= i < |entries| && entries[i] == saved;
    var first := FirstOfId(entries, reader, saved.id, i);
    KeptHolds(d.files, entries, reader, None, {}, first);
    var e := entries[first].(bytes := d.files[entries[first].fileName].size);
    var kept := KeptEntries(d.files, entries, reader, None, {});
    PositionFinds(kept, reader, saved.id, e);
    ShapeOf(saved.id);
    assert saved.fileName in Names(kept);
  }

  /** The first acceptable entry of an id. */
  lemma FirstOfId(entries: seq<Entry>, reader: string, id: MessageId, i: nat) returns (first: nat)
    requires i < |entries| && entries[i].id == id && Acceptable(entries[i], reader, None)
    ensures first <= i && entries[first].id == id && Acceptable(entries[first], reader, None)
    ensures forall j | 0 <= j < first && Acceptable(entries[j], reader, None) :: entries[j].id != id
  {
    hide Acceptable;
    first := 0;
    while entries[first].id != id || !Acceptable(entries[first], reader, None)
      invariant first <= i
      invariant forall j | 0 <= j < first && Acceptable(entries[j], reader, None) :: entries[j].id != id
      decreases i - first
    {
      first := first + 1;
    }
  }

  // ----- the eviction policy -----

  function Bytes(entries: seq<Entry>): nat {
    if entries == [] then 0 else Bytes(entries[..|entries| - 1]) + entries[|entries| - 1].bytes
  }

  function Unprotected(protected: Option<MessageId>): Entry -> bool {
    (e: Entry) => protected != Some(e.id)
  }

  lemma {:induction false} TotalSaturates(entries: seq<Entry>)
    ensures TotalFrom(0, entries) == Least(Bytes(entries), U64_MAX)
  {
    if entries != [] { TotalSaturates(entries[..|entries| - 1]); }
  }

  /** Evicting a further entry only lowers what is left. */
  lemma {:induction false} BytesOfPrefix(entries: seq<Entry>, n: nat)
    requires n <= |entries|
    ensures Bytes(entries[..n]) <= Bytes(entries)
    decreases |entries|
  {
    if n < |entries| {
      var front := entries[..|entries| - 1];
      assert front[..n] == entries[..n];
      BytesOfPrefix(front, n);
    } else {
      assert entries[..n] == entries;
    }
  }

  /** What a sweep has evicted is a prefix of the unprotected entries, its last one still needed;
      once the total fits nothing more goes. */
  ghost predicate Minimal(sweep: Sweep, queue: seq<Entry>, total: nat, budget: nat) {
    && sweep.evicted <= queue
    && sweep.total == SaturatingSub(total, Bytes(sweep.evicted))
    && (sweep.total > budget ==> sweep.evicted == queue)
    && (sweep.evicted != [] ==> SaturatingSub(total, Bytes(sweep.evicted[..|sweep.evicted| - 1])) > budget)
  }

  lemma BytesSnoc(entries: seq<Entry>, e: Entry)
    ensures Bytes(entries + [e]) == Bytes(entries) + e.bytes
  {
    assert (entries + [e])[..|entries|] == entries;
  }

  lemma EvictedStep(so: Sweep, queue: seq<Entry>, total: nat, budget: nat, e: Entry)
    requires Minimal(so, queue, total, budget) && so.total > budget
    ensures Minimal(Sweep(so.kept, so.evicted + [e], SaturatingSub(so.total, e.bytes)), queue + [e], total, budget)
  {
    BytesSnoc(so.evicted, e);
    hide Bytes;
    var evicted := so.evicted + [e];
    assert so.evicted == queue;
    assert evicted[..|evicted| - 1] == so.evicted;
    assert evicted <= queue + [e];
    assert SaturatingSub(so.total, e.bytes) == SaturatingSub(total, Bytes(evicted));
  }

  lemma KeptStep(so: Sweep, queue: seq<Entry>, more: seq<Entry>, total: nat, budget: nat, e: Entry)
    requires Minimal(so, queue, total, budget) && (so.total > budget ==> more == [])
    ensures Minimal(Sweep(so.kept + [e], so.evicted, so.total), queue + more, total, budget)
  {
    hide Bytes;
    assert so.evicted <= queue + more;
    assert queue + [] == queue;
  }

  lemma MinimalStep(so: Sweep, queue: seq<Entry>, total: nat, budget: nat, protected: Option<MessageId>, e: Entry)
    requires Minimal(so, queue, total, budget)
    ensures Minimal(SweepMore(so, e, budget, protected),
                    queue + if Unprotected(protected)(e) then [e] else [], total, budget)
    ensures var next := SweepMore(so, e, budget, protected);
            Bytes(next.kept) + Bytes(next.evicted) == Bytes(so.kept) + Bytes(so.evicted) + e.bytes
  {
    BytesSnoc(so.evicted, e);
    BytesSnoc(so.kept, e);
    hide Bytes, Minimal;
    if so.total > budget && protected != Some(e.id) {
      EvictedStep(so, queue, total, budget, e);
    } else {
      KeptStep(so, queue, if Unprotected(protected)(e) then [e] else [], total, budget, e);
    }
  }

  lemma {:induction false} SweepState(entries: seq<Entry>, total: nat, budget: nat, protected: Option<MessageId>)
    ensures var sweep := SweepEntries(entries, total, budget, protected);
            && Minimal(sweep, Filter(entries, Unprotected(protected)), total, budget)
            && Bytes(sweep.kept) + Bytes(sweep.evicted) == Bytes(entries)
  {
    if entries != [] {
      var front, e := entries[..|entries| - 1], entries[|entries| - 1];
      assert entries == front + [e];
      SweepState(front, total, budget, protected);
      FilterAppend(front, [e], Unprotected(protected));
      FilterOne(e, Unprotected(protected));
      BytesSnoc(front, e);
      hide Minimal, Filter, SweepMore, Bytes;
      MinimalStep(SweepEntries(front, total, budget, protected), Filter(front, Unprotected(protected)),
                  total, budget, protected, e);
    }
  }

  lemma FilterOne(e: Entry, keep: Entry -> bool)
    ensures Filter([e], keep) == if keep(e) then [e] else []
  {
    assert [e][1..] == [];
  }

  /** Eviction removes the shortest least-recently-used prefix of the unprotected bodies after which
      the total fits the budget, or all of them when nothing less suffices. Sizes summing past 64 bits
      are seen as 2^64 - 1, so the bytes kept may exceed the budget by no more than that excess. */
  lemma EvictionIsLeastRecentAndMinimal(d: Disk, account: string, retained: Option<set<MessageId>>,
                                        protected: Option<MessageId>, budget: nat)
    ensures var entries := SortBy(KeptEntries(d.files, Entries(d), account, retained, {}), LeastRecentFirst());
            var sweep := SweepOf(d, account, retained, protected, budget);
            var queue := Filter(entries, Unprotected(protected));
            var n := |sweep.evicted|;
            var excess := Bytes(entries) - Least(Bytes(entries), U64_MAX);
            && Sorted(entries, LeastRecentFirst())
            && n <= |queue| && sweep.evicted == queue[..n]
            && (n < |queue| ==> Bytes(sweep.kept) <= budget + excess)
            && (n == |queue| ==> forall e <- sweep.kept :: protected == Some(e.id))
            && (forall m | 0 <= m < n :: Bytes(entries) - Bytes(queue[..m]) > budget)
  {
    hide KeptEntries, SweepEntries, TotalFrom, Bytes, Filter, LeastRecentFirst;
    var kept := KeptEntries(d.files, Entries(d), account, retained, {});
    var entries := SortBy(kept, LeastRecentFirst());
    LeastRecentIsOrder();
    SortSorts(kept, LeastRecentFirst());
    TotalSaturates(entries);
    var total := TotalFrom(0, entries);
    SweepState(entries, total, budget, protected);
    var sweep := SweepOf(d, account, retained, protected, budget);
    var queue := Filter(entries, Unprotected(protected));
    MinimalPrefix(sweep, queue, total, budget);
    if |sweep.evicted| == |queue| {
      SweepSplits(entries, total, budget, protected);
      NothingUnprotectedKept(entries, sweep, protected);
    }
  }

  lemma MinimalPrefix(sweep: Sweep, queue: seq<Entry>, total: nat, budget: nat)
    requires Minimal(sweep, queue, total, budget)
    ensures var n := |sweep.evicted|;
            && n <= |queue| && sweep.evicted == queue[..n]
            && (n < |queue| ==> SaturatingSub(total, Bytes(sweep.evicted)) <= budget)
            && (forall m | 0 <= m < n :: total - Bytes(queue[..m]) > budget)
  {
    hide Bytes;
    var n := |sweep.evicted|;
    forall m | 0 <= m < n ensures total - Bytes(queue[..m]) > budget {
      assert sweep.evicted[..n - 1] == queue[..n - 1];
      assert queue[..n - 1][..m] == queue[..m];
      BytesOfPrefix(queue[..n - 1], m);
    }
  }

  lemma NothingUnprotectedKept(entries: seq<Entry>, sweep: Sweep, protected: Option<MessageId>)
    requires multiset(sweep.kept) + multiset(sweep.evicted) == multiset(entries)
    requires sweep.evicted == Filter(entries, Unprotected(protected))
    ensures forall e <- sweep.kept :: protected == Some(e.id)
  {
    forall e <- sweep.kept ensures protected == Some(e.id) {
      FilterCounts(entries, Unprotected(protected), e);
      assert multiset(entries)[e] == multiset(sweep.kept)[e] + multiset(sweep.evicted)[e];
      assert e in multiset(sweep.kept);
    }
  }

  lemma {:induction false} FilterCounts(entries: seq<Entry>, keep: Entry -> bool, e: Entry)
    ensures keep(e) ==> multiset(Filter(entries, keep))[e] == multiset(entries)[e]
  {
    if entries != [] {
      FilterCounts(entries[1..], keep, e);
      assert entries == [entries[0]] + entries[1..];
    }
  }

  lemma LeastRecentIsOrder()
    ensures TotalOrder(LeastRecentFirst())
  {
    forall x, y ensures LeastRecentFirst()(x, y) || LeastRecentFirst()(y, x) {
      AtMostTotal(x.fileName, y.fileName);
    }
    forall x, y, z | LeastRecentFirst()(x, y) && LeastRecentFirst()(y, z) ensures LeastRecentFirst()(x, z) {
      if AtMost(x.fileName, y.fileName) && AtMost(y.fileName, z.fileName) {
        AtMostTransitive(x.fileName, y.fileName, z.fileName);
      }
    }
  }
}
