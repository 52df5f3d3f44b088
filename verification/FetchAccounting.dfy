/** Choosing the newest window of a mailbox and accounting for every message asked for (src/gmail.rs). */
module FetchAccounting {
  import opened Numbers
  import opened Results
  import opened Sorting
  import opened FolderStore

  const MAX_SEARCH_RESULTS: nat := 500

  // ----- the window of sequence numbers -----

  /** First and last sequence number of the newest window. */
  function NewestSequenceSet(count: nat, limit: nat): (r: Option<(nat, nat)>)
    ensures r.None? <==> count == 0 || !ValidLimit(limit)
    ensures r.Some? ==> 1 <= r.value.0 <= r.value.1 == count && r.value.1 - r.value.0 + 1 == Least(limit, count)
  {
    if count == 0 || !ValidLimit(limit) then None
    else
      var first := SaturatingSub(count, SaturatingSub(limit, 1));
      Some((if first < 1 then 1 else first, count))
  }

  // ----- ordered sets of UIDs -----

  ghost predicate Ascending(s: seq<nat>) {
    forall i, j | 0 <= i < j < |s| :: s[i] < s[j]
  }

  function InsertUid(x: nat, s: seq<nat>): seq<nat> {
    if s == [] || x < s[0] then [x] + s
    else if x == s[0] then s
    else [s[0]] + InsertUid(x, s[1..])
  }

  /** The non-zero values, ascending, each once. */
  function OrderedUids(values: seq<nat>): seq<nat> {
    if values == [] then []
    else
      var so, last := OrderedUids(values[..|values| - 1]), values[|values| - 1];
      if last == 0 then so else InsertUid(last, so)
  }

  lemma HeadBelow(x: nat, s: seq<nat>)
    requires Ascending(s) && forall y <- s :: x < y
    ensures Ascending([x] + s)
  {
    assert forall k | 0 <= k < |s| :: s[k] in s;
  }

  lemma HeadSmallest(s: seq<nat>)
    requires Ascending(s) && s != []
    ensures Ascending(s[1..]) && s == [s[0]] + s[1..]
    ensures forall y <- s[1..] :: s[0] < y
  {
  }

  lemma {:induction false} InsertUidOrders(x: nat, s: seq<nat>)
    requires Ascending(s)
    ensures Ascending(InsertUid(x, s))
    ensures forall y :: y in InsertUid(x, s) <==> y in s || y == x
  {
    if s == [] {
      assert InsertUid(x, s) == [x];
    } else {
      hide Ascending;
      HeadSmallest(s);
      if x < s[0] {
        assert forall y <- s :: x < y;
        HeadBelow(x, s);
      } else if x > s[0] {
        InsertUidOrders(x, s[1..]);
        HeadBelow(s[0], InsertUid(x, s[1..]));
      }
    }
  }

  function Seen(values: seq<nat>): set<nat> {
    set v | v in values && v != 0
  }

  lemma {:induction false} OrderedUidsShape(values: seq<nat>)
    ensures Ascending(OrderedUids(values))
    ensures forall y :: y in OrderedUids(values) <==> y in Seen(values)
    ensures |OrderedUids(values)| == |Seen(values)|
  {
    if values != [] {
      var front, last := values[..|values| - 1], values[|values| - 1];
      assert values == front + [last];
      OrderedUidsShape(front);
      InsertUidOrders(last, OrderedUids(front));
    }
    var all := OrderedUids(values);
    assert Ascending(all) && forall y :: y in all <==> y in Seen(values);
    DistinctLength(all);
    assert Elements(all) == Seen(values);
  }

  function LastOf(s: seq<nat>, n: nat): seq<nat> {
    s[|s| - Least(n, |s|)..]
  }

  /** The `n` largest distinct non-zero values, ascending. */
  ghost predicate AreLargest(uids: seq<nat>, values: seq<nat>, n: nat) {
    && Ascending(uids)
    && (forall u <- uids :: u in Seen(values))
    && |uids| == Least(n, |Seen(values)|)
    && forall u, v | u in Seen(values) && u !in uids && v in uids :: u < v
  }

  lemma TailIsLargest(all: seq<nat>, first: nat)
    requires Ascending(all) && first <= |all|
    ensures Ascending(all[first..])
    ensures forall u <- all[first..] :: u in all
    ensures forall u, v | u in all[..first] && v in all[first..] :: u < v
  {
    var front, uids := all[..first], all[first..];
    forall u, v | u in front && v in uids ensures u < v {
      var i :| 0 <= i < |front| && front[i] == u;
      var j :| 0 <= j < |uids| && uids[j] == v;
      assert all[i] == u && all[first + j] == v;
    }
  }

  lemma LastAreLargest(values: seq<nat>, n: nat)
    ensures AreLargest(LastOf(OrderedUids(values), n), values, n)
  {
    hide OrderedUids, Ascending, Seen;
    var all := OrderedUids(values);
    OrderedUidsShape(values);
    var first := |all| - Least(n, |all|);
    TailIsLargest(all, first);
    assert all == all[..first] + all[first..];
  }

  function SelectNewestUids(values: seq<nat>, limit: nat): seq<nat> {
    if !ValidLimit(limit) then [] else LastOf(OrderedUids(values), limit)
  }

  lemma SelectedAreNewest(values: seq<nat>, limit: nat)
    ensures if ValidLimit(limit) then AreLargest(SelectNewestUids(values, limit), values, limit)
            else SelectNewestUids(values, limit) == []
  {
    LastAreLargest(values, limit);
  }

  /** A search keeps the newest results and says whether it had to drop any. */
  function NewestSearchUids(values: seq<nat>): (seq<nat>, bool) {
    var all := OrderedUids(values);
    (LastOf(all, MAX_SEARCH_RESULTS), |all| > MAX_SEARCH_RESULTS)
  }

  lemma SearchKeepsNewest(values: seq<nat>)
    ensures var (uids, truncated) := NewestSearchUids(values);
            && AreLargest(uids, values, MAX_SEARCH_RESULTS)
            && (truncated <==> exists u :: u in Seen(values) && u !in uids)
  {
    hide OrderedUids, LastOf;
    LastAreLargest(values, MAX_SEARCH_RESULTS);
    OrderedUidsShape(values);
    var uids := NewestSearchUids(values).0;
    DistinctLength(uids);
    var rest := Seen(values) - Elements(uids);
    assert Seen(values) * Elements(uids) == Elements(uids);
    assert |rest| == |Seen(values)| - |uids|;
    if |rest| > 0 {
      var u :| u in rest;
    } else {
      assert rest == {};
    }
  }

  function Known(values: seq<Option<nat>>): seq<nat> {
    if values == [] then []
    else
      var so, last := Known(values[..|values| - 1]), values[|values| - 1];
      if last.Some? then so + [last.value] else so
  }

  lemma {:induction false} KnownExact(values: seq<Option<nat>>)
    ensures forall u :: u in Known(values) <==> Some(u) in values
  {
    if values != [] {
      var front, last := values[..|values| - 1], values[|values| - 1];
      assert values == front + [last];
      KnownExact(front);
    }
  }

  function DiscoveredUids(expected: nat, limit: nat, values: seq<Option<nat>>): (seq<nat>, nat) {
    var unique := OrderedUids(Known(values));
    var wanted := Least(expected, limit);
    var uids := LastOf(unique, wanted);
    (uids, SaturatingSub(wanted, |uids|) + SaturatingSub(|unique|, wanted))
  }

  /** Discovery keeps the largest distinct UIDs up to what was expected, and counts as skipped how far
      the number seen is from it, either way. */
  lemma DiscoveryAccounts(expected: nat, limit: nat, values: seq<Option<nat>>)
    ensures var (uids, skipped) := DiscoveredUids(expected, limit, values);
            var wanted := Least(expected, limit);
            var seen := |Seen(Known(values))|;
            && AreLargest(uids, Known(values), wanted)
            && skipped == (if seen < wanted then wanted - seen else seen - wanted)
            && |uids| + skipped >= wanted
            && (forall u :: u in Seen(Known(values)) <==> u != 0 && Some(u) in values)
  {
    hide OrderedUids, Known;
    KnownExact(values);
    LastAreLargest(Known(values), Least(expected, limit));
    OrderedUidsShape(Known(values));
  }

  // ----- classifying fetched rows -----

  /** The columns the classifier decides on; `header` stands for all it passes through. */
  datatype Candidate = Candidate(uid: Option<nat>, gmailId: Option<nat>, header: Option<string>)

  datatype Record = Record(gmailId: nat, uid: nat, header: string)

  predicate Asked(requested: set<nat>, c: Candidate) {
    c.uid.Some? && c.uid.value in requested && c.uid.value != 0
  }

  /** The first row of a requested UID. */
  predicate FirstOfUid(requested: set<nat>, rows: seq<Candidate>, i: nat)
    requires i < |rows|
  {
    Asked(requested, rows[i]) && forall k | 0 <= k < i :: rows[k].uid != rows[i].uid
  }

  predicate HasId(c: Candidate) {
    c.gmailId.Some? && c.gmailId.value != 0
  }

  /** A row is kept when it is the first of its UID, the first such row of its Gmail id, and has a header. */
  predicate Kept(requested: set<nat>, rows: seq<Candidate>, i: nat)
    requires i < |rows|
  {
    && FirstOfUid(requested, rows, i) && HasId(rows[i])
    && (forall k | 0 <= k < i :: FirstOfUid(requested, rows, k) ==> rows[k].gmailId != rows[i].gmailId)
    && rows[i].header.Some?
  }

  function RecordOf(c: Candidate): Record
    requires HasId(c) && c.uid.Some? && c.header.Some?
  {
    Record(c.gmailId.value, c.uid.value, c.header.value)
  }

  function KeptPlaces(requested: set<nat>, rows: seq<Candidate>, n: nat): set<nat>
    requires n <= |rows|
  {
    set i: nat | i < n && Kept(requested, rows, i)
  }

  lemma KeptStep(requested: set<nat>, rows: seq<Candidate>, n: nat)
    requires n < |rows|
    ensures |KeptPlaces(requested, rows, n + 1)|
         == |KeptPlaces(requested, rows, n)| + if Kept(requested, rows, n) then 1 else 0
  {
    hide Kept;
    assert KeptPlaces(requested, rows, n + 1)
        == KeptPlaces(requested, rows, n) + if Kept(requested, rows, n) then {n} else {};
  }

  function Received(requested: set<nat>, rows: seq<Candidate>, n: nat): set<nat>
    requires n <= |rows|
  {
    set i: nat | i < n && Asked(requested, rows[i]) :: rows[i].uid.value
  }

  function TakenIds(requested: set<nat>, rows: seq<Candidate>, n: nat): set<nat>
    requires n <= |rows|
  {
    set i: nat | i < n && FirstOfUid(requested, rows, i) && HasId(rows[i]) :: rows[i].gmailId.value
  }

  lemma ReceivedStep(requested: set<nat>, rows: seq<Candidate>, i: nat)
    requires i < |rows|
    ensures Asked(requested, rows[i]) ==>
              Received(requested, rows, i + 1) == Received(requested, rows, i) + {rows[i].uid.value}
    ensures !Asked(requested, rows[i]) ==> Received(requested, rows, i + 1) == Received(requested, rows, i)
  {
  }

  lemma TakenStep(requested: set<nat>, rows: seq<Candidate>, i: nat)
    requires i < |rows|
    ensures FirstOfUid(requested, rows, i) && HasId(rows[i]) ==>
              TakenIds(requested, rows, i + 1) == TakenIds(requested, rows, i) + {rows[i].gmailId.value}
    ensures !(FirstOfUid(requested, rows, i) && HasId(rows[i])) ==>
              TakenIds(requested, rows, i + 1) == TakenIds(requested, rows, i)
  {
    hide FirstOfUid;
  }

  lemma FirstIsUnreceived(requested: set<nat>, rows: seq<Candidate>, i: nat)
    requires i < |rows|
    ensures FirstOfUid(requested, rows, i) <==>
            Asked(requested, rows[i]) && rows[i].uid.value !in Received(requested, rows, i)
  {
    if Asked(requested, rows[i]) {
      if rows[i].uid.value in Received(requested, rows, i) {
        var k: nat :| k < i && Asked(requested, rows[k]) && rows[k].uid.value == rows[i].uid.value;
        assert rows[k].uid == rows[i].uid;
      }
      forall k | 0 <= k < i && rows[k].uid == rows[i].uid ensures rows[i].uid.value in Received(requested, rows, i) {
        assert Asked(requested, rows[k]);
      }
    }
  }

  lemma KeptIsNew(requested: set<nat>, rows: seq<Candidate>, i: nat)
    requires i < |rows|
    ensures Kept(requested, rows, i) <==>
            FirstOfUid(requested, rows, i) && HasId(rows[i])
            && rows[i].gmailId.value !in TakenIds(requested, rows, i) && rows[i].header.Some?
  {
    hide FirstOfUid;
    if FirstOfUid(requested, rows, i) && HasId(rows[i]) {
      if rows[i].gmailId.value in TakenIds(requested, rows, i) {
        var k: nat :| k < i && FirstOfUid(requested, rows, k) && HasId(rows[k])
                      && rows[k].gmailId.value == rows[i].gmailId.value;
        assert rows[k].gmailId == rows[i].gmailId;
      }
      forall k: nat | k < i && FirstOfUid(requested, rows, k) && rows[k].gmailId == rows[i].gmailId
        ensures rows[i].gmailId.value in TakenIds(requested, rows, i)
      {
        assert HasId(rows[k]);
      }
    }
  }

  function NewestUidFirst(): (Record, Record) -> bool {
    (a: Record, b: Record) => a.uid >= b.uid
  }

  function UidKey(): Record -> nat {
    (r: Record) => r.uid
  }

  function GmailIdKey(): Record -> nat {
    (r: Record) => r.gmailId
  }

  /** The records are those of the kept rows. */
  ghost predicate FromKept(requested: set<nat>, rows: seq<Candidate>, n: nat, records: seq<Record>)
    requires n <= |rows|
  {
    && (forall r <- records :: exists i | 0 <= i < n :: Kept(requested, rows, i) && r == RecordOf(rows[i]))
    && (forall i | 0 <= i < n && Kept(requested, rows, i) :: RecordOf(rows[i]) in records)
  }

  lemma RecordsStep(requested: set<nat>, rows: seq<Candidate>, i: nat, records: seq<Record>)
    requires i < |rows| && FromKept(requested, rows, i, records)
    ensures !Kept(requested, rows, i) ==> FromKept(requested, rows, i + 1, records)
    ensures Kept(requested, rows, i) ==> FromKept(requested, rows, i + 1, records + [RecordOf(rows[i])])
  {
    if Kept(requested, rows, i) {
      hide Kept;
      var next := records + [RecordOf(rows[i])];
      assert forall r <- records :: r in next;
      assert RecordOf(rows[i]) in next;
    }
  }

  lemma NewRecordApart(requested: set<nat>, rows: seq<Candidate>, i: nat, records: seq<Record>)
    requires i < |rows| && FromKept(requested, rows, i, records) && Kept(requested, rows, i)
    requires Apart(records, UidKey()) && Apart(records, GmailIdKey())
    ensures Apart(records + [RecordOf(rows[i])], UidKey()) && Apart(records + [RecordOf(rows[i])], GmailIdKey())
  {
    var row := RecordOf(rows[i]);
    forall r <- records ensures r.uid != row.uid && r.gmailId != row.gmailId {
      var k :| 0 <= k < i && Kept(requested, rows, k) && r == RecordOf(rows[k]);
    }
  }

  lemma SortedRecords(requested: set<nat>, rows: seq<Candidate>, records: seq<Record>)
    requires FromKept(requested, rows, |rows|, records)
    requires Apart(records, UidKey()) && Apart(records, GmailIdKey())
    ensures var all := SortBy(records, NewestUidFirst());
            && |all| == |records| && FromKept(requested, rows, |rows|, all)
            && forall i, j | 0 <= i < j < |all| :: all[i].uid > all[j].uid && all[i].gmailId != all[j].gmailId
  {
    hide Kept;
    var all := SortBy(records, NewestUidFirst());
    SortElements(records, NewestUidFirst());
    SortKeepsMembers(records, NewestUidFirst());
    SortSorts(records, NewestUidFirst());
    SortApart(records, NewestUidFirst(), UidKey());
    SortApart(records, NewestUidFirst(), GmailIdKey());
    forall i, j | 0 <= i < j < |all| ensures all[i].uid > all[j].uid && all[i].gmailId != all[j].gmailId {
      assert NewestUidFirst()(all[i], all[j]);
      assert UidKey()(all[i]) != UidKey()(all[j]) && GmailIdKey()(all[i]) != GmailIdKey()(all[j]);
    }
  }

  lemma {:induction false} ReceivedAtMost(requested: set<nat>, rows: seq<Candidate>, n: nat)
    requires n <= |rows|
    ensures |Received(requested, rows, n)| <= n
  {
    hide Received;
    if n > 0 {
      ReceivedAtMost(requested, rows, n - 1);
      ReceivedStep(requested, rows, n - 1);
      if Asked(requested, rows[n - 1]) {
        OneLarger(Received(requested, rows, n - 1), rows[n - 1].uid.value);
      }
    } else {
      NothingReceived(requested, rows);
    }
  }

  lemma OneLarger(a: set<nat>, x: nat)
    ensures |a + {x}| <= |a| + 1
  {
  }

  lemma NothingReceived(requested: set<nat>, rows: seq<Candidate>)
    ensures Received(requested, rows, 0) == {} && TakenIds(requested, rows, 0) == {}
            && KeptPlaces(requested, rows, 0) == {}
  {
  }

  lemma RequestedAccounts(requested: set<nat>, rows: seq<Candidate>)
    ensures var received := |Received(requested, rows, |rows|)|;
            && received <= |rows| && received <= |requested|
            && |requested - Received(requested, rows, |rows|)| == |requested| - received
  {
    var received := Received(requested, rows, |rows|);
    ReceivedAtMost(requested, rows, |rows|);
    assert requested == received + (requested - received);
  }

  /** What one row does to the two sets, to the kept rows and to their records. */
  lemma RowStep(requested: set<nat>, rows: seq<Candidate>, i: nat, records: seq<Record>)
    requires i < |rows| && FromKept(requested, rows, i, records)
    requires Apart(records, UidKey()) && Apart(records, GmailIdKey())
    ensures var row := rows[i];
            var received, taken := Received(requested, rows, i), TakenIds(requested, rows, i);
            var first := Asked(requested, row) && row.uid.value !in received;
            var kept := first && HasId(row) && row.gmailId.value !in taken && row.header.Some?;
            var next := if kept then records + [RecordOf(row)] else records;
            && Received(requested, rows, i + 1) == (if first then received + {row.uid.value} else received)
            && TakenIds(requested, rows, i + 1) == (if first && HasId(row) then taken + {row.gmailId.value} else taken)
            && FromKept(requested, rows, i + 1, next)
            && |KeptPlaces(requested, rows, i + 1)| == |KeptPlaces(requested, rows, i)| + (if kept then 1 else 0)
            && Apart(next, UidKey()) && Apart(next, GmailIdKey())
  {
    hide Kept, FirstOfUid, Received, TakenIds, KeptPlaces, FromKept, Apart;
    ReceivedStep(requested, rows, i);
    TakenStep(requested, rows, i);
    FirstIsUnreceived(requested, rows, i);
    KeptIsNew(requested, rows, i);
    KeptStep(requested, rows, i);
    RecordsStep(requested, rows, i, records);
    if Kept(requested, rows, i) { NewRecordApart(requested, rows, i, records); }
  }

  /** Every requested message is a record or counted as skipped; the records are the kept rows, newest
      UID first, each UID and each Gmail id once. */
  method ClassifySummaries(requested: set<nat>, candidates: seq<Candidate>) returns (records: seq<Record>, skipped: nat)
    ensures FromKept(requested, candidates, |candidates|, records)
    ensures forall i, j | 0 <= i < j < |records| ::
            records[i].uid > records[j].uid && records[i].gmailId != records[j].gmailId
    ensures forall r <- records ::
              && r.uid in requested && r.uid != 0 && r.gmailId != 0
              && Candidate(Some(r.uid), Some(r.gmailId), Some(r.header)) in candidates
    ensures |records| == |KeptPlaces(requested, candidates, |candidates|)|
    ensures skipped == (|candidates| - |records|) + |requested - Received(requested, candidates, |candidates|)|
    ensures |records| + skipped >= |requested|
  {
    hide Kept, FirstOfUid, Received, TakenIds, KeptPlaces, FromKept, Apart;
    records, skipped := [], 0;
    var receivedUids: set<nat>, receivedIds: set<nat> := {}, {};
    NothingReceived(requested, candidates);
    NoRecords(requested, candidates);
    for i := 0 to |candidates|
      invariant receivedUids == Received(requested, candidates, i)
      invariant receivedIds == TakenIds(requested, candidates, i)
      invariant FromKept(requested, candidates, i, records)
      invariant |records| == |KeptPlaces(requested, candidates, i)|
      invariant |records| + skipped == i
      invariant Apart(records, UidKey()) && Apart(records, GmailIdKey())
    {
      var candidate := candidates[i];
      RowStep(requested, candidates, i, records);
      if candidate.uid.None? || candidate.uid.value !in requested || candidate.uid.value == 0 {
        skipped := skipped + 1;
        continue;
      }
      var uid := candidate.uid.value;
      if uid in receivedUids {
        skipped := skipped + 1;
        continue;
      }
      receivedUids := receivedUids + {uid};
      if candidate.gmailId.None? || candidate.gmailId.value == 0 {
        skipped := skipped + 1;
        continue;
      }
      var gmailId := candidate.gmailId.value;
      if gmailId in receivedIds {
        skipped := skipped + 1;
        continue;
      }
      receivedIds := receivedIds + {gmailId};
      if candidate.header.None? {
        skipped := skipped + 1;
        continue;
      }
      records := records + [Record(gmailId, uid, candidate.header.value)];
    }
    RequestedAccounts(requested, candidates);
    SortedRecords(requested, candidates, records);
    skipped := skipped + SaturatingSub(|requested|, |receivedUids|);
    records := SortBy(records, NewestUidFirst());
    RecordsAsked(requested, candidates, records);
  }

  lemma RecordsAsked(requested: set<nat>, rows: seq<Candidate>, records: seq<Record>)
    requires FromKept(requested, rows, |rows|, records)
    ensures forall r <- records ::
              && r.uid in requested && r.uid != 0 && r.gmailId != 0
              && Candidate(Some(r.uid), Some(r.gmailId), Some(r.header)) in rows
  {
    forall r <- records
      ensures r.uid in requested && r.uid != 0 && r.gmailId != 0
              && Candidate(Some(r.uid), Some(r.gmailId), Some(r.header)) in rows
    {
      var i :| 0 <= i < |rows| && Kept(requested, rows, i) && r == RecordOf(rows[i]);
      assert rows[i] in rows;
    }
  }

  lemma NoRecords(requested: set<nat>, rows: seq<Candidate>)
    ensures FromKept(requested, rows, 0, []) && Apart([], UidKey()) && Apart([], GmailIdKey())
  {
  }

  // ----- the whole fetch -----

  /** One pass over a mailbox: the window, the UIDs found in it, and the rows fetched for them. */
  method FetchNewest(count: nat, limit: nat, uidRows: seq<Option<nat>>, rows: seq<Candidate>)
    returns (records: seq<Record>, skipped: nat)
    requires ValidLimit(limit)
    ensures |records| + skipped >= Least(limit, count)
    ensures forall i, j | 0 <= i < j < |records| ::
            records[i].uid > records[j].uid && records[i].gmailId != records[j].gmailId
    ensures forall r <- records :: r.uid != 0 && Some(r.uid) in uidRows
    ensures |records| <= Least(limit, count)
  {
    hide Kept, OrderedUids, Known, LastOf;
    var window := NewestSequenceSet(count, limit);
    if window.None? {
      return [], 0;
    }
    var (uids, discoverySkipped) := DiscoveredUids(Least(count, limit), limit, uidRows);
    DiscoveryAccounts(Least(count, limit), limit, uidRows);
    if uids == [] {
      return [], discoverySkipped;
    }
    var requested := Elements(uids);
    DistinctLength(uids);
    records, skipped := ClassifySummaries(requested, rows);
    AskedRecords(requested, rows, records);
    skipped := skipped + discoverySkipped;
  }

  lemma AskedRecords(requested: set<nat>, rows: seq<Candidate>, records: seq<Record>)
    requires FromKept(requested, rows, |rows|, records)
    requires forall i, j | 0 <= i < j < |records| :: records[i].uid > records[j].uid
    ensures forall r <- records :: r.uid in requested
    ensures |records| <= |requested|
  {
    forall r <- records ensures r.uid in requested {
      var i :| 0 <= i < |rows| && Kept(requested, rows, i) && r == RecordOf(rows[i]);
    }
    var uids := seq(|records|, i requires 0 <= i < |records| => records[i].uid);
    DistinctLength(uids);
    assert forall u <- uids :: u in requested;
    SubsetSmaller(Elements(uids), requested);
  }

  lemma SubsetSmaller(a: set<nat>, b: set<nat>)
    requires a <= b
    ensures |a| <= |b|
  {
    assert b == a + (b - a);
  }
}
