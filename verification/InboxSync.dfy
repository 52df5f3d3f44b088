/** One background poll: fetch the newest Inbox messages, then commit them through the notification gate
    with the same limit (src/worker.rs). */
module InboxSync {
  import opened Numbers
  import opened Results
  import opened Text
  import opened Sorting
  import opened MessageIds
  import opened Mail
  import opened FolderStore
  import opened FetchAccounting

  /** Turning a fetched record into a summary keeps its identity; headers are parsed elsewhere. */
  ghost predicate KeepsIdentity(summary: Record -> MessageSummary) {
    forall r: Record :: summary(r).id == Gmail(r.gmailId) && summary(r).folderId == Inbox
  }

  lemma PrintedIdsDiffer(m: nat, n: nat)
    requires m != n
    ensures Gmail(m) != Gmail(n)
  {
    DecimalParses(m);
    DecimalParses(n);
    assert Gmail(m).text[|PREFIX|..] == Decimal(m) && Gmail(n).text[|PREFIX|..] == Decimal(n);
  }

  /** What is committed are distinct Inbox rows, no more than the limit the commit is made with, and every
      message of the newest `limit` is among them or counted as skipped. */
  method SyncInbox(cache: FolderCache, account: string, count: nat, limit: nat, uidRows: seq<Option<nat>>,
                   rows: seq<Candidate>, summary: Record -> MessageSummary, catalog: FolderCatalog, now: nat)
    returns (r: Result<(Snapshot, seq<MessageId>), StoreError>, ghost incoming: Snapshot)
    requires KeepsIdentity(summary)
    modifies cache
    ensures !ValidLimit(limit) ==> r == Err(InvalidLimit) && cache.Disk() == old(cache.Disk())
    ensures ValidLimit(limit) ==>
              && |incoming.messages| <= limit && DistinctIds(incoming.messages)
              && (forall row <- incoming.messages :: row.folderId == Inbox)
              && |incoming.messages| + incoming.skippedCount >= Least(limit, count)
              && cache.Disk() == ReplaceStore(old(cache.Disk()), account, Inbox, incoming, limit, now)
              && match ReplaceResult(old(cache.Disk()), account, Inbox, incoming, limit, now)
                 case Err(e) => r == Err(e)
                 case Ok(served) => r == Ok((served, Announced(old(cache.Disk()), account, incoming)))
  {
    hide ValidStored, Replaced, Announced;
    if !ValidLimit(limit) {
      r, incoming := Err(InvalidLimit), Snapshot([], catalog, now, limit, 0, 0, 0);
      return;
    }
    var records, skipped := FetchNewest(count, limit, uidRows, rows);
    var messages := seq(|records|, i requires 0 <= i < |records| => summary(records[i]));
    forall i, j | 0 <= i < j < |messages| ensures messages[i].id != messages[j].id {
      PrintedIdsDiffer(records[i].gmailId, records[j].gmailId);
    }
    var snapshot := Snapshot(messages, catalog, now, limit, |messages|, CountFallbacks(messages), skipped);
    r := cache.ReplaceInboxWithNotificationGate(account, snapshot, limit, now);
    incoming := snapshot;
  }
}
