/** Which folder and search requests are sent and what ends them, stated on what the user typed and opened, and
    what a turn of the account leaves on screen (src/state.rs). */
module LaneRules {
  import opened Results
  import opened Text
  import opened Sorting
  import opened Mail
  import opened FolderStore
  import opened RequestLanes
  import RowPlacement

  // ----- the query -----

  /** `q` stands at [i..j] of the text, with nothing but white space around it, and has none at its ends. */
  ghost predicate TrimsTo(s: string, q: string, i: nat, j: nat) {
    && i <= j <= |s| && q == s[i..j]
    && (forall k | 0 <= k < i :: IsWhitespace(s[k])) && (forall k | j <= k < |s| :: IsWhitespace(s[k]))
    && (q != "" ==> !IsWhitespace(q[0]) && !IsWhitespace(q[|q| - 1]))
  }

  /** `q` is the text without the white space around it. */
  ghost predicate Trims(s: string, q: string) {
    exists i, j :: TrimsTo(s, q, i, j)
  }

  lemma {:induction false} TrimStartAt(s: string) returns (i: nat)
    ensures i <= |s| && TrimStart(s) == s[i..]
    ensures forall k | 0 <= k < i :: IsWhitespace(s[k])
    ensures i < |s| ==> !IsWhitespace(s[i])
  {
    hide IsWhitespace;
    i := 0;
    if s != "" && IsWhitespace(s[0]) {
      var rest := TrimStartAt(s[1..]);
      i := rest + 1;
      assert forall k | 0 < k < i :: s[k] == s[1..][k - 1];
    }
  }

  lemma {:induction false} TrimEndAt(s: string) returns (j: nat)
    ensures j <= |s| && TrimEnd(s) == s[..j]
    ensures forall k | j <= k < |s| :: IsWhitespace(s[k])
    ensures j > 0 ==> !IsWhitespace(s[j - 1])
  {
    hide IsWhitespace;
    j := |s|;
    if s != "" && IsWhitespace(s[|s| - 1]) {
      j := TrimEndAt(s[..|s| - 1]);
    }
  }

  lemma TrimmedAround(s: string)
    ensures Trims(s, TrimEnd(TrimStart(s)))
  {
    hide IsWhitespace, TrimStart, TrimEnd;
    var i := TrimStartAt(s);
    var rest := TrimStart(s);
    var j := TrimEndAt(rest);
    assert rest[..j] == s[i..i + j];
    assert forall k | i + j <= k < |s| :: s[k] == rest[k - i];
    assert TrimsTo(s, TrimEnd(rest), i, i + j);
  }

  lemma TrimsOnce(s: string, a: string, b: string)
    requires Trims(s, a) && Trims(s, b)
    ensures a == b
  {
    hide TrimsTo;
    var i, j :| TrimsTo(s, a, i, j);
    var m, n :| TrimsTo(s, b, m, n);
    SameTrim(s, a, i, j, b, m, n);
  }

  lemma SameTrim(s: string, a: string, i: nat, j: nat, b: string, m: nat, n: nat)
    requires TrimsTo(s, a, i, j) && TrimsTo(s, b, m, n)
    ensures a == b
  {
    hide IsWhitespace;
    if i < j { Within(s, i, j, m, n); }
    if m < n { Within(s, m, n, i, j); }
  }

  /** Text that neither begins nor ends in white space lies within what trimming leaves. */
  lemma Within(s: string, i: nat, j: nat, m: nat, n: nat)
    requires i < j <= |s| && m <= n <= |s| && !IsWhitespace(s[i]) && !IsWhitespace(s[j - 1])
    requires (forall k | 0 <= k < m :: IsWhitespace(s[k])) && (forall k | n <= k < |s| :: IsWhitespace(s[k]))
    ensures m <= i && j <= n
  {
    hide IsWhitespace;
  }

  /** The query is the trimmed text, if that is not empty, at most 2048 bytes of UTF-8, and without controls. */
  lemma QueryExact(s: string, q: string)
    ensures ValidQuery(s) == Some(q) <==> Trims(s, q) && q != "" && Utf8Length(q) <= 2048 && !HasControl(q)
  {
    hide Trims, HasControl, TrimStart, TrimEnd;
    TrimmedAround(s);
    if Trims(s, q) { TrimsOnce(s, q, TrimEnd(TrimStart(s))); }
  }

  // ----- searches -----

  /** What ends the search on screen: its generation passes, and Gmail is told if it was still running. */
  ghost predicate EndsSearch(s: State, now: State, sent: seq<Effect>) {
    && now.search == Idle && now.nextSearchRequest == s.nextSearchRequest
    && (s.search.Idle? ==> now.searchGeneration == s.searchGeneration && sent == [])
    && (!s.search.Idle? ==> now.searchGeneration == s.searchGeneration + 1)
    && (s.search.Searching? ==> sent == [CancelSearch(s.search.request, now.searchGeneration)])
    && (!s.search.Searching? ==> sent == [])
  }

  /** A search is sent exactly for a query that is not empty, in a ready session of an account whose list offers
      All Mail: under the next number and a generation above all before, for the text as it was typed but trimmed,
      after the running search was cancelled. Otherwise nothing happens. */
  lemma SearchIsSent(s: State)
    ensures var (now, sent) := Submitted(s);
            var begins := ValidQuery(s.query).Some? && s.ready && s.account && s.mailbox.Some?
                          && s.mailbox.value.catalog.Find(AllMail).Some?;
            && (!begins ==> now == s && sent == [])
            && (begins ==>
                  && var q := ValidQuery(s.query).value;
                     var request := SearchGmail(s.nextSearchRequest, now.searchGeneration, q);
                     && now == s.(search := Searching(s.nextSearchRequest, now.searchGeneration, q),
                                  searchGeneration := now.searchGeneration,
                                  nextSearchRequest := s.nextSearchRequest + 1)
                     && now.searchGeneration > s.searchGeneration
                     && (s.search.Searching? ==>
                           |sent| == 2 && sent[1] == request && sent[0].CancelSearch?
                           && sent[0].request == s.search.request && s.searchGeneration < sent[0].generation)
                     && (!s.search.Searching? ==> sent == [request]))
  {
    hide ValidQuery, FolderCatalog.Find;
  }

  /** Retrying a failed search submits its own query again, whatever stands in the field meanwhile. */
  lemma RetryExact(s: State)
    ensures s.search.SearchFailure? ==> Retried(s) == Submitted(s.(query := s.search.query))
    ensures !s.search.SearchFailure? ==> Retried(s) == (s, [])
  {
    hide ValidQuery, Lists;
  }

  /** Editing the query ends the search on screen; typing the same text changes nothing. */
  lemma EditExact(s: State, query: string)
    ensures var (now, sent) := Edited(s, query);
            if query == s.query then now == s && sent == []
            else
              && EndsSearch(s, now, sent)
              && now == s.(query := query, search := Idle, searchGeneration := now.searchGeneration)
  {
  }

  // ----- folders -----

  /** A folder is fetched exactly when the account and its list are there and the catalog has the folder: under the
      next number and generation, and it is then the one awaited; another folder starts with an empty list of the
      same catalog, the same folder keeps its rows. Otherwise nothing happens. */
  lemma FolderIsFetched(s: State, folder: FolderId)
    ensures var (now, sent) := FolderSelected(s, folder);
            var begins := s.account && s.mailbox.Some? && s.mailbox.value.catalog.Find(folder).Some?;
            && (!begins ==> now == s && sent == [])
            && (begins ==>
                  && now.selected == folder && now.activeFolder == Some(s.nextFolderRequest) && now.folderLoading
                  && now.nextFolderRequest == s.nextFolderRequest + 1 && now.folderGeneration == s.folderGeneration + 1
                  && now.account == s.account && now.ready == s.ready && now.query == s.query && now.search == Idle
                  && sent != [] && sent[|sent| - 1] == FetchFolder(s.nextFolderRequest, now.folderGeneration, folder)
                  && EndsSearch(s, now, sent[..|sent| - 1])
                  && now.mailbox.Some? && now.mailbox.value.catalog == s.mailbox.value.catalog
                  && (folder == s.selected ==> now.mailbox == s.mailbox)
                  && (folder != s.selected ==>
                        now.mailbox.value.messages == [] && now.mailbox.value.requestedLimit == s.cacheLimit))
  {
    hide FolderCatalog.Find, EndsSearch;
    var cleared := Invalidated(s);
    InvalidatedEnds(s);
    hide Invalidated;
    if CanLoad(s, folder) {
      var (now, sent) := FolderSelected(s, folder);
      assert sent[..|sent| - 1] == cleared.1;
      SameEnd(s, cleared.0, now, cleared.1);
    }
  }

  lemma InvalidatedEnds(s: State)
    ensures var (now, sent) := Invalidated(s);
            EndsSearch(s, now, sent) && now == s.(search := Idle, searchGeneration := now.searchGeneration)
  {
  }

  lemma SameEnd(s: State, cleared: State, now: State, sent: seq<Effect>)
    requires EndsSearch(s, cleared, sent) && now.search == cleared.search
    requires now.searchGeneration == cleared.searchGeneration && now.nextSearchRequest == cleared.nextSearchRequest
    ensures EndsSearch(s, now, sent)
  {
  }

  /** A cached answer is shown while the fresh one is still awaited; the fresh one ends the loading in a ready
      session; a refusal ends it too, and a session without Gmail is no longer ready. */
  lemma FolderAnswersExact(s: State, snapshot: Snapshot, failure: Failure)
    requires s.activeFolder.Some?
    ensures var r, g, folder := s.activeFolder.value, s.folderGeneration, s.selected;
            && FolderAnswered(s, r, g, folder, snapshot, true) == s.(mailbox := Some(snapshot), folderLoading := true)
            && FolderAnswered(s, r, g, folder, snapshot, false)
               == s.(mailbox := Some(snapshot), folderLoading := false, activeFolder := None, ready := true)
            && var refused := FolderRefused(s, r, g, folder, failure);
               && refused == s.(activeFolder := None, folderLoading := false, ready := refused.ready)
               && (failure in [Offline, TimedOut, AuthorizationRequired] ==> !refused.ready)
               && (failure in [MailboxChanged, Missing, Protocol] ==> refused.ready == s.ready)
  {
  }

  // ----- turns of the account -----

  /** Nothing of a mailbox is on screen and nothing of it is awaited. */
  predicate NothingShown(s: State) {
    s.mailbox == None && s.search == Idle && s.selected == Inbox && s.activeFolder == None && !s.folderLoading
  }

  /** Leaving, being disconnected and the identity of another account clear the screen, and outdate every folder
      request; only the last leaves an account. */
  lemma TurnsClearScreen(s: State, e: Event)
    requires e.Leave? || e.NewIdentity? || e.Disconnect?
    ensures var now := Step(s, e);
            && NothingShown(now) && now.folderGeneration > s.folderGeneration
            && now.nextFolderRequest == s.nextFolderRequest
            && (e.NewIdentity? ==> now.account) && (e.Disconnect? ==> !now.account && !now.ready)
            && (e.Leave? ==> !now.ready)
  {
  }

  /** The stored Inbox opens Inbox; a finished sync shows its snapshot in a ready session; each, of an account not
      shown before, ends the search as well. A sync that starts outdates the folder awaited and the search. */
  lemma SyncTurns(s: State, isNew: bool, snapshot: Snapshot)
    ensures var cached, synced, started := Step(s, CacheLoaded(isNew, snapshot)), Step(s, SyncDone(isNew, snapshot)),
                                           Step(s, StartSync);
            && cached.account && cached.selected == Inbox && cached.mailbox == Some(snapshot)
            && (isNew ==> cached.search == Idle) && (!isNew ==> cached.search == s.search)
            && synced.account && synced.ready && synced.mailbox == Some(snapshot)
            && (isNew ==> synced.search == Idle && synced.selected == Inbox && synced.activeFolder == None)
            && (!isNew ==>
                  synced.search == s.search && synced.selected == s.selected && synced.activeFolder == s.activeFolder)
            && started.search == Idle && started.activeFolder == None && !started.folderLoading && !started.ready
            && started.folderGeneration > s.folderGeneration && started.mailbox == s.mailbox
            && started.selected == s.selected
  {
  }

  /** The background never disturbs an open folder, search or reader; otherwise its snapshot is shown. */
  lemma BackgroundExact(w: RowPlacement.Screen, snapshot: Snapshot, readerClosed: bool)
    ensures var now := RowPlacement.StepScreen(w, RowPlacement.Background(snapshot, readerClosed));
            && now == w.(lane := w.lane.(mailbox := now.lane.mailbox))
            && if w.lane.selected == Inbox && w.lane.search == Idle && readerClosed
               then now.lane.mailbox == Some(snapshot) else now == w
  {
  }

  /** Another limit, if it is one of those offered, cuts the list on screen to its first rows. */
  lemma LimitExact(w: RowPlacement.Screen, limit: nat)
    ensures var now := RowPlacement.StepScreen(w, RowPlacement.LimitSet(limit));
            if limit !in [50, 100, 250, 500] || limit == w.lane.cacheLimit then now == w
            else
              && now == w.(lane := w.lane.(cacheLimit := limit, mailbox := now.lane.mailbox))
              && (w.lane.mailbox.Some? <==> now.lane.mailbox.Some?)
              && (w.lane.mailbox.Some? ==>
                    var was, list := w.lane.mailbox.value, now.lane.mailbox.value;
                    && list == was.(messages := list.messages, requestedLimit := limit)
                    && list.messages <= was.messages
                    && |list.messages| == if |was.messages| < limit then |was.messages| else limit)
  {
  }

  /** Leaving, a new identity, a disconnect and the worker's end forget every pending change and the Undo token; no
      other turn of the lanes touches them. Only leaving outdates the answers still to come. */
  lemma TurnsForgetChanges(w: RowPlacement.Screen, e: RowPlacement.Event)
    requires e.Lane? || e.WorkerLost?
    ensures var now := RowPlacement.StepScreen(w, e);
            && now.next == w.next
            && now.generation == (if e.Lane? && e.step.Leave? then w.generation + 1 else w.generation)
            && if e.WorkerLost? || e.step.NewIdentity? || e.step.Leave? || e.step.Disconnect?
               then now.pending == map[] && now.undo == None
               else now.pending == w.pending && now.undo == w.undo
  {
  }

  lemma WorkerLostExact(w: RowPlacement.Screen)
    ensures var lane := RowPlacement.StepScreen(w, RowPlacement.WorkerLost).lane;
            && lane.search == Idle && !lane.ready && lane.mailbox == w.lane.mailbox && lane.selected == w.lane.selected
            && lane.activeFolder == w.lane.activeFolder
  {
  }
}
