/** Folder and search requests guarded by request ids and generations (src/state.rs).

    A lane shows only what its newest request brings, in whatever order, and however often, the
    worker's answers arrive. */
module RequestLanes {
  import opened Results
  import opened Text
  import opened Mail
  import opened FolderStore

  const MAX_SEARCH_QUERY_BYTES: nat := 2048

  datatype Failure = Offline | TimedOut | AuthorizationRequired | MailboxChanged | Missing | Protocol

  datatype ServerSearch =
    | Idle
    | Searching(request: nat, generation: nat, query: string)
    | Found(messages: Rows, truncated: bool, skipped: nat)
    | SearchFailure(query: string, failure: Failure)

  datatype State = State(
    ready: bool, account: bool, mailbox: Option<Snapshot>, cacheLimit: nat,
    selected: FolderId, folderGeneration: nat, nextFolderRequest: nat, activeFolder: Option<nat>, folderLoading: bool,
    query: string, searchGeneration: nat, nextSearchRequest: nat, search: ServerSearch)

  datatype Effect =
    | FetchFolder(request: nat, generation: nat, folder: FolderId)
    | SearchGmail(request: nat, generation: nat, query: string)
    | CancelSearch(request: nat, generation: nat)

  function TrimStart(s: string): string {
    if s != "" && IsWhitespace(s[0]) then TrimStart(s[1..]) else s
  }

  function TrimEnd(s: string): string {
    if s != "" && IsWhitespace(s[|s| - 1]) then TrimEnd(s[..|s| - 1]) else s
  }

  function ValidQuery(s: string): Option<string> {
    var q := TrimEnd(TrimStart(s));
    if q != "" && Utf8Length(q) <= MAX_SEARCH_QUERY_BYTES && !HasControl(q) then Some(q) else None
  }

  predicate Lists(catalog: FolderCatalog, id: FolderId) {
    catalog.Find(id).Some?
  }

  // ----- the search lane -----

  function Invalidated(s: State): (State, seq<Effect>) {
    if s.search.Idle? then (s, [])
    else
      var g := s.searchGeneration + 1;
      (s.(searchGeneration := g, search := Idle),
       if s.search.Searching? then [CancelSearch(s.search.request, g)] else [])
  }

  predicate CanSearch(s: State) {
    ValidQuery(s.query).Some? && s.ready && s.account && s.mailbox.Some? && Lists(s.mailbox.value.catalog, AllMail)
  }

  function Submitted(s: State): (State, seq<Effect>) {
    if !CanSearch(s) then (s, [])
    else
      var cleared := Invalidated(s);
      var g, r, q := cleared.0.searchGeneration + 1, s.nextSearchRequest, ValidQuery(s.query).value;
      (cleared.0.(searchGeneration := g, nextSearchRequest := r + 1, search := Searching(r, g, q)),
       cleared.1 + [SearchGmail(r, g, q)])
  }

  function Retried(s: State): (State, seq<Effect>) {
    if s.search.SearchFailure? then Submitted(s.(query := s.search.query)) else (s, [])
  }

  predicate AwaitsSearch(s: State, request: nat, generation: nat) {
    s.search.Searching? && s.search.request == request && s.search.generation == generation
  }

  function SearchAnswered(s: State, request: nat, generation: nat, messages: Rows, truncated: bool, skipped: nat): State
  {
    if AwaitsSearch(s, request, generation) then s.(search := Found(messages, truncated, skipped)) else s
  }

  function SearchRefused(s: State, request: nat, generation: nat, failure: Failure): State {
    if AwaitsSearch(s, request, generation) then s.(search := SearchFailure(s.search.query, failure)) else s
  }

  // ----- the folder lane -----

  function EmptySnapshot(catalog: FolderCatalog, limit: nat): Snapshot {
    Snapshot([], catalog, 0, limit, 0, 0, 0)
  }

  predicate CanLoad(s: State, id: FolderId) {
    s.account && s.mailbox.Some? && Lists(s.mailbox.value.catalog, id)
  }

  function FolderSelected(s: State, id: FolderId): (State, seq<Effect>) {
    if !CanLoad(s, id) then (s, [])
    else
      var cleared := Invalidated(s);
      var g, r := s.folderGeneration + 1, s.nextFolderRequest;
      (cleared.0.(folderGeneration := g, nextFolderRequest := r + 1, activeFolder := Some(r), folderLoading := true,
                  selected := id,
                  mailbox := if s.selected != id then Some(EmptySnapshot(s.mailbox.value.catalog, s.cacheLimit))
                             else s.mailbox),
       cleared.1 + [FetchFolder(r, g, id)])
  }

  predicate AwaitsFolder(s: State, request: nat, generation: nat, folder: FolderId) {
    s.activeFolder == Some(request) && s.folderGeneration == generation && s.selected == folder
  }

  function FolderAnswered(s: State, request: nat, generation: nat, folder: FolderId, snapshot: Snapshot,
                          cached: bool): State
  {
    if !AwaitsFolder(s, request, generation, folder) then s
    else if cached then s.(mailbox := Some(snapshot), folderLoading := true)
    else s.(mailbox := Some(snapshot), folderLoading := false, activeFolder := None, ready := true)
  }

  function FolderRefused(s: State, request: nat, generation: nat, folder: FolderId, failure: Failure): State {
    if !AwaitsFolder(s, request, generation, folder) then s
    else
      s.(activeFolder := None, folderLoading := false,
         ready := s.ready && !(failure.Offline? || failure.TimedOut? || failure.AuthorizationRequired?))
  }

  // ----- transitions of the account and the session -----

  function Started(s: State): (State, seq<Effect>) {
    var cleared := Invalidated(s);
    (cleared.0.(folderGeneration := s.folderGeneration + 1, activeFolder := None, folderLoading := false,
                ready := false),
     cleared.1)
  }

  /** The user disconnects; the worker confirms it later. */
  function Left(s: State): (State, seq<Effect>) {
    var cleared := Invalidated(s);
    (cleared.0.(folderGeneration := s.folderGeneration + 1, activeFolder := None, folderLoading := false,
                selected := Inbox, mailbox := None, ready := false),
     cleared.1)
  }

  /** A verified identity other than the current one. */
  function Replaced(s: State): State {
    s.(account := true, searchGeneration := s.searchGeneration + 1, search := Idle, mailbox := None, selected := Inbox,
       folderGeneration := s.folderGeneration + 1, activeFolder := None, folderLoading := false)
  }

  function CacheShown(s: State, isNew: bool, snapshot: Snapshot): State {
    (if isNew then s.(searchGeneration := s.searchGeneration + 1, search := Idle) else s)
    .(account := true, selected := Inbox, mailbox := Some(snapshot))
  }

  function SyncShown(s: State, isNew: bool, snapshot: Snapshot): State {
    (if isNew then
       s.(searchGeneration := s.searchGeneration + 1, search := Idle, selected := Inbox,
          folderGeneration := s.folderGeneration + 1, activeFolder := None, folderLoading := false)
     else s).(account := true, mailbox := Some(snapshot), ready := true)
  }

  function Dropped(s: State): State {
    s.(account := false, searchGeneration := s.searchGeneration + 1, search := Idle, mailbox := None, selected := Inbox,
       folderGeneration := s.folderGeneration + 1, activeFolder := None, folderLoading := false, ready := false)
  }

  // ----- the reducer methods -----

  class Lanes {
    var ready: bool
    var account: bool
    var mailbox: Option<Snapshot>
    var cacheLimit: nat
    var selectedFolder: FolderId
    var folderGeneration: nat
    var nextFolderRequest: nat
    var activeFolderRequest: Option<nat>
    var folderLoading: bool
    var searchQuery: string
    var searchGeneration: nat
    var nextSearchRequest: nat
    var serverSearch: ServerSearch

    ghost function View(): State
      reads this
    {
      State(ready, account, mailbox, cacheLimit, selectedFolder, folderGeneration, nextFolderRequest,
            activeFolderRequest, folderLoading, searchQuery, searchGeneration, nextSearchRequest, serverSearch)
    }

    method InvalidateServerSearch() returns (effects: seq<Effect>)
      modifies this`searchGeneration, this`serverSearch
      ensures (View(), effects) == Invalidated(old(View()))
    {
      var active: Option<nat> := None;
      match serverSearch {
        case Idle => return [];
        case Searching(request, _, _) => active := Some(request);
        case _ =>
      }
      searchGeneration := searchGeneration + 1;
      serverSearch := Idle;
      return if active.Some? then [CancelSearch(active.value, searchGeneration)] else [];
    }

    method SubmitServerSearch() returns (effects: seq<Effect>)
      modifies this
      ensures (View(), effects) == Submitted(old(View()))
    {
      hide Lists, ValidQuery;
      var query := ValidQuery(searchQuery);
      if query.None? || !ready || !account || mailbox.None? || !Lists(mailbox.value.catalog, AllMail) {
        return [];
      }
      effects := InvalidateServerSearch();
      searchGeneration := searchGeneration + 1;
      var request := nextSearchRequest;
      nextSearchRequest := nextSearchRequest + 1;
      serverSearch := Searching(request, searchGeneration, query.value);
      effects := effects + [SearchGmail(request, searchGeneration, query.value)];
    }

    method CancelServerSearch() returns (effects: seq<Effect>)
      modifies this
      ensures (View(), effects) == if old(View()).search.Searching? then Invalidated(old(View())) else (old(View()), [])
    {
      if !serverSearch.Searching? {
        return [];
      }
      effects := InvalidateServerSearch();
    }

    method RetryServerSearch() returns (effects: seq<Effect>)
      modifies this
      ensures (View(), effects) == Retried(old(View()))
    {
      if !serverSearch.SearchFailure? {
        return [];
      }
      searchQuery := serverSearch.query;
      effects := SubmitServerSearch();
    }

    method SetSearch(query: string) returns (effects: seq<Effect>)
      modifies this
      ensures (View(), effects) == Edited(old(View()), query)
    {
      if searchQuery == query {
        return [];
      }
      effects := InvalidateServerSearch();
      searchQuery := query;
    }

    method SearchLoaded(request: nat, generation: nat, messages: Rows, truncated: bool, skipped: nat)
      modifies this
      ensures View() == SearchAnswered(old(View()), request, generation, messages, truncated, skipped)
    {
      if !serverSearch.Searching? {
        return;
      }
      if serverSearch.request != request || serverSearch.generation != generation {
        return;
      }
      serverSearch := Found(messages, truncated, skipped);
    }

    method SearchFailed(request: nat, generation: nat, failure: Failure)
      modifies this
      ensures View() == SearchRefused(old(View()), request, generation, failure)
    {
      if !serverSearch.Searching? {
        return;
      }
      if serverSearch.request != request || serverSearch.generation != generation {
        return;
      }
      serverSearch := SearchFailure(serverSearch.query, failure);
    }

    method LoadFolder(id: FolderId) returns (effects: seq<Effect>)
      modifies this
      ensures (View(), effects) == FolderSelected(old(View()), id)
    {
      hide Lists, EmptySnapshot, Invalidated;
      if !account || mailbox.None? {
        return [];
      }
      var catalog := mailbox.value.catalog;
      if !Lists(catalog, id) {
        return [];
      }
      effects := InvalidateServerSearch();
      var switching := selectedFolder != id;
      folderGeneration := folderGeneration + 1;
      var request := nextFolderRequest;
      nextFolderRequest := nextFolderRequest + 1;
      activeFolderRequest := Some(request);
      folderLoading := true;
      selectedFolder := id;
      if switching {
        mailbox := Some(EmptySnapshot(catalog, cacheLimit));
      }
      effects := effects + [FetchFolder(request, folderGeneration, id)];
    }

    method FolderLoaded(request: nat, generation: nat, folder: FolderId, snapshot: Snapshot, cached: bool)
      modifies this
      ensures View() == FolderAnswered(old(View()), request, generation, folder, snapshot, cached)
    {
      if activeFolderRequest != Some(request) || folderGeneration != generation || selectedFolder != folder {
        return;
      }
      mailbox := Some(snapshot);
      folderLoading := cached;
      if !cached {
        activeFolderRequest := None;
        ready := true;
      }
    }

    method FolderFailed(request: nat, generation: nat, folder: FolderId, failure: Failure)
      modifies this
      ensures View() == FolderRefused(old(View()), request, generation, folder, failure)
    {
      if activeFolderRequest != Some(request) || folderGeneration != generation || selectedFolder != folder {
        return;
      }
      activeFolderRequest := None;
      folderLoading := false;
      match failure {
        case Offline | TimedOut | AuthorizationRequired => ready := false;
        case _ =>
      }
    }
  }

  function Edited(s: State, query: string): (State, seq<Effect>) {
    if s.query == query then (s, [])
    else var cleared := Invalidated(s); (cleared.0.(query := query), cleared.1)
  }

  // ----- whole runs -----

  datatype Event =
    | Select(folder: FolderId)
    | FolderAnswer(request: nat, generation: nat, of: FolderId, snapshot: Snapshot, cached: bool)
    | FolderRefusal(refused: nat, refusedGeneration: nat, refusedFolder: FolderId, folderFailure: Failure)
    | Edit(query: string)
    | Submit
    | Cancel
    | Retry
    | SearchAnswer(found: nat, foundGeneration: nat, messages: Rows, truncated: bool, skipped: nat)
    | SearchRefusal(failed: nat, failedGeneration: nat, searchFailure: Failure)
    | StartSync
    | Leave
    | NewIdentity
    | CacheLoaded(cacheIsNew: bool, cacheSnapshot: Snapshot)
    | SyncDone(syncIsNew: bool, syncSnapshot: Snapshot)
    | Disconnect
    | RowsChanged(rows: Snapshot)          // a mutation or a background snapshot rewrites the list
    | ResultsChanged(results: Rows)        // a mutation rewrites the search results

  function Step(s: State, e: Event): State {
    match e
    case Select(id) => FolderSelected(s, id).0
    case FolderAnswer(request, generation, of, snapshot, cached) =>
      FolderAnswered(s, request, generation, of, snapshot, cached)
    case FolderRefusal(request, generation, folder, failure) => FolderRefused(s, request, generation, folder, failure)
    case Edit(query) => Edited(s, query).0
    case Submit => Submitted(s).0
    case Cancel => if s.search.Searching? then Invalidated(s).0 else s
    case Retry => Retried(s).0
    case SearchAnswer(request, generation, messages, truncated, skipped) =>
      SearchAnswered(s, request, generation, messages, truncated, skipped)
    case SearchRefusal(request, generation, failure) => SearchRefused(s, request, generation, failure)
    case StartSync => Started(s).0
    case Leave => Left(s).0
    case NewIdentity => Replaced(s)
    case CacheLoaded(isNew, snapshot) => CacheShown(s, isNew, snapshot)
    case SyncDone(isNew, snapshot) => SyncShown(s, isNew, snapshot)
    case Disconnect => Dropped(s)
    case RowsChanged(rows) => if s.mailbox.Some? then s.(mailbox := Some(rows)) else s
    case ResultsChanged(results) =>
      if s.search.Found? then s.(search := s.search.(messages := results)) else s
  }

  function Run(s: State, events: seq<Event>): State {
    if events == [] then s else Step(Run(s, events[..|events| - 1]), events[|events| - 1])
  }

  /** Whatever is awaited is the newest of its kind, and a running search carries the current generation. */
  ghost predicate Tidy(s: State) {
    && (s.activeFolder.Some? ==> s.activeFolder.value + 1 == s.nextFolderRequest)
    && (s.search.Searching? ==>
        s.search.request + 1 == s.nextSearchRequest && s.search.generation == s.searchGeneration)
  }

  lemma StepTidy(s: State, e: Event)
    requires Tidy(s)
    ensures Tidy(Step(s, e))
    ensures Step(s, e).nextFolderRequest >= s.nextFolderRequest
    ensures Step(s, e).nextSearchRequest >= s.nextSearchRequest
  {
    hide ValidQuery, Lists;
  }

  /** In every run a running search carries the current generation and every awaited request is the
      newest of its lane. */
  lemma {:induction false} RunTidy(s: State, events: seq<Event>)
    requires Tidy(s)
    ensures Tidy(Run(s, events))
    ensures Run(s, events).nextFolderRequest >= s.nextFolderRequest
    ensures Run(s, events).nextSearchRequest >= s.nextSearchRequest
  {
    if events != [] {
      RunTidy(s, events[..|events| - 1]);
      StepTidy(Run(s, events[..|events| - 1]), events[|events| - 1]);
    }
  }

  /** In every run, an answer to any but the newest folder request, or the newest search, changes
      nothing at all. */
  lemma OlderAnswersChangeNothing(s: State, events: seq<Event>, e: Event)
    requires Tidy(s)
    ensures var now := Run(s, events);
            && (e.FolderAnswer? && e.request + 1 != now.nextFolderRequest ==> Step(now, e) == now)
            && (e.FolderRefusal? && e.refused + 1 != now.nextFolderRequest ==> Step(now, e) == now)
            && (e.SearchAnswer? && e.found + 1 != now.nextSearchRequest ==> Step(now, e) == now)
            && (e.SearchRefusal? && e.failed + 1 != now.nextSearchRequest ==> Step(now, e) == now)
  {
    hide Tidy, Step;
    RunTidy(s, events);
    NewestOnly(Run(s, events), e);
  }

  lemma NewestOnly(now: State, e: Event)
    requires Tidy(now)
    ensures e.FolderAnswer? && e.request + 1 != now.nextFolderRequest ==> Step(now, e) == now
    ensures e.FolderRefusal? && e.refused + 1 != now.nextFolderRequest ==> Step(now, e) == now
    ensures e.SearchAnswer? && e.found + 1 != now.nextSearchRequest ==> Step(now, e) == now
    ensures e.SearchRefusal? && e.failed + 1 != now.nextSearchRequest ==> Step(now, e) == now
  {
  }

  // ----- whether an awaited folder can still be answered -----

  /** The newest folder request sent, if any. */
  function Sent(s: State, last: Option<Effect>, e: Event): Option<Effect> {
    if e.Select? && CanLoad(s, e.folder) then Some(FetchFolder(s.nextFolderRequest, s.folderGeneration + 1, e.folder))
    else last
  }

  function RunSent(s: State, last: Option<Effect>, events: seq<Event>): Option<Effect> {
    if events == [] then last
    else
      var front := events[..|events| - 1];
      Sent(Run(s, front), RunSent(s, last, front), events[|events| - 1])
  }

  /** While a folder is awaited it is the newest one sent for, and the list says it is loading. */
  ghost predicate Traced(s: State, last: Option<Effect>) {
    s.activeFolder.Some? ==>
      && s.folderLoading && last.Some? && last.value.FetchFolder?
      && last.value.request == s.activeFolder.value && last.value.generation == s.folderGeneration
  }

  /** The folder awaited is the folder on screen, which its answers must name. */
  ghost predicate Answerable(s: State, last: Option<Effect>) {
    s.activeFolder.Some? && last.Some? && last.value.FetchFolder? ==> last.value.folder == s.selected
  }

  /** A stored Inbox of the account arrives while another folder is awaited. */
  predicate Strands(s: State, e: Event) {
    e.CacheLoaded? && s.activeFolder.Some? && s.selected != Inbox
  }

  /** The events that end or replace whatever folder is awaited. */
  predicate Frees(s: State, e: Event) {
    match e
    case Select(folder) => CanLoad(s, folder)
    case SyncDone(isNew, _) => isNew
    case _ => e.StartSync? || e.Leave? || e.NewIdentity? || e.Disconnect?
  }

  lemma StepTraced(s: State, last: Option<Effect>, e: Event)
    requires Traced(s, last)
    ensures Traced(Step(s, e), Sent(s, last, e))
  {
    hide ValidQuery, Lists;
  }

  /** An awaited folder stays one that can be answered exactly through the events that are no such arrival. */
  lemma AnswerableStep(s: State, last: Option<Effect>, e: Event)
    requires Traced(s, last) && Answerable(s, last)
    ensures Answerable(Step(s, e), Sent(s, last, e)) <==> !Strands(s, e)
  {
    hide ValidQuery, Lists;
  }

  ghost predicate NeverStrands(s: State, events: seq<Event>) {
    forall i | 0 <= i < |events| :: !Strands(Run(s, events[..i]), events[i])
  }

  lemma {:induction false} RunAnswerable(s: State, last: Option<Effect>, events: seq<Event>)
    requires Traced(s, last)
    ensures Traced(Run(s, events), RunSent(s, last, events))
    ensures Answerable(s, last) && NeverStrands(s, events) ==> Answerable(Run(s, events), RunSent(s, last, events))
  {
    hide Traced, Answerable, Strands, Step, Sent;
    if events != [] {
      var front, e := events[..|events| - 1], events[|events| - 1];
      RunAnswerable(s, last, front);
      StepTraced(Run(s, front), RunSent(s, last, front), e);
      if Answerable(s, last) && NeverStrands(s, events) {
        forall i | 0 <= i < |front| ensures !Strands(Run(s, front[..i]), front[i]) {
          assert front[..i] == events[..i];
        }
        AnswerableStep(Run(s, front), RunSent(s, last, front), e);
      }
    }
  }

  /** In every run in which no stored Inbox arrives while another folder is awaited, the answers to the
      request sent last for the awaited folder are taken: a fresh snapshot is shown, and it or a refusal
      ends the loading. */
  lemma AwaitedIsAnswered(s: State, last: Option<Effect>, events: seq<Event>, snapshot: Snapshot, failure: Failure)
    requires Traced(s, last) && Answerable(s, last) && NeverStrands(s, events)
    requires Run(s, events).activeFolder.Some?
    ensures var now, sent := Run(s, events), RunSent(s, last, events);
            && sent.Some? && sent.value.FetchFolder?
            && var (r, g, folder) := (sent.value.request, sent.value.generation, sent.value.folder);
               var loaded := Step(now, FolderAnswer(r, g, folder, snapshot, false));
               var refused := Step(now, FolderRefusal(r, g, folder, failure));
               && loaded == now.(mailbox := Some(snapshot), activeFolder := None, folderLoading := false, ready := true)
               && refused == now.(activeFolder := None, folderLoading := false, ready := refused.ready)
  {
    hide Run, RunSent, NeverStrands;
    RunAnswerable(s, last, events);
  }

  /** The request is awaited and loading, but its folder is not the one on screen, which is Inbox. */
  ghost predicate Stranded(s: State, request: nat, folder: FolderId) {
    s.activeFolder == Some(request) && s.folderLoading && s.selected == Inbox && folder != Inbox
  }

  predicate IsFor(e: Event, request: nat) {
    (e.FolderAnswer? && e.request == request) || (e.FolderRefusal? && e.refused == request)
  }

  /** The worker names the folder it was asked for. */
  predicate Echoes(e: Event, request: nat, folder: FolderId) {
    && (e.FolderAnswer? && e.request == request ==> e.of == folder)
    && (e.FolderRefusal? && e.refused == request ==> e.refusedFolder == folder)
  }

  lemma StrandedStep(s: State, request: nat, folder: FolderId, e: Event)
    requires Stranded(s, request, folder) && request < s.nextFolderRequest && Echoes(e, request, folder)
    ensures Stranded(Step(s, e), request, folder) <==> !Frees(s, e)
    ensures request < Step(s, e).nextFolderRequest
    ensures IsFor(e, request) ==> Step(s, e) == s
  {
    hide ValidQuery, Lists;
  }

  ghost predicate NeverFreed(s: State, events: seq<Event>) {
    forall i | 0 <= i < |events| :: !Frees(Run(s, events[..i]), events[i])
  }

  lemma {:induction false} StaysStranded(s: State, request: nat, folder: FolderId, events: seq<Event>)
    requires Stranded(s, request, folder) && request < s.nextFolderRequest && NeverFreed(s, events)
    requires forall e <- events :: Echoes(e, request, folder)
    ensures Stranded(Run(s, events), request, folder) && request < Run(s, events).nextFolderRequest
  {
    hide Stranded, Frees, Step, Echoes;
    if events != [] {
      var front := events[..|events| - 1];
      forall i | 0 <= i < |front| ensures !Frees(Run(s, front[..i]), front[i]) {
        assert front[..i] == events[..i];
      }
      StaysStranded(s, request, folder, front);
      StrandedStep(Run(s, front), request, folder, events[|events| - 1]);
    }
  }

  /** Opening a folder during a refresh, before the stored Inbox arrives: the request stays awaited and
      loading through every further run without an event that frees it, and its own answers change nothing. */
  lemma CacheStrandsFolder(s: State, folder: FolderId, isNew: bool, cached: Snapshot, after: seq<Event>, answer: Event)
    requires CanLoad(s, folder) && folder != Inbox
    requires var begun := Step(Step(s, Select(folder)), CacheLoaded(isNew, cached)); NeverFreed(begun, after)
    requires forall e <- after + [answer] :: Echoes(e, s.nextFolderRequest, folder)
    ensures var now := Run(Step(Step(s, Select(folder)), CacheLoaded(isNew, cached)), after);
            && now.activeFolder == Some(s.nextFolderRequest) && now.folderLoading
            && (IsFor(answer, s.nextFolderRequest) ==> Step(now, answer) == now)
  {
    hide ValidQuery, Lists, NeverFreed, Run;
    var begun := Step(Step(s, Select(folder)), CacheLoaded(isNew, cached));
    assert forall e <- after :: e in after + [answer];
    assert answer in after + [answer];
    StaysStranded(begun, s.nextFolderRequest, folder, after);
    StrandedStep(Run(begun, after), s.nextFolderRequest, folder, answer);
  }

  // ----- what the newest folder request shows -----

  /** Answers from the worker, and the user's searching: nothing that opens a folder, rewrites the
      list or changes the account. */
  predicate KeepsFolder(e: Event) {
    e.FolderAnswer? || e.FolderRefusal? || e.SearchAnswer? || e.SearchRefusal?
    || e.Edit? || e.Submit? || e.Cancel? || e.Retry? || e.ResultsChanged?
  }

  /** What is shown for one request, and whether it is still awaited. */
  datatype Display = Display(shown: Option<Snapshot>, awaited: bool)

  predicate Answers(e: Event, request: nat, generation: nat, folder: FolderId) {
    || (e.FolderAnswer? && e.request == request && e.generation == generation && e.of == folder)
    || (e.FolderRefusal? && e.refused == request && e.refusedGeneration == generation && e.refusedFolder == folder)
  }

  /** The reference: only the request's own answers count, in order, until a fresh one or a refusal. */
  function Expected(start: Option<Snapshot>, request: nat, generation: nat, folder: FolderId,
                    events: seq<Event>): Display
  {
    if events == [] then Display(start, true)
    else
      var so := Expected(start, request, generation, folder, events[..|events| - 1]);
      var e := events[|events| - 1];
      if !so.awaited || !Answers(e, request, generation, folder) then so
      else if e.FolderRefusal? then Display(so.shown, false)
      else Display(Some(e.snapshot), e.cached)
  }

  lemma KeepsFolderFields(s: State, e: Event)
    requires KeepsFolder(e) && !e.FolderAnswer? && !e.FolderRefusal?
    ensures var s' := Step(s, e);
            && s'.mailbox == s.mailbox && s'.activeFolder == s.activeFolder
            && s'.folderGeneration == s.folderGeneration && s'.selected == s.selected
            && s'.nextFolderRequest == s.nextFolderRequest
  {
    hide ValidQuery, Lists;
  }

  /** After a folder is begun, in every run of answers (of any requests, in any order, any number of
      times) and searches, the list shows exactly what the reference shows. */
  lemma {:induction false} ShownIsExpected(s: State, folder: FolderId, events: seq<Event>)
    requires Tidy(s) && CanLoad(s, folder)
    requires forall e <- events :: KeepsFolder(e)
    ensures var begun := FolderSelected(s, folder).0;
            var now := Run(begun, events);
            var display := Expected(begun.mailbox, s.nextFolderRequest, begun.folderGeneration, folder, events);
            && now.mailbox == display.shown
            && now.activeFolder == (if display.awaited then Some(s.nextFolderRequest) else None)
            && now.folderGeneration == begun.folderGeneration && now.selected == folder
  {
    if events != [] {
      var front, e := events[..|events| - 1], events[|events| - 1];
      assert forall x <- front :: x in events;
      ShownIsExpected(s, folder, front);
      assert e in events;
      var begun := FolderSelected(s, folder).0;
      if !e.FolderAnswer? && !e.FolderRefusal? {
        KeepsFolderFields(Run(begun, front), e);
      }
    }
  }

  /** Once the fresh snapshot has arrived it stays, whatever cached, repeated or older answers follow. */
  lemma FreshSnapshotStays(s: State, folder: FolderId, before: seq<Event>, arrival: Event, after: seq<Event>)
    requires Tidy(s) && CanLoad(s, folder)
    requires forall e <- before + [arrival] + after :: KeepsFolder(e)
    requires arrival.FolderAnswer? && !arrival.cached
    requires AwaitsFolder(Run(FolderSelected(s, folder).0, before), arrival.request, arrival.generation, arrival.of)
    ensures Run(FolderSelected(s, folder).0, before + [arrival] + after).mailbox == Some(arrival.snapshot)
  {
    var begun := FolderSelected(s, folder).0;
    var r, g := s.nextFolderRequest, begun.folderGeneration;
    var middle := before + [arrival];
    assert forall e <- before :: e in before + [arrival] + after;
    ShownIsExpected(s, folder, before);
    assert middle[..|before|] == before;
    assert Expected(begun.mailbox, r, g, folder, middle) == Display(Some(arrival.snapshot), false);
    SettledStays(begun.mailbox, r, g, folder, middle, after);
    ShownIsExpected(s, folder, middle + after);
  }

  lemma {:induction false} SettledStays(start: Option<Snapshot>, request: nat, generation: nat, folder: FolderId,
                                        events: seq<Event>, after: seq<Event>)
    requires !Expected(start, request, generation, folder, events).awaited
    ensures Expected(start, request, generation, folder, events + after)
         == Expected(start, request, generation, folder, events)
  {
    if after == [] {
      assert events + after == events;
    } else {
      var front := after[..|after| - 1];
      SettledStays(start, request, generation, folder, events, front);
      assert (events + after)[..|events + after| - 1] == events + front;
    }
  }

  // ----- an abandoned search never publishes -----

  predicate Runs(s: State, request: nat) {
    s.search.Searching? && s.search.request == request
  }

  /** A search request that no longer runs, because it was answered, edited, cancelled, superseded or
      left behind, never runs again, and its answers change nothing. */
  lemma {:induction false} AbandonedSearchNeverPublishes(s: State, request: nat, events: seq<Event>)
    requires Tidy(s) && request < s.nextSearchRequest && !Runs(s, request)
    ensures !Runs(Run(s, events), request)
    ensures forall generation, messages, truncated, skipped ::
              SearchAnswered(Run(s, events), request, generation, messages, truncated, skipped) == Run(s, events)
    ensures forall generation, failure :: SearchRefused(Run(s, events), request, generation, failure) == Run(s, events)
  {
    if events != [] {
      var front, e := events[..|events| - 1], events[|events| - 1];
      AbandonedSearchNeverPublishes(s, request, front);
      RunTidy(s, front);
      StillAbandoned(Run(s, front), request, e);
    }
  }

  lemma StillAbandoned(s: State, request: nat, e: Event)
    requires Tidy(s) && request < s.nextSearchRequest && !Runs(s, request)
    ensures !Runs(Step(s, e), request)
  {
    hide ValidQuery, Lists;
  }

  /** The events that leave a running search behind: editing the query, cancelling, submitting anew,
      opening a folder, syncing, or changing the account. */
  predicate Abandons(s: State, e: Event) {
    match e
    case Edit(query) => query != s.query
    case Select(folder) => CanLoad(s, folder)
    case Submit => CanSearch(s)
    case CacheLoaded(isNew, _) => isNew
    case SyncDone(isNew, _) => isNew
    case _ => e.Cancel? || e.StartSync? || e.Leave? || e.NewIdentity? || e.Disconnect?
  }

  lemma AbandonsAtOnce(s: State, e: Event)
    requires Tidy(s) && s.search.Searching? && Abandons(s, e)
    ensures !Runs(Step(s, e), s.search.request) && s.search.request < Step(s, e).nextSearchRequest
    ensures Step(s, e).searchGeneration > s.search.generation
  {
    hide ValidQuery, Lists;
  }

  /** A search running at any point of any run, once abandoned, never publishes: through every further run
      it stays abandoned, and each of its answers changes nothing. */
  lemma SearchIsAbandoned(s: State, before: seq<Event>, e: Event, after: seq<Event>)
    requires Tidy(s) && Run(s, before).search.Searching? && Abandons(Run(s, before), e)
    ensures var request := Run(s, before).search.request;
            var now := Run(Step(Run(s, before), e), after);
            && !Runs(now, request)
            && (forall generation, messages, truncated, skipped ::
                  SearchAnswered(now, request, generation, messages, truncated, skipped) == now)
            && (forall generation, failure :: SearchRefused(now, request, generation, failure) == now)
  {
    hide Tidy, Step, Abandons;
    RunTidy(s, before);
    AbandonsAtOnce(Run(s, before), e);
    StepTidy(Run(s, before), e);
    AbandonedSearchNeverPublishes(Step(Run(s, before), e), Run(s, before).search.request, after);
  }

  // ----- what the newest search shows -----

  /** Answers from the worker, and snapshots for the account as it is: nothing that abandons, restarts or
      rewrites the search. */
  predicate KeepsSearch(e: Event) {
    || e.FolderAnswer? || e.FolderRefusal? || e.SearchAnswer? || e.SearchRefusal? || e.RowsChanged?
    || (e.CacheLoaded? && !e.cacheIsNew) || (e.SyncDone? && !e.syncIsNew)
  }

  predicate AnswersSearch(e: Event, request: nat, generation: nat) {
    || (e.SearchAnswer? && e.found == request && e.foundGeneration == generation)
    || (e.SearchRefusal? && e.failed == request && e.failedGeneration == generation)
  }

  /** The reference: the first answer to the request itself decides. */
  function ExpectedSearch(request: nat, generation: nat, query: string, events: seq<Event>): ServerSearch {
    if events == [] then Searching(request, generation, query)
    else
      var so := ExpectedSearch(request, generation, query, events[..|events| - 1]);
      var e := events[|events| - 1];
      if !so.Searching? || !AnswersSearch(e, request, generation) then so
      else if e.SearchAnswer? then Found(e.messages, e.truncated, e.skipped)
      else SearchFailure(query, e.searchFailure)
  }

  /** After a search is submitted, in every run of answers, of any requests, in any order and any number
      of times, the search shows exactly what the reference shows. */
  lemma {:induction false} FoundIsExpected(s: State, events: seq<Event>)
    requires CanSearch(s) && forall e <- events :: KeepsSearch(e)
    ensures var begun := Submitted(s).0;
            Run(begun, events).search
            == ExpectedSearch(s.nextSearchRequest, begun.searchGeneration, ValidQuery(s.query).value, events)
  {
    hide ValidQuery, Lists;
    if events != [] {
      var front := events[..|events| - 1];
      assert events[|events| - 1] in events && forall x <- front :: x in events;
      FoundIsExpected(s, front);
      SearchingStays(s.nextSearchRequest, Submitted(s).0.searchGeneration, ValidQuery(s.query).value, front);
    }
  }

  lemma {:induction false} SearchingStays(request: nat, generation: nat, query: string, events: seq<Event>)
    ensures var so := ExpectedSearch(request, generation, query, events);
            so.Searching? ==> so == Searching(request, generation, query)
  {
    if events != [] { SearchingStays(request, generation, query, events[..|events| - 1]); }
  }

  /** The first answer to the newest search is shown, and stays, whatever else arrives before and after. */
  lemma FirstFindingsStay(s: State, before: seq<Event>, arrival: Event, after: seq<Event>)
    requires CanSearch(s) && forall e <- before + [arrival] + after :: KeepsSearch(e)
    requires forall e <- before :: !AnswersSearch(e, s.nextSearchRequest, Submitted(s).0.searchGeneration)
    requires arrival.SearchAnswer? && AnswersSearch(arrival, s.nextSearchRequest, Submitted(s).0.searchGeneration)
    ensures Run(Submitted(s).0, before + [arrival] + after).search
         == Found(arrival.messages, arrival.truncated, arrival.skipped)
  {
    hide ValidQuery, Lists, Submitted;
    var r, g, q := s.nextSearchRequest, Submitted(s).0.searchGeneration, ValidQuery(s.query).value;
    FoundIsExpected(s, before + [arrival] + after);
    Unanswered(r, g, q, before);
    assert (before + [arrival])[..|before|] == before;
    FindingsStay(r, g, q, before + [arrival], after);
  }

  lemma {:induction false} Unanswered(request: nat, generation: nat, query: string, events: seq<Event>)
    requires forall e <- events :: !AnswersSearch(e, request, generation)
    ensures ExpectedSearch(request, generation, query, events) == Searching(request, generation, query)
  {
    if events != [] {
      assert events[|events| - 1] in events;
      Unanswered(request, generation, query, events[..|events| - 1]);
    }
  }

  lemma {:induction false} FindingsStay(request: nat, generation: nat, query: string, events: seq<Event>,
                                        after: seq<Event>)
    requires !ExpectedSearch(request, generation, query, events).Searching?
    ensures ExpectedSearch(request, generation, query, events + after)
         == ExpectedSearch(request, generation, query, events)
  {
    if after == [] {
      assert events + after == events;
    } else {
      var front := after[..|after| - 1];
      FindingsStay(request, generation, query, events, front);
      assert (events + after)[..|events + after| - 1] == events + front;
    }
  }
}
