/** The mail types shared by the store and the reducer (src/model.rs). */
module Mail {
  import opened Results
  import opened Text
  import opened Sorting
  import opened MessageIds

  const MAX_FOLDER_MAILBOX_BYTES: nat := 1024
  const MAX_FOLDER_CATALOG_ENTRIES: nat := 256
  const MAX_MESSAGE_LABELS: nat := 256

  datatype FolderId = Inbox | Sent | AllMail | Trash | Starred | Label(mailbox: string)

  datatype FolderKind = InboxKind | SentKind | AllMailKind | TrashKind | StarredKind | LabelKind

  datatype FolderDescriptor = FolderDescriptor(id: FolderId, mailbox: string, displayName: string, kind: FolderKind)
  {
    predicate IsValid() {
      && !IsBlank(mailbox) && Utf8Length(mailbox) <= MAX_FOLDER_MAILBOX_BYTES && !HasControl(mailbox)
      && !IsBlank(displayName) && Utf8Length(displayName) <= MAX_FOLDER_MAILBOX_BYTES && !HasControl(displayName)
      && match (id, kind)
         case (Inbox, InboxKind) => true
         case (Sent, SentKind) => true
         case (AllMail, AllMailKind) => true
         case (Trash, TrashKind) => true
         case (Starred, StarredKind) => true
         case (Label(name), LabelKind) => name == mailbox
         case _ => false
    }
  }

  datatype FolderCatalog = FolderCatalog(folders: seq<FolderDescriptor>)
  {
    /** The first descriptor with that identity. */
    function Find(id: FolderId): (r: Option<FolderDescriptor>)
      ensures r.Some? ==> r.value in folders && r.value.id == id
      ensures r.None? <==> forall d <- folders :: d.id != id
      decreases |folders|
    {
      if folders == [] then None
      else if folders[0].id == id then Some(folders[0])
      else FolderCatalog(folders[1..]).Find(id)
    }
  }

  datatype Locator = Locator(folderId: FolderId, mailbox: string, uidValidity: nat, uid: nat)
  {
    predicate IsValid() {
      && uidValidity != 0 && uid != 0
      && !IsBlank(mailbox) && Utf8Length(mailbox) <= MAX_FOLDER_MAILBOX_BYTES && !HasControl(mailbox)
      && match folderId
         case Inbox => EqualIgnoringCase(mailbox, "INBOX")
         case Label(name) => name == mailbox
         case _ => true
    }
  }

  /** `heading` stands for sender, subject and the other columns no operation here changes. */
  datatype MessageSummary = MessageSummary(
    id: MessageId, folderId: FolderId, locator: Locator, heading: string, receivedAt: Option<int>,
    unread: bool, starred: bool, inInbox: bool, inTrash: bool, labels: seq<string>, usedFallback: bool)

  datatype Mutation =
    | SetRead(read: bool)
    | SetStarred(star: bool)
    | Archive
    | MoveToTrash(mailbox: string)
    | RestoreArchive(inboxMailbox: string)
    | RestoreFromTrash(inboxMailbox: string, trashMailbox: string, restoreInbox: bool, labels: seq<string>)
    | SetLabel(name: string, applied: bool)

  datatype Dimension = ReadDimension | StarredDimension | InboxDimension | LabelDimension(name: string)

  function DimensionOf(mutation: Mutation): Dimension {
    match mutation
    case SetRead(_) => ReadDimension
    case SetStarred(_) => StarredDimension
    case SetLabel(name, _) => LabelDimension(name)
    case _ => InboxDimension
  }

  datatype ReconciledState = ReconciledState(unread: bool, starred: bool, inInbox: bool, inTrash: bool,
                                             labels: seq<string>)

  lemma {:induction false} FindAt(folders: seq<FolderDescriptor>, id: FolderId) returns (k: nat)
    ensures k <= |folders| && forall j | 0 <= j < k :: folders[j].id != id
    ensures k < |folders| ==> folders[k].id == id
    ensures FolderCatalog(folders).Find(id) == if k < |folders| then Some(folders[k]) else None
  {
    k := 0;
    if folders != [] && folders[0].id != id {
      var rest := folders[1..];
      var at := FindAt(rest, id);
      k := at + 1;
      assert forall j | 0 < j < k :: folders[j] == rest[j - 1];
      assert k < |folders| ==> folders[k] == rest[at];
    }
  }

  /** A catalog names for an id the first folder that has it. */
  lemma FindExact(catalog: FolderCatalog, id: FolderId)
    ensures catalog.Find(id).None? <==> forall d <- catalog.folders :: d.id != id
    ensures catalog.Find(id).Some? ==>
              exists k | 0 <= k < |catalog.folders| ::
                && catalog.folders[k] == catalog.Find(id).value && catalog.folders[k].id == id
                && forall j | 0 <= j < k :: catalog.folders[j].id != id
  {
    var k := FindAt(catalog.folders, id);
    assert catalog == FolderCatalog(catalog.folders);
    if k < |catalog.folders| { assert catalog.folders[k] == catalog.Find(id).value; }
  }

  // ----- label lists -----

  function StringOrder(): (string, string) -> bool {
    (a, b) => AtMost(a, b)
  }

  lemma StringsAreOrdered()
    ensures TotalOrder(StringOrder())
  {
    forall x, y ensures StringOrder()(x, y) || StringOrder()(y, x) {
      AtMostTotal(x, y);
    }
    forall x, y, z | StringOrder()(x, y) && StringOrder()(y, z) ensures StringOrder()(x, z) {
      AtMostTransitive(x, y, z);
    }
  }

  function OtherThan(name: string): string -> bool {
    l => l != name
  }

  /** Drops repeats that stand next to each other. */
  function Dedup(s: seq<string>): seq<string> {
    if |s| < 2 then s
    else if s[0] == s[1] then Dedup(s[1..])
    else [s[0]] + Dedup(s[1..])
  }

  function WithLabel(labels: seq<string>, name: string): seq<string> {
    Dedup(SortBy(Filter(labels, OtherThan(name)) + [name], StringOrder()))
  }

  /** What a mutation does to a row's own attributes. */
  function Apply(mutation: Mutation, message: MessageSummary): MessageSummary {
    match mutation
    case SetRead(read) => message.(unread := !read)
    case SetStarred(star) => message.(starred := star)
    case SetLabel(name, applied) =>
      if applied then message.(labels := Take(WithLabel(message.labels, name), MAX_MESSAGE_LABELS))
      else message.(labels := Filter(message.labels, OtherThan(name)))
    case _ => message
  }

  lemma {:induction false} DedupMembers(s: seq<string>)
    ensures forall x | x in Dedup(s) :: x in s
    ensures forall x | x in s :: x in Dedup(s)
    ensures |Dedup(s)| <= |s|
    ensures s != [] ==> Dedup(s) != [] && Dedup(s)[0] == s[0]
  {
    if |s| >= 2 {
      DedupMembers(s[1..]);
      assert s == [s[0]] + s[1..];
    }
  }

  lemma WithLabelMembers(labels: seq<string>, name: string)
    ensures forall x :: x in WithLabel(labels, name) <==> x in labels || x == name
    ensures |WithLabel(labels, name)| <= |labels| + 1
  {
    var kept := Filter(labels, OtherThan(name)) + [name];
    FilterMembers(labels, OtherThan(name));
    SortKeepsMembers(kept, StringOrder());
    SortElements(kept, StringOrder());
    DedupMembers(SortBy(kept, StringOrder()));
    forall x ensures x in WithLabel(labels, name) <==> x in labels || x == name {
      if x in labels && x != name {
        assert OtherThan(name)(x);
      }
    }
  }
}
