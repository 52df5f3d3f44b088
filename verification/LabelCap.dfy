/** The cap of 256 labels against a refused addition, on the change reducer (src/model.rs, src/state.rs). */
module LabelCap {
  import opened Results
  import opened Text
  import opened Sorting
  import opened MessageIds
  import opened Mail
  import opened LabelLists
  import opened FolderStore
  import opened MutationReducer
  import opened OverlayInvariant
  import opened MutationRollback

  /** There was room for the label, or the cap cuts the label itself. */
  predicate SurvivesCap(labels: seq<string>, name: string) {
    |labels| < MAX_MESSAGE_LABELS || (|labels| == MAX_MESSAGE_LABELS && forall l <- labels :: AtMost(l, name))
  }

  /** The state after the label was added and Gmail refused it. */
  ghost function AfterRefusal(s: State, selection: Option<MessageId>, name: string): State {
    var turn := Mutate(s, selection, ToggleLabel(name));
    if turn.sent == [] then s else Finish(turn.state, s.next, s.generation, turn.sent[0].id, Failed(false)).state
  }

  predicate AddsLabel(s: State, selection: Option<MessageId>, name: string) {
    var request := Request(s, selection, ToggleLabel(name));
    request.Some? && request.value.1 == SetLabel(name, true)
  }

  /** No token waits for the next request id: ids are handed out once. */
  predicate NextIsUnused(s: State) {
    s.undo.Some? ==>
      match s.undo.value.phase
      case ForwardPending(request, _) => request < s.next
      case UndoPending(request) => request < s.next
      case Available => true
  }

  lemma RefusedShape(s: State, selection: Option<MessageId>, name: string)
    requires WellNumbered(s) && NextIsUnused(s) && AddsLabel(s, selection, name)
    ensures var m := Request(s, selection, ToggleLabel(name)).value.0;
            AfterRefusal(s, selection, name)
            == Mapped(Mapped(s, Applying(m.id, SetLabel(name, true))),
                      LabelBack(m.id, name, false)).(next := s.next + 1)
  {
    hide SelectedMessage, Applying, LabelBack, WellNumbered;
    var m := Request(s, selection, ToggleLabel(name)).value.0;
    var t := Mutate(s, selection, ToggleLabel(name)).state;
    var key := Key(m.id, LabelDimension(name));
    assert t.pending == s.pending[key := t.pending[key]];
    MoveKeepsNumbers(s, key, t.pending[key]);
    FoundOnly(s.(pending := t.pending, next := s.next + 1), key);
    assert t.pending - {key} == s.pending;
  }

  lemma ListRestored(rows: Rows, id: MessageId, labels: seq<string>, name: string)
    requires Ordered(labels) && name !in labels
    requires forall row <- rows | row.id == id :: row.labels == labels
    ensures var after := MapRows(MapRows(rows, Applying(id, SetLabel(name, true))), LabelBack(id, name, false));
            && (SurvivesCap(labels, name) ==> after == rows)
            && (after == rows ==> SurvivesCap(labels, name) || forall row <- rows :: row.id != id)
  {
    hide Applying, LabelBack, Ordered;
    var after := MapRows(MapRows(rows, Applying(id, SetLabel(name, true))), LabelBack(id, name, false));
    forall i | 0 <= i < |rows|
      ensures rows[i].id != id ==> after[i] == rows[i]
      ensures rows[i].id == id ==> (after[i] == rows[i] <==> SurvivesCap(labels, name))
    {
      assert rows[i] in rows;
      if rows[i].id == id { RefusedLabelExact(rows[i], name); } else { OtherRow(rows[i], id, name); }
    }
    if after == rows && !SurvivesCap(labels, name) {
      forall row <- rows ensures row.id != id {
        var i :| 0 <= i < |rows| && rows[i] == row;
      }
    }
  }

  lemma OtherRow(row: MessageSummary, id: MessageId, name: string)
    requires row.id != id
    ensures LabelBack(id, name, false)(Applying(id, SetLabel(name, true))(row)) == row
  {
  }

  /** Adding a label and having it refused leaves both lists as they were exactly when there was room for
      it, or the list was full to the cap and the new label sorts last. */
  lemma RefusedAdditionOnReducer(s: State, selection: Option<MessageId>, name: string)
    requires WellNumbered(s) && NextIsUnused(s) && AddsLabel(s, selection, name)
    requires var m := Request(s, selection, ToggleLabel(name)).value.0;
             Ordered(m.labels) && forall row | InLists(s, row) && row.id == m.id :: row.labels == m.labels
    ensures var m := Request(s, selection, ToggleLabel(name)).value.0;
            var t := AfterRefusal(s, selection, name);
            t.mailbox == s.mailbox && t.results == s.results <==> SurvivesCap(m.labels, name)
  {
    hide Applying, LabelBack, Ordered, SurvivesCap, AfterRefusal, MapRows, SelectedMessage;
    var m := Request(s, selection, ToggleLabel(name)).value.0;
    RefusedShape(s, selection, name);
    SelectedIsListed(s, selection);
    if s.mailbox.Some? { ListRestored(s.mailbox.value.messages, m.id, m.labels, name); }
    if s.results.Some? { ListRestored(s.results.value, m.id, m.labels, name); }
  }

  // ----- a full list -----

  function Letters(n: nat): string {
    if n == 0 then "" else "b" + Letters(n - 1)
  }

  lemma {:induction false} LettersOrdered(m: nat, n: nat)
    requires m < n
    ensures AtMost(Letters(m), Letters(n)) && Letters(m) != Letters(n)
    ensures |Letters(n)| == n && |Letters(m)| == m
  {
    if m > 0 {
      LettersOrdered(m - 1, n - 1);
      assert Letters(m)[1..] == Letters(m - 1) && Letters(n)[1..] == Letters(n - 1);
    } else {
      LettersLength(n);
    }
  }

  lemma {:induction false} LettersLength(n: nat)
    ensures |Letters(n)| == n && forall i | 0 <= i < n :: Letters(n)[i] == 'b'
  {
    if n > 0 { LettersLength(n - 1); }
  }

  /** 256 labels: "b", "bb", "bbb", ... */
  function FullLabels(): (r: seq<string>)
    ensures |r| == MAX_MESSAGE_LABELS && forall i | 0 <= i < |r| :: r[i] == Letters(i + 1)
  {
    seq(MAX_MESSAGE_LABELS, (i: nat) => Letters(i + 1))
  }

  function FullState(): State {
    var row := MessageSummary(Gmail(7), Inbox, Locator(Inbox, "INBOX", 1, 1), "", None, true, false, true, false,
                              FullLabels(), false);
    var catalog := FolderCatalog([FolderDescriptor(Label("a"), "a", "a", LabelKind)]);
    State(true, Some("user"), Some(Mailbox([row], catalog)), None, Inbox, map[], None, 1, 0)
  }

  lemma FullStateAdds()
    ensures AddsLabel(FullState(), Some(Gmail(7)), "a")
    ensures SelectedMessage(FullState(), Some(Gmail(7))) == Some(FullState().mailbox.value.messages[0])
  {
    hide FullLabels, Letters;
    var s := FullState();
    var row, catalog := s.mailbox.value.messages[0], s.mailbox.value.catalog;
    assert catalog.Find(Label("a")) == Some(catalog.folders[0]);
    assert SelectedMessage(s, Some(Gmail(7))) == Some(row);
    FullIsFull();
  }

  /** Gmail hands out lists of 256 labels. Adding "a" to the message above and having it refused does not
      give its labels back. */
  lemma FullListLosesLabel()
    ensures AddsLabel(FullState(), Some(Gmail(7)), "a")
    ensures AfterRefusal(FullState(), Some(Gmail(7)), "a").mailbox != FullState().mailbox
  {
    hide AfterRefusal, FullLabels, Letters, Build, SelectedMessage, Mapped, Mutate, Permitted;
    var s := FullState();
    FullStateAdds();
    FullIsFull();
    RefusedShape(s, Some(Gmail(7)), "a");
    MappedPresence(s, Some(Gmail(7)), "a");
    RefusedAdditionOnReducer(s, Some(Gmail(7)), "a");
  }

  lemma MappedPresence(s: State, selection: Option<MessageId>, name: string)
    requires WellNumbered(s) && NextIsUnused(s) && AddsLabel(s, selection, name)
    ensures s.results.None? ==> AfterRefusal(s, selection, name).results.None?
  {
    hide SelectedMessage, AfterRefusal, MapRows, Mutate, WellNumbered;
    RefusedShape(s, selection, name);
  }

  lemma FullIsFull()
    ensures Ordered(FullLabels()) && "a" !in FullLabels() && !SurvivesCap(FullLabels(), "a")
  {
    hide Letters;
    var labels := FullLabels();
    forall i, j | 0 <= i < j < |labels| ensures AtMost(labels[i], labels[j]) && labels[i] != labels[j] {
      LettersOrdered(i + 1, j + 1);
    }
    forall l <- labels ensures l != "a" && !AtMost(l, "a") {
      var i :| 0 <= i < |labels| && labels[i] == l;
      LettersLength(i + 1);
      assert l[0] == 'b';
    }
    assert labels[0] in labels;
  }
}
