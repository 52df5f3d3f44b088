/** Label lists as the change reducer keeps them: in order, each label once (src/model.rs,
    `MessageMutation::apply`, and src/state.rs, `restore_label_to_visible_representations`). */
module LabelLists {
  import opened Text
  import opened Sorting
  import opened Mail

  ghost predicate Ordered(s: seq<string>) {
    forall i, j | 0 <= i < j < |s| :: AtMost(s[i], s[j]) && s[i] != s[j]
  }

  /** An ordered list is determined by its members. */
  lemma {:induction false} OrderedUnique(a: seq<string>, b: seq<string>)
    requires Ordered(a) && Ordered(b) && forall x :: x in a <==> x in b
    ensures a == b
  {
    hide AtMost;
    if a == [] {
      assert forall k | 0 <= k < |b| :: b[k] in b;
    } else {
      assert a[0] in b && b[0] in a;
      var i :| 0 <= i < |b| && b[i] == a[0];
      var j :| 0 <= j < |a| && a[j] == b[0];
      if i != 0 && j != 0 {
        AtMostTotal(a[0], b[0]);
      }
      forall x ensures x in a[1..] <==> x in b[1..] {
        if x in a[1..] { var k :| 1 <= k < |a| && a[k] == x; assert x in b && x != b[0]; }
        if x in b[1..] { var k :| 1 <= k < |b| && b[k] == x; assert x in a && x != a[0]; }
      }
      OrderedUnique(a[1..], b[1..]);
      assert a == [a[0]] + a[1..] && b == [b[0]] + b[1..];
    }
  }

  lemma {:induction false} DedupOrders(s: seq<string>)
    requires Sorted(s, StringOrder())
    ensures Ordered(Dedup(s))
  {
    hide AtMost;
    if |s| >= 2 {
      var rest := s[1..];
      DedupOrders(rest);
      DedupMembers(rest);
      if s[0] != s[1] {
        forall y <- Dedup(rest) ensures AtMost(s[0], y) && s[0] != y {
          var k :| 1 <= k < |s| && s[k] == y;
          assert StringOrder()(s[0], s[k]) && StringOrder()(s[0], s[1]);
          if y == s[0] {
            assert k > 1 && StringOrder()(s[1], s[k]);
            AtMostTotal(s[0], s[1]);
          }
        }
      }
    }
  }

  lemma {:induction false} FilterOrdered(s: seq<string>, keep: string -> bool)
    requires Ordered(s)
    ensures Ordered(Filter(s, keep))
  {
    hide AtMost;
    if s != [] {
      FilterOrdered(s[1..], keep);
      FilterMembers(s[1..], keep);
      forall y <- Filter(s[1..], keep) ensures AtMost(s[0], y) && s[0] != y {
        var k :| 1 <= k < |s| && s[k] == y;
      }
    }
  }

  /** Adding a label leaves an ordered list that holds it, whatever the list was. */
  lemma AddedLabel(labels: seq<string>, name: string)
    ensures Ordered(WithLabel(labels, name))
    ensures forall x :: x in WithLabel(labels, name) <==> x in labels || x == name
  {
    hide Dedup, SortBy, Filter;
    var kept := Filter(labels, OtherThan(name)) + [name];
    StringsAreOrdered();
    SortSorts(kept, StringOrder());
    DedupOrders(SortBy(kept, StringOrder()));
    WithLabelMembers(labels, name);
  }

  lemma RemovedLabel(labels: seq<string>, name: string)
    requires Ordered(labels)
    ensures Ordered(Filter(labels, OtherThan(name)))
    ensures forall x :: x in Filter(labels, OtherThan(name)) <==> x in labels && x != name
  {
    hide Filter;
    FilterOrdered(labels, OtherThan(name));
    FilterMembers(labels, OtherThan(name));
    forall x ensures x in Filter(labels, OtherThan(name)) <==> x in labels && x != name {
      if x in labels && x != name { assert OtherThan(name)(x); }
    }
  }

  lemma AddedLength(labels: seq<string>, name: string)
    requires Ordered(labels) && name !in labels
    ensures |WithLabel(labels, name)| == |labels| + 1
  {
    hide WithLabel;
    AddedLabel(labels, name);
    DistinctLength(labels);
    DistinctLength(WithLabel(labels, name));
    assert Elements(WithLabel(labels, name)) == Elements(labels) + {name};
  }

  /** The list after a label was added with the cap applied, and the addition was refused. */
  function AddedThenRefused(labels: seq<string>, name: string): seq<string> {
    Filter(Take(WithLabel(labels, name), MAX_MESSAGE_LABELS), OtherThan(name))
  }

  /** A refused addition restores the list exactly when the cap cut nothing but the new label. */
  lemma RefusedAdditionExact(labels: seq<string>, name: string)
    requires Ordered(labels) && name !in labels
    ensures AddedThenRefused(labels, name) == labels <==>
            |labels| < MAX_MESSAGE_LABELS
            || (|labels| == MAX_MESSAGE_LABELS && forall l <- labels :: AtMost(l, name))
  {
    hide WithLabel, Filter, AtMost;
    var all := WithLabel(labels, name);
    AddedLabel(labels, name);
    AddedLength(labels, name);
    if |labels| < MAX_MESSAGE_LABELS {
      RemovedLabel(all, name);
      OrderedUnique(Filter(all, OtherThan(name)), labels);
    } else {
      RefusedAdditionPastCap(labels, name, all);
    }
  }

  lemma RefusedAdditionPastCap(labels: seq<string>, name: string, all: seq<string>)
    requires Ordered(labels) && name !in labels && |labels| >= MAX_MESSAGE_LABELS
    requires Ordered(all) && |all| == |labels| + 1 && forall x :: x in all <==> x in labels || x == name
    ensures Filter(all[..MAX_MESSAGE_LABELS], OtherThan(name)) == labels <==>
            |labels| == MAX_MESSAGE_LABELS && forall l <- labels :: AtMost(l, name)
  {
    hide Filter, AtMost;
    var cut := all[..MAX_MESSAGE_LABELS];
    FilterMembers(cut, OtherThan(name));
    if |labels| == MAX_MESSAGE_LABELS {
      if name in cut {
        FilterDrops(cut, name);
        var k :| 0 <= k < |cut| && cut[k] == name;
        assert AtMost(name, all[MAX_MESSAGE_LABELS]) && all[MAX_MESSAGE_LABELS] != name;
        assert all[MAX_MESSAGE_LABELS] in all;
        if AtMost(all[MAX_MESSAGE_LABELS], name) { AtMostTotal(name, all[MAX_MESSAGE_LABELS]); }
      } else {
        FilterAll(cut, OtherThan(name));
        assert name in all;
        var k :| 0 <= k < |all| && all[k] == name;
        forall j | 0 <= j < MAX_MESSAGE_LABELS ensures all[j] != name { assert all[j] == cut[j] && cut[j] in cut; }
        assert all == cut + [name];
        OrderedUnique(cut, labels);
        assert forall l <- labels :: AtMost(l, name);
      }
    }
  }

  lemma {:induction false} FilterDrops(s: seq<string>, name: string)
    requires name in s
    ensures |Filter(s, OtherThan(name))| < |s|
  {
    assert s == [s[0]] + s[1..];
    if s[0] == name {
      FilterMembers(s[1..], OtherThan(name));
    } else {
      FilterDrops(s[1..], name);
    }
  }
}
