/** The history sidebar (frontend/app/components/SideBar.tsx): it groups the
    history items by subject, in order of first appearance, keeps the set of
    expanded subjects, and builds the path a topic click navigates to.
    A subjectId of "" stands for a missing (falsy) one. */
module Sidebar {
  import opened Common

  datatype HistoryItem = HistoryItem(
    id: string,
    subjectAbbr: string,
    subjectName: Option<string>,
    topicName: string,
    subjectId: string)

  datatype GroupedHistory = GroupedHistory(subjectId: string, subjectName: string, topics: seq<HistoryItem>)

  /** The name shown when an item has neither a subject name nor an abbreviation. */
  const DefaultSubjectName := "Subject"

  // ------------------------------------------------------------ specification

  /** `history.find(h => h.subjectId === s)`. */
  function Find(history: seq<HistoryItem>, s: string): Option<HistoryItem> {
    if history == [] then None
    else if history[0].subjectId == s then Some(history[0])
    else Find(history[1..], s)
  }

  /** Find yields nothing exactly when no item has the subject, and otherwise
      the first item that has it. */
  lemma {:induction false} FindFirst(history: seq<HistoryItem>, s: string)
    ensures Find(history, s).None? <==> forall i :: 0 <= i < |history| ==> history[i].subjectId != s
    ensures Find(history, s).Some? ==>
      exists i :: 0 <= i < |history| && history[i] == Find(history, s).value && history[i].subjectId == s &&
                  forall j :: 0 <= j < i ==> history[j].subjectId != s
  {
    if history != [] && history[0].subjectId != s {
      FindFirst(history[1..], s);
      var r := Find(history[1..], s);
      if r.Some? {
        var i :| 0 <= i < |history[1..]| && history[1..][i] == r.value && history[1..][i].subjectId == s &&
                 forall j :: 0 <= j < i ==> history[1..][j].subjectId != s;
        assert history[i + 1] == r.value;
        forall j | 0 <= j < i + 1 ensures history[j].subjectId != s {
          if j > 0 { assert history[j] == history[1..][j - 1]; }
        }
      } else {
        forall j | 0 <= j < |history| ensures history[j].subjectId != s {
          if j > 0 { assert history[j] == history[1..][j - 1]; }
        }
      }
    }
  }

  /** `first?.subjectName || first?.subjectAbbr || "Subject"`: the first
      non-empty of the item's subject name and abbreviation, else "Subject". */
  function NameOf(first: Option<HistoryItem>): (r: string)
    ensures r != ""
    ensures first.Some? && first.value.subjectName.Some? && first.value.subjectName.value != "" ==>
      r == first.value.subjectName.value
    ensures first.Some? && (first.value.subjectName.None? || first.value.subjectName.value == "") && first.value.subjectAbbr != "" ==>
      r == first.value.subjectAbbr
    ensures first.None? || ((first.value.subjectName.None? || first.value.subjectName.value == "") && first.value.subjectAbbr == "") ==>
      r == DefaultSubjectName
  {
    if first.Some? && first.value.subjectName.Some? && first.value.subjectName.value != "" then first.value.subjectName.value
    else if first.Some? && first.value.subjectAbbr != "" then first.value.subjectAbbr
    else DefaultSubjectName
  }

  /** The distinct non-empty subject ids, in order of first appearance. */
  function SubjectOrder(history: seq<HistoryItem>): (r: seq<string>)
    ensures "" !in r
    decreases |history|
  {
    if history == [] then []
    else
      var n := |history| - 1;
      var front := SubjectOrder(history[..n]);
      var s := history[n].subjectId;
      if s == "" || s in front then front else front + [s]
  }

  /** No subject appears twice in the order. */
  lemma {:induction false} SubjectOrderDistinct(history: seq<HistoryItem>)
    ensures forall k, l :: 0 <= k < l < |SubjectOrder(history)| ==> SubjectOrder(history)[k] != SubjectOrder(history)[l]
    decreases |history|
  {
    if history != [] {
      SubjectOrderDistinct(history[..|history| - 1]);
    }
  }

  /** A subject is in the order exactly when it is non-empty and some item has it. */
  lemma {:induction false} SubjectOrderMembers(history: seq<HistoryItem>)
    ensures forall s :: s in SubjectOrder(history) <==> s != "" && exists i :: 0 <= i < |history| && history[i].subjectId == s
    decreases |history|
  {
    if history != [] {
      var n := |history| - 1;
      SubjectOrderMembers(history[..n]);
      assert forall i :: 0 <= i < n ==> history[..n][i] == history[i];
    }
  }

  /** The items of subject s, in their history order. */
  function TopicsOf(history: seq<HistoryItem>, s: string): (r: seq<HistoryItem>)
    ensures |r| <= |history|
    ensures forall k :: 0 <= k < |r| ==> r[k].subjectId == s
    decreases |history|
  {
    if history == [] then []
    else
      var n := |history| - 1;
      TopicsOf(history[..n], s) + (if history[n].subjectId == s then [history[n]] else [])
  }

  /** The group shown for subject s. */
  function Group(history: seq<HistoryItem>, s: string): GroupedHistory {
    GroupedHistory(s, NameOf(Find(history, s)), TopicsOf(history, s))
  }

  /** The groups for the subjects of `order`, in that order. */
  function GroupsFor(order: seq<string>, history: seq<HistoryItem>): (r: seq<GroupedHistory>)
    ensures |r| == |order|
    ensures forall k :: 0 <= k < |order| ==> r[k] == Group(history, order[k])
  {
    if order == [] then [] else [Group(history, order[0])] + GroupsFor(order[1..], history)
  }

  /** What the sidebar shows: one group per subject, by first appearance. */
  function Groups(history: seq<HistoryItem>): seq<GroupedHistory> {
    GroupsFor(SubjectOrder(history), history)
  }

  /** The items that have a subject, in order. */
  function WithSubject(history: seq<HistoryItem>): seq<HistoryItem>
    decreases |history|
  {
    if history == [] then []
    else
      var n := |history| - 1;
      WithSubject(history[..n]) + (if history[n].subjectId != "" then [history[n]] else [])
  }

  /** All the topics of the groups, group after group. */
  function Flatten(groups: seq<GroupedHistory>): seq<HistoryItem> {
    if groups == [] then [] else groups[0].topics + Flatten(groups[1..])
  }

  /** The sum of the groups' topic counts. */
  function TopicCount(groups: seq<GroupedHistory>): nat {
    if groups == [] then 0 else |groups[0].topics| + TopicCount(groups[1..])
  }

  /** The non-empty subject ids that occur in the history. */
  function SubjectIds(history: seq<HistoryItem>): set<string> {
    set i | 0 <= i < |history| && history[i].subjectId != "" :: history[i].subjectId
  }

  // ------------------------------------------------------------------ lemmas

  /** Subjects come in order of first appearance: for two groups, some item of
      the earlier one comes before every item of the later one. */
  lemma {:induction false} SubjectOrderFirstAppearance(history: seq<HistoryItem>, k: nat, l: nat)
    requires k < l < |SubjectOrder(history)|
    ensures exists i :: 0 <= i < |history| && history[i].subjectId == SubjectOrder(history)[k] &&
                        forall j :: 0 <= j <= i ==> history[j].subjectId != SubjectOrder(history)[l]
    decreases |history|
  {
    var n := |history| - 1;
    var front := history[..n];
    var o := SubjectOrder(history);
    var fo := SubjectOrder(front);
    assert forall i :: 0 <= i < n ==> front[i] == history[i];
    if l < |fo| {
      assert o[k] == fo[k] && o[l] == fo[l];
      SubjectOrderFirstAppearance(front, k, l);
      var i :| 0 <= i < |front| && front[i].subjectId == fo[k] &&
               forall j :: 0 <= j <= i ==> front[j].subjectId != fo[l];
      assert history[i].subjectId == o[k];
    } else {
      SubjectOrderMembers(front);
      assert o == fo + [history[n].subjectId];
      assert o[k] == fo[k] && o[k] in fo;
      var i :| 0 <= i < n && history[i].subjectId == o[k];
      assert o[l] !in fo;
    }
  }

  /** A non-empty subject that does not occur has no topics. */
  lemma {:induction false} NoTopicsOfAbsentSubject(history: seq<HistoryItem>, s: string)
    requires s !in SubjectOrder(history) && s != ""
    ensures TopicsOf(history, s) == []
    decreases |history|
  {
    if history != [] {
      var n := |history| - 1;
      assert forall i :: 0 <= i < n ==> history[..n][i] == history[i];
      NoTopicsOfAbsentSubject(history[..n], s);
    }
  }

  /** Extending the history by one item extends the subject order by its
      subject when that subject is new and non-empty. */
  lemma OrderStep(history: seq<HistoryItem>, i: nat)
    requires i < |history|
    ensures SubjectOrder(history[..i + 1]) ==
      var s := history[i].subjectId;
      if s == "" || s in SubjectOrder(history[..i]) then SubjectOrder(history[..i]) else SubjectOrder(history[..i]) + [s]
  {
    assert history[..i + 1][..i] == history[..i];
  }

  /** Extending the history by one item adds it to its own subject's topics only. */
  lemma TopicsStep(history: seq<HistoryItem>, i: nat, s: string)
    requires i < |history|
    ensures TopicsOf(history[..i + 1], s) ==
      TopicsOf(history[..i], s) + (if history[i].subjectId == s then [history[i]] else [])
  {
    assert history[..i + 1][..i] == history[..i];
  }

  /** Each item with a subject is among the topics of its subject's group. */
  lemma {:induction false} ItemInItsGroup(history: seq<HistoryItem>, i: nat)
    requires i < |history|
    ensures history[i] in TopicsOf(history, history[i].subjectId)
    decreases |history|
  {
    var n := |history| - 1;
    if i < n {
      assert history[..n][i] == history[i];
      ItemInItsGroup(history[..n], i);
    }
  }

  /** Topics keep their history order: the topics contributed by the first i
      items come first, before those of the later items. */
  lemma {:induction false} TopicsKeepOrder(history: seq<HistoryItem>, i: nat, s: string)
    requires i <= |history|
    ensures |TopicsOf(history[..i], s)| <= |TopicsOf(history, s)|
    ensures TopicsOf(history, s)[..|TopicsOf(history[..i], s)|] == TopicsOf(history[..i], s)
    decreases |history|
  {
    if i < |history| {
      var n := |history| - 1;
      assert history[..n][..i] == history[..i];
      TopicsKeepOrder(history[..n], i, s);
    } else {
      assert history[..i] == history;
    }
  }

  /** The topics of the subjects of `order`, subject after subject. */
  function TopicsAlong(order: seq<string>, history: seq<HistoryItem>): seq<HistoryItem> {
    if order == [] then [] else TopicsOf(history, order[0]) + TopicsAlong(order[1..], history)
  }

  /** Flattening the groups of `order` gives the topics along `order`. */
  lemma {:induction false} FlattenIsTopicsAlong(order: seq<string>, history: seq<HistoryItem>)
    ensures Flatten(GroupsFor(order, history)) == TopicsAlong(order, history)
  {
    if order != [] {
      FlattenIsTopicsAlong(order[1..], history);
      assert GroupsFor(order, history)[1..] == GroupsFor(order[1..], history);
    }
  }

  /** Appending an item of a subject outside `order` leaves the topics along
      `order` as they were. */
  lemma {:induction false} AlongUnaffected(order: seq<string>, history: seq<HistoryItem>, x: HistoryItem)
    requires x.subjectId !in order
    ensures TopicsAlong(order, history + [x]) == TopicsAlong(order, history)
  {
    if order != [] {
      assert (history + [x])[..|history|] == history;
      AlongUnaffected(order[1..], history, x);
    }
  }

  /** Appending an item of a subject of `order` adds it exactly once to the
      topics along `order`. */
  lemma {:induction false} AlongAddsOnce(order: seq<string>, history: seq<HistoryItem>, x: HistoryItem)
    requires forall k, l :: 0 <= k < l < |order| ==> order[k] != order[l]
    requires x.subjectId in order
    ensures multiset(TopicsAlong(order, history + [x])) == multiset(TopicsAlong(order, history)) + multiset{x}
  {
    assert (history + [x])[..|history|] == history;
    if order[0] == x.subjectId {
      assert x.subjectId !in order[1..];
      AlongUnaffected(order[1..], history, x);
    } else {
      AlongAddsOnce(order[1..], history, x);
    }
  }

  /** The topics along `order + [s]` are those along `order`, then those of s. */
  lemma {:induction false} AlongAppend(order: seq<string>, s: string, history: seq<HistoryItem>)
    ensures TopicsAlong(order + [s], history) == TopicsAlong(order, history) + TopicsOf(history, s)
  {
    if order != [] {
      assert (order + [s])[1..] == order[1..] + [s];
      AlongAppend(order[1..], s, history);
    }
  }

  /** Every item with a subject appears exactly once among the topics along
      the subject order, and no other item appears. */
  lemma {:induction false} AlongPartitionsHistory(history: seq<HistoryItem>)
    ensures multiset(TopicsAlong(SubjectOrder(history), history)) == multiset(WithSubject(history))
    decreases |history|
  {
    if history != [] {
      var n := |history| - 1;
      var front, x := history[..n], history[n];
      assert history == front + [x];
      AlongPartitionsHistory(front);
      var fo := SubjectOrder(front);
      var s := x.subjectId;
      if s == "" {
        AlongUnaffected(fo, front, x);
      } else if s in fo {
        SubjectOrderDistinct(front);
        AlongAddsOnce(fo, front, x);
      } else {
        assert SubjectOrder(history) == fo + [s];
        AlongUnaffected(fo, front, x);
        NoTopicsOfAbsentSubject(front, s);
        assert TopicsOf(history, s) == [x];
        AlongAppend(fo, s, history);
      }
    }
  }

  /** Every item with a subject appears exactly once among all the groups'
      topics, and no other item appears. */
  lemma GroupsPartitionHistory(history: seq<HistoryItem>)
    ensures multiset(Flatten(Groups(history))) == multiset(WithSubject(history))
  {
    FlattenIsTopicsAlong(SubjectOrder(history), history);
    AlongPartitionsHistory(history);
  }

  /** The topic counts add up to the number of items with a subject. */
  lemma TopicCountMatchesHistory(history: seq<HistoryItem>)
    ensures TopicCount(Groups(history)) == |WithSubject(history)|
  {
    GroupsPartitionHistory(history);
    CountIsFlattenLength(Groups(history));
    assert |multiset(Flatten(Groups(history)))| == |multiset(WithSubject(history))|;
  }

  lemma {:induction false} CountIsFlattenLength(groups: seq<GroupedHistory>)
    ensures TopicCount(groups) == |Flatten(groups)|
  {
    if groups != [] {
      CountIsFlattenLength(groups[1..]);
    }
  }

  /** The subjects that start expanded are exactly those that have a group. */
  lemma ExpandedAreGroupedSubjects(history: seq<HistoryItem>)
    ensures forall s :: s in SubjectIds(history) <==> s in SubjectOrder(history)
  {
    forall s | s in SubjectOrder(history) ensures s in SubjectIds(history) {
      var i :| 0 <= i < |history| && history[i].subjectId == s;
    }
  }

  // ------------------------------------------------------------------ state

  /** Flips the membership of s and of nothing else. */
  function Toggle(expanded: set<string>, s: string): (r: set<string>)
    ensures s in r <==> s !in expanded
    ensures forall t :: t != s ==> (t in r <==> t in expanded)
  {
    if s in expanded then expanded - {s} else expanded + {s}
  }

  /** Toggling a subject twice restores the set. */
  lemma ToggleTwice(expanded: set<string>, s: string)
    ensures Toggle(Toggle(expanded, s), s) == expanded
  {
  }

  /** The `expandedSubjects` initializer: adds every non-empty subject id. */
  method InitialExpanded(history: seq<HistoryItem>) returns (expanded: set<string>)
    ensures expanded == SubjectIds(history)
  {
    expanded := {};
    var i := 0;
    while i < |history|
      invariant 0 <= i <= |history|
      invariant expanded == SubjectIds(history[..i])
    {
      if history[i].subjectId != "" {
        expanded := expanded + {history[i].subjectId};
      }
      assert forall j :: 0 <= j < i ==> history[..i + 1][j] == history[..i][j];
      i := i + 1;
    }
    assert history[..i] == history;
  }

  /** The groups of the subjects met so far, each with the topics of the
      first i items. */
  ghost predicate GroupedSoFar(history: seq<HistoryItem>, i: nat, order: seq<string>, grouped: map<string, GroupedHistory>)
    requires i <= |history|
  {
    && order == SubjectOrder(history[..i])
    && (forall s :: s in grouped <==> s in order)
    && forall s :: s in grouped ==> Holds(history, i, s, grouped[s])
  }

  /** g is the group of subject s as it stands after the first i items. */
  predicate Holds(history: seq<HistoryItem>, i: nat, s: string, g: GroupedHistory)
    requires i <= |history|
  {
    g.subjectId == s && g.subjectName == NameOf(Find(history, s)) && g.topics == TopicsOf(history[..i], s)
  }

  /** A group is unaffected by an item of another subject. */
  lemma HoldsKept(history: seq<HistoryItem>, i: nat, t: string, g: GroupedHistory)
    requires i < |history| && history[i].subjectId != t
    requires Holds(history, i, t, g)
    ensures Holds(history, i + 1, t, g)
  {
    TopicsStep(history, i, t);
  }

  /** Pushing an item onto its subject's group keeps that group up to date. */
  lemma HoldsPushed(history: seq<HistoryItem>, i: nat, g: GroupedHistory)
    requires i < |history|
    requires Holds(history, i, history[i].subjectId, g)
    ensures Holds(history, i + 1, history[i].subjectId, g.(topics := g.topics + [history[i]]))
  {
    TopicsStep(history, i, history[i].subjectId);
  }

  /** The group opened for a new subject holds just the item that opened it. */
  lemma HoldsOpened(history: seq<HistoryItem>, i: nat)
    requires i < |history| && history[i].subjectId != ""
    requires history[i].subjectId !in SubjectOrder(history[..i])
    ensures var s := history[i].subjectId;
      Holds(history, i + 1, s, GroupedHistory(s, NameOf(Find(history, s)), [history[i]]))
  {
    var s := history[i].subjectId;
    NoTopicsOfAbsentSubject(history[..i], s);
    TopicsStep(history, i, s);
  }

  /** An item without a subject leaves the grouping as it was. */
  lemma SkipStep(history: seq<HistoryItem>, i: nat, order: seq<string>, grouped: map<string, GroupedHistory>)
    requires i < |history| && history[i].subjectId == ""
    requires GroupedSoFar(history, i, order, grouped)
    ensures GroupedSoFar(history, i + 1, order, grouped)
  {
    OrderStep(history, i);
    forall t | t in grouped ensures Holds(history, i + 1, t, grouped[t]) {
      HoldsKept(history, i, t, grouped[t]);
    }
  }

  /** An item of a subject already met is pushed onto that subject's topics. */
  lemma PushStep(history: seq<HistoryItem>, i: nat, order: seq<string>, grouped: map<string, GroupedHistory>)
    requires i < |history| && history[i].subjectId in grouped
    requires GroupedSoFar(history, i, order, grouped)
    ensures var s := history[i].subjectId;
      GroupedSoFar(history, i + 1, order, grouped[s := grouped[s].(topics := grouped[s].topics + [history[i]])])
  {
    var s := history[i].subjectId;
    var next := grouped[s := grouped[s].(topics := grouped[s].topics + [history[i]])];
    OrderStep(history, i);
    forall t | t in next ensures Holds(history, i + 1, t, next[t]) {
      if t == s {
        HoldsPushed(history, i, grouped[s]);
      } else {
        HoldsKept(history, i, t, grouped[t]);
      }
    }
  }

  /** The first item of a new subject opens its group, named after the
      subject's first item, and is pushed onto it. */
  lemma OpenStep(history: seq<HistoryItem>, i: nat, order: seq<string>, grouped: map<string, GroupedHistory>)
    requires i < |history| && history[i].subjectId != "" && history[i].subjectId !in grouped
    requires GroupedSoFar(history, i, order, grouped)
    ensures var s := history[i].subjectId;
      GroupedSoFar(history, i + 1, order + [s], grouped[s := GroupedHistory(s, NameOf(Find(history, s)), [history[i]])])
  {
    var s := history[i].subjectId;
    var next := grouped[s := GroupedHistory(s, NameOf(Find(history, s)), [history[i]])];
    OrderStep(history, i);
    forall t | t in next ensures Holds(history, i + 1, t, next[t]) {
      if t == s {
        HoldsOpened(history, i);
      } else {
        HoldsKept(history, i, t, grouped[t]);
      }
    }
  }

  /** The `groupedHistory` Map, filled in history order: the key order is the
      Map's insertion order. */
  method GroupBySubject(history: seq<HistoryItem>) returns (order: seq<string>, grouped: map<string, GroupedHistory>)
    ensures order == SubjectOrder(history)
    ensures forall s :: s in grouped <==> s in order
    ensures forall s :: s in grouped ==> grouped[s] == Group(history, s)
  {
    order := [];
    grouped := map[];
    var i := 0;
    while i < |history|
      invariant 0 <= i <= |history|
      invariant GroupedSoFar(history, i, order, grouped)
    {
      var item := history[i];
      if item.subjectId == "" {
        SkipStep(history, i, order, grouped);
      } else {
        var s := item.subjectId;
        if s !in grouped {
          OpenStep(history, i, order, grouped);
          var subjectName := NameOf(Find(history, s));
          grouped := grouped[s := GroupedHistory(s, subjectName, [])];
          order := order + [s];
          assert grouped[s].topics + [item] == [item];
        } else {
          PushStep(history, i, order, grouped);
        }
        grouped := grouped[s := grouped[s].(topics := grouped[s].topics + [item])];
      }
      i := i + 1;
    }
    assert history[..i] == history;
    forall t | t in grouped ensures grouped[t] == Group(history, t) {
      assert Holds(history, i, t, grouped[t]);
    }
  }

  /** `Array.from(grouped.values())`: the groups in insertion order. */
  method GroupHistory(history: seq<HistoryItem>) returns (groups: seq<GroupedHistory>)
    ensures groups == Groups(history)
  {
    var order, grouped := GroupBySubject(history);
    groups := [];
    var k := 0;
    while k < |order|
      invariant 0 <= k <= |order|
      invariant |groups| == k
      invariant forall j :: 0 <= j < k ==> order[j] in grouped && groups[j] == grouped[order[j]]
    {
      groups := groups + [grouped[order[k]]];
      k := k + 1;
    }
    ghost var shown := GroupsFor(order, history);
    forall j | 0 <= j < |groups| ensures groups[j] == shown[j] {
      assert groups[j] == grouped[order[j]];
    }
  }

  /** The path a click on a topic navigates to: "/topic/" + id, with
      "?subjectId=" + subjectId when the item has a subject; no navigation
      when the topic id is empty. */
  function TopicPath(item: HistoryItem): (r: Option<string>)
    ensures r.None? <==> item.id == ""
    ensures r.Some? ==> |r.value| >= 7 + |item.id|
    ensures r.Some? ==> r.value[..7] == "/topic/" && r.value[7..7 + |item.id|] == item.id
    ensures r.Some? && item.subjectId == "" ==> |r.value| == 7 + |item.id|
    ensures r.Some? && item.subjectId != "" ==> r.value[7 + |item.id|..] == "?subjectId=" + item.subjectId
  {
    if item.id == "" then None
    else Some("/topic/" + item.id + (if item.subjectId != "" then "?subjectId=" + item.subjectId else ""))
  }

  /** Splits a path built by TopicPath back into the topic id and the subject
      id: an inverse that shows TopicPath loses nothing, not a model of how
      the topic page reads its route. */
  function ParseTopicPath(path: string): Option<(string, string)> {
    if |path| < 7 || path[..7] != "/topic/" then None
    else
      var rest := path[7..];
      var q := QueryStart(rest);
      var query := rest[q..];
      if query == "" then Some((rest, ""))
      else if |query| >= 11 && query[..11] == "?subjectId=" then Some((rest[..q], query[11..]))
      else None
  }

  /** The index of the first '?' in s, or |s| when there is none. */
  function QueryStart(s: string): (q: nat)
    ensures q <= |s|
    ensures forall k :: 0 <= k < q ==> s[k] != '?'
    ensures q < |s| ==> s[q] == '?'
  {
    if s == [] || s[0] == '?' then 0 else 1 + QueryStart(s[1..])
  }

  /** The first '?' is at q when none comes before it and one is at q (or q is the end). */
  lemma {:induction false} QueryStartAt(s: string, q: nat)
    requires q <= |s|
    requires forall k :: 0 <= k < q ==> s[k] != '?'
    requires q < |s| ==> s[q] == '?'
    ensures QueryStart(s) == q
  {
    if q > 0 {
      assert s[0] != '?';
      QueryStartAt(s[1..], q - 1);
    }
  }

  /** For a topic id without '?', the path round-trips to the item's topic id
      and subject id. */
  lemma TopicPathRoundTrip(item: HistoryItem)
    requires item.id != "" && '?' !in item.id
    ensures ParseTopicPath(TopicPath(item).value) == Some((item.id, item.subjectId))
  {
    var path := TopicPath(item).value;
    var query := if item.subjectId != "" then "?subjectId=" + item.subjectId else "";
    assert path == "/topic/" + item.id + query;
    assert path[..7] == "/topic/";
    var rest := path[7..];
    assert rest == item.id + query;
    assert forall k :: 0 <= k < |item.id| ==> rest[k] == item.id[k];
    QueryStartAt(rest, |item.id|);
    var q := QueryStart(rest);
    assert rest[..q] == item.id;
    assert rest[q..] == query;
    if query != "" {
      assert query[..11] == "?subjectId=";
      assert query[11..] == item.subjectId;
    } else {
      assert rest == item.id;
    }
  }

  class SidebarState {
    /** The `history` prop. */
    const history: seq<HistoryItem>
    /** The `expandedSubjects` state. */
    var expandedSubjects: set<string>

    /** Mounting the sidebar: every subject in the history starts expanded. */
    constructor (history: seq<HistoryItem>)
      ensures this.history == history
      ensures expandedSubjects == SubjectIds(history)
    {
      this.history := history;
      var expanded := InitialExpanded(history);
      expandedSubjects := expanded;
    }

    /** toggleSubject: a copy of the set with s added or removed replaces the state. */
    method ToggleSubject(s: string)
      modifies this
      ensures expandedSubjects == Toggle(old(expandedSubjects), s)
    {
      var next := expandedSubjects;
      if s in next {
        next := next - {s};
      } else {
        next := next + {s};
      }
      expandedSubjects := next;
    }

    /** The groups rendered for the current history. */
    method GroupedHistory() returns (groups: seq<GroupedHistory>)
      ensures groups == Groups(history)
    {
      groups := GroupHistory(history);
    }
  }
}
