/** A Firestore collection seen as a table: a finite map from generated
    document ids to document data. The queries the services issue
    (`where(field == value)`, `.limit(n)`, `.stream()`) are modelled here once;
    the order in which Firestore streams documents is unspecified, so a query
    answer is any ordering of the matching documents. */
module Collection {
  import opened Common

  /** A Firestore document id. */
  type Id = string

  /** A `datetime`, as a point on an abstract time line. */
  type Instant = int

  /** A document snapshot: its id and its data (`doc.id`, `doc.to_dict()`). */
  datatype Doc<R> = Doc(id: Id, data: R)

  /** What a write can fail with: Firestore's `update` on a missing document
      raises `NotFound`. */
  datatype StoreError = NotFound(id: Id)

  /** The ids of a sequence of documents. */
  function Ids<R>(docs: seq<Doc<R>>): set<Id>
    decreases |docs|
  {
    if docs == [] then {} else Ids(docs[..|docs| - 1]) + {docs[|docs| - 1].id}
  }

  /** An id belongs to Ids(docs) exactly when some document carries it. */
  lemma {:induction false} IdsMembership<R>(docs: seq<Doc<R>>, id: Id)
    ensures id in Ids(docs) <==> exists i :: 0 <= i < |docs| && docs[i].id == id
    decreases |docs|
  {
    if docs != [] {
      var n := |docs| - 1;
      IdsMembership(docs[..n], id);
      if exists i :: 0 <= i < n && docs[..n][i].id == id {
        var i :| 0 <= i < n && docs[..n][i].id == id;
        assert docs[i].id == id;
      }
      if exists i :: 0 <= i < |docs| && docs[i].id == id {
        var i :| 0 <= i < |docs| && docs[i].id == id;
        if i < n { assert docs[..n][i].id == id; }
      }
    }
  }

  predicate DistinctIds<R>(docs: seq<Doc<R>>) {
    forall i, j :: 0 <= i < j < |docs| ==> docs[i].id != docs[j].id
  }

  /** The ids of the documents of `table` a query with filter `keep` selects. */
  function MatchingIds<R>(table: map<Id, R>, keep: R -> bool): set<Id> {
    set id | id in table && keep(table[id])
  }

  /** Every document of `docs` is stored in `table` under its id, with that data. */
  predicate FromTable<R(==)>(table: map<Id, R>, docs: seq<Doc<R>>) {
    forall i :: 0 <= i < |docs| ==> docs[i].id in table && docs[i].data == table[docs[i].id]
  }

  /** `docs` is a possible answer of the query "where keep" over `table`:
      each matching document exactly once, in some order. */
  predicate Answers<R(==)>(table: map<Id, R>, keep: R -> bool, docs: seq<Doc<R>>) {
    && DistinctIds(docs)
    && FromTable(table, docs)
    && Ids(docs) == MatchingIds(table, keep)
  }

  /** The snapshot `document(id).get()` returns, or None when it does not exist. */
  function Lookup<R>(table: map<Id, R>, id: Id): Option<Doc<R>> {
    if id in table then Some(Doc(id, table[id])) else None
  }

  /** A sequence of documents with distinct ids has as many ids as documents. */
  lemma {:induction false} DistinctIdsCount<R>(docs: seq<Doc<R>>)
    requires DistinctIds(docs)
    ensures |Ids(docs)| == |docs|
    decreases |docs|
  {
    if docs != [] {
      var n := |docs| - 1;
      var front := docs[..n];
      assert DistinctIds(front);
      DistinctIdsCount(front);
      IdsMembership(front, docs[n].id);
    }
  }

  /** What the query loop of Where keeps true: the documents gathered so far
      are exactly the matching ones whose ids are no longer pending. */
  predicate Gathered<R(==)>(table: map<Id, R>, keep: R -> bool, docs: seq<Doc<R>>, pending: set<Id>) {
    && pending <= table.Keys
    && DistinctIds(docs)
    && FromTable(table, docs)
    && (forall i :: 0 <= i < |docs| ==> docs[i].id !in pending)
    && Ids(docs) == MatchingIds(table, keep) - pending
  }

  /** Visiting one pending id keeps Gathered. */
  lemma GatheredStep<R>(table: map<Id, R>, keep: R -> bool, docs: seq<Doc<R>>, pending: set<Id>, id: Id)
    requires Gathered(table, keep, docs, pending) && id in pending
    ensures Gathered(table, keep, if keep(table[id]) then docs + [Doc(id, table[id])] else docs, pending - {id})
  {
    if keep(table[id]) {
      var next := docs + [Doc(id, table[id])];
      assert next[..|next| - 1] == docs;
      assert Ids(next) == Ids(docs) + {id};
    }
  }

  /** Runs the query "where keep" and streams its documents (`.where(...).stream()`).
      The documents come in whatever order the table yields its keys. */
  method Where<R(==)>(table: map<Id, R>, keep: R -> bool) returns (docs: seq<Doc<R>>)
    ensures Answers(table, keep, docs)
    ensures |docs| == |MatchingIds(table, keep)|
  {
    docs := [];
    var pending := table.Keys;
    while pending != {}
      invariant Gathered(table, keep, docs, pending)
      decreases pending
    {
      var id :| id in pending;
      GatheredStep(table, keep, docs, pending, id);
      if keep(table[id]) {
        docs := docs + [Doc(id, table[id])];
      }
      pending := pending - {id};
    }
    DistinctIdsCount(docs);
  }

  /** The first `n` documents of a stream (`.limit(n)`). */
  function Limit<R>(docs: seq<Doc<R>>, n: nat): seq<Doc<R>> {
    if |docs| <= n then docs else docs[..n]
  }

  /** A limited answer holds min(n, number of matches) documents, all of them
      matching, stored and distinct. */
  lemma LimitedAnswer<R>(table: map<Id, R>, keep: R -> bool, docs: seq<Doc<R>>, n: nat)
    requires Answers(table, keep, docs)
    ensures var r := Limit(docs, n);
      && |r| == (if |MatchingIds(table, keep)| < n then |MatchingIds(table, keep)| else n)
      && DistinctIds(r)
      && FromTable(table, r)
      && Ids(r) <= MatchingIds(table, keep)
  {
    DistinctIdsCount(docs);
    var r := Limit(docs, n);
    forall id | id in Ids(r) ensures id in Ids(docs) {
      IdsMembership(r, id);
      var i :| 0 <= i < |r| && r[i].id == id;
      assert docs[i].id == id;
      IdsMembership(docs, id);
    }
  }

  /** Counts the documents of a stream one by one (`sum(1 for _ in docs)`). */
  method CountDocs<R>(docs: seq<Doc<R>>) returns (n: nat)
    ensures n == |docs|
  {
    n := 0;
    var i := 0;
    while i < |docs|
      invariant 0 <= i <= |docs|
      invariant n == i
    {
      n := n + 1;
      i := i + 1;
    }
  }
}
