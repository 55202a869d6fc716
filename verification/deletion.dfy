/** The paged bulk delete of delete-collection.js: repeatedly read the five
    documents with the smallest names in collection `events`, stop when none
    is left, otherwise delete them in one batch and go again. The store's
    query and commit outcomes are parameters; the recursion on the next
    scheduler tick becomes a loop. */
module Deletion {
  import opened Seqs
  import opened Chunking

  /** The collection the delete works on (delete-collection.js:4). */
  const EventsCollection: string := "events"

  /** The query's `limit(5)` (delete-collection.js:5). */
  const QueryLimit: nat := 5

  datatype Document<D> = Document(name: string, data: D)

  /** A document store: collection name to its documents. */
  type Store<D> = map<string, seq<Document<D>>>

  /** The documents of a collection; a missing collection is empty. */
  function Docs<D>(store: Store<D>, collection: string): seq<Document<D>>
  {
    if collection in store then store[collection] else []
  }

  /** Order of document names, character code by character code. */
  predicate NameBefore(a: string, b: string)
  {
    if |a| == 0 then |b| > 0
    else |b| > 0 && (a[0] < b[0] || (a[0] == b[0] && NameBefore(a[1..], b[1..])))
  }

  /** The order in which `orderBy('__name__')` lists a collection. */
  predicate SortedByName<D>(docs: seq<Document<D>>)
  {
    forall i, j :: 0 <= i < j < |docs| ==> NameBefore(docs[i].name, docs[j].name)
  }

  /** The answer to `orderBy('__name__').limit(5)` on a collection listed in
      name order. */
  function Page<D>(docs: seq<Document<D>>): seq<Document<D>>
  {
    docs[..Min(QueryLimit, |docs|)]
  }

  /** A page holds min(5, n) documents, and each of them has a smaller name
      than every document left after it. */
  lemma PageHoldsSmallestNames<D>(docs: seq<Document<D>>)
    requires SortedByName(docs)
    ensures |Page(docs)| == Min(QueryLimit, |docs|)
    ensures forall i, j :: 0 <= i < |Page(docs)| <= j < |docs| ==>
              NameBefore(Page(docs)[i].name, docs[j].name)
  {
  }

  /** Dropping a page keeps the rest in name order. */
  lemma RestStaysSorted<D>(docs: seq<Document<D>>)
    requires SortedByName(docs)
    ensures SortedByName(docs[|Page(docs)|..])
  {
  }

  /** Every name in `a` comes before every name in `b`. */
  predicate AllBefore<D>(a: seq<Document<D>>, b: seq<Document<D>>)
  {
    forall i, j :: 0 <= i < |a| && 0 <= j < |b| ==> NameBefore(a[i].name, b[j].name)
  }

  /** Deleting the page of a name-ordered collection keeps everything deleted
      so far before everything left. */
  lemma DeletedStayBefore<D>(deleted: seq<Document<D>>, rest: seq<Document<D>>)
    requires SortedByName(rest) && AllBefore(deleted, rest)
    ensures AllBefore(deleted + Page(rest), rest[|Page(rest)|..])
  {
    var page := Page(rest);
    PageHoldsSmallestNames(rest);
    forall i, j | 0 <= i < |deleted + page| && 0 <= j < |rest[|page|..]|
      ensures NameBefore((deleted + page)[i].name, rest[|page|..][j].name)
    {
      assert rest[|page|..][j] == rest[|page| + j];
      if i >= |deleted| {
        assert (deleted + page)[i] == page[i - |deleted|];
      }
    }
  }

  datatype DeleteError = QueryFailed | CommitFailed

  /** How the promise returned by `deleteCollection` settles. */
  datatype Status = Resolved | Rejected(error: DeleteError)

  /** The rounds of `deleteQueryBatch` on the documents of the collection in
      name order. Round `r` (counting from 0) queries a page, which fails
      when `queryFails(r)`; an empty page resolves; otherwise the page's
      deletion is committed as one batch, which fails when `commitFails(r)`.
      `rest` is what is left undeleted when the promise settles. */
  method DeleteRounds<D>(docs: seq<Document<D>>, queryFails: nat -> bool, commitFails: nat -> bool)
    returns (commits: seq<seq<Document<D>>>, rest: seq<Document<D>>, queries: nat, status: Status)
    requires SortedByName(docs)
    ensures SortedByName(rest) && AllBefore(Flatten(commits), rest)
    ensures commits + Divide(rest, QueryLimit) == Divide(docs, QueryLimit)
    ensures queries == |commits| + 1
    ensures forall r :: 0 <= r < |commits| ==> !queryFails(r) && !commitFails(r)
    ensures status == Resolved ==> !queryFails(|commits|) && rest == []
    ensures status == Rejected(QueryFailed) ==> queryFails(|commits|)
    ensures status == Rejected(CommitFailed) ==>
              !queryFails(|commits|) && commitFails(|commits|) && rest != []
  {
    commits := [];
    queries := 0;
    rest := docs;
    while true
      invariant commits + Divide(rest, QueryLimit) == Divide(docs, QueryLimit)
      invariant queries == |commits|
      invariant SortedByName(rest) && AllBefore(Flatten(commits), rest)
      invariant forall r :: 0 <= r < |commits| ==> !queryFails(r) && !commitFails(r)
      decreases |rest|
    {
      queries := queries + 1;
      if queryFails(|commits|) {
        status := Rejected(QueryFailed);
        return;
      }
      var page := Page(rest);
      if |page| == 0 {
        status := Resolved;
        return;
      }
      if commitFails(|commits|) {
        status := Rejected(CommitFailed);
        return;
      }
      TakeChunk(commits, rest, QueryLimit);
      DeletedStayBefore(Flatten(commits), rest);
      RestStaysSorted(rest);
      FlattenAppend(commits, [page]);
      assert Flatten([page]) == page;
      commits := commits + [page];
      rest := rest[|page|..];
    }
  }

  /** What the settled rounds say about the chunks of five: the committed
      batches are a prefix of them, all of them once the delete resolves,
      fewer than all when a commit fails, and a run in which no round fails
      resolves. */
  lemma RoundsArePrefix<D>(docs: seq<Document<D>>, commits: seq<seq<Document<D>>>, rest: seq<Document<D>>)
    requires commits + Divide(rest, QueryLimit) == Divide(docs, QueryLimit)
    ensures Flatten(commits) + rest == docs
    ensures |commits| <= |Divide(docs, QueryLimit)|
    ensures commits == Divide(docs, QueryLimit)[..|commits|]
    ensures rest == [] ==> commits == Divide(docs, QueryLimit)
    ensures rest != [] ==> |commits| < |Divide(docs, QueryLimit)|
  {
    var chunks := Divide(docs, QueryLimit);
    assert chunks[..|commits|] == commits;
    DivideFlatten(docs, QueryLimit);
    DivideFlatten(rest, QueryLimit);
    FlattenAppend(commits, Divide(rest, QueryLimit));
    if rest != [] {
      assert |Divide(rest, QueryLimit)| == CeilDiv(|rest|, QueryLimit);
      assert |Divide(rest, QueryLimit)| > 0;
    }
  }

  /** `deleteCollection(db)` on collection `events`: the committed batches
      are the chunks of five of the collection in name order; a failure stops
      everything and leaves the earlier batches deleted; no other collection
      changes. */
  method DeleteCollection<D>(store: Store<D>, queryFails: nat -> bool, commitFails: nat -> bool)
    returns (final: Store<D>, commits: seq<seq<Document<D>>>, queries: nat, status: Status)
    requires SortedByName(Docs(store, EventsCollection))
    ensures forall c :: c != EventsCollection ==> (c in final <==> c in store)
    ensures forall c :: c != EventsCollection && c in store ==> final[c] == store[c]
    ensures EventsCollection in final <==> EventsCollection in store
    ensures Flatten(commits) + Docs(final, EventsCollection) == Docs(store, EventsCollection)
    ensures SortedByName(Docs(final, EventsCollection))
    ensures AllBefore(Flatten(commits), Docs(final, EventsCollection))
    ensures |commits| <= |Divide(Docs(store, EventsCollection), QueryLimit)|
    ensures commits == Divide(Docs(store, EventsCollection), QueryLimit)[..|commits|]
    ensures queries == |commits| + 1
    ensures forall r :: 0 <= r < |commits| ==> !queryFails(r) && !commitFails(r)
    ensures status == Resolved ==>
              && !queryFails(|commits|)
              && commits == Divide(Docs(store, EventsCollection), QueryLimit)
              && Docs(final, EventsCollection) == []
    ensures status == Rejected(QueryFailed) ==> queryFails(|commits|)
    ensures status == Rejected(CommitFailed) ==>
              && !queryFails(|commits|) && commitFails(|commits|)
              && |commits| < |Divide(Docs(store, EventsCollection), QueryLimit)|
    ensures (forall r :: 0 <= r <= |Divide(Docs(store, EventsCollection), QueryLimit)| ==>
               !queryFails(r) && !commitFails(r)) ==> status == Resolved
    ensures Docs(store, EventsCollection) == [] && !queryFails(0) ==>
              status == Resolved && commits == [] && queries == 1
  {
    var docs := Docs(store, EventsCollection);
    var rest;
    commits, rest, queries, status := DeleteRounds(docs, queryFails, commitFails);
    RoundsArePrefix(docs, commits, rest);
    assert status.Rejected? ==> status.error == QueryFailed || status.error == CommitFailed;
    if forall r :: 0 <= r <= |Divide(docs, QueryLimit)| ==> !queryFails(r) && !commitFails(r) {
      assert !queryFails(|commits|) && !commitFails(|commits|);
    }
    if EventsCollection in store {
      final := store[EventsCollection := rest];
    } else {
      assert rest == [] by {
        assert |Flatten(commits) + rest| == |docs|;
      }
      final := store;
    }
    assert Docs(final, EventsCollection) == rest;
  }

}
