/** How far the limit of 5000 live marks holds over whole runs, and a run that passes it. */
module AnnotationLimit {
  import opened Wrappers
  import opened Sums
  import opened Text
  import opened AnnotationGeometry
  import opened AnnotationSync
  import opened Numbers

  // ---- every run ----

  /** The operation revives a tombstone of a document that is already full. */
  predicate Overflows(doc: Document, op: Upsert) {
    Live(doc.items) >= MAX_ITEMS_PER_DOCUMENT && Resurrects(doc, op)
  }

  function OverflowsInBatch(p: Progress, ops: seq<Upsert>, pageCount: int): nat {
    if ops == [] then 0 else
    match ApplyUpserts(p, ops[..|ops| - 1], pageCount)
    case Failure(_) => 0
    case Success(q) =>
      OverflowsInBatch(p, ops[..|ops| - 1], pageCount) + if Overflows(q.doc, ops[|ops| - 1]) then 1 else 0
  }

  /** The revivals in a full document that a run of requests has applied; a refused batch applies none. */
  function OverflowsInRun(requests: seq<Request>): nat {
    if requests == [] then 0 else
    var doc, last := Run(Empty, requests[..|requests| - 1]), requests[|requests| - 1];
    OverflowsInRun(requests[..|requests| - 1])
    + if Sync(doc, last).Success? then OverflowsInBatch(Progress(doc, 0, []), last.upserts, last.pageCount) else 0
  }

  lemma {:induction false} ABatchExceedsByItsRevivals(p: Progress, ops: seq<Upsert>, pageCount: int)
    requires ApplyUpserts(p, ops, pageCount).Success?
    ensures Live(ApplyUpserts(p, ops, pageCount).value.doc.items)
         <= Max(MAX_ITEMS_PER_DOCUMENT, Live(p.doc.items)) + OverflowsInBatch(p, ops, pageCount)
  {
    if ops != [] {
      var init, last := ops[..|ops| - 1], ops[|ops| - 1];
      ABatchExceedsByItsRevivals(p, init, pageCount);
      LiveBoundIsKeptUnlessATombstoneReturns(ApplyUpserts(p, init, pageCount).value, last, pageCount);
    }
  }

  lemma {:induction false} DeletesNeverAddAMark(p: Progress, ids: seq<string>)
    ensures Live(ApplyDeletes(p, ids).doc.items) <= Live(p.doc.items)
  {
    if ids != [] {
      DeletesNeverAddAMark(p, ids[..|ids| - 1]);
      DeleteNeverAddsAMark(ApplyDeletes(p, ids[..|ids| - 1]), ids[|ids| - 1]);
    }
  }

  /** One whole request, from any document: the live marks exceed the limit, or what they already were, by at most the
      revivals the request made in a full document. */
  lemma ARequestExceedsByItsRevivals(doc: Document, r: Request)
    requires Sync(doc, r).Success?
    ensures Live(After(doc, r).items)
         <= Max(MAX_ITEMS_PER_DOCUMENT, Live(doc.items)) + OverflowsInBatch(Progress(doc, 0, []), r.upserts, r.pageCount)
  {
    var start := Progress(doc, 0, []);
    ABatchExceedsByItsRevivals(start, r.upserts, r.pageCount);
    DeletesNeverAddAMark(ApplyUpserts(start, r.upserts, r.pageCount).value, r.deletes);
  }

  /** Over every run of requests the live marks exceed 5000 by at most the number of tombstones revived in a full
      document; a run that revives none keeps the limit. */
  lemma {:induction false} LiveMarksOverARun(requests: seq<Request>)
    ensures Live(Run(Empty, requests).items) <= MAX_ITEMS_PER_DOCUMENT + OverflowsInRun(requests)
  {
    if requests != [] {
      var init, last := requests[..|requests| - 1], requests[|requests| - 1];
      LiveMarksOverARun(init);
      if Sync(Run(Empty, init), last).Success? {
        ARequestExceedsByItsRevivals(Run(Empty, init), last);
      }
    }
  }

  // ---- a run that passes the limit ----

  /** One ideograph each, from U+4E00 on. */
  function Id(k: nat): string
    requires k <= MAX_ITEMS_PER_DOCUMENT
  {
    [(k + 0x4E00) as char]
  }

  const origin := Some(Number(0.0))
  const note := RawData(true, 33, None, None, origin, origin, "n")

  function Draw(k: nat): Request
    requires k <= MAX_ITEMS_PER_DOCUMENT
  {
    Request(1, 0, [Upsert(Id(k), Some(Note), Some(1), "", Some(0), note, Unnamed)], [])
  }

  const eraseFirst := Request(1, 0, [], [Id(0)])

  function DrawFirst(n: nat): seq<Request>
    requires n <= MAX_ITEMS_PER_DOCUMENT
  {
    if n == 0 then [] else DrawFirst(n - 1) + [Draw(n - 1)]
  }

  lemma DrawIsOneUpsert(doc: Document, k: nat)
    requires k <= MAX_ITEMS_PER_DOCUMENT
    ensures CleanUpsert(Draw(k).upserts[0], 1) == Success(Content(1, Note, "", 0, TextNote(0, 0, "n"), "n"))
    ensures ApplyUpserts(Progress(doc, 0, []), Draw(k).upserts, 1)
            == Put(Progress(doc, 0, []), Id(k), Content(1, Note, "", 0, TextNote(0, 0, "n"), "n"), Unnamed)
  {
  }

  lemma DrawNewMark(doc: Document, k: nat)
    requires k <= MAX_ITEMS_PER_DOCUMENT
    requires IndexOf(doc.items, Id(k)).None? && Live(doc.items) < MAX_ITEMS_PER_DOCUMENT
    ensures After(doc, Draw(k)) == Append(doc, Id(k), Content(1, Note, "", 0, TextNote(0, 0, "n"), "n"))
    ensures Live(After(doc, Draw(k)).items) == Live(doc.items) + 1
  {
    DrawIsOneUpsert(doc, k);
    TotalAppend(doc.items, After(doc, Draw(k)).items[|doc.items|], LiveWeight);
  }

  lemma ReviveMark(doc: Document, k: nat)
    requires k <= MAX_ITEMS_PER_DOCUMENT
    requires var i := IndexOf(doc.items, Id(k)); i.Some? && doc.items[i.value].deleted
    ensures Live(After(doc, Draw(k)).items) == Live(doc.items) + 1
  {
    DrawIsOneUpsert(doc, k);
    var i := IndexOf(doc.items, Id(k)).value;
    TotalUpdate(doc.items, i, After(doc, Draw(k)).items[i], LiveWeight);
  }

  lemma EraseFirst(doc: Document)
    requires var i := IndexOf(doc.items, Id(0)); i.Some? && !doc.items[i.value].deleted
    ensures var i := IndexOf(doc.items, Id(0)).value;
            After(doc, eraseFirst) == Rewrite(doc, i, doc.items[i].content, true)
    ensures Live(After(doc, eraseFirst).items) == Live(doc.items) - 1
  {
    var i := IndexOf(doc.items, Id(0)).value;
    var start := Progress(doc, 0, []);
    assert ApplyUpserts(start, [], 1) == Success(start);
    assert [Id(0)][..0] == [];
    assert ApplyDeletes(start, []) == start;
    assert ApplyDeletes(start, [Id(0)]) == ApplyDelete(start, Id(0));
    TotalUpdate(doc.items, i, After(doc, eraseFirst).items[i], LiveWeight);
  }

  /** The first n marks, all live, and nothing else. */
  predicate Filled(items: seq<Item>, n: nat)
    requires n <= MAX_ITEMS_PER_DOCUMENT
  {
    |items| == n && forall k :: 0 <= k < n ==> items[k].clientId == Id(k) && !items[k].deleted
  }

  lemma NextIdIsNew(items: seq<Item>, n: nat)
    requires n <= MAX_ITEMS_PER_DOCUMENT && |items| >= n
    requires forall k :: 0 <= k < |items| ==> k < MAX_ITEMS_PER_DOCUMENT && k != n && items[k].clientId == Id(k)
    ensures IndexOf(items, Id(n)).None?
  {
  }

  lemma AppendFills(items: seq<Item>, n: nat, row: Item)
    requires n < MAX_ITEMS_PER_DOCUMENT && Filled(items, n) && row.clientId == Id(n) && !row.deleted
    ensures Filled(items + [row], n + 1)
  {
  }

  lemma {:induction false} DrawFirstFills(n: nat)
    requires n <= MAX_ITEMS_PER_DOCUMENT
    ensures Filled(Run(Empty, DrawFirst(n)).items, n) && Live(Run(Empty, DrawFirst(n)).items) == n
  {
    if n > 0 {
      DrawFirstFills(n - 1);
      var doc := Run(Empty, DrawFirst(n - 1));
      NextIdIsNew(doc.items, n - 1);
      DrawNewMark(doc, n - 1);
      RunThen(Empty, DrawFirst(n - 1), Draw(n - 1));
      AppendFills(doc.items, n - 1, After(doc, Draw(n - 1)).items[n - 1]);
    }
  }

  /** With the first of n marks erased there is room for one more, after which the first is still a tombstone. */
  lemma RefillBesideATombstone(full: Document, n: nat)
    requires 0 < n == MAX_ITEMS_PER_DOCUMENT && Inv(full) && Filled(full.items, n) && Live(full.items) == n
    ensures var refilled := After(After(full, eraseFirst), Draw(n));
            && Live(refilled.items) == n
            && IndexOf(refilled.items, Id(0)) == Some(0) && refilled.items[0].deleted
  {
    IndexOfUnique(full.items, 0);
    EraseFirst(full);
    SyncKeeps(full, eraseFirst);
    var erased := After(full, eraseFirst);
    NextIdIsNew(erased.items, n);
    DrawNewMark(erased, n);
    SyncKeeps(erased, Draw(n));
    IndexOfUnique(After(erased, Draw(n)).items, 0);
  }

  /** Draw 5000 marks, erase the first, draw one more, draw the first again: 5001 live marks, no request refused. */
  lemma TheLiveLimitCanBePassed()
    ensures var n := MAX_ITEMS_PER_DOCUMENT;
            Live(Run(Empty, DrawFirst(n) + [eraseFirst, Draw(n), Draw(0)]).items) == n + 1
  {
    var n := MAX_ITEMS_PER_DOCUMENT;
    var full := Run(Empty, DrawFirst(n));
    DrawFirstFills(n);
    RunKeeps(Empty, DrawFirst(n));
    RefillBesideATombstone(full, n);
    ReviveMark(After(After(full, eraseFirst), Draw(n)), 0);
    RunThree(Empty, DrawFirst(n), eraseFirst, Draw(n), Draw(0));
  }

  lemma RunThen(doc: Document, requests: seq<Request>, r: Request)
    ensures Run(doc, requests + [r]) == After(Run(doc, requests), r)
  {
  }

  lemma RunThree(doc: Document, requests: seq<Request>, a: Request, b: Request, c: Request)
    ensures Run(doc, requests + [a, b, c]) == After(After(After(Run(doc, requests), a), b), c)
  {
    RunThen(doc, requests, a);
    RunThen(doc, requests + [a], b);
    RunThen(doc, requests + [a] + [b], c);
    assert requests + [a, b, c] == requests + [a] + [b] + [c];
  }
}
