/** Optimistic concurrency over whole runs: a version of a mark is overwritten by at most one of the updates naming it. */
module AnnotationVersions {
  import opened Wrappers
  import opened AnnotationSync

  /** The operation is applied to an existing mark and names the version it was based on. */
  predicate Overwrites(p: Progress, op: Upsert, pageCount: int, id: string, version: int) {
    && Clip(op.clientId) == id && op.basedOn == Named(version) && IndexOf(p.doc.items, id).Some?
    && ApplyUpsert(p, op, pageCount).Success? && ApplyUpsert(p, op, pageCount).value.applied > p.applied
  }

  function WinsInBatch(p: Progress, ops: seq<Upsert>, pageCount: int, id: string, version: int): nat {
    if ops == [] then 0 else
    match ApplyUpserts(p, ops[..|ops| - 1], pageCount)
    case Failure(_) => 0
    case Success(q) =>
      WinsInBatch(p, ops[..|ops| - 1], pageCount, id, version)
      + if Overwrites(q, ops[|ops| - 1], pageCount, id, version) then 1 else 0
  }

  /** How many updates naming (id, version) a run of requests has applied; a refused batch applies none. */
  function Wins(requests: seq<Request>, id: string, version: int): nat {
    if requests == [] then 0 else
    var doc, last := Run(Empty, requests[..|requests| - 1]), requests[|requests| - 1];
    Wins(requests[..|requests| - 1], id, version)
    + if Sync(doc, last).Success?
      then WinsInBatch(Progress(doc, 0, []), last.upserts, last.pageCount, id, version) else 0
  }

  /** The mark exists and has moved past the version. */
  predicate Spent(doc: Document, id: string, version: int) {
    match IndexOf(doc.items, id)
    case None => false
    case Some(i) => doc.items[i].version > version
  }

  lemma SpentForGood(before: Document, after: Document, id: string, version: int)
    requires Inv(after) && Evolves(before, after) && Spent(before, id, version)
    ensures Spent(after, id, version)
  {
    var i := IndexOf(before.items, id).value;
    assert after.items[i] == before.items[i] || after.items[i].version > before.items[i].version;
    IndexOfUnique(after.items, i);
  }

  lemma OverwritingSpends(p: Progress, op: Upsert, pageCount: int, id: string, version: int)
    requires Inv(p.doc) && Overwrites(p, op, pageCount, id, version)
    ensures !Spent(p.doc, id, version) && Spent(ApplyUpsert(p, op, pageCount).value.doc, id, version)
  {
    var i := IndexOf(p.doc.items, id).value;
    var content := CleanUpsert(op, pageCount).value;
    IndexOfRewrite(p.doc.items, i, Rewrite(p.doc, i, content, false).items[i], id);
  }

  lemma {:induction false} ABatchSpendsAVersionOnce(p: Progress, ops: seq<Upsert>, pageCount: int, id: string,
                                                    version: int)
    requires Inv(p.doc) && ApplyUpserts(p, ops, pageCount).Success?
    ensures WinsInBatch(p, ops, pageCount, id, version) <= if Spent(p.doc, id, version) then 0 else 1
    ensures WinsInBatch(p, ops, pageCount, id, version) == 1 ==>
              Spent(ApplyUpserts(p, ops, pageCount).value.doc, id, version)
  {
    if ops != [] {
      var init, last := ops[..|ops| - 1], ops[|ops| - 1];
      var q := ApplyUpserts(p, init, pageCount).value;
      ABatchSpendsAVersionOnce(p, init, pageCount, id, version);
      UpsertsKeep(p, init, pageCount);
      UpsertKeeps(q, last, pageCount);
      if Spent(p.doc, id, version) {
        SpentForGood(p.doc, q.doc, id, version);
      }
      if Overwrites(q, last, pageCount, id, version) {
        OverwritingSpends(q, last, pageCount, id, version);
      } else if Spent(q.doc, id, version) {
        SpentForGood(q.doc, ApplyUpserts(p, ops, pageCount).value.doc, id, version);
      }
    }
  }

  lemma {:induction false} WinsAreSpent(requests: seq<Request>, id: string, version: int)
    ensures Wins(requests, id, version) <= 1
    ensures Wins(requests, id, version) == 1 ==> Spent(Run(Empty, requests), id, version)
  {
    if requests != [] {
      var init, last := requests[..|requests| - 1], requests[|requests| - 1];
      var doc := Run(Empty, init);
      WinsAreSpent(init, id, version);
      ReachableStatesAreConsistent(init);
      SyncKeeps(doc, last);
      if Spent(doc, id, version) {
        SpentForGood(doc, After(doc, last), id, version);
      }
      if Sync(doc, last).Success? {
        var start := Progress(doc, 0, []);
        var upserted := ApplyUpserts(start, last.upserts, last.pageCount).value;
        ABatchSpendsAVersionOnce(start, last.upserts, last.pageCount, id, version);
        UpsertsKeep(start, last.upserts, last.pageCount);
        DeletesKeep(upserted, last.deletes);
        if Spent(upserted.doc, id, version) {
          SpentForGood(upserted.doc, After(doc, last), id, version);
        }
      }
    }
  }

  /** Over every run of requests by any devices, of all the updates naming the same (client id, version) of an existing
      mark at most one is ever applied. */
  lemma AtMostOneUpdateWins(requests: seq<Request>, id: string, version: int)
    ensures Wins(requests, id, version) <= 1
  {
    WinsAreSpent(requests, id, version);
  }
}
