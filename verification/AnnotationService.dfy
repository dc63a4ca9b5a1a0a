/** `AnnotationService` as it runs: one document object whose revision and rows are updated step by step. */
module AnnotationService {
  import Convergence = AnnotationConvergence
  import opened Wrappers
  import opened Sums
  import opened AnnotationSync

  /** What one upsert came to. */
  datatype Outcome = Applied | Conflicted(current: Mark) | Refused(reason: Rejection) {
    /** The progress this outcome stands for when the document is now `doc`. */
    ghost function Reflected(p: Progress, doc: Document): Result<Progress, Rejection> {
      match this
      case Applied => Success(Progress(doc, p.applied + 1, p.conflicts))
      case Conflicted(current) => Success(Progress(doc, p.applied, p.conflicts + [current]))
      case Refused(reason) => Failure(reason)
    }
  }

  class AnnotationDocument {
    var revision: nat
    var items: seq<Item>

    function Value(): Document
      reads this
    {
      Document(revision, items)
    }

    ghost predicate Valid()
      reads this
    {
      Inv(Value())
    }

    constructor ()
      ensures Valid() && Value() == Empty
    {
      revision, items := 0, [];
    }

    method Bump() returns (next: nat)
      modifies this`revision
      ensures next == revision == old(revision) + 1
    {
      revision := revision + 1;
      next := revision;
    }

    /** The first query of `changes_since`. */
    method ReadRevision() returns (current: nat)
      ensures current == revision
    {
      current := revision;
    }

    /** The second query of `changes_since`, between which and the first other sessions may sync: every row changed after
        `since`, as it is now, each once and oldest change first. */
    method ReadRows(since: nat) returns (changes: seq<Mark>)
      requires Valid()
      ensures forall mark :: mark in changes <==> Convergence.IsChange(items, since, mark)
      ensures Convergence.Increasing(changes)
    {
      changes := ChangesSince(items, since);
      Convergence.ChangesAreTheNewerRows(items, since);
    }

    /** The dictionary of rows by client id, and the number of live ones. */
    method LoadRows() returns (existing: map<string, nat>, liveCount: int)
      requires UniqueIds(items)
      ensures Indexed(existing, items) && liveCount == Live(items)
    {
      existing, liveCount := map[], 0;
      for k := 0 to |items|
        invariant Indexed(existing, items[..k]) && liveCount == Live(items[..k])
      {
        assert items[..k + 1] == items[..k] + [items[k]];
        TotalAppend(items[..k], items[k], LiveWeight);
        IndexedAppend(existing, items[..k], items[k]);
        existing := existing[items[k].clientId := k];
        if !items[k].deleted {
          liveCount := liveCount + 1;
        }
      }
      assert items[..|items|] == items;
    }

    /** One pass of the upsert loop after validation; says what it came to. */
    method PutOne(clientId: string, content: Content, basedOn: BasedOn,
                  existing: map<string, nat>, liveCount: int, ghost p: Progress)
      returns (existing': map<string, nat>, liveCount': int, outcome: Outcome)
      requires p.doc == Value() && Indexed(existing, items) && liveCount == Live(items)
      modifies this
      ensures Put(p, clientId, content, basedOn) == outcome.Reflected(p, Value())
      ensures Indexed(existing', items) && liveCount' == Live(items)
    {
      existing', liveCount' := existing, liveCount;
      if clientId !in existing {
        if liveCount >= MAX_ITEMS_PER_DOCUMENT {
          return existing', liveCount', Refused(TooManyItems);
        }
        var next := Bump();
        var row := Item(clientId, content, 1, next, false);
        IndexedAppend(existing, items, row);
        TotalAppend(items, row, LiveWeight);
        existing' := existing[clientId := |items|];
        items := items + [row];
        return existing', liveCount + 1, Applied;
      }
      var i := existing[clientId];
      var current := items[i];
      if basedOn.Unreadable? {
        return existing', liveCount', Refused(BadVersion);
      }
      if basedOn.Named? && basedOn.version != current.version {
        return existing', liveCount', Conflicted(Serialize(current));
      }
      if current.deleted {
        liveCount' := liveCount + 1;
      }
      var next := Bump();
      var row := Item(clientId, content, current.version + 1, next, false);
      IndexedRewrite(existing, items, i, row);
      TotalUpdate(items, i, row, LiveWeight);
      items := items[i := row];
      outcome := Applied;
    }

    /** One pass of the delete loop; says whether there was anything to delete. */
    method DeleteOne(clientId: string, existing: map<string, nat>, ghost p: Progress) returns (applied: bool)
      requires p.doc == Value() && Indexed(existing, items)
      modifies this
      ensures Indexed(existing, items)
      ensures ApplyDelete(p, clientId) == Progress(Value(), if applied then p.applied + 1 else p.applied, p.conflicts)
    {
      if clientId !in existing || items[existing[clientId]].deleted {
        return false;
      }
      var i := existing[clientId];
      var next := Bump();
      var row := Item(items[i].clientId, items[i].content, items[i].version + 1, next, true);
      IndexedRewrite(existing, items, i, row);
      items := items[i := row];
      applied := true;
    }

    /** One pass of the upsert loop: validation, then the row. */
    method UpsertOne(op: Upsert, pageCount: int, existing: map<string, nat>, liveCount: int, ghost p: Progress)
      returns (existing': map<string, nat>, liveCount': int, outcome: Outcome)
      requires p.doc == Value() && Indexed(existing, items) && liveCount == Live(items)
      modifies this
      ensures ApplyUpsert(p, op, pageCount) == outcome.Reflected(p, Value())
      ensures Indexed(existing', items) && liveCount' == Live(items)
    {
      existing', liveCount' := existing, liveCount;
      var cleaned := CleanUpsert(op, pageCount);
      if cleaned.Failure? {
        return existing', liveCount', Refused(cleaned.error);
      }
      existing', liveCount', outcome := PutOne(Clip(op.clientId), cleaned.value, op.basedOn, existing, liveCount, p);
    }

    method UpsertAll(ops: seq<Upsert>, pageCount: int, loaded: map<string, nat>, liveAtStart: int)
      returns (existing: map<string, nat>, applied: nat, conflicts: seq<Mark>, refusal: Option<Rejection>)
      requires Indexed(loaded, items) && liveAtStart == Live(items)
      modifies this
      ensures refusal.Some? ==> ApplyUpserts(Progress(old(Value()), 0, []), ops, pageCount) == Failure(refusal.value)
      ensures refusal.None? ==> ApplyUpserts(Progress(old(Value()), 0, []), ops, pageCount)
                                == Success(Progress(Value(), applied, conflicts))
      ensures refusal.None? ==> Indexed(existing, items)
    {
      ghost var start := Progress(Value(), 0, []);
      applied, conflicts, refusal := 0, [], None;
      existing := loaded;
      var liveCount := liveAtStart;
      for k := 0 to |ops|
        invariant ApplyUpserts(start, ops[..k], pageCount) == Success(Progress(Value(), applied, conflicts))
        invariant Indexed(existing, items) && liveCount == Live(items)
      {
        ghost var p := Progress(Value(), applied, conflicts);
        var outcome;
        existing, liveCount, outcome := UpsertOne(ops[k], pageCount, existing, liveCount, p);
        OneMoreUpsert(start, ops, pageCount, k, p);
        match outcome {
          case Applied =>
            applied := applied + 1;
          case Conflicted(current) =>
            conflicts := conflicts + [current];
          case Refused(reason) =>
            RefusalIsFinal(start, ops, pageCount, k + 1);
            return existing, applied, conflicts, Some(reason);
        }
      }
      assert ops[..|ops|] == ops;
    }

    method DeleteAll(ids: seq<string>, existing: map<string, nat>, before: nat, ghost conflicts: seq<Mark>)
      returns (applied: nat)
      requires Indexed(existing, items)
      modifies this
      ensures ApplyDeletes(Progress(old(Value()), before, conflicts), ids) == Progress(Value(), applied, conflicts)
    {
      ghost var start := Progress(Value(), before, conflicts);
      applied := before;
      for k := 0 to |ids|
        invariant ApplyDeletes(start, ids[..k]) == Progress(Value(), applied, conflicts)
        invariant Indexed(existing, items)
      {
        assert ids[..k + 1][..k] == ids[..k];
        var done := DeleteOne(ids[k], existing, Progress(Value(), applied, conflicts));
        if done {
          applied := applied + 1;
        }
      }
      assert ids[..|ids|] == ids;
    }

    /** Everything is undone when the batch is refused; otherwise the document and the reply are those of
        `AnnotationSync.Sync`. */
    method SyncBatch(r: Request) returns (reply: Result<SyncResult, Rejection>)
      requires Valid()
      modifies this
      ensures Valid()
      ensures reply.Failure? ==> Value() == old(Value()) && Sync(old(Value()), r) == Failure(reply.error)
      ensures reply.Success? ==> Sync(old(Value()), r) == Success((Value(), reply.value))
    {
      SyncKeeps(Value(), r);
      if |r.upserts| + |r.deletes| > MAX_OPS_PER_SYNC {
        return Failure(TooManyOps);
      }
      var savedRevision, savedItems := revision, items;
      var existing, liveCount := LoadRows();
      var applied, conflicts, refusal;
      existing, applied, conflicts, refusal := UpsertAll(r.upserts, r.pageCount, existing, liveCount);
      if refusal.Some? {
        revision, items := savedRevision, savedItems;
        return Failure(refusal.value);
      }
      applied := DeleteAll(r.deletes, existing, applied, conflicts);
      return Success(SyncResult(revision, applied, conflicts, ChangesSince(items, r.baseRevision)));
    }
  }

  ghost predicate Indexed(existing: map<string, nat>, items: seq<Item>) {
    forall id :: if id in existing then IndexOf(items, id) == Some(existing[id]) else IndexOf(items, id).None?
  }

  lemma IndexedAppend(existing: map<string, nat>, items: seq<Item>, row: Item)
    requires Indexed(existing, items) && row.clientId !in existing
    ensures Indexed(existing[row.clientId := |items|], items + [row])
  {
  }

  lemma IndexedRewrite(existing: map<string, nat>, items: seq<Item>, i: nat, row: Item)
    requires Indexed(existing, items) && i < |items| && row.clientId == items[i].clientId
    ensures Indexed(existing, items[i := row])
  {
    forall id ensures IndexOf(items[i := row], id) == IndexOf(items, id) {
      IndexOfRewrite(items, i, row, id);
    }
  }

  lemma OneMoreUpsert(start: Progress, ops: seq<Upsert>, pageCount: int, k: nat, p: Progress)
    requires k < |ops| && ApplyUpserts(start, ops[..k], pageCount) == Success(p)
    ensures ApplyUpserts(start, ops[..k + 1], pageCount) == ApplyUpsert(p, ops[k], pageCount)
  {
    assert ops[..k + 1][..k] == ops[..k];
  }

  lemma {:induction false} RefusalIsFinal(p: Progress, ops: seq<Upsert>, pageCount: int, k: nat)
    requires k <= |ops| && ApplyUpserts(p, ops[..k], pageCount).Failure?
    ensures ApplyUpserts(p, ops, pageCount) == ApplyUpserts(p, ops[..k], pageCount)
    decreases |ops| - k
  {
    if k < |ops| {
      assert ops[..k + 1][..k] == ops[..k];
      RefusalIsFinal(p, ops, pageCount, k + 1);
    } else {
      assert ops[..k] == ops;
    }
  }
}
