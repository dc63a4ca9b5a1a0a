/** What a device may rely on when it does not know whether its batch arrived. */
module AnnotationRetry {
  import Convergence = AnnotationConvergence
  import opened Wrappers
  import opened Sums
  import opened AnnotationSync

  /** What is drawn under a client id: the content and the tombstone flag, without version and revision. */
  datatype Drawn = Drawn(content: Content, deleted: bool)

  function DrawnAt(doc: Document, id: string): Option<Drawn> {
    match IndexOf(doc.items, id)
    case None => None
    case Some(i) => Some(Drawn(doc.items[i].content, doc.items[i].deleted))
  }

  /** The effect of one operation on one id depends on nothing but that id. */
  function UpsertAt(s: Option<Drawn>, id: string, op: Upsert, pageCount: int): Option<Drawn> {
    match CleanUpsert(op, pageCount)
    case Failure(_) => s
    case Success(content) => if Clip(op.clientId) == id then Some(Drawn(content, false)) else s
  }

  function DeleteAt(s: Option<Drawn>, id: string, clientId: string): Option<Drawn> {
    if clientId == id && s.Some? then Some(s.value.(deleted := true)) else s
  }

  function UpsertsAt(s: Option<Drawn>, id: string, ops: seq<Upsert>, pageCount: int): Option<Drawn> {
    if ops == [] then s else UpsertAt(UpsertsAt(s, id, ops[..|ops| - 1], pageCount), id, ops[|ops| - 1], pageCount)
  }

  function DeletesAt(s: Option<Drawn>, id: string, ids: seq<string>): Option<Drawn> {
    if ids == [] then s else DeleteAt(DeletesAt(s, id, ids[..|ids| - 1]), id, ids[|ids| - 1])
  }

  lemma UpsertActsPointwise(p: Progress, op: Upsert, pageCount: int, id: string)
    requires op.basedOn.Unnamed? && ApplyUpsert(p, op, pageCount).Success?
    ensures DrawnAt(ApplyUpsert(p, op, pageCount).value.doc, id) == UpsertAt(DrawnAt(p.doc, id), id, op, pageCount)
  {
    var content, doc := CleanUpsert(op, pageCount).value, p.doc;
    match IndexOf(doc.items, Clip(op.clientId))
    case None => IndexOfAppend(doc.items, Append(doc, Clip(op.clientId), content).items[|doc.items|], id);
    case Some(i) => IndexOfRewrite(doc.items, i, Rewrite(doc, i, content, false).items[i], id);
  }

  lemma DeleteActsPointwise(p: Progress, clientId: string, id: string)
    ensures DrawnAt(ApplyDelete(p, clientId).doc, id) == DeleteAt(DrawnAt(p.doc, id), id, clientId)
  {
    match IndexOf(p.doc.items, clientId)
    case None =>
    case Some(i) =>
      IndexOfRewrite(p.doc.items, i, Rewrite(p.doc, i, p.doc.items[i].content, true).items[i], id);
  }

  lemma {:induction false} UpsertsActPointwise(p: Progress, ops: seq<Upsert>, pageCount: int, id: string)
    requires forall op <- ops :: op.basedOn.Unnamed?
    requires ApplyUpserts(p, ops, pageCount).Success?
    ensures DrawnAt(ApplyUpserts(p, ops, pageCount).value.doc, id) == UpsertsAt(DrawnAt(p.doc, id), id, ops, pageCount)
  {
    if ops != [] {
      UpsertsActPointwise(p, ops[..|ops| - 1], pageCount, id);
      UpsertActsPointwise(ApplyUpserts(p, ops[..|ops| - 1], pageCount).value, ops[|ops| - 1], pageCount, id);
    }
  }

  lemma {:induction false} DeletesActPointwise(p: Progress, ids: seq<string>, id: string)
    ensures DrawnAt(ApplyDeletes(p, ids).doc, id) == DeletesAt(DrawnAt(p.doc, id), id, ids)
  {
    if ids != [] {
      DeletesActPointwise(p, ids[..|ids| - 1], id);
      DeleteActsPointwise(ApplyDeletes(p, ids[..|ids| - 1]), ids[|ids| - 1], id);
    }
  }

  /** On one id a list of upserts either leaves whatever is there or replaces it by something fixed. */
  lemma {:induction false} UpsertsOverwrite(s: Option<Drawn>, t: Option<Drawn>, id: string, ops: seq<Upsert>,
                                            pageCount: int)
    ensures || (UpsertsAt(s, id, ops, pageCount) == s && UpsertsAt(t, id, ops, pageCount) == t)
            || (UpsertsAt(s, id, ops, pageCount) == UpsertsAt(t, id, ops, pageCount)
                && UpsertsAt(s, id, ops, pageCount).Some?)
  {
    if ops != [] {
      UpsertsOverwrite(s, t, id, ops[..|ops| - 1], pageCount);
    }
  }

  /** On one id a list of deletes either leaves whatever is there or marks it deleted. */
  lemma {:induction false} DeletesMark(s: Option<Drawn>, t: Option<Drawn>, id: string, ids: seq<string>)
    requires s.Some? <==> t.Some?
    ensures || (DeletesAt(s, id, ids) == s && DeletesAt(t, id, ids) == t)
            || (s.Some? && DeletesAt(s, id, ids) == Some(s.value.(deleted := true))
                && DeletesAt(t, id, ids) == Some(t.value.(deleted := true)))
  {
    if ids != [] {
      DeletesMark(s, t, id, ids[..|ids| - 1]);
    }
  }

  lemma BatchIsIdempotentAt(s: Option<Drawn>, id: string, ops: seq<Upsert>, pageCount: int, ids: seq<string>)
    ensures var once := DeletesAt(UpsertsAt(s, id, ops, pageCount), id, ids);
            DeletesAt(UpsertsAt(once, id, ops, pageCount), id, ids) == once
  {
    var drawn := UpsertsAt(s, id, ops, pageCount);
    var once := DeletesAt(drawn, id, ids);
    DeletesMark(drawn, drawn, id, ids);
    UpsertsOverwrite(s, once, id, ops, pageCount);
    DeletesMark(drawn, once, id, ids);
  }

  // ---- the retried batch is accepted and creates nothing ----

  predicate HasId(doc: Document, op: Upsert) {
    IndexOf(doc.items, Clip(op.clientId)).Some?
  }

  predicate Known(doc: Document, ops: seq<Upsert>) {
    forall k :: 0 <= k < |ops| ==> HasId(doc, ops[k])
  }

  lemma UpsertLeavesItsId(p: Progress, op: Upsert, pageCount: int)
    requires ApplyUpsert(p, op, pageCount).Success?
    ensures HasId(ApplyUpsert(p, op, pageCount).value.doc, op)
  {
    var content, id := CleanUpsert(op, pageCount).value, Clip(op.clientId);
    match IndexOf(p.doc.items, id)
    case None => IndexOfAppend(p.doc.items, Append(p.doc, id, content).items[|p.doc.items|], id);
    case Some(i) => IndexOfRewrite(p.doc.items, i, Rewrite(p.doc, i, content, false).items[i], id);
  }

  lemma KnownSurvives(before: Document, after: Document, ops: seq<Upsert>)
    requires Evolves(before, after) && Known(before, ops)
    ensures Known(after, ops)
  {
  }

  lemma KnownAppend(doc: Document, ops: seq<Upsert>)
    requires ops != [] && Known(doc, ops[..|ops| - 1]) && HasId(doc, ops[|ops| - 1])
    ensures Known(doc, ops)
  {
  }

  lemma {:induction false} UpsertsLeaveTheirIds(p: Progress, ops: seq<Upsert>, pageCount: int)
    requires Inv(p.doc) && ApplyUpserts(p, ops, pageCount).Success?
    ensures Known(ApplyUpserts(p, ops, pageCount).value.doc, ops)
  {
    if ops != [] {
      var init, last := ops[..|ops| - 1], ops[|ops| - 1];
      UpsertsLeaveTheirIds(p, init, pageCount);
      UpsertsKeep(p, init, pageCount);
      var q := ApplyUpserts(p, init, pageCount).value;
      UpsertKeeps(q, last, pageCount);
      KnownSurvives(q.doc, ApplyUpsert(q, last, pageCount).value.doc, init);
      UpsertLeavesItsId(q, last, pageCount);
      KnownAppend(ApplyUpserts(p, ops, pageCount).value.doc, ops);
    }
  }

  lemma {:induction false} AcceptedUpsertsAreClean(p: Progress, ops: seq<Upsert>, pageCount: int)
    requires ApplyUpserts(p, ops, pageCount).Success?
    ensures forall i :: 0 <= i < |ops| ==> CleanUpsert(ops[i], pageCount).Success?
  {
    if ops != [] {
      AcceptedUpsertsAreClean(p, ops[..|ops| - 1], pageCount);
      assert CleanUpsert(ops[|ops| - 1], pageCount).Success?;
      assert forall i :: 0 <= i < |ops| - 1 ==> ops[..|ops| - 1][i] == ops[i];
    }
  }

  lemma KnownUpsertIsAccepted(p: Progress, op: Upsert, pageCount: int)
    requires IndexOf(p.doc.items, Clip(op.clientId)).Some?
    requires op.basedOn.Unnamed? && CleanUpsert(op, pageCount).Success?
    ensures ApplyUpsert(p, op, pageCount).Success?
    ensures |ApplyUpsert(p, op, pageCount).value.doc.items| == |p.doc.items|
  {
  }

  lemma {:induction false} KnownUpsertsAreAccepted(p: Progress, ops: seq<Upsert>, pageCount: int)
    requires Inv(p.doc) && Known(p.doc, ops)
    requires forall op <- ops :: op.basedOn.Unnamed? && CleanUpsert(op, pageCount).Success?
    ensures ApplyUpserts(p, ops, pageCount).Success?
    ensures |ApplyUpserts(p, ops, pageCount).value.doc.items| == |p.doc.items|
  {
    if ops != [] {
      var init, last := ops[..|ops| - 1], ops[|ops| - 1];
      assert forall op :: op in init ==> op in ops;
      KnownUpsertsAreAccepted(p, init, pageCount);
      UpsertsKeep(p, init, pageCount);
      KnownSurvives(p.doc, ApplyUpserts(p, init, pageCount).value.doc, ops);
      KnownUpsertIsAccepted(ApplyUpserts(p, init, pageCount).value, last, pageCount);
    }
  }

  lemma {:induction false} DeletesKeepTheRows(p: Progress, ids: seq<string>)
    ensures |ApplyDeletes(p, ids).doc.items| == |p.doc.items|
  {
    if ids != [] {
      DeletesKeepTheRows(p, ids[..|ids| - 1]);
    }
  }

  /** In every later state a batch that was accepted once and names no version is accepted again and creates no row. */
  lemma {:induction false} ARepeatIsAccepted(doc: Document, r: Request, later: Document, again: Request)
    requires Inv(doc) && Sync(doc, r).Success?
    requires forall op <- r.upserts :: op.basedOn.Unnamed?
    requires Inv(later) && Evolves(After(doc, r), later)
    requires again.upserts == r.upserts && again.deletes == r.deletes && again.pageCount == r.pageCount
    ensures Sync(later, again).Success?
    ensures |After(later, again).items| == |later.items|
  {
    var first, pages := Progress(doc, 0, []), r.pageCount;
    var drawn := ApplyUpserts(first, r.upserts, pages).value;
    UpsertsKeep(first, r.upserts, pages);
    UpsertsLeaveTheirIds(first, r.upserts, pages);
    AcceptedUpsertsAreClean(first, r.upserts, pages);
    DeletesKeep(drawn, r.deletes);
    KnownSurvives(drawn.doc, After(doc, r), r.upserts);
    KnownSurvives(After(doc, r), later, r.upserts);
    KnownUpsertsAreAccepted(Progress(later, 0, []), r.upserts, pages);
    DeletesKeepTheRows(ApplyUpserts(Progress(later, 0, []), r.upserts, pages).value, r.deletes);
  }

  lemma {:induction false} ARepeatDrawsTheSame(doc: Document, r: Request, id: string)
    requires Sync(doc, r).Success? && Sync(After(doc, r), r).Success?
    requires forall op <- r.upserts :: op.basedOn.Unnamed?
    ensures DrawnAt(After(After(doc, r), r), id) == DrawnAt(After(doc, r), id)
  {
    var first, second, pages := Progress(doc, 0, []), Progress(After(doc, r), 0, []), r.pageCount;
    UpsertsActPointwise(first, r.upserts, pages, id);
    DeletesActPointwise(ApplyUpserts(first, r.upserts, pages).value, r.deletes, id);
    UpsertsActPointwise(second, r.upserts, pages, id);
    DeletesActPointwise(ApplyUpserts(second, r.upserts, pages).value, r.deletes, id);
    BatchIsIdempotentAt(DrawnAt(doc, id), id, r.upserts, pages, r.deletes);
  }

  /** Retry safety: an accepted batch that names no version may be sent again. The second send is accepted, creates no
      row, and leaves what is drawn under every id as the first send left it (versions and revisions do advance). */
  lemma {:induction false} RetryIsSafe(doc: Document, r: Request)
    requires Inv(doc) && Sync(doc, r).Success?
    requires forall op <- r.upserts :: op.basedOn.Unnamed?
    ensures Sync(After(doc, r), r).Success?
    ensures |After(After(doc, r), r).items| == |After(doc, r).items|
    ensures forall id :: DrawnAt(After(After(doc, r), r), id) == DrawnAt(After(doc, r), id)
  {
    SyncKeeps(doc, r);
    Convergence.EvolvesToItself(After(doc, r));
    ARepeatIsAccepted(doc, r, After(doc, r), r);
    forall id ensures DrawnAt(After(After(doc, r), r), id) == DrawnAt(After(doc, r), id) {
      ARepeatDrawsTheSame(doc, r, id);
    }
  }

  // ---- a lost reply, among any number of devices ----

  lemma {:induction false} SameWorkSameDocument(doc: Document, a: Request, b: Request)
    requires a.upserts == b.upserts && a.deletes == b.deletes && a.pageCount == b.pageCount
    ensures After(doc, a) == After(doc, b) && Sync(doc, a).Success? == Sync(doc, b).Success?
  {
  }

  lemma {:induction false} PushLeaves(sys: Convergence.System, push: Convergence.Step)
    requires Convergence.Accepted(sys, push)
    ensures Convergence.Next(sys, push).server == After(sys.server, Convergence.PushRequest(sys, push))
  {
  }

  lemma {:induction false} LosingTheReplyOnlyKeepsTheDevices(sys: Convergence.System, push: Convergence.Step)
    requires Convergence.Accepted(sys, push)
    ensures var lost := Convergence.Next(sys, push.(arrives := false));
            lost.devices == sys.devices && lost.server == After(sys.server, Convergence.PushRequest(sys, push))
  {
  }

  lemma {:induction false} SentAgainLater(sys: Convergence.System, push: Convergence.Step, later: Convergence.System)
    requires Convergence.SystemInv(sys) && Convergence.Accepted(sys, push)
    requires forall op <- push.upserts :: op.basedOn.Unnamed?
    requires Convergence.SystemInv(later) && push.device in later.devices
    requires Evolves(After(sys.server, Convergence.PushRequest(sys, push)), later.server)
    ensures Convergence.Accepted(later, push)
    ensures |Convergence.Next(later, push).server.items| == |later.server.items|
  {
    ARepeatIsAccepted(sys.server, Convergence.PushRequest(sys, push), later.server,
                      Convergence.PushRequest(later, push));
    PushLeaves(later, push);
  }

  lemma {:induction false} SentAgainAtOnce(sys: Convergence.System, push: Convergence.Step, later: Convergence.System,
                                           id: string)
    requires Convergence.Accepted(sys, push) && Convergence.Accepted(later, push)
    requires forall op <- push.upserts :: op.basedOn.Unnamed?
    requires later.server == After(sys.server, Convergence.PushRequest(sys, push))
    ensures DrawnAt(Convergence.Next(later, push).server, id) == DrawnAt(later.server, id)
  {
    var r := Convergence.PushRequest(sys, push);
    PushLeaves(later, push);
    SameWorkSameDocument(later.server, Convergence.PushRequest(later, push), r);
    ARepeatDrawsTheSame(sys.server, r, id);
  }

  /** The offline retry: a device whose push was accepted but never answered sends the same work again later, whatever it
      and the others did in between. If the work names no version, the push is accepted again, creates no row and leaves
      the device in step with the server; and if no operation was applied in between, everything is drawn as the lost
      push had left it. */
  lemma {:induction false} ALostPushMayBeSentAgain(steps: seq<Convergence.Step>, push: Convergence.Step,
                                                   between: seq<Convergence.Step>)
    requires Convergence.Accepted(Convergence.Execute(Convergence.Start, steps), push) && push.arrives
    requires forall op <- push.upserts :: op.basedOn.Unnamed?
    ensures var sys := Convergence.Execute(Convergence.Start, steps);
            var lost := Convergence.Next(sys, push.(arrives := false));
            var later := Convergence.Execute(lost, between);
            var after := Convergence.Next(later, push);
            && lost.devices == sys.devices
            && Convergence.Accepted(later, push)
            && Convergence.InStep(after, push.device)
            && |after.server.items| == |later.server.items|
            && (later.server == lost.server ==>
                  forall id :: DrawnAt(after.server, id) == DrawnAt(lost.server, id))
  {
    var sys := Convergence.Execute(Convergence.Start, steps);
    var lost := Convergence.Next(sys, push.(arrives := false));
    var later := Convergence.Execute(lost, between);
    Convergence.SystemStaysConsistent(steps);
    LosingTheReplyOnlyKeepsTheDevices(sys, push);
    Convergence.PushKeepsTheSystem(sys, push.(arrives := false));
    Convergence.ExecuteKeepsTheSystem(lost, between);
    Convergence.DevicesStay(lost, between, push.device);
    SentAgainLater(sys, push, later);
    Convergence.PushKeepsTheSystem(later, push);
    if later.server == lost.server {
      forall id ensures DrawnAt(Convergence.Next(later, push).server, id) == DrawnAt(lost.server, id) {
        SentAgainAtOnce(sys, push, later, id);
      }
    }
  }
}
