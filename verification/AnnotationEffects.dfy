/** What a push stores and what every device is told about it, in the words of the sender: page, kind, colour, width,
    geometry and whether the mark is deleted. */
module AnnotationEffects {
  import opened AnnotationGeometry
  import opened AnnotationSync
  import opened Numbers
  import opened Sums
  import opened Wrappers
  import Convergence = AnnotationConvergence

  // ---- one upsert ----

  function StoredId(op: Upsert): string {
    if |op.clientId| <= 64 then op.clientId else op.clientId[..64]
  }

  /** The content is what the upsert sent. */
  ghost predicate Holds(content: Content, op: Upsert) {
    && op.page == Some(content.page) && op.kind == Some(content.kind)
    && op.color == content.color && op.width == Some(content.width)
    && Depicts(content.kind, op.data, content.data)
    && content.text == if content.data.TextNote? then content.data.text else ""
  }

  ghost predicate Shows(row: Item, op: Upsert) {
    row.clientId == StoredId(op) && Holds(row.content, op)
  }

  ghost predicate Wellformed(op: Upsert, pageCount: int) {
    && op.clientId != "" && op.kind.Some?
    && op.page.Some? && 1 <= op.page.value <= Max(pageCount, 1)
    && op.color in {"", "yellow", "green", "pink", "blue", "black", "red"}
    && op.width.Some? && 0 <= op.width.value <= 2
    && op.data.isObject && op.data.bytes <= 65536
    && exists data :: Depicts(op.kind.value, op.data, data)
  }

  lemma ContentIsWhatWasSent(op: Upsert, pageCount: int, content: Content)
    ensures CleanUpsert(op, pageCount) == Success(content) <==> Wellformed(op, pageCount) && Holds(content, op)
  {
    if op.kind.Some? {
      StoredGeometryIsWhatWasSent(op.kind.value, op.data, content.data, content.text);
    }
  }

  lemma WellformedIsClean(op: Upsert, pageCount: int)
    ensures CleanUpsert(op, pageCount).Success? <==> Wellformed(op, pageCount)
  {
    if CleanUpsert(op, pageCount).Success? {
      ContentIsWhatWasSent(op, pageCount, CleanUpsert(op, pageCount).value);
    } else if Wellformed(op, pageCount) {
      var data :| Depicts(op.kind.value, op.data, data);
      var text := if data.TextNote? then data.text else "";
      ContentIsWhatWasSent(op, pageCount,
                           Content(op.page.value, op.kind.value, op.color, op.width.value, data, text));
    }
  }

  function RowOf(items: seq<Item>, id: string): Option<Item> {
    match IndexOf(items, id)
    case None => None
    case Some(i) => Some(items[i])
  }

  lemma RowOfUnique(items: seq<Item>, i: nat)
    requires UniqueIds(items) && i < |items|
    ensures RowOf(items, items[i].clientId) == Some(items[i])
  {
    IndexOfUnique(items, i);
  }

  /** An upsert of a new id, one naming no version, or one naming the version the row has. */
  predicate Applies(row: Option<Item>, op: Upsert) {
    row.None? || op.basedOn.Unnamed? || op.basedOn == Named(row.value.version)
  }

  lemma LiveRowsAreCounted(items: seq<Item>)
    ensures Live(items) == |set i: nat | i < |items| && !items[i].deleted|
  {
    TotalCounts(items, LiveWeight, set i: nat | i < |items| && !items[i].deleted);
  }

  /** An upsert is accepted exactly when it is well-formed and either its mark exists and it names a readable version, or
      the mark is new and fewer than 5000 marks are live. */
  lemma AnUpsertIsAcceptedIff(p: Progress, op: Upsert, pageCount: int)
    ensures ApplyUpsert(p, op, pageCount).Success? <==>
              && Wellformed(op, pageCount)
              && if exists row <- p.doc.items :: row.clientId == StoredId(op) then !op.basedOn.Unreadable?
                 else |set i: nat | i < |p.doc.items| && !p.doc.items[i].deleted| < 5000
  {
    WellformedIsClean(op, pageCount);
    LiveRowsAreCounted(p.doc.items);
  }

  /** An accepted upsert that applies leaves the row showing what was sent, not deleted, at the next version (the first for
      a new mark) and the next revision of the document, and every other row as it was. */
  lemma AnUpsertStoresWhatWasSent(p: Progress, op: Upsert, pageCount: int, i: nat)
    requires Inv(p.doc) && ApplyUpsert(p, op, pageCount).Success?
    requires if i < |p.doc.items| then p.doc.items[i].clientId == StoredId(op) && Applies(Some(p.doc.items[i]), op)
             else i == |p.doc.items| && forall row <- p.doc.items :: row.clientId != StoredId(op)
    ensures var q, known := ApplyUpsert(p, op, pageCount).value, i < |p.doc.items|;
            && |q.doc.items| == (if known then |p.doc.items| else |p.doc.items| + 1)
            && (forall j :: 0 <= j < |p.doc.items| && j != i ==> q.doc.items[j] == p.doc.items[j])
            && Shows(q.doc.items[i], op) && !q.doc.items[i].deleted
            && q.doc.items[i].version == (if known then p.doc.items[i].version + 1 else 1)
            && q.doc.items[i].revision == q.doc.revision == p.doc.revision + 1
            && q.applied == p.applied + 1 && q.conflicts == p.conflicts
  {
    var content := CleanUpsert(op, pageCount).value;
    ContentIsWhatWasSent(op, pageCount, content);
    if i < |p.doc.items| {
      IndexOfUnique(p.doc.items, i);
    }
  }

  /** An accepted upsert naming another version changes no row and reports the server's copy. */
  lemma AConflictingUpsertChangesNothing(p: Progress, op: Upsert, pageCount: int, i: nat)
    requires Inv(p.doc) && ApplyUpsert(p, op, pageCount).Success?
    requires i < |p.doc.items| && p.doc.items[i].clientId == StoredId(op) && !Applies(Some(p.doc.items[i]), op)
    ensures var q := ApplyUpsert(p, op, pageCount).value;
            && q.doc == p.doc && q.applied == p.applied
            && |q.conflicts| == |p.conflicts| + 1 && p.conflicts <= q.conflicts
            && Tells(q.conflicts[|p.conflicts|], p.doc.items[i])
  {
    IndexOfUnique(p.doc.items, i);
  }

  /** A delete marks a live row, keeps what it shows, and leaves every other row; anything else it leaves alone. */
  lemma ADeleteOnlyMarks(p: Progress, id: string)
    requires Inv(p.doc)
    ensures var q := ApplyDelete(p, id);
            && |q.doc.items| == |p.doc.items| && q.conflicts == p.conflicts
            && (forall j :: 0 <= j < |p.doc.items| ==>
                  if p.doc.items[j].clientId == id && !p.doc.items[j].deleted
                  then && q.doc.items[j].clientId == id && q.doc.items[j].content == p.doc.items[j].content
                       && q.doc.items[j].deleted && q.doc.items[j].version == p.doc.items[j].version + 1
                       && q.doc.items[j].revision == q.doc.revision == p.doc.revision + 1
                  else q.doc.items[j] == p.doc.items[j])
            && q.applied == p.applied
               + (if exists row <- p.doc.items :: row.clientId == id && !row.deleted then 1 else 0)
  {
    forall j | 0 <= j < |p.doc.items| && p.doc.items[j].clientId == id ensures IndexOf(p.doc.items, id) == Some(j) {
      IndexOfUnique(p.doc.items, j);
    }
    if row :| row in p.doc.items && row.clientId == id && !row.deleted {
      var j :| 0 <= j < |p.doc.items| && p.doc.items[j] == row;
      assert p.doc.items[j].clientId == id;
    }
  }

  // ---- a whole request, one id at a time ----

  lemma AppendAtAnId(doc: Document, clientId: string, content: Content, id: string)
    requires IndexOf(doc.items, clientId).None?
    ensures RowOf(Append(doc, clientId, content).items, id)
         == if clientId == id then Some(Item(clientId, content, 1, doc.revision + 1, false)) else RowOf(doc.items, id)
  {
    IndexOfAppend(doc.items, Item(clientId, content, 1, doc.revision + 1, false), id);
  }

  lemma RewriteAtAnId(doc: Document, i: nat, content: Content, deleted: bool, id: string)
    requires i < |doc.items| && IndexOf(doc.items, doc.items[i].clientId) == Some(i)
    ensures RowOf(Rewrite(doc, i, content, deleted).items, id)
         == if doc.items[i].clientId == id
            then Some(Item(id, content, doc.items[i].version + 1, doc.revision + 1, deleted))
            else RowOf(doc.items, id)
  {
    IndexOfRewrite(doc.items, i, Rewrite(doc, i, content, deleted).items[i], id);
  }

  lemma UpsertAtAnId(p: Progress, op: Upsert, pageCount: int, id: string)
    requires Inv(p.doc) && ApplyUpsert(p, op, pageCount).Success?
    ensures var q := ApplyUpsert(p, op, pageCount).value;
            if StoredId(op) == id && Applies(RowOf(p.doc.items, id), op)
            then var row := RowOf(q.doc.items, id); row.Some? && Shows(row.value, op) && !row.value.deleted
            else RowOf(q.doc.items, id) == RowOf(p.doc.items, id)
    ensures p.conflicts <= ApplyUpsert(p, op, pageCount).value.conflicts
  {
    var content := CleanUpsert(op, pageCount).value;
    ContentIsWhatWasSent(op, pageCount, content);
    match IndexOf(p.doc.items, StoredId(op))
    case None => AppendAtAnId(p.doc, StoredId(op), content, id);
    case Some(i) => RewriteAtAnId(p.doc, i, content, false, id);
  }

  /** Among the upserts, none from `from` on is of this id. */
  predicate NoneFrom(ops: seq<Upsert>, from: nat, id: string) {
    forall k :: from <= k < |ops| ==> StoredId(ops[k]) != id
  }

  lemma {:induction false} LaterUpsertsLeaveAnId(p: Progress, ops: seq<Upsert>, pageCount: int, from: nat, id: string)
    requires Inv(p.doc) && ApplyUpserts(p, ops, pageCount).Success?
    requires from <= |ops| && NoneFrom(ops, from, id)
    ensures ApplyUpserts(p, ops[..from], pageCount).Success?
    ensures var q, early := ApplyUpserts(p, ops, pageCount).value, ApplyUpserts(p, ops[..from], pageCount).value;
            RowOf(q.doc.items, id) == RowOf(early.doc.items, id) && early.conflicts <= q.conflicts
    decreases |ops|
  {
    if from < |ops| {
      var init := ops[..|ops| - 1];
      LaterUpsertsLeaveAnId(p, init, pageCount, from, id);
      assert init[..from] == ops[..from];
      UpsertsKeep(p, init, pageCount);
      UpsertAtAnId(ApplyUpserts(p, init, pageCount).value, ops[|ops| - 1], pageCount, id);
    } else {
      assert ops[..from] == ops;
    }
  }

  lemma DeleteAtAnId(p: Progress, clientId: string, id: string)
    ensures var before, after := RowOf(p.doc.items, id), RowOf(ApplyDelete(p, clientId).doc.items, id);
            && (before.Some? <==> after.Some?)
            && (before.Some? ==> && after.value.content == before.value.content && after.value.clientId == id
                                 && (after.value.deleted <==> before.value.deleted || clientId == id)
                                 && (clientId != id || before.value.deleted ==> after == before))
    ensures ApplyDelete(p, clientId).conflicts == p.conflicts
  {
    match IndexOf(p.doc.items, clientId)
    case None =>
    case Some(i) => RewriteAtAnId(p.doc, i, p.doc.items[i].content, true, id);
  }

  /** What a list of deletes does to one row. */
  predicate Marked(before: Option<Item>, after: Option<Item>, listed: bool) {
    && (before.Some? <==> after.Some?)
    && (before.Some? ==> && after.value.content == before.value.content && after.value.clientId == before.value.clientId
                         && (after.value.deleted <==> before.value.deleted || listed)
                         && (!listed || before.value.deleted ==> after == before))
  }

  lemma {:induction false} DeletesAtAnId(p: Progress, ids: seq<string>, id: string)
    ensures Marked(RowOf(p.doc.items, id), RowOf(ApplyDeletes(p, ids).doc.items, id), id in ids)
    ensures ApplyDeletes(p, ids).conflicts == p.conflicts
  {
    if ids != [] {
      var init, last := ids[..|ids| - 1], ids[|ids| - 1];
      DeletesAtAnId(p, init, id);
      DeleteAtAnId(ApplyDeletes(p, init), last, id);
      assert ids == init + [last];
    }
  }

  /** A mark that a request does not upsert keeps what it shows; it is deleted afterwards exactly when it was or the request
      deletes it, and a request that does not mention it leaves its row entirely alone. No mark appears unasked. */
  lemma {:induction false} AMarkNotUpserted(doc: Document, r: Request, id: string)
    requires Inv(doc) && Sync(doc, r).Success? && NoneFrom(r.upserts, 0, id)
    ensures Marked(RowOf(doc.items, id), RowOf(After(doc, r).items, id), id in r.deletes)
  {
    var start := Progress(doc, 0, []);
    LaterUpsertsLeaveAnId(start, r.upserts, r.pageCount, 0, id);
    assert r.upserts[..0] == [];
    DeletesAtAnId(ApplyUpserts(start, r.upserts, r.pageCount).value, r.deletes, id);
  }

  /** Upsert k is the last of its id in the request and takes effect: it names no version, or it is also the first of its
      id and the mark is new or has the version it names. */
  predicate Decides(doc: Document, r: Request, k: nat)
    requires k < |r.upserts|
  {
    var op := r.upserts[k];
    && NoneFrom(r.upserts, k + 1, StoredId(op))
    && (op.basedOn.Unnamed? || (NoneFrom(r.upserts[..k], 0, StoredId(op)) && Applies(RowOf(doc.items, StoredId(op)), op)))
  }

  lemma {:induction false} UpsertAtItsTurn(doc: Document, r: Request, k: nat)
    requires Inv(doc) && Sync(doc, r).Success? && k < |r.upserts|
    requires NoneFrom(r.upserts, k + 1, StoredId(r.upserts[k]))
    ensures var start, op := Progress(doc, 0, []), r.upserts[k];
            && ApplyUpserts(start, r.upserts[..k], r.pageCount).Success?
            && var p := ApplyUpserts(start, r.upserts[..k], r.pageCount).value;
               && Inv(p.doc) && ApplyUpsert(p, op, r.pageCount).Success?
               && var q, end := ApplyUpsert(p, op, r.pageCount).value, ApplyUpserts(start, r.upserts, r.pageCount).value;
                  RowOf(end.doc.items, StoredId(op)) == RowOf(q.doc.items, StoredId(op)) && q.conflicts <= end.conflicts
  {
    var start := Progress(doc, 0, []);
    LaterUpsertsLeaveAnId(start, r.upserts, r.pageCount, k + 1, StoredId(r.upserts[k]));
    assert r.upserts[..k + 1][..k] == r.upserts[..k];
    UpsertsKeep(start, r.upserts[..k], r.pageCount);
  }

  /** After an accepted request every mark shows what the last upsert of its id sent, if that one takes effect, and is
      deleted exactly when the request deletes it. */
  lemma {:induction false} TheLastUpsertStands(doc: Document, r: Request, k: nat)
    requires Inv(doc) && Sync(doc, r).Success? && k < |r.upserts| && Decides(doc, r, k)
    ensures var id := StoredId(r.upserts[k]);
            var row := RowOf(After(doc, r).items, id);
            row.Some? && Shows(row.value, r.upserts[k]) && (row.value.deleted <==> id in r.deletes)
  {
    var start, op := Progress(doc, 0, []), r.upserts[k];
    UpsertAtItsTurn(doc, r, k);
    var p := ApplyUpserts(start, r.upserts[..k], r.pageCount).value;
    if !op.basedOn.Unnamed? {
      LaterUpsertsLeaveAnId(start, r.upserts[..k], r.pageCount, 0, StoredId(op));
      assert r.upserts[..k][..0] == [];
    }
    UpsertAtAnId(p, op, r.pageCount, StoredId(op));
    DeletesAtAnId(ApplyUpserts(start, r.upserts, r.pageCount).value, r.deletes, StoredId(op));
  }

  /** A request's only upsert of a mark that names another version than the mark has changes nothing that is shown and is
      answered with the server's copy. */
  lemma {:induction false} AStaleUpsertIsAnswered(doc: Document, r: Request, k: nat, i: nat)
    requires Inv(doc) && Sync(doc, r).Success? && k < |r.upserts| && i < |doc.items|
    requires var id := StoredId(r.upserts[k]);
             && doc.items[i].clientId == id && !Applies(Some(doc.items[i]), r.upserts[k])
             && NoneFrom(r.upserts, k + 1, id) && NoneFrom(r.upserts[..k], 0, id)
    ensures Marked(Some(doc.items[i]), RowOf(After(doc, r).items, doc.items[i].clientId),
                   doc.items[i].clientId in r.deletes)
    ensures exists mark <- Sync(doc, r).value.1.conflicts :: Tells(mark, doc.items[i])
  {
    var start, op := Progress(doc, 0, []), r.upserts[k];
    UpsertAtItsTurn(doc, r, k);
    LaterUpsertsLeaveAnId(start, r.upserts[..k], r.pageCount, 0, StoredId(op));
    assert r.upserts[..k][..0] == [];
    RowOfUnique(doc.items, i);
    var p := ApplyUpserts(start, r.upserts[..k], r.pageCount).value;
    UpsertAtAnId(p, op, r.pageCount, StoredId(op));
    var q, end := ApplyUpsert(p, op, r.pageCount).value, ApplyUpserts(start, r.upserts, r.pageCount).value;
    DeletesAtAnId(end, r.deletes, StoredId(op));
    assert q.conflicts == p.conflicts + [Serialize(doc.items[i])];
    assert end.conflicts[|p.conflicts|] == Serialize(doc.items[i]);
    assert Serialize(doc.items[i]) in Sync(doc, r).value.1.conflicts;
  }

  lemma {:induction false} AcceptedPrefix(p: Progress, ops: seq<Upsert>, pageCount: int, k: nat)
    requires ApplyUpserts(p, ops, pageCount).Success? && k < |ops|
    ensures ApplyUpserts(p, ops[..k], pageCount).Success?
    ensures ApplyUpsert(ApplyUpserts(p, ops[..k], pageCount).value, ops[k], pageCount).Success?
    decreases |ops|
  {
    var init := ops[..|ops| - 1];
    assert ApplyUpserts(p, init, pageCount).Success?;
    if k < |init| {
      AcceptedPrefix(p, init, pageCount, k);
      assert init[..k] == ops[..k] && init[k] == ops[k];
    } else {
      assert ops[..k] == init;
    }
  }

  lemma {:induction false} AcceptedOneByOne(p: Progress, ops: seq<Upsert>, pageCount: int)
    requires forall k :: 0 <= k < |ops| && ApplyUpserts(p, ops[..k], pageCount).Success? ==>
               ApplyUpsert(ApplyUpserts(p, ops[..k], pageCount).value, ops[k], pageCount).Success?
    ensures ApplyUpserts(p, ops, pageCount).Success?
  {
    if ops != [] {
      var init := ops[..|ops| - 1];
      assert forall k :: 0 <= k < |init| ==> init[..k] == ops[..k];
      AcceptedOneByOne(p, init, pageCount);
    }
  }

  /** A request is accepted exactly when it asks for at most 200 changes and each upsert is acceptable at its turn; deletes
      never stop it. */
  lemma {:induction false} ARequestIsAcceptedIff(doc: Document, r: Request)
    ensures Sync(doc, r).Success? <==>
              && |r.upserts| + |r.deletes| <= 200
              && forall k :: 0 <= k < |r.upserts| && ApplyUpserts(Progress(doc, 0, []), r.upserts[..k], r.pageCount).Success?
                   ==> ApplyUpsert(ApplyUpserts(Progress(doc, 0, []), r.upserts[..k], r.pageCount).value, r.upserts[k],
                                   r.pageCount).Success?
  {
    var start := Progress(doc, 0, []);
    if ApplyUpserts(start, r.upserts, r.pageCount).Success? {
      forall k | 0 <= k < |r.upserts|
        ensures ApplyUpserts(start, r.upserts[..k], r.pageCount).Success?
        ensures ApplyUpsert(ApplyUpserts(start, r.upserts[..k], r.pageCount).value, r.upserts[k], r.pageCount).Success?
      {
        AcceptedPrefix(start, r.upserts, r.pageCount, k);
      }
    } else if forall k :: 0 <= k < |r.upserts| && ApplyUpserts(start, r.upserts[..k], r.pageCount).Success? ==>
                ApplyUpsert(ApplyUpserts(start, r.upserts[..k], r.pageCount).value, r.upserts[k], r.pageCount).Success? {
      AcceptedOneByOne(start, r.upserts, r.pageCount);
    }
  }

  // ---- what devices are told ----

  /** The device has a mark for every row, saying everything it should, and no other mark. */
  ghost predicate Knows(device: Convergence.Device, doc: Document) {
    && (forall i :: 0 <= i < |doc.items| ==>
          && doc.items[i].clientId in device.marks && Tells(device.marks[doc.items[i].clientId], doc.items[i]))
    && (forall id <- device.marks :: exists i :: 0 <= i < |doc.items| && doc.items[i].clientId == id)
  }

  lemma TheViewKnows(doc: Document, device: Convergence.Device)
    requires Inv(doc) && device.marks == Convergence.View(doc.items)
    ensures Knows(device, doc)
  {
    forall i | 0 <= i < |doc.items|
      ensures doc.items[i].clientId in device.marks && Tells(device.marks[doc.items[i].clientId], doc.items[i])
    {
      IndexOfUnique(doc.items, i);
      Convergence.ViewLookup(doc.items, doc.items[i].clientId);
    }
    forall id | id in device.marks ensures exists i :: 0 <= i < |doc.items| && doc.items[i].clientId == id {
      Convergence.ViewLookup(doc.items, id);
      assert doc.items[IndexOf(doc.items, id).value].clientId == id;
    }
  }

  /** In every run, a device in step with the server knows every row: its deleted flag, page, kind, colour, width, geometry
      and version. */
  lemma ADeviceInStepKnowsEveryRow(steps: seq<Convergence.Step>, d: nat)
    requires Convergence.InStep(Convergence.Execute(Convergence.Start, steps), d)
    ensures var sys := Convergence.Execute(Convergence.Start, steps);
            Knows(sys.devices[d], sys.server) && sys.devices[d].revision == sys.server.revision
  {
    Convergence.SystemStaysConsistent(steps);
    var sys := Convergence.Execute(Convergence.Start, steps);
    TheViewKnows(sys.server, sys.devices[d]);
  }

  /** In every run, a device that completes a fetch, or whose push is accepted and answered, knows every row the server then
      has. */
  lemma EveryAnswerTellsEveryRow(steps: seq<Convergence.Step>, step: Convergence.Step)
    requires var sys := Convergence.Execute(Convergence.Start, steps);
             || (step.ReadRows? && step.device in sys.fetching)
             || (Convergence.Accepted(sys, step) && step.arrives)
    ensures var after := Convergence.Next(Convergence.Execute(Convergence.Start, steps), step);
            step.device in after.devices && Knows(after.devices[step.device], after.server)
  {
    var sys := Convergence.Execute(Convergence.Start, steps);
    Convergence.SystemStaysConsistent(steps);
    Convergence.StepKeepsTheSystem(sys, step);
    var after := Convergence.Next(sys, step);
    if step.ReadRows? {
      Convergence.ReadRowsKeepsTheSystem(sys, step.device);
    } else {
      Convergence.PushKeepsTheSystem(sys, step);
    }
    TheViewKnows(after.server, after.devices[step.device]);
  }

  // ---- from one device to all the others ----

  /** No push among the steps mentions the id. */
  predicate Unmentioned(steps: seq<Convergence.Step>, id: string) {
    forall k :: 0 <= k < |steps| && steps[k].Push? ==> NoneFrom(steps[k].upserts, 0, id) && id !in steps[k].deletes
  }

  lemma {:induction false} UnmentionedRowsStay(sys: Convergence.System, steps: seq<Convergence.Step>, id: string)
    requires Convergence.SystemInv(sys) && Unmentioned(steps, id)
    ensures RowOf(Convergence.Execute(sys, steps).server.items, id) == RowOf(sys.server.items, id)
  {
    if steps != [] {
      var init, last := steps[..|steps| - 1], steps[|steps| - 1];
      var before := Convergence.Execute(sys, init);
      UnmentionedRowsStay(sys, init, id);
      Convergence.ExecuteKeepsTheSystem(sys, init);
      if Convergence.Accepted(before, last) {
        AMarkNotUpserted(before.server, Convergence.PushRequest(before, last), id);
      } else {
        Convergence.OnlyPushesWrite(before, last);
      }
    }
  }

  /** The row of an id after a push and anything that does not mention the id, as a device that then completes a fetch has
      it. */
  lemma {:induction false} ARowReachesADevice(steps: seq<Convergence.Step>, push: Convergence.Step,
                                              more: seq<Convergence.Step>, d: nat, id: string)
    requires Convergence.Accepted(Convergence.Execute(Convergence.Start, steps), push) && Unmentioned(more, id)
    requires d in Convergence.Execute(Convergence.Start, steps + [push] + more).fetching
    ensures var sys := Convergence.Execute(Convergence.Start, steps);
            var row := RowOf(After(sys.server, Convergence.PushRequest(sys, push)).items, id);
            var after := Convergence.Next(Convergence.Execute(Convergence.Start, steps + [push] + more),
                                          Convergence.ReadRows(d));
            && d in after.devices
            && (row.Some? ==> id in after.devices[d].marks && Tells(after.devices[d].marks[id], row.value))
  {
    var sys := Convergence.Execute(Convergence.Start, steps);
    var pushed := Convergence.Next(sys, push);
    Convergence.SystemStaysConsistent(steps);
    Convergence.PushKeepsTheSystem(sys, push);
    OneStepThenMore(steps, push, more);
    UnmentionedRowsStay(pushed, more, id);
    EveryAnswerTellsEveryRow(steps + [push] + more, Convergence.ReadRows(d));
    var last := Convergence.Execute(pushed, more);
    var row := RowOf(last.server.items, id);
    if row.Some? {
      var i := IndexOf(last.server.items, id).value;
      assert last.server.items[i].clientId == id;
    }
  }

  lemma {:induction false} OneStepThenMore(steps: seq<Convergence.Step>, step: Convergence.Step,
                                           more: seq<Convergence.Step>)
    ensures Convergence.Execute(Convergence.Start, steps + [step] + more)
         == Convergence.Execute(Convergence.Next(Convergence.Execute(Convergence.Start, steps), step), more)
  {
    var all := steps + [step] + more;
    if more == [] {
      assert all[..|all| - 1] == steps;
    } else {
      var init := more[..|more| - 1];
      OneStepThenMore(steps, step, init);
      assert all[..|all| - 1] == steps + [step] + init;
    }
  }

  /** A delete reaches every device: after an accepted push that deletes a mark and anything that does not mention it again,
      whoever completes a fetch holds the mark as deleted. */
  lemma {:induction false} ADeleteReachesEveryDevice(steps: seq<Convergence.Step>, push: Convergence.Step,
                                                     more: seq<Convergence.Step>, d: nat, id: string)
    requires var sys := Convergence.Execute(Convergence.Start, steps);
             && Convergence.Accepted(sys, push) && id in push.deletes && NoneFrom(push.upserts, 0, id)
             && exists row <- sys.server.items :: row.clientId == id
    requires Unmentioned(more, id)
    requires d in Convergence.Execute(Convergence.Start, steps + [push] + more).fetching
    ensures var after := Convergence.Next(Convergence.Execute(Convergence.Start, steps + [push] + more),
                                          Convergence.ReadRows(d));
            d in after.devices && id in after.devices[d].marks && after.devices[d].marks[id].deleted
  {
    var sys := Convergence.Execute(Convergence.Start, steps);
    Convergence.SystemStaysConsistent(steps);
    AMarkNotUpserted(sys.server, Convergence.PushRequest(sys, push), id);
    ARowReachesADevice(steps, push, more, d, id);
  }

  /** An edit reaches every device: after an accepted push whose upsert takes effect and anything that does not mention the
      mark again, whoever completes a fetch holds the page, kind, colour, width and geometry the sender sent. */
  lemma {:induction false} AnEditReachesEveryDevice(steps: seq<Convergence.Step>, push: Convergence.Step, k: nat,
                                                    more: seq<Convergence.Step>, d: nat)
    requires Convergence.Accepted(Convergence.Execute(Convergence.Start, steps), push)
    requires k < |push.upserts| && Unmentioned(more, StoredId(push.upserts[k]))
    requires var sys := Convergence.Execute(Convergence.Start, steps);
             Decides(sys.server, Convergence.PushRequest(sys, push), k)
    requires d in Convergence.Execute(Convergence.Start, steps + [push] + more).fetching
    ensures var op := push.upserts[k];
            var after := Convergence.Next(Convergence.Execute(Convergence.Start, steps + [push] + more),
                                          Convergence.ReadRows(d));
            && d in after.devices && StoredId(op) in after.devices[d].marks
            && var mark := after.devices[d].marks[StoredId(op)];
               && op.page == Some(mark.page) && op.kind == Some(mark.kind)
               && op.color == mark.color && op.width == Some(mark.width)
               && Depicts(mark.kind, op.data, mark.data) && (mark.deleted <==> StoredId(op) in push.deletes)
  {
    var sys := Convergence.Execute(Convergence.Start, steps);
    Convergence.SystemStaysConsistent(steps);
    TheLastUpsertStands(sys.server, Convergence.PushRequest(sys, push), k);
    ARowReachesADevice(steps, push, more, d, StoredId(push.upserts[k]));
  }
}
