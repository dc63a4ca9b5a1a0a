/** One user's marks on one document: what a sync does to them, and what every run of syncs keeps.

    Rows are kept in creation order, so a row's index is its primary key and sorting by (revision, id) is stable. */
module AnnotationSync {
  import opened Wrappers
  import opened Sums
  import opened AnnotationGeometry

  const MAX_ITEMS_PER_DOCUMENT: nat := 5000
  const MAX_OPS_PER_SYNC: nat := 200
  const MAX_CLIENT_ID: nat := 64

  datatype Content = Content(page: int, kind: Kind, color: string, width: int, data: Data, text: string)
  datatype Item = Item(clientId: string, content: Content, version: nat, revision: nat, deleted: bool)
  datatype Document = Document(revision: nat, items: seq<Item>)

  /** What a device is told about a mark. */
  datatype Mark = Mark(clientId: string, page: int, kind: Kind, color: string, width: int, data: Data,
                       version: nat, revision: nat, deleted: bool)

  /** The version an upsert says it was based on. Unreadable stands for a value `int` refuses. */
  datatype BasedOn = Unnamed | Named(version: int) | Unreadable

  datatype Upsert = Upsert(clientId: string, kind: Option<Kind>, page: Option<int>, color: string, width: Option<int>,
                           data: RawData, basedOn: BasedOn)

  datatype Rejection = TooManyOps | BadIdentity | BadPage | BadColor | BadWidth | BadGeometry | TooManyItems | BadVersion

  datatype Progress = Progress(doc: Document, applied: nat, conflicts: seq<Mark>)
  datatype SyncResult = SyncResult(revision: nat, applied: nat, conflicts: seq<Mark>, changes: seq<Mark>)
  datatype Request = Request(pageCount: int, baseRevision: nat, upserts: seq<Upsert>, deletes: seq<string>)

  const Empty := Document(0, [])

  // ---- the rows ----

  function IndexOf(items: seq<Item>, clientId: string): (i: Option<nat>)
    ensures i.Some? ==> i.value < |items| && items[i.value].clientId == clientId
    ensures i.None? ==> forall item <- items :: item.clientId != clientId
  {
    if items == [] then None else
    match IndexOf(items[..|items| - 1], clientId)
    case Some(i) => Some(i)
    case None => if items[|items| - 1].clientId == clientId then Some(|items| - 1) else None
  }

  function LiveWeight(item: Item): int {
    if item.deleted then 0 else 1
  }

  function VersionWeight(item: Item): int {
    item.version
  }

  function Live(items: seq<Item>): int {
    Total(items, LiveWeight)
  }

  function Serialize(item: Item): Mark {
    Mark(item.clientId, item.content.page, item.content.kind, item.content.color, item.content.width,
         item.content.data, item.version, item.revision, item.deleted)
  }

  /** The mark says everything about the row that a device is told. */
  predicate Tells(mark: Mark, row: Item) {
    && mark.clientId == row.clientId && mark.version == row.version && mark.revision == row.revision
    && mark.deleted == row.deleted
    && mark.page == row.content.page && mark.kind == row.content.kind && mark.color == row.content.color
    && mark.width == row.content.width && mark.data == row.content.data
  }

  lemma SerializeTells(row: Item, mark: Mark)
    ensures Tells(mark, row) <==> mark == Serialize(row)
  {
  }

  // ---- validation ----

  function Clip(clientId: string): string {
    if |clientId| <= MAX_CLIENT_ID then clientId else clientId[..MAX_CLIENT_ID]
  }

  function CleanUpsert(op: Upsert, pageCount: int): Result<Content, Rejection> {
    if op.clientId == "" || op.kind.None? then Failure(BadIdentity)
    else if op.page.None? || !(1 <= op.page.value <= if pageCount > 1 then pageCount else 1) then Failure(BadPage)
    else if op.color !in {"", "yellow", "green", "pink", "blue", "black", "red"} then Failure(BadColor)
    else if op.width.None? || op.width.value !in {0, 1, 2} then Failure(BadWidth)
    else match CleanData(op.kind.value, op.data)
    case Success((data, text)) =>
      Success(Content(op.page.value, op.kind.value, op.color, op.width.value, data, text))
    case Failure(_) => Failure(BadGeometry)
  }

  // ---- the two ways a document changes: a new row, or one rewritten row, each taking the next revision ----

  function Append(doc: Document, clientId: string, content: Content): Document {
    Document(doc.revision + 1, doc.items + [Item(clientId, content, 1, doc.revision + 1, false)])
  }

  function Rewrite(doc: Document, i: nat, content: Content, deleted: bool): Document
    requires i < |doc.items|
  {
    var item := doc.items[i];
    Document(doc.revision + 1,
             doc.items[i := Item(item.clientId, content, item.version + 1, doc.revision + 1, deleted)])
  }

  /** A validated upsert: create, conflict, or overwrite. A create pays no attention to the version it names. */
  function Put(p: Progress, clientId: string, content: Content, basedOn: BasedOn): Result<Progress, Rejection> {
    match IndexOf(p.doc.items, clientId)
    case None =>
      if Live(p.doc.items) >= MAX_ITEMS_PER_DOCUMENT then Failure(TooManyItems)
      else Success(Progress(Append(p.doc, clientId, content), p.applied + 1, p.conflicts))
    case Some(i) =>
      if basedOn.Unreadable? then Failure(BadVersion)
      else if basedOn.Named? && basedOn.version != p.doc.items[i].version then
        Success(p.(conflicts := p.conflicts + [Serialize(p.doc.items[i])]))
      else Success(Progress(Rewrite(p.doc, i, content, false), p.applied + 1, p.conflicts))
  }

  function ApplyUpsert(p: Progress, op: Upsert, pageCount: int): Result<Progress, Rejection> {
    var content :- CleanUpsert(op, pageCount);
    Put(p, Clip(op.clientId), content, op.basedOn)
  }

  function ApplyDelete(p: Progress, clientId: string): Progress {
    match IndexOf(p.doc.items, clientId)
    case None => p
    case Some(i) =>
      if p.doc.items[i].deleted then p
      else Progress(Rewrite(p.doc, i, p.doc.items[i].content, true), p.applied + 1, p.conflicts)
  }

  function ApplyUpserts(p: Progress, ops: seq<Upsert>, pageCount: int): Result<Progress, Rejection> {
    if ops == [] then Success(p) else
    var q :- ApplyUpserts(p, ops[..|ops| - 1], pageCount);
    ApplyUpsert(q, ops[|ops| - 1], pageCount)
  }

  function ApplyDeletes(p: Progress, ids: seq<string>): Progress {
    if ids == [] then p else ApplyDelete(ApplyDeletes(p, ids[..|ids| - 1]), ids[|ids| - 1])
  }

  // ---- what changed since a revision, oldest change first ----

  function Insert(mark: Mark, marks: seq<Mark>): seq<Mark> {
    if marks == [] || marks[|marks| - 1].revision <= mark.revision then marks + [mark]
    else Insert(mark, marks[..|marks| - 1]) + [marks[|marks| - 1]]
  }

  function ChangesSince(items: seq<Item>, since: nat): seq<Mark> {
    if items == [] then [] else
    var earlier, last := ChangesSince(items[..|items| - 1], since), items[|items| - 1];
    if last.revision > since then Insert(Serialize(last), earlier) else earlier
  }

  // ---- the whole request ----

  function Merge(doc: Document, r: Request): Result<Progress, Rejection> {
    if |r.upserts| + |r.deletes| > MAX_OPS_PER_SYNC then Failure(TooManyOps) else
    var p :- ApplyUpserts(Progress(doc, 0, []), r.upserts, r.pageCount);
    Success(ApplyDeletes(p, r.deletes))
  }

  function Sync(doc: Document, r: Request): Result<(Document, SyncResult), Rejection> {
    var p :- Merge(doc, r);
    Success((p.doc, SyncResult(p.doc.revision, p.applied, p.conflicts, ChangesSince(p.doc.items, r.baseRevision))))
  }

  /** A refused batch is rolled back. */
  function After(doc: Document, r: Request): Document {
    match Sync(doc, r)
    case Success((doc', _)) => doc'
    case Failure(_) => doc
  }

  function Run(doc: Document, requests: seq<Request>): Document {
    if requests == [] then doc else After(Run(doc, requests[..|requests| - 1]), requests[|requests| - 1])
  }

  // ---- invariant ----

  ghost predicate UniqueIds(items: seq<Item>) {
    forall i, j :: 0 <= i < j < |items| ==> items[i].clientId != items[j].clientId
  }

  ghost predicate UniqueRevisions(items: seq<Item>) {
    forall i, j :: 0 <= i < j < |items| ==> items[i].revision != items[j].revision
  }

  ghost predicate InRange(items: seq<Item>, revision: nat) {
    forall i :: 0 <= i < |items| ==> 1 <= items[i].revision <= revision && 1 <= items[i].version
  }

  ghost predicate HasRevision(items: seq<Item>, revision: nat) {
    exists i :: 0 <= i < |items| && items[i].revision == revision
  }

  /** Row revisions are distinct, the newest row carries the document's revision, and every operation applied since the
      document was empty is accounted for in exactly one row's version. */
  ghost predicate Inv(doc: Document) {
    && UniqueIds(doc.items)
    && UniqueRevisions(doc.items)
    && InRange(doc.items, doc.revision)
    && (doc.items != [] ==> HasRevision(doc.items, doc.revision))
    && Total(doc.items, VersionWeight) == doc.revision
  }

  /** How one reachable state may differ from an earlier one: rows are never lost or renamed, and a row that differs at
      all carries a later revision and a higher version. */
  ghost predicate Evolves(old_: Document, new_: Document) {
    && |old_.items| <= |new_.items|
    && old_.revision <= new_.revision
    && (forall i :: 0 <= i < |old_.items| ==>
          && new_.items[i].clientId == old_.items[i].clientId
          && (new_.items[i] == old_.items[i]
              || (new_.items[i].revision > old_.revision && new_.items[i].version > old_.items[i].version)))
    && (forall i :: |old_.items| <= i < |new_.items| ==> new_.items[i].revision > old_.revision)
  }

  lemma EvolvesTransitive(a: Document, b: Document, c: Document)
    requires Evolves(a, b) && Evolves(b, c)
    ensures Evolves(a, c)
  {
  }

  lemma NewIdStaysUnique(items: seq<Item>, row: Item)
    requires UniqueIds(items) && IndexOf(items, row.clientId).None?
    ensures UniqueIds(items + [row])
  {
    forall i | 0 <= i < |items| ensures items[i].clientId != row.clientId {
      assert items[i] in items;
    }
  }

  lemma NewRevisionStaysUnique(items: seq<Item>, row: Item, revision: nat)
    requires UniqueRevisions(items) && InRange(items, revision) && row.revision == revision + 1 && row.version >= 1
    ensures UniqueRevisions(items + [row]) && InRange(items + [row], revision + 1)
    ensures HasRevision(items + [row], revision + 1)
  {
    assert (items + [row])[|items|] == row;
  }

  lemma AppendEvolves(doc: Document, clientId: string, content: Content)
    ensures Evolves(doc, Append(doc, clientId, content))
  {
    var after := Append(doc, clientId, content).items;
    assert forall i :: 0 <= i < |doc.items| ==> after[i] == doc.items[i];
  }

  lemma AppendKeeps(doc: Document, clientId: string, content: Content)
    requires Inv(doc) && IndexOf(doc.items, clientId).None?
    ensures Inv(Append(doc, clientId, content)) && Evolves(doc, Append(doc, clientId, content))
  {
    var row := Item(clientId, content, 1, doc.revision + 1, false);
    NewIdStaysUnique(doc.items, row);
    NewRevisionStaysUnique(doc.items, row, doc.revision);
    TotalAppend(doc.items, row, VersionWeight);
    AppendEvolves(doc, clientId, content);
    assert Append(doc, clientId, content) == Document(doc.revision + 1, doc.items + [row]);
  }

  lemma RewriteKeepsTheRevision(doc: Document, i: nat, content: Content, deleted: bool)
    requires Inv(doc) && i < |doc.items|
    ensures var after := Rewrite(doc, i, content, deleted);
            HasRevision(after.items, after.revision) && Total(after.items, VersionWeight) == after.revision
  {
    var items := doc.items;
    var row := Item(items[i].clientId, content, items[i].version + 1, doc.revision + 1, deleted);
    assert items[i := row][i] == row;
    TotalUpdate(items, i, row, VersionWeight);
  }

  lemma RewriteKeeps(doc: Document, i: nat, content: Content, deleted: bool)
    requires Inv(doc) && i < |doc.items|
    ensures Inv(Rewrite(doc, i, content, deleted)) && Evolves(doc, Rewrite(doc, i, content, deleted))
  {
    RewriteKeepsTheRevision(doc, i, content, deleted);
  }

  ghost predicate Keeps(p: Progress, q: Progress) {
    Inv(q.doc) && Evolves(p.doc, q.doc) && q.doc.revision - p.doc.revision == q.applied - p.applied
  }

  lemma PutKeeps(p: Progress, clientId: string, content: Content, basedOn: BasedOn)
    requires Inv(p.doc) && Put(p, clientId, content, basedOn).Success?
    ensures Keeps(p, Put(p, clientId, content, basedOn).value)
  {
    match IndexOf(p.doc.items, clientId)
    case None => AppendKeeps(p.doc, clientId, content);
    case Some(i) => RewriteKeeps(p.doc, i, content, false);
  }

  lemma UpsertKeeps(p: Progress, op: Upsert, pageCount: int)
    requires Inv(p.doc) && ApplyUpsert(p, op, pageCount).Success?
    ensures Keeps(p, ApplyUpsert(p, op, pageCount).value)
  {
    PutKeeps(p, Clip(op.clientId), CleanUpsert(op, pageCount).value, op.basedOn);
  }

  lemma {:induction false} UpsertsKeep(p: Progress, ops: seq<Upsert>, pageCount: int)
    requires Inv(p.doc) && ApplyUpserts(p, ops, pageCount).Success?
    ensures Keeps(p, ApplyUpserts(p, ops, pageCount).value)
  {
    if ops != [] {
      UpsertsKeep(p, ops[..|ops| - 1], pageCount);
      var q := ApplyUpserts(p, ops[..|ops| - 1], pageCount).value;
      UpsertKeeps(q, ops[|ops| - 1], pageCount);
      EvolvesTransitive(p.doc, q.doc, ApplyUpserts(p, ops, pageCount).value.doc);
    }
  }

  lemma DeleteKeeps(p: Progress, clientId: string)
    requires Inv(p.doc)
    ensures Keeps(p, ApplyDelete(p, clientId))
  {
    match IndexOf(p.doc.items, clientId)
    case None =>
    case Some(i) => RewriteKeeps(p.doc, i, p.doc.items[i].content, true);
  }

  lemma {:induction false} DeletesKeep(p: Progress, ids: seq<string>)
    requires Inv(p.doc)
    ensures Keeps(p, ApplyDeletes(p, ids))
  {
    if ids != [] {
      DeletesKeep(p, ids[..|ids| - 1]);
      var q := ApplyDeletes(p, ids[..|ids| - 1]);
      DeleteKeeps(q, ids[|ids| - 1]);
      EvolvesTransitive(p.doc, q.doc, ApplyDeletes(p, ids).doc);
    }
  }

  /** Every sync keeps the invariant, loses no row, and advances the revision by exactly the number of applied
      operations; a refused one changes nothing. */
  lemma SyncKeeps(doc: Document, r: Request)
    requires Inv(doc)
    ensures Inv(After(doc, r)) && Evolves(doc, After(doc, r))
    ensures Sync(doc, r).Success? ==> After(doc, r).revision == doc.revision + Sync(doc, r).value.1.applied
    ensures Sync(doc, r).Failure? ==> After(doc, r) == doc
  {
    if Merge(doc, r).Success? {
      var start := Progress(doc, 0, []);
      UpsertsKeep(start, r.upserts, r.pageCount);
      var p := ApplyUpserts(start, r.upserts, r.pageCount).value;
      DeletesKeep(p, r.deletes);
      EvolvesTransitive(doc, p.doc, ApplyDeletes(p, r.deletes).doc);
    }
  }

  lemma {:induction false} RunKeeps(doc: Document, requests: seq<Request>)
    requires Inv(doc)
    ensures Inv(Run(doc, requests)) && Evolves(doc, Run(doc, requests))
  {
    if requests != [] {
      var before := requests[..|requests| - 1];
      RunKeeps(doc, before);
      SyncKeeps(Run(doc, before), requests[|requests| - 1]);
      EvolvesTransitive(doc, Run(doc, before), Run(doc, requests));
    }
  }

  /** In every reachable state the invariant holds: client ids are unique, the document revision is the largest row
      revision (0 without rows), and it counts every operation ever applied. */
  lemma ReachableStatesAreConsistent(requests: seq<Request>)
    ensures Inv(Run(Empty, requests))
  {
    RunKeeps(Empty, requests);
  }

  lemma IndexOfUnique(items: seq<Item>, i: nat)
    requires UniqueIds(items) && i < |items|
    ensures IndexOf(items, items[i].clientId) == Some(i)
  {
  }

  lemma IndexOfAppend(items: seq<Item>, row: Item, id: string)
    ensures IndexOf(items + [row], id)
            == if IndexOf(items, id).Some? then IndexOf(items, id)
               else if row.clientId == id then Some(|items|) else None
  {
  }

  lemma {:induction false} IndexOfRewrite(items: seq<Item>, i: nat, row: Item, id: string)
    requires i < |items| && row.clientId == items[i].clientId
    ensures IndexOf(items[i := row], id) == IndexOf(items, id)
  {
    var n := |items| - 1;
    if i < n {
      IndexOfRewrite(items[..n], i, row, id);
      assert items[i := row][..n] == items[..n][i := row];
    } else {
      assert items[i := row][..n] == items[..n];
    }
  }

  // ---- optimistic concurrency ----

  /** Once an update naming (client id, version) has been applied, every later update naming the same pair is a conflict:
      it changes nothing and reports the server's copy, in every state any run reaches from there. */
  lemma AVersionWinsAtMostOnce(p: Progress, op: Upsert, pageCount: int, later: Progress, rival: Upsert, rivalPages: int)
    requires Inv(p.doc) && Inv(later.doc)
    requires op.basedOn.Named? && IndexOf(p.doc.items, Clip(op.clientId)).Some?
    requires ApplyUpsert(p, op, pageCount).Success? && ApplyUpsert(p, op, pageCount).value.applied == p.applied + 1
    requires Evolves(ApplyUpsert(p, op, pageCount).value.doc, later.doc)
    requires Clip(rival.clientId) == Clip(op.clientId) && rival.basedOn == op.basedOn
    requires CleanUpsert(rival, rivalPages).Success?
    ensures var i := IndexOf(later.doc.items, Clip(op.clientId));
            && i.Some?
            && ApplyUpsert(later, rival, rivalPages)
               == Success(later.(conflicts := later.conflicts + [Serialize(later.doc.items[i.value])]))
  {
    var i := IndexOf(p.doc.items, Clip(op.clientId)).value;
    var next := ApplyUpsert(p, op, pageCount).value.doc;
    assert next.items[i].version == op.basedOn.version + 1;
    assert later.doc.items[i].version >= next.items[i].version;
    IndexOfUnique(later.doc.items, i);
  }

  // ---- the bound on live marks ----

  predicate Resurrects(doc: Document, op: Upsert) {
    match IndexOf(doc.items, Clip(op.clientId))
    case None => false
    case Some(i) =>
      && doc.items[i].deleted
      && (op.basedOn.Unnamed? || op.basedOn == Named(doc.items[i].version))
  }

  /** Only bringing a tombstone back escapes the limit of 5000 live marks: an accepted upsert leaves more live marks than
      5000, and more than there were, exactly when the document was full and the upsert revives a tombstone. */
  lemma LiveBoundIsKeptUnlessATombstoneReturns(p: Progress, op: Upsert, pageCount: int)
    requires ApplyUpsert(p, op, pageCount).Success?
    ensures var before, after := Live(p.doc.items), Live(ApplyUpsert(p, op, pageCount).value.doc.items);
            && after <= before + 1
            && (after > before && after > MAX_ITEMS_PER_DOCUMENT
                <==> before >= MAX_ITEMS_PER_DOCUMENT && Resurrects(p.doc, op))
  {
    var doc' := ApplyUpsert(p, op, pageCount).value.doc;
    match IndexOf(p.doc.items, Clip(op.clientId))
    case None => TotalAppend(p.doc.items, doc'.items[|p.doc.items|], LiveWeight);
    case Some(i) => TotalUpdate(p.doc.items, i, doc'.items[i], LiveWeight);
  }

  lemma DeleteNeverAddsAMark(p: Progress, clientId: string)
    ensures Live(ApplyDelete(p, clientId).doc.items) <= Live(p.doc.items)
  {
    match IndexOf(p.doc.items, clientId)
    case None =>
    case Some(i) => TotalUpdate(p.doc.items, i, ApplyDelete(p, clientId).doc.items[i], LiveWeight);
  }
}
