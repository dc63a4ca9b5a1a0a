/** Devices that hold a replica of the marks and merge deltas into it: what a delta contains, and why every replica
    equals the server whenever it has just synced, however the devices' syncs interleave. */
module AnnotationConvergence {
  import opened Wrappers
  import opened AnnotationSync

  // ---- the delta is exact ----

  ghost predicate IsChange(items: seq<Item>, since: nat, mark: Mark) {
    exists i :: 0 <= i < |items| && items[i].revision > since && Tells(mark, items[i])
  }

  lemma {:induction false} InsertMembers(mark: Mark, marks: seq<Mark>, m: Mark)
    ensures m in Insert(mark, marks) <==> m == mark || m in marks
  {
    if marks != [] && marks[|marks| - 1].revision > mark.revision {
      var init, last := marks[..|marks| - 1], marks[|marks| - 1];
      InsertMembers(mark, init, m);
      assert marks == init + [last];
    }
  }

  lemma {:induction false} ChangeMembers(items: seq<Item>, since: nat, mark: Mark)
    ensures mark in ChangesSince(items, since) <==> IsChange(items, since, mark)
  {
    if items != [] {
      var init, last := items[..|items| - 1], items[|items| - 1];
      ChangeMembers(init, since, mark);
      InsertMembers(Serialize(last), ChangesSince(init, since), mark);
      SerializeTells(last, mark);
      assert IsChange(items, since, mark) <==>
        IsChange(init, since, mark) || (last.revision > since && Tells(mark, last)) by {
        assert forall i :: 0 <= i < |init| ==> init[i] == items[i];
        assert items[|init|] == last;
      }
    }
  }

  ghost predicate Increasing(marks: seq<Mark>) {
    forall i, j :: 0 <= i < j < |marks| ==> marks[i].revision < marks[j].revision
  }

  lemma {:induction false} InsertIncreases(mark: Mark, marks: seq<Mark>)
    requires Increasing(marks)
    requires forall m <- marks :: m.revision != mark.revision
    ensures Increasing(Insert(mark, marks))
  {
    if marks != [] && marks[|marks| - 1].revision > mark.revision {
      var init, last := marks[..|marks| - 1], marks[|marks| - 1];
      InsertIncreases(mark, init);
      forall m | m in Insert(mark, init) ensures m.revision < last.revision {
        InsertMembers(mark, init, m);
      }
    }
  }

  /** A delta lists exactly the rows changed after `since`, each once, oldest change first. */
  lemma {:induction false} ChangesAreTheNewerRows(items: seq<Item>, since: nat)
    requires UniqueRevisions(items)
    ensures Increasing(ChangesSince(items, since))
    ensures forall mark :: mark in ChangesSince(items, since) <==> IsChange(items, since, mark)
  {
    forall mark ensures mark in ChangesSince(items, since) <==> IsChange(items, since, mark) {
      ChangeMembers(items, since, mark);
    }
    if items != [] {
      var init, last := items[..|items| - 1], items[|items| - 1];
      ChangesAreTheNewerRows(init, since);
      if last.revision > since {
        InsertIncreases(Serialize(last), ChangesSince(init, since));
      }
    }
  }

  // ---- replicas ----

  function Overlay(marks: map<string, Mark>, changes: seq<Mark>): map<string, Mark> {
    if changes == [] then marks else
    var last := changes[|changes| - 1];
    Overlay(marks, changes[..|changes| - 1])[last.clientId := last]
  }

  /** The server's marks as a replica holds them, tombstones included. */
  function View(items: seq<Item>): map<string, Mark> {
    map i | 0 <= i < |items| && IndexOf(items, items[i].clientId) == Some(i) :: items[i].clientId := Serialize(items[i])
  }

  lemma {:induction false} OverlayLookup(marks: map<string, Mark>, changes: seq<Mark>, id: string)
    ensures id in Overlay(marks, changes) <==> id in marks || exists m <- changes :: m.clientId == id
    ensures (exists m <- changes :: m.clientId == id) ==>
              Overlay(marks, changes)[id] in changes && Overlay(marks, changes)[id].clientId == id
    ensures id in marks && !(exists m <- changes :: m.clientId == id) ==> Overlay(marks, changes)[id] == marks[id]
  {
    if changes != [] {
      OverlayLookup(marks, changes[..|changes| - 1], id);
    }
  }

  /** The replica holds no foreign mark, and is current on every row that has not changed since its revision. */
  ghost predicate Consistent(doc: Document, device: Device) {
    && device.revision <= doc.revision
    && (forall id <- device.marks :: IndexOf(doc.items, id).Some?)
    && (forall i :: 0 <= i < |doc.items| && doc.items[i].revision <= device.revision ==>
          && doc.items[i].clientId in device.marks
          && device.marks[doc.items[i].clientId] == Serialize(doc.items[i]))
  }

  lemma ConsistencySurvivesOthers(before: Document, after: Document, device: Device)
    requires Inv(before) && Inv(after) && Evolves(before, after) && Consistent(before, device)
    ensures Consistent(after, device)
  {
    forall id | id in device.marks ensures IndexOf(after.items, id).Some? {
      var i := IndexOf(before.items, id).value;
      assert after.items[i] in after.items;
    }
  }

  lemma ARowIsAChange(items: seq<Item>, since: nat, i: nat)
    requires i < |items| && items[i].revision > since
    ensures IsChange(items, since, Serialize(items[i]))
  {
    SerializeTells(items[i], Serialize(items[i]));
  }

  lemma MergedLookup(doc: Document, device: Device, id: string)
    requires Inv(doc) && Consistent(doc, device)
    ensures var merged, at := Overlay(device.marks, ChangesSince(doc.items, device.revision)), IndexOf(doc.items, id);
            && (id in merged <==> at.Some?)
            && (at.Some? ==> merged[id] == Serialize(doc.items[at.value]))
  {
    var changes := ChangesSince(doc.items, device.revision);
    OverlayLookup(device.marks, changes, id);
    forall m | m in changes && m.clientId == id
      ensures IndexOf(doc.items, id).Some? && m == Serialize(doc.items[IndexOf(doc.items, id).value])
      ensures m.revision > device.revision
    {
      ChangeMembers(doc.items, device.revision, m);
      var i :| 0 <= i < |doc.items| && doc.items[i].revision > device.revision && Tells(m, doc.items[i]);
      SerializeTells(doc.items[i], m);
      IndexOfUnique(doc.items, i);
    }
    match IndexOf(doc.items, id)
    case None =>
    case Some(i) =>
      if doc.items[i].revision > device.revision {
        ARowIsAChange(doc.items, device.revision, i);
        ChangeMembers(doc.items, device.revision, Serialize(doc.items[i]));
      }
  }

  /** Merging the delta since a consistent replica's revision yields the server's marks exactly. */
  lemma {:induction false} DeltaCompletesTheReplica(doc: Document, device: Device)
    requires Inv(doc) && Consistent(doc, device)
    ensures Overlay(device.marks, ChangesSince(doc.items, device.revision)) == View(doc.items)
  {
    var merged, view := Overlay(device.marks, ChangesSince(doc.items, device.revision)), View(doc.items);
    forall id ensures (id in merged <==> id in view) && (id in view ==> merged[id] == view[id]) {
      MergedLookup(doc, device, id);
      ViewLookup(doc.items, id);
    }
  }

  lemma ViewLookup(items: seq<Item>, id: string)
    ensures id in View(items) <==> IndexOf(items, id).Some?
    ensures id in View(items) ==> View(items)[id] == Serialize(items[IndexOf(items, id).value])
  {
  }

  /** A replica that is current up to a revision is so up to any earlier one, whatever revision it claims. */
  lemma ConsistentEarlier(doc: Document, device: Device, revision: nat)
    requires Consistent(doc, device) && revision <= device.revision
    ensures Consistent(doc, device.(revision := revision))
  {
  }

  lemma {:induction false} ViewIsConsistent(doc: Document)
    requires Inv(doc)
    ensures Consistent(doc, Device(doc.revision, View(doc.items)))
  {
    forall i | 0 <= i < |doc.items|
      ensures doc.items[i].clientId in View(doc.items) && View(doc.items)[doc.items[i].clientId] == Serialize(doc.items[i])
    {
      IndexOfUnique(doc.items, i);
      ViewLookup(doc.items, doc.items[i].clientId);
    }
    forall id | id in View(doc.items) ensures IndexOf(doc.items, id).Some? {
      ViewLookup(doc.items, id);
    }
  }

  // ---- any number of devices, any interleaving ----

  datatype Device = Device(revision: nat, marks: map<string, Mark>)

  /** A fetch between its two reads: what the device asked for, and the document revision the first read saw. */
  datatype Fetch = Fetch(since: nat, revision: nat)

  /** `stored` says whether the document row exists; the first accepted push creates it. */
  datatype System = System(server: Document, stored: bool, devices: map<nat, Device>, fetching: map<nat, Fetch>)

  /** A device starts empty. It pushes its offline work, which is one transaction under the lock of the document, and the
      reply may be lost on the way; or it fetches, which is two queries without a lock, and may give a fetch up. */
  datatype Step =
    | Join(device: nat)
    | Push(device: nat, pageCount: int, upserts: seq<Upsert>, deletes: seq<string>, arrives: bool)
    | ReadRevision(device: nat)
    | ReadRows(device: nat)
    | GiveUp(device: nat)

  const Start := System(Empty, false, map[], map[])

  function Received(device: Device, revision: nat, changes: seq<Mark>): Device {
    Device(revision, Overlay(device.marks, changes))
  }

  function PushRequest(sys: System, push: Step): Request
    requires push.Push? && push.device in sys.devices
  {
    Request(push.pageCount, sys.devices[push.device].revision, push.upserts, push.deletes)
  }

  /** Whether the server accepts this push. */
  predicate Accepted(sys: System, step: Step) {
    step.Push? && step.device in sys.devices && Sync(sys.server, PushRequest(sys, step)).Success?
  }

  function Next(sys: System, step: Step): System {
    match step
    case Join(d) =>
      if d in sys.devices then sys else sys.(devices := sys.devices[d := Device(0, map[])])
    case Push(d, _, _, _, arrives) =>
      if d !in sys.devices then sys else
      (match Sync(sys.server, PushRequest(sys, step))
       case Failure(_) => sys
       case Success((server, reply)) =>
         var merged := Received(sys.devices[d], reply.revision, reply.changes);
         sys.(server := server, stored := true, devices := if arrives then sys.devices[d := merged] else sys.devices))
    case ReadRevision(d) =>
      if d !in sys.devices || d in sys.fetching then sys
      else if !sys.stored then sys.(devices := sys.devices[d := Received(sys.devices[d], 0, [])])
      else sys.(fetching := sys.fetching[d := Fetch(sys.devices[d].revision, sys.server.revision)])
    case ReadRows(d) =>
      if d !in sys.fetching || d !in sys.devices then sys else
      var fetch := sys.fetching[d];
      var merged := Received(sys.devices[d], fetch.revision, ChangesSince(sys.server.items, fetch.since));
      sys.(devices := sys.devices[d := merged], fetching := sys.fetching - {d})
    case GiveUp(d) => sys.(fetching := sys.fetching - {d})
  }

  function Execute(sys: System, steps: seq<Step>): System {
    if steps == [] then sys else Next(Execute(sys, steps[..|steps| - 1]), steps[|steps| - 1])
  }

  ghost predicate Replicas(server: Document, devices: map<nat, Device>) {
    forall d <- devices :: Consistent(server, devices[d])
  }

  predicate FetchesFit(fetching: map<nat, Fetch>, devices: map<nat, Device>, revision: nat) {
    forall d <- fetching ::
      d in devices && fetching[d].since <= devices[d].revision && fetching[d].revision <= revision
  }

  ghost predicate SystemInv(sys: System) {
    && Inv(sys.server)
    && (!sys.stored ==> sys.server == Empty)
    && Replicas(sys.server, sys.devices)
    && FetchesFit(sys.fetching, sys.devices, sys.server.revision)
  }

  ghost predicate InStep(sys: System, d: nat) {
    && d in sys.devices
    && sys.devices[d].revision == sys.server.revision
    && sys.devices[d].marks == View(sys.server.items)
  }

  /** A delta read from the server's rows now completes a replica, whatever older revision it is sent back with. */
  lemma MergeCompletes(doc: Document, device: Device, since: nat, revision: nat)
    requires Inv(doc) && Consistent(doc, device) && since <= device.revision && revision <= doc.revision
    ensures var merged := Received(device, revision, ChangesSince(doc.items, since));
            merged.marks == View(doc.items) && Consistent(doc, merged)
  {
    ConsistentEarlier(doc, device, since);
    DeltaCompletesTheReplica(doc, device.(revision := since));
    ViewIsConsistent(doc);
    ConsistentEarlier(doc, Device(doc.revision, View(doc.items)), revision);
  }

  lemma OthersStayConsistent(before: Document, after: Document, devices: map<nat, Device>)
    requires Inv(before) && Inv(after) && Evolves(before, after) && Replicas(before, devices)
    ensures Replicas(after, devices)
  {
    forall d | d in devices ensures Consistent(after, devices[d]) {
      ConsistencySurvivesOthers(before, after, devices[d]);
    }
  }

  lemma OneReplicaReplaced(doc: Document, devices: map<nat, Device>, d: nat, device: Device)
    requires Replicas(doc, devices) && Consistent(doc, device)
    ensures Replicas(doc, devices[d := device])
  {
  }

  lemma FetchesOutliveAPush(fetching: map<nat, Fetch>, devices: map<nat, Device>, d: nat, device: Device, before: nat,
                            after: nat)
    requires FetchesFit(fetching, devices, before) && before <= after
    requires d in devices && devices[d].revision <= device.revision
    ensures FetchesFit(fetching, devices, after) && FetchesFit(fetching, devices[d := device], after)
  {
  }

  /** The server and the replicas after an accepted push. */
  lemma {:induction false} PushedReplicas(sys: System, d: nat, request: Request)
    requires SystemInv(sys) && d in sys.devices && request.baseRevision == sys.devices[d].revision
    requires Sync(sys.server, request).Success?
    ensures var server := After(sys.server, request);
            var merged := Received(sys.devices[d], server.revision, ChangesSince(server.items, request.baseRevision));
            && Inv(server) && Evolves(sys.server, server)
            && Replicas(server, sys.devices) && Replicas(server, sys.devices[d := merged])
            && FetchesFit(sys.fetching, sys.devices, server.revision)
            && FetchesFit(sys.fetching, sys.devices[d := merged], server.revision)
            && merged == Device(server.revision, View(server.items))
  {
    var server, device := After(sys.server, request), sys.devices[d];
    var merged := Received(device, server.revision, ChangesSince(server.items, request.baseRevision));
    SyncKeeps(sys.server, request);
    OthersStayConsistent(sys.server, server, sys.devices);
    assert device.revision <= sys.server.revision <= server.revision by {
      assert Consistent(sys.server, device);
    }
    MergeCompletes(server, device, request.baseRevision, server.revision);
    OneReplicaReplaced(server, sys.devices, d, merged);
    FetchesOutliveAPush(sys.fetching, sys.devices, d, merged, sys.server.revision, server.revision);
  }

  lemma {:induction false} PushKeepsTheSystem(sys: System, push: Step)
    requires SystemInv(sys) && Accepted(sys, push)
    ensures SystemInv(Next(sys, push)) && Evolves(sys.server, Next(sys, push).server) && Next(sys, push).stored
    ensures push.arrives ==> InStep(Next(sys, push), push.device)
  {
    PushedReplicas(sys, push.device, PushRequest(sys, push));
  }

  /** The second read of a fetch gives the device the server's marks of that moment, with the revision of the first. */
  lemma {:induction false} ReadRowsKeepsTheSystem(sys: System, d: nat)
    requires SystemInv(sys)
    ensures var after := Next(sys, ReadRows(d));
            && SystemInv(after) && after.server == sys.server
            && (d in sys.fetching ==>
                  && d !in after.fetching
                  && after.devices == sys.devices[d := Device(sys.fetching[d].revision, View(sys.server.items))])
  {
    if d !in sys.fetching {
      return;
    }
    var fetch := sys.fetching[d];
    MergeCompletes(sys.server, sys.devices[d], fetch.since, fetch.revision);
    OneReplicaReplaced(sys.server, sys.devices, d,
                       Received(sys.devices[d], fetch.revision, ChangesSince(sys.server.items, fetch.since)));
  }

  /** The first read only notes what it saw; a document that does not exist yet is answered at once, with nothing. */
  lemma {:induction false} ReadRevisionKeepsTheSystem(sys: System, d: nat)
    requires SystemInv(sys)
    ensures var after := Next(sys, ReadRevision(d));
            && SystemInv(after) && after.server == sys.server
            && (d in sys.devices && d !in sys.fetching ==>
                  if sys.stored
                  then after.devices == sys.devices
                       && after.fetching == sys.fetching[d := Fetch(sys.devices[d].revision, sys.server.revision)]
                  else after.fetching == sys.fetching
                       && after.devices == sys.devices[d := Device(0, View(sys.server.items))])
  {
    if d in sys.devices && d !in sys.fetching && !sys.stored {
      MergeCompletes(Empty, sys.devices[d], sys.devices[d].revision, 0);
    }
  }

  lemma EvolvesToItself(doc: Document)
    ensures Evolves(doc, doc)
  {
  }

  lemma AnEmptyReplicaIsConsistent(doc: Document)
    requires Inv(doc)
    ensures Consistent(doc, Device(0, map[]))
  {
  }

  lemma {:induction false} JoinKeepsTheSystem(sys: System, d: nat)
    requires SystemInv(sys)
    ensures SystemInv(Next(sys, Join(d)))
  {
    if d !in sys.devices {
      AnEmptyReplicaIsConsistent(sys.server);
      OneReplicaReplaced(sys.server, sys.devices, d, Device(0, map[]));
    }
  }

  lemma {:induction false} OnlyPushesWrite(sys: System, step: Step)
    requires !step.Push? || !Accepted(sys, step)
    ensures Next(sys, step).server == sys.server && Next(sys, step).stored == sys.stored
    ensures step.Push? ==> Next(sys, step) == sys
    ensures step.GiveUp? ==> Next(sys, step) == sys.(fetching := sys.fetching - {step.device})
  {
  }

  lemma {:induction false} StepKeepsTheSystem(sys: System, step: Step)
    requires SystemInv(sys)
    ensures SystemInv(Next(sys, step)) && Evolves(sys.server, Next(sys, step).server)
    ensures sys.stored ==> Next(sys, step).stored
  {
    if Accepted(sys, step) {
      PushKeepsTheSystem(sys, step);
    } else {
      EvolvesToItself(sys.server);
      OnlyPushesWrite(sys, step);
      match step
      case Join(d) => JoinKeepsTheSystem(sys, d);
      case Push(_, _, _, _, _) =>
      case ReadRevision(d) => ReadRevisionKeepsTheSystem(sys, d);
      case ReadRows(d) => ReadRowsKeepsTheSystem(sys, d);
      case GiveUp(_) =>
    }
  }

  lemma {:induction false} ExecuteKeepsTheSystem(sys: System, steps: seq<Step>)
    requires SystemInv(sys)
    ensures SystemInv(Execute(sys, steps)) && Evolves(sys.server, Execute(sys, steps).server)
    ensures sys.stored ==> Execute(sys, steps).stored
  {
    if steps == [] {
      EvolvesToItself(sys.server);
    } else {
      var before := Execute(sys, steps[..|steps| - 1]);
      ExecuteKeepsTheSystem(sys, steps[..|steps| - 1]);
      StepKeepsTheSystem(before, steps[|steps| - 1]);
      EvolvesTransitive(sys.server, before.server, Execute(sys, steps).server);
    }
  }

  lemma {:induction false} DevicesStay(sys: System, steps: seq<Step>, d: nat)
    requires d in sys.devices
    ensures d in Execute(sys, steps).devices
  {
    if steps != [] {
      DevicesStay(sys, steps[..|steps| - 1], d);
    }
  }

  lemma SystemStaysConsistent(steps: seq<Step>)
    ensures SystemInv(Execute(Start, steps))
  {
    ExecuteKeepsTheSystem(Start, steps);
  }

  /** Convergence of pushes: in every interleaving of any number of devices, a device whose push is accepted and answered
      then holds exactly the server's marks at the server's revision. */
  lemma {:induction false} EveryAnsweredDeviceConverges(steps: seq<Step>, push: Step)
    requires Accepted(Execute(Start, steps), push) && push.arrives
    ensures InStep(Next(Execute(Start, steps), push), push.device)
  {
    SystemStaysConsistent(steps);
    PushKeepsTheSystem(Execute(Start, steps), push);
  }

  // ---- replies that arrive late ----

  /** The steps are all taken by other devices. */
  predicate ByOthers(steps: seq<Step>, d: nat) {
    forall k :: 0 <= k < |steps| ==> steps[k].device != d
  }

  lemma {:induction false} OthersLeaveTheDevice(sys: System, steps: seq<Step>, d: nat)
    requires d in sys.devices && ByOthers(steps, d)
    ensures d in Execute(sys, steps).devices && Execute(sys, steps).devices[d] == sys.devices[d]
    ensures d in Execute(sys, steps).fetching <==> d in sys.fetching
  {
    if steps != [] {
      OthersLeaveTheDevice(sys, steps[..|steps| - 1], d);
    }
  }

  lemma SameRevisionSameDocument(before: Document, after: Document)
    requires Inv(after) && Evolves(before, after) && before.revision == after.revision
    ensures before == after
  {
    assert before.items == after.items;
  }

  /** What the server answers to an accepted push, laid over what the device then holds. */
  function Answered(sys: System, push: Step, device: Device): Device
    requires Accepted(sys, push)
  {
    var (server, reply) := Sync(sys.server, PushRequest(sys, push)).value;
    Received(device, reply.revision, reply.changes)
  }

  /** The device waits, with the server's answer on its way. */
  lemma {:induction false} AnsweredIsTheCommittedView(sys: System, push: Step)
    requires SystemInv(sys) && Accepted(sys, push) && !push.arrives
    ensures var waiting := Next(sys, push);
            && SystemInv(waiting) && waiting.devices == sys.devices && waiting.fetching == sys.fetching
            && Answered(sys, push, sys.devices[push.device])
               == Device(waiting.server.revision, View(waiting.server.items))
  {
    PushKeepsTheSystem(sys, push);
    PushedReplicas(sys, push.device, PushRequest(sys, push));
  }

  lemma AnEarlierViewIsConsistent(earlier: Document, now: Document)
    requires Inv(earlier) && Inv(now) && Evolves(earlier, now)
    ensures Consistent(now, Device(earlier.revision, View(earlier.items)))
  {
    ViewIsConsistent(earlier);
    ConsistencySurvivesOthers(earlier, now, Device(earlier.revision, View(earlier.items)));
  }

  lemma OthersFetchesFit(fetching: map<nat, Fetch>, devices: map<nat, Device>, d: nat, device: Device, revision: nat)
    requires FetchesFit(fetching, devices, revision) && d !in fetching
    ensures FetchesFit(fetching, devices[d := device], revision)
  {
  }

  /** The view of an earlier moment may replace an idle device's replica at any later one. */
  lemma {:induction false} AnEarlierViewFits(earlier: Document, later: System, d: nat)
    requires Inv(earlier) && SystemInv(later) && Evolves(earlier, later.server)
    requires d in later.devices && d !in later.fetching
    ensures SystemInv(later.(devices := later.devices[d := Device(earlier.revision, View(earlier.items))]))
  {
    var view := Device(earlier.revision, View(earlier.items));
    AnEarlierViewIsConsistent(earlier, later.server);
    OneReplicaReplaced(later.server, later.devices, d, view);
    OthersFetchesFit(later.fetching, later.devices, d, view, later.server.revision);
  }

  lemma {:induction false} AnEarlierViewIsInStepIfNothingChanged(earlier: Document, later: System, d: nat)
    requires Inv(later.server) && Evolves(earlier, later.server)
    ensures var delivered := later.(devices := later.devices[d := Device(earlier.revision, View(earlier.items))]);
            InStep(delivered, d) <==> later.server == earlier
  {
    if earlier.revision == later.server.revision {
      SameRevisionSameDocument(earlier, later.server);
    }
  }

  /** A reply overtaken by the pushes of other devices: whenever it arrives, the device then holds exactly the server's
      marks and revision of the moment its push was committed, the system with it is one that every step keeps, and the
      device is in step exactly when nothing was applied in between. */
  lemma {:induction false} ALateReplyIsConsistent(steps: seq<Step>, push: Step, between: seq<Step>)
    requires Accepted(Execute(Start, steps), push) && !push.arrives && push.device !in Execute(Start, steps).fetching
    requires ByOthers(between, push.device)
    ensures var sys, d := Execute(Start, steps), push.device;
            var committed := Next(sys, push).server;
            var later := Execute(Next(sys, push), between);
            && d in later.devices
            && Answered(sys, push, later.devices[d]) == Device(committed.revision, View(committed.items))
            && var delivered := later.(devices := later.devices[d := Answered(sys, push, later.devices[d])]);
               SystemInv(delivered) && (InStep(delivered, d) <==> later.server == committed)
  {
    var sys, d := Execute(Start, steps), push.device;
    var waiting := Next(sys, push);
    SystemStaysConsistent(steps);
    AnsweredIsTheCommittedView(sys, push);
    ExecuteKeepsTheSystem(waiting, between);
    OthersLeaveTheDevice(waiting, between, d);
    AnEarlierViewFits(waiting.server, Execute(waiting, between), d);
    AnEarlierViewIsInStepIfNothingChanged(waiting.server, Execute(waiting, between), d);
  }

  // ---- fetches ----

  /** Device d neither finishes nor gives up its fetch in these steps; it and the others may do anything else. */
  predicate LeaveFetching(steps: seq<Step>, d: nat) {
    forall k :: 0 <= k < |steps| ==> steps[k] != ReadRows(d) && steps[k] != GiveUp(d)
  }

  lemma {:induction false} AFetchWaits(sys: System, steps: seq<Step>, d: nat)
    requires d in sys.fetching && LeaveFetching(steps, d)
    ensures d in Execute(sys, steps).fetching && Execute(sys, steps).fetching[d] == sys.fetching[d]
  {
    if steps != [] {
      AFetchWaits(sys, steps[..|steps| - 1], d);
    }
  }

  /** Convergence of fetches: whatever anyone does between the two reads, the device ends with exactly the server's marks
      of the second read and the server's revision of the first. That revision never runs ahead of the marks, so nothing
      is lost by the next delta, and the device is in step exactly when no operation was applied between the reads. */
  lemma {:induction false} EveryFetchConverges(steps: seq<Step>, d: nat, between: seq<Step>)
    requires var first := Execute(Start, steps); d in first.devices && d !in first.fetching && first.stored
    requires LeaveFetching(between, d)
    ensures var first := Execute(Start, steps);
            var last := Execute(Next(first, ReadRevision(d)), between);
            var after := Next(last, ReadRows(d));
            && after.server == last.server && d in after.devices
            && after.devices[d] == Device(first.server.revision, View(last.server.items))
            && first.server.revision <= last.server.revision
            && Consistent(after.server, after.devices[d])
            && (InStep(after, d) <==> last.server == first.server)
  {
    var first := Execute(Start, steps);
    var reading := Next(first, ReadRevision(d));
    var last := Execute(reading, between);
    SystemStaysConsistent(steps);
    StepKeepsTheSystem(first, ReadRevision(d));
    ExecuteKeepsTheSystem(reading, between);
    AFetchWaits(reading, between, d);
    ReadRowsKeepsTheSystem(last, d);
    if last.server.revision == first.server.revision {
      SameRevisionSameDocument(first.server, last.server);
    }
  }

  // ---- once nothing is applied any more ----

  /** No operation is applied any more: pushes are refused or apply nothing. The reads of any number of fetches may still
      interleave. */
  predicate Quiet(sys: System, steps: seq<Step>) {
    forall k :: 0 <= k < |steps| ==> Unapplied(Execute(sys, steps[..k]), steps[k])
  }

  predicate Unapplied(sys: System, step: Step) {
    Next(sys, step).server == sys.server
  }

  /** The step ends a fetch of device d. */
  predicate Completes(sys: System, step: Step, d: nat) {
    || (step == ReadRows(d) && d in sys.fetching)
    || (step == ReadRevision(d) && d in sys.devices && d !in sys.fetching && !sys.stored)
  }

  predicate HasFetched(sys: System, steps: seq<Step>, d: nat) {
    && steps != []
    && (HasFetched(sys, steps[..|steps| - 1], d)
        || Completes(Execute(sys, steps[..|steps| - 1]), steps[|steps| - 1], d))
  }

  /** A fetch of device d, if one is under way, has seen the revision the server still has. */
  predicate SawTheLatest(sys: System, d: nat) {
    d in sys.fetching ==> sys.fetching[d].revision == sys.server.revision
  }

  lemma {:induction false} FirstReadsKeepInStep(sys: System, e: nat, d: nat)
    requires SystemInv(sys) && SawTheLatest(sys, d)
    ensures SawTheLatest(Next(sys, ReadRevision(e)), d)
    ensures InStep(sys, d) || Completes(sys, ReadRevision(e), d) ==> InStep(Next(sys, ReadRevision(e)), d)
  {
    ReadRevisionKeepsTheSystem(sys, e);
  }

  lemma {:induction false} SecondReadsKeepInStep(sys: System, e: nat, d: nat)
    requires SystemInv(sys) && SawTheLatest(sys, d)
    ensures SawTheLatest(Next(sys, ReadRows(e)), d)
    ensures InStep(sys, d) || Completes(sys, ReadRows(e), d) ==> InStep(Next(sys, ReadRows(e)), d)
  {
    ReadRowsKeepsTheSystem(sys, e);
  }

  lemma {:induction false} PushesLeaveTheRest(sys: System, push: Step, d: nat)
    requires push.Push?
    ensures Next(sys, push).fetching == sys.fetching
    ensures d in sys.devices && (d != push.device || !push.arrives) ==>
              d in Next(sys, push).devices && Next(sys, push).devices[d] == sys.devices[d]
  {
  }

  lemma {:induction false} UnappliedPushesKeepInStep(sys: System, push: Step, d: nat)
    requires SystemInv(sys) && Accepted(sys, push) && Unapplied(sys, push) && SawTheLatest(sys, d)
    ensures SawTheLatest(Next(sys, push), d)
    ensures InStep(sys, d) ==> InStep(Next(sys, push), d)
  {
    PushesLeaveTheRest(sys, push, d);
    PushKeepsTheSystem(sys, push);
  }

  lemma {:induction false} QuietStepsKeepInStep(sys: System, step: Step, d: nat)
    requires SystemInv(sys) && Unapplied(sys, step) && SawTheLatest(sys, d)
    ensures SawTheLatest(Next(sys, step), d)
    ensures InStep(sys, d) || Completes(sys, step, d) ==> InStep(Next(sys, step), d)
  {
    if Accepted(sys, step) {
      UnappliedPushesKeepInStep(sys, step, d);
      return;
    }
    OnlyPushesWrite(sys, step);
    match step
    case Join(_) =>
    case Push(_, _, _, _, _) =>
    case ReadRevision(e) => FirstReadsKeepInStep(sys, e, d);
    case ReadRows(e) => SecondReadsKeepInStep(sys, e, d);
    case GiveUp(_) =>
  }

  lemma QuietPrefix(sys: System, steps: seq<Step>)
    requires steps != [] && Quiet(sys, steps)
    ensures Quiet(sys, steps[..|steps| - 1])
    ensures Unapplied(Execute(sys, steps[..|steps| - 1]), steps[|steps| - 1])
  {
    var init := steps[..|steps| - 1];
    assert forall k :: 0 <= k < |init| ==> init[..k] == steps[..k];
  }

  lemma {:induction false} QuietRunsWriteNothing(sys: System, steps: seq<Step>)
    requires Quiet(sys, steps)
    ensures Execute(sys, steps).server == sys.server
  {
    if steps != [] {
      QuietPrefix(sys, steps);
      QuietRunsWriteNothing(sys, steps[..|steps| - 1]);
    }
  }

  lemma {:induction false} QuietRunsKeepInStep(sys: System, steps: seq<Step>, d: nat)
    requires SystemInv(sys) && Quiet(sys, steps) && d !in sys.fetching
    ensures Execute(sys, steps).server == sys.server && SawTheLatest(Execute(sys, steps), d)
    ensures HasFetched(sys, steps, d) ==> InStep(Execute(sys, steps), d)
  {
    if steps != [] {
      QuietPrefix(sys, steps);
      QuietRunsKeepInStep(sys, steps[..|steps| - 1], d);
      ExecuteKeepsTheSystem(sys, steps[..|steps| - 1]);
      QuietStepsKeepInStep(Execute(sys, steps[..|steps| - 1]), steps[|steps| - 1], d);
    }
  }

  /** Once nothing is applied any more, every device that then starts and completes a fetch is in step with the server from there on,
      however the reads of the devices interleave; so all of them agree with each other. */
  lemma {:induction false} QuiescentReplicasAgree(steps: seq<Step>, quiet: seq<Step>)
    requires Quiet(Execute(Start, steps), quiet)
    ensures var sys, now := Execute(Start, steps), Execute(Execute(Start, steps), quiet);
            && now.server == sys.server
            && forall d :: d !in sys.fetching && HasFetched(sys, quiet, d) ==> InStep(now, d)
  {
    var sys := Execute(Start, steps);
    SystemStaysConsistent(steps);
    QuietRunsWriteNothing(sys, quiet);
    forall d | d !in sys.fetching && HasFetched(sys, quiet, d) ensures InStep(Execute(sys, quiet), d) {
      QuietRunsKeepInStep(sys, quiet, d);
    }
  }

  /** A chain of deltas, each asked for from the revision the previous one returned, tells a device exactly what one delta
      from revision 0 would, whatever other devices pushed in between. */
  lemma {:induction false} ChainedDeltasEqualOneFetch(steps: seq<Step>, d: nat)
    requires d in Execute(Start, steps).fetching
    ensures var sys := Execute(Start, steps);
            && d in Next(sys, ReadRows(d)).devices
            && Next(sys, ReadRows(d)).devices[d].marks == Overlay(map[], ChangesSince(sys.server.items, 0))
  {
    var sys := Execute(Start, steps);
    SystemStaysConsistent(steps);
    ReadRowsKeepsTheSystem(sys, d);
    DeltaCompletesTheReplica(sys.server, Device(0, map[]));
  }
}
