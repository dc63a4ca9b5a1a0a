/** Message ticks and unread counters of one group, derived from one delivered/read cursor per member. */
module ChatReceipts {
  import opened Numbers
  import opened Sums

  datatype Message = Message(id: nat, sender: nat, deleted: bool)
  datatype Cursor = Cursor(delivered: nat, read: nat)
  datatype Row = Row(user: nat, cursor: Cursor)
  datatype Chat = Chat(messages: seq<Message>, rows: seq<Row>)

  /** What a client claims to have received and read; any integers. */
  datatype Receipt = Receipt(delivered: int, read: int)

  /** The highest message id, deleted messages included; 0 in an empty chat. */
  function Latest(messages: seq<Message>): nat {
    if messages == [] then 0
    else Max(Latest(messages[..|messages| - 1]), messages[|messages| - 1].id)
  }

  lemma {:induction false} LatestIsTheMaximum(messages: seq<Message>)
    ensures forall i :: 0 <= i < |messages| ==> messages[i].id <= Latest(messages)
    ensures Latest(messages) == 0 || exists i :: 0 <= i < |messages| && messages[i].id == Latest(messages)
  {
    if messages != [] {
      var earlier := messages[..|messages| - 1];
      LatestIsTheMaximum(earlier);
      assert forall i :: 0 <= i < |earlier| ==> earlier[i] == messages[i];
    }
  }

  function Clamp(claimed: int, latest: nat): nat {
    if claimed <= 0 then 0 else if claimed > latest then latest else claimed
  }

  function Move(cursor: Cursor, latest: nat, receipt: Receipt): Cursor {
    var read := Max(cursor.read, Clamp(receipt.read, latest));
    Cursor(Max(cursor.delivered, Max(Clamp(receipt.delivered, latest), read)), read)
  }

  function RowOf(rows: seq<Row>, user: nat): nat {
    First(rows, (row: Row) => row.user == user)
  }

  function CursorOf(rows: seq<Row>, user: nat): Cursor {
    var i := RowOf(rows, user);
    if i < |rows| then rows[i].cursor else Cursor(0, 0)
  }

  /** The member's row is created on first use; a member without access changes nothing. */
  function Update(chat: Chat, user: nat, receipt: Receipt, mayAccess: bool): Chat {
    if !mayAccess then chat
    else
      var i := RowOf(chat.rows, user);
      var row := Row(user, Move(CursorOf(chat.rows, user), Latest(chat.messages), receipt));
      chat.(rows := if i < |chat.rows| then chat.rows[i := row] else chat.rows + [row])
  }

  // ---- runs ----

  datatype Step =
    | Post(message: Message)
    | Delete(i: nat)
    | Acknowledge(user: nat, receipt: Receipt, mayAccess: bool)

  function Next(chat: Chat, step: Step): Chat {
    match step
    case Post(message) =>
      // Ids are fresh; a message becomes visible when its transaction commits, so ids need not arrive in order.
      if message.id == 0 || exists i :: 0 <= i < |chat.messages| && chat.messages[i].id == message.id then chat
      else chat.(messages := chat.messages + [message])
    case Delete(i) =>
      if i < |chat.messages| then chat.(messages := chat.messages[i := chat.messages[i].(deleted := true)]) else chat
    case Acknowledge(user, receipt, mayAccess) => Update(chat, user, receipt, mayAccess)
  }

  function Run(chat: Chat, steps: seq<Step>): Chat {
    if steps == [] then chat else Next(Run(chat, steps[..|steps| - 1]), steps[|steps| - 1])
  }

  const Empty := Chat([], [])

  predicate Within(cursor: Cursor, latest: nat) {
    0 <= cursor.read <= cursor.delivered <= latest
  }

  ghost predicate Inv(chat: Chat) {
    && (forall i :: 0 <= i < |chat.rows| ==> Within(chat.rows[i].cursor, Latest(chat.messages)))
    && (forall i, j :: 0 <= i < j < |chat.rows| ==> chat.rows[i].user != chat.rows[j].user)
  }

  predicate Below(a: Cursor, b: Cursor) {
    a.delivered <= b.delivered && a.read <= b.read
  }

  /** Rows are never lost and cursors never move back. */
  ghost predicate Advances(before: Chat, after: Chat) {
    && Latest(before.messages) <= Latest(after.messages)
    && |before.rows| <= |after.rows|
    && (forall i :: 0 <= i < |before.rows| ==>
          after.rows[i].user == before.rows[i].user && Below(before.rows[i].cursor, after.rows[i].cursor))
  }

  lemma {:induction false} LatestIgnoresDeletion(messages: seq<Message>, i: nat)
    requires i < |messages|
    ensures Latest(messages[i := messages[i].(deleted := true)]) == Latest(messages)
  {
    var marked, n := messages[i := messages[i].(deleted := true)], |messages| - 1;
    if i < n {
      LatestIgnoresDeletion(messages[..n], i);
      assert marked[..n] == messages[..n][i := messages[i].(deleted := true)];
    } else {
      assert marked[..n] == messages[..n];
    }
  }

  lemma StepKeepsCursors(chat: Chat, step: Step)
    requires Inv(chat)
    ensures Inv(Next(chat, step)) && Advances(chat, Next(chat, step))
  {
    match step
    case Post(message) =>
      assert (chat.messages + [message])[..|chat.messages|] == chat.messages;
    case Delete(i) =>
      if i < |chat.messages| {
        LatestIgnoresDeletion(chat.messages, i);
      }
    case Acknowledge(user, receipt, mayAccess) =>
      assert Within(CursorOf(chat.rows, user), Latest(chat.messages));
  }

  lemma {:induction false} RunKeepsCursors(chat: Chat, steps: seq<Step>)
    requires Inv(chat)
    ensures Inv(Run(chat, steps)) && Advances(chat, Run(chat, steps))
  {
    if steps != [] {
      RunKeepsCursors(chat, steps[..|steps| - 1]);
      StepKeepsCursors(Run(chat, steps[..|steps| - 1]), steps[|steps| - 1]);
    }
  }

  /** In every reachable chat each member has one row, and read <= delivered <= the latest message id. */
  lemma ReachableCursorsAreOrdered(steps: seq<Step>)
    ensures Inv(Run(Empty, steps))
  {
    RunKeepsCursors(Empty, steps);
  }

  // ---- one receipt ----

  /** A cursor moved by a claim: nothing at or below it moves it, a claim within the chat moves it to exactly that message,
      and a claim beyond the chat to the latest message. */
  predicate Follows(was: nat, claimed: int, latest: nat, now: nat) {
    && (claimed <= was ==> now == was)
    && (was < claimed <= latest ==> now as int == claimed)
    && (latest < claimed ==> now == latest)
  }

  /** A receipt moves the read cursor by the message it says was read, and the delivered cursor by the later of the two it
      names. */
  lemma AReceiptMovesExactlyAsFar(cursor: Cursor, latest: nat, receipt: Receipt)
    requires cursor.read <= cursor.delivered <= latest
    ensures var now := Move(cursor, latest, receipt);
            && Follows(cursor.read, receipt.read, latest, now.read)
            && Follows(cursor.delivered, if receipt.delivered >= receipt.read then receipt.delivered else receipt.read,
                       latest, now.delivered)
  {
  }

  /** In every reachable chat, a receipt of a member with access moves that member's cursors exactly as far as it says,
      nobody else's, and no message; without access it changes nothing. */
  lemma AReceiptMovesItsMember(steps: seq<Step>, user: nat, receipt: Receipt, other: nat)
    ensures var chat := Run(Empty, steps);
            var was, now := CursorOf(chat.rows, user), CursorOf(Update(chat, user, receipt, true).rows, user);
            var claimed := if receipt.delivered >= receipt.read then receipt.delivered else receipt.read;
            && Follows(was.read, receipt.read, Latest(chat.messages), now.read)
            && Follows(was.delivered, claimed, Latest(chat.messages), now.delivered)
            && Update(chat, user, receipt, true).messages == chat.messages
            && (other != user ==>
                  CursorOf(Update(chat, user, receipt, true).rows, other) == CursorOf(chat.rows, other))
            && Update(chat, user, receipt, false) == chat
  {
    var chat := Run(Empty, steps);
    ReachableCursorsAreOrdered(steps);
    OwnRowMoves(chat, user, receipt);
    AReceiptMovesExactlyAsFar(CursorOf(chat.rows, user), Latest(chat.messages), receipt);
    if other != user {
      OtherRowsStay(chat, user, receipt, other);
    }
  }

  /** Whatever the receipt, the messages after the one it says was read stay unread, and the others' messages up to it are
      read. */
  lemma AReceiptReadsUpToItsMessage(steps: seq<Step>, user: nat, receipt: Receipt, m: Message)
    requires m in Run(Empty, steps).messages
    ensures var chat := Run(Empty, steps);
            var was, now := CursorOf(chat.rows, user).read, CursorOf(Update(chat, user, receipt, true).rows, user).read;
            && (m.id > receipt.read ==> (m.id > now <==> m.id > was))
            && (m.id <= receipt.read ==> m.id <= now)
  {
    var chat := Run(Empty, steps);
    AReceiptMovesItsMember(steps, user, receipt, user);
    LatestIsTheMaximum(chat.messages);
  }

  // ---- confluence ----

  /** The cursor is as far as the receipt says, or as far as the chat goes. */
  predicate Honours(cursor: Cursor, receipt: Receipt, latest: nat) {
    && (receipt.read <= cursor.read || latest <= cursor.read)
    && (receipt.delivered <= cursor.delivered || latest <= cursor.delivered)
    && (receipt.read <= cursor.delivered || latest <= cursor.delivered)
  }

  lemma HonoursIsAbove(cursor: Cursor, receipt: Receipt, latest: nat)
    ensures Honours(cursor, receipt, latest) <==> Below(Honouring(receipt, latest), cursor)
  {
  }

  function Honouring(receipt: Receipt, latest: nat): Cursor {
    var read := Clamp(receipt.read, latest);
    Cursor(Max(Clamp(receipt.delivered, latest), read), read)
  }

  function AfterAll(cursor: Cursor, latest: nat, receipts: seq<Receipt>): Cursor {
    if receipts == [] then cursor
    else Move(AfterAll(cursor, latest, receipts[..|receipts| - 1]), latest, receipts[|receipts| - 1])
  }

  predicate IsBound(bound: Cursor, cursor: Cursor, latest: nat, receipts: seq<Receipt>) {
    && Below(cursor, bound)
    && (forall i :: 0 <= i < |receipts| ==> Honours(bound, receipts[i], latest))
  }

  /** The receipts of a member move the cursor to the least one that honours them all. */
  lemma {:induction false} ReceiptsJoin(cursor: Cursor, latest: nat, receipts: seq<Receipt>)
    requires cursor.read <= cursor.delivered
    ensures var joined := AfterAll(cursor, latest, receipts);
            && joined.read <= joined.delivered
            && IsBound(joined, cursor, latest, receipts)
            && (forall bound :: IsBound(bound, cursor, latest, receipts) ==> Below(joined, bound))
  {
    if receipts != [] {
      var n := |receipts| - 1;
      ReceiptsJoin(cursor, latest, receipts[..n]);
      var before, joined := AfterAll(cursor, latest, receipts[..n]), AfterAll(cursor, latest, receipts);
      assert Below(before, joined) && Below(Honouring(receipts[n], latest), joined);
      HonoursIsAbove(joined, receipts[n], latest);
      forall i | 0 <= i < n ensures Honours(joined, receipts[i], latest) {
        assert receipts[..n][i] == receipts[i];
      }
      forall bound | IsBound(bound, cursor, latest, receipts) ensures Below(joined, bound) {
        assert IsBound(bound, cursor, latest, receipts[..n]);
        HonoursIsAbove(bound, receipts[n], latest);
      }
    }
  }

  predicate SameReceipts(xs: seq<Receipt>, ys: seq<Receipt>) {
    (forall x <- xs :: x in ys) && (forall y <- ys :: y in xs)
  }

  /** Any order, any repetition: the same receipts give the same cursors. */
  lemma ReceiptsAreConfluent(cursor: Cursor, latest: nat, xs: seq<Receipt>, ys: seq<Receipt>)
    requires cursor.read <= cursor.delivered && SameReceipts(xs, ys)
    ensures AfterAll(cursor, latest, xs) == AfterAll(cursor, latest, ys)
  {
    ReceiptsJoin(cursor, latest, xs);
    ReceiptsJoin(cursor, latest, ys);
    forall i | 0 <= i < |xs| ensures Honours(AfterAll(cursor, latest, ys), xs[i], latest) {
      assert xs[i] in ys;
    }
    forall i | 0 <= i < |ys| ensures Honours(AfterAll(cursor, latest, xs), ys[i], latest) {
      assert ys[i] in xs;
    }
    assert IsBound(AfterAll(cursor, latest, ys), cursor, latest, xs);
    assert IsBound(AfterAll(cursor, latest, xs), cursor, latest, ys);
  }

  predicate OnlyAcknowledges(steps: seq<Step>) {
    forall i :: 0 <= i < |steps| ==> steps[i].Acknowledge?
  }

  function ReceiptsOf(steps: seq<Step>, user: nat): seq<Receipt>
    requires OnlyAcknowledges(steps)
  {
    if steps == [] then []
    else
      var last := steps[|steps| - 1];
      ReceiptsOf(steps[..|steps| - 1], user) + if last.user == user && last.mayAccess then [last.receipt] else []
  }

  lemma OtherRowsStay(chat: Chat, sender: nat, receipt: Receipt, user: nat)
    requires sender != user
    ensures CursorOf(Update(chat, sender, receipt, true).rows, user) == CursorOf(chat.rows, user)
  {
    var after, i := Update(chat, sender, receipt, true).rows, RowOf(chat.rows, user);
    assert forall j :: 0 <= j < |chat.rows| ==> after[j].user == chat.rows[j].user;
    var k := RowOf(after, user);
    assert i < |chat.rows| ==> after[i].user == user;
    assert k < |after| ==> after[k].user == user;
  }

  lemma TheFirstRowIsFound(rows: seq<Row>, user: nat, i: nat)
    requires i < |rows| && rows[i].user == user && forall j :: 0 <= j < i ==> rows[j].user != user
    ensures CursorOf(rows, user) == rows[i].cursor
  {
  }

  lemma OwnRowMoves(chat: Chat, user: nat, receipt: Receipt)
    ensures CursorOf(Update(chat, user, receipt, true).rows, user)
         == Move(CursorOf(chat.rows, user), Latest(chat.messages), receipt)
  {
    var i := RowOf(chat.rows, user);
    TheFirstRowIsFound(Update(chat, user, receipt, true).rows, user, i);
  }

  lemma {:induction false} AcknowledgementsMoveOneCursorEach(chat: Chat, steps: seq<Step>, user: nat)
    requires OnlyAcknowledges(steps)
    ensures Run(chat, steps).messages == chat.messages
    ensures CursorOf(Run(chat, steps).rows, user)
         == AfterAll(CursorOf(chat.rows, user), Latest(chat.messages), ReceiptsOf(steps, user))
  {
    if steps != [] {
      var n := |steps| - 1;
      AcknowledgementsMoveOneCursorEach(chat, steps[..n], user);
      var last, receipts := steps[n], ReceiptsOf(steps[..n], user);
      assert (receipts + [last.receipt])[..|receipts|] == receipts && receipts + [] == receipts;
      if last.mayAccess && last.user == user {
        OwnRowMoves(Run(chat, steps[..n]), user, last.receipt);
      } else if last.mayAccess {
        OtherRowsStay(Run(chat, steps[..n]), last.user, last.receipt, user);
      }
    }
  }

  /** However the members' receipts are reordered, repeated and interleaved between two messages, every member ends with
      the same cursors. */
  lemma InterleavedReceiptsAreConfluent(before: seq<Step>, xs: seq<Step>, ys: seq<Step>, user: nat)
    requires OnlyAcknowledges(xs) && OnlyAcknowledges(ys)
    requires SameReceipts(ReceiptsOf(xs, user), ReceiptsOf(ys, user))
    ensures var chat := Run(Empty, before); CursorOf(Run(chat, xs).rows, user) == CursorOf(Run(chat, ys).rows, user)
  {
    var chat := Run(Empty, before);
    ReachableCursorsAreOrdered(before);
    AcknowledgementsMoveOneCursorEach(chat, xs, user);
    AcknowledgementsMoveOneCursorEach(chat, ys, user);
    ReceiptsAreConfluent(CursorOf(chat.rows, user), Latest(chat.messages), ReceiptsOf(xs, user), ReceiptsOf(ys, user));
  }

  // ---- ticks ----

  datatype Tick = Sent | Delivered | Read
  datatype Delivery = Delivery(state: Tick, deliveredCount: int, readCount: int, recipients: int)

  function HasIt(id: nat, sender: nat, row: Row): int {
    if row.user != sender && row.cursor.delivered >= id then 1 else 0
  }

  function HasReadIt(id: nat, sender: nat, row: Row): int {
    if row.user != sender && row.cursor.read >= id then 1 else 0
  }

  function DeliveryFor(id: nat, sender: nat, rows: seq<Row>, members: nat): Delivery {
    var delivered, read := Total(rows, row => HasIt(id, sender, row)), Total(rows, row => HasReadIt(id, sender, row));
    Delivery(if read != 0 then Read else if delivered != 0 then Delivered else Sent, delivered, read, Max(members - 1, 0))
  }

  lemma {:induction false} SomeoneCounts(rows: seq<Row>, weight: Row -> int)
    requires forall row :: 0 <= weight(row) <= 1
    ensures 0 <= Total(rows, weight) <= |rows|
    ensures Total(rows, weight) != 0 <==> exists i :: 0 <= i < |rows| && weight(rows[i]) == 1
  {
    if rows != [] {
      var n := |rows| - 1;
      SomeoneCounts(rows[..n], weight);
      if i :| 0 <= i < |rows| && weight(rows[i]) == 1 && i < n {
        assert weight(rows[..n][i]) == 1;
      }
    }
  }

  /** A row with at least the weight at every place, and perhaps more rows, weighs at least as much. */
  lemma {:induction false} MoreRowsCountMore(before: seq<Row>, after: seq<Row>, light: Row -> int, heavy: Row -> int)
    requires |before| <= |after| && forall row :: 0 <= heavy(row)
    requires forall i :: 0 <= i < |before| ==> light(before[i]) <= heavy(after[i])
    ensures Total(before, light) <= Total(after, heavy)
    decreases |after|
  {
    if |before| < |after| {
      MoreRowsCountMore(before, after[..|after| - 1], light, heavy);
    } else if before != [] {
      MoreRowsCountMore(before[..|before| - 1], after[..|after| - 1], light, heavy);
    }
  }

  /** What each tick means, and that nobody reads what they do not have. */
  lemma TicksMeanWhatTheyShow(steps: seq<Step>, id: nat, sender: nat, members: nat)
    ensures var rows := Run(Empty, steps).rows;
            var shown := DeliveryFor(id, sender, rows, members);
            && 0 <= shown.readCount <= shown.deliveredCount <= |rows|
            && (shown.state.Read? <==> exists i :: 0 <= i < |rows| && rows[i].user != sender && rows[i].cursor.read >= id)
            && (!shown.state.Sent? <==>
                  exists i :: 0 <= i < |rows| && rows[i].user != sender && rows[i].cursor.delivered >= id)
  {
    var rows := Run(Empty, steps).rows;
    ReachableCursorsAreOrdered(steps);
    var has, readers := row => HasIt(id, sender, row), row => HasReadIt(id, sender, row);
    SomeoneCounts(rows, has);
    SomeoneCounts(rows, readers);
    MoreRowsCountMore(rows, rows, readers, has);
    assert forall i :: 0 <= i < |rows| && has(rows[i]) == 1 ==>
             rows[i].user != sender && rows[i].cursor.delivered >= id;
    assert forall i :: 0 <= i < |rows| && rows[i].user != sender && rows[i].cursor.delivered >= id ==> has(rows[i]) == 1;
    assert forall i :: 0 <= i < |rows| && readers(rows[i]) == 1 ==> rows[i].user != sender && rows[i].cursor.read >= id;
    assert forall i :: 0 <= i < |rows| && rows[i].user != sender && rows[i].cursor.read >= id ==> readers(rows[i]) == 1;
  }

  /** The counts are exactly the other members who have, and who have read, the message; the recipients are everybody but
      one. */
  lemma CountsAreExact(rows: seq<Row>, id: nat, sender: nat, members: nat)
    ensures var shown := DeliveryFor(id, sender, rows, members);
            && shown.deliveredCount
               == |set i: nat | i < |rows| && rows[i].user != sender && rows[i].cursor.delivered >= id|
            && shown.readCount == |set i: nat | i < |rows| && rows[i].user != sender && rows[i].cursor.read >= id|
            && shown.recipients == (if members == 0 then 0 else members - 1)
  {
    var has, readers := row => HasIt(id, sender, row), row => HasReadIt(id, sender, row);
    TotalCounts(rows, has, set i: nat | i < |rows| && rows[i].user != sender && rows[i].cursor.delivered >= id);
    TotalCounts(rows, readers, set i: nat | i < |rows| && rows[i].user != sender && rows[i].cursor.read >= id);
  }

  function Rank(tick: Tick): nat {
    match tick
    case Sent => 0
    case Delivered => 1
    case Read => 2
  }

  /** Whatever happens in the chat, a message's tick and its two counts never go back. */
  lemma TicksNeverGoBack(steps: seq<Step>, more: seq<Step>, id: nat, sender: nat, members: nat, membersLater: nat)
    ensures var earlier := DeliveryFor(id, sender, Run(Empty, steps).rows, members);
            var later := DeliveryFor(id, sender, Run(Run(Empty, steps), more).rows, membersLater);
            && earlier.deliveredCount <= later.deliveredCount && earlier.readCount <= later.readCount
            && Rank(earlier.state) <= Rank(later.state)
  {
    var before := Run(Empty, steps);
    var after := Run(before, more);
    ReachableCursorsAreOrdered(steps);
    RunKeepsCursors(before, more);
    var has, readers := row => HasIt(id, sender, row), row => HasReadIt(id, sender, row);
    SomeoneCounts(before.rows, has);
    SomeoneCounts(before.rows, readers);
    MoreRowsCountMore(before.rows, after.rows, has, has);
    MoreRowsCountMore(before.rows, after.rows, readers, readers);
  }

  // ---- unread counters ----

  function IsUnread(m: Message, user: nat, read: nat): int {
    if !m.deleted && m.id > read && m.sender != user then 1 else 0
  }

  function Unread(messages: seq<Message>, user: nat, read: nat): int {
    Total(messages, m => IsUnread(m, user, read))
  }

  /** The counter is exactly the others' live messages after the cursor. */
  lemma UnreadIsExact(messages: seq<Message>, user: nat, read: nat)
    ensures Unread(messages, user, read)
         == |set i: nat | i < |messages| && !messages[i].deleted && messages[i].sender != user && messages[i].id > read|
  {
    var unread := m => IsUnread(m, user, read);
    TotalCounts(messages, unread,
                set i: nat | i < |messages| && !messages[i].deleted && messages[i].sender != user && messages[i].id > read);
  }

  function NewlyRead(m: Message, user: nat, from: nat, to: nat): int {
    if !m.deleted && from < m.id <= to && m.sender != user then 1 else 0
  }

  /** A receipt takes off the counter exactly the others' live messages it moves past; at the latest message nothing is
      left. */
  lemma ReceiptsSettleTheUnreadCount(steps: seq<Step>, user: nat, receipt: Receipt)
    ensures var chat := Run(Empty, steps);
            var read := CursorOf(chat.rows, user).read;
            var now := CursorOf(Update(chat, user, receipt, true).rows, user).read;
            && read <= now
            && Unread(chat.messages, user, read)
               == Unread(chat.messages, user, now) + Total(chat.messages, m => NewlyRead(m, user, read, now))
            && (receipt.read >= Latest(chat.messages) ==> Unread(chat.messages, user, now) == 0)
  {
    var chat := Run(Empty, steps);
    var read := CursorOf(chat.rows, user).read;
    OwnRowMoves(chat, user, receipt);
    ReachableCursorsAreOrdered(steps);
    var now := CursorOf(Update(chat, user, receipt, true).rows, user).read;
    TotalSplit(chat.messages, m => IsUnread(m, user, read), m => IsUnread(m, user, now),
               m => NewlyRead(m, user, read, now));
    if receipt.read >= Latest(chat.messages) {
      LatestIsTheMaximum(chat.messages);
      TotalZero(chat.messages, m => IsUnread(m, user, now));
    }
  }

  /** The member's row, as the service updates it under its lock. */
  class GroupReadState {
    var deliveredUpTo: nat
    var readUpTo: nat

    constructor ()
      ensures View() == Cursor(0, 0)
    {
      deliveredUpTo, readUpTo := 0, 0;
    }

    ghost function View(): Cursor
      reads this
    {
      Cursor(deliveredUpTo, readUpTo)
    }

    /** `saved` tells whether the row was written and the other members were told. */
    method Update(latest: nat, delivered: int, read: int) returns (saved: bool)
      modifies this
      ensures View() == Move(old(View()), latest, Receipt(delivered, read))
      ensures saved <==> View() != old(View())
    {
      var clampedDelivered := Clamp(delivered, latest);
      var clampedRead := Clamp(read, latest);
      var newRead := Max(readUpTo, clampedRead);
      var newDelivered := Max(deliveredUpTo, Max(clampedDelivered, newRead));
      saved := newRead != readUpTo || newDelivered != deliveredUpTo;
      if saved {
        readUpTo := newRead;
        deliveredUpTo := newDelivered;
      }
    }
  }
}
