/** One WebSocket of the group chat: the frame limiter in front, the cached authorization behind it, and what each
    frame or push is then allowed to do. */
module ChatConsumer {
  import opened ChatBucket
  import Tickets = ChatTickets
  import opened Wrappers

  type Directory = Tickets.Directory

  const AUTHORIZATION_TTL := 20.0
  const UNAUTHENTICATED := 4401
  const FORBIDDEN := 4403

  /** What the socket was accepted for. A socket without a session version skips that comparison. */
  datatype Session = Session(userId: Option<nat>, sessionVersion: Option<nat>, groupId: nat)

  function AccessCloseCode(db: Directory, who: Session): Option<int> {
    if who.userId.None? || who.userId.value !in db.users || !db.users[who.userId.value].active then
      Some(UNAUTHENTICATED)
    else if who.sessionVersion.Some? && db.users[who.userId.value].sessionVersion != who.sessionVersion.value then
      Some(UNAUTHENTICATED)
    else if who.groupId !in db.liveGroups || (who.userId.value, who.groupId) !in db.mayAccess then
      Some(FORBIDDEN)
    else
      None
  }

  predicate Granted(db: Directory, who: Session) {
    AccessCloseCode(db, who).None?
  }

  /** The moments of one event, in order: the limiter reads the clock, a refused frame reads it again, the cache is
      consulted, the database is read, the clock is read for the new expiry, and the effect happens. */
  datatype Clock = Clock(taken: real, refused: real, consulted: real, checked: real, primed: real, acted: real)

  predicate Ordered(c: Clock) {
    0.0 <= c.taken <= c.refused <= c.consulted <= c.checked <= c.primed <= c.acted
  }

  /** A frame after its size and shape have been looked at. */
  datatype Payload =
    | Binary | TooLarge | BadJson | NotAnObject | UnknownType
    | Typing | Presence | Receipt(numeric: bool) | Message(validContent: bool)

  /** `withinQuota` is the answer of the shared per-user counter, `stored` whether the database write goes through. */
  datatype Event =
    | Connect(clock: Clock)
    | Frame(payload: Payload, withinQuota: bool, stored: bool, clock: Clock)
    | Push(clock: Clock)

  datatype ErrorCode =
    | RateLimited | UnsupportedPayload | PayloadTooLarge | InvalidJson | InvalidPayload | UnknownEvent
    | InvalidContent | MessageRejected

  datatype Effect =
    | Nothing | Error(code: ErrorCode) | Closed(closeCode: int) | Opened
    | TypingRelayed | PresenceMarked | CursorsMoved | MessageCreated | Delivered

  predicate Privileged(effect: Effect) {
    effect.TypingRelayed? || effect.PresenceMarked? || effect.CursorsMoved? || effect.MessageCreated? || effect.Delivered?
  }

  datatype Socket = Socket(bucket: Bucket, validUntil: real, lastErrorAt: real)

  // ---- one event; `db` is the database as read at `clock.checked` ----

  function Refresh(db: Directory, who: Session, socket: Socket, c: Clock): (Socket, Option<int>) {
    var code := AccessCloseCode(db, who);
    (socket.(validUntil := if code.None? then c.primed + AUTHORIZATION_TTL else 0.0), code)
  }

  function Cached(db: Directory, who: Session, socket: Socket, c: Clock): (Socket, Option<int>) {
    if c.consulted < socket.validUntil then (socket, None) else Refresh(db, who, socket, c)
  }

  function Guarded(checked: (Socket, Option<int>), effect: Effect): (Socket, Effect) {
    (checked.0, if checked.1.Some? then Closed(checked.1.value) else effect)
  }

  function OnConnect(db: Directory, who: Session, c: Clock): (Socket, Effect) {
    Guarded(Refresh(db, who, Socket(ChatBucket.Opened(c.taken), 0.0, 0.0), c), Opened)
  }

  function OnRefusal(socket: Socket, c: Clock): (Socket, Effect) {
    if c.refused - socket.lastErrorAt >= 1.0 then (socket.(lastErrorAt := c.refused), Error(RateLimited))
    else (socket, Nothing)
  }

  function OnReadFrame(db: Directory, who: Session, socket: Socket, e: Event): (Socket, Effect)
    requires e.Frame? && (e.payload.Presence? || e.payload.Receipt?)
  {
    if !e.withinQuota then (socket, Nothing)
    else Guarded(Cached(db, who, socket, e.clock),
                 if e.payload.Presence? then PresenceMarked
                 else if !e.payload.numeric then Error(InvalidPayload)
                 else if e.stored then CursorsMoved else Closed(FORBIDDEN))
  }

  function OnAdmitted(db: Directory, who: Session, socket: Socket, e: Event): (Socket, Effect)
    requires e.Frame?
  {
    match e.payload
    case Binary => (socket, Error(UnsupportedPayload))
    case TooLarge => (socket, Error(PayloadTooLarge))
    case BadJson => (socket, Error(InvalidJson))
    case NotAnObject => (socket, Error(InvalidPayload))
    case UnknownType => (socket, Error(UnknownEvent))
    case Typing =>
      if !e.withinQuota then (socket, Nothing) else Guarded(Cached(db, who, socket, e.clock), TypingRelayed)
    case Presence => OnReadFrame(db, who, socket, e)
    case Receipt(_) => OnReadFrame(db, who, socket, e)
    case Message(validContent) =>
      if !e.withinQuota then (socket, Error(RateLimited))
      else if !validContent then (socket, Error(InvalidContent))
      else Guarded(Refresh(db, who, socket, e.clock), if e.stored then MessageCreated else Error(MessageRejected))
  }

  function OnFrame(db: Directory, who: Session, socket: Socket, e: Event): (Socket, Effect)
    requires e.Frame?
  {
    var taken := socket.(bucket := Take(socket.bucket, e.clock.taken));
    if Admits(socket.bucket, e.clock.taken) then OnAdmitted(db, who, taken, e) else OnRefusal(taken, e.clock)
  }

  function Step(db: Directory, who: Session, socket: Socket, e: Event): (Socket, Effect) {
    match e
    case Connect(c) => OnConnect(db, who, c)
    case Frame(_, _, _, _) => OnFrame(db, who, socket, e)
    case Push(c) => Guarded(Cached(db, who, socket, c), Delivered)
  }

  /** The event reads the authorization rows of the database. */
  predicate Checks(socket: Socket, e: Event) {
    match e
    case Connect(_) => true
    case Push(c) => socket.validUntil <= c.consulted
    case Frame(payload, withinQuota, _, c) =>
      && Admits(socket.bucket, c.taken) && withinQuota
      && (payload == Message(true)
          || ((payload.Typing? || payload.Presence? || payload.Receipt?) && socket.validUntil <= c.consulted))
  }

  // ---- what a check finds, and what each event comes to ----

  /** The account exists, is active and has the session version the socket was accepted with, if any. */
  predicate Recognised(db: Directory, who: Session) {
    && who.userId.Some? && who.userId.value in db.users && db.users[who.userId.value].active
    && (who.sessionVersion.None? || who.sessionVersion.value == db.users[who.userId.value].sessionVersion)
  }

  /** The account may also use the group, which is live. */
  predicate Welcome(db: Directory, who: Session) {
    Recognised(db, who) && who.groupId in db.liveGroups && (who.userId.value, who.groupId) in db.mayAccess
  }

  /** A check refuses an account that is not recognised as unauthenticated, and one without access as forbidden. */
  lemma TheCloseCodeSaysWhy(db: Directory, who: Session)
    ensures AccessCloseCode(db, who) == None <==> Welcome(db, who)
    ensures AccessCloseCode(db, who) == Some(4401) <==> !Recognised(db, who)
    ensures AccessCloseCode(db, who) == Some(4403) <==> Recognised(db, who) && !Welcome(db, who)
  {
  }

  /** Each effect of a frame comes from exactly one situation. The limiter goes first; a message needs its quota, valid
      content and a check of its own; typing, receipts and presence need their quota and a cached or checked grant. */
  lemma WhatAFrameComesTo(db: Directory, who: Session, socket: Socket, e: Event)
    requires e.Frame?
    ensures var effect, admitted := Step(db, who, socket, e).1, Admits(socket.bucket, e.clock.taken);
            var allowed := admitted && e.withinQuota;
            var passes := allowed && (e.clock.consulted < socket.validUntil || Welcome(db, who));
            var quiet := e.payload.Typing? || e.payload.Presence? || e.payload.Receipt?;
            && (effect == MessageCreated <==> e.payload == Message(true) && allowed && Welcome(db, who) && e.stored)
            && (effect == Error(MessageRejected) <==>
                  e.payload == Message(true) && allowed && Welcome(db, who) && !e.stored)
            && (effect == Error(InvalidContent) <==> e.payload == Message(false) && allowed)
            && (effect == TypingRelayed <==> e.payload.Typing? && passes)
            && (effect == PresenceMarked <==> e.payload.Presence? && passes)
            && (effect == CursorsMoved <==> e.payload == Receipt(true) && passes && e.stored)
            && (effect == Error(InvalidPayload) <==>
                  admitted && (e.payload.NotAnObject? || (e.payload == Receipt(false) && passes)))
            && (effect == Error(RateLimited) <==>
                  if admitted then e.payload.Message? && !e.withinQuota
                  else e.clock.refused - socket.lastErrorAt >= 1.0)
            && (effect == Error(UnsupportedPayload) <==> admitted && e.payload.Binary?)
            && (effect == Error(PayloadTooLarge) <==> admitted && e.payload.TooLarge?)
            && (effect == Error(InvalidJson) <==> admitted && e.payload.BadJson?)
            && (effect == Error(UnknownEvent) <==> admitted && e.payload.UnknownType?)
            && (effect == Closed(4401) <==>
                  allowed && !Recognised(db, who)
                  && (e.payload == Message(true) || (quiet && e.clock.consulted >= socket.validUntil)))
            && (effect == Closed(4403) <==>
                  || (allowed && Recognised(db, who) && !Welcome(db, who)
                      && (e.payload == Message(true) || (quiet && e.clock.consulted >= socket.validUntil)))
                  || (e.payload == Receipt(true) && passes && !e.stored))
            && !effect.Opened? && !effect.Delivered?
  {
    TheCloseCodeSaysWhy(db, who);
  }

  /** A socket opens exactly when its check succeeds, and a push is delivered exactly while the cached grant lasts or a new
      check succeeds; otherwise the socket is closed with the reason. */
  lemma WhatConnectingAndPushesComeTo(db: Directory, who: Session, socket: Socket, e: Event)
    requires !e.Frame?
    ensures var effect := Step(db, who, socket, e).1;
            var passes := Welcome(db, who) || (e.Push? && e.clock.consulted < socket.validUntil);
            && (effect == Opened <==> e.Connect? && passes) && (effect == Delivered <==> e.Push? && passes)
            && (!passes ==> effect == Closed(if Recognised(db, who) then 4403 else 4401))
  {
    TheCloseCodeSaysWhy(db, who);
  }

  // ---- the life of one socket, over a database that anyone may change at any time ----

  type History = real -> Directory

  const unopened := Socket(Bucket(0.0, 0.0), 0.0, 0.0)

  function After(history: History, who: Session, events: seq<Event>): Socket {
    if events == [] then unopened
    else
      var e := events[|events| - 1];
      Step(history(e.clock.checked), who, After(history, who, events[..|events| - 1]), e).0
  }

  function EffectOf(history: History, who: Session, events: seq<Event>, k: nat): Effect
    requires k < |events|
  {
    Step(history(events[k].clock.checked), who, After(history, who, events[..k]), events[k]).1
  }

  predicate Life(events: seq<Event>) {
    && (forall k :: 0 <= k < |events| ==> Ordered(events[k].clock) && (events[k].Connect? <==> k == 0))
    && (forall i, j :: 0 <= i < j < |events| ==> events[i].clock.acted <= events[j].clock.taken)
  }

  /** Event k re-read the authorization rows and was granted. */
  predicate GrantedAt(history: History, who: Session, events: seq<Event>, k: nat)
    requires k < |events|
  {
    Checks(After(history, who, events[..k]), events[k]) && Granted(history(events[k].clock.checked), who)
  }

  /** A check takes at most `check` seconds, and an effect comes at most `act` seconds after the cache was consulted. */
  predicate Prompt(events: seq<Event>, check: real, act: real) {
    forall k :: 0 <= k < |events| ==>
      var c := events[k].clock; c.primed - c.checked <= check && c.acted - c.consulted <= act
  }

  lemma LifePrefix(events: seq<Event>, n: nat)
    requires Life(events) && n <= |events|
    ensures Life(events[..n])
  {
  }

  /** Only a check moves the expiry: a granted one to a full TTL from now, a failed one to never. */
  lemma OnlyACheckPrimesTheCache(db: Directory, who: Session, socket: Socket, e: Event)
    ensures Step(db, who, socket, e).0.validUntil
         == if !Checks(socket, e) then socket.validUntil
            else if Granted(db, who) then e.clock.primed + 20.0
            else 0.0
  {
  }

  /** A live cache entry comes from a check that was granted exactly one TTL before it runs out. */
  lemma {:induction false} CacheComesFromACheck(history: History, who: Session, events: seq<Event>) returns (j: nat)
    requires Life(events) && After(history, who, events).validUntil > 0.0
    ensures j < |events| && GrantedAt(history, who, events, j)
    ensures After(history, who, events).validUntil == events[j].clock.primed + AUTHORIZATION_TTL
  {
    j := |events| - 1;
    var earlier := events[..j];
    OnlyACheckPrimesTheCache(history(events[j].clock.checked), who, After(history, who, earlier), events[j]);
    if !Checks(After(history, who, earlier), events[j]) {
      LifePrefix(events, j);
      j := CacheComesFromACheck(history, who, earlier);
      assert earlier[..j] == events[..j];
    }
  }

  /** An effect is authorized by a granted check of its own event or, unless it creates a message, by a cached grant. */
  lemma EffectsAreAuthorized(db: Directory, who: Session, socket: Socket, e: Event)
    requires Privileged(Step(db, who, socket, e).1)
    ensures if Checks(socket, e) then Granted(db, who)
            else e.clock.consulted < socket.validUntil && !Step(db, who, socket, e).1.MessageCreated?
  {
  }

  /** Whatever the socket relays, stores or delivers follows a granted check by at most 20 seconds and the two latencies,
      and a message is only created when the check of that very frame was granted. */
  lemma StalenessIsBounded(history: History, who: Session, events: seq<Event>, k: nat, check: real, act: real)
    returns (j: nat)
    requires Life(events) && Prompt(events, check, act) && k < |events|
    requires Privileged(EffectOf(history, who, events, k))
    ensures j <= k && GrantedAt(history, who, events, j)
    ensures events[k].clock.acted - events[j].clock.checked <= 20.0 + check + act
    ensures EffectOf(history, who, events, k).MessageCreated? ==> j == k
  {
    var socket, c := After(history, who, events[..k]), events[k].clock;
    assert Ordered(c) && 0.0 <= c.primed - c.checked <= check;
    EffectsAreAuthorized(history(c.checked), who, socket, events[k]);
    if Checks(socket, events[k]) {
      j := k;
    } else {
      LifePrefix(events, k);
      j := CacheComesFromACheck(history, who, events[..k]);
      assert events[..k][..j] == events[..j];
    }
  }

  /** After a permanent revocation at R no check is granted, so a message is only created if its own check came before R,
      hence before R and the latency of acting; and everything else stops 20 seconds and the two latencies after R. */
  lemma RevocationTakesEffect(history: History, who: Session, events: seq<Event>, check: real, act: real, revoked: real)
    requires Life(events) && Prompt(events, check, act)
    requires forall t: real :: revoked <= t ==> !Granted(history(t), who)
    ensures forall k :: 0 <= k < |events| && Privileged(EffectOf(history, who, events, k)) ==>
              && events[k].clock.acted < revoked + 20.0 + check + act
              && (EffectOf(history, who, events, k).MessageCreated? ==>
                    events[k].clock.checked < revoked && events[k].clock.acted < revoked + act)
  {
    forall k | 0 <= k < |events| && Privileged(EffectOf(history, who, events, k))
      ensures events[k].clock.acted < revoked + 20.0 + check + act
      ensures EffectOf(history, who, events, k).MessageCreated? ==>
                events[k].clock.checked < revoked && events[k].clock.acted < revoked + act
    {
      var j := StalenessIsBounded(history, who, events, k, check, act);
      assert Granted(history(events[j].clock.checked), who);
      assert Ordered(events[k].clock) && events[k].clock.acted - events[k].clock.consulted <= act;
    }
  }

  /** The event asks for permission at all: it is not stopped by the limiter, its shape, its content or the quota. */
  predicate Asks(socket: Socket, e: Event) {
    e.Push? || (e.Frame? && Admits(socket.bucket, e.clock.taken) && e.withinQuota
                && (e.payload == Message(true) || e.payload.Typing? || e.payload.Presence? || e.payload.Receipt?))
  }

  /** The first time a revoked socket asks for anything after its cached grant has run out, it is closed with the code of
      the rule that fails. */
  lemma RevokedSocketIsClosed(history: History, who: Session, events: seq<Event>, k: nat, check: real, act: real,
                              revoked: real)
    requires Life(events) && Prompt(events, check, act) && k < |events|
    requires forall t: real :: revoked <= t ==> !Granted(history(t), who)
    requires Asks(After(history, who, events[..k]), events[k])
    requires events[k].clock.consulted >= revoked + 20.0 + check
    ensures var effect := EffectOf(history, who, events, k);
            effect.Closed? && AccessCloseCode(history(events[k].clock.checked), who) == Some(effect.closeCode)
  {
    var socket, c := After(history, who, events[..k]), events[k].clock;
    assert Ordered(c) && 0.0 <= c.primed - c.checked <= check;
    assert !Granted(history(c.checked), who);
    if c.consulted < socket.validUntil {
      LifePrefix(events, k);
      var j := CacheComesFromACheck(history, who, events[..k]);
      assert false;
    }
  }

  // ---- the limiter comes first ----

  function FrameTimes(events: seq<Event>): seq<real> {
    if events == [] then []
    else
      FrameTimes(events[..|events| - 1])
      + if events[|events| - 1].Frame? then [events[|events| - 1].clock.taken] else []
  }

  /** Frames of the window that cost anything beyond the limiter. */
  function ProcessedIn(history: History, who: Session, events: seq<Event>, from: real, to: real): nat {
    if events == [] then 0
    else
      var last := events[|events| - 1];
      var earlier := events[..|events| - 1];
      ProcessedIn(history, who, earlier, from, to)
      + if last.Frame? && from <= last.clock.taken <= to
           && Admits(After(history, who, earlier).bucket, last.clock.taken) then 1 else 0
  }

  lemma ARefusedFrameCostsNothing(db: Directory, who: Session, socket: Socket, e: Event)
    requires e.Frame? && !Admits(socket.bucket, e.clock.taken)
    ensures !Checks(socket, e)
    ensures forall other: Directory :: Step(other, who, socket, e) == Step(db, who, socket, e)
    ensures var r := Step(db, who, socket, e);
            r.0.validUntil == socket.validUntil && (r.1 == Nothing || r.1 == Error(RateLimited))
  {
  }

  lemma {:induction false} FrameTimesAreClocked(events: seq<Event>)
    requires Life(events) && events != []
    ensures Clocked(events[0].clock.taken, FrameTimes(events))
    ensures forall i :: 0 <= i < |FrameTimes(events)| ==> FrameTimes(events)[i] <= events[|events| - 1].clock.taken
  {
    if |events| > 1 {
      var earlier := events[..|events| - 1];
      LifePrefix(events, |events| - 1);
      FrameTimesAreClocked(earlier);
      assert Ordered(events[|events| - 2].clock);
      assert events[0].clock.acted <= events[|events| - 1].clock.taken && Ordered(events[0].clock);
    } else {
      assert FrameTimes(events[..0]) == [];
    }
  }

  lemma FrameTimesAppend(events: seq<Event>)
    requires events != []
    ensures var earlier := FrameTimes(events[..|events| - 1]);
            if events[|events| - 1].Frame?
            then FrameTimes(events) != [] && FrameTimes(events)[..|FrameTimes(events)| - 1] == earlier
                 && FrameTimes(events)[|FrameTimes(events)| - 1] == events[|events| - 1].clock.taken
            else FrameTimes(events) == earlier
  {
  }

  /** Only frames touch the bucket. */
  lemma OnlyFramesTakeTokens(db: Directory, who: Session, socket: Socket, e: Event)
    ensures Step(db, who, socket, e).0.bucket
         == match e
            case Connect(c) => ChatBucket.Opened(c.taken)
            case Frame(_, _, _, c) => Take(socket.bucket, c.taken)
            case Push(_) => socket.bucket
  {
  }

  lemma {:induction false} BucketFollowsTheFrames(history: History, who: Session, events: seq<Event>)
    requires Life(events) && events != []
    ensures After(history, who, events).bucket == ChatBucket.After(events[0].clock.taken, FrameTimes(events))
  {
    var e, earlier := events[|events| - 1], events[..|events| - 1];
    OnlyFramesTakeTokens(history(e.clock.checked), who, After(history, who, earlier), e);
    FrameTimesAppend(events);
    if |events| > 1 {
      LifePrefix(events, |events| - 1);
      BucketFollowsTheFrames(history, who, earlier);
    } else {
      assert earlier == [] && FrameTimes(events) == [];
    }
  }

  lemma {:induction false} ProcessedAreAccepted(history: History, who: Session, events: seq<Event>, from: real,
                                                to: real)
    requires Life(events) && events != []
    ensures ProcessedIn(history, who, events, from, to)
         == AcceptedIn(events[0].clock.taken, FrameTimes(events), from, to)
  {
    FrameTimesAppend(events);
    if |events| > 1 {
      var earlier := events[..|events| - 1];
      LifePrefix(events, |events| - 1);
      BucketFollowsTheFrames(history, who, earlier);
      ProcessedAreAccepted(history, who, earlier, from, to);
    } else {
      assert events[..0] == [] && FrameTimes(events) == [];
    }
  }

  /** However fast a client sends, at most 30 + 15 * (to - from) of its frames in a window reach the database or cache. */
  lemma AFloodStopsAtTheLimiter(history: History, who: Session, events: seq<Event>, from: real, to: real)
    requires Life(events) && from <= to
    ensures ProcessedIn(history, who, events, from, to) as real <= 30.0 + 15.0 * (to - from)
  {
    if events != [] {
      ProcessedAreAccepted(history, who, events, from, to);
      FrameTimesAreClocked(events);
      AcceptedFramesAreBounded(events[0].clock.taken, FrameTimes(events), from, to);
    }
  }

  /** Frame k was refused by the limiter and answered with RATE_LIMITED. */
  predicate AnsweredRefusal(history: History, who: Session, events: seq<Event>, k: nat)
    requires k < |events|
  {
    && events[k].Frame? && !Admits(After(history, who, events[..k]).bucket, events[k].clock.taken)
    && EffectOf(history, who, events, k) == Error(RateLimited)
  }

  lemma {:induction false} LastErrorOnlyGrows(history: History, who: Session, events: seq<Event>, k: nat)
    requires Life(events) && k < |events| && AnsweredRefusal(history, who, events, k)
    ensures After(history, who, events).lastErrorAt >= events[k].clock.refused
  {
    if k < |events| - 1 {
      var earlier := events[..|events| - 1];
      LifePrefix(events, |events| - 1);
      assert earlier[..k] == events[..k];
      LastErrorOnlyGrows(history, who, earlier, k);
    }
  }

  /** Refused frames are told so at most once a second. */
  lemma RefusalsAreAnsweredOnceASecond(history: History, who: Session, events: seq<Event>, i: nat, j: nat)
    requires Life(events) && i < j < |events|
    requires AnsweredRefusal(history, who, events, i) && AnsweredRefusal(history, who, events, j)
    ensures events[j].clock.refused - events[i].clock.refused >= 1.0
  {
    var earlier := events[..j];
    LifePrefix(events, j);
    assert earlier[..i] == events[..i];
    LastErrorOnlyGrows(history, who, earlier, i);
  }

  // ---- the consumer itself ----

  class GroupChatConsumer {
    const who: Session
    var frameTokens: real
    var frameRefilledAt: real
    var authValidUntil: real
    var lastRateErrorAt: real

    ghost function View(): Socket
      reads this
    {
      Socket(Bucket(frameTokens, frameRefilledAt), authValidUntil, lastRateErrorAt)
    }

    constructor (who: Session)
      ensures this.who == who && View() == unopened
    {
      this.who := who;
      frameTokens, frameRefilledAt, authValidUntil, lastRateErrorAt := 0.0, 0.0, 0.0, 0.0;
    }

    method Connect(db: Directory, clock: Clock) returns (effect: Effect)
      modifies this
      ensures (View(), effect) == Step(db, who, old(View()), Event.Connect(clock))
    {
      authValidUntil := 0.0;
      frameTokens := CAPACITY;
      frameRefilledAt := clock.taken;
      lastRateErrorAt := 0.0;
      var closeCode := RefreshAuthorization(db, clock);
      effect := if closeCode.Some? then Closed(closeCode.value) else Opened;
    }

    method TakeFrameToken(now: real) returns (taken: bool)
      modifies this`frameTokens, this`frameRefilledAt
      ensures View().bucket == Take(old(View()).bucket, now)
      ensures taken == Admits(old(View()).bucket, now)
    {
      var elapsed := if now > frameRefilledAt then now - frameRefilledAt else 0.0;
      frameRefilledAt := now;
      frameTokens := frameTokens + elapsed * REFILL_PER_SECOND;
      if frameTokens > CAPACITY {
        frameTokens := CAPACITY;
      }
      if frameTokens < 1.0 {
        return false;
      }
      frameTokens := frameTokens - 1.0;
      taken := true;
    }

    method RefreshAuthorization(db: Directory, clock: Clock) returns (closeCode: Option<int>)
      modifies this`authValidUntil
      ensures (View(), closeCode) == Refresh(db, who, old(View()), clock)
    {
      closeCode := AccessCloseCode(db, who);
      authValidUntil := if closeCode.None? then clock.primed + AUTHORIZATION_TTL else 0.0;
    }

    method CachedAuthorization(db: Directory, clock: Clock) returns (closeCode: Option<int>)
      modifies this`authValidUntil
      ensures (View(), closeCode) == Cached(db, who, old(View()), clock)
    {
      if clock.consulted < authValidUntil {
        return None;
      }
      closeCode := RefreshAuthorization(db, clock);
    }

    method Receive(db: Directory, e: Event) returns (effect: Effect)
      requires e.Frame?
      modifies this
      ensures (View(), effect) == Step(db, who, old(View()), e)
    {
      var taken := TakeFrameToken(e.clock.taken);
      if !taken {
        if e.clock.refused - lastRateErrorAt >= 1.0 {
          lastRateErrorAt := e.clock.refused;
          return Error(RateLimited);
        }
        return Nothing;
      }
      match e.payload {
        case Binary => return Error(UnsupportedPayload);
        case TooLarge => return Error(PayloadTooLarge);
        case BadJson => return Error(InvalidJson);
        case NotAnObject => return Error(InvalidPayload);
        case UnknownType => return Error(UnknownEvent);
        case Typing =>
          if !e.withinQuota {
            return Nothing;
          }
          var closeCode := CachedAuthorization(db, e.clock);
          return if closeCode.Some? then Closed(closeCode.value) else TypingRelayed;
        case Presence =>
          effect := HandleReadFrame(db, e);
        case Receipt(_) =>
          effect := HandleReadFrame(db, e);
        case Message(validContent) =>
          if !e.withinQuota {
            return Error(RateLimited);
          }
          if !validContent {
            return Error(InvalidContent);
          }
          var closeCode := RefreshAuthorization(db, e.clock);
          if closeCode.Some? {
            return Closed(closeCode.value);
          }
          effect := if e.stored then MessageCreated else Error(MessageRejected);
      }
    }

    method HandleReadFrame(db: Directory, e: Event) returns (effect: Effect)
      requires e.Frame? && (e.payload.Presence? || e.payload.Receipt?)
      modifies this`authValidUntil
      ensures (View(), effect) == OnReadFrame(db, who, old(View()), e)
    {
      if !e.withinQuota {
        return Nothing;
      }
      var closeCode := CachedAuthorization(db, e.clock);
      if closeCode.Some? {
        return Closed(closeCode.value);
      }
      if e.payload.Presence? {
        return PresenceMarked;
      }
      if !e.payload.numeric {
        return Error(InvalidPayload);
      }
      effect := if e.stored then CursorsMoved else Closed(FORBIDDEN);
    }

    /** The gate in front of every push but typing: `Delivered` stands for the frame the caller then sends. */
    method Deliverable(db: Directory, clock: Clock) returns (effect: Effect)
      modifies this`authValidUntil
      ensures (View(), effect) == Step(db, who, old(View()), Push(clock))
    {
      var closeCode := CachedAuthorization(db, clock);
      effect := if closeCode.Some? then Closed(closeCode.value) else Delivered;
    }
  }
}
