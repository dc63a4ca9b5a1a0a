/** One-time WebSocket handshake tickets: racing `consume` calls over an expiring cache.

    `consume` is three separate cache operations (get, add, delete), so other calls may run between any two of them. */
module ChatTickets {
  import opened Wrappers

  /** What a ticket stands for. The purpose tag is part of every stored payload. */
  datatype Claims = Claims(userId: nat, groupId: nat, sessionVersion: nat)

  /** A cache entry is readable strictly before its expiry. */
  datatype Entry = Entry(claims: Claims, expires: int)

  /** A call that has read a matching payload, one that has also won the reservation, or one that has returned. */
  datatype Call =
    | Read(token: nat, claims: Claims, readAt: int)
    | Reserved(token: nat, claims: Claims, readAt: int)
    | Returned(token: nat, result: Option<Claims>)

  /** Time limits in the same unit as the clock. `span` is the longest a call takes from its get to its delete. */
  datatype Limits = Limits(ttl: nat, span: nat)

  datatype State = State(now: int, tickets: map<nat, Entry>, reservations: map<nat, int>, calls: map<nat, Call>,
                         issued: map<nat, Claims>)

  /** A cache operation may fail before it takes effect (`Fail`), or take effect and lose its reply (`LoseAdd`,
      `LoseDelete`); the call cannot tell these apart and returns nothing. */
  datatype Step =
    | Wait(passing: nat)
    | Issue(token: nat, claims: Claims)
    | Get(call: nat, ticket: nat, group: nat)
    | Add(adder: nat)
    | Delete(deleter: nat)
    | Fail(failed: nat)
    | LoseAdd(loser: nat)
    | LoseDelete(loser: nat)

  const Start := State(0, map[], map[], map[], map[])

  /** The call returns nothing, wherever it was. */
  function Aborted(s: State, c: nat): State {
    if c in s.calls && !s.calls[c].Returned? then s.(calls := s.calls[c := Returned(s.calls[c].token, None)]) else s
  }

  predicate InTime(limits: Limits, s: State, c: nat) {
    c in s.calls && !s.calls[c].Returned? && s.now - s.calls[c].readAt <= limits.span
  }

  /** A successful add is the one winner; a call that finds the reservation taken returns nothing. */
  function Reserve(limits: Limits, s: State, c: nat): State {
    if !InTime(limits, s, c) || !s.calls[c].Read? then s
    else
      var call := s.calls[c];
      if call.token in s.reservations && s.now < s.reservations[call.token] then Aborted(s, c)
      else s.(reservations := s.reservations[call.token := s.now + limits.ttl],
              calls := s.calls[c := Reserved(call.token, call.claims, call.readAt)])
  }

  function Remove(limits: Limits, s: State, c: nat): State {
    if !InTime(limits, s, c) || !s.calls[c].Reserved? then s
    else
      var call := s.calls[c];
      s.(tickets := s.tickets - {call.token}, calls := s.calls[c := Returned(call.token, Some(call.claims))])
  }

  /** The claims a call was about to return, lost with the reply. */
  function Unanswered(s: State, c: nat): State {
    if c in s.calls && s.calls[c].Returned? then s.(calls := s.calls[c := Returned(s.calls[c].token, None)]) else s
  }

  function Next(limits: Limits, s: State, step: Step): State {
    match step
    case Wait(passing) => s.(now := s.now + passing)
    case Issue(token, claims) =>
      // Tokens are drawn at random and never repeat.
      if token in s.issued then s
      else s.(tickets := s.tickets[token := Entry(claims, s.now + limits.ttl)], issued := s.issued[token := claims])
    case Get(c, token, group) =>
      if c in s.calls then s
      else if token in s.tickets && s.now < s.tickets[token].expires && s.tickets[token].claims.groupId == group then
        s.(calls := s.calls[c := Read(token, s.tickets[token].claims, s.now)])
      else s.(calls := s.calls[c := Returned(token, None)])
    case Add(c) => Reserve(limits, s, c)
    case Delete(c) => Remove(limits, s, c)
    case Fail(c) => Aborted(s, c)
    case LoseAdd(c) => if c in s.calls && s.calls[c].Read? then Aborted(Reserve(limits, s, c), c) else s
    case LoseDelete(c) => if c in s.calls && s.calls[c].Reserved? then Unanswered(Remove(limits, s, c), c) else s
  }

  function Run(limits: Limits, steps: seq<Step>): State {
    if steps == [] then Start else Next(limits, Run(limits, steps[..|steps| - 1]), steps[|steps| - 1])
  }

  predicate Won(s: State, c: nat) {
    c in s.calls && s.calls[c].Returned? && s.calls[c].result.Some?
  }

  predicate WonFor(s: State, c: nat, token: nat) {
    Won(s, c) && s.calls[c].token == token
  }

  /** No two calls return claims for the same ticket. */
  ghost predicate OneTime(s: State) {
    forall c, d, t :: c != d && WonFor(s, c, t) ==> !WonFor(s, d, t)
  }

  // ---- claims are those issued ----

  /** Whatever claims a call holds or has returned are those its ticket was issued with. */
  predicate Backed(issued: map<nat, Claims>, call: Call) {
    match call
    case Returned(token, None) => true
    case Returned(token, Some(claims)) => token in issued && claims == issued[token]
    case _ => call.token in issued && call.claims == issued[call.token]
  }

  ghost predicate ClaimsAreIssued(s: State) {
    && (forall t <- s.tickets :: t in s.issued && s.tickets[t].claims == s.issued[t])
    && (forall c <- s.calls :: Backed(s.issued, s.calls[c]))
  }

  // ---- the race ----

  /** A call still short of its reservation. */
  predicate Reading(s: State, c: nat, token: nat) {
    c in s.calls && s.calls[c].Read? && s.calls[c].token == token
  }

  predicate Holding(s: State, c: nat, token: nat) {
    c in s.calls && s.calls[c].Reserved? && s.calls[c].token == token
  }

  /** The reservation outlives every call that can still act on it:
      a holder's reservation lasts a full TTL from its get; of two holders one is out of time; once a call has won, the
      ticket is gone, every other holder is out of time, and every call still reading runs out of time before the
      reservation expires. */
  ghost predicate RaceInv(limits: Limits, s: State) {
    && (forall c <- s.calls :: !s.calls[c].Returned? ==> s.calls[c].readAt <= s.now)
    && (forall c, t :: Holding(s, c, t) ==> t in s.reservations && s.reservations[t] >= s.calls[c].readAt + limits.ttl)
    && (forall c, d, t :: c != d && Holding(s, c, t) && Holding(s, d, t) ==>
          s.now >= s.calls[c].readAt + limits.ttl || s.now >= s.calls[d].readAt + limits.ttl)
    && (forall c, t :: WonFor(s, c, t) ==> t in s.issued && t !in s.tickets && t in s.reservations)
    && (forall c, d, t :: WonFor(s, c, t) && Holding(s, d, t) ==> s.now - s.calls[d].readAt > limits.span)
    && (forall c, d, t :: WonFor(s, c, t) && Reading(s, d, t) ==> s.calls[d].readAt + limits.span < s.reservations[t])
    && OneTime(s)
  }

  lemma CallsKeepClaims(limits: Limits, s: State, c: nat)
    requires ClaimsAreIssued(s)
    ensures ClaimsAreIssued(Aborted(s, c)) && ClaimsAreIssued(Unanswered(s, c))
    ensures ClaimsAreIssued(Reserve(limits, s, c)) && ClaimsAreIssued(Remove(limits, s, c))
  {
  }

  lemma StepKeepsClaims(limits: Limits, s: State, step: Step)
    requires ClaimsAreIssued(s)
    ensures ClaimsAreIssued(Next(limits, s, step))
  {
    match step
    case Wait(_) =>
    case Issue(_, _) =>
    case Get(_, _, _) =>
    case Add(c) => CallsKeepClaims(limits, s, c);
    case Delete(c) => CallsKeepClaims(limits, s, c);
    case Fail(c) => CallsKeepClaims(limits, s, c);
    case LoseAdd(c) =>
      CallsKeepClaims(limits, s, c);
      CallsKeepClaims(limits, Reserve(limits, s, c), c);
    case LoseDelete(c) =>
      CallsKeepClaims(limits, s, c);
      CallsKeepClaims(limits, Remove(limits, s, c), c);
  }

  /** The calls of `after` in each role, but for call c, had that role before. */
  ghost predicate RolesPersist(before: State, after: State, c: nat) {
    forall d, t :: d != c ==>
      && (WonFor(after, d, t) ==> WonFor(before, d, t))
      && (Holding(after, d, t) ==> Holding(before, d, t))
      && (Reading(after, d, t) ==> Reading(before, d, t))
  }

  lemma AddKeepsTheRace(limits: Limits, s: State, c: nat)
    requires 2 * limits.span < limits.ttl
    requires RaceInv(limits, s) && c in s.calls && s.calls[c].Read?
    ensures RaceInv(limits, Next(limits, s, Add(c)))
  {
    var s', t := Next(limits, s, Add(c)), s.calls[c].token;
    if s'.calls[c].Reserved? {
      NewHolderComesAlone(limits, s, c);
      assert Reading(s, c, t) && RolesPersist(s, s', c);
      assert forall u :: !WonFor(s', c, u) && !Reading(s', c, u) && (Holding(s', c, u) ==> u == t);
    } else if s' != s {
      assert s' == Aborted(s, c);
      FailKeepsTheRace(limits, s, c);
    }
  }

  /** A call only gets the reservation of a ticket nobody has won, and every holder before it is out of time. */
  lemma NewHolderComesAlone(limits: Limits, s: State, c: nat)
    requires RaceInv(limits, s) && c in s.calls && s.calls[c].Read?
    requires Next(limits, s, Add(c)).calls[c].Reserved?
    ensures forall d :: !WonFor(s, d, s.calls[c].token)
    ensures forall d :: Holding(s, d, s.calls[c].token) ==> s.now >= s.calls[d].readAt + limits.ttl
  {
  }

  /** A call that may still act on its reservation is the only one, its ticket is not won yet, and whoever is still
      reading runs out of time before the reservation does. */
  lemma HolderActsAlone(limits: Limits, s: State, c: nat)
    requires 2 * limits.span < limits.ttl
    requires RaceInv(limits, s) && c in s.calls && s.calls[c].Reserved? && s.now - s.calls[c].readAt <= limits.span
    ensures var t := s.calls[c].token;
            && (forall d :: !WonFor(s, d, t))
            && (forall d :: d != c && Holding(s, d, t) ==> s.now - s.calls[d].readAt > limits.span)
            && (forall d :: Reading(s, d, t) ==> s.calls[d].readAt + limits.span < s.reservations[t])
  {
  }

  lemma DeleteKeepsTheRace(limits: Limits, s: State, c: nat)
    requires 2 * limits.span < limits.ttl
    requires RaceInv(limits, s) && ClaimsAreIssued(s) && c in s.calls && s.calls[c].Reserved?
    ensures RaceInv(limits, Next(limits, s, Delete(c)))
  {
    var s', t := Next(limits, s, Delete(c)), s.calls[c].token;
    if s'.calls[c].Returned? {
      HolderActsAlone(limits, s, c);
      assert Holding(s, c, t) && RolesPersist(s, s', c);
      assert forall u :: !Holding(s', c, u) && !Reading(s', c, u) && (WonFor(s', c, u) ==> u == t);
    }
  }

  /** Whoever reads a ticket reads it before anyone has won it. */
  lemma NewReaderKeepsTheRace(limits: Limits, s: State, c: nat, token: nat, claims: Claims)
    requires RaceInv(limits, s) && c !in s.calls && token in s.tickets
    ensures RaceInv(limits, s.(calls := s.calls[c := Read(token, claims, s.now)]))
  {
    var s' := s.(calls := s.calls[c := Read(token, claims, s.now)]);
    assert RolesPersist(s, s', c);
    assert forall u :: !WonFor(s', c, u) && !Holding(s', c, u);
    assert forall d :: !WonFor(s, d, token);
  }

  lemma GetKeepsTheRace(limits: Limits, s: State, c: nat, token: nat, group: nat)
    requires RaceInv(limits, s) && c !in s.calls
    ensures RaceInv(limits, Next(limits, s, Get(c, token, group)))
  {
    var s' := Next(limits, s, Get(c, token, group));
    if s'.calls[c].Read? {
      NewReaderKeepsTheRace(limits, s, c, token, s'.calls[c].claims);
    } else {
      assert RolesPersist(s, s', c);
      assert forall u :: !WonFor(s', c, u) && !Holding(s', c, u) && !Reading(s', c, u);
    }
  }

  lemma FailKeepsTheRace(limits: Limits, s: State, c: nat)
    requires RaceInv(limits, s) && c in s.calls && !s.calls[c].Returned?
    ensures RaceInv(limits, Next(limits, s, Fail(c)))
  {
    var s' := Next(limits, s, Fail(c));
    assert RolesPersist(s, s', c);
    assert forall u :: !WonFor(s', c, u) && !Holding(s', c, u) && !Reading(s', c, u);
  }

  /** Whatever the add did, the call gives up holding it. */
  lemma LoseAddKeepsTheRace(limits: Limits, s: State, c: nat)
    requires 2 * limits.span < limits.ttl
    requires RaceInv(limits, s) && c in s.calls && s.calls[c].Read?
    ensures RaceInv(limits, Next(limits, s, LoseAdd(c)))
  {
    AddKeepsTheRace(limits, s, c);
    var added := Next(limits, s, Add(c));
    if !added.calls[c].Returned? {
      FailKeepsTheRace(limits, added, c);
    }
  }

  /** The ticket is gone and nobody has its claims. */
  lemma LoseDeleteKeepsTheRace(limits: Limits, s: State, c: nat)
    requires 2 * limits.span < limits.ttl
    requires RaceInv(limits, s) && ClaimsAreIssued(s) && c in s.calls && s.calls[c].Reserved?
    ensures RaceInv(limits, Next(limits, s, LoseDelete(c)))
  {
    DeleteKeepsTheRace(limits, s, c);
    var removed, s' := Next(limits, s, Delete(c)), Next(limits, s, LoseDelete(c));
    assert RolesPersist(removed, s', c);
    assert removed.calls[c].Returned? ==> forall u :: !WonFor(s', c, u) && !Holding(s', c, u) && !Reading(s', c, u);
  }

  lemma TimeAndIssueKeepTheRace(limits: Limits, s: State, step: Step)
    requires RaceInv(limits, s) && (step.Wait? || step.Issue?)
    ensures RaceInv(limits, Next(limits, s, step))
  {
    var s' := Next(limits, s, step);
    assert forall c, t :: WonFor(s', c, t) <==> WonFor(s, c, t);
    assert forall c, t :: Holding(s', c, t) <==> Holding(s, c, t);
    assert forall c, t :: Reading(s', c, t) <==> Reading(s, c, t);
  }

  lemma StepKeepsTheRace(limits: Limits, s: State, step: Step)
    requires 2 * limits.span < limits.ttl
    requires RaceInv(limits, s) && ClaimsAreIssued(s)
    ensures RaceInv(limits, Next(limits, s, step))
  {
    match step
    case Wait(_) => TimeAndIssueKeepTheRace(limits, s, step);
    case Issue(_, _) => TimeAndIssueKeepTheRace(limits, s, step);
    case Get(c, token, group) =>
      if c !in s.calls {
        GetKeepsTheRace(limits, s, c, token, group);
      }
    case Add(c) =>
      if c in s.calls && s.calls[c].Read? {
        AddKeepsTheRace(limits, s, c);
      }
    case Delete(c) =>
      if c in s.calls && s.calls[c].Reserved? {
        DeleteKeepsTheRace(limits, s, c);
      }
    case Fail(c) =>
      if c in s.calls && !s.calls[c].Returned? {
        FailKeepsTheRace(limits, s, c);
      }
    case LoseAdd(c) =>
      if c in s.calls && s.calls[c].Read? {
        LoseAddKeepsTheRace(limits, s, c);
      }
    case LoseDelete(c) =>
      if c in s.calls && s.calls[c].Reserved? {
        LoseDeleteKeepsTheRace(limits, s, c);
      }
  }

  lemma {:induction false} RunKeepsTheRace(limits: Limits, steps: seq<Step>)
    requires 2 * limits.span < limits.ttl
    ensures RaceInv(limits, Run(limits, steps)) && ClaimsAreIssued(Run(limits, steps))
  {
    if steps != [] {
      RunKeepsTheRace(limits, steps[..|steps| - 1]);
      StepKeepsClaims(limits, Run(limits, steps[..|steps| - 1]), steps[|steps| - 1]);
      StepKeepsTheRace(limits, Run(limits, steps[..|steps| - 1]), steps[|steps| - 1]);
    }
  }

  lemma {:induction false} RunKeepsClaims(limits: Limits, steps: seq<Step>)
    ensures ClaimsAreIssued(Run(limits, steps))
  {
    if steps != [] {
      RunKeepsClaims(limits, steps[..|steps| - 1]);
      StepKeepsClaims(limits, Run(limits, steps[..|steps| - 1]), steps[|steps| - 1]);
    }
  }

  // ---- when a ticket is one-time ----

  ghost predicate Reachable(limits: Limits, s: State) {
    exists steps :: Run(limits, steps) == s
  }

  lemma Reach(limits: Limits, s: State, step: Step, s': State)
    requires Reachable(limits, s) && Next(limits, s, step) == s'
    ensures Reachable(limits, s')
  {
    var steps :| Run(limits, steps) == s;
    assert (steps + [step])[..|steps|] == steps;
    assert Run(limits, steps + [step]) == s';
  }

  const someone := Claims(1, 1, 1)

  /** Ticket 0 may be in the cache and its reservation may be held. */
  function Snapshot(now: int, ticket: Option<int>, reservation: Option<int>, calls: map<nat, Call>): State {
    State(now, if ticket.Some? then map[0 := Entry(someone, ticket.value)] else map[],
          if reservation.Some? then map[0 := reservation.value] else map[], calls, map[0 := someone])
  }

  const won := Returned(0, Some(someone))

  function DoubleSpend(now: int, reservation: int): State {
    Snapshot(now, None, Some(reservation), map[0 := won, 1 := won])
  }

  lemma FirstCallReserves(limits: Limits)
    requires limits.ttl > 0
    ensures Reachable(limits, Snapshot(0, Some(limits.ttl), None, map[0 := Read(0, someone, 0)]))
  {
    assert Run(limits, []) == Start;
    Reach(limits, Start, Issue(0, someone), Snapshot(0, Some(limits.ttl), None, map[]));
    Reach(limits, Snapshot(0, Some(limits.ttl), None, map[]), Get(0, 0, 1),
          Snapshot(0, Some(limits.ttl), None, map[0 := Read(0, someone, 0)]));
  }

  /** With the first call's reservation about to run out and the ticket gone, a second call that has read it wins too. */
  lemma SecondCallWins(limits: Limits, now: int, readAt: int, expires: int)
    requires Reachable(limits, Snapshot(now, None, Some(expires), map[0 := won, 1 := Read(0, someone, readAt)]))
    requires expires <= readAt + limits.span && now <= readAt + limits.span
    ensures Reachable(limits, DoubleSpend(readAt + limits.span, readAt + limits.span + limits.ttl))
  {
    var moment := readAt + limits.span;
    var late := Snapshot(moment, None, Some(expires), map[0 := won, 1 := Read(0, someone, readAt)]);
    Reach(limits, Snapshot(now, None, Some(expires), map[0 := won, 1 := Read(0, someone, readAt)]),
          Wait(moment - now), late);
    LateCallWins(limits, moment, readAt, expires);
  }

  lemma LateCallWins(limits: Limits, moment: int, readAt: int, expires: int)
    requires Reachable(limits, Snapshot(moment, None, Some(expires), map[0 := won, 1 := Read(0, someone, readAt)]))
    requires expires <= moment == readAt + limits.span
    ensures Reachable(limits, DoubleSpend(moment, moment + limits.ttl))
  {
    var late := Snapshot(moment, None, Some(expires), map[0 := won, 1 := Read(0, someone, readAt)]);
    var held := Snapshot(moment, None, Some(moment + limits.ttl), map[0 := won, 1 := Reserved(0, someone, readAt)]);
    Reach(limits, late, Add(1), held);
    Reach(limits, held, Delete(1), DoubleSpend(moment, moment + limits.ttl));
  }

  lemma FirstCallWins(limits: Limits, now: int, readAt: int)
    requires 0 <= now <= limits.span
    requires Reachable(limits, Snapshot(now, Some(limits.ttl), Some(limits.ttl),
                                        map[0 := Reserved(0, someone, 0), 1 := Read(0, someone, readAt)]))
    ensures Reachable(limits, Snapshot(now, None, Some(limits.ttl), map[0 := won, 1 := Read(0, someone, readAt)]))
  {
    var calls := map[0 := Reserved(0, someone, 0), 1 := Read(0, someone, readAt)];
    Reach(limits, Snapshot(now, Some(limits.ttl), Some(limits.ttl), calls), Delete(0),
          Snapshot(now, None, Some(limits.ttl), map[0 := won, 1 := Read(0, someone, readAt)]));
  }

  /** Call 1 reads the ticket just as call 0 is about to delete it, and asks for its own reservation when call 0's has
      run out. */
  lemma LateSecondWins(limits: Limits)
    requires limits.span < limits.ttl <= 2 * limits.span
    ensures Reachable(limits, DoubleSpend(2 * limits.span, 2 * limits.span + limits.ttl))
  {
    var d, ttl := limits.span, limits.ttl;
    var first := Reserved(0, someone, 0);
    FirstCallReserves(limits);
    Reach(limits, Snapshot(0, Some(ttl), None, map[0 := Read(0, someone, 0)]), Add(0),
          Snapshot(0, Some(ttl), Some(ttl), map[0 := first]));
    Reach(limits, Snapshot(0, Some(ttl), Some(ttl), map[0 := first]), Wait(d),
          Snapshot(d, Some(ttl), Some(ttl), map[0 := first]));
    Reach(limits, Snapshot(d, Some(ttl), Some(ttl), map[0 := first]), Get(1, 0, 1),
          Snapshot(d, Some(ttl), Some(ttl), map[0 := first, 1 := Read(0, someone, d)]));
    FirstCallWins(limits, d, d);
    SecondCallWins(limits, d, d, ttl);
  }

  /** Both calls read the ticket at once; call 1 then sleeps until call 0's reservation has run out. */
  lemma SleepingSecondWins(limits: Limits)
    requires 0 < limits.ttl <= limits.span
    ensures Reachable(limits, DoubleSpend(limits.span, limits.span + limits.ttl))
  {
    var ttl, read := limits.ttl, Read(0, someone, 0);
    FirstCallReserves(limits);
    Reach(limits, Snapshot(0, Some(ttl), None, map[0 := read]), Get(1, 0, 1),
          Snapshot(0, Some(ttl), None, map[0 := read, 1 := read]));
    Reach(limits, Snapshot(0, Some(ttl), None, map[0 := read, 1 := read]), Add(0),
          Snapshot(0, Some(ttl), Some(ttl), map[0 := Reserved(0, someone, 0), 1 := read]));
    FirstCallWins(limits, 0, 0);
    SecondCallWins(limits, 0, 0, ttl);
  }

  /** A ticket is one-time in every interleaving exactly when two get-to-delete spans fit inside the TTL. */
  lemma OneTimeIffTwoSpansFit(limits: Limits)
    requires limits.ttl > 0
    ensures (forall s :: Reachable(limits, s) ==> OneTime(s)) <==> 2 * limits.span < limits.ttl
  {
    if 2 * limits.span < limits.ttl {
      forall s | Reachable(limits, s) ensures OneTime(s) {
        var steps :| Run(limits, steps) == s;
        RunKeepsTheRace(limits, steps);
      }
    } else {
      var now := if limits.span < limits.ttl then 2 * limits.span else limits.span;
      if limits.span < limits.ttl {
        LateSecondWins(limits);
      } else {
        SleepingSecondWins(limits);
      }
      var twice := DoubleSpend(now, now + limits.ttl);
      assert WonFor(twice, 0, 0) && WonFor(twice, 1, 0);
    }
  }

  /** One call that nobody disturbs, waiting a before its add and b before its delete. */
  function Undisturbed(limits: Limits, s: State, c: nat, token: nat, group: nat, a: nat, b: nat): State {
    var read := Next(limits, s, Get(c, token, group));
    var reserved := Next(limits, Next(limits, read, Wait(a)), Add(c));
    Next(limits, Next(limits, reserved, Wait(b)), Delete(c))
  }

  lemma AReaderReserves(limits: Limits, s: State, c: nat, a: nat)
    requires c in s.calls && s.calls[c].Read? && s.now + a - s.calls[c].readAt <= limits.span
    requires var t := s.calls[c].token; t !in s.reservations || s.reservations[t] <= s.now + a
    ensures var call, after := s.calls[c], Next(limits, Next(limits, s, Wait(a)), Add(c));
            && c in after.calls && after.calls[c] == Reserved(call.token, call.claims, call.readAt)
            && after.now == s.now + a && after.tickets == s.tickets
  {
  }

  lemma AHolderIsServed(limits: Limits, s: State, c: nat, b: nat)
    requires c in s.calls && s.calls[c].Reserved? && s.now + b - s.calls[c].readAt <= limits.span
    ensures var call, after := s.calls[c], Next(limits, Next(limits, s, Wait(b)), Delete(c));
            && c in after.calls && after.calls[c] == Returned(call.token, Some(call.claims))
            && call.token !in after.tickets
  {
  }

  /** A ticket asked for with its own group, before it expires and by a call that stays within its span, is handed over;
      asked for with another group, it stays where it is and the call gets nothing. */
  lemma {:induction false} AnUndisturbedCallIsServed(limits: Limits, steps: seq<Step>, c: nat, token: nat,
                                                     group: nat, a: nat, b: nat)
    requires var s := Run(limits, steps);
             && c !in s.calls && token in s.tickets && s.now < s.tickets[token].expires
             && (token !in s.reservations || s.reservations[token] <= s.now + a) && a + b <= limits.span
    ensures var s := Run(limits, steps);
            var after := Undisturbed(limits, s, c, token, group, a, b);
            && c in after.calls && token in s.issued
            && if group == s.tickets[token].claims.groupId
               then after.calls[c] == Returned(token, Some(s.issued[token])) && token !in after.tickets
               else after.calls[c] == Returned(token, None) && after.tickets == s.tickets
  {
    RunKeepsClaims(limits, steps);
    var s := Run(limits, steps);
    if group == s.tickets[token].claims.groupId {
      var read := Next(limits, s, Get(c, token, group));
      AReaderReserves(limits, read, c, a);
      AHolderIsServed(limits, Next(limits, Next(limits, read, Wait(a)), Add(c)), c, b);
    }
  }

  // ---- from the ticket to an accepted socket ----

  /** The account and group rows the handshake re-reads; `mayAccess` is the outcome of the group-access rule. */
  datatype User = User(active: bool, sessionVersion: nat)
  datatype Directory = Directory(users: map<nat, User>, liveGroups: set<nat>, mayAccess: set<(nat, nat)>)

  function AuthenticateClaims(db: Directory, claims: Claims, groupId: nat): Option<nat> {
    if claims.groupId != groupId then None
    else if claims.userId !in db.users || !db.users[claims.userId].active || groupId !in db.liveGroups then None
    else if db.users[claims.userId].sessionVersion != claims.sessionVersion then None
    else if (claims.userId, groupId) in db.mayAccess then Some(claims.userId)
    else None
  }

  /** A ticket can be read, by a call for its group, exactly while it is younger than its lifetime. */
  lemma ATicketLastsItsLifetime(limits: Limits, s: State, token: nat, claims: Claims, d: nat, c: nat)
    requires token !in s.issued && c !in s.calls
    ensures var later := Next(limits, Next(limits, s, Issue(token, claims)), Wait(d));
            Next(limits, later, Get(c, token, claims.groupId)).calls[c]
            == if d < limits.ttl then Read(token, claims, s.now + d) else Returned(token, None)
  {
  }

  /** Whoever a socket is accepted for is the active user the ticket was issued to, for the group it was issued for, and
      that user's session version has not moved since; and it is accepted whenever all of that holds, the group is live and
      the user may use it. */
  lemma AcceptedSocketIsTheIssuedUser(limits: Limits, steps: seq<Step>, call: nat, db: Directory, groupId: nat)
    requires Won(Run(limits, steps), call)
    ensures var s := Run(limits, steps);
            var token, claims := s.calls[call].token, s.calls[call].result.value;
            && token in s.issued && claims == s.issued[token]
            && (AuthenticateClaims(db, claims, groupId).Some? <==>
                  && groupId == s.issued[token].groupId && claims.userId in db.users
                  && db.users[s.issued[token].userId] == User(true, s.issued[token].sessionVersion)
                  && groupId in db.liveGroups && (s.issued[token].userId, groupId) in db.mayAccess)
            && (AuthenticateClaims(db, claims, groupId).Some? ==>
                  AuthenticateClaims(db, claims, groupId) == Some(s.issued[token].userId))
  {
    RunKeepsClaims(limits, steps);
  }
}
