/** One-time codes for verifying an e-mail address or phone number, with calls to the service serialised. */
module Otp {
  import opened Numbers
  import opened Wrappers

  datatype Channel = Email | Phone
  datatype Purpose = VerifyEmail | ResetPassword | Login | Register | VerifyPhone

  /** What a code is looked up by; the identifier is already normalised. */
  datatype Key = Key(identifier: string, purpose: Purpose, channel: Channel)

  /** Password hashing, as an injective function. */
  datatype Hash = Hashed(code: string)

  datatype Code = Code(key: Key, hash: Hash, createdAt: int, expiresAt: int, used: bool, attempts: nat,
                       lockedAt: Option<int>)

  /** OTP_EXPIRY_MINUTES and OTP_RESEND_COOLDOWN_SECONDS in seconds, and OTP_MAX_ATTEMPTS. */
  datatype Settings = Settings(expiry: nat, cooldown: nat, maxAttempts: nat)

  datatype Refusal = IdentifierMissing | PleaseWait(seconds: int) | DeliveryUnavailable | InvalidOrExpired | TooManyAttempts

  predicate Expired(row: Code, now: int) {
    now >= row.expiresAt
  }

  predicate Locked(settings: Settings, row: Code) {
    row.lockedAt.Some? || row.attempts >= settings.maxAttempts
  }

  predicate Live(rows: seq<Code>, i: int, key: Key) {
    0 <= i < |rows| && rows[i].key == key && !rows[i].used
  }

  /** The unused code of the key that was created last, if there is one. */
  function NewestUnused(rows: seq<Code>, key: Key): (found: Option<nat>)
    ensures found.Some? ==> Live(rows, found.value, key)
    ensures forall i :: Live(rows, i, key) ==> found.Some? && rows[i].createdAt <= rows[found.value].createdAt
  {
    if rows == [] then None
    else
      var last := |rows| - 1;
      var earlier := NewestUnused(rows[..last], key);
      assert forall i :: i < last ==> (Live(rows[..last], i, key) <==> Live(rows, i, key));
      if Live(rows, last, key) && (earlier.None? || rows[earlier.value].createdAt <= rows[last].createdAt) then Some(last)
      else earlier
  }

  /** Every code of the key marked used. */
  function Retired(rows: seq<Code>, key: Key): (retired: seq<Code>)
    ensures |retired| == |rows|
    ensures forall i :: 0 <= i < |rows| ==>
              retired[i] == if rows[i].key == key then rows[i].(used := true) else rows[i]
  {
    seq(|rows|, i requires 0 <= i < |rows| => if rows[i].key == key then rows[i].(used := true) else rows[i])
  }

  function Fresh(settings: Settings, key: Key, code: string, now: int): Code {
    Code(key, Hashed(code), now, now + settings.expiry, false, 0, None)
  }

  predicate CoolingDown(settings: Settings, rows: seq<Code>, key: Key, now: int) {
    var previous := NewestUnused(rows, key);
    && previous.Some? && now < rows[previous.value].createdAt + settings.cooldown
    && !Expired(rows[previous.value], now)
  }

  /** A delivery failure raises inside the transaction, so the new code and the retirement of the old one both vanish. */
  function Send(settings: Settings, rows: seq<Code>, key: Key, code: string, now: int, delivers: bool)
    : (seq<Code>, Result<nat, Refusal>)
  {
    var previous := NewestUnused(rows, key);
    if key.identifier == "" then (rows, Failure(IdentifierMissing))
    else if CoolingDown(settings, rows, key, now) then
      (rows, Failure(PleaseWait(Max(1, rows[previous.value].createdAt + settings.cooldown - now))))
    else if !delivers then (rows, Failure(DeliveryUnavailable))
    else (Retired(rows, key) + [Fresh(settings, key, code, now)], Success(|rows|))
  }

  function Missed(settings: Settings, row: Code, now: int): Code {
    row.(attempts := row.attempts + 1,
         lockedAt := if row.attempts + 1 >= settings.maxAttempts then Some(now) else row.lockedAt)
  }

  function Verify(settings: Settings, rows: seq<Code>, key: Key, code: string, now: int)
    : (seq<Code>, Result<nat, Refusal>)
  {
    var found := NewestUnused(rows, key);
    if found.None? || Expired(rows[found.value], now) then (rows, Failure(InvalidOrExpired))
    else
      var i, row := found.value, rows[found.value];
      if Locked(settings, row) then (rows, Failure(TooManyAttempts))
      else if Hashed(code) == row.hash then (rows[i := row.(used := true)], Success(i))
      else
        var missed := Missed(settings, row, now);
        (rows[i := missed], Failure(if Locked(settings, missed) then TooManyAttempts else InvalidOrExpired))
  }

  // ---- runs ----

  datatype Step =
    | Wait(passing: nat)
    | Request(key: Key, code: string, delivers: bool)
    | Attempt(key: Key, code: string)

  datatype State = State(now: int, rows: seq<Code>)

  const Start := State(0, [])

  function Next(settings: Settings, s: State, step: Step): State {
    match step
    case Wait(passing) => s.(now := s.now + passing)
    case Request(key, code, delivers) => s.(rows := Send(settings, s.rows, key, code, s.now, delivers).0)
    case Attempt(key, code) => s.(rows := Verify(settings, s.rows, key, code, s.now).0)
  }

  function RunFrom(settings: Settings, s: State, steps: seq<Step>): State {
    if steps == [] then s else Next(settings, RunFrom(settings, s, steps[..|steps| - 1]), steps[|steps| - 1])
  }

  function Run(settings: Settings, steps: seq<Step>): State {
    RunFrom(settings, Start, steps)
  }

  /** Each key has at most one unused code. */
  ghost predicate OneLiveCode(rows: seq<Code>) {
    forall i, j :: 0 <= i < j < |rows| && rows[i].key == rows[j].key ==> rows[i].used || rows[j].used
  }

  /** Codes stay in the table with their key, hash and dates; attempts, locks and use are never taken back. */
  ghost predicate Ages(before: seq<Code>, after: seq<Code>) {
    && |before| <= |after|
    && forall i :: 0 <= i < |before| ==>
         && after[i].key == before[i].key && after[i].hash == before[i].hash
         && after[i].expiresAt == before[i].expiresAt
         && (before[i].used ==> after[i].used) && before[i].attempts <= after[i].attempts
         && (before[i].lockedAt.Some? ==> after[i].lockedAt.Some?)
  }

  lemma StepKeepsOneLiveCode(settings: Settings, s: State, step: Step)
    requires OneLiveCode(s.rows)
    ensures OneLiveCode(Next(settings, s, step).rows) && Ages(s.rows, Next(settings, s, step).rows)
    ensures s.now <= Next(settings, s, step).now
  {
  }

  lemma {:induction false} RunKeepsOneLiveCode(settings: Settings, s: State, steps: seq<Step>)
    requires OneLiveCode(s.rows)
    ensures OneLiveCode(RunFrom(settings, s, steps).rows) && Ages(s.rows, RunFrom(settings, s, steps).rows)
    ensures s.now <= RunFrom(settings, s, steps).now
  {
    if steps != [] {
      RunKeepsOneLiveCode(settings, s, steps[..|steps| - 1]);
      StepKeepsOneLiveCode(settings, RunFrom(settings, s, steps[..|steps| - 1]), steps[|steps| - 1]);
    }
  }

  /** In every reachable state a key has at most one unused code. */
  lemma AtMostOneUnusedCode(settings: Settings, steps: seq<Step>)
    ensures OneLiveCode(Run(settings, steps).rows)
  {
    RunKeepsOneLiveCode(settings, Start, steps);
  }

  // ---- which codes are accepted ----

  /** Used, replaced, expired or locked. */
  predicate Dead(settings: Settings, row: Code, now: int) {
    row.used || Expired(row, now) || Locked(settings, row)
  }

  predicate Accepts(settings: Settings, s: State, step: Step, i: nat) {
    step.Attempt? && Verify(settings, s.rows, step.key, step.code, s.now).1 == Success(i)
  }

  /** The service accepts an attempt exactly when the key has a code that is not dead and it is that code. */
  lemma AcceptsExactlyTheLiveCode(settings: Settings, steps: seq<Step>, key: Key, code: string, i: nat)
    ensures var s := Run(settings, steps);
            Accepts(settings, s, Attempt(key, code), i) <==>
              && i < |s.rows| && s.rows[i].key == key && s.rows[i].hash == Hashed(code)
              && !Dead(settings, s.rows[i], s.now)
  {
    AtMostOneUnusedCode(settings, steps);
    var rows := Run(settings, steps).rows;
    if i < |rows| && rows[i].key == key && !rows[i].used {
      assert Live(rows, i, key);
    }
  }

  lemma DeathIsFinal(settings: Settings, s: State, steps: seq<Step>, i: nat)
    requires OneLiveCode(s.rows) && i < |s.rows| && Dead(settings, s.rows[i], s.now)
    ensures i < |RunFrom(settings, s, steps).rows|
    ensures Dead(settings, RunFrom(settings, s, steps).rows[i], RunFrom(settings, s, steps).now)
  {
  }

  /** A code that was used, replaced, expired or locked never verifies afterwards. */
  lemma DeadCodesNeverVerify(settings: Settings, steps: seq<Step>, more: seq<Step>, attempt: Step, i: nat)
    requires i < |Run(settings, steps).rows|
    requires Dead(settings, Run(settings, steps).rows[i], Run(settings, steps).now)
    ensures !Accepts(settings, RunFrom(settings, Run(settings, steps), more), attempt, i)
  {
    AtMostOneUnusedCode(settings, steps);
    DeathIsFinal(settings, Run(settings, steps), more, i);
  }

  /** An accepted code is spent, and a delivered new code retires every older code of its key. */
  lemma AcceptanceAndReplacementKill(settings: Settings, steps: seq<Step>, step: Step, i: nat)
    requires i < |Run(settings, steps).rows|
    ensures var s := Run(settings, steps);
            Accepts(settings, s, step, i)
            || (step.Request? && s.rows[i].key == step.key && |Next(settings, s, step).rows| > |s.rows|)
            ==> Dead(settings, Next(settings, s, step).rows[i], s.now)
  {
  }

  /** A new code is only refused while an unexpired one is younger than the cooldown; otherwise, once delivered, it is
      at once the only code its key accepts. */
  lemma ADeliveredCodeIsTheOnlyOne(settings: Settings, steps: seq<Step>, key: Key, code: string)
    requires key.identifier != "" && settings.expiry > 0 && settings.maxAttempts > 0
    ensures var s := Run(settings, steps);
            var s' := Next(settings, s, Request(key, code, true));
            if exists i :: Live(s.rows, i, key) && !Expired(s.rows[i], s.now)
                           && s.now < s.rows[i].createdAt + settings.cooldown
            then s' == s
            else forall guess, i: nat :: Accepts(settings, s', Attempt(key, guess), i) <==> i == |s.rows| && guess == code
  {
    var s, request := Run(settings, steps), Request(key, code, true);
    AtMostOneUnusedCode(settings, steps);
    var found := NewestUnused(s.rows, key);
    if !CoolingDown(settings, s.rows, key, s.now) {
      assert forall i :: Live(s.rows, i, key) ==> found == Some(i);
      var s' := Next(settings, s, request);
      assert (steps + [request])[..|steps|] == steps && Run(settings, steps + [request]) == s';
      forall guess, i: nat
        ensures Accepts(settings, s', Attempt(key, guess), i) <==> i == |s.rows| && guess == code
      {
        AcceptsExactlyTheLiveCode(settings, steps + [request], key, guess, i);
      }
    }
  }

  /** Left alone for d seconds, a delivered code is still accepted exactly while d is under its expiry, and a new request
      is refused exactly while d is under the cooldown as well. */
  lemma ADeliveredCodeLastsItsExpiry(settings: Settings, steps: seq<Step>, key: Key, code: string, d: nat, next: string)
    requires settings.maxAttempts > 0
    requires |Next(settings, Run(settings, steps), Request(key, code, true)).rows| > |Run(settings, steps).rows|
    ensures var i := |Run(settings, steps).rows|;
            var s := Next(settings, Next(settings, Run(settings, steps), Request(key, code, true)), Wait(d));
            && (Accepts(settings, s, Attempt(key, code), i) <==> d < settings.expiry)
            && (Next(settings, s, Request(key, next, true)) == s <==> d < settings.cooldown && d < settings.expiry)
  {
  }

  // ---- how often a code can be guessed at ----

  /** The step compares its code with the hash of code i. */
  predicate Guesses(settings: Settings, s: State, step: Step, i: nat) {
    && step.Attempt? && NewestUnused(s.rows, step.key) == Some(i)
    && !Expired(s.rows[i], s.now) && !Locked(settings, s.rows[i])
  }

  function GuessesAt(settings: Settings, steps: seq<Step>, i: nat): nat {
    if steps == [] then 0
    else
      GuessesAt(settings, steps[..|steps| - 1], i)
      + if Guesses(settings, Run(settings, steps[..|steps| - 1]), steps[|steps| - 1], i) then 1 else 0
  }

  lemma {:induction false} GuessesAreCounted(settings: Settings, steps: seq<Step>, i: nat)
    ensures var rows, guesses := Run(settings, steps).rows, GuessesAt(settings, steps, i);
            && (i >= |rows| ==> guesses == 0)
            && (i < |rows| && !rows[i].used ==> guesses == rows[i].attempts)
            && guesses <= settings.maxAttempts
  {
    if steps != [] {
      GuessesAreCounted(settings, steps[..|steps| - 1], i);
      StepCountsItsGuess(settings, Run(settings, steps[..|steps| - 1]), steps[|steps| - 1], i);
    }
  }

  lemma StepCountsItsGuess(settings: Settings, s: State, step: Step, i: nat)
    ensures var rows, guess := Next(settings, s, step).rows, if Guesses(settings, s, step, i) then 1 else 0;
            && |s.rows| <= |rows|
            && (i >= |s.rows| ==> guess == 0 && (i < |rows| ==> rows[i].attempts == 0))
            && (i < |s.rows| && !rows[i].used ==> !s.rows[i].used && rows[i].attempts == s.rows[i].attempts + guess)
            && (guess == 1 ==> i < |s.rows| && !s.rows[i].used && s.rows[i].attempts < settings.maxAttempts)
  {
  }

  /** Over any run, at most OTP_MAX_ATTEMPTS guesses are ever compared with one code. */
  lemma GuessesAreLimited(settings: Settings, steps: seq<Step>, i: nat)
    ensures GuessesAt(settings, steps, i) <= settings.maxAttempts
  {
    GuessesAreCounted(settings, steps, i);
  }

  /** An unused code is locked only when its last guess has been used up. */
  ghost predicate LockedByMisses(settings: Settings, rows: seq<Code>) {
    forall i :: 0 <= i < |rows| && rows[i].lockedAt.Some? ==> rows[i].attempts >= settings.maxAttempts
  }

  lemma {:induction false} LocksComeFromMisses(settings: Settings, steps: seq<Step>)
    ensures LockedByMisses(settings, Run(settings, steps).rows)
  {
    if steps != [] {
      LocksComeFromMisses(settings, steps[..|steps| - 1]);
    }
  }

  /** Every one of those guesses counts: an attempt is accepted exactly when it is the key's unused, unexpired code and fewer
      than OTP_MAX_ATTEMPTS guesses have been compared with it so far. */
  lemma {:induction false} AcceptedWhileGuessesRemain(settings: Settings, steps: seq<Step>, key: Key, code: string, i: nat)
    ensures var s := Run(settings, steps);
            Accepts(settings, s, Attempt(key, code), i) <==>
              && i < |s.rows| && s.rows[i].key == key && s.rows[i].hash == Hashed(code)
              && !s.rows[i].used && s.now < s.rows[i].expiresAt
              && GuessesAt(settings, steps, i) < settings.maxAttempts
  {
    AcceptsExactlyTheLiveCode(settings, steps, key, code, i);
    GuessesAreCounted(settings, steps, i);
    LocksComeFromMisses(settings, steps);
  }

  /** A request without an identifier, or whose code could not be delivered, changes nothing. */
  lemma AFailedRequestChangesNothing(settings: Settings, s: State, key: Key, code: string, delivers: bool)
    requires key.identifier == "" || !delivers
    ensures Next(settings, s, Request(key, code, delivers)) == s
    ensures Send(settings, s.rows, key, code, s.now, delivers).1.Failure?
    ensures Send(settings, s.rows, key, code, s.now, delivers).1 == Failure(IdentifierMissing) <==> key.identifier == ""
  {
  }

  /** A wrong guess at a key's unexpired code is counted against that code alone and told to be the last exactly when it was,
      or none was left; a key without such a code is told nothing and nothing is counted. */
  lemma {:induction false} AMissIsCounted(settings: Settings, steps: seq<Step>, key: Key, code: string)
    ensures var s := Run(settings, steps);
            var (rows, told) := Verify(settings, s.rows, key, code, s.now);
            && (forall i :: Live(s.rows, i, key) && s.now < s.rows[i].expiresAt && s.rows[i].hash != Hashed(code) ==>
                  && told == Failure(if GuessesAt(settings, steps, i) + 1 >= settings.maxAttempts then TooManyAttempts
                                     else InvalidOrExpired)
                  && |rows| == |s.rows| && (forall j :: 0 <= j < |rows| && j != i ==> rows[j] == s.rows[j])
                  && rows[i].attempts == s.rows[i].attempts
                     + (if GuessesAt(settings, steps, i) < settings.maxAttempts then 1 else 0))
            && ((forall i :: Live(s.rows, i, key) ==> s.now >= s.rows[i].expiresAt) ==>
                  rows == s.rows && told == Failure(InvalidOrExpired))
  {
    var s := Run(settings, steps);
    AtMostOneUnusedCode(settings, steps);
    LocksComeFromMisses(settings, steps);
    forall i | Live(s.rows, i, key) ensures GuessesAt(settings, steps, i) == s.rows[i].attempts {
      GuessesAreCounted(settings, steps, i);
    }
  }

  /** A request told to wait is told exactly how long: after that many seconds it goes through, and until then it is refused
      unless the code it waits for expires. */
  lemma {:induction false} TheWaitIsExact(settings: Settings, steps: seq<Step>, key: Key, code: string, seconds: int, d: nat)
    requires var s := Run(settings, steps); Send(settings, s.rows, key, code, s.now, true).1 == Failure(PleaseWait(seconds))
    ensures var s := Run(settings, steps);
            && seconds >= 1
            && (d >= seconds ==> Send(settings, s.rows, key, code, s.now + d, true).1.Success?)
            && (d < seconds ==>
                  || Send(settings, s.rows, key, code, s.now + d, true).1 == Failure(PleaseWait(seconds - d))
                  || exists i :: Live(s.rows, i, key) && Expired(s.rows[i], s.now + d))
  {
  }

  // ---- the service over its table ----

  class OtpService {
    const settings: Settings
    var rows: seq<Code>

    constructor (settings: Settings)
      ensures this.settings == settings && rows == []
    {
      this.settings := settings;
      rows := [];
    }

    method SendOtp(key: Key, code: string, now: int, delivers: bool) returns (sent: Result<nat, Refusal>)
      modifies this
      ensures (rows, sent) == Send(settings, old(rows), key, code, now, delivers)
    {
      if key.identifier == "" {
        return Failure(IdentifierMissing);
      }
      var savepoint := rows;
      var previous := NewestUnused(rows, key);
      if previous.Some? {
        var cooldownUntil := rows[previous.value].createdAt + settings.cooldown;
        if now < cooldownUntil && !Expired(rows[previous.value], now) {
          return Failure(PleaseWait(Max(1, cooldownUntil - now)));
        }
        rows := Retired(rows, key);
      } else {
        NothingToRetire(rows, key);
      }
      rows := rows + [Fresh(settings, key, code, now)];
      if !delivers {
        var last := |rows| - 1;
        rows := rows[last := rows[last].(used := true)];
        rows := savepoint; // the exception leaves the transaction, which undoes even the line above
        return Failure(DeliveryUnavailable);
      }
      sent := Success(|rows| - 1);
    }

    method VerifyOtp(key: Key, code: string, now: int) returns (verified: Result<nat, Refusal>)
      modifies this
      ensures (rows, verified) == Verify(settings, old(rows), key, code, now)
    {
      var found := NewestUnused(rows, key);
      if found.None? || Expired(rows[found.value], now) {
        return Failure(InvalidOrExpired);
      }
      if Locked(settings, rows[found.value]) {
        return Failure(TooManyAttempts);
      }
      var valid := VerifyCode(found.value, code, now);
      if !valid {
        return Failure(if Locked(settings, rows[found.value]) then TooManyAttempts else InvalidOrExpired);
      }
      rows := rows[found.value := rows[found.value].(used := true)];
      verified := Success(found.value);
    }

    /** Compares one code with one row, counting a miss and locking the row on the last one. */
    method VerifyCode(i: nat, code: string, now: int) returns (valid: bool)
      requires i < |rows|
      modifies this
      ensures valid <==> old(!Dead(settings, rows[i], now) && rows[i].hash == Hashed(code))
      ensures rows == if valid || old(Dead(settings, rows[i], now)) then old(rows)
                      else old(rows[i := Missed(settings, rows[i], now)])
    {
      if Expired(rows[i], now) || rows[i].used || Locked(settings, rows[i]) {
        return false;
      }
      valid := Hashed(code) == rows[i].hash;
      if !valid {
        var row := rows[i].(attempts := rows[i].attempts + 1);
        if row.attempts >= settings.maxAttempts {
          row := row.(lockedAt := Some(now));
        }
        rows := rows[i := row];
      }
    }
  }

  lemma NothingToRetire(rows: seq<Code>, key: Key)
    requires NewestUnused(rows, key).None?
    ensures Retired(rows, key) == rows
  {
  }
}
