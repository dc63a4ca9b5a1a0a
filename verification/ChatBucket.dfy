/** The per-connection frame limiter of the chat consumer: a token bucket of 30 frames refilled at 15 frames a second. */
module ChatBucket {
  const CAPACITY := 30.0
  const REFILL_PER_SECOND := 15.0

  datatype Bucket = Bucket(tokens: real, refilledAt: real)

  function Opened(at: real): Bucket {
    Bucket(CAPACITY, at)
  }

  function Refill(bucket: Bucket, now: real): real {
    var elapsed := if now > bucket.refilledAt then now - bucket.refilledAt else 0.0;
    var tokens := bucket.tokens + elapsed * REFILL_PER_SECOND;
    if tokens < CAPACITY then tokens else CAPACITY
  }

  predicate Admits(bucket: Bucket, now: real) {
    Refill(bucket, now) >= 1.0
  }

  /** The bucket after one frame, admitted or dropped. */
  function Take(bucket: Bucket, now: real): Bucket {
    var tokens := Refill(bucket, now);
    Bucket(if tokens < 1.0 then tokens else tokens - 1.0, now)
  }

  // ---- runs: one connection, any frames ----

  function After(start: real, frames: seq<real>): Bucket {
    if frames == [] then Opened(start) else Take(After(start, frames[..|frames| - 1]), frames[|frames| - 1])
  }

  predicate Accepted(start: real, frames: seq<real>, k: nat)
    requires k < |frames|
  {
    Admits(After(start, frames[..k]), frames[k])
  }

  /** The clock never runs backwards, and the connection opens before its first frame. */
  predicate Clocked(start: real, frames: seq<real>) {
    && (forall k :: 0 <= k < |frames| ==> start <= frames[k])
    && (forall i, j :: 0 <= i <= j < |frames| ==> frames[i] <= frames[j])
  }

  /** How many of the frames that arrive in the closed window [from, to] are accepted. */
  function AcceptedIn(start: real, frames: seq<real>, from: real, to: real): nat {
    if frames == [] then 0
    else
      var last := |frames| - 1;
      AcceptedIn(start, frames[..last], from, to)
      + if from <= frames[last] <= to && Accepted(start, frames, last) then 1 else 0
  }

  lemma {:induction false} TokensStayInRange(start: real, frames: seq<real>)
    ensures 0.0 <= After(start, frames).tokens <= 30.0
    ensures After(start, frames).refilledAt == if frames == [] then start else frames[|frames| - 1]
  {
    if frames != [] {
      TokensStayInRange(start, frames[..|frames| - 1]);
    }
  }

  /** What the window has already let through, plus what is still in the bucket, never outgrows the budget. */
  lemma {:induction false} Potential(start: real, frames: seq<real>, from: real, to: real)
    requires Clocked(start, frames) && from <= to
    ensures var n, bucket := AcceptedIn(start, frames, from, to) as real, After(start, frames);
            && n <= CAPACITY + REFILL_PER_SECOND * (to - from)
            && (frames != [] && from <= frames[|frames| - 1] <= to ==>
                  n + bucket.tokens <= CAPACITY + REFILL_PER_SECOND * (bucket.refilledAt - from))
            && (frames == [] || frames[|frames| - 1] < from ==> n == 0.0)
  {
    if frames != [] {
      var earlier := frames[..|frames| - 1];
      assert frames[..|frames| - 1] == earlier;
      Potential(start, earlier, from, to);
      TokensStayInRange(start, earlier);
      if earlier != [] {
        assert earlier[|earlier| - 1] == frames[|frames| - 2] <= frames[|frames| - 1];
      }
    }
  }

  /** In every window [from, to], at most 30 + 15 * (to - from) frames get past the limiter. */
  lemma AcceptedFramesAreBounded(start: real, frames: seq<real>, from: real, to: real)
    requires Clocked(start, frames) && from <= to
    ensures AcceptedIn(start, frames, from, to) as real <= 30.0 + 15.0 * (to - from)
  {
    Potential(start, frames, from, to);
  }

  // ---- the limiter drops nothing it could afford ----

  /** Frames i to j together fit the budget of the time they span. */
  predicate Fits(frames: seq<real>, i: nat, j: nat)
    requires i <= j < |frames|
  {
    (j - i + 1) as real <= 30.0 + 15.0 * (frames[j] - frames[i])
  }

  predicate Conforms(frames: seq<real>) {
    forall i, j :: 0 <= i <= j < |frames| ==> Fits(frames, i, j)
  }

  predicate AllAccepted(start: real, frames: seq<real>) {
    forall k :: 0 <= k < |frames| ==> Accepted(start, frames, k)
  }

  lemma PrefixesAgree(start: real, frames: seq<real>, n: nat)
    requires n <= |frames|
    ensures Clocked(start, frames) ==> Clocked(start, frames[..n])
    ensures forall k :: 0 <= k < n ==> Accepted(start, frames[..n], k) == Accepted(start, frames, k)
  {
    forall k | 0 <= k < n ensures Accepted(start, frames[..n], k) == Accepted(start, frames, k) {
      assert frames[..n][..k] == frames[..k];
    }
  }

  /** While nothing has been dropped, the bucket was last full at some frame `full`, and only frames have drained it. */
  lemma {:induction false} LastFull(start: real, frames: seq<real>, j: nat) returns (full: nat)
    requires Clocked(start, frames) && j < |frames|
    requires forall k :: 0 <= k < j ==> Accepted(start, frames, k)
    ensures full <= j
    ensures Refill(After(start, frames[..j]), frames[j])
         == CAPACITY + REFILL_PER_SECOND * (frames[j] - frames[full]) - (j - full) as real
  {
    TokensStayInRange(start, frames[..j]);
    full := j;
    if j > 0 {
      assert frames[..j][..j - 1] == frames[..j - 1];
      var before := LastFull(start, frames, j - 1);
      var bucket := After(start, frames[..j - 1]);
      assert Accepted(start, frames, j - 1);
      assert After(start, frames[..j]) == Bucket(Refill(bucket, frames[j - 1]) - 1.0, frames[j - 1]);
      if Refill(After(start, frames[..j]), frames[j]) < CAPACITY {
        full := before;
      }
    }
  }

  lemma {:induction false} RunOfAcceptedFrames(start: real, frames: seq<real>, i: nat)
    requires Clocked(start, frames) && AllAccepted(start, frames) && i < |frames|
    ensures AcceptedIn(start, frames, frames[i], frames[|frames| - 1]) >= |frames| - i
    decreases |frames|
  {
    if i < |frames| - 1 {
      var earlier := frames[..|frames| - 1];
      PrefixesAgree(start, frames, |frames| - 1);
      RunOfAcceptedFrames(start, earlier, i);
      WiderWindow(start, earlier, frames[i], earlier[|earlier| - 1], frames[|frames| - 1]);
    }
    assert Accepted(start, frames, |frames| - 1);
  }

  lemma {:induction false} WiderWindow(start: real, frames: seq<real>, from: real, to: real, wider: real)
    requires to <= wider
    ensures AcceptedIn(start, frames, from, to) <= AcceptedIn(start, frames, from, wider)
  {
    if frames != [] {
      WiderWindow(start, frames[..|frames| - 1], from, to, wider);
    }
  }

  /** The limiter is exact: it accepts every frame of a connection exactly when every stretch of frames fits
      30 + 15 * (its duration). */
  lemma NothingIsDroppedIffTheTrafficConforms(start: real, frames: seq<real>)
    requires Clocked(start, frames)
    ensures AllAccepted(start, frames) <==> Conforms(frames)
  {
    if AllAccepted(start, frames) {
      forall i, j | 0 <= i <= j < |frames| ensures Fits(frames, i, j) {
        PrefixesAgree(start, frames, j + 1);
        RunOfAcceptedFrames(start, frames[..j + 1], i);
        AcceptedFramesAreBounded(start, frames[..j + 1], frames[i], frames[j]);
      }
    }
    if Conforms(frames) {
      ConformingFramesAreAccepted(start, frames, |frames|);
    }
  }

  lemma {:induction false} ConformingFramesAreAccepted(start: real, frames: seq<real>, n: nat)
    requires Clocked(start, frames) && Conforms(frames) && n <= |frames|
    ensures forall k :: 0 <= k < n ==> Accepted(start, frames, k)
  {
    if n > 0 {
      ConformingFramesAreAccepted(start, frames, n - 1);
      var full := LastFull(start, frames, n - 1);
      assert Fits(frames, full, n - 1);
    }
  }

  // ---- which frames are accepted ----

  /** How many of frames i to k - 1 were accepted. */
  function AcceptedAmong(start: real, frames: seq<real>, i: nat, k: nat): nat
    requires i <= k <= |frames|
    decreases k
  {
    if i == k then 0
    else AcceptedAmong(start, frames, i, k - 1) + if Accepted(start, frames, k - 1) then 1 else 0
  }

  /** What is left at frame k of the budget of the time since frame i. */
  function LeftSince(start: real, frames: seq<real>, i: nat, k: nat): real
    requires i <= k < |frames|
  {
    30.0 + 15.0 * (frames[k] - frames[i]) - AcceptedAmong(start, frames, i, k) as real
  }

  lemma OneFrameLater(start: real, frames: seq<real>, k: nat)
    requires Clocked(start, frames) && 0 < k < |frames|
    ensures var before := Refill(After(start, frames[..k - 1]), frames[k - 1]);
            var spent := if Accepted(start, frames, k - 1) then 1.0 else 0.0;
            var left := before - spent + 15.0 * (frames[k] - frames[k - 1]);
            Refill(After(start, frames[..k]), frames[k]) == if left < 30.0 then left else 30.0
  {
    assert frames[..k][..k - 1] == frames[..k - 1];
    assert After(start, frames[..k]) == Take(After(start, frames[..k - 1]), frames[k - 1]);
  }

  /** The tokens at frame k are the least that any stretch up to it has left. */
  lemma {:induction false} TokensAreTheLeastLeft(start: real, frames: seq<real>, k: nat) returns (least: nat)
    requires Clocked(start, frames) && k < |frames|
    ensures least <= k && Refill(After(start, frames[..k]), frames[k]) == LeftSince(start, frames, least, k)
    ensures forall i :: 0 <= i <= k ==>
              Refill(After(start, frames[..k]), frames[k]) <= LeftSince(start, frames, i, k)
  {
    least := k;
    if k > 0 {
      var before := TokensAreTheLeastLeft(start, frames, k - 1);
      OneFrameLater(start, frames, k);
      forall i | 0 <= i < k
        ensures LeftSince(start, frames, i, k)
             == LeftSince(start, frames, i, k - 1) + 15.0 * (frames[k] - frames[k - 1])
                - if Accepted(start, frames, k - 1) then 1.0 else 0.0
      {
      }
      if Refill(After(start, frames[..k]), frames[k]) < 30.0 {
        least := before;
      }
    } else {
      assert frames[..0] == [];
    }
  }

  /** Every frame is judged by the budget alone: it is accepted exactly when, together with the frames accepted before it, it
      fits the budget of every stretch that ends with it. A dropped frame costs nothing. */
  lemma {:induction false} AFrameIsAcceptedIffItFits(start: real, frames: seq<real>, k: nat)
    requires Clocked(start, frames) && k < |frames|
    ensures Accepted(start, frames, k) <==>
              forall i :: 0 <= i <= k ==>
                AcceptedAmong(start, frames, i, k) as real + 1.0 <= 30.0 + 15.0 * (frames[k] - frames[i])
  {
    var least := TokensAreTheLeastLeft(start, frames, k);
    assert LeftSince(start, frames, least, k) >= 1.0 <==>
      AcceptedAmong(start, frames, least, k) as real + 1.0 <= 30.0 + 15.0 * (frames[k] - frames[least]);
    forall i | 0 <= i <= k && Accepted(start, frames, k)
      ensures AcceptedAmong(start, frames, i, k) as real + 1.0 <= 30.0 + 15.0 * (frames[k] - frames[i])
    {
      assert LeftSince(start, frames, i, k) >= 1.0;
    }
  }

  /** A client that waits a fifteenth of a second between frames is never limited, whatever happened before. */
  lemma APacedFrameIsAccepted(start: real, frames: seq<real>, k: nat)
    requires 0 < k < |frames| && frames[k] - frames[k - 1] >= 1.0 / 15.0
    ensures Accepted(start, frames, k)
  {
    TokensStayInRange(start, frames[..k]);
  }
}
