/** The limit on requests served: a bucket of at most 400 tokens that is refilled only
    when it is empty, at 100 tokens a second since it was last refilled. */
module RateLimit {
  const MAX_TOKENS: int := 400

  datatype Bucket = Bucket(tokens: int, time: int)

  function Refilled(b: Bucket, now: int): Bucket
  {
    if b.tokens == 0 then
      Bucket(if MAX_TOKENS <= 100 * (now - b.time) then MAX_TOKENS else 100 * (now - b.time), now)
    else b
  }

  predicate Accepts(b: Bucket, now: int)
  {
    Refilled(b, now).tokens != 0
  }

  function After(b: Bucket, now: int): Bucket
  {
    var r := Refilled(b, now);
    if r.tokens == 0 then r else r.(tokens := r.tokens - 1)
  }

  class RateControl {
    var tokens: int
    var time: int

    constructor (now: int)
      ensures Value() == Bucket(MAX_TOKENS, now)
    {
      tokens, time := MAX_TOKENS, now;
    }

    function Value(): Bucket
      reads this
    {
      Bucket(tokens, time)
    }

    // token_bucket
    method Take(now: int) returns (ok: bool)
      modifies this
      ensures Value() == After(old(Value()), now)
      ensures ok <==> Accepts(old(Value()), now)
    {
      if tokens == 0 {
        tokens := if MAX_TOKENS <= 100 * (now - time) then MAX_TOKENS else 100 * (now - time);
        time := now;
      }
      if tokens == 0 {
        return false;
      }
      tokens := tokens - 1;
      ok := true;
    }
  }

  // ----- whole runs: the times at which requests come in -----

  ghost predicate Forward(last: int, times: seq<int>)
  {
    forall i: nat | i < |times| :: last <= times[i] && forall j: nat | i < j < |times| :: times[i] <= times[j]
  }

  function Run(b: Bucket, times: seq<int>): Bucket
  {
    if times == [] then b else After(Run(b, times[..|times| - 1]), times[|times| - 1])
  }

  function Accepted(b: Bucket, times: seq<int>): nat
  {
    if times == [] then 0 else
      var n := |times| - 1;
      Accepted(b, times[..n]) + (if Accepts(Run(b, times[..n]), times[n]) then 1 else 0)
  }

  // The bucket as it can be at time now
  predicate Sound(b: Bucket, now: int)
  {
    0 <= b.tokens <= MAX_TOKENS && b.time <= now
  }

  // The tokens never leave 0..400, and tokens spent and left are paid for by the
  // first 400 and the time since the start.
  lemma {:induction false} TokensArePaidFor(start: int, times: seq<int>)
    requires Forward(start, times)
    ensures var b := Run(Bucket(MAX_TOKENS, start), times);
      && 0 <= b.tokens <= MAX_TOKENS
      && start <= b.time <= (if times == [] then start else times[|times| - 1])
      && Accepted(Bucket(MAX_TOKENS, start), times) + b.tokens <= MAX_TOKENS + 100 * (b.time - start)
  {
    if times != [] {
      TokensArePaidFor(start, times[..|times| - 1]);
    }
  }

  // From its start at T0 to time T the node answers at most 400 + 100 (T - T0) requests.
  lemma AcceptedSinceStart(start: int, times: seq<int>, now: int)
    requires Forward(start, times) && (forall t | t in times :: t <= now) && start <= now
    ensures Accepted(Bucket(MAX_TOKENS, start), times) <= MAX_TOKENS + 100 * (now - start)
  {
    TokensArePaidFor(start, times);
    assert times != [] ==> times[|times| - 1] in times;
  }

  // In a window that starts from any sound bucket: before the first refill only the
  // tokens left are spent, and each later refill is paid for by time in the window.
  lemma {:induction false} WindowIsPaidFor(b: Bucket, from: int, times: seq<int>)
    requires Sound(b, from) && Forward(from, times)
    ensures var r := Run(b, times); var k := Accepted(b, times);
      && 0 <= r.tokens <= MAX_TOKENS
      && r.time <= (if times == [] then from else times[|times| - 1])
      && if r.time < from then k + r.tokens <= MAX_TOKENS
         else k + r.tokens <= 2 * MAX_TOKENS + 100 * (r.time - from)
  {
    if times != [] {
      WindowIsPaidFor(b, from, times[..|times| - 1]);
    }
  }

  lemma {:induction false} RunConcat(b: Bucket, a: seq<int>, c: seq<int>)
    ensures Run(b, a + c) == Run(Run(b, a), c)
    ensures Accepted(b, a + c) == Accepted(b, a) + Accepted(Run(b, a), c)
  {
    hide After, Accepts;
    if c == [] {
      assert a + c == a;
    } else {
      var n := |c| - 1;
      RunConcat(b, a, c[..n]);
      assert (a + c)[..|a| + n] == a + c[..n];
      assert (a + c)[|a| + n] == c[n];
    }
  }

  // In any window [s, t] of any run at most 800 + 100 (t - s) requests are answered.
  lemma AcceptedInWindow(start: int, before: seq<int>, during: seq<int>, s: int, t: int)
    requires Forward(start, before) && (forall u | u in before :: u <= s) && start <= s <= t
    requires Forward(s, during) && forall u | u in during :: u <= t
    ensures var b := Bucket(MAX_TOKENS, start);
      Accepted(b, before + during) - Accepted(b, before) <= 2 * MAX_TOKENS + 100 * (t - s)
  {
    var b := Bucket(MAX_TOKENS, start);
    TokensArePaidFor(start, before);
    assert before != [] ==> before[|before| - 1] in before;
    assert during != [] ==> during[|during| - 1] in during;
    RunConcat(b, before, during);
    WindowIsPaidFor(Run(b, before), s, during);
  }

  // ----- what is not refused -----

  // Is request i of the run accepted?
  predicate Served(start: int, times: seq<int>, i: nat)
    requires i < |times|
  {
    Accepted(Bucket(MAX_TOKENS, start), times[..i + 1]) == Accepted(Bucket(MAX_TOKENS, start), times[..i]) + 1
  }

  lemma ServedIsAccepts(start: int, times: seq<int>, i: nat)
    requires i < |times|
    ensures Served(start, times, i) <==> Accepts(Run(Bucket(MAX_TOKENS, start), times[..i]), times[i])
    ensures Run(Bucket(MAX_TOKENS, start), times[..i + 1])
         == After(Run(Bucket(MAX_TOKENS, start), times[..i]), times[i])
  {
    hide Accepts, After;
    assert times[..i + 1][..i] == times[..i];
  }

  // The first 400 requests are accepted.
  lemma {:induction false} FirstRequestsServed(start: int, times: seq<int>, i: nat)
    requires Forward(start, times) && i < |times| && i < 400
    ensures Served(start, times, i)
    ensures Run(Bucket(MAX_TOKENS, start), times[..i + 1]).tokens == 400 - (i + 1)
  {
    hide Run, Served;
    ServedIsAccepts(start, times, i);
    if i == 0 {
      RunOfNone(start, times);
    } else {
      FirstRequestsServed(start, times, i - 1);
    }
  }

  lemma RunOfNone(start: int, times: seq<int>)
    ensures Run(Bucket(MAX_TOKENS, start), times[..0]) == Bucket(400, start)
  {}

  // A request that is refused finds a bucket that was filled at the same second, and leaves
  // it empty with that time.
  lemma RefusedAtOnce(start: int, times: seq<int>, i: nat)
    requires Forward(start, times) && i < |times| && !Served(start, times, i)
    ensures Run(Bucket(MAX_TOKENS, start), times[..i]) == Bucket(0, times[i])
    ensures Run(Bucket(MAX_TOKENS, start), times[..i + 1]) == Bucket(0, times[i])
  {
    hide Run, Served;
    ServedIsAccepts(start, times, i);
    RunIsSound(start, times, i);
  }

  lemma RunIsSound(start: int, times: seq<int>, i: nat)
    requires Forward(start, times) && i < |times|
    ensures var b := Run(Bucket(MAX_TOKENS, start), times[..i]); 0 <= b.tokens <= 400 && b.time <= times[i]
  {
    hide Run;
    TokensArePaidFor(start, times[..i]);
    assert times[..i] != [] ==> times[..i][i - 1] == times[i - 1];
  }

  // After a refusal in one second, the requests of later seconds are accepted again: as many
  // from the first one on as a hundred for each second gone by till then, or 400.
  lemma {:induction false} ServedAgain(start: int, times: seq<int>, i: nat, j: nat, k: nat)
    requires Forward(start, times) && i < j <= k < |times| && !Served(start, times, i)
    requires times[j - 1] == times[i] < times[j]
    requires k - j < 100 * (times[j] - times[i]) && k - j < 400
    ensures Served(start, times, k)
    ensures
      var filled := if 100 * (times[j] - times[i]) < 400 then 100 * (times[j] - times[i]) else 400;
      Run(Bucket(MAX_TOKENS, start), times[..k + 1]) == Bucket(filled - 1 - (k - j), times[j])
  {
    hide Run, Served;
    ServedIsAccepts(start, times, k);
    if k == j {
      StillEmpty(start, times, i, j);
    } else {
      ServedAgain(start, times, i, j, k - 1);
    }
  }

  // Until the second is over the bucket stays empty.
  lemma {:induction false} StillEmpty(start: int, times: seq<int>, i: nat, j: nat)
    requires Forward(start, times) && i < j <= |times| && !Served(start, times, i) && times[j - 1] == times[i]
    ensures Run(Bucket(MAX_TOKENS, start), times[..j]) == Bucket(0, times[i])
  {
    hide Run, Served;
    if j == i + 1 {
      RefusedAtOnce(start, times, i);
    } else {
      assert times[i] <= times[j - 2] <= times[j - 1];
      StillEmpty(start, times, i, j - 1);
      ServedIsAccepts(start, times, j - 1);
    }
  }

  // The code over a run
  method Serve(start: int, times: seq<int>) returns (served: seq<bool>)
    ensures |served| == |times| && forall i: nat | i < |times| :: served[i] <==> Served(start, times, i)
  {
    hide Served;
    var c := new RateControl(start);
    served := [];
    for i := 0 to |times|
      invariant fresh(c) && c.Value() == Run(Bucket(MAX_TOKENS, start), times[..i])
      invariant |served| == i && forall j: nat | j < i :: served[j] <==> Served(start, times, j)
    {
      ServedIsAccepts(start, times, i);
      var ok := c.Take(times[i]);
      served := served + [ok];
    }
  }
}
