/** The retry loop of `get_stopped_instances_in_region_compartment`: up to
    three calls of `list_instances`, a doubling back-off (5 s, then 10 s)
    after a transient error, and `[]` on any other failure. The SDK call is
    the input `call`: `call(k)` is the outcome of attempt k (from 0). The
    sleeps are returned instead of performed. */
module Retry {
  import opened Model

  const MaxRetries: nat := 3
  const InitialRetryDelay: nat := 5
  const TransientKeywords: seq<string> := ["timeout", "connection", "max retries"]

  function LowerChar(c: char): char {
    if 'A' <= c <= 'Z' then (c as int + 32) as char else c
  }

  /** `str.lower()` on ASCII letters. */
  function Lower(s: string): (r: string)
    ensures |r| == |s|
    ensures forall i :: 0 <= i < |s| ==> r[i] == LowerChar(s[i])
  {
    if s == [] then [] else [LowerChar(s[0])] + Lower(s[1..])
  }

  predicate OccursAt(s: string, sub: string, i: nat) {
    i + |sub| <= |s| && s[i..i + |sub|] == sub
  }

  /** `sub in s` for strings. */
  predicate Contains(s: string, sub: string) {
    exists i: nat | i <= |s| :: OccursAt(s, sub, i)
  }

  /** `keyword` (all lower case) occurs in `s` at `i` when upper-case
      letters of `s` are read as lower case. */
  predicate MatchesIgnoringCase(s: string, keyword: string, i: nat) {
    i + |keyword| <= |s| && forall j :: 0 <= j < |keyword| ==> LowerChar(s[i + j]) == keyword[j]
  }

  /** Looking for a keyword in the lower-cased text is comparing it with the
      text character by character, ignoring case. */
  lemma LowerOccurrence(s: string, keyword: string, i: nat)
    ensures OccursAt(Lower(s), keyword, i) <==> MatchesIgnoringCase(s, keyword, i)
  {
    var l := Lower(s);
    if i + |keyword| <= |s| {
      if MatchesIgnoringCase(s, keyword, i) {
        assert l[i..i + |keyword|] == keyword by {
          forall j | 0 <= j < |keyword| ensures l[i..i + |keyword|][j] == keyword[j] {
            assert l[i..i + |keyword|][j] == l[i + j];
          }
        }
      }
      if OccursAt(l, keyword, i) {
        forall j | 0 <= j < |keyword| ensures LowerChar(s[i + j]) == keyword[j] {
          assert l[i..i + |keyword|][j] == l[i + j];
        }
      }
    }
  }

  /** An error worth retrying: its text names a timeout, a connection
      problem or exhausted SDK retries, in any letter case. */
  predicate IsTransient(message: string): (transient: bool)
    ensures transient <==>
      exists keyword, i: nat :: keyword in TransientKeywords && MatchesIgnoringCase(message, keyword, i)
  {
    forall keyword, i: nat ensures OccursAt(Lower(message), keyword, i) <==> MatchesIgnoringCase(message, keyword, i) {
      LowerOccurrence(message, keyword, i);
    }
    exists k :: k in TransientKeywords && Contains(Lower(message), k)
  }

  /** What the loop returns, and the delays it sleeps, from attempt `attempt`
      with back-off `delay` on. */
  function RetryFrom(call: nat -> CallOutcome, attempt: nat, delay: nat): (res: (seq<RawInstance>, seq<nat>))
    requires attempt < MaxRetries
    decreases MaxRetries - attempt
  {
    match call(attempt)
    case Returned(xs) => (xs, [])
    case Raised(msg) =>
      if attempt < MaxRetries - 1 && IsTransient(msg) then
        var rest := RetryFrom(call, attempt + 1, delay * 2);
        (rest.0, [delay] + rest.1)
      else ([], [])
  }

  /** The instances one region/compartment scan yields. */
  function FetchInstances(call: nat -> CallOutcome): seq<RawInstance> {
    RetryFrom(call, 0, InitialRetryDelay).0
  }

  /** `get_stopped_instances_in_region_compartment(region, compartment_id)`.
      Attempt k + 1 happens only after attempt k raised a transient error;
      the last attempt made decides: its instances, or `[]` if it raised. */
  method GetStoppedInstancesWithRetry(call: nat -> CallOutcome)
    returns (instances: seq<RawInstance>, sleeps: seq<nat>)
    ensures |sleeps| < MaxRetries
    ensures sleeps == [5, 10][..|sleeps|]
    ensures forall k :: 0 <= k < |sleeps| ==> call(k).Raised? && IsTransient(call(k).message)
    ensures call(|sleeps|).Returned? ==> instances == call(|sleeps|).instances
    ensures call(|sleeps|).Raised? ==>
      instances == [] && (|sleeps| == MaxRetries - 1 || !IsTransient(call(|sleeps|).message))
    ensures (instances, sleeps) == RetryFrom(call, 0, InitialRetryDelay)
  {
    var attempt: nat := 0;
    var retryDelay: nat := InitialRetryDelay;
    sleeps := [];
    assert sleeps + RetryFrom(call, attempt, retryDelay).1 == RetryFrom(call, attempt, retryDelay).1;
    while true
      invariant attempt < MaxRetries && attempt == |sleeps|
      invariant sleeps == [5, 10][..attempt]
      invariant retryDelay == [5, 10, 20][attempt]
      invariant forall k :: 0 <= k < attempt ==> call(k).Raised? && IsTransient(call(k).message)
      invariant RetryFrom(call, 0, InitialRetryDelay).0 == RetryFrom(call, attempt, retryDelay).0
      invariant RetryFrom(call, 0, InitialRetryDelay).1 == sleeps + RetryFrom(call, attempt, retryDelay).1
      decreases MaxRetries - attempt
    {
      match call(attempt)
      case Returned(xs) =>
        assert sleeps + [] == sleeps;
        return xs, sleeps;
      case Raised(message) =>
        if attempt < MaxRetries - 1 && IsTransient(message) {
          ghost var rest := RetryFrom(call, attempt + 1, retryDelay * 2);
          assert RetryFrom(call, attempt, retryDelay).1 == [retryDelay] + rest.1;
          assert sleeps + ([retryDelay] + rest.1) == (sleeps + [retryDelay]) + rest.1;
          sleeps := sleeps + [retryDelay];
          retryDelay := retryDelay * 2;
          attempt := attempt + 1;
          continue;
        }
        assert sleeps + [] == sleeps;
        return [], sleeps;
    }
  }

  /** A scan whose calls all raise yields nothing. */
  lemma FailingScanYieldsNothing(call: nat -> CallOutcome)
    requires forall k: nat :: k < MaxRetries ==> call(k).Raised?
    ensures FetchInstances(call) == []
  {
  }

  /** A first call that fails with a non-transient error ends the scan: no
      instances and no sleep. */
  lemma PermanentErrorIsNotRetried(call: nat -> CallOutcome)
    requires call(0).Raised? && !IsTransient(call(0).message)
    ensures RetryFrom(call, 0, InitialRetryDelay) == ([], [])
  {
  }

  /** Matching ignores case. */
  lemma TransientIgnoresCase()
    ensures IsTransient("TIMEOUT")
  {
    var m := "TIMEOUT";
    var l := Lower(m);
    assert l == "timeout" by {
      assert l[0] == LowerChar(m[0]) == 't';
      assert l[1] == LowerChar(m[1]) == 'i';
      assert l[2] == LowerChar(m[2]) == 'm';
      assert l[3] == LowerChar(m[3]) == 'e';
      assert l[4] == LowerChar(m[4]) == 'o';
      assert l[5] == LowerChar(m[5]) == 'u';
      assert l[6] == LowerChar(m[6]) == 't';
    }
    assert l[0..7] == l;
    assert OccursAt(l, "timeout", 0);
    assert "timeout" in TransientKeywords;
  }

  /** A message too short to hold any keyword is not transient. */
  lemma ShortMessageIsNotTransient()
    ensures !IsTransient("denied")
  {
  }
}
