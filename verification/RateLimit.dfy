/**
 The sliding minute of the API gateway: one list of admission times per bucket.

 Time is a real number of seconds read from a clock that does not run backwards.
 */
module RateLimit {
  import opened Wrappers

  const WINDOW := 60.0

  /** A call that reached the limiter. */
  datatype Call = Call(key: string, at: real, limit: int, admitted: bool)

  // ---------------------------------------------------------------- what a history of calls should look like

  /** The admissions of `key` less than a minute old at `now`, oldest first. */
  function Recent(log: seq<Call>, key: string, now: real): seq<real> {
    if log == [] then [] else
      var call := log[|log| - 1];
      var rest := Recent(log[..|log| - 1], key, now);
      if call.key == key && call.admitted && now - call.at < WINDOW then rest + [call.at] else rest
  }

  /** They are the times of exactly those admitted calls of the key that are less than sixty seconds old, in order. */
  lemma {:induction false} RecentAre(log: seq<Call>, key: string, now: real, call: Call)
    ensures Recent([], key, now) == []
    ensures Recent(log + [call], key, now) ==
            Recent(log, key, now) + if call.key == key && call.admitted && now < call.at + 60.0 then [call.at] else []
  {
    assert (log + [call])[..|log|] == log;
  }

  /** The clock never runs backwards. */
  ghost predicate Orderly(log: seq<Call>) {
    forall i, j :: 0 <= i < j < |log| ==> log[i].at <= log[j].at
  }

  ghost predicate Decided(before: seq<Call>, call: Call) {
    call.admitted <==> |Recent(before, call.key, call.at)| < call.limit
  }

  /** A call is refused exactly when the limit it came with is used up by the last minute's admissions. */
  ghost predicate Fair(log: seq<Call>) {
    forall i :: 0 <= i < |log| ==> Decided(log[..i], log[i])
  }

  lemma FairSnoc(log: seq<Call>, call: Call)
    requires Fair(log) && Decided(log, call)
    ensures Fair(log + [call])
  {
    var longer := log + [call];
    forall i | 0 <= i < |longer|
      ensures Decided(longer[..i], longer[i])
    {
      assert longer[..i] == log[..i];
      assert log[..|log|] == log;
      assert i < |log| ==> Decided(log[..i], log[i]);
    }
  }

  lemma FairFront(log: seq<Call>)
    requires Fair(log) && log != []
    ensures Fair(log[..|log| - 1]) && Decided(log[..|log| - 1], log[|log| - 1])
  {
    var front := log[..|log| - 1];
    forall i | 0 <= i < |front|
      ensures Decided(front[..i], front[i])
    {
      assert front[..i] == log[..i];
    }
  }

  // ---------------------------------------------------------------- what the limit guarantees

  /** How many calls of `key` were admitted in the sixty seconds that begin at `start`. */
  function AdmittedInMinute(log: seq<Call>, key: string, start: real): nat {
    if log == [] then 0 else
      var call := log[|log| - 1];
      AdmittedInMinute(log[..|log| - 1], key, start)
      + if call.key == key && call.admitted && start <= call.at < start + 60.0 then 1 else 0
  }

  lemma {:induction false} MinuteIsRecent(log: seq<Call>, key: string, start: real, now: real)
    requires now < start + WINDOW
    ensures AdmittedInMinute(log, key, start) <= |Recent(log, key, now)|
  {
    if log != [] {
      MinuteIsRecent(log[..|log| - 1], key, start, now);
    }
  }

  /** Any sixty seconds, wherever they begin, hold at most as many admissions as the largest limit admitted under. */
  lemma {:induction false} AnyMinute(log: seq<Call>, key: string, start: real, most: nat)
    requires Fair(log)
    requires forall call :: call in log && call.key == key && call.admitted ==> call.limit <= most
    ensures AdmittedInMinute(log, key, start) <= most
    decreases |log|
  {
    if log != [] {
      var front, call := log[..|log| - 1], log[|log| - 1];
      FairFront(log);
      AnyMinute(front, key, start, most);
      if call.key == key && call.admitted && start <= call.at < start + WINDOW {
        MinuteIsRecent(front, key, start, call.at);
        assert call in log;
      }
    }
  }

  /** The minute that ends at an admission holds no more admissions, this one included, than that call's own limit. */
  lemma MinuteEndingAtAnAdmission(log: seq<Call>, i: nat)
    requires Fair(log) && i < |log| && log[i].admitted
    ensures |Recent(log[..i + 1], log[i].key, log[i].at)| <= log[i].limit
  {
    assert log[..i + 1][..i] == log[..i];
    assert Decided(log[..i], log[i]);
  }

  // ---------------------------------------------------------------- buckets do not affect each other

  /** The calls made on one key. */
  function Only(log: seq<Call>, key: string): seq<Call> {
    if log == [] then [] else
      var rest := Only(log[..|log| - 1], key);
      if log[|log| - 1].key == key then rest + [log[|log| - 1]] else rest
  }

  lemma {:induction false} RecentOfOnly(log: seq<Call>, key: string, now: real)
    ensures Recent(Only(log, key), key, now) == Recent(log, key, now)
  {
    if log != [] {
      var rest := Only(log[..|log| - 1], key);
      RecentOfOnly(log[..|log| - 1], key, now);
      assert (rest + [log[|log| - 1]])[..|rest|] == rest;
    }
  }

  lemma {:induction false} OnlyIsFair(log: seq<Call>, key: string)
    requires Fair(log)
    ensures Fair(Only(log, key))
    decreases |log|
  {
    if log != [] {
      var front, call := log[..|log| - 1], log[|log| - 1];
      FairFront(log);
      OnlyIsFair(front, key);
      if call.key == key {
        RecentOfOnly(front, key, call.at);
        FairSnoc(Only(front, key), call);
      }
    }
  }

  /** The same calls, whatever was decided about them. */
  ghost predicate SameRequests(log: seq<Call>, other: seq<Call>) {
    && |log| == |other|
    && forall i :: 0 <= i < |log| ==> log[i].(admitted := true) == other[i].(admitted := true)
  }

  lemma {:induction false} RequestsDetermineVerdicts(log: seq<Call>, other: seq<Call>)
    requires Fair(log) && Fair(other) && SameRequests(log, other)
    ensures log == other
    decreases |log|
  {
    if log != [] {
      var last := |log| - 1;
      FairFront(log);
      FairFront(other);
      RequestsDetermineVerdicts(log[..last], other[..last]);
      assert log[last].(admitted := true) == other[last].(admitted := true);
      assert log == log[..last] + [log[last]];
      assert other == other[..last] + [other[last]];
    }
  }

  /** What a key's calls are told depends on that key's calls alone, however others are mixed in. */
  lemma KeysDoNotInterfere(log: seq<Call>, other: seq<Call>, key: string)
    requires Fair(log) && Fair(other)
    requires SameRequests(Only(log, key), Only(other, key))
    ensures Only(log, key) == Only(other, key)
  {
    OnlyIsFair(log, key);
    OnlyIsFair(other, key);
    RequestsDetermineVerdicts(Only(log, key), Only(other, key));
  }

  // ---------------------------------------------------------------- the limiter

  /** `[t for t in window if now - t < 60]` */
  function Kept(window: seq<real>, now: real): seq<real> {
    if window == [] then [] else
      var rest := Kept(window[..|window| - 1], now);
      var t := window[|window| - 1];
      if now - t < WINDOW then rest + [t] else rest
  }

  lemma KeptSnoc(window: seq<real>, t: real, now: real)
    ensures Kept(window + [t], now) == if now - t < WINDOW then Kept(window, now) + [t] else Kept(window, now)
  {
    assert (window + [t])[..|window|] == window;
  }

  /** Pruning at a later time gives what was recent at that time: nothing pruned earlier comes back. */
  lemma {:induction false} PruneLater(log: seq<Call>, key: string, earlier: real, now: real)
    requires earlier <= now
    ensures Kept(Recent(log, key, earlier), now) == Recent(log, key, now)
  {
    if log != [] {
      var front, call := log[..|log| - 1], log[|log| - 1];
      PruneLater(front, key, earlier, now);
      KeptSnoc(Recent(front, key, earlier), call.at, now);
    }
  }

  method Prune(window: seq<real>, now: real) returns (kept: seq<real>)
    ensures kept == Kept(window, now)
  {
    kept := [];
    for i := 0 to |window|
      invariant kept == Kept(window[..i], now)
    {
      KeptSnoc(window[..i], window[i], now);
      assert window[..i + 1] == window[..i] + [window[i]];
      if now - window[i] < WINDOW {
        kept := kept + [window[i]];
      }
    }
    assert window[..|window|] == window;
  }

  /** The time of the latest call on `key`, if there was one. */
  function Latest(log: seq<Call>, key: string): (at: Option<real>) {
    if log == [] then None
    else if log[|log| - 1].key == key then Some(log[|log| - 1].at)
    else Latest(log[..|log| - 1], key)
  }

  lemma {:induction false} LatestIsBeforeNow(log: seq<Call>, key: string, now: real)
    requires forall call :: call in log ==> call.at <= now
    ensures match Latest(log, key)
            case Some(at) => at <= now
            case None => Recent(log, key, now) == []
    decreases |log|
  {
    if log != [] {
      assert log[|log| - 1] in log;
      forall call | call in log[..|log| - 1]
        ensures call.at <= now
      {
        assert call in log;
      }
      LatestIsBeforeNow(log[..|log| - 1], key, now);
    }
  }

  ghost predicate BucketOf(buckets: map<string, seq<real>>, log: seq<Call>, key: string) {
    match Latest(log, key)
    case Some(at) => key in buckets && buckets[key] == Recent(log, key, at)
    case None => key !in buckets
  }

  ghost predicate BucketsMatch(buckets: map<string, seq<real>>, log: seq<Call>) {
    forall key :: BucketOf(buckets, log, key)
  }

  lemma RecentSnoc(log: seq<Call>, call: Call, key: string, now: real)
    ensures Recent(log + [call], key, now) ==
            if call.key == key && call.admitted && now - call.at < WINDOW then Recent(log, key, now) + [call.at]
            else Recent(log, key, now)
    ensures Latest(log + [call], key) == if call.key == key then Some(call.at) else Latest(log, key)
  {
    assert (log + [call])[..|log|] == log;
  }

  lemma BucketsAfter(buckets: map<string, seq<real>>, log: seq<Call>, call: Call, bucket: seq<real>)
    requires BucketsMatch(buckets, log)
    requires bucket == if call.admitted then Recent(log, call.key, call.at) + [call.at]
        else Recent(log, call.key, call.at)
    ensures BucketsMatch(buckets[call.key := bucket], log + [call])
  {
    var after, longer := buckets[call.key := bucket], log + [call];
    forall key
      ensures BucketOf(after, longer, key)
    {
      assert BucketOf(buckets, log, key);
      match Latest(log, key)
      case Some(at) => RecentSnoc(log, call, key, if call.key == key then call.at else at);
      case None => RecentSnoc(log, call, key, call.at);
    }
  }

  lemma OrderlySnoc(log: seq<Call>, call: Call)
    requires Orderly(log) && (log == [] || log[|log| - 1].at <= call.at)
    ensures Orderly(log + [call])
    ensures forall earlier :: earlier in log ==> earlier.at <= call.at
  {
    forall earlier | earlier in log
      ensures earlier.at <= call.at
    {
      var i :| 0 <= i < |log| && log[i] == earlier;
    }
  }

  /** Pruning a key's bucket leaves what is recent now. */
  lemma PrunedBucket(buckets: map<string, seq<real>>, log: seq<Call>, key: string, now: real)
    requires BucketsMatch(buckets, log)
    requires forall call :: call in log ==> call.at <= now
    ensures Kept(if key in buckets then buckets[key] else [], now) == Recent(log, key, now)
  {
    LatestIsBeforeNow(log, key, now);
    assert BucketOf(buckets, log, key);
    match Latest(log, key)
    case Some(at) => PruneLater(log, key, at, now);
    case None =>
  }

  class Limiter {
    var buckets: map<string, seq<real>>
    ghost var log: seq<Call>

    /** Each bucket holds the admissions of the minute before the latest call on its key, and every verdict was fair. */
    ghost predicate Valid()
      reads this
    {
      && Orderly(log)
      && Fair(log)
      && BucketsMatch(buckets, log)
    }

    constructor ()
      ensures Valid() && log == []
    {
      buckets := map[];
      log := [];
    }

    method RateLimit(key: string, rpm: int, now: real) returns (admitted: bool)
      requires Valid()
      requires log == [] || log[|log| - 1].at <= now
      modifies this
      ensures Valid()
      ensures admitted <==> |Recent(old(log), key, now)| < rpm
      ensures log == old(log) + [Call(key, now, rpm, admitted)]
      ensures buckets == old(buckets)[key := Recent(log, key, now)]
    {
      hide Recent;
      hide Kept;
      hide Fair;
      hide Orderly;
      hide BucketsMatch;
      hide Latest;
      ghost var asked := Call(key, now, rpm, true);
      OrderlySnoc(log, asked);
      PrunedBucket(buckets, log, key, now);
      var window := if key in buckets then buckets[key] else [];
      window := Prune(window, now);
      admitted := |window| < rpm;
      if admitted {
        window := window + [now];
      }
      ghost var call := Call(key, now, rpm, admitted);
      OrderlySnoc(log, call);
      BucketsAfter(buckets, log, call, window);
      FairSnoc(log, call);
      RecentSnoc(log, call, key, now);
      buckets := buckets[key := window];
      log := log + [call];
    }
  }
}
