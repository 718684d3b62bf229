/**
 One-time codes over the in-memory store: sending, checking, resending and using them up.

 Time is counted in microseconds, the resolution of the timestamps, on a clock that does not run backwards.
 Codes are compared as they are: hashing a code loses no distinction between codes.
 */
module Otp {
  import opened Wrappers

  const SECOND := 1_000_000
  const TTL := 600 * SECOND
  const COOLDOWN := 45 * SECOND
  const MAX_ATTEMPTS := 5

  datatype Key = Key(channel: string, target: string, purpose: string)

  datatype Challenge = Challenge(
    key: Key,
    code: string,
    expiresAt: int,
    createdAt: int,
    attempts: nat,
    consumedAt: Option<int>)

  /** What happened: a code was sent, or an entered code was compared with one. Refusals leave no trace. */
  datatype Event =
    | Sent(key: Key, at: int, id: int, code: string)
    | Checked(key: Key, at: int, entered: string, ok: bool, consume: bool)

  type Log = seq<Event>

  // ---------------------------------------------------------------- what a log means

  predicate Consumes(event: Event, key: Key) {
    event.Checked? && event.key == key && event.ok && event.consume
  }

  predicate Sends(event: Event, key: Key) {
    event.Sent? && event.key == key
  }

  predicate Checks(event: Event, key: Key) {
    event.Checked? && event.key == key
  }

  /** The challenge a key waits on: the last one sent, until a success uses it up. */
  datatype Pending = Pending(id: int, code: string, at: int, attempts: nat)

  function Live(log: Log, key: Key): Option<Pending> {
    if log == [] then None else
      var event := log[|log| - 1];
      var before := Live(log[..|log| - 1], key);
      if event.key != key then before
      else if event.Sent? then Some(Pending(event.id, event.code, event.at, 0))
      else if before.None? || Consumes(event, key) then None
      else Some(before.value.(attempts := before.value.attempts + 1))
  }

  /** A new code is sent only when none is waiting or the waiting one is old enough. */
  predicate MaySend(live: Option<Pending>, now: int) {
    live.None? || now - live.value.at >= COOLDOWN
  }

  /** A code is compared only while one is waiting, not expired, and compared less than five times. */
  predicate MayCheck(live: Option<Pending>, now: int) {
    live.Some? && now < live.value.at + TTL && live.value.attempts < MAX_ATTEMPTS
  }

  ghost predicate Unused(log: Log, id: int) {
    forall i :: 0 <= i < |log| && log[i].Sent? ==> log[i].id != id
  }

  ghost predicate Allowed(before: Log, event: Event) {
    && (before != [] ==> before[|before| - 1].at <= event.at)
    && match event
       case Sent(key, at, id, _) => MaySend(Live(before, key), at) && Unused(before, id)
       case Checked(key, at, entered, ok, _) =>
         MayCheck(Live(before, key), at) && (ok <==> entered == Live(before, key).value.code)
  }

  ghost predicate Lawful(log: Log) {
    forall i :: 0 <= i < |log| ==> Allowed(log[..i], log[i])
  }

  lemma LawfulFront(log: Log)
    requires Lawful(log) && log != []
    ensures Lawful(log[..|log| - 1]) && Allowed(log[..|log| - 1], log[|log| - 1])
  {
    var front := log[..|log| - 1];
    forall i | 0 <= i < |front|
      ensures Allowed(front[..i], front[i])
    {
      assert front[..i] == log[..i];
    }
  }

  lemma LawfulSnoc(log: Log, event: Event)
    requires Lawful(log) && Allowed(log, event)
    ensures Lawful(log + [event])
  {
    var longer := log + [event];
    forall i | 0 <= i < |longer|
      ensures Allowed(longer[..i], longer[i])
    {
      assert longer[..i] == log[..i];
      assert log[..|log|] == log;
      assert i < |log| ==> Allowed(log[..i], log[i]);
    }
  }

  lemma LiveSnoc(log: Log, event: Event, key: Key)
    ensures Live(log + [event], key) ==
            if event.key != key then Live(log, key)
            else if event.Sent? then Some(Pending(event.id, event.code, event.at, 0))
            else if Live(log, key).None? || Consumes(event, key) then None
            else Some(Live(log, key).value.(attempts := Live(log, key).value.attempts + 1))
  {
    assert (log + [event])[..|log|] == log;
  }

  // ---------------------------------------------------------------- counting

  function Count(log: Log, test: Event -> bool): nat {
    if log == [] then 0 else Count(log[..|log| - 1], test) + if test(log[|log| - 1]) then 1 else 0
  }

  function SendTest(key: Key): Event -> bool { event => Sends(event, key) }

  function CheckTest(key: Key): Event -> bool { event => Checks(event, key) }

  function ConsumeTest(key: Key): Event -> bool { event => Consumes(event, key) }

  function Sendings(log: Log, key: Key): nat { Count(log, SendTest(key)) }

  function Checkings(log: Log, key: Key): nat { Count(log, CheckTest(key)) }

  function Successes(log: Log, key: Key): nat { Count(log, ConsumeTest(key)) }

  /** Each code sent pays for five comparisons, and the waiting one has paid for those it has left. */
  lemma {:induction false} FivePerCode(log: Log, key: Key)
    requires Lawful(log)
    ensures Live(log, key).Some? ==> Live(log, key).value.attempts <= MAX_ATTEMPTS
    ensures Checkings(log, key) + (if Live(log, key).Some? then MAX_ATTEMPTS - Live(log, key).value.attempts else 0)
            <= MAX_ATTEMPTS * Sendings(log, key)
    decreases |log|
  {
    hide Lawful;
    hide Unused;
    if log != [] {
      var front, event := log[..|log| - 1], log[|log| - 1];
      LawfulFront(log);
      FivePerCode(front, key);
    }
  }

  /** The time of the first code sent to a key, or `now` when there was none. */
  function FirstSent(log: Log, key: Key, now: int): int {
    if log == [] then now else
      var event := log[|log| - 1];
      FirstSent(log[..|log| - 1], key, if Sends(event, key) then event.at else now)
  }

  /** Up to the waiting code, every code beyond the first took a cooldown or a success. */
  ghost predicate Paced(sendings: int, successes: int, start: int, now: int) {
    COOLDOWN * (sendings - 1 - successes) <= now - start
  }

  lemma {:induction false} FirstSentOfSome(log: Log, key: Key, now: int, later: int)
    requires Sendings(log, key) > 0
    ensures FirstSent(log, key, now) == FirstSent(log, key, later)
    decreases |log|
  {
    if !Sends(log[|log| - 1], key) {
      FirstSentOfSome(log[..|log| - 1], key, now, later);
    }
  }

  lemma {:induction false} FirstSentOfNone(log: Log, key: Key, now: int)
    requires Sendings(log, key) == 0
    ensures FirstSent(log, key, now) == now
    decreases |log|
  {
    if log != [] {
      FirstSentOfNone(log[..|log| - 1], key, now);
    }
  }

  /** Codes sent so far, against the time since the first of them. */
  lemma {:induction false} SendingsArePaced(log: Log, key: Key, now: int)
    requires Lawful(log) && Sendings(log, key) > 0
    requires log[|log| - 1].at <= now
    ensures match Live(log, key)
            case Some(live) =>
              live.at <= now && Paced(Sendings(log, key), Successes(log, key), FirstSent(log, key, now), live.at)
            case None => Paced(Sendings(log, key) + 1, Successes(log, key), FirstSent(log, key, now), now)
    decreases |log|
  {
    hide Lawful;
    hide Unused;
    var front, event := log[..|log| - 1], log[|log| - 1];
    LawfulFront(log);
    if Sendings(front, key) > 0 {
      SendingsArePaced(front, key, event.at);
      FirstSentOfSome(front, key, event.at, now);
    } else {
      FirstSentOfNone(front, key, event.at);
      NothingSentNothingDone(front, key);
    }
  }

  lemma {:induction false} NothingSentNothingDone(log: Log, key: Key)
    requires Lawful(log) && Sendings(log, key) == 0
    ensures Live(log, key) == None && Checkings(log, key) == 0 && Successes(log, key) == 0
    decreases |log|
  {
    hide Lawful;
    hide Unused;
    if log != [] {
      LawfulFront(log);
      NothingSentNothingDone(log[..|log| - 1], key);
    }
  }

  lemma NothingYet(key: Key)
    ensures Sendings([], key) == 0
  {
  }

  lemma Rounds(n: int, time: int)
    requires COOLDOWN * n <= time && 0 <= time
    ensures n <= time / COOLDOWN
  {
  }

  /**
   In any run, the codes compared on a key by `now` number at most five for the first code, five for each whole
   cooldown since it was sent, and five for each code that was used up.
   */
  lemma GuessesAreBounded(log: Log, key: Key, now: int)
    requires Lawful(log)
    requires log != [] ==> log[|log| - 1].at <= now
    ensures FirstSent(log, key, now) <= now
    ensures Checkings(log, key) <= 5 * ((now - FirstSent(log, key, now)) / 45_000_000 + 1 + Successes(log, key))
  {
    hide Lawful;
    hide Count;
    hide Live;
    NothingYet(key);
    if Sendings(log, key) == 0 {
      NothingSentNothingDone(log, key);
      FirstSentOfNone(log, key, now);
    } else {
      FivePerCode(log, key);
      SendingsArePaced(log, key, now);
      FirstSentIsPast(log, key, now);
      Rounds(Sendings(log, key) - 1 - Successes(log, key), now - FirstSent(log, key, now));
    }
  }

  lemma {:induction false} FirstSentIsPast(log: Log, key: Key, now: int)
    requires Lawful(log)
    requires log != [] ==> log[|log| - 1].at <= now
    ensures FirstSent(log, key, now) <= now
    decreases |log|
  {
    hide Lawful;
    hide Unused;
    if log != [] {
      var front, event := log[..|log| - 1], log[|log| - 1];
      LawfulFront(log);
      FirstSentIsPast(front, key, if Sends(event, key) then event.at else now);
    }
  }

  // ---------------------------------------------------------------- what a success proves

  /** Position `s` sent the code that waits on `key`: nothing since has replaced it or used it up. */
  ghost predicate SentAt(log: Log, key: Key, s: int) {
    && 0 <= s < |log|
    && Live(log, key).Some?
    && log[s] == Sent(key, Live(log, key).value.at, Live(log, key).value.id, Live(log, key).value.code)
    && forall i :: s < i < |log| ==> !Sends(log[i], key) && !Consumes(log[i], key)
  }

  lemma {:induction false} LiveWasSent(log: Log, key: Key) returns (s: int)
    requires Live(log, key).Some?
    ensures SentAt(log, key, s)
    decreases |log|
  {
    var last := |log| - 1;
    if Sends(log[last], key) {
      s := last;
    } else {
      s := LiveWasSent(log[..last], key);
    }
  }

  /** A code waits exactly while some sending has been followed by no other and by no success that used it up. */
  lemma {:induction false} WaitingExactlyWhen(log: Log, key: Key)
    ensures Live(log, key).Some? <==>
            exists s :: 0 <= s < |log| && log[s].Sent? && log[s].key == key && NothingSince(log, key, s)
  {
    if log != [] {
      var front, last := log[..|log| - 1], |log| - 1;
      WaitingExactlyWhen(front, key);
      if Live(front, key).Some? && !Sends(log[last], key) && !Consumes(log[last], key) {
        var s :| 0 <= s < |front| && front[s].Sent? && front[s].key == key && NothingSince(front, key, s);
        assert log[s] == front[s] && NothingSince(log, key, s);
      }
      if s :| 0 <= s < |log| && log[s].Sent? && log[s].key == key && NothingSince(log, key, s) {
        assert s < last ==> front[s] == log[s] && NothingSince(front, key, s);
      }
      if Sends(log[last], key) { assert NothingSince(log, key, last); }
    }
  }

  /** No code has been sent to the key after position `s`, and no entered code has used one up. */
  ghost predicate NothingSince(log: Log, key: Key, s: int)
    requires 0 <= s < |log|
  {
    forall i :: s < i < |log| && log[i].key == key ==> log[i].Checked? && !(log[i].ok && log[i].consume)
  }

  /** The attempts counted against the waiting code are the codes compared with it since it was sent. */
  lemma {:induction false} AttemptsAreComparisons(log: Log, key: Key, s: nat)
    requires s < |log| && SentAt(log, key, s)
    ensures Live(log, key).value.attempts == Checkings(log, key) - Checkings(log[..s + 1], key)
    decreases |log|
  {
    var front, last := log[..|log| - 1], |log| - 1;
    if s < last {
      assert front[..s + 1] == log[..s + 1];
      assert !Sends(log[last], key) && !Consumes(log[last], key);
      AttemptsAreComparisons(front, key, s);
    } else {
      assert log[..s + 1] == log;
    }
  }

  /** Which challenge a success at position `i` used up. */
  function UsedUp(log: Log, i: int, key: Key): Option<Pending>
    requires 0 <= i < |log|
  {
    Live(log[..i], key)
  }

  /** A success is for the last code sent to its key, entered exactly and in time; resending kills the older code. */
  lemma SuccessIsForTheLastCode(log: Log, i: int) returns (s: int)
    requires Lawful(log) && 0 <= i < |log| && log[i].Checked? && log[i].ok
    ensures 0 <= s < i && Sends(log[s], log[i].key)
    ensures log[i].entered == log[s].code && log[i].at < log[s].at + 600_000_000
    ensures forall k :: s < k < i ==> !Sends(log[k], log[i].key) && !Consumes(log[k], log[i].key)
  {
    assert Allowed(log[..i], log[i]);
    s := LiveWasSent(log[..i], log[i].key);
  }

  /** No challenge is used up twice, whichever keys the two successes were on. */
  lemma ConsumedAtMostOnce(log: Log, i: int, j: int)
    requires Lawful(log) && 0 <= i < j < |log|
    requires Consumes(log[i], log[i].key) && Consumes(log[j], log[j].key)
    ensures UsedUp(log, i, log[i].key).Some? && UsedUp(log, j, log[j].key).Some?
    ensures UsedUp(log, i, log[i].key).value.id != UsedUp(log, j, log[j].key).value.id
  {
    assert Allowed(log[..i], log[i]) && Allowed(log[..j], log[j]);
    var s := LiveWasSent(log[..i], log[i].key);
    var t := LiveWasSent(log[..j], log[j].key);
    assert log[..i][s] == log[s] && log[..j][t] == log[t];
    if log[i].key == log[j].key {
      assert t < i ==> !Consumes(log[..j][i], log[i].key);
    }
    assert s != t;
    DifferentSendings(log, if s < t then s else t, if s < t then t else s);
  }

  lemma DifferentSendings(log: Log, s: int, t: int)
    requires Lawful(log) && 0 <= s < t < |log| && log[s].Sent? && log[t].Sent?
    ensures log[s].id != log[t].id
  {
    assert Allowed(log[..t], log[t]);
    assert log[..t][s] == log[s];
  }

  // ---------------------------------------------------------------- the service over its store

  datatype SendOutcome = Resent(id: int) | PleaseWait(microseconds: int)

  datatype CheckOutcome = Verified(id: int) | NotFound | Expired | TooManyAttempts | WrongCode

  ghost predicate Mirrors(byId: map<int, Challenge>, active: map<Key, int>, log: Log, key: Key) {
    match Live(log, key)
    case None => key !in active
    case Some(live) =>
      && key in active && active[key] == live.id && live.id in byId
      && byId[live.id] == Challenge(key, live.code, live.at + TTL, live.at, live.attempts, None)
  }

  ghost predicate Stored(byId: map<int, Challenge>, active: map<Key, int>, log: Log) {
    && (forall key :: Mirrors(byId, active, log, key))
    && (forall i :: 0 <= i < |log| && log[i].Sent? ==> log[i].id in byId)
  }

  /** Different keys wait on different challenges. */
  lemma WaitingChallengesDiffer(byId: map<int, Challenge>, active: map<Key, int>, log: Log, key: Key, other: Key)
    requires Stored(byId, active, log) && key in active && other in active && key != other
    ensures active[key] != active[other]
  {
    assert Mirrors(byId, active, log, key) && Mirrors(byId, active, log, other);
  }

  lemma StoredAfterSend(byId: map<int, Challenge>, active: map<Key, int>, log: Log, event: Event)
    requires Stored(byId, active, log) && event.Sent? && event.id !in byId
    ensures Stored(byId[event.id := Challenge(event.key, event.code, event.at + TTL, event.at, 0, None)],
                   active[event.key := event.id], log + [event])
  {
    var byId' := byId[event.id := Challenge(event.key, event.code, event.at + TTL, event.at, 0, None)];
    var active' := active[event.key := event.id];
    forall key
      ensures Mirrors(byId', active', log + [event], key)
    {
      LiveSnoc(log, event, key);
      assert Mirrors(byId, active, log, key);
    }
  }

  lemma StoredAfterCheck(byId: map<int, Challenge>, active: map<Key, int>, log: Log, event: Event, c: Challenge)
    requires Stored(byId, active, log) && event.Checked?
    requires event.key in active && active[event.key] in byId
    requires var was := byId[active[event.key]];
             c == was.(attempts := was.attempts + 1,
                        consumedAt := if event.ok && event.consume then Some(event.at) else None)
    ensures Stored(byId[active[event.key] := c],
                   if Consumes(event, event.key) then active - {event.key} else active,
                   log + [event])
  {
    var byId' := byId[active[event.key] := c];
    var active' := if Consumes(event, event.key) then active - {event.key} else active;
    forall key
      ensures Mirrors(byId', active', log + [event], key)
    {
      LiveSnoc(log, event, key);
      assert Mirrors(byId, active, log, key) && Mirrors(byId, active, log, event.key);
    }
  }

  class OtpService {
    var byId: map<int, Challenge>
    var active: map<Key, int>
    ghost var log: Log

    ghost predicate Valid()
      reads this
    {
      Lawful(log) && Stored(byId, active, log)
    }

    constructor ()
      ensures Valid() && log == []
    {
      byId, active, log := map[], map[], [];
    }

    /** Every entry of the index names an unconsumed challenge with that very key. */
    lemma ActiveIsWaiting(key: Key)
      requires Valid() && key in active
      ensures active[key] in byId && byId[active[key]].key == key && byId[active[key]].consumedAt == None
    {
      assert Mirrors(byId, active, log, key);
    }

    method SendOtp(key: Key, now: int, id: int, code: string) returns (outcome: SendOutcome)
      requires Valid() && id !in byId
      requires log != [] ==> log[|log| - 1].at <= now
      modifies this
      ensures Valid()
      ensures var live := Live(old(log), key);
              if live.Some? && now - live.value.at < 45_000_000 then
                && outcome == PleaseWait(45_000_000 - (now - live.value.at))
                && log == old(log) && byId == old(byId) && active == old(active)
              else outcome == Resent(id) && log == old(log) + [Sent(key, now, id, code)]
    {
      assert Mirrors(byId, active, log, key);
      if key in active && active[key] in byId {
        var existing := byId[active[key]];
        if existing.consumedAt.None? {
          var age := now - existing.createdAt;
          if age < COOLDOWN {
            return PleaseWait(COOLDOWN - age);
          }
        }
      }
      ghost var event := Sent(key, now, id, code);
      StoredAfterSend(byId, active, log, event);
      LawfulSnoc(log, event);
      byId := byId[id := Challenge(key, code, now + TTL, now, 0, None)];
      active := active[key := id];
      log := log + [event];
      outcome := Resent(id);
    }

    method VerifyOtp(key: Key, now: int, code: string, consume: bool) returns (outcome: CheckOutcome)
      requires Valid()
      requires log != [] ==> log[|log| - 1].at <= now
      modifies this
      ensures Valid()
      ensures var live := Live(old(log), key);
              if live.Some? && now < live.value.at + 600_000_000 && live.value.attempts < 5 then
                && outcome == (if code == live.value.code then Verified(live.value.id) else WrongCode)
                && log == old(log) + [Checked(key, now, code, code == live.value.code, consume)]
              else
                && outcome ==
                    (if live.None? then NotFound
                     else if live.value.at + 600_000_000 <= now then Expired
                     else TooManyAttempts)
                && log == old(log) && byId == old(byId) && active == old(active)
    {
      assert Mirrors(byId, active, log, key);
      if key !in active || active[key] !in byId || byId[active[key]].consumedAt.Some? { return NotFound; }
      var id := active[key];
      var challenge := byId[id];
      if challenge.expiresAt <= now { return Expired; }
      if challenge.attempts >= MAX_ATTEMPTS { return TooManyAttempts; }
      var ok := code == challenge.code;
      ghost var event := Checked(key, now, code, ok, consume);
      challenge := challenge.(attempts := challenge.attempts + 1);
      if ok && consume {
        challenge := challenge.(consumedAt := Some(now));
      }
      StoredAfterCheck(byId, active, log, event, challenge);
      LawfulSnoc(log, event);
      byId := byId[id := challenge];
      if challenge.consumedAt.Some? {
        active := active - {key};
      }
      log := log + [event];
      outcome := if ok then Verified(id) else WrongCode;
    }
  }
}
