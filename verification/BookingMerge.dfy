/**
 Multi-turn booking: how one turn's date and time are merged with what earlier turns left.

 A moment is a calendar day and a minute of that day in the shop's time zone.  A turn carries
 what was parsed from the customer's words; the stash is the half answer kept from earlier
 turns; the openings are those last read out to the customer.
 */
module BookingMerge {
  import opened Wrappers

  const MinutesPerDay := 1440

  datatype Moment = Moment(day: int, minute: int)

  /** `Unspecified` is the parser's "none"; a missing precision is `None`. */
  datatype Precision = Day | PartOfDay | Clock | TimeOnly | Unspecified

  datatype Turn = Turn(
    start: Option<Moment>, end: Option<Moment>, precision: Option<Precision>,
    needsDate: bool, needsTime: bool,
    earliest: bool, latest: bool, confirmed: bool, named: bool)

  datatype Stash = Stash(
    start: Option<Moment>, end: Option<Moment>, precision: Option<Precision>,
    needsDate: bool, needsTime: bool)

  /** An opening that was read out; a start or end that cannot be parsed is `None`. */
  datatype Opening = Opening(start: Option<Moment>, end: Option<Moment>)

  /** `booking`: the action the last turn left pending is a booking.  `service`: a service is known. */
  datatype Context = Context(offered: seq<Opening>, booking: bool, service: bool)

  datatype Merged = Merged(
    start: Option<Moment>, end: Option<Moment>, precision: Option<Precision>,
    needsDate: bool, needsTime: bool, confirmed: bool)

  /** The local variables the merge reassigns branch by branch. */
  datatype Draft = Draft(
    start: Option<Moment>, end: Option<Moment>, precision: Option<Precision>,
    needsDate: bool, needsTime: bool)

  const EmptyStash := Stash(None, None, None, false, false)

  /** Calendar day of one moment, clock of the other. */
  function Combine(day: Moment, clock: Moment): Moment {
    Moment(day.day, clock.minute)
  }

  function Plus(m: Moment, minutes: int): Moment {
    Moment(m.day + (m.minute + minutes) / MinutesPerDay, (m.minute + minutes) % MinutesPerDay)
  }

  predicate DayLike(p: Option<Precision>) {
    p == Some(Day) || p == Some(PartOfDay)
  }

  predicate ClockLike(p: Option<Precision>) {
    p == Some(Clock) || p == Some(TimeOnly)
  }

  // ---------------------------------------------------------------- the merge as a function

  function Settled(start: Moment): Draft {
    Draft(Some(start), Some(Plus(start, 60)), Some(Clock), false, false)
  }

  /** Both this turn and the stash have a start. */
  function Compose(d: Draft, prev: Stash): Draft
    requires d.start.Some? && prev.start.Some?
  {
    var now, before := d.start.value, prev.start.value;
    if d.needsDate && !d.needsTime && DayLike(prev.precision) then
      Settled(Combine(before, now))
    else if d.needsDate && !d.needsTime && ClockLike(prev.precision) && !prev.needsDate then
      Settled(Combine(before, now))
    else if d.needsTime && !d.needsDate && OrElse(d.precision, Some(Day)) == Some(Day) && ClockLike(prev.precision) then
      Settled(Combine(now, before))
    else if d.needsTime && !d.needsDate && prev.needsDate && ClockLike(prev.precision) then
      Settled(Combine(now, before))
    else if d.needsDate && d.needsTime && DayLike(prev.precision) && !prev.needsDate then
      var start := Combine(before, now);
      d.(start := Some(start),
         end := Some(if prev.end.Some? then Combine(before, prev.end.value) else Plus(start, 180)),
         precision := OrElse(d.precision, Some(PartOfDay)),
         needsDate := false)
    else d
  }

  /** Only the stash has a start. */
  function Carry(d: Draft, prev: Stash, held: bool): Draft
    requires d.start.None? && prev.start.Some?
  {
    if held && ClockLike(prev.precision) && !prev.needsDate && !prev.needsTime then d
    else
      var precision := OrElse(prev.precision, d.precision);
      var timeOnly := (precision == Some(TimeOnly) || prev.precision == Some(TimeOnly)) && !held;
      Draft(prev.start, OrElse(prev.end, d.end), precision,
            d.needsDate || prev.needsDate || timeOnly,
            (d.needsTime || prev.needsTime) && !timeOnly)
  }

  function WithStash(d: Draft, prev: Stash, held: bool): Draft {
    if d.start.Some? && prev.start.Some? then Compose(d, prev)
    else if d.start.None? && prev.start.Some? then Carry(d, prev, held)
    else d
  }

  function Opened(o: Opening, d: Draft): Draft {
    Draft(o.start, OrElse(o.end, d.end), Some(Clock), false, false)
  }

  /** After the customer's name was asked for, the held opening is taken up again. */
  function Resume(d: Draft, turn: Turn, ctx: Context): Draft {
    if d.start.None? && ctx.offered != [] && turn.named && ctx.booking then Opened(ctx.offered[0], d) else d
  }

  /** "The first one", "the last one". */
  function Extreme(d: Draft, turn: Turn, ctx: Context): Draft {
    if (turn.earliest || turn.latest) && ctx.offered != [] && d.precision != Some(Clock)
    then Opened(if turn.latest then ctx.offered[|ctx.offered| - 1] else ctx.offered[0], d)
    else d
  }

  /** The opening a preference (or a bare yes) binds to. */
  function Pick(preferred: Option<Moment>, offered: seq<Opening>): Option<Moment> {
    if offered == [] then None
    else if offered[0].start.Some? && (preferred.None? || preferred == offered[0].start) then offered[0].start
    else Pick(preferred, offered[1..])
  }

  function Bind(d: Draft, confirm: bool, offered: seq<Opening>): Draft {
    if confirm || (d.start.Some? && d.precision == Some(Clock) && !d.needsDate && !d.needsTime) then
      var bound := Pick(d.start, offered);
      if bound.Some? then Draft(bound, None, Some(Clock), false, false) else d
    else d
  }

  /** A clock without a day is not a bookable time. */
  function Demote(d: Draft): Draft {
    if d.needsDate && d.precision == Some(Clock) then d.(precision := Some(TimeOnly)) else d
  }

  /** A soft yes with nothing on offer continues the booking instead of confirming it. */
  function Confirms(turn: Turn, ctx: Context): bool {
    turn.confirmed && !(ctx.offered == [] && ctx.booking && ctx.service)
  }

  function Parsed(turn: Turn): Draft {
    Draft(turn.start, turn.end, turn.precision, turn.needsDate, turn.needsTime)
  }

  function Merge(turn: Turn, prev: Stash, ctx: Context): Merged {
    var d := WithStash(Parsed(turn), prev, ctx.offered != []);
    var d := Extreme(Resume(d, turn, ctx), turn, ctx);
    var d := Demote(Bind(d, Confirms(turn, ctx), ctx.offered));
    Merged(OrElse(d.start, turn.start), OrElse(d.end, turn.end), d.precision, d.needsDate, d.needsTime,
           Confirms(turn, ctx))
  }

  // ---------------------------------------------------------------- the merge as the program runs it

  /**
   A preference is bound to the opening with exactly that start, never to a near one; with no
   preference the first opening whose start is known is taken.
   */
  method PickOfferedSlot(preferred: Option<Moment>, offered: seq<Opening>) returns (bound: Option<Moment>)
    ensures bound == Pick(preferred, offered)
    ensures bound.Some? ==> exists i :: 0 <= i < |offered| && offered[i].start == bound
    ensures preferred.Some? ==>
        (bound == preferred <==> exists i :: 0 <= i < |offered| && offered[i].start == preferred)
    ensures preferred.Some? && bound.Some? ==> bound == preferred
    ensures preferred.None? ==> (bound.None? <==> forall i :: 0 <= i < |offered| ==> offered[i].start.None?)
  {
    hide Pick;
    var starts: seq<Moment> := [];
    var i := 0;
    while i < |offered|
      invariant 0 <= i <= |offered|
      invariant starts == KnownStarts(offered[..i])
    {
      assert offered[..i + 1] == offered[..i] + [offered[i]];
      if offered[i].start.Some? {
        starts := starts + [offered[i].start.value];
      }
      i := i + 1;
    }
    assert offered[..i] == offered;
    PickFromStarts(preferred, offered);
    StartsAreOffered(offered);
    if starts == [] { return None; }
    if preferred.None? { return Some(starts[0]); }
    i := 0;
    while i < |starts|
      invariant 0 <= i <= |starts|
      invariant preferred.value !in starts[..i]
    {
      if starts[i] == preferred.value { return preferred; }
      i := i + 1;
    }
    bound := None;
  }

  /** The openings' starts that could be parsed, in order. */
  function KnownStarts(offered: seq<Opening>): seq<Moment> {
    if offered == [] then []
    else
      var last := offered[|offered| - 1].start;
      KnownStarts(offered[..|offered| - 1]) + if last.Some? then [last.value] else []
  }

  lemma {:induction false} StartsAreOffered(offered: seq<Opening>)
    ensures forall m :: m in KnownStarts(offered) <==> exists i :: 0 <= i < |offered| && offered[i].start == Some(m)
  {
    if offered != [] {
      StartsAreOffered(offered[..|offered| - 1]);
      forall m
        ensures m in KnownStarts(offered) <==> exists i :: 0 <= i < |offered| && offered[i].start == Some(m)
      {
        if m in KnownStarts(offered[..|offered| - 1]) {
          var i :| 0 <= i < |offered| - 1 && offered[..|offered| - 1][i].start == Some(m);
          assert offered[i].start == Some(m);
        }
        if i :| 0 <= i < |offered| - 1 && offered[i].start == Some(m) {
          assert offered[..|offered| - 1][i].start == Some(m);
        }
      }
    }
  }

  lemma {:induction false} PickFromStarts(preferred: Option<Moment>, offered: seq<Opening>)
    ensures var starts := KnownStarts(offered);
            Pick(preferred, offered) ==
            if starts == [] then None
            else if preferred.None? then Some(starts[0])
            else if preferred.value in starts then preferred else None
  {
    if offered != [] {
      PickFromStarts(preferred, offered[1..]);
      StartsFromFront(offered);
    }
  }

  lemma {:induction false} StartsFromFront(offered: seq<Opening>)
    requires offered != []
    ensures KnownStarts(offered) ==
            (if offered[0].start.Some? then [offered[0].start.value] else []) + KnownStarts(offered[1..])
  {
    if |offered| > 1 {
      StartsFromFront(offered[..|offered| - 1]);
      assert offered[..|offered| - 1][1..] == offered[1..][..|offered| - 2];
    }
  }

  /** The first half of the merge: this turn's answer and the half remembered from earlier turns. */
  method ComposeAcrossTurns(turn: Turn, prev: Stash, held: bool)
    returns (preferred: Option<Moment>, end: Option<Moment>, precision: Option<Precision>, needsDate: bool,
        needsTime: bool)
    ensures Draft(preferred, end, precision, needsDate, needsTime) == WithStash(Parsed(turn), prev, held)
  {
    preferred, end, precision := turn.start, turn.end, turn.precision;
    needsDate, needsTime := turn.needsDate, turn.needsTime;
    if preferred.Some? && prev.start.Some? {
      if needsDate && !needsTime && DayLike(prev.precision) {
        preferred := Some(Combine(prev.start.value, preferred.value));
        end := Some(Plus(preferred.value, 60));
        precision, needsDate, needsTime := Some(Clock), false, false;
      } else if needsDate && !needsTime && ClockLike(prev.precision) && !prev.needsDate {
        preferred := Some(Combine(prev.start.value, preferred.value));
        end := Some(Plus(preferred.value, 60));
        precision, needsDate, needsTime := Some(Clock), false, false;
      } else if needsTime && !needsDate && (precision.None? || precision == Some(Day)) && ClockLike(prev.precision) {
        preferred := Some(Combine(preferred.value, prev.start.value));
        end := Some(Plus(preferred.value, 60));
        precision, needsDate, needsTime := Some(Clock), false, false;
      } else if needsTime && !needsDate && prev.needsDate && ClockLike(prev.precision) {
        preferred := Some(Combine(preferred.value, prev.start.value));
        end := Some(Plus(preferred.value, 60));
        precision, needsDate, needsTime := Some(Clock), false, false;
      } else if needsDate && needsTime && DayLike(prev.precision) && !prev.needsDate {
        preferred := Some(Combine(prev.start.value, preferred.value));
        end := Some(if prev.end.Some? then Combine(prev.start.value, prev.end.value) else Plus(preferred.value, 180));
        if precision.None? { precision := Some(PartOfDay); }
        needsDate := false;
      }
    } else if preferred.None? && prev.start.Some? {
      var clockOnlyStash := ClockLike(prev.precision) && !prev.needsDate && !prev.needsTime;
      if !(held && clockOnlyStash) {
        preferred := prev.start;
        if prev.end.Some? { end := prev.end; }
        if prev.precision.Some? { precision := prev.precision; }
        if prev.needsDate && !needsDate { needsDate := true; }
        if prev.needsTime && !needsTime { needsTime := true; }
        if (precision == Some(TimeOnly) || prev.precision == Some(TimeOnly)) && !held {
          needsDate, needsTime := true, false;
        }
      }
    }
  }

  /** The merge, branch by branch; the result is the one `Merge` describes. */
  method MergeBookingContext(turn: Turn, prev: Stash, ctx: Context) returns (merged: Merged)
    ensures merged == Merge(turn, prev, ctx)
    ensures !(merged.needsDate && merged.precision == Some(Clock))
  {
    var preferred, end, precision, needsDate, needsTime := ComposeAcrossTurns(turn, prev, ctx.offered != []);
    var confirm := turn.confirmed;
    if confirm && ctx.offered == [] && ctx.booking && ctx.service {
      confirm := false;
    }
    if preferred.None? && ctx.offered != [] && turn.named && ctx.booking {
      preferred := ctx.offered[0].start;
      if ctx.offered[0].end.Some? { end := ctx.offered[0].end; }
      precision, needsDate, needsTime := Some(Clock), false, false;
    }
    if (turn.earliest || turn.latest) && ctx.offered != [] && precision != Some(Clock) {
      var opening := ctx.offered[if turn.latest then |ctx.offered| - 1 else 0];
      preferred := opening.start;
      if opening.end.Some? { end := opening.end; }
      precision, needsDate, needsTime := Some(Clock), false, false;
    }
    if confirm || (preferred.Some? && precision == Some(Clock) && !needsDate && !needsTime) {
      var bound := PickOfferedSlot(preferred, ctx.offered);
      if bound.Some? {
        preferred, end := bound, None;
        precision, needsDate, needsTime := Some(Clock), false, false;
      }
    }
    if needsDate && precision == Some(Clock) {
      precision := Some(TimeOnly);
    }
    merged := Merged(OrElse(preferred, turn.start), OrElse(end, turn.end), precision, needsDate, needsTime, confirm);
  }

  // ---------------------------------------------------------------- what one merge can do

  predicate Offered(m: Moment, offered: seq<Opening>) {
    exists i :: 0 <= i < |offered| && offered[i].start == Some(m)
  }

  lemma {:induction false} PickIsOffered(preferred: Option<Moment>, offered: seq<Opening>)
    ensures var b := Pick(preferred, offered);
            b.Some? ==> Offered(b.value, offered) && (preferred.Some? ==> b == preferred)
  {
    if offered != [] {
      PickIsOffered(preferred, offered[1..]);
      if Pick(preferred, offered) == offered[0].start {
      } else if Pick(preferred, offered).Some? {
        var i :| 0 <= i < |offered[1..]| && offered[1..][i].start == Pick(preferred, offered);
        assert offered[i + 1].start == Pick(preferred, offered);
      }
    }
  }

  /** The merged start is never invented: it was said, remembered, put together from the two, or offered. */
  lemma StartHasASource(turn: Turn, prev: Stash, ctx: Context)
    ensures var r := Merge(turn, prev, ctx).start;
            r.Some? ==>
              || r == turn.start
              || r == prev.start
              || (turn.start.Some? && prev.start.Some?
                  && (r.value == Combine(turn.start.value, prev.start.value)
                      || r.value == Combine(prev.start.value, turn.start.value)))
              || Offered(r.value, ctx.offered)
  {
    var d := Extreme(Resume(WithStash(Parsed(turn), prev, ctx.offered != []), turn, ctx), turn, ctx);
    PickIsOffered(d.start, ctx.offered);
  }

  /** A start known to the clock, once said or put together, is the merged start whatever is on offer. */
  lemma ClockIsNeverMoved(turn: Turn, prev: Stash, ctx: Context)
    requires var d := WithStash(Parsed(turn), prev, ctx.offered != []);
             d.start.Some? && d.precision == Some(Clock)
    ensures Merge(turn, prev, ctx).start == WithStash(Parsed(turn), prev, ctx.offered != []).start
  {
    PickIsOffered(WithStash(Parsed(turn), prev, ctx.offered != []).start, ctx.offered);
  }

  /**
   The remembered half is dropped by a merge exactly when an opening is held and the stash is a
   whole clock time, so that a name or a yes binds to the opening that is held.
   */
  lemma SilenceKeepsTheStash(turn: Turn, prev: Stash, ctx: Context)
    requires turn.start.None? && prev.start.Some?
    requires !turn.earliest && !turn.latest && !turn.confirmed && !turn.named
    ensures Merge(turn, prev, ctx).start == prev.start <==>
            !(ctx.offered != [] && ClockLike(prev.precision) && !prev.needsDate && !prev.needsTime)
  {
    var d := WithStash(Parsed(turn), prev, ctx.offered != []);
    PickIsOffered(d.start, ctx.offered);
  }

  /** A half answer completed this turn, with nothing on offer, is a visit of one hour. */
  lemma CompletedVisitLastsAnHour(turn: Turn, prev: Stash, ctx: Context)
    requires ctx.offered == [] && turn.start.Some? && (turn.needsDate || turn.needsTime)
    requires var r := Merge(turn, prev, ctx); r.precision == Some(Clock) && !r.needsDate && !r.needsTime
    ensures var r := Merge(turn, prev, ctx);
            r.start.Some? && r.end == Some(Plus(r.start.value, 60))
  {
  }

  /** Nothing is on offer, or the turn makes no choice among what is. */
  predicate Plain(turn: Turn, ctx: Context) {
    ctx.offered == [] || (!turn.earliest && !turn.latest && !turn.confirmed && !turn.named)
  }

  /** When a clock-only answer completes the booking, and whose day it is then completed with. */
  lemma ClockAnswerCompletes(turn: Turn, prev: Stash, ctx: Context)
    requires Plain(turn, ctx) && turn.start.Some? && turn.precision == Some(Clock) && turn.needsDate && !turn.needsTime
    ensures var r := Merge(turn, prev, ctx);
            && (!r.needsDate
                <==> prev.start.Some? && (DayLike(prev.precision) || (ClockLike(prev.precision) && !prev.needsDate)))
            && (!r.needsDate ==>
                r.start == Some(Combine(prev.start.value, turn.start.value)) && r.precision == Some(Clock))
            && (r.needsDate ==> r.start == turn.start && r.precision == Some(TimeOnly))
  {
    PickIsOffered(WithStash(Parsed(turn), prev, ctx.offered != []).start, ctx.offered);
  }

  // ---------------------------------------------------------------- what a call remembers

  /** What the scheduling stage said about the merged time. */
  datatype Verdict = Verdict(unavailable: bool, aspect: Aspect, closedDay: bool)
  datatype Aspect = DateAspect | TimeAspect | BothAspects

  predicate Incomplete(r: Merged) {
    r.needsDate || r.needsTime || DayLike(r.precision) || r.precision == Some(TimeOnly)
  }

  /** The stash the call writes for the next turn. */
  method WriteStash(r: Merged, v: Verdict) returns (stash: Stash)
    ensures stash == Remembered(r, v)
  {
    var incomplete := r.needsDate || r.needsTime
                      || r.precision == Some(Day) || r.precision == Some(PartOfDay) || r.precision == Some(TimeOnly);
    var keepClock := !incomplete && r.precision == Some(Clock) && r.start.Some?;
    if v.unavailable && v.aspect.DateAspect? && !keepClock && (v.closedDay || DayLike(r.precision)) {
      stash := EmptyStash;
    } else if incomplete && r.start.Some? {
      stash := Stash(r.start, r.end, r.precision, r.needsDate, r.needsTime);
    } else if keepClock && v.unavailable && v.aspect.TimeAspect? {
      stash := Stash(r.start, r.end, Some(Day), false, true);
    } else if keepClock && v.unavailable {
      stash := Stash(r.start, r.end, Some(TimeOnly), true, false);
    } else {
      stash := EmptyStash;
    }
  }

  function Remembered(r: Merged, v: Verdict): Stash {
    if Incomplete(r) then
      if r.start.None? || (v.unavailable && v.aspect.DateAspect? && (v.closedDay || DayLike(r.precision)))
          then EmptyStash
      else Stash(r.start, r.end, r.precision, r.needsDate, r.needsTime)
    else if r.precision == Some(Clock) && r.start.Some? && v.unavailable then
      if v.aspect.TimeAspect? then Stash(r.start, r.end, Some(Day), false, true)
      else Stash(r.start, r.end, Some(TimeOnly), true, false)
    else EmptyStash
  }

  // ---------------------------------------------------------------- whole conversations

  /** The kinds of answer the parser tells apart. */
  datatype Answer =
    | DayOnly(day: int)               // "Friday"
    | SoftDay(day: int)               // "Friday morning"
    | ClockOnly(minute: int)          // "3 pm"
    | SoftTime                        // "in the morning": the parser fills in a day of its own
    | Both(day: int, minute: int)     // "Friday at 3"
    | Chosen(day: int, minute: int)   // "the first one", "the last one": the opening meant
    | Silent

  predicate SaysNothing(turn: Turn) {
    turn.start.None? && turn.precision.None? && !turn.needsDate && !turn.needsTime
  }

  predicate Says(turn: Turn, a: Answer) {
    match a
    case DayOnly(d) =>
      turn.start.Some? && turn.start.value.day == d && turn.precision == Some(Day) && turn.needsTime && !turn.needsDate
    case SoftDay(d) =>
      turn.start.Some? && turn.start.value.day == d && turn.precision == Some(PartOfDay) && turn.needsTime
          && !turn.needsDate
    case ClockOnly(m) =>
      turn.start.Some? && turn.start.value.minute == m && turn.precision == Some(Clock) && turn.needsDate
          && !turn.needsTime
    case SoftTime =>
      turn.start.Some? && turn.precision == Some(PartOfDay) && turn.needsDate && turn.needsTime
    case Both(d, m) =>
      turn.start == Some(Moment(d, m)) && turn.precision == Some(Clock) && !turn.needsDate && !turn.needsTime
    case Chosen(_, _) =>
      SaysNothing(turn) && !turn.named
    case Silent =>
      SaysNothing(turn)
  }

  /** What the customer has settled so far: a day, a clock time, both or neither. */
  datatype Known = Known(day: Option<int>, clock: Option<int>)

  /** What an answer adds to it.  A soft time replaces a clock time without giving one. */
  function Heard(k: Known, a: Answer): Known {
    match a
    case DayOnly(d) => Known(Some(d), k.clock)
    case SoftDay(d) => Known(Some(d), k.clock)
    case ClockOnly(m) => Known(k.day, Some(m))
    case SoftTime => Known(k.day, None)
    case Both(d, m) => Known(Some(d), Some(m))
    case Chosen(d, m) => Known(Some(d), Some(m))
    case Silent => k
  }

  /** What the verdict takes away again. */
  function Judged(k: Known, v: Verdict): Known {
    if k.day.Some? && k.clock.Some? then
      if !v.unavailable then Known(None, None)
      else if v.aspect.TimeAspect? then Known(k.day, None)
      else Known(None, k.clock)
    else if v.unavailable && v.aspect.DateAspect? && (v.closedDay || k.day.Some?) then Known(None, None)
    else k
  }

  /** The concrete fields that stand for what is known. */
  predicate Stands(start: Option<Moment>, precision: Option<Precision>, needsDate: bool, needsTime: bool, k: Known) {
    match (k.day, k.clock)
    case (None, None) => start.None? && precision.None? && !needsDate && !needsTime
    case (Some(d), None) => start.Some? && start.value.day == d && DayLike(precision) && !needsDate && needsTime
    case (None, Some(m)) => start.Some? && start.value.minute == m && precision == Some(TimeOnly) && needsDate
        && !needsTime
    case (Some(d), Some(m)) => start == Some(Moment(d, m)) && precision == Some(Clock) && !needsDate && !needsTime
  }

  predicate StashStands(s: Stash, k: Known) {
    Stands(s.start, s.precision, s.needsDate, s.needsTime, k)
  }

  predicate MergedStands(r: Merged, k: Known) {
    Stands(r.start, r.precision, r.needsDate, r.needsTime, k)
  }

  /** An answer whose meaning does not depend on a day nobody named. */
  predicate Safe(k: Known, a: Answer) {
    match a
    case SoftTime => k.day.Some? && k.clock.None?
    case SoftDay(_) => k.day.None? || k.clock.None?
    case _ => true
  }

  /** The one answer openings make a difference to: silence over a full time gives way to the opening that is held. */
  predicate GivesWay(k: Known, a: Answer, ctx: Context) {
    ctx.offered != [] && a.Silent? && k.day.Some? && k.clock.Some?
  }

  /** A merge makes of an answer what it says exactly when the answer is safe and does not give way to an opening. */
  lemma AnswerIsHeard(turn: Turn, a: Answer, prev: Stash, k: Known, ctx: Context)
    requires Plain(turn, ctx) && Says(turn, a) && !a.Chosen? && StashStands(prev, k)
    ensures MergedStands(Merge(turn, prev, ctx), Heard(k, a)) <==> Safe(k, a) && !GivesWay(k, a, ctx)
  {
    PickIsOffered(WithStash(Parsed(turn), prev, ctx.offered != []).start, ctx.offered);
  }

  predicate At(r: Merged, opening: Opening) {
    opening.start.Some? && r.start == opening.start && r.precision == Some(Clock) && !r.needsDate && !r.needsTime
  }

  /**
   Choosing among openings with nothing else said. "The first one" and "the last one" settle on that opening, whatever
   half is known; a bare yes settles on the first one if nothing is known or a full time was, and with one half known
   leaves the other to be asked for unless an opening starts exactly there.
   */
  lemma ChoiceSettlesOnAnOpening(turn: Turn, prev: Stash, k: Known, ctx: Context)
    requires SaysNothing(turn) && !turn.named && StashStands(prev, k) && ctx.offered != []
    ensures var r := Merge(turn, prev, ctx);
            var first, last := ctx.offered[0], ctx.offered[|ctx.offered| - 1];
            && (turn.latest && last.start.Some? ==> At(r, last))
            && (turn.earliest && !turn.latest && first.start.Some? ==> At(r, first))
            && (!turn.earliest && !turn.latest && turn.confirmed && first.start.Some? ==>
                  if k.day.Some? <==> k.clock.Some? then At(r, first)
                  else r.start == prev.start && (MergedStands(r, k) <==> !Offered(prev.start.value, ctx.offered)))
  {
    var d := Extreme(WithStash(Parsed(turn), prev, true), turn, ctx);
    PickIsOffered(d.start, ctx.offered);
    if d.start.Some? { PickFindsOffered(d.start.value, ctx.offered); }
  }

  lemma {:induction false} PickFindsOffered(m: Moment, offered: seq<Opening>)
    ensures Pick(Some(m), offered) == Some(m) <==> Offered(m, offered)
  {
    PickIsOffered(Some(m), offered);
    if offered != [] {
      PickFindsOffered(m, offered[1..]);
      if i :| 0 < i < |offered| && offered[i].start == Some(m) {
        assert offered[1..][i - 1].start == Some(m);
      }
    }
  }

  lemma VerdictIsJudged(r: Merged, k: Known, v: Verdict)
    requires MergedStands(r, k)
    ensures StashStands(Remembered(r, v), Judged(k, v))
  {
  }

  /** One exchange of a call; an exchange that is not saved leaves the stash. */
  datatype Exchange = Exchange(turn: Turn, ctx: Context, answer: Answer, verdict: Option<Verdict>)

  /** The turn asks for the first or the last opening, and that is the one meant. */
  predicate Chooses(turn: Turn, ctx: Context, m: Moment) {
    && ctx.offered != [] && (turn.earliest || turn.latest)
    && ctx.offered[if turn.latest then |ctx.offered| - 1 else 0].start == Some(m)
  }

  /** An answer that says something, or keeps silent, or does nothing but choose the first or the last opening. */
  predicate Spoken(x: Exchange) {
    && Says(x.turn, x.answer)
    && if x.answer.Chosen? then Chooses(x.turn, x.ctx, Moment(x.answer.day, x.answer.minute)) else Plain(x.turn, x.ctx)
  }

  lemma ExchangeIsHeard(x: Exchange, prev: Stash, k: Known)
    requires Spoken(x) && StashStands(prev, k)
    ensures MergedStands(Merge(x.turn, prev, x.ctx), Heard(k, x.answer))
            <==> Safe(k, x.answer) && !GivesWay(k, x.answer, x.ctx)
  {
    hide Merge;
    if x.answer.Chosen? {
      ChoiceSettlesOnAnOpening(x.turn, prev, k, x.ctx);
    } else {
      AnswerIsHeard(x.turn, x.answer, prev, k, x.ctx);
    }
  }

  function StashAfter(xs: seq<Exchange>): Stash {
    if xs == [] then EmptyStash
    else
      var x, before := xs[|xs| - 1], StashAfter(xs[..|xs| - 1]);
      if x.verdict.Some? then Remembered(Merge(x.turn, before, x.ctx), x.verdict.value) else before
  }

  function KnownAfter(xs: seq<Exchange>): Known {
    if xs == [] then Known(None, None)
    else
      var x, before := xs[|xs| - 1], KnownAfter(xs[..|xs| - 1]);
      if x.verdict.Some? then Judged(Heard(before, x.answer), x.verdict.value) else before
  }

  /** What is known between exchanges is never a full time: a verdict takes one half away or both. */
  lemma {:induction false} NeverBothKnown(xs: seq<Exchange>)
    ensures KnownAfter(xs).day.None? || KnownAfter(xs).clock.None?
  {
    if xs != [] { NeverBothKnown(xs[..|xs| - 1]); }
  }

  /** No soft time comes while the day is unknown or a clock time known, and no soft day over a full time. */
  predicate SafeCall(xs: seq<Exchange>) {
    xs == [] || (
      && SafeCall(xs[..|xs| - 1]) && Spoken(xs[|xs| - 1])
      && Safe(KnownAfter(xs[..|xs| - 1]), xs[|xs| - 1].answer))
  }

  /**
   Over every call, whatever is answered in whatever order and however the times proposed turn
   out, the stash holds exactly what the customer has settled and not lost again, and each merge
   is complete exactly when both halves are known, at the last day and clock given.
   */
  lemma {:induction false} CallRemembersWhatIsSettled(xs: seq<Exchange>)
    requires SafeCall(xs)
    ensures StashStands(StashAfter(xs), KnownAfter(xs))
    ensures xs != [] ==>
              var x := xs[|xs| - 1];
              MergedStands(Merge(x.turn, StashAfter(xs[..|xs| - 1]), x.ctx),
                  Heard(KnownAfter(xs[..|xs| - 1]), x.answer))
  {
    if xs != [] {
      var x, before := xs[|xs| - 1], xs[..|xs| - 1];
      CallRemembersWhatIsSettled(before);
      NeverBothKnown(before);
      ExchangeIsHeard(x, StashAfter(before), KnownAfter(before));
      if x.verdict.Some? {
        VerdictIsJudged(Merge(x.turn, StashAfter(before), x.ctx), Heard(KnownAfter(before), x.answer), x.verdict.value);
      }
    }
  }

  /** Every merge of the call stands for what has been heard. */
  predicate HeardThroughout(xs: seq<Exchange>) {
    xs == [] || (
      && HeardThroughout(xs[..|xs| - 1])
      && var x := xs[|xs| - 1];
         MergedStands(Merge(x.turn, StashAfter(xs[..|xs| - 1]), x.ctx), Heard(KnownAfter(xs[..|xs| - 1]), x.answer)))
  }

  /** The condition is exact: each merge of a call stands for what has been heard just when the call is safe. */
  lemma {:induction false} HeardExactlyInSafeCalls(xs: seq<Exchange>)
    requires forall x :: x in xs ==> Spoken(x)
    ensures HeardThroughout(xs) <==> SafeCall(xs)
  {
    if xs != [] {
      var x, before := xs[|xs| - 1], xs[..|xs| - 1];
      assert x in xs;
      assert forall y :: y in before ==> y in xs;
      HeardExactlyInSafeCalls(before);
      if SafeCall(before) {
        CallRemembersWhatIsSettled(before);
        NeverBothKnown(before);
        ExchangeIsHeard(x, StashAfter(before), KnownAfter(before));
      }
    }
  }

  /**
   The last day and the last clock time given, found by looking back through the answers; a soft
   answer has to be asked again and so counts for neither.
   */
  function LastDay(answers: seq<Answer>): Option<int> {
    if answers == [] then None
    else
      match answers[|answers| - 1]
      case DayOnly(d) => Some(d)
      case Both(d, _) => Some(d)
      case Chosen(d, _) => Some(d)
      case _ => LastDay(answers[..|answers| - 1])
  }

  function LastClock(answers: seq<Answer>): Option<int> {
    if answers == [] then None
    else
      match answers[|answers| - 1]
      case ClockOnly(m) => Some(m)
      case Both(_, m) => Some(m)
      case Chosen(_, m) => Some(m)
      case _ => LastClock(answers[..|answers| - 1])
  }

  /** A stash that keeps the whole of each merge. */
  function Kept(r: Merged): Stash {
    Stash(r.start, r.end, r.precision, r.needsDate, r.needsTime)
  }

  function MergedAfter(xs: seq<Exchange>): Merged
    requires xs != []
  {
    var x := xs[|xs| - 1];
    Merge(x.turn, if |xs| == 1 then EmptyStash else Kept(MergedAfter(xs[..|xs| - 1])), x.ctx)
  }

  function Answers(xs: seq<Exchange>): seq<Answer> {
    seq(|xs|, i requires 0 <= i < |xs| => xs[i].answer)
  }

  /**
   With every merge remembered whole, answers of a day, a clock, both, a chosen opening or nothing give the last
   day at the last clock, in whatever order they come, and ask for exactly the half still missing; openings on offer
   make no other difference as long as something is said.
   */
  lemma {:induction false} LastDayAtLastClock(xs: seq<Exchange>)
    requires xs != []
    requires forall x :: x in xs ==> Spoken(x) && !x.answer.SoftDay? && !x.answer.SoftTime?
    requires forall x :: x in xs ==> x.ctx.offered == [] || !x.answer.Silent?
    ensures MergedStands(MergedAfter(xs), Known(LastDay(Answers(xs)), LastClock(Answers(xs))))
  {
    var x, before := xs[|xs| - 1], xs[..|xs| - 1];
    assert Answers(xs)[..|xs| - 1] == Answers(before);
    assert x in xs;
    assert Known(LastDay(Answers(xs)), LastClock(Answers(xs)))
        == Heard(Known(LastDay(Answers(before)), LastClock(Answers(before))), x.answer);
    if |xs| == 1 {
      ExchangeIsHeard(x, EmptyStash, Known(None, None));
    } else {
      LastDayAtLastClock(before);
      ExchangeIsHeard(x, Kept(MergedAfter(before)), Known(LastDay(Answers(before)), LastClock(Answers(before))));
    }
  }

  /**
   Why `Safe` asks for a day and no clock: a soft time ("in the morning") and then a clock-only answer ("3 pm") are
   taken as complete exactly unless the verdict in between dropped the stash, and the day is then the one known only
   if no clock was known with it. Otherwise it is a day the parser made up.
   */
  lemma SoftTimeInventsADayExactlyWhen(
    soft: Turn, clock: Turn, minute: int, prev: Stash, k: Known, ctx: Context, ctx': Context, v: Verdict)
    requires Plain(soft, ctx) && Plain(clock, ctx') && StashStands(prev, k)
    requires Says(soft, SoftTime) && Says(clock, ClockOnly(minute))
    ensures var r := Merge(clock, Remembered(Merge(soft, prev, ctx), v), ctx');
            if v.unavailable && v.aspect.DateAspect? then
              r.start == clock.start && r.precision == Some(TimeOnly) && r.needsDate
            else
              && r.precision == Some(Clock) && !r.needsDate && !r.needsTime
              && var keptDay := k.day.Some? && k.clock.None?;
                 r.start == Some(Moment(if keptDay then k.day.value else soft.start.value.day, minute))
  {
    var stash := Remembered(Merge(soft, prev, ctx), v);
    PickIsOffered(WithStash(Parsed(clock), stash, ctx'.offered != []).start, ctx'.offered);
  }
}
