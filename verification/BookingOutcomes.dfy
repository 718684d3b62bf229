/**
 What one merge makes of each kind of answer, said in the fields of the turn, the stash and the openings: when halves
 come together, when they do not, which end the visit has, and what a name, a choice and a yes change.
 */
module BookingOutcomes {
  import opened Wrappers
  import opened BookingMerge

  /** Minutes since day 0. */
  function Stamp(m: Moment): int {
    m.day * 1440 + m.minute
  }

  /** Adding minutes moves a moment by that much, over midnight too. */
  lemma PlusIsLater(m: Moment, minutes: int)
    ensures Stamp(Plus(m, minutes)) == Stamp(m) + minutes && 0 <= Plus(m, minutes).minute < 1440
  {
  }

  predicate KnowsDay(p: Option<Precision>) {
    p == Some(Day) || p == Some(PartOfDay)
  }

  predicate KnowsClock(p: Option<Precision>) {
    p == Some(Clock) || p == Some(TimeOnly)
  }

  /** A clock time whose day is missing is remembered as that. */
  predicate ShownAs(shown: Option<Precision>, p: Option<Precision>, needsDate: bool) {
    if needsDate && p == Some(Clock) then shown == Some(TimeOnly) else shown == p
  }

  /** The result is the turn as it was parsed. */
  predicate AsSaid(r: Merged, turn: Turn) {
    && r.start == turn.start && r.end == turn.end && r.needsDate == turn.needsDate && r.needsTime == turn.needsTime
    && ShownAs(r.precision, turn.precision, turn.needsDate)
  }

  /** A whole clock time; one that an opening starts at ends when the turn says, any other an hour later. */
  predicate WholeAt(r: Merged, start: Moment, turn: Turn, ctx: Context) {
    && r.start == Some(start) && r.precision == Some(Clock) && !r.needsDate && !r.needsTime
    && r.end == if exists i :: 0 <= i < |ctx.offered| && ctx.offered[i].start == Some(start) then turn.end
                else Some(Plus(start, 60))
  }

  lemma PickMeets(m: Moment, offered: seq<Opening>)
    ensures Pick(Some(m), offered) ==
            if exists i :: 0 <= i < |offered| && offered[i].start == Some(m) then Some(m) else None
  {
    PickIsOffered(Some(m), offered);
    PickFindsOffered(m, offered);
  }

  // ---------------------------------------------------------------- no choice is made

  /** A clock time over what is known: completed with the known day, or left as said. */
  lemma ClockOverStash(turn: Turn, prev: Stash, ctx: Context)
    requires Plain(turn, ctx) && turn.start.Some? && turn.needsDate && !turn.needsTime && prev.start.Some?
    ensures var r := Merge(turn, prev, ctx);
            if KnowsDay(prev.precision) || (KnowsClock(prev.precision) && !prev.needsDate)
            then WholeAt(r, Moment(prev.start.value.day, turn.start.value.minute), turn, ctx)
            else AsSaid(r, turn)
  {
    PickMeets(Moment(prev.start.value.day, turn.start.value.minute), ctx.offered);
  }

  /** A day over what is known: completed with the known clock time, or left as said. */
  lemma DayOverStash(turn: Turn, prev: Stash, ctx: Context)
    requires Plain(turn, ctx) && turn.start.Some? && turn.needsTime && !turn.needsDate && prev.start.Some?
    ensures var r := Merge(turn, prev, ctx);
            if KnowsClock(prev.precision) && (turn.precision == None || turn.precision == Some(Day) || prev.needsDate)
            then WholeAt(r, Moment(turn.start.value.day, prev.start.value.minute), turn, ctx)
            else AsSaid(r, turn)
  {
    PickMeets(Moment(turn.start.value.day, prev.start.value.minute), ctx.offered);
  }

  /** A soft time over a known day keeps the day: till the end that was known on that day, or for three hours. */
  lemma SoftTimeOverStash(turn: Turn, prev: Stash, ctx: Context)
    requires Plain(turn, ctx) && turn.start.Some? && turn.needsDate && turn.needsTime && prev.start.Some?
    ensures var r := Merge(turn, prev, ctx);
            if KnowsDay(prev.precision) && !prev.needsDate
            then
              var start := Moment(prev.start.value.day, turn.start.value.minute);
              && r.start == Some(start) && !r.needsDate && r.needsTime
              && r.precision == (if turn.precision.Some? then turn.precision else Some(PartOfDay))
              && r.end == Some(if prev.end.Some? then Moment(prev.start.value.day, prev.end.value.minute)
                               else Plus(start, 180))
            else AsSaid(r, turn)
  {
  }

  /** A whole answer stands whatever is known, and so does any answer while nothing is known. */
  lemma WholeOrFirstAnswerStands(turn: Turn, prev: Stash, ctx: Context)
    requires Plain(turn, ctx)
    requires turn.start.Some? && (prev.start.None? || (!turn.needsDate && !turn.needsTime))
    ensures AsSaid(Merge(turn, prev, ctx), turn)
  {
    PickMeets(turn.start.value, ctx.offered);
  }

  /** Saying no time while nothing is known leaves nothing known. */
  lemma NothingStaysNothing(turn: Turn, prev: Stash, ctx: Context)
    requires Plain(turn, ctx) && turn.start.None? && prev.start.None?
    ensures AsSaid(Merge(turn, prev, ctx), turn)
  {
  }

  /**
   Saying no time over what is known: a whole clock time gives way to openings that are held; anything else is carried
   over, and with nothing held a clock time without its day asks for the day only.
   */
  lemma SilenceOverStash(turn: Turn, prev: Stash, ctx: Context)
    requires Plain(turn, ctx) && turn.start.None? && prev.start.Some?
    ensures var r := Merge(turn, prev, ctx);
            if ctx.offered != [] && KnowsClock(prev.precision) && !prev.needsDate && !prev.needsTime
            then AsSaid(r, turn)
            else
              var p := if prev.precision.Some? then prev.precision else turn.precision;
              var asksDay := p == Some(TimeOnly) && ctx.offered == [];
              && r.start == prev.start
              && (r.needsDate <==> turn.needsDate || prev.needsDate || asksDay)
              && (r.needsTime <==> (turn.needsTime || prev.needsTime) && !asksDay)
              && ShownAs(r.precision, p, r.needsDate)
              && r.end == if prev.end.Some? && !(p == Some(Clock) && !r.needsDate && !r.needsTime && exists i ::
                                                   0 <= i < |ctx.offered| && ctx.offered[i].start == prev.start)
                          then prev.end else turn.end
  {
    PickMeets(prev.start.value, ctx.offered);
  }

  // ---------------------------------------------------------------- a name is given

  /**
   A name given while an opening is held takes the first opening up again, if no time is said and none is known or the
   one known is a whole clock time; the visit then ends when the turn says.
   */
  lemma NameResumesTheFirstOpening(turn: Turn, prev: Stash, ctx: Context)
    requires turn.named && ctx.booking && ctx.offered != [] && turn.start.None?
    requires prev.start.None? || (KnowsClock(prev.precision) && !prev.needsDate && !prev.needsTime)
    ensures var r, first := Merge(turn, prev, ctx), ctx.offered[0];
            && r.precision == Some(Clock) && !r.needsDate && !r.needsTime
            && (first.start.Some? ==> r.start == first.start && r.end == turn.end)
            && (first.start.None? && !turn.confirmed ==>
                  r.start == None && r.end == if first.end.Some? then first.end else turn.end)
  {
    if ctx.offered[0].start.Some? { PickFindsOffered(ctx.offered[0].start.value, ctx.offered); }
  }

  /** In every other case it makes no difference whether a name was given. */
  lemma NameElseChangesNothing(turn: Turn, prev: Stash, ctx: Context)
    requires || !ctx.booking || ctx.offered == [] || turn.start.Some?
             || (prev.start.Some? && !(KnowsClock(prev.precision) && !prev.needsDate && !prev.needsTime))
    ensures Merge(turn, prev, ctx) == Merge(turn.(named := false), prev, ctx)
  {
  }

  /** So a name over a known half leaves the other half to be asked for. */
  lemma NameOverAHalf(turn: Turn, prev: Stash, k: Known, ctx: Context)
    requires SaysNothing(turn) && !turn.earliest && !turn.latest && !turn.confirmed
    requires StashStands(prev, k) && (k.day.Some? <==> k.clock.None?)
    ensures MergedStands(Merge(turn, prev, ctx), k)
  {
    NameElseChangesNothing(turn, prev, ctx);
    AnswerIsHeard(turn.(named := false), Silent, prev, k, ctx);
  }

  // ---------------------------------------------------------------- the first or the last opening is asked for

  /** This turn and the stash come to a clock time, with or without its day. */
  predicate ComesToAClock(turn: Turn, prev: Stash, ctx: Context) {
    if turn.start.Some? && prev.start.Some? then
      || turn.precision == Some(Clock)
      || (turn.needsDate && !turn.needsTime
          && (KnowsDay(prev.precision) || (KnowsClock(prev.precision) && !prev.needsDate)))
      || (turn.needsTime && !turn.needsDate && KnowsClock(prev.precision)
          && (turn.precision == None || turn.precision == Some(Day) || prev.needsDate))
    else if turn.start.Some? || prev.start.None? || (KnowsClock(prev.precision) && !prev.needsDate && !prev.needsTime)
      then turn.precision == Some(Clock)
    else if prev.precision.Some? then prev.precision == Some(Clock)
    else turn.precision == Some(Clock)
  }

  lemma ComesToAClockExactlyWhen(turn: Turn, prev: Stash, ctx: Context)
    requires ctx.offered != []
    ensures ComesToAClock(turn, prev, ctx) <==> WithStash(Parsed(turn), prev, true).precision == Some(Clock)
  {
  }

  /** Where that comes to a clock time, asking for the first or the last opening is not heard. */
  lemma KnownClockOutweighsAChoice(turn: Turn, prev: Stash, ctx: Context)
    requires ctx.offered != [] && ComesToAClock(turn, prev, ctx)
    ensures Merge(turn, prev, ctx) == Merge(turn.(earliest := false, latest := false), prev, ctx)
  {
    hide WithStash;
    hide ComesToAClock;
    ComesToAClockExactlyWhen(turn, prev, ctx);
  }

  /** Where it does not, the opening asked for decides the time, whatever else was said or known. */
  lemma ChoiceDecides(turn: Turn, prev: Stash, ctx: Context)
    requires (turn.earliest || turn.latest) && ctx.offered != [] && (!turn.named || !ctx.booking)
    requires !ComesToAClock(turn, prev, ctx)
    ensures var r, chosen := Merge(turn, prev, ctx), ctx.offered[if turn.latest then |ctx.offered| - 1 else 0];
            && r.precision == Some(Clock) && !r.needsDate && !r.needsTime
            && (chosen.start.Some? ==> r.start == chosen.start && r.end == turn.end)
  {
    hide Pick;
    hide WithStash;
    hide ComesToAClock;
    ComesToAClockExactlyWhen(turn, prev, ctx);
    var chosen := ctx.offered[if turn.latest then |ctx.offered| - 1 else 0];
    if chosen.start.Some? { PickFindsOffered(chosen.start.value, ctx.offered); }
  }

  /** An opening whose start cannot be read decides only the end, if that can be read. */
  lemma UnreadableChoice(turn: Turn, prev: Stash, ctx: Context)
    requires (turn.earliest || turn.latest) && ctx.offered != [] && (!turn.named || !ctx.booking) && !turn.confirmed
    requires !ComesToAClock(turn, prev, ctx)
    requires ctx.offered[if turn.latest then |ctx.offered| - 1 else 0].start.None?
    ensures var r, chosen := Merge(turn, prev, ctx), ctx.offered[if turn.latest then |ctx.offered| - 1 else 0];
            && r.start == turn.start
            && r.end == if chosen.end.Some? then chosen.end
                        else Merge(turn.(earliest := false, latest := false), prev, ctx).end
  {
    hide Pick;
    hide WithStash;
    hide ComesToAClock;
    ComesToAClockExactlyWhen(turn, prev, ctx);
  }

  // ---------------------------------------------------------------- a yes

  /** A yes counts as a confirmation unless it only agrees to book a known service before any opening was read out. */
  lemma YesConfirmsExactlyWhen(turn: Turn, prev: Stash, ctx: Context)
    ensures Merge(turn, prev, ctx).confirmed <==>
            turn.confirmed && (ctx.offered != [] || !ctx.booking || !ctx.service)
  {
  }

  /**
   With openings on offer a yes settles on the opening that starts at the time come to, on the first one with a known
   start if no time was come to, and changes nothing where no opening starts then.
   */
  lemma YesSettles(turn: Turn, prev: Stash, ctx: Context)
    requires turn.confirmed && ctx.offered != [] && (turn.start.None? || (!turn.earliest && !turn.latest))
    ensures var r, without := Merge(turn, prev, ctx), Merge(turn.(confirmed := false), prev, ctx);
            && (without.start.Some? && (exists i :: 0 <= i < |ctx.offered| && ctx.offered[i].start == without.start) ==>
                  r == Merged(without.start, turn.end, Some(Clock), false, false, true))
            && (without.start.Some?
                && (forall i :: 0 <= i < |ctx.offered| ==> ctx.offered[i].start != without.start) ==>
                  r == without.(confirmed := true))
            && (without.start.None? ==> forall i :: IsFirstKnown(ctx.offered, i) ==>
                  r == Merged(ctx.offered[i].start, turn.end, Some(Clock), false, false, true))
  {
    var without := Merge(turn.(confirmed := false), prev, ctx);
    if without.start.Some? {
      PickFindsOffered(without.start.value, ctx.offered);
      PickIsOffered(without.start, ctx.offered);
    } else {
      forall i | IsFirstKnown(ctx.offered, i)
        ensures Pick(None, ctx.offered) == ctx.offered[i].start
      {
        PickTakesTheFirstKnown(ctx.offered, i);
      }
    }
  }

  predicate IsFirstKnown(offered: seq<Opening>, i: int) {
    0 <= i < |offered| && offered[i].start.Some? && forall j :: 0 <= j < i ==> offered[j].start.None?
  }

  lemma {:induction false} PickTakesTheFirstKnown(offered: seq<Opening>, i: nat)
    requires IsFirstKnown(offered, i)
    ensures Pick(None, offered) == offered[i].start
  {
    if i > 0 { PickTakesTheFirstKnown(offered[1..], i - 1); }
  }

  // ---------------------------------------------------------------- what is remembered

  /**
   An incomplete result is remembered whole, unless it has no start or its day was refused; of a whole clock time that
   was refused the day is remembered when the time was refused, and else the clock; of anything else nothing.
   */
  lemma RememberedExactly(r: Merged, v: Verdict)
    ensures var incomplete := r.needsDate || r.needsTime || KnowsDay(r.precision) || r.precision == Some(TimeOnly);
            var dayRefused := v.unavailable && v.aspect.DateAspect? && (v.closedDay || KnowsDay(r.precision));
            Remembered(r, v) ==
            if incomplete && r.start.Some? && !dayRefused then
              Stash(r.start, r.end, r.precision, r.needsDate, r.needsTime)
            else if !incomplete && r.precision == Some(Clock) && r.start.Some? && v.unavailable then
              (if v.aspect.TimeAspect? then Stash(r.start, r.end, Some(Day), false, true)
               else Stash(r.start, r.end, Some(TimeOnly), true, false))
            else Stash(None, None, None, false, false)
  {
  }
}
