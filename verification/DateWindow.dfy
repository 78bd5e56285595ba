/** The created-date window: two bounds, each an instant or a capture-local
    date, and the decision whether they leave room for any asset. Instants are
    nanoseconds, dates are day numbers of the UTC calendar. */
module DateWindow {
  import opened Wrappers

  const SECOND := 1_000_000_000
  const DAY := 86_400 * SECOND

  /** Widest capture offset, in nanoseconds. */
  const WIDEST := 86_399 * SECOND

  datatype CreatedDateFilter = Instant(boundary: int) | CaptureDate(day: int)

  function Midnight(day: int): int {
    day * DAY
  }

  /** The calendar date an instant falls on under a capture offset. */
  function DateAt(created: int, offset: int): int {
    (created + offset) / DAY
  }

  predicate Offset(offset: int) {
    -WIDEST <= offset <= WIDEST && offset % SECOND == 0
  }

  predicate ExcludesBefore(f: CreatedDateFilter, created: int, captureDate: int) {
    match f
    case Instant(boundary) => created < boundary
    case CaptureDate(day) => captureDate < day
  }

  predicate ExcludesAfter(f: CreatedDateFilter, created: int, captureDate: int) {
    match f
    case Instant(boundary) => created > boundary
    case CaptureDate(day) => captureDate > day
  }

  function EarliestInstantOn(day: int): int {
    Midnight(day) - WIDEST
  }

  function FirstInstantAfter(day: int): int {
    Midnight(day + 1) + WIDEST
  }

  /** The days a date can name, first and last included. */
  datatype Calendar = Calendar(first: int, last: int) {
    predicate HasDay(day: int) {
      first <= day <= last
    }

    predicate HasInstant(i: int) {
      Midnight(first) <= i < Midnight(last + 1)
    }
  }

  /** The two bounds admit nothing. At the end of the calendar a day has no
      successor, and the code declines to warn; at its beginning there is no
      earlier instant to compute, and the subtraction panics: no answer. */
  function IsStrictlyAfter(before: CreatedDateFilter, after: CreatedDateFilter, cal: Calendar): Option<bool> {
    match (before, after)
    case (Instant(b), Instant(a)) => Some(b > a)
    case (CaptureDate(b), CaptureDate(a)) => Some(b > a)
    case (CaptureDate(b), Instant(a)) =>
      if cal.HasInstant(EarliestInstantOn(b)) then Some(EarliestInstantOn(b) > a) else None
    case (Instant(b), CaptureDate(a)) => Some(a != cal.last && b >= FirstInstantAfter(a))
  }

  /** Bounds the calendar can hold. */
  predicate Representable(f: CreatedDateFilter, cal: Calendar) {
    match f
    case Instant(boundary) => cal.HasInstant(boundary)
    case CaptureDate(day) => cal.HasDay(day)
  }

  /** An asset that can exist, its capture date included, and passes both bounds. */
  ghost predicate Admits(
    before: CreatedDateFilter, after: CreatedDateFilter, cal: Calendar, created: int, offset: int)
  {
    && Offset(offset) && cal.HasInstant(created) && cal.HasDay(DateAt(created, offset))
    && !ExcludesBefore(before, created, DateAt(created, offset))
    && !ExcludesAfter(after, created, DateAt(created, offset))
  }

  /** An asset inside the window, when there is one. */
  function Inside(before: CreatedDateFilter, after: CreatedDateFilter): (int, int) {
    match (before, after)
    case (Instant(b), CaptureDate(a)) => (b, if b < Midnight(a + 1) then 0 else -WIDEST)
    case (CaptureDate(b), Instant(a)) => if a < Midnight(b) then (a, WIDEST) else (Midnight(b), 0)
    case (CaptureDate(b), CaptureDate(_)) => (Midnight(b), 0)
    case (Instant(b), Instant(_)) => (b, 0)
  }

  lemma DateBounds(created: int, offset: int, day: int)
    ensures DateAt(created, offset) >= day <==> created + offset >= Midnight(day)
    ensures DateAt(created, offset) <= day <==> created + offset < Midnight(day + 1)
  {}

  lemma InsideIsAdmitted(before: CreatedDateFilter, after: CreatedDateFilter, cal: Calendar)
    requires Representable(before, cal) && Representable(after, cal)
    requires IsStrictlyAfter(before, after, cal) == Some(false)
    ensures var w := Inside(before, after);
            Admits(before, after, cal, w.0, w.1)
  {
    var w := Inside(before, after);
    DateBounds(w.0, w.1, cal.first);
    DateBounds(w.0, w.1, cal.last);
    if before.CaptureDate? { DateBounds(w.0, w.1, before.day); }
    if after.CaptureDate? { DateBounds(w.0, w.1, after.day); }
  }

  lemma NothingAdmitted(
    before: CreatedDateFilter, after: CreatedDateFilter, cal: Calendar, created: int, offset: int)
    requires IsStrictlyAfter(before, after, cal) == Some(true)
    ensures !Admits(before, after, cal, created, offset)
  {}

  /** The decision is exact for every combination of bounds, right up to the
      ends of the calendar: it reports a contradiction if and only if no asset
      passes both bounds at any capture offset. It fails to answer only for a
      window from the first day of the calendar to an instant. */
  lemma WindowDecisionExact(before: CreatedDateFilter, after: CreatedDateFilter, cal: Calendar)
    requires Representable(before, cal) && Representable(after, cal)
    ensures var answer := IsStrictlyAfter(before, after, cal);
      && (answer.None? <==> before == CaptureDate(cal.first) && after.Instant?)
      && (answer.Some? ==>
            (answer.value <==> !exists created, offset :: Admits(before, after, cal, created, offset)))
  {
    var answer := IsStrictlyAfter(before, after, cal);
    if answer == Some(false) {
      InsideIsAdmitted(before, after, cal);
    } else if answer == Some(true) {
      forall created, offset ensures !Admits(before, after, cal, created, offset) {
        NothingAdmitted(before, after, cal, created, offset);
      }
    }
  }

  // ---- The bound pushed down to queries ----------------------------------

  /** A day before midnight on a date; no such instant exists before the
      calendar begins, and the subtraction panics. */
  function ConservativeUtcLowerBound(f: CreatedDateFilter, cal: Calendar): Option<int> {
    match f
    case Instant(boundary) => Some(boundary)
    case CaptureDate(day) => if cal.HasInstant(Midnight(day) - DAY) then Some(Midnight(day) - DAY) else None
  }

  /** Excluded at every capture offset that gives the asset a date at all. */
  ghost predicate AlwaysExcluded(f: CreatedDateFilter, cal: Calendar, created: int) {
    forall offset :: Offset(offset) && cal.HasDay(DateAt(created, offset)) ==>
      ExcludesBefore(f, created, DateAt(created, offset))
  }

  /** An offset at which an asset not below the best bound passes. */
  function Passing(f: CreatedDateFilter, created: int): int {
    if f.CaptureDate? && created < Midnight(f.day) then WIDEST else 0
  }

  /** The bound panics exactly for the first day of the calendar. Everywhere
      else nothing below it could have passed, and it is the best there is for
      an instant and one second short of it for a date. */
  lemma LowerBoundIsTight(f: CreatedDateFilter, cal: Calendar, created: int)
    requires Representable(f, cal) && cal.HasInstant(created)
    ensures var bound := ConservativeUtcLowerBound(f, cal);
      && (bound.None? <==> f == CaptureDate(cal.first))
      && (bound.Some? ==>
            (AlwaysExcluded(f, cal, created) <==>
               created < bound.value + if f.CaptureDate? then 1_000_000_000 else 0))
  {
    var offset := Passing(f, created);
    DateBounds(created, offset, cal.first);
    DateBounds(created, offset, cal.last);
    if f.CaptureDate? {
      DateBounds(created, offset, f.day);
      forall o | Offset(o) ensures DateAt(created, o) >= f.day <==> created + o >= Midnight(f.day) {
        DateBounds(created, o, f.day);
      }
    }
    assert AlwaysExcluded(f, cal, created) ==>
      cal.HasDay(DateAt(created, offset)) ==> ExcludesBefore(f, created, DateAt(created, offset));
  }
}
