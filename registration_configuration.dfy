/** The registration configuration of an event (apps/events/models.py):
    three dated price tiers, an `enabled` flag, and the queries that tell
    whether registration is open and what it costs at a given instant.

    Timestamps are integers (any fixed unit), prices are integer cents, and
    the current time, which the source reads from the clock, is the
    parameter `now`. */
module RegistrationConfigurations {

  import opened Wrappers

  /** The part of the owning event the configuration reads. */
  datatype Event = Event(startDt: int, endDt: int)

  /** A tier's time window; it contains both of its end points. */
  datatype Period = Period(start: int, end: int)

  const EarlyName: string := "early"
  const RegularName: string := "regular"
  const LateName: string := "late"
  const TierNames: set<string> := {EarlyName, RegularName, LateName}

  /** `now` lies in the closed interval `[p.start, p.end]`. */
  predicate Contains(p: Period, now: int)
  {
    p.start <= now <= p.end
  }

  /** The tier table built when the configuration is created: nothing when
      no event is attached; otherwise early runs from the early date to the
      regular date, regular from the regular date to the late date, and late
      from the late date to the event's START. */
  function BuildPeriods(earlyDt: int, regularDt: int, lateDt: int, event: Option<Event>):
    (r: Option<map<string, Period>>)
    ensures r.Some? <==> event.Some?
    ensures r.Some? ==> r.value.Keys == TierNames
    ensures r.Some? ==>
      && r.value[EarlyName] == Period(earlyDt, regularDt)
      && r.value[RegularName] == Period(regularDt, lateDt)
      && r.value[LateName] == Period(lateDt, event.value.startDt)
  {
    match event
    case None => None
    case Some(e) =>
      Some(map[EarlyName := Period(earlyDt, regularDt),
               RegularName := Period(regularDt, lateDt),
               LateName := Period(lateDt, e.startDt)])
  }

  /** `order` is an order in which iterating the table visits its names:
      each name of the table exactly once. Python 2 dictionaries promise no
      particular order, so the queries take any such order. */
  predicate IsIterationOrder(order: seq<string>, periods: map<string, Period>)
  {
    && (forall i, j :: 0 <= i < j < |order| ==> order[i] != order[j])
    && (forall i :: 0 <= i < |order| ==> order[i] in periods)
    && (forall k :: k in periods ==> k in order)
  }

  /** Some period of the table contains `now`. */
  predicate InAnyPeriod(periods: map<string, Period>, now: int)
  {
    exists k :: k in periods && Contains(periods[k], now)
  }

  /** The last name in `order` whose period contains `now`, if any. */
  function LastMatch(periods: map<string, Period>, order: seq<string>, now: int): (r: Option<string>)
    requires forall i :: 0 <= i < |order| ==> order[i] in periods
    ensures r.Some? ==> r.value in order && Contains(periods[r.value], now)
    ensures r.None? <==> forall i :: 0 <= i < |order| ==> !Contains(periods[order[i]], now)
    ensures r.Some? ==>
      exists i :: (0 <= i < |order| && order[i] == r.value
                   && forall j :: i < j < |order| ==> !Contains(periods[order[j]], now))
  {
    if order == [] then None
    else
      var k := order[|order| - 1];
      if Contains(periods[k], now) then Some(k)
      else LastMatch(periods, order[..|order| - 1], now)
  }

  class RegistrationConfiguration {
    var earlyPrice: int
    var regularPrice: int
    var latePrice: int
    var earlyDt: int
    var regularDt: int
    var lateDt: int
    var limit: int
    var enabled: bool
    /** The owning event, when the configuration is attached to one. */
    var event: Option<Event>
    /** The tier table, a snapshot of the dates and the event taken when the
        configuration was created; the queries read it, not the fields. */
    var periods: Option<map<string, Period>>

    /** A table, when there is one, names exactly the three tiers. */
    predicate Valid()
      reads this
    {
      periods.Some? ==> periods.value.Keys == TierNames
    }

    constructor (earlyPrice: int, regularPrice: int, latePrice: int,
                 earlyDt: int, regularDt: int, lateDt: int,
                 limit: int, enabled: bool, event: Option<Event>)
      ensures Valid()
      ensures this.earlyPrice == earlyPrice && this.regularPrice == regularPrice
           && this.latePrice == latePrice
      ensures this.earlyDt == earlyDt && this.regularDt == regularDt && this.lateDt == lateDt
      ensures this.limit == limit && this.enabled == enabled && this.event == event
      ensures periods == BuildPeriods(earlyDt, regularDt, lateDt, event)
    {
      this.earlyPrice, this.regularPrice, this.latePrice := earlyPrice, regularPrice, latePrice;
      this.earlyDt, this.regularDt, this.lateDt := earlyDt, regularDt, lateDt;
      this.limit, this.enabled, this.event := limit, enabled, event;
      periods := BuildPeriods(earlyDt, regularDt, lateDt, event);
    }

    /** `available`: registration is switched on and the attached event, if
        any, has not ended at `now`; the tier dates play no part. */
    function Available(now: int): (r: bool)
      reads this
      ensures !enabled ==> !r
      ensures enabled && event.Some? && now > event.value.endDt ==> !r
      ensures enabled && (event.None? || now <= event.value.endDt) ==> r
    {
      if !enabled then false
      else if event.Some? && now > event.value.endDt then false
      else true
    }

    /** `price_from_period`: the configured price of the tier called
        `period`, or nothing for a name that is not a tier. */
    function PriceFromPeriod(period: string): (r: Option<int>)
      reads this
      requires Valid() && periods.Some?
      ensures r.Some? <==> period in TierNames
      ensures period == EarlyName ==> r == Some(earlyPrice)
      ensures period == RegularName ==> r == Some(regularPrice)
      ensures period == LateName ==> r == Some(latePrice)
    {
      if period in periods.value then
        Some(if period == EarlyName then earlyPrice
             else if period == RegularName then regularPrice
             else latePrice)
      else None
    }

    /** What `price` yields at `now` when the table is visited in `order`:
        the price of the last visited tier whose period contains `now`, or 0
        when there is none. */
    function CurrentPrice(now: int, order: seq<string>): int
      reads this
      requires Valid() && periods.Some? && IsIterationOrder(order, periods.value)
    {
      match LastMatch(periods.value, order, now)
      case None => 0
      case Some(k) => PriceFromPeriod(k).value
    }

    /** `within_time`: visit the table in `order` and stop at the first
        period that contains `now`. */
    method WithinTime(now: int, order: seq<string>) returns (b: bool)
      requires periods.Some? && IsIterationOrder(order, periods.value)
      ensures b <==> InAnyPeriod(periods.value, now)
    {
      var table := periods.value;
      var i := 0;
      while i < |order|
        invariant 0 <= i <= |order|
        invariant forall j :: 0 <= j < i ==> !Contains(table[order[j]], now)
      {
        if Contains(table[order[i]], now) {
          return true;
        }
        i := i + 1;
      }
      return false;
    }

    /** `price`: visit the table in `order`, overwriting the running price
        (0 to begin with) with each tier whose period contains `now`. */
    method Price(now: int, order: seq<string>) returns (price: int)
      requires Valid() && periods.Some? && IsIterationOrder(order, periods.value)
      ensures price == CurrentPrice(now, order)
    {
      var table := periods.value;
      price := 0;
      var i := 0;
      while i < |order|
        invariant 0 <= i <= |order|
        invariant price == match LastMatch(table, order[..i], now)
                           case None => 0
                           case Some(k) => PriceFromPeriod(k).value
      {
        assert order[..i + 1][..i] == order[..i];
        if Contains(table[order[i]], now) {
          price := PriceFromPeriod(order[i]).value;
        }
        i := i + 1;
      }
      assert order[..i] == order;
    }

    /** `is_open`: registration is switched on and `now` lies in some tier.
        The source evaluates `within_time` even when registration is off, so
        it too needs the table. */
    method IsOpen(now: int, order: seq<string>) returns (b: bool)
      requires periods.Some? && IsIterationOrder(order, periods.value)
      ensures b <==> enabled && InAnyPeriod(periods.value, now)
    {
      var within := WithinTime(now, order);
      b := enabled && within;
    }
  }

  /** `within_time` holds exactly when `now` lies in one of the closed
      intervals [early date, regular date], [regular date, late date] and
      [late date, event start]. */
  lemma WithinTimeIntervals(earlyDt: int, regularDt: int, lateDt: int, e: Event, now: int)
    ensures InAnyPeriod(BuildPeriods(earlyDt, regularDt, lateDt, Some(e)).value, now) <==>
      || earlyDt <= now <= regularDt
      || regularDt <= now <= lateDt
      || lateDt <= now <= e.startDt
  {
    var table := BuildPeriods(earlyDt, regularDt, lateDt, Some(e)).value;
    if earlyDt <= now <= regularDt {
      assert Contains(table[EarlyName], now);
    } else if regularDt <= now <= lateDt {
      assert Contains(table[RegularName], now);
    } else if lateDt <= now <= e.startDt {
      assert Contains(table[LateName], now);
    }
  }

  /** When exactly one period contains `now`, the last match is that tier,
      whatever the iteration order. */
  lemma LastMatchUnique(periods: map<string, Period>, order: seq<string>, now: int, k: string)
    requires IsIterationOrder(order, periods)
    requires k in periods && Contains(periods[k], now)
    requires forall k' :: k' in periods && k' != k ==> !Contains(periods[k'], now)
    ensures LastMatch(periods, order, now) == Some(k)
  {
    assert k in order;
  }

  /** `price` is 0 when no tier contains `now`, and otherwise the price of
      some tier that contains it; it never looks at `enabled`. When every
      tier price is non-zero, a price of 0 means exactly that no tier
      contains `now`. */
  lemma PriceZeroOrContainingTier(c: RegistrationConfiguration, now: int, order: seq<string>)
    requires c.Valid() && c.periods.Some? && IsIterationOrder(order, c.periods.value)
    ensures !InAnyPeriod(c.periods.value, now) ==> c.CurrentPrice(now, order) == 0
    ensures InAnyPeriod(c.periods.value, now) ==>
      exists k :: k in c.periods.value && Contains(c.periods.value[k], now)
        && c.PriceFromPeriod(k) == Some(c.CurrentPrice(now, order))
    ensures c.earlyPrice != 0 && c.regularPrice != 0 && c.latePrice != 0 ==>
      (c.CurrentPrice(now, order) == 0 <==> !InAnyPeriod(c.periods.value, now))
  {
    var table := c.periods.value;
    match LastMatch(table, order, now)
    case None =>
      assert !InAnyPeriod(table, now) by {
        forall k | k in table ensures !Contains(table[k], now) {
          assert k in order;
        }
      }
    case Some(k) =>
      assert k in table && Contains(table[k], now);
  }

  /** `price` never reads `enabled` or the dates: two configurations with
      the same table and the same tier prices quote the same price. */
  lemma PriceIgnoresEnabled(c: RegistrationConfiguration, d: RegistrationConfiguration,
                            now: int, order: seq<string>)
    requires c.Valid() && c.periods.Some? && IsIterationOrder(order, c.periods.value)
    requires d.periods == c.periods
    requires d.earlyPrice == c.earlyPrice && d.regularPrice == c.regularPrice
          && d.latePrice == c.latePrice
    ensures d.Valid() && d.CurrentPrice(now, order) == c.CurrentPrice(now, order)
  {
  }

  /** The configuration's table is the one built from its own dates and
      event, with the boundaries strictly increasing up to the event's
      start. */
  predicate OrderedTiers(c: RegistrationConfiguration)
    reads c
  {
    && c.event.Some?
    && c.periods == BuildPeriods(c.earlyDt, c.regularDt, c.lateDt, c.event)
    && c.earlyDt < c.regularDt < c.lateDt < c.event.value.startDt
  }

  /** With strictly increasing boundaries, an instant strictly inside one
      tier's interval, or at the early date or the event's start, is priced
      at that tier whatever the iteration order; at a boundary two tiers
      share, the price is one of theirs. */
  lemma PriceByTier(c: RegistrationConfiguration, now: int, order: seq<string>)
    requires OrderedTiers(c) && IsIterationOrder(order, c.periods.value)
    ensures c.Valid()
    ensures c.earlyDt <= now < c.regularDt ==> c.CurrentPrice(now, order) == c.earlyPrice
    ensures c.regularDt < now < c.lateDt ==> c.CurrentPrice(now, order) == c.regularPrice
    ensures c.lateDt < now <= c.event.value.startDt ==> c.CurrentPrice(now, order) == c.latePrice
    ensures now == c.regularDt ==> c.CurrentPrice(now, order) in {c.earlyPrice, c.regularPrice}
    ensures now == c.lateDt ==> c.CurrentPrice(now, order) in {c.regularPrice, c.latePrice}
    ensures now < c.earlyDt || now > c.event.value.startDt ==> c.CurrentPrice(now, order) == 0
  {
    var table := c.periods.value;
    if c.earlyDt <= now < c.regularDt {
      LastMatchUnique(table, order, now, EarlyName);
    } else if c.regularDt < now < c.lateDt {
      LastMatchUnique(table, order, now, RegularName);
    } else if c.lateDt < now <= c.event.value.startDt {
      LastMatchUnique(table, order, now, LateName);
    } else if now < c.earlyDt || now > c.event.value.startDt {
      PriceZeroOrContainingTier(c, now, order);
    } else {
      var k := LastMatch(table, order, now).value;
      assert k in table && Contains(table[k], now);
    }
  }

  /** A worked quote: tiers from day 0 (early), day 31 (regular) and day 59
      (late) to an event starting on day 90 and ending on day 91, priced
      10.00, 20.00 and 30.00, registration switched on. */
  method ExampleQuote(order: seq<string>)
    requires IsIterationOrder(order, BuildPeriods(0, 31, 59, Some(Event(90, 91))).value)
  {
    var c := new RegistrationConfiguration(1000, 2000, 3000, 0, 31, 59, 0, true, Some(Event(90, 91)));
    PriceByTier(c, 14, order);
    PriceByTier(c, 31, order);
    PriceByTier(c, 120, order);
    WithinTimeIntervals(0, 31, 59, Event(90, 91), 14);
    WithinTimeIntervals(0, 31, 59, Event(90, 91), 120);

    var open := c.IsOpen(14, order);
    var price := c.Price(14, order);
    assert open && price == 1000;

    price := c.Price(31, order);
    assert price == 1000 || price == 2000;

    open := c.IsOpen(120, order);
    price := c.Price(120, order);
    assert !open && price == 0 && !c.Available(120);
  }
}
