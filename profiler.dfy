/** The manual profiler of tool/Profiler.java: per named area, how often it
    was entered, the total time spent in it, and the start time of the
    visit in progress. The clock (System.currentTimeMillis) is the `now`
    parameter of enter and exit. */
module Profiling {
  import opened Util

  type Area = string

  /** The IllegalArgumentExceptions of enter and exit. */
  datatype ProfilerError = AlreadyTiming(area: Area) | NotTiming(area: Area)

  /** One line of the statistics: the count, the total time (absent, printed
      as "null", while the area has been entered but never left) and the
      "relative time". */
  datatype Stat = Stat(count: int, total: Option<int>, relative: int)

  class Profiler {
    /** Total time per area (the `time` map). */
    var time: map<Area, int>
    /** Start time of the visit in progress (the `timer` map). */
    var timer: map<Area, int>
    /** Number of enters per area (the `counter` map). */
    var counter: map<Area, int>

    /** Every timed or counted area has been entered at least once. */
    predicate Valid()
      reads this
    {
      (forall a :: a in counter ==> counter[a] >= 1) &&
      timer.Keys <= counter.Keys && time.Keys <= counter.Keys
    }

    /** Lines 19-23: all three maps empty. */
    constructor ()
      ensures Valid() && time == map[] && timer == map[] && counter == map[]
    {
      time, timer, counter := map[], map[], map[];
    }

    /** enter(area), lines 31-43: refused, with nothing changed, while the
        area is being timed; otherwise its count goes up by one (starting at
        1) and the visit starts at `now`. */
    method Enter(area: Area, now: int) returns (r: Outcome<ProfilerError>)
      requires Valid()
      modifies this
      ensures Valid()
      ensures r.Fail? <==> area in old(timer)
      ensures r.Fail? ==> r.error == AlreadyTiming(area) && time == old(time) && timer == old(timer) && counter == old(counter)
      ensures r.Pass? ==> counter == old(counter)[area := (if area in old(counter) then old(counter)[area] else 0) + 1]
      ensures r.Pass? ==> timer == old(timer)[area := now] && time == old(time)
    {
      if area in timer {
        return Fail(AlreadyTiming(area));
      }
      if area in counter {
        counter := counter[area := counter[area] + 1];
      } else {
        counter := counter[area := 1];
      }
      timer := timer[area := now];
      r := Pass;
    }

    /** exit(area), lines 51-65: refused, with nothing changed, unless the
        area is being timed; otherwise the time since the visit started is
        added to the area's total (created when missing) and the visit ends.
        The count never changes. */
    method Exit(area: Area, now: int) returns (r: Outcome<ProfilerError>)
      requires Valid()
      modifies this
      ensures Valid() && counter == old(counter)
      ensures r.Fail? <==> area !in old(timer)
      ensures r.Fail? ==> r.error == NotTiming(area) && time == old(time) && timer == old(timer)
      ensures r.Pass? ==> timer == old(timer) - {area}
      ensures r.Pass? ==> time == old(time)[area := (if area in old(time) then old(time)[area] else 0) + (now - old(timer)[area])]
    {
      if area !in timer {
        return Fail(NotTiming(area));
      }
      var elapsed := now - timer[area];
      if area in time {
        time := time[area := time[area] + elapsed];
      } else {
        time := time[area := elapsed];
      }
      timer := timer - {area};
      r := Pass;
    }

    /** stats(), lines 72-84, as values rather than text: one line per
        counted area. The "relative time" is the count divided by itself,
        so it is 1 on every line. */
    function Stats(): (r: map<Area, Stat>)
      requires Valid()
      reads this
      ensures r.Keys == counter.Keys
      ensures forall a :: a in r ==> r[a].relative == 1 && r[a].count == counter[a]
      ensures forall a :: a in r ==> (r[a].total.Some? <==> a in time)
      ensures forall a :: a in r && a in time ==> r[a].total == Some(time[a])
    {
      map a | a in counter :: Stat(counter[a], if a in time then Some(time[a]) else None, counter[a] / counter[a])
    }
  }
}
