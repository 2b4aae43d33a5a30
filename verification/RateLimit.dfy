/**
 The rate limit of a topic subscription (platforms/common/uORB/SubscriptionInterval.hpp), with the
 64 bit unsigned arithmetic of the clock written out.
 */
module RateLimit {

  const WORD: nat := 0x1_0000_0000_0000_0000
  const MAX_INTERVAL: nat := 0x1_0000_0000

  /** uint64_t subtraction and addition. */
  function Sub(a: nat, b: nat): (r: nat)
    requires a < WORD && b < WORD
    ensures r < WORD
  {
    if a >= b then a - b else a + WORD - b
  }

  function Add(a: nat, b: nat): (r: nat)
    requires a < WORD && b < WORD
    ensures r < WORD
  {
    if a + b < WORD then a + b else a + b - WORD
  }

  /** math::constrain */
  function Constrain(val: nat, min: nat, max: nat): nat {
    if val < min then min else if val > max then max else val
  }

  /** A time of the microsecond clock; the last 2^32 values before its wrap-around are left out. */
  predicate Time(t: nat) { t + MAX_INTERVAL < WORD }

  /** _last_update after a successful copy. */
  function NewLast(last: nat, interval: nat, now: nat): nat
    requires last < WORD && interval < MAX_INTERVAL && now < WORD
  {
    Constrain(Add(last, interval), Sub(now, interval), now)
  }

  class SubscriptionInterval {
    var lastUpdate: nat
    var intervalUs: nat

    ghost predicate Valid()
      reads this
    {
      lastUpdate < WORD && intervalUs < MAX_INTERVAL
    }

    constructor (interval: nat)
      requires interval < MAX_INTERVAL
      ensures Valid() && lastUpdate == 0 && intervalUs == interval
    {
      lastUpdate, intervalUs := 0, interval;
    }

    /** _last_update lies the interval or more behind the clock, or so far ahead that the difference wraps. */
    predicate Due(now: nat)
      reads this
    {
      if lastUpdate <= now then now - lastUpdate >= intervalUs else lastUpdate - now <= WORD - intervalUs
    }

    /**
     updated(): `now`, whether the topic is advertised and whether it has new data are inputs. New
     data only counts if it is due; while _last_update is ahead of the clock by less than almost
     the whole range of it, the gate is open.
     */
    method Updated(now: nat, advertised: bool, hasNew: bool) returns (r: bool)
      requires Valid() && now < WORD
      ensures r <==> advertised && hasNew && Due(now)
      ensures r && lastUpdate <= now ==> now - lastUpdate >= intervalUs
      ensures advertised && hasNew && Time(now) && lastUpdate > now && lastUpdate <= now + WORD - MAX_INTERVAL ==> r
    {
      if advertised && Sub(now, lastUpdate) >= intervalUs {
        return hasNew;
      }
      return false;
    }

    /**
     copy() at time `now`, if copying the data succeeds. With a clock that has reached the
     interval, _last_update does not go back, stays within the last interval, and if data was due
     it moves by the interval at least. With a clock that has not, it ends up ahead of the clock
     by so much that data is due at once.
     */
    method Copy(now: nat, copied: bool) returns (r: bool)
      requires Valid() && now < WORD
      modifies this`lastUpdate
      ensures Valid() && r == copied
      ensures lastUpdate == if copied then NewLast(old(lastUpdate), intervalUs, now) else old(lastUpdate)
      ensures copied && Time(now) && old(lastUpdate) <= now && now >= intervalUs ==>
                && old(lastUpdate) <= lastUpdate && now - intervalUs <= lastUpdate <= now
                && (old(Due(now)) ==> lastUpdate >= old(lastUpdate) + intervalUs)
      ensures copied && Time(now) && old(lastUpdate) <= now && now < intervalUs ==> lastUpdate > now && Due(now)
    {
      if copied {
        lastUpdate := Constrain(Add(lastUpdate, intervalUs), Sub(now, intervalUs), now);
        return true;
      }
      return false;
    }

    /** update(): the clock is read twice. */
    method Update(checked: nat, now: nat, advertised: bool, hasNew: bool, copied: bool) returns (r: bool)
      requires Valid() && checked <= now && now < WORD
      modifies this`lastUpdate
      ensures Valid()
      ensures r == (advertised && Sub(checked, old(lastUpdate)) >= intervalUs && hasNew && copied)
      ensures lastUpdate == if r then NewLast(old(lastUpdate), intervalUs, now) else old(lastUpdate)
    {
      var due := Updated(checked, advertised, hasNew);
      if due {
        r := Copy(now, copied);
      } else {
        r := false;
      }
    }
  }

  // ---------- one update ----------

  /** After a copy, _last_update lies within the last interval, exactly if the clock has reached the interval. */
  lemma CopyStaysInWindow(last: nat, interval: nat, now: nat)
    requires interval < MAX_INTERVAL && Time(now) && last <= now
    ensures now - interval <= NewLast(last, interval, now) <= now <==> now >= interval
  {
  }

  /** A copy never moves _last_update back, a gated one moves it by at least the interval, and by no more while it keeps up. */
  lemma CopyAdvances(last: nat, interval: nat, checked: nat, now: nat)
    requires interval < MAX_INTERVAL && Time(now) && last <= checked <= now && now >= interval
    ensures NewLast(last, interval, now) >= last
    ensures Sub(checked, last) >= interval ==> NewLast(last, interval, now) >= last + interval
    ensures now - interval <= last + interval <= now ==> NewLast(last, interval, now) == last + interval
  {
  }

  // ---------- any number of updates ----------

  /** A successful update(), or a successful copy() that was not gated. */
  datatype Event = Updating(checked: nat, now: nat) | Copying(now: nat)

  /** `events` can happen from time t on, with _last_update as given. */
  ghost predicate Possible(events: seq<Event>, interval: nat, last: nat, t: nat)
    requires interval < MAX_INTERVAL
  {
    if events == [] then true
    else
      var e := events[0];
      && last < WORD && Time(e.now) && t <= e.now
      && (e.Updating? ==> t <= e.checked <= e.now && Sub(e.checked, last) >= interval)
      && Possible(events[1..], interval, NewLast(last, interval, e.now), e.now)
  }

  function Updates(events: seq<Event>): nat {
    if events == [] then 0 else (if events[0].Updating? then 1 else 0) + Updates(events[1..])
  }

  function EndTime(events: seq<Event>, t: nat): nat {
    if events == [] then t else events[|events| - 1].now
  }

  /** The clock has reached the interval when the first event happens. */
  ghost predicate StartsLate(events: seq<Event>, interval: nat) { events == [] || events[0].now >= interval }

  /** An update cannot happen before the clock reaches the interval, and time does not go back. */
  lemma UpdateStartsLate(events: seq<Event>, interval: nat, last: nat, t: nat)
    requires interval < MAX_INTERVAL && last <= t && Possible(events, interval, last, t)
    requires events == [] || events[0].Updating?
    ensures StartsLate(events, interval)
  {
  }

  /** Every update takes _last_update at least one interval further, and it never passes the clock. */
  lemma {:induction false} EveryUpdateCosts(events: seq<Event>, interval: nat, last: nat, t: nat)
    requires interval < MAX_INTERVAL && last <= t && Time(t)
    requires Possible(events, interval, last, t) && StartsLate(events, interval)
    ensures last + interval * Updates(events) <= EndTime(events, t)
  {
    if events != [] {
      var e := events[0];
      var next := NewLast(last, interval, e.now);
      CopyAdvances(last, interval, if e.Updating? then e.checked else e.now, e.now);
      CopyStaysInWindow(last, interval, e.now);
      assert StartsLate(events[1..], interval);
      EveryUpdateCosts(events[1..], interval, next, e.now);
      assert EndTime(events, t) == EndTime(events[1..], e.now);
      OneMore(interval, Updates(events[1..]));
    }
  }

  lemma OneMore(interval: nat, n: nat)
    ensures interval * (n + 1) == interval * n + interval
  {
  }

  /** The rate limit, for the events from an update at time t1 to the last at time tk. */
  ghost predicate WithinRate(events: seq<Event>, interval: nat)
    requires interval > 0
  {
    events != [] && events[0].Updating? ==>
      var t1, tk := events[0].now, events[|events| - 1].now;
      tk >= t1 && Updates(events) <= (tk - t1) / interval + 2
  }

  /**
   As long as _last_update is not ahead of the clock, whatever is updated and copied from then on
   stays within the rate limit.
   */
  lemma RateIsLimited(events: seq<Event>, interval: nat, last: nat, t: nat)
    requires 0 < interval < MAX_INTERVAL && last <= t && Time(t)
    requires Possible(events, interval, last, t)
    ensures WithinRate(events, interval)
  {
    if events != [] && events[0].Updating? {
      var e, rest := events[0], events[1..];
      var next := NewLast(last, interval, e.now);
      UpdateStartsLate(events, interval, last, t);
      CopyStaysInWindow(last, interval, e.now);
      CopyAdvances(last, interval, e.checked, e.now);
      assert StartsLate(rest, interval);
      EveryUpdateCosts(rest, interval, next, e.now);
      assert EndTime(events, t) == EndTime(rest, e.now);
      TimeMovesOn(rest, interval, next, e.now);
      AtMostQuotient(interval, Updates(rest), EndTime(rest, e.now) - e.now);
    }
  }

  lemma {:induction false} TimeMovesOn(events: seq<Event>, interval: nat, last: nat, t: nat)
    requires interval < MAX_INTERVAL && Possible(events, interval, last, t)
    ensures t <= EndTime(events, t)
  {
    if events != [] {
      TimeMovesOn(events[1..], interval, NewLast(last, interval, events[0].now), events[0].now);
      assert EndTime(events, t) == EndTime(events[1..], events[0].now);
    }
  }

  lemma AtMostQuotient(interval: nat, n: nat, span: nat)
    requires interval > 0 && interval * n <= span + interval
    ensures n <= span / interval + 1
  {
    var q := span / interval;
    assert span == interval * q + span % interval;
    assert interval * (q + 2) == interval * q + 2 * interval;
    CancelFactor(interval, n, q + 2);
  }

  lemma CancelFactor(a: nat, m: nat, n: nat)
    requires a * m < a * n
    ensures m < n
  {
  }

  /** The bound is reached. */
  lemma BoundIsTight()
    ensures
      var events := [Updating(19, 19), Updating(20, 20)];
      && Possible(events, 10, 0, 0)
      && Updates(events) == (20 - 19) / 10 + 2
  {
    var events := [Updating(19, 19), Updating(20, 20)];
    assert NewLast(0, 10, 19) == 10 && NewLast(10, 10, 20) == 20;
    assert events[1..] == [Updating(20, 20)] && events[1..][1..] == [];
  }

  // ---------- copies before the clock reaches the interval ----------

  function Repeat(c: nat, n: nat): (events: seq<Event>)
    ensures |events| == n && forall k | 0 <= k < n :: events[k] == Updating(c, c)
  {
    seq(n, k => Updating(c, c))
  }

  lemma RepeatStep(c: nat, n: nat)
    requires n > 0
    ensures Repeat(c, n)[1..] == Repeat(c, n - 1)
  {
  }

  /** An early copy puts _last_update where data is always due, and another one leaves it there. */
  lemma EarlyCopyIsDue(last: nat, interval: nat, c: nat)
    requires c < interval < MAX_INTERVAL && (last <= c || last == WORD + c - interval)
    ensures NewLast(last, interval, c) == WORD + c - interval
    ensures Sub(c, WORD + c - interval) == interval
  {
  }

  lemma {:induction false} RepeatIsPossible(interval: nat, c: nat, n: nat)
    requires c < interval < MAX_INTERVAL
    ensures Possible(Repeat(c, n), interval, WORD + c - interval, c)
    ensures Updates(Repeat(c, n)) == n
  {
    if n > 0 {
      RepeatStep(c, n);
      EarlyCopyIsDue(WORD + c - interval, interval, c);
      RepeatIsPossible(interval, c, n - 1);
    }
  }

  /** After a copy before the clock reaches the interval, any number of updates can happen at once. */
  lemma EarlyUpdatesAreNotLimited(interval: nat, last: nat, c: nat, n: nat)
    requires c < interval < MAX_INTERVAL && last <= c
    ensures Possible([Copying(c)] + Repeat(c, n), interval, last, c)
    ensures Updates([Copying(c)] + Repeat(c, n)) == n
  {
    RepeatIsPossible(interval, c, n);
    EarlyCopyIsDue(last, interval, c);
    assert ([Copying(c)] + Repeat(c, n))[1..] == Repeat(c, n);
  }

  /** The state in which _last_update is as given at time t leads to no violation of the rate limit. */
  ghost predicate AlwaysLimited(interval: nat, last: nat, t: nat)
    requires 0 < interval < MAX_INTERVAL
  {
    forall events | Possible(events, interval, last, t) :: WithinRate(events, interval)
  }

  /**
   After a copy at time c, all that can follow stays within the rate limit, exactly if the clock
   had reached the interval at that copy.
   */
  lemma LimitedIffCopiedLate(interval: nat, last: nat, c: nat)
    requires 0 < interval < MAX_INTERVAL && last <= c && Time(c)
    ensures AlwaysLimited(interval, NewLast(last, interval, c), c) <==> c >= interval
  {
    var next := NewLast(last, interval, c);
    if c >= interval {
      CopyStaysInWindow(last, interval, c);
      forall events | Possible(events, interval, next, c)
        ensures WithinRate(events, interval)
      {
        RateIsLimited(events, interval, next, c);
      }
    } else {
      EarlyCopyIsDue(last, interval, c);
      RepeatIsPossible(interval, c, 3);
      assert !WithinRate(Repeat(c, 3), interval);
    }
  }

  // ---------- whole runs of a subscription ----------

  lemma {:induction false} PossiblePrefix(events: seq<Event>, interval: nat, last: nat, t: nat, n: nat)
    requires interval < MAX_INTERVAL && n <= |events| && Possible(events, interval, last, t)
    ensures Possible(events[..n], interval, last, t)
  {
    if n > 0 {
      PossiblePrefix(events[1..], interval, NewLast(last, interval, events[0].now), events[0].now, n - 1);
      assert events[..n][1..] == events[1..][..n - 1];
    }
  }

  /** After the first n events of a run that starts late, _last_update is not ahead of the clock. */
  lemma {:induction false} LateAfter(events: seq<Event>, interval: nat, last: nat, t: nat, n: nat)
    returns (last': nat, t': nat)
    requires interval < MAX_INTERVAL && n <= |events| && last <= t && Time(t)
    requires Possible(events, interval, last, t) && StartsLate(events, interval)
    ensures last' <= t' && Time(t') && Possible(events[n..], interval, last', t')
  {
    if n == 0 {
      last', t' := last, t;
      assert events[0..] == events;
    } else {
      var e := events[0];
      CopyStaysInWindow(last, interval, e.now);
      last', t' := LateAfter(events[1..], interval, NewLast(last, interval, e.now), e.now, n - 1);
      assert events[1..][n - 1..] == events[n..];
    }
  }

  /** Every stretch of every run that does not begin with an early copy is within the rate limit. */
  lemma EveryStretchIsLimited(events: seq<Event>, interval: nat, last: nat, t: nat, a: nat, b: nat)
    requires 0 < interval < MAX_INTERVAL && last <= t && Time(t) && a <= b <= |events|
    requires Possible(events, interval, last, t) && StartsLate(events, interval)
    ensures WithinRate(events[a..b], interval)
  {
    var last', t' := LateAfter(events, interval, last, t, a);
    PossiblePrefix(events[a..], interval, last', t', b - a);
    assert events[a..][..b - a] == events[a..b];
    RateIsLimited(events[a..b], interval, last', t');
  }

  /** A subscription that is only used through update() keeps the rate limit over its whole life. */
  lemma UpdatesAloneAreLimited(events: seq<Event>, interval: nat, a: nat, b: nat)
    requires 0 < interval < MAX_INTERVAL && a <= b <= |events|
    requires Possible(events, interval, 0, 0) && forall k | 0 <= k < |events| :: events[k].Updating?
    ensures WithinRate(events[a..b], interval)
  {
    UpdateStartsLate(events, interval, 0, 0);
    EveryStretchIsLimited(events, interval, 0, 0, a, b);
  }
}
