/**
 * The advertisement job: a single last_ad_time gates the ad on a three-day
 * spacing and is moved forward only when the ad's photo was sent.
 * Time is integer seconds.
 */
module Promo {

  /** At least this much time (3 days) separates two sent ads. */
  const PromoPeriod := 3 * 24 * 60 * 60

  /** At startup last_ad_time is set this far (4 days) in the past. */
  const InitialLag := 4 * 24 * 60 * 60

  /** One tick of the job: the clock before the check, whether send_photo returned, the clock after it. */
  datatype Tick = Tick(now: int, delivered: bool, after: int)

  /** The ad is due unless less than the period has passed since last_ad_time. */
  predicate IsDue(lastAdTime: int, now: int)
  {
    !(now - lastAdTime < PromoPeriod)
  }

  /** The tick sends the ad: it was due and the photo went through. */
  predicate Sends(lastAdTime: int, t: Tick)
  {
    IsDue(lastAdTime, t.now) && t.delivered
  }

  /** last_ad_time after a tick. */
  function NextLastAdTime(lastAdTime: int, t: Tick): (r: int)
    ensures Sends(lastAdTime, t) ==> r == t.after
    ensures !IsDue(lastAdTime, t.now) || !t.delivered ==> r == lastAdTime
  {
    if Sends(lastAdTime, t) then t.after else lastAdTime
  }

  /** The clock does not run backwards while the photo is being sent. */
  predicate ClockSane(t: Tick)
  {
    t.now <= t.after
  }

  /**
   * The send times `sentAt` are pairwise at least a period apart, and the last
   * of them is `lastAdTime`.
   */
  ghost predicate SpacedUpTo(sentAt: seq<int>, lastAdTime: int)
  {
    && (forall i, j :: 0 <= i < j < |sentAt| ==> sentAt[j] - sentAt[i] >= PromoPeriod)
    && (sentAt != [] ==> sentAt[|sentAt| - 1] == lastAdTime)
  }

  /** The send times after a tick. */
  function SentAfter(sentAt: seq<int>, lastAdTime: int, t: Tick): seq<int>
  {
    if Sends(lastAdTime, t) then sentAt + [t.after] else sentAt
  }

  /** One tick keeps the sends spaced: a send happens a full period after the previous one. */
  lemma TickKeepsSpacing(sentAt: seq<int>, lastAdTime: int, t: Tick)
    requires SpacedUpTo(sentAt, lastAdTime)
    requires ClockSane(t)
    ensures SpacedUpTo(SentAfter(sentAt, lastAdTime, t), NextLastAdTime(lastAdTime, t))
  {
    if Sends(lastAdTime, t) {
      var s := sentAt + [t.after];
      forall i, j | 0 <= i < j < |s|
        ensures s[j] - s[i] >= PromoPeriod
      {
        if j == |sentAt| {
          assert s[i] == sentAt[i];
          if i < |sentAt| - 1 {
            assert sentAt[|sentAt| - 1] - sentAt[i] >= PromoPeriod;
          }
        } else {
          assert s[i] == sentAt[i] && s[j] == sentAt[j];
        }
      }
    }
  }

  /** The state after a sequence of ticks: last_ad_time and the times the ad was sent. */
  datatype PromoRun = PromoRun(lastAdTime: int, sentAt: seq<int>)

  function RunTicks(start: int, ticks: seq<Tick>): PromoRun
    decreases |ticks|
  {
    if ticks == [] then PromoRun(start, [])
    else
      var prev, t := RunTicks(start, ticks[..|ticks| - 1]), ticks[|ticks| - 1];
      PromoRun(NextLastAdTime(prev.lastAdTime, t), SentAfter(prev.sentAt, prev.lastAdTime, t))
  }

  /**
   * Any two successful ad sends, over any sequence of ticks with a sane clock,
   * are at least three days apart.
   */
  lemma {:induction false} PromoSpacing(start: int, ticks: seq<Tick>)
    requires forall k :: 0 <= k < |ticks| ==> ClockSane(ticks[k])
    ensures SpacedUpTo(RunTicks(start, ticks).sentAt, RunTicks(start, ticks).lastAdTime)
    decreases |ticks|
  {
    if ticks != [] {
      var init := ticks[..|ticks| - 1];
      assert forall k :: 0 <= k < |init| ==> init[k] == ticks[k];
      PromoSpacing(start, init);
      var prev := RunTicks(start, init);
      TickKeepsSpacing(prev.sentAt, prev.lastAdTime, ticks[|ticks| - 1]);
    }
  }

  /** The first tick after startup is due: last_ad_time starts four days back, more than the period. */
  lemma FirstTickDue(startTime: int, now: int)
    requires startTime <= now
    ensures IsDue(startTime - InitialLag, now)
  {
  }

  /** A tick that is not due sends nothing and leaves last_ad_time alone. */
  lemma NotDueChangesNothing(lastAdTime: int, t: Tick)
    requires !IsDue(lastAdTime, t.now)
    ensures !Sends(lastAdTime, t) && NextLastAdTime(lastAdTime, t) == lastAdTime
  {
  }

  /**
   * A failed send does not use up the window: last_ad_time is unchanged, so the
   * ad is still due at every later tick.
   */
  lemma FailedSendStaysDue(lastAdTime: int, t: Tick, later: int)
    requires IsDue(lastAdTime, t.now) && !t.delivered
    requires t.now <= later
    ensures NextLastAdTime(lastAdTime, t) == lastAdTime && IsDue(NextLastAdTime(lastAdTime, t), later)
  {
  }

  /**
   * The job fires every PromoPeriod seconds, but last_ad_time is the clock read
   * after the send. So if a send takes any time at all, the next scheduled tick
   * after a successful send finds the ad not yet due and skips it.
   */
  lemma NextScheduledTickSkipped(lastAdTime: int, t: Tick)
    requires Sends(lastAdTime, t) && t.now < t.after
    ensures !IsDue(NextLastAdTime(lastAdTime, t), t.now + PromoPeriod)
  {
  }

  /**
   * The scheduler starts each tick some `delay` after its fire time. After a
   * successful send, the tick fired one period after the due check finds the
   * ad due exactly when its start was delayed by at least the send's duration.
   */
  lemma DelayedTickDue(lastAdTime: int, t: Tick, delay: int)
    requires Sends(lastAdTime, t)
    ensures IsDue(NextLastAdTime(lastAdTime, t), t.now + PromoPeriod + delay) <==> delay >= t.after - t.now
  {
  }

  /** The process-wide last_ad_time with the history of successful sends. */
  class PromoLimiter {
    var lastAdTime: int
    ghost var sentAt: seq<int>

    ghost predicate Valid()
      reads this
    {
      SpacedUpTo(sentAt, lastAdTime)
    }

    /** Startup: last_ad_time is four days before the start time. */
    constructor (startTime: int)
      ensures Valid() && lastAdTime == startTime - InitialLag && sentAt == []
    {
      lastAdTime := startTime - InitialLag;
      sentAt := [];
    }

    /**
     * send_advertisement. Returns whether the photo send was attempted; it
     * moves last_ad_time to the clock read after the send only when the send
     * went through.
     */
    method SendAdvertisement(t: Tick) returns (attempted: bool)
      modifies this
      ensures old(Valid()) && ClockSane(t) ==> Valid()
      ensures attempted == IsDue(old(lastAdTime), t.now)
      ensures lastAdTime == NextLastAdTime(old(lastAdTime), t)
      ensures sentAt == SentAfter(old(sentAt), old(lastAdTime), t)
    {
      if Valid() && ClockSane(t) {
        TickKeepsSpacing(sentAt, lastAdTime, t);
      }
      var timeDiff := t.now - lastAdTime;
      if timeDiff < PromoPeriod {
        return false;
      }
      attempted := true;
      if t.delivered {
        lastAdTime := t.after;
        sentAt := sentAt + [t.after];
      }
    }
  }
}
