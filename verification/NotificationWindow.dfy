/** The daily window, in India Standard Time, in which lock cards may be delivered. */
module NotificationWindow {
  import opened Models

  /** Start and end are times of day in microseconds. */
  datatype Window = Window(enabled: bool, start: int, end: int) {
    predicate WellFormed() { 0 <= start < DAY && 0 <= end < DAY }
  }

  function TimeOfDay(now: Instant): int { (now + IST_OFFSET) % DAY }

  /** The time of day in India: five and a half hours after the day began in UTC terms,
      it is what the local clock shows, counted from local midnight. */
  lemma LocalTimeOfDay(now: Instant)
    ensures 0 <= TimeOfDay(now) < DAY
    ensures exists day :: now + 5 * HOUR + HOUR / 2 == day * DAY + TimeOfDay(now)
  {
    assert now + 5 * HOUR + HOUR / 2 == (now + IST_OFFSET) / DAY * DAY + TimeOfDay(now);
  }

  /** `lock_notifications_open`. */
  predicate NotificationsOpen(w: Window, now: Instant) {
    var local := TimeOfDay(now);
    if !w.enabled then true
    else if w.start == w.end then true
    else if w.start < w.end then w.start <= local < w.end
    else local >= w.start || local < w.end
  }

  lemma OneTurn(x: int)
    requires -DAY < x < DAY
    ensures x % DAY == if x < 0 then x + DAY else x
  {
    if x < 0 {
      assert x % DAY == (x + DAY) % DAY;
    }
  }

  /** Daytime and overnight windows alike: the window is the half-open arc that
      runs clockwise from start to end. */
  lemma WindowIsCyclicInterval(w: Window, now: Instant)
    requires w.WellFormed()
    ensures NotificationsOpen(w, now) <==>
              !w.enabled || w.start == w.end || (TimeOfDay(now) - w.start) % DAY < (w.end - w.start) % DAY
  {
    OneTurn(TimeOfDay(now) - w.start);
    OneTurn(w.end - w.start);
  }

  /** Exchanging start and end exchanges open and quiet hours: every instant is
      in exactly one of the two windows. */
  lemma QuietHoursAreTheRest(w: Window, now: Instant)
    requires w.WellFormed() && w.enabled && w.start != w.end
    ensures NotificationsOpen(w, now) <==> !NotificationsOpen(w.(start := w.end, end := w.start), now)
  {
    WindowIsCyclicInterval(w, now);
  }

  lemma WindowRepeatsDaily(w: Window, now: Instant, days: int)
    ensures NotificationsOpen(w, now + days * DAY) == NotificationsOpen(w, now)
  {
    assert (now + IST_OFFSET + days * DAY) % DAY == (now + IST_OFFSET) % DAY;
  }
}
