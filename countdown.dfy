/**
 * The CountdownTimer of the enrolled-webinars panel: a (hours, minutes,
 * seconds) state that a one-second interval steps down towards zero, and the
 * two-character rendering of each field.
 */
module WebinarCountdown {
  import opened Wrappers
  import opened Text

  datatype Countdown = Countdown(hours: int, minutes: int, seconds: int)

  const ZERO := Countdown(0, 0, 0)

  /** The time the countdown shows, in seconds. */
  function TotalSeconds(c: Countdown): int {
    3600 * c.hours + 60 * c.minutes + c.seconds
  }

  /** Minutes and seconds within a clock face, hours not negative. */
  predicate WellFormed(c: Countdown) {
    c.hours >= 0 && 0 <= c.minutes < 60 && 0 <= c.seconds < 60
  }

  /**
   * One interval of the timer: take a second off, borrowing from the minutes
   * and then from the hours; a state with nothing left to borrow stays put.
   */
  function Tick(c: Countdown): (d: Countdown)
    ensures WellFormed(c) ==> WellFormed(d)
    ensures c.hours >= 0 && c.minutes >= 0 && c.seconds >= 0 && TotalSeconds(c) > 0 ==>
      TotalSeconds(d) == TotalSeconds(c) - 1
  {
    if c.seconds > 0 then c.(seconds := c.seconds - 1)
    else if c.minutes > 0 then c.(minutes := c.minutes - 1, seconds := 59)
    else if c.hours > 0 then Countdown(c.hours - 1, 59, 59)
    else c
  }

  /**
   * A tick with seconds left only decrements the seconds; a state with
   * nothing left to borrow (00:00:00 in particular) is a fixed point;
   * non-negative hours stay non-negative.
   */
  lemma TickBorrows(c: Countdown)
    ensures c.seconds > 0 ==> Tick(c) == c.(seconds := c.seconds - 1)
    ensures c.hours <= 0 && c.minutes <= 0 && c.seconds <= 0 ==> Tick(c) == c
    ensures c.hours >= 0 ==> Tick(c).hours >= 0
  {
  }

  /** The state after n intervals. */
  function Ticks(c: Countdown, n: nat): (d: Countdown)
    decreases n
  {
    if n == 0 then c else Tick(Ticks(c, n - 1))
  }

  /** A well-formed state shows zero seconds in total only when it is 00:00:00. */
  lemma ZeroTotalIsZero(c: Countdown)
    requires WellFormed(c)
    ensures TotalSeconds(c) == 0 <==> c == ZERO
  {
  }

  /** One interval from a well-formed state takes one second off, or rests at zero. */
  lemma TickStep(c: Countdown)
    requires WellFormed(c)
    ensures WellFormed(Tick(c))
    ensures TotalSeconds(Tick(c)) == if TotalSeconds(c) > 0 then TotalSeconds(c) - 1 else 0
  {
    TickBorrows(c);
    if TotalSeconds(c) == 0 {
      ZeroTotalIsZero(c);
    }
  }

  /**
   * From a well-formed state, n intervals take n seconds off the total and
   * stop at zero: the timer never runs below 00:00:00.
   */
  lemma {:induction false} TicksCountDown(c: Countdown, n: nat)
    requires WellFormed(c)
    ensures WellFormed(Ticks(c, n))
    ensures TotalSeconds(Ticks(c, n)) == if n <= TotalSeconds(c) then TotalSeconds(c) - n else 0
    decreases n
  {
    if n > 0 {
      TicksCountDown(c, n - 1);
      TickStep(Ticks(c, n - 1));
    }
  }

  /** Once the total has elapsed the timer rests at 00:00:00. */
  lemma TicksReachZero(c: Countdown, n: nat)
    requires WellFormed(c)
    requires n >= TotalSeconds(c)
    ensures Ticks(c, n) == ZERO
  {
    TicksCountDown(c, n);
    ZeroTotalIsZero(Ticks(c, n));
  }

  /**
   * The component's state: the countdown shown, and whether an interval was
   * scheduled for it (only when an initial countdown was passed in).
   */
  class CountdownTimer {
    var countdown: Countdown
    var ticking: bool

    /** Mounting with an optional initial countdown; without one, 00:00:00 and no interval. */
    constructor (initialCountdown: Option<Countdown>)
      ensures countdown == initialCountdown.GetOr(ZERO)
      ensures ticking == initialCountdown.Some?
    {
      countdown := initialCountdown.GetOr(ZERO);
      ticking := initialCountdown.Some?;
    }

    /** One firing of the interval, which exists only while ticking. */
    method OnInterval()
      requires ticking
      modifies this
      ensures countdown == Tick(old(countdown))
      ensures ticking
    {
      var hours, minutes, seconds := countdown.hours, countdown.minutes, countdown.seconds;
      if seconds > 0 {
        seconds := seconds - 1;
      } else if minutes > 0 {
        minutes := minutes - 1;
        seconds := 59;
      } else if hours > 0 {
        hours := hours - 1;
        minutes := 59;
        seconds := 59;
      }
      countdown := Countdown(hours, minutes, seconds);
    }

    /** n seconds of wall-clock time: n firings of the interval, none without one. */
    method Elapse(n: nat)
      modifies this
      ensures countdown == if ticking then Ticks(old(countdown), n) else old(countdown)
      ensures ticking == old(ticking)
    {
      if !ticking {
        return;
      }
      var i := 0;
      while i < n
        invariant 0 <= i <= n
        invariant ticking
        invariant countdown == Ticks(old(countdown), i)
      {
        OnInterval();
        i := i + 1;
      }
    }
  }

  /**
   * String(time).padStart(2, "0"): a single digit gains a leading zero,
   * larger values keep their digits.
   */
  function FormatTime(time: int): (s: string)
    ensures 0 <= time < 10 ==> s == ['0', DigitChar(time)]
    ensures time >= 10 ==> s == Digits(time)
    ensures 0 <= time < 100 ==> |s| == 2
  {
    PadStart(Decimal(time), 2, '0')
  }

  /** Reading a rendered non-negative value back gives that value. */
  lemma FormatTimeRoundTrip(time: nat)
    ensures AllDigits(FormatTime(time)) && ParseDigits(FormatTime(time)) == time
  {
    ParseDigitsOfDigits(time);
    if time < 10 {
      ParseDigitsLeadingZero(Digits(time));
      assert FormatTime(time) == ['0'] + Digits(time);
    }
  }
}
