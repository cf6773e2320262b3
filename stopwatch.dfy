/**
  The navbar stopwatch of the time tracker page script. One state record is
  shared by the start, pause and stop buttons, the once-a-second display
  refresh (which also stops a timer that reached its target) and the
  page-unload handler. Clock readings are milliseconds passed in as `now`.
*/
module Stopwatch {
  import opened Util

  // ---------------------------------------------------------------------
  // Rendering the elapsed time
  // ---------------------------------------------------------------------

  /** JavaScript's `%` for a positive divisor: the remainder takes the sign of the dividend. */
  function JsRem(a: int, b: int): (r: int)
    requires b > 0
    ensures -b < r < b
    ensures a >= 0 ==> r == a % b
    ensures a <= 0 ==> r <= 0
  {
    if a >= 0 then a % b else -((-a) % b)
  }

  /** `n.toString().padStart(2, '0')`. */
  function Pad2(n: int): string
  {
    PadZero(IntToString(n), 2)
  }

  /**
    formatTime: whole seconds `floor(ms / 1000)` split into hours, minutes
    and seconds with JavaScript's `Math.floor` and `%` (Dafny's `/` by a
    positive divisor is already the floor), each at least two digits wide.
  */
  function FormatTime(ms: int): string
  {
    var totalSeconds := ms / 1000;
    var h := totalSeconds / 3600;
    var m := JsRem(totalSeconds, 3600) / 60;
    var s := JsRem(totalSeconds, 60);
    Pad2(h) + ":" + Pad2(m) + ":" + Pad2(s)
  }

  /** Reads "H..:MM:SS" back into hours, minutes and seconds. */
  function ReadClock(t: string): (r: Option<(nat, nat, nat)>)
  {
    if |t| < 8 || t[|t| - 6] != ':' || t[|t| - 3] != ':' then None
    else
      match (ParseNat(t[..|t| - 6]), ParseNat(t[|t| - 5..|t| - 3]), ParseNat(t[|t| - 2..]))
      case (Some(h), Some(m), Some(s)) => Some((h, m, s))
      case _ => None
  }

  /**
    For a non-negative reading, the display reads back as hours, minutes
    below 60 and seconds below 60 that add up to the whole seconds elapsed.
  */
  lemma FormatTimeReadsBack(ms: int)
    requires ms >= 0
    ensures ReadClock(FormatTime(ms)).Some?
    ensures var (h, m, s) := ReadClock(FormatTime(ms)).value;
      m < 60 && s < 60 && h * 3600 + m * 60 + s == ms / 1000
  {
    var total := ms / 1000;
    var h := total / 3600;
    var m := JsRem(total, 3600) / 60;
    var s := JsRem(total, 60);
    assert FormatTime(ms) == Pad2(h) + ":" + Pad2(m) + ":" + Pad2(s);
    ClockSplit(total);
    ClockReads(h, m, s);
  }

  /** Three fields joined by colons read back as themselves when the last two are below 100. */
  lemma ClockReads(h: nat, m: nat, s: nat)
    requires m < 100 && s < 100
    ensures ReadClock(Pad2(h) + ":" + Pad2(m) + ":" + Pad2(s)) == Some((h, m, s))
  {
    Pad2Reads(h);
    Pad2Reads(m);
    Pad2Reads(s);
    ColonFields(Pad2(h), Pad2(m), Pad2(s));
  }

  /** The slices ReadClock takes of "H:MM:SS" are the three fields. */
  lemma ColonFields(hs: string, ms: string, ss: string)
    requires |hs| >= 2 && |ms| == 2 && |ss| == 2
    ensures var t := hs + ":" + ms + ":" + ss;
      (|t| >= 8 && t[|t| - 6] == ':' && t[|t| - 3] == ':' &&
       t[..|t| - 6] == hs && t[|t| - 5..|t| - 3] == ms && t[|t| - 2..] == ss)
  {
  }

  /** Hours, minutes of the remaining hour and seconds of the remaining minute make up the whole. */
  lemma ClockSplit(total: nat)
    ensures (total % 3600) / 60 < 60 && total % 60 < 60
    ensures (total / 3600) * 3600 + ((total % 3600) / 60) * 60 + total % 60 == total
  {
    var h, r := total / 3600, total % 3600;
    var m, s := r / 60, r % 60;
    assert r == m * 60 + s;
    assert total == h * 3600 + r;
    ModSixty(total, h * 60 + m, s);
  }

  lemma ModSixty(x: int, q: int, r: int)
    requires x == q * 60 + r && 0 <= r < 60
    ensures x % 60 == r
  {
  }

  /** A non-negative number padded to two digits reads back as itself; below 100 it is exactly two characters. */
  lemma Pad2Reads(n: nat)
    ensures ParseNat(Pad2(n)) == Some(n)
    ensures |Pad2(n)| >= 2
    ensures n < 100 ==> |Pad2(n)| == 2
  {
    var d := NatToString(n);
    assert IntToString(n) == d;
    PadZeroValue(d, 2);
    NatToStringValue(n);
    if n >= 10 && n < 100 {
      assert d == NatToString(n / 10) + [DigitChar(n % 10)];
    }
  }

  // ---------------------------------------------------------------------
  // Reading a target duration out of the task name
  // ---------------------------------------------------------------------

  /** The regex class \w. */
  predicate IsWordChar(c: char)
  {
    IsDigit(c) || IsUpper(c) || ('a' as int <= c as int <= 'z' as int) || c == '_'
  }

  /** The end of the run of characters satisfying `p` that starts at i. */
  function RunEnd(t: string, i: nat, p: char -> bool): (j: nat)
    requires i <= |t|
    ensures i <= j <= |t|
    ensures forall k :: i <= k < j ==> p(t[k])
    ensures j < |t| ==> !p(t[j])
    decreases |t| - i
  {
    if i < |t| && p(t[i]) then RunEnd(t, i + 1, p) else i
  }

  const HourUnits: set<string> := {"h", "hr", "hour", "hours"}
  const MinuteUnits: set<string> := {"m", "min", "minute", "minutes"}

  /** A number as written: the whole digits and the digits after a point ("" without one). */
  datatype Quantity = Quantity(whole: string, fraction: string)

  predicate AllDigits(s: string)
  {
    forall i :: 0 <= i < |s| ==> IsDigit(s[i])
  }

  /** The number a quantity denotes, computed exactly. */
  function Amount(q: Quantity): (r: real)
    requires AllDigits(q.whole) && AllDigits(q.fraction)
    ensures r >= DigitsValue(q.whole) as real
    ensures q.fraction == "" ==> r == DigitsValue(q.whole) as real
  {
    DigitsValue(q.whole) as real + Fraction(DigitsValue(q.fraction), Pow10(|q.fraction|))
  }

  /** The digits after the point as a part of one. */
  function Fraction(digits: nat, scale: nat): (r: real)
    requires scale >= 1
    ensures r >= 0.0
    ensures digits == 0 ==> r == 0.0
  {
    digits as real / scale as real
  }

  /**
    The pattern `(\d+(?:\.\d+)?)\s*(?:units)\b`, case-insensitive, tried at
    position p. Backtracking never helps it: a shorter digit run is followed
    by a digit, which neither a point, a space nor a unit can start with, and
    `\b` after a unit requires the whole word that follows the spaces to be
    one of the units.
  */
  function TokenAt(t: string, p: nat, units: set<string>): (r: Option<Quantity>)
    ensures r.Some? ==> AllDigits(r.value.whole) && |r.value.whole| > 0 && AllDigits(r.value.fraction)
  {
    if p > |t| then None
    else
    var d := RunEnd(t, p, IsDigit);
    if d == p then None
    else
      var f := if d + 1 < |t| && t[d] == '.' && IsDigit(t[d + 1]) then RunEnd(t, d + 1, IsDigit) else d;
      var u := RunEnd(t, f, IsSpace);
      var w := RunEnd(t, u, IsWordChar);
      if ToLower(t[u..w]) in units then Some(Quantity(t[p..d], if f == d then "" else t[d + 1..f])) else None
  }

  /** What `at` gives at the leftmost position from p up to n where it gives something. */
  function FirstMatch<T>(at: nat -> Option<T>, p: nat, n: nat): (r: Option<T>)
    requires p <= n
    ensures r.Some? ==> exists k :: p <= k <= n && at(k) == r
    decreases n - p
  {
    if at(p).Some? || p == n then at(p) else FirstMatch(at, p + 1, n)
  }

  /** `at` gives nothing at any position from p up to, and not including, k. */
  predicate NoMatchBetween<T>(at: nat -> Option<T>, p: nat, k: nat)
  {
    forall j :: p <= j < k ==> at(j).None?
  }

  /** FirstMatch finds nothing iff nothing matches from p up to n. */
  lemma {:induction false} FirstMatchNone<T>(at: nat -> Option<T>, p: nat, n: nat)
    requires p <= n
    ensures FirstMatch(at, p, n).None? <==> NoMatchBetween(at, p, n + 1)
    decreases n - p
  {
    if at(p).None? && p < n {
      FirstMatchNone(at, p + 1, n);
    }
  }

  /** What FirstMatch finds is the match at some position k, before which nothing matches. */
  lemma {:induction false} FirstMatchLeftmost<T>(at: nat -> Option<T>, p: nat, n: nat)
    requires p <= n
    ensures FirstMatch(at, p, n).Some? ==>
      exists k :: p <= k <= n && at(k) == FirstMatch(at, p, n) && NoMatchBetween(at, p, k)
    decreases n - p
  {
    if at(p).None? && p < n {
      FirstMatchLeftmost(at, p + 1, n);
      if FirstMatch(at, p + 1, n).Some? {
        var k :| p + 1 <= k <= n && at(k) == FirstMatch(at, p + 1, n) && NoMatchBetween(at, p + 1, k);
        assert NoMatchBetween(at, p, k);
      }
    } else {
      assert NoMatchBetween(at, p, p);
    }
  }

  /** `String.match` without the g flag: the pattern's match at the leftmost position from p. */
  function FirstToken(t: string, p: nat, units: set<string>): (r: Option<Quantity>)
    requires p <= |t|
    ensures r.Some? ==> AllDigits(r.value.whole) && AllDigits(r.value.fraction)
  {
    FirstMatch(k => TokenAt(t, k, units), p, |t|)
  }

  /** A quantity the pattern can produce. */
  predicate Readable(q: Quantity)
  {
    AllDigits(q.whole) && AllDigits(q.fraction)
  }

  /** The floor of 60 times the hours token plus the minutes token; none when both are missing. */
  function MinutesOf(h: Option<Quantity>, m: Option<Quantity>): (r: Option<int>)
    requires h.Some? ==> Readable(h.value)
    requires m.Some? ==> Readable(m.value)
    ensures r.None? <==> h.None? && m.None?
    ensures r.Some? ==> r.value >= 0
  {
    if h.None? && m.None? then None
    else
      var minutes := (if h.Some? then Amount(h.value) * 60.0 else 0.0) + (if m.Some? then Amount(m.value) else 0.0);
      Some(minutes.Floor)
  }

  /**
    parseDuration: `None` unless the text has an hours or a minutes token;
    otherwise the floor of 60 times the hours plus the minutes.
  */
  function ParseDuration(text: string): (r: Option<int>)
    ensures r.None? <==> FirstToken(text, 0, HourUnits).None? && FirstToken(text, 0, MinuteUnits).None?
    ensures r.Some? ==> r.value >= 0
  {
    MinutesOf(FirstToken(text, 0, HourUnits), FirstToken(text, 0, MinuteUnits))
  }

  /**
    A whole number followed directly by one unit word is read as that many
    minutes, or sixty times that many for an hours unit: "45m" gives 45 and
    "2hours" gives 120.
  */
  lemma SingleTokenRead(n: nat, unit: string)
    requires unit in HourUnits || unit in MinuteUnits
    ensures ParseDuration(NatToString(n) + unit) == Some(if unit in HourUnits then 60 * n else n)
  {
    UnitWord(unit);
    NatToStringValue(n);
    var t := NatToString(n) + unit;
    if unit in HourUnits {
      OneToken(n, unit, HourUnits, MinuteUnits);
      HoursOnly(t, NatToString(n));
    } else {
      OneToken(n, unit, MinuteUnits, HourUnits);
      MinutesOnly(t, NatToString(n));
    }
  }

  /** A text with a whole-number hours token and no minutes token. */
  lemma HoursOnly(t: string, digits: string)
    requires AllDigits(digits)
    requires FirstToken(t, 0, HourUnits) == Some(Quantity(digits, ""))
    requires FirstToken(t, 0, MinuteUnits).None?
    ensures ParseDuration(t) == Some(60 * DigitsValue(digits))
  {
    WholeHours(digits);
  }

  /** A text with a whole-number minutes token and no hours token. */
  lemma MinutesOnly(t: string, digits: string)
    requires AllDigits(digits)
    requires FirstToken(t, 0, MinuteUnits) == Some(Quantity(digits, ""))
    requires FirstToken(t, 0, HourUnits).None?
    ensures ParseDuration(t) == Some(DigitsValue(digits))
  {
    WholeMinutes(digits);
  }

  lemma WholeHours(digits: string)
    requires AllDigits(digits)
    ensures MinutesOf(Some(Quantity(digits, "")), None) == Some(60 * DigitsValue(digits))
  {
    var x := DigitsValue(digits);
    assert Amount(Quantity(digits, "")) == x as real;
    RealTimesSixty(x);
    WholeFloor(60 * x);
  }

  lemma WholeMinutes(digits: string)
    requires AllDigits(digits)
    ensures MinutesOf(None, Some(Quantity(digits, ""))) == Some(DigitsValue(digits))
  {
    WholeFloor(DigitsValue(digits));
  }

  /** The pattern for `mine` reads the digits of n before the unit, and the one for `other` finds nothing. */
  lemma OneToken(n: nat, unit: string, mine: set<string>, other: set<string>)
    requires unit in mine && unit !in other
    requires |unit| > 0 && forall i :: 0 <= i < |unit| ==> IsWordChar(unit[i]) && !IsDigit(unit[i])
    requires ToLower(unit) == unit
    ensures FirstToken(NatToString(n) + unit, 0, mine) == Some(Quantity(NatToString(n), ""))
    ensures FirstToken(NatToString(n) + unit, 0, other).None?
  {
    var digits := NatToString(n);
    var t := digits + unit;
    var end := |digits|;
    assert t[..end] == digits && t[0..end] == digits && t[end..] == unit;
    TokenInDigits(t, 0, end, mine);
    NoTokenAnywhere(t, end, other);
  }

  lemma RealTimesSixty(x: nat)
    ensures x as real * 60.0 == (60 * x) as real
  {
  }

  lemma WholeFloor(n: nat)
    ensures (n as real + 0.0).Floor == n && (0.0 + n as real).Floor == n
  {
  }

  /** Only the letters a to z. */
  predicate LowerWord(w: string)
  {
    forall i :: 0 <= i < |w| ==> 'a' <= w[i] <= 'z'
  }

  /** Lower-casing leaves such a word as it is. */
  lemma LowerWordFixed(w: string)
    requires LowerWord(w)
    ensures ToLower(w) == w
    ensures forall i :: 0 <= i < |w| ==> IsWordChar(w[i]) && !IsDigit(w[i])
  {
    assert forall i :: 0 <= i < |w| ==> ToLower(w)[i] == w[i];
  }

  /** The hours units are lower-case words starting with 'h'. */
  lemma HourUnitShape(unit: string)
    requires unit in HourUnits
    ensures |unit| > 0 && unit[0] == 'h' && LowerWord(unit)
  {
  }

  /** The minutes units are lower-case words starting with 'm'. */
  lemma MinuteUnitShape(unit: string)
    requires unit in MinuteUnits
    ensures |unit| > 0 && unit[0] == 'm' && LowerWord(unit)
  {
  }

  /** The unit words are lower-case word characters, and no word is both an hours and a minutes unit. */
  lemma UnitWord(unit: string)
    requires unit in HourUnits || unit in MinuteUnits
    ensures |unit| > 0 && forall i :: 0 <= i < |unit| ==> IsWordChar(unit[i]) && !IsDigit(unit[i])
    ensures ToLower(unit) == unit
    ensures !(unit in HourUnits && unit in MinuteUnits)
  {
    if unit in HourUnits {
      HourUnitShape(unit);
    }
    if unit in MinuteUnits {
      MinuteUnitShape(unit);
    }
    LowerWordFixed(unit);
  }

  /** In digits followed by a word that is not one of the units, the pattern matches nowhere. */
  lemma NoTokenAnywhere(t: string, end: nat, units: set<string>)
    requires 0 < end < |t|
    requires forall i :: 0 <= i < end ==> IsDigit(t[i])
    requires forall i :: end <= i < |t| ==> IsWordChar(t[i]) && !IsDigit(t[i])
    requires ToLower(t[end..]) !in units
    ensures FirstToken(t, 0, units).None?
  {
    forall k | 0 <= k <= |t| ensures TokenAt(t, k, units).None? {
      if k < end {
        TokenInDigits(t, k, end, units);
      } else {
        TokenPastDigits(t, k, units);
      }
    }
    FirstMatchNone(k => TokenAt(t, k, units), 0, |t|);
  }

  /**
    In a text of digits up to `end` followed by a word to the end of the
    text, the pattern tried inside the digits reads the digits from there
    to `end` and matches iff that word is one of the units.
  */
  lemma TokenInDigits(t: string, k: nat, end: nat, units: set<string>)
    requires k < end < |t|
    requires forall i :: 0 <= i < end ==> IsDigit(t[i])
    requires forall i :: end <= i < |t| ==> IsWordChar(t[i]) && !IsDigit(t[i])
    ensures TokenAt(t, k, units) == (if ToLower(t[end..]) in units then Some(Quantity(t[k..end], "")) else None)
  {
    DigitRunTo(t, k, end);
    assert t[end] != '.' && !IsSpace(t[end]);
    assert RunEnd(t, end, IsSpace) == end;
    WordRunToEnd(t, end);
    assert t[end..|t|] == t[end..];
  }

  /** The pattern cannot match at a position that does not hold a digit. */
  lemma TokenPastDigits(t: string, k: nat, units: set<string>)
    requires k <= |t|
    requires k < |t| ==> !IsDigit(t[k])
    ensures TokenAt(t, k, units).None?
  {
  }

  lemma {:induction false} DigitRunTo(t: string, k: nat, end: nat)
    requires k <= end < |t| && !IsDigit(t[end])
    requires forall i :: k <= i < end ==> IsDigit(t[i])
    ensures RunEnd(t, k, IsDigit) == end
    decreases end - k
  {
    if k < end {
      DigitRunTo(t, k + 1, end);
    }
  }

  lemma {:induction false} WordRunToEnd(t: string, k: nat)
    requires k <= |t|
    requires forall i :: k <= i < |t| ==> IsWordChar(t[i])
    ensures RunEnd(t, k, IsWordChar) == |t|
    decreases |t| - k
  {
    if k < |t| {
      WordRunToEnd(t, k + 1);
    }
  }

  // ---------------------------------------------------------------------
  // The timer state
  // ---------------------------------------------------------------------

  /** The entry the stop button posts to SaveEntry (times in milliseconds). */
  datatype StoppedEntry = StoppedEntry(taskName: string, durationSeconds: int, startTime: int, endTime: int)

  /** `targetMinutes` in startTimer: the parsed duration when positive, else none. */
  function TargetOf(taskName: string): (r: Option<int>)
    ensures r.Some? ==> r.value > 0
  {
    var d := ParseDuration(taskName);
    if d.Some? && d.value > 0 then d else None
  }

  class Timer {
    var startTime: Option<int>
    var accumulatedTime: int
    var isRunning: bool
    var taskName: string
    var targetMinutes: Option<int>

    /** A running timer has a start time and a stopped one has none. */
    predicate Valid()
      reads this
    {
      isRunning <==> startTime.Some?
    }

    /** The initial state, which stopping also restores. */
    predicate Idle()
      reads this
    {
      startTime.None? && accumulatedTime == 0 && !isRunning && taskName == "" && targetMinutes.None?
    }

    constructor ()
      ensures Idle() && Valid()
    {
      startTime := None;
      accumulatedTime := 0;
      isRunning := false;
      taskName := "";
      targetMinutes := None;
    }

    /** getElapsedTime. */
    function Elapsed(now: int): (ms: int)
      reads this
      requires Valid()
      ensures !isRunning ==> ms == accumulatedTime
      ensures isRunning ==> ms - accumulatedTime == now - startTime.value
    {
      if !isRunning then accumulatedTime else accumulatedTime + (now - startTime.value)
    }

    /** The task input's handler: the name is stored as typed. */
    method SetTaskName(name: string)
      modifies this
      requires Valid()
      ensures Valid() && taskName == name
      ensures startTime == old(startTime) && accumulatedTime == old(accumulatedTime)
      ensures isRunning == old(isRunning) && targetMinutes == old(targetMinutes)
    {
      taskName := name;
    }

    /** Stopped, with a task name that is not blank. */
    predicate CanStart()
      reads this
    {
      !isRunning && Trim(taskName) != ""
    }

    /**
      startTimer: nothing when already running or when the name is blank;
      otherwise running from `now`, with the target the name announces.
    */
    method Start(now: int)
      modifies this
      requires Valid()
      ensures Valid()
      ensures !old(CanStart()) ==> unchanged(this)
      ensures old(CanStart()) ==>
        isRunning && startTime == Some(now) && targetMinutes == TargetOf(taskName) &&
        accumulatedTime == old(accumulatedTime) && taskName == old(taskName)
      ensures Elapsed(now) == old(Elapsed(now))
    {
      if !CanStart() {
        return;
      }
      targetMinutes := TargetOf(taskName);
      isRunning := true;
      startTime := Some(now);
    }

    /** pauseTimer: the running interval is folded into the accumulated time, which the display keeps showing. */
    method Pause(now: int)
      modifies this
      requires Valid()
      ensures Valid() && !isRunning
      ensures !old(isRunning) ==> unchanged(this)
      ensures old(isRunning) ==>
        accumulatedTime == old(Elapsed(now)) && startTime.None? &&
        taskName == old(taskName) && targetMinutes == old(targetMinutes)
      ensures Elapsed(now) == old(Elapsed(now))
    {
      if !isRunning {
        return;
      }
      accumulatedTime := accumulatedTime + (now - startTime.value);
      startTime := None;
      isRunning := false;
    }

    /**
      stopTimer: pause, post the whole seconds accumulated with a start
      time that far back from `now`, and return to the initial state.
    */
    method Stop(now: int) returns (entry: StoppedEntry)
      modifies this
      requires Valid()
      ensures Valid() && Idle()
      ensures entry == StoppedEntry(old(taskName), old(Elapsed(now)) / 1000, now - old(Elapsed(now)), now)
    {
      Pause(now);
      entry := StoppedEntry(taskName, accumulatedTime / 1000, now - accumulatedTime, now);
      startTime := None;
      accumulatedTime := 0;
      isRunning := false;
      taskName := "";
      targetMinutes := None;
    }

    /** The auto-stop test of updateDisplay: running, with a target, and at least that many minutes elapsed. */
    predicate TargetReached(now: int)
      reads this
      requires Valid()
    {
      isRunning && targetMinutes.Some? && targetMinutes.value != 0 && Elapsed(now) >= targetMinutes.value * 60 * 1000
    }

    /** The once-a-second refresh: a timer that reached its target stops and posts its entry. */
    method Tick(now: int) returns (posted: Option<StoppedEntry>)
      modifies this
      requires Valid()
      ensures Valid()
      ensures old(TargetReached(now)) ==>
        Idle() && posted == Some(StoppedEntry(old(taskName), old(Elapsed(now)) / 1000, now - old(Elapsed(now)), now))
      ensures !old(TargetReached(now)) ==> posted.None? && unchanged(this)
    {
      var elapsed := Elapsed(now);
      if isRunning && targetMinutes.Some? && targetMinutes.value != 0 {
        var targetMs := targetMinutes.value * 60 * 1000;
        if elapsed >= targetMs {
          var entry := Stop(now);
          return Some(entry);
        }
      }
      return None;
    }

    /** handleUnload: leaving the site (not an internal link or form) while running pauses the timer. */
    method HandleUnload(now: int, internalNavigation: bool)
      modifies this
      requires Valid()
      ensures Valid()
      ensures internalNavigation || !old(isRunning) ==> unchanged(this)
      ensures !internalNavigation && old(isRunning) ==>
        !isRunning && startTime.None? && accumulatedTime == old(Elapsed(now)) &&
        taskName == old(taskName) && targetMinutes == old(targetMinutes)
      ensures Elapsed(now) == old(Elapsed(now))
    {
      if !internalNavigation && isRunning {
        accumulatedTime := accumulatedTime + (now - startTime.value);
        startTime := None;
        isRunning := false;
      }
    }
  }
}
