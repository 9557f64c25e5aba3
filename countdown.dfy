/** The page's countdown timers (static/js/progress.js). The page keeps an
    object `timers` from task id to a running one-second interval whose closure
    holds the remaining minutes and seconds; the display text `m:ss` is the
    only place a paused countdown is remembered, and it is parsed back with
    `split(':')` and `parseInt` when the countdown is started again. */
module Countdown {
  import opened Options
  import opened Decimal

  // ---------------------------------------------------------------------------
  // parseInt

  /** The characters `parseInt` skips before the number (white space and line
      terminators). */
  predicate IsJsSpace(c: char) {
    || '\t' <= c <= '\r'
    || c == ' ' || c == '\U{00A0}' || c == '\U{1680}'
    || '\U{2000}' <= c <= '\U{200A}'
    || c == '\U{2028}' || c == '\U{2029}' || c == '\U{202F}' || c == '\U{205F}'
    || c == '\U{3000}' || c == '\U{FEFF}'
  }

  /** `s` without its leading white space. */
  function TrimStart(s: string): (r: string)
    ensures |r| <= |s| && r == s[|s| - |r|..]
    ensures r == [] || !IsJsSpace(r[0])
    ensures forall i :: 0 <= i < |s| - |r| ==> IsJsSpace(s[i])
  {
    if s != [] && IsJsSpace(s[0]) then TrimStart(s[1..]) else s
  }

  /** The longest prefix of `s` made of decimal digits. */
  function DigitPrefix(s: string): (r: string)
    ensures AllDigits(r) && r <= s
    ensures |r| < |s| ==> !IsDigit(s[|r|])
  {
    if s != [] && IsDigit(s[0]) then [s[0]] + DigitPrefix(s[1..]) else []
  }

  predicate IsHexDigit(c: char) {
    IsDigit(c) || 'a' <= c <= 'f' || 'A' <= c <= 'F'
  }

  function HexDigitValue(c: char): (d: nat)
    requires IsHexDigit(c)
    ensures d < 16
  {
    if IsDigit(c) then DigitValue(c)
    else if 'a' <= c <= 'f' then c as int - 'a' as int + 10
    else c as int - 'A' as int + 10
  }

  /** The longest prefix of `s` made of hexadecimal digits. */
  function HexPrefix(s: string): (r: string)
    ensures (forall i :: 0 <= i < |r| ==> IsHexDigit(r[i])) && r <= s
    ensures |r| < |s| ==> !IsHexDigit(s[|r|])
  {
    if s != [] && IsHexDigit(s[0]) then [s[0]] + HexPrefix(s[1..]) else []
  }

  function HexValue(s: string): nat
    requires forall i :: 0 <= i < |s| ==> IsHexDigit(s[i])
  {
    if s == [] then 0 else 16 * HexValue(s[..|s| - 1]) + HexDigitValue(s[|s| - 1])
  }

  /** `0x` or `0X` in front: the digits that follow are hexadecimal. */
  predicate HexStart(u: string) {
    |u| >= 2 && u[0] == '0' && (u[1] == 'x' || u[1] == 'X')
  }

  /** The digits after the sign: after `0x`, the hexadecimal digits; otherwise
      the decimal digits, as many as there are. `None` when there is no digit. */
  function ParseUnsigned(u: string): (r: Option<nat>)
    ensures HexStart(u) ==> (r.Some? <==> |u| > 2 && IsHexDigit(u[2]))
    ensures HexStart(u) && r.Some? ==> r.value == HexValue(HexPrefix(u[2..]))
    ensures !HexStart(u) ==> (r.Some? <==> u != [] && IsDigit(u[0]))
    ensures !HexStart(u) && r.Some? ==> r.value == Value(DigitPrefix(u))
  {
    if HexStart(u) then
      var h := HexPrefix(u[2..]);
      if h == [] then None else Some(HexValue(h))
    else
      var d := DigitPrefix(u);
      if d == [] then None else Some(Value(d))
  }

  /** The number at the start of `t`, which `parseInt` has already cleared of
      white space: an optional sign, then the digits. */
  function ParseSigned(t: string): (r: Option<int>)
    ensures r.Some? ==> t != [] && (IsDigit(t[0]) || (|t| >= 2 && (t[0] == '-' || t[0] == '+') && IsDigit(t[1])))
    ensures r.Some? ==> (if t[0] == '-' then r.value <= 0 else r.value >= 0)
    ensures t != [] && IsDigit(t[0]) && !HexStart(t) ==> r == Some(Value(DigitPrefix(t)))
    ensures |t| >= 2 && t[0] == '-' && IsDigit(t[1]) && !HexStart(t[1..]) ==> r == Some(-(Value(DigitPrefix(t[1..])) as int))
    ensures |t| >= 2 && t[0] == '+' && IsDigit(t[1]) && !HexStart(t[1..]) ==> r == Some(Value(DigitPrefix(t[1..])))
    ensures HexStart(t) && |t| > 2 && IsHexDigit(t[2]) ==> r == Some(HexValue(HexPrefix(t[2..])))
  {
    if t != [] && t[0] == '-' then
      match ParseUnsigned(t[1..])
      case None => None
      case Some(v) => Some(-(v as int))
    else if t != [] && t[0] == '+' then
      match ParseUnsigned(t[1..])
      case None => None
      case Some(v) => Some(v as int)
    else
      match ParseUnsigned(t)
      case None => None
      case Some(v) => Some(v as int)
  }

  /** `parseInt(s)` without a radix: leading white space is skipped, and what
      follows is read as above. `None` is NaN. */
  function ParseInt(s: string): (r: Option<int>)
    ensures (forall i :: 0 <= i < |s| ==> IsJsSpace(s[i])) ==> r.None?
    ensures r.Some? ==> exists i :: 0 <= i < |s| && IsDigit(s[i])
  {
    var t := TrimStart(s);
    assert ParseSigned(t).Some? ==> exists i :: 0 <= i < |s| && IsDigit(s[i]) by {
      if ParseSigned(t).Some? {
        var j := |s| - |t|;
        if IsDigit(t[0]) {
          assert s[j] == t[0];
        } else {
          assert s[j + 1] == t[1];
        }
      }
    }
    ParseSigned(t)
  }

  /** White space in front is skipped as a whole. */
  lemma {:induction false} TrimStartSkips(ws: string, s: string)
    requires forall i :: 0 <= i < |ws| ==> IsJsSpace(ws[i])
    ensures TrimStart(ws + s) == TrimStart(s)
    decreases |ws|
  {
    if ws != [] {
      assert (ws + s)[0] == ws[0];
      assert (ws + s)[1..] == ws[1..] + s;
      TrimStartSkips(ws[1..], s);
    } else {
      assert ws + s == s;
    }
  }

  /** Leading white space does not change what `parseInt` reads. */
  lemma ParseIntSkipsSpace(ws: string, s: string)
    requires forall i :: 0 <= i < |ws| ==> IsJsSpace(ws[i])
    ensures ParseInt(ws + s) == ParseInt(s)
  {
    TrimStartSkips(ws, s);
  }

  /** `parseInt(s) || 0`: NaN (and 0 itself) becomes 0, every other number is
      kept. */
  function ParseIntOr0(s: string): (r: int)
    ensures ParseInt(s).None? ==> r == 0
    ensures ParseInt(s).Some? ==> r == ParseInt(s).value
  {
    ParseInt(s).GetOr(0)
  }

  lemma {:induction false} DigitPrefixOfDigits(s: string)
    requires AllDigits(s)
    ensures DigitPrefix(s) == s
  {
    if s != [] {
      DigitPrefixOfDigits(s[1..]);
    }
  }

  /** A non-empty string of decimal digits parses to its value. */
  lemma ParseIntOfDigits(s: string)
    requires s != [] && AllDigits(s)
    ensures ParseInt(s) == Some(Value(s))
  {
    assert !IsJsSpace(s[0]);
    assert TrimStart(s) == s;
    DigitPrefixOfDigits(s);
  }

  // ---------------------------------------------------------------------------
  // Number to text

  /** `${n}` for an integer number. */
  function IntToString(n: int): (s: string)
    ensures s != [] && ':' !in s
    ensures n >= 0 <==> IsDigit(s[0])
    ensures n >= 0 ==> AllDigits(s) && Value(s) == n && (|s| > 1 ==> s[0] != '0')
    ensures n < 0 ==> s[0] == '-' && |s| >= 2 && AllDigits(s[1..]) && Value(s[1..]) == -n && (|s| > 2 ==> s[1] != '0')
  {
    if n < 0 then
      var digits := NatToString(-n);
      ValueOfNatToString(-n);
      assert ("-" + digits)[1..] == digits;
      "-" + digits
    else
      ValueOfNatToString(n);
      NatToString(n)
  }

  /** `s.padStart(2, '0')` */
  function PadStart2(s: string): (r: string)
    ensures |r| == if |s| >= 2 then |s| else 2
    ensures r[|r| - |s|..] == s
    ensures forall i :: 0 <= i < |r| - |s| ==> r[i] == '0'
  {
    if |s| == 0 then "00" else if |s| == 1 then "0" + s else s
  }

  /** Reading back an integer's text gives the integer. */
  lemma ParseIntOfIntToString(n: int)
    ensures ParseInt(IntToString(n)) == Some(n)
  {
    var s := IntToString(n);
    if n < 0 {
      var digits := s[1..];
      assert IsDigit(digits[0]) && (|digits| >= 2 ==> IsDigit(digits[1]));
      assert !IsJsSpace(s[0]);
      assert TrimStart(s) == s;
      DigitPrefixOfDigits(digits);
    } else {
      ParseIntOfDigits(s);
    }
  }

  /** Reading back a zero-padded count of seconds gives the count. */
  lemma ParseIntOfPadded(n: nat)
    ensures ParseInt(PadStart2(IntToString(n))) == Some(n)
  {
    if n < 10 {
      var s := "0" + NatToString(n);
      ValueLeadingZero(NatToString(n));
      ValueOfNatToString(n);
      ParseIntOfDigits(s);
    } else {
      ParseIntOfIntToString(n);
    }
  }

  // ---------------------------------------------------------------------------
  // split(':')

  /** The index of the first `c` in `s`. */
  function IndexOf(s: string, c: char): (k: nat)
    requires c in s
    ensures k < |s| && s[k] == c && c !in s[..k]
  {
    if s[0] == c then 0 else 1 + IndexOf(s[1..], c)
  }

  /** `s.split(sep)` */
  function Split(s: string, sep: char): (parts: seq<string>)
    ensures |parts| >= 1
    ensures sep in s <==> |parts| >= 2
    ensures forall i :: 0 <= i < |parts| ==> sep !in parts[i]
    decreases |s|
  {
    if sep !in s then [s]
    else
      var k := IndexOf(s, sep);
      [s[..k]] + Split(s[k + 1..], sep)
  }

  /** `parts.join(sep)` */
  function Join(parts: seq<string>, sep: char): string
    requires |parts| >= 1
  {
    if |parts| == 1 then parts[0] else parts[0] + [sep] + Join(parts[1..], sep)
  }

  /** Splitting loses nothing: joining the parts gives the text back. */
  lemma {:induction false} JoinSplit(s: string, sep: char)
    ensures Join(Split(s, sep), sep) == s
    decreases |s|
  {
    if sep in s {
      var k := IndexOf(s, sep);
      JoinSplit(s[k + 1..], sep);
      assert Split(s, sep)[1..] == Split(s[k + 1..], sep);
      assert s == s[..k] + [sep] + s[k + 1..];
    }
  }

  /** Two separator-free pieces joined by the separator split back into them. */
  lemma SplitTwo(a: string, b: string, sep: char)
    requires sep !in a && sep !in b
    ensures Split(a + [sep] + b, sep) == [a, b]
  {
    var s := a + [sep] + b;
    assert s[|a|] == sep;
    var k := IndexOf(s, sep);
    assert s[..|a|] == a;
    assert k == |a|;
    assert s[..k] == a;
    assert s[k + 1..] == b;
  }

  // ---------------------------------------------------------------------------
  // The countdown clock

  /** The closure variables `remainingMinutes` and `remainingSeconds`. */
  datatype Clock = Clock(minutes: int, seconds: int)

  /** The seconds left before the display reaches 0:00. */
  function TotalSeconds(c: Clock): int {
    60 * c.minutes + c.seconds
  }

  /** The display text `${m}:${s.toString().padStart(2, '0')}`: the minutes,
      a colon, and for a second count of a minute exactly two digits. */
  function FormatClock(c: Clock): string {
    IntToString(c.minutes) + ":" + PadStart2(IntToString(c.seconds))
  }

  /** The display is the minutes, a colon, and for a second count within a
      minute exactly two digits. */
  lemma FormatClockShape(c: Clock)
    ensures var text, m := FormatClock(c), IntToString(c.minutes);
      && |text| > |m| && text[..|m|] == m && text[|m|] == ':'
      && (0 <= c.seconds < 60 ==> |text| == |m| + 3 && AllDigits(text[|text| - 2..]))
  {
    var m, digits := IntToString(c.minutes), IntToString(c.seconds);
    var sec := PadStart2(digits);
    var text := m + ":" + sec;
    assert text[..|m|] == m;
    if 0 <= c.seconds < 60 {
      assert digits == NatToString(c.seconds);
      NatToStringLength(c.seconds);
      assert |sec| == 2;
      forall i | 0 <= i < 2 ensures IsDigit(sec[i]) {
        if i >= 2 - |digits| {
          assert sec[i] == sec[2 - |digits|..][i - (2 - |digits|)] == digits[i - (2 - |digits|)];
        }
      }
      assert text[|text| - 2..] == sec;
    }
  }

  /** The clock a start begins from: minutes and seconds of the display when
      it holds a ':', otherwise the duration field's minutes and no seconds. */
  function StartClock(durationText: string, displayText: string): Clock {
    if ':' in displayText then
      var parts := Split(displayText, ':');
      Clock(ParseIntOr0(parts[0]), ParseIntOr0(parts[1]))
    else
      Clock(ParseIntOr0(durationText), 0)
  }

  /** Where the start clock comes from: without a colon, the duration field's
      minutes and no seconds; with one, the minutes before the first colon and
      the seconds between it and the next colon or the end. */
  lemma StartClockFields(durationText: string, displayText: string)
    ensures ':' !in displayText ==> StartClock(durationText, displayText) == Clock(ParseIntOr0(durationText), 0)
    ensures ':' in displayText ==>
      var c, k := StartClock(durationText, displayText), IndexOf(displayText, ':');
      var rest := displayText[k + 1..];
      && c.minutes == ParseIntOr0(displayText[..k])
      && c.seconds == ParseIntOr0(if ':' in rest then rest[..IndexOf(rest, ':')] else rest)
  {
    if ':' in displayText {
      var rest := displayText[IndexOf(displayText, ':') + 1..];
      assert Split(displayText, ':')[1] == Split(rest, ':')[0];
    }
  }

  /** Formatting then parsing returns the clock, whatever the duration field
      says; a display without ':' falls back to the duration field. */
  lemma StartClockOfFormat(c: Clock, durationText: string)
    requires c.seconds >= 0
    ensures StartClock(durationText, FormatClock(c)) == c
  {
    var a, b := IntToString(c.minutes), PadStart2(IntToString(c.seconds));
    assert FormatClock(c) == a + [':'] + b;
    assert ':' in FormatClock(c) by {
      assert FormatClock(c)[|a|] == ':';
    }
    assert ':' !in b by {
      assert AllDigits(NatToString(c.seconds));
    }
    SplitTwo(a, b, ':');
    ParseIntOfIntToString(c.minutes);
    ParseIntOfPadded(c.seconds);
  }

  /** What one interval callback does to the clock. */
  datatype TickResult = Finished | Running(clock: Clock)

  /** One tick: at 0:00 the countdown finishes; otherwise it steps one second
      back, borrowing a minute when the seconds are at zero. */
  function Tick(c: Clock): (r: TickResult)
    ensures r.Finished? <==> c.minutes == 0 && c.seconds == 0
    ensures r.Running? ==> TotalSeconds(r.clock) == TotalSeconds(c) - 1
    ensures r.Running? && c.seconds != 0 ==> r.clock == Clock(c.minutes, c.seconds - 1)
    ensures r.Running? && c.seconds == 0 ==> r.clock == Clock(c.minutes - 1, 59)
    ensures r.Running? && c.minutes >= 0 && c.seconds >= 0 ==> r.clock.minutes >= 0 && r.clock.seconds >= 0
  {
    if c.seconds != 0 then Running(Clock(c.minutes, c.seconds - 1))
    else if c.minutes == 0 then Finished
    else Running(Clock(c.minutes - 1, 59))
  }

  /** The state after `n` interval callbacks; once finished, the interval is
      cleared and nothing more happens. */
  function Ticks(c: Clock, n: nat): TickResult
    decreases n
  {
    if n == 0 then Running(c)
    else match Tick(c)
      case Finished => Finished
      case Running(next) => Ticks(next, n - 1)
  }

  /** A countdown from a non-negative clock shows 0:00 after exactly
      `60 * m + s` ticks, keeps running before that, and finishes on the next
      tick. */
  lemma {:induction false} CountdownLength(c: Clock)
    requires c.minutes >= 0 && c.seconds >= 0
    ensures TotalSeconds(c) >= 0
    ensures Ticks(c, TotalSeconds(c)) == Running(Clock(0, 0))
    ensures Ticks(c, TotalSeconds(c) + 1) == Finished
    ensures forall k :: 0 <= k <= TotalSeconds(c) ==> Ticks(c, k).Running?
    decreases TotalSeconds(c)
  {
    if c == Clock(0, 0) {
      assert Ticks(c, 1) == Finished;
    } else {
      var next := Tick(c).clock;
      CountdownLength(next);
      forall k | 0 <= k <= TotalSeconds(c) ensures Ticks(c, k).Running? {
        if k > 0 {
          assert Ticks(c, k) == Ticks(next, k - 1);
        }
      }
    }
  }

  /** The text `${duration}:00` starts a countdown of `duration` minutes,
      whatever the duration field holds. */
  lemma DurationTextStarts(duration: int)
    ensures forall d :: StartClock(d, IntToString(duration) + ":00") == Clock(duration, 0)
  {
    assert FormatClock(Clock(duration, 0)) == IntToString(duration) + ":00" by {
      assert IntToString(0) == "0";
    }
    forall d ensures StartClock(d, IntToString(duration) + ":00") == Clock(duration, 0) {
      StartClockOfFormat(Clock(duration, 0), d);
    }
  }

  /** A display the countdown wrote restarts the countdown where it stopped. */
  lemma ResumeFromDisplay(c: Clock, durationText: string)
    requires c.minutes >= 0 && c.seconds >= 0
    ensures Tick(c).Running? ==> StartClock(durationText, FormatClock(Tick(c).clock)) == Tick(c).clock
  {
    if Tick(c).Running? {
      StartClockOfFormat(Tick(c).clock, durationText);
    }
  }

  // ---------------------------------------------------------------------------
  // The input guards of the add and rename dialogs

  /** `title && duration > 0` with `duration = parseInt(...)`: NaN is not
      greater than 0. */
  function AddAllowed(title: string, durationText: string): (ok: bool)
    ensures ok ==> title != [] && ParseInt(durationText).Some? && ParseInt(durationText).value > 0
    ensures title != [] && ParseInt(durationText).Some? && ParseInt(durationText).value > 0 ==> ok
  {
    title != [] && match ParseInt(durationText) case Some(d) => d > 0 case None => false
  }

  /** `currentRenameTaskId`: null until a rename button was pressed, then
      `parseInt` of the button's `data-id` (None for NaN). */
  datatype RenameTarget = NoTarget | Target(id: Option<int>)

  /** `newTitle && currentRenameTaskId !== null` */
  function RenameAllowed(newTitle: string, target: RenameTarget): (ok: bool)
    ensures ok <==> newTitle != [] && target.Target?
  {
    newTitle != [] && target != NoTarget
  }

  // ---------------------------------------------------------------------------
  // The timers object

  datatype ToggleResult =
    | Paused              // the interval is cleared; the stop is reported to the server
    | Started(clock: Clock) // a new interval runs from `clock`; the start is reported
    | NotStarted          // nothing to count down

  datatype TickShown =
    | Alarm               // the countdown has finished: sound and alarm dialog
    | Shown(text: string) // the new display text

  class TaskTimers {
    /** `timers`, with each running interval's closure state. */
    var timers: map<int, Clock>
    /** The task ids of the intervals that are live, one entry per
        `setInterval` not yet cleared. */
    ghost var intervals: multiset<int>

    /** Every live interval is in `timers` and every entry has one. */
    ghost predicate Valid()
      reads this
      ensures Valid() ==> forall id :: intervals[id] == if id in timers then 1 else 0
    {
      intervals == multiset(timers.Keys)
    }

    constructor ()
      ensures Valid() && timers == map[] && intervals == multiset{}
    {
      timers := map[];
      intervals := multiset{};
    }

    /** toggleTaskTimer: a running countdown is paused and its entry removed;
        otherwise a countdown starts from the display (or the duration field),
        but only when there is time left to count. */
    method ToggleTaskTimer(taskId: int, durationText: string, displayText: string) returns (r: ToggleResult)
      requires Valid()
      modifies this
      ensures Valid()
      ensures taskId in old(timers) ==> r == Paused && timers == old(timers) - {taskId}
      ensures taskId !in old(timers) ==>
        var c := StartClock(durationText, displayText);
        if c.minutes > 0 || c.seconds > 0
        then r == Started(c) && timers == old(timers)[taskId := c]
        else r == NotStarted && timers == old(timers)
    {
      if taskId in timers {
        intervals := intervals - multiset{taskId};  // clearInterval
        timers := timers - {taskId};
        r := Paused;
      } else {
        var c := StartClock(durationText, displayText);
        if c.minutes > 0 || c.seconds > 0 {
          intervals := intervals + multiset{taskId};  // setInterval
          timers := timers[taskId := c];
          r := Started(c);
        } else {
          r := NotStarted;
        }
      }
    }

    /** The interval callback of a running countdown. */
    method OnInterval(taskId: int) returns (r: TickShown)
      requires Valid() && taskId in timers
      modifies this
      ensures Valid()
      ensures Tick(old(timers[taskId])).Finished? ==> r == Alarm && timers == old(timers) - {taskId}
      ensures Tick(old(timers[taskId])).Running? ==>
        var c := Tick(old(timers[taskId])).clock;
        r == Shown(FormatClock(c)) && timers == old(timers)[taskId := c]
    {
      var minutes, seconds := timers[taskId].minutes, timers[taskId].seconds;
      ghost var step := Tick(timers[taskId]);
      if seconds == 0 {
        if minutes == 0 {
          intervals := intervals - multiset{taskId};  // clearInterval
          timers := timers - {taskId};
          return Alarm;
        }
        minutes := minutes - 1;
        seconds := 59;
      } else {
        seconds := seconds - 1;
      }
      assert step == Running(Clock(minutes, seconds));
      assert timers[taskId := Clock(minutes, seconds)].Keys == timers.Keys;
      timers := timers[taskId := Clock(minutes, seconds)];
      r := Shown(FormatClock(Clock(minutes, seconds)));
    }

    /** The delete reply handler: a countdown of the deleted task is stopped
        and its entry removed. */
    method OnTaskDeleted(taskId: int)
      requires Valid()
      modifies this
      ensures Valid()
      ensures timers == old(timers) - {taskId}
    {
      if taskId in timers {
        intervals := intervals - multiset{taskId};  // clearInterval
        timers := timers - {taskId};
      }
    }

    /** The update-duration reply handler: without a running countdown the
        display is reset to `${duration}:00`, which a later start reads back
        as `duration` minutes. */
    method DurationDisplay(taskId: int, duration: int) returns (text: Option<string>)
      ensures text.Some? <==> taskId !in timers
      ensures text.Some? ==> forall d :: StartClock(d, text.value) == Clock(duration, 0)
    {
      if taskId in timers {
        return None;
      }
      text := Some(IntToString(duration) + ":00");
      DurationTextStarts(duration);
    }
  }
}
