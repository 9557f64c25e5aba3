/** How the three programs meet: the backend's board command received and
    parsed by the firmware, and the page's add dialog against the backend's
    add route. */
module Protocol {
  import opened Options
  import opened Decimal
  import TaskList
  import Firmware
  import Countdown

  /** `command.encode()`: every character of the command is ASCII, so it is
      sent as the one byte of its code. */
  function Encode(s: string): (b: seq<Firmware.byte>)
    requires forall i :: 0 <= i < |s| ==> s[i] as int < 128
    ensures |b| == |s|
    ensures forall i :: 0 <= i < |s| ==> b[i] as int == s[i] as int
  {
    if s == [] then [] else [s[0] as int as Firmware.byte] + Encode(s[1..])
  }

  /** The bytes the backend writes for a rate. */
  function CommandBytes(rate: int): (b: seq<Firmware.byte>)
    ensures 3 <= |b| <= 5
    ensures b[0] == Firmware.LetterP && b[|b| - 1] == Firmware.NewLine
    ensures Firmware.NewLine !in b[..|b| - 1]
    ensures b[1] as int == TaskList.BoardCommand(rate)[1] as int
  {
    var cmd := TaskList.BoardCommand(rate);
    assert forall i :: 1 <= i < |cmd| - 1 ==> IsDigit(cmd[i]) by {
      forall i | 1 <= i < |cmd| - 1 ensures IsDigit(cmd[i]) {
        assert cmd[i] == cmd[1..|cmd| - 1][i - 1];
      }
    }
    var b := Encode(cmd);
    assert forall i :: 0 <= i < |b| - 1 ==> b[i] != Firmware.NewLine;
    b
  }

  /** The first character of a number's spelling is its leading digit. */
  lemma {:induction false} FirstCharOfNatToString(n: nat)
    requires n <= 100
    ensures NatToString(n)[0] == DigitChar(if n < 10 then n else if n < 100 then n / 10 else 1)
  {
    if n >= 10 {
      if n < 100 {
        assert NatToString(n / 10) == [DigitChar(n / 10)];
      } else {
        assert NatToString(n / 10) == NatToString(n / 100) + [DigitChar((n / 10) % 10)];
      }
    }
  }

  /** The protocol mismatch, in general: after the board receives the backend's
      command into a reset receiver and the main loop parses it, the rate the
      board holds is the character code of the first decimal digit of the
      clamped rate, not the rate. */
  lemma BoardTakesFirstDigitCode(rate: int, rx: Firmware.Receiver, oldRate: Firmware.byte, soundFlag: bool)
    requires Firmware.IsReset(rx)
    ensures var r := Firmware.Feed(rx, CommandBytes(rate));
      && r.complete
      && Firmware.ParseFrame(r.buffer, r.index, oldRate, soundFlag)
         == Firmware.ParseResult(NatToString(TaskList.Clamp(rate))[0] as int as Firmware.byte, soundFlag, Some(Firmware.LetterP))
  {
    var frame := CommandBytes(rate);
    Firmware.FeedFrame(rx, frame);
    var r := Firmware.Feed(rx, frame);
    assert r.buffer[0] == frame[0] && r.buffer[1] == frame[1];
    var cmd := TaskList.BoardCommand(rate);
    assert cmd[1] == cmd[1..|cmd| - 1][0] == NatToString(TaskList.Clamp(rate))[0];
    Firmware.ParseRateFrame(r.buffer, r.index, oldRate, soundFlag);
  }

  /** The example of the mismatch: sending 50% sets the board's rate to 53,
      the code of '5'. */
  lemma FiftyPercentShowsAs53(rx: Firmware.Receiver, oldRate: Firmware.byte)
    requires Firmware.IsReset(rx)
    ensures TaskList.BoardCommand(50) == "P50\n"
    ensures var r := Firmware.Feed(rx, CommandBytes(50));
      Firmware.ParseFrame(r.buffer, r.index, oldRate, false).rate == 53
  {
    assert NatToString(50) == "50" by {
      assert NatToString(5) == [DigitChar(5)];
    }
    assert TaskList.Clamp(50) == 50;
    BoardTakesFirstDigitCode(50, rx, oldRate, false);
  }

  /** The board ends up holding the rate the backend sent for exactly one
      rate: 53. */
  lemma BoardAgreesOnlyAt53(rate: int, rx: Firmware.Receiver, oldRate: Firmware.byte)
    requires Firmware.IsReset(rx) && 0 <= rate <= 100
    ensures var r := Firmware.Feed(rx, CommandBytes(rate));
      Firmware.ParseFrame(r.buffer, r.index, oldRate, false).rate as int == rate <==> rate == 53
  {
    BoardTakesFirstDigitCode(rate, rx, oldRate, false);
    FirstCharOfNatToString(rate);
  }

  /** The add dialog's guard lets through a title of spaces, which the backend
      then rejects. */
  lemma DialogAdmitsBlankTitle(tasks: seq<TaskList.Task>)
    requires |tasks| < TaskList.MaxTasks
    ensures Countdown.AddAllowed(" ", "5")
    ensures TaskList.AddTask(tasks, TaskList.AddBody(Some(" "), Some(5))).reply == TaskList.Err(TaskList.EmptyTitle)
  {
    Countdown.ParseIntOfDigits("5");
    assert TaskList.IsBlank(" ") by {
      assert TaskList.IsPySpace(" "[0]);
    }
  }

  /** A task the add dialog lets through and the backend accepts has a
      positive duration, so its countdown can start. */
  lemma DialogAddHasPositiveDuration(tasks: seq<TaskList.Task>, title: string, durationText: string)
    requires Countdown.AddAllowed(title, durationText)
    requires |tasks| < TaskList.MaxTasks && !TaskList.IsBlank(title)
    ensures var r := TaskList.AddTask(tasks, TaskList.AddBody(Some(title), Countdown.ParseInt(durationText)));
      && r.reply.Ok?
      && r.reply.value.duration == r.reply.value.timeRemaining > 0
  {
  }
}
