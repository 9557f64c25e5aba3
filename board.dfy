/** The firmware of the 8051 board that shows the completion rate
    (51/main.c): the serial receive interrupt fills a 20-byte frame buffer,
    the main loop parses a complete frame for a `P` (rate) or `S` (sound)
    command, and the timer interrupt multiplexes the rate over four display
    positions. */
module Firmware {
  import opened Options
  import opened Decimal

  /** `unsigned char` */
  newtype byte = x: int | 0 <= x < 256

  /** The size of `receive_buffer`. */
  const BufferSize := 20
  const NewLine: byte := 10
  const LetterP: byte := 80
  const LetterS: byte := 83
  /** The digit value `display_digit` is given for the percent sign. */
  const PercentSign := 10

  // ---------------------------------------------------------------------------
  // Receiving a frame

  /** `receive_buffer`, `receive_index` and `receive_complete`. */
  datatype Receiver = Receiver(buffer: seq<byte>, index: nat, complete: bool)

  /** The index always points into the buffer, and never at its last slot plus
      one. */
  predicate ReceiverValid(rx: Receiver) {
    |rx.buffer| == BufferSize && rx.index <= 19
  }

  /** The receive half of `serial_isr`: the byte is stored at the index; a
      newline or the last slot completes the frame, otherwise the index moves
      on. */
  function Receive(rx: Receiver, b: byte): (r: Receiver)
    requires ReceiverValid(rx)
    ensures ReceiverValid(r)
    ensures |r.buffer| == |rx.buffer| && r.buffer[rx.index] == b
    ensures forall i :: 0 <= i < |rx.buffer| && i != rx.index ==> r.buffer[i] == rx.buffer[i]
    ensures r.complete <==> rx.complete || b == NewLine || rx.index == 19
    ensures r.index == rx.index || r.index == rx.index + 1
    ensures r.index == rx.index + 1 <==> b != NewLine && rx.index < 19
  {
    var buffer := rx.buffer[rx.index := b];
    if buffer[rx.index] == NewLine || rx.index >= 19 then Receiver(buffer, rx.index, true)
    else Receiver(buffer, rx.index + 1, rx.complete)
  }

  /** The receiver after the bytes arrived one after another. */
  function Feed(rx: Receiver, bytes: seq<byte>): (r: Receiver)
    requires ReceiverValid(rx)
    ensures ReceiverValid(r)
  {
    if bytes == [] then rx else Receive(Feed(rx, bytes[..|bytes| - 1]), bytes[|bytes| - 1])
  }

  /** The receiver as the main loop leaves it after a frame: index 0, not
      complete (the buffer keeps its old bytes). */
  predicate IsReset(rx: Receiver) {
    ReceiverValid(rx) && rx.index == 0 && !rx.complete
  }

  /** Bytes without a newline, at most 19 of them, fill the buffer from the
      start and leave the index just past them. */
  lemma {:induction false} FeedPartial(rx: Receiver, bytes: seq<byte>)
    requires IsReset(rx) && |bytes| <= 19 && NewLine !in bytes
    ensures var r := Feed(rx, bytes);
      && r.index == |bytes| && !r.complete
      && r.buffer[..|bytes|] == bytes
  {
    if bytes != [] {
      var init := bytes[..|bytes| - 1];
      FeedPartial(rx, init);
      var r := Feed(rx, bytes);
      assert r.buffer[..|bytes|] == init + [bytes[|bytes| - 1]];
      assert init + [bytes[|bytes| - 1]] == bytes;
    }
  }

  /** A frame of at most 20 bytes ending in its only newline is received
      whole: the buffer holds it, the frame is complete and the index points at
      the newline, so the newline itself is not scanned. */
  lemma FeedFrame(rx: Receiver, frame: seq<byte>)
    requires IsReset(rx) && 1 <= |frame| <= BufferSize
    requires frame[|frame| - 1] == NewLine && NewLine !in frame[..|frame| - 1]
    ensures var r := Feed(rx, frame);
      && r.complete && r.index == |frame| - 1
      && r.buffer[..|frame|] == frame
  {
    var init := frame[..|frame| - 1];
    FeedPartial(rx, init);
    assert frame == init + [NewLine];
    assert Feed(rx, frame) == Receive(Feed(rx, init), NewLine);
    var r := Feed(rx, frame);
    assert r.buffer[..|frame|] == init + [NewLine];
  }

  // ---------------------------------------------------------------------------
  // parse_data

  /** A command starts at `i` of the first `n` bytes: a `P` with a byte after
      it, or an `S`. */
  predicate CommandAt(buf: seq<byte>, n: nat, i: nat)
    requires n <= |buf|
  {
    i < n && ((buf[i] == LetterP && i + 1 < n) || buf[i] == LetterS)
  }

  /** The first command at or after `i`, as the scan of `parse_data` finds it. */
  function FirstCommand(buf: seq<byte>, n: nat, i: nat): (r: Option<nat>)
    requires n <= |buf|
    ensures r.Some? ==> i <= r.value < n && CommandAt(buf, n, r.value)
    ensures r.Some? ==> forall j :: i <= j < r.value ==> !CommandAt(buf, n, j)
    ensures r.None? <==> forall j :: i <= j < n ==> !CommandAt(buf, n, j)
    decreases n - i
  {
    if i >= n then None
    else if CommandAt(buf, n, i) then Some(i)
    else FirstCommand(buf, n, i + 1)
  }

  /** What parsing a frame leaves: the rate, the sound flag and the
      acknowledgement byte sent back. */
  datatype ParseResult = ParseResult(rate: byte, soundFlag: bool, ack: Option<byte>)

  /** `parse_data` on the first `n` bytes: the first command found decides;
      a `P` takes the raw byte after it, capped at 100, an `S` raises the sound
      flag; with no command nothing changes. */
  function ParseFrame(buf: seq<byte>, n: nat, rate: byte, soundFlag: bool): (r: ParseResult)
    requires n <= |buf|
    ensures FirstCommand(buf, n, 0).None? <==> r == ParseResult(rate, soundFlag, None)
    ensures FirstCommand(buf, n, 0).Some? ==>
      var k := FirstCommand(buf, n, 0).value;
      r == if buf[k] == LetterP && k + 1 < n
           then ParseResult(if buf[k + 1] > 100 then 100 else buf[k + 1], soundFlag, Some(LetterP))
           else ParseResult(rate, true, Some(LetterS))
    ensures r.ack == Some(LetterP) ==>
      exists k :: 0 <= k && k + 1 < n && buf[k] == LetterP && r.rate == (if buf[k + 1] > 100 then 100 else buf[k + 1])
    ensures r.ack == Some(LetterP) ==> r.soundFlag == soundFlag
    ensures r.ack == Some(LetterS) ==> r.soundFlag && r.rate == rate
    ensures rate <= 100 ==> r.rate <= 100
  {
    match FirstCommand(buf, n, 0)
    case None => ParseResult(rate, soundFlag, None)
    case Some(k) =>
      if buf[k] == LetterP && k + 1 < n then
        ParseResult(if buf[k + 1] > 100 then 100 else buf[k + 1], soundFlag, Some(LetterP))
      else
        ParseResult(rate, true, Some(LetterS))
  }

  /** A frame that starts with `P` and has a byte after it sets the rate from
      that byte, whatever follows. */
  lemma ParseRateFrame(buf: seq<byte>, n: nat, rate: byte, soundFlag: bool)
    requires 2 <= n <= |buf| && buf[0] == LetterP
    ensures ParseFrame(buf, n, rate, soundFlag)
         == ParseResult(if buf[1] > 100 then 100 else buf[1], soundFlag, Some(LetterP))
  {
    assert CommandAt(buf, n, 0);
  }

  // ---------------------------------------------------------------------------
  // timer0_isr

  /** The display position after `current_display_pos++` and the wrap. */
  function NextPosition(pos: byte): (r: byte)
    requires pos <= 4
    ensures 1 <= r <= 4
    ensures pos < 4 ==> r == pos + 1
    ensures pos == 4 ==> r == 1
  {
    var p := pos + 1;
    if p > 4 then 1 else p
  }

  /** Four interrupts in a row visit each of the positions 1 to 4 once and
      come back. */
  lemma PositionCycle(pos: byte)
    requires 1 <= pos <= 4
    ensures var p1 := NextPosition(pos); var p2 := NextPosition(p1); var p3 := NextPosition(p2);
      && NextPosition(p3) == pos
      && {pos, p1, p2, p3} == {1, 2, 3, 4}
  {
  }

  /** The hundreds, tens and units of the rate. */
  datatype Digits = Digits(hundreds: nat, tens: nat, units: nat)

  function DigitsOf(rate: nat): (d: Digits)
    ensures 100 * d.hundreds + 10 * d.tens + d.units == rate
    ensures d.tens < 10 && d.units < 10
    ensures rate < 1000 ==> d.hundreds < 10
  {
    Digits(rate / 100, (rate % 100) / 10, rate % 10)
  }

  /** What a display position shows. */
  datatype Segment = Blank | Digit(position: nat, digit: nat)

  /** The case analysis of `timer0_isr`: leading zeros are blank, the units
      digit always shows, the fourth position is the percent sign. */
  function Show(pos: nat, rate: nat): (s: Segment)
    requires 1 <= pos <= 4
    ensures pos == 1 ==> (s == Blank <==> rate < 100) && (s != Blank ==> s == Digit(1, rate / 100))
    ensures pos == 2 ==> (s == Blank <==> rate < 10) && (s != Blank ==> s == Digit(2, (rate / 10) % 10))
    ensures pos == 3 ==> s == Digit(3, rate % 10)
    ensures pos == 4 ==> s == Digit(4, PercentSign)
  {
    var d := DigitsOf(rate);
    if pos == 1 then (if d.hundreds > 0 then Digit(1, d.hundreds) else Blank)
    else if pos == 2 then (if d.hundreds > 0 || d.tens > 0 then Digit(2, d.tens) else Blank)
    else if pos == 3 then Digit(3, d.units)
    else Digit(4, PercentSign)
  }

  /** The glyph a position lights, as text. */
  function Glyph(s: Segment): string {
    match s
    case Blank => ""
    case Digit(_, d) => if d < 10 then [DigitChar(d)] else "%"
  }

  /** Read left to right, the four positions spell the rate in decimal and a
      percent sign. */
  lemma DisplaySpellsRate(rate: nat)
    requires rate < 1000
    ensures Glyph(Show(1, rate)) + Glyph(Show(2, rate)) + Glyph(Show(3, rate)) + Glyph(Show(4, rate))
         == NatToString(rate) + "%"
  {
    var h, t, u := rate / 100, (rate / 10) % 10, rate % 10;
    var units := [DigitChar(u)];
    assert Glyph(Show(3, rate)) == units;
    if rate < 10 {
      assert NatToString(rate) == units;
    } else if rate < 100 {
      assert rate / 10 == t;
      assert NatToString(rate) == [DigitChar(t)] + units;
    } else {
      assert rate / 10 / 10 == h && rate / 10 % 10 == t && h < 10;
      assert NatToString(rate / 10) == [DigitChar(h)] + [DigitChar(t)];
      assert NatToString(rate) == [DigitChar(h)] + [DigitChar(t)] + units;
    }
  }

  // ---------------------------------------------------------------------------
  // The board's global state

  class Board {
    var completionRate: byte
    var receiveBuffer: array<byte>
    var receiveIndex: byte
    var receiveComplete: bool
    var currentDisplayPos: byte
    var playSoundFlag: bool

    ghost predicate Valid()
      reads this
    {
      && receiveBuffer.Length == BufferSize
      && receiveIndex <= 19
      && completionRate <= 100
      && currentDisplayPos <= 4
    }

    /** The receiver part of the state. */
    ghost function Rx(): Receiver
      reads this, receiveBuffer
    {
      Receiver(receiveBuffer[..], receiveIndex as nat, receiveComplete)
    }

    /** The globals as the C start-up code zeroes them. */
    constructor ()
      ensures Valid() && fresh(receiveBuffer)
      ensures completionRate == 0 && receiveIndex == 0 && !receiveComplete
      ensures currentDisplayPos == 0 && !playSoundFlag
      ensures forall i :: 0 <= i < BufferSize ==> receiveBuffer[i] == 0
    {
      completionRate := 0;
      receiveBuffer := new byte[BufferSize](_ => 0);
      receiveIndex := 0;
      receiveComplete := false;
      currentDisplayPos := 0;
      playSoundFlag := false;
    }

    /** The receive half of `serial_isr`, for the byte in `SBUF`. */
    method SerialIsr(b: byte)
      requires Valid()
      modifies this, receiveBuffer
      ensures Valid() && receiveBuffer == old(receiveBuffer)
      ensures Rx() == Receive(old(Rx()), b)
      ensures completionRate == old(completionRate) && currentDisplayPos == old(currentDisplayPos)
      ensures playSoundFlag == old(playSoundFlag)
    {
      receiveBuffer[receiveIndex] := b;
      if receiveBuffer[receiveIndex] == NewLine || receiveIndex >= 19 {
        receiveComplete := true;
      } else {
        receiveIndex := receiveIndex + 1;
      }
    }

    /** `parse_data`: scans the received bytes for the first command; returns
        the acknowledgement byte it writes to `SBUF`. */
    method ParseData() returns (ack: Option<byte>)
      requires Valid()
      modifies this`completionRate, this`playSoundFlag
      ensures Valid()
      ensures ParseResult(completionRate, playSoundFlag, ack)
           == ParseFrame(receiveBuffer[..], receiveIndex as nat, old(completionRate), old(playSoundFlag))
    {
      ghost var buf := receiveBuffer[..];
      ghost var n := receiveIndex as nat;
      ack := None;
      var i: byte := 0;
      while i < receiveIndex
        invariant i <= receiveIndex
        invariant FirstCommand(buf, n, 0) == FirstCommand(buf, n, i as nat)
        invariant completionRate == old(completionRate) && playSoundFlag == old(playSoundFlag)
        invariant ack == None
      {
        if receiveBuffer[i] == LetterP && i + 1 < receiveIndex {
          completionRate := receiveBuffer[i + 1];
          if completionRate > 100 {
            completionRate := 100;
          }
          ack := Some(LetterP);
          break;
        }
        if receiveBuffer[i] == LetterS {
          playSoundFlag := true;
          ack := Some(LetterS);
          break;
        }
        i := i + 1;
      }
    }

    /** One pass of the main loop: a complete frame is parsed and the receiver
        reset; a raised sound flag plays the buzzer (returned as `beep`) and is
        cleared. */
    method MainLoopStep() returns (ack: Option<byte>, beep: bool)
      requires Valid()
      modifies this`completionRate, this`playSoundFlag, this`receiveComplete, this`receiveIndex
      ensures Valid()
      ensures old(receiveComplete) ==>
        var p := ParseFrame(old(receiveBuffer[..]), old(receiveIndex) as nat, old(completionRate), old(playSoundFlag));
        && completionRate == p.rate && ack == p.ack && beep == p.soundFlag
        && receiveIndex == 0 && !receiveComplete
      ensures !old(receiveComplete) ==>
        && completionRate == old(completionRate) && ack == None && beep == old(playSoundFlag)
        && receiveIndex == old(receiveIndex) && !receiveComplete
      ensures !playSoundFlag
    {
      ack := None;
      if receiveComplete {
        ack := ParseData();
        receiveComplete := false;
        receiveIndex := 0;
      }
      beep := playSoundFlag;
      if playSoundFlag {
        playSoundFlag := false;
      }
    }

    /** `timer0_isr`: moves to the next display position and returns what it
        shows there. */
    method Timer0Isr() returns (shown: Segment)
      requires Valid()
      modifies this`currentDisplayPos
      ensures Valid()
      ensures currentDisplayPos == NextPosition(old(currentDisplayPos))
      ensures shown == Show(currentDisplayPos as nat, completionRate as nat)
    {
      currentDisplayPos := currentDisplayPos + 1;
      if currentDisplayPos > 4 {
        currentDisplayPos := 1;
      }
      var hundreds, tens, units := completionRate / 100, (completionRate % 100) / 10, completionRate % 10;
      if currentDisplayPos == 1 {
        shown := if hundreds > 0 then Digit(1, hundreds as nat) else Blank;
      } else if currentDisplayPos == 2 {
        shown := if hundreds > 0 || tens > 0 then Digit(2, tens as nat) else Blank;
      } else if currentDisplayPos == 3 {
        shown := Digit(3, units as nat);
      } else {
        shown := Digit(4, PercentSign);
      }
    }
  }
}
