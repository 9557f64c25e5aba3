# Task list with a completion-rate display

This project models the three programs of the to-do application in Dafny and proves properties about them:

- `app.py` is the Flask backend. It keeps a list of at most eight tasks in a JSON file, every route loads the whole list, and the routes that change it save the whole list back. The index, toggle, add and delete routes compute the statistics (total, completed, pending, completion rate) and send the rate to the display board as `P<rate>\n`. The rename and update routes change the first task with the id: rename sets its title; update-duration sets its duration and, unless it is timing, its remaining time; update-timing sets `is_timing` and, when the body carries one, the remaining time.
- `static/js/progress.js` is the page script. It keeps a `timers` object of running countdowns, guards the add and rename dialogs, and parses and formats the `m:ss` countdown display.
- `51/main.c` is the firmware of the 8051 board:
  - a serial interrupt collects a frame of at most 20 bytes;
  - the main loop parses the frame for a `P` (rate) or `S` (sound) command;
  - a timer interrupt multiplexes the rate over four seven-segment positions.

Files and modules:

| file | module | what it holds |
|---|---|---|
| `options.dfy` | `Options` | the `Option` type |
| `decimal.dfy` | `Decimal` | decimal spelling of naturals and its value, as used by Python's f-strings and the display |
| `tasks.dfy` | `TaskList` | the backend routes, on a task list passed in and returned |
| `countdown.dfy` | `Countdown` | JavaScript `parseInt`, `split`/`join` and `padStart`; the countdown clock; the dialog guards; the `timers` object as a class |
| `board.dfy` | `Firmware` | the receive buffer, `parse_data` and the display scan, as functions and as a class over the board's globals with a 20-byte array |
| `protocol.dfy` | `Protocol` | how the programs meet: the backend's serial command as the firmware parses it, and the add dialog against the add route |

The store is modelled as a value. Each route takes the list that `init_tasks` would load and returns a `RouteResult`. That result holds:

- the reply (`Ok` or an `Err` carrying the HTTP error);
- the list left in the file;
- the board command written, if any.

The protocol between backend and board does not match, and the model keeps both sides as written:

- `app.py:89` sends the rate as decimal text.
- `51/main.c:121` takes the single raw byte after `P` as the rate.
- So the board holds the character code of the first digit: `P50\n` sets it to 53. `Protocol.BoardAgreesOnlyAt53` proves that 53 is the only rate the board receives correctly.

## Model

| member | source | states |
|---|---|---|
| TaskList.CompletedTasks | app.py:123 | the completed tasks are exactly the members of the list with `completed` set, and there are no more of them than tasks |
| TaskList.CompletedTasksMultiplicity | app.py:123 | each completed task occurs in the filtered list as often as in the list, each pending task not at all |
| TaskList.NoneCompleted | app.py:123 | a list with no completed task filters to the empty list |
| TaskList.RoundHalfEven | app.py:129 | Python `round` of `num/den`: the result is within half of the exact quotient, and a tie goes to the even neighbour |
| TaskList.CompletionRate | app.py:126-129 | an empty list has rate 0; otherwise the rate is the integer nearest to `100 * completed / total`, a tie goes to the even neighbour, and it lies in 0..100 |
| TaskList.StatsOf | app.py:121-129 | totals of the list; the completed count is the length of the filtered list; pending is total minus completed and never negative; the rate is in 0..100, nearest to the exact percentage, and even on a tie |
| TaskList.ToggleMovesCount | app.py:157 | flipping one task's `completed` flag moves the completed count by exactly one, up if the task was pending and down if it was completed |
| TaskList.Clamp | app.py:84 | `max(0, min(100, rate))`: the rate itself inside 0..100, otherwise the nearer bound |
| TaskList.BoardCommand | app.py:84-89 | the command is `P`, the decimal spelling of the clamped rate, and a newline; 3 to 5 characters; the digits read back as the clamped rate |
| TaskList.FindTask | app.py:154-155 | the index of the first task with the id; None exactly when no task has it |
| TaskList.SameIdKeepsUnique | app.py:154-160 | replacing a task by one with the same id keeps the ids unique |
| TaskList.StripStart | app.py:208 | `lstrip`: a suffix of the string whose removed characters are all white space and whose first character is not |
| TaskList.StripEnd | app.py:208 | `rstrip`: a prefix of the string whose removed characters are all white space and whose last character is not |
| TaskList.IsBlank | app.py:208 | `not s.strip()` holds exactly when every character of the title is Python white space |
| TaskList.ToggleTask | app.py:148-190 | an unknown id gives 404 and leaves the list alone; otherwise only the first task with the id changes, its `completed` flipped; the reply is the stats of the saved list, the completed count moves by one, the board gets that rate, and unique ids stay unique |
| TaskList.MaxId | app.py:213 | the largest id of a non-empty list, and it is an id of the list |
| TaskList.NewId | app.py:213 | 1 for an empty list, otherwise one more than the largest id, so it differs from every id present |
| TaskList.AddTask | app.py:199-245 | a full list gives 400 and a missing or blank title gives 400, capacity checked first, with the list unchanged; otherwise the new task is appended with a fresh id, not completed, not timing, duration and remaining time both the body's duration or 0; the new id is larger than every stored id, and the board gets the new rate |
| TaskList.AddTaskKeepsUniqueIds | app.py:213-223 | adding a task keeps the ids unique |
| TaskList.AddTaskAsWritten | app.py:199-248 | as written (`request` is not among the imports of app.py:1): a full list gives 400; any other request fails with 500, and the list stays unchanged |
| TaskList.AddTaskAsWrittenRejectsGoodRequest | app.py:203-204 | a well-formed add on the empty list fails as written but succeeds in the corrected route |
| TaskList.Without | app.py:261 | the list minus every task with the id: no longer than the list, and of the same length only when no task has the id |
| TaskList.WithoutMembers | app.py:261 | the filtered list holds exactly the tasks whose id differs |
| TaskList.WithoutAppend | app.py:261 | filtering distributes over concatenation |
| TaskList.WithoutAbsent | app.py:261 | filtering out an id no task has leaves the list unchanged |
| TaskList.WithoutUnique | app.py:256-261 | with unique ids, filtering out the id of task k removes exactly that task |
| TaskList.WithoutOne | app.py:261 | filtering out an id that one task holds and no other removes exactly that task and keeps the order |
| TaskList.WithoutKeepsUnique | app.py:261 | filtering keeps ids unique |
| TaskList.DeleteTask | app.py:251-288 | an unknown id gives 404 with the list unchanged; otherwise every task with the id is removed and no other, the reply is the stats of what is left and the board gets its rate; with unique ids exactly the one task is removed |
| TaskList.RenameTask | app.py:291-304 | an unknown id replies success and changes nothing; a missing title gives 500 and changes nothing; otherwise only the first task with the id gets the new title |
| TaskList.UpdateDuration | app.py:307-322 | as for rename; the task's duration is set and its remaining time too, unless it is timing |
| TaskList.UpdateTiming | app.py:325-340 | as for rename; `is_timing` is set, and the remaining time only when the body carries one |
| TaskList.DefaultTasksFacts | app.py:34-40 | the sample list has five tasks with ids 1 to 5 and no duration, and only the first is completed |
| TaskList.DefaultTasksStats | app.py:34-40 | the sample list's statistics are 5 tasks, 1 completed, 4 pending, 20% |
| TaskList.InitTasks | app.py:30-52 | a readable file gives its list; a missing file gives the sample list when it can be written; every failure gives the empty list |
| Decimal.NatToString | app.py:89 | decimal spelling: non-empty, digits only, no leading zero, one character exactly below 10 |
| Decimal.ValueOfNatToString | app.py:89 | the spelling reads back as the number |
| Decimal.NatToStringLength | app.py:84-89 | a clamped rate is spelled with one, two or three digits, each range exactly |
| Countdown.TrimStart | static/js/progress.js:42 | `parseInt` first skips leading JavaScript white space |
| Countdown.ParseUnsigned | static/js/progress.js:42 | after `0x` or `0X` a number exactly when a hexadecimal digit follows, and then their value; otherwise a number exactly when the string starts with a decimal digit, and then the value of the leading digits |
| Countdown.ParseSigned | static/js/progress.js:42 | a number only when a digit comes first or right after a sign; a `-` gives a value at most 0 and otherwise the value is at least 0; the decimal, negative, `+` and hexadecimal cases each give the value of their digits |
| Countdown.ParseInt | static/js/progress.js:42 | a string of white space only is NaN, and a number needs a digit in the string |
| Countdown.ParseIntSkipsSpace | static/js/progress.js:42 | leading white space does not change what `parseInt` reads |
| Countdown.ParseIntOr0 | static/js/progress.js:358 | `parseInt` with 0 as the fallback: NaN becomes 0 and every number is kept |
| Countdown.ParseIntOfDigits | static/js/progress.js:42 | `parseInt` of a non-empty string of decimal digits is the value of the digits |
| Countdown.IntToString | static/js/progress.js:407 | `${n}`: non-empty, no colon; digits only exactly when `n >= 0`, a `-` and digits otherwise; the digits spell `abs(n)` with no leading zero |
| Countdown.PadStart2 | static/js/progress.js:407 | `padStart(2, '0')`: at least two characters, ending in the string, with only zeros put in front |
| Countdown.ParseIntOfIntToString | static/js/progress.js:365-366 | `parseInt` reads back any integer that was turned into a string |
| Countdown.ParseIntOfPadded | static/js/progress.js:407 | `parseInt` reads back a seconds value padded to two digits |
| Countdown.Split | static/js/progress.js:364 | `split` gives at least one part, two or more exactly when the separator occurs, and no part contains it |
| Countdown.JoinSplit | static/js/progress.js:364 | joining the parts with the separator gives back the string |
| Countdown.SplitTwo | static/js/progress.js:364 | a string built as `a:b`, with no `:` in either half, splits into `[a, b]` |
| Countdown.FormatClockShape | static/js/progress.js:407 | the display is the minutes' text, a colon, and for seconds within a minute exactly two digits |
| Countdown.StartClockFields | static/js/progress.js:358-367 | without a colon in the display the clock is the duration field's minutes and 0 seconds; with one, the minutes are read before the first colon and the seconds between it and the next colon or the end |
| Countdown.StartClockOfFormat | static/js/progress.js:358-367 | parsing a clock as the countdown displays it (line 407) gives back the clock, whatever the duration field holds |
| Countdown.Tick | static/js/progress.js:386-404 | at 0:00 the countdown finishes and otherwise it runs; a running tick removes exactly one second, borrowing a minute at zero seconds, and stays non-negative |
| Countdown.CountdownLength | static/js/progress.js:385-408 | from a non-negative clock the countdown keeps running for `60 * m + s` ticks, shows 0:00 after them, and finishes on the next |
| Countdown.DurationTextStarts | static/js/progress.js:224-226 | the text `${duration}:00` starts a countdown of `duration` minutes and no seconds |
| Countdown.ResumeFromDisplay | static/js/progress.js:358-407 | the text a tick writes restarts the countdown at the same clock |
| Countdown.AddAllowed | static/js/progress.js:41-44 | the add dialog submits exactly when the title is non-empty and `parseInt` of the duration is a number greater than 0 |
| Countdown.RenameAllowed | static/js/progress.js:77-79 | the rename dialog submits exactly when the title is non-empty and a rename target was chosen |
| Countdown.TaskTimers.constructor | static/js/progress.js:3 | the `timers` object starts empty, with no live interval |
| Countdown.TaskTimers.ToggleTaskTimer | static/js/progress.js:333-411 | a running countdown is paused and its entry removed; otherwise an entry is added from the start clock when it has time left, and nothing happens when it has none; each entry has exactly one live interval |
| Countdown.TaskTimers.OnInterval | static/js/progress.js:385-408 | one callback applies `Tick`: at 0:00 it raises the alarm and removes the entry, otherwise it stores and shows the stepped clock |
| Countdown.TaskTimers.OnTaskDeleted | static/js/progress.js:168-173 | after a delete reply the task has no entry and no live interval; other entries are untouched |
| Countdown.TaskTimers.DurationDisplay | static/js/progress.js:221-226 | the display is reset exactly when the task has no running countdown, to a text that a later start reads as `duration` minutes |
| Firmware.Receive | 51/main.c:180-187 | the byte is stored at the index; the frame completes exactly on a newline or in the last slot, otherwise the index moves on; nothing else in the buffer changes |
| Firmware.FeedPartial | 51/main.c:180-187 | up to 19 bytes without a newline fill the buffer from the start and leave the index after them |
| Firmware.FeedFrame | 51/main.c:180-187 | a frame of up to 20 bytes ending in its only newline is received whole, with the index at the newline |
| Firmware.FirstCommand | 51/main.c:118-141 | the first position holding a `P` with a byte after it, or an `S`; None exactly when there is no such position |
| Firmware.ParseFrame | 51/main.c:114-142 | no command leaves everything unchanged; otherwise the first command decides: a `P` with a byte after it sets the rate to that raw byte, capped at 100, and acknowledges `P`; an `S` raises the sound flag and acknowledges `S`; the rate stays within 0..100 |
| Firmware.ParseRateFrame | 51/main.c:120-125 | a frame starting with `P` and at least two bytes long sets the rate from its second byte, capped at 100, whatever follows |
| Firmware.NextPosition | 51/main.c:203-206 | positions 0 to 3 advance by one and 4 wraps to 1, so the result is in 1..4 |
| Firmware.PositionCycle | 51/main.c:203-206 | four interrupts visit each of the positions 1 to 4 once and come back |
| Firmware.DigitsOf | 51/main.c:209-211 | hundreds, tens and units recompose the rate, each a single digit |
| Firmware.Show | 51/main.c:214-239 | position 1 is blank exactly below 100, position 2 exactly below 10, position 3 always shows the units and position 4 the percent sign |
| Firmware.DisplaySpellsRate | 51/main.c:214-239 | read left to right, the lit positions spell the rate in decimal followed by `%` |
| Firmware.Board.constructor | 51/main.c:33-38 | the board's globals start at zero: rate 0, empty receiver, position 0, no sound, a zeroed buffer |
| Firmware.Board.SerialIsr | 51/main.c:175-193 | the interrupt changes the receive state as `Receive` says and nothing else |
| Firmware.Board.ParseData | 51/main.c:114-142 | the scan loop leaves rate, sound flag and acknowledgement as `ParseFrame` says |
| Firmware.Board.MainLoopStep | 51/main.c:77-90 | a complete frame is parsed and the receiver reset; a raised sound flag beeps and is cleared; with no frame nothing else changes |
| Firmware.Board.Timer0Isr | 51/main.c:196-240 | the position advances as `NextPosition` says and the segment shown is `Show` of the new position |
| Protocol.Encode | app.py:90 | `command.encode()` of an ASCII command is one byte per character, of the same code |
| Protocol.CommandBytes | app.py:84-90 | the bytes sent begin with `P`, end in their only newline, and number 3 to 5 |
| Protocol.FirstCharOfNatToString | app.py:89 | the first character of a rate's spelling is its leading digit |
| Protocol.BoardTakesFirstDigitCode | 51/main.c:120-125 | once the board has received and parsed the command of app.py:89, its rate is the character code of the first digit of the clamped rate |
| Protocol.FiftyPercentShowsAs53 | 51/main.c:121 | the backend sends `P50\n` for 50% (app.py:89), and the board's rate becomes 53 |
| Protocol.BoardAgreesOnlyAt53 | 51/main.c:118-125 | for a rate in 0..100, the board holds the rate the backend sent (app.py:84-89) if and only if the rate is 53 |
| Protocol.DialogAdmitsBlankTitle | app.py:208-210 | the add dialog (static/js/progress.js:44) submits a title of one space, which the backend rejects as empty |
| Protocol.DialogAddHasPositiveDuration | app.py:215-222 | a task that the dialog (static/js/progress.js:42-45) submits and the backend accepts has a positive duration and the same remaining time |

## Left out

- The Flask server, JSON encoding and decoding, the tasks file itself, and logging. A route gets the loaded list and returns the list it saves. A request body is modelled as optional fields of the right type. Values of other JSON types are not modelled.
- TaskList.InitTasks: the file system is a parameter. It says whether the file exists, parses, and can be created.
- The index route (`app.py:116-145`) only renders a template from `StatsOf` and sends `BoardCommand`. Both are modelled; the rendering is not.
- The audio route (`app.py:343-362`) and the server start-up, including `send_completion_rate_to_board`'s port lookup, retries and response reading (`app.py:55-114`). Only the command it writes is modelled, as `BoardCommand` and `Protocol.CommandBytes`.
- TaskList.RenameTask, TaskList.UpdateDuration, TaskList.UpdateTiming: these model the routes as if `request` were imported. As written they fail in the same way as add, described under Findings. They raise before saving and answer 500; `init_tasks` may still have created the sample file.
- TaskList.CompletionRate, TaskList.StatsOf: the rate is rounded from the exact quotient `100 * completed / total`, where app.py:129 rounds the float `(completed_tasks / total_tasks) * 100`. For the at most eight tasks the routes allow the two agree; a hand-edited file with more tasks can put the float just off a tie, and then they may differ.
- TaskList.UpdateTiming: the page sends `time_remaining` from `parseTimeDisplay`, which is fractional (minutes plus seconds / 60). Task fields are integers here, so that value and `parseTimeDisplay` are not modelled.
- The DOM, `fetch`, the `confirm` dialog, `Audio` and the alarm dialog in `progress.js`. A reply handler is modelled only by its effect on `timers` and the text it displays.
- The page's timing restore loop at start-up (`progress.js:425-429`) only calls the modelled `ToggleTaskTimer`.
- Countdown.ParseInt: JavaScript number precision, `Infinity`, and `toString` in exponent form for very large numbers are not modelled. Integers are exact, and NaN is `None`.
- Countdown.TaskTimers.ToggleTaskTimer: the interval handle is modelled by the map entry. The timer ids themselves are not modelled; they are always truthy in a browser. Interleaving of callbacks is not modelled: each callback runs to completion.
- The special function registers, the baud and timer set-up, the transmit busy-wait, `delay` and the buzzer melody in `main.c`. The acknowledgement byte is returned, and a beep is a flag.
- `display_digit` (`51/main.c:43-55`) is not modelled. As written it lacks its closing brace and does not drive the segment port. The display is modelled by which digit each position shows.
- Concurrency between the interrupts and the main loop on the board. Each interrupt and each loop pass runs to completion, one at a time.

## Findings

| source | as written | input that shows it | evidently intended | confidence | as-written member | corrected member |
|---|---|---|---|---|---|---|
| app.py:204 | `request.get_json()` is called but `request` is never imported (app.py:1 imports only `Flask, jsonify, send_file`). The NameError is caught by the `except` at app.py:246, so every add below capacity answers 500 and saves nothing. | a POST to `/add-task` with body `{"title": "a"}` on an empty list | read the JSON body and append the task | not executed | TaskList.AddTaskAsWritten, TaskList.AddTaskAsWrittenRejectsGoodRequest | TaskList.AddTask |
