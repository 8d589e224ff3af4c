# Lane-keep simulator: a verified model

The model covers the two C programs of the lane-keep simulator and the loop they form together:

- **`sensor.c`, the vehicle simulator.** The position in the lane is `posicao_pista`. Before each sample it drifts right by 0.05. The simulator writes `POS:<position>` (`%.2f`) to the sensor pipe. It then reads one command line back from the control pipe:
  - `ESQUERDA` moves the position by -0.10;
  - `DIREITA` moves it by +0.10;
  - anything else leaves it unchanged.
- **`controlador_ecu.c`, the controller (ECU).** Its main thread reads sample lines. It accepts a line only when `sscanf(line, "POS:%f")` succeeds, then decides:
  - above +0.5: `ESQUERDA`;
  - below -0.5: `DIREITA`;
  - otherwise: `NADA`.

  It writes the command line to the control pipe and stores time, position and command in the shared record `g_dados_telemetria`, under the mutex. A logger thread creates `telemetria_log.csv` and writes its header. On every wake-up it copies the record under the mutex and appends a `%ld,%.2f,%s` row, unless no cycle has stamped the record yet (timestamp 0).

The Dafny modules:

| module | file | contents |
|---|---|---|
| `Decimal` | `decimal.dfy` | The three C conversions the programs use on the wire and in the log, with their round trip. `%ld` and `%.2f` of `printf`. The `%f` conversion of `sscanf`, written as a cursor-based scanner. |
| `Ecu` | `ecu.dfy` | The controller's state is the class `Controller`: record, control pipe, log file, and whether the logger is alive. A control cycle and a logger wake-up are its methods. A pure fold `Run` over the interleaving of those two atomic steps is the reference the class is proved against. Lemmas state what the logger can and cannot write. `RunController` is `main`, from acquiring resources to closing the pipes. |
| `Sensor` | `sensor.dfy` | The simulator's state is the class `Vehicle`: position in hundredths and the sensor pipe. Its loop, `RunVehicle`, is proved against the functions `PositionAfter` and `SamplesAfter`. |
| `ClosedLoop` | `closed_loop.dfy` | Both programs connected by their pipes: one round is drift, sample, decide, steer. `Simulate` runs them, proved against `PositionAt`, `SamplesUpTo` and `SentUpTo`. The simulator's own loop, fed the controller's lines, follows the same positions and samples. From the centre of the lane, the position stays in [0.00, 0.50], every sample read is in [0.05, 0.55], and `DIREITA` is never sent. |

Timing, threads and the clock become inputs:
- The order in which the control thread and the logger take the mutex is a sequence of events, `Sample(line, now)` or `Tick`. Each event is one critical section run to completion.
- `time(NULL)` is the `now` carried by each sample.
- The simulator's loop and the controller's reads are cut after as many rounds as the caller gives.

## Model

| member | source | states |
|---|---|---|
| Decimal.NatText | controlador_ecu.c:57-60 | The digits of a non-negative integer: at least one, all decimal, no leading zero, and they denote the number. |
| Decimal.IntTextDigits | controlador_ecu.c:57-58 | `%ld`: a leading minus exactly for negative values, then the digits of the magnitude, which denote it and have no leading zero. |
| Decimal.RoundHalfEven | sensor.c:39 | The rounding `%.2f` applies: the result is within one half of the value, and an exact tie goes to the even integer. |
| Decimal.RoundHalfEvenExact | sensor.c:39 | Rounding leaves an integer unchanged. |
| Decimal.Fixed2OfHundredths | sensor.c:39 | On a whole number of hundredths, `%.2f` is exact: sign, integer part, point, two digits. |
| Decimal.FractionAt | controlador_ecu.c:124 | The fraction digits `%f` reads denote a value in [0, 1). |
| Decimal.ScanAfter | controlador_ecu.c:124 | Matching a literal before `%f`: success implies the text begins with the whole literal. |
| Decimal.ScanAfterLiteral | controlador_ecu.c:124 | Once the text begins with the literal, the result is `%f` read just after the literal. |
| Decimal.ScanDigits | controlador_ecu.c:124 | A run of digits is consumed in one go, accumulating its decimal value. |
| Decimal.ValueOfOccurrence | controlador_ecu.c:124 | Digits found in the input accumulate to the value of those digits. |
| Decimal.FractionOfTwoDigits | controlador_ecu.c:124 | Two fraction digits followed by a non-digit read as their hundredths. |
| Decimal.ScanPointNumber | controlador_ecu.c:124 | Integer digits, a point and two fraction digits read as integer part plus hundredths. |
| Decimal.ScanTwoDigitFraction | controlador_ecu.c:124 | A point and two digits, followed by neither a digit nor an exponent mark, end the number: it reads as the digits before the point plus those hundredths. |
| Decimal.ScanUnsignedText | controlador_ecu.c:124 | Where the `%.2f` text of `a` hundredths appears, `%f` reads exactly `a / 100`. |
| Decimal.ScanMagnitudeAt | controlador_ecu.c:124 | Where the signed `%.2f` text of `h` hundredths appears, it starts with a minus exactly when `h` is negative, and the number after the sign reads as the magnitude of `h / 100`. |
| Decimal.ScanHundredthsAt | controlador_ecu.c:124 | Where the signed `%.2f` text of `h` hundredths appears, not followed by a digit or an exponent mark, `%f` reads exactly `h / 100`. |
| Decimal.ScanHundredths | controlador_ecu.c:124 | Round trip: `%f` reads back `h / 100` from the `%.2f` text of `h` hundredths followed by anything that does not continue a number (no digit, no `e` or `E`). |
| Decimal.ScanFixed2 | sensor.c:39 | The same round trip on `Fixed2` itself, the `%.2f` conversion of the value. |
| Decimal.ScanAfterHundredths | controlador_ecu.c:124 | A line made of a literal, the `%.2f` text and a tail that does not continue the number is read back exactly by literal-then-`%f`. |
| Ecu.Decide | controlador_ecu.c:129-141 | `ESQUERDA` if and only if the position is above 0.5. `DIREITA` if and only if below -0.5. `NADA` if and only if in [-0.5, 0.5], both thresholds included. |
| Ecu.ParsePos | controlador_ecu.c:124 | A line is accepted only if it begins with `POS:`. |
| Ecu.ExponentSamples | controlador_ecu.c:124 | A decimal exponent scales the number: `POS:5e-2`, `POS:1E1` and `POS:.5e+1` read as 0.05, 10 and 5. |
| Ecu.BareExponentSamples | controlador_ecu.c:124 | An `e` with no digit after it (or after its sign) is not part of the number: `POS:2e` and `POS:2.e-x` read as 2. |
| Ecu.AcceptedSamples | controlador_ecu.c:124 | `POS:0.73` and `POS: -0.60` (the space skipped by `%f`) read as 0.73 and -0.6. |
| Ecu.AcceptedLooseSamples | controlador_ecu.c:124 | `POS:.5` reads as 0.5. `POS:2.x` reads as 2.0, trailing junk ignored. |
| Ecu.RejectedSamples | controlador_ecu.c:124 | Rejected: `POS:.`, `POS:abc`, lower-case `pos:`, and a leading space before `POS:`. |
| Ecu.BandSamples | controlador_ecu.c:124 | `POS:-0.80` and `POS:0.10` read as -0.8 and 0.1. |
| Ecu.CommandExamples | controlador_ecu.c:124-141 | A cycle sends `ESQUERDA` on `POS:0.73`, `DIREITA` on `POS:-0.80` and `NADA` on `POS:0.10`. |
| Ecu.ScenarioSamples | controlador_ecu.c:124 | `POS:0.0`, `POS:0.6` and `POS:-0.6` read as 0.0, 0.6 and -0.6. |
| Ecu.ScenarioRun | controlador_ecu.c:122-158 | The samples 0.0, 0.6, -0.6 make the controller send `NADA`, `ESQUERDA`, `DIREITA`. The record is then the last cycle's time, -0.6 and `DIREITA`. |
| Ecu.RunMatchesCommitted | controlador_ecu.c:129-156 | The record is the last committed cycle, or the initial record. The lines sent are the committed commands, one per cycle, in order, each one of the three words. |
| Ecu.LoggedAreCommitted | controlador_ecu.c:43-65 | Every logged row is a committed record with a non-zero time. Rows follow commit order and may be repeated or skipped. There is at most one row per wake-up. |
| Ecu.TicksDoNotAffectControl | controlador_ecu.c:47-53 | The logger never influences control: record and commands sent depend only on the sample lines. |
| Ecu.Controller.constructor | controlador_ecu.c:32-40 | Record zeroed, nothing sent. The log file holds the header exactly when the logger could create it. |
| Ecu.Controller.Cycle | controlador_ecu.c:122-158 | One control pass: the decided line is written and the record replaced, or on a rejected line nothing happens. The log file is untouched. The class stays equal to `Run` of its history. |
| Ecu.Controller.LoggerTick | controlador_ecu.c:43-65 | One wake-up appends `RowLine(record)` exactly when the logger is alive and the record is stamped. The class stays equal to `Run` of its history. |
| Ecu.Controller.Deliver | controlador_ecu.c:47-156 | Whichever thread takes the mutex runs its critical section. The class stays equal to `Run` of its history. |
| Ecu.RunController | controlador_ecu.c:77-174 | `main`: exit status 1 with no output if the mutex, either pipe or the thread fails. Otherwise status 0, the control pipe holds `Run(events).sent`, the log file holds header plus rows (if created), and both pipes are closed, sensor pipe first. |
| Sensor.CommandText | sensor.c:53 | The text `strcmp` compares is a prefix of the line, cut at a newline or NUL or at the end of the line. |
| Sensor.CommandTextStops | sensor.c:53 | That prefix contains no newline and no NUL, so it is cut at the first one. |
| Sensor.CommandTextAfterWord | sensor.c:53 | A word without newline or NUL is kept whole in front of what follows it. |
| Sensor.WordObeyedOnlyAlone | sensor.c:53-66 | `ESQUERDA` or `DIREITA` moves the position only when followed by a newline, a NUL or nothing. Any other character after it leaves the position unchanged. |
| Sensor.Vehicle.constructor | sensor.c:13 | The position starts at the centre, 0.0, and nothing has been written. |
| Sensor.Vehicle.Emit | sensor.c:35-40 | The position drifts by +0.05. Then exactly the `POS:%.2f` line of the drifted position is written. |
| Sensor.Vehicle.ApplyReply | sensor.c:47-67 | The position becomes `Corrected` of the line read back. No line (end of pipe) changes nothing. |
| Sensor.RunVehicle | sensor.c:33-71 | The loop writes exactly `SamplesAfter(replies)` and ends at `PositionAfter(replies)`. |
| ClosedLoop.SampleParses | sensor.c:39 | The controller reads back exactly the position the simulator wrote. |
| ClosedLoop.CommandLineObeyed | sensor.c:53-66 | Each of the controller's three command lines moves the simulator by -0.10, +0.10 or 0. |
| ClosedLoop.RoundStaysInLane | sensor.c:35-66 | From a corrected position in [0.00, 0.50], the controller does not send `DIREITA` and the next corrected position is in [0.00, 0.50]. |
| ClosedLoop.NeverSteersRight | sensor.c:59-62 | Started from the centre, the position stays in [0.00, 0.50], one line is sent per round, and `DIREITA` is never sent. |
| ClosedLoop.SampleInBand | sensor.c:35-39 | The sample of every round is accepted by the controller, which reads the value the simulator wrote, in [0.05, 0.55]. |
| ClosedLoop.SamplesInBand | sensor.c:35-39 | Every sample line the simulator writes in the first `n` rounds (`SamplesUpTo(n)`) is accepted by the controller, with a value in [0.05, 0.55]. |
| ClosedLoop.RoundBack | sensor.c:47-66 | The simulator's correction by the controller's reply is the model round. |
| ClosedLoop.SentObeyed | sensor.c:47-66 | The line the controller sent in round `k` moves the simulator from that round's drifted position to the next corrected position. |
| ClosedLoop.PositionsAgree | sensor.c:33-67 | Fed replies that take it round by round along the closed loop, the simulator's own loop (`PositionAfter`) ends at the closed loop's position. |
| ClosedLoop.SamplesAgree | sensor.c:33-67 | Fed such replies, the simulator's own loop samples exactly the positions of the closed loop. |
| ClosedLoop.SentFollowsLoop | sensor.c:47-66 | The lines the controller sends are such replies. |
| ClosedLoop.VehiclePositionsFollowLoop | sensor.c:33-71 | The simulator's loop fed the controller's lines ends at `PositionAt(n)`: the two definitions of the simulator's iteration agree. |
| ClosedLoop.VehicleSamplesFollowLoop | sensor.c:33-71 | The simulator's loop fed the controller's lines writes exactly `SamplesUpTo(n)`. |
| ClosedLoop.PlayRound | sensor.c:33-67 | One round of both processes advances the vehicle to `PositionAt(i + 1)` and the control pipe to `SentUpTo(i + 1)`. The simulator has written exactly the round's sample line, the controller's record is that round's reading and command stamped `now`, and the log file and logger are unchanged. |
| ClosedLoop.PlayFirstRounds | sensor.c:33-71 | After the first `n` rounds, the position, the lines sent and the sample lines written are the reference ones, and the log file and logger are unchanged. |
| ClosedLoop.PlayRounds | sensor.c:33-71 | After one round per clock reading, the position, the lines sent and the sample lines written are the reference ones. The record is the last round's, stamped with the last clock reading, or the initial one when there was no round. The log file and logger are unchanged. |
| ClosedLoop.Simulate | sensor.c:13-71 | Both programs, started fresh and connected, exchange the sample lines `SamplesUpTo(n)` and the command lines `SentUpTo(n)`. They leave the vehicle at `PositionAt(n)` and the record at the last round's, or zeroed when there was no round. |

## Left out

- Threads, the mutex and `sleep` are not modelled as such. The control thread and the logger are interleaved atomic events whose order is a parameter. Each event is one whole critical section, so torn reads of the record cannot occur. This is what the mutex ensures.
- `pthread_cancel` and `pthread_mutex_destroy` at the end of `main` have no observable output here. `RunController` stops the logger by consuming no more events.
- `time(NULL)` is the `now` of each sample. Timestamps are not assumed positive or increasing. A cycle stamped with time 0 is therefore not logged, as in the code.
- The `printf` and `perror` console messages of both programs are diagnostics and are not modelled.
- Ecu.ParsePos: `%f` is read as a decimal number: optional white space and sign, digits, optional point and fraction, optional decimal exponent. `inf`, `infinity` and `nan` are rejected here, although `sscanf` accepts them.
- Ecu.ParsePos: hexadecimal floats are not read as such. The model stops at the `x` of `POS:0x10` and reads 0, where `sscanf` reads 16.
- Ecu.ParsePos: the value is exact, so a huge exponent gives a huge value; the overflow of `float` to infinity and underflow to zero are not modelled.
- Ecu.Decide: the position is the exact decimal value read, not the nearest `float`. An input within `float` precision of ±0.5 (such as 0.500000001) can be decided differently by the C program.
- Ecu.Controller.LoggerTick: the row prints the exact value with `%.2f`, not the `float` stored in the record. A value whose `float` rounds to the other side of a hundredths tie can print differently.
- Sensor.Vehicle.Emit: the position is an exact number of hundredths. The program accumulates `float` additions of 0.05 and -0.10, whose rounding error is not modelled. After enough rounds the printed value could differ by one hundredth.
- The `fgets` buffers are 100 bytes. A line of 99 or more characters is read in several pieces; the model reads every line whole.
- `comando_enviado[20]` and `comando_atual[20]` always hold one of the three words, so their length limit never matters.
- Sensor.RunVehicle: the simulator's `while (1)` loop is cut after one iteration per reply, and its final `fclose` calls are unreachable.
- The simulator's `fopen` failure path (sensor.c:26-29, exit status 1 before any sample) is not modelled. `RunVehicle` and `Simulate` start with both pipes open.
- `Simulate` starts both programs with every resource acquired: the logger's file created, and the pipes and thread set up.

Facts about the log file that the model keeps from the code:
- The log header is `Timestamp, PosicaoLida, ComandoEnviado`, with a space after each comma.
- The logger thread creates the log file itself. If it cannot, only the logger ends and control goes on.
- The log file is never closed by the program's own code: the `fclose` after the logger's infinite loop is unreachable, and `RunController` closes only the two pipes. Only the C library's `exit` processing, which the model leaves out, flushes and closes it.
