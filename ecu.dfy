/** The controller process of `controlador_ecu.c`: a control loop that reads
    `POS:` samples, decides a steering command and writes it back, and a
    logger thread that periodically copies the shared telemetry record to a
    CSV file.

    The two threads touch the record only under one mutex, so each control
    cycle and each logger wake-up is an indivisible step; any run of the
    process is a sequence of such steps (`Event`s). `Run` gives what the
    process has produced after a sequence of steps, and the `Controller`
    class is the imperative state the C globals and file handles hold. */
module Ecu {
  import opened Wrappers
  import opened Decimal

  /** The steering commands the controller sends to the sensor. */
  datatype Command = Esquerda | Direita | Nada

  /** The word for each command, as stored in the record. */
  function CommandName(c: Command): string
  {
    match c
    case Esquerda => "ESQUERDA"
    case Direita => "DIREITA"
    case Nada => "NADA"
  }

  /** The line written to the control pipe for each command. */
  function CommandLine(c: Command): string
  {
    CommandName(c) + "\n"
  }

  lemma CommandLineText()
    ensures CommandLine(Esquerda) == "ESQUERDA\n"
    ensures CommandLine(Direita) == "DIREITA\n"
    ensures CommandLine(Nada) == "NADA\n"
  {
  }

  /** The decision rule: steer left above +0.5, right below -0.5, and keep
      the course in between, both thresholds themselves included. */
  function Decide(p: real): (c: Command)
    ensures c == Esquerda <==> p > 0.5
    ensures c == Direita <==> p < -0.5
    ensures c == Nada <==> -0.5 <= p <= 0.5
  {
    if p > 0.5 then Esquerda
    else if p < -0.5 then Direita
    else Nada
  }

  /** `sscanf(line, "POS:%f", &posicao_lida) == 1`: the line must begin with
      the literal `POS:`, and a number must follow. */
  function ParsePos(line: string): (r: Option<real>)
    ensures r.Some? ==> |line| >= 4 && line[..4] == "POS:"
  {
    ScanAfter("POS:", line, 0)
  }

  /** Lines the control loop accepts: the number after `POS:` is read up
      to the newline, and white space and a sign may come before it. */
  lemma AcceptedSamples()
    ensures ParsePos("POS:0.73\n") == Some(0.73)
    ensures ParsePos("POS: -0.60\n") == Some(-0.6)
  {
    assert DigitsEnd("POS:0.73\n", 6) == 8;
    assert DigitsEnd("POS: -0.60\n", 8) == 10;
  }

  /** More lines the control loop accepts: a number may start or end with
      the point, and reading stops at the first character that cannot
      continue the number. */
  lemma AcceptedLooseSamples()
    ensures ParsePos("POS:.5") == Some(0.5)
    ensures ParsePos("POS:2.x") == Some(2.0)
  {
    assert DigitsEnd("POS:.5", 5) == 6;
    var loose := "POS:2.x";
    assert DigitsEnd(loose, 6) == 6 && FractionAt(loose, 6) == 0.0 && ExponentAt(loose, 6) == 0;
    assert ScanNumber(loose, 5, 2, true) == Some(2.0);
  }

  /** A decimal exponent scales the number: `5e-2` is read as 0.05. */
  lemma ExponentSamples()
    ensures ParsePos("POS:5e-2\n") == Some(0.05)
    ensures ParsePos("POS:1E1\n") == Some(10.0)
    ensures ParsePos("POS:.5e+1\n") == Some(5.0)
  {
    assert DigitsEnd("POS:5e-2\n", 7) == 8;
    assert ExponentAt("POS:5e-2\n", 5) == -2;
    assert DigitsEnd("POS:1E1\n", 6) == 7;
    assert ExponentAt("POS:1E1\n", 5) == 1;
    assert DigitsEnd("POS:.5e+1\n", 8) == 9;
    assert DigitsEnd("POS:.5e+1\n", 5) == 6;
    assert ExponentAt("POS:.5e+1\n", 6) == 1;
  }

  /** An exponent mark with no digit after it (and after its sign, if any)
      is not part of the number. */
  lemma BareExponentSamples()
    ensures ParsePos("POS:2e\n") == Some(2.0)
    ensures ParsePos("POS:2.e-x\n") == Some(2.0)
  {
    assert DigitsEnd("POS:2.e-x\n", 6) == 6;
  }

  /** Lines the control loop skips: no digit after `POS:`, or a literal that
      does not match exactly. */
  lemma RejectedSamples()
    ensures ParsePos("POS:.\n") == None
    ensures ParsePos("POS:abc\n") == None
    ensures ParsePos("pos:0.73\n") == None
    ensures ParsePos(" POS:0.73\n") == None
  {
  }

  /** `struct Telemetria`: the shared record of the last completed cycle. */
  datatype Telemetry = Telemetry(timestamp: int, posicao: real, comando: string)

  /** The record before any cycle: the global is zero-filled and its
      timestamp is set to 0, the "no cycle yet" sentinel. */
  const Initial := Telemetry(0, 0.0, "")

  /** The first line the logger writes to its file: the three column
      names, each separated from the next by a comma and a space. */
  const Header := "Timestamp" + ", " + "PosicaoLida" + ", " + "ComandoEnviado" + "\n"

  /** One data row of the log, `"%ld,%.2f,%s\n"`. */
  function RowLine(t: Telemetry): string
  {
    IntText(t.timestamp) + "," + Fixed2(t.posicao) + "," + t.comando + "\n"
  }

  /** The record a cycle commits for an input line read at time `now`, or
      nothing when the line is not a sample. */
  function Commit(line: string, now: int): Option<Telemetry>
  {
    match ParsePos(line)
    case None => None
    case Some(p) => Some(Telemetry(now, p, CommandName(Decide(p))))
  }

  /** One indivisible step of the process: a control cycle on a line read
      at time `now`, or a wake-up of the logger. */
  datatype Event = Sample(line: string, now: int) | Tick

  /** What the two threads have produced: the shared record, the lines sent
      on the control pipe and the snapshots the logger wrote out. */
  datatype Outputs = Outputs(record: Telemetry, sent: seq<string>, logged: seq<Telemetry>)

  function Step(o: Outputs, e: Event): Outputs
  {
    match e
    case Sample(line, now) =>
      (match Commit(line, now)
       case None => o
       case Some(t) => Outputs(t, o.sent + [t.comando + "\n"], o.logged))
    case Tick =>
      if o.record.timestamp != 0 then o.(logged := o.logged + [o.record]) else o
  }

  /** The outputs after a sequence of steps, from the initial record. */
  function Run(events: seq<Event>): Outputs
  {
    if events == [] then Outputs(Initial, [], [])
    else Step(Run(events[..|events| - 1]), events[|events| - 1])
  }

  /** Every record a control cycle committed, in order. */
  function Committed(events: seq<Event>): seq<Telemetry>
  {
    if events == [] then []
    else
      var e := events[|events| - 1];
      var before := Committed(events[..|events| - 1]);
      if e.Sample? && Commit(e.line, e.now).Some? then before + [Commit(e.line, e.now).value] else before
  }

  /** How many times the logger woke up. */
  function Ticks(events: seq<Event>): nat
  {
    if events == [] then 0
    else Ticks(events[..|events| - 1]) + (if events[|events| - 1].Tick? then 1 else 0)
  }

  /** The sample lines alone, with the logger's wake-ups left out. */
  function Samples(events: seq<Event>): seq<Event>
  {
    if events == [] then []
    else
      var e := events[|events| - 1];
      Samples(events[..|events| - 1]) + (if e.Sample? then [e] else [])
  }

  /** The lines of the log file: the header, then one row per snapshot
      written; no file at all when the logger could not create it. */
  function LogFile(created: bool, logged: seq<Telemetry>): seq<string>
  {
    if created then [Header] + RowLines(logged) else []
  }

  function RowLines(logged: seq<Telemetry>): seq<string>
  {
    if logged == [] then [] else RowLines(logged[..|logged| - 1]) + [RowLine(logged[|logged| - 1])]
  }

  lemma LogFileAppend(created: bool, logged: seq<Telemetry>, t: Telemetry)
    ensures LogFile(created, logged + [t]) == LogFile(created, logged) + (if created then [RowLine(t)] else [])
  {
    var longer := logged + [t];
    assert longer[..|longer| - 1] == logged && longer[|longer| - 1] == t;
    assert RowLines(longer) == RowLines(logged) + [RowLine(t)];
  }

  lemma RunAppend(events: seq<Event>, e: Event)
    ensures Run(events + [e]) == Step(Run(events), e)
    ensures Committed(events + [e])
         == Committed(events) + (if e.Sample? && Commit(e.line, e.now).Some? then [Commit(e.line, e.now).value] else [])
    ensures Ticks(events + [e]) == Ticks(events) + (if e.Tick? then 1 else 0)
  {
    assert (events + [e])[..|events|] == events;
  }

  /** A control cycle on a sample sends exactly one command line and
      replaces the whole record with the time, the position and that same
      command; any other line changes nothing. */
  lemma CycleEffect(o: Outputs, line: string, now: int)
    ensures var o' := Step(o, Sample(line, now));
      match ParsePos(line)
      case None => o' == o
      case Some(p) =>
        o' == Outputs(Telemetry(now, p, CommandName(Decide(p))), o.sent + [CommandLine(Decide(p))], o.logged)
  {
  }

  /** A cycle on a sample right of the lane band sends `ESQUERDA`, one left
      of it sends `DIREITA`, and one inside it sends `NADA`. */
  lemma CommandExamples(o: Outputs, now: int)
    ensures Step(o, Sample("POS:0.73\n", now)).sent == o.sent + ["ESQUERDA\n"]
    ensures Step(o, Sample("POS:-0.80\n", now)).sent == o.sent + ["DIREITA\n"]
    ensures Step(o, Sample("POS:0.10\n", now)).sent == o.sent + ["NADA\n"]
  {
    AcceptedSamples();
    BandSamples();
    CommandLineText();
    CycleEffect(o, "POS:0.73\n", now);
    CycleEffect(o, "POS:-0.80\n", now);
    CycleEffect(o, "POS:0.10\n", now);
  }

  lemma BandSamples()
    ensures ParsePos("POS:-0.80\n") == Some(-0.8)
    ensures ParsePos("POS:0.10\n") == Some(0.1)
  {
    var left := "POS:-0.80\n";
    assert DigitsEnd(left, 7) == 9 && FractionAt(left, 7) == 0.8 && ExponentAt(left, 9) == 0;
    assert ScanNumber(left, 6, 0, true) == Some(0.8);
    assert ScanNumber(left, 5, 0, false) == Some(0.8);
    assert ScanFloatAt(left, 4) == Some(-0.8);
    assert DigitsEnd("POS:0.10\n", 6) == 8;
  }

  lemma ScenarioSamples()
    ensures ParsePos("POS:0.0\n") == Some(0.0)
    ensures ParsePos("POS:0.6\n") == Some(0.6)
    ensures ParsePos("POS:-0.6\n") == Some(-0.6)
  {
    assert DigitsEnd("POS:0.0\n", 6) == 7;
    assert DigitsEnd("POS:0.6\n", 6) == 7;
    assert DigitsEnd("POS:-0.6\n", 7) == 8;
  }

  /** Three samples in a row, at times `t1`, `t2` and `t3`: the commands sent
      follow the samples, and the record is the last cycle's. */
  lemma ScenarioRun(t1: int, t2: int, t3: int)
    ensures var o := Run([Sample("POS:0.0\n", t1), Sample("POS:0.6\n", t2), Sample("POS:-0.6\n", t3)]);
      o.sent == ["NADA\n", "ESQUERDA\n", "DIREITA\n"] && o.record == Telemetry(t3, -0.6, "DIREITA")
  {
    var e1, e2, e3 := Sample("POS:0.0\n", t1), Sample("POS:0.6\n", t2), Sample("POS:-0.6\n", t3);
    ScenarioSamples();
    CommandLineText();
    var o0 := Run([]);
    RunAppend([], e1);
    assert [] + [e1] == [e1];
    CycleEffect(o0, e1.line, t1);
    var o1 := Run([e1]);
    assert o1.sent == ["NADA\n"];
    RunAppend([e1], e2);
    assert [e1] + [e2] == [e1, e2];
    CycleEffect(o1, e2.line, t2);
    var o2 := Run([e1, e2]);
    assert o2.sent == ["NADA\n", "ESQUERDA\n"];
    RunAppend([e1, e2], e3);
    assert [e1, e2] + [e3] == [e1, e2, e3];
    CycleEffect(o2, e3.line, t3);
  }

  predicate IsCommandName(s: string)
  {
    s == "ESQUERDA" || s == "DIREITA" || s == "NADA"
  }

  /** The record always holds the last committed cycle (or the initial
      record), and the command lines sent are exactly the commands stored
      by the committed cycles, one per cycle and in order. */
  lemma {:induction false} RunMatchesCommitted(events: seq<Event>)
    ensures var o, cs := Run(events), Committed(events);
      (cs == [] ==> o.record == Initial) &&
      (cs != [] ==> o.record == cs[|cs| - 1]) &&
      |o.sent| == |cs| &&
      (forall i :: 0 <= i < |cs| ==> o.sent[i] == cs[i].comando + "\n" && IsCommandName(cs[i].comando))
  {
    if events != [] {
      var init, e := events[..|events| - 1], events[|events| - 1];
      assert events == init + [e];
      RunAppend(init, e);
      RunMatchesCommitted(init);
    }
  }

  /** `ix` picks, for each element of `xs`, an element of `ys` equal to it,
      never going back in `ys` (elements may be repeated or skipped). */
  ghost predicate PicksInOrder<T>(xs: seq<T>, ys: seq<T>, ix: seq<nat>)
  {
    |ix| == |xs| &&
    (forall i :: 0 <= i < |ix| ==> ix[i] < |ys| && xs[i] == ys[ix[i]]) &&
    (forall i, j :: 0 <= i <= j < |ix| ==> ix[i] <= ix[j])
  }

  /** `xs` is a possibly repeating, possibly sparse subsequence of `ys`. */
  ghost predicate StutteringSubsequence<T>(xs: seq<T>, ys: seq<T>)
  {
    exists ix :: PicksInOrder(xs, ys, ix)
  }

  lemma PicksFromLonger<T>(xs: seq<T>, ys: seq<T>, zs: seq<T>, ix: seq<nat>)
    requires PicksInOrder(xs, ys, ix)
    ensures PicksInOrder(xs, ys + zs, ix)
  {
    assert forall i :: 0 <= i < |ix| ==> (ys + zs)[ix[i]] == ys[ix[i]];
  }

  lemma PicksLastAgain<T>(xs: seq<T>, ys: seq<T>, ix: seq<nat>)
    requires PicksInOrder(xs, ys, ix) && ys != []
    ensures PicksInOrder(xs + [ys[|ys| - 1]], ys, ix + [|ys| - 1])
  {
  }

  /** The logger never fabricates a row: every snapshot it wrote is a
      record some cycle committed, with a non-zero time, in commit order
      (possibly repeated, possibly skipping some); and it wrote at most one
      per wake-up. */
  lemma {:induction false} LoggedAreCommitted(events: seq<Event>)
    ensures StutteringSubsequence(Run(events).logged, Committed(events))
    ensures forall i :: 0 <= i < |Run(events).logged| ==> Run(events).logged[i].timestamp != 0
    ensures |Run(events).logged| <= Ticks(events)
  {
    if events == [] {
      assert PicksInOrder<Telemetry>([], [], []);
    } else {
      var init, e := events[..|events| - 1], events[|events| - 1];
      assert events == init + [e];
      RunAppend(init, e);
      LoggedAreCommitted(init);
      RunMatchesCommitted(init);
      var o, cs := Run(init), Committed(init);
      var ix: seq<nat> :| PicksInOrder(o.logged, cs, ix);
      var added := if e.Sample? && Commit(e.line, e.now).Some? then [Commit(e.line, e.now).value] else [];
      PicksFromLonger(o.logged, cs, added, ix);
      if e.Tick? && o.record.timestamp != 0 {
        PicksLastAgain(o.logged, cs, ix);
        assert PicksInOrder(Run(events).logged, Committed(events), ix + [|cs| - 1]);
      } else {
        assert PicksInOrder(Run(events).logged, Committed(events), ix);
      }
    }
  }

  /** The logger never influences the control path: the record and the
      commands sent depend on the sample lines alone. */
  lemma {:induction false} TicksDoNotAffectControl(events: seq<Event>)
    ensures Run(events).record == Run(Samples(events)).record
    ensures Run(events).sent == Run(Samples(events)).sent
  {
    if events != [] {
      var init, e := events[..|events| - 1], events[|events| - 1];
      assert events == init + [e];
      RunAppend(init, e);
      TicksDoNotAffectControl(init);
      if e.Sample? {
        assert Samples(events) == Samples(init) + [e];
        RunAppend(Samples(init), e);
      } else {
        assert Samples(events) == Samples(init);
      }
    }
  }

  /** The resources `main` acquires before the control loop starts. */
  datatype Environment = Environment(
    mutexInits: bool,         // pthread_mutex_init succeeds
    sensorPipeOpens: bool,    // fopen("/tmp/sensor_pipe", "r") succeeds
    controlPipeOpens: bool,   // fopen("/tmp/control_pipe", "w") succeeds
    threadStarts: bool,       // pthread_create succeeds
    logFileOpens: bool)       // the logger's fopen("telemetria_log.csv", "w") succeeds

  predicate StartsUp(env: Environment)
  {
    env.mutexInits && env.sensorPipeOpens && env.controlPipeOpens && env.threadStarts
  }

  /** The file handles `main` closes on the way out. */
  datatype Handle = SensorPipe | ControlPipe

  /** The controller's shared state: the telemetry record, the control pipe
      and the logger's file. */
  class Controller {
    var record: Telemetry      // g_dados_telemetria
    var sent: seq<string>      // lines written to the control pipe
    var logFile: seq<string>   // lines written to telemetria_log.csv
    var loggerAlive: bool      // the logger created its file and is looping
    ghost var events: seq<Event>

    ghost predicate Valid()
      reads this
    {
      var o := Run(events);
      record == o.record && sent == o.sent && logFile == LogFile(loggerAlive, o.logged)
    }

    /** The state once `main` has zeroed the record and the logger thread
        has tried to create its file (writing the header if it could). */
    constructor (logFileOpens: bool)
      ensures Valid() && events == []
      ensures record == Initial && sent == []
      ensures loggerAlive == logFileOpens && logFile == LogFile(logFileOpens, [])
    {
      record := Telemetry(0, 0.0, "");
      sent := [];
      loggerAlive := logFileOpens;
      logFile := if logFileOpens then [Header] else [];
      events := [];
    }

    /** One pass of the control loop on a line read from the sensor pipe
        at time `now`; returns the line written to the control pipe. */
    method Cycle(line: string, now: int) returns (written: Option<string>)
      requires Valid()
      modifies this
      ensures Valid() && events == old(events) + [Sample(line, now)]
      ensures loggerAlive == old(loggerAlive) && logFile == old(logFile)
      ensures match ParsePos(line)
        case None =>
          written == None && record == old(record) && sent == old(sent)
        case Some(p) =>
          written == Some(CommandLine(Decide(p))) &&
          record == Telemetry(now, p, CommandName(Decide(p))) &&
          sent == old(sent) + [CommandLine(Decide(p))]
    {
      CommandLineText();
      var parsed := ParsePos(line);
      written := None;
      if parsed.Some? {
        var posicao := parsed.value;
        var current: string;
        if posicao > 0.5 {
          written := Some("ESQUERDA\n");
          current := "ESQUERDA";
        } else if posicao < -0.5 {
          written := Some("DIREITA\n");
          current := "DIREITA";
        } else {
          written := Some("NADA\n");
          current := "NADA";
        }
        sent := sent + [written.value];
        record := Telemetry(now, posicao, current);
      }
      RunAppend(events, Sample(line, now));
      events := events + [Sample(line, now)];
    }

    /** One wake-up of the logger thread: copy the record, then append a
        row for the copy unless no cycle has completed yet. */
    method LoggerTick()
      requires Valid()
      modifies this`logFile, this`events
      ensures Valid() && events == old(events) + [Tick]
      ensures logFile == old(logFile) + (if loggerAlive && record.timestamp != 0 then [RowLine(record)] else [])
    {
      var snapshot := record;
      if loggerAlive && snapshot.timestamp != 0 {
        logFile := logFile + [RowLine(snapshot)];
      }
      RunAppend(events, Tick);
      LogFileAppend(loggerAlive, Run(events).logged, snapshot);
      events := events + [Tick];
    }

    /** One step of whichever thread takes the mutex next. */
    method Deliver(e: Event)
      requires Valid()
      modifies this
      ensures Valid() && events == old(events) + [e] && loggerAlive == old(loggerAlive)
    {
      match e {
        case Sample(line, now) =>
          var _ := Cycle(line, now);
        case Tick =>
          LoggerTick();
      }
    }
  }

  /** `main`: acquire the resources, run the control loop over the given
      interleaving of input lines and logger wake-ups until the sensor pipe
      ends, then close both pipes and cancel the logger. Returns the exit
      status, what was written to the control pipe and to the log file, and
      the handles closed, in order. */
  method RunController(env: Environment, events: seq<Event>)
    returns (status: int, sent: seq<string>, logFile: seq<string>, closed: seq<Handle>)
    ensures status == (if StartsUp(env) then 0 else 1)
    ensures !StartsUp(env) ==> sent == [] && logFile == [] && closed == []
    ensures StartsUp(env) ==>
      sent == Run(events).sent &&
      logFile == LogFile(env.logFileOpens, Run(events).logged) &&
      closed == [SensorPipe, ControlPipe]
  {
    if !env.mutexInits {
      return 1, [], [], [];
    }
    if !env.sensorPipeOpens || !env.controlPipeOpens {
      return 1, [], [], [];
    }
    if !env.threadStarts {
      return 1, [], [], [];
    }
    var controller := new Controller(env.logFileOpens);
    var i := 0;
    while i < |events|
      invariant 0 <= i <= |events|
      invariant controller.Valid() && controller.events == events[..i]
      invariant controller.loggerAlive == env.logFileOpens
    {
      controller.Deliver(events[i]);
      assert events[..i + 1] == events[..i] + [events[i]];
      i := i + 1;
    }
    assert events[..i] == events;
    closed := [SensorPipe, ControlPipe];
    status, sent, logFile := 0, controller.sent, controller.logFile;
  }
}
