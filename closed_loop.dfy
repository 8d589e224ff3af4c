/** The two processes connected by their pipes: the simulator writes a
    sample, the controller reads it, decides and writes a command line, and
    the simulator reads that line and corrects its position before the next
    sample. */
module ClosedLoop {
  import opened Wrappers
  import opened Decimal
  import opened Ecu
  import opened Sensor

  /** The controller reads back exactly the value the simulator wrote. */
  lemma SampleParses(position: int)
    ensures ParsePos(SampleLine(position)) == Some(position as real / 100.0)
  {
    ScanAfterHundredths("POS:", position, "\n");
  }

  /** How far each command moves the simulated position. */
  function Steer(c: Command): int
  {
    match c
    case Esquerda => SteeringCorrection
    case Direita => -SteeringCorrection
    case Nada => 0
  }

  /** The simulator obeys every command line the controller writes:
      `ESQUERDA` moves the position by -0.10, `DIREITA` by +0.10 and `NADA`
      leaves it. */
  lemma CommandLineObeyed(position: int, c: Command)
    ensures Corrected(position, Some(CommandLine(c))) == position + Steer(c)
  {
    CommandLineText();
    match c
    case Esquerda =>
      WordObeyedOnlyAlone(position, "ESQUERDA", "\n");
      assert "ESQUERDA" + "\n" == "ESQUERDA\n";
    case Direita =>
      WordObeyedOnlyAlone(position, "DIREITA", "\n");
      assert "DIREITA" + "\n" == "DIREITA\n";
    case Nada =>
      CommandTextAfterWord("NADA", "\n");
      assert CommandText("NADA\n") == "NADA";
  }

  /** The command the controller sends for a sample of `sample` hundredths. */
  function CommandFor(sample: int): Command
  {
    Decide(sample as real / 100.0)
  }

  /** One round from a corrected position: drift, sample, decide, and
      steer by the decided command. */
  function Round(position: int): int
  {
    var sample := position + Drift;
    sample + Steer(CommandFor(sample))
  }

  /** The corrected position after `n` rounds from the start. */
  function PositionAt(n: nat): int
  {
    if n == 0 then Start else Round(PositionAt(n - 1))
  }

  /** The command lines the controller sent in the first `n` rounds. */
  function SentUpTo(n: nat): (sent: seq<string>)
    ensures |sent| == n
  {
    if n == 0 then [] else SentUpTo(n - 1) + [CommandLine(CommandFor(PositionAt(n - 1) + Drift))]
  }

  /** The positions the simulator sampled in the first `n` rounds. */
  function SampledUpTo(n: nat): (sampled: seq<int>)
    ensures |sampled| == n
  {
    if n == 0 then [] else SampledUpTo(n - 1) + [PositionAt(n - 1) + Drift]
  }

  /** The sample lines the simulator wrote in the first `n` rounds. */
  function SamplesUpTo(n: nat): (samples: seq<string>)
    ensures |samples| == n
  {
    SampleLines(SampledUpTo(n))
  }

  /** The value the controller reads in round `i`. */
  function Reading(i: nat): real
  {
    (PositionAt(i) + Drift) as real / 100.0
  }

  /** The record the controller stores in round `i`, at time `now`. */
  function RecordOf(i: nat, now: int): Telemetry
  {
    Telemetry(now, Reading(i), CommandName(CommandFor(PositionAt(i) + Drift)))
  }

  /** From a corrected position in [0.00, 0.50] the next sample is in
      [0.05, 0.55], the controller does not steer right, and the corrected
      position is again in [0.00, 0.50]. */
  lemma RoundStaysInLane(position: int)
    requires 0 <= position <= 50
    ensures CommandFor(position + Drift) != Direita
    ensures 0 <= Round(position) <= 50
  {
  }

  /** The loop started from the centre keeps the corrected position in
      [0.00, 0.50] and never sends `DIREITA`. */
  lemma {:induction false} NeverSteersRight(n: nat)
    ensures 0 <= PositionAt(n) <= 50
    ensures |SentUpTo(n)| == n
    ensures "DIREITA\n" !in SentUpTo(n)
  {
    if n > 0 {
      NeverSteersRight(n - 1);
      RoundStaysInLane(PositionAt(n - 1));
      CommandLineText();
    }
  }

  /** The sample of round `n` is accepted by the controller, which reads
      the value the simulator wrote, in [0.05, 0.55]. */
  lemma SampleInBand(n: nat)
    ensures ParsePos(SampleLine(PositionAt(n) + Drift)) == Some(Reading(n))
    ensures 0.05 <= Reading(n) <= 0.55
  {
    NeverSteersRight(n);
    SampleParses(PositionAt(n) + Drift);
  }

  /** The line the simulator wrote in round `k`. */
  lemma {:induction false} SampleOfRound(n: nat, k: nat)
    requires k < n
    ensures SampledUpTo(n)[k] == PositionAt(k) + Drift
    ensures SamplesUpTo(n)[k] == SampleLine(PositionAt(k) + Drift)
  {
    if k < n - 1 {
      SampleOfRound(n - 1, k);
    }
  }

  /** Every sample line the simulator writes in the first `n` rounds is
      accepted by the controller, with a value in [0.05, 0.55]. */
  lemma SamplesInBand(n: nat)
    ensures forall k :: 0 <= k < n ==>
      var v := ParsePos(SamplesUpTo(n)[k]); v.Some? && 0.05 <= v.value <= 0.55
  {
    forall k | 0 <= k < n
      ensures var v := ParsePos(SamplesUpTo(n)[k]); v.Some? && 0.05 <= v.value <= 0.55
    {
      SampleOfRound(n, k);
      SampleInBand(k);
    }
  }

  /** The replies the simulator reads back: the controller's lines, each
      read in full. */
  function Replies(lines: seq<string>): (r: seq<Option<string>>)
    ensures |r| == |lines| && forall k :: 0 <= k < |lines| ==> r[k] == Some(lines[k])
  {
    seq(|lines|, k requires 0 <= k < |lines| => Some(lines[k]))
  }

  /** The command line the controller sent in round `k`. */
  lemma {:induction false} SentOfRound(n: nat, k: nat)
    requires k < n
    ensures SentUpTo(n)[k] == CommandLine(CommandFor(PositionAt(k) + Drift))
  {
    if k < n - 1 {
      SentOfRound(n - 1, k);
    }
  }

  /** Replies that take the simulator, in every round `k`, from the
      drifted position of the closed loop to its next corrected position. */
  ghost predicate FollowsLoop(replies: seq<Option<string>>)
  {
    forall k {:trigger replies[k]} :: 0 <= k < |replies| ==> Corrected(PositionAt(k) + Drift, replies[k]) == PositionAt(k + 1)
  }

  lemma FollowsLoopPrefix(replies: seq<Option<string>>)
    requires replies != [] && FollowsLoop(replies)
    ensures FollowsLoop(replies[..|replies| - 1])
  {
    var before := replies[..|replies| - 1];
    forall k | 0 <= k < |before|
      ensures Corrected(PositionAt(k) + Drift, before[k]) == PositionAt(k + 1)
    {
      assert before[k] == replies[k];
    }
  }

  /** Fed such replies, the simulator's loop goes through the positions of
      the closed loop ... */
  lemma {:induction false} PositionsAgree(replies: seq<Option<string>>)
    requires FollowsLoop(replies)
    ensures PositionAfter(replies) == PositionAt(|replies|)
  {
    if replies != [] {
      var before := replies[..|replies| - 1];
      FollowsLoopPrefix(replies);
      PositionsAgree(before);
    }
  }

  /** ... and samples the positions of the closed loop. */
  lemma {:induction false} SamplesAgree(replies: seq<Option<string>>)
    requires FollowsLoop(replies)
    ensures SampledAfter(replies) == SampledUpTo(|replies|)
  {
    if replies != [] {
      var before := replies[..|replies| - 1];
      FollowsLoopPrefix(replies);
      SamplesAgree(before);
      PositionsAgree(before);
    }
  }

  /** The line the controller sent in round `k` moves the simulator to
      the next corrected position of the closed loop. */
  lemma SentObeyed(n: nat, k: nat)
    requires k < n
    ensures Corrected(PositionAt(k) + Drift, Some(SentUpTo(n)[k])) == PositionAt(k + 1)
  {
    SentOfRound(n, k);
    RoundBack(PositionAt(k));
  }

  /** The lines the controller sends are such replies. */
  lemma SentFollowsLoop(n: nat)
    ensures FollowsLoop(Replies(SentUpTo(n)))
  {
    var replies := Replies(SentUpTo(n));
    forall k | 0 <= k < n
      ensures Corrected(PositionAt(k) + Drift, replies[k]) == PositionAt(k + 1)
    {
      SentObeyed(n, k);
    }
  }

  /** The simulator's own loop, fed the lines the controller sent, goes
      through exactly the positions of the closed loop ... */
  lemma VehiclePositionsFollowLoop(n: nat)
    ensures PositionAfter(Replies(SentUpTo(n))) == PositionAt(n)
  {
    SentFollowsLoop(n);
    PositionsAgree(Replies(SentUpTo(n)));
  }

  /** ... and writes exactly the sample lines of the closed loop. */
  lemma VehicleSamplesFollowLoop(n: nat)
    ensures SamplesAfter(Replies(SentUpTo(n))) == SamplesUpTo(n)
  {
    SentFollowsLoop(n);
    SamplesAgree(Replies(SentUpTo(n)));
  }

  lemma RoundBack(position: int)
    ensures Corrected(position + Drift, Some(CommandLine(CommandFor(position + Drift)))) == Round(position)
  {
    CommandLineObeyed(position + Drift, CommandFor(position + Drift));
  }

  /** What the controller reads in round `i`: the value `Reading(i)` from
      the simulator's sample line, and the record it then stores at `now`. */
  lemma RoundReading(i: nat, now: int)
    ensures ParsePos(SampleLine(PositionAt(i) + Drift)) == Some(Reading(i))
    ensures RecordOf(i, now) == Telemetry(now, Reading(i), CommandName(Decide(Reading(i))))
  {
    SampleParses(PositionAt(i) + Drift);
  }

  /** What the controller writes in round `i`: the command decided on
      `Reading(i)`, which is the line the closed loop sends and the one the
      simulator steers by. */
  lemma RoundCommand(i: nat)
    ensures Corrected(PositionAt(i) + Drift, Some(CommandLine(Decide(Reading(i))))) == PositionAt(i + 1)
    ensures SentUpTo(i + 1) == SentUpTo(i) + [CommandLine(Decide(Reading(i)))]
  {
    RoundBack(PositionAt(i));
  }

  /** Round `i` adds the line of its sample to what the simulator wrote. */
  lemma SamplesStep(i: nat)
    ensures SamplesUpTo(i + 1) == SamplesUpTo(i) + [SampleLine(PositionAt(i) + Drift)]
  {
    SampleLinesAppend(SampledUpTo(i), PositionAt(i) + Drift);
  }

  /** Round `i` of both processes: the simulator drifts and writes its
      sample, the controller reads it at time `now` and writes a command
      line, and the simulator applies that line. */
  method PlayRound(vehicle: Vehicle, controller: Controller, i: nat, now: int)
    requires controller.Valid()
    requires vehicle.position == PositionAt(i) && controller.sent == SentUpTo(i)
    modifies vehicle, controller
    ensures controller.Valid()
    ensures vehicle.position == PositionAt(i + 1) && controller.sent == SentUpTo(i + 1)
    ensures vehicle.written == old(vehicle.written) + [SampleLine(PositionAt(i) + Drift)]
    ensures controller.record == RecordOf(i, now)
    ensures controller.logFile == old(controller.logFile) && controller.loggerAlive == old(controller.loggerAlive)
  {
    RoundReading(i, now);
    RoundCommand(i);
    var line := vehicle.Emit();
    assert ParsePos(line) == Some(Reading(i));
    var written := controller.Cycle(line, now);
    assert written == Some(CommandLine(Decide(Reading(i))));
    vehicle.ApplyReply(written);
  }

  /** The first `n` rounds of both processes, round `k` at time `clock[k]`,
      from the state in which the two programs start. */
  method PlayFirstRounds(vehicle: Vehicle, controller: Controller, clock: seq<int>, n: nat)
    requires n <= |clock|
    requires controller.Valid() && controller.sent == []
    requires vehicle.position == Start && vehicle.written == []
    modifies vehicle, controller
    ensures controller.Valid()
    ensures controller.sent == SentUpTo(n)
    ensures vehicle.position == PositionAt(n)
    ensures vehicle.written == SamplesUpTo(n)
    ensures controller.logFile == old(controller.logFile) && controller.loggerAlive == old(controller.loggerAlive)
  {
    var i := 0;
    while i < n
      invariant 0 <= i <= n
      invariant controller.Valid()
      invariant vehicle.position == PositionAt(i)
      invariant controller.sent == SentUpTo(i)
      invariant vehicle.written == SamplesUpTo(i)
      invariant controller.logFile == old(controller.logFile) && controller.loggerAlive == old(controller.loggerAlive)
    {
      SamplesStep(i);
      PlayRound(vehicle, controller, i, clock[i]);
      i := i + 1;
    }
  }

  /** The rounds of both processes, one per clock reading, from the state
      in which the two programs start. Each round overwrites the
      controller's record, so the last round's record is the one left. */
  method PlayRounds(vehicle: Vehicle, controller: Controller, clock: seq<int>)
    requires controller.Valid() && controller.sent == []
    requires vehicle.position == Start && vehicle.written == []
    modifies vehicle, controller
    ensures controller.Valid()
    ensures controller.sent == SentUpTo(|clock|)
    ensures vehicle.position == PositionAt(|clock|)
    ensures vehicle.written == SamplesUpTo(|clock|)
    ensures |clock| == 0 ==> controller.record == old(controller.record)
    ensures |clock| > 0 ==> controller.record == RecordOf(|clock| - 1, clock[|clock| - 1])
    ensures controller.logFile == old(controller.logFile) && controller.loggerAlive == old(controller.loggerAlive)
  {
    if |clock| > 0 {
      var last := |clock| - 1;
      PlayFirstRounds(vehicle, controller, clock, last);
      SamplesStep(last);
      PlayRound(vehicle, controller, last, clock[last]);
    }
  }

  /** Both programs started and connected, run for one round per clock
      reading (the controller stamping its record with that reading).
      Returns the sample lines the simulator wrote, what the controller
      sent, the controller's record and the simulator's final position. */
  method Simulate(clock: seq<int>)
    returns (samples: seq<string>, sent: seq<string>, record: Telemetry, position: int)
    ensures samples == SamplesUpTo(|clock|) && sent == SentUpTo(|clock|)
    ensures position == PositionAt(|clock|)
    ensures |clock| == 0 ==> record == Initial
    ensures |clock| > 0 ==> record == RecordOf(|clock| - 1, clock[|clock| - 1])
  {
    var vehicle := new Vehicle();
    var controller := new Controller(true);
    PlayRounds(vehicle, controller, clock);
    samples, sent, record, position := vehicle.written, controller.sent, controller.record, vehicle.position;
  }
}
