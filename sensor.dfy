/** The vehicle simulator of `sensor.c`: a lane position that drifts by a
    fixed amount before each sample, is written to the sensor pipe as `POS:`
    text, and is then corrected by the command line read back from the
    control pipe.

    Positions are kept in hundredths of the track unit, the resolution of
    the two-decimal wire format: the drift 0.05 is 5 and the steering
    correction 0.10 is 10. */
module Sensor {
  import opened Wrappers
  import opened Decimal

  /** `posicao_pista` starts at the centre of the lane, 0.0. */
  const Start: int := 0

  /** `desvio_natural`, 0.05: the pull to the right before every sample. */
  const Drift: int := 5

  /** `correcao_volante`, -0.10: what `ESQUERDA` adds to the position. */
  const SteeringCorrection: int := -10

  /** The line written to the sensor pipe, `"POS:%.2f\n"` of the position
      (see `Fixed2OfHundredths` for why this is the `%.2f` text). */
  function SampleLine(position: int): string
  {
    "POS:" + HundredthsText(position) + "\n"
  }

  predicate EndsCommand(c: char)
  {
    c == '\n' || c == '\0'
  }

  /** `strcspn(line, "\n")` from position `i`: the first position from `i`
      on that holds a newline, or where the C string ends (a NUL or the end
      of what was read). */
  function CommandEnd(line: string, i: nat): (j: nat)
    requires i <= |line|
    ensures i <= j <= |line|
    ensures j < |line| ==> EndsCommand(line[j])
    decreases |line| - i
  {
    if i < |line| && !EndsCommand(line[i]) then CommandEnd(line, i + 1) else i
  }

  /** No newline or NUL lies between `i` and where the scan stops. */
  lemma {:induction false} CommandEndScans(line: string, i: nat)
    requires i <= |line|
    ensures forall k :: i <= k < CommandEnd(line, i) ==> !EndsCommand(line[k])
    decreases |line| - i
  {
    if i < |line| && !EndsCommand(line[i]) {
      CommandEndScans(line, i + 1);
    }
  }

  /** What `strcmp` sees once `strcspn` has put a terminator on the first
      newline: the text before the first newline or NUL. */
  function CommandText(line: string): (t: string)
    ensures t <= line
    ensures |t| < |line| ==> EndsCommand(line[|t|])
  {
    line[..CommandEnd(line, 0)]
  }

  /** The command text holds neither a newline nor a NUL. */
  lemma CommandTextStops(line: string)
    ensures forall i :: 0 <= i < |CommandText(line)| ==> !EndsCommand(CommandText(line)[i])
  {
    CommandEndScans(line, 0);
  }

  /** The position once the command line read back (if any) is applied:
      `ESQUERDA` steers by the correction, `DIREITA` by its opposite, and
      anything else leaves the position as it is. */
  function Corrected(position: int, reply: Option<string>): int
  {
    match reply
    case None => position
    case Some(line) =>
      var command := CommandText(line);
      if command == "ESQUERDA" then position + SteeringCorrection
      else if command == "DIREITA" then position - SteeringCorrection
      else position
  }

  /** After a word without newline or NUL, the terminator is searched for
      in what follows the word. */
  lemma {:induction false} CommandEndAfterWord(word: string, rest: string, i: nat)
    requires i <= |word|
    requires forall k :: 0 <= k < |word| ==> !EndsCommand(word[k])
    ensures CommandEnd(word + rest, i) == |word| + CommandEnd(rest, 0)
    decreases |word| - i
  {
    if i < |word| {
      assert (word + rest)[i] == word[i];
      CommandEndAfterWord(word, rest, i + 1);
    } else {
      CommandEndInRest(word, rest, 0);
    }
  }

  lemma {:induction false} CommandEndInRest(word: string, rest: string, j: nat)
    requires j <= |rest|
    ensures CommandEnd(word + rest, |word| + j) == |word| + CommandEnd(rest, j)
    decreases |rest| - j
  {
    if j < |rest| {
      assert (word + rest)[|word| + j] == rest[j];
      CommandEndInRest(word, rest, j + 1);
    }
  }

  lemma CommandTextAfterWord(word: string, rest: string)
    requires forall i :: 0 <= i < |word| ==> !EndsCommand(word[i])
    ensures CommandText(word + rest) == word + CommandText(rest)
  {
    CommandEndAfterWord(word, rest, 0);
    assert (word + rest)[..|word| + CommandEnd(rest, 0)] == word + rest[..CommandEnd(rest, 0)];
  }

  /** How much a command word moves the position when it is read alone. */
  function SteerOf(word: string): int
  {
    if word == "ESQUERDA" then SteeringCorrection
    else if word == "DIREITA" then -SteeringCorrection
    else 0
  }

  /** A steering word is obeyed only when it is the whole line: followed by
      a newline, a NUL or nothing. Any other character before the newline
      makes the line match no command, and the position stays. */
  lemma WordObeyedOnlyAlone(position: int, word: string, rest: string)
    requires word == "ESQUERDA" || word == "DIREITA"
    ensures Corrected(position, Some(word + rest))
         == if rest == [] || EndsCommand(rest[0]) then position + SteerOf(word) else position
  {
    CommandTextAfterWord(word, rest);
    var t := CommandText(word + rest);
    if rest == [] || EndsCommand(rest[0]) {
      assert CommandText(rest) == [];
      assert t == word;
    } else {
      assert |t| > |word|;
      assert t[0] == word[0];
      assert t != "ESQUERDA" && t != "DIREITA";
    }
  }

  /** The simulator's state: the lane position and the sensor pipe. */
  class Vehicle {
    var position: int          // posicao_pista, in hundredths
    var written: seq<string>   // lines written to the sensor pipe

    constructor ()
      ensures position == Start && written == []
    {
      position := 0;
      written := [];
    }

    /** First half of a loop iteration: drift, then send the sample, which
        therefore carries the position before any correction. */
    method Emit() returns (line: string)
      modifies this
      ensures position == old(position) + Drift
      ensures line == SampleLine(position) && written == old(written) + [line]
    {
      position := position + Drift;
      line := "POS:" + Fixed2(position as real / 100.0) + "\n";
      Fixed2OfHundredths(position);
      written := written + [line];
    }

    /** Second half: apply the command line read back, or nothing when no
        line could be read. */
    method ApplyReply(reply: Option<string>)
      modifies this`position
      ensures position == Corrected(old(position), reply)
    {
      if reply.Some? {
        var command := CommandText(reply.value);
        if command == "ESQUERDA" {
          position := position + SteeringCorrection;
        } else if command == "DIREITA" {
          position := position - SteeringCorrection;
        }
      }
    }
  }

  /** The position after the simulator has gone through one loop iteration
      per element of `replies`, the i-th being what it read back after its
      i-th sample. */
  function PositionAfter(replies: seq<Option<string>>): int
  {
    if replies == [] then Start
    else Corrected(PositionAfter(replies[..|replies| - 1]) + Drift, replies[|replies| - 1])
  }

  /** The sample lines for a run of sampled positions, one line each. */
  function SampleLines(sampled: seq<int>): (lines: seq<string>)
    ensures |lines| == |sampled|
  {
    seq(|sampled|, k requires 0 <= k < |sampled| => SampleLine(sampled[k]))
  }

  lemma SampleLinesAppend(sampled: seq<int>, position: int)
    ensures SampleLines(sampled + [position]) == SampleLines(sampled) + [SampleLine(position)]
  {
    var longer := sampled + [position];
    assert forall k :: 0 <= k < |sampled| ==> longer[k] == sampled[k];
  }

  /** The positions the simulator has sampled after one loop iteration per
      element of `replies`: each carries the position of the previous
      iteration plus the drift, before its own correction. */
  function SampledAfter(replies: seq<Option<string>>): (sampled: seq<int>)
    ensures |sampled| == |replies|
  {
    if replies == [] then []
    else
      var before := replies[..|replies| - 1];
      SampledAfter(before) + [PositionAfter(before) + Drift]
  }

  /** The lines the simulator has written after one loop iteration per
      element of `replies`, one sample line per sampled position. */
  function SamplesAfter(replies: seq<Option<string>>): seq<string>
  {
    SampleLines(SampledAfter(replies))
  }

  lemma StepAt(replies: seq<Option<string>>, i: nat)
    requires i < |replies|
    ensures PositionAfter(replies[..i + 1]) == Corrected(PositionAfter(replies[..i]) + Drift, replies[i])
    ensures SamplesAfter(replies[..i + 1]) == SamplesAfter(replies[..i]) + [SampleLine(PositionAfter(replies[..i]) + Drift)]
  {
    assert replies[..i + 1][..i] == replies[..i];
    SampleLinesAppend(SampledAfter(replies[..i]), PositionAfter(replies[..i]) + Drift);
  }

  /** The simulator's loop, cut after one iteration per reply: it returns the
      lines it wrote and its final position. */
  method RunVehicle(replies: seq<Option<string>>) returns (samples: seq<string>, position: int)
    ensures samples == SamplesAfter(replies)
    ensures position == PositionAfter(replies)
  {
    var vehicle := new Vehicle();
    var i := 0;
    while i < |replies|
      invariant 0 <= i <= |replies|
      invariant vehicle.position == PositionAfter(replies[..i])
      invariant vehicle.written == SamplesAfter(replies[..i])
    {
      var line := vehicle.Emit();
      vehicle.ApplyReply(replies[i]);
      StepAt(replies, i);
      i := i + 1;
    }
    assert replies[..i] == replies;
    samples, position := vehicle.written, vehicle.position;
  }
}
