/** Detection of repeated tool-call cycles and repeated outputs over sliding windows. */
module LoopDetection {
  import opened JsText
  import opened Wrappers
  import opened Words
  import FnvHash

  datatype Config = Config(enabled: bool, windowSize: int, repeatThreshold: int, maxCycleLength: int)

  datatype ConfigError = RepeatThresholdTooSmall | WindowSizeTooSmall

  datatype Detection =
    | ToolCycle(cyclePattern: seq<Text>, repetitions: int, windowSize: int)
    | OutputRepeat(repetitions: int, windowSize: int)

  /** A cycle the detector looks for, given the whole history of tool calls. */
  predicate IsCycle(config: Config, tools: seq<Text>, w: seq<Text>)
    requires config.repeatThreshold >= 2
  {
    1 <= |w| <= config.maxCycleLength && EndsWith(tools, Power(w, config.repeatThreshold))
  }

  /** The history ends with no cycle whose pattern is shorter than `n`. */
  ghost predicate NoCycleBelow(config: Config, tools: seq<Text>, n: int)
    requires config.repeatThreshold >= 2
  {
    forall w: seq<Text> | |w| < n :: !IsCycle(config, tools, w)
  }

  /** `found` is the shortest cycle the history ends with, if it ends with one. */
  ghost predicate CycleVerdict(config: Config, tools: seq<Text>, found: Option<seq<Text>>)
    requires config.repeatThreshold >= 2
  {
    match found
    case None => forall w: seq<Text> :: !IsCycle(config, tools, w)
    case Some(c) =>
      && IsCycle(config, tools, c)
      && NoCycleBelow(config, tools, |c|)
  }

  function Fingerprints(outputs: seq<Text>): (r: seq<int>)
    ensures |r| == |outputs| && forall i | 0 <= i < |r| :: r[i] == FnvHash.Fingerprint(outputs[i])
  {
    if outputs == [] then [] else [FnvHash.Fingerprint(outputs[0])] + Fingerprints(outputs[1..])
  }

  ghost predicate AllEqual(hashes: seq<int>) {
    forall i, j | 0 <= i < j < |hashes| :: hashes[i] == hashes[j]
  }

  /** The last `repeatThreshold` outputs of the whole history have one fingerprint, and the window can hold them. */
  ghost predicate RepeatsOutput(config: Config, outputs: seq<Text>)
    requires config.repeatThreshold >= 2
  {
    && config.repeatThreshold <= config.windowSize
    && config.repeatThreshold <= |outputs|
    && AllEqual(Last(Fingerprints(outputs), config.repeatThreshold))
  }

  /** The verdict on everything recorded since the last reset, without any window. */
  ghost predicate Verdict(config: Config, tools: seq<Text>, outputs: seq<Text>, verdict: Option<Detection>)
    requires config.repeatThreshold >= 2
  {
    if !config.enabled || |outputs| < config.repeatThreshold then
      verdict == None
    else if verdict.Some? && verdict.value.ToolCycle? then
      && CycleVerdict(config, tools, Some(verdict.value.cyclePattern))
      && verdict == Some(ToolCycle(verdict.value.cyclePattern, config.repeatThreshold, config.windowSize))
    else
      && CycleVerdict(config, tools, None)
      && verdict == if RepeatsOutput(config, outputs)
                    then Some(OutputRepeat(config.repeatThreshold, config.windowSize))
                    else None
  }

  function MaxHistory(config: Config): int {
    config.windowSize * config.maxCycleLength * config.repeatThreshold
  }

  class LoopDetector {
    const config: Config
    var outputHashes: seq<int>
    var toolCallHistory: seq<Text>
    var iterationCount: int

    // everything recorded since the last reset
    ghost var allOutputs: seq<Text>
    ghost var allTools: seq<Text>

    ghost predicate Valid()
      reads this
    {
      && config.repeatThreshold >= 2 && config.windowSize >= 1
      && iterationCount == |allOutputs|
      && outputHashes == Last(Fingerprints(allOutputs), config.windowSize)
      && toolCallHistory == Last(allTools, MaxHistory(config))
    }

    constructor (config: Config)
      requires config.repeatThreshold >= 2 && config.windowSize >= 1
      ensures Valid() && this.config == config && allOutputs == [] && allTools == []
    {
      this.config := config;
      outputHashes, toolCallHistory, iterationCount := [], [], 0;
      allOutputs, allTools := [], [];
    }

    /** The checked constructor: invalid thresholds are reported, in this order. */
    static method Create(config: Config) returns (r: Result<LoopDetector, ConfigError>)
      ensures config.repeatThreshold < 2 ==> r == Failure(RepeatThresholdTooSmall)
      ensures config.repeatThreshold >= 2 && config.windowSize < 1 ==> r == Failure(WindowSizeTooSmall)
      ensures config.repeatThreshold >= 2 && config.windowSize >= 1 ==>
                r.Success? && fresh(r.value) && r.value.Valid() && r.value.config == config
                && r.value.allOutputs == [] && r.value.allTools == []
    {
      if config.repeatThreshold < 2 {
        return Failure(RepeatThresholdTooSmall);
      }
      if config.windowSize < 1 {
        return Failure(WindowSizeTooSmall);
      }
      var detector := new LoopDetector(config);
      return Success(detector);
    }

    /** The answer depends on the whole history since the reset, although only windows are kept. */
    method RecordAndCheck(output: Text, toolCalls: seq<Text>) returns (verdict: Option<Detection>)
      requires Valid()
      modifies this
      ensures Valid()
      ensures config.enabled ==> allOutputs == old(allOutputs) + [output] && allTools == old(allTools) + toolCalls
      ensures !config.enabled ==> unchanged(this)
      ensures Verdict(config, allTools, allOutputs, verdict)
    {
      if !config.enabled {
        return None;
      }
      iterationCount := iterationCount + 1;
      RecordOutput(output);
      RecordTools(toolCalls);
      allOutputs := allOutputs + [output];
      allTools := allTools + toolCalls;

      if iterationCount < config.repeatThreshold {
        return None;
      }

      var cycle := CheckToolCycle();
      if cycle.Some? {
        return Some(ToolCycle(cycle.value, config.repeatThreshold, config.windowSize));
      }
      var repeats := CheckOutputRepeat();
      return if repeats then Some(OutputRepeat(config.repeatThreshold, config.windowSize)) else None;
    }

    /** Pushes the fingerprint and keeps the window. */
    method RecordOutput(output: Text)
      requires config.windowSize >= 1 && outputHashes == Last(Fingerprints(allOutputs), config.windowSize)
      modifies `outputHashes
      ensures outputHashes == Last(Fingerprints(allOutputs + [output]), config.windowSize)
    {
      var fingerprint := FnvHash.Fnv1a32(output);
      FingerprintsAppend(allOutputs, output);
      LastOfAppend(Fingerprints(allOutputs), [fingerprint], config.windowSize);
      outputHashes := outputHashes + [fingerprint];
      if |outputHashes| > config.windowSize {
        outputHashes := outputHashes[|outputHashes| - config.windowSize..];
      }
    }

    /** Pushes the tool calls and trims the history; removing more than there is empties it. */
    method RecordTools(toolCalls: seq<Text>)
      requires toolCallHistory == Last(allTools, MaxHistory(config))
      modifies `toolCallHistory
      ensures toolCallHistory == Last(allTools + toolCalls, MaxHistory(config))
    {
      var maxHistory := MaxHistory(config);
      LastOfAppend(allTools, toolCalls, maxHistory);
      toolCallHistory := toolCallHistory + toolCalls;
      if |toolCallHistory| > maxHistory {
        var excess := |toolCallHistory| - maxHistory;
        toolCallHistory := toolCallHistory[if excess < |toolCallHistory| then excess else |toolCallHistory|..];
      }
    }

    method CheckToolCycle() returns (found: Option<seq<Text>>)
      requires Valid()
      ensures CycleVerdict(config, allTools, found)
    {
      var cycleLen := 1;
      while cycleLen <= config.maxCycleLength
        invariant 1 <= cycleLen
        invariant NoCycleBelow(config, toolCallHistory, cycleLen)
      {
        var needed := cycleLen * config.repeatThreshold;
        if |toolCallHistory| >= needed {
          var tail := toolCallHistory[|toolCallHistory| - needed..];
          var matches := RepeatsFirstBlock(tail, cycleLen, config.repeatThreshold);
          if matches {
            found := Some(tail[..cycleLen]);
            FirstBlockIsVerdict(config, allTools, cycleLen, needed);
            return;
          }
        }
        LengthRuledOut(config, toolCallHistory, cycleLen, needed);
        cycleLen := cycleLen + 1;
      }
      NoneIsVerdict(config, allTools, cycleLen);
      return None;
    }

    method CheckOutputRepeat() returns (repeats: bool)
      requires Valid()
      ensures repeats == RepeatsOutput(config, allOutputs)
    {
      if |outputHashes| < config.repeatThreshold {
        return false;
      }
      LastOfLast(Fingerprints(allOutputs), config.repeatThreshold, config.windowSize);
      var recent := outputHashes[|outputHashes| - config.repeatThreshold..];
      assert recent == Last(outputHashes, config.repeatThreshold);
      repeats := EveryEqualsFirst(recent);
    }

    method Reset()
      requires Valid()
      modifies this
      ensures Valid() && allOutputs == [] && allTools == []
    {
      outputHashes, toolCallHistory, iterationCount := [], [], 0;
      allOutputs, allTools := [], [];
    }
  }

  method EveryEqualsFirst(hashes: seq<int>) returns (all: bool)
    requires hashes != []
    ensures all <==> AllEqual(hashes)
  {
    var first := hashes[0];
    all := true;
    for i := 0 to |hashes|
      invariant all <==> forall j | 0 <= j < i :: hashes[j] == first
    {
      all := all && hashes[i] == first;
    }
  }

  /** A cycle of a given length can only be the first block of the tail of that many repetitions. */
  lemma {:induction false} CycleIsFirstBlock(config: Config, tools: seq<Text>, w: seq<Text>)
    requires config.repeatThreshold >= 2 && 1 <= |w| <= config.maxCycleLength
    ensures var needed := |w| * config.repeatThreshold;
            IsCycle(config, tools, w) <==>
              && |w| <= needed <= |tools|
              && tools[|tools| - needed..] == Power(w, config.repeatThreshold)
              && tools[|tools| - needed..][..|w|] == w
  {
    PowerLength(w, config.repeatThreshold);
    PowerBegins(w, config.repeatThreshold);
  }

  /** Too short a history, or a tail that is not its first block repeated, excludes every cycle of a length. */
  /** The first block that the tail of the kept calls repeats is the verdict on the whole history. */
  lemma {:induction false} FirstBlockIsVerdict(config: Config, allTools: seq<Text>, cycleLen: nat, needed: nat)
    requires config.repeatThreshold >= 2 && config.windowSize >= 1 && 1 <= cycleLen <= config.maxCycleLength
    requires var kept := Last(allTools, MaxHistory(config));
             && needed == cycleLen * config.repeatThreshold && cycleLen <= needed <= |kept|
             && kept[|kept| - needed..] == Power(kept[|kept| - needed..][..cycleLen], config.repeatThreshold)
             && NoCycleBelow(config, kept, cycleLen)
    ensures var kept := Last(allTools, MaxHistory(config));
            CycleVerdict(config, allTools, Some(kept[|kept| - needed..][..cycleLen]))
  {
    var kept := Last(allTools, MaxHistory(config));
    var found := kept[|kept| - needed..][..cycleLen];
    CycleIsFirstBlock(config, kept, found);
    TrimmingIsInvisible(config, allTools, Some(found));
  }

  lemma {:induction false} NoneIsVerdict(config: Config, allTools: seq<Text>, n: int)
    requires config.repeatThreshold >= 2 && config.windowSize >= 1 && n > config.maxCycleLength
    requires NoCycleBelow(config, Last(allTools, MaxHistory(config)), n)
    ensures CycleVerdict(config, allTools, None)
  {
    TrimmingIsInvisible(config, allTools, None);
  }

  lemma {:induction false} LengthRuledOut(config: Config, tools: seq<Text>, cycleLen: nat, needed: nat)
    requires config.repeatThreshold >= 2 && 1 <= cycleLen <= config.maxCycleLength
    requires needed == cycleLen * config.repeatThreshold && NoCycleBelow(config, tools, cycleLen)
    requires cycleLen <= needed <= |tools| ==>
               tools[|tools| - needed..] != Power(tools[|tools| - needed..][..cycleLen], config.repeatThreshold)
    ensures NoCycleBelow(config, tools, cycleLen + 1)
  {
    forall w: seq<Text> | |w| == cycleLen
      ensures !IsCycle(config, tools, w)
    {
      CycleIsFirstBlock(config, tools, w);
    }
  }

  lemma {:induction false} OneMoreBlock(tail: seq<Text>, cycleLen: nat, rep: nat)
    requires rep * cycleLen + cycleLen <= |tail|
    requires tail[..rep * cycleLen] == Power(tail[..cycleLen], rep)
    requires tail[rep * cycleLen..rep * cycleLen + cycleLen] == tail[..cycleLen]
    ensures (rep + 1) * cycleLen == rep * cycleLen + cycleLen
    ensures tail[..(rep + 1) * cycleLen] == Power(tail[..cycleLen], rep + 1)
  {
    var from := rep * cycleLen;
    PowerSplit(tail[..cycleLen], rep, 1);
    assert Power(tail[..cycleLen], 1) == tail[..cycleLen];
    assert tail[..from + cycleLen] == tail[..from] + tail[from..from + cycleLen];
  }

  /** Whether `tail` is its first `cycleLen` items repeated: block by block, stopping at the first mismatch. */
  method RepeatsFirstBlock(tail: seq<Text>, cycleLen: nat, threshold: nat) returns (matches: bool)
    requires cycleLen >= 1 && threshold >= 1 && |tail| == cycleLen * threshold
    ensures cycleLen <= |tail|
    ensures matches <==> tail == Power(tail[..cycleLen], threshold)
  {
    BlockBounds(cycleLen, 0, threshold);
    var candidate := tail[..cycleLen];
    matches := true;
    var rep := 1;
    assert Power(candidate, 1) == candidate;
    while rep < threshold && matches
      invariant 1 <= rep <= threshold
      invariant matches ==> rep * cycleLen <= |tail| && tail[..rep * cycleLen] == Power(candidate, rep)
      invariant !matches ==> tail != Power(candidate, threshold)
    {
      BlockBounds(cycleLen, rep, threshold);
      var from := rep * cycleLen;
      var segment := tail[from..from + cycleLen];
      if segment != candidate {
        matches := false;
        PowerBlock(candidate, rep, threshold);
      } else {
        OneMoreBlock(tail, cycleLen, rep);
      }
      rep := rep + 1;
    }
    if matches {
      assert threshold * cycleLen == |tail|;
      assert tail[..|tail|] == tail;
    }
  }

  lemma {:induction false} BlockBounds(cycleLen: nat, rep: nat, threshold: nat)
    requires rep < threshold
    ensures 0 <= rep * cycleLen && rep * cycleLen + cycleLen <= cycleLen * threshold
  {
    assert cycleLen * threshold == rep * cycleLen + cycleLen * (threshold - rep);
    assert cycleLen * (threshold - rep) == cycleLen + cycleLen * (threshold - rep - 1);
  }

  /** Every block of a power is its base word. */
  lemma {:induction false} PowerBlock(w: seq<Text>, rep: nat, threshold: nat)
    requires rep < threshold
    ensures |Power(w, threshold)| == |w| * threshold
    ensures rep * |w| + |w| <= |w| * threshold
    ensures Power(w, threshold)[rep * |w|..rep * |w| + |w|] == w
  {
    PowerLength(w, threshold);
    BlockBounds(|w|, rep, threshold);
    PowerSplit(w, rep, threshold - rep);
    PowerLength(w, rep);
    var front, back := Power(w, rep), Power(w, threshold - rep);
    assert back == w + Power(w, threshold - rep - 1);
    assert (front + back)[|front|..|front| + |w|] == w;
  }

  lemma {:induction false} PowerBegins(w: seq<Text>, threshold: nat)
    requires threshold >= 1
    ensures |w| <= |Power(w, threshold)| && Power(w, threshold)[..|w|] == w
  {
    assert Power(w, threshold) == w + Power(w, threshold - 1);
  }

  lemma {:induction false} FingerprintsAppend(outputs: seq<Text>, output: Text)
    ensures Fingerprints(outputs + [output]) == Fingerprints(outputs) + [FnvHash.Fingerprint(output)]
  {
  }

  lemma {:induction false} CycleFitsHistory(config: Config, length: nat)
    requires config.repeatThreshold >= 2 && config.windowSize >= 1 && 1 <= length <= config.maxCycleLength
    ensures length * config.repeatThreshold <= MaxHistory(config)
  {
    assert config.maxCycleLength <= config.windowSize * config.maxCycleLength;
    assert length * config.repeatThreshold <= (config.windowSize * config.maxCycleLength) * config.repeatThreshold;
  }

  /** The trimmed history and the whole history have the same cycle verdict. */
  lemma {:induction false} TrimmingIsInvisible(config: Config, tools: seq<Text>, found: Option<seq<Text>>)
    requires config.repeatThreshold >= 2 && config.windowSize >= 1
    ensures CycleVerdict(config, Last(tools, MaxHistory(config)), found) <==> CycleVerdict(config, tools, found)
  {
    forall w: seq<Text>
      ensures IsCycle(config, Last(tools, MaxHistory(config)), w) <==> IsCycle(config, tools, w)
    {
      if 1 <= |w| <= config.maxCycleLength {
        CycleFitsHistory(config, |w|);
        PowerLength(w, config.repeatThreshold);
      }
    }
  }

  /** The reported pattern is never itself a shorter word repeated. */
  lemma {:induction false} ReportedCycleIsPrimitive(config: Config, tools: seq<Text>, pattern: seq<Text>,
      root: seq<Text>, k: nat)
    requires config.repeatThreshold >= 2 && CycleVerdict(config, tools, Some(pattern))
    requires k >= 2
    ensures pattern != Power(root, k)
  {
    if pattern == Power(root, k) {
      PowerLength(root, k);
      EndsInRoot(tools, root, k, config.repeatThreshold);
      assert |root| < |pattern|;
      assert IsCycle(config, tools, root);
    }
  }

  /** There is at most one verdict on a history. */
  lemma {:induction false} VerdictUnique(config: Config, tools: seq<Text>, outputs: seq<Text>,
      a: Option<Detection>, b: Option<Detection>)
    requires config.repeatThreshold >= 2
    requires Verdict(config, tools, outputs, a) && Verdict(config, tools, outputs, b)
    ensures a == b
  {
    if a != None && b != None && a.value.ToolCycle? && b.value.ToolCycle? {
      var v, w := a.value.cyclePattern, b.value.cyclePattern;
      assert |v| == |w|;
      PowerLength(v, config.repeatThreshold);
      PowerLength(w, config.repeatThreshold);
      PowerBegins(v, config.repeatThreshold);
      PowerBegins(w, config.repeatThreshold);
    }
  }

  /** The detector fires exactly when the whole history shows a loop of either kind. */
  lemma {:induction false} FiresExactlyOnLoops(config: Config, tools: seq<Text>, outputs: seq<Text>,
      verdict: Option<Detection>)
    requires config.repeatThreshold >= 2 && Verdict(config, tools, outputs, verdict)
    ensures verdict != None <==>
              && config.enabled && |outputs| >= config.repeatThreshold
              && ((exists w: seq<Text> :: IsCycle(config, tools, w)) || RepeatsOutput(config, outputs))
  {
    if config.enabled && |outputs| >= config.repeatThreshold && verdict != None && verdict.value.ToolCycle? {
      assert IsCycle(config, tools, verdict.value.cyclePattern);
    }
  }

  /** Outputs that differ in one code unit are told apart: they are never reported as a repetition. */
  lemma {:induction false} OneUnitApartIsNoRepeat(config: Config, outputs: seq<Text>, i: nat, j: nat, at: nat)
    requires config.repeatThreshold >= 2 && |outputs| - config.repeatThreshold <= i < j < |outputs|
    requires DifferOnlyAt(outputs[i], outputs[j], at)
    ensures !RepeatsOutput(config, outputs)
  {
    FnvHash.OneChangedUnitNeverCollides(outputs[i], outputs[j], at);
    var hashes, from := Fingerprints(outputs), |outputs| - config.repeatThreshold;
    if from >= 0 {
      var recent := Last(hashes, config.repeatThreshold);
      assert recent == hashes[from..];
      assert recent[i - from] == hashes[i] && recent[j - from] == hashes[j];
    }
  }
}
