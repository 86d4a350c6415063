/**
 * The start-up scan of src/main.py: `transcribe_file` applied to each path
 * in turn, all calls sharing one in-memory registry. How the paths are
 * found (the directory walk) is not modelled; they arrive as a sequence,
 * each with the outcomes its external steps will have.
 */
module Scan {
  import opened Pipeline

  datatype RunResult = RunResult(registry: set<string>, effects: seq<Effects>)

  /** The paths at which a run recorded its input. */
  function RecordedPaths(paths: seq<string>, effects: seq<Effects>): (r: set<string>)
    requires |effects| == |paths|
  {
    set i | 0 <= i < |paths| && Recorded(effects[i]) :: paths[i]
  }

  /** Prepending one call to a run adds its path to the recorded paths
      when that call recorded it. */
  lemma RecordedPathsCons(paths: seq<string>, e: Effects, effects: seq<Effects>)
    requires paths != [] && |effects| == |paths| - 1
    ensures RecordedPaths(paths, [e] + effects)
         == (if Recorded(e) then {paths[0]} else {}) + RecordedPaths(paths[1..], effects)
  {
    var all := [e] + effects;
    forall x
      ensures x in RecordedPaths(paths, all) <==>
              x in (if Recorded(e) then {paths[0]} else {}) + RecordedPaths(paths[1..], effects)
    {
      if x in RecordedPaths(paths[1..], effects) {
        var i :| 0 <= i < |paths| - 1 && Recorded(effects[i]) && paths[1..][i] == x;
        assert all[i + 1] == effects[i];
      }
      if x in RecordedPaths(paths, all) {
        var i :| 0 <= i < |paths| && Recorded(all[i]) && paths[i] == x;
        if i > 0 {
          assert effects[i - 1] == all[i];
        }
      }
    }
  }

  /** One call per path, in order, each seeing the registry the previous
      call left behind. */
  function Run(paths: seq<string>, registry: set<string>, outcomes: seq<Outcomes>): (r: RunResult)
    requires |outcomes| == |paths|
    ensures |r.effects| == |paths|
    ensures registry <= r.registry
    ensures r.registry == registry + RecordedPaths(paths, r.effects)
    decreases |paths|
  {
    if paths == [] then RunResult(registry, [])
    else
      var e := TranscribeFile(paths[0], registry, outcomes[0]);
      var rest := Run(paths[1..], e.registry, outcomes[1..]);
      RecordedPathsCons(paths, e, rest.effects);
      RunResult(rest.registry, [e] + rest.effects)
  }

  /** The effects of a call on a path that was already registered. */
  predicate SkippedAgain(e: Effects) {
    e.exit == AlreadyProcessed && e.modelCall.None? && e.extractorInput.None?
  }

  /** A path already registered when a run starts is skipped when it comes
      up again at position j of the run. */
  lemma {:induction false} RegisteredStaysSkipped(paths: seq<string>, registry: set<string>,
                                                  outcomes: seq<Outcomes>, j: nat)
    requires |outcomes| == |paths| && j < |paths| && paths[j] in registry
    ensures SkippedAgain(Run(paths, registry, outcomes).effects[j])
    decreases j
  {
    var e := TranscribeFile(paths[0], registry, outcomes[0]);
    var tail := Run(paths[1..], e.registry, outcomes[1..]).effects;
    assert Run(paths, registry, outcomes).effects == [e] + tail;
    if j > 0 {
      assert paths[1..][j - 1] == paths[j];
      RegisteredStaysSkipped(paths[1..], e.registry, outcomes[1..], j - 1);
    }
  }

  /** A call at position i that records its path makes every later call
      at position j on the same path a skip. */
  lemma {:induction false} RecordedThenSkipped(paths: seq<string>, registry: set<string>,
                                               outcomes: seq<Outcomes>, i: nat, j: nat)
    requires |outcomes| == |paths| && i < j < |paths| && paths[i] == paths[j]
    requires Recorded(Run(paths, registry, outcomes).effects[i])
    ensures SkippedAgain(Run(paths, registry, outcomes).effects[j])
    decreases i
  {
    var e := TranscribeFile(paths[0], registry, outcomes[0]);
    var tail := Run(paths[1..], e.registry, outcomes[1..]).effects;
    assert Run(paths, registry, outcomes).effects == [e] + tail;
    assert paths[1..][j - 1] == paths[j];
    if i == 0 {
      RegisteredStaysSkipped(paths[1..], e.registry, outcomes[1..], j - 1);
    } else {
      assert paths[1..][i - 1] == paths[i];
      RecordedThenSkipped(paths[1..], e.registry, outcomes[1..], i - 1, j - 1);
    }
  }

  /** Within one run a path is recorded at most once, and after that it is
      never handed to the extractor or the speech model again. */
  lemma {:induction false} RecordedAtMostOnce(paths: seq<string>, registry: set<string>, outcomes: seq<Outcomes>)
    requires |outcomes| == |paths|
    ensures var effects := Run(paths, registry, outcomes).effects;
      forall i, j :: 0 <= i < j < |paths| && paths[i] == paths[j] && Recorded(effects[i]) ==>
        SkippedAgain(effects[j])
  {
    var effects := Run(paths, registry, outcomes).effects;
    forall i, j | 0 <= i < j < |paths| && paths[i] == paths[j] && Recorded(effects[i])
      ensures SkippedAgain(effects[j])
    {
      RecordedThenSkipped(paths, registry, outcomes, i, j);
    }
  }
}
