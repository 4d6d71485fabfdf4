/** A whole invocation of `main`: argument validation, then the inventory
    (only consulted once validation has passed), then the dispatch loop.
    The hub is represented by two inputs: the decoded inventory (`None` when
    the fetch or the JSON decoding failed) and the set of ids whose delete
    fails. */
module Pruner {
  import opened Things
  import opened Args
  import opened FilterLoop

  /** A whole run: a usage error or a failed decode ends it before any
      device line; otherwise the loop decides the lines and the ending. */
  function Run(args: seq<string>, inventory: Option<seq<Device>>, failing: set<string>): (r: RunResult)
    ensures r.exit.UsageFailure? <==> Interpret(args).Err?
    ensures r.exit.DecodeFailure? <==> Interpret(args).Ok? && inventory.None?
    ensures r.exit.UsageFailure? || r.exit.DecodeFailure? ==> r.events == []
    ensures r.exit.DeleteFailure? ==> r.exit.id in failing
  {
    match Interpret(args)
    case Err(e) => RunResult([], UsageFailure(e))
    case Ok(req) =>
      match inventory
      case None => RunResult([], DecodeFailure)
      case Some(ds) => Dispatch(req, ds, failing)
  }

  /** `main` as the program runs it. */
  method RunPruner(args: seq<string>, inventory: Option<seq<Device>>, failing: set<string>) returns (r: RunResult)
    ensures r == Run(args, inventory, failing)
  {
    var parsed := ParseArgs(args);
    if parsed.Err? {
      return RunResult([], UsageFailure(parsed.error));
    }
    if inventory.None? {
      return RunResult([], DecodeFailure);
    }
    r := FilterAndDelete(parsed.value, inventory.value, failing);
  }

  /** A usage error ends the run before the hub is contacted: nothing is
      printed per device, the status is 1, and neither the inventory nor
      the delete outcomes make any difference. */
  lemma UsageErrorsPrecedeFetch(args: seq<string>, inv1: Option<seq<Device>>, failing1: set<string>,
                                inv2: Option<seq<Device>>, failing2: set<string>)
    requires Interpret(args).Err?
    ensures Run(args, inv1, failing1) == Run(args, inv2, failing2)
    ensures Run(args, inv1, failing1) == RunResult([], UsageFailure(Interpret(args).error))
    ensures ExitCode(Run(args, inv1, failing1).exit) == 1
  {
  }

  /** After validation the loop's default branch is never reached. */
  lemma AcceptedRunNeverUnsupported(args: seq<string>, inventory: Option<seq<Device>>, failing: set<string>)
    requires Interpret(args).Ok?
    ensures Unsupported !in Run(args, inventory, failing).events
  {
    var req := Interpret(args).value;
    AcceptedMethodIsSupported(args);
    if inventory.Some? {
      var ds := inventory.value;
      SupportedTraceHasNoUnsupported(req, ds);
      var r := Dispatch(req, ds, failing);
      if r.exit.Success? {
        DispatchCompletes(req, ds, failing);
      } else {
        DispatchAborts(req, ds, failing);
        assert forall e :: e in r.events ==> e in Trace(req, ds);
      }
    }
  }

  /** A run ends with status 0 exactly when the arguments are accepted, the
      inventory decodes and no delete the request asks for fails; it then
      prints the full trace. */
  lemma RunSucceeds(args: seq<string>, inventory: Option<seq<Device>>, failing: set<string>)
    ensures ExitCode(Run(args, inventory, failing).exit) == 0
            <==> && Interpret(args).Ok?
                 && inventory.Some?
                 && (forall id :: id in DeletedIds(Trace(Interpret(args).value, inventory.value)) ==> id !in failing)
    ensures ExitCode(Run(args, inventory, failing).exit) == 0
            ==> Run(args, inventory, failing).events == Trace(Interpret(args).value, inventory.value)
  {
    if Interpret(args).Ok? && inventory.Some? {
      DispatchCompletes(Interpret(args).value, inventory.value, failing);
    }
  }

  /** "list" with a decoded inventory prints every device once, in order,
      deletes nothing and exits normally, whatever the hub would refuse. */
  lemma ListRun(args: seq<string>, ds: seq<Device>, failing: set<string>)
    requires Interpret(args).Ok? && args[0] == "list"
    ensures var r := Run(args, Some(ds), failing);
      && r.exit == Success
      && |r.events| == |ds|
      && (forall k :: 0 <= k < |ds| ==> r.events[k] == Listed(ds[k]))
  {
    var req := Interpret(args).value;
    ListTrace(req, ds);
    DispatchCompletes(req, ds, failing);
  }

  /** `promoted false` against one promoted and one unpromoted light deletes
      only the second. */
  lemma PromotedFalseScenario()
    ensures var lamp := Device("1", "light", "Lamp", true);
      var lamp2 := Device("2", "light", "Lamp2", false);
      Run(["promoted", "false"], Some([lamp, lamp2]), {}) == RunResult([Deleting(lamp2)], Success)
  {
  }

  /** `name jim` selects neither "Jimbo" nor "Bob": the substring test is
      case-sensitive. */
  lemma NameJimScenario()
    ensures var jimbo := Device("1", "light", "Jimbo", false);
      var bob := Device("2", "light", "Bob", false);
      Run(["name", "jim"], Some([jimbo, bob]), {}) == RunResult([], Success)
  {
    var jimbo := Device("1", "light", "Jimbo", false);
    var bob := Device("2", "light", "Bob", false);
    var req := Request("name", "jim", false);
    assert Interpret(["name", "jim"]) == Ok(req);
    NameMatchIsCaseSensitive();
    assert !Contains("Bob", "jim") by {
      forall i | 0 <= i <= |"Bob"| ensures !OccursAt("Bob", "jim", i) {
        if i == 0 {
          assert "Bob"[0..3][0] == 'B';
        }
      }
    }
    assert [jimbo, bob][1..] == [bob];
    assert [bob][1..] == [];
  }

  /** When the first of two matching deletes fails, the second device is
      never processed: the run stops after the failing device's line. */
  lemma FirstDeleteFailureScenario()
    ensures var a := Device("a", "light", "Hall", false);
      var b := Device("b", "light", "Porch", true);
      Run(["type", "light"], Some([a, b]), {"a"}) == RunResult([Deleting(a)], DeleteFailure("a"))
  {
  }
}
