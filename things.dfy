/** Values shared by the argument interpreter and the dispatch loop of the
    thing deleter: the decoded inventory records, the operation request and
    the structured events that stand for the program's console lines. */
module Things {

  datatype Option<+T> = None | Some(value: T)

  datatype Result<+T, +E> = Ok(value: T) | Err(error: E)

  /** One decoded entry of the hub's `{"data": [...]}` inventory. */
  datatype Device = Device(id: string, deviceType: string, name: string, promoted: bool)

  /** What the argument interpreter hands to the loop: the method name (`method` in `main`) as
      given on the command line, the (possibly joined) value, and the parsed
      boolean, which stays false unless the method is "promoted". */
  datatype Request = Request(operation: string, value: string, boolValue: bool)

  /** One line of per-device output.  `Deleting` is the "Deleting ..." line
      that is always followed by a delete call for that device's id;
      `Unsupported` is the line of the loop's default branch. */
  datatype Event = Listed(device: Device) | Deleting(device: Device) | Unsupported

  /** The three usage failures of argument interpretation, each of which
      exits with status 1. */
  datatype UsageError = BadUsage | InvalidMethod | InvalidBool

  /** How a run ends. */
  datatype Exit = Success | UsageFailure(usage: UsageError) | DecodeFailure | DeleteFailure(id: string)

  /** The events printed by a run, and how it ended. */
  datatype RunResult = RunResult(events: seq<Event>, exit: Exit)

  /** The process exit status that goes with each way of ending. */
  function ExitCode(e: Exit): (code: int)
    ensures code == 0 <==> e.Success?
    ensures code == 0 || code == 1
  {
    if e.Success? then 0 else 1
  }

  /** The methods the program supports, in the order it lists them. */
  const MethodsSupported: seq<string> := ["type", "name", "promoted", "list"]

  /** The ids that the run asks the hub to delete, in order. */
  function DeletedIds(events: seq<Event>): (ids: seq<string>)
    ensures |ids| <= |events|
    ensures (forall k :: 0 <= k < |events| ==> !events[k].Deleting?) ==> ids == []
  {
    if events == [] then []
    else (if events[0].Deleting? then [events[0].device.id] else []) + DeletedIds(events[1..])
  }
}
