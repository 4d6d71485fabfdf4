# sphere-thing-deleter, modelled in Dafny

The thing deleter is a command-line tool for a Ninja Sphere home-automation
hub. It reads a method (`list`, `type`, `name` or `promoted`) and a value
from its arguments. It fetches the hub's inventory of things (devices), then
walks that inventory in order. For `list` it prints every thing. For the
other methods it prints a "Deleting ..." line for each matching thing and
asks the hub to delete it. The first delete that fails ends the process.

This project models the decision logic of `main` in `main.go`:

- `things.dfy`, module `Things`: the decoded record (`Device`), the
  validated request (`Request`, which keeps the method as the string given
  on the command line), per-device output as structured events (`Listed`,
  `Deleting`, `Unsupported`), the usage errors, and how a run ends.
- `args.dfy`, module `Args`: the validation prefix of `main` (lines 38-70).
  `ParseArgs` assigns `operation` (the Go program's `method`), `value` and
  `boolValue` step by step and stops at the first failed check, as the Go
  program does. `Interpret` states the same decision case by case, and the
  lemmas state what it promises.
  The arguments are the ones after the program name, so `len(os.Args)` is
  `|args| + 1`.
- `dispatch.dfy`, module `FilterLoop`: the indexed loop of `main` (lines
  81-103). `HandleDevice` is the switch for one device, `FilterAndDelete`
  is the loop, and `DeleteThing` stands for the external delete call. The
  hub's refusals are an input: the set of ids whose delete fails. `Trace`
  is the event sequence when every delete succeeds. `Dispatch` is the same
  walk with the abort-on-failure policy. The lemmas relate the two and say
  which devices each method selects.
- `pruner.dfy`, module `Pruner`: a whole invocation. The decoded inventory
  is an input, with `None` for a failed fetch or decode. It is consulted
  only after validation has passed.

Two details of the Go program are kept on purpose:

- For `promoted` the boolean is parsed from the first value token alone,
  before the tokens are joined. So `promoted true x` is accepted, with
  `boolValue` true and `value` "true x" (`PromotedWithTrailingToken`).
- `list` followed by two or more tokens still joins them into `value`,
  which the loop then ignores.

`strings.Contains` is case-sensitive, so `name jim` selects neither
"Jimbo" nor "Bob" (`NameJimScenario`, `NameMatchIsCaseSensitive`).

## Model

| member | source | states |
|---|---|---|
| `Args.IsStringInSlice` | main.go:153-160 | the scan returns true exactly when some element of the list equals the argument; on an empty list it returns false |
| `Args.ParseBool` | main.go:59-66 | the assumed `strconv.ParseBool` literal set: `Some(true)` exactly for "1", "t", "T", "TRUE", "true", "True"; `Some(false)` exactly for the matching false forms; `None` otherwise |
| `Args.Join` | main.go:68-70 | defines `strings.Join`: the parts with `sep` between neighbours; one part joins to itself and no parts to the empty string |
| `Args.JoinAppend` | main.go:68-70 | joining one more token appends a separator and that token to the previous join, the left-to-right way `strings.Join` builds its result |
| `Args.JoinLength` | main.go:68-70 | the joined value is as long as the tokens together plus one separator between each pair of neighbours |
| `Args.ValueOf` | main.go:54-70 | the filter value: for type, name and promoted it is every token after the method joined with single spaces; for list with at most one following token it is empty |
| `Args.Interpret` | main.go:38-70 | the validation decision case by case (too few arguments, unknown method, unparseable boolean, accepted); an accepted request carries the first argument, one of the four supported methods, with a separate value token unless it is list, and its flag is true only for promoted with a true literal first token |
| `Args.ParseArgs` | main.go:38-70 | the step-by-step validation with early exits yields exactly the request or usage error that `Interpret` states case by case |
| `Args.ShortArgumentLists` | main.go:38-56 | no arguments is a usage error; one argument is accepted exactly when it is "list", and then the value is empty |
| `Args.UnknownMethodRejected` | main.go:48-53 | with a value present, the result is an invalid-method error exactly when the method is outside {type, name, promoted, list} |
| `Args.AcceptedMethodIsSupported` | main.go:49-53 | every accepted request carries the first argument as its method, and that method is one of the four supported ones |
| `Args.PromotedUsesFirstToken` | main.go:58-66 | `promoted` is accepted exactly when the first value token parses as a boolean; otherwise the error is the invalid-value error; the flag is that token's value even when more tokens follow |
| `Args.BoolValueOnlyForPromoted` | main.go:33-66 | an accepted request for any other method keeps the flag false |
| `Args.ValueIsJoinedTail` | main.go:54-70 | for type, name and promoted the value is all tokens after the method joined with single spaces; for list it is empty when at most one token follows; with two or more tokens it is always the joined tail |
| `Args.PromotedWithTrailingToken` | main.go:54-70 | `promoted true x` is accepted with flag true and value "true x" |
| `Args.RejectedInvocations` | main.go:38-66 | `foo bar` is an invalid method, `promoted maybe` an invalid value, `type` alone and no arguments are usage errors |
| `FilterLoop.Contains` | main.go:91 | models `strings.Contains`: the substring occurs at some offset with an exact, case-sensitive comparison; a substring longer than the name never occurs |
| `FilterLoop.Matches` | main.go:85-99 | what matching means: for type, Type equals the value exactly; for name, the value is a substring of Name; for promoted, Promoted equals the parsed flag; list and any other method match nothing |
| `FilterLoop.EventsFor` | main.go:82-102 | the switch yields at most one line per device, and yields none exactly when the method filters and the device does not match |
| `FilterLoop.Trace` | main.go:81-103 | the lines of the whole loop when every delete succeeds, device by device in inventory order; at most one line per device |
| `FilterLoop.Dispatch` | main.go:81-103 | the walk either completes or stops with a delete failure, and a failure always names an id the hub refused |
| `FilterLoop.DeleteThing` | main.go:144-151 | the abstract delete succeeds exactly when the hub does not refuse the id |
| `FilterLoop.HandleDevice` | main.go:82-102 | the switch produces exactly the device's events for the method, and reports failure exactly when it issued a delete that the hub refused |
| `FilterLoop.FilterAndDelete` | main.go:81-103 | the indexed loop with early exit produces exactly the events and ending of the `Dispatch` specification |
| `FilterLoop.DispatchCompletes` | main.go:81-103 | a run completes exactly when no id in its full trace's deletions is refused, and it then prints the full trace (no short-circuiting) |
| `FilterLoop.DispatchAborts` | main.go:144-151 | a run stopped by a failed delete printed a non-empty prefix of the full trace, ending with the deletion line of the device whose id was refused; every earlier delete succeeded |
| `FilterLoop.ListTrace` | main.go:83-84 | for list the trace has one listing event per device, at the device's own position, and no deletion |
| `FilterLoop.UnsupportedTrace` | main.go:100-101 | a method outside the four prints the default branch's line once per device and does nothing else |
| `FilterLoop.SupportedTraceHasNoUnsupported` | main.go:82-102 | for a supported method the default branch's line never appears |
| `FilterLoop.MatchIndicesComplete` | main.go:85-99 | a position is among the match positions exactly when the device there passes the method's test |
| `FilterLoop.FilterTraceAtMatches` | main.go:85-99 | for type, name and promoted the trace has one deletion event per match position, naming the device there |
| `FilterLoop.FilterTrace` | main.go:85-99 | for type, name and promoted the deletions are exactly the matching devices, in strictly increasing inventory order, each once |
| `FilterLoop.FilterDeletesMatchingIds` | main.go:85-99 | the ids passed to the delete call are the ids of the matching devices, in inventory order |
| `FilterLoop.EmptyInventory` | main.go:81-103 | an empty inventory yields no events and a normal ending for every request |
| `FilterLoop.EmptySubstringMatchesAll` | main.go:91 | every name contains the empty value, so `name ""` selects every device |
| `FilterLoop.NameMatchIsCaseSensitive` | main.go:91 | "Jimbo" does not contain "jim" but does contain "Jim" |
| `Pruner.Run` | main.go:30-104 | a whole run: it ends in a usage failure exactly when validation fails, and in a decode failure exactly when validation passes and the inventory does not decode; both end before any device line; a delete failure names a refused id |
| `Pruner.RunPruner` | main.go:30-104 | `main` (validation, then the inventory, then the loop) yields exactly the result of `Run` |
| `Pruner.UsageErrorsPrecedeFetch` | main.go:38-72 | a usage error prints no device line and exits with status 1, whatever the inventory and the hub's delete outcomes |
| `Pruner.AcceptedRunNeverUnsupported` | main.go:49-102 | after validation the loop's default branch never fires, whatever the inventory and whichever deletes fail |
| `Pruner.RunSucceeds` | main.go:72-103 | exit status 0 exactly when the arguments are accepted, the inventory decodes and none of the requested deletes fails; the run then prints the full trace |
| `Pruner.ListRun` | main.go:81-84 | a valid list run prints each device once, in order, and exits normally whichever ids the hub would refuse |
| `Pruner.PromotedFalseScenario` | main.go:95-99 | `promoted false` against a promoted and an unpromoted lamp deletes only the unpromoted one |
| `Pruner.NameJimScenario` | main.go:90-94 | `name jim` against "Jimbo" and "Bob" deletes nothing |
| `Pruner.FirstDeleteFailureScenario` | main.go:144-151 | when the first of two matching deletes is refused, the run stops after that device's line and never reaches the second |
| `Things.ExitCode` | main.go:30-104 | status 0 only for a normal ending, status 1 for every other ending |
| `Things.DeletedIds` | main.go:86-98 | the deleted-id list is no longer than the events, and is empty when no event is a deletion |

## Left out

- The HTTP GET in `getThingsJSON` and the JSON decoding of its body: the model takes the decoded inventory as an input and treats any fetch or decode failure as one `DecodeFailure` ending.
- The `curl` process in `deleteThing`: it is an input, the set of ids whose delete fails. `DeleteThing` only decides success or failure from it.
- The text of `printUsage` and the exact `Printf` formats: output is modelled as structured events carrying the device, and usage failures as error values.
- `os.Exit` as a process effect: the model returns an ending (`Exit`) and `ExitCode` maps it to the status.
- The commented-out `curl` variant of `getThingsJSON` is dead code and is not modelled.
- Args.ParseBool: Go's `strconv.ParseBool` is not part of this model. Its accepted literals are an assumption written out as two sets, not a verified fact about the library.
- Strings are sequences of characters. Go compares and searches strings as bytes, and the two agree on the equality and substring tests used here only for well-formed text.
- Running `list` twice on an unchanged inventory gives the same output because every function here is deterministic. No separate lemma states this.
