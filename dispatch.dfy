/** The filter/dispatch loop of `main`: it walks the decoded inventory in
    index order and, per device, lists it, or prints a deletion line and
    deletes it, according to the request.  A delete that fails ends the
    process, so the events are cut short there. */
module FilterLoop {
  import opened Things

  /** `strings.Contains(s, sub)`: `sub` occurs in `s` at some offset; the
      comparison is exact, so it is case-sensitive. */
  predicate Contains(s: string, sub: string)
    ensures Contains(s, sub) ==> |sub| <= |s|
  {
    exists i :: 0 <= i <= |s| && OccursAt(s, sub, i)
  }

  predicate OccursAt(s: string, sub: string, i: int)
  {
    0 <= i && i + |sub| <= |s| && s[i..i + |sub|] == sub
  }

  /** The three methods that delete what they match. */
  predicate IsFilter(operation: string)
  {
    operation == "type" || operation == "name" || operation == "promoted"
  }

  /** The per-device test of each filtering method. */
  predicate Matches(req: Request, d: Device)
    ensures Matches(req, d) ==> IsFilter(req.operation)
  {
    if req.operation == "type" then d.deviceType == req.value
    else if req.operation == "name" then Contains(d.name, req.value)
    else if req.operation == "promoted" then d.promoted == req.boolValue
    else false
  }

  /** The line (if any) that one device produces. */
  function EventsFor(req: Request, d: Device): (evs: seq<Event>)
    ensures |evs| <= 1
    ensures evs == [] <==> IsFilter(req.operation) && !Matches(req, d)
  {
    if req.operation == "list" then [Listed(d)]
    else if IsFilter(req.operation) then (if Matches(req, d) then [Deleting(d)] else [])
    else [Unsupported]
  }

  /** The events of the loop when every delete succeeds. */
  function Trace(req: Request, ds: seq<Device>): (t: seq<Event>)
    ensures |t| <= |ds|
  {
    if ds == [] then [] else EventsFor(req, ds[0]) + Trace(req, ds[1..])
  }

  /** The loop with the failure policy: the delete of an id in `failing`
      fails, and the run stops right after that device's deletion line. */
  function Dispatch(req: Request, ds: seq<Device>, failing: set<string>): (r: RunResult)
    ensures r.exit.Success? || r.exit.DeleteFailure?
    ensures r.exit.DeleteFailure? ==> r.exit.id in failing
  {
    if ds == [] then RunResult([], Success)
    else
      var evs := EventsFor(req, ds[0]);
      if evs == [Deleting(ds[0])] && ds[0].id in failing then RunResult(evs, DeleteFailure(ds[0].id))
      else Prepend(evs, Dispatch(req, ds[1..], failing))
  }

  function Prepend(evs: seq<Event>, r: RunResult): RunResult
  {
    RunResult(evs + r.events, r.exit)
  }

  /** `deleteThing` as an abstract call: it succeeds unless the hub refuses
      this id. */
  method DeleteThing(id: string, failing: set<string>) returns (ok: bool)
    ensures ok <==> id !in failing
  {
    ok := id !in failing;
  }

  /** The body of the loop for one device: the switch on the method, with
      the deletion line printed before each delete call.  `ok` is false
      when that delete failed, which ends the process. */
  method HandleDevice(req: Request, d: Device, failing: set<string>) returns (evs: seq<Event>, ok: bool)
    ensures evs == EventsFor(req, d)
    ensures ok <==> !(evs == [Deleting(d)] && d.id in failing)
  {
    ok := true;
    if req.operation == "list" {
      evs := [Listed(d)];
    } else if req.operation == "type" {
      evs := [];
      if d.deviceType == req.value {
        evs := [Deleting(d)];
        ok := DeleteThing(d.id, failing);
      }
    } else if req.operation == "name" {
      evs := [];
      if Contains(d.name, req.value) {
        evs := [Deleting(d)];
        ok := DeleteThing(d.id, failing);
      }
    } else if req.operation == "promoted" {
      evs := [];
      if d.promoted == req.boolValue {
        evs := [Deleting(d)];
        ok := DeleteThing(d.id, failing);
      }
    } else {
      evs := [Unsupported];
    }
  }

  /** The `for i` loop of `main`: every device in index order, until a
      delete fails. */
  method FilterAndDelete(req: Request, devices: seq<Device>, failing: set<string>) returns (r: RunResult)
    ensures r == Dispatch(req, devices, failing)
  {
    var events: seq<Event> := [];
    for i := 0 to |devices|
      invariant Dispatch(req, devices, failing) == Prepend(events, Dispatch(req, devices[i..], failing))
    {
      DispatchUnfold(req, devices, i, failing);
      PrependStep(events, EventsFor(req, devices[i]), Dispatch(req, devices[i + 1..], failing));
      var evs, ok := HandleDevice(req, devices[i], failing);
      events := events + evs;
      if !ok {
        return RunResult(events, DeleteFailure(devices[i].id));
      }
    }
    assert devices[|devices|..] == [];
    return RunResult(events, Success);
  }

  /** One step of the loop in terms of the specification. */
  lemma DispatchUnfold(req: Request, ds: seq<Device>, i: nat, failing: set<string>)
    requires i < |ds|
    ensures var evs := EventsFor(req, ds[i]);
      Dispatch(req, ds[i..], failing)
      == if evs == [Deleting(ds[i])] && ds[i].id in failing then RunResult(evs, DeleteFailure(ds[i].id))
         else Prepend(evs, Dispatch(req, ds[i + 1..], failing))
  {
  }

  lemma PrependStep(events: seq<Event>, evs: seq<Event>, r: RunResult)
    ensures Prepend(events, Prepend(evs, r)) == Prepend(events + evs, r)
    ensures Prepend(events, RunResult(evs, r.exit)) == RunResult(events + evs, r.exit)
  {
  }

  lemma {:induction false} DeletedIdsAppend(a: seq<Event>, b: seq<Event>)
    ensures DeletedIds(a + b) == DeletedIds(a) + DeletedIds(b)
  {
    if a == [] {
      assert a + b == b;
    } else {
      var head := if a[0].Deleting? then [a[0].device.id] else [];
      assert (a + b)[0] == a[0];
      assert (a + b)[1..] == a[1..] + b;
      DeletedIdsAppend(a[1..], b);
      calc {
        DeletedIds(a + b);
        head + DeletedIds(a[1..] + b);
        head + (DeletedIds(a[1..]) + DeletedIds(b));
        (head + DeletedIds(a[1..])) + DeletedIds(b);
        DeletedIds(a) + DeletedIds(b);
      }
    }
  }

  /** A run with the failure policy completes exactly when no id it would
      delete is refused, and then its events are the full trace. */
  lemma {:induction false} DispatchCompletes(req: Request, ds: seq<Device>, failing: set<string>)
    ensures Dispatch(req, ds, failing).exit.Success?
            <==> (forall id :: id in DeletedIds(Trace(req, ds)) ==> id !in failing)
    ensures Dispatch(req, ds, failing).exit.Success? ==> Dispatch(req, ds, failing).events == Trace(req, ds)
  {
    if ds != [] {
      DispatchCompletes(req, ds[1..], failing);
      DeletedIdsAppend(EventsFor(req, ds[0]), Trace(req, ds[1..]));
    }
  }

  /** A run stopped by a failed delete has printed a prefix of the full
      trace that ends with the failing device's deletion line, and every
      delete before that one succeeded. */
  lemma {:induction false} DispatchAborts(req: Request, ds: seq<Device>, failing: set<string>)
    requires Dispatch(req, ds, failing).exit.DeleteFailure?
    ensures var r := Dispatch(req, ds, failing);
      && r.events <= Trace(req, ds)
      && |r.events| > 0
      && r.events[|r.events| - 1].Deleting?
      && r.events[|r.events| - 1].device.id == r.exit.id
      && r.exit.id in failing
      && (forall id :: id in DeletedIds(r.events[..|r.events| - 1]) ==> id !in failing)
  {
    var evs := EventsFor(req, ds[0]);
    var r := Dispatch(req, ds, failing);
    if evs == [Deleting(ds[0])] && ds[0].id in failing {
      assert r.events == evs;
      assert r.events[..0] == [];
    } else {
      var rest := Dispatch(req, ds[1..], failing);
      DispatchAborts(req, ds[1..], failing);
      var n := |rest.events|;
      assert r.events == evs + rest.events;
      assert r.events[..|r.events| - 1] == evs + rest.events[..n - 1];
      DeletedIdsAppend(evs, rest.events[..n - 1]);
      assert evs != [] ==> evs == [Deleting(ds[0])] || evs == [Listed(ds[0])] || evs == [Unsupported];
    }
  }

  /** "list" produces one listing line per device, in inventory order, and
      deletes nothing. */
  lemma {:induction false} ListTrace(req: Request, ds: seq<Device>)
    requires req.operation == "list"
    ensures |Trace(req, ds)| == |ds|
    ensures forall k :: 0 <= k < |ds| ==> Trace(req, ds)[k] == Listed(ds[k])
    ensures DeletedIds(Trace(req, ds)) == []
  {
    if ds != [] {
      ListTrace(req, ds[1..]);
      var t := Trace(req, ds);
      forall k | 0 <= k < |ds| ensures t[k] == Listed(ds[k]) {
        if k > 0 {
          assert t[k] == Trace(req, ds[1..])[k - 1];
        }
      }
    }
  }

  /** A method reaching the loop without being one of the four prints the
      default branch's line once per device and deletes nothing. */
  lemma {:induction false} UnsupportedTrace(req: Request, ds: seq<Device>)
    requires req.operation !in MethodsSupported
    ensures |Trace(req, ds)| == |ds|
    ensures forall k :: 0 <= k < |ds| ==> Trace(req, ds)[k] == Unsupported
  {
    if ds != [] {
      UnsupportedTrace(req, ds[1..]);
      var t := Trace(req, ds);
      forall k | 0 <= k < |ds| ensures t[k] == Unsupported {
        if k > 0 {
          assert t[k] == Trace(req, ds[1..])[k - 1];
        }
      }
    }
  }

  /** For a supported method the default branch's line never appears. */
  lemma {:induction false} SupportedTraceHasNoUnsupported(req: Request, ds: seq<Device>)
    requires req.operation in MethodsSupported
    ensures Unsupported !in Trace(req, ds)
  {
    if ds != [] {
      SupportedTraceHasNoUnsupported(req, ds[1..]);
    }
  }

  /** The positions of the matching devices, in increasing order. */
  function MatchIndices(req: Request, ds: seq<Device>): (idx: seq<nat>)
    ensures forall k :: 0 <= k < |idx| ==> idx[k] < |ds|
  {
    if ds == [] then []
    else (if Matches(req, ds[0]) then [0] else []) + Shift(MatchIndices(req, ds[1..]))
  }

  function Shift(idx: seq<nat>): (r: seq<nat>)
    ensures |r| == |idx|
    ensures forall k :: 0 <= k < |idx| ==> r[k] == idx[k] + 1
  {
    seq(|idx|, k requires 0 <= k < |idx| => idx[k] + 1)
  }

  predicate Increasing(idx: seq<nat>)
  {
    forall k1, k2 :: 0 <= k1 < k2 < |idx| ==> idx[k1] < idx[k2]
  }

  /** The positions of matching devices increase strictly. */
  lemma {:induction false} MatchIndicesIncrease(req: Request, ds: seq<Device>)
    ensures Increasing(MatchIndices(req, ds))
  {
    if ds != [] {
      MatchIndicesIncrease(req, ds[1..]);
      var idx, idx' := MatchIndices(req, ds), MatchIndices(req, ds[1..]);
      var head: seq<nat> := if Matches(req, ds[0]) then [0] else [];
      assert idx == head + Shift(idx');
      forall k1, k2 | 0 <= k1 < k2 < |idx| ensures idx[k1] < idx[k2] {
        assert idx[k2] == idx'[k2 - |head|] + 1;
        if k1 >= |head| {
          assert idx[k1] == idx'[k1 - |head|] + 1;
          assert idx'[k1 - |head|] < idx'[k2 - |head|];
        } else {
          assert idx[k1] == 0;
        }
      }
    }
  }

  /** A position is listed exactly when the device there matches. */
  lemma {:induction false} MatchIndicesComplete(req: Request, ds: seq<Device>)
    ensures forall j :: 0 <= j < |ds| ==> (Matches(req, ds[j]) <==> j in MatchIndices(req, ds))
  {
    if ds != [] {
      MatchIndicesComplete(req, ds[1..]);
      var idx' := MatchIndices(req, ds[1..]);
      var head: seq<nat> := if Matches(req, ds[0]) then [0] else [];
      assert MatchIndices(req, ds) == head + Shift(idx');
      forall j | 0 < j < |ds| ensures (j - 1 in idx') <==> (j in Shift(idx')) {
        if j - 1 in idx' {
          var k :| 0 <= k < |idx'| && idx'[k] == j - 1;
          assert Shift(idx')[k] == j;
        }
      }
      forall j | 0 < j < |ds| ensures Matches(req, ds[j]) <==> j in MatchIndices(req, ds) {
        assert ds[j] == ds[1..][j - 1];
      }
    }
  }

  /** `t` holds one deletion line per position in `idx`, naming the device
      there. */
  ghost predicate DeletesAt(t: seq<Event>, idx: seq<nat>, ds: seq<Device>)
  {
    |t| == |idx| && forall k :: 0 <= k < |idx| ==> idx[k] < |ds| && t[k] == Deleting(ds[idx[k]])
  }

  lemma ConsDeletesAt(d: Device, rest: seq<Device>, t: seq<Event>, idx: seq<nat>, m: bool)
    requires DeletesAt(t, idx, rest)
    ensures DeletesAt((if m then [Deleting(d)] else []) + t, (if m then [0] else []) + Shift(idx), [d] + rest)
  {
  }

  /** For a filtering method the trace holds one deletion line per matching
      position, in the order of the positions. */
  lemma {:induction false} FilterTraceAtMatches(req: Request, ds: seq<Device>)
    requires IsFilter(req.operation)
    ensures DeletesAt(Trace(req, ds), MatchIndices(req, ds), ds)
  {
    if ds != [] {
      FilterTraceAtMatches(req, ds[1..]);
      var m := Matches(req, ds[0]);
      assert EventsFor(req, ds[0]) == if m then [Deleting(ds[0])] else [];
      ConsDeletesAt(ds[0], ds[1..], Trace(req, ds[1..]), MatchIndices(req, ds[1..]), m);
      assert [ds[0]] + ds[1..] == ds;
    }
  }

  /** For "type", "name" and "promoted" the trace is one deletion line per
      matching device, in inventory order, each matching device exactly
      once and no other. */
  lemma FilterTrace(req: Request, ds: seq<Device>)
    requires IsFilter(req.operation)
    ensures var t, idx := Trace(req, ds), MatchIndices(req, ds);
      && |t| == |idx|
      && (forall k :: 0 <= k < |idx| ==> t[k] == Deleting(ds[idx[k]]))
      && Increasing(idx)
      && (forall j :: 0 <= j < |ds| ==> (Matches(req, ds[j]) <==> j in idx))
  {
    FilterTraceAtMatches(req, ds);
    MatchIndicesIncrease(req, ds);
    MatchIndicesComplete(req, ds);
  }

  /** The ids deleted for a filtering method are those of the matching
      devices, in inventory order. */
  lemma {:induction false} FilterDeletesMatchingIds(req: Request, ds: seq<Device>)
    requires IsFilter(req.operation)
    ensures var ids, idx := DeletedIds(Trace(req, ds)), MatchIndices(req, ds);
      && |ids| == |idx|
      && (forall k :: 0 <= k < |idx| ==> ids[k] == ds[idx[k]].id)
  {
    FilterTrace(req, ds);
    AllDeletingIds(Trace(req, ds));
  }

  lemma {:induction false} AllDeletingIds(events: seq<Event>)
    requires forall k :: 0 <= k < |events| ==> events[k].Deleting?
    ensures |DeletedIds(events)| == |events|
    ensures forall k :: 0 <= k < |events| ==> DeletedIds(events)[k] == events[k].device.id
  {
    if events != [] {
      AllDeletingIds(events[1..]);
    }
  }

  /** An empty inventory gives no lines and a normal end, whatever the
      request. */
  lemma EmptyInventory(req: Request, failing: set<string>)
    ensures Trace(req, []) == []
    ensures Dispatch(req, [], failing) == RunResult([], Success)
  {
  }

  /** Every name contains the empty string, so `name ""` matches all
      devices. */
  lemma EmptySubstringMatchesAll(s: string)
    ensures Contains(s, "")
  {
    assert OccursAt(s, "", 0);
  }

  /** The match on names is case-sensitive. */
  lemma NameMatchIsCaseSensitive()
    ensures !Contains("Jimbo", "jim")
    ensures Contains("Jimbo", "Jim")
  {
    assert OccursAt("Jimbo", "Jim", 0);
    forall i | 0 <= i <= |"Jimbo"| ensures !OccursAt("Jimbo", "jim", i) {
      if i <= 2 {
        assert "Jimbo"[i..i + 3][0] == "Jimbo"[i] != 'j';
      }
    }
  }
}
