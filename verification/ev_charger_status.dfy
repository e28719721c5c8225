/** The status decision of the EV-charger status tracker: how a data sample, a
    set-power result or the missing-data timer becomes WORKING, NOT_WORKING or
    UNCERTAIN, how an active block overrides that, and when a status is emitted.
    Time is an integer count of clock ticks, and whether the blocking status is
    blocked is supplied with each event. */
module EvChargerStatus {
  import opened Wrappers

  datatype CableState =
    | UnspecifiedCable
    | Unplugged
    | ChargingStationPlugged
    | ChargingStationLocked
    | EvPlugged
    | EvLocked

  datatype ComponentState =
    | UnspecifiedState
    | Starting
    | NotReady
    | Ready
    | Charging
    | Discharging
    | ErrorState
    | AuthorizationRejected
    | Interrupted

  /** The status the tracker reports. */
  datatype Status = Working | NotWorking | Uncertain

  /** The parts of an EV-charger data sample the tracker reads. */
  datatype EvData = EvData(timestamp: int, cable: CableState, state: ComponentState)

  /** The ids of the components a power request succeeded and failed for. */
  datatype SetPowerResult = SetPowerResult(succeeded: set<int>, failed: set<int>)

  /** What the event loop can select: a data sample, a set-power result, or the
      missing-data timer firing. */
  datatype Event = Sample(data: EvData) | PowerResult(result: SetPowerResult) | DataTimeout

  /** One selected event, with the clock reading and with whether the blocking status
      reports itself blocked when it is consulted after the event was handled. */
  datatype Input = Input(now: int, event: Event, blocked: bool)

  /** The tracker's state: which charger, how old data may be, and the last status
      sent. */
  datatype Tracker = Tracker(componentId: int, maxDataAge: int, lastStatus: Status)

  /** A new tracker: its last status is NOT_WORKING. */
  function NewTracker(componentId: int, maxDataAge: int): (t: Tracker)
    ensures t.lastStatus == NotWorking
    ensures t.componentId == componentId && t.maxDataAge == maxDataAge
  {
    Tracker(componentId, maxDataAge, NotWorking)
  }

  /** The six (cable, component) state pairs the tracker accepts as working, listed
      one by one. */
  const WorkingPairs: set<(CableState, ComponentState)> := {
    (EvPlugged, Ready), (EvPlugged, Charging), (EvPlugged, Discharging),
    (EvLocked, Ready), (EvLocked, Charging), (EvLocked, Discharging)
  }

  /** `_is_working`: an EV is plugged in (or locked) and the charger is ready, charging
      or discharging; that is, the state pair is one of the six listed. */
  function IsWorking(d: EvData): (r: bool)
    ensures r <==> (d.cable, d.state) in WorkingPairs
  {
    d.cable in {EvPlugged, EvLocked} && d.state in {Ready, Charging, Discharging}
  }

  /** `_is_stale`: the sample is older than the maximum data age. An age equal to the
      maximum is still fresh, and a sample from the future (or from now, with a
      non-negative maximum age) is never stale. */
  function IsStale(t: Tracker, now: int, d: EvData): (r: bool)
    ensures r <==> d.timestamp < now - t.maxDataAge
    ensures now - d.timestamp == t.maxDataAge ==> !r
    ensures t.maxDataAge >= 0 && now <= d.timestamp ==> !r
  {
    now - d.timestamp > t.maxDataAge
  }

  /** Data that is stale stays stale as the clock advances. */
  lemma StaleStaysStale(t: Tracker, now: int, later: int, d: EvData)
    requires IsStale(t, now, d) && now <= later
    ensures IsStale(t, later, d)
  {
  }

  /** `_handle_ev_data`: stale data means NOT_WORKING whatever it says; fresh data means
      WORKING exactly when it shows a working charger. The last status only selects a
      log message, so it does not influence the result. */
  function HandleEvData(t: Tracker, now: int, d: EvData): (r: Status)
    ensures r != Uncertain
    ensures IsStale(t, now, d) ==> r == NotWorking
    ensures r == Working <==> !IsStale(t, now, d) && IsWorking(d)
  {
    if IsStale(t, now, d) then NotWorking
    else if IsWorking(d) then Working
    else NotWorking
  }

  /** Handling a sample gives the same status whatever the last status was. */
  lemma EvDataIgnoresLastStatus(t: Tracker, now: int, d: EvData, last: Status)
    ensures HandleEvData(t.(lastStatus := last), now, d) == HandleEvData(t, now, d)
  {
  }

  /** The outcome of handling a set-power result: the status, and whether the blocking
      status is asked to block. */
  datatype Handled = Handled(status: Status, block: bool)

  /** `_handle_set_power_result`: WORKING when the request succeeded for this charger;
      otherwise the tracker blocks and reports UNCERTAIN. A charger absent from both
      lists counts as failed. */
  function HandleSetPowerResult(t: Tracker, res: SetPowerResult): (r: Handled)
    ensures r.status == Working <==> t.componentId in res.succeeded
    ensures r.status != NotWorking
    ensures r.block <==> r.status == Uncertain
  {
    if t.componentId in res.succeeded then Handled(Working, false)
    else Handled(Uncertain, true)
  }

  /** The status an event yields before the blocking override, and whether it asks to
      block. A timer event yields NOT_WORKING. */
  function Decide(t: Tracker, now: int, e: Event): (r: Handled)
    ensures e.DataTimeout? ==> r == Handled(NotWorking, false)
    ensures r.block <==> e.PowerResult? && t.componentId !in e.result.succeeded
    ensures e.Sample? ==> r.status == HandleEvData(t, now, e.data)
    ensures e.PowerResult? ==> r == HandleSetPowerResult(t, e.result)
  {
    match e
    case Sample(d) => Handled(HandleEvData(t, now, d), false)
    case PowerResult(res) => HandleSetPowerResult(t, res)
    case DataTimeout => Handled(NotWorking, false)
  }

  /** While blocked, every status but NOT_WORKING becomes UNCERTAIN; NOT_WORKING is
      never overridden, and nothing is when not blocked. */
  function Override(s: Status, blocked: bool): (r: Status)
    ensures !blocked ==> r == s
    ensures s == NotWorking ==> r == NotWorking
    ensures blocked && s != NotWorking ==> r == Uncertain
  {
    if blocked && s != NotWorking then Uncertain else s
  }

  /** The tracker after one event, and the status sent for it, if any. */
  datatype Stepped = Stepped(tracker: Tracker, sent: Option<Status>, block: bool)

  /** One iteration of the event loop in `_run`. The status is sent, and remembered as
      the last status, exactly when it differs from the last one. */
  function Step(t: Tracker, i: Input): (r: Stepped)
    ensures r.tracker.componentId == t.componentId && r.tracker.maxDataAge == t.maxDataAge
    ensures r.tracker.lastStatus == Override(Decide(t, i.now, i.event).status, i.blocked)
    ensures r.sent.Some? <==> r.tracker.lastStatus != t.lastStatus
    ensures r.sent.Some? ==> r.sent.value == r.tracker.lastStatus
    ensures r.block == Decide(t, i.now, i.event).block
  {
    var handled := Decide(t, i.now, i.event);
    var status := Override(handled.status, i.blocked);
    if status != t.lastStatus then Stepped(t.(lastStatus := status), Some(status), handled.block)
    else Stepped(t, None, handled.block)
  }

  /** A failed set-power request reports UNCERTAIN whether or not the blocking status
      is already consulted as blocked. */
  lemma FailedRequestUncertain(t: Tracker, i: Input)
    requires i.event.PowerResult? && t.componentId !in i.event.result.succeeded
    ensures Step(t, i).tracker.lastStatus == Uncertain
    ensures Step(t, i).block
  {
  }

  /** The tracker's outcome after a sequence of events: its final state and the statuses
      sent, in order. */
  datatype Trace = Trace(tracker: Tracker, sent: seq<Status>)

  /** The event loop over a sequence of inputs. What is sent never repeats the status
      sent just before it, the last status sent is the tracker's last status, and that
      is the status the last event yielded. */
  function Run(t: Tracker, inputs: seq<Input>): (r: Trace)
    ensures r.tracker.componentId == t.componentId && r.tracker.maxDataAge == t.maxDataAge
    ensures inputs != [] ==> var i := inputs[|inputs| - 1];
      r.tracker.lastStatus == Override(Decide(t, i.now, i.event).status, i.blocked)
    ensures r.sent == [] ==> r.tracker.lastStatus == t.lastStatus
    ensures r.sent != [] ==> r.sent[0] != t.lastStatus && r.sent[|r.sent| - 1] == r.tracker.lastStatus
    ensures forall k :: 0 < k < |r.sent| ==> r.sent[k] != r.sent[k - 1]
    decreases |inputs|
  {
    if inputs == [] then Trace(t, [])
    else
      var s := Step(t, inputs[0]);
      var rest := Run(s.tracker, inputs[1..]);
      match s.sent
      case None => rest
      case Some(status) =>
        var sent := [status] + rest.sent;
        assert forall k :: 1 < k < |sent| ==> sent[k] == rest.sent[k - 1];
        Trace(rest.tracker, sent)
  }

  /** The status each event yields after the blocking override, one per input. It does
      not depend on the statuses sent before. */
  function Outcomes(t: Tracker, inputs: seq<Input>): (r: seq<Status>)
    ensures |r| == |inputs|
    ensures forall k :: 0 <= k < |inputs| ==>
      r[k] == Override(Decide(t, inputs[k].now, inputs[k].event).status, inputs[k].blocked)
    decreases |inputs|
  {
    if inputs == [] then []
    else [Override(Decide(t, inputs[0].now, inputs[0].event).status, inputs[0].blocked)] + Outcomes(t, inputs[1..])
  }

  /** The statuses of `s` that differ from the one before them, the first compared with
      `last`: a reference for what a status stream sends. */
  function Changes(last: Status, s: seq<Status>): (r: seq<Status>)
    ensures |r| <= |s|
    ensures forall k :: 0 <= k < |r| ==> r[k] in s
    ensures r != [] ==> r[0] != last
    ensures forall k :: 0 < k < |r| ==> r[k] != r[k - 1]
    decreases |s|
  {
    if s == [] then []
    else if s[0] == last then Changes(last, s[1..])
    else
      var rest := Changes(s[0], s[1..]);
      assert forall k :: 0 <= k < |rest| ==> rest[k] in s by {
        forall k | 0 <= k < |rest| ensures rest[k] in s {
          assert rest[k] in s[1..];
        }
      }
      [s[0]] + rest
  }

  /** The event loop sends exactly the changes in the per-event statuses, starting from
      the tracker's last status. */
  lemma {:induction false} RunSendsChanges(t: Tracker, inputs: seq<Input>)
    ensures Run(t, inputs).sent == Changes(t.lastStatus, Outcomes(t, inputs))
    decreases |inputs|
  {
    if inputs != [] {
      var s := Step(t, inputs[0]);
      assert Outcomes(s.tracker, inputs[1..]) == Outcomes(t, inputs)[1..];
      RunSendsChanges(s.tracker, inputs[1..]);
    }
  }

  /** The whole output of a tracker over a run: the initial NOT_WORKING first, then one
      status per change, never the same status twice in a row. */
  function Track(componentId: int, maxDataAge: int, inputs: seq<Input>): (sent: seq<Status>)
    ensures |sent| >= 1 && sent[0] == NotWorking
    ensures forall k :: 0 < k < |sent| ==> sent[k] != sent[k - 1]
    ensures sent[|sent| - 1] == Run(NewTracker(componentId, maxDataAge), inputs).tracker.lastStatus
  {
    var t := NewTracker(componentId, maxDataAge);
    var r := Run(t, inputs);
    var sent := [t.lastStatus] + r.sent;
    assert forall k :: 1 < k < |sent| ==> sent[k] == r.sent[k - 1];
    sent
  }

  /** After the initial NOT_WORKING, a tracker sends exactly the changes in the
      per-event statuses. */
  lemma TrackSendsChanges(componentId: int, maxDataAge: int, inputs: seq<Input>)
    ensures var t := NewTracker(componentId, maxDataAge);
      Track(componentId, maxDataAge, inputs) == [NotWorking] + Changes(NotWorking, Outcomes(t, inputs))
  {
    RunSendsChanges(NewTracker(componentId, maxDataAge), inputs);
  }

  /** A run in which every event yields the last status sends nothing and leaves the
      tracker as it was. */
  lemma {:induction false} QuietRun(t: Tracker, inputs: seq<Input>)
    requires forall k :: 0 <= k < |inputs| ==>
      Override(Decide(t, inputs[k].now, inputs[k].event).status, inputs[k].blocked) == t.lastStatus
    ensures Run(t, inputs) == Trace(t, [])
    decreases |inputs|
  {
    if inputs != [] {
      assert Step(t, inputs[0]).tracker == t;
      QuietRun(t, inputs[1..]);
    }
  }
}
