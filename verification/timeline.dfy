/**
  The status page's event timeline (`WebEvents` in helper.py): an ordered list
  of step events of which only the newest may still be in progress.
  Rendering the page after each change is left out; the list is the state.
*/
module Timeline {
  import opened Wrappers

  /** The statuses helper.py writes into an event. */
  datatype Status = Progress | Ok | Failed | Skipped

  /** One step event. `time` is the UTC timestamp text taken when the step
      opened; `result` is the serialized host result, or None. */
  datatype Event = Event(time: string, title: string, status: Status, result: Option<string>)

  const WAITING := "waiting"

  /** The timeline invariant: no event but the last is still in progress. */
  predicate AtMostLastInProgress(es: seq<Event>)
  {
    forall i :: 0 <= i < |es| - 1 ==> es[i].status != Progress
  }

  /** What `add_waiting` and `add_pb_event` do to the list: close an open last
      step to ok, then append a new open step with no result. */
  function OpenStep(es: seq<Event>, now: string, title: string): (r: seq<Event>)
    ensures |r| == |es| + 1
    ensures r[|es|] == Event(now, title, Progress, None)
    ensures forall i :: 0 <= i < |es| - 1 ==> r[i] == es[i]
    ensures es != [] ==> r[|es| - 1] == es[|es| - 1].(status := r[|es| - 1].status)
    ensures es != [] ==>
              r[|es| - 1].status == (if es[|es| - 1].status == Progress then Ok else es[|es| - 1].status)
    ensures AtMostLastInProgress(es) ==> AtMostLastInProgress(r)
  {
    var closed :=
      if |es| > 0 && es[|es| - 1].status == Progress
      then es[|es| - 1 := es[|es| - 1].(status := Ok)]
      else es;
    closed + [Event(now, title, Progress, None)]
  }

  /** What `set_result` does to the list: nothing when it is empty, otherwise
      overwrite the last event's status and result. */
  function SetLast(es: seq<Event>, status: Status, result: Option<string>): (r: seq<Event>)
    ensures |r| == |es|
    ensures forall i :: 0 <= i < |es| - 1 ==> r[i] == es[i]
    ensures es != [] ==> r[|es| - 1].time == es[|es| - 1].time && r[|es| - 1].title == es[|es| - 1].title
    ensures es != [] ==> r[|es| - 1].status == status && r[|es| - 1].result == result
    ensures AtMostLastInProgress(es) ==> AtMostLastInProgress(r)
  {
    if es == [] then es
    else es[|es| - 1 := es[|es| - 1].(status := status, result := result)]
  }

  /** One call on the timeline, with the timestamp the clock gave it. */
  datatype Op =
    | AddWaitingOp(now: string)
    | AddPbEventOp(now: string, title: string)
    | SetResultOp(status: Status, result: Option<string>)

  function Apply(es: seq<Event>, op: Op): seq<Event>
  {
    match op
    case AddWaitingOp(now) => OpenStep(es, now, WAITING)
    case AddPbEventOp(now, title) => OpenStep(es, now, title)
    case SetResultOp(status, result) => SetLast(es, status, result)
  }

  /** The list after a sequence of calls, first call first. */
  function Replay(es: seq<Event>, ops: seq<Op>): seq<Event>
    decreases |ops|
  {
    if ops == [] then es else Replay(Apply(es, ops[0]), ops[1..])
  }

  /** How many of the calls append an event. */
  function Opens(ops: seq<Op>): nat
  {
    if ops == [] then 0 else (if ops[0].SetResultOp? then 0 else 1) + Opens(ops[1..])
  }

  /** After any sequence of calls, at most the last event is in progress. This
      holds for every status passed to `set_result`, `progress` included:
      `set_result` only touches the last event, and the next step closes it. */
  lemma {:induction false} ReplayKeepsInvariant(es: seq<Event>, ops: seq<Op>)
    requires AtMostLastInProgress(es)
    ensures AtMostLastInProgress(Replay(es, ops))
    decreases |ops|
  {
    if ops != [] {
      ReplayKeepsInvariant(Apply(es, ops[0]), ops[1..]);
    }
  }

  /** The timeline is append-only history: the calls add one event per step
      opened and never change an existing event's time or title. */
  lemma {:induction false} ReplayKeepsHistory(es: seq<Event>, ops: seq<Op>)
    ensures |Replay(es, ops)| == |es| + Opens(ops)
    ensures forall i :: 0 <= i < |es| ==>
              Replay(es, ops)[i].time == es[i].time && Replay(es, ops)[i].title == es[i].title
    decreases |ops|
  {
    if ops != [] {
      var next := Apply(es, ops[0]);
      ReplayKeepsHistory(next, ops[1..]);
    }
  }

  /** Once a step has been opened, the timeline ends in exactly one open step
      until `set_result` writes a final status into it. */
  lemma OpenStepLeavesOneOpen(es: seq<Event>, now: string, title: string)
    requires AtMostLastInProgress(es)
    ensures forall i :: 0 <= i < |OpenStep(es, now, title)| ==>
              (OpenStep(es, now, title)[i].status == Progress <==> i == |es|)
  {
  }

  /** The live timeline of the status page. */
  class WebEvents {
    var events: seq<Event>

    constructor ()
      ensures events == []
    {
      events := [];
    }

    /** `add_waiting`: close the open step, then open a "waiting" step. */
    method AddWaiting(now: string)
      modifies this
      ensures events == OpenStep(old(events), now, WAITING)
      ensures AtMostLastInProgress(old(events)) ==> AtMostLastInProgress(events)
    {
      if |events| > 0 && events[|events| - 1].status == Progress {
        events := events[|events| - 1 := events[|events| - 1].(status := Ok)];
      }
      events := events + [Event(now, WAITING, Progress, None)];
    }

    /** `add_pb_event`: close the open step, then open a step with the given title. */
    method AddPbEvent(now: string, title: string)
      modifies this
      ensures events == OpenStep(old(events), now, title)
      ensures AtMostLastInProgress(old(events)) ==> AtMostLastInProgress(events)
    {
      if |events| > 0 && events[|events| - 1].status == Progress {
        events := events[|events| - 1 := events[|events| - 1].(status := Ok)];
      }
      events := events + [Event(now, title, Progress, None)];
    }

    /** `set_result`: on an empty timeline only an error is logged; otherwise
        the last event's status and result are overwritten. */
    method SetResult(status: Status, result: Option<string>)
      modifies this
      ensures events == SetLast(old(events), status, result)
      ensures old(events) == [] ==> events == []
      ensures AtMostLastInProgress(old(events)) ==> AtMostLastInProgress(events)
    {
      if |events| == 0 {
        return;
      }
      events := events[|events| - 1 := events[|events| - 1].(status := status, result := result)];
    }
  }
}
