/**
  The two callback classes helper.py hands to the automation library
  (HelperPlaybookCallbacks and HelperRunnerCallbacks). The library calls them
  during a playbook run; the model takes those calls as a given sequence of
  Callback values. Callbacks that only log change nothing.
*/
module Callbacks {
  import opened Wrappers
  import opened Values
  import opened Timeline

  /** A call from the automation library. Host results arrive already
      serialized (`json.dumps(res)`). */
  datatype Callback =
    | OnPlayStart(name: string)
    | OnTaskStart(name: string)
    | OnSetup
    | OnOk(res: string)
    | OnFailed(res: string)
    | OnSkipped
    | OnUnreachable
    | OnNoHosts
    | OnLogOnly   // on_start, on_notify, on_stats, the async and diff callbacks, ...

  /** The title `on_play_start` gives its step. */
  function PlayTitle(name: string): (t: string)
    ensures |t| == |name| + 20
    ensures t[..19] == "starting playbook {" && t[19..|t| - 1] == name && t[|t| - 1] == '}'
  {
    "starting playbook {" + name + "}"
  }

  /** The timeline call a callback makes, if any, as the source is written:
      `on_skipped` raises NameError (it uses an undefined `res`) before it
      reaches `set_result`, so it makes no call. */
  function TimelineCall(c: Callback, now: string): Option<Op>
  {
    match c
    case OnPlayStart(name) => Some(AddPbEventOp(now, PlayTitle(name)))
    case OnTaskStart(name) => Some(AddPbEventOp(now, name))
    case OnSetup => Some(AddPbEventOp(now, "setup"))
    case OnOk(res) => Some(SetResultOp(Ok, Some(res)))
    case OnFailed(res) => Some(SetResultOp(Failed, Some(res)))
    case _ => None
  }

  /** The exception a callback raises, as the source is written. */
  function Raises(c: Callback): Option<PyError>
  {
    if c.OnSkipped? then Some(NameError) else None
  }

  /** The evidently intended `on_skipped`: mark the current step skipped,
      with no result since the library supplies none. */
  function IntendedTimelineCall(c: Callback, now: string): Option<Op>
  {
    if c.OnSkipped? then Some(SetResultOp(Skipped, None)) else TimelineCall(c, now)
  }

  /** The timeline calls made by a run's callbacks, each with the clock
      reading taken when it fired. No callback writes the status progress
      into an existing step. */
  function CallsOf(cs: seq<(Callback, string)>, intended: bool): (ops: seq<Op>)
    ensures forall i :: 0 <= i < |ops| ==> !(ops[i].SetResultOp? && ops[i].status == Progress)
  {
    if cs == [] then []
    else
      var call := if intended then IntendedTimelineCall(cs[0].0, cs[0].1) else TimelineCall(cs[0].0, cs[0].1);
      (if call.Some? then [call.value] else []) + CallsOf(cs[1..], intended)
  }

  /** Whatever the library reports, in whatever order, the timeline keeps at
      most its last event in progress. */
  lemma CallbacksKeepInvariant(es: seq<Event>, cs: seq<(Callback, string)>, intended: bool)
    requires AtMostLastInProgress(es)
    ensures AtMostLastInProgress(Replay(es, CallsOf(cs, intended)))
  {
    ReplayKeepsInvariant(es, CallsOf(cs, intended));
  }

  /** Deliver one callback to the live timeline. */
  method Deliver(ev: WebEvents, c: Callback, now: string) returns (raised: Option<PyError>)
    modifies ev
    ensures raised == Raises(c)
    ensures TimelineCall(c, now).Some? ==> ev.events == Apply(old(ev.events), TimelineCall(c, now).value)
    ensures TimelineCall(c, now).None? ==> ev.events == old(ev.events)
  {
    raised := None;
    match c
    case OnPlayStart(name) => ev.AddPbEvent(now, PlayTitle(name));
    case OnTaskStart(name) => ev.AddPbEvent(now, name);
    case OnSetup => ev.AddPbEvent(now, "setup");
    case OnOk(res) => ev.SetResult(Ok, Some(res));
    case OnFailed(res) => ev.SetResult(Failed, Some(res));
    case OnSkipped => raised := Some(NameError);
    case OnUnreachable =>
    case OnNoHosts =>
    case OnLogOnly =>
  }

  /** As written: a skipped task is never marked skipped. It stays in
      progress until the next step opens, which closes it as ok. */
  lemma SkippedTaskShownOk(es: seq<Event>, task: string, next: string, t1: string, t2: string, t3: string)
    ensures var after := Replay(es, CallsOf([(OnTaskStart(task), t1), (OnSkipped, t2), (OnTaskStart(next), t3)], false));
            |after| == |es| + 2 && after[|es|].title == task && after[|es|].status == Ok
  {
    var c3 := [(OnTaskStart(next), t3)];
    var c2 := [(OnSkipped, t2)] + c3;
    var cs := [(OnTaskStart(task), t1)] + c2;
    assert c3[1..] == [] && c2[1..] == c3 && cs[1..] == c2;
    assert CallsOf(c3, false) == [AddPbEventOp(t3, next)];
    assert CallsOf(c2, false) == CallsOf(c3, false);
    assert CallsOf(cs, false) == [AddPbEventOp(t1, task)] + CallsOf(c2, false);
    var ops := CallsOf(cs, false);
    assert ops == [AddPbEventOp(t1, task), AddPbEventOp(t3, next)];
    var e1 := OpenStep(es, t1, task);
    assert Replay(es, ops) == Replay(e1, ops[1..]);
    assert ops[1..][1..] == [];
    assert Replay(e1, ops[1..]) == Replay(OpenStep(e1, t3, next), []);
  }

  /** Intended: the skipped task keeps the status skipped after the next step opens. */
  lemma IntendedSkippedTaskShownSkipped(es: seq<Event>, task: string, next: string, t1: string, t2: string, t3: string)
    ensures var after := Replay(es, CallsOf([(OnTaskStart(task), t1), (OnSkipped, t2), (OnTaskStart(next), t3)], true));
            |after| == |es| + 2 && after[|es|].title == task && after[|es|].status == Skipped
  {
    var c3 := [(OnTaskStart(next), t3)];
    var c2 := [(OnSkipped, t2)] + c3;
    var cs := [(OnTaskStart(task), t1)] + c2;
    assert c3[1..] == [] && c2[1..] == c3 && cs[1..] == c2;
    assert CallsOf(c3, true) == [AddPbEventOp(t3, next)];
    assert CallsOf(c2, true) == [SetResultOp(Skipped, None)] + CallsOf(c3, true);
    assert CallsOf(cs, true) == [AddPbEventOp(t1, task)] + CallsOf(c2, true);
    var ops := CallsOf(cs, true);
    assert ops == [AddPbEventOp(t1, task), SetResultOp(Skipped, None), AddPbEventOp(t3, next)];
    var e1 := OpenStep(es, t1, task);
    var e2 := SetLast(e1, Skipped, None);
    assert Replay(es, ops) == Replay(e1, ops[1..]);
    assert Replay(e1, ops[1..]) == Replay(e2, ops[1..][1..]);
    assert ops[1..][1..][1..] == [];
    assert Replay(e2, ops[1..][1..]) == Replay(OpenStep(e2, t3, next), []);
  }
}
