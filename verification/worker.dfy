/**
  One iteration of the `while True` loop in `main` (helper.py): read a
  message, dispatch on RequestType, reply, delete the message. The iteration
  is a function from the message (already decoded from its two JSON layers)
  to the ordered actions it performs. The queue, the clock, uuid4, the
  playbook run and the PUT are outside; their outcomes are parameters.
*/
module Worker {
  import opened Wrappers
  import opened Values
  import opened Playbook
  import opened Reply

  const CREATE := "Create"
  const DELETE := "Delete"
  const OK_REASON := "OK"
  const EXCEPTION_REASON := "Exception executing playbook"

  /** What an iteration does, in order. */
  datatype Action =
    | Sleep                                    // no message: wait and poll again
    | Execute(extraVars: map<string, Json>)    // the playbook run with these variables
    | Respond(url: Json, body: ResponseBody)   // the PUT of reply_to_msg
    | AddWaiting                               // EVENTS.add_waiting()
    | DeleteMessage                            // queue.delete_message(msg)
    | Crash(error: PyError)                    // an exception leaves main; the process ends

  predicate IsDelete(a: Action) { a.DeleteMessage? }
  predicate IsRespond(a: Action) { a.Respond? }
  predicate IsCrash(a: Action) { a.Crash? }
  predicate IsExecute(a: Action) { a.Execute? }

  function CountWhere(acts: seq<Action>, p: Action -> bool): nat
  {
    if acts == [] then 0 else (if p(acts[0]) then 1 else 0) + CountWhere(acts[1..], p)
  }

  lemma {:induction false} CountAppend(a: seq<Action>, b: seq<Action>, p: Action -> bool)
    ensures CountWhere(a + b, p) == CountWhere(a, p) + CountWhere(b, p)
    decreases |a|
  {
    if a == [] {
      assert a + b == b;
    } else {
      CountAppend(a[1..], b, p);
      assert (a + b)[1..] == a[1..] + b;
    }
  }

  /** The request's RequestType, None when it has none (`crmsg.get('RequestType', None)`). */
  function RequestType(m: Fields): Option<Json>
  {
    Get(m, "RequestType")
  }

  /** The call `reply_to_msg(m, ...)` as an action: the PUT, or the KeyError
      raised while building the body. Whether the PUT went through does not
      matter to main, which ignores the returned flag. */
  function ReplyAction(m: Fields, success: bool, reason: string, data: Option<map<string, Json>>, freshId: string): (a: Action)
    ensures a.Respond? <==> HasReplyKeys(m)
    ensures a.Respond? || a == Crash(KeyError)
    ensures a.Respond? ==> Some(a.url) == Get(m, "ResponseURL") && Success(a.body) == BuildBody(m, success, reason, data, freshId)
  {
    match BuildBody(m, success, reason, data, freshId)
    case Success(b) => Respond(Get(m, "ResponseURL").value, b)
    case Failure(e) => Crash(e)
  }

  /** The reply, then `next` unless the reply raised. */
  function Then(reply: Action, next: seq<Action>): seq<Action>
  {
    if reply.Crash? then [reply] else [reply] + next
  }

  /** The ResourceProperties handed to execute_playbook (`{}` when absent). */
  function Properties(m: Fields): Json
  {
    Get(m, "ResourceProperties").GetOr(JObj([]))
  }

  /** The Create branch. As written (`intended` false), the pair returned
      for a call with the wrong argument count cannot be unpacked into three
      names; the ValueError lands in the bare except and the reply carries
      the generic reason. The intended branch replies with the pair's reason. */
  function CreateActions(m: Fields, keypath: string, freshId: string, run: RunnerOutcome, intended: bool): seq<Action>
  {
    var (ran, result) := ExecutePlaybookSpec(keypath, Properties(m), run);
    (if ran.Some? then [Execute(ran.value)] else []) + Then(VerdictReply(m, result, freshId, intended), [AddWaiting, DeleteMessage])
  }

  /** The reply the Create branch sends for what execute_playbook handed back. */
  function VerdictReply(m: Fields, result: PlaybookResult, freshId: string, intended: bool): Action
  {
    match result
    case Returned3(success, reason, data) => ReplyAction(m, success, reason, data, freshId)
    case Returned2(success, reason) =>
      if intended then ReplyAction(m, success, reason, None, freshId)
      else ReplyAction(m, false, EXCEPTION_REASON, None, freshId)
    case Raised(_) => ReplyAction(m, false, EXCEPTION_REASON, None, freshId)
  }

  /** One iteration of main's loop as written. `keypath` is the key file
      made at start-up, `freshId` the value uuid4 would give, `run` how the
      playbook run ends. Any other RequestType reaches
      `reply_to_msg(crmsg, succces=True, ...)`, whose misspelled keyword is a
      TypeError that leaves main before the reply and the delete. */
  function Step(msg: Option<Json>, keypath: string, freshId: string, run: RunnerOutcome): seq<Action>
  {
    match msg
    case None => [Sleep]
    case Some(crmsg) =>
      if !crmsg.JObj? then [Crash(AttributeError)]
      else
        var m := crmsg.fields;
        if RequestType(m) == Some(JStr(CREATE)) then CreateActions(m, keypath, freshId, run, false)
        else if RequestType(m) == Some(JStr(DELETE)) then Then(ReplyAction(m, true, OK_REASON, None, freshId), [DeleteMessage])
        else [Crash(TypeError)]
  }

  /** The iteration as evidently intended: the early-return reason reaches
      the reply, and an unknown RequestType is acknowledged as success. */
  function IntendedStep(msg: Option<Json>, keypath: string, freshId: string, run: RunnerOutcome): seq<Action>
  {
    match msg
    case None => [Sleep]
    case Some(crmsg) =>
      if !crmsg.JObj? then [Crash(AttributeError)]
      else
        var m := crmsg.fields;
        if RequestType(m) == Some(JStr(CREATE)) then CreateActions(m, keypath, freshId, run, true)
        else Then(ReplyAction(m, true, OK_REASON, None, freshId), [DeleteMessage])
  }

  /** The shape of a handled message: one reply, then the delete, last. */
  predicate Commits(acts: seq<Action>)
  {
    && |acts| > 0 && acts[|acts| - 1] == DeleteMessage
    && CountWhere(acts, IsDelete) == 1
    && CountWhere(acts, IsRespond) == 1
    && CountWhere(acts, IsCrash) == 0
  }

  /** The shape of an iteration that dies: the exception is the last action,
      nothing was replied and the message stays on the queue. */
  predicate Aborts(acts: seq<Action>)
  {
    && |acts| > 0 && acts[|acts| - 1].Crash?
    && CountWhere(acts, IsDelete) == 0
    && CountWhere(acts, IsRespond) == 0
    && CountWhere(acts, IsCrash) == 1
  }

  lemma CountSingle(x: Action, p: Action -> bool)
    ensures CountWhere([x], p) == if p(x) then 1 else 0
  {
    assert [x][1..] == [];
  }

  lemma ThenShape(reply: Action, next: seq<Action>, pre: seq<Action>)
    requires reply.Respond? || reply.Crash?
    requires next == [DeleteMessage] || next == [AddWaiting, DeleteMessage]
    requires CountWhere(pre, IsDelete) == 0 && CountWhere(pre, IsRespond) == 0 && CountWhere(pre, IsCrash) == 0
    ensures reply.Respond? ==> Commits(pre + Then(reply, next))
    ensures reply.Crash? ==> Aborts(pre + Then(reply, next))
  {
    var t := Then(reply, next);
    CountAppend(pre, t, IsDelete);
    CountAppend(pre, t, IsRespond);
    CountAppend(pre, t, IsCrash);
    CountSingle(reply, IsDelete);
    CountSingle(reply, IsRespond);
    CountSingle(reply, IsCrash);
    if reply.Respond? {
      CountAppend([reply], next, IsDelete);
      CountAppend([reply], next, IsRespond);
      CountAppend([reply], next, IsCrash);
      CountSingle(DeleteMessage, IsDelete);
      CountSingle(DeleteMessage, IsRespond);
      CountSingle(DeleteMessage, IsCrash);
      if next == [AddWaiting, DeleteMessage] {
        assert next == [AddWaiting] + [DeleteMessage];
        CountAppend([AddWaiting], [DeleteMessage], IsDelete);
        CountAppend([AddWaiting], [DeleteMessage], IsRespond);
        CountAppend([AddWaiting], [DeleteMessage], IsCrash);
        CountSingle(AddWaiting, IsDelete);
        CountSingle(AddWaiting, IsRespond);
        CountSingle(AddWaiting, IsCrash);
      }
    }
  }

  /** The Create branch replies once and deletes, or dies on the reply. */
  lemma CreateCommitsOrAborts(m: Fields, keypath: string, freshId: string, run: RunnerOutcome)
    requires RequestType(m) == Some(JStr(CREATE))
    ensures var acts := Step(Some(JObj(m)), keypath, freshId, run);
            Commits(acts) || Aborts(acts)
  {
    var out := ExecutePlaybookSpec(keypath, Properties(m), run);
    var pre: seq<Action> := if out.0.Some? then [Execute(out.0.value)] else [];
    if out.0.Some? {
      CountSingle(Execute(out.0.value), IsDelete);
      CountSingle(Execute(out.0.value), IsRespond);
      CountSingle(Execute(out.0.value), IsCrash);
    }
    CreateStep(m, keypath, freshId, run, false);
    ThenShape(VerdictReply(m, out.1, freshId, false), [AddWaiting, DeleteMessage], pre);
  }

  /** At-least-once delivery: a message is deleted exactly once, after its
      single reply, or the iteration dies before replying and leaves the
      message for redelivery. An empty poll only sleeps. */
  lemma StepCommitsOrAborts(msg: Option<Json>, keypath: string, freshId: string, run: RunnerOutcome)
    ensures msg.None? ==> Step(msg, keypath, freshId, run) == [Sleep]
    ensures msg.Some? ==> Commits(Step(msg, keypath, freshId, run)) || Aborts(Step(msg, keypath, freshId, run))
  {
    if msg.Some? && msg.value.JObj? {
      var m := msg.value.fields;
      if RequestType(m) == Some(JStr(CREATE)) {
        CreateCommitsOrAborts(m, keypath, freshId, run);
      } else if RequestType(m) == Some(JStr(DELETE)) {
        ThenShape(ReplyAction(m, true, OK_REASON, None, freshId), [DeleteMessage], []);
        assert [] + Then(ReplyAction(m, true, OK_REASON, None, freshId), [DeleteMessage])
               == Step(msg, keypath, freshId, run);
      } else {
        CountSingle(Crash(TypeError), IsDelete);
        CountSingle(Crash(TypeError), IsRespond);
        CountSingle(Crash(TypeError), IsCrash);
      }
    } else if msg.Some? {
      CountSingle(Crash(AttributeError), IsDelete);
      CountSingle(Crash(AttributeError), IsRespond);
      CountSingle(Crash(AttributeError), IsCrash);
    }
  }

  /** An iteration dies exactly when the decoded message is not an object,
      its RequestType is neither Create nor Delete, or it lacks a field the
      reply needs. */
  lemma StepAbortsWhen(crmsg: Json, keypath: string, freshId: string, run: RunnerOutcome)
    ensures var acts := Step(Some(crmsg), keypath, freshId, run);
            acts[|acts| - 1].Crash? <==>
              || !crmsg.JObj?
              || (RequestType(crmsg.fields) != Some(JStr(CREATE)) && RequestType(crmsg.fields) != Some(JStr(DELETE)))
              || !HasReplyKeys(crmsg.fields)
  {
    StepCommitsOrAborts(Some(crmsg), keypath, freshId, run);
  }

  /** A Delete request never runs the playbook and is always answered
      SUCCESS with no reason and no data, then deleted. */
  lemma DeleteAcknowledged(m: Fields, keypath: string, freshId: string, run: RunnerOutcome)
    requires RequestType(m) == Some(JStr(DELETE))
    requires HasReplyKeys(m)
    ensures var acts := Step(Some(JObj(m)), keypath, freshId, run);
      && |acts| == 2 && acts[0].Respond? && acts[1] == DeleteMessage
      && acts[0].body.status == SUCCESS && acts[0].body.reason == None && acts[0].body.data == None
      && CountWhere(acts, IsExecute) == 0
  {
    var acts := Step(Some(JObj(m)), keypath, freshId, run);
    assert acts[1..][1..] == [];
  }

  /** The Create branch, as written or intended, spelled out. */
  lemma CreateStep(m: Fields, keypath: string, freshId: string, run: RunnerOutcome, intended: bool)
    requires RequestType(m) == Some(JStr(CREATE))
    ensures var out := ExecutePlaybookSpec(keypath, Properties(m), run);
            var acts := if intended then IntendedStep(Some(JObj(m)), keypath, freshId, run)
                        else Step(Some(JObj(m)), keypath, freshId, run);
            acts == (if out.0.Some? then [Execute(out.0.value)] else [])
                    + Then(VerdictReply(m, out.1, freshId, intended), [AddWaiting, DeleteMessage])
  {
  }

  /** With the fields the reply needs, the Create branch's reply is sent
      and the two closing actions follow it. */
  lemma VerdictResponds(m: Fields, result: PlaybookResult, freshId: string, intended: bool)
    requires HasReplyKeys(m)
    ensures VerdictReply(m, result, freshId, intended).Respond?
    ensures Then(VerdictReply(m, result, freshId, intended), [AddWaiting, DeleteMessage])
            == [VerdictReply(m, result, freshId, intended), AddWaiting, DeleteMessage]
  {
  }

  /** A Create request whose properties resolve: the run, the reply to
      what execute_playbook handed back, then the two closing actions. */
  lemma ResolvedCreateShape(m: Fields, keypath: string, freshId: string, run: RunnerOutcome)
    requires RequestType(m) == Some(JStr(CREATE))
    requires HasReplyKeys(m)
    requires Properties(m).JObj? && ResolveProperties(keypath, Properties(m).fields).Resolved?
    ensures var acts := Step(Some(JObj(m)), keypath, freshId, run);
      var res := ResolveProperties(keypath, Properties(m).fields);
      && |acts| == 4
      && acts[0] == Execute(res.extraVars)
      && acts[1] == VerdictReply(m, ExecutePlaybookSpec(keypath, Properties(m), run).1, freshId, false)
      && acts[1].Respond? && acts[2] == AddWaiting && acts[3] == DeleteMessage
  {
    var out := ExecutePlaybookSpec(keypath, Properties(m), run);
    ResolvedRun(keypath, Properties(m), run);
    CreateStep(m, keypath, freshId, run, false);
    VerdictResponds(m, out.1, freshId, false);
  }

  /** The reply to a run's verdict, or to the run's exception. */
  lemma RunReply(m: Fields, ignore: Json, run: RunnerOutcome, returnData: map<string, Json>, freshId: string)
    requires HasReplyKeys(m)
    ensures var reply := VerdictReply(m, if run.Completed? then Verdict(ignore, run.dark, run.failures, returnData)
                                         else Raised(run.error), freshId, false);
      && reply.Respond?
      && (reply.body.status == SUCCESS <==>
            run.Completed? && (ignore == JStr("yes") || (run.dark == 0 && run.failures == 0)))
      && (reply.body.status == SUCCESS ==> reply.body.data == Some(returnData))
      && (run.RunnerRaised? ==> reply.body.reason == Some(EXCEPTION_REASON))
      && (run.Completed? && reply.body.status != SUCCESS ==>
            reply.body.reason == Some(if run.dark != 0 then UNREACHABLE else PLAYBOOK_FAILED) && reply.body.data == None)
  {
    match run
    case Completed(dark, failures) =>
      var v := Verdict(ignore, dark, failures, returnData);
      assert VerdictReply(m, v, freshId, false) == ReplyAction(m, v.success, v.reason, v.data, freshId);
    case RunnerRaised(e) =>
  }

  /** A Create request whose properties resolve runs the playbook once with
      the resolved variables; the reply is SUCCESS exactly when the run
      completed and either failures are ignored or no host was unreachable
      or failed, and it then carries the converted host names as Data. */
  lemma CreateRepliesVerdict(m: Fields, keypath: string, freshId: string, run: RunnerOutcome)
    requires RequestType(m) == Some(JStr(CREATE))
    requires HasReplyKeys(m)
    requires Properties(m).JObj? && ResolveProperties(keypath, Properties(m).fields).Resolved?
    ensures var acts := Step(Some(JObj(m)), keypath, freshId, run);
      var res := ResolveProperties(keypath, Properties(m).fields);
      var ignore := IgnoreFlag(Properties(m).fields);
      && |acts| == 4
      && acts[0] == Execute(res.extraVars)
      && acts[1].Respond? && acts[2] == AddWaiting && acts[3] == DeleteMessage
      && (acts[1].body.status == SUCCESS <==>
            run.Completed? && (ignore == JStr("yes") || (run.dark == 0 && run.failures == 0)))
      && (acts[1].body.status == SUCCESS ==> acts[1].body.data == Some(res.returnData))
      && (run.RunnerRaised? ==> acts[1].body.reason == Some(EXCEPTION_REASON))
  {
    ResolvedCreateShape(m, keypath, freshId, run);
    ResolvedRun(keypath, Properties(m), run);
    RunReply(m, IgnoreFlag(Properties(m).fields), run, ResolveProperties(keypath, Properties(m).fields).returnData, freshId);
  }

  /** A completed run that fails is answered with the verdict's own reason:
      an unreachable host before a failed one. */
  lemma CreateFailedRunReason(m: Fields, keypath: string, freshId: string, dark: nat, failures: nat)
    requires RequestType(m) == Some(JStr(CREATE))
    requires HasReplyKeys(m)
    requires Properties(m).JObj? && ResolveProperties(keypath, Properties(m).fields).Resolved?
    requires IgnoreFlag(Properties(m).fields) != JStr("yes") && (dark != 0 || failures != 0)
    ensures var acts := Step(Some(JObj(m)), keypath, freshId, Completed(dark, failures));
      && |acts| == 4 && acts[1].Respond?
      && acts[1].body.status == FAILED
      && acts[1].body.reason == Some(if dark != 0 then UNREACHABLE else PLAYBOOK_FAILED)
      && acts[1].body.data == None
  {
    var run := Completed(dark, failures);
    ResolvedCreateShape(m, keypath, freshId, run);
    ResolvedRun(keypath, Properties(m), run);
    RunReply(m, IgnoreFlag(Properties(m).fields), run, ResolveProperties(keypath, Properties(m).fields).returnData, freshId);
  }

  /** As written, both ways out of the property loop end in the bare except:
      a Create request whose properties are not an object or do not resolve
      (the argument-count pair cannot be unpacked into three names, and an
      exception propagates) is answered FAILED with the generic reason; the
      playbook never runs and the message is still deleted. */
  lemma UnresolvedCreateRepliesException(m: Fields, keypath: string, freshId: string, run: RunnerOutcome)
    requires RequestType(m) == Some(JStr(CREATE))
    requires HasReplyKeys(m)
    requires !Properties(m).JObj? || !ResolveProperties(keypath, Properties(m).fields).Resolved?
    ensures var acts := Step(Some(JObj(m)), keypath, freshId, run);
      && |acts| == 3 && acts[0].Respond?
      && acts[0].body.status == FAILED
      && acts[0].body.reason == Some(EXCEPTION_REASON)
      && acts[1] == AddWaiting && acts[2] == DeleteMessage
  {
    var out := ExecutePlaybookSpec(keypath, Properties(m), run);
    UnresolvedNeverRuns(keypath, Properties(m), run);
    CreateStep(m, keypath, freshId, run, false);
    VerdictResponds(m, out.1, freshId, false);
    NonTripleReply(m, out.1, freshId);
  }

  /** As written, anything but the triple, the pair included, gets the
      generic reason. */
  lemma NonTripleReply(m: Fields, result: PlaybookResult, freshId: string)
    requires !result.Returned3?
    ensures VerdictReply(m, result, freshId, false) == ReplyAction(m, false, EXCEPTION_REASON, None, freshId)
  {
  }

  /** A property the loop cannot resolve, anywhere in the properties, keeps
      them from resolving. */
  lemma UnresolvableEntry(keypath: string, fields: Fields, entry: (string, Json), run: RunnerOutcome)
    requires entry in fields && entry.0 != IGNORE_FAILURE && !Resolvable(entry.1)
    ensures !ResolveProperties(keypath, fields).Resolved?
  {
    RunsIffResolvable(keypath, fields, run);
    if ResolveProperties(keypath, fields).Resolved? {
      ResolvedRun(keypath, JObj(fields), run);
    }
  }

  /** An address with fewer than four dotted parts, under any property, keeps
      the properties from resolving (it raises IndexError if the loop reaches
      it, see `ShortAddressRaises`); the request is answered FAILED with the
      generic reason, then the waiting step and the delete follow. */
  lemma ShortAddressRepliesException(m: Fields, keypath: string, freshId: string, run: RunnerOutcome,
                                     k: string, ip: string, region: Json)
    requires RequestType(m) == Some(JStr(CREATE))
    requires HasReplyKeys(m)
    requires k != IGNORE_FAILURE && CountOf(ip, '.') < 3
    requires Properties(m).JObj?
    requires (k, JObj([(CONVERT_TO_EC2_DNS, JList([JStr(ip), region]))])) in Properties(m).fields
    ensures var acts := Step(Some(JObj(m)), keypath, freshId, run);
      && |acts| == 3 && acts[0].Respond?
      && acts[0].body.status == FAILED
      && acts[0].body.reason == Some(EXCEPTION_REASON)
      && acts[1] == AddWaiting && acts[2] == DeleteMessage
  {
    var call := JObj([(CONVERT_TO_EC2_DNS, JList([JStr(ip), region]))]);
    ShortAddressFault(ip, region);
    UnresolvableEntry(keypath, Properties(m).fields, (k, call), run);
    UnresolvedCreateRepliesException(m, keypath, freshId, run);
  }

  /** A single ConvertToEC2DNS call with one argument stops the loop at the
      early return. */
  lemma OneArgumentCall(keypath: string, run: RunnerOutcome, k: string, ip: Json)
    requires k != IGNORE_FAILURE
    ensures ExecutePlaybookSpec(keypath, JObj([(k, JObj([(CONVERT_TO_EC2_DNS, JList([ip]))]))]), run)
            == (None, Returned2(false, ARG_COUNT_REASON))
  {
    var fields := [(k, JObj([(CONVERT_TO_EC2_DNS, JList([ip]))]))];
    assert Remove(fields, IGNORE_FAILURE) == fields;
    assert Evaluate(fields[0].1) == BadArgCount;
    ArgCountStopsRun(keypath, fields, run, 0);
  }

  /** As written: a Create request with a ConvertToEC2DNS call of one
      argument, under any property, is answered FAILED with the generic
      reason, not with the argument-count message, and the playbook never
      runs. */
  lemma ArgCountReasonLost(m: Fields, keypath: string, freshId: string, run: RunnerOutcome, k: string, ip: Json)
    requires RequestType(m) == Some(JStr(CREATE))
    requires HasReplyKeys(m)
    requires k != IGNORE_FAILURE
    requires Properties(m).JObj?
    requires (k, JObj([(CONVERT_TO_EC2_DNS, JList([ip]))])) in Properties(m).fields
    ensures var acts := Step(Some(JObj(m)), keypath, freshId, run);
      && |acts| == 3 && acts[0].Respond?
      && acts[0].body.status == FAILED
      && acts[0].body.reason == Some(EXCEPTION_REASON)
      && EXCEPTION_REASON != ARG_COUNT_REASON
      && acts[1] == AddWaiting && acts[2] == DeleteMessage
  {
    var call := JObj([(CONVERT_TO_EC2_DNS, JList([ip]))]);
    assert Evaluate(call) == BadArgCount;
    UnresolvableEntry(keypath, Properties(m).fields, (k, call), run);
    UnresolvedCreateRepliesException(m, keypath, freshId, run);
  }

  /** Intended: a request whose only property is such a call is answered
      FAILED with the argument-count message as its reason, and the playbook
      never runs. */
  lemma IntendedArgCountReason(m: Fields, keypath: string, freshId: string, run: RunnerOutcome, k: string, ip: Json)
    requires RequestType(m) == Some(JStr(CREATE))
    requires HasReplyKeys(m)
    requires k != IGNORE_FAILURE
    requires Properties(m) == JObj([(k, JObj([(CONVERT_TO_EC2_DNS, JList([ip]))]))])
    ensures var acts := IntendedStep(Some(JObj(m)), keypath, freshId, run);
      && |acts| == 3 && acts[0].Respond?
      && acts[0].body.status == FAILED
      && acts[0].body.reason == Some(ARG_COUNT_REASON)
      && acts[1] == AddWaiting && acts[2] == DeleteMessage
  {
    var reply := ReplyAction(m, false, ARG_COUNT_REASON, None, freshId);
    OneArgumentCall(keypath, run, k, ip);
    CreateStep(m, keypath, freshId, run, true);
    VerdictResponds(m, Returned2(false, ARG_COUNT_REASON), freshId, true);
    assert VerdictReply(m, Returned2(false, ARG_COUNT_REASON), freshId, true) == reply;
  }

  /** As written: any RequestType other than Create and Delete (or none)
      ends the process without a reply, and the message is never deleted,
      so the queue delivers it again. */
  lemma UnhandledTypeCrashes(m: Fields, keypath: string, freshId: string, run: RunnerOutcome)
    requires RequestType(m) != Some(JStr(CREATE)) && RequestType(m) != Some(JStr(DELETE))
    ensures var acts := Step(Some(JObj(m)), keypath, freshId, run);
      && acts == [Crash(TypeError)]
      && CountWhere(acts, IsRespond) == 0 && CountWhere(acts, IsDelete) == 0
  {
    var acts := Step(Some(JObj(m)), keypath, freshId, run);
    assert acts[1..] == [];
  }

  /** Intended: an unknown RequestType is acknowledged SUCCESS, without a
      run, and the message is deleted. */
  lemma IntendedUnhandledTypeAcknowledged(m: Fields, keypath: string, freshId: string, run: RunnerOutcome)
    requires RequestType(m) != Some(JStr(CREATE))
    requires HasReplyKeys(m)
    ensures var acts := IntendedStep(Some(JObj(m)), keypath, freshId, run);
      && |acts| == 2 && acts[0].Respond? && acts[1] == DeleteMessage
      && acts[0].body.status == SUCCESS
      && CountWhere(acts, IsExecute) == 0
  {
    var acts := IntendedStep(Some(JObj(m)), keypath, freshId, run);
    assert acts[1..][1..] == [];
  }
}
