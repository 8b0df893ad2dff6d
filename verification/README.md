# VM-Series helper: a Dafny model

`helper.py` is a long-running worker on a bootstrap EC2 instance. It takes
CloudFormation custom-resource requests from an SQS queue. For a `Create`
request, it turns the resource properties into playbook variables, runs
the VM-Series configuration playbook, and PUTs a SUCCESS or FAILED
response to the pre-signed `ResponseURL`. It also keeps a status page, a
timeline of playbook steps that the automation library's callbacks fill in.

This project models the following parts of `helper.py`. Each part is
proved against its own specification:

* **Timeline** (`timeline.dfy`): `WebEvents` is a class over a `seq<Event>`.
  `add_waiting`, `add_pb_event` and `set_result` are its methods, each
  specified by a function on the list (`OpenStep`, `SetLast`). The invariant
  "at most the last event is in progress" holds after any sequence of calls.
* **Callbacks** (`callbacks.dfy`): the two callback classes, as the timeline
  calls they make. A run's callbacks are a given sequence of `Callback`
  values.
* **Playbook** (`playbook.dfy`): `execute_playbook`. This covers popping
  `IgnorePlaybookFailure`, the property loop with its early return and its
  `VMSeriesHelper::ConvertToEC2DNS` expansion, setting `key_filename`, and
  the verdict after the run. The property loop is an imperative method
  (`ResolveLoop`) proved equal to a fold (`ResolveFold`). `ExecutePlaybook`
  is proved equal to `ExecutePlaybookSpec`, and the lemmas are stated about
  these functions.
* **Reply** (`reply.dfy`): `reply_to_msg`. It builds the response body, and
  the outcome of the PUT is a parameter.
* **Worker** (`worker.dfy`): one iteration of the `main` loop. It is modelled
  as the sequence of observable actions it takes: sleep, run the playbook,
  reply, add a waiting step, delete the message, or die with an exception.
* **Values** (`values.dfy`): decoded JSON. Objects are association lists in
  the order that dict iteration visits them, and Python exceptions are
  modelled as a `PyError` value.

Some details of `helper.py` that the model keeps exactly:

* On success the reason is `"okey dokey"`. The two failure reasons are
  `"Ansible: Unreachable"` and `"Ansible: Playbook failed"`
  (helper.py:227-235).
* A one-key object whose key is some other function name is a plain
  value. It is passed to the playbook unchanged (helper.py:191-203).
* `Data` is sent whenever it is not None, so an empty map is sent too
  (helper.py:159-160).
* `execute_playbook` checks no property for existence and fetches nothing
  before the run. The playbook path and the module path are fixed
  (helper.py:207-209).

## Model

| member | source | states |
|---|---|---|
| Timeline.OpenStep | helper.py:27-37 | The list grows by exactly one event. The new event is last, with the given time and title, status progress and no result. Earlier events are unchanged. A previous last event changes only its status, which becomes ok if it was in progress and otherwise stays. The invariant is preserved. |
| Timeline.SetLast | helper.py:39-45 | The length is unchanged and every event but the last is unchanged. The last event keeps its time and title and takes the given status and result. An empty list stays empty. The invariant is preserved. |
| Timeline.WebEvents.constructor | helper.py:22-25 | The timeline starts empty. |
| Timeline.WebEvents.AddWaiting | helper.py:27-31 | The new list is `OpenStep` of the old one with title "waiting", and the invariant is preserved. |
| Timeline.WebEvents.AddPbEvent | helper.py:33-37 | The new list is `OpenStep` of the old one with the given title, and the invariant is preserved. |
| Timeline.WebEvents.SetResult | helper.py:39-45 | The new list is `SetLast` of the old one. On an empty timeline nothing changes. The invariant is preserved. |
| Timeline.ReplayKeepsInvariant | helper.py:27-45 | After any sequence of timeline calls, at most the last event is in progress. This holds whatever status `set_result` is given. |
| Timeline.ReplayKeepsHistory | helper.py:27-45 | Each call that opens a step adds exactly one event, and no call changes an existing event's time or title. |
| Timeline.OpenStepLeavesOneOpen | helper.py:27-37 | After a step is opened, exactly one event is in progress: the new last one. |
| Callbacks.TimelineCall | helper.py:74-116 | No contract. It is the timeline call each callback makes as written. It is specified by `CallsOf`, `Deliver` and `SkippedTaskShownOk`. |
| Callbacks.Raises | helper.py:113-116 | No contract. Only `on_skipped` raises, with NameError. It is specified by `Deliver`. |
| Callbacks.IntendedTimelineCall | helper.py:113-116 | No contract. It is the timeline calls with the skip recorded. It is specified by `IntendedSkippedTaskShownSkipped`. |
| Callbacks.CallsOf | helper.py:74-116 | No callback, as written or intended, sets an existing step back to in progress. |
| Callbacks.PlayTitle | helper.py:92-93 | The play's step title is `starting playbook {` + name + `}`. |
| Callbacks.Deliver | helper.py:74-124 | A callback makes its timeline call, if it has one, on the live timeline and otherwise leaves the timeline alone. `on_skipped` raises NameError. |
| Callbacks.CallbacksKeepInvariant | helper.py:74-116 | Any sequence of callbacks keeps at most the last step in progress. |
| Callbacks.SkippedTaskShownOk | helper.py:113-116 | As written: when a task is skipped and the next task starts, the skipped task's event ends with status ok. |
| Callbacks.IntendedSkippedTaskShownSkipped | helper.py:113-116 | With the skip recorded: the skipped task's event keeps status skipped after the next task starts. |
| Values.Get | helper.py:269 | `dict.get` finds a value exactly when the key is present, and the value is the one stored under that key. |
| Values.Remove | helper.py:189 | `dict.pop` removes exactly the entries with that key, keeps every other entry, and keeps the keys distinct. |
| Values.RemoveKeys | helper.py:189 | After `pop`, the keys left are exactly the other keys. |
| Values.RemoveAbsent | helper.py:189 | `pop` of an absent key leaves the dict, in its order, as it was. |
| Values.Repr | helper.py:199 | No contract. It is Python's `repr` of a decoded JSON value, and is used by `Values.Str`. |
| Values.Str | helper.py:199 | `%s` of a string is the string itself. |
| Playbook.Split | helper.py:198 | `str.split` yields at least one piece, and no piece contains the separator. |
| Playbook.SplitLength | helper.py:198 | There is one more piece than there are separators. |
| Playbook.SplitJoin | helper.py:198 | Joining the pieces with the separator gives back the string. |
| Playbook.ConvertToEC2DNS | helper.py:197-199 | The conversion fails exactly when the address is not a string (AttributeError) or has fewer than three dots (IndexError, on `toks[1]`, `toks[2]` or `toks[3]` depending on how many pieces there are). |
| Playbook.SplitDottedQuad | helper.py:198 | `"a.b.c.d".split('.')` has at least four pieces, and the first four are a, b, c and d. |
| Playbook.ConvertDottedQuad | helper.py:197-199 | a.b.c.d becomes `ec2-a-b-c-d.<region>.compute.amazonaws.com`. Anything from a fifth dot-separated part on is ignored. |
| Playbook.Arguments | helper.py:194-197 | A list unpacks to its items. A string unpacks to one value per character, and an object to one value per key. `len` of a number, a boolean or null raises TypeError, and nothing else fails. |
| Playbook.Chars | helper.py:197 | Iterating a string gives one value per character. |
| Playbook.Keys | helper.py:197 | Iterating a dict gives one value per key. |
| Playbook.ArgumentsUnpack | helper.py:197 | A string unpacks to its one-character strings in order. An object unpacks to its keys in order. |
| Playbook.Evaluate | helper.py:191-202 | A value that is not a one-key ConvertToEC2DNS object is kept as is. A call is the early return exactly when its arguments unpack to other than two values. |
| Playbook.EvaluateCall | helper.py:194-199 | A call whose argument has no `len` raises TypeError. A call with two arguments is converted exactly when `ConvertToEC2DNS` succeeds on them, and then stores that host name. Otherwise it raises `ConvertToEC2DNS`'s exception. |
| Playbook.ConvertedPropertyStored | helper.py:191-205 | In properties with distinct keys that resolve, a property `{"VMSeriesHelper::ConvertToEC2DNS": ["a.b.c.d", region]}` with a string region is stored as `ec2-a-b-c-d.<region>.compute.amazonaws.com`. It sits under its own key in both the playbook variables and the reply data. The key must be neither IgnorePlaybookFailure, which is popped, nor `key_filename`, which helper.py:205 overwrites. |
| Playbook.IgnoreFlag | helper.py:189 | The flag is the stored value when the key is present, otherwise "no". |
| Playbook.ResolveFold | helper.py:190-203 | No contract. It is the property loop as a fold in iteration order. It is specified by `FoldResolved`, `FoldResolvesIff` and `FirstFailureDecides`. |
| Playbook.FoldResolved | helper.py:190-203 | When the loop completes, every property is stored under its own key, converted or unchanged, and no other key is touched. Only converted values are added to the reply data. |
| Playbook.FoldResolvesIff | helper.py:190-203 | The loop completes exactly when every value is a literal or a well-formed call. |
| Playbook.FirstFailureDecides | helper.py:190-203 | The first value, in iteration order, that leaves the loop decides the outcome: the argument-count return or its exception. |
| Playbook.ResolveProperties | helper.py:189-205 | No contract. It is the `pop`, then the loop, then setting `key_filename`. It is specified by `ResolvedProperties` and `ConvertedPropertyStored`. |
| Playbook.ResolvedProperties | helper.py:189-205 | `key_filename` is the key path. IgnorePlaybookFailure is in neither map. The variables are exactly the other properties plus `key_filename`. A converted value sits under the same key in both the variables and the reply data. A literal value is never in the reply data. |
| Playbook.Verdict | helper.py:227-235 | Success exactly when the flag is the string "yes" or no host was unreachable or failed. Success carries "okey dokey" and the reply data. A failure has no data and reports an unreachable host before a failed one. |
| Playbook.IgnoreMeansClean | helper.py:227-228 | With the flag "yes", every completed run gets the same verdict as a clean run. |
| Playbook.ArgCountStopsRun | helper.py:195-196 | A wrong argument count, met before any other bad value, returns the pair, and the playbook does not run. |
| Playbook.ShortAddressFault | helper.py:197-199 | A two-argument call whose address has fewer than three dots raises IndexError. |
| Playbook.ShortAddressRaises | helper.py:197-199 | A call whose address has fewer than three dots, met before any other bad value, makes `execute_playbook` raise IndexError, and the playbook does not run. |
| Playbook.RunsIffResolvable | helper.py:189-225 | The playbook runs exactly when every property other than the flag is a literal or a well-formed call. |
| Playbook.ExecutePlaybookSpec | helper.py:184-235 | No contract. It is what `execute_playbook` hands back and the variables the playbook ran with. It is specified by `FaultyPropertiesRaise`, `UnresolvedNeverRuns`, `ArgCountStopsRun` and `RunsIffResolvable`, and `ExecutePlaybook` is proved to compute it. |
| Playbook.FaultyPropertiesRaise | helper.py:189-202 | Properties that are not an object, or a loop that raises, mean the playbook never runs and `execute_playbook` raises. |
| Playbook.UnresolvedNeverRuns | helper.py:189-225 | Properties that are not an object, or that do not resolve, never reach the run, and the result is not the triple. |
| Worker.UnresolvableEntry | helper.py:190-203 | A property other than the flag that is neither a literal nor a well-formed call, wherever it sits, keeps the properties from resolving. |
| Playbook.ResolveLoop | helper.py:190-203 | The imperative loop over the properties computes exactly `ResolveFold`. That includes stopping at the first wrong argument count or the first exception. |
| Playbook.ExecutePlaybook | helper.py:184-235 | The imperative function computes exactly `ExecutePlaybookSpec`: the variables the playbook ran with, and the result handed back. |
| Reply.BuildBody | helper.py:142-160 | Raises KeyError exactly when ResponseURL, StackId, RequestId or LogicalResourceId is missing. Otherwise: the Status is SUCCESS exactly on success, the ids are copied from the request, and a Reason is present exactly on failure. The PhysicalResourceId is echoed, or fresh when absent, and the data is passed through. |
| Reply.ReplyToMsg | helper.py:142-173 | The body goes to the request's ResponseURL. The call returns False exactly when the PUT raises. A missing field raises KeyError before any PUT. |
| Reply.ReasonExactlyOnFailure | helper.py:145-152 | A body carries a Reason exactly when its Status is FAILED. |
| Worker.ReplyAction | helper.py:276-284 | The reply is sent exactly when the request has the reply fields. It goes to the request's ResponseURL and carries `BuildBody`'s body. Otherwise the iteration dies with KeyError. |
| Worker.Step | helper.py:258-286 | No contract. It is one iteration of the loop as written. It is specified by `StepCommitsOrAborts`, `StepAbortsWhen`, `DeleteAcknowledged`, `CreateRepliesVerdict` and the lemmas below. |
| Worker.IntendedStep | helper.py:270-286 | No contract. It is the iteration with the two Worker findings corrected. It is specified by `IntendedArgCountReason` and `IntendedUnhandledTypeAcknowledged`. |
| Worker.CreateActions | helper.py:270-279 | No contract. It is the Create branch: the run if there is one, the reply, then the waiting step and the delete. It is specified by `CreateCommitsOrAborts`, `CreateRepliesVerdict`, `CreateFailedRunReason` and `UnresolvedCreateRepliesException`. |
| Worker.VerdictReply | helper.py:271-278 | No contract. It is the reply to what `execute_playbook` handed back. It is specified by `VerdictResponds` and `RunReply`. |
| Worker.VerdictResponds | helper.py:271-279 | With the reply fields present, the Create branch's reply is sent and the waiting step and the delete follow it. |
| Worker.CreateCommitsOrAborts | helper.py:270-286 | A Create is replied to once and deleted last, or dies on the reply with no delete. |
| Worker.StepCommitsOrAborts | helper.py:258-286 | An empty poll only sleeps. A message is either replied to once and then deleted once, as the last action, or the iteration dies with no reply and no delete. |
| Worker.StepAbortsWhen | helper.py:265-286 | An iteration dies exactly when the message is not an object, its RequestType is neither Create nor Delete, or a reply field is missing. |
| Worker.DeleteAcknowledged | helper.py:280-281 | A Delete never runs the playbook. It is answered SUCCESS with no reason and no data, then deleted. |
| Worker.ResolvedCreateShape | helper.py:270-279 | With resolving properties, a Create takes four actions: the run with the resolved variables, the reply to the result, the waiting step, and the delete. |
| Worker.RunReply | helper.py:227-235 | The reply is SUCCESS exactly when the run completed and either the flag is "yes" or no host was unreachable or failed. SUCCESS carries the reply data. A failed run reports unreachable before failed, with no data. An exception from the run becomes "Exception executing playbook". |
| Worker.CreateRepliesVerdict | helper.py:270-279 | A Create whose properties resolve runs the playbook once with the resolved variables. The reply is SUCCESS exactly when the run completed and either the flag is "yes" or no host was unreachable or failed, and then it carries the converted host names as Data. An exception from the run is answered with "Exception executing playbook". A waiting step is added before the delete. |
| Worker.CreateFailedRunReason | helper.py:229-233 | A completed run that fails, with failures not ignored, is answered FAILED with no data. The reason is "Ansible: Unreachable" when a host was unreachable, otherwise "Ansible: Playbook failed". |
| Worker.UnresolvedCreateRepliesException | helper.py:272-279 | As written, a Create whose properties are not an object or do not resolve is answered FAILED with "Exception executing playbook". That covers both the argument-count pair and an exception. Nothing runs, a waiting step is added, and the message is deleted. |
| Worker.NonTripleReply | helper.py:272-276 | Anything `execute_playbook` hands back other than the triple, the pair included, gets the generic reason. |
| Worker.ShortAddressRepliesException | helper.py:197-199 | A ConvertToEC2DNS address with fewer than three dots, under any property of the request, keeps the properties from resolving. It raises IndexError if the loop reaches it, and an earlier bad value may raise first. The request is answered FAILED with "Exception executing playbook", then the waiting step and the delete follow. |
| Worker.OneArgumentCall | helper.py:195-196 | A single ConvertToEC2DNS call with one argument makes `execute_playbook` return the pair before any run. |
| Worker.ArgCountReasonLost | helper.py:196 | As written: a ConvertToEC2DNS call with one argument, under any property of the request, is answered FAILED with "Exception executing playbook", not with the argument-count message. Nothing runs, and the waiting step and the delete follow. |
| Worker.IntendedArgCountReason | helper.py:196 | Returning the triple: a request whose only property is such a call is answered FAILED with "VMSeriesHelper::ConvertToEC2DNS requires 2 args" as its reason. The playbook does not run, and the waiting step and the delete follow. |
| Worker.UnhandledTypeCrashes | helper.py:282-286 | As written: any other RequestType ends the iteration with TypeError, with no reply and no delete. |
| Worker.IntendedUnhandledTypeAcknowledged | helper.py:282-286 | With the keyword spelled `success`: the request is answered SUCCESS without a run and then deleted. |

## Findings

| source | as written | input that shows it | evidently intended | confidence | as-written member | corrected member |
|---|---|---|---|---|---|---|
| helper.py:196 | The early return is a pair. `main` unpacks three values, so the ValueError is caught and the reply reason is "Exception executing playbook". | A Create whose ResourceProperties has exactly one key, other than IgnorePlaybookFailure, whose value is `{"VMSeriesHelper::ConvertToEC2DNS": [x]}` for any x | A FAILED reply whose reason is "VMSeriesHelper::ConvertToEC2DNS requires 2 args" | high; not executed | Worker.ArgCountReasonLost | Worker.IntendedArgCountReason |
| helper.py:284 | `reply_to_msg(crmsg, succces=True, ...)` raises TypeError out of `main`. Nothing is replied, the message is not deleted, and the worker process ends. | A request with RequestType "Update" | Reply SUCCESS "OK", then delete the message | high; not executed | Worker.UnhandledTypeCrashes | Worker.IntendedUnhandledTypeAcknowledged |
| helper.py:114 | `on_skipped` uses an undefined `res`, raises NameError, and never records the skip. The next step then closes the skipped task as ok. | task start, skipped, next task start | The skipped task is shown as skipped | medium; not executed | Callbacks.SkippedTaskShownOk | Callbacks.IntendedSkippedTaskShownSkipped |

Each corrected member is stated about a corrected definition that sits
beside the as-written one:

* `Worker.IntendedStep` and `VerdictReply` with `intended` set, for the
  first two findings.
* `Callbacks.IntendedTimelineCall`, for the third.

`Step` and `TimelineCall` model the code as written.

## Left out

- The SQS queue, `queue.read`, the 10-second sleep and the endless `while` loop: the model covers one iteration (`Worker.Step`), and the polled message is a parameter.
- Decoding the SQS envelope and its `Message` text with `json.loads`: the model starts from the decoded request. Malformed JSON, and an envelope without `Message`, are not modelled.
- Environment variables, `generate_skey` and the EC2 key pair: the key path is a parameter.
- The playbook run itself (`ansible.playbook.PlayBook(...).run()`), the inventory and the module paths: the run's outcome is a parameter, reduced to the counts of unreachable and failed hosts, or an exception.
- The callbacks an actual run makes: the sequence of callbacks is a parameter. The model does not follow a NameError from `on_skipped` into the library.
- The HTTP PUT with urllib2: whether it raises is a parameter.
- `uuid.uuid4()` and `datetime.utcnow()`: the fresh id and the timestamps are parameters.
- `WebEvents._setup_template` and `_render`: the Jinja template, the written status page and the page's script are not part of this model.
- Logging.
- `Values.Repr`, `Values.Str`: `%s` of a region that is not a string follows Python's `repr`. String escapes, floats and the `L` suffix of long integers are not modelled, because JSON numbers are modelled as integers.
- `installer.py`, the upstart job and its `respawn`: what happens after the process ends is outside this model.
