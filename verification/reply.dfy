/**
  `reply_to_msg` in helper.py: the CloudFormation custom-resource response
  that is PUT to the request's ResponseURL. The PUT itself is network I/O;
  the model takes its outcome as a parameter.
*/
module Reply {
  import opened Wrappers
  import opened Values

  const SUCCESS := "SUCCESS"
  const FAILED := "FAILED"

  /** The response body's fields; None marks a field the body leaves out. */
  datatype ResponseBody = ResponseBody(
    status: string,
    stackId: Json,
    requestId: Json,
    logicalResourceId: Json,
    physicalResourceId: Json,
    reason: Option<string>,
    data: Option<map<string, Json>>)

  /** The request fields `reply_to_msg` indexes without a default. */
  predicate HasReplyKeys(m: Fields)
  {
    && HasKey(m, "ResponseURL")
    && HasKey(m, "StackId")
    && HasKey(m, "RequestId")
    && HasKey(m, "LogicalResourceId")
  }

  /** The body `reply_to_msg` builds for request `m`; `freshId` stands for
      `str(uuid.uuid4())`. A missing required field raises KeyError. */
  function BuildBody(m: Fields, success: bool, reason: string, data: Option<map<string, Json>>, freshId: string)
    : (r: Result<ResponseBody, PyError>)
    ensures r.Success? <==> HasReplyKeys(m)
    ensures r.Failure? ==> r.error == KeyError
    ensures r.Success? ==>
      var b := r.value;
      && (b.status == SUCCESS <==> success)
      && (b.status == FAILED <==> !success)
      && Some(b.stackId) == Get(m, "StackId")
      && Some(b.requestId) == Get(m, "RequestId")
      && Some(b.logicalResourceId) == Get(m, "LogicalResourceId")
      && (b.reason.Some? <==> !success)
      && (b.reason.Some? ==> b.reason.value == reason)
      && (HasKey(m, "PhysicalResourceId") ==> Some(b.physicalResourceId) == Get(m, "PhysicalResourceId"))
      && (!HasKey(m, "PhysicalResourceId") ==> b.physicalResourceId == JStr(freshId))
      && b.data == data
  {
    if !HasReplyKeys(m) then Failure(KeyError)
    else
      Success(ResponseBody(
        if success then SUCCESS else FAILED,
        Get(m, "StackId").value,
        Get(m, "RequestId").value,
        Get(m, "LogicalResourceId").value,
        Get(m, "PhysicalResourceId").GetOr(JStr(freshId)),
        if success then None else Some(reason),
        data))
  }

  /** A response as sent: where it went, what it said, and whether the PUT
      went through. */
  datatype Delivery = Delivery(url: Json, body: ResponseBody, delivered: bool)

  /** `reply_to_msg(m, success, reason, data)`: build the body and PUT it.
      `putRaises` says whether the PUT raised; the function then returns False. */
  function ReplyToMsg(m: Fields, success: bool, reason: string, data: Option<map<string, Json>>,
                      freshId: string, putRaises: bool): (r: Result<Delivery, PyError>)
    ensures r.Success? <==> HasReplyKeys(m)
    ensures r.Failure? ==> r.error == KeyError
    ensures r.Success? ==>
      && Some(r.value.url) == Get(m, "ResponseURL")
      && Success(r.value.body) == BuildBody(m, success, reason, data, freshId)
      && (r.value.delivered <==> !putRaises)
  {
    match BuildBody(m, success, reason, data, freshId)
    case Failure(e) => Failure(e)
    case Success(body) => Success(Delivery(Get(m, "ResponseURL").value, body, !putRaises))
  }

  /** The orchestrator can tell a failure by its reason alone: a body carries
      a Reason exactly when its Status is FAILED. */
  lemma ReasonExactlyOnFailure(m: Fields, success: bool, reason: string, data: Option<map<string, Json>>, freshId: string)
    requires HasReplyKeys(m)
    ensures var b := BuildBody(m, success, reason, data, freshId).value;
            b.reason.Some? <==> b.status == FAILED
  {
  }
}
