/**
 * Validation of a "list messages" request received over the messages
 * websocket, and the translation of a validated request into the request
 * handed to the message-listing service.
 */
module TopicMessages {
  import opened Wrappers
  import opened GoInts

  /** Sentinel start offsets: -1 asks for the newest offset, -2 for the oldest. */
  const NewestOffset: Int64 := -1
  const OldestOffset: Int64 := -2

  /** Sentinel partition id: -1 asks for all partitions. */
  const AllPartitions: Int32 := -1

  /** The largest number of messages one request may ask for. */
  const MaxResultsLimit: UInt16 := 500

  /** The request as decoded from the client's JSON. */
  datatype ListMessagesRequest = ListMessagesRequest(
    topicName: string,
    startOffset: Int64,
    partitionId: Int32,
    maxResults: UInt16)

  /** The request accepted by the message-listing service. */
  datatype ListMessageRequest = ListMessageRequest(
    topicName: string,
    partitionId: Int32,
    startOffset: Int64,
    messageCount: UInt16)

  /** The four ways a request can be rejected, one per check. */
  datatype RequestError =
    | TopicNameRequired
    | StartOffsetTooSmall
    | PartitionIdTooSmall
    | MaxResultsOutOfRange
  {
    /** The error text the handler reports for this rejection. */
    function Message(): string {
      match this
      case TopicNameRequired => "topic name is required"
      case StartOffsetTooSmall => "start offset is smaller than -2"
      case PartitionIdTooSmall => "partitionID is smaller than -1"
      case MaxResultsOutOfRange => "max results must be between 1 and 500"
    }
  }

  /** The text that precedes the validation error in the response to a rejected request. */
  const ValidationFailedPrefix := "Failed to validate list message request: "

  /**
   * The message the handler reports to the client for a request: none for a
   * well-formed request, otherwise the prefix followed by the text of the
   * first failing check.
   */
  function RejectionMessage(req: ListMessagesRequest): (text: Option<string>)
    ensures text.None? <==> WellFormed(req)
    ensures text.Some? ==> |text.value| > |ValidationFailedPrefix| && text.value[..|ValidationFailedPrefix|] == ValidationFailedPrefix
    ensures text.Some? ==> Validate(req).Some? && text.value == ValidationFailedPrefix + Validate(req).value.Message()
  {
    match Validate(req)
    case None => None
    case Some(e) => Some(ValidationFailedPrefix + e.Message())
  }

  /** Helper for RejectionMessageIdentifiesCheck: distinct rejections have distinct texts. */
  lemma MessagesDistinct(a: RequestError, b: RequestError)
    ensures a.Message() == b.Message() <==> a == b
  {
  }

  /** The client can tell from the message alone which check, if any, failed. */
  lemma RejectionMessageIdentifiesCheck(a: ListMessagesRequest, b: ListMessagesRequest)
    ensures RejectionMessage(a) == RejectionMessage(b) <==> Validate(a) == Validate(b)
  {
  }

  /** The conditions a request must meet, stated independently of the order of the checks. */
  predicate WellFormed(req: ListMessagesRequest) {
    && req.topicName != ""
    && req.startOffset >= OldestOffset
    && req.partitionId >= AllPartitions
    && 1 <= req.maxResults <= MaxResultsLimit
  }

  /**
   * The validation of a request: None (Go's nil error) when it is acceptable,
   * otherwise the first check that fails, tried in the order topic name,
   * start offset, partition id, result count.
   */
  function Validate(req: ListMessagesRequest): (err: Option<RequestError>)
    ensures err.None? <==> WellFormed(req)
    ensures err == Some(TopicNameRequired) <==> req.topicName == ""
    ensures err == Some(StartOffsetTooSmall) <==>
              req.topicName != "" && req.startOffset < OldestOffset
    ensures err == Some(PartitionIdTooSmall) <==>
              req.topicName != "" && req.startOffset >= OldestOffset && req.partitionId < AllPartitions
    ensures err == Some(MaxResultsOutOfRange) <==>
              && req.topicName != "" && req.startOffset >= OldestOffset && req.partitionId >= AllPartitions
              && (req.maxResults == 0 || req.maxResults > MaxResultsLimit)
  {
    if req.topicName == "" then Some(TopicNameRequired)
    else if req.startOffset < -2 then Some(StartOffsetTooSmall)
    else if req.partitionId < -1 then Some(PartitionIdTooSmall)
    else if req.maxResults <= 0 || req.maxResults > 500 then Some(MaxResultsOutOfRange)
    else None
  }

  /**
   * The struct literal that copies a request into the service's request
   * type: every field keeps its value, and the result count becomes the
   * message count.
   */
  function ToListMessageRequest(req: ListMessagesRequest): (r: ListMessageRequest)
    ensures r.topicName == req.topicName
    ensures r.partitionId == req.partitionId
    ensures r.startOffset == req.startOffset
    ensures r.messageCount == req.maxResults
  {
    ListMessageRequest(
      topicName := req.topicName,
      partitionId := req.partitionId,
      startOffset := req.startOffset,
      messageCount := req.maxResults)
  }

  /**
   * The handler's path from a decoded request to the service request:
   * validation first, and on success the field-for-field copy. The
   * permission check the handler makes between the two (whether the user
   * may view messages of the topic) is not modelled.
   */
  function PrepareListRequest(req: ListMessagesRequest): (r: Result<ListMessageRequest, RequestError>)
    ensures r.Success? <==> WellFormed(req)
    ensures r.Failure? ==> Validate(req) == Some(r.error)
    ensures r.Success? ==>
              && r.value.topicName == req.topicName
              && r.value.partitionId == req.partitionId
              && r.value.startOffset == req.startOffset
              && r.value.messageCount == req.maxResults
    ensures r.Success? ==>
              && r.value.topicName != ""
              && r.value.startOffset >= OldestOffset
              && r.value.partitionId >= AllPartitions
              && 1 <= r.value.messageCount <= MaxResultsLimit
  {
    match Validate(req)
    case Some(e) => Failure(e)
    case None => Success(ToListMessageRequest(req))
  }

  /** The sentinel offsets and the all-partitions id pass validation. */
  lemma SentinelsAccepted(topic: string, offset: Int64, partition: Int32, maxResults: UInt16)
    requires topic != "" && 1 <= maxResults <= 500
    requires offset == NewestOffset || offset == OldestOffset || offset >= 0
    requires partition == AllPartitions || partition >= 0
    ensures Validate(ListMessagesRequest(topic, offset, partition, maxResults)) == None
  {
  }

  /** Result counts: 0 and 501 are rejected, 1 and 500 are accepted. */
  lemma MaxResultsBoundaries(topic: string)
    requires topic != ""
    ensures Validate(ListMessagesRequest(topic, 0, 0, 0)) == Some(MaxResultsOutOfRange)
    ensures Validate(ListMessagesRequest(topic, 0, 0, 1)) == None
    ensures Validate(ListMessagesRequest(topic, 0, 0, 500)) == None
    ensures Validate(ListMessagesRequest(topic, 0, 0, 501)) == Some(MaxResultsOutOfRange)
  {
  }

  /** The first failing check decides the error, even when later checks fail too. */
  lemma FirstFailureDecides(offset: Int64, partition: Int32)
    ensures Validate(ListMessagesRequest("", offset, partition, 0)) == Some(TopicNameRequired)
    ensures offset < -2 ==> Validate(ListMessagesRequest("t", offset, -5, 0)) == Some(StartOffsetTooSmall)
  {
  }
}
