/**
 * The cloud functions (functions/index.js): the notification sent when a
 * check-in/check-out request changes status, the one sent to the line
 * manager when a request is created, the callable that stores a device
 * token, and the manager topic subscription.
 *
 * The `fcm_tokens` collection is a value: its documents by id, and the set
 * of ids whose `get()` throws. Sending and subscribing are not performed:
 * each handler's result is the message it would hand to
 * `admin.messaging()`, or `None` where the source returns `null`.
 */
module Notifications {
  import opened Wrappers
  import opened JsStrings

  // ---------------------------------------------------------------------
  // Data
  // ---------------------------------------------------------------------

  /** A `check_out_requests` document: the fields the functions read. */
  datatype CheckRequest = CheckRequest(
    status: Option<string>,
    employeeId: Option<string>,
    employeeName: Option<string>,
    lineManagerId: Option<string>,
    locationName: Option<string>,
    requestType: Option<string>,
    responseMessage: Option<string>)

  /** An `fcm_tokens` document. */
  datatype TokenDoc = TokenDoc(token: Option<string>)

  /** The `fcm_tokens` collection, and the ids whose lookup throws. */
  datatype TokenStore = TokenStore(docs: map<string, TokenDoc>, failing: set<string>)

  /** The outcome of `collection('fcm_tokens').doc(id).get()`. */
  datatype Fetched = FetchFailed | Absent | Present(doc: TokenDoc)

  /** The `notification` part of a message. */
  datatype Notification = Notification(title: string, body: string)

  /** The message of `sendCheckOutRequestNotification`, without its constant platform settings. */
  datatype StatusMessage = StatusMessage(
    notification: Notification,
    kind: string,
    requestId: string,
    status: string,
    employeeId: string,
    requestType: string,
    message: string,
    token: string)

  /** The message of `sendNewRequestNotification`, without its constant platform settings. */
  datatype RequestMessage = RequestMessage(
    notification: Notification,
    kind: string,
    requestId: string,
    employeeId: Option<string>,
    employeeName: Option<string>,
    locationName: Option<string>,
    requestType: string,
    token: string)

  /** The errors the callable `storeUserFcmToken` rejects with. */
  datatype HttpsError = InvalidArgument(message: string) | Internal

  /** A `subscribeToTopic(token, topic)` call. */
  datatype Subscription = Subscription(token: string, topic: string)

  const StatusUpdateKind := "check_out_request_update"
  const NewRequestKind := "new_check_out_request"
  const TopicPrefix := "manager_"

  // ---------------------------------------------------------------------
  // Token lookup
  // ---------------------------------------------------------------------

  /** `doc(id).get()`: an empty id is not a document path and throws, as does a listed failing id. */
  function Fetch(store: TokenStore, id: string): (f: Fetched)
    ensures f.FetchFailed? <==> id == "" || id in store.failing
    ensures f.Present? <==> id != "" && id !in store.failing && id in store.docs
  {
    if id == "" || id in store.failing then FetchFailed
    else if id in store.docs then Present(store.docs[id])
    else Absent
  }

  /** The token a lookup yields when the document exists and its `token` is truthy. */
  function UsableToken(store: TokenStore, id: string): (t: Option<string>)
    ensures t.Some? <==> id != "" && id !in store.failing && id in store.docs && Truthy(store.docs[id].token)
    ensures t.Some? ==> t == store.docs[id].token && t.value != ""
  {
    var f := Fetch(store, id);
    if f.Present? && Truthy(f.doc.token) then f.doc.token else None
  }

  // ---------------------------------------------------------------------
  // Request type and notification text
  // ---------------------------------------------------------------------

  /** `requestType || 'check-out'`. */
  function RequestTypeOf(requestType: Option<string>): (rt: string)
    ensures Truthy(requestType) ==> rt == requestType.value
    ensures !Truthy(requestType) ==> rt == "check-out"
    ensures rt != ""
  {
    OrElse(requestType, "check-out")
  }

  /** `requestType === 'check-in' ? 'Check-In' : 'Check-Out'`. */
  function DisplayType(requestType: string): (d: string)
    ensures d == "Check-In" <==> requestType == "check-in"
    ensures d == "Check-Out" <==> requestType != "check-in"
  {
    if requestType == "check-in" then "Check-In" else "Check-Out"
  }

  /** `requestType.replace('-', ' ')`: the first hyphen becomes a space. */
  function ActionText(requestType: string): (a: string)
    ensures |a| == |requestType|
    ensures forall i :: 0 <= i < |a| ==> a[i] == if i == IndexOf(requestType, '-') then ' ' else requestType[i]
  {
    ReplaceFirst(requestType, '-', ' ')
  }

  /**
   * The notification for a new status: approved and rejected requests are
   * told so under their display type; any other status gives none.
   */
  function StatusNotification(status: Option<string>, requestType: string): (n: Option<Notification>)
    ensures n.Some? <==> status == Some("approved") || status == Some("rejected")
    ensures status == Some("approved") ==>
      n == Some(Notification(DisplayType(requestType) + " Request Approved",
                             "Your request to " + ActionText(requestType) + " has been approved."))
    ensures status == Some("rejected") ==>
      n == Some(Notification(DisplayType(requestType) + " Request Rejected",
                             "Your request to " + ActionText(requestType) + " has been rejected."))
  {
    if status == Some("approved") then
      Some(Notification(DisplayType(requestType) + " Request Approved",
                        "Your request to " + ActionText(requestType) + " has been approved."))
    else if status == Some("rejected") then
      Some(Notification(DisplayType(requestType) + " Request Rejected",
                        "Your request to " + ActionText(requestType) + " has been rejected."))
    else None
  }

  /** `'check-out'.replace('-', ' ')` is "check out". */
  lemma CheckOutAction()
    ensures ActionText("check-out") == "check out"
  {
    var rt := "check-out";
    assert IndexOf(rt, '-') == 5 by {
      assert rt[5] == '-';
      assert forall i :: 0 <= i < 5 ==> rt[i] != '-';
    }
  }

  /** `'check-in'.replace('-', ' ')` is "check in". */
  lemma CheckInAction()
    ensures ActionText("check-in") == "check in"
  {
    var rt := "check-in";
    assert IndexOf(rt, '-') == 5 by {
      assert rt[5] == '-';
      assert forall i :: 0 <= i < 5 ==> rt[i] != '-';
    }
  }

  /** A request saved without a type is a check-out: its approval reads "Check-Out Request Approved". */
  lemma UntypedApprovalIsCheckOut()
    ensures StatusNotification(Some("approved"), RequestTypeOf(None))
      == Some(Notification("Check-Out" + " Request Approved", "Your request to " + "check out" + " has been approved."))
  {
    CheckOutAction();
    assert DisplayType("check-out") == "Check-Out" by { assert "check-out"[6] != "check-in"[6]; }
  }

  /** A rejected check-in reads "Check-In Request Rejected". */
  lemma CheckInRejection()
    ensures StatusNotification(Some("rejected"), RequestTypeOf(Some("check-in")))
      == Some(Notification("Check-In" + " Request Rejected", "Your request to " + "check in" + " has been rejected."))
  {
    CheckInAction();
  }

  /** The display type is case-sensitive: "Check-In" as a request type is shown as a check-out. */
  lemma DisplayTypeIsCaseSensitive()
    ensures DisplayType(RequestTypeOf(Some("Check-In"))) == "Check-Out"
  {
    assert "Check-In" != "check-in" by { assert "Check-In"[0] != "check-in"[0]; }
  }

  // ---------------------------------------------------------------------
  // sendCheckOutRequestNotification
  // ---------------------------------------------------------------------

  /** The message to the employee once the token is known and the status has a notification. */
  function StatusMessageOf(after: CheckRequest, requestId: string, n: Notification, token: string): StatusMessage
    requires after.status.Some? && after.employeeId.Some?
  {
    StatusMessage(n, StatusUpdateKind, requestId, after.status.value, after.employeeId.value,
                  RequestTypeOf(after.requestType), OrElse(after.responseMessage, ""), token)
  }

  /**
   * The `onUpdate` trigger: nothing when the status is unchanged; then the
   * employee's token is looked up (an absent id is not a document path and
   * throws); a failed lookup, a missing document or an empty token give
   * nothing, and so does a status other than approved or rejected.
   */
  function OnStatusUpdate(before: CheckRequest, after: CheckRequest, requestId: string, store: TokenStore): (r: Option<StatusMessage>)
    ensures r.Some? <==>
      && after.status != before.status
      && (after.status == Some("approved") || after.status == Some("rejected"))
      && after.employeeId.Some?
      && UsableToken(store, after.employeeId.value).Some?
    ensures r.Some? ==>
      && Some(r.value.token) == UsableToken(store, after.employeeId.value)
      && Some(r.value.status) == after.status
      && Some(r.value.employeeId) == after.employeeId
      && Some(r.value.notification) == StatusNotification(after.status, r.value.requestType)
      && r.value.requestType == RequestTypeOf(after.requestType)
  {
    if after.status == before.status then None
    else if after.employeeId.None? then None
    else
      var token := UsableToken(store, after.employeeId.value);
      if token.None? then None
      else
        match StatusNotification(after.status, RequestTypeOf(after.requestType))
        case None => None
        case Some(n) => Some(StatusMessageOf(after, requestId, n, token.value))
  }

  /** Two stores that agree on the employee's lookup give the same result: only that document is read. */
  lemma StatusUpdateReadsOneToken(before: CheckRequest, after: CheckRequest, requestId: string, s1: TokenStore, s2: TokenStore)
    requires after.employeeId.Some? ==> UsableToken(s1, after.employeeId.value) == UsableToken(s2, after.employeeId.value)
    ensures OnStatusUpdate(before, after, requestId, s1) == OnStatusUpdate(before, after, requestId, s2)
  {
  }

  // ---------------------------------------------------------------------
  // sendNewRequestNotification
  // ---------------------------------------------------------------------

  /** `managerIds`: the id itself, then the id without or with the "EMP" prefix. */
  function ManagerIdCandidates(id: string): (ids: seq<string>)
    ensures |ids| == 2 && ids[0] == id && ids[0] != ids[1]
    ensures StartsWith(id, "EMP") ==> "EMP" + ids[1] == id
    ensures !StartsWith(id, "EMP") ==> ids[1] == "EMP" + id
  {
    if StartsWith(id, "EMP") then
      assert id == id[..3] + id[3..];
      [id, id[3..]]
    else
      assert |"EMP" + id| != |id|;
      [id, "EMP" + id]
  }

  /** The prefixed and the bare form of an id are tried on the same two documents, in opposite order. */
  lemma CandidatesOfBothForms(bare: string)
    requires !StartsWith(bare, "EMP")
    ensures ManagerIdCandidates("EMP" + bare) == [ManagerIdCandidates(bare)[1], ManagerIdCandidates(bare)[0]]
  {
    var id := "EMP" + bare;
    assert StartsWith(id, "EMP") by { assert id[..3] == "EMP"; }
    assert id[3..] == bare;
  }

  /** The token of the first candidate that has one; a failed lookup counts as none. */
  function FirstToken(store: TokenStore, ids: seq<string>): (t: Option<string>)
    ensures t.None? <==> forall i :: 0 <= i < |ids| ==> UsableToken(store, ids[i]).None?
    ensures t.Some? ==>
      exists i :: 0 <= i < |ids| && UsableToken(store, ids[i]) == t && (forall j :: 0 <= j < i ==> UsableToken(store, ids[j]).None?)
    decreases |ids|
  {
    if ids == [] then None
    else
      var t := UsableToken(store, ids[0]);
      if t.Some? then t
      else
        var rest := FirstToken(store, ids[1..]);
        assert forall i :: 1 <= i < |ids| ==> ids[i] == ids[1..][i - 1];
        rest
  }

  /** A candidate whose lookup throws is passed over, as the `catch` inside the loop does. */
  lemma FailedLookupIsSkipped(store: TokenStore, ids: seq<string>)
    requires ids != [] && Fetch(store, ids[0]).FetchFailed?
    ensures FirstToken(store, ids) == FirstToken(store, ids[1..])
  {
  }

  /** The manager's notification for a new request, sent with the given token. */
  function RequestMessageOf(request: CheckRequest, requestId: string, token: string): (m: RequestMessage)
    ensures m.token == token && m.kind == NewRequestKind
    ensures m.notification.title == "New " + DisplayType(m.requestType) + " Request"
  {
    var rt := RequestTypeOf(request.requestType);
    RequestMessage(
      Notification("New " + DisplayType(rt) + " Request",
                   TemplateText(request.employeeName) + " has requested to " + ActionText(rt) + " from an offsite location."),
      NewRequestKind, requestId, request.employeeId, request.employeeName, request.locationName, rt, token)
  }

  /**
   * The `onCreate` trigger: an absent `lineManagerId` throws at
   * `startsWith` and sends nothing; otherwise the first candidate id with
   * a token receives the message, and none is sent when no candidate has one.
   */
  function OnRequestCreated(request: CheckRequest, requestId: string, store: TokenStore): (r: Option<RequestMessage>)
    ensures r.Some? <==> request.lineManagerId.Some? && FirstToken(store, ManagerIdCandidates(request.lineManagerId.value)).Some?
    ensures r.Some? ==> Some(r.value.token) == FirstToken(store, ManagerIdCandidates(request.lineManagerId.value))
  {
    if request.lineManagerId.None? then None
    else
      var t := FirstToken(store, ManagerIdCandidates(request.lineManagerId.value));
      if t.Some? then Some(RequestMessageOf(request, requestId, t.value)) else None
  }

  /** `findAndSendNotification`: the candidates in order, stopping at the first usable token. */
  method FindAndSendNotification(store: TokenStore, request: CheckRequest, requestId: string, managerIds: seq<string>)
    returns (r: Option<RequestMessage>)
    ensures var t := FirstToken(store, managerIds);
      r == if t.Some? then Some(RequestMessageOf(request, requestId, t.value)) else None
  {
    var i := 0;
    while i < |managerIds|
      invariant 0 <= i <= |managerIds|
      invariant FirstToken(store, managerIds[i..]) == FirstToken(store, managerIds)
    {
      var tokenDoc := Fetch(store, managerIds[i]);
      if tokenDoc.Present? && Truthy(tokenDoc.doc.token) {
        return Some(RequestMessageOf(request, requestId, tokenDoc.doc.token.value));
      }
      assert managerIds[i..][1..] == managerIds[i + 1..];
      i := i + 1;
    }
    assert managerIds[i..] == [];
    return None;
  }

  /** The whole `sendNewRequestNotification` handler. */
  method SendNewRequestNotification(store: TokenStore, request: CheckRequest, requestId: string)
    returns (r: Option<RequestMessage>)
    ensures r == OnRequestCreated(request, requestId, store)
  {
    if request.lineManagerId.None? {
      return None;
    }
    var managerIds := ManagerIdCandidates(request.lineManagerId.value);
    r := FindAndSendNotification(store, request, requestId, managerIds);
  }

  /** A manager whose token sits under the prefixed id is still reached from the bare id. */
  lemma PrefixedTokenIsFound(store: TokenStore, request: CheckRequest, requestId: string, bare: string, token: string)
    requires request.lineManagerId == Some(bare) && !StartsWith(bare, "EMP")
    requires UsableToken(store, bare).None? && UsableToken(store, "EMP" + bare) == Some(token)
    ensures OnRequestCreated(request, requestId, store) == Some(RequestMessageOf(request, requestId, token))
  {
    var ids := ManagerIdCandidates(bare);
    assert ids[1..][0] == "EMP" + bare;
  }

  // ---------------------------------------------------------------------
  // storeUserFcmToken
  // ---------------------------------------------------------------------

  /**
   * The callable: both arguments must be truthy, else `invalid-argument`;
   * then `{token}` is written under the user id, and a failed write is
   * rejected as `internal`.
   */
  function StoreUserFcmToken(store: TokenStore, userId: Option<string>, token: Option<string>, writeFails: bool)
    : (r: Result<TokenStore, HttpsError>)
    ensures r == Failure(InvalidArgument("User ID and token are required")) <==> !Truthy(userId) || !Truthy(token)
    ensures r.Success? <==> Truthy(userId) && Truthy(token) && !writeFails
    ensures r.Success? ==> r.value.failing == store.failing && r.value.docs.Keys == store.docs.Keys + {userId.value}
    ensures r.Success? ==> userId.value !in store.failing ==> UsableToken(r.value, userId.value) == token
    ensures r.Success? ==> forall id :: id != userId.value ==> UsableToken(r.value, id) == UsableToken(store, id)
  {
    if !Truthy(userId) || !Truthy(token) then Failure(InvalidArgument("User ID and token are required"))
    else if writeFails then Failure(Internal)
    else Success(store.(docs := store.docs[userId.value := TokenDoc(token)]))
  }

  /** A manager who stored a token under the id their requests name is notified with that token. */
  lemma StoredTokenReachesManager(store: TokenStore, managerId: string, token: string, request: CheckRequest, requestId: string)
    requires managerId != "" && token != "" && managerId !in store.failing
    requires request.lineManagerId == Some(managerId)
    ensures var stored := StoreUserFcmToken(store, Some(managerId), Some(token), false);
      && stored.Success?
      && OnRequestCreated(request, requestId, stored.value) == Some(RequestMessageOf(request, requestId, token))
  {
    var stored := StoreUserFcmToken(store, Some(managerId), Some(token), false).value;
    assert UsableToken(stored, managerId) == Some(token);
    assert ManagerIdCandidates(managerId)[0] == managerId;
  }

  // ---------------------------------------------------------------------
  // subscribeManagerToTopic
  // ---------------------------------------------------------------------

  /** `manager_${managerId}`. */
  function TopicName(managerId: string): (topic: string)
    ensures StartsWith(topic, TopicPrefix) && |topic| == |TopicPrefix| + |managerId|
  {
    var topic := TopicPrefix + managerId;
    assert topic[..|TopicPrefix|] == TopicPrefix;
    topic
  }

  /** The manager id a topic name was made from. */
  function TopicManager(topic: string): (managerId: string)
    requires StartsWith(topic, TopicPrefix)
  {
    topic[|TopicPrefix|..]
  }

  /** Distinct managers get distinct topics: the id is read back from the topic name. */
  lemma TopicNameRoundTrip(managerId: string)
    ensures TopicManager(TopicName(managerId)) == managerId
  {
    assert (TopicPrefix + managerId)[|TopicPrefix|..] == managerId;
  }

  /**
   * The `onCreate` trigger on `line_managers`: nothing without a truthy
   * `managerId` or without a usable token under it; otherwise the token is
   * subscribed to the manager's topic.
   */
  function SubscribeManagerToTopic(managerId: Option<string>, store: TokenStore): (r: Option<Subscription>)
    ensures r.Some? <==> Truthy(managerId) && UsableToken(store, managerId.value).Some?
    ensures r.Some? ==> Some(r.value.token) == UsableToken(store, managerId.value)
    ensures r.Some? ==> StartsWith(r.value.topic, TopicPrefix) && TopicManager(r.value.topic) == managerId.value
  {
    if !Truthy(managerId) then None
    else
      var token := UsableToken(store, managerId.value);
      if token.None? then None
      else
        TopicNameRoundTrip(managerId.value);
        Some(Subscription(token.value, TopicName(managerId.value)))
  }
}
