/** The Analytics schema of server/src/models/Analytics.js: one entry of the
    append-only activity log (a login, a download or a view), its validation
    and defaults. Timestamps are milliseconds since the epoch. */
module AnalyticsModel {

  import opened Common

  datatype ActionType = Login | Download | View

  /** The `actionType` as stored. */
  function ActionName(a: ActionType): string {
    match a
    case Login => "login"
    case Download => "download"
    case View => "view"
  }

  /** The enum validator: only 'login', 'download' and 'view' are action types. */
  function ParseActionType(s: string): (r: Option<ActionType>)
    ensures r.Some? <==> (s == "login" || s == "download" || s == "view")
    ensures r.Some? ==> ActionName(r.value) == s
  {
    if s == "login" then Some(Login)
    else if s == "download" then Some(Download)
    else if s == "view" then Some(View)
    else None
  }

  /** A stored action name reads back as the same action type, and only it does. */
  lemma ActionNameRoundTrip(a: ActionType, s: string)
    ensures ParseActionType(s) == Some(a) <==> s == ActionName(a)
  {
  }

  datatype Event = Event(
    user: UserId,
    actionType: ActionType,
    image: Option<ImageId>,
    collection: Option<CollectionId>,
    timestamp: int,
    ipAddress: Option<string>,
    userAgent: Option<string>)

  /** The fields handed to `Analytics.create`; absent ones are `None`. */
  datatype EventData = EventData(
    user: Option<UserId>,
    actionType: Option<string>,
    image: Option<ImageId>,
    collection: Option<CollectionId>,
    timestamp: Option<int>,
    ipAddress: Option<string>,
    userAgent: Option<string>)

  /** `Analytics.create(data)`: `user` and `actionType` are required and the
      action type must be one of the enum; image, collection, address and
      agent default to null and the timestamp to the creation time. */
  function Create(data: EventData, now: int): (r: Option<Event>)
    ensures r.Some? <==> data.user.Some? && data.actionType.Some? && ParseActionType(data.actionType.value).Some?
    ensures r.Some? ==>
      && r.value.user == data.user.value
      && ActionName(r.value.actionType) == data.actionType.value
      && r.value.image == data.image && r.value.collection == data.collection
      && r.value.timestamp == data.timestamp.GetOr(now)
      && r.value.ipAddress == data.ipAddress && r.value.userAgent == data.userAgent
  {
    if data.user.None? || data.actionType.None? then None
    else match ParseActionType(data.actionType.value)
      case None => None
      case Some(a) =>
        Some(Event(data.user.value, a, data.image, data.collection, data.timestamp.GetOr(now), data.ipAddress, data.userAgent))
  }
}
