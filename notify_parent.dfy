/** The notification sent to the parent application: where it is posted and
    the body it carries once the optional fields have their defaults. */
module NotifyParent {
  import opened Wrappers
  import opened Text

  /** The path the parent application receives notifications on. */
  const NotificationPath: string := "/api/webhooks/notifications.json"

  /** Where the notification is posted: a truthy override wins; failing that,
      a truthy base with one trailing "/" removed and the notification path
      appended; with neither there is nowhere to post. */
  function ResolveNotificationUrl(baseUrl: Option<string>, overrideUrl: Option<string>): (r: Option<string>)
    ensures Truthy(overrideUrl) ==> r == overrideUrl
    ensures !Truthy(overrideUrl) && !Truthy(baseUrl) ==> r == None
    ensures !Truthy(overrideUrl) && Truthy(baseUrl) ==>
              r == Some(StripTrailingSlash(baseUrl.value) + NotificationPath)
    ensures r.None? <==> !Truthy(overrideUrl) && !Truthy(baseUrl)
    ensures r.Some? ==> r.value != []
  {
    if Truthy(overrideUrl) then overrideUrl
    else if !Truthy(baseUrl) then None
    else Some(StripTrailingSlash(baseUrl.value) + NotificationPath)
  }

  /** Without an override, the base taken apart again: the resolved URL is the
      base, less at most one trailing "/", followed by the notification path. */
  lemma {:induction false} NotificationUrlFromBase(base: string, overrideUrl: Option<string>)
    requires !Truthy(overrideUrl) && base != []
    ensures ResolveNotificationUrl(Some(base), overrideUrl).Some?
    ensures var url := ResolveNotificationUrl(Some(base), overrideUrl).value;
            |url| >= |NotificationPath|
            && url[|url| - |NotificationPath|..] == NotificationPath
            && var prefix := url[..|url| - |NotificationPath|];
               base == prefix || base == prefix + "/"
  {
    var prefix := StripTrailingSlash(base);
    var url := prefix + NotificationPath;
    assert url[..|url| - |NotificationPath|] == prefix;
    assert url[|url| - |NotificationPath|..] == NotificationPath;
  }

  /** A base that ends in "/" and the same base without it resolve alike. */
  lemma TrailingSlashIrrelevant(base: string, overrideUrl: Option<string>)
    requires base != [] && base[|base| - 1] != '/'
    ensures ResolveNotificationUrl(Some(base + "/"), overrideUrl)
            == ResolveNotificationUrl(Some(base), overrideUrl)
  {
    assert (base + "/")[..|base + "/"| - 1] == base;
  }

  /** The level a notification is shown with. */
  datatype Level = Info | Success | Warning | Error

  /** What a caller hands over; `level`, `meta` and `createdAt` may be left out.
      The metadata record is modelled with string values. */
  datatype Payload = Payload(
    appKey: string,
    userId: string,
    title: string,
    message: string,
    level: Option<Level>,
    meta: Option<map<string, string>>,
    createdAt: Option<string>)

  /** What is posted: every field present, `meta` possibly null (`None`). */
  datatype Body = Body(
    appKey: string,
    userId: string,
    title: string,
    message: string,
    level: Level,
    meta: Option<map<string, string>>,
    createdAt: string)

  /** The posted body: the identifying and text fields copied, the level
      "info" unless given, the metadata null unless given, and the creation
      time `nowIso` (the current time, formatted) unless given. */
  function BuildBody(payload: Payload, nowIso: string): (b: Body)
    ensures b.appKey == payload.appKey && b.userId == payload.userId
    ensures b.title == payload.title && b.message == payload.message
    ensures payload.level.None? ==> b.level == Info
    ensures payload.level.Some? ==> b.level == payload.level.value
    ensures b.meta == payload.meta
    ensures payload.createdAt.None? ==> b.createdAt == nowIso
    ensures payload.createdAt.Some? ==> b.createdAt == payload.createdAt.value
  {
    Body(payload.appKey, payload.userId, payload.title, payload.message,
         payload.level.GetOr(Info), payload.meta, payload.createdAt.GetOr(nowIso))
  }

  /** The clock matters only when the caller left `createdAt` out. */
  lemma BodyIgnoresClockWhenDated(payload: Payload, now1: string, now2: string)
    requires payload.createdAt.Some?
    ensures BuildBody(payload, now1) == BuildBody(payload, now2)
  {
  }

  /** A body read back as a payload with every field given builds the same body. */
  lemma {:induction false} BodyDefaultsIdempotent(payload: Payload, nowIso: string, later: string)
    ensures var b := BuildBody(payload, nowIso);
            BuildBody(Payload(b.appKey, b.userId, b.title, b.message, Some(b.level), b.meta, Some(b.createdAt)), later) == b
  {
  }
}
