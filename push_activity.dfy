/** The activity event pushed to the parent application after a change: where
    it is posted and the payload it carries. */
module PushActivity {
  import opened Wrappers
  import opened Text
  import opened Types

  /** The path the parent application receives this application's activity on. */
  const ActivityPath: string := "/api/webhooks/" + AppKey + "-activity.json"

  /** Where the activity is posted: a truthy override wins; failing that, a
      truthy base with one trailing "/" removed and the activity path
      appended; with neither there is nowhere to post. */
  function ResolveActivityUrl(baseUrl: Option<string>, overrideUrl: Option<string>): (r: Option<string>)
    ensures Truthy(overrideUrl) ==> r == overrideUrl
    ensures !Truthy(overrideUrl) && !Truthy(baseUrl) ==> r == None
    ensures !Truthy(overrideUrl) && Truthy(baseUrl) ==>
              r == Some(StripTrailingSlash(baseUrl.value) + ActivityPath)
    ensures r.None? <==> !Truthy(overrideUrl) && !Truthy(baseUrl)
    ensures r.Some? ==> r.value != []
  {
    if Truthy(overrideUrl) then overrideUrl
    else if !Truthy(baseUrl) then None
    else Some(StripTrailingSlash(baseUrl.value) + ActivityPath)
  }

  /** Without an override, the base taken apart again: the resolved URL is the
      base, less at most one trailing "/", followed by the activity path. */
  lemma {:induction false} ActivityUrlFromBase(base: string, overrideUrl: Option<string>)
    requires !Truthy(overrideUrl) && base != []
    ensures ResolveActivityUrl(Some(base), overrideUrl).Some?
    ensures var url := ResolveActivityUrl(Some(base), overrideUrl).value;
            |url| >= |ActivityPath|
            && url[|url| - |ActivityPath|..] == ActivityPath
            && var prefix := url[..|url| - |ActivityPath|];
               base == prefix || base == prefix + "/"
  {
    var prefix := StripTrailingSlash(base);
    var url := prefix + ActivityPath;
    assert url[..|url| - |ActivityPath|] == prefix;
    assert url[|url| - |ActivityPath|..] == ActivityPath;
  }

  /** What happened: an event name, when it happened, and the entity it concerns. */
  datatype Activity = Activity(event: string, occurredAt: string, entityId: Option<string>)

  /** The posted payload; the dashboard summary's shape is a type parameter. */
  datatype ActivityPayload<S> = ActivityPayload(userId: UserId, appId: string, activity: Activity, summary: S)

  /** The payload: the user, the activity and the summary passed through
      unchanged, stamped with this application's key. */
  function BuildActivityPayload<S>(userId: UserId, activity: Activity, summary: S): (p: ActivityPayload<S>)
    ensures p.userId == userId && p.activity == activity && p.summary == summary
    ensures p.appId == AppKey
  {
    ActivityPayload(userId, AppKey, activity, summary)
  }
}
