/**
 * Channel statistics (getChannelInfo): the channel is the first user whose
 * username equals the lower-cased request parameter; its statistics count the
 * subscription edges that point at it and that leave from it, and say whether
 * the viewer is among its subscribers.
 */
module Channels {
  import opened Base
  import opened Accounts

  /** A subscription edge: `subscriber` follows `channel`. */
  datatype Subscription = Subscription(subscriber: UserId, channel: UserId)

  /** The projected channel document; `$project` keeps `_id` unless told otherwise. */
  datatype ChannelInfo = ChannelInfo(
    id: UserId,
    fullName: Option<string>,
    username: Option<string>,
    avatar: Option<string>,
    coverImage: Option<string>,
    subscriberCount: nat,
    subscribedCount: nat,
    isSubscribed: bool)

  /** The channel ids of the edges, in order; the reference for the subscriber count. */
  function ChannelIds(subs: seq<Subscription>): (r: seq<UserId>)
    ensures |r| == |subs| && forall k :: 0 <= k < |subs| ==> r[k] == subs[k].channel
  {
    seq(|subs|, k requires 0 <= k < |subs| => subs[k].channel)
  }

  /** The subscriber ids of the edges, in order; the reference for the subscribed count. */
  function SubscriberIds(subs: seq<Subscription>): (r: seq<UserId>)
    ensures |r| == |subs| && forall k :: 0 <= k < |subs| ==> r[k] == subs[k].subscriber
  {
    seq(|subs|, k requires 0 <= k < |subs| => subs[k].subscriber)
  }

  /** `$size` of the `$lookup` on `channel`: the edges whose channel is `id`. */
  function CountSubscribers(subs: seq<Subscription>, id: UserId): nat {
    if subs == [] then 0
    else CountSubscribers(subs[..|subs| - 1], id) + (if subs[|subs| - 1].channel == id then 1 else 0)
  }

  /** `$size` of the `$lookup` on `subscriber`: the edges whose subscriber is `id`. */
  function CountSubscribed(subs: seq<Subscription>, id: UserId): nat {
    if subs == [] then 0
    else CountSubscribed(subs[..|subs| - 1], id) + (if subs[|subs| - 1].subscriber == id then 1 else 0)
  }

  /** `$in: [viewer, "$subscribers.subscriber"]`. */
  function HasSubscriber(subs: seq<Subscription>, channel: UserId, viewer: UserId): (r: bool)
    ensures r <==> exists k :: 0 <= k < |subs| && subs[k].channel == channel && subs[k].subscriber == viewer
  {
    if subs == [] then false
    else
      var last := subs[|subs| - 1];
      var r := HasSubscriber(subs[..|subs| - 1], channel, viewer);
      assert forall k :: 0 <= k < |subs| - 1 ==> subs[..|subs| - 1][k] == subs[k];
      r || (last.channel == channel && last.subscriber == viewer)
  }

  /** The subscriber count is the number of occurrences of the channel among the edges' channels. */
  lemma {:induction false} CountSubscribersIsMultiplicity(subs: seq<Subscription>, id: UserId)
    ensures CountSubscribers(subs, id) == multiset(ChannelIds(subs))[id]
  {
    if subs != [] {
      var init := subs[..|subs| - 1];
      CountSubscribersIsMultiplicity(init, id);
      assert ChannelIds(subs) == ChannelIds(init) + [subs[|subs| - 1].channel];
    }
  }

  /** The subscribed count is the number of occurrences of the user among the edges' subscribers. */
  lemma {:induction false} CountSubscribedIsMultiplicity(subs: seq<Subscription>, id: UserId)
    ensures CountSubscribed(subs, id) == multiset(SubscriberIds(subs))[id]
  {
    if subs != [] {
      var init := subs[..|subs| - 1];
      CountSubscribedIsMultiplicity(init, id);
      assert SubscriberIds(subs) == SubscriberIds(init) + [subs[|subs| - 1].subscriber];
    }
  }

  /** A subscribed viewer is one of the counted subscribers. */
  lemma {:induction false} SubscribedImpliesCounted(subs: seq<Subscription>, channel: UserId, viewer: UserId)
    requires HasSubscriber(subs, channel, viewer)
    ensures CountSubscribers(subs, channel) >= 1
  {
    var init := subs[..|subs| - 1];
    if subs[|subs| - 1].channel != channel {
      assert HasSubscriber(init, channel, viewer) by {
        var k :| 0 <= k < |subs| && subs[k].channel == channel && subs[k].subscriber == viewer;
        assert init[k] == subs[k];
      }
      SubscribedImpliesCounted(init, channel, viewer);
    }
  }

  /** getChannelInfo for the (optional) viewer `viewer`. */
  function GetChannelInfo(users: seq<User>, subs: seq<Subscription>, username: Option<string>,
                          viewer: Option<UserId>): (r: Result<ChannelInfo>)
    ensures MissingOrBlank(username) ==> r == Err(ApiError(400, "invalid search"))
    ensures !MissingOrBlank(username) && FindFirst(users, ByUsername(Lower(username.value))).None? ==>
      r == Err(ApiError(400, "channel not available"))
    ensures r.Ok? <==> !MissingOrBlank(username) && FindFirst(users, ByUsername(Lower(username.value))).Some?
    ensures r.Ok? ==>
      && var c := users[FindFirst(users, ByUsername(Lower(username.value))).value];
      && c.username == Some(Lower(username.value))
      && r.value.id == c.id && r.value.username == c.username && r.value.fullName == c.fullName
      && r.value.avatar == c.avatar && r.value.coverImage == c.coverImage
      && r.value.subscriberCount == multiset(ChannelIds(subs))[c.id]
      && r.value.subscribedCount == multiset(SubscriberIds(subs))[c.id]
      && (r.value.isSubscribed <==>
            viewer.Some? && exists k :: 0 <= k < |subs| && subs[k].channel == c.id && subs[k].subscriber == viewer.value)
  {
    if MissingOrBlank(username) then Err(ApiError(400, "invalid search"))
    else
      match FindFirst(users, ByUsername(Lower(username.value)))
      case None => Err(ApiError(400, "channel not available"))
      case Some(i) =>
        var c := users[i];
        CountSubscribersIsMultiplicity(subs, c.id);
        CountSubscribedIsMultiplicity(subs, c.id);
        Ok(ChannelInfo(c.id, c.fullName, c.username, c.avatar, c.coverImage,
                       CountSubscribers(subs, c.id), CountSubscribed(subs, c.id),
                       viewer.Some? && HasSubscriber(subs, c.id, viewer.value)))
  }

  /** The lookup ignores the case of the requested name: asking with its lower-case form gives the same answer. */
  lemma ChannelLookupIgnoresCase(users: seq<User>, subs: seq<Subscription>, name: string, viewer: Option<UserId>)
    ensures GetChannelInfo(users, subs, Some(name), viewer) == GetChannelInfo(users, subs, Some(Lower(name)), viewer)
  {
    TrimEmptyIff(name);
    TrimEmptyIff(Lower(name));
    LowerKeepsBlank(name);
    LowerIdempotent(name);
  }

  /** An anonymous viewer is never reported as subscribed. */
  lemma AnonymousNeverSubscribed(users: seq<User>, subs: seq<Subscription>, username: Option<string>)
    ensures var r := GetChannelInfo(users, subs, username, None); r.Ok? ==> !r.value.isSubscribed
  {
  }
}
