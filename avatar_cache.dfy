/**
 * `getUserAvatar` of src/api/profile.api.ts: a module-level profile cache and a map of
 * fetches in flight, so that concurrent callers for one user share a single fetch. A call is
 * split into its synchronous start (`GetUserAvatar`) and the settling of the fetch it may have
 * started (`FetchSettled`); `fetchUserProfile` itself is an opaque call whose failure, thrown
 * or returned as null, arrives as `None`.
 */
module AvatarCache {
  import opened Wrappers

  const DefaultAvatar := "/User_profil.png"

  /** The one field of a fetched profile that matters here. */
  datatype Profile = Profile(avatarUrl: Option<string>)

  /** `profile?.avatar_url || DEFAULT_AVATAR`. */
  function AvatarOf(p: Option<Profile>): (url: string)
    ensures p.Some? && Truthy(p.value.avatarUrl) ==> url == p.value.avatarUrl.value
    ensures !(p.Some? && Truthy(p.value.avatarUrl)) ==> url == DefaultAvatar
  {
    if p.Some? && Truthy(p.value.avatarUrl) then p.value.avatarUrl.value else DefaultAvatar
  }

  /** What a call to `getUserAvatar` does before its first `await`. */
  datatype Start =
    | Answered(url: string)  // returned without touching the network
    | Joined                 // awaits the fetch already in flight for that user
    | Fetching               // started the one fetch for that user

  class Cache {
    var userProfileCache: map<string, Profile>
    /** The fetch in flight per user, with the number of callers awaiting it. */
    var inflight: map<string, nat>

    /** A user is never both cached and being fetched; the empty id is neither; every fetch has a caller. */
    ghost predicate Valid()
      reads this
    {
      && userProfileCache.Keys !! inflight.Keys
      && "" !in userProfileCache && "" !in inflight
      && forall u :: u in inflight ==> inflight[u] >= 1
    }

    constructor ()
      ensures Valid() && userProfileCache == map[] && inflight == map[]
    {
      userProfileCache := map[];
      inflight := map[];
    }

    /**
     * The synchronous part of `getUserAvatar(userId)`: the empty id and a cached user are
     * answered at once and change nothing; a user with a fetch in flight joins it; any other
     * user registers a new fetch before awaiting it.
     */
    method GetUserAvatar(userId: string) returns (s: Start)
      requires Valid()
      modifies this`inflight
      ensures Valid()
      ensures userProfileCache == old(userProfileCache)
      ensures userId == "" ==> s == Answered(DefaultAvatar) && inflight == old(inflight)
      ensures userId != "" && userId in userProfileCache ==>
        s == Answered(AvatarOf(Some(userProfileCache[userId]))) && inflight == old(inflight)
      ensures userId != "" && userId !in userProfileCache && userId in old(inflight) ==>
        s == Joined && inflight == old(inflight)[userId := old(inflight)[userId] + 1]
      ensures userId != "" && userId !in userProfileCache && userId !in old(inflight) ==>
        s == Fetching && inflight == old(inflight)[userId := 1]
    {
      if userId == "" {
        return Answered(DefaultAvatar);
      }
      if userId in userProfileCache {
        return Answered(AvatarOf(Some(userProfileCache[userId])));
      }
      if userId in inflight {
        inflight := inflight[userId := inflight[userId] + 1];
        return Joined;
      }
      inflight := inflight[userId := 1];
      return Fetching;
    }

    /**
     * The fetch for `userId` settled with `profile` (None: it failed or returned null). Only a
     * profile enters the cache; the in-flight entry goes either way; everyone who awaited the
     * fetch gets the same avatar.
     */
    method FetchSettled(userId: string, profile: Option<Profile>) returns (url: string, callers: nat)
      requires Valid() && userId in inflight
      modifies this
      ensures Valid()
      ensures inflight == old(inflight) - {userId}
      ensures profile.Some? ==> userProfileCache == old(userProfileCache)[userId := profile.value]
      ensures profile.None? ==> userProfileCache == old(userProfileCache)
      ensures url == AvatarOf(profile) && callers == old(inflight)[userId] && callers >= 1
    {
      callers := inflight[userId];
      if profile.Some? {
        userProfileCache := userProfileCache[userId := profile.value];
      }
      inflight := inflight - {userId};
      url := AvatarOf(profile);
    }
  }
}
