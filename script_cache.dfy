/**
 * The bookkeeping of `ScriptCache`: a cache from URL to script contents,
 * and the script users waiting for a download, keyed by URL. Requests and
 * their replies are abstracted to a multiset of URLs in flight and a
 * `Reply` record; the callbacks made on script users are recorded in a log.
 */
module Scripts {
  import opened Wrappers

  type Url = string

  /** The identity of a `ScriptUser*`. */
  datatype ScriptUser = ScriptUser(id: nat)

  /** A callback made on a script user. */
  datatype Callback =
    | ScriptContentsAvailable(user: ScriptUser, url: Url, scriptContents: string)
    | ErrorInLoadingScript(user: ScriptUser, url: Url)

  /**
   * A finished network reply: its URL, whether it finished without a
   * network error, its HTTP status code attribute (absent when none was
   * set), and its body.
   */
  datatype Reply = Reply(url: Url, noError: bool, httpStatusCode: Option<int>, body: string)

  /** The test of `scriptDownloaded`: no network error and HTTP status 200. */
  function Succeeded(reply: Reply): (ok: bool)
    ensures ok <==> reply.noError && reply.httpStatusCode.Some? && reply.httpStatusCode.value == 200
  {
    reply.noError && reply.httpStatusCode == Some(200)
  }

  /** The users waiting for `url`; none when the multimap has no entry for it. */
  function PendingUsers(scriptUsers: map<Url, seq<ScriptUser>>, url: Url): seq<ScriptUser>
  {
    if url in scriptUsers then scriptUsers[url] else []
  }

  /**
   * The list `values(url)` returns: the users of `url` from the most
   * recently inserted to the least recently inserted.
   */
  function Reverse<T>(s: seq<T>): (r: seq<T>)
    ensures |r| == |s|
    ensures forall i :: 0 <= i < |s| ==> r[i] == s[|s| - 1 - i]
  {
    if s == [] then [] else [s[|s| - 1]] + Reverse(s[..|s| - 1])
  }

  /** The drained list holds every waiting user, as often as it was registered. */
  lemma {:induction false} ReversePermutes<T>(s: seq<T>)
    ensures multiset(Reverse(s)) == multiset(s)
  {
    if s != [] {
      ReversePermutes(s[..|s| - 1]);
      assert s == s[..|s| - 1] + [s[|s| - 1]];
    }
  }

  /** The callback one user is given: the contents on success, an error otherwise. */
  function NoticeFor(user: ScriptUser, url: Url, contents: Option<string>): Callback
  {
    match contents
    case Some(c) => ScriptContentsAvailable(user, url, c)
    case None => ErrorInLoadingScript(user, url)
  }

  /** The callbacks of a `foreach` over `users`, in order. */
  function Notices(users: seq<ScriptUser>, url: Url, contents: Option<string>): (cs: seq<Callback>)
    ensures |cs| == |users|
    ensures forall i :: 0 <= i < |users| ==> cs[i] == NoticeFor(users[i], url, contents)
  {
    if users == [] then []
    else Notices(users[..|users| - 1], url, contents) + [NoticeFor(users[|users| - 1], url, contents)]
  }

  /** One callback more at the end of the loop. */
  lemma NoticesSnoc(users: seq<ScriptUser>, i: nat, url: Url, contents: Option<string>)
    requires i < |users|
    ensures Notices(users[..i + 1], url, contents) == Notices(users[..i], url, contents) + [NoticeFor(users[i], url, contents)]
  {
    assert users[..i + 1][..i] == users[..i];
  }

  /**
   * On success every waiting user is told the contents and no user is told
   * of an error; on failure every waiting user is told of the error and no
   * contents are handed out.
   */
  lemma NoticesOutcome(users: seq<ScriptUser>, url: Url, contents: Option<string>, c: Callback)
    requires c in Notices(users, url, contents)
    ensures c.user in users && c.url == url
    ensures contents.Some? ==> c == ScriptContentsAvailable(c.user, url, contents.value)
    ensures contents.None? ==> c == ErrorInLoadingScript(c.user, url)
  {
    var i :| 0 <= i < |users| && Notices(users, url, contents)[i] == c;
  }

  class ScriptCache {
    /** `_scriptCache`: downloaded script contents by URL. */
    var scriptCache: map<Url, string>
    /** `_scriptUsers`: the users waiting for each URL, in insertion order. */
    var scriptUsers: map<Url, seq<ScriptUser>>
    /** The URLs of the requests issued whose reply has not yet finished. */
    var inFlight: multiset<Url>
    /** The callbacks made on script users, in order. */
    var callbacks: seq<Callback>

    /**
     * The multimap holds no empty entry; every waiting user has a request
     * in flight for its URL; and no URL is both cached and waited for.
     */
    ghost predicate Valid()
      reads this
    {
      && (forall url :: url in scriptUsers ==> scriptUsers[url] != [] && url in inFlight)
      && scriptUsers.Keys !! scriptCache.Keys
    }

    constructor ()
      ensures Valid()
      ensures scriptCache == map[] && scriptUsers == map[] && inFlight == multiset{} && callbacks == []
    {
      scriptCache := map[];
      scriptUsers := map[];
      inFlight := multiset{};
      callbacks := [];
    }

    /**
     * `ScriptCache::getScript`. On a hit the user is told the cached
     * contents at once, which are also returned, and nothing is pending.
     * On a miss the user joins those waiting for the URL, a request is
     * issued, and the empty string is returned as pending.
     */
    method GetScript(url: Url, scriptUser: ScriptUser) returns (scriptContents: string, isPending: bool)
      requires Valid()
      modifies this
      ensures Valid()
      ensures isPending <==> url !in old(scriptCache)
      ensures scriptCache == old(scriptCache)
      ensures !isPending ==> && scriptContents == old(scriptCache)[url]
                             && callbacks == old(callbacks) + [ScriptContentsAvailable(scriptUser, url, scriptContents)]
                             && scriptUsers == old(scriptUsers)
                             && inFlight == old(inFlight)
      ensures isPending ==> && scriptContents == ""
                            && callbacks == old(callbacks)
                            && scriptUsers == old(scriptUsers)[url := PendingUsers(old(scriptUsers), url) + [scriptUser]]
                            && inFlight == old(inFlight) + multiset{url}
    {
      scriptContents := "";
      if url in scriptCache {
        scriptContents := scriptCache[url];
        callbacks := callbacks + [ScriptContentsAvailable(scriptUser, url, scriptContents)];
        isPending := false;
      } else {
        isPending := true;
        scriptUsers := scriptUsers[url := PendingUsers(scriptUsers, url) + [scriptUser]];
        inFlight := inFlight + multiset{url};
      }
    }

    /** The `foreach` of `scriptDownloaded`: one callback per drained user, in order. */
    method NotifyAll(users: seq<ScriptUser>, url: Url, contents: Option<string>)
      modifies this
      ensures callbacks == old(callbacks) + Notices(users, url, contents)
      ensures scriptCache == old(scriptCache) && scriptUsers == old(scriptUsers) && inFlight == old(inFlight)
    {
      var i := 0;
      while i < |users|
        invariant 0 <= i <= |users|
        invariant callbacks == old(callbacks) + Notices(users[..i], url, contents)
        invariant scriptCache == old(scriptCache) && scriptUsers == old(scriptUsers) && inFlight == old(inFlight)
      {
        NoticesSnoc(users, i, url, contents);
        match contents {
          case Some(c) =>
            callbacks := callbacks + [ScriptContentsAvailable(users[i], url, c)];
          case None =>
            callbacks := callbacks + [ErrorInLoadingScript(users[i], url)];
        }
        i := i + 1;
      }
      assert users[..|users|] == users;
    }

    /**
     * `ScriptCache::scriptDownloaded` for a finished request. The users
     * waiting for the URL are drained, newest first, whatever the outcome.
     * On success the body is cached and each drained user is told it;
     * otherwise the cache is unchanged and each is told of the error.
     * Other URLs' entries are untouched.
     */
    method ScriptDownloaded(reply: Reply)
      requires Valid() && reply.url in inFlight
      modifies this
      ensures Valid()
      ensures reply.url !in scriptUsers
      ensures scriptUsers == old(scriptUsers) - {reply.url}
      ensures inFlight == old(inFlight) - multiset{reply.url}
      ensures Succeeded(reply) ==> scriptCache == old(scriptCache)[reply.url := reply.body]
      ensures !Succeeded(reply) ==> scriptCache == old(scriptCache)
      ensures callbacks == old(callbacks) +
        Notices(Reverse(PendingUsers(old(scriptUsers), reply.url)), reply.url,
                if Succeeded(reply) then Some(reply.body) else None)
    {
      var url := reply.url;
      var users := Reverse(PendingUsers(scriptUsers, url));
      scriptUsers := scriptUsers - {url};
      inFlight := inFlight - multiset{url};
      if Succeeded(reply) {
        scriptCache := scriptCache[url := reply.body];
        NotifyAll(users, url, Some(scriptCache[url]));
      } else {
        NotifyAll(users, url, None);
      }
    }
  }
}
