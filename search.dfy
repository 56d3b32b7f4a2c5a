/** The `Search` interface of the Qt 5 GUI: it starts asynchronous searches,
  * remembers which search thread serves which search id, forwards results and
  * thread status to the QML side and cancels searches.
  *
  * The thread manager and the online services are outside the model: a search
  * thread is known by its name (a `Handle`), `launch` stands for the online
  * service's asynchronous search call and returns the new thread's name, the
  * name of the thread running a callback is a parameter, and what the GUI
  * sends to QML is recorded in the ghost log `sent`. */
module SearchTracking {
  import opened Wrappers

  type Handle = string
  type SearchId = string
  type ThreadStatus = string
  /** One search result, as formatted for QML. */
  type ResultDict = map<string, string>

  /** The asynchronous search calls the online services module offers. */
  datatype SearchFunction = GeocodeAsync | WikipediaSearchAsync | LocalSearchAsync

  datatype Payload = Results(results: seq<ResultDict>) | Status(status: ThreadStatus)

  /** A message sent to QML on a named channel. */
  datatype Event = Event(channel: string, payload: Payload)

  /** What `search` does: start a thread, or not start one because the online
    * services are missing (it returns None), or fail because there is no search
    * function for the id (it calls None, which raises TypeError). */
  datatype SearchStart = Started(handle: Handle) | Offline | NoSearchFunction

  /** `_getSearchFunction`. */
  function GetSearchFunction(online: bool, searchId: SearchId): (r: Option<SearchFunction>)
    ensures r.Some? <==> online && (searchId == "address" || searchId == "wikipedia" || searchId == "local")
    ensures r.Some? ==> SearchIdOf(r.value) == searchId
  {
    if !online then None
    else if searchId == "address" then Some(GeocodeAsync)
    else if searchId == "wikipedia" then Some(WikipediaSearchAsync)
    else if searchId == "local" then Some(LocalSearchAsync)
    else None
  }

  /** The search id each search function serves. */
  function SearchIdOf(f: SearchFunction): SearchId {
    match f
    case GeocodeAsync => "address"
    case WikipediaSearchAsync => "wikipedia"
    case LocalSearchAsync => "local"
  }

  /** Every search function is reachable, from its own id only. */
  lemma SearchFunctionsAreDistinct(f: SearchFunction, g: SearchFunction)
    ensures GetSearchFunction(true, SearchIdOf(f)) == Some(f)
    ensures SearchIdOf(f) == SearchIdOf(g) ==> f == g
  {
  }

  /** The tracker after the entry for `h` is dropped, if there was one. */
  function Untrack(threads: map<Handle, SearchId>, h: Handle): (r: map<Handle, SearchId>)
    ensures r.Keys == threads.Keys - {h}
    ensures forall k :: k in r ==> r[k] == threads[k]
  {
    threads - {h}
  }

  /** Whom a status change of thread `h` goes to: its search id, when `h` is
    * tracked and the id is not empty (an empty id is false in Python). */
  function Recipient(threads: map<Handle, SearchId>, h: Handle): (r: Option<SearchId>)
    ensures r.Some? <==> h in threads && threads[h] != ""
    ensures r.Some? ==> r.value == threads[h]
  {
    if h in threads && threads[h] != "" then Some(threads[h]) else None
  }

  /** Dropping an entry a second time changes nothing: an entry is removed at most once. */
  lemma UntrackIsIdempotent(threads: map<Handle, SearchId>, h: Handle)
    ensures Untrack(Untrack(threads, h), h) == Untrack(threads, h)
  {
  }

  /** Dropping a fresh entry undoes starting it. */
  lemma UntrackUndoesTrack(threads: map<Handle, SearchId>, h: Handle, id: SearchId)
    requires h !in threads
    ensures Untrack(threads[h := id], h) == threads
  {
    assert Untrack(threads[h := id], h).Keys == threads.Keys;
  }

  /** Status of a started search is forwarded; after its entry is dropped it no
    * longer is, and dropping one entry leaves every other recipient alone. */
  lemma RecipientFollowsTracking(threads: map<Handle, SearchId>, h: Handle, other: Handle, id: SearchId)
    ensures id != "" ==> Recipient(threads[h := id], h) == Some(id)
    ensures Recipient(Untrack(threads, h), h) == None
    ensures other != h ==> Recipient(Untrack(threads, h), other) == Recipient(threads, other)
  {
  }

  /** The results of a search, formatted one by one. */
  ghost function Formatted<P>(results: seq<P>, pointToDict: P -> ResultDict): seq<ResultDict> {
    seq(|results|, i requires 0 <= i < |results| => pointToDict(results[i]))
  }

  class Search {
    /** The channel prefixes for results and status changes. */
    const resultPrefix: string
    const statusPrefix: string
    /** `_threadsInProgress`: search thread name to search id. */
    var threadsInProgress: map<Handle, SearchId>
    /** What was sent to QML, oldest first. */
    ghost var sent: seq<Event>
    /** The threads the thread manager was asked to cancel, oldest first. */
    ghost var cancelRequests: seq<Handle>

    constructor(resultPrefix: string, statusPrefix: string)
      ensures this.resultPrefix == resultPrefix && this.statusPrefix == statusPrefix
      ensures threadsInProgress == map[] && sent == [] && cancelRequests == []
    {
      this.resultPrefix := resultPrefix;
      this.statusPrefix := statusPrefix;
      threadsInProgress := map[];
      sent := [];
      cancelRequests := [];
    }

    /** `search`: with online services and a search function for the id, start
      * the search thread, remember it under the search id and return its name. */
    method StartSearch(searchId: SearchId, query: string, online: bool,
                       launch: (SearchFunction, string) -> Handle)
      returns (r: SearchStart)
      modifies this`threadsInProgress
      ensures !online ==> r == Offline && threadsInProgress == old(threadsInProgress)
      ensures online && GetSearchFunction(online, searchId).None? ==>
                r == NoSearchFunction && threadsInProgress == old(threadsInProgress)
      ensures GetSearchFunction(online, searchId).Some? ==>
                var h := launch(GetSearchFunction(online, searchId).value, query);
                r == Started(h) && threadsInProgress == old(threadsInProgress)[h := searchId]
      ensures r.Started? ==> r.handle in threadsInProgress && threadsInProgress[r.handle] == searchId
    {
      if !online {
        return Offline;
      }
      var searchFunction := GetSearchFunction(online, searchId);
      if searchFunction.None? {
        return NoSearchFunction;
      }
      var threadId := launch(searchFunction.value, query);
      threadsInProgress := threadsInProgress[threadId := searchId];
      r := Started(threadId);
    }

    /** `_searchCB`: send the formatted results on the search id's result
      * channel, then stop tracking the thread running the callback. */
    method SearchCallback<P>(searchId: SearchId, results: seq<P>, pointToDict: P -> ResultDict,
                             currentThread: Handle)
      modifies this`sent, this`threadsInProgress
      ensures sent == old(sent) + [Event(resultPrefix + searchId, Results(Formatted(results, pointToDict)))]
      ensures threadsInProgress == Untrack(old(threadsInProgress), currentThread)
    {
      var resultList := [];
      var i := 0;
      while i < |results|
        invariant 0 <= i <= |results|
        invariant resultList == Formatted(results[..i], pointToDict)
      {
        resultList := resultList + [pointToDict(results[i])];
        i := i + 1;
      }
      assert results[..i] == results;
      sent := sent + [Event(resultPrefix + searchId, Results(resultList))];
      if currentThread in threadsInProgress {
        threadsInProgress := threadsInProgress - {currentThread};
      }
    }

    /** `cancelSearch`: ask the thread manager to cancel the thread, whether it
      * is tracked or not, and stop tracking it. */
    method CancelSearch(threadId: Handle)
      modifies this`threadsInProgress, this`cancelRequests
      ensures cancelRequests == old(cancelRequests) + [threadId]
      ensures threadsInProgress == Untrack(old(threadsInProgress), threadId)
    {
      cancelRequests := cancelRequests + [threadId];
      if threadId in threadsInProgress {
        threadsInProgress := threadsInProgress - {threadId};
      }
    }

    /** `_threadStatusCB`: forward a status change to the search that owns the
      * thread; threads that serve no search are ignored. The tracker is only read. */
    method ThreadStatusCallback(threadName: Handle, threadStatus: ThreadStatus)
      modifies this`sent
      ensures threadsInProgress == old(threadsInProgress)
      ensures Recipient(threadsInProgress, threadName).None? ==> sent == old(sent)
      ensures Recipient(threadsInProgress, threadName).Some? ==>
                sent == old(sent) + [Event(statusPrefix + threadsInProgress[threadName], Status(threadStatus))]
    {
      var recipient := if threadName in threadsInProgress then threadsInProgress[threadName] else "";
      if recipient != "" {
        sent := sent + [Event(statusPrefix + recipient, Status(threadStatus))];
      }
    }
  }

  /** A search from start to finish, for any known search id and any query:
    * status is forwarded while the thread is tracked, the result removes the
    * entry, a late cancel is harmless, and offline nothing starts. */
  method SearchLifecycle(searchId: SearchId, query: string, launch: (SearchFunction, string) -> Handle)
    requires searchId == "address" || searchId == "wikipedia" || searchId == "local"
  {
    var s := new Search("search:result:", "search:status:");
    var r := s.StartSearch(searchId, query, true, launch);
    assert r == Started(launch(GetSearchFunction(true, searchId).value, query));
    var h := r.handle;
    s.ThreadStatusCallback(h, "searching");
    assert s.sent == [Event("search:status:" + searchId, Status("searching"))];
    s.ThreadStatusCallback("some other thread" + h, "done");
    assert |s.sent| == 1;
    var noResults: seq<int> := [];
    var toDict := (x: int) => map[];
    s.SearchCallback(searchId, noResults, toDict, h);
    assert h !in s.threadsInProgress;
    assert |Formatted(noResults, toDict)| == 0;
    assert s.sent[1] == Event("search:result:" + searchId, Results([]));
    s.CancelSearch(h);
    assert s.threadsInProgress == map[];
    var offline := s.StartSearch(searchId, query, false, launch);
    assert offline == Offline && s.threadsInProgress == map[];
  }
}
