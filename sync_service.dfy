/**
 * `MaService` / `ServuService`: list a directory through the client, keep
 * the files inside a date window, dispatch one client download per file,
 * and watch a directory tick by tick. The client is replaced by what it
 * returns: the listing (`Listed`), and whether each download succeeded.
 */
module SyncService {
  import opened Wrappers
  import opened Files
  import opened Listing
  import opened DateWindow

  /** `ListAsync`: the client's files inside the window; an exception from the client passes through. */
  method ListAsync(listed: Listed, after: int, before: int) returns (r: Listed)
    ensures listed.ListFailed? ==> r == listed
    ensures listed.Listed? ==> r == Listed(Select(listed.files, after, before))
  {
    match listed
    case ListFailed(_) => r := listed;
    case Listed(files) => r := Listed(Select(files, after, before));
  }

  /** A download that fails adds its path to the failures and nothing else. */
  lemma {:induction false} FailuresSnoc(paths: seq<string>, p: string, ok: string -> bool)
    ensures Failures(paths + [p], ok) == Failures(paths, ok) + (if ok(p) then [] else [p])
  {
    if paths == [] {
      assert paths + [p] == [p];
    } else {
      assert (paths + [p])[1..] == paths[1..] + [p];
      FailuresSnoc(paths[1..], p, ok);
    }
  }

  /**
   * `DownloadInParallelAsync`: every file of `inRange` is handed to the
   * client once, as `directory/name`; a download that returns false is only
   * logged, so it never keeps the others from being dispatched.
   */
  method DownloadInParallelAsync(directory: string, inRange: seq<RemoteFile>, downloadOk: string -> bool)
    returns (dispatched: seq<string>, failed: seq<string>)
    ensures dispatched == Paths(directory, inRange)
    ensures failed == Failures(dispatched, downloadOk)
  {
    dispatched := [];
    failed := [];
    for i := 0 to |inRange|
      invariant dispatched == Paths(directory, inRange[..i])
      invariant failed == Failures(dispatched, downloadOk)
    {
      var path := DownloadPath(directory, inRange[i]);
      var ok := downloadOk(path);
      FailuresSnoc(dispatched, path, downloadOk);
      dispatched := dispatched + [path];
      if !ok {
        failed := failed + [path];
      }
      assert Paths(directory, inRange[..i + 1]) == Paths(directory, inRange[..i]) + [path];
    }
    assert inRange[..|inRange|] == inRange;
  }

  /** `DownloadAsync`: list, keep the window, dispatch; nothing is dispatched when the listing throws. */
  method DownloadAsync(directory: string, listed: Listed, after: int, before: int, downloadOk: string -> bool)
    returns (thrown: Option<ListError>, dispatched: seq<string>, failed: seq<string>)
    ensures listed.ListFailed? ==> thrown == Some(listed.error) && dispatched == [] && failed == []
    ensures listed.Listed? ==>
              && thrown.None?
              && dispatched == Paths(directory, Select(listed.files, after, before))
              && failed == Failures(dispatched, downloadOk)
  {
    match listed
    case ListFailed(e) =>
      return Some(e), [], [];
    case Listed(files) =>
      var inRange := Select(files, after, before);
      dispatched, failed := DownloadInParallelAsync(directory, inRange, downloadOk);
      thrown := None;
  }

  /** One pass of the watch loop: what was selected, the paths dispatched, and those that failed. */
  datatype Tick = Tick(selected: seq<RemoteFile>, dispatched: seq<string>, failed: seq<string>)

  /** How the watch loop ended: cancellation seen at its head, or an exception from a listing. */
  datatype WatchEnd = Cancelled | ListingThrew(error: ListError)

  /** The files of each listing, empty for one that threw. */
  function FilesOf(listings: nat -> Listed): nat -> seq<RemoteFile>
  {
    (k: nat) => if listings(k).Listed? then listings(k).files else []
  }

  /** Tick `k` of the watch loop, as the date window and the dispatch define it. */
  function TickAt(directory: string, clock: nat -> int, listings: nat -> Listed,
                  downloadOk: nat -> string -> bool, k: nat): Tick
  {
    var selected := TickSelection(clock, FilesOf(listings), k);
    var dispatched := Paths(directory, selected);
    Tick(selected, dispatched, Failures(dispatched, downloadOk(k)))
  }

  /** A pass whose listing succeeded is the tick the window and dispatch define. */
  lemma PassIsTick(directory: string, clock: nat -> int, listings: nat -> Listed,
                   downloadOk: nat -> string -> bool, k: nat)
    requires listings(k).Listed?
    ensures var selected := Select(listings(k).files, clock(k), MaxTicks);
            TickAt(directory, clock, listings, downloadOk, k) ==
            Tick(selected, Paths(directory, selected), Failures(Paths(directory, selected), downloadOk(k)))
  {
    assert FilesOf(listings)(k) == listings(k).files;
  }

  /** The first `n` passes each started uncancelled and listed without an exception. */
  ghost predicate PassesRan(cancelled: nat -> bool, listings: nat -> Listed, n: nat)
  {
    n == 0 || (PassesRan(cancelled, listings, n - 1) && !cancelled(n - 1) && listings(n - 1).Listed?)
  }

  lemma {:induction false} PassesRanAt(cancelled: nat -> bool, listings: nat -> Listed, n: nat)
    requires PassesRan(cancelled, listings, n)
    ensures forall k :: 0 <= k < n ==> !cancelled(k) && listings(k).Listed?
  {
    if n > 0 {
      PassesRanAt(cancelled, listings, n - 1);
    }
  }

  /** A pass whose listing succeeded extends the ticks so far by the next one. */
  lemma NextTick(directory: string, clock: nat -> int, listings: nat -> Listed,
                 downloadOk: nat -> string -> bool, k: nat, ticks: seq<Tick>, tick: Tick)
    requires listings(k).Listed?
    requires ticks == TicksUpTo(directory, clock, listings, downloadOk, k)
    requires tick.selected == Select(listings(k).files, clock(k), MaxTicks)
    requires tick.dispatched == Paths(directory, tick.selected)
    requires tick.failed == Failures(tick.dispatched, downloadOk(k))
    ensures ticks + [tick] == TicksUpTo(directory, clock, listings, downloadOk, k + 1)
  {
    PassIsTick(directory, clock, listings, downloadOk, k);
  }

  /** The first `n` ticks. */
  ghost function TicksUpTo(directory: string, clock: nat -> int, listings: nat -> Listed,
                           downloadOk: nat -> string -> bool, n: nat): seq<Tick>
  {
    if n == 0 then [] else TicksUpTo(directory, clock, listings, downloadOk, n - 1) + [TickAt(directory, clock, listings, downloadOk, n - 1)]
  }

  lemma {:induction false} TicksUpToAt(directory: string, clock: nat -> int, listings: nat -> Listed,
                                       downloadOk: nat -> string -> bool, n: nat)
    ensures |TicksUpTo(directory, clock, listings, downloadOk, n)| == n
    ensures forall i :: 0 <= i < n ==>
              TicksUpTo(directory, clock, listings, downloadOk, n)[i] == TickAt(directory, clock, listings, downloadOk, i)
  {
    if n > 0 {
      TicksUpToAt(directory, clock, listings, downloadOk, n - 1);
    }
  }

  /**
   * `WatchAsync`. `clock(0)` is read before the loop and `clock(k+1)` right
   * after listing `k`; `listings(k)` is what the client returns on pass `k`;
   * `cancelled(k)` is the token's state at the head of pass `k`. Only runs in
   * which cancellation is eventually requested (at `stop`) are modelled.
   */
  method WatchAsync(directory: string, clock: nat -> int, listings: nat -> Listed,
                    downloadOk: nat -> string -> bool, cancelled: nat -> bool, ghost stop: nat)
    returns (ticks: seq<Tick>, end: WatchEnd)
    requires cancelled(stop)
    ensures |ticks| <= stop
    ensures forall k :: 0 <= k < |ticks| ==> !cancelled(k) && listings(k).Listed?
    ensures ticks == TicksUpTo(directory, clock, listings, downloadOk, |ticks|)
    ensures end == Cancelled <==> cancelled(|ticks|)
    ensures end.ListingThrew? ==> listings(|ticks|) == ListFailed(end.error)
  {
    ticks := [];
    var k: nat := 0;
    var after := clock(0);
    while !cancelled(k)
      invariant k <= stop
      invariant |ticks| == k
      invariant after == clock(k)
      invariant PassesRan(cancelled, listings, k)
      invariant ticks == TicksUpTo(directory, clock, listings, downloadOk, k)
      decreases stop - k
    {
      var r := ListAsync(listings(k), after, MaxTicks);
      if r.ListFailed? {
        PassesRanAt(cancelled, listings, k);
        return ticks, ListingThrew(r.error);
      }
      after := clock(k + 1);
      var dispatched, failed := DownloadInParallelAsync(directory, r.files, downloadOk(k));
      var tick := Tick(r.files, dispatched, failed);
      NextTick(directory, clock, listings, downloadOk, k, ticks, tick);
      ticks := ticks + [tick];
      k := k + 1;
    }
    PassesRanAt(cancelled, listings, k);
    end := Cancelled;
  }
}
