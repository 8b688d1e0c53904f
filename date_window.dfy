/**
 * The date window the services filter listings with, the download paths
 * they dispatch, and what one tick of the watch loop selects.
 * `MaService` and `ServuService` are the same code over `MaFile` and
 * `ServuFile`; both are `RemoteFile` here.
 */
module DateWindow {
  import opened Wrappers
  import opened Files
  import opened Listing
  import opened Int64Parse

  /** `f.Date > after && f.Date < before`: both ends excluded. */
  predicate InWindow(f: RemoteFile, after: int, before: int)
  {
    after < f.Date && f.Date < before
  }

  /** `files.Where(f => f.Date > after && f.Date < before).ToList()`. */
  function Select(files: seq<RemoteFile>, after: int, before: int): (r: seq<RemoteFile>)
    ensures |r| <= |files|
    ensures forall i :: 0 <= i < |r| ==> InWindow(r[i], after, before)
  {
    if files == [] then []
    else (if InWindow(files[0], after, before) then [files[0]] else []) + Select(files[1..], after, before)
  }

  /** A file is selected exactly when it is listed and inside the window. */
  lemma {:induction false} SelectMembers(files: seq<RemoteFile>, after: int, before: int)
    ensures forall f :: f in Select(files, after, before) <==> f in files && InWindow(f, after, before)
  {
    if files != [] {
      SelectMembers(files[1..], after, before);
      assert files == [files[0]] + files[1..];
    }
  }

  /** Filtering a concatenation filters each part: the listing's order is kept. */
  lemma {:induction false} SelectAppend(a: seq<RemoteFile>, b: seq<RemoteFile>, after: int, before: int)
    ensures Select(a + b, after, before) == Select(a, after, before) + Select(b, after, before)
  {
    if a != [] {
      assert (a + b)[1..] == a[1..] + b;
      SelectAppend(a[1..], b, after, before);
    } else {
      assert a + b == b;
    }
  }

  /** Nothing is dropped when every file is in the window. */
  lemma {:induction false} SelectAll(files: seq<RemoteFile>, after: int, before: int)
    requires forall i :: 0 <= i < |files| ==> InWindow(files[i], after, before)
    ensures Select(files, after, before) == files
  {
    if files != [] {
      SelectAll(files[1..], after, before);
    }
  }

  /** A window with no tick strictly inside it, such as `after >= before`, selects nothing. */
  lemma {:induction false} EmptyWindow(files: seq<RemoteFile>, after: int, before: int)
    requires before <= after + 1
    ensures Select(files, after, before) == []
  {
    if files != [] {
      EmptyWindow(files[1..], after, before);
    }
  }

  /** Files dated exactly `after` or exactly `before` are left out. */
  lemma BoundsExclusive()
    ensures Select([RemoteFile("a", 1, 9), RemoteFile("b", 1, 10), RemoteFile("c", 1, 11),
                    RemoteFile("d", 1, 19), RemoteFile("e", 1, 20), RemoteFile("f", 1, 21)], 10, 20)
            == [RemoteFile("c", 1, 11), RemoteFile("d", 1, 19)]
  {
  }

  /**
   * With neither `--after` nor `--before` the window is (MinValue, MaxValue):
   * every listed file passes except one dated exactly `DateTime.MinValue`,
   * which is what a `FileDate` of -62135596800 decodes to.
   */
  lemma DefaultWindowDecoded(e: XElement)
    requires DecodeRecord(e).Some?
    ensures InWindow(DecodeRecord(e).value, MinTicks, MaxTicks) <==>
              TryParseLong(ChildValue(e, "FileDate")) != Some(MinUnixSeconds)
  {
    var seconds := TryParseLong(ChildValue(e, "FileDate")).GetOr(0);
    assert DecodeRecord(e).value.Date == SecondsToTicks(seconds);
    assert SecondsToTicks(seconds) == MinTicks <==> seconds == MinUnixSeconds;
    assert SecondsToTicks(MaxUnixSeconds) < MaxTicks;
  }

  /** `$"{directory}/{file.Name}"`: the path handed to the client's download. */
  function DownloadPath(directory: string, f: RemoteFile): string
  {
    directory + "/" + f.Name
  }

  /** The paths dispatched for `files`, one per file, in order. */
  function Paths(directory: string, files: seq<RemoteFile>): (r: seq<string>)
    ensures |r| == |files|
  {
    seq(|files|, i requires 0 <= i < |files| => DownloadPath(directory, files[i]))
  }

  /** The dispatched paths whose download returned false, in dispatch order. */
  function Failures(paths: seq<string>, ok: string -> bool): (r: seq<string>)
    ensures |r| <= |paths|
    ensures forall i :: 0 <= i < |r| ==> !ok(r[i])
  {
    if paths == [] then []
    else (if ok(paths[0]) then [] else [paths[0]]) + Failures(paths[1..], ok)
  }

  /** A path is among the failures exactly when it was dispatched and its download returned false. */
  lemma {:induction false} FailuresMembers(paths: seq<string>, ok: string -> bool)
    ensures forall p :: p in Failures(paths, ok) <==> p in paths && !ok(p)
  {
    if paths != [] {
      FailuresMembers(paths[1..], ok);
      assert paths == [paths[0]] + paths[1..];
    }
  }

  /** A clock that never goes back. */
  ghost predicate Monotone(clock: nat -> int)
  {
    forall i, j :: 0 <= i <= j ==> clock(i) <= clock(j)
  }

  /**
   * What tick `k` of the watch loop selects: `after` is the clock reading
   * taken before the loop (k = 0) or just after listing k-1, and the upper
   * bound is `DateTime.MaxValue`.
   */
  function TickSelection(clock: nat -> int, listings: nat -> seq<RemoteFile>, k: nat): seq<RemoteFile>
  {
    Select(listings(k), clock(k), MaxTicks)
  }

  /**
   * A file selected at tick `k` is selected again at a later tick only when
   * it is dated after the clock reading that followed listing `k`.
   */
  lemma NoRedownload(clock: nat -> int, listings: nat -> seq<RemoteFile>, k: nat, j: nat, f: RemoteFile)
    requires Monotone(clock) && k < j
    requires f in TickSelection(clock, listings, k) && f in TickSelection(clock, listings, j)
    ensures clock(k + 1) < f.Date
  {
    SelectMembers(listings(j), clock(j), MaxTicks);
    assert clock(k + 1) <= clock(j);
  }

  /**
   * A file that first shows up in listing `j` (j >= 1) dated no later than the
   * clock reading that opened tick `j` — one that reached the server after
   * listing j-1 was produced but before the clock was read — is selected at
   * no tick at all.
   */
  lemma ListedLateNeverSelected(clock: nat -> int, listings: nat -> seq<RemoteFile>, j: nat, f: RemoteFile)
    requires Monotone(clock) && 1 <= j
    requires forall i :: 0 <= i < j ==> f !in listings(i)
    requires f.Date <= clock(j)
    ensures forall k: nat :: f !in TickSelection(clock, listings, k)
  {
    forall k: nat ensures f !in TickSelection(clock, listings, k) {
      SelectMembers(listings(k), clock(k), MaxTicks);
      if k >= j {
        assert clock(j) <= clock(k);
      }
    }
  }

  /** The race above can happen: a clock reading k*100 and a file dated 50 that appears from listing 1 on. */
  lemma LateFileExample()
    ensures var f := RemoteFile("late.csv", 1, 50);
            var clock := (k: nat) => k * 100;
            var listings := (k: nat) => if k == 0 then [] else [f];
            && Monotone(clock)
            && f in listings(1) && f.Date <= clock(1)
            && forall k: nat :: f !in TickSelection(clock, listings, k)
  {
    var f := RemoteFile("late.csv", 1, 50);
    var clock := (k: nat) => k * 100;
    var listings := (k: nat) => if k == 0 then [] else [f];
    assert Monotone(clock);
    ListedLateNeverSelected(clock, listings, 1, f);
  }
}
