/**
 * `Program.Main`: ping, log in when the ping fails, check for a directory,
 * then list, download and watch as the flags ask. The client and the
 * service are replaced by the calls made on them, in order.
 */
module Program {
  import opened Wrappers
  import opened Files

  /** The parsed command line; an absent date is `default(DateTime)`, i.e. `MinTicks`. */
  datatype Options = Options(List: bool, Download: bool, Watch: bool, Directory: Option<string>, After: int, Before: int)

  /** What `Main` does, in the order it can do it. */
  datatype Action =
    | Ping
    | Login
    | OptionsMissing
    | DirectoryMissing
    | ListCall(directory: string, after: int, before: int)
    | DownloadCall(directory: string, after: int, before: int)
    | WatchCall(directory: string)

  function Rank(a: Action): nat
  {
    match a
    case Ping => 0
    case Login => 1
    case OptionsMissing => 2
    case DirectoryMissing => 3
    case ListCall(_, _, _) => 4
    case DownloadCall(_, _, _) => 5
    case WatchCall(_) => 6
  }

  /** Every action comes strictly after the ones of lower rank: source order, each at most once. */
  predicate Ranked(trace: seq<Action>)
  {
    forall i, j :: 0 <= i < j < |trace| ==> Rank(trace[i]) < Rank(trace[j])
  }

  predicate NeedsDirectory(o: Options)
  {
    o.List || o.Download || o.Watch
  }

  /** `before` as `Main` passes it on: an absent date means `DateTime.MaxValue`. */
  function WindowEnd(before: int): int
  {
    if before == MinTicks then MaxTicks else before
  }

  /** Two ranked runs, the first ending below where the second starts, make a ranked run. */
  lemma {:induction false} RankedAppend(first: seq<Action>, second: seq<Action>, bound: nat)
    requires Ranked(first) && Ranked(second)
    requires forall i :: 0 <= i < |first| ==> Rank(first[i]) < bound
    requires forall i :: 0 <= i < |second| ==> bound <= Rank(second[i])
    ensures Ranked(first + second)
  {
    var t := first + second;
    forall i, j | 0 <= i < j < |t| ensures Rank(t[i]) < Rank(t[j]) {
      if j < |first| {
        assert t[i] == first[i] && t[j] == first[j];
      } else if i >= |first| {
        assert t[i] == second[i - |first|] && t[j] == second[j - |first|];
      } else {
        assert t[i] == first[i] && t[j] == second[j - |first|];
      }
    }
  }

  /**
   * Whether each service call would throw if it were made: `ListAsync` and
   * `DownloadAsync` throw when the client's listing does (a body that is not
   * XML, a date out of range). Nothing in `Main` catches them.
   */
  datatype Throws = Throws(listing: bool, downloading: bool)

  /**
   * What the second half of `Main` calls once `directory` is set: list, then
   * download, both over the window from the options, then watch; a call that
   * throws is the last one made.
   */
  function Commands(options: Options, directory: string, throws: Throws): seq<Action>
  {
    var listing := if options.List then [ListCall(directory, options.After, WindowEnd(options.Before))] else [];
    var downloading := if options.Download then [DownloadCall(directory, options.After, WindowEnd(options.Before))] else [];
    var watching := if options.Watch then [WatchCall(directory)] else [];
    if options.List && throws.listing then listing
    else if options.Download && throws.downloading then listing + downloading
    else listing + downloading + watching
  }

  /** What `Main` does, given what the parser, the client and the service do. */
  function Actions(parsed: Option<Options>, pingOk: bool, loginOk: bool, throws: Throws): seq<Action>
  {
    var head := if pingOk then [Ping] else [Ping, Login];
    if !pingOk && !loginOk then head
    else if parsed.None? then head + [OptionsMissing]
    else if !NeedsDirectory(parsed.value) then head
    else if parsed.value.Directory.None? then head + [DirectoryMissing]
    else head + Commands(parsed.value, parsed.value.Directory.value, throws)
  }

  /** The commands run in source order, after everything `Main` does before them. */
  lemma CommandsRanked(options: Options, directory: string, throws: Throws)
    ensures Ranked(Commands(options, directory, throws))
    ensures forall i :: 0 <= i < |Commands(options, directory, throws)| ==>
              Rank(ListCall("", 0, 0)) <= Rank(Commands(options, directory, throws)[i])
  {
    var listing := if options.List then [ListCall(directory, options.After, WindowEnd(options.Before))] else [];
    var downloading := if options.Download then [DownloadCall(directory, options.After, WindowEnd(options.Before))] else [];
    var watching := if options.Watch then [WatchCall(directory)] else [];
    RankedAppend(listing, downloading, Rank(DownloadCall("", 0, 0)));
    var c := Commands(options, directory, throws);
    if options.List && throws.listing {
      assert c == listing;
    } else if options.Download && throws.downloading {
      assert c == listing + downloading;
    } else {
      RankedAppend(listing + downloading, watching, Rank(WatchCall("")));
      assert c == listing + downloading + watching;
    }
  }

  /**
   * Which calls the commands make, with which arguments: each one iff its
   * flag is set and no earlier call threw.
   */
  lemma CommandsMembers(options: Options, directory: string, throws: Throws)
    ensures forall d, a, b :: ListCall(d, a, b) in Commands(options, directory, throws) <==>
              options.List && d == directory && a == options.After && b == WindowEnd(options.Before)
    ensures forall d, a, b :: DownloadCall(d, a, b) in Commands(options, directory, throws) <==>
              && options.Download && !(options.List && throws.listing)
              && d == directory && a == options.After && b == WindowEnd(options.Before)
    ensures forall d :: WatchCall(d) in Commands(options, directory, throws) <==>
              && options.Watch && !(options.List && throws.listing) && !(options.Download && throws.downloading)
              && d == directory
  {
  }

  /** A call that throws ends `Main`: nothing comes after it. */
  lemma CommandsThrowLast(options: Options, directory: string, throws: Throws)
    ensures var c := Commands(options, directory, throws);
      forall i :: 0 <= i < |c| && ((c[i].ListCall? && throws.listing) || (c[i].DownloadCall? && throws.downloading)) ==>
        i == |c| - 1
  {
    var c := Commands(options, directory, throws);
    var listing := if options.List then [ListCall(directory, options.After, WindowEnd(options.Before))] else [];
    var downloading := if options.Download then [DownloadCall(directory, options.After, WindowEnd(options.Before))] else [];
    var watching := if options.Watch then [WatchCall(directory)] else [];
    if !(options.List && throws.listing) && !(options.Download && throws.downloading) {
      forall i | 0 <= i < |c| ensures !((c[i].ListCall? && throws.listing) || (c[i].DownloadCall? && throws.downloading)) {
        if i < |listing| {
          assert c[i] == listing[i];
        } else if i < |listing| + |downloading| {
          assert c[i] == downloading[i - |listing|];
        } else {
          assert c[i] == watching[i - |listing| - |downloading|];
        }
      }
    } else if !(options.List && throws.listing) {
      forall i | 0 <= i < |c| - 1 ensures !((c[i].ListCall? && throws.listing) || (c[i].DownloadCall? && throws.downloading)) {
        assert c[i] == listing[i];
      }
    }
  }

  /** `Main` starts with the ping and does each thing at most once, in source order. */
  lemma ActionsRanked(parsed: Option<Options>, pingOk: bool, loginOk: bool, throws: Throws)
    ensures var t := Actions(parsed, pingOk, loginOk, throws); |t| >= 1 && t[0] == Ping && Ranked(t)
  {
    var head := if pingOk then [Ping] else [Ping, Login];
    if (pingOk || loginOk) && parsed.Some? && NeedsDirectory(parsed.value) && parsed.value.Directory.Some? {
      var options := parsed.value;
      CommandsRanked(options, options.Directory.value, throws);
      RankedAppend(head, Commands(options, options.Directory.value, throws), Rank(ListCall("", 0, 0)));
    }
  }

  /**
   * `Main` logs in exactly when the ping fails, stops after a failed login,
   * and reports missing options or a missing directory exactly when it meets them.
   */
  lemma ActionsStops(parsed: Option<Options>, pingOk: bool, loginOk: bool, throws: Throws)
    ensures var t := Actions(parsed, pingOk, loginOk, throws);
      && (Login in t <==> !pingOk)
      && (!pingOk && !loginOk ==> t == [Ping, Login])
      && (OptionsMissing in t <==> (pingOk || loginOk) && parsed.None?)
      && (DirectoryMissing in t <==>
            (pingOk || loginOk) && parsed.Some? && NeedsDirectory(parsed.value) && parsed.value.Directory.None?)
  {
    if (pingOk || loginOk) && parsed.Some? && NeedsDirectory(parsed.value) && parsed.value.Directory.Some? {
      var options := parsed.value;
      CommandsRanked(options, options.Directory.value, throws);
      var calls := Commands(options, options.Directory.value, throws);
      forall i | 0 <= i < |calls| ensures calls[i] != Login && calls[i] != OptionsMissing && calls[i] != DirectoryMissing {
        assert Rank(ListCall("", 0, 0)) <= Rank(calls[i]);
      }
    }
  }

  /**
   * `Main` lists, downloads and watches exactly when the login state allows
   * it, the options parsed, the flag is set, a directory is given and no
   * earlier service call threw, with the window the options name.
   */
  lemma ActionsCalls(parsed: Option<Options>, pingOk: bool, loginOk: bool, throws: Throws)
    ensures var t := Actions(parsed, pingOk, loginOk, throws);
      && (forall d, a, b :: ListCall(d, a, b) in t <==>
            && (pingOk || loginOk) && parsed.Some? && parsed.value.List && parsed.value.Directory == Some(d)
            && a == parsed.value.After && b == WindowEnd(parsed.value.Before))
      && (forall d, a, b :: DownloadCall(d, a, b) in t <==>
            && (pingOk || loginOk) && parsed.Some? && parsed.value.Download && parsed.value.Directory == Some(d)
            && !(parsed.value.List && throws.listing)
            && a == parsed.value.After && b == WindowEnd(parsed.value.Before))
      && (forall d :: WatchCall(d) in t <==>
            && (pingOk || loginOk) && parsed.Some? && parsed.value.Watch && parsed.value.Directory == Some(d)
            && !(parsed.value.List && throws.listing) && !(parsed.value.Download && throws.downloading))
  {
    if (pingOk || loginOk) && parsed.Some? && NeedsDirectory(parsed.value) && parsed.value.Directory.Some? {
      CommandsMembers(parsed.value, parsed.value.Directory.value, throws);
    }
  }

  /**
   * The second half of `Main`, once `directory` is known to be set: list and
   * download with the window from the options, then watch. A service call
   * that throws ends the run.
   */
  method RunCommands(options: Options, directory: string, throws: Throws) returns (calls: seq<Action>)
    ensures calls == Commands(options, directory, throws)
  {
    calls := [];
    if options.List || options.Download {
      var after := if options.After == MinTicks then MinTicks else options.After;
      var before := if options.Before == MinTicks then MaxTicks else options.Before;
      if options.List {
        calls := calls + [ListCall(directory, after, before)];
        if throws.listing {
          return;
        }
      }
      if options.Download {
        calls := calls + [DownloadCall(directory, after, before)];
        if throws.downloading {
          return;
        }
      }
    }
    if options.Watch {
      calls := calls + [WatchCall(directory)];
    }
  }

  /**
   * `Main`. `parsed` is `ParseArguments(args).Value`, None when the arguments
   * did not parse (or asked for help): the first use of it then throws,
   * which ends the run after the ping and the login. `pingOk` and `loginOk`
   * are what the client returns, and `throws` says which service calls throw.
   */
  method MainFlow(parsed: Option<Options>, pingOk: bool, loginOk: bool, throws: Throws) returns (trace: seq<Action>)
    ensures trace == Actions(parsed, pingOk, loginOk, throws)
  {
    trace := if pingOk then [Ping] else [Ping, Login];
    if !pingOk && !loginOk {
      return;
    }
    if parsed.None? {
      trace := trace + [OptionsMissing];
      return;
    }
    var options := parsed.value;
    var directory: Option<string> := None;
    if options.List || options.Download || options.Watch {
      directory := options.Directory;
      if directory.None? {
        trace := trace + [DirectoryMissing];
        return;
      }
    }
    if directory.Some? {
      var calls := RunCommands(options, directory.value, throws);
      trace := trace + calls;
    }
  }
}
