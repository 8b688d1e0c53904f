# ServuSync / MaSync session client, listing and sync loop — a Dafny model

This project models the core of the MaSync/ServuSync command-line tool, which
keeps a local `downloads/` directory in step with a Serv-U file portal behind
a NetScaler gateway. The model covers:

- **`MaClient`** (`ma_client.dfy`). This is a class holding the cookie
  container (`cookies_`), the persisted session (`Cookies`) and a log of
  saved sessions. It models:
  - the five-request login handshake, specified by the function `Handshake`;
  - the `Session` cookie check;
  - ping, listing and download, each sending the cookies rebuilt from
    `Cookies`.
- **Token extraction** (`code_token.dfy`): the `.*code=(\w+)` search over the
  gateway's reply, with .NET's leftmost-match and greedy semantics, where `.` does not match
  `'\n'`.
- **Listing decoding**:
  - `int64_parse.dfy`: `long.TryParse` with the integer number style;
  - `url_decoding.dfy`: `WebUtility.UrlDecode`;
  - `listing.dfy`: `FromUnixTimeSeconds` on ticks, and
    `Descendants("files").Elements("file")` with the per-record lambda.
- **The download copy loop** (`copy_loop.dfy`). It uses a 128 KiB `byte`
  array, and cancellation is checked at the loop head.
- **Cookie mapping** (`cookie_mapper.dfy`). It maps between the persisted
  cookie record and `System.Net.Cookie`, builds the container from the stored
  dictionary, and builds the dictionary from the container with
  `ToDictionaryAllowDuplicateKeys` (`enumerable_extensions.dfy`, a last-wins
  fold).
- **The date window, dispatch and watch loop** (`date_window.dfy`,
  `sync_service.dfy`). `MaService` and `ServuService` are the same code over
  `MaFile` and `ServuFile`. Both file types are `Files.RemoteFile` here, so
  the service is modelled once. Its rows cite `ServuSync/ServuService.cs`
  for the methods and `MaSync/MaService.cs` for the lemmas, and the same
  lines exist in both files.
- **`Program.Main`** (`program.dfy`): its decisions, as the sequence of
  actions it takes.

Dates are `DateTime` ticks (`int`). `DateTime.MinValue` is 0 and is also
`default(DateTime)`. `DateTime.MaxValue` is 3155378975999999999. The network,
the clock, the cancellation token and the file system are parameters:
- the responses the server gives;
- the clock readings;
- the state of the token at each check;
- the outcome of each read of the response stream.

## Model

| member | source | states |
|---|---|---|
| EnumerableExtensions.ToDictionaryAllowDuplicateKeys | ServuSync/EnumerableExtensions.cs:5-13 | the loop leaves `dict` equal to the last-wins fold of all items, in order; a duplicate key overwrites and never throws |
| EnumerableExtensions.LastWinsKeys | ServuSync/EnumerableExtensions.cs:7-11 | the dictionary's keys are exactly the keys of the input items (none for an empty input) |
| EnumerableExtensions.LastWinsValue | ServuSync/EnumerableExtensions.cs:10 | an item's key maps to that item's value when no later item has the same key |
| EnumerableExtensions.LastWinsSize | ServuSync/EnumerableExtensions.cs:8-11 | at most one entry per item, and exactly one per item iff no two items share a key |
| CookieMapper.MapSystemCookie | MaSync/CookieMapper.cs:7-16 | the system cookie built from a stored one: a null name becomes "", the other six fields are copied (`IsSecure` to `Secure`); its properties are the two round-trip lemmas below |
| CookieMapper.MapModel | MaSync/CookieMapper.cs:18-27 | the stored cookie built from a system cookie: all seven fields copied (`Secure` to `IsSecure`); its properties are the two round-trip lemmas below |
| CookieMapper.ModelRoundTrip | MaSync/CookieMapper.cs:7-27 | mapping a stored cookie that has a name to a system cookie and back restores all seven fields |
| CookieMapper.SystemRoundTrip | MaSync/CookieMapper.cs:7-27 | mapping a system cookie to the stored record and back is the identity (`Secure` travels via `IsSecure`) |
| CookieMapper.MapCookieContainer | MaSync/CookieMapper.cs:29-40 | a null dictionary gives an empty container; otherwise the container holds exactly one mapped cookie per dictionary entry, in some enumeration order of the keys |
| CookieMapper.MapContainerModel | MaSync/CookieMapper.cs:42-45 | the dictionary built from a container: every cookie mapped to the stored record and keyed by its name, last one wins; `MapContainerModelEntries` and `RestoreAfterPersist` state its properties |
| CookieMapper.MapContainerModelEntries | MaSync/CookieMapper.cs:42-45 | the dictionary built from a container has one key per distinct cookie name, files each cookie under its own name, and keeps the last cookie of each name |
| CookieMapper.RestoreAfterPersist | MaSync/CookieMapper.cs:29-45 | turning a name-keyed dictionary into a container and back gives the same dictionary |
| CodeToken.MatchFrom | MaSync/MaClient.cs:11 | the regex scan finds the leftmost start from which `.*` can reach a `code=\w` on the same line, and then the last such `code=` on that line |
| CodeToken.ExtractToken | MaSync/MaClient.cs:73-81 | the captured group is a non-empty run of word characters |
| CodeToken.TokenFoundIff | MaSync/MaClient.cs:73-79 | a token is found iff `code=` followed by a word character occurs somewhere in the reply |
| CodeToken.TokenPosition | MaSync/MaClient.cs:11 | the token is the maximal word run after a `code=`; every earlier occurrence lies on the same line, and every later occurrence is on a later line |
| CodeToken.TokenExample | MaSync/MaClient.cs:11 | on `code=a code=b` the greedy `.*` captures `b` |
| Int64Parse.TrimStart | MaSync/MaClient.cs:153 | the result is a suffix of the input that does not start with white space, and everything removed is white space |
| Int64Parse.TrimEnd | MaSync/MaClient.cs:153 | the result is a prefix of the input that does not end with white space, and everything removed is white space |
| Int64Parse.TryParseLong | MaSync/MaClient.cs:153-161 | a parsed value always lies in the 64-bit range; a null element value never parses |
| Int64Parse.ParseSucceeds | MaSync/MaClient.cs:153-161 | a successful parse means the trimmed text is an optional sign followed by a non-empty run of decimal digits, and the value is those digits read in base 10 with that sign |
| Int64Parse.ParseWellFormed | MaSync/MaClient.cs:153-161 | the converse: a text that trims to an optional sign and at least one decimal digit parses to their signed value whenever it fits in 64 bits (so `+5`, `007`, `-0` and ` 12 ` parse) |
| Int64Parse.ParseExamplesRejected | MaSync/MaClient.cs:153 | a lone sign, a doubled sign, inner white space, a trailing letter and the empty string do not parse |
| Int64Parse.DigitsRoundTrip | MaSync/MaClient.cs:153 | the decimal digits of a natural number read back as that number |
| Int64Parse.ParseFormat | MaSync/MaClient.cs:153-161 | the decimal text of an integer parses back to it exactly when it fits in 64 bits, and fails otherwise |
| Int64Parse.ParseExampleWhite | MaSync/MaClient.cs:153 | surrounding white space is ignored: `" 42\t"` parses to 42 |
| UrlDecoding.UrlDecode | MaSync/MaClient.cs:166 | decoding never lengthens the name |
| UrlDecoding.HexDigit | MaSync/MaClient.cs:166 | the hex digit written for a value below 16, in either case, reads back as that value |
| UrlDecoding.DecodeEncode | MaSync/MaClient.cs:166 | decoding inverts form encoding (`+` for space, `%` and `+` always escaped, any further choice of single-byte characters escaped as `%XX` in upper- or lower-case hex) |
| UrlDecoding.DecodePlain | MaSync/MaClient.cs:163-167 | a name without `%` or `+` is kept as it is |
| UrlDecoding.DecodeExample | MaSync/MaClient.cs:166 | `a%20b` decodes to `a b` |
| Listing.FromUnixTimeSeconds | MaSync/MaClient.cs:173 | the conversion succeeds iff the seconds lie in -62135596800..253402300799, and the result is a valid `DateTime` |
| Listing.DecodeRecord | MaSync/MaClient.cs:151-174 | one `file` element as a file: URL-decoded name ("" when absent), size (0 when unparsable), date from `FromUnixTimeSeconds` (the epoch when unparsable), failing when the conversion throws; `DecodeRecordDefaults` and `RecordRoundTrip` state its properties |
| Listing.DecodeRecordDefaults | MaSync/MaClient.cs:151-174 | an unparsable date gives the Unix epoch, an unparsable size gives 0, a missing name gives ""; a record fails only when its parsed date is out of range |
| Listing.DecodeAll | MaSync/MaClient.cs:151-175 | the listing succeeds iff every record decodes, and then it yields one file per record, in document order |
| Listing.ParseListing | MaSync/MaClient.cs:137-177 | non-200 gives an empty list; a body that is not XML throws; otherwise there is one file per `files/file` record |
| Listing.RecordRoundTrip | MaSync/MaClient.cs:151-174 | a record written from a name, size and in-range date decodes back to exactly that file |
| Listing.ListingRoundTrip | MaSync/MaClient.cs:146-177 | a listing document written from representable entries lists exactly those files, in order |
| CopyLoop.StopFrom | MaSync/MaClient.cs:216-220 | the loop stops at the first read where cancellation is seen, the stream ends, or the read throws; every read before that stop delivered bytes |
| CopyLoop.ReadInto | MaSync/MaClient.cs:216 | a read fills the front of the buffer and reports the byte count |
| CopyLoop.SaveToFile | MaSync/MaClient.cs:209-221 | the copy loop ends as `StopFrom` says, and the file holds the bytes of every read before the stop |
| CopyLoop.WrittenPrefix | MaSync/MaClient.cs:216-220 | stopping earlier leaves a prefix of what a later stop would have written |
| CopyLoop.WrittenAll | MaSync/MaClient.cs:216-220 | the bytes written by the first n reads are the bytes those reads delivered |
| CopyLoop.CompleteCopy | MaSync/MaClient.cs:209-221 | with no cancellation and no fault, the loop reaches the end of the stream and the file holds every byte delivered |
| MaClient.CookiesFor | MaSync/MaClient.cs:225-228 | only cookies of the container whose domain covers the host are returned |
| MaClient.CookiesForMembers | MaSync/MaClient.cs:225-228 | a cookie is returned iff it is in the container and its domain covers the host |
| MaClient.ValidateCookie | MaSync/MaClient.cs:223-240 | the first cookie for the host with that name has a non-empty value; `ValidateCookieIff` states it against the container |
| MaClient.ValidateCookieIff | MaSync/MaClient.cs:223-240 | the check passes iff the first cookie for the host with that name has a present, non-empty value |
| MaClient.Handshake | MaSync/MaClient.cs:33-114 | the login exchange as a function of the five responses: the requests sent, the failure cause if any, and the container left; `HandshakeOutcome`, `UncheckedStatuses` and `SuccessHasSession` state its properties |
| MaClient.HandshakeOutcome | MaSync/MaClient.cs:33-114 | the five failure causes of `Handshake` as iffs in the order the source checks them (only `302` to the gateway host, only `200`, token, `Session` cookie); 1, 3 or 5 requests sent; the exact URL, form and cookies of each request; the container left is the one the last response set |
| MaClient.UncheckedStatuses | MaSync/MaClient.cs:48-84 | the statuses of the gateway-page GET and of the self-auth GET are never consulted |
| MaClient.SuccessHasSession | MaSync/MaClient.cs:104-113 | a successful login ends with a non-empty portal `Session` cookie in the container |
| MaClient.GetFileName | MaSync/MaClient.cs:197 | the file name is the longest slash-free suffix of the path |
| MaClient.MaClient.constructor | MaSync/MaClient.cs:24-31 | the stored cookies are loaded once, and the container starts empty |
| MaClient.MaClient.GetClient | MaSync/MaClient.cs:242-261 | the container is rebuilt from `Cookies` (empty when null), or is a fresh empty one when cookies are not wanted |
| MaClient.MaClient.Login | MaSync/MaClient.cs:33-114 | the requests sent, the result and the final container are those of `Handshake` on the same responses; only success sets `Cookies`, to the last-wins dictionary of the final container, and saves it exactly once; every failure leaves `Cookies` and the store unchanged |
| MaClient.MaClient.Ping | MaSync/MaClient.cs:116-129 | true iff the keep-alive POST, sent with the cached cookies, gets 200 |
| MaClient.MaClient.List | MaSync/MaClient.cs:131-178 | the result is `ParseListing` of the status and body, fetched with the cached cookies from the list URL |
| MaClient.MaClient.Download | MaSync/MaClient.cs:180-207 | non-200 gives false and creates no file; otherwise `downloads/<file name>` holds what the copy loop wrote, and the result is false only when a read threw |
| DateWindow.Select | ServuSync/ServuService.cs:39 | every selected file lies strictly inside the window, and there are never more selected files than listed ones |
| DateWindow.SelectMembers | ServuSync/ServuService.cs:39 | a file is selected iff it is listed and `after < Date < before` |
| DateWindow.SelectAppend | MaSync/MaService.cs:39 | the filter keeps the listing's order |
| DateWindow.SelectAll | MaSync/MaService.cs:39 | when every file is inside the window the listing is returned whole |
| DateWindow.EmptyWindow | ServuSync/ServuService.cs:39 | `after >= before` (or `before == after + 1`) selects nothing |
| DateWindow.BoundsExclusive | ServuSync/ServuService.cs:39 | files dated exactly `after` or exactly `before` are left out |
| DateWindow.DefaultWindowDecoded | MaSync/Program.cs:37-38 | with no date options every decoded file is inside the window except one dated exactly `DateTime.MinValue` |
| DateWindow.DownloadPath | MaSync/MaService.cs:62 | the path handed to the download is `directory/name`; `Paths` and `FailuresMembers` use it |
| DateWindow.Paths | MaSync/MaService.cs:62 | one path per file |
| DateWindow.Failures | MaSync/MaService.cs:66-71 | every recorded failure is a download that returned false |
| DateWindow.FailuresMembers | MaSync/MaService.cs:66-71 | a path is logged as failed iff it was dispatched and its download returned false |
| DateWindow.NoRedownload | MaSync/MaService.cs:25-30 | under a monotone clock, a file selected on two passes is dated after the clock reading that followed the earlier listing |
| DateWindow.ListedLateNeverSelected | MaSync/MaService.cs:19-28 | a file that first appears in a listing dated no later than the clock reading opening that pass is never selected |
| DateWindow.LateFileExample | MaSync/MaService.cs:19-28 | such a file exists: with clock k*100 and a file dated 50 listed from pass 1 on, no pass selects it |
| SyncService.ListAsync | ServuSync/ServuService.cs:36-47 | the client's files inside the window, in order; an exception from the client passes through |
| SyncService.FailuresSnoc | ServuSync/ServuService.cs:66-71 | a further download adds its path to the failures iff it returned false |
| SyncService.DownloadInParallelAsync | ServuSync/ServuService.cs:58-73 | every in-range file is dispatched exactly once as `directory/name`, and a failure is only logged, so dispatch carries on |
| SyncService.DownloadAsync | ServuSync/ServuService.cs:49-56 | downloads exactly the in-window files of the listing; nothing is dispatched when listing throws |
| SyncService.TicksUpToAt | ServuSync/ServuService.cs:25-32 | there are n ticks up to n, and tick i is the pass that lists with the clock reading i and dispatches the selected files |
| SyncService.WatchAsync | ServuSync/ServuService.cs:17-34 | the ticks are the first passes as `TicksUpTo` defines them: each lists with `after` = the clock read before the loop or just after the previous listing, and `before` = `DateTime.MaxValue`; every pass ran uncancelled with a listing that succeeded; the loop ends exactly when cancellation is seen at its head, or when a listing throws, and then reports that listing's error |
| Program.RunCommands | MaSync/Program.cs:35-54 | the calls made once the directory is known are `Commands`: the defaulting of `after` changes nothing, an absent `before` becomes `DateTime.MaxValue`, and a list or download call that throws is the last call made |
| Program.CommandsRanked | MaSync/Program.cs:35-54 | list, download and watch come in that order, each at most once |
| Program.CommandsMembers | MaSync/Program.cs:35-54 | each of list, download and watch is called iff its flag is set and no earlier call threw, with the directory and the window the options give |
| Program.CommandsThrowLast | MaSync/Program.cs:40-54 | a list or download call that throws is the last call: the exception leaves `Main` |
| Program.MainFlow | MaSync/Program.cs:8-55 | what `Main` does is `Actions` of the parse result, the client's answers and which service calls throw |
| Program.ActionsRanked | MaSync/Program.cs:8-55 | `Main` pings first and does each thing at most once, in source order |
| Program.ActionsStops | MaSync/Program.cs:17-33 | log in iff the ping fails; stop after a failed login; report unparsed options, or a missing directory when a command needs one, exactly when they happen |
| Program.ActionsCalls | MaSync/Program.cs:17-54 | list, download and watch each run iff the login state allows it, the options parsed, its flag is set, a directory is given and no earlier list or download call threw, with `after` as given and an absent `before` as `DateTime.MaxValue` |

## Left out

- HTTP transport. TLS, the user agent, redirects (disabled in the source) and header handling are not modelled; each exchange is the response it returns.
- How the server sets cookies. Each response carries the container as it stands after the exchange; how `Set-Cookie` updates it is not modelled.
- `CookieContainer` behaviour. Path and expiry rules, the per-domain limits and enumeration order are not modelled. Domain matching covers the exact-host and leading-dot cases only. `CookieContainer.Add` throwing on a cookie without a domain is not modelled.
- Cookie storage. `CookieRepo` file I/O is not part of this model. Reading happens once in the constructor. Saving is the ghost `saveLog`.
- MaClient.MaClient.Login: a `302` whose `Location` is a relative URI makes `.Host` throw `InvalidOperationException` in the source; here a `Location` always carries a host, so that exception is not modelled.
- `MaClient.Login`: the unused `match.Groups.Count < 2` test is not modelled (the group always exists on a match). The clock reading for the `Sync=` parameter is a parameter.
- CookieMapper.ModelRoundTrip: the checks and normalisation of the `System.Net.Cookie` setters are not modelled. A null or empty name makes the setter throw `CookieException`, so `GetClient(true)`, and with it ping, list and download, would throw. A null value, domain or path becomes "". Here the mapping never throws and keeps a null value as null.
- MaClient.GetFileName: only '/' separates path segments. `Path.GetFileName` on Windows also splits on '\\', which is not modelled.
- `CodeToken.ExtractToken`: `\w` is ASCII letters, digits and `_`. The Unicode word classes are not modelled.
- `UrlDecoding.UrlDecode`: a `%XX` escape becomes the single character with that code. The UTF-8 decoding of multi-byte escapes is not modelled.
- `Int64Parse.TryParseLong`: trailing NUL characters, which .NET also accepts, are not modelled.
- Parsing of the listing's XML text. The body arrives as an element tree, or as `None` when `XDocument.Parse` would throw.
- `MaClient.MaClient.Download`: exceptions from creating `downloads/`, opening the file or writing to it are not modelled. Only a failing read makes the result false. An exception that escapes `client.GetAsync` itself is not modelled.
- `CopyLoop.SaveToFile`: `ReadAsync` observing the token is folded into the per-read `Fault` outcome.
- `SyncService.DownloadInParallelAsync`: `Parallel.ForEachAsync` is modelled sequentially, in list order. Concurrency, the degree of parallelism and cancellation of the parallel loop are not modelled. Log lines are not modelled. The outcome of a download is a function of its path, so two files of one batch with the same path always share an outcome.
- `SyncService.WatchAsync`: the 30-second `Task.Delay` is not modelled, nor the `OperationCanceledException` it throws when cancelled. Cancellation is seen at the next loop head instead. Only runs in which cancellation is eventually requested are modelled. The source's default token is never cancelled, so that run never ends.
- `Program.Main`: which of `ListAsync` and `DownloadAsync` throw is a parameter (`Throws`). The exception itself is not modelled, only that nothing runs after it.
- Logging in every file, dependency-injection wiring and command-line parsing. `Options` arrives already parsed, or as `None` when parsing failed, in which case the first use of it throws.
