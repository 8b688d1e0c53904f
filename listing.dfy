/**
 * The directory listing returned by the portal: an XML document whose
 * `files` elements hold `file` records with `FileName`, `FileSize` and
 * `FileDate` (Unix seconds) children. Parsing the XML text is left to the
 * XML library; the model starts from the parsed element tree, or from the
 * fact that parsing failed.
 */
module Listing {
  import opened Wrappers
  import opened Files
  import opened Int64Parse
  import opened UrlDecoding

  /** A parsed element: its name, its string value (`XElement.Value`) and its child elements in document order. */
  datatype XElement = XElement(name: string, value: string, children: seq<XElement>)

  function Concat<T>(ss: seq<seq<T>>): (r: seq<T>)
    ensures ss == [] ==> r == []
  {
    if ss == [] then [] else ss[0] + Concat(ss[1..])
  }

  lemma {:induction false} ConcatSingletons<T>(ss: seq<seq<T>>)
    requires forall i :: 0 <= i < |ss| ==> |ss[i]| == 1
    ensures |Concat(ss)| == |ss| && forall i :: 0 <= i < |ss| ==> Concat(ss)[i] == ss[i][0]
  {
    if ss != [] {
      ConcatSingletons(ss[1..]);
    }
  }

  lemma {:induction false} ConcatEmpties<T>(ss: seq<seq<T>>)
    requires forall i :: 0 <= i < |ss| ==> ss[i] == []
    ensures Concat(ss) == []
  {
    if ss != [] {
      ConcatEmpties(ss[1..]);
    }
  }

  /** `Descendants(n)`, counting the element itself: every element named `n` in the subtree, in document order. */
  function DescendantsNamed(e: XElement, n: string): seq<XElement>
  {
    (if e.name == n then [e] else [])
    + Concat(seq(|e.children|, i requires 0 <= i < |e.children| => DescendantsNamed(e.children[i], n)))
  }

  /** `Elements(n)` of one element: its children named `n`, in order. */
  function Named(children: seq<XElement>, n: string): (r: seq<XElement>)
    ensures forall x :: x in r ==> x in children && x.name == n
  {
    if children == [] then []
    else (if children[0].name == n then [children[0]] else []) + Named(children[1..], n)
  }

  /** `e.Element(n)?.Value`: the value of the first child named `n`, or null. */
  function ChildValue(e: XElement, n: string): Option<string>
  {
    var found := Named(e.children, n);
    if found == [] then None else Some(found[0].value)
  }

  /** `doc.Descendants("files").Elements("file")`: the records, in document order. */
  function FileRecords(root: XElement): seq<XElement>
  {
    var lists := DescendantsNamed(root, "files");
    Concat(seq(|lists|, i requires 0 <= i < |lists| => Named(lists[i].children, "file")))
  }

  /** The range of Unix seconds that `DateTimeOffset.FromUnixTimeSeconds` accepts. */
  const MinUnixSeconds: int := -62135596800
  const MaxUnixSeconds: int := 253402300799

  /** The instant `seconds` after the Unix epoch, in ticks. */
  function SecondsToTicks(seconds: int): int
  {
    UnixEpochTicks + seconds * TicksPerSecond
  }

  /** `DateTimeOffset.FromUnixTimeSeconds(s).DateTime` in ticks; `None` where it throws. */
  function FromUnixTimeSeconds(seconds: int): (r: Option<int>)
    ensures r.Some? <==> MinUnixSeconds <= seconds <= MaxUnixSeconds
    ensures r.Some? ==> MinTicks <= r.value <= MaxTicks
  {
    if MinUnixSeconds <= seconds <= MaxUnixSeconds then Some(SecondsToTicks(seconds)) else None
  }

  /**
   * The per-record lambda. A missing or unparsable size or date is 0; the
   * name is the URL-decoded `FileName`, or "" when there is none (the
   * "(Untitled)" fallback can never apply, since the name is never null).
   * `None` means `FromUnixTimeSeconds` threw.
   */
  function DecodeRecord(e: XElement): Option<MaFile>
  {
    var size := TryParseLong(ChildValue(e, "FileSize")).GetOr(0);
    var seconds := TryParseLong(ChildValue(e, "FileDate")).GetOr(0);
    var name := UrlDecode(ChildValue(e, "FileName").GetOr(""));
    match FromUnixTimeSeconds(seconds)
    case Some(date) => Some(RemoteFile(name, size, date))
    case None => None
  }

  /** Every field falls back on its default on its own, and only the date can make a record fail. */
  lemma DecodeRecordDefaults(e: XElement)
    ensures TryParseLong(ChildValue(e, "FileDate")).None? ==>
              DecodeRecord(e).Some? && DecodeRecord(e).value.Date == UnixEpochTicks
    ensures DecodeRecord(e).Some? && TryParseLong(ChildValue(e, "FileSize")).None? ==>
              DecodeRecord(e).value.Size == 0
    ensures DecodeRecord(e).Some? && ChildValue(e, "FileName").None? ==>
              DecodeRecord(e).value.Name == ""
    ensures DecodeRecord(e).None? <==>
              var s := TryParseLong(ChildValue(e, "FileDate"));
              s.Some? && (s.value < MinUnixSeconds || s.value > MaxUnixSeconds)
  {
  }

  datatype ListError = MalformedXml | DateOutOfRange

  /** The outcome of `MaClient.ListAsync`: the files, or the exception that escaped it. */
  datatype Listed = Listed(files: seq<MaFile>) | ListFailed(error: ListError)

  /** `.Select(lambda).ToList()`: one file per record, in order, unless some record's date throws. */
  function DecodeAll(records: seq<XElement>): (r: Listed)
    ensures r.Listed? <==> forall i :: 0 <= i < |records| ==> DecodeRecord(records[i]).Some?
    ensures r.ListFailed? ==> r.error == DateOutOfRange
    ensures r.Listed? ==> (|r.files| == |records| &&
              forall i :: 0 <= i < |records| ==> r.files[i] == DecodeRecord(records[i]).value)
  {
    if records == [] then Listed([])
    else
      match DecodeRecord(records[0])
      case None => ListFailed(DateOutOfRange)
      case Some(f) =>
        match DecodeAll(records[1..])
        case Listed(fs) => Listed([f] + fs)
        case ListFailed(err) => ListFailed(err)
  }

  /**
   * The listing after the HTTP exchange: a non-200 status gives an empty
   * list; otherwise the document (None when `XDocument.Parse` throws) is
   * decoded record by record.
   */
  function ParseListing(status: int, doc: Option<XElement>): (r: Listed)
    ensures status != 200 ==> r == Listed([])
    ensures status == 200 && doc.None? ==> r == ListFailed(MalformedXml)
    ensures status == 200 && doc.Some? && r.Listed? ==> |r.files| == |FileRecords(doc.value)|
  {
    if status != 200 then Listed([])
    else if doc.None? then ListFailed(MalformedXml)
    else DecodeAll(FileRecords(doc.value))
  }

  /** A file as the portal describes it: decoded name, size in bytes, date in Unix seconds. */
  datatype Entry = Entry(name: string, size: int, seconds: int)

  predicate Representable(x: Entry)
  {
    Int64Min <= x.size <= Int64Max && MinUnixSeconds <= x.seconds <= MaxUnixSeconds
  }

  /** A `file` record that describes `x`. */
  function EncodeRecord(x: Entry): XElement
  {
    XElement("file", "", [
      XElement("FileName", UrlEncode(x.name, EscapeNone, true), []),
      XElement("FileSize", Format(x.size), []),
      XElement("FileDate", Format(x.seconds), [])])
  }

  /** A listing document holding `xs` in one `files` element. */
  function EncodeListing(xs: seq<Entry>): XElement
  {
    XElement("List", "", [XElement("files", "", EncodeRecords(xs))])
  }

  /** The file that decoding a record for `x` should give. */
  function Expected(x: Entry): MaFile
  {
    RemoteFile(x.name, x.size, SecondsToTicks(x.seconds))
  }

  lemma RecordChildren(x: Entry)
    ensures ChildValue(EncodeRecord(x), "FileName") == Some(UrlEncode(x.name, EscapeNone, true))
    ensures ChildValue(EncodeRecord(x), "FileSize") == Some(Format(x.size))
    ensures ChildValue(EncodeRecord(x), "FileDate") == Some(Format(x.seconds))
  {
    var cs := EncodeRecord(x).children;
    assert "FileName" != "FileSize" by { assert "FileName"[4] != "FileSize"[4]; }
    assert "FileName" != "FileDate" by { assert "FileName"[4] != "FileDate"[4]; }
    assert "FileSize" != "FileDate" by { assert "FileSize"[4] != "FileDate"[4]; }
    assert cs[1..][1..] == [cs[2]];
    assert cs[1..][1..][1..] == [];
    assert Named(cs, "FileName")[0] == cs[0];
    assert Named(cs[1..][1..], "FileSize") == [];
    assert Named(cs[1..], "FileSize") == [cs[1]];
    assert Named(cs, "FileSize") == [cs[1]];
    assert Named(cs[1..][1..], "FileDate") == [cs[2]];
    assert Named(cs[1..], "FileDate") == [cs[2]];
    assert Named(cs, "FileDate") == [cs[2]];
  }

  lemma RecordRoundTrip(x: Entry)
    requires Representable(x)
    ensures DecodeRecord(EncodeRecord(x)) == Some(Expected(x))
  {
    var e := EncodeRecord(x);
    assert TryParseLong(ChildValue(e, "FileSize")) == Some(x.size) by {
      RecordChildren(x);
      ParseFormat(x.size);
    }
    assert TryParseLong(ChildValue(e, "FileDate")) == Some(x.seconds) by {
      RecordChildren(x);
      ParseFormat(x.seconds);
    }
    assert UrlDecode(ChildValue(e, "FileName").GetOr("")) == x.name by {
      RecordChildren(x);
      DecodeEncode(x.name, EscapeNone, true);
    }
    DecodeRecordFields(e, x);
  }

  lemma DecodeRecordFields(e: XElement, x: Entry)
    requires MinUnixSeconds <= x.seconds <= MaxUnixSeconds
    requires TryParseLong(ChildValue(e, "FileSize")) == Some(x.size)
    requires TryParseLong(ChildValue(e, "FileDate")) == Some(x.seconds)
    requires UrlDecode(ChildValue(e, "FileName").GetOr("")) == x.name
    ensures DecodeRecord(e) == Some(Expected(x))
  {
  }

  lemma {:induction false} NoFilesBelowRecord(x: Entry)
    ensures DescendantsNamed(EncodeRecord(x), "files") == []
  {
    var e := EncodeRecord(x);
    var parts := seq(|e.children|, i requires 0 <= i < |e.children| => DescendantsNamed(e.children[i], "files"));
    forall i | 0 <= i < |parts| ensures parts[i] == [] {
      var c := e.children[i];
      assert c.children == [];
      assert DescendantsNamed(c, "files") == [] + Concat([]);
    }
    ConcatEmpties(parts);
  }

  lemma {:induction false} AllNamedFile(xs: seq<Entry>)
    ensures Named(EncodeRecords(xs), "file") == EncodeRecords(xs)
  {
    if xs != [] {
      AllNamedFile(xs[1..]);
      assert EncodeRecords(xs)[1..] == EncodeRecords(xs[1..]);
    }
  }

  function EncodeRecords(xs: seq<Entry>): seq<XElement>
  {
    seq(|xs|, i requires 0 <= i < |xs| => EncodeRecord(xs[i]))
  }

  /** The only `files` element of an encoded listing is the one under the root. */
  lemma FilesOfListing(xs: seq<Entry>)
    ensures DescendantsNamed(EncodeListing(xs), "files") == [EncodeListing(xs).children[0]]
  {
    var root := EncodeListing(xs);
    var rs := EncodeRecords(xs);
    var filesElem := root.children[0];
    var below := seq(|rs|, i requires 0 <= i < |rs| => DescendantsNamed(rs[i], "files"));
    forall i | 0 <= i < |rs| ensures below[i] == [] {
      NoFilesBelowRecord(xs[i]);
    }
    ConcatEmpties(below);
    assert filesElem.children == rs;
    assert seq(|filesElem.children|, i requires 0 <= i < |filesElem.children| => DescendantsNamed(filesElem.children[i], "files")) == below;
    assert DescendantsNamed(filesElem, "files") == [filesElem];
    var top := seq(|root.children|, i requires 0 <= i < |root.children| => DescendantsNamed(root.children[i], "files"));
    assert top == [[filesElem]];
    assert Concat(top) == [filesElem];
  }

  lemma FileRecordsOfListing(xs: seq<Entry>)
    ensures FileRecords(EncodeListing(xs)) == EncodeRecords(xs)
  {
    var root := EncodeListing(xs);
    var rs := EncodeRecords(xs);
    FilesOfListing(xs);
    AllNamedFile(xs);
    var lists := [root.children[0]];
    assert lists[0].children == rs;
    assert seq(|lists|, i requires 0 <= i < |lists| => Named(lists[i].children, "file")) == [rs];
    assert Concat([rs]) == rs by {
      assert [rs][1..] == [];
    }
  }

  lemma DecodeEncodedRecords(xs: seq<Entry>)
    requires forall i :: 0 <= i < |xs| ==> Representable(xs[i])
    ensures DecodeAll(EncodeRecords(xs)) == Listed(seq(|xs|, i requires 0 <= i < |xs| => Expected(xs[i])))
  {
    var rs := EncodeRecords(xs);
    forall i | 0 <= i < |xs| ensures DecodeRecord(rs[i]) == Some(Expected(xs[i])) {
      RecordRoundTrip(xs[i]);
    }
    var r := DecodeAll(rs);
    assert r.Listed?;
    assert r.files == seq(|xs|, i requires 0 <= i < |xs| => Expected(xs[i]));
  }

  /** Entries put into a listing document come back, in order, as the files they describe. */
  lemma ListingRoundTrip(xs: seq<Entry>)
    requires forall i :: 0 <= i < |xs| ==> Representable(xs[i])
    ensures ParseListing(200, Some(EncodeListing(xs))) ==
              Listed(seq(|xs|, i requires 0 <= i < |xs| => Expected(xs[i])))
  {
    FileRecordsOfListing(xs);
    DecodeEncodedRecords(xs);
  }
}
