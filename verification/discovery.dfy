/**
 The discovery engine: it walks files, classifies every blob, descends into
 containers (binders, DCX, split archives, Zero3), emits one payload per blob
 found, and keeps a ledger of names it must not search twice.

 The file system is an immutable map from path to blob. A blob carries its
 bytes and, standing in for the format readers this model does not contain,
 what each reader would make of it: the files of a binder or Zero3 archive,
 the files of the merged view a split header and its data file make together,
 and the result of DCX decompression.
 */
module Discovery {
  import opened Results
  import opened Text
  import opened Streams
  import opened Payloads
  import opened Sniffing
  import opened Naming

  /** Files of 500 MiB and more are opened as streams instead of being read whole. */
  const BytesSizeThreshold: nat := 1024 * 1024 * 500

  datatype Blob = Blob(bytes: seq<bv8>, files: Reading, paired: Reading, inflated: Inflation)

  /** What a format reader makes of a blob: its files, or an exception. */
  datatype Reading = Unreadable | Files(entries: seq<Entry>)

  /** What DCX decompression makes of a blob. */
  datatype Inflation = Undecompressible | Inflated(inner: Blob)

  /** A file inside a container; `name` is null for unnamed binder entries. */
  datatype Entry = Entry(name: Option<string>, id: int, blob: Blob)

  type FileSystem = map<string, Blob>

  /**
   Where a split companion is looked up: on disk, or among the files of the
   reader the current container was opened with.
   */
  datatype Locator = OnDisk | InReader(container: string, entries: seq<Entry>)

  /** How a container names its entries. */
  datatype EntryNaming =
    | ByName    // the entry's own name (BND2, Zero3)
    | ByHeader  // `GetBinderFileName` (BND3, BND4, BXF3, BXF4)
    | ById      // the entry's ID (LDMU)
    | ByIndex   // the entry's position (MGF)

  datatype Error =
    | ReaderFailed(format: string)  // a reader or decompressor rejected the blob
    | NullName                      // an unnamed entry was asked for its name
    | FileNotFound(path: string)

  /**
   The engine's state: the ledger of found names (`FoundSplitFiles`) and
   every payload handed to the subscriber so far, in order.
   */
  datatype Engine = Engine(ledger: set<string>, emitted: seq<SearchData>)

  /** An engine together with the payload a feedback pass left behind. */
  datatype Step = Step(engine: Engine, data: SearchData)

  /** A freshly constructed engine. */
  const Fresh := Engine({}, [])

  /** Tags searched through a single reader over the blob. */
  predicate IsBinderTag(f: string) {
    f == "BND2" || f == "BND3" || f == "BND4" || f == "MGF"
  }

  /** The halves of a split binder: headers (BHF) and data files (BDF). */
  predicate IsSplitBinderTag(f: string) {
    f == "BHF3" || f == "BHF4" || f == "BDF3" || f == "BDF4"
  }

  /** Tags whose feedback arm records the payload's own name in the ledger. */
  predicate IsSplitTag(f: string) {
    IsSplitBinderTag(f) || f == "BHD5" || f == "LDMU"
  }

  /** Tags with a feedback arm at all. */
  predicate IsContainerTag(f: string) {
    IsBinderTag(f) || f == "DCX" || IsSplitTag(f)
  }

  /** A payload fit to hand to a subscriber: one live source, at its start, not disposed. */
  predicate Emittable(d: SearchData) {
    HasOneSource(d) && Rewound(d) && StreamLive(d) && !d.disposed
  }

  /**
   `e2` is a later state of `e`: the ledger only grows, emissions are only
   appended, and everything appended is emittable.
   */
  predicate Extends(e: Engine, e2: Engine) {
    && e.ledger <= e2.ledger
    && e.emitted <= e2.emitted
    && forall k :: |e.emitted| <= k < |e2.emitted| ==> Emittable(e2.emitted[k])
  }

  lemma ExtendsTransitive(e1: Engine, e2: Engine, e3: Engine)
    requires Extends(e1, e2) && Extends(e2, e3)
    ensures Extends(e1, e3)
  {
    forall k | |e1.emitted| <= k < |e3.emitted|
      ensures Emittable(e3.emitted[k])
    {
      if k < |e2.emitted| {
        assert e3.emitted[k] == e2.emitted[k];
      }
    }
  }

  /** The same payload up to its stream position. */
  predicate SameIdentity(a: SearchData, b: SearchData) {
    && a.name == b.name && a.container == b.container && a.format == b.format
    && a.bytes == b.bytes && a.leaveStreamOpen == b.leaveStreamOpen && a.disposed == b.disposed
    && a.stream.Some? == b.stream.Some?
    && (a.stream.Some? ==> a.stream.value.data == b.stream.value.data)
  }

  /** A payload ready for a feedback pass over `blob`, its content. */
  predicate Ready(d: SearchData, blob: Blob) {
    HasOneSource(d) && StreamLive(d) && !d.disposed && Content(d) == blob.bytes
  }

  /** What every feedback pass promises when it succeeds. */
  predicate Settles(e: Engine, data: SearchData, r: Result<Step, Error>) {
    r.Success? ==> Extends(e, r.value.engine) && Emittable(r.value.data) && SameIdentity(r.value.data, data)
  }

  /** The payload emitted last. */
  function Last(s: seq<SearchData>): SearchData
    requires |s| > 0
  {
    s[|s| - 1]
  }

  function Emit(e: Engine, d: SearchData): (r: Engine)
    requires Emittable(d)
    ensures Extends(e, r) && r.ledger == e.ledger && r.emitted == e.emitted + [d]
  {
    e.(emitted := e.emitted + [d])
  }

  function Record(e: Engine, name: string): (r: Engine)
    ensures Extends(e, r) && r.emitted == e.emitted && r.ledger == e.ledger + {name}
  {
    e.(ledger := e.ledger + {name})
  }

  /** A reader that has consumed a stream-backed payload leaves it at the end. */
  function Consume(d: SearchData): (r: SearchData)
    requires StreamLive(d)
    ensures SameIdentity(r, d) && StreamLive(r) && HasOneSource(r) == HasOneSource(d)
    ensures r.stream.Some? ==> r.stream.value.position == |r.stream.value.data|
  {
    match d.stream
    case None => d
    case Some(s) => d.(stream := Some(s.(position := |s.data|)))
  }

  /**
   Opening a file the way `TryGetSplitFile` and the Zero3 part loop do: read
   whole below the threshold, else as a stream the payload owns.
   */
  function Load(path: string, format: string, blob: Blob): (d: SearchData)
    ensures Emittable(d) && Content(d) == blob.bytes
    ensures d.name == path && d.container == "" && d.format == format
    ensures d.bytes.Some? <==> |blob.bytes| < BytesSizeThreshold
    ensures d.stream.Some? ==> !d.leaveStreamOpen
  {
    if |blob.bytes| < BytesSizeThreshold then FromBytes(path, "", format, Some(blob.bytes))
    else FromOwnedStream(path, "", format, Some(Open(blob.bytes)))
  }

  /**
   The reader-scoped `TryGetSplitFile`: the first entry (from `k` on) whose
   name equals `name`, read into a byte-backed payload under the reader's
   container. An unnamed entry met before a match raises, as
   `file.Name.Equals` does on a null name. `FindInReaderNone` and
   `FindInReaderFindsFirst` state which entry is found.
   */
  function FindInReader(entries: seq<Entry>, k: nat, container: string, name: string, format: string)
    : (r: Result<Option<SearchData>, Error>)
    requires k <= |entries|
    ensures r.Failure? ==> r.error == NullName
    ensures r.Success? && r.value.Some? ==>
              && r.value.value.name == name && r.value.value.container == container && r.value.value.format == format
              && r.value.value.bytes.Some? && r.value.value.stream.None? && !r.value.value.disposed
    decreases |entries| - k
  {
    if k == |entries| then Success(None)
    else match entries[k].name
      case None => Failure(NullName)
      case Some(n) =>
        if n == name then Success(Some(FromBytes(name, container, format, Some(entries[k].blob.bytes))))
        else FindInReader(entries, k + 1, container, name, format)
  }

  /** Entry `i` has a name, and it is not `name`. */
  predicate NamedOther(entries: seq<Entry>, i: nat, name: string)
    requires i < |entries|
  {
    entries[i].name.Some? && entries[i].name.value != name
  }

  /** Every entry from `k` up to `j` has a name other than `name`. */
  predicate PassedOver(entries: seq<Entry>, k: nat, j: nat, name: string)
    requires k <= j <= |entries|
  {
    forall i :: k <= i < j ==> NamedOther(entries, i, name)
  }

  /** The lookup finds nothing exactly when every entry is named and none has the name. */
  lemma {:induction false} FindInReaderNone(entries: seq<Entry>, k: nat, container: string, name: string, format: string)
    requires k <= |entries|
    ensures FindInReader(entries, k, container, name, format) == Success(None) <==> PassedOver(entries, k, |entries|, name)
    decreases |entries| - k
  {
    if k < |entries| && NamedOther(entries, k, name) {
      FindInReaderNone(entries, k + 1, container, name, format);
      assert PassedOver(entries, k, |entries|, name) <==> PassedOver(entries, k + 1, |entries|, name);
    } else if k < |entries| {
      assert !PassedOver(entries, k, |entries|, name) by {
        assert !NamedOther(entries, k, name);
      }
    }
  }

  /** The lookup raises exactly when an unnamed entry comes before any match. */
  lemma {:induction false} FindInReaderFails(entries: seq<Entry>, k: nat, container: string, name: string, format: string)
    requires k <= |entries|
    ensures FindInReader(entries, k, container, name, format).Failure? <==>
              exists j :: k <= j < |entries| && entries[j].name.None? && PassedOver(entries, k, j, name)
    decreases |entries| - k
  {
    if k < |entries| {
      if entries[k].name.None? {
        assert PassedOver(entries, k, k, name);
      } else if entries[k].name.value == name {
        forall j | k <= j < |entries| && entries[j].name.None?
          ensures !PassedOver(entries, k, j, name)
        {
          assert j != k;
          assert !NamedOther(entries, k, name);
        }
      } else {
        FindInReaderFails(entries, k + 1, container, name, format);
        forall j | k <= j < |entries| && entries[j].name.None?
          ensures PassedOver(entries, k, j, name) <==> PassedOver(entries, k + 1, j, name)
        {
          assert j != k;
        }
      }
    }
  }

  /** A found payload carries the bytes of the first entry with the name. */
  lemma {:induction false} FindInReaderFindsFirst(entries: seq<Entry>, k: nat, container: string, name: string, format: string)
    requires k <= |entries|
    requires FindInReader(entries, k, container, name, format).Success?
    requires FindInReader(entries, k, container, name, format).value.Some?
    ensures exists j :: k <= j < |entries| && entries[j].name == Some(name) && PassedOver(entries, k, j, name) &&
              FindInReader(entries, k, container, name, format).value.value.bytes == Some(entries[j].blob.bytes)
    decreases |entries| - k
  {
    if entries[k].name == Some(name) {
      assert PassedOver(entries, k, k, name);
    } else {
      FindInReaderFindsFirst(entries, k + 1, container, name, format);
      var j :| k + 1 <= j < |entries| && entries[j].name == Some(name) && PassedOver(entries, k + 1, j, name) &&
               FindInReader(entries, k + 1, container, name, format).value.value.bytes == Some(entries[j].blob.bytes);
      assert PassedOver(entries, k, j, name);
    }
  }

  /** `TryGetSplitFile` under either locator. */
  function TryGetSplitFile(fs: FileSystem, loc: Locator, name: string, format: string)
    : (r: Result<Option<SearchData>, Error>)
    ensures r.Success? && r.value.Some? ==>
              Emittable(r.value.value) && r.value.value.name == name && r.value.value.format == format
    ensures loc.OnDisk? ==> r.Success? && (r.value.Some? <==> name in fs)
    ensures loc.OnDisk? && name in fs ==> r.value.value.container == "" && Content(r.value.value) == fs[name].bytes
    ensures loc.InReader? && r.Success? && r.value.Some? ==>
              r.value.value.container == loc.container && r.value.value.bytes.Some?
  {
    match loc
    case OnDisk => if name in fs then Success(Some(Load(name, format, fs[name]))) else Success(None)
    case InReader(container, entries) => FindInReader(entries, 0, container, name, format)
  }

  /** The name a container gives its entry at position `index`. */
  function EntryName(naming: EntryNaming, entry: Entry, index: int): (r: Result<string, Error>)
    ensures r.Failure? <==> naming.ByName? && entry.name.None?
    ensures naming.ByName? && r.Success? ==> r.value == entry.name.value
    ensures naming.ByHeader? ==> r == Success(GetBinderFileName(entry.name, entry.id, index))
    ensures naming.ById? && entry.id >= 0 ==>
              AllDigits(r.value) && DecimalValue(r.value) == entry.id && (|r.value| > 1 ==> r.value[0] != '0')
    ensures naming.ById? && entry.id < 0 ==>
              && |r.value| > 1 && r.value[0] == '-' && AllDigits(r.value[1..]) && DecimalValue(r.value[1..]) == -entry.id
              && (|r.value| > 2 ==> r.value[1] != '0')
    ensures naming.ByIndex? && index >= 0 ==>
              AllDigits(r.value) && DecimalValue(r.value) == index && (|r.value| > 1 ==> r.value[0] != '0')
  {
    match naming
    case ByName => if entry.name.Some? then Success(entry.name.value) else Failure(NullName)
    case ByHeader => Success(GetBinderFileName(entry.name, entry.id, index))
    case ById => Success(IntToString(entry.id))
    case ByIndex => Success(IntToString(index))
  }

  /** The header halves of a split binder. */
  predicate IsHeaderTag(f: string) {
    f == "BHF3" || f == "BHF4"
  }

  /** The tag a split half expects its companion to carry. */
  function CompanionTag(format: string): (r: string)
    requires IsSplitBinderTag(format)
    ensures IsSplitBinderTag(r) && (IsHeaderTag(r) <==> !IsHeaderTag(format))
    ensures r[3] == format[3]
  {
    if format == "BHF3" then "BDF3"
    else if format == "BHF4" then "BDF4"
    else if format == "BDF3" then "BHF3"
    else "BHF4"
  }

  /** A split half's companion is the other half: pairing is an involution. */
  lemma CompanionTagInvolutive(format: string)
    requires IsSplitBinderTag(format)
    ensures CompanionTag(CompanionTag(format)) == format
  {
  }

  /** Where a split half looks for its companion: `bhd` to `bdt` for headers, back for data. */
  function CompanionName(format: string, name: string): (r: string)
    requires IsSplitBinderTag(format)
    ensures |r| == |name|
    ensures IsHeaderTag(format) ==> !Contains(r, "bhd")
    ensures !IsHeaderTag(format) ==> !Contains(r, "bdt")
    ensures IsHeaderTag(format) ==> r == GetBdtName(name)
    ensures !IsHeaderTag(format) ==> r == GetBhdName(name)
  {
    if IsHeaderTag(format) then GetBdtName(name) else GetBhdName(name)
  }

  /**
   A header that names no `bdt` is found again by its data half: the data
   half's companion name leads back to the header.
   */
  lemma CompanionNameRoundTrip(format: string, name: string)
    requires IsHeaderTag(format) && !Contains(name, "bdt")
    ensures CompanionName(CompanionTag(format), CompanionName(format, name)) == name
  {
    BhdNameOfBdtName(name);
  }

  /** Likewise a data half that names no `bhd` is found again by its header. */
  lemma CompanionNameRoundTripData(format: string, name: string)
    requires IsSplitBinderTag(format) && !IsHeaderTag(format) && !Contains(name, "bhd")
    ensures CompanionName(CompanionTag(format), CompanionName(format, name)) == name
  {
    BdtNameOfBhdName(name);
  }

  /** The name under which the content of a DCX container is searched: `.dcx` stripped. */
  function DcxInnerName(name: string): (r: string)
    ensures EndsWith(Lower(name), ".dcx") ==> |r| == |name| - 4 && r + name[|r|..] == name
    ensures !EndsWith(Lower(name), ".dcx") ==> r == name
  {
    if EndsWith(Lower(name), ".dcx") then name[..|name| - 4] else name
  }

  /**
   `SearchFeedbackFormat`: dispatches on the tag. Container tags descend into
   their contents; every other tag leaves the engine untouched. The payload
   always comes back rewound.
   */
  function Feedback(fs: FileSystem, e: Engine, data: SearchData, blob: Blob, loc: Locator): (r: Result<Step, Error>)
    requires Ready(data, blob)
    ensures Settles(e, data, r)
    ensures r.Success? && IsSplitTag(data.format) ==> data.name in r.value.engine.ledger
    ensures !IsContainerTag(data.format) ==> r == Success(Step(e, ResetStream(data)))
    ensures IsBinderTag(data.format) ==> r == BinderArm(fs, e, data, blob)
    ensures data.format == "DCX" ==> r == DcxArm(fs, e, data, blob)
    ensures IsSplitBinderTag(data.format) ==> r == SplitBinderArm(fs, e, data, blob, loc)
    ensures data.format == "BHD5" ==> r == Bhd5Arm(fs, e, data, loc)
    ensures data.format == "LDMU" ==> r == LdmuArm(fs, e, data, blob, loc)
    decreases blob, 4
  {
    var f := data.format;
    if IsBinderTag(f) || f == "DCX" then ReaderFeedback(fs, e, data, blob)
    else if IsSplitTag(f) then SplitFeedback(fs, e, data, blob, loc)
    else Success(Step(e, ResetStream(data)))
  }

  /** The arms that open a reader over the payload itself: the four binders and DCX. */
  function ReaderFeedback(fs: FileSystem, e: Engine, data: SearchData, blob: Blob): (r: Result<Step, Error>)
    requires Ready(data, blob) && (IsBinderTag(data.format) || data.format == "DCX")
    ensures Settles(e, data, r)
    ensures IsBinderTag(data.format) ==> r == BinderArm(fs, e, data, blob)
    ensures data.format == "DCX" ==> r == DcxArm(fs, e, data, blob)
    decreases blob, 3
  {
    if IsBinderTag(data.format) then BinderArm(fs, e, data, blob) else DcxArm(fs, e, data, blob)
  }

  /** The arms of split files, which look for their other half and record their own name. */
  function SplitFeedback(fs: FileSystem, e: Engine, data: SearchData, blob: Blob, loc: Locator): (r: Result<Step, Error>)
    requires Ready(data, blob) && IsSplitTag(data.format)
    ensures Settles(e, data, r)
    ensures r.Success? ==> data.name in r.value.engine.ledger
    ensures IsSplitBinderTag(data.format) ==> r == SplitBinderArm(fs, e, data, blob, loc)
    ensures data.format == "BHD5" ==> r == Bhd5Arm(fs, e, data, loc)
    ensures data.format == "LDMU" ==> r == LdmuArm(fs, e, data, blob, loc)
    decreases blob, 3
  {
    if IsSplitBinderTag(data.format) then SplitBinderArm(fs, e, data, blob, loc)
    else if data.format == "BHD5" then Bhd5Arm(fs, e, data, loc)
    else LdmuArm(fs, e, data, blob, loc)
  }

  /**
   The BND2, BND3, BND4 and MGF arms: open the reader, then search its
   entries. Binders resolve companions among their own files; MGF on disk.
   */
  function BinderArm(fs: FileSystem, e: Engine, data: SearchData, blob: Blob): (r: Result<Step, Error>)
    requires Ready(data, blob) && IsBinderTag(data.format)
    ensures Settles(e, data, r)
    ensures blob.files.Unreadable? ==> r == Failure(ReaderFailed(data.format))
    ensures r.Success? ==> blob.files.Files? && r.value.data == ResetStream(Consume(data))
    ensures blob.files.Files? ==>
              var s := Search(fs, e, data.name, data.container, BinderNaming(data.format), blob.files.entries, 0,
                              BinderLocator(data.format, blob.files.entries, data.container));
              (r.Success? <==> s.Success?) && (r.Success? ==> r.value.engine == s.value)
    decreases blob, 2
  {
    match blob.files
    case Unreadable => Failure(ReaderFailed(data.format))
    case Files(entries) =>
      var e1 :- Search(fs, e, data.name, data.container, BinderNaming(data.format), entries, 0,
                       BinderLocator(data.format, entries, data.container));
      Success(Step(e1, ResetStream(Consume(data))))
  }

  /** How each binder names its entries: BND2 by name, MGF by index, the others by header. */
  function BinderNaming(format: string): (r: EntryNaming)
    requires IsBinderTag(format)
    ensures r.ByName? <==> format == "BND2"
    ensures r.ByIndex? <==> format == "MGF"
    ensures r.ByHeader? <==> format == "BND3" || format == "BND4"
  {
    if format == "BND2" then ByName else if format == "MGF" then ByIndex else ByHeader
  }

  /** Where each binder's entries find companions: MGF on disk, the others among the binder's files. */
  function BinderLocator(format: string, entries: seq<Entry>, container: string): (r: Locator)
    requires IsBinderTag(format)
    ensures r.OnDisk? <==> format == "MGF"
    ensures r.InReader? ==> r == InReader(container, entries)
  {
    if format == "MGF" then OnDisk else InReader(container, entries)
  }

  /**
   The DCX arm: only a payload whose bytes really begin with a DCX magic is
   decompressed; its content is then searched with on-disk companions.
   */
  function DcxArm(fs: FileSystem, e: Engine, data: SearchData, blob: Blob): (r: Result<Step, Error>)
    requires Ready(data, blob) && data.format == "DCX"
    ensures Settles(e, data, r)
    ensures !IsDCX(data) ==> r == Success(Step(e, ResetStream(data)))
    ensures IsDCX(data) && blob.inflated.Undecompressible? ==> r == Failure(ReaderFailed("DCX"))
    ensures IsDCX(data) && blob.inflated.Inflated? ==>
              && (r.Success? <==> SearchDCX(fs, e, data.name, data.container, blob.inflated.inner).Success?)
              && (r.Success? ==> r.value.engine == SearchDCX(fs, e, data.name, data.container, blob.inflated.inner).value)
    decreases blob, 2
  {
    if !IsDCX(data) then Success(Step(e, ResetStream(data)))
    else match blob.inflated
      case Undecompressible => Failure(ReaderFailed("DCX"))
      case Inflated(inner) =>
        var e1 :- SearchDCX(fs, e, data.name, data.container, inner);
        Success(Step(e1, ResetStream(Consume(data))))
  }

  /**
   The BHF3, BHF4, BDF3 and BDF4 arms: find the other half; if found, search
   the merged view, emit the companion and record it; record the payload's
   own name whether or not the companion was found.
   */
  function SplitBinderArm(fs: FileSystem, e: Engine, data: SearchData, blob: Blob, loc: Locator): (r: Result<Step, Error>)
    requires Ready(data, blob) && IsSplitBinderTag(data.format)
    ensures Settles(e, data, r)
    ensures r.Success? ==> data.name in r.value.engine.ledger
    ensures TryGetSplitFile(fs, loc, CompanionName(data.format, data.name), CompanionTag(data.format)).Failure? ==> r.Failure?
    ensures TryGetSplitFile(fs, loc, CompanionName(data.format, data.name), CompanionTag(data.format)) == Success(None) ==>
              r == Success(Step(Record(e, data.name), ResetStream(data)))
    ensures r.Success? && TryGetSplitFile(fs, loc, CompanionName(data.format, data.name), CompanionTag(data.format)).value.Some? ==>
              && CompanionName(data.format, data.name) in r.value.engine.ledger
              && |r.value.engine.emitted| > |e.emitted|
              && Last(r.value.engine.emitted).name == CompanionName(data.format, data.name)
              && Last(r.value.engine.emitted).format == CompanionTag(data.format)
    ensures
      var found := TryGetSplitFile(fs, loc, CompanionName(data.format, data.name), CompanionTag(data.format));
      && (found.Success? && found.value.Some? && blob.paired.Unreadable? ==> r == Failure(ReaderFailed(data.format)))
      && (found.Success? && found.value.Some? && blob.paired.Files? ==>
            var s := Search(fs, e, data.name, data.container, ByHeader, blob.paired.entries, 0,
                            InReader(data.container, blob.paired.entries));
            && (r.Success? <==> s.Success?)
            && (r.Success? ==>
                  && r.value.engine.ledger == s.value.ledger + {CompanionName(data.format, data.name), data.name}
                  && r.value.engine.emitted == s.value.emitted + [Last(r.value.engine.emitted)]))
    decreases blob, 2
  {
    var companionName := CompanionName(data.format, data.name);
    var found :- TryGetSplitFile(fs, loc, companionName, CompanionTag(data.format));
    match found
    case None => Success(Step(Record(e, data.name), ResetStream(data)))
    case Some(companion) => SplitBinderMerge(fs, e, data, blob, companion)
  }

  /**
   The split-binder arm once the other half is found: the merged view's
   entries are searched, then the companion is emitted and both names are
   recorded.
   */
  function SplitBinderMerge(fs: FileSystem, e: Engine, data: SearchData, blob: Blob, companion: SearchData)
    : (r: Result<Step, Error>)
    requires Ready(data, blob) && IsSplitBinderTag(data.format) && Emittable(companion)
    ensures Settles(e, data, r)
    ensures r.Success? ==>
              && data.name in r.value.engine.ledger && companion.name in r.value.engine.ledger
              && |r.value.engine.emitted| > |e.emitted|
              && Last(r.value.engine.emitted).name == companion.name
              && Last(r.value.engine.emitted).format == companion.format
    ensures blob.paired.Unreadable? ==> r == Failure(ReaderFailed(data.format))
    ensures blob.paired.Files? ==>
              var s := Search(fs, e, data.name, data.container, ByHeader, blob.paired.entries, 0,
                              InReader(data.container, blob.paired.entries));
              && (r.Success? <==> s.Success?)
              && (r.Success? ==>
                    && r.value.engine.ledger == s.value.ledger + {companion.name, data.name}
                    && r.value.engine.emitted == s.value.emitted + [ResetStream(Consume(companion))])
    decreases blob, 1
  {
    match blob.paired
    case Unreadable => Failure(ReaderFailed(data.format))
    case Files(entries) =>
      var e1 :- Search(fs, e, data.name, data.container, ByHeader, entries, 0, InReader(data.container, entries));
      var shown := ResetStream(Consume(companion));
      var e2 := Record(Emit(e1, shown), companion.name);
      ExtendsTransitive(e, e1, e2);
      Success(Step(Record(e2, data.name), ResetStream(Consume(data))))
  }

  /**
   The BHD5 arm: the data file is looked for under its `bdt` name, then under
   the `bdt` name of the `dvdbnd5` to `dvdbnd` rename. A found data file is
   emitted and recorded; the archive itself is not searched.
   */
  function Bhd5Arm(fs: FileSystem, e: Engine, data: SearchData, loc: Locator): (r: Result<Step, Error>)
    requires StreamLive(data) && data.format == "BHD5"
    ensures r.Success? ==> Extends(e, r.value.engine) && r.value.data == ResetStream(data)
    ensures r.Success? ==> data.name in r.value.engine.ledger
    ensures r.Success? ==> |r.value.engine.emitted| <= |e.emitted| + 1
    ensures r.Success? && |r.value.engine.emitted| == |e.emitted| + 1 ==>
              Last(r.value.engine.emitted).name in r.value.engine.ledger
    ensures loc.OnDisk? ==> r.Success?
    ensures loc.OnDisk? && GetBdtName(data.name) in fs ==>
              |r.value.engine.emitted| == |e.emitted| + 1 && Last(r.value.engine.emitted).name == GetBdtName(data.name)
    ensures loc.OnDisk? && GetBdtName(data.name) !in fs ==>
              (|r.value.engine.emitted| == |e.emitted| + 1 <==> GetBdtName(GetBhd5DataName(data.name)) in fs)
    ensures
      var found := Bhd5Lookup(fs, loc, data.name);
      && (r.Success? <==> found.Success?)
      && (found == Success(None) ==> r.value.engine.emitted == e.emitted && r.value.engine.ledger == e.ledger + {data.name})
      && (found.Success? && found.value.Some? ==>
            && r.value.engine.emitted == e.emitted + [found.value.value]
            && r.value.engine.ledger == e.ledger + {found.value.value.name, data.name})
  {
    var found :- Bhd5Lookup(fs, loc, data.name);
    match found
    case None => Success(Step(Record(e, data.name), ResetStream(data)))
    case Some(c) => Success(Step(Record(Record(Emit(e, c), c.name), data.name), ResetStream(data)))
  }

  /**
   The two lookups of the BHD5 arm: the `bdt` name, and only when nothing is
   found there, the `bdt` name of the `dvdbnd5` to `dvdbnd` rename.
   */
  function Bhd5Lookup(fs: FileSystem, loc: Locator, name: string): (r: Result<Option<SearchData>, Error>)
    ensures r.Success? && r.value.Some? ==> Emittable(r.value.value)
    ensures TryGetSplitFile(fs, loc, GetBdtName(name), "BHD5").Failure? ==> r.Failure?
    ensures loc.OnDisk? ==> r.Success?
    ensures loc.OnDisk? && GetBdtName(name) in fs ==> r.value.Some? && r.value.value.name == GetBdtName(name)
    ensures loc.OnDisk? && GetBdtName(name) !in fs ==>
              (r.value.Some? <==> GetBdtName(GetBhd5DataName(name)) in fs)
    ensures
      var first := TryGetSplitFile(fs, loc, GetBdtName(name), "BHD5");
      && (first.Success? && first.value.Some? ==> r == first)
      && (first == Success(None) ==> r == TryGetSplitFile(fs, loc, GetBdtName(GetBhd5DataName(name)), "BHD5"))
  {
    match TryGetSplitFile(fs, loc, GetBdtName(name), "BHD5")
    case Success(None) => TryGetSplitFile(fs, loc, GetBdtName(GetBhd5DataName(name)), "BHD5")
    case other => other
  }

  /**
   The LDMU arm: find the `bnd` data file; if found, search the archive's
   entries (named by ID, companions on disk) and emit the data file. The data
   file's name is not recorded; the header's name is.
   */
  function LdmuArm(fs: FileSystem, e: Engine, data: SearchData, blob: Blob, loc: Locator): (r: Result<Step, Error>)
    requires Ready(data, blob) && data.format == "LDMU"
    ensures Settles(e, data, r)
    ensures r.Success? ==> data.name in r.value.engine.ledger
    ensures
      var found := TryGetSplitFile(fs, loc, GetLdmuDataName(data.name), "LDMU");
      && (found.Failure? ==> r.Failure?)
      && (found == Success(None) ==> r == Success(Step(Record(e, data.name), ResetStream(data))))
      && (r.Success? && found.value.Some? ==>
            && |r.value.engine.emitted| > |e.emitted|
            && Last(r.value.engine.emitted).name == GetLdmuDataName(data.name))
      && (found.Success? && found.value.Some? && blob.paired.Unreadable? ==> r == Failure(ReaderFailed("LDMU")))
      && (found.Success? && found.value.Some? && blob.paired.Files? ==>
            var s := Search(fs, e, data.name, data.container, ById, blob.paired.entries, 0, OnDisk);
            && (r.Success? <==> s.Success?)
            && (r.Success? ==>
                  && r.value.engine.ledger == s.value.ledger + {data.name}
                  && r.value.engine.emitted == s.value.emitted + [Last(r.value.engine.emitted)]))
    decreases blob, 2
  {
    var found :- TryGetSplitFile(fs, loc, GetLdmuDataName(data.name), "LDMU");
    match found
    case None => Success(Step(Record(e, data.name), ResetStream(data)))
    case Some(companion) =>
      match blob.paired
      case Unreadable => Failure(ReaderFailed("LDMU"))
      case Files(entries) =>
        var shown := ResetStream(Consume(companion));
        var e1 :- Search(fs, e, data.name, data.container, ById, entries, 0, OnDisk);
        ExtendsTransitive(e, e1, Emit(e1, shown));
        Success(Step(Record(Emit(e1, shown), data.name), ResetStream(Consume(data))))
  }

  /**
   `SearchDCX`: the decompressed content is searched under the name with
   `.dcx` stripped, keyed by the container key of the unstripped name.
   */
  function SearchDCX(fs: FileSystem, e: Engine, name: string, container: string, inner: Blob): (r: Result<Engine, Error>)
    ensures r.Success? ==> Extends(e, r.value)
    ensures CombineContainer(container, name) in e.ledger ==> r == Success(e)
    ensures r.Success? && CombineContainer(container, name) !in e.ledger ==>
              |r.value.emitted| > |e.emitted| &&
              var d := r.value.emitted[|r.value.emitted| - 1];
              d.name == DcxInnerName(name) && d.container == CombineContainer(container, name) &&
              d.format == ClassifyBytes(DcxInnerName(name), inner.bytes) && d.bytes == Some(inner.bytes)
    ensures CombineContainer(container, name) !in e.ledger ==>
              var step := Feedback(fs, e, SearchBytesInternal(DcxInnerName(name), CombineContainer(container, name), inner.bytes),
                                   inner, OnDisk);
              && (r.Success? <==> step.Success?)
              && (r.Success? ==> r.value == Emit(step.value.engine, step.value.data))
    decreases inner, 5
  {
    var key := CombineContainer(container, name);
    if key in e.ledger then Success(e)
    else
      var data := SearchBytesInternal(DcxInnerName(name), key, inner.bytes);
      var step :- Feedback(fs, e, data, inner, OnDisk);
      Success(Emit(step.engine, step.data))
  }

  /**
   The entry loop every container search shares. The container key does not
   depend on the entry, so once it is in the ledger every remaining entry is
   skipped; otherwise each entry is classified, fed back, then emitted.
   */
  function Search(fs: FileSystem, e: Engine, name: string, container: string, naming: EntryNaming,
                  entries: seq<Entry>, index: int, loc: Locator): (r: Result<Engine, Error>)
    ensures r.Success? ==> Extends(e, r.value)
    ensures CombineContainer(container, name) in e.ledger ==> r == Success(e)
    ensures |entries| > 0 && CombineContainer(container, name) !in e.ledger && r.Success? ==>
              |r.value.emitted| > |e.emitted|
    decreases entries, 0
  {
    if |entries| == 0 then Success(e)
    else
      var key := CombineContainer(container, name);
      if key in e.ledger then Search(fs, e, name, container, naming, entries[1..], index + 1, loc)
      else
        assert entries[0].blob < entries[0];
        var entryName :- EntryName(naming, entries[0], index);
        var step :- Feedback(fs, e, SearchBytesInternal(entryName, key, entries[0].blob.bytes), entries[0].blob, loc);
        var e1 := Emit(step.engine, step.data);
        ExtendsTransitive(e, step.engine, e1);
        var r := Search(fs, e1, name, container, naming, entries[1..], index + 1, loc);
        if r.Success? then ExtendsTransitive(e, e1, r.value); r else r
  }

  /**
   The payload a container emits for `entry`, its entry at position `index`:
   named as the container names it, keyed by the container key, classified
   under that name, and carrying the entry's bytes.
   */
  ghost predicate EntryEmitted(d: SearchData, naming: EntryNaming, entry: Entry, index: int, key: string) {
    && EntryName(naming, entry, index).Success?
    && d.name == EntryName(naming, entry, index).value
    && d.container == key
    && d.format == ClassifyBytes(d.name, entry.blob.bytes)
    && d.bytes == Some(entry.blob.bytes)
  }

  /**
   Positions `pos` of `r.emitted`, from `from` on and strictly increasing,
   hold the payloads of the leading entries in entry order: `pos[0]` that of
   `entries[0]`, `pos[1]` that of `entries[1]`, and so on.
   */
  ghost predicate EntriesEmitted(r: Engine, from: nat, pos: seq<nat>, naming: EntryNaming, entries: seq<Entry>,
                                 index: int, key: string) {
    && |pos| <= |entries|
    && (forall i :: 0 <= i < |pos| ==>
          from <= pos[i] < |r.emitted| && EntryEmitted(r.emitted[pos[i]], naming, entries[i], index + i, key))
    && (forall i, j :: 0 <= i < j < |pos| ==> pos[i] < pos[j])
  }

  /**
   The entry loop took `e` to `r` by emitting the payloads of the leading
   entries in order; it got through all of them unless the container key
   ended up in the ledger, it always got through the first one, and after all
   of a non-empty container the last entry is emitted last.
   */
  ghost predicate LoopEmitted(r: Engine, from: nat, naming: EntryNaming, entries: seq<Entry>, index: int, key: string) {
    exists pos: seq<nat> ::
      && EntriesEmitted(r, from, pos, naming, entries, index, key)
      && (|pos| == |entries| || key in r.ledger)
      && (0 < |entries| ==> 0 < |pos|)
      && (0 < |pos| == |entries| ==> pos[|pos| - 1] == |r.emitted| - 1)
  }

  /**
   The entry loop under a fresh container key emits the entries in order, each
   after the payloads its own feedback pass emitted. It gets through every
   entry unless a feedback pass recorded the container key itself.
   */
  lemma SearchEmitsEntriesInOrder(fs: FileSystem, e: Engine, name: string, container: string,
                                  naming: EntryNaming, entries: seq<Entry>, index: int, loc: Locator, r: Engine)
    requires Search(fs, e, name, container, naming, entries, index, loc) == Success(r)
    requires CombineContainer(container, name) !in e.ledger
    ensures LoopEmitted(r, |e.emitted|, naming, entries, index, CombineContainer(container, name))
  {
    var pos := SearchEmitsAt(fs, e, name, container, naming, entries, index, loc, r);
    LoopEmittedIntro(r, |e.emitted|, pos, naming, entries, index, CombineContainer(container, name));
  }

  /** `SearchEmitsEntriesInOrder` with the positions of the emitted entries as a witness. */
  lemma {:induction false} SearchEmitsAt(fs: FileSystem, e: Engine, name: string, container: string,
                                         naming: EntryNaming, entries: seq<Entry>, index: int, loc: Locator,
                                         r: Engine) returns (pos: seq<nat>)
    requires Search(fs, e, name, container, naming, entries, index, loc) == Success(r)
    requires CombineContainer(container, name) !in e.ledger
    ensures EntriesEmitted(r, |e.emitted|, pos, naming, entries, index, CombineContainer(container, name))
    ensures |pos| == |entries| || CombineContainer(container, name) in r.ledger
    ensures 0 < |entries| ==> 0 < |pos|
    ensures 0 < |pos| == |entries| ==> pos[|pos| - 1] == |r.emitted| - 1
    decreases |entries|
  {
    // The steps below only chain the helper lemmas' contracts; unfolding
    // `Search` and the classification under it here only slows the proof.
    hide *;
    var key := CombineContainer(container, name);
    if |entries| == 0 {
      pos := [];
      EntriesEmittedNil(r, |e.emitted|, naming, entries, index, key);
    } else {
      var e1 := SearchFirstEntry(fs, e, name, container, naming, entries, index, loc, r);
      var p0 := |e1.emitted| - 1;
      if key in e1.ledger {
        EntriesEmittedOne(r, |e.emitted|, p0, naming, entries, index, key);
        pos := [p0];
      } else {
        var rest := SearchEmitsAt(fs, e1, name, container, naming, entries[1..], index + 1, loc, r);
        pos := EntriesEmittedCons(r, |e.emitted|, p0, rest, naming, entries, index, key);
      }
    }
  }

  lemma LoopEmittedIntro(r: Engine, from: nat, pos: seq<nat>, naming: EntryNaming, entries: seq<Entry>,
                         index: int, key: string)
    requires EntriesEmitted(r, from, pos, naming, entries, index, key)
    requires |pos| == |entries| || key in r.ledger
    requires 0 < |entries| ==> 0 < |pos|
    requires 0 < |pos| == |entries| ==> pos[|pos| - 1] == |r.emitted| - 1
    ensures LoopEmitted(r, from, naming, entries, index, key)
  {
  }

  /** No entry emitted yet. */
  lemma EntriesEmittedNil(r: Engine, from: nat, naming: EntryNaming, entries: seq<Entry>, index: int, key: string)
    ensures EntriesEmitted(r, from, [], naming, entries, index, key)
  {
  }

  /** A single entry emitted at `p0`. */
  lemma EntriesEmittedOne(r: Engine, from: nat, p0: nat, naming: EntryNaming, entries: seq<Entry>, index: int, key: string)
    requires |entries| > 0 && from <= p0 < |r.emitted|
    requires EntryEmitted(r.emitted[p0], naming, entries[0], index, key)
    ensures EntriesEmitted(r, from, [p0], naming, entries, index, key)
  {
    hide EntryEmitted;
    assert [p0][0] == p0;
  }

  /** An entry emitted at `p0`, in front of the entries after it. */
  lemma EntriesEmittedCons(r: Engine, from: nat, p0: nat, rest: seq<nat>, naming: EntryNaming, entries: seq<Entry>,
                           index: int, key: string) returns (pos: seq<nat>)
    requires |entries| > 0 && from <= p0 < |r.emitted|
    requires EntryEmitted(r.emitted[p0], naming, entries[0], index, key)
    requires EntriesEmitted(r, p0 + 1, rest, naming, entries[1..], index + 1, key)
    ensures pos == [p0] + rest
    ensures EntriesEmitted(r, from, pos, naming, entries, index, key)
    ensures |pos| == |rest| + 1 && (0 < |rest| ==> pos[|pos| - 1] == rest[|rest| - 1])
  {
    // Only the positions move here; what each payload is stays as stated.
    hide EntryEmitted;
    pos := [p0] + rest;
    forall i | 0 <= i < |pos|
      ensures from <= pos[i] < |r.emitted| && EntryEmitted(r.emitted[pos[i]], naming, entries[i], index + i, key)
    {
      if 0 < i {
        assert pos[i] == rest[i - 1] && entries[i] == entries[1..][i - 1];
      }
    }
    forall i, j | 0 <= i < j < |pos|
      ensures pos[i] < pos[j]
    {
      assert pos[j] == rest[j - 1];
      if 0 < i {
        assert pos[i] == rest[i - 1];
      }
    }
  }

  /**
   The first turn of the entry loop under a fresh key: the first entry's
   feedback pass and emission take the engine to `e1`, from which the loop
   carries on with the remaining entries.
   */
  lemma SearchFirstEntry(fs: FileSystem, e: Engine, name: string, container: string, naming: EntryNaming,
                         entries: seq<Entry>, index: int, loc: Locator, r: Engine) returns (e1: Engine)
    requires |entries| > 0 && CombineContainer(container, name) !in e.ledger
    requires Search(fs, e, name, container, naming, entries, index, loc) == Success(r)
    ensures Extends(e, e1) && |e.emitted| < |e1.emitted| && e1.emitted <= r.emitted
    ensures EntryEmitted(r.emitted[|e1.emitted| - 1], naming, entries[0], index, CombineContainer(container, name))
    ensures Search(fs, e1, name, container, naming, entries[1..], index + 1, loc) == Success(r)
    ensures CombineContainer(container, name) in e1.ledger ==> CombineContainer(container, name) in r.ledger
    ensures |entries| == 1 ==> r == e1
    ensures EntryName(naming, entries[0], index).Success?
    ensures
      var step := Feedback(fs, e, SearchBytesInternal(EntryName(naming, entries[0], index).value,
                                                      CombineContainer(container, name), entries[0].blob.bytes),
                           entries[0].blob, loc);
      step.Success? && e1 == Emit(step.value.engine, step.value.data)
  {
    var key := CombineContainer(container, name);
    var entryName := EntryName(naming, entries[0], index);
    assert entryName.Success?;
    var data := SearchBytesInternal(entryName.value, key, entries[0].blob.bytes);
    var step := Feedback(fs, e, data, entries[0].blob, loc);
    assert step.Success?;
    e1 := Emit(step.value.engine, step.value.data);
    ExtendsTransitive(e, step.value.engine, e1);
    assert r.emitted[|e1.emitted| - 1] == Last(e1.emitted);
  }

  /** The path of Zero3 part `index`: the part number in three or more digits after `base`. */
  function PartName(base: string, index: nat): string {
    base + D3(index)
  }

  /** A part path is `base` followed by the part number it was built from. */
  lemma PartNameNumber(base: string, index: nat)
    ensures IsPartOf(base, PartName(base, index)) && PartNumber(base, PartName(base, index)) == index
  {
    assert PartName(base, index)[..|base|] == base;
    assert PartName(base, index)[|base|..] == D3(index);
  }

  /** `name` is `base` followed by a part number. */
  ghost predicate IsPartOf(base: string, name: string) {
    |base| <= |name| && name[..|base|] == base && AllDigits(name[|base|..])
  }

  /** The part number of a part path. */
  ghost function PartNumber(base: string, name: string): nat
    requires IsPartOf(base, name)
  {
    DecimalValue(name[|base|..])
  }

  /** Distinct part numbers give distinct paths, so `n` present parts are `n` distinct keys. */
  lemma {:induction false} PartNamesCount(base: string, n: nat)
    ensures |set j | 1 <= j <= n :: PartName(base, j)| == n
  {
    if n > 0 {
      var before := set j | 1 <= j <= n - 1 :: PartName(base, j);
      var after := set j | 1 <= j <= n :: PartName(base, j);
      assert after == before + {PartName(base, n)};
      assert PartName(base, n) !in before by {
        forall j | 1 <= j <= n - 1
          ensures PartName(base, j) != PartName(base, n)
        {
          PartNameNumber(base, j);
          PartNameNumber(base, n);
        }
      }
      PartNamesCount(base, n - 1);
    }
  }

  lemma {:induction false} SubsetCardinality<T>(a: set<T>, b: set<T>)
    requires a <= b
    ensures |a| <= |b|
    decreases |b|
  {
    if a != {} {
      var x :| x in a;
      SubsetCardinality(a - {x}, b - {x});
    }
  }

  /** A file system holds at most as many consecutive parts as it has files. */
  lemma PartsBound(fs: FileSystem, base: string, n: nat)
    requires forall j :: 1 <= j <= n ==> PartName(base, j) in fs
    ensures n <= |fs.Keys|
  {
    var parts := set j | 1 <= j <= n :: PartName(base, j);
    PartNamesCount(base, n);
    SubsetCardinality(parts, fs.Keys);
  }

  /** The first missing part at or after `index`. */
  function Zero3Stop(fs: FileSystem, base: string, index: nat): (r: nat)
    requires index >= 1 && forall j :: 1 <= j < index ==> PartName(base, j) in fs
    ensures r >= index && PartName(base, r) !in fs
    ensures forall j :: index <= j < r ==> PartName(base, j) in fs
    decreases |fs.Keys| + 1 - index
  {
    if PartName(base, index) !in fs then index
    else
      PartsBound(fs, base, index);
      Zero3Stop(fs, base, index + 1)
  }

  /** A fresh part is recorded and emitted, loaded from the file system under its own path. */
  function TakePart(fs: FileSystem, e: Engine, p: string): (r: Engine)
    requires p in fs
    ensures Extends(e, r) && p in r.ledger
    ensures r.ledger == e.ledger + {p} && r.emitted == e.emitted + [Load(p, "Zero3", fs[p])]
  {
    Emit(Record(e, p), Load(p, "Zero3", fs[p]))
  }

  /**
   The part loop of `SearchZero3`: parts `.001`, `.002`, ... are visited until
   the first missing one; each part is recorded, and emitted only if the
   ledger did not have it yet.
   */
  function Zero3Parts(fs: FileSystem, e: Engine, base: string, index: nat): (r: Engine)
    requires index >= 1 && forall j :: 1 <= j < index ==> PartName(base, j) in fs
    ensures Extends(e, r)
    ensures forall j :: index <= j < Zero3Stop(fs, base, index) ==> PartName(base, j) in r.ledger
    decreases |fs.Keys| + 1 - index
  {
    var p := PartName(base, index);
    if p !in fs then e
    else
      PartsBound(fs, base, index);
      var e1 := if p in e.ledger then e else TakePart(fs, e, p);
      var r := Zero3Parts(fs, e1, base, index + 1);
      assert Zero3Stop(fs, base, index) == Zero3Stop(fs, base, index + 1);
      ExtendsTransitive(e, e1, r);
      r
  }

  /** What `Zero3Parts` emits: fresh parts only, each once, in increasing part order. */
  ghost predicate PartsEmitted(fs: FileSystem, e: Engine, r: Engine, base: string, index: nat, stop: nat) {
    && (forall k :: |e.emitted| <= k < |r.emitted| ==>
          && r.emitted[k].format == "Zero3" && r.emitted[k].container == ""
          && r.emitted[k].name !in e.ledger && r.emitted[k].name in fs
          && IsPartOf(base, r.emitted[k].name)
          && index <= PartNumber(base, r.emitted[k].name) < stop)
    && (forall k1, k2 :: |e.emitted| <= k1 < k2 < |r.emitted| ==>
          IsPartOf(base, r.emitted[k1].name) && IsPartOf(base, r.emitted[k2].name) &&
          PartNumber(base, r.emitted[k1].name) < PartNumber(base, r.emitted[k2].name))
  }

  /** One part emitted in front of a run of later parts keeps the run fresh and ordered. */
  lemma PartsEmittedStep(fs: FileSystem, e: Engine, e1: Engine, r: Engine, base: string, index: nat, stop: nat)
    requires |e1.emitted| == |e.emitted| + 1 && e1.emitted[..|e.emitted|] == e.emitted
    requires e.ledger <= e1.ledger && e1.emitted <= r.emitted
    requires index < stop
    requires
      var d := e1.emitted[|e.emitted|];
      && d.format == "Zero3" && d.container == "" && d.name !in e.ledger && d.name in fs
      && IsPartOf(base, d.name) && PartNumber(base, d.name) == index
    requires PartsEmitted(fs, e1, r, base, index + 1, stop)
    ensures PartsEmitted(fs, e, r, base, index, stop)
  {
    var k0 := |e.emitted|;
    assert r.emitted[k0] == e1.emitted[k0];
  }

  lemma {:induction false} Zero3PartsEmitsFreshParts(fs: FileSystem, e: Engine, base: string, index: nat)
    requires index >= 1 && forall j :: 1 <= j < index ==> PartName(base, j) in fs
    ensures PartsEmitted(fs, e, Zero3Parts(fs, e, base, index), base, index, Zero3Stop(fs, base, index))
    decreases |fs.Keys| + 1 - index, 1
  {
    var p := PartName(base, index);
    if p in fs {
      PartsBound(fs, base, index);
      if p in e.ledger {
        PartsEmittedKnownStep(fs, e, base, index);
      } else {
        PartsEmittedFreshStep(fs, e, base, index);
      }
    }
  }

  /** A part already in the ledger is skipped: the run after it is the run from it. */
  lemma {:induction false} PartsEmittedKnownStep(fs: FileSystem, e: Engine, base: string, index: nat)
    requires index >= 1 && forall j :: 1 <= j <= index ==> PartName(base, j) in fs
    requires PartName(base, index) in e.ledger
    ensures PartsEmitted(fs, e, Zero3Parts(fs, e, base, index), base, index, Zero3Stop(fs, base, index))
    decreases |fs.Keys| + 1 - index, 0
  {
    PartsBound(fs, base, index);
    Zero3PartsEmitsFreshParts(fs, e, base, index + 1);
    assert Zero3Parts(fs, e, base, index) == Zero3Parts(fs, e, base, index + 1);
    assert Zero3Stop(fs, base, index) == Zero3Stop(fs, base, index + 1);
  }

  /** A fresh part is emitted first, in front of the run after it. */
  lemma {:induction false} PartsEmittedFreshStep(fs: FileSystem, e: Engine, base: string, index: nat)
    requires index >= 1 && forall j :: 1 <= j <= index ==> PartName(base, j) in fs
    requires PartName(base, index) !in e.ledger
    ensures PartsEmitted(fs, e, Zero3Parts(fs, e, base, index), base, index, Zero3Stop(fs, base, index))
    decreases |fs.Keys| + 1 - index, 0
  {
    PartsBound(fs, base, index);
    var e1 := TakePart(fs, e, PartName(base, index));
    Zero3PartsEmitsFreshParts(fs, e1, base, index + 1);
    var r := Zero3Parts(fs, e1, base, index + 1);
    assert r == Zero3Parts(fs, e, base, index);
    var stop := Zero3Stop(fs, base, index + 1);
    assert stop == Zero3Stop(fs, base, index);
    PartNameNumber(base, index);
    PartsEmittedStep(fs, e, e1, r, base, index, stop);
  }

  /**
   Every part of the run that the ledger did not hold yet is emitted, loaded
   from the file system under its own path.
   */
  ghost predicate PartsCovered(fs: FileSystem, e: Engine, r: Engine, base: string, index: nat, stop: nat) {
    forall j :: index <= j < stop && PartName(base, j) in fs && PartName(base, j) !in e.ledger ==>
      exists k :: |e.emitted| <= k < |r.emitted| && r.emitted[k] == Load(PartName(base, j), "Zero3", fs[PartName(base, j)])
  }

  lemma {:induction false} Zero3PartsEmitsEveryFreshPart(fs: FileSystem, e: Engine, base: string, index: nat)
    requires index >= 1 && forall j :: 1 <= j < index ==> PartName(base, j) in fs
    ensures PartsCovered(fs, e, Zero3Parts(fs, e, base, index), base, index, Zero3Stop(fs, base, index))
    decreases |fs.Keys| + 1 - index, 1
  {
    var p := PartName(base, index);
    if p in fs {
      PartsBound(fs, base, index);
      if p in e.ledger {
        PartsCoveredKnownStep(fs, e, base, index);
      } else {
        PartsCoveredFreshStep(fs, e, base, index);
      }
    }
  }

  lemma {:induction false} PartsCoveredKnownStep(fs: FileSystem, e: Engine, base: string, index: nat)
    requires index >= 1 && forall j :: 1 <= j <= index ==> PartName(base, j) in fs
    requires PartName(base, index) in e.ledger
    ensures PartsCovered(fs, e, Zero3Parts(fs, e, base, index), base, index, Zero3Stop(fs, base, index))
    decreases |fs.Keys| + 1 - index, 0
  {
    PartsBound(fs, base, index);
    Zero3PartsEmitsEveryFreshPart(fs, e, base, index + 1);
    var r := Zero3Parts(fs, e, base, index + 1);
    assert r == Zero3Parts(fs, e, base, index);
    var stop := Zero3Stop(fs, base, index + 1);
    assert stop == Zero3Stop(fs, base, index);
    PartsCoveredSkip(fs, e, r, base, index, stop);
  }

  /** A part the ledger already held needs no emission. */
  lemma PartsCoveredSkip(fs: FileSystem, e: Engine, r: Engine, base: string, index: nat, stop: nat)
    requires PartName(base, index) in e.ledger
    requires PartsCovered(fs, e, r, base, index + 1, stop)
    ensures PartsCovered(fs, e, r, base, index, stop)
  {
  }

  lemma {:induction false} PartsCoveredFreshStep(fs: FileSystem, e: Engine, base: string, index: nat)
    requires index >= 1 && forall j :: 1 <= j <= index ==> PartName(base, j) in fs
    requires PartName(base, index) !in e.ledger
    ensures PartsCovered(fs, e, Zero3Parts(fs, e, base, index), base, index, Zero3Stop(fs, base, index))
    decreases |fs.Keys| + 1 - index, 0
  {
    PartsBound(fs, base, index);
    var e1 := TakePart(fs, e, PartName(base, index));
    Zero3PartsEmitsEveryFreshPart(fs, e1, base, index + 1);
    var r := Zero3Parts(fs, e1, base, index + 1);
    assert r == Zero3Parts(fs, e, base, index);
    var stop := Zero3Stop(fs, base, index + 1);
    assert stop == Zero3Stop(fs, base, index);
    PartsCoveredCons(fs, e, e1, r, base, index, stop);
  }

  /** The fresh part at `index` is covered by its own emission, the later ones by the run after it. */
  lemma PartsCoveredCons(fs: FileSystem, e: Engine, e1: Engine, r: Engine, base: string, index: nat, stop: nat)
    requires PartName(base, index) in fs
    requires e1 == TakePart(fs, e, PartName(base, index)) && e1.emitted <= r.emitted
    requires PartsCovered(fs, e1, r, base, index + 1, stop)
    ensures PartsCovered(fs, e, r, base, index, stop)
  {
    forall j | index <= j < stop && PartName(base, j) in fs && PartName(base, j) !in e.ledger
      ensures exists k :: |e.emitted| <= k < |r.emitted| && r.emitted[k] == Load(PartName(base, j), "Zero3", fs[PartName(base, j)])
    {
      if j == index {
        assert r.emitted[|e.emitted|] == e1.emitted[|e.emitted|];
      } else {
        PartCoveredLater(fs, e, e1, r, base, index, stop, j);
      }
    }
  }

  /** A later fresh part is still fresh after part `index` is taken, so the run after `index` covers it. */
  lemma PartCoveredLater(fs: FileSystem, e: Engine, e1: Engine, r: Engine, base: string, index: nat, stop: nat, j: nat)
    requires e1.ledger == e.ledger + {PartName(base, index)} && |e.emitted| < |e1.emitted|
    requires PartsCovered(fs, e1, r, base, index + 1, stop)
    requires index < j < stop && PartName(base, j) in fs && PartName(base, j) !in e.ledger
    ensures exists k :: |e.emitted| <= k < |r.emitted| && r.emitted[k] == Load(PartName(base, j), "Zero3", fs[PartName(base, j)])
  {
    PartNameNumber(base, j);
    PartNameNumber(base, index);
    assert PartName(base, j) !in e1.ledger;
  }

  /** The path of a Zero3 archive without its three-digit part number. */
  function Zero3Base(path: string): (r: string)
    requires |path| >= 3
    ensures |r| == |path| - 3 && r == path[..|r|]
  {
    path[..|path| - 3]
  }

  /**
   `SearchZero3(path)`: the archive's entries are searched by name with
   companions resolved among them, then the numbered parts are walked.
   */
  function SearchZero3(fs: FileSystem, e: Engine, path: string): (r: Result<Engine, Error>)
    requires |path| >= 3
    ensures r.Success? ==> Extends(e, r.value)
    ensures path !in fs ==> r == Failure(FileNotFound(path))
    ensures path in fs && fs[path].files.Unreadable? ==> r == Failure(ReaderFailed("Zero3"))
    ensures path in fs && fs[path].files.Files? ==>
              var s := Search(fs, e, path, "", ByName, fs[path].files.entries, 0, InReader("", fs[path].files.entries));
              && (r.Success? <==> s.Success?)
              && (r.Success? ==> r.value == Zero3Parts(fs, s.value, Zero3Base(path), 1))
    ensures r.Success? ==>
              forall j :: 1 <= j < Zero3Stop(fs, Zero3Base(path), 1) ==> PartName(Zero3Base(path), j) in r.value.ledger
  {
    if path !in fs then Failure(FileNotFound(path))
    else match fs[path].files
      case Unreadable => Failure(ReaderFailed("Zero3"))
      case Files(entries) =>
        var e1 :- Search(fs, e, path, "", ByName, entries, 0, InReader("", entries));
        var r := Zero3Parts(fs, e1, Zero3Base(path), 1);
        ExtendsTransitive(e, e1, r);
        Success(r)
  }

  /**
   The Zero3 special case of `SearchFile`: a `.000` path is searched as the
   archive; otherwise the sibling `.000` file would be, a branch the tag
   makes unreachable (see `Zero3TagMeansDotZeros`).
   */
  function Zero3Branch(fs: FileSystem, e: Engine, path: string): (r: Result<Engine, Error>)
    ensures r.Success? ==> Extends(e, r.value)
    ensures EndsWith(path, ".000") ==> r == SearchZero3(fs, e, path)
    ensures !EndsWith(path, ".000") && |path| >= 4 && path[..|path| - 3] + D3(0) in fs ==>
              r == SearchZero3(fs, e, path[..|path| - 3] + D3(0))
    ensures !EndsWith(path, ".000") && (|path| < 4 || path[..|path| - 3] + D3(0) !in fs) ==> r == Success(e)
  {
    if EndsWith(path, ".000") then SearchZero3(fs, e, path)
    else if |path| >= 4 then
      var sibling := path[..|path| - 3] + D3(0);
      if sibling in fs then SearchZero3(fs, e, sibling) else Success(e)
    else Success(e)
  }

  /** A blob is tagged Zero3 only under a name that ends with `.000` exactly. */
  lemma Zero3TagMeansDotZeros(fs: FileSystem, e: Engine, path: string, bytes: seq<bv8>)
    requires ClassifyBytes(path, bytes) == "Zero3"
    ensures EndsWith(path, ".000")
    ensures |path| >= 3 && Zero3Branch(fs, e, path) == SearchZero3(fs, e, path)
  {
    assert SearchBytesInternal(path, "", bytes).format == "Zero3";
    DotZerosIgnoreCase(path);
  }

  /** The payload `SearchFile` builds for a file on disk. */
  function RootPayload(path: string, blob: Blob): (d: SearchData)
    ensures Ready(d, blob) && Emittable(d)
    ensures d.name == path && d.container == "" && d.format == ClassifyBytes(path, blob.bytes)
    ensures d.bytes.Some? <==> |blob.bytes| < BytesSizeThreshold
  {
    if |blob.bytes| < BytesSizeThreshold then SearchBytesInternal(path, "", blob.bytes)
    else SearchStreamInternal(path, "", Open(blob.bytes), false)
  }

  /**
   `SearchFile`: a path already in the ledger is skipped; otherwise the file
   is classified, the Zero3 special case and the feedback pass run, and the
   file's own payload is emitted last.
   */
  function SearchFile(fs: FileSystem, e: Engine, path: string): (r: Result<Engine, Error>)
    ensures path in e.ledger ==> r == Success(e)
    ensures path !in e.ledger && path !in fs ==> r == Failure(FileNotFound(path))
    ensures r.Success? ==> Extends(e, r.value)
    ensures r.Success? && path !in e.ledger ==>
              && path in fs
              && |r.value.emitted| > |e.emitted|
              && Last(r.value.emitted).name == path && Last(r.value.emitted).container == ""
              && Last(r.value.emitted).format == ClassifyBytes(path, fs[path].bytes)
              && (Last(r.value.emitted).bytes.Some? <==> |fs[path].bytes| < BytesSizeThreshold)
    ensures path !in e.ledger && path in fs && ClassifyBytes(path, fs[path].bytes) != "Zero3" ==>
              var step := Feedback(fs, e, RootPayload(path, fs[path]), fs[path], OnDisk);
              && (r.Success? <==> step.Success?)
              && (r.Success? ==> r.value == Emit(step.value.engine, step.value.data))
    ensures path !in e.ledger && path in fs && ClassifyBytes(path, fs[path].bytes) == "Zero3" ==>
              && EndsWith(path, ".000")
              && var z := SearchZero3(fs, e, path);
                 && (r.Success? <==> z.Success? && Feedback(fs, z.value, RootPayload(path, fs[path]), fs[path], OnDisk).Success?)
                 && (r.Success? ==>
                       var step := Feedback(fs, z.value, RootPayload(path, fs[path]), fs[path], OnDisk);
                       r.value == Emit(step.value.engine, step.value.data))
  {
    if path in e.ledger then Success(e)
    else if path !in fs then Failure(FileNotFound(path))
    else
      var blob := fs[path];
      var data := RootPayload(path, blob);
      var e1 :- if data.format == "Zero3" then Zero3TagMeansDotZeros(fs, e, path, blob.bytes); Zero3Branch(fs, e, path)
                else Success(e);
      var step :- Feedback(fs, e1, data, blob, OnDisk);
      ExtendsTransitive(e, e1, step.engine);
      Success(Emit(step.engine, step.data))
  }

  /**
   `SearchFolder`: `SearchFile` over every file in enumeration order (the
   order is the caller's); the first exception ends the walk.
   */
  function SearchFolder(fs: FileSystem, e: Engine, paths: seq<string>): (r: Result<Engine, Error>)
    ensures r.Success? ==> Extends(e, r.value)
    ensures r.Success? ==> forall i :: 0 <= i < |paths| ==> paths[i] in fs || paths[i] in r.value.ledger
    decreases |paths|
  {
    if |paths| == 0 then Success(e)
    else
      var e1 :- SearchFile(fs, e, paths[0]);
      var r := SearchFolder(fs, e1, paths[1..]);
      if r.Success? then
        ExtendsTransitive(e, e1, r.value);
        assert forall i :: 1 <= i < |paths| ==> paths[i] == paths[1..][i - 1];
        r
      else r
  }

  /**
   A split header found on disk records its data file: after the header has
   been searched, neither the header nor the data file is searched again.
   */
  lemma HeaderThenDataSearchedOnce(fs: FileSystem, e: Engine, header: string)
    requires header in fs && header !in e.ledger
    requires IsHeaderTag(ClassifyBytes(header, fs[header].bytes))
    requires GetBdtName(header) in fs
    requires SearchFile(fs, e, header).Success?
    ensures
      var e1 := SearchFile(fs, e, header).value;
      && header in e1.ledger && GetBdtName(header) in e1.ledger
      && SearchFile(fs, e1, GetBdtName(header)) == Success(e1)
      && SearchFile(fs, e1, header) == Success(e1)
  {
    var blob := fs[header];
    var data := RootPayload(header, blob);
    assert data.format != "Zero3";
    var r := Feedback(fs, e, data, blob, OnDisk);
    assert r == SplitBinderArm(fs, e, data, blob, OnDisk);
    assert CompanionName(data.format, header) == GetBdtName(header);
  }

  /** A file whose tag has no feedback arm is emitted alone and recorded nowhere. */
  lemma LeafFileEmittedAlone(fs: FileSystem, e: Engine, path: string)
    requires path in fs && path !in e.ledger
    requires !IsContainerTag(ClassifyBytes(path, fs[path].bytes)) && ClassifyBytes(path, fs[path].bytes) != "Zero3"
    ensures SearchFile(fs, e, path).Success?
    ensures SearchFile(fs, e, path).value.ledger == e.ledger
    ensures SearchFile(fs, e, path).value.emitted == e.emitted + [ResetStream(RootPayload(path, fs[path]))]
  {
    var data := RootPayload(path, fs[path]);
    assert Feedback(fs, e, data, fs[path], OnDisk) == Success(Step(e, ResetStream(data)));
  }

  /**
   The LDMU arm emits its data file without recording it: on disk, with the
   data file present, it succeeds exactly when the archive's entry search
   does, and the ledger gains only the header's name beyond what that search
   recorded.
   */
  lemma LdmuDataFileNotRecorded(fs: FileSystem, e: Engine, data: SearchData, blob: Blob)
    requires Ready(data, blob) && data.format == "LDMU"
    requires blob.paired.Files?
    requires GetLdmuDataName(data.name) in fs
    ensures
      var s := Search(fs, e, data.name, data.container, ById, blob.paired.entries, 0, OnDisk);
      var r := LdmuArm(fs, e, data, blob, OnDisk);
      && (r.Success? <==> s.Success?)
      && (r.Success? ==>
            && r.value.engine.ledger == s.value.ledger + {data.name}
            && Last(r.value.engine.emitted).name == GetLdmuDataName(data.name))
  {
    assert TryGetSplitFile(fs, OnDisk, GetLdmuDataName(data.name), "LDMU").value.Some?;
  }

  /** An emitted top-level payload for `path`, after position `from`. */
  ghost predicate EmittedAtTop(r: Engine, from: nat, path: string) {
    exists k :: from <= k < |r.emitted| && r.emitted[k].name == path && r.emitted[k].container == ""
  }

  /**
   A successful folder walk accounts for every enumerated path: each one is
   in the final ledger or was emitted as a top-level payload.
   */
  lemma {:induction false} FolderCoversEveryPath(fs: FileSystem, e: Engine, paths: seq<string>)
    requires SearchFolder(fs, e, paths).Success?
    ensures forall i :: 0 <= i < |paths| ==>
              paths[i] in SearchFolder(fs, e, paths).value.ledger || EmittedAtTop(SearchFolder(fs, e, paths).value, |e.emitted|, paths[i])
    decreases |paths|
  {
    if |paths| > 0 {
      var e1 := SearchFile(fs, e, paths[0]).value;
      var r := SearchFolder(fs, e1, paths[1..]).value;
      assert r == SearchFolder(fs, e, paths).value;
      FolderCoversEveryPath(fs, e1, paths[1..]);
      forall i | 0 <= i < |paths|
        ensures paths[i] in r.ledger || EmittedAtTop(r, |e.emitted|, paths[i])
      {
        if i == 0 {
          if paths[0] !in e.ledger {
            var k := |e1.emitted| - 1;
            assert r.emitted[k] == e1.emitted[k];
          }
        } else {
          assert paths[i] == paths[1..][i - 1];
          if !(paths[i] in r.ledger) {
            var k :| |e1.emitted| <= k < |r.emitted| && r.emitted[k].name == paths[i] && r.emitted[k].container == "";
          }
        }
      }
    }
  }
}
