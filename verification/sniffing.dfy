/**
 Format sniffing: the pure classification of a named byte blob into a format
 tag (`GuessFormat`, `GetMagic`, `GuessFlverFormat`), applied to a byte
 array (`SearchBytesInternal`) or to a stream (`SearchStreamInternal`), and
 the DCX re-check made before decompressing (`IsDCX`).
 */
module Sniffing {
  import opened Results
  import opened Text
  import opened Streams
  import opened Payloads

  const MagicLength: nat := 4
  const FlverEndiannessOffset: nat := 6
  const FlverMajorVersionOffset: nat := 10

  /** `Encoding.ASCII` decoding of one byte: anything at or above 0x80 becomes `'?'`. */
  function AsciiChar(b: bv8): (c: char)
    ensures b < 0x80 ==> c as int == b as int
    ensures b >= 0x80 ==> c == '?'
    ensures c as int < 0x80
  {
    if b < 0x80 then (b as int) as char else '?'
  }

  /**
   `GetMagic`: the first four bytes decoded as ASCII. The decoder substitutes
   rather than fails, so the four characters always come back.
   */
  function GetMagic(bytes: seq<bv8>): (magic: string)
    requires |bytes| >= MagicLength
    ensures |magic| == MagicLength
    ensures forall i :: 0 <= i < MagicLength ==> magic[i] == AsciiChar(bytes[i])
  {
    seq(MagicLength, i requires 0 <= i < MagicLength => AsciiChar(bytes[i]))
  }

  /** The magic of the PNG arm: its first character lies above the ASCII range. */
  const PngMagic: string := "\U{89}PNG"

  /** No four bytes decode to the PNG magic, so that arm of the table is dead. */
  lemma PngMagicUnreachable(bytes: seq<bv8>)
    requires |bytes| >= MagicLength
    ensures GetMagic(bytes) != PngMagic
  {
    assert GetMagic(bytes)[0] as int < 0x80;
    assert PngMagic[0] as int == 0x89;
  }

  /** The magics that are their own tag. */
  const PassThroughMagics: set<string> := {
    "BND3", "BND4", "BHF3", "BDF3", "BDF4", "BHD5", "BLI3", "BLI4", "LDMU", "MDL4",
    "SMD4", "FSB4", "FSB5", "FEV1", "MOSI", "MOSB", "MOWV", "MOGS", "XPR2"
  }

  /**
   The switch on the magic: the pass-through magics, then the arms that
   rename, two of which also look at the name; `None` when no arm applies.
   */
  function MagicFormat(magic: string, path: string): Option<string>
  {
    if magic in PassThroughMagics then Some(magic)
    else if magic == "BHF4" then Some(if EndsWith(Lower(path), ".bdt") then "BHD5" else "BHF4")
    else if magic == "DCX\0" || magic == "DCP\0" then Some("DCX")
    else if magic == "FLVE" then Some("FLVER")
    else if magic == "TPF\0" then Some("TPF")
    else if magic == "\U{1B}Lua" then Some("LUAC")
    else if magic == "TAE " then Some("TAE")
    else if magic == "DRB\0" || magic == "\0BRD" then Some("DRB")
    else if magic == "MQB " then Some("MQB")
    else if magic == "DLsE" then Some("FFXDLSE")
    else if magic == "EVD\0" then Some("EMEVD")
    else if magic == "BND\0" then Some("BND0")
    else if magic == "CAP\0" || magic == "\0PAC" then Some("CAP")
    else if magic == ".SFB" then Some("SFB")
    else if magic == "\0PSF" then Some("PARAMSFO")
    else if magic == "PAMF" then Some("PAM")
    else if magic == "RIFF" then Some(if EndsWith(Lower(path), ".fev") then "FEV5" else "WAV")
    else if magic == "VAGp" then Some("VAG")
    else if magic == PngMagic then Some("PNG")
    else if magic == "\U{7F}ELF" then Some("ELF")
    else if magic == "FSGX" then Some("XGS")
    else if magic == "KBDS" then Some("XSB")
    else if magic == "DNBW" then Some("XWB")
    else if magic == "MGFL" then Some("MGF")
    else None
  }

  /** One rule of the file-name table, tested on the lower-cased or on the original name. */
  datatype SuffixRule =
    | FoldedSuffix(suffix: string, tag: string)
    | ExactSuffix(suffix: string, tag: string)

  predicate RuleMatches(rule: SuffixRule, path: string) {
    match rule
    case FoldedSuffix(suffix, _) => EndsWith(Lower(path), suffix)
    case ExactSuffix(suffix, _) => EndsWith(path, suffix)
  }

  /** The file-name rules, in the order they are tried. */
  const SuffixRules: seq<SuffixRule> := [
    FoldedSuffix(".lc", "LUAC"),
    FoldedSuffix(".fmg.dcx", "FMG"),
    FoldedSuffix(".emtm", "PARAM"),
    FoldedSuffix(".def", "PARAMDEF"),
    FoldedSuffix(".py", "PYTHON"),
    ExactSuffix("EBOOT.BIN", "ELF"),
    ExactSuffix("JPG", "JPEG"),
    FoldedSuffix(".tm2", "TIM2"),
    FoldedSuffix(".7z", "7zip"),
    FoldedSuffix(".ppmtest", "AP2"),
    FoldedSuffix(".blf", "BLI"),
    FoldedSuffix(".mib", "MOIB"),
    FoldedSuffix("acparts.bin", "AcParts"),
    FoldedSuffix("acvparts.bin", "AcParts5"),
    FoldedSuffix("assemmenu.bin", "AssemMenu"),
    FoldedSuffix("asm_disp.bin", "AssemMenu"),
    FoldedSuffix("acconflictinfo.bin", "AcConflictInfo"),
    FoldedSuffix("acattachinfo.bin", "AcAttachInfo"),
    FoldedSuffix("accel.bin", "Accel"),
    FoldedSuffix("install.list", "InstallList"),
    FoldedSuffix("md5.fmg", "RegulationMd5")
  ]

  /** The tag of the first rule at index `k` or later that matches `path`. */
  function FirstSuffixMatch(rules: seq<SuffixRule>, path: string, k: nat): (r: Option<string>)
    requires k <= |rules|
    ensures r.None? <==> forall i :: k <= i < |rules| ==> !RuleMatches(rules[i], path)
    ensures r.Some? ==> exists i :: k <= i < |rules| && RuleMatches(rules[i], path) && rules[i].tag == r.value
                                   && forall j :: k <= j < i ==> !RuleMatches(rules[j], path)
    decreases |rules| - k
  {
    if k == |rules| then None
    else if RuleMatches(rules[k], path) then Some(rules[k].tag)
    else FirstSuffixMatch(rules, path, k + 1)
  }

  /** The last resort: the extension of the lower-cased name, upper-cased, without its dot. */
  function ExtensionFormat(path: string): (r: string)
    ensures forall i :: 0 <= i < |r| ==> !IsLowerAscii(r[i])
    ensures GetExtension(Lower(path)) == "" ==> r == ""
    ensures GetExtension(Lower(path)) != "" ==> r == Upper(GetExtension(Lower(path))[1..])
  {
    var extension := GetExtension(Lower(path));
    if StartsWith(extension, ".") then Upper(extension[1..]) else Upper(extension)
  }

  /**
   `GuessFormat`: the Zero3 name rule, then the magic table, then the
   file-name rules in order, then the extension.
   */
  function GuessFormat(path: string, magicBytes: seq<bv8>): (r: string)
    requires |magicBytes| >= MagicLength
    ensures r == "Zero3" <==> EndsWithIgnoreCase(path, ".000")
  {
    if EndsWithIgnoreCase(path, ".000") then "Zero3"
    else
      match MagicFormat(GetMagic(magicBytes), path)
      case Some(tag) => NotZero3FromMagic(GetMagic(magicBytes), path); tag
      case None =>
        match FirstSuffixMatch(SuffixRules, path, 0)
        case Some(tag) => NotZero3FromSuffix(path); tag
        case None => NotZero3FromExtension(path); ExtensionFormat(path)
  }

  lemma NotZero3FromSuffix(path: string)
    ensures FirstSuffixMatch(SuffixRules, path, 0) != Some("Zero3")
  {
    assert forall i :: 0 <= i < |SuffixRules| ==> SuffixRules[i].tag[0] != 'Z';
  }

  lemma NotZero3FromExtension(path: string)
    ensures ExtensionFormat(path) != "Zero3"
  {
    var r := ExtensionFormat(path);
    if |r| > 1 {
      assert !IsLowerAscii(r[1]);
    }
  }

  lemma NotZero3FromMagic(magic: string, path: string)
    ensures MagicFormat(magic, path) != Some("Zero3")
  {
  }

  /** With a name outside the Zero3 rule, each pass-through magic is its own tag. */
  lemma PassThroughRule(path: string, magicBytes: seq<bv8>)
    requires |magicBytes| >= MagicLength
    requires !EndsWithIgnoreCase(path, ".000")
    requires GetMagic(magicBytes) in PassThroughMagics
    ensures GuessFormat(path, magicBytes) == GetMagic(magicBytes)
  {
  }

  /** Both DCX magics give DCX. */
  lemma DcxRule(path: string, magicBytes: seq<bv8>)
    requires |magicBytes| >= MagicLength
    requires !EndsWithIgnoreCase(path, ".000")
    requires IsDcxMagic(GetMagic(magicBytes))
    ensures GuessFormat(path, magicBytes) == "DCX"
  {
  }

  /** FLVE gives the unrefined FLVER. */
  lemma FlveRule(path: string, magicBytes: seq<bv8>)
    requires |magicBytes| >= MagicLength
    requires !EndsWithIgnoreCase(path, ".000")
    requires GetMagic(magicBytes) == "FLVE"
    ensures GuessFormat(path, magicBytes) == "FLVER"
  {
  }

  /** BHF4 gives BHD5 exactly when the lower-cased name ends `.bdt`, BHF4 otherwise. */
  lemma Bhf4Rule(path: string, magicBytes: seq<bv8>)
    requires |magicBytes| >= MagicLength
    requires !EndsWithIgnoreCase(path, ".000")
    requires GetMagic(magicBytes) == "BHF4"
    ensures GuessFormat(path, magicBytes) == (if EndsWith(Lower(path), ".bdt") then "BHD5" else "BHF4")
  {
  }

  /** RIFF gives FEV5 exactly when the lower-cased name ends `.fev`, WAV otherwise. */
  lemma RiffRule(path: string, magicBytes: seq<bv8>)
    requires |magicBytes| >= MagicLength
    requires !EndsWithIgnoreCase(path, ".000")
    requires GetMagic(magicBytes) == "RIFF"
    ensures GuessFormat(path, magicBytes) == (if EndsWith(Lower(path), ".fev") then "FEV5" else "WAV")
  {
    RiffArm(path);
  }

  lemma RiffArm(path: string)
    ensures MagicFormat("RIFF", path) == Some(if EndsWith(Lower(path), ".fev") then "FEV5" else "WAV")
  {
  }

  /**
   When no magic arm applies, the first matching file-name rule decides, and
   only when none matches does the extension decide.
   */
  lemma NameRules(path: string, magicBytes: seq<bv8>)
    requires |magicBytes| >= MagicLength
    requires !EndsWithIgnoreCase(path, ".000")
    requires MagicFormat(GetMagic(magicBytes), path).None?
    ensures forall i :: 0 <= i < |SuffixRules| && RuleMatches(SuffixRules[i], path)
                        && (forall j :: 0 <= j < i ==> !RuleMatches(SuffixRules[j], path))
                        ==> GuessFormat(path, magicBytes) == SuffixRules[i].tag
    ensures (forall i :: 0 <= i < |SuffixRules| ==> !RuleMatches(SuffixRules[i], path))
            ==> GuessFormat(path, magicBytes) == ExtensionFormat(path)
  {
    forall i | 0 <= i < |SuffixRules| && RuleMatches(SuffixRules[i], path)
                 && (forall j :: 0 <= j < i ==> !RuleMatches(SuffixRules[j], path))
      ensures GuessFormat(path, magicBytes) == SuffixRules[i].tag
    {
      var r := FirstSuffixMatch(SuffixRules, path, 0);
      var w :| 0 <= w < |SuffixRules| && RuleMatches(SuffixRules[w], path) && SuffixRules[w].tag == r.value
                 && forall j :: 0 <= j < w ==> !RuleMatches(SuffixRules[j], path);
      assert w == i;
    }
  }

  /**
   `GuessFlverFormat`: FLVER is refined by its major version, every other
   tag passes through.
   */
  function GuessFlverFormat(format: string, majorVersion: bv8): (r: string)
    ensures format != "FLVER" ==> r == format
    ensures format == "FLVER" ==> (r == "FLVER2" <==> majorVersion == 2)
    ensures format == "FLVER" ==> (r == "FLVER0" <==> majorVersion < 2)
    ensures format == "FLVER" ==> (r == "FLVER" <==> majorVersion > 2)
  {
    if format == "FLVER" then
      if majorVersion == 2 then "FLVER2"
      else if majorVersion < 2 then "FLVER0"
      else format
    else format
  }

  /** The FLVER major version: one byte earlier when the endianness byte is 0x42. */
  function FlverMajorVersion(bytes: seq<bv8>): bv8
    requires |bytes| > FlverMajorVersionOffset
  {
    if bytes[FlverEndiannessOffset] == 0x42 then bytes[FlverMajorVersionOffset - 1]
    else bytes[FlverMajorVersionOffset]
  }

  /** The tag `SearchBytesInternal` gives to a blob. */
  function ClassifyBytes(name: string, bytes: seq<bv8>): string
  {
    if |bytes| < MagicLength then ""
    else
      var format := GuessFormat(name, bytes[..MagicLength]);
      if |bytes| > FlverMajorVersionOffset then GuessFlverFormat(format, FlverMajorVersion(bytes))
      else format
  }

  /**
   `SearchBytesInternal`: classifies the bytes and wraps them in a byte-backed
   payload. Under four bytes nothing is inspected, not even the name.
   */
  function SearchBytesInternal(name: string, container: string, bytes: seq<bv8>): (d: SearchData)
    ensures d.name == name && d.container == container && d.bytes == Some(bytes)
    ensures HasOneSource(d) && Rewound(d) && StreamLive(d) && !d.disposed
    ensures |bytes| < MagicLength ==> d.format == ""
    ensures |bytes| >= MagicLength && EndsWithIgnoreCase(name, ".000") ==> d.format == "Zero3"
    ensures d.format == "Zero3" ==> |bytes| >= MagicLength && EndsWithIgnoreCase(name, ".000")
  {
    FromBytes(name, container, ClassifyBytes(name, bytes), Some(bytes))
  }

  /**
   FLVER refinement as seen from a whole blob: only above ten bytes, with the
   version byte at offset 9 behind a 0x42 endianness byte and at offset 10
   otherwise.
   */
  lemma FlverRefinement(name: string, bytes: seq<bv8>)
    requires |bytes| >= MagicLength && !EndsWithIgnoreCase(name, ".000")
    requires GetMagic(bytes[..MagicLength]) == "FLVE"
    ensures |bytes| <= FlverMajorVersionOffset ==> ClassifyBytes(name, bytes) == "FLVER"
    ensures |bytes| > FlverMajorVersionOffset ==>
              var v := if bytes[6] == 0x42 then bytes[9] else bytes[10];
              && (ClassifyBytes(name, bytes) == "FLVER2" <==> v == 2)
              && (ClassifyBytes(name, bytes) == "FLVER0" <==> v < 2)
              && (ClassifyBytes(name, bytes) == "FLVER" <==> v > 2)
  {
    FlveRule(name, bytes[..MagicLength]);
  }

  /**
   `SearchStreamInternal`: the same classification read through positional
   reads on the stream. It agrees with the byte-array path on the same
   content and leaves the stream exactly as it found it.
   */
  function SearchStreamInternal(name: string, container: string, stream: Stream, leaveStreamOpen: bool): (d: SearchData)
    requires !stream.closed
    ensures d.format == SearchBytesInternal(name, container, stream.data).format
    ensures d.stream == Some(stream) && d.bytes.None? && HasOneSource(d)
    ensures d.name == name && d.container == container && d.leaveStreamOpen == leaveStreamOpen && !d.disposed
  {
    if |stream.data| < MagicLength then FromStream(name, container, "", Some(stream), leaveStreamOpen)
    else
      var magicBytes := GetBytes(stream, 0, MagicLength).result.value;
      assert magicBytes == stream.data[..MagicLength];
      var format := GuessFormat(name, magicBytes);
      var refined :=
        if |stream.data| > FlverMajorVersionOffset then
          var majorVersion :=
            if GetByte(stream, FlverEndiannessOffset).result.value == 0x42
            then GetByte(stream, FlverMajorVersionOffset - 1).result.value
            else GetByte(stream, FlverMajorVersionOffset).result.value;
          GuessFlverFormat(format, majorVersion)
        else format;
      FromStream(name, container, refined, Some(stream), leaveStreamOpen)
  }

  /** The two DCX magics. */
  predicate IsDcxMagic(magic: string) {
    magic == "DCX\0" || magic == "DCP\0"
  }

  /**
   `IsDCX`: re-reads the first four bytes of the payload (from the array if
   there is one, else from the stream) and accepts only the two DCX magics.
   */
  function IsDCX(d: SearchData): (r: bool)
    requires d.bytes.Some? || (d.stream.Some? && !d.stream.value.closed)
    ensures r <==> |Content(d)| >= MagicLength && IsDcxMagic(GetMagic(Content(d)))
  {
    if d.bytes.Some? then
      if |d.bytes.value| < MagicLength then false
      else IsDcxMagic(GetMagic(d.bytes.value[..MagicLength]))
    else
      var s := d.stream.value;
      if |s.data| < MagicLength then false
      else
        var magic := GetBytes(s, 0, MagicLength).result.value;
        assert magic == s.data[..MagicLength];
        IsDcxMagic(GetMagic(magic))
  }

  /**
   A DCX tag that came from the extension alone never passes the re-check:
   such a payload is classified but not decompressed.
   */
  lemma ExtensionDcxIsNotDecompressed(name: string, container: string, bytes: seq<bv8>)
    requires |bytes| >= MagicLength
    requires !IsDcxMagic(GetMagic(bytes))
    ensures !IsDCX(SearchBytesInternal(name, container, bytes))
  {
  }

  /** Conversely, a blob carrying a DCX magic is tagged DCX unless the Zero3 name rule fires. */
  lemma DcxMagicIsTaggedDcx(name: string, container: string, bytes: seq<bv8>)
    requires |bytes| >= MagicLength && !EndsWithIgnoreCase(name, ".000")
    requires IsDcxMagic(GetMagic(bytes))
    ensures SearchBytesInternal(name, container, bytes).format == "DCX"
    ensures IsDCX(SearchBytesInternal(name, container, bytes))
  {
    assert GetMagic(bytes[..MagicLength]) == GetMagic(bytes);
    DcxRule(name, bytes[..MagicLength]);
  }
}
