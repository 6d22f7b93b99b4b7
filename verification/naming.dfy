/**
 The naming conventions the discovery engine uses to find the other half of a
 split archive, to build the container key of an embedded file, and to name a
 binder entry.
 */
module Naming {
  import opened Results
  import opened Text

  /** `GetBdtName`: every `bhd` in a header path becomes `bdt`. */
  function GetBdtName(path: string): (r: string)
    ensures |r| == |path|
    ensures !Contains(r, "bhd")
    ensures !Contains(path, "bhd") ==> r == path
  {
    ReplaceRemovesAll(path, "bhd", "bdt");
    ReplaceAll(path, "bhd", "bdt")
  }

  /** `GetBhdName`: every `bdt` in a data path becomes `bhd`. */
  function GetBhdName(path: string): (r: string)
    ensures |r| == |path|
    ensures !Contains(r, "bdt")
    ensures !Contains(path, "bdt") ==> r == path
  {
    ReplaceRemovesAll(path, "bdt", "bhd");
    ReplaceAll(path, "bdt", "bhd")
  }

  /** `GetLdmuDataName`: every `bhd` in an LDMU header path becomes `bnd`. */
  function GetLdmuDataName(path: string): (r: string)
    ensures |r| == |path|
    ensures !Contains(r, "bhd")
    ensures !Contains(path, "bhd") ==> r == path
  {
    ReplaceRemovesAll(path, "bhd", "bnd");
    ReplaceAll(path, "bhd", "bnd")
  }

  /** `GetBhd5DataName`: every `dvdbnd5` becomes `dvdbnd`. */
  function GetBhd5DataName(path: string): (r: string)
    ensures |r| <= |path|
    ensures !Contains(path, "dvdbnd5") ==> r == path
  {
    ReplaceAll(path, "dvdbnd5", "dvdbnd")
  }

  /** `GetBhd5Name`: every `dvdbnd` becomes `dvdbnd5` (the engine never calls it). */
  function GetBhd5Name(path: string): (r: string)
    ensures |r| >= |path|
    ensures !Contains(path, "dvdbnd") ==> r == path
  {
    ReplaceAll(path, "dvdbnd", "dvdbnd5")
  }

  /**
   Header and data names are inverse to each other: the data path of a header
   path that mentions no `bdt` leads back to that header path.
   */
  lemma BhdNameOfBdtName(path: string)
    requires !Contains(path, "bdt")
    ensures GetBhdName(GetBdtName(path)) == path
  {
    ReplaceRoundTrip(path, "bhd", "bdt");
  }

  /** The other direction: a data path that mentions no `bhd` survives the round trip. */
  lemma BdtNameOfBhdName(path: string)
    requires !Contains(path, "bhd")
    ensures GetBdtName(GetBhdName(path)) == path
  {
    ReplaceRoundTrip(path, "bdt", "bhd");
  }

  /**
   Distinct LDMU headers that never mention `bnd` look for distinct data
   files: the substitution can be undone.
   */
  lemma LdmuDataNameInjective(p: string, q: string)
    requires !Contains(p, "bnd") && !Contains(q, "bnd")
    requires GetLdmuDataName(p) == GetLdmuDataName(q)
    ensures p == q
  {
    ReplaceRoundTrip(p, "bhd", "bnd");
    ReplaceRoundTrip(q, "bhd", "bnd");
  }

  /** `dvdbnd5` does not overlap itself: shifted by one to six places it cannot start a text. */
  lemma Bhd5NotShifted(pre: string, rest: string)
    requires 1 <= |pre| < 7
    ensures !StartsWith(pre + ("dvdbnd5" + rest), "dvdbnd5")
  {
    var x := pre + ("dvdbnd5" + rest);
    assert x[|pre|] == 'd' && x[|pre| + 1] == 'v';
  }

  /** The first of the positions one to six where a `dvdbnd` starts, or seven if there is none. */
  lemma Bhd5FirstStart(s: string) returns (k: nat)
    requires |s| > 0 && !StartsWith(s, "dvdbnd")
    ensures 1 <= k <= 7 && k <= |s|
    ensures forall j :: 0 <= j < k ==> !StartsWith(s[j..], "dvdbnd")
    ensures k < 7 && k < |s| ==> StartsWith(s[k..], "dvdbnd")
  {
    k := 1;
    while k < 7 && k < |s| && !StartsWith(s[k..], "dvdbnd")
      invariant 1 <= k <= 7 && k <= |s|
      invariant forall j :: 0 <= j < k ==> !StartsWith(s[j..], "dvdbnd")
    {
      k := k + 1;
    }
  }

  /**
   After a `dvdbnd` that was not at the start of the text becomes `dvdbnd5`,
   no `dvdbnd5` can begin at the untouched first character.
   */
  lemma Bhd5NoFalseStart(s: string)
    requires |s| > 0 && !StartsWith(s, "dvdbnd")
    ensures !StartsWith(ReplaceAll(s, "dvdbnd", "dvdbnd5"), "dvdbnd5")
  {
    var k := Bhd5FirstStart(s);
    ReplaceUntouchedPrefix(s, "dvdbnd", "dvdbnd5", k);
    if k < 7 && k < |s| {
      Bhd5ReplacedAt(s, k);
    } else if k == 7 {
      Bhd5UntouchedStart(s);
    }
  }

  /** A replacement at position one to six cannot start a `dvdbnd5`. */
  lemma Bhd5ReplacedAt(s: string, k: nat)
    requires 1 <= k < 7 && k < |s| && StartsWith(s[k..], "dvdbnd")
    requires ReplaceAll(s, "dvdbnd", "dvdbnd5") == s[..k] + ReplaceAll(s[k..], "dvdbnd", "dvdbnd5")
    ensures !StartsWith(ReplaceAll(s, "dvdbnd", "dvdbnd5"), "dvdbnd5")
  {
    var tail := ReplaceAll(s[k + 6..], "dvdbnd", "dvdbnd5");
    assert s[k..][6..] == s[k + 6..];
    assert ReplaceAll(s[k..], "dvdbnd", "dvdbnd5") == "dvdbnd5" + tail;
    Bhd5NotShifted(s[..k], tail);
  }

  /** Seven untouched leading characters that do not start with `dvdbnd` cannot start a `dvdbnd5`. */
  lemma Bhd5UntouchedStart(s: string)
    requires 7 <= |s| && !StartsWith(s, "dvdbnd")
    requires ReplaceAll(s, "dvdbnd", "dvdbnd5") == s[..7] + ReplaceAll(s[7..], "dvdbnd", "dvdbnd5")
    ensures !StartsWith(ReplaceAll(s, "dvdbnd", "dvdbnd5"), "dvdbnd5")
  {
    assert s[..6] == s[..7][..6];
  }

  /**
   The BHD5 data name undoes the header name: turning every `dvdbnd` into
   `dvdbnd5` and back restores any path.
   */
  lemma {:induction false} Bhd5DataNameOfBhd5Name(path: string)
    ensures GetBhd5DataName(GetBhd5Name(path)) == path
    decreases |path|
  {
    if |path| == 0 {
    } else if StartsWith(path, "dvdbnd") {
      var t := ReplaceAll(path[6..], "dvdbnd", "dvdbnd5");
      Bhd5DataNameOfBhd5Name(path[6..]);
      assert ("dvdbnd5" + t)[..7] == "dvdbnd5";
      assert ("dvdbnd5" + t)[7..] == t;
      assert path == "dvdbnd" + path[6..];
    } else {
      var t := ReplaceAll(path[1..], "dvdbnd", "dvdbnd5");
      Bhd5DataNameOfBhd5Name(path[1..]);
      Bhd5NoFalseStart(path);
      assert ([path[0]] + t)[1..] == t;
      assert [path[0]] + path[1..] == path;
    }
  }

  /**
   `CombineContainer`: the container key of an embedded file is the bare name
   at top level and `container|name` below it.
   */
  function CombineContainer(container: string, name: string): (r: string)
    ensures EndsWith(r, name) && StartsWith(r, container)
    ensures |r| == |name| <==> container == ""
    ensures container != "" ==> |r| == |container| + 1 + |name| && r[|container|] == '|' && r[|container| + 1..] == name
  {
    if container == "" then name else container + "|" + name
  }

  /**
   `GetBinderFileName`: a binder entry is named by its own name if it has one,
   else by its ID, else (ID -1) by its position in the binder.
   */
  function GetBinderFileName(name: Option<string>, id: int, index: int): (r: string)
    ensures name.Some? ==> r == name.value
    ensures name.None? && id != -1 && id >= 0 ==> AllDigits(r) && DecimalValue(r) == id && (|r| > 1 ==> r[0] != '0')
    ensures name.None? && id != -1 && id < 0 ==>
              |r| > 1 && r[0] == '-' && AllDigits(r[1..]) && DecimalValue(r[1..]) == -id && (|r| > 2 ==> r[1] != '0')
    ensures name.None? && id == -1 && index >= 0 ==> AllDigits(r) && DecimalValue(r) == index && (|r| > 1 ==> r[0] != '0')
  {
    match name
    case Some(n) => n
    case None => if id == -1 then IntToString(index) else IntToString(id)
  }
}
