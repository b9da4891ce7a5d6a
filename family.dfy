/** Package family names `Name_PublisherId`, split at the first `'_'`
    (src/family.rs). */
module Family {
  import opened Wrappers
  import opened WideString

  /** e.g. `NcsiUwpApp_8wekyb3d8bbwe` */
  datatype PackageFamilyName = PackageFamilyName(w: WString)
  {
    /** Family `Name`: everything before the first `'_'`, or the whole
        string when there is none. */
    function Name(): (r: seq<u16>)
      ensures Underscore !in r
      ensures r <= w.Units()
      ensures |r| < |w.Units()| ==> w.Units()[|r|] == Underscore
      ensures |r| == |w.Units()| ==> Underscore !in w.Units()
    {
      PositionIsFirst(w.Units(), Underscore);
      match Position(w.Units(), Underscore)
      case Some(u) => w.Units()[..u]
      case None => w.Units()
    }

    /** Family `PublisherId`: everything after the first `'_'`, or empty
        when there is none. */
    function PublisherId(): (r: seq<u16>)
      ensures Underscore !in w.Units() ==> r == []
      ensures Underscore in w.Units() ==>
        && |r| < |w.Units()|
        && var u := |w.Units()| - |r| - 1;
           w.Units()[u] == Underscore && Underscore !in w.Units()[..u] && w.Units()[u + 1..] == r
    {
      PositionIsFirst(w.Units(), Underscore);
      match Position(w.Units(), Underscore)
      case Some(u) => w.Units()[u + 1..]
      case None => []
    }
  }

  /** `PackageFamilyName::from(&str)` */
  function FromStr(s: string): (f: PackageFamilyName)
    ensures f.w.Units() == EncodeUtf16(s)
  {
    PackageFamilyName(WideString.FromStr(s))
  }

  /** With a `'_'` present, name, separator and publisher id put back
      together give the units; the publisher id may itself hold `'_'`. */
  lemma SplitJoin(f: PackageFamilyName)
    requires Underscore in f.w.Units()
    ensures f.Name() + [Underscore] + f.PublisherId() == f.w.Units()
  {
    var s := f.w.Units();
    var u := |f.Name()|;
    assert s[u] == Underscore;
    assert s == s[..u] + [s[u]] + s[u + 1..];
  }

  /** `name == units` exactly when there is no separator. */
  lemma NameIsWholeIffNoUnderscore(f: PackageFamilyName)
    ensures f.Name() == f.w.Units() <==> Underscore !in f.w.Units()
    ensures f.PublisherId() == [] <== Underscore !in f.w.Units()
  {
  }

  /** A string `a _ b` whose `a` holds no separator splits into `a` and `b`. */
  lemma SplitAtFirst(a: seq<u16>, b: seq<u16>)
    requires Underscore !in a
    ensures PackageFamilyName(WString.FromCodeUnitsVec(a + [Underscore] + b)).Name() == a
    ensures PackageFamilyName(WString.FromCodeUnitsVec(a + [Underscore] + b)).PublisherId() == b
  {
    var s := a + [Underscore] + b;
    assert s[|a|] == Underscore;
    assert s[..|a|] == a;
    assert s[|a| + 1..] == b;
  }

  /** Splitting `FromStr(a + "_" + b)` yields the encodings of `a` and `b`. */
  lemma FromStrSplit(a: string, b: string)
    requires '_' !in a
    ensures FromStr(a + "_" + b).Name() == EncodeUtf16(a)
    ensures FromStr(a + "_" + b).PublisherId() == EncodeUtf16(b)
  {
    EncodeUtf16Append(a + "_", b);
    EncodeUtf16Append(a, "_");
    EncodeUtf16Underscore(a);
    assert EncodeUtf16("_") == [Underscore];
    SplitAtFirst(EncodeUtf16(a), EncodeUtf16(b));
  }

  lemma TestVectorNcsi()
    ensures FromStr("NcsiUwpApp_8wekyb3d8bbwe").Name() == EncodeUtf16("NcsiUwpApp")
    ensures FromStr("NcsiUwpApp_8wekyb3d8bbwe").PublisherId() == EncodeUtf16("8wekyb3d8bbwe")
  {
    assert "NcsiUwpApp_8wekyb3d8bbwe" == "NcsiUwpApp" + "_" + "8wekyb3d8bbwe";
    FromStrSplit("NcsiUwpApp", "8wekyb3d8bbwe");
  }

  lemma TestVectorUbuntu()
    ensures FromStr("CanonicalGroupLimited.UbuntuonWindows_79rhkp1fndgsc").Name()
         == EncodeUtf16("CanonicalGroupLimited.UbuntuonWindows")
    ensures FromStr("CanonicalGroupLimited.UbuntuonWindows_79rhkp1fndgsc").PublisherId()
         == EncodeUtf16("79rhkp1fndgsc")
  {
    assert "CanonicalGroupLimited.UbuntuonWindows_79rhkp1fndgsc"
        == "CanonicalGroupLimited.UbuntuonWindows" + "_" + "79rhkp1fndgsc";
    FromStrSplit("CanonicalGroupLimited.UbuntuonWindows", "79rhkp1fndgsc");
  }
}
