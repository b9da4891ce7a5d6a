/** Full package names `Name_Version_Architecture_Field4_PublisherId`,
    split left to right into at most five pieces (src/package.rs). */
module Package {
  import opened Wrappers
  import opened WideString

  /** `splitn(5, …)`: the most pieces a full name is cut into. */
  const MaxFields: nat := 5

  /** Number of `x` in `s`. */
  function Count(s: seq<u16>, x: u16): nat
  {
    multiset(s)[x]
  }

  /** `slice::splitn(n, |&cu| cu == sep)`: `n == 0` gives no piece, the
      `n`-th piece (or the only one, when no separator is left) is the
      whole remainder. An empty slice gives one empty piece. */
  function SplitN(s: seq<u16>, n: nat, sep: u16): (ps: seq<seq<u16>>)
    ensures |ps| <= n
    ensures n > 0 ==> |ps| > 0
    decreases n
  {
    if n == 0 then []
    else if n == 1 then [s]
    else
      PositionIsFirst(s, sep);
      match Position(s, sep)
      case None => [s]
      case Some(i) => [s[..i]] + SplitN(s[i + 1..], n - 1, sep)
  }

  /** The pieces put back together with `sep` between neighbours. */
  function Join(ps: seq<seq<u16>>, sep: u16): seq<u16>
  {
    if ps == [] then []
    else if |ps| == 1 then ps[0]
    else ps[0] + [sep] + Join(ps[1..], sep)
  }

  /** Between one and `n` pieces, none but the last holding `sep`, and
      the last holding none either unless all `n` pieces were used. */
  predicate WellCut(ps: seq<seq<u16>>, n: nat, sep: u16)
  {
    && 1 <= |ps| <= n
    && (forall i :: 0 <= i < |ps| - 1 ==> sep !in ps[i])
    && (|ps| < n ==> sep !in ps[|ps| - 1])
  }

  /** An independent description of `splitn`: well-cut pieces that join
      back to `s`. */
  predicate IsSplitN(s: seq<u16>, n: nat, sep: u16, ps: seq<seq<u16>>)
  {
    WellCut(ps, n, sep) && Join(ps, sep) == s
  }

  /** `SplitN` meets that description. */
  lemma {:induction false} SplitNIsSplit(s: seq<u16>, n: nat, sep: u16)
    requires n >= 1
    ensures IsSplitN(s, n, sep, SplitN(s, n, sep))
    decreases n
  {
    if n > 1 {
      PositionIsFirst(s, sep);
      match Position(s, sep)
      case None =>
      case Some(i) =>
        SplitNIsSplit(s[i + 1..], n - 1, sep);
        IsSplitNAt(s, i, n, sep);
    }
  }

  /** The inductive step of `SplitNIsSplit`, at the first separator. */
  lemma IsSplitNAt(s: seq<u16>, i: nat, n: nat, sep: u16)
    requires Position(s, sep) == Some(i) && i < |s| && n >= 2
    requires IsSplitN(s[i + 1..], n - 1, sep, SplitN(s[i + 1..], n - 1, sep))
    ensures IsSplitN(s, n, sep, SplitN(s, n, sep))
  {
    PositionIsFirst(s, sep);
    SplitAround(s, i);
    IsSplitNCons(s[..i], sep, s[i + 1..], n, SplitN(s[i + 1..], n - 1, sep));
  }

  /** A separator-free head before a described rest gives a description
      with one more piece. */
  lemma IsSplitNCons(a: seq<u16>, sep: u16, b: seq<u16>, n: nat, tail: seq<seq<u16>>)
    requires sep !in a && n >= 2 && IsSplitN(b, n - 1, sep, tail)
    ensures IsSplitN(a + [sep] + b, n, sep, [a] + tail)
  {
    var ps := [a] + tail;
    assert ps[1..] == tail;
    JoinCons(a, tail, sep);
    forall k | 0 <= k < |ps| - 1 ensures sep !in ps[k] {
      if k > 0 { assert ps[k] == tail[k - 1]; }
    }
    assert |ps| < n ==> sep !in ps[|ps| - 1] by {
      if |ps| < n { assert ps[|ps| - 1] == tail[|tail| - 1]; }
    }
  }

  /** Joining lays a non-empty tail after the head and one separator. */
  lemma JoinCons(head: seq<u16>, tail: seq<seq<u16>>, sep: u16)
    requires tail != []
    ensures Join([head] + tail, sep) == head + [sep] + Join(tail, sep)
  {
    assert ([head] + tail)[1..] == tail;
  }

  /** The last piece ends the joined string. */
  lemma {:induction false} JoinEndsWithLast(ps: seq<seq<u16>>, sep: u16)
    requires ps != []
    ensures var j := Join(ps, sep); |ps[|ps| - 1]| <= |j| && j[|j| - |ps[|ps| - 1]|..] == ps[|ps| - 1]
  {
    if |ps| > 1 {
      JoinEndsWithLast(ps[1..], sep);
      assert ps[1..][|ps| - 2] == ps[|ps| - 1];
    }
  }

  /** Piece `k` exists only with at least `k` separators, and holds no
      separator unless it is the `n`-th. */
  lemma SplitNPiece(s: seq<u16>, n: nat, sep: u16, k: nat)
    requires n >= 1
    ensures var ps := SplitN(s, n, sep);
      && (k < |ps| ==> k <= Count(s, sep))
      && (k < |ps| && k < n - 1 ==> sep !in ps[k])
  {
    SplitNIsSplit(s, n, sep);
    SplitNLength(s, n, sep);
  }

  /** The last piece of `SplitN` ends the input. */
  lemma SplitNLastIsSuffix(s: seq<u16>, n: nat, sep: u16)
    requires n >= 1
    ensures var ps := SplitN(s, n, sep); var last := ps[|ps| - 1];
      |last| <= |s| && last == s[|s| - |last|..]
  {
    SplitNIsSplit(s, n, sep);
    JoinEndsWithLast(SplitN(s, n, sep), sep);
  }

  /** A head free of `sep` is split off as the first piece. */
  lemma SplitNCons(a: seq<u16>, sep: u16, b: seq<u16>, n: nat)
    requires sep !in a && n >= 2
    ensures SplitN(a + [sep] + b, n, sep) == [a] + SplitN(b, n - 1, sep)
  {
    var s := a + [sep] + b;
    PositionAfter(a, sep, b);
    assert s[..|a|] == a && s[|a| + 1..] == b;
  }

  /** Well-cut pieces without their head are well cut for one piece
      fewer, and the head holds no separator. */
  lemma WellCutTail(ps: seq<seq<u16>>, n: nat, sep: u16)
    requires WellCut(ps, n, sep) && |ps| >= 2
    ensures sep !in ps[0] && WellCut(ps[1..], n - 1, sep)
  {
    assert sep !in ps[0];
    forall k | 0 <= k < |ps[1..]| - 1 ensures sep !in ps[1..][k] {
      assert ps[1..][k] == ps[k + 1];
    }
  }

  /** `SplitN` undoes `Join` on well-cut pieces. */
  lemma {:induction false} SplitNJoin(ps: seq<seq<u16>>, n: nat, sep: u16)
    requires WellCut(ps, n, sep)
    ensures SplitN(Join(ps, sep), n, sep) == ps
    decreases n
  {
    if |ps| == 1 {
      SplitNJoinOne(ps, n, sep);
    } else {
      WellCutTail(ps, n, sep);
      SplitNJoin(ps[1..], n - 1, sep);
      SplitNJoinCons(ps, n, sep);
    }
  }

  /** The base case of `SplitNJoin`: one piece is kept whole. */
  lemma SplitNJoinOne(ps: seq<seq<u16>>, n: nat, sep: u16)
    requires WellCut(ps, n, sep) && |ps| == 1
    ensures SplitN(Join(ps, sep), n, sep) == ps
  {
    assert Join(ps, sep) == ps[0];
    if n > 1 { PositionIsFirst(ps[0], sep); }
    assert ps == [ps[0]];
  }

  /** The inductive step of `SplitNJoin`: a separator-free head joined
      before pieces `SplitN` recovers is split off again. */
  lemma SplitNJoinCons(ps: seq<seq<u16>>, n: nat, sep: u16)
    requires |ps| >= 2 && sep !in ps[0] && n >= 2
    requires SplitN(Join(ps[1..], sep), n - 1, sep) == ps[1..]
    ensures SplitN(Join(ps, sep), n, sep) == ps
  {
    HeadTail(ps);
    JoinCons(ps[0], ps[1..], sep);
    SplitNCons(ps[0], sep, Join(ps[1..], sep), n);
  }

  /** … and it is the only split that does: the description determines the
      pieces. */
  lemma SplitNUnique(s: seq<u16>, n: nat, sep: u16, ps: seq<seq<u16>>)
    requires IsSplitN(s, n, sep, ps)
    ensures ps == SplitN(s, n, sep)
  {
    SplitNJoin(ps, n, sep);
  }

  /** A non-empty sequence is its head followed by its tail. */
  lemma HeadTail(ps: seq<seq<u16>>)
    requires ps != []
    ensures ps == [ps[0]] + ps[1..]
  {
  }

  /** A separator after a separator-free head adds one to the count. */
  lemma CountCons(a: seq<u16>, sep: u16, b: seq<u16>)
    requires sep !in a
    ensures Count(a + [sep] + b, sep) == Count(b, sep) + 1
  {
    assert multiset(a)[sep] == 0;
    assert multiset(a + [sep] + b) == multiset(a) + multiset([sep]) + multiset(b);
  }

  /** With `k` separators, `splitn(n)` gives `min(k + 1, n)` pieces. */
  lemma {:induction false} SplitNLength(s: seq<u16>, n: nat, sep: u16)
    requires n >= 1
    ensures |SplitN(s, n, sep)| == if Count(s, sep) + 1 < n then Count(s, sep) + 1 else n
    decreases n
  {
    if n > 1 {
      PositionIsFirst(s, sep);
      match Position(s, sep)
      case None =>
        CountAbsent(s, sep);
      case Some(i) =>
        SplitNLength(s[i + 1..], n - 1, sep);
        SplitNLengthAt(s, i, n, sep);
    }
  }

  /** The inductive step of `SplitNLength`, at the first separator. */
  lemma SplitNLengthAt(s: seq<u16>, i: nat, n: nat, sep: u16)
    requires Position(s, sep) == Some(i) && i < |s| && n >= 2
    requires var b := s[i + 1..];
      |SplitN(b, n - 1, sep)| == if Count(b, sep) + 1 < n - 1 then Count(b, sep) + 1 else n - 1
    ensures |SplitN(s, n, sep)| == if Count(s, sep) + 1 < n then Count(s, sep) + 1 else n
  {
    PositionIsFirst(s, sep);
    CountAt(s, i, sep);
  }

  /** A sequence without `sep` counts none. */
  lemma CountAbsent(s: seq<u16>, sep: u16)
    requires sep !in s
    ensures Count(s, sep) == 0
  {
    assert multiset(s)[sep] == 0;
  }

  /** `CountCons` at the first separator of `s`. */
  lemma CountAt(s: seq<u16>, i: nat, sep: u16)
    requires i < |s| && s[i] == sep && sep !in s[..i]
    ensures Count(s, sep) == Count(s[i + 1..], sep) + 1
  {
    SplitAround(s, i);
    CountCons(s[..i], sep, s[i + 1..]);
  }

  /** `iter().skip(n).next()` over a list of pieces: the `n`-th one, when
      there are more than `n`. */
  function SkipNext<T>(s: seq<T>, n: nat): (r: Option<T>)
    ensures r.Some? <==> n < |s|
    ensures r.Some? ==> r.value == s[n]
    decreases n
  {
    if s == [] then None
    else if n == 0 then Some(s[0])
    else SkipNext(s[1..], n - 1)
  }

  /** e.g. `NcsiUwpApp_1000.19041.423.0_neutral_neutral_8wekyb3d8bbwe` */
  datatype PackageFullName = PackageFullName(w: WString)
  {
    /** The `n`-th piece of `splitn(5, '_')`, or empty when there is no
        such piece. */
    function Field(n: nat): (r: seq<u16>)
      ensures n >= MaxFields ==> r == []
      ensures n > Count(w.Units(), Underscore) ==> r == []
      ensures n < MaxFields - 1 ==> Underscore !in r
    {
      var ps := SplitN(w.Units(), MaxFields, Underscore);
      SplitNPiece(w.Units(), MaxFields, Underscore, n);
      SkipNext(ps, n).UnwrapOr([])
    }

    /** The pieces `splitn` yields, in order. */
    function Fields(): (ps: seq<seq<u16>>)
      ensures IsSplitN(w.Units(), MaxFields, Underscore, ps)
      ensures forall n :: 0 <= n < |ps| ==> Field(n) == ps[n]
    {
      SplitNIsSplit(w.Units(), MaxFields, Underscore);
      SplitN(w.Units(), MaxFields, Underscore)
    }

    /** Package `Name`: up to the first `'_'`. */
    function Name(): (r: seq<u16>)
      ensures Underscore !in r && r <= w.Units()
      ensures |r| < |w.Units()| ==> w.Units()[|r|] == Underscore
    {
      var ps := Fields();
      assert w.Units() == ps[0] || w.Units() == ps[0] + [Underscore] + Join(ps[1..], Underscore);
      Field(0)
    }

    /** Package `Version` */
    function Version(): (r: seq<u16>)
      ensures Underscore !in r
    {
      Field(1)
    }

    /** Package `Architecture` */
    function Architecture(): (r: seq<u16>)
      ensures Underscore !in r
    {
      Field(2)
    }

    /** The fourth field, of undocumented meaning (observed: empty,
        `neutral`, `split.scale-100`). */
    function Field4(): (r: seq<u16>)
      ensures Underscore !in r
    {
      Field(3)
    }

    /** Package `PublisherId`: everything after the fourth `'_'`, any
        further `'_'` included; empty with fewer than four. */
    function PublisherId(): (r: seq<u16>)
      ensures Count(w.Units(), Underscore) < MaxFields - 1 ==> r == []
      ensures |r| <= |w.Units()| && r == w.Units()[|w.Units()| - |r|..]
    {
      LastFieldIsSuffix();
      Field(4)
    }

    /** The fifth piece, when there is one, is the last, so it ends the
        name. */
    lemma LastFieldIsSuffix()
      ensures var u, r := w.Units(), Field(MaxFields - 1);
        |r| <= |u| && r == u[|u| - |r|..]
    {
      var ps := SplitN(w.Units(), MaxFields, Underscore);
      SplitNLastIsSuffix(w.Units(), MaxFields, Underscore);
      assert MaxFields - 1 < |ps| ==> ps[MaxFields - 1] == ps[|ps| - 1];
    }
  }

  /** `PackageFullName::from(&str)` */
  function FromStr(s: string): (p: PackageFullName)
    ensures p.w.Units() == EncodeUtf16(s)
  {
    PackageFullName(WideString.FromStr(s))
  }

  /** Five `'_'`-joined pieces, the first four free of `'_'`, are exactly
      what `splitn(5)` gives back; the last may hold `'_'` of its own. */
  lemma SplitFive(e0: seq<u16>, e1: seq<u16>, e2: seq<u16>, e3: seq<u16>, e4: seq<u16>)
    requires Underscore !in e0 && Underscore !in e1 && Underscore !in e2 && Underscore !in e3
    ensures var u := [Underscore];
      SplitN(e0 + u + e1 + u + e2 + u + e3 + u + e4, MaxFields, Underscore) == [e0, e1, e2, e3, e4]
  {
    var e := [e0, e1, e2, e3, e4];
    JoinFive(e0, e1, e2, e3, e4);
    assert IsSplitN(Join(e, Underscore), MaxFields, Underscore, e);
    SplitNUnique(Join(e, Underscore), MaxFields, Underscore, e);
  }

  lemma JoinFive(e0: seq<u16>, e1: seq<u16>, e2: seq<u16>, e3: seq<u16>, e4: seq<u16>)
    ensures var u := [Underscore];
      Join([e0, e1, e2, e3, e4], Underscore) == e0 + u + e1 + u + e2 + u + e3 + u + e4
  {
    var e := [e0, e1, e2, e3, e4];
    var u := [Underscore];
    JoinCons(e3, [e4], Underscore);
    assert [e3] + [e4] == e[3..];
    JoinCons(e2, e[3..], Underscore);
    assert [e2] + e[3..] == e[2..];
    JoinCons(e1, e[2..], Underscore);
    assert [e1] + e[2..] == e[1..];
    JoinCons(e0, e[1..], Underscore);
    assert [e0] + e[1..] == e;
  }

  /** Encoding `x + "_" + y` puts one `Underscore` unit between the parts. */
  lemma EncodeWithUnderscore(x: string, y: string)
    ensures EncodeUtf16(x + "_" + y) == EncodeUtf16(x) + [Underscore] + EncodeUtf16(y)
  {
    assert EncodeUtf16("_") == [Underscore];
    EncodeUtf16Append(x + "_", y);
    EncodeUtf16Append(x, "_");
  }

  /** Encoding five `'_'`-joined parts. */
  lemma EncodeFive(a0: string, a1: string, a2: string, a3: string, a4: string)
    ensures var u := [Underscore];
      EncodeUtf16(a0 + "_" + a1 + "_" + a2 + "_" + a3 + "_" + a4)
      == EncodeUtf16(a0) + u + EncodeUtf16(a1) + u + EncodeUtf16(a2) + u + EncodeUtf16(a3) + u + EncodeUtf16(a4)
  {
    EncodeWithUnderscore(a0, a1);
    EncodeWithUnderscore(a0 + "_" + a1, a2);
    EncodeWithUnderscore(a0 + "_" + a1 + "_" + a2, a3);
    EncodeWithUnderscore(a0 + "_" + a1 + "_" + a2 + "_" + a3, a4);
  }

  /** `FromStr` over five `'_'`-joined parts, the first four free of `'_'`,
      yields their encodings as the five fields. */
  lemma FromStrFive(a0: string, a1: string, a2: string, a3: string, a4: string)
    requires '_' !in a0 && '_' !in a1 && '_' !in a2 && '_' !in a3
    ensures FromStr(a0 + "_" + a1 + "_" + a2 + "_" + a3 + "_" + a4).Fields()
         == [EncodeUtf16(a0), EncodeUtf16(a1), EncodeUtf16(a2), EncodeUtf16(a3), EncodeUtf16(a4)]
  {
    var whole := a0 + "_" + a1 + "_" + a2 + "_" + a3 + "_" + a4;
    UnitsOfFive(whole, a0, a1, a2, a3, a4);
    EncodeUtf16Underscore(a0);
    EncodeUtf16Underscore(a1);
    EncodeUtf16Underscore(a2);
    EncodeUtf16Underscore(a3);
    FieldsOfFive(FromStr(whole), EncodeUtf16(a0), EncodeUtf16(a1), EncodeUtf16(a2), EncodeUtf16(a3), EncodeUtf16(a4));
  }

  /** The units of a name read from five `'_'`-joined parts. */
  lemma UnitsOfFive(whole: string, a0: string, a1: string, a2: string, a3: string, a4: string)
    requires whole == a0 + "_" + a1 + "_" + a2 + "_" + a3 + "_" + a4
    ensures var u := [Underscore];
      FromStr(whole).w.Units()
      == EncodeUtf16(a0) + u + EncodeUtf16(a1) + u + EncodeUtf16(a2) + u + EncodeUtf16(a3) + u + EncodeUtf16(a4)
  {
    EncodeFive(a0, a1, a2, a3, a4);
  }

  /** `SplitFive` for a name whose units are the five joined pieces. */
  lemma FieldsOfFive(p: PackageFullName, e0: seq<u16>, e1: seq<u16>, e2: seq<u16>, e3: seq<u16>, e4: seq<u16>)
    requires Underscore !in e0 && Underscore !in e1 && Underscore !in e2 && Underscore !in e3
    requires var u := [Underscore]; p.w.Units() == e0 + u + e1 + u + e2 + u + e3 + u + e4
    ensures p.Fields() == [e0, e1, e2, e3, e4]
  {
    SplitFive(e0, e1, e2, e3, e4);
  }

  /** The five accessors read the five pieces in order. */
  lemma AccessorsOfFields(p: PackageFullName, e0: seq<u16>, e1: seq<u16>, e2: seq<u16>, e3: seq<u16>, e4: seq<u16>)
    requires p.Fields() == [e0, e1, e2, e3, e4]
    ensures p.Name() == e0 && p.Version() == e1 && p.Architecture() == e2
    ensures p.Field4() == e3 && p.PublisherId() == e4
  {
  }

  /** `NcsiUwpApp_1000.19041.423.0_neutral_neutral_8wekyb3d8bbwe`, written
      as its five parts. */
  lemma TestVectorNcsi()
    ensures var p := FromStr("NcsiUwpApp" + "_" + "1000.19041.423.0" + "_" + "neutral" + "_" + "neutral" + "_" + "8wekyb3d8bbwe");
      && p.Name() == EncodeUtf16("NcsiUwpApp")
      && p.Version() == EncodeUtf16("1000.19041.423.0")
      && p.Architecture() == EncodeUtf16("neutral")
      && p.Field4() == EncodeUtf16("neutral")
      && p.PublisherId() == EncodeUtf16("8wekyb3d8bbwe")
  {
    var p := FromStr("NcsiUwpApp" + "_" + "1000.19041.423.0" + "_" + "neutral" + "_" + "neutral" + "_" + "8wekyb3d8bbwe");
    FromStrFive("NcsiUwpApp", "1000.19041.423.0", "neutral", "neutral", "8wekyb3d8bbwe");
    AccessorsOfFields(p, EncodeUtf16("NcsiUwpApp"), EncodeUtf16("1000.19041.423.0"), EncodeUtf16("neutral"),
                      EncodeUtf16("neutral"), EncodeUtf16("8wekyb3d8bbwe"));
  }

  /** `CanonicalGroupLimited.UbuntuonWindows_2004.2020.812.0_x64__79rhkp1fndgsc`:
      the adjacent separators give an empty fourth field. */
  lemma TestVectorUbuntu()
    ensures var p := FromStr("CanonicalGroupLimited.UbuntuonWindows" + "_" + "2004.2020.812.0" + "_" + "x64" + "_" + "" + "_" + "79rhkp1fndgsc");
      && p.Name() == EncodeUtf16("CanonicalGroupLimited.UbuntuonWindows")
      && p.Version() == EncodeUtf16("2004.2020.812.0")
      && p.Architecture() == EncodeUtf16("x64")
      && p.Field4() == []
      && p.PublisherId() == EncodeUtf16("79rhkp1fndgsc")
  {
    var p := FromStr("CanonicalGroupLimited.UbuntuonWindows" + "_" + "2004.2020.812.0" + "_" + "x64" + "_" + "" + "_" + "79rhkp1fndgsc");
    FromStrFive("CanonicalGroupLimited.UbuntuonWindows", "2004.2020.812.0", "x64", "", "79rhkp1fndgsc");
    AccessorsOfFields(p, EncodeUtf16("CanonicalGroupLimited.UbuntuonWindows"), EncodeUtf16("2004.2020.812.0"),
                      EncodeUtf16("x64"), EncodeUtf16(""), EncodeUtf16("79rhkp1fndgsc"));
  }

  /** Further separators stay in the publisher id. */
  lemma PublisherIdAbsorbsRest(a0: string, a1: string, a2: string, a3: string, a4: string)
    requires '_' !in a0 && '_' !in a1 && '_' !in a2 && '_' !in a3 && '_' in a4
    ensures var p := FromStr(a0 + "_" + a1 + "_" + a2 + "_" + a3 + "_" + a4);
      p.PublisherId() == EncodeUtf16(a4) && Underscore in p.PublisherId()
  {
    FromStrFive(a0, a1, a2, a3, a4);
    EncodeUtf16Underscore(a4);
  }
}
