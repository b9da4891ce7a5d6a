/** A wide, UTF-16-ish string whose backing buffer is either empty or ends
    with a `0` terminator (src/wstring.rs). */
module WideString {
  import opened Wrappers
  import opened Build

  /** A UTF-16 code unit. */
  newtype u16 = x: int | 0 <= x < 0x1_0000

  /** `iter().position(|&cu| cu == x)` on a code-unit slice: the index of
      the first `x`, if any. */
  function Position(s: seq<u16>, x: u16): (r: Option<nat>)
  {
    if s == [] then None
    else if s[0] == x then Some(0)
    else
      match Position(s[1..], x)
      case None => None
      case Some(i) => Some(i + 1)
  }

  /** `Position` finds the first occurrence: none exactly when `x` is
      absent, otherwise an index holding `x` with no `x` before it. */
  lemma {:induction false} PositionIsFirst(s: seq<u16>, x: u16)
    ensures Position(s, x).None? <==> x !in s
    ensures Position(s, x).Some? ==>
      var i := Position(s, x).value; i < |s| && s[i] == x && x !in s[..i]
    decreases |s|
  {
    if s != [] && s[0] != x {
      PositionIsFirst(s[1..], x);
      match Position(s[1..], x)
      case None =>
      case Some(i) =>
        assert s[..i + 1] == [s[0]] + s[1..][..i];
    }
  }

  /** A sequence is the part before index `i`, its element at `i`, and the
      part after. */
  lemma SplitAround(s: seq<u16>, i: nat)
    requires i < |s|
    ensures s == s[..i] + [s[i]] + s[i + 1..]
  {
  }

  /** The first `x` of `a + [x] + b` is the one after `a` when `a` has none. */
  lemma {:induction false} PositionAfter(a: seq<u16>, x: u16, b: seq<u16>)
    requires x !in a
    ensures Position(a + [x] + b, x) == Some(|a|)
    decreases |a|
  {
    if a != [] {
      assert a[0] != x;
      assert (a + [x] + b)[1..] == a[1..] + [x] + b;
      PositionAfter(a[1..], x, b);
    }
  }

  /** The `'_'` code unit that separates the fields of identity strings. */
  const Underscore: u16 := 0x5F

  /** The one invariant of the backing buffer: empty, or `0`-terminated. */
  predicate EmptyOr0Terminated(buf: seq<u16>)
  {
    buf == [] || buf[|buf| - 1] == 0
  }

  /** A buffer that satisfies the invariant. The subset type is the only way
      to build a `WString`, so no other code can break the invariant. */
  type ValidCore = c: WStringCore | c.Valid() witness WStringCore([])

  /** The private core whose single field holds the terminated buffer. */
  datatype WStringCore = WStringCore(buffer: seq<u16>)
  {
    predicate Valid() { EmptyOr0Terminated(buffer) }

    /** Construction: the terminator is appended only to a non-empty input. */
    static function FromCodeUnitsVec(src: seq<u16>): (c: ValidCore)
      ensures src == [] ==> c.buffer == []
      ensures src != [] ==> |c.buffer| == |src| + 1 && c.buffer[..|src|] == src
    {
      if src != [] then WStringCore(src + [0]) else WStringCore(src)
    }

    /** The units including the terminator; the empty buffer reads as `[0]`. */
    function Units0(): (r: seq<u16>)
      requires Valid()
      ensures |r| > 0 && r[|r| - 1] == 0
      ensures buffer == [] ==> r == [0]
      ensures buffer != [] ==> r == buffer
    {
      if buffer != [] then buffer else [0]
    }
  }

  /** The public string type: a wrapper around a valid core. */
  datatype WString = WString(core: ValidCore)
  {
    /** Builds a string from code units; an implicit `0` is added. */
    static function FromCodeUnitsVec(src: seq<u16>): (w: WString)
      ensures w.Units() == src
      ensures src == [] ==> w.Units0() == [0]
      ensures src != [] ==> w.Units0() == src + [0]
    {
      WString(WStringCore.FromCodeUnitsVec(src))
    }

    /** The units including the terminator. */
    function Units0(): (r: seq<u16>)
      ensures |r| > 0 && r[|r| - 1] == 0
    {
      core.Units0()
    }

    /** The units without the terminator: `Units0` minus its last element. */
    function Units(): (r: seq<u16>)
      ensures Units0() == r + [0]
    {
      var buf := Units0(); buf[..|buf| - 1]
    }

    /** Length without the terminator. */
    function Len(): (r: nat)
      ensures r + 1 == |Units0()|
    {
      |Units()|
    }

    /** Length including the terminator. */
    function Len0(): (r: nat)
      ensures r == Len() + 1
    {
      |Units0()|
    }
  }

  /** The default (empty) string, as `#[derive(Default)]` builds it. */
  const Empty: WString := WString(WStringCore([]))

  /** `str::encode_utf16`: a code point below U+10000 is one unit, anything
      above is a surrogate pair. */
  function EncodeUtf16(s: string): (r: seq<u16>)
    ensures |r| >= |s|
  {
    if s == [] then [] else EncodeChar(s[0]) + EncodeUtf16(s[1..])
  }

  /** One character as one unit, or as a surrogate pair above U+FFFF. */
  function EncodeChar(ch: char): (r: seq<u16>)
    ensures 1 <= |r| <= 2
    ensures ch as int < 0x1_0000 ==> r == [ch as int as u16]
    ensures ch as int >= 0x1_0000 ==> |r| == 2 && 0xD800 <= r[0] < 0xDC00 <= r[1] < 0xE000
  {
    var c := ch as int;
    if c < 0x1_0000 then [c as u16]
    else [(0xD800 + (c - 0x1_0000) / 0x400) as u16, (0xDC00 + (c - 0x1_0000) % 0x400) as u16]
  }

  /** `WString::from(&str)`. */
  function FromStr(s: string): (w: WString)
    ensures w.Units() == EncodeUtf16(s)
  {
    WString.FromCodeUnitsVec(EncodeUtf16(s))
  }

  /** The empty input gives exactly one terminator and no units. */
  lemma EmptyInputViews()
    ensures WString.FromCodeUnitsVec([]).Units0() == [0]
    ensures WString.FromCodeUnitsVec([]).Units() == []
    ensures WString.FromCodeUnitsVec([]) == Empty
  {
  }

  /** Encoding distributes over concatenation. */
  lemma {:induction false} EncodeUtf16Append(a: string, b: string)
    ensures EncodeUtf16(a + b) == EncodeUtf16(a) + EncodeUtf16(b)
  {
    if a == [] {
      assert a + b == b;
    } else {
      assert (a + b)[0] == a[0];
      assert (a + b)[1..] == a[1..] + b;
      EncodeUtf16Append(a[1..], b);
    }
  }

  /** A code unit `'_'` comes only from a `'_'` character: every other
      character encodes to different units. */
  lemma {:induction false} EncodeUtf16Underscore(s: string)
    ensures Underscore in EncodeUtf16(s) <==> '_' in s
  {
    if s != [] {
      EncodeUtf16Underscore(s[1..]);
      assert s == [s[0]] + s[1..];
    }
  }

  /** `to_os_string` as written, up to the text decoding: the units handed
      to the platform conversion. The Windows build passes `units()`; the
      other build passes `units0()`, terminator included. */
  function OsStringUnitsAsWritten(platform: Platform, w: WString): (r: seq<u16>)
    ensures platform == Windows ==> r == w.Units()
    ensures platform == NotWindows ==> r == w.Units() + [0]
  {
    match platform
    case Windows => w.Units()
    case NotWindows => w.Units0()
  }

  /** The non-Windows conversion carries a `0` the string does not hold:
      even the empty string converts to one NUL character. */
  lemma OsStringKeepsTerminator(w: WString)
    ensures OsStringUnitsAsWritten(NotWindows, w) != w.Units()
    ensures OsStringUnitsAsWritten(NotWindows, Empty) == [0]
  {
    assert |OsStringUnitsAsWritten(NotWindows, w)| == |w.Units()| + 1;
  }

  /** The conversion as evidently intended: both builds hand over
      `units()`. */
  function OsStringUnits(w: WString): (r: seq<u16>)
    ensures r + [0] == w.Units0()
  {
    w.Units()
  }

  /** With the intended conversion a string built from `v` converts back
      from exactly `v`, and the conversion is what the Windows build already
      does. */
  lemma OsStringUnitsRoundTrip(v: seq<u16>)
    ensures OsStringUnits(WString.FromCodeUnitsVec(v)) == v
    ensures OsStringUnits(WString.FromCodeUnitsVec(v)) == OsStringUnitsAsWritten(Windows, WString.FromCodeUnitsVec(v))
  {
  }
}
