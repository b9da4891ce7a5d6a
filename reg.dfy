/** The registry layer (src/reg.rs): opening keys, enumerating child
    names into a fixed name buffer, reading typed values, and the
    non-Windows stubs. The Win32 calls themselves are an oracle: a `Native`
    value says which status (and length) each call reports. */
module Reg {
  import opened Wrappers
  import opened WideString
  import opened Build

  newtype u32 = x: int | 0 <= x < 0x1_0000_0000
  newtype u64 = x: int | 0 <= x < 0x1_0000_0000_0000_0000

  /** Win32 status codes the layer distinguishes. */
  const ERROR_SUCCESS: u32 := 0
  const ERROR_NO_MORE_ITEMS: u32 := 259

  /** `io::Error`: a raw OS status, or an `ErrorKind::Other` with a message. */
  datatype IoError = Os(code: u32) | Other(message: string)

  const NotImplemented: string := "registry not implemented on this platform"
  const TooMuchData: string := "RegGetValueW cannot read that much data"

  /** An `HKEY`: opaque to the model. */
  type Hkey = nat

  /** The five predefined roots (`Key::hkcr` … `Key::hku`). */
  datatype Root = ClassesRoot | CurrentConfig | CurrentUser | LocalMachine | Users

  /** The winapi value of each predefined root handle. */
  function RootHkey(root: Root): Hkey
  {
    match root
    case ClassesRoot => 0x8000_0000
    case CurrentUser => 0x8000_0001
    case LocalMachine => 0x8000_0002
    case Users => 0x8000_0003
    case CurrentConfig => 0x8000_0005
  }

  /** Longest key name (255) plus the terminator. */
  const NameCapacity: nat := 255 + 1

  /** What `RegOpenKeyExW` reports: a status and, on success, the handle. */
  datatype OpenReply = OpenReply(status: u32, hkey: Hkey)

  /** What `RegEnumKeyExW` reports for a 256-unit buffer: a status, the
      units it writes from the start of the buffer, and the updated length
      (the name length without its terminator). The Win32 contract keeps
      both within the buffer. */
  datatype RawEnumReply = RawEnumReply(status: u32, written: seq<u16>, len: u32)
  type EnumReply = r: RawEnumReply | |r.written| <= NameCapacity && r.len as int <= NameCapacity
    witness RawEnumReply(ERROR_NO_MORE_ITEMS, [], 0)

  /** The registry as the operating system answers it. */
  datatype Native = Native(open: (Hkey, seq<u16>) -> OpenReply, enumKey: (Hkey, u32) -> EnumReply)

  /** What one `RegGetValueW` call does: a status, the elements it writes
      from the start of `data`, and the byte count it reports. */
  datatype ValueReply<T> = ValueReply(status: u32, written: seq<T>, len: u32)

  /** The reply respects the Win32 contract for a buffer of `count`
      elements of `elemSize` bytes: it writes inside the buffer and, on
      success, reports no more bytes than the buffer holds. */
  predicate ReplyFits<T>(reply: ValueReply<T>, count: nat, elemSize: nat)
  {
    |reply.written| <= count && (reply.status == ERROR_SUCCESS ==> reply.len as int <= count * elemSize)
  }

  /** What the system call writes into a caller's buffer: `written` over
      its first elements, the rest as it was. */
  method CopyInto<T>(data: array<T>, written: seq<T>)
    requires |written| <= data.Length
    modifies data
    ensures data[..] == Fill(old(data[..]), written)
  {
    ghost var before := data[..];
    forall i | 0 <= i < |written| {
      data[i] := written[i];
    }
    assert data[..] == Fill(before, written);
  }

  /** The whole elements covering the first `len` bytes of a buffer of
      `elemSize`-byte elements. */
  function ReadBack<T>(buf: seq<T>, len: nat, elemSize: nat): (r: seq<T>)
    requires elemSize > 0 && len <= |buf| * elemSize
    ensures |r| == len / elemSize <= |buf|
    ensures r == buf[..|r|]
  {
    DivBound(len, |buf|, elemSize);
    buf[..len / elemSize]
  }

  /** `v.last() == Some(&0)`: the check every path and value name must pass. */
  predicate EndsWith0(v: seq<u16>)
    ensures EndsWith0(v) <==> |v| > 0 && v == v[..|v| - 1] + [0]
  {
    |v| > 0 && v[|v| - 1] == 0
  }

  /** `buf` after writing `written` over its start. */
  function Fill<T>(buf: seq<T>, written: seq<T>): (r: seq<T>)
    requires |written| <= |buf|
    ensures |r| == |buf|
    ensures forall i :: 0 <= i < |written| ==> r[i] == written[i]
    ensures forall i :: |written| <= i < |buf| ==> r[i] == buf[i]
  {
    written + buf[|written|..]
  }

  /** `NameBuffer`: a fixed buffer of 256 code units that
      `RegEnumKeyExW` fills in place. */
  class NameBuffer {
    const units: array<u16>

    ghost predicate Valid()
    {
      units.Length == NameCapacity
    }

    /** `NameBuffer::default()`: 256 zeros. */
    constructor ()
      ensures Valid() && fresh(units)
      ensures units[..] == DefaultName
    {
      units := new u16[NameCapacity](_ => 0);
      new;
      assert units[..] == DefaultName;
    }

    /** `NameBuffer::len`: the capacity handed to `RegEnumKeyExW`. */
    function Len(): (r: u32)
      requires Valid()
      ensures r as int == units.Length == 255 + 1
    {
      255 + 1
    }
  }

  /** The contents of a default name buffer. */
  const DefaultName: seq<u16> := seq(NameCapacity, _ => 0)

  /** `open_ex_w_impl`: on Windows the result of `RegOpenKeyExW`, a key on
      `ERROR_SUCCESS` and the raw status otherwise; elsewhere always the
      "not implemented" error. A path without its terminator makes the
      Windows build panic, hence the precondition. */
  function OpenExWImpl(platform: Platform, native: Native, hkey: Hkey, subKey: seq<u16>): (r: Result<Key, IoError>)
    requires platform == Windows ==> EndsWith0(subKey)
    ensures platform == NotWindows ==> r == Err(Other(NotImplemented))
    ensures platform == Windows ==>
      var reply := native.open(hkey, subKey);
      && (r.Ok? <==> reply.status == ERROR_SUCCESS)
      && (r.Ok? ==> r.value.hkey == reply.hkey)
      && (r.Err? ==> r.error == Os(reply.status))
  {
    match platform
    case NotWindows => Err(Other(NotImplemented))
    case Windows =>
      var reply := native.open(hkey, subKey);
      if reply.status == ERROR_SUCCESS then Ok(Key(reply.hkey)) else Err(Os(reply.status))
  }

  /** `Key::hkcr`, `hkcc`, `hkcu`, `hklm`, `hku`: open `subKey` under a
      predefined root. */
  function OpenRoot(platform: Platform, native: Native, root: Root, subKey: seq<u16>): (r: Result<Key, IoError>)
    requires platform == Windows ==> EndsWith0(subKey)
    ensures r.Ok? <==> platform == Windows && native.open(RootHkey(root), subKey).status == ERROR_SUCCESS
    ensures r.Ok? ==> r.value.hkey == native.open(RootHkey(root), subKey).hkey
    ensures platform == Windows && r.Err? ==> r.error == Os(native.open(RootHkey(root), subKey).status)
    ensures platform == NotWindows ==> r == Err(Other(NotImplemented))
  {
    OpenExWImpl(platform, native, RootHkey(root), subKey)
  }

  /** `Key::trim_u16`: drop one trailing `0`, if there is one. */
  function TrimU16(v: seq<u16>): (r: seq<u16>)
    ensures EndsWith0(v) ==> r + [0] == v
    ensures !EndsWith0(v) ==> r == v
  {
    if !EndsWith0(v) then v else v[..|v| - 1]
  }

  /** The value `enum_key_w_impl` returns once the buffer holds `buf`:
      the first `len` units on success, nothing on `ERROR_NO_MORE_ITEMS`,
      the status as an error otherwise. */
  function EnumOutcome(reply: EnumReply, buf: seq<u16>): (r: Result<Option<seq<u16>>, IoError>)
    requires |buf| == NameCapacity
    ensures r == Ok(None) <==> reply.status == ERROR_NO_MORE_ITEMS
    ensures r.Ok? && r.value.Some? <==> reply.status == ERROR_SUCCESS
    ensures r.Ok? && r.value.Some? ==> r.value.value == buf[..reply.len] && |r.value.value| <= NameCapacity
    ensures r.Err? ==> r.error == Os(reply.status)
  {
    if reply.status == ERROR_SUCCESS then Ok(Some(buf[..reply.len]))
    else if reply.status == ERROR_NO_MORE_ITEMS then Ok(None)
    else Err(Os(reply.status))
  }

  /** What `enum_key_w` at `index` returns when handed a default buffer. */
  function EnumName(native: Native, key: Key, index: u32): (r: Result<Option<seq<u16>>, IoError>)
    ensures var reply := native.enumKey(key.hkey, index);
      && (r == Ok(None) <==> reply.status == ERROR_NO_MORE_ITEMS)
      && (r.Ok? && r.value.Some? <==> reply.status == ERROR_SUCCESS)
      && (r.Err? ==> r.error == Os(reply.status))
    ensures r.Ok? && r.value.Some? ==> |r.value.value| == native.enumKey(key.hkey, index).len as int
  {
    var reply := native.enumKey(key.hkey, index);
    EnumOutcome(reply, Fill(DefaultName, reply.written))
  }

  /** A name `EnumName` yields is the units the call wrote, followed by the
      zeros the default buffer held wherever the reported length reaches
      past them. */
  lemma EnumNameUnits(native: Native, key: Key, index: u32)
    requires EnumName(native, key, index).Ok? && EnumName(native, key, index).value.Some?
    ensures var reply := native.enumKey(key.hkey, index);
      var name := EnumName(native, key, index).value.value;
      forall i :: 0 <= i < |name| ==> name[i] == if i < |reply.written| then reply.written[i] else 0
  {
  }

  /** `Key`: the owner of one open `HKEY`. */
  datatype Key = Key(hkey: Hkey)
  {
    /** `Key::subkey` */
    function Subkey(platform: Platform, native: Native, subKey: seq<u16>): (r: Result<Key, IoError>)
      requires platform == Windows ==> EndsWith0(subKey)
      ensures r.Ok? <==> platform == Windows && native.open(hkey, subKey).status == ERROR_SUCCESS
      ensures r.Ok? ==> r.value.hkey == native.open(hkey, subKey).hkey
      ensures platform == Windows && r.Err? ==> r.error == Os(native.open(hkey, subKey).status)
      ensures platform == NotWindows ==> r == Err(Other(NotImplemented))
    {
      OpenExWImpl(platform, native, hkey, subKey)
    }

    /** `enum_key_w_impl`: `RegEnumKeyExW` fills `name` in place, then the
        status picks the result. Elsewhere than Windows the buffer is left
        alone and the call fails. */
    method EnumKeyW(platform: Platform, native: Native, index: u32, name: NameBuffer)
      returns (r: Result<Option<seq<u16>>, IoError>)
      requires name.Valid()
      modifies name.units
      ensures platform == NotWindows ==> r == Err(Other(NotImplemented)) && unchanged(name.units)
      ensures platform == Windows ==>
        var reply := native.enumKey(hkey, index);
        && name.units[..] == Fill(old(name.units[..]), reply.written)
        && r == EnumOutcome(reply, name.units[..])
    {
      if platform == NotWindows {
        return Err(Other(NotImplemented));
      }
      var len := name.Len();
      var reply := native.enumKey(hkey, index);
      CopyInto(name.units, reply.written);
      len := reply.len;
      if reply.status == ERROR_SUCCESS {
        r := Ok(Some(name.units[..len]));
      } else if reply.status == ERROR_NO_MORE_ITEMS {
        r := Ok(None);
      } else {
        r := Err(Os(reply.status));
      }
    }

    /** `get_value_w_impl`: checks the terminators, refuses a buffer whose
        byte size does not fit in a `u32`, lets `RegGetValueW` fill `data`
        in place, and on success returns the prefix of `data` covering the
        reported bytes. */
    method GetValueW<T>(platform: Platform, subKey: Option<seq<u16>>, value: Option<seq<u16>>,
                        data: array<T>, elemSize: nat, reply: ValueReply<T>)
      returns (r: Result<seq<T>, IoError>)
      requires elemSize > 0
      requires platform == Windows ==> (subKey.Some? ==> EndsWith0(subKey.value)) && (value.Some? ==> EndsWith0(value.value))
      requires ReplyFits(reply, data.Length, elemSize)
      modifies data
      ensures platform == NotWindows ==> r == Err(Other(NotImplemented)) && unchanged(data)
      ensures platform == Windows && data.Length * elemSize >= 0x1_0000_0000 ==>
        r == Err(Other(TooMuchData)) && unchanged(data)
      ensures platform == Windows && data.Length * elemSize < 0x1_0000_0000 ==>
        && data[..] == Fill(old(data[..]), reply.written)
        && (reply.status == ERROR_SUCCESS ==> r == Ok(ReadBack(data[..], reply.len as int, elemSize)))
        && (reply.status != ERROR_SUCCESS ==> r == Err(Os(reply.status)))
      ensures r.Ok? ==> |r.value| <= data.Length
    {
      if platform == NotWindows {
        return Err(Other(NotImplemented));
      }
      var size := data.Length * elemSize;
      if size >= 0x1_0000_0000 {
        return Err(Other(TooMuchData));
      }
      CopyInto(data, reply.written);
      var len := reply.len;
      if reply.status == ERROR_SUCCESS {
        r := Ok(ReadBack(data[..], len as int, elemSize));
      } else {
        r := Err(Os(reply.status));
      }
    }

    /** `get_value_dword`: one `u32`, read back after the call. */
    method GetValueDword(platform: Platform, subKey: Option<seq<u16>>, value: Option<seq<u16>>, reply: ValueReply<u32>)
      returns (r: Result<u32, IoError>)
      requires platform == Windows ==> (subKey.Some? ==> EndsWith0(subKey.value)) && (value.Some? ==> EndsWith0(value.value))
      requires ReplyFits(reply, 1, 4)
      ensures platform == NotWindows ==> r == Err(Other(NotImplemented))
      ensures platform == Windows && reply.status != ERROR_SUCCESS ==> r == Err(Os(reply.status))
      ensures platform == Windows && reply.status == ERROR_SUCCESS ==>
        r == Ok(if reply.written == [] then 0 else reply.written[0])
    {
      var data := new u32[1](_ => 0);
      var got := GetValueW(platform, subKey, value, data, 4, reply);
      if got.Err? {
        return Err(got.error);
      }
      r := Ok(data[0]);
    }

    /** `get_value_qword`: one `u64`, read back after the call. */
    method GetValueQword(platform: Platform, subKey: Option<seq<u16>>, value: Option<seq<u16>>, reply: ValueReply<u64>)
      returns (r: Result<u64, IoError>)
      requires platform == Windows ==> (subKey.Some? ==> EndsWith0(subKey.value)) && (value.Some? ==> EndsWith0(value.value))
      requires ReplyFits(reply, 1, 8)
      ensures platform == NotWindows ==> r == Err(Other(NotImplemented))
      ensures platform == Windows && reply.status != ERROR_SUCCESS ==> r == Err(Os(reply.status))
      ensures platform == Windows && reply.status == ERROR_SUCCESS ==>
        r == Ok(if reply.written == [] then 0 else reply.written[0])
    {
      var data := new u64[1](_ => 0);
      var got := GetValueW(platform, subKey, value, data, 8, reply);
      if got.Err? {
        return Err(got.error);
      }
      r := Ok(data[0]);
    }

    /** `get_value_string` up to the text conversion: the units read into
        `buf`, with one trailing terminator trimmed. */
    method GetValueString(platform: Platform, subKey: Option<seq<u16>>, value: Option<seq<u16>>,
                          buf: array<u16>, reply: ValueReply<u16>)
      returns (r: Result<seq<u16>, IoError>)
      requires platform == Windows ==> (subKey.Some? ==> EndsWith0(subKey.value)) && (value.Some? ==> EndsWith0(value.value))
      requires ReplyFits(reply, buf.Length, 2)
      modifies buf
      ensures platform == NotWindows ==> r == Err(Other(NotImplemented)) && unchanged(buf)
      ensures platform == Windows && buf.Length * 2 >= 0x1_0000_0000 ==>
        r == Err(Other(TooMuchData)) && unchanged(buf)
      ensures platform == Windows && buf.Length * 2 < 0x1_0000_0000 ==>
        && buf[..] == Fill(old(buf[..]), reply.written)
        && (reply.status == ERROR_SUCCESS ==> r == Ok(TrimU16(ReadBack(buf[..], reply.len as int, 2))))
        && (reply.status != ERROR_SUCCESS ==> r == Err(Os(reply.status)))
      ensures r.Ok? ==> |r.value| <= buf.Length
    {
      var got := GetValueW(platform, subKey, value, buf, 2, reply);
      if got.Err? {
        return Err(got.error);
      }
      r := Ok(TrimU16(got.value));
    }
  }

  /** A byte count within `count` elements of `size` bytes covers at most
      `count` elements. */
  lemma DivBound(len: nat, count: nat, size: nat)
    requires size > 0 && len <= count * size
    ensures len / size <= count
  {
    var q := len / size;
    assert q * size <= len;
    assert (q - count) * size <= 0;
  }

  /** Trimming the terminated view of a string gives back its units:
      `trim_u16` undoes exactly the terminator `WString` adds. */
  lemma TrimUnits0(w: WString)
    ensures TrimU16(w.Units0()) == w.Units()
  {
  }

  /** Only one terminator goes: a second trailing `0` is kept. */
  lemma TrimOnlyOne(v: seq<u16>)
    ensures TrimU16(v + [0, 0]) == v + [0]
  {
    assert (v + [0, 0])[..|v| + 1] == v + [0];
  }
}
