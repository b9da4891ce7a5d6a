# appx: a Dafny model of the package-repository core

The `appx` crate reads the Windows AppModel package repository. The
repository lives under
`HKEY_CLASSES_ROOT\Local Settings\Software\Microsoft\Windows\CurrentVersion\AppModel\Repository`.
The crate lists the installed package families and full packages and checks
whether a given one is present. This project models the four parts of the
crate that do not depend on the operating system, and proves what they promise:

- `WString` (src/wstring.rs) is a buffer of UTF-16 code units. Its backing
  vector is always empty or ends with `0`. It offers two views: `units`,
  without the terminator, and `units0`, which includes it. The buffer
  invariant is a subset type (`WideString.ValidCore`), so it holds for every
  `WString` value the model can build. The proved facts are the two views,
  the round trip from input to `units`, and `len0 == len + 1`.
- `PackageFamilyName`, the `Name_PublisherId` format (src/family.rs). It is
  split at the first `'_'`.
- `PackageFullName`, the `Name_Version_Architecture_Field4_PublisherId`
  format (src/package.rs). It follows `slice::splitn(5, '_')`. `Package.IsSplitN`
  is an independent description of `splitn`: at most `n` pieces that join
  back to the input, with no separator in any piece but the last.
  `Package.SplitN` meets this description, and it is the only result that
  does.
- The registry glue (src/reg.rs) and the repository (src/repository.rs):
  - the terminator checks;
  - the status-to-result mapping of `open_ex_w_impl`, `enum_key_w_impl` and
    `get_value_w_impl`;
  - the fixed 256-unit `NameBuffer`;
  - `trim_u16`;
  - the non-Windows stubs;
  - the `FamiliesIter`/`PackagesIter` state machines;
  - `has_family`/`has_package`.

Modules follow the source files: `Wrappers` (Option/Result), `Build` (the
`cfg(windows)` switch as a `Platform` value), `WideString`, `Family`,
`Package`, `Reg`, `Repository`.

The Win32 calls are foreign code, so they become an oracle:
- `Reg.Native` holds two total functions. One gives the status and handle
  `RegOpenKeyExW` reports for a handle and a path. The other gives the status,
  the units written and the length `RegEnumKeyExW` reports for a handle and an
  index.
- `get_value_w_impl` is generic in the element type `T`, so each call to it takes a
  `Reg.ValueReply` argument instead. That reply holds the status, the elements
  written into the caller's buffer and the reported byte count.
- The buffers the native calls fill in place are Dafny arrays. `NameBuffer`
  is a class with a 256-element array, and `get_value_w_impl`'s `data` is an
  `array<T>`. The methods state the whole new contents of those arrays.

The iterators are classes with a `key` and a mutable `index`. Each `Next` is
specified against `Reg.EnumName`, which is what `enum_key_w` returns for a
fresh default buffer. A key is treated as a static snapshot when it lists
`children` and then reports no more items (`Repository.ListsChildren`).
`CollectFamilies` and `CollectPackages` drain an iterator over such a key,
the way a `for … in families()` loop does. They prove that the items come out
as the children in order and that the iterator then stops.

## Model

| member | source | states |
|---|---|---|
| `WideString.WStringCore.FromCodeUnitsVec` | src/wstring.rs:124-128 | the result satisfies the buffer invariant; an empty input stays empty, a non-empty one gets exactly one `0` after its content |
| `WideString.WStringCore.Units0` | src/wstring.rs:131-140 | the terminated view is never empty and ends with `0`; for the empty buffer it is exactly `[0]`, otherwise the buffer itself |
| `WideString.WString.FromCodeUnitsVec` | src/wstring.rs:39 | round trip: `units()` of the result is the input, interior zeros included; `units0()` is `[0]` for empty input and `v + [0]` otherwise |
| `WideString.WString.Units0` | src/wstring.rs:45 | `units0()` of the public type is never empty and ends with the `0` terminator |
| `WideString.WString.Units` | src/wstring.rs:42 | `units()` is `units0()` with exactly its last element (the terminator) removed |
| `WideString.WString.Len` | src/wstring.rs:48 | `len()` is one less than the length of `units0()` |
| `WideString.WString.Len0` | src/wstring.rs:51 | `len0() == len() + 1` for every string, the empty one included |
| `WideString.EmptyInputViews` | src/wstring.rs:131-140 | the empty input gives `units0() == [0]`, `units() == []`, and equals the default string |
| `WideString.FromStr` | src/wstring.rs:83 | `WString::from(&str)` holds the UTF-16 encoding of the text as its units |
| `WideString.EncodeChar` | src/wstring.rs:83 | a character below U+10000 is the one unit holding its value; any other is two units, a high surrogate followed by a low one |
| `WideString.EncodeUtf16` | src/wstring.rs:83 | the encoding has at least one unit per character |
| `WideString.EncodeUtf16Append` | src/wstring.rs:83 | encoding a concatenation is the concatenation of the encodings |
| `WideString.EncodeUtf16Underscore` | src/wstring.rs:83 | the encoding of a text contains the `'_'` unit exactly when the text contains `'_'` |
| `WideString.Position` | src/family.rs:53 | `iter().position`; its contract is stated by `PositionIsFirst`, next row: `None` iff `x` is absent, otherwise the first index holding `x` |
| `WideString.PositionIsFirst` | src/family.rs:53 | `position` finds the first occurrence: `None` iff absent, otherwise an index holding `x` with no `x` before it |
| `WideString.PositionAfter` | src/family.rs:53 | when `a` holds no `x`, the first `x` of `a + [x] + b` is at index `|a|` |
| `WideString.OsStringUnitsAsWritten` | src/wstring.rs:88-94 | the units each build hands to the text conversion: `units()` on Windows, `units()` plus a `0` elsewhere |
| `WideString.OsStringKeepsTerminator` | src/wstring.rs:93 | on non-Windows the converted units differ from `units()`; the empty string converts from `[0]` |
| `WideString.OsStringUnits` | src/wstring.rs:89 | the intended conversion input: the units without the terminator |
| `WideString.OsStringUnitsRoundTrip` | src/wstring.rs:89 | with the intended conversion the input units come back unchanged, and it is exactly what the Windows build already hands over |
| `Family.PackageFamilyName.Name` | src/family.rs:52-57 | `name()` has no `'_'`, is a prefix of `units()`, is followed by `'_'` when shorter, and is all of `units()` only when there is no `'_'` |
| `Family.PackageFamilyName.PublisherId` | src/family.rs:65-70 | without `'_'` it is empty; with one it is everything after the first `'_'` |
| `Family.SplitJoin` | src/family.rs:53-67 | with a `'_'` present, `name() + "_" + publisher_id() == units()` |
| `Family.NameIsWholeIffNoUnderscore` | src/family.rs:52-70 | `name() == units()` iff there is no `'_'`, and then `publisher_id()` is empty |
| `Family.SplitAtFirst` | src/family.rs:52-70 | `a _ b` with no `'_'` in `a` splits into exactly `a` and `b`, whatever `b` holds |
| `Family.FromStrSplit` | src/family.rs:36-41 | the same for a family name built from text |
| `Family.FromStr` | src/family.rs:38 | `PackageFamilyName::from(&str)` holds the UTF-16 encoding of the text as its units |
| `Family.TestVectorNcsi` | src/family.rs:73-76 | `NcsiUwpApp_8wekyb3d8bbwe` gives `NcsiUwpApp` / `8wekyb3d8bbwe` |
| `Family.TestVectorUbuntu` | src/family.rs:78-80 | `CanonicalGroupLimited.UbuntuonWindows_79rhkp1fndgsc` gives `CanonicalGroupLimited.UbuntuonWindows` / `79rhkp1fndgsc` |
| `Package.SplitN` | src/package.rs:87 | `splitn(n)` gives at most `n` pieces, and at least one when `n > 0` |
| `Package.SplitNIsSplit` | src/package.rs:87 | the pieces join back to the input with `'_'`; every piece but the last is free of `'_'`; the last is too unless all `n` pieces were used |
| `Package.SplitNJoin` | src/package.rs:87 | on well-cut pieces (between one and `n`, separators only allowed in the `n`-th) `SplitN` undoes `Join` |
| `Package.SplitNUnique` | src/package.rs:87 | any list of pieces with the properties above is exactly `SplitN`'s result |
| `Package.SplitNLength` | src/package.rs:87 | with `k` separators the number of pieces is `min(k + 1, n)` |
| `Package.SplitNPiece` | src/package.rs:87 | piece `k` exists only with at least `k` separators, and holds no separator unless it is the `n`-th |
| `Package.SplitNLastIsSuffix` | src/package.rs:87 | the last piece of `splitn` is a suffix of the input |
| `Package.SkipNext` | src/package.rs:87 | `skip(n).next()` yields an item iff there are more than `n`, and that item is the `n`-th |
| `Package.PackageFullName.Field` | src/package.rs:87 | `field(n)` is empty for `n >= 5` and for every `n` beyond the separator count; pieces 0 to 3 never contain `'_'` |
| `Package.PackageFullName.Fields` | src/package.rs:87 | the pieces of `units()` satisfy the `splitn(5)` description (so joining them gives `units()` back), and `field(n)` is the `n`-th of them |
| `Package.PackageFullName.Name` | src/package.rs:52 | `name()` is a `'_'`-free prefix of `units()`, followed by `'_'` when shorter |
| `Package.PackageFullName.Version` | src/package.rs:60 | `version()` contains no `'_'` |
| `Package.PackageFullName.Architecture` | src/package.rs:68 | `architecture()` contains no `'_'` |
| `Package.PackageFullName.Field4` | src/package.rs:77 | the fourth field contains no `'_'` |
| `Package.PackageFullName.PublisherId` | src/package.rs:85 | `publisher_id()` is a suffix of `units()`, and empty when there are fewer than four separators |
| `Package.PackageFullName.LastFieldIsSuffix` | src/package.rs:85-87 | `field(4)`, when present, is the last piece and so ends `units()` |
| `Package.FromStr` | src/package.rs:40 | `PackageFullName::from(&str)` holds the UTF-16 encoding of the text as its units |
| `Package.SplitFive` | src/package.rs:87 | five pieces joined by `'_'`, the first four free of `'_'`, are split back into exactly those pieces |
| `Package.FromStrFive` | src/package.rs:87 | the same for a full name built from text |
| `Package.AccessorsOfFields` | src/package.rs:52-85 | the five accessors read pieces 0 to 4 in order |
| `Package.PublisherIdAbsorbsRest` | src/package.rs:87 | underscores after the fourth stay inside `publisher_id()` |
| `Package.TestVectorNcsi` | src/package.rs:90-96 | `NcsiUwpApp_1000.19041.423.0_neutral_neutral_8wekyb3d8bbwe` decomposes into the five asserted fields |
| `Package.TestVectorUbuntu` | src/package.rs:98-103 | `..._x64__79rhkp1fndgsc`: adjacent separators give an empty field 4 and publisher id `79rhkp1fndgsc` |
| `Reg.NameBuffer.constructor` | src/reg.rs:7-28 | `NameBuffer::default()` is 256 zeros |
| `Reg.NameBuffer.Len` | src/reg.rs:5 | `len()` reports 256 = 255 + 1, the buffer's length |
| `Reg.EndsWith0` | src/reg.rs:198-199 | `last() == Some(&0)` holds iff the slice is some content followed by one `0` |
| `Reg.OpenExWImpl` | src/reg.rs:177-185 | a path must end with `0` on Windows (else a panic); the key is returned iff the status is `ERROR_SUCCESS`, otherwise the raw status; the non-Windows stub always fails |
| `Reg.OpenRoot` | src/reg.rs:138-151 | opening under one of the five predefined roots succeeds iff Windows reports success for that root's handle, and then holds the handle the open returned; a Windows failure is the raw status, and the non-Windows stub always fails |
| `Reg.Key.Subkey` | src/reg.rs:100-102 | a subkey opens iff the build is Windows and the native open on the key's own handle succeeds, and then holds the new handle; a Windows failure is the raw status, and the non-Windows stub always fails |
| `Reg.TrimU16` | src/reg.rs:155 | one trailing `0` is removed when present; otherwise, the empty input included, the input is returned unchanged |
| `Reg.TrimUnits0` | src/reg.rs:155 | trimming `units0()` of any `WString` gives `units()` |
| `Reg.TrimOnlyOne` | src/reg.rs:155 | only one terminator is stripped: `v + [0, 0]` trims to `v + [0]` |
| `Reg.EnumOutcome` | src/reg.rs:190-194 | success gives `Some` of the first `len` buffer units (never more than 256), `ERROR_NO_MORE_ITEMS` gives `None`, any other status an error |
| `Reg.EnumName` | src/repository.rs:99-100 | `enum_key_w` into a fresh default buffer: `None` iff no more items, a name iff success, otherwise the raw status; the name is as long as the reported length |
| `Reg.EnumNameUnits` | src/repository.rs:99-100 | the name is the units the call wrote, padded with the default buffer's zeros where the reported length reaches past them |
| `Reg.Key.EnumKeyW` | src/reg.rs:187-195 | the native call fills the buffer in place and the result is the status mapping on the new contents; the non-Windows stub fails and leaves the buffer alone |
| `Reg.CopyInto` | src/reg.rs:189 | the native call's writes: the reported units over the front of the caller's buffer, the rest unchanged |
| `Reg.ReadBack` | src/reg.rs:205 | the returned slice is the first `len / size_of::<T>()` elements, never more than the buffer holds |
| `Reg.Key.GetValueW` | src/reg.rs:197-209 | success returns the prefix of `data` covering the reported bytes divided by the element size, never longer than `data`; a buffer over `u32::MAX` bytes is refused; other statuses are errors; the non-Windows stub always fails |
| `Reg.Key.GetValueDword` | src/reg.rs:112-117 | one `u32` read back after the call, or the error |
| `Reg.Key.GetValueQword` | src/reg.rs:119-124 | one `u64` read back after the call, or the error |
| `Reg.Key.GetValueString` | src/reg.rs:126-128 | the new contents of `buf` are the native writes over its front; success gives those units up to the reported bytes, with one trailing terminator trimmed; a buffer over `u32::MAX` bytes is refused with `buf` unchanged; any other status is that raw error; the non-Windows stub fails with `buf` unchanged |
| `Repository.WrappingInc` | src/repository.rs:101 | the index moves on by exactly one below `u32::MAX` |
| `Repository.FamiliesIter.constructor` | src/repository.rs:85-88 | a new iterator starts at index 0 |
| `Repository.FamiliesIter.Next` | src/repository.rs:96-104 | a yielded name comes back wrapped as a family name and the index grows by one; no more items or an error give `None` and leave the index; the keyless (non-Windows) iterator is always empty |
| `Repository.PackagesIter.constructor` | src/repository.rs:107-110 | a new iterator starts at index 0 |
| `Repository.PackagesIter.Next` | src/repository.rs:118-126 | the same for full package names |
| `Repository.Families` | src/repository.rs:84-89 | on Windows an error opening the `Families` key is passed on, otherwise a fresh iterator on that key at index 0; elsewhere `Ok` of an empty iterator |
| `Repository.Packages` | src/repository.rs:106-111 | the same for the `Packages` key |
| `Repository.HasFamily` | src/repository.rs:37-42 | true iff the build is Windows and both the root open and the open of the family's `units0()` succeed; every failure collapses to `false` |
| `Repository.HasPackage` | src/repository.rs:45-50 | the same for full package names |
| `Repository.NotWindowsHasNothing` | src/repository.rs:38 | on non-Windows both existence checks are `false` |
| `Repository.CollectFamilies` | src/repository.rs:96-104 | over a key listing `c[0..n)`, successive `next` calls yield `c[0]`, …, `c[n-1]` in order, and then `None` with the index at `n` |
| `Repository.CollectPackages` | src/repository.rs:118-126 | the same for full package names |

## Left out

- The Win32 calls (`RegOpenKeyExW`, `RegEnumKeyExW`, `RegGetValueW`) are foreign code. They appear only as the `Native` oracle and the per-call `ValueReply`.
- `RegCloseKey` in `Drop` and its `assert_eq!(status, ERROR_SUCCESS)` are left out, because the model has no key lifetime: it does not cover releasing the handle, or the panic a failed close raises.
- `Key::own` and the `unsafe` validity of handles passed in are not modelled; a handle is an opaque number.
- `Options` and `SAM` are opaque winapi bitmasks. They are not passed to the oracle, and the `win0!`/`winstr0!` macros are not modelled (src/macros.rs is not part of this model).
- The `flags` and `ty` arguments of `get_value_w_impl` are left out. The `ValueReply` given for the call already reflects the requested type.
- `Reg.Key.GetValueString` stops at the trimmed code units. `String::from_utf16_lossy`, and `get_value_os_string`/`get_value_pathbuf` (the same units converted to `OsString`/`PathBuf`), are left out because they produce platform string types, and `from_utf16_lossy` is lossy.
- `to_os_string`, `as_ptr0`, `Display` and `Debug`, and the `OsString`/`PathBuf` conversions are left out: they are platform string types. Only the units the conversion receives are modelled, for the finding below.
- `add_appx_package` is left out: it checks the file system and starts a `powershell` process.
- examples/dump.rs is left out: it prints, and it calls `packages_for_family`, which is not part of this model.
- `Reg.Key.GetValueW` and `Reg.Key.EnumKeyW` assume the native call behaves: it writes no more than the buffer holds and reports a length that fits it. The slice panic an over-long reported length would cause in Rust is not modelled.
- Regrowing the buffer on `ERROR_MORE_DATA` is left out, because the source does not do it: that status is returned as an error.
- `Repository.WrappingInc`: `self.index += 1` wraps at `u32::MAX` here, as a release build does. A debug build panics there instead. The enumeration lemmas assume fewer than 2^32 children, so both builds agree for them.
- Concurrent changes to the registry during an enumeration are not modelled. The ordered-enumeration result assumes a key that answers every index the same way throughout.
- In Rust, `units()`, `name()` and the other field accessors return slices borrowed from the string. Here they return sequence values, so aliasing and lifetimes are not modelled.
- The package test vectors are stated on texts written as their five parts joined by `"_"` (for example `"NcsiUwpApp" + "_" + …`). The text value is the same; the family test vectors use the single literal.

## Findings

| source | as written | input that shows it | evidently intended | confidence | as-written member | corrected member |
|---|---|---|---|---|---|---|
| src/wstring.rs:93 | the non-Windows `to_os_string_impl` decodes `units0()`, so the terminator ends up in the text | `WString::from("")` converts to a one-character string holding NUL instead of the empty string; `"abc"` converts to `"abc\0"` | decode `units()`, as the Windows build does at src/wstring.rs:89 | medium, not executed | `WideString.OsStringUnitsAsWritten` (shown by `WideString.OsStringKeepsTerminator`) | `WideString.OsStringUnits` (proved by `WideString.OsStringUnitsRoundTrip`) |
