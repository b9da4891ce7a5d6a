/** The package repository (src/repository.rs): lazy enumeration of the
    `Families` and `Packages` keys and the two existence checks. */
module Repository {
  import opened Wrappers
  import opened WideString
  import opened Build
  import opened Reg
  import Family
  import Package

  /** `Local Settings\Software\Microsoft\Windows\CurrentVersion\AppModel\Repository\…`
      under `HKEY_CLASSES_ROOT`, terminated as `winstr0!` makes it. */
  const FamiliesPath: seq<u16> :=
    EncodeUtf16(@"Local Settings\Software\Microsoft\Windows\CurrentVersion\AppModel\Repository\Families") + [0]
  const PackagesPath: seq<u16> :=
    EncodeUtf16(@"Local Settings\Software\Microsoft\Windows\CurrentVersion\AppModel\Repository\Packages") + [0]

  /** `self.index += 1` on a `u32`, as a release build wraps it. */
  function WrappingInc(i: u32): (r: u32)
    ensures (i as int) < 0xFFFF_FFFF ==> r as int == i as int + 1
    ensures i as int == 0xFFFF_FFFF ==> r == 0
  {
    ((i as int + 1) % 0x1_0000_0000) as u32
  }

  /** The key enumerates `children` in order and then reports no more
      items: a static snapshot of the registry. */
  ghost predicate ListsChildren(native: Native, key: Key, children: seq<seq<u16>>)
  {
    && |children| < 0x1_0000_0000
    && forall i: u32 :: EnumName(native, key, i) == if (i as int) < |children| then Ok(Some(children[i])) else Ok(None)
  }

  /** The iterator `families()` returns. On Windows it is `FamiliesIter`:
      the opened `Families` key and the next index. The non-Windows build
      returns `None.into_iter()`, modelled as an iterator without a key. */
  class FamiliesIter {
    const key: Option<Key>
    var index: u32

    constructor (key: Option<Key>)
      ensures this.key == key && index == 0
    {
      this.key := key;
      index := 0;
    }

    /** `Iterator::next`: one `RegEnumKeyExW` call into a fresh buffer; a name
        is wrapped as a family name and moves the index on, while the end of
        the key or any error ends the step with `None` and leaves the index. */
    method Next(native: Native) returns (item: Option<Family.PackageFamilyName>)
      modifies this
      ensures key.None? ==> item == None && index == old(index)
      ensures key.Some? ==>
        match EnumName(native, key.value, old(index))
        case Ok(Some(name)) =>
          item == Some(Family.PackageFamilyName(WString.FromCodeUnitsVec(name))) && index == WrappingInc(old(index))
        case _ => item == None && index == old(index)
    {
      if key.None? {
        return None;
      }
      var buf := new NameBuffer();
      var r := key.value.EnumKeyW(Windows, native, index, buf);
      if r.Err? || r.value.None? {
        return None;
      }
      index := WrappingInc(index);
      item := Some(Family.PackageFamilyName(WString.FromCodeUnitsVec(r.value.value)));
    }
  }

  /** The iterator `packages()` returns; the same shape as `FamiliesIter`,
      yielding full package names. */
  class PackagesIter {
    const key: Option<Key>
    var index: u32

    constructor (key: Option<Key>)
      ensures this.key == key && index == 0
    {
      this.key := key;
      index := 0;
    }

    method Next(native: Native) returns (item: Option<Package.PackageFullName>)
      modifies this
      ensures key.None? ==> item == None && index == old(index)
      ensures key.Some? ==>
        match EnumName(native, key.value, old(index))
        case Ok(Some(name)) =>
          item == Some(Package.PackageFullName(WString.FromCodeUnitsVec(name))) && index == WrappingInc(old(index))
        case _ => item == None && index == old(index)
    {
      if key.None? {
        return None;
      }
      var buf := new NameBuffer();
      var r := key.value.EnumKeyW(Windows, native, index, buf);
      if r.Err? || r.value.None? {
        return None;
      }
      index := WrappingInc(index);
      item := Some(Package.PackageFullName(WString.FromCodeUnitsVec(r.value.value)));
    }
  }

  /** `families()`: on Windows open the `Families` key (an error is passed
      on) and start at index 0; elsewhere an empty iterator. */
  method Families(platform: Platform, native: Native) returns (r: Result<FamiliesIter, IoError>)
    ensures platform == NotWindows ==> r.Ok? && r.value.key == None
    ensures platform == Windows ==>
      var root := OpenRoot(Windows, native, ClassesRoot, FamiliesPath);
      && (root.Err? ==> r == Err(root.error))
      && (root.Ok? ==> r.Ok? && r.value.key == Some(root.value))
    ensures r.Ok? ==> fresh(r.value) && r.value.index == 0
  {
    if platform == NotWindows {
      var it := new FamiliesIter(None);
      return Ok(it);
    }
    var root := OpenRoot(Windows, native, ClassesRoot, FamiliesPath);
    if root.Err? {
      return Err(root.error);
    }
    var it := new FamiliesIter(Some(root.value));
    r := Ok(it);
  }

  /** `packages()`: the same over the `Packages` key. */
  method Packages(platform: Platform, native: Native) returns (r: Result<PackagesIter, IoError>)
    ensures platform == NotWindows ==> r.Ok? && r.value.key == None
    ensures platform == Windows ==>
      var root := OpenRoot(Windows, native, ClassesRoot, PackagesPath);
      && (root.Err? ==> r == Err(root.error))
      && (root.Ok? ==> r.Ok? && r.value.key == Some(root.value))
    ensures r.Ok? ==> fresh(r.value) && r.value.index == 0
  {
    if platform == NotWindows {
      var it := new PackagesIter(None);
      return Ok(it);
    }
    var root := OpenRoot(Windows, native, ClassesRoot, PackagesPath);
    if root.Err? {
      return Err(root.error);
    }
    var it := new PackagesIter(Some(root.value));
    r := Ok(it);
  }

  /** `has_family`: true exactly when, on Windows, both the `Families` key
      and the family's own subkey open; every failure reads as `false`. The
      subkey is opened on `units0()`, whose terminator the `WString`
      invariant guarantees. */
  function HasFamily(platform: Platform, native: Native, fam: Family.PackageFamilyName): (r: bool)
    ensures r <==>
      && platform == Windows
      && native.open(RootHkey(ClassesRoot), FamiliesPath).status == ERROR_SUCCESS
      && native.open(native.open(RootHkey(ClassesRoot), FamiliesPath).hkey, fam.w.Units0()).status == ERROR_SUCCESS
  {
    if platform != Windows then false
    else
      var key := OpenRoot(Windows, native, ClassesRoot, FamiliesPath);
      key.ToOption().IsSome() && key.value.Subkey(Windows, native, fam.w.Units0()).ToOption().IsSome()
  }

  /** `has_package`: the same over the `Packages` key. */
  function HasPackage(platform: Platform, native: Native, pfn: Package.PackageFullName): (r: bool)
    ensures r <==>
      && platform == Windows
      && native.open(RootHkey(ClassesRoot), PackagesPath).status == ERROR_SUCCESS
      && native.open(native.open(RootHkey(ClassesRoot), PackagesPath).hkey, pfn.w.Units0()).status == ERROR_SUCCESS
  {
    if platform != Windows then false
    else
      var key := OpenRoot(Windows, native, ClassesRoot, PackagesPath);
      key.ToOption().IsSome() && key.value.Subkey(Windows, native, pfn.w.Units0()).ToOption().IsSome()
  }

  /** Draining a `FamiliesIter` over a key that lists `children` (as a
      `for fam in families()` loop does) yields the children in order, each
      as a family name, and then `None`. */
  method CollectFamilies(it: FamiliesIter, native: Native, ghost children: seq<seq<u16>>)
    returns (names: seq<Family.PackageFamilyName>)
    requires it.key.Some? && it.index == 0 && ListsChildren(native, it.key.value, children)
    modifies it
    ensures |names| == |children|
    ensures forall i :: 0 <= i < |children| ==> names[i] == Family.PackageFamilyName(WString.FromCodeUnitsVec(children[i]))
    ensures it.index as int == |children| && EnumName(native, it.key.value, it.index) == Ok(None)
  {
    names := [];
    while true
      invariant it.index as int <= |children|
      invariant |names| == it.index as int
      invariant forall i :: 0 <= i < |names| ==> names[i] == Family.PackageFamilyName(WString.FromCodeUnitsVec(children[i]))
      decreases |children| - it.index as int
    {
      var item := it.Next(native);
      if item.None? {
        break;
      }
      names := names + [item.value];
    }
  }

  /** The same for a `PackagesIter`. */
  method CollectPackages(it: PackagesIter, native: Native, ghost children: seq<seq<u16>>)
    returns (names: seq<Package.PackageFullName>)
    requires it.key.Some? && it.index == 0 && ListsChildren(native, it.key.value, children)
    modifies it
    ensures |names| == |children|
    ensures forall i :: 0 <= i < |children| ==> names[i] == Package.PackageFullName(WString.FromCodeUnitsVec(children[i]))
    ensures it.index as int == |children| && EnumName(native, it.key.value, it.index) == Ok(None)
  {
    names := [];
    while true
      invariant it.index as int <= |children|
      invariant |names| == it.index as int
      invariant forall i :: 0 <= i < |names| ==> names[i] == Package.PackageFullName(WString.FromCodeUnitsVec(children[i]))
      decreases |children| - it.index as int
    {
      var item := it.Next(native);
      if item.None? {
        break;
      }
      names := names + [item.value];
    }
  }

  /** On a non-Windows build both checks say `false`. */
  lemma NotWindowsHasNothing(native: Native, fam: Family.PackageFamilyName, pfn: Package.PackageFullName)
    ensures !HasFamily(NotWindows, native, fam) && !HasPackage(NotWindows, native, pfn)
  {
  }
}
