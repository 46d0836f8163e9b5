/**
 * The dynamic-library cache (DynLibManager): libraries are loaded at most
 * once per normalised file name and kept in a name-to-library map until
 * they are unloaded or the manager goes away.
 *
 * Loading a library from the operating system is not modelled: a DynLib
 * only records its name and how many times it has been unloaded.
 */
module DynLibs {

  /** Whether name is longer than "." + extension and ends with it. */
  predicate HasExtension(name: string, extension: string)
  {
    var ext := "." + extension;
    |name| > |ext| && name[|name| - |ext|..] == ext
  }

  /** The name a library is loaded and cached under. It always ends with
      "." + extension; the suffix is appended exactly when the name is not
      longer than it or does not end with it, and otherwise the name is
      kept. */
  function NormalizedFileName(name: string, extension: string): (r: string)
    ensures var ext := "." + extension;
            |r| >= |ext| && r[|r| - |ext|..] == ext
    ensures r == name <==> HasExtension(name, extension)
    ensures !HasExtension(name, extension) ==> r == name + "." + extension
  {
    var ext := "." + extension;
    if |name| <= |ext| || name[|name| - |ext|..] != ext then name + ext else name
  }

  /** Normalising twice is normalising once, for every name but the empty
      one: "" becomes the bare suffix, which is not longer than the suffix
      and so gets it appended a second time. */
  lemma NormalizeIdempotentExceptEmpty(name: string, extension: string)
    ensures NormalizedFileName(NormalizedFileName(name, extension), extension) == NormalizedFileName(name, extension)
            <==> name != ""
  {
    var ext := "." + extension;
    var r := NormalizedFileName(name, extension);
    if name == "" {
      assert r == ext;
      assert |NormalizedFileName(r, extension)| == 2 * |ext|;
    } else if !HasExtension(name, extension) {
      assert r == name + ext;
      assert r[|r| - |ext|..] == ext;
    }
  }

  /** For a non-empty name x, load("x.<ext>") always uses "x.<ext>" as its
      key, and load("x") uses the same key exactly when x does not already
      end with the extension. */
  lemma SameLibraryKey(name: string, extension: string)
    requires name != ""
    ensures NormalizedFileName(name + "." + extension, extension) == name + "." + extension
    ensures NormalizedFileName(name, extension) == NormalizedFileName(name + "." + extension, extension)
            <==> !HasExtension(name, extension)
  {
    var ext := "." + extension;
    var full := name + "." + extension;
    assert full == name + ext;
    assert full[|full| - |ext|..] == ext;
    if HasExtension(name, extension) {
      assert |NormalizedFileName(name, extension)| == |name| < |full|;
    }
  }

  /** A loaded library. The operating-system handle is not modelled. */
  class DynLib {
    const name: string
    var unloadCount: nat

    /** DynLib(filename): loads the library. */
    constructor (name: string)
      ensures this.name == name && unloadCount == 0
    {
      this.name := name;
      unloadCount := 0;
    }

    /** DynLib::unload. */
    method Unload()
      modifies this
      ensures unloadCount == old(unloadCount) + 1
    {
      unloadCount := unloadCount + 1;
    }
  }

  class DynLibManager {
    /** DynLib::extension, the platform's library extension without the dot. */
    const extension: string
    var loadedLibraries: map<string, DynLib>

    /** Every library is cached under its own name, so no library is cached
        twice. */
    predicate Valid()
      reads this
    {
      forall k :: k in loadedLibraries ==> loadedLibraries[k].name == k
    }

    constructor (extension: string)
      ensures this.extension == extension && loadedLibraries == map[] && Valid()
    {
      this.extension := extension;
      loadedLibraries := map[];
    }

    /** DynLibManager::load: a cached library is returned as is; otherwise a
        new one is loaded and cached under the normalised name. */
    method Load(name: string) returns (lib: DynLib)
      requires Valid()
      modifies this
      ensures Valid()
      ensures var filename := NormalizedFileName(name, extension);
              if filename in old(loadedLibraries) then
                lib == old(loadedLibraries)[filename] && loadedLibraries == old(loadedLibraries)
              else
                fresh(lib) && lib.name == filename && lib.unloadCount == 0 &&
                loadedLibraries == old(loadedLibraries)[filename := lib]
    {
      var filename := name;
      var ext := "." + extension;
      if |filename| <= |ext| || filename[|filename| - |ext|..] != ext {
        filename := filename + ext;
      }
      assert filename == NormalizedFileName(name, extension);
      if filename in loadedLibraries {
        return loadedLibraries[filename];
      }
      lib := new DynLib(filename);
      loadedLibraries := loadedLibraries[filename := lib];
    }

    /** DynLibManager::unload: the entry under the library's name goes, if
        there is one, and the library is unloaded either way. */
    method Unload(lib: DynLib)
      requires Valid()
      modifies this, lib
      ensures Valid()
      ensures loadedLibraries == old(loadedLibraries) - {lib.name}
      ensures lib.unloadCount == old(lib.unloadCount) + 1
    {
      if lib.name in loadedLibraries {
        loadedLibraries := loadedLibraries - {lib.name};
      }
      lib.Unload();
    }

    /** ~DynLibManager: every cached library is unloaded exactly once and the
        map is emptied. */
    method Dispose()
      requires Valid()
      modifies this, loadedLibraries.Values
      ensures loadedLibraries == map[]
      ensures forall k :: k in old(loadedLibraries) ==>
                old(loadedLibraries)[k].unloadCount == old(loadedLibraries[k].unloadCount) + 1
    {
      var todo := loadedLibraries.Keys;
      while todo != {}
        invariant todo <= loadedLibraries.Keys
        invariant loadedLibraries == old(loadedLibraries)
        invariant forall k :: k in loadedLibraries && k !in todo ==>
                    loadedLibraries[k].unloadCount == old(loadedLibraries[k].unloadCount) + 1
        invariant forall k :: k in todo ==> loadedLibraries[k].unloadCount == old(loadedLibraries[k].unloadCount)
        decreases todo
      {
        var k :| k in todo;
        loadedLibraries[k].Unload();
        todo := todo - {k};
      }
      loadedLibraries := map[];
    }
  }
}
