/**
 * The file loader of the dasbox file-system layer: `read_whole_file`, the
 * `DasboxFsFileAccess` accessor with its fallback to the embedded library
 * table, and the base directory `getModuleInfo` hands to the module resolver.
 *
 * The operating system is abstracted as a `Disk` value: the files `fopen`
 * can open with their bytes, the files whose `fread` comes up short, and the
 * modification times `stat` reports.
 */
module FileAccess {
  import opened Wrappers
  import opened CStrings
  import opened Paths
  import opened PathValidator

  newtype byte = b: int | 0 <= b < 256

  datatype Disk = Disk(
    files: map<string, seq<byte>>,  // what `fopen(name, "rb")` opens, and its content
    unreadable: set<string>,        // files whose `fread` returns fewer bytes than `ftell` gave
    mtimes: map<string, int>)       // `st_mtime` of the files `stat` succeeds on

  /** `get_file_time`: the modification time, or 0 when `stat` fails. */
  function FileTime(disk: Disk, name: string): int
  {
    if name in disk.mtimes then disk.mtimes[name] else 0
  }

  /** `das::TextFileInfo`: source text, its length without the terminator, and whether it owns the text. */
  datatype TextFileInfo = TextFileInfo(source: seq<byte>, sourceLength: nat, owner: bool)

  /** What `getNewFileInfo` hands back: an entry of the embedded table, or a freshly loaded file. */
  datatype FileInfoRef =
    | Borrowed(entry: TextFileInfo)  // belongs to the embedded library table; never released
    | Owned(info: TextFileInfo)      // loaded from disk; handed to the accessor's file cache, which owns it

  /** A pointer or smart pointer of the module-access policy, as an opaque handle. */
  datatype Ptr = Null | Ref(id: nat)

  /** Each of the three namespace markers holds a '/', so a name showing one of them does. */
  lemma LibraryMarkersHoldSeparator(fname: string)
    ensures StartsWith(fname, "daslib/") || Contains(fname, "/daslib/") || Contains(fname, "\\daslib/")
            ==> '/' in fname
  {
    if StartsWith(fname, "daslib/") {
      StartsWithKeepsChars(fname, "daslib/", '/');
    } else if Contains(fname, "/daslib/") {
      ContainsKeepsChars(fname, "/daslib/", '/');
    } else if Contains(fname, "\\daslib/") {
      ContainsKeepsChars(fname, "\\daslib/", '/');
    }
  }

  /**
   * Whether `fname` names the embedded standard library: "daslib/" first, or
   * "/daslib/" or "\\daslib/" inside. Such a name always holds a separator,
   * so the `strrchr` that follows never returns null.
   */
  predicate NamesEmbeddedLibrary(fname: string): (r: bool)
    ensures r ==> '/' in fname
  {
    LibraryMarkersHoldSeparator(fname);
    StartsWith(fname, "daslib/") || Contains(fname, "/daslib/") || Contains(fname, "\\daslib/")
  }

  /**
   * The key looked up in the embedded table when `fname` cannot be opened:
   * for a path into the embedded library the part after its last separator,
   * otherwise the whole name.
   */
  function LibraryKey(fname: string): (key: string)
    ensures NamesEmbeddedLibrary(fname) ==>
              && LastSeparator(fname).Some?
              && fname == ExtractDir(fname) + [fname[LastSeparator(fname).value]] + key
              && forall j | 0 <= j < |key| :: !IsSlash(key[j])
    ensures !NamesEmbeddedLibrary(fname) ==> key == fname
  {
    if NamesEmbeddedLibrary(fname) then
      var k := LastSeparator(fname).value;
      assert fname == fname[..k] + [fname[k]] + fname[k + 1..];
      fname[k + 1..]
    else
      fname
  }

  /** In the library namespace, the key is what follows the separator at `n`, when none comes later. */
  lemma LibraryKeyAfter(fname: string, n: nat)
    requires NamesEmbeddedLibrary(fname)
    requires n < |fname| && IsSlash(fname[n])
    requires forall j | n < j < |fname| :: !IsSlash(fname[j])
    ensures LibraryKey(fname) == fname[n + 1..]
  {
    LastSeparatorAt(fname, n);
  }

  /** A file right under "daslib/" is looked up under its bare name. */
  lemma LibraryKeyOfLibraryRoot(name: string)
    requires forall j | 0 <= j < |name| :: !IsSlash(name[j])
    ensures LibraryKey("daslib/" + name) == name
  {
    var s := "daslib/" + name;
    assert s[..7] == "daslib/";
    assert forall j | 6 < j < |s| :: s[j] == name[j - 7];
    LibraryKeyAfter(s, 6);
    assert s[7..] == name;
  }

  /** A file inside a "daslib" directory anywhere below the root is looked up under its bare name. */
  lemma LibraryKeyOfLibraryDir(dir: string, sep: char, name: string)
    requires IsSlash(sep)
    requires forall j | 0 <= j < |name| :: !IsSlash(name[j])
    ensures LibraryKey(dir + [sep] + "daslib/" + name) == name
  {
    var marker := [sep] + "daslib/";
    var t := dir + [sep] + "daslib/" + name;
    assert t == dir + (marker + name);
    assert (marker + name)[..8] == marker;
    ContainsAfterPrefix(dir, marker + name, marker);
    assert marker == "/daslib/" || marker == "\\daslib/";
    var n := |dir| + 7;
    assert t[n] == '/';
    assert forall j | n < j < |t| :: t[j] == name[j - n - 1];
    LibraryKeyAfter(t, n);
    assert t[n + 1..] == name;
  }

  /** Examples: the bare name inside the library namespace. */
  lemma LibraryKeyExamples()
    ensures LibraryKey("daslib/math.das") == "math.das"
  {
    LibraryKeyOfLibraryRoot("math.das");
    assert "daslib/" + "math.das" == "daslib/math.das";
  }

  /** A name without any '/' is not in the library namespace and is looked up whole. */
  lemma LibraryKeyOutsideNamespace(fname: string)
    requires '/' !in fname
    ensures LibraryKey(fname) == fname
  {
    if Contains(fname, "/daslib/") {
      ContainsKeepsChars(fname, "/daslib/", '/');
    }
    if Contains(fname, "\\daslib/") {
      ContainsKeepsChars(fname, "\\daslib/", '/');
    }
    if StartsWith(fname, "daslib/") {
      StartsWithKeepsChars(fname, "daslib/", '/');
    }
  }

  /** Why `read_whole_file` stopped, one kind per message it prints. */
  datatype ReadStatus = Loaded | EmptyName | PathProhibited | CannotOpen | CannotRead

  /**
   * `read_whole_file`: the guards in their order (no name, a name the sandbox
   * rejects, a file that does not open), then the read. `bytes` is the
   * caller's vector before the call and `bytesAfter` the same vector after it.
   */
  method ReadWholeFile(trustMode: bool, disk: Disk, fileName: Option<CString>, bytes: seq<byte>)
    returns (status: ReadStatus, bytesAfter: seq<byte>)
    ensures fileName.None? || fileName.value == [] ==> status == EmptyName && bytesAfter == bytes
    ensures fileName.Some? && fileName.value != [] ==>
              var name := fileName.value;
              if !PathStringValid(trustMode, fileName) then
                status == PathProhibited && bytesAfter == bytes
              else if name !in disk.files then
                status == CannotOpen && bytesAfter == bytes
              else if name in disk.unreadable then
                status == CannotRead && bytesAfter == []
              else
                status == Loaded && bytesAfter == disk.files[name]
  {
    if fileName.None? || |fileName.value| == 0 {
      return EmptyName, bytes;
    }
    var valid := IsPathStringValid(trustMode, fileName);
    if !valid {
      return PathProhibited, bytes;
    }
    var name := fileName.value;
    if name !in disk.files {
      return CannotOpen, bytes;
    }
    // `bytes.resize` and the `fread` into it are one step here: what the
    // vector holds in between cannot be observed by the caller.
    var content := disk.files[name];
    if name in disk.unreadable {
      bytesAfter := [];
      return CannotRead, bytesAfter;
    }
    bytesAfter := content;
    status := Loaded;
  }

  /** `getModuleInfo`: one call to the base resolver; only the base directory it is given varies. */
  function GetModuleInfo<M>(req: string, from: string, failed: bool,
                            baseGetModuleInfo: (string, string) -> M): (info: M)
    ensures !failed ==> info == baseGetModuleInfo(req, from)
    ensures failed && StartsWith(req, "%") ==> info == baseGetModuleInfo(req, "")
    ensures failed && !StartsWith(req, "%") ==> info == baseGetModuleInfo(req, from)
  {
    if !failed then
      baseGetModuleInfo(req, from)
    else
      var reqUsesMount := StartsWith(req, "%");
      baseGetModuleInfo(req, if reqUsesMount then "" else from)
  }

  /** After a failure, a mount request ("%...") is resolved the same way from any importing file. */
  lemma MountRequestIgnoresImporter<M>(req: string, from1: string, from2: string,
                                       baseGetModuleInfo: (string, string) -> M)
    requires |req| > 0 && req[0] == '%'
    ensures GetModuleInfo(req, from1, true, baseGetModuleInfo)
         == GetModuleInfo(req, from2, true, baseGetModuleInfo)
  {
    assert StartsWith(req, "%");
  }

  /** A request not starting with '%' always goes to the base with the importing file unchanged. */
  lemma PlainRequestKeepsImporter<M>(req: string, from: string, failed: bool,
                                     baseGetModuleInfo: (string, string) -> M)
    requires req == [] || req[0] != '%'
    ensures GetModuleInfo(req, from, failed, baseGetModuleInfo) == baseGetModuleInfo(req, from)
  {
  }

  /**
   * `DasboxFsFileAccess`. The fields `context`, `modGet`, `includeGet` and
   * `moduleAllowed` belong to the base `das::ModuleFileAccess` and are handles
   * here; `failed()` and the base's file cache are not part of this model.
   */
  class DasboxFsFileAccess {
    var context: Ptr
    var modGet: Ptr
    var includeGet: Ptr
    var moduleAllowed: Ptr
    var derivedAccess: bool
    var storeOpenedFiles: bool
    var filesOpened: seq<(string, int)>

    /**
     * The accessor built from a project file: the base class compiles it into
     * the policy handles it is given here.
     */
    constructor Root(pakContext: Ptr, pakModGet: Ptr, pakIncludeGet: Ptr, pakModuleAllowed: Ptr,
                     allowHotReload: bool)
      ensures context == pakContext && modGet == pakModGet
      ensures includeGet == pakIncludeGet && moduleAllowed == pakModuleAllowed
      ensures !derivedAccess && storeOpenedFiles == allowHotReload && filesOpened == []
    {
      context, modGet, includeGet, moduleAllowed := pakContext, pakModGet, pakIncludeGet, pakModuleAllowed;
      derivedAccess := false;
      storeOpenedFiles := allowHotReload;
      filesOpened := [];
    }

    /** The accessor with no policy attached yet. */
    constructor Bare(allowHotReload: bool)
      ensures context == Null && modGet == Null && includeGet == Null && moduleAllowed == Null
      ensures !derivedAccess && storeOpenedFiles == allowHotReload && filesOpened == []
    {
      context, modGet, includeGet, moduleAllowed := Null, Null, Null, Null;
      derivedAccess := false;
      storeOpenedFiles := allowHotReload;
      filesOpened := [];
    }

    /** The accessor that shares the policy of `modAccess`, when there is one. */
    constructor Derived(modAccess: DasboxFsFileAccess?, allowHotReload: bool)
      ensures modAccess != null ==>
                && context == modAccess.context && modGet == modAccess.modGet
                && includeGet == modAccess.includeGet && moduleAllowed == modAccess.moduleAllowed
                && derivedAccess
      ensures modAccess == null ==>
                && context == Null && modGet == Null && includeGet == Null && moduleAllowed == Null
                && !derivedAccess
      ensures storeOpenedFiles == allowHotReload && filesOpened == []
    {
      context, modGet, includeGet, moduleAllowed := Null, Null, Null, Null;
      derivedAccess := false;
      storeOpenedFiles := allowHotReload;
      filesOpened := [];
      if modAccess != null {
        context := modAccess.context;
        modGet := modAccess.modGet;
        includeGet := modAccess.includeGet;
        moduleAllowed := modAccess.moduleAllowed;
        derivedAccess := true;
      }
    }

    /** The destructor: a derived accessor lets go of the shared context without releasing it. */
    method Destroy()
      modifies this`context
      ensures context == if derivedAccess then Null else old(context)
    {
      if derivedAccess {
        context := Null;
      }
    }

    /**
     * `getNewFileInfo`: load `fname` from the disk into an owned, NUL-terminated
     * buffer; if it cannot be opened, fall back to the embedded library table.
     */
    method GetNewFileInfo(fname: string, disk: Disk, libraryTable: map<string, TextFileInfo>)
      returns (info: Option<FileInfoRef>)
      modifies this`filesOpened
      ensures fname !in disk.files ==>
                && filesOpened == old(filesOpened)
                && info == (var key := LibraryKey(fname);
                            if key in libraryTable then Some(Borrowed(libraryTable[key])) else None)
      ensures fname in disk.files && fname in disk.unreadable ==>
                info == None && filesOpened == old(filesOpened)
      ensures fname in disk.files && fname !in disk.unreadable ==>
                var content := disk.files[fname];
                && info.Some? && info.value.Owned?
                && info.value.info.sourceLength == |content|
                && info.value.info.source == content + [0]
                && info.value.info.owner
                && filesOpened == old(filesOpened)
                                  + (if storeOpenedFiles then [(fname, FileTime(disk, fname))] else [])
    {
      if fname !in disk.files {
        var key := LibraryKey(fname);
        if key in libraryTable {
          return Some(Borrowed(libraryTable[key]));
        }
        return None;
      }
      var content := disk.files[fname];
      var fileLength := |content|;
      var source := new byte[fileLength + 1];
      if fname in disk.unreadable {
        return None;
      }
      forall i | 0 <= i < fileLength {
        source[i] := content[i];
      }
      source[fileLength] := 0;
      var text := TextFileInfo(source[..], fileLength, true);
      if storeOpenedFiles {
        var fileTime := FileTime(disk, fname);
        filesOpened := filesOpened + [(fname, fileTime)];
      }
      info := Some(Owned(text));
    }
  }

  /**
   * A request for "daslib/<name>" that is not on the disk is answered from the
   * embedded table entry `<name>`, borrowed, and leaves no record behind.
   */
  method LoadFromEmbeddedLibrary(access: DasboxFsFileAccess, name: string, disk: Disk,
                                 libraryTable: map<string, TextFileInfo>)
    returns (info: Option<FileInfoRef>)
    requires forall j | 0 <= j < |name| :: !IsSlash(name[j])
    requires "daslib/" + name !in disk.files
    modifies access`filesOpened
    ensures name in libraryTable ==> info == Some(Borrowed(libraryTable[name]))
    ensures name !in libraryTable ==> info == None
    ensures access.filesOpened == old(access.filesOpened)
  {
    LibraryKeyOfLibraryRoot(name);
    info := access.GetNewFileInfo("daslib/" + name, disk, libraryTable);
  }

  /** Destroying a derived accessor leaves its parent, and the context they share, as they were. */
  method DestroyDerived(parent: DasboxFsFileAccess, allowHotReload: bool)
    returns (child: DasboxFsFileAccess)
    ensures fresh(child) && child.derivedAccess && child.context == Null
    ensures child.modGet == parent.modGet && child.includeGet == parent.includeGet
    ensures child.moduleAllowed == parent.moduleAllowed
    ensures unchanged(parent)
  {
    child := new DasboxFsFileAccess.Derived(parent, allowHotReload);
    child.Destroy();
  }
}
