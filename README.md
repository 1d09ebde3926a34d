# dasbox file-system layer, modelled in Dafny

This project models `src/fileSystem.cpp` of dasbox, the layer between a
daScript program and the host's files:

- the sandbox predicate `is_path_string_valid`, which decides whether an
  untrusted script may name a path (module `PathValidator`);
- the path utilities `is_slash`, `combine_path`, `extract_dir` and
  `extract_file_name` (module `Paths`);
- `read_whole_file`, the sandboxed whole-file read (module `FileAccess`);
- the `DasboxFsFileAccess` accessor: its three constructors, its destructor,
  `getNewFileInfo` with its fallback to the embedded daslib table, and the
  base directory `getModuleInfo` passes on to the module resolver (module
  `FileAccess`).

The process-wide `trust_mode` flag is an explicit `bool` parameter. A
`const char *` is an `Option<CString>`, `None` being the null pointer and a
`CString` a character sequence without NUL; index `|s|` reads the
terminator. The operating system is a `Disk` value: the files `fopen` opens
with their bytes, the files whose `fread` comes up short, and the times
`stat` reports. The embedded table `daslib_inc_files` is a read-only
`map<string, TextFileInfo>` passed to the loader.

`is_path_string_valid` is a method with the source's early returns and its
loop over a `depth` counter, proved equal to the predicate
`PathStringValid`. `Depth` gives the counter after each prefix; the lemmas
show that it counts one up per run of separators and one down per `..`
occurrence, overlapping ones included, and that the scan rejects the path
exactly when some prefix holds more `..` than runs of separators.

Behaviours of the code worth knowing, all kept as written:

- `a/../../b` is accepted (`EscapeAfterReentryAccepted`): every separator after a
  `..` raises the counter again, so this path, which resolves outside the
  root, never takes it below zero.
- `getModuleInfo` makes one call to the base resolver. The `failed()` status,
  read before the call, decides the base directory; it is not a retry after a
  failed resolution.
- `getNewFileInfo` does not consult the sandbox predicate. Only
  `read_whole_file` does.
- When the file cannot be opened and the name is not under `daslib/`, the
  whole name is still looked up in the embedded table.
- A missing or unreadable file gives a null result, not a typed error.
  `read_whole_file` returns `false`; the model returns which of its four
  messages it would print (`ReadStatus`).
- The `../` rejection at line 168 is never decisive: the scan rejects every
  path that starts with `..` (`LeadingDotDotRejected`, `RejectionReasons`).

## Model

| member | source | states |
|---|---|---|
| `PathValidator.IsPathStringValid` | src/fileSystem.cpp:156-184 | the early returns and the depth scan decide exactly `PathStringValid`: trusted, null or empty paths pass; a `:`, a leading `/`, `~/` or `../` fails; otherwise the path passes iff the counter never drops below zero |
| `PathValidator.EarlyRules` | src/fileSystem.cpp:158-169 | trust accepts every path; null and "" are valid; an untrusted path with `:` anywhere, a leading `/`, a leading `~/` or a leading `..` plus separator is invalid |
| `PathValidator.LeadingDotDotRejected` | src/fileSystem.cpp:168-180 | any untrusted path starting with `..` is invalid: the counter is -1 after the first character |
| `PathValidator.RejectionReasons` | src/fileSystem.cpp:158-183 | a non-empty path is rejected only when untrusted, and only for a `:`, a leading `/` or `~/`, or a failed scan |
| `PathValidator.DepthWithoutDotDot` | src/fileSystem.cpp:171-180 | with no `..` in a prefix, the counter after it is not negative |
| `PathValidator.ValidWithoutDotDot` | src/fileSystem.cpp:171-183 | an untrusted path that passes the early rules and has no `..` anywhere is valid |
| `PathValidator.DepthCounts` | src/fileSystem.cpp:171-178 | the counter after `k` characters is the number of separators in that prefix not followed by a separator, minus the number of indices where `..` starts |
| `PathValidator.ScanRejectsWhenDotDotsOutnumberRuns` | src/fileSystem.cpp:171-183 | the scan passes iff in no prefix the `..` occurrences outnumber the ends of separator runs |
| `PathValidator.DoubledSeparatorDepth` | src/fileSystem.cpp:175-178 | doubling a separator leaves the counter the same before it and shifts it by one index after it |
| `PathValidator.SeparatorRunCountsOnce` | src/fileSystem.cpp:158-183 | a run of separators counts once: `a + "//" + b` and `a + "/" + b` get the same verdict, in either trust mode |
| `PathValidator.AcceptedExamples` | src/fileSystem.cpp:171-183 | `a/b`, `a/../b` and `a/..` are valid when untrusted |
| `PathValidator.EscapeAfterReentryAccepted` | src/fileSystem.cpp:171-183 | `a/../../b` is valid when untrusted |
| `PathValidator.RejectedExamples` | src/fileSystem.cpp:168-183 | `../a`, `..a`, `a/...`, `a/....` and `notes..txt` are invalid when untrusted |
| `Paths.IsSlash` | src/fileSystem.cpp:151-154 | a separator is `/` or `\`; neither is the terminator nor `.`, so reading the terminator at the end of a path never counts as a separator |
| `Paths.Strrchr` | src/fileSystem.cpp:199 | the result is the index of the last occurrence of the character, or none when it does not occur |
| `Paths.LastSeparator` | src/fileSystem.cpp:199 | the later of the last `/` and the last `\` is a separator with no separator after it, and none means the string has no separator |
| `Paths.LastSeparatorAt` | src/fileSystem.cpp:199 | a separator with none after it is the one `LastSeparator` finds |
| `Paths.ExtractDir` | src/fileSystem.cpp:196-201 | the directory is "" without a separator, otherwise the proper prefix that ends just before a separator |
| `Paths.ExtractFileName` | src/fileSystem.cpp:203-208 | the file name is a suffix of the path and contains no `/` or `\` |
| `Paths.SplitReassembles` | src/fileSystem.cpp:196-208 | directory, then the last separator, then the file name give back the path |
| `Paths.NoSeparatorIsFileName` | src/fileSystem.cpp:196-208 | a path without separators has directory "" and is its own file name |
| `Paths.ExtractExamples` | src/fileSystem.cpp:196-208 | `a/b/c.das` splits into `a/b` and `c.das`; `c.das` into "" and `c.das` |
| `Paths.TrimTrailingSeparators` | src/fileSystem.cpp:189-190 | the result is a prefix of the input, ends in no separator, and only separators were removed |
| `Paths.TrimIsUnique` | src/fileSystem.cpp:189-190 | those three properties determine the trimmed string |
| `Paths.TrimIgnoresAppendedSeparators` | src/fileSystem.cpp:189-190 | appending separators to a string does not change its trimmed form |
| `Paths.CombinePath` | src/fileSystem.cpp:186-194 | the pop-back loop yields `path1` without its trailing `/` and `\`, then `/`, then `path2` |
| `Paths.CombineIgnoresTrailingSeparators` | src/fileSystem.cpp:186-194 | appending any number of separators to `path1` does not change the join |
| `Paths.CombineExamples` | src/fileSystem.cpp:186-194 | `dir/` and `dir` join `x.das` as `dir/x.das`; `dir///` joins `x` as `dir/x`; "" joins `x` as `/x` |
| `FileAccess.NamesEmbeddedLibrary` | src/fileSystem.cpp:104-105 | a name that starts with `daslib/` or contains `/daslib/` or `\daslib/` contains `/`, so the pointer arithmetic on line 105 never starts from null |
| `FileAccess.LibraryKey` | src/fileSystem.cpp:103-107 | in the daslib namespace the key is what follows the last separator and holds no separator; outside it the key is the whole name |
| `FileAccess.LibraryKeyAfter` | src/fileSystem.cpp:103-107 | in the daslib namespace, the key is the text after any separator that has no separator after it |
| `FileAccess.LibraryKeyOfLibraryRoot` | src/fileSystem.cpp:104-107 | `daslib/<name>` is looked up as `<name>` |
| `FileAccess.LibraryKeyOfLibraryDir` | src/fileSystem.cpp:104-107 | `<dir>/daslib/<name>` and `<dir>\daslib/<name>` are looked up as `<name>` |
| `FileAccess.LibraryKeyOutsideNamespace` | src/fileSystem.cpp:103-107 | a name without `/` is looked up whole |
| `FileAccess.LibraryKeyExamples` | src/fileSystem.cpp:103-107 | `daslib/math.das` is looked up as `math.das` |
| `FileAccess.ReadWholeFile` | src/fileSystem.cpp:31-66 | guards in order: a null or empty name, then a name the sandbox rejects, then a file that does not open, each leaving the vector as it was; a short read empties the vector; a good read leaves exactly the file's bytes |
| `FileAccess.GetModuleInfo` | src/fileSystem.cpp:141-147 | the base resolver is called once, with `from` unless `failed()` holds and the request starts with `%`, in which case with "" |
| `FileAccess.MountRequestIgnoresImporter` | src/fileSystem.cpp:145-146 | after a failure, a `%` request resolves the same from every importing file |
| `FileAccess.PlainRequestKeepsImporter` | src/fileSystem.cpp:143-146 | a request not starting with `%` always goes to the base with `from` unchanged |
| `FileAccess.DasboxFsFileAccess.Root` | src/fileSystem.cpp:69-72 | the accessor takes the policy the base built, is not derived, records opened files iff hot reload is allowed, and has recorded none |
| `FileAccess.DasboxFsFileAccess.Bare` | src/fileSystem.cpp:74-77 | no policy, not derived, hot-reload flag as given, no records |
| `FileAccess.DasboxFsFileAccess.Derived` | src/fileSystem.cpp:79-90 | a non-null parent's `context`, `modGet`, `includeGet` and `moduleAllowed` are copied and the accessor is derived; a null parent leaves it underived with no policy |
| `FileAccess.DasboxFsFileAccess.Destroy` | src/fileSystem.cpp:92-96 | `context` becomes null iff the accessor is derived; nothing else changes |
| `FileAccess.DasboxFsFileAccess.GetNewFileInfo` | src/fileSystem.cpp:98-139 | a file that does not open is answered from the embedded table under `LibraryKey`, borrowed, or null; a short read gives null; a good read gives an owned buffer of length n+1 holding the file then 0; one `(fname, mtime)` record is appended iff tracking is on and the load came from disk |
| `FileAccess.LoadFromEmbeddedLibrary` | src/fileSystem.cpp:100-110 | `daslib/<name>` missing on disk yields the table entry `<name>` borrowed, or null, and records nothing |
| `FileAccess.DestroyDerived` | src/fileSystem.cpp:79-96 | a derived accessor shares the parent's resolvers; destroying it clears only its own context and leaves the parent unchanged |

## Left out

- File I/O (`fopen`, `fseek`, `ftell`, `fread`, `fclose`) is the `Disk` value; a short read is a property of a file name rather than of one call, and what a partial `fread` wrote is not modelled.
- `is_file_exists` and the `stat` call are not modelled; `get_file_time` is `FileTime`, the recorded time or 0.
- `change_dir` and `get_current_dir` change or query the process working directory through the OS and are not modelled; `change_dir` trims separators as `TrimTrailingSeparators` does.
- `initialize()` fills the embedded table from a generated file that is not part of this model; the table is a given map.
- `das::ModuleFileAccess` is foreign: its constructor from a project file (its outcome is the parameters of `Root`), its `getModuleInfo` (the parameter `baseGetModuleInfo`), `failed()` (the parameter `failed`), `setFileInfo` and its file cache (`GetNewFileInfo` returns the info it would register), and the reference counting of `context`.
- PathValidator.IsPathStringValid: does not model the `int` cast of `strlen` on line 171; for a path of 2^31 characters or more that cast makes `len` negative or wrapped, so the source skips or shortens the scan and can accept paths the model rejects.
- FileAccess.ReadWholeFile: does not model the `uint32_t` truncation of `ftell` for files of 4 GiB or more, and the caller's `std::vector` is passed in and its new value returned rather than changed in place.
- FileAccess.DasboxFsFileAccess.GetNewFileInfo: does not model the `uint32_t` truncation of the file length, the conversion of the `uint64_t` file time to `int64_t`, or the aligned allocation and `free` of the buffer.
- `print_error` messages and their formatting are left out; `ReadWholeFile` returns which message would be printed.
- NUL inside a string and the C-string truncation it causes are excluded by the `CString` type; a `std::string` argument is a plain character sequence.
- Concurrent use of one accessor is undefined in the source and not modelled.
