# bandersnatch file-system helpers, modelled in Dafny

This project models the helpers in `src/bandersnatch/utils.py` that the
bandersnatch PyPI mirror uses to name packages and to touch the disk:

- `bandersnatch_safe_name` with `SAFE_NAME_REGEX` (module `SafeName`). It
  turns an arbitrary project name into a normalised one. Every maximal run
  of characters outside `[A-Za-z0-9.]` becomes one `-`, and then the name is
  lower-cased. The regex substitution is the recursive function `Substitute`.
  `RunLength` is how much one greedy match consumes. `ScanRuns` is an
  independent left-to-right scan with an "inside a bad run" flag, and it is
  proved equal to `Substitute`.
- The string part of `make_time_stamp` (module `TimeStamp`): the ISO text
  with `Z` appended and every `:` removed.
- The path handling of `rewrite` (module `Paths`). This covers POSIX
  `os.path.split`/`dirname`/`basename`, the `os.path.join` that `tempfile`
  uses to place its file in `dir`, and the temporary sibling
  `<dir>/.<name>.<suffix>`.
- The file-system effects of `rewrite` and `unlink_parent_dir` (module
  `FileSystem`). The state is a class `Disk` whose field `entries` maps
  normalised absolute paths to a regular file (content and `st_mode`) or a
  directory. The root `/` is implicit. Each system call of the source is
  one map update. `ValidTree` is the invariant: every path is normalised,
  its parent is a directory, and files are regular files. Every method
  preserves it.

The `rewrite` protocol is split the way the generator in the source is split
by its `yield`. `CreateTemp` is the `NamedTemporaryFile(..., delete=False)`
call. The caller's block is a `Block` value: it writes some data and then
either leaves normally, removes the temporary file, or raises. `Commit` is
the code after the `with`. `Rewrite` runs the whole sequence. What the
caller's block does to the temporary file is modelled. Other changes the
block might make to the disk are not. `Commit` on its own allows any disk
state at that point, as long as the temporary path, if present, is a
regular file.

Three facts about `rewrite` shape the model:

- Leaving the block normally commits. There is no separate completion
  signal.
- A block that raises leaves the temporary file on disk, holding what was
  written, because the file is opened with `delete=False`.
- When the target is an existing directory, `shutil.move` moves the file
  into that directory instead of replacing it. It fails if a file of that
  name is already there.

Errors come from resolving the directory a name lives in, as the kernel
does it. `ResolveDir` walks down from the root. The first missing component
gives `NotFound` (ENOENT). The first component that is a regular file gives
`NotADirectory` (ENOTDIR).

Octal modes are written in hex: `0o100600` = `0x8180` (a fresh `tempfile`
file), `0o100644` = `0x81A4` (what `rewrite` passes to `os.chmod`). `Chmod`
replaces the permission bits (`0o7777`) and keeps the file-type bits, so a
committed file's `st_mode` is exactly `0o100644`.

## Model

| member | source | states |
|---|---|---|
| `SafeName.SafeName` | src/bandersnatch/utils.py:225-233 | the substitution followed by lower-casing; what it guarantees is stated by `SafeNameAlphabet`, `SafeNameNoDoubleDash`, `SafeNameLength`, `SafeNameKeeps` and `SafeNameIdempotent` |
| `SafeName.Substitute` | src/bandersnatch/utils.py:37 | the output is never longer than the input, is empty exactly when the input is, and starts with `-` exactly when the input starts with a disallowed character; `SubstituteIsScan`, `SubstituteShape`, `SubstituteKeeps` and `SubstituteFixed` pin it down further |
| `SafeName.Lower` | src/bandersnatch/utils.py:233 | same length, each `A-Z` letter becomes the letter at the same place in `a-z`, every other character unchanged, and a character is in the safe alphabet afterwards exactly when it was allowed or a dash before |
| `SafeName.RunLength` | src/bandersnatch/utils.py:37 | one greedy match of `[^A-Za-z0-9.]+` consumes only disallowed characters and stops at an allowed one or at the end |
| `SafeName.ScanRuns` | src/bandersnatch/utils.py:37 | an independent reference for the substitution: a left-to-right scan that writes one `-` on entering a run of disallowed characters; `SubstituteIsScan` and `ScanRunsInRun` tie it to `Substitute` |
| `SafeName.SubstituteIsScan` | src/bandersnatch/utils.py:37 | the regex substitution equals a scan that writes one `-` on entering a run of disallowed characters and nothing while inside it |
| `SafeName.ScanRunsInRun` | src/bandersnatch/utils.py:37 | a scan that is already inside a run skips exactly that run's greedy match |
| `SafeName.SubstituteShape` | src/bandersnatch/utils.py:226-227 | after substitution every character is allowed or `-`, no `-` follows a `-`, and the text is no longer than before |
| `SafeName.KeptDropRun` | src/bandersnatch/utils.py:37 | the characters a greedy match consumes include no allowed character |
| `SafeName.SubstituteKeeps` | src/bandersnatch/utils.py:226-227 | removing the dashes from the substituted text gives exactly the allowed characters of the input, in order |
| `SafeName.SubstituteFixed` | src/bandersnatch/utils.py:233 | text already made of `a-z0-9.-` with no `--` is left unchanged by the substitution |
| `SafeName.RemoveDashesLower` | src/bandersnatch/utils.py:233 | lower-casing neither creates nor removes dashes |
| `SafeName.SafeNameAlphabet` | src/bandersnatch/utils.py:225-233 | every character of the safe name is in `a-z`, `0-9`, `.` or `-` |
| `SafeName.SafeNameNoDoubleDash` | src/bandersnatch/utils.py:227 | the safe name never holds two adjacent dashes: each run became a single `-` |
| `SafeName.SafeNameLength` | src/bandersnatch/utils.py:225-233 | the safe name is never longer than the input, and is empty exactly when the input is |
| `SafeName.SafeNameKeeps` | src/bandersnatch/utils.py:226-233 | without its dashes, the safe name is the input's allowed characters lower-cased, in their original order |
| `SafeName.SafeNameIdempotent` | src/bandersnatch/utils.py:233 | normalising a safe name again gives it back unchanged |
| `TimeStamp.MakeTimeStamp` | src/bandersnatch/utils.py:131-134 | the ISO text with `Z` appended and every `:` removed; what it guarantees is stated by `TimeStampShape` and `TimeStampStable` |
| `TimeStamp.RemoveChar` | src/bandersnatch/utils.py:134 | `str.replace(c, "")`; what it guarantees is stated by `RemoveCharContents`, `RemoveCharAppend` and `RemoveCharAbsent` |
| `TimeStamp.RemoveCharContents` | src/bandersnatch/utils.py:134 | `replace(":", "")` leaves no `:`, keeps the count of every other character, and shortens by the number of `:` |
| `TimeStamp.RemoveCharAppend` | src/bandersnatch/utils.py:134 | deleting a character from a concatenation deletes it from each part |
| `TimeStamp.RemoveCharAbsent` | src/bandersnatch/utils.py:134 | deleting a character that does not occur changes nothing |
| `TimeStamp.TimeStampShape` | src/bandersnatch/utils.py:131-134 | the stamp is the ISO text without colons followed by `Z`: no `:`, last character `Z`, length `|iso| + 1 -` the colon count, every other character kept |
| `TimeStamp.TimeStampStable` | src/bandersnatch/utils.py:131-134 | stamping the colon-free ISO text gives the same stamp as stamping the original |
| `Paths.Split` | src/bandersnatch/utils.py:182-183 | POSIX `os.path.split`; its shape is stated by `SplitShape`, and `SplitJoin` shows it undoes `Join` |
| `Paths.Dirname` | src/bandersnatch/utils.py:182 | the head of `Split`; `NormalSplit` shows the parent of a normalised path is the root or normalised and shorter |
| `Paths.Basename` | src/bandersnatch/utils.py:183 | the tail of `Split`; `SplitShape` shows it has no `/`, and `NormalSplit` that it is a non-empty name other than `.` and `..` |
| `Paths.Join` | src/bandersnatch/utils.py:191-192 | POSIX `os.path.join` of two parts; `SplitJoin` and `JoinNormal` show that splitting the result gives the parts back |
| `Paths.TempPath` | src/bandersnatch/utils.py:181-192 | the `tempfile` name `<dirname>/.<basename>.<suffix>`; `TempPathSibling` and `TempPathNormal` state where it lies and that it is never the target |
| `Paths.AfterLastSep` | src/bandersnatch/utils.py:182-183 | the split point is just past the last `/` (0 if none): nothing after it is a `/` |
| `Paths.RStripSep` | src/bandersnatch/utils.py:182 | the stripped head is a prefix with no trailing `/`, and only `/` was removed |
| `Paths.SplitShape` | src/bandersnatch/utils.py:182-183 | a dirname is empty, all `/`, or ends in a non-`/`; a basename holds no `/` |
| `Paths.AfterLastSepAppend` | src/bandersnatch/utils.py:182-183 | appending a `/`-free name after a separator puts the split point right before the name |
| `Paths.SplitJoin` | src/bandersnatch/utils.py:182-192 | splitting `join(d, n)` gives back `d` and `n` when `d` has the shape of a dirname and `n` has no `/` |
| `Paths.TempPathSibling` | src/bandersnatch/utils.py:181-194 | for every target, the temporary file has the target's dirname, its basename is `"." + basename(target) + "." + suffix`, and it is not the target |
| `Paths.NormalSplit` | src/bandersnatch/utils.py:185-186 | a normalised absolute path splits into a parent (the root or a shorter normalised path) and a non-empty `/`-free name other than `.` and `..`, and the two join back to it |
| `Paths.DotSegmentPrefix` | src/bandersnatch/utils.py:185 | cutting a path just before a `/` keeps exactly the `.` and `..` segments that start before the cut |
| `Paths.ParentOfDescendant` | src/bandersnatch/utils.py:185 | the parent of a path strictly below `f` is `f` itself or still strictly below `f` |
| `Paths.JoinNormal` | src/bandersnatch/utils.py:191-192 | joining the root or a normalised directory with a `/`-free name other than empty, `.` and `..` gives a normalised path whose dirname and basename are those two |
| `Paths.JoinNoEmptySegment` | src/bandersnatch/utils.py:191-192 | such a join never puts two `/` next to each other |
| `Paths.JoinNoDotSegment` | src/bandersnatch/utils.py:191-192 | such a join never creates a `.` or `..` segment |
| `Paths.JoinBasename` | src/bandersnatch/utils.py:202 | moving a file into directory `d` gives a normalised path directly inside `d` |
| `Paths.TempPathNormal` | src/bandersnatch/utils.py:181-192 | the temporary path of a normalised target is normalised and lives in the target's directory |
| `FileSystem.Chmod` | src/bandersnatch/utils.py:201 | `os.chmod` sets the permission bits to the requested ones and keeps the file-type bits |
| `FileSystem.ChmodRewriteMode` | src/bandersnatch/utils.py:201 | chmod with `0o100644` on a regular file yields `st_mode` `0o100644` whatever the permissions were |
| `FileSystem.PutFile` | src/bandersnatch/utils.py:191-202 | creating or replacing a regular file inside an existing directory keeps the tree well-formed |
| `FileSystem.RemoveFile` | src/bandersnatch/utils.py:215 | removing a regular file keeps the tree well-formed |
| `FileSystem.RemoveEmptyDir` | src/bandersnatch/utils.py:219 | removing a directory with no entries keeps the tree well-formed |
| `FileSystem.MoveFile` | src/bandersnatch/utils.py:202 | renaming a regular file onto a free name or onto a regular file in an existing directory keeps the tree well-formed |
| `FileSystem.ResolveDir` | src/bandersnatch/utils.py:191-192 | the kernel's walk from the root to a directory, which decides the `FileNotFoundError` and `NotADirectoryError` of `NamedTemporaryFile` and `unlink`: the first missing component gives `NotFound`, the first regular file `NotADirectory`; `ResolveDirExists`, `ResolveDirLast` and `ResolveDirBelowFile` fix its meaning |
| `FileSystem.ResolveParent` | src/bandersnatch/utils.py:215 | resolving the directory that holds a path, as `path.unlink()` does before it looks at the name; the same lemmas, applied to `Dirname(p)`, fix its meaning |
| `FileSystem.ResolveDirExists` | src/bandersnatch/utils.py:191-192 | in a well-formed tree, resolving a directory succeeds exactly when that directory exists |
| `FileSystem.ResolveDirLast` | src/bandersnatch/utils.py:191-192 | when the parent exists, a regular file in place of the directory gives `NotADirectory` and a free name gives `NotFound` |
| `FileSystem.ResolveDirBelowFile` | src/bandersnatch/utils.py:215 | every path below a regular file fails to resolve with `NotADirectory`, however deep it lies |
| `FileSystem.Disk.CreateTemp` | src/bandersnatch/utils.py:181-194 | if the target's directory exists, creates exactly one new empty file, mode `0o100600`, at the temporary path; otherwise fails with the error of resolving that directory (`NotFound` for a missing component, `NotADirectory` for a regular file on the way) and changes nothing |
| `FileSystem.Disk.Commit` | src/bandersnatch/utils.py:197-202 | with the temporary file gone, nothing changes. Otherwise the target holds the temporary file's content with mode `0o100644`, the temporary path is gone, and no other path changes. A directory target receives the file inside it, or the call fails with `DestinationExists` after the chmod |
| `FileSystem.Disk.Rewrite` | src/bandersnatch/utils.py:174-202 | the whole protocol. A block that completes leaves the target with exactly the written data and mode `0o100644`, no temporary file, and nothing else changed. A block that removes the temporary file changes nothing. A block that raises leaves the target untouched and the temporary file in place. A directory that does not resolve gives that resolution error and changes nothing |
| `FileSystem.Disk.UnlinkParentDir` | src/bandersnatch/utils.py:212-222 | a parent that does not resolve fails with the resolution error, a missing file with `NotFound`, a directory with `IsADirectory`, all before anything changes. Otherwise the file is gone, and the parent is gone exactly when it has no other entry and is not the root. A non-empty parent is no error, and nothing else changes |

## Left out

- `user_agent`, `USER_AGENT`, `WINDOWS`: they read `platform`, `sys` and the `aiohttp` version.
- The `AIO` class and the abstract classes in `src/bandersnatch/abc/`: interfaces with empty bodies, so nothing to model.
- `hash`: `hashlib` over file reads.
- `find` and `recursive_find_files`: directory walks through `os.walk` and `iterdir`.
- `convert_url_to_path`: its meaning rests on `urllib.parse.urlparse`.
- `run_in_executor`: asyncio scheduling.
- Logging calls in `unlink_parent_dir`: no effect on the model's state.
- `datetime.utcnow()`: `TimeStamp.MakeTimeStamp` takes the ISO text as a parameter.
- The random part of the temporary name: a parameter. `tempfile` creates with `O_EXCL` and retries with a fresh name up to `tempfile.TMP_MAX` times (`os.TMP_MAX`, 238328 with glibc; 10000 where `os` lacks it), so the parameter is required to name a free path. The case where every attempt collides, and `tempfile` gives up with `FileExistsError`, is not modelled.
- `SafeName.Lower`: lower-cases ASCII only. Python's `str.lower` also maps non-ASCII letters, but none reaches it, because the substitution has replaced every non-ASCII character.
- `FileSystem.Disk.CreateTemp`, `FileSystem.Disk.Commit`, `FileSystem.Disk.Rewrite` and `FileSystem.Disk.UnlinkParentDir` take only normalised absolute paths (`/a/b`: no trailing or doubled `/`, no `.` or `..` segment), so each file has one map key. Relative paths, the current directory, unresolved `.` and `..` (which `pathlib` keeps as written), and symbolic links are not modelled. For such paths the `str` branch (lines 182-183) and the `Path` branch (lines 185-186) of `rewrite` agree. The `abspath` that `tempfile` applies changes nothing.
- `FileSystem.Disk.Commit`: requires the temporary path, if present, to be a regular file. A block that replaces it with a directory is not modelled.
- `FileSystem.Disk.Rewrite`: the caller's block can only write to the temporary file or remove it. Other changes it makes to the disk are covered only by `Commit`.
- Permission errors, `EXDEV` fallbacks of `shutil.move`, disk-full and other `OSError`s from `open`, `chmod` and `rename`. In `unlink_parent_dir`, `rmdir` failures other than a non-empty directory and the root.
- Error numbers follow Linux. `unlink` on a directory gives EISDIR there (`IsADirectory`); macOS gives EPERM. `rmdir("/")` gives EBUSY on Linux; the model only needs that it fails, and the failure is swallowed either way.
- The umask: a fresh `tempfile` file is modelled with `st_mode` `0o100600`. `tempfile` asks for `0o600`, which a umask can only narrow, and the `chmod` that follows sets the bits outright, so the committed mode does not depend on it.
- The atomicity of the final rename and concurrent access: each system call is one map update.
- The `mode` and `**kw` arguments of `rewrite`: file content is a string, and encodings and binary mode are not modelled.
