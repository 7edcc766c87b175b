/**
 The file-system side of `rewrite` and `unlink_parent_dir`
 (src/bandersnatch/utils.py), over an in-memory tree: a map from
 normalised absolute path to entry.  The root `/` is implicit and always
 a directory.  Each system call the source makes (create, write, chmod,
 rename, unlink, rmdir) is one update of the map.
 */
module FileSystem {
  import opened Paths

  /** The file-type bits of a regular file, `S_IFREG >> 12`. */
  const RegularType: nat := 8

  /** `st_mode` of a file `tempfile` has just made: a regular file with
      permissions 0o600, i.e. 0o100600. */
  const TempFileMode: nat := 0x8180

  /** The mode `rewrite` hands to `os.chmod`: 0o100644. */
  const RewriteMode: nat := 0x81A4

  /** A regular file with its content and `st_mode`, or a directory. */
  datatype Entry = File(data: string, mode: nat) | Dir

  /** The exceptions these operations let escape. */
  datatype Error =
    | NotFound           // FileNotFoundError
    | NotADirectory      // NotADirectoryError
    | IsADirectory       // IsADirectoryError
    | DestinationExists  // shutil.Error: "Destination path ... already exists"
    | CallerRaised       // whatever the caller's `with` block raised

  datatype Result<T> = Ok(value: T) | Err(error: Error)

  /** What the caller's `with rewrite(...) as f:` block does with `f`: it
      writes `data` and then leaves normally, removes the temporary file
      and leaves normally, or raises. */
  datatype Block = Completes(data: string) | Discards(data: string) | Raises(data: string)

  /** `os.chmod(path, mode)`: the permission bits (0o7777) become those of
      `mode`; the file-type bits stay. */
  function Chmod(stMode: nat, mode: nat): (r: nat)
    ensures r % 0x1000 == mode % 0x1000
    ensures r / 0x1000 == stMode / 0x1000
  {
    (stMode / 0x1000) * 0x1000 + mode % 0x1000
  }

  /** chmod with 0o100644 on a regular file yields exactly 0o100644, whatever
      the permissions were. */
  lemma ChmodRewriteMode(stMode: nat)
    requires stMode / 0x1000 == RegularType
    ensures Chmod(stMode, RewriteMode) == RewriteMode
  {
  }

  predicate IsDirIn(m: map<string, Entry>, d: string)
  {
    d == Root || (d in m && m[d].Dir?)
  }

  predicate IsEmptyDir(m: map<string, Entry>, d: string)
  {
    forall p :: p in m ==> Dirname(p) != d
  }

  /** `p` is a normalised path in `m` whose parent is a directory, and if it
      is a file it is a regular file. */
  predicate WellPlaced(m: map<string, Entry>, p: string)
  {
    && p in m
    && IsNormal(p)
    && IsDirIn(m, Dirname(p))
    && (m[p].File? ==> m[p].mode / 0x1000 == RegularType)
  }

  /** A well-formed tree: every path in it is well placed.  (The trigger keeps
      the parent's own membership from instantiating the quantifier again.) */
  predicate ValidTree(m: map<string, Entry>)
  {
    forall p {:trigger WellPlaced(m, p)} :: p in m ==> WellPlaced(m, p)
  }

  /** Creating or overwriting a regular file inside an existing directory
      keeps the tree well-formed. */
  lemma PutFile(m: map<string, Entry>, p: string, f: Entry)
    requires ValidTree(m)
    requires IsNormal(p) && IsDirIn(m, Dirname(p))
    requires p !in m || m[p].File?
    requires f.File? && f.mode / 0x1000 == RegularType
    ensures ValidTree(m[p := f])
  {
    NormalSplit(p);
    var m' := m[p := f];
    forall q | q in m' ensures WellPlaced(m', q) {
      if q != p {
        assert WellPlaced(m, q);
      }
    }
  }

  /** Removing a regular file keeps the tree well-formed. */
  lemma RemoveFile(m: map<string, Entry>, p: string)
    requires ValidTree(m)
    requires p in m && m[p].File?
    ensures ValidTree(m - {p})
  {
    var m' := m - {p};
    forall q | q in m' ensures WellPlaced(m', q) {
      assert WellPlaced(m, q);
    }
  }

  /** Removing an empty directory keeps the tree well-formed. */
  lemma RemoveEmptyDir(m: map<string, Entry>, d: string)
    requires ValidTree(m)
    requires IsEmptyDir(m, d)
    ensures ValidTree(m - {d})
  {
    var m' := m - {d};
    forall q | q in m' ensures WellPlaced(m', q) {
      assert WellPlaced(m, q);
    }
  }

  /** Renaming a regular file onto a free name or onto another regular file
      inside an existing directory keeps the tree well-formed. */
  lemma MoveFile(m: map<string, Entry>, src: string, dst: string, f: Entry)
    requires ValidTree(m)
    requires src in m && m[src].File? && src != dst
    requires IsNormal(dst) && IsDirIn(m, Dirname(dst))
    requires dst !in m || m[dst].File?
    requires f.File? && f.mode / 0x1000 == RegularType
    ensures ValidTree((m - {src})[dst := f])
  {
    RemoveFile(m, src);
    assert WellPlaced(m, src);
    PutFile(m - {src}, dst, f);
  }

  /** Walking down to directory `d` one component at a time, as the kernel
      does before it creates or unlinks a name in `d`: the first component
      that is missing fails with ENOENT, the first one that is a regular file
      fails with ENOTDIR. */
  function ResolveDir(m: map<string, Entry>, d: string): Result<()>
    requires d == Root || IsNormal(d)
    decreases |d|
  {
    if d == Root then Ok(())
    else
      NormalSplit(d);
      match ResolveDir(m, Dirname(d))
      case Err(e) => Err(e)
      case Ok(_) =>
        if d !in m then Err(NotFound)
        else if m[d].File? then Err(NotADirectory)
        else Ok(())
  }

  /** Resolving the directory that holds `p`. */
  function ResolveParent(m: map<string, Entry>, p: string): Result<()>
    requires IsNormal(p)
  {
    NormalSplit(p);
    ResolveDir(m, Dirname(p))
  }

  /** In a well-formed tree, resolution succeeds exactly for the
      directories that exist. */
  lemma {:induction false} ResolveDirExists(m: map<string, Entry>, d: string)
    requires ValidTree(m)
    requires d == Root || IsNormal(d)
    ensures ResolveDir(m, d).Ok? <==> IsDirIn(m, d)
    decreases |d|
  {
    if d != Root {
      NormalSplit(d);
      ResolveDirExists(m, Dirname(d));
      if d in m {
        assert WellPlaced(m, d);
      }
    }
  }

  /** A directory whose parent exists fails as the kernel reports it: a
      regular file there gives ENOTDIR, a free name ENOENT. */
  lemma ResolveDirLast(m: map<string, Entry>, d: string)
    requires ValidTree(m)
    requires IsNormal(d) && IsDirIn(m, Dirname(d))
    ensures d in m && m[d].File? ==> ResolveDir(m, d) == Err(NotADirectory)
    ensures d !in m ==> ResolveDir(m, d) == Err(NotFound)
  {
    NormalSplit(d);
    ResolveDirExists(m, Dirname(d));
  }

  /** A regular file in the way yields ENOTDIR for every path below it. */
  lemma {:induction false} ResolveDirBelowFile(m: map<string, Entry>, f: string, d: string)
    requires ValidTree(m)
    requires f in m && m[f].File?
    requires IsNormal(d) && |f| < |d| && d[..|f|] == f && d[|f|] == '/'
    ensures ResolveDir(m, d) == Err(NotADirectory)
    decreases |d|
  {
    assert WellPlaced(m, f);
    NormalSplit(d);
    var parent := Dirname(d);
    ParentOfDescendant(f, d);
    if parent == f {
      ResolveDirLast(m, f);
    } else {
      ResolveDirBelowFile(m, f, parent);
    }
  }

  /** The state `rewrite` and `unlink_parent_dir` work on. */
  class Disk {
    var entries: map<string, Entry>

    ghost predicate Valid()
      reads this
    {
      ValidTree(entries)
    }

    constructor (init: map<string, Entry>)
      requires ValidTree(init)
      ensures Valid() && entries == init
    {
      entries := init;
    }

    /** `tempfile.NamedTemporaryFile(prefix=f".{filename}.", delete=False,
        dir=base_dir)`: an empty file at the temporary path, or the
        error the kernel reports while resolving the directory: ENOENT for
        a missing component, ENOTDIR for a regular file on the way.
        `suffix` is the random part `tempfile` settled on, a name not yet
        taken. */
    method CreateTemp(target: string, suffix: string) returns (r: Result<string>)
      requires Valid() && IsNormal(target) && '/' !in suffix
      requires TempPath(target, suffix) !in entries
      modifies this
      ensures Valid()
      ensures r.Ok? <==> IsDirIn(old(entries), Dirname(target))
      ensures r.Ok? ==> r.value == TempPath(target, suffix)
      ensures r.Ok? ==> entries == old(entries)[r.value := File("", TempFileMode)]
      ensures r.Err? ==> entries == old(entries)
      ensures r.Err? ==> ResolveParent(old(entries), target) == Err(r.error)
    {
      var dir := ResolveParent(entries, target);
      NormalSplit(target);
      ResolveDirExists(entries, Dirname(target));
      if dir.Err? {
        return Err(dir.error);
      }
      var tmp := TempPath(target, suffix);
      TempPathNormal(target, suffix);
      PutFile(entries, tmp, File("", TempFileMode));
      entries := entries[tmp := File("", TempFileMode)];
      r := Ok(tmp);
    }

    /** What follows the `with` block of `rewrite`: if the temporary file is
        gone the target is left alone; otherwise it gets mode 0o100644 and
        `shutil.move` puts it in place.  `shutil.move` onto an existing
        directory moves the file into that directory instead, and refuses
        when a file of that name is already there. */
    method Commit(target: string, tmp: string) returns (r: Result<()>)
      requires Valid() && IsNormal(target) && IsNormal(tmp)
      requires Dirname(tmp) == Dirname(target) && tmp != target
      requires tmp in entries ==> entries[tmp].File?
      modifies this
      ensures Valid()
      ensures tmp !in old(entries) ==> r == Ok(()) && entries == old(entries)
      ensures tmp in old(entries) && !(target in old(entries) && old(entries)[target].Dir?) ==>
        && r == Ok(())
        && entries == (old(entries) - {tmp})[target := File(old(entries)[tmp].data, RewriteMode)]
      ensures tmp in old(entries) && target in old(entries) && old(entries)[target].Dir? ==>
        var inside := Join(target, Basename(tmp));
        var staged := File(old(entries)[tmp].data, RewriteMode);
        if inside in old(entries) then
          r == Err(DestinationExists) && entries == old(entries)[tmp := staged]
        else
          r == Ok(()) && entries == (old(entries) - {tmp})[inside := staged]
    {
      if tmp !in entries {
        return Ok(());
      }
      // os.chmod(filepath_tmp, 0o100644)
      var f := entries[tmp];
      assert WellPlaced(entries, tmp);
      ChmodRewriteMode(f.mode);
      var staged := File(f.data, Chmod(f.mode, RewriteMode));
      PutFile(entries, tmp, staged);
      entries := entries[tmp := staged];
      assert entries - {tmp} == old(entries) - {tmp};
      // shutil.move(filepath_tmp, filepath)
      var dst := target;
      if target in entries && entries[target].Dir? {
        dst := Join(target, Basename(tmp));
        JoinBasename(target, tmp);
        if dst in entries {
          return Err(DestinationExists);
        }
      }
      MoveFile(entries, tmp, dst, staged);
      entries := (entries - {tmp})[dst := staged];
      r := Ok(());
    }

    /** The whole `with rewrite(target) as f:` protocol: stage the temporary
        file, let the caller's block write to it, then commit. */
    method Rewrite(target: string, suffix: string, block: Block) returns (r: Result<()>)
      requires Valid() && IsNormal(target) && '/' !in suffix
      requires TempPath(target, suffix) !in entries
      modifies this
      ensures Valid()
      // no directory to stage in: the resolution error escapes and nothing changes
      ensures !IsDirIn(old(entries), Dirname(target)) ==>
        r == ResolveParent(old(entries), target) && r.Err? && entries == old(entries)
      // the block raised: the temporary file stays as written, the target is untouched
      ensures IsDirIn(old(entries), Dirname(target)) && block.Raises? ==>
        && r == Err(CallerRaised)
        && entries == old(entries)[TempPath(target, suffix) := File(block.data, TempFileMode)]
      // the block removed the temporary file: nothing changes
      ensures IsDirIn(old(entries), Dirname(target)) && block.Discards? ==>
        r == Ok(()) && entries == old(entries)
      // the block completed: the target now holds what was written, with mode
      // 0o100644, the temporary path is gone, and no other path changed
      ensures IsDirIn(old(entries), Dirname(target)) && block.Completes?
              && !(target in old(entries) && old(entries)[target].Dir?) ==>
        && r == Ok(())
        && entries == old(entries)[target := File(block.data, RewriteMode)]
        && TempPath(target, suffix) !in entries
      // the block completed but the target is a directory: the file lands inside it
      ensures IsDirIn(old(entries), Dirname(target)) && block.Completes?
              && target in old(entries) && old(entries)[target].Dir? ==>
        var inside := Join(target, Basename(TempPath(target, suffix)));
        if inside in old(entries) then
          && r == Err(DestinationExists)
          && entries == old(entries)[TempPath(target, suffix) := File(block.data, RewriteMode)]
        else
          r == Ok(()) && entries == old(entries)[inside := File(block.data, RewriteMode)]
    {
      var staged := CreateTemp(target, suffix);
      if staged.Err? {
        return Err(staged.error);
      }
      var tmp := staged.value;
      TempPathNormal(target, suffix);
      TempPathSibling(target, suffix);
      // the caller writes through `f`; closing it flushes what was written
      PutFile(entries, tmp, File(block.data, TempFileMode));
      entries := entries[tmp := File(block.data, TempFileMode)];
      match block {
        case Raises(_) =>
          return Err(CallerRaised);
        case Discards(_) =>
          RemoveFile(entries, tmp);
          entries := entries - {tmp};
        case Completes(_) =>
      }
      r := Commit(target, tmp);
    }

    /** `unlink_parent_dir(path)`: remove the file, then try to remove its
        parent directory; the parent goes only if nothing else is left in
        it, and failing to remove it is not an error.  `unlink` fails first
        if the parent cannot be resolved (ENOENT, ENOTDIR), then if the name
        is free (ENOENT) or a directory (EISDIR). */
    method UnlinkParentDir(path: string) returns (r: Result<()>)
      requires Valid() && IsNormal(path)
      modifies this
      ensures Valid()
      ensures ResolveParent(old(entries), path).Err? ==>
        r == ResolveParent(old(entries), path) && entries == old(entries)
      ensures ResolveParent(old(entries), path).Ok? && path !in old(entries) ==>
        r == Err(NotFound) && entries == old(entries)
      ensures path !in old(entries) ==> r.Err? && entries == old(entries)
      ensures path in old(entries) && old(entries)[path].Dir? ==>
        r == Err(IsADirectory) && entries == old(entries)
      ensures path in old(entries) && old(entries)[path].File? ==>
        var parent := Dirname(path);
        var rest := old(entries) - {path};
        && r == Ok(())
        && entries == if parent != Root && IsEmptyDir(rest, parent) then rest - {parent} else rest
      ensures r.Ok? ==> path !in entries
      ensures r.Ok? && Dirname(path) != Root ==>
        (Dirname(path) !in entries <==> IsEmptyDir(old(entries) - {path}, Dirname(path)))
    {
      // path.unlink()
      var dir := ResolveParent(entries, path);
      NormalSplit(path);
      ResolveDirExists(entries, Dirname(path));
      assert path in entries ==> WellPlaced(entries, path);
      if dir.Err? {
        return dir;
      }
      if path !in entries {
        return Err(NotFound);
      }
      if entries[path].Dir? {
        return Err(IsADirectory);
      }
      assert WellPlaced(entries, path);
      NormalSplit(path);
      RemoveFile(entries, path);
      entries := entries - {path};
      // parent_path.rmdir(), with OSError swallowed: the root cannot be
      // removed and a directory with entries left is not removed
      var parent := Dirname(path);
      if parent != Root && IsEmptyDir(entries, parent) {
        RemoveEmptyDir(entries, parent);
        entries := entries - {parent};
      }
      r := Ok(());
    }
  }
}
