/** The filesystem over the metadata store: open handles with their two write modes, and the
    namespace operations, each as the new state and the result of one call. */
module Fs {
  import opened ByteCodec
  import opened Tables
  import opened Cas
  import opened StoreView

  datatype Errno = EBADF | EIO | ENOENT | EEXIST | ENOTDIR | EISDIR | ENOTEMPTY | EINVAL | EPERM | ENOSYS

  function ErrnoOf(e: MetaError): (r: Errno) {
    match e
    case NotFound => ENOENT
    case AlreadyExists => EEXIST
    case NotADirectory => ENOTDIR
    case InvalidName => EINVAL
    case Corrupted => EIO
  }

  /** Sequential writes feed a hash accumulator; the first write elsewhere moves the handle to a
      plain buffer for good. */
  datatype WriteMode = Streaming(acc: Bytes, next: nat) | Buffered(buf: Bytes)

  datatype Handle = Handle(ino: nat, mode: WriteMode, byteCount: nat, committed: bool, lastRoot: Option<Digest>)

  datatype Fs = Fs(view: View, cas: Blobs, files: map<nat, Handle>, nextFh: nat)

  datatype Time = Time(sec: int, nsec: nat)

  const NewHandleMode: WriteMode := Streaming([], 0)

  // ----------------------------------------------------------------- byte sequences

  function Zeros(n: nat): (b: Bytes)
    ensures |b| == n
    ensures forall i :: 0 <= i < n ==> b[i] == 0
  {
    seq(n, i => 0)
  }

  /** `Vec::resize` with zeros. */
  function Resize(b: Bytes, n: nat): (r: Bytes)
    ensures |r| == n
  {
    if n <= |b| then b[..n] else b + Zeros(n - |b|)
  }

  /** Writing `data` at `off`, zero-filling up to the end of the write. A write of no bytes past the
      end still extends the file. */
  function Pwrite(b: Bytes, off: nat, data: Bytes): (r: Bytes)
    ensures |r| == if off + |data| > |b| then off + |data| else |b|
  {
    var end := off + |data|;
    var ext := if end > |b| then Resize(b, end) else b;
    ext[..off] + data + ext[end..]
  }

  /** The bytes a handle has in flight. */
  function InFlight(f: Handle): (b: Bytes) {
    if f.mode.Streaming? then f.mode.acc else f.mode.buf
  }

  // ------------------------------------------------------------------ open handles

  function NewHandle(ino: nat): (f: Handle) {
    Handle(ino, NewHandleMode, 0, false, None)
  }

  function AddHandle(s: Fs, ino: nat): (r: (Fs, nat)) {
    var fh := s.nextFh + 1;
    (s.(files := s.files[fh := NewHandle(ino)], nextFh := fh), fh)
  }

  function NewFile(uid: nat, gid: nat, perm: nat): (i: Inode) {
    Inode(0, 32768 + perm % 4096, uid, gid, 1, 0, 0, 0, 0, 0)
  }

  /** Creates an inode and links it; an entry that cannot be linked takes the inode with it. */
  function MakeFile(v: View, parent: nat, name: Name, meta: Inode): (r: (View, Result<nat, Errno>)) {
    var (v1, ino) := CreateInode(v, meta);
    match LinkEntry(v1, parent, name, ino)
    case Ok(v2) => (v2, Ok(ino))
    case Err(e) =>
      match DeleteInode(v1, ino)
      case Ok(v2) => (v2, Err(ErrnoOf(e)))
      case Err(_) => (v1, Err(ErrnoOf(e)))
  }

  /** `test_create`. `perm` is the mode with the umask applied. */
  function Create(s: Fs, parent: nat, name: Name, perm: nat, uid: nat, gid: nat): (r: (Fs, Result<(nat, nat), Errno>)) {
    var (v, made) := MakeFile(s.view, parent, name, NewFile(uid, gid, perm));
    match made
    case Err(e) => (s.(view := v), Err(e))
    case Ok(ino) =>
      var (s', fh) := AddHandle(s.(view := v), ino);
      (s', Ok((ino, fh)))
  }

  const S_IFREG: nat := 32768

  /** `test_mknod`: only regular files are made; no kind at all stands for one. */
  function Mknod(s: Fs, parent: nat, name: Name, kind: nat, perm: nat, uid: nat, gid: nat)
    : (r: (Fs, Result<nat, Errno>))
  {
    if kind != S_IFREG && kind != 0 then (s, Err(ENOSYS)) else MakeNode(s, parent, name, perm, uid, gid)
  }

  function MakeNode(s: Fs, parent: nat, name: Name, perm: nat, uid: nat, gid: nat): (r: (Fs, Result<nat, Errno>)) {
    var (v, made) := MakeFile(s.view, parent, name, NewFile(uid, gid, perm));
    (s.(view := v), made)
  }

  /** What a streaming handle falls back to: its own bytes, or when it has none the committed file. */
  function FallbackBase(s: Fs, f: Handle): (b: Bytes) {
    if f.byteCount > 0 then InFlight(f)
    else
      var m := Blocks(s.view, f.ino);
      if m != [] && m[0] in s.cas then s.cas[m[0]] else []
  }

  function DropRoot(v: View, root: Option<Digest>): (r: View) {
    if root.Some? then DecRef(v, root.value) else v
  }

  /** `test_write`. */
  function Write(h: Hash, s: Fs, fh: nat, off: nat, data: Bytes): (r: (Fs, Result<nat, Errno>)) {
    if fh !in s.files then (s, Err(EBADF))
    else
      var f := s.files[fh];
      match f.mode
      case Streaming(acc, next) =>
        if off != next then
          var cas := if f.byteCount > 0 then Put(h, s.cas, acc) else s.cas;
          var buf := Pwrite(FallbackBase(s, f), off, data);
          var f' := f.(mode := Buffered(buf), byteCount := |buf|, committed := false, lastRoot := None);
          (s.(view := DropRoot(s.view, f.lastRoot), cas := cas, files := s.files[fh := f']), Ok(|data|))
        else
          var f' := f.(mode := Streaming(acc + data, next + |data|), byteCount := f.byteCount + |data|,
              committed := false);
          (s.(files := s.files[fh := f']), Ok(|data|))
      case Buffered(b) =>
        var buf := Pwrite(b, off, data);
        var f' := f.(mode := Buffered(buf), byteCount := |buf|, committed := false);
        (s.(files := s.files[fh := f']), Ok(|data|))
  }

  function Touched(i: Inode, now: Time): (r: Inode) {
    i.(ctimeSec := now.sec, ctimeNsec := now.nsec)
  }

  function Stamped(i: Inode, now: Time): (r: Inode) {
    Touched(i, now).(mtimeSec := now.sec, mtimeNsec := now.nsec)
  }

  /** The last step of every commit: the inode gets its new size, if it still exists. */
  function SetSize(v: View, ino: nat, size: nat, now: Time, mtime: bool): (r: (View, Result<(), Errno>)) {
    if ino !in v.inodes then (v, Err(EIO))
    else
      var i := (if mtime then Stamped(v.inodes[ino], now) else Touched(v.inodes[ino], now)).(size := size);
      match UpdateInode(v, i)
      case Ok(v') => (v', Ok(()))
      case Err(_) => (v, Err(EIO))
  }

  /** Hands the reference over from the old root to the new one and records the manifest. */
  function Rebind(v: View, ino: nat, prior: Option<Digest>, d: Digest): (r: View) {
    var v1 := if prior.Some? && prior.value != d then DecRef(v, prior.value) else v;
    var v2 := SetManifest(v1, ino, [d]);
    if prior != Some(d) then IncRef(v2, d) else v2
  }

  /** `flush_buffer_for_fsync`: commits a snapshot of the bytes in flight; the handle stays open. */
  function Fsync(h: Hash, s: Fs, ino: nat, fh: nat, now: Time): (r: (Fs, Result<(), Errno>)) {
    if fh !in s.files || s.files[fh].byteCount == 0 then (s, Ok(()))
    else
      var f := s.files[fh];
      var d := h(InFlight(f));
      var f' := f.(committed := true, lastRoot := Some(d));
      var (v, r) := SetSize(Rebind(s.view, ino, f.lastRoot, d), ino, f.byteCount, now, true);
      (s.(view := v, cas := Put(h, s.cas, InFlight(f)), files := s.files[fh := f']), r)
  }

  /** `test_release`: closes the handle, committing what is not committed yet. */
  function Release(h: Hash, s: Fs, ino: nat, fh: nat, now: Time): (r: (Fs, Result<(), Errno>)) {
    if fh !in s.files then (s, Ok(()))
    else
      var f := s.files[fh];
      var s1 := s.(files := s.files - {fh});
      if f.byteCount == 0 then
        if !f.committed && Blocks(s.view, ino) == [] then (s1.(view := SetManifest(s.view, ino, [])), Ok(()))
        else (s1, Ok(()))
      else
        var d := h(InFlight(f));
        var s2 := s1.(cas := Put(h, s.cas, InFlight(f)));
        if f.lastRoot == Some(d) && f.committed then (s2, Ok(()))
        else
          var (v, r) := SetSize(Rebind(s.view, ino, f.lastRoot, d), ino, f.byteCount, now, true);
          (s2.(view := v), r)
  }

  /** Case A of `test_setattr_size`: truncation through an open handle. */
  function TruncateOpen(h: Hash, s: Fs, ino: nat, fh: nat, n: nat, now: Time): (r: (Fs, Result<(), Errno>))
    requires fh in s.files
  {
    var f := s.files[fh];
    var giveUp := n == 0 || f.mode.Streaming?;
    var mode :=
      if f.mode.Buffered? then Buffered(Resize(f.mode.buf, n))
      else Streaming(Resize(if f.byteCount == 0 then [] else f.mode.acc, n), n);
    var f' := f.(mode := mode, byteCount := n, committed := false, lastRoot := if giveUp then None else f.lastRoot);
    var v1 := if giveUp then DropRoot(s.view, f.lastRoot) else s.view;
    var cas := if f.mode.Streaming? && n > 0 && f.byteCount > 0 then Put(h, s.cas, f.mode.acc) else s.cas;
    var (v, r) := SetSize(v1, ino, n, now, false);
    (s.(view := v, cas := cas, files := s.files[fh := f']), r)
  }

  /** Case B: truncation of a file by path, on its committed content. */
  function TruncateClosed(h: Hash, s: Fs, ino: nat, n: nat, now: Time): (r: (Fs, Result<(), Errno>)) {
    var m := Blocks(s.view, ino);
    if m != [] && m[0] !in s.cas then (s, Err(EIO))
    else
      var content := Resize(if m == [] then [] else s.cas[m[0]], n);
      var v1 := if m == [] then s.view else DecRef(s.view, m[0]);
      var v2 :=
        if content == [] then SetManifest(v1, ino, []) else IncRef(SetManifest(v1, ino, [h(content)]), h(content));
      var cas := if content == [] then s.cas else Put(h, s.cas, content);
      var (v, r) := SetSize(v2, ino, n, now, false);
      (s.(view := v, cas := cas), r)
  }

  /** `test_setattr_size`. */
  function Truncate(h: Hash, s: Fs, ino: nat, fh: Option<nat>, n: nat, now: Time): (r: (Fs, Result<(), Errno>)) {
    if fh.Some? && fh.value in s.files then TruncateOpen(h, s, ino, fh.value, n, now)
    else TruncateClosed(h, s, ino, n, now)
  }

  /** `test_open`: opening for writing starts an empty stream, whatever the file holds. */
  function Open(h: Hash, s: Fs, ino: nat, write: bool, trunc: bool, now: Time): (r: (Fs, Result<nat, Errno>)) {
    if !write then (s.(nextFh := s.nextFh + 1), Ok(s.nextFh + 1))
    else
      var (s1, fh) := AddHandle(s, ino);
      if !trunc then (s1, Ok(fh))
      else
        match TruncateOpen(h, s1, ino, fh, 0, now)
        case (s2, Ok(_)) => (s2, Ok(fh))
        case (s2, Err(e)) => (s2.(files := s2.files - {fh}), Err(e))
  }

  function Clip(b: Bytes, off: nat, size: nat): (r: Bytes) {
    var start := if off < |b| then off else |b|;
    var end := if start + size < |b| then start + size else |b|;
    b[start..end]
  }

  /** A handle whose bytes a read of `ino` may return. */
  ghost predicate IsWriter(s: Fs, ino: nat, fh: nat) {
    fh in s.files && s.files[fh].ino == ino && s.files[fh].byteCount > 0
  }

  /** `test_read` when the handle `writer` was found, or when none was: the whole content, before
      clipping. A streaming writer's bytes pass through the blob store. */
  function ReadVia(h: Hash, s: Fs, ino: nat, writer: Option<nat>): (r: (Fs, Result<Bytes, Errno>))
    requires writer.Some? ==> writer.value in s.files
  {
    if writer.Some? then
      var f := s.files[writer.value];
      (if f.mode.Buffered? then s else s.(cas := Put(h, s.cas, f.mode.acc)), Ok(InFlight(f)))
    else if ino !in s.view.manifests then (s, Err(EIO))
    else
      var m := s.view.manifests[ino];
      if m == [] then (s, Ok([]))
      else if m[0] in s.cas then (s, Ok(s.cas[m[0]]))
      else (s, Err(EIO))
  }

  // --------------------------------------------------------------------- namespace

  function NewDir(uid: nat, gid: nat, perm: nat): (i: Inode) {
    Inode(0, 16384 + perm % 4096, uid, gid, 2, 0, 0, 0, 0, 0)
  }

  function Mkdir(s: Fs, parent: nat, name: Name, perm: nat, uid: nat, gid: nat): (r: (Fs, Result<nat, Errno>)) {
    match CreateDirectory(s.view, parent, name, NewDir(uid, gid, perm))
    case (v, Ok(ino)) => (s.(view := v), Ok(ino))
    case (v, Err(e)) => (s.(view := v), Err(ErrnoOf(e)))
  }

  predicate EmptyDir(entries: map<Name, nat>) {
    forall n :: n in entries ==> IsDot(n)
  }

  /** The entry goes, then the inode, then a link of the parent. An error in the middle keeps what was
      done. */
  function RemoveDir(v: View, parent: nat, name: Name, ino: nat): (r: (View, Result<(), Errno>)) {
    match UnlinkEntry(v, parent, name)
    case Err(e) => (v, Err(ErrnoOf(e)))
    case Ok(v1) =>
      match DeleteInode(v1, ino)
      case Err(e) => (v1, Err(ErrnoOf(e)))
      case Ok(v2) => LeaveParent(v2, parent)
  }

  /** A removed directory's parent loses the link of its `..`. */
  function LeaveParent(v: View, parent: nat): (r: (View, Result<(), Errno>)) {
    if parent !in v.inodes then (v, Err(ENOENT))
    else
      var p := v.inodes[parent];
      if p.nlinks == 0 then (v, Ok(()))
      else
        match UpdateInode(v, p.(nlinks := p.nlinks - 1))
        case Ok(v') => (v', Ok(()))
        case Err(e) => (v, Err(ErrnoOf(e)))
  }

  /** `simulate_rmdir`. */
  function Rmdir(s: Fs, parent: nat, name: Name): (r: (Fs, Result<(), Errno>)) {
    match Lookup(s.view, parent, name)
    case Err(e) => (s, Err(ErrnoOf(e)))
    case Ok(ino) =>
      if ino !in s.view.inodes then (s, Err(ENOENT))
      else if !IsDir(s.view.inodes[ino]) then (s, Err(ENOTDIR))
      else if ino !in s.view.dirs then (s, Err(ENOTDIR))
      else if !EmptyDir(s.view.dirs[ino]) then (s, Err(ENOTEMPTY))
      else
        var (v, r) := RemoveDir(s.view, parent, name, ino);
        (s.(view := v), r)
  }

  /** Takes away one link of a file whose entry is gone; the last one takes its references and the
      inode. */
  function DropLink(v: View, ino: nat): (r: View)
    requires ino in v.inodes
  {
    var i := v.inodes[ino];
    var nlinks := SaturatingSub(i.nlinks, 1);
    if nlinks == 0 then
      match DeleteInode(DecRefs(v, Blocks(v, ino)), ino)
      case Ok(v') => v'
      case Err(_) => v
    else
      match UpdateInode(v, i.(nlinks := nlinks))
      case Ok(v') => v'
      case Err(_) => v
  }

  /** `simulate_unlink`. */
  function Unlink(s: Fs, parent: nat, name: Name): (r: (Fs, Result<(), Errno>)) {
    match Lookup(s.view, parent, name)
    case Err(e) => (s, Err(ErrnoOf(e)))
    case Ok(ino) =>
      if ino !in s.view.inodes then (s, Err(ENOENT))
      else if IsDir(s.view.inodes[ino]) then (s, Err(EISDIR))
      else
        match UnlinkEntry(s.view, parent, name)
        case Err(e) => (s, Err(ErrnoOf(e)))
        case Ok(v) => (s.(view := DropLink(v, ino)), Ok(()))
  }

  /** `simulate_link`. Link counts are 32-bit and wrap. */
  function HardLink(s: Fs, ino: nat, parent: nat, name: Name, now: Time): (r: (Fs, Result<nat, Errno>)) {
    if ino !in s.view.inodes then (s, Err(ENOENT))
    else if IsDir(s.view.inodes[ino]) then (s, Err(EPERM))
    else
      match LinkEntry(s.view, parent, name, ino)
      case Err(e) => (s, Err(ErrnoOf(e)))
      case Ok(v) =>
        var i := Touched(v.inodes[ino], now);
        match UpdateInode(v, i.(nlinks := AsU32(i.nlinks + 1)))
        case Ok(v') => (s.(view := v'), Ok(ino))
        case Err(e) => (s.(view := v), Err(ErrnoOf(e)))
  }

  /** The displaced target of a rename: a file loses a link, a directory only its count. */
  function Displace(v: View, dst: nat): (r: View)
    requires dst in v.inodes
  {
    if IsDir(v.inodes[dst]) && SaturatingSub(v.inodes[dst].nlinks, 1) == 0 then v else DropLink(v, dst)
  }

  /** `simulate_rename` after the flags are checked. An error in the middle keeps what was done. */
  function Rename(s: Fs, parent: nat, name: Name, newParent: nat, newName: Name, noReplace: bool, now: Time)
    : (r: (Fs, Result<(), Errno>))
  {
    match Lookup(s.view, parent, name)
    case Err(_) => (s, Err(ENOENT))
    case Ok(src) =>
      var target := Lookup(s.view, newParent, newName);
      if noReplace && target.Ok? then (s, Err(EEXIST))
      else if target.Ok? && target.value !in s.view.inodes then (s, Err(ENOENT))
      else if target.Ok? then
        match UnlinkEntry(s.view, newParent, newName)
        case Err(e) => (s, Err(ErrnoOf(e)))
        case Ok(v) => Move(s.(view := Displace(v, target.value)), src, parent, name, newParent, newName, now)
      else Move(s, src, parent, name, newParent, newName, now)
  }

  /** The second half of a rename: link at the new place, unlink at the old, touch the inode. */
  function Move(s: Fs, src: nat, parent: nat, name: Name, newParent: nat, newName: Name, now: Time)
    : (r: (Fs, Result<(), Errno>))
  {
    match LinkEntry(s.view, newParent, newName, src)
    case Err(e) => (s, Err(ErrnoOf(e)))
    case Ok(v1) =>
      match UnlinkEntry(v1, parent, name)
      case Err(e) => (s.(view := v1), Err(ErrnoOf(e)))
      case Ok(v2) =>
        if src !in v2.inodes then (s.(view := v2), Err(ENOENT))
        else
          match UpdateInode(v2, Touched(v2.inodes[src], now))
          case Ok(v3) => (s.(view := v3), Ok(()))
          case Err(e) => (s.(view := v2), Err(ErrnoOf(e)))
  }

  function NewSymlink(uid: nat, gid: nat, size: nat): (i: Inode) {
    Inode(0, 40960 + 511, uid, gid, 1, size, 0, 0, 0, 0)
  }

  /** `simulate_symlink`: the target is stored as content. */
  function Symlink(h: Hash, s: Fs, parent: nat, name: Name, target: Bytes, uid: nat, gid: nat)
    : (r: (Fs, Result<nat, Errno>))
  {
    var (v, made) := MakeFile(s.view, parent, name, NewSymlink(uid, gid, |target|));
    match made
    case Err(e) => (s.(view := v), Err(e))
    case Ok(ino) =>
      var v1 := IncRef(SetManifest(v, ino, [h(target)]), h(target));
      (s.(view := v1, cas := Put(h, s.cas, target)), Ok(ino))
  }
}
