/** The metadata store itself: tables of digests into the blob store, updated step by step. Each
    method is proved against the operations on what callers see. */
module DictStore {
  import opened ByteCodec
  import opened Cas
  import opened Tables
  import opened StoreView
  import opened StoreTies
  import Accounting
  import Directory
  import Inodes
  import Ordered
  import Persist
  import Seqs
  import Xattrs

  class DictMetadataStore {
    const h: Hash
    var blobs: Blobs
    var inodeMap: DigestMap
    var nextIno: u64
    var inodeData: DigestMap
    var dirData: DigestMap
    var manifestData: DigestMap
    var xattrData: DigestMap
    var refcounts: Counts
    var logicalBytes: u64
    var inodeCount: u64

    /** What callers see. */
    ghost var view: View
    /** The blobs found at the start, and every byte string pushed since, in order. */
    ghost const start: Blobs
    ghost var pushed: seq<Bytes>
    /** So far no push overwrote bytes that differ from its own, and nothing outgrew its field on
        disk. */
    ghost var intact: bool

    ghost function State(): (st: Store)
      reads this
    {
      Store(blobs, inodeMap, nextIno, inodeData, dirData, manifestData, xattrData, refcounts, logicalBytes, inodeCount)
    }

    ghost predicate Valid()
      reads this
    {
      && blobs == PutAll(h, start, pushed)
      && (intact ==> Clean(h, start, pushed) && Ties(h, State(), view))
    }

    /** Strings are only ever added to what was pushed. */
    twostate predicate Onward()
      reads this
    {
      old(pushed) <= pushed && (Clean(h, start, pushed) ==> Clean(h, start, old(pushed))) && (intact ==> old(intact))
    }

    /** So nothing pushed is lost while the store is intact. */
    twostate lemma NothingLost()
      requires old(Valid()) && Valid() && Onward() && intact
      ensures Grows(old(blobs), blobs)
    {
      hide Ties, PutAll, Clean;
      var more := pushed[|old(pushed)|..];
      assert pushed == old(pushed) + more;
      SomeMore(h, start, old(pushed), more);
      CleanGrows(h, old(blobs), more);
    }

    /** The store stays intact if and only if `fits` holds and none of the strings pushed, taken in
        order, clashes with one that is there. */
    twostate predicate Kept(fits: bool)
      reads this
    {
      Onward() && (intact <==> old(intact) && fits && Clean(h, start, pushed))
    }

    /** `State::push_all` on the shared blob store. */
    method Push(b: Bytes) returns (d: Digest)
      requires Valid()
      modifies this`blobs, this`pushed, this`intact
      ensures Valid() && Kept(true) && d == h(b) && (intact ==> Has(h, blobs, b) && Grows(old(blobs), blobs))
      ensures pushed == old(pushed) + [b] && blobs == Put(h, old(blobs), b)
      ensures intact <==> old(intact) && NoClash(h, old(blobs), b)
    {
      hide PutAll, Clean, Ties;
      ghost var st := State();
      OneMore(h, start, pushed, b);
      intact := intact && NoClash(h, blobs, b);
      pushed := pushed + [b];
      blobs := Put(h, blobs, b);
      d := h(b);
      if intact { TiesPut(h, st, b, view); }
    }

    // ------------------------------------------------- single steps on the fields

    /** `allocate_ino`. */
    method AllocateIno() returns (ino: u64)
      requires Valid()
      modifies this`nextIno, this`intact, this`view
      ensures Valid() && Kept(old(nextIno) + 1 < U64_LIMIT) && view == old(view).(nextIno := old(view).nextIno + 1)
      ensures ino == old(nextIno) && (old(intact) ==> ino == old(view).nextIno)
    {
      hide InodesTie, DirsTie, ManifestsTie, XattrsTie, Numbered, PutAll, Clean;
      ghost var st := State();
      ino := nextIno;
      intact := intact && ino + 1 < U64_LIMIT;
      nextIno := (nextIno + 1) % U64_LIMIT;
      view := view.(nextIno := view.nextIno + 1);
      if intact { TiesCounters(h, st, old(view), State(), view); }
    }

    method PutInode(ino: u64, d: Digest, ghost m: Inode)
      requires Valid() && (intact ==> HoldsInode(blobs, d, m) && m.ino == ino < view.nextIno)
      modifies this`inodeMap, this`inodeData, this`view
      ensures Valid() && view == old(view).(inodes := old(view).inodes[ino := m])
    {
      hide Ties, PutAll, Clean;
      ghost var st := State();
      inodeMap := inodeMap[ino := d];
      inodeData := inodeData[ino := d];
      view := view.(inodes := view.inodes[ino := m]);
      if intact { TiesInode(h, st, old(view), ino, m, d); }
    }

    method AddBytes(n: u64)
      requires Valid()
      modifies this`logicalBytes, this`view
      ensures Valid() && view == old(view).(logicalBytes := (old(view).logicalBytes + n) % U64_LIMIT)
    {
      hide InodesTie, DirsTie, ManifestsTie, XattrsTie, Numbered, PutAll, Clean;
      ghost var st := State();
      logicalBytes := (logicalBytes + n) % U64_LIMIT;
      view := view.(logicalBytes := (view.logicalBytes + n) % U64_LIMIT);
      if intact { TiesCounters(h, st, old(view), State(), view); }
    }

    method SubBytes(n: u64)
      requires Valid()
      modifies this`logicalBytes, this`view
      ensures Valid() && view == old(view).(logicalBytes := SaturatingSub(old(view).logicalBytes, n))
    {
      hide InodesTie, DirsTie, ManifestsTie, XattrsTie, Numbered, PutAll, Clean;
      ghost var st := State();
      logicalBytes := SaturatingSub(logicalBytes, n);
      view := view.(logicalBytes := SaturatingSub(view.logicalBytes, n));
      if intact { TiesCounters(h, st, old(view), State(), view); }
    }

    method CountUp()
      requires Valid()
      modifies this`inodeCount, this`view
      ensures Valid() && view == old(view).(inodeCount := (old(view).inodeCount + 1) % U64_LIMIT)
    {
      hide InodesTie, DirsTie, ManifestsTie, XattrsTie, Numbered, PutAll, Clean;
      ghost var st := State();
      inodeCount := (inodeCount + 1) % U64_LIMIT;
      view := view.(inodeCount := (view.inodeCount + 1) % U64_LIMIT);
      if intact { TiesCounters(h, st, old(view), State(), view); }
    }

    method PutDir(ino: u64, d: Digest, ghost m: map<Name, nat>)
      requires Valid() && (intact ==> Directory.DirOf(h, blobs, d, m))
      modifies this`dirData, this`view
      ensures Valid() && view == old(view).(dirs := old(view).dirs[ino := m])
    {
      hide Ties, PutAll, Clean;
      ghost var st := State();
      dirData := dirData[ino := d];
      view := view.(dirs := view.dirs[ino := m]);
      if intact { TiesDir(h, st, old(view), ino, m, d); }
    }

    // ---------------------------------------------------------- reference counts

    method IncrementRefcount(d: Digest)
      requires Valid()
      modifies this`refcounts, this`view
      ensures Valid() && view == IncRef(old(view), d)
    {
      hide InodesTie, DirsTie, ManifestsTie, XattrsTie, Numbered, PutAll, Clean;
      ghost var st := State();
      var n: u64 := if d in refcounts then refcounts[d] else 0;
      if n != U64_MAX { refcounts := refcounts[d := n + 1]; }
      assert refcounts == Raised(st.refcounts, d);
      hide Raised;
      view := IncRef(view, d);
      if intact { TiesCounters(h, st, old(view), State(), view); }
    }

    method DecrementRefcount(d: Digest)
      requires Valid()
      modifies this`refcounts, this`view
      ensures Valid() && view == DecRef(old(view), d)
    {
      hide InodesTie, DirsTie, ManifestsTie, XattrsTie, Numbered, PutAll, Clean;
      ghost var st := State();
      if d in refcounts && refcounts[d] != U64_MAX {
        if refcounts[d] <= 1 { refcounts := refcounts - {d}; } else { refcounts := refcounts[d := refcounts[d] - 1]; }
      }
      assert refcounts == Lowered(st.refcounts, d);
      hide Lowered;
      view := DecRef(view, d);
      if intact { TiesCounters(h, st, old(view), State(), view); }
    }

    // -------------------------------------------------------------------- inodes

    /** `load_inode`. */
    method LoadInode(d: Digest) returns (r: Result<Inode, MetaError>)
      ensures r == if d in blobs then Inodes.DecodeInode(blobs[d]) else Err(Corrupted)
    {
      if d !in blobs { return Err(Corrupted); }
      r := Inodes.DecodeInode(blobs[d]);
    }

    method GetInode(ino: u64) returns (r: Result<Inode, MetaError>)
      requires Valid()
      ensures intact ==> r == StoreView.GetInode(view, ino)
      ensures r.Ok? ==> Inodes.InodeFits(r.value)
    {
      if ino !in inodeData {
        if intact { HeldInode(h, State(), view, ino); }
        return Err(NotFound);
      }
      r := LoadInode(inodeData[ino]);
      if intact { HeldInode(h, State(), view, ino); }
      if r.Ok? { Inodes.InodeCodec(r.value, blobs[inodeData[ino]]); }
    }

    /** The recorded size of an inode, 0 when it cannot be loaded. */
    method SizeOf(ino: u64) returns (size: u64)
      requires Valid() && ino in inodeData
      ensures intact ==> ino in view.inodes && size == view.inodes[ino].size
    {
      hide Ties;
      var meta := LoadInode(inodeData[ino]);
      size := 0;
      if meta.Ok? {
        Inodes.InodeCodec(meta.value, blobs[inodeData[ino]]);
        size := meta.value.size;
      }
      if intact { HeldInode(h, State(), view, ino); }
    }

    /** `intern_inode`. */
    method InternInode(m: Inode) returns (d: Digest)
      requires Valid() && Inodes.InodeFits(m)
      modifies this`blobs, this`pushed, this`intact
      ensures Valid() && Kept(true) && (intact ==> HoldsInode(blobs, d, m))
      ensures pushed == old(pushed) + [Inodes.EncodeInode(m)]
    {
      var b := Inodes.SerializeInode(m);
      d := Push(b);
    }

    /** Interns an inode and records it in both tables. */
    method StoreInode(ino: u64, m: Inode)
      requires Valid() && Inodes.InodeFits(m) && m.ino == ino && (intact ==> ino < view.nextIno)
      modifies this`blobs, this`pushed, this`intact, this`inodeMap, this`inodeData, this`view
      ensures Valid() && Kept(true) && view == old(view).(inodes := old(view).inodes[ino := m])
      ensures pushed == old(pushed) + [Inodes.EncodeInode(m)]
    {
      hide Ties, HoldsInode, Grows, PutAll, Clean;
      var d := InternInode(m);
      PutInode(ino, d, m);
    }

    method CreateInode(meta: Inode) returns (ino: u64)
      requires Valid() && Inodes.InodeFits(meta)
      modifies this
      ensures Valid() && Kept(old(view).nextIno + 1 < U64_LIMIT)
      ensures intact ==> (view, ino) == StoreView.CreateInode(old(view), meta)
      ensures pushed == old(pushed) + [Inodes.EncodeInode(meta.(ino := old(nextIno)))]
    {
      hide Ties, Grows, PutAll, Clean, Inodes.EncodeInode;
      ino := AllocateIno();
      var full := meta.(ino := ino);
      StoreInode(ino, full);
      CountInode(full.size);
    }

    /** A new inode enters the totals. */
    method CountInode(size: u64)
      requires Valid()
      modifies this`logicalBytes, this`inodeCount, this`view
      ensures Valid()
      ensures view == old(view).(logicalBytes := (old(view).logicalBytes + size) % U64_LIMIT,
              inodeCount := (old(view).inodeCount + 1) % U64_LIMIT)
    {
      hide Ties;
      if size > 0 { AddBytes(size); }
      CountUp();
    }

    method UpdateInode(meta: Inode) returns (r: Result<(), MetaError>)
      requires Valid() && Inodes.InodeFits(meta)
      modifies this
      ensures Valid() && Kept(true)
      ensures intact ==> match StoreView.UpdateInode(old(view), meta)
                         case Ok(v) => r == Ok(()) && view == v
                         case Err(e) => r == Err(e) && view == old(view)
      ensures pushed == old(pushed) + (if meta.ino in old(inodeData) then [Inodes.EncodeInode(meta)] else [])
    {
      hide Ties, PutAll, Clean, Inodes.EncodeInode;
      var ino := meta.ino;
      if intact { HeldInode(h, State(), view, ino); }
      if ino !in inodeData { return Err(NotFound); }
      var oldSize := SizeOf(ino);
      StoreInode(ino, meta);
      if meta.size > oldSize { AddBytes(meta.size - oldSize); }
      else if oldSize > meta.size { SubBytes(oldSize - meta.size); }
      r := Ok(());
    }

    method DeleteInode(ino: u64) returns (r: Result<(), MetaError>)
      requires Valid()
      modifies this
      ensures Valid() && Kept(true) && pushed == old(pushed)
      ensures intact ==> match StoreView.DeleteInode(old(view), ino)
                         case Ok(v) => r == Ok(()) && view == v
                         case Err(e) => r == Err(e) && view == old(view)
      ensures intact == old(intact)
    {
      hide Ties, PutAll, Clean;
      if intact { HeldInode(h, State(), view, ino); }
      if ino !in inodeData { return Err(NotFound); }
      var size := SizeOf(ino);
      DropInode(ino);
      if size > 0 { SubBytes(size); }
      CountDown();
      r := Ok(());
    }

    method DropInode(ino: u64)
      requires Valid()
      modifies this`inodeMap, this`inodeData, this`view
      ensures Valid() && view == old(view).(inodes := old(view).inodes - {ino})
    {
      hide Ties, PutAll, Clean;
      ghost var st := State();
      inodeData := inodeData - {ino};
      inodeMap := inodeMap - {ino};
      view := view.(inodes := view.inodes - {ino});
      if intact { TiesNoInode(h, st, old(view), ino); }
    }

    method CountDown()
      requires Valid()
      modifies this`inodeCount, this`view
      ensures Valid() && view == old(view).(inodeCount := SaturatingSub(old(view).inodeCount, 1))
    {
      hide InodesTie, DirsTie, ManifestsTie, XattrsTie, Numbered, PutAll, Clean;
      ghost var st := State();
      inodeCount := SaturatingSub(inodeCount, 1);
      view := view.(inodeCount := SaturatingSub(view.inodeCount, 1));
      if intact { TiesCounters(h, st, old(view), State(), view); }
    }

    // --------------------------------------------------------------- directories

    method AddName(d: Digest, name: Name, ino: u64, ghost m: map<Name, nat>) returns (r: Result<Digest, MetaError>)
      requires Valid() && (intact ==> Directory.DirOf(h, blobs, d, m))
      modifies this`blobs, this`pushed, this`intact
      ensures Valid() && Kept(Directory.NameFits(m, name))
      ensures intact ==> if IsDot(name) then r == Err(InvalidName)
                         else if name in m then r == Err(AlreadyExists)
                         else r.Ok? && Directory.DirOf(h, blobs, r.value, m[name := ino])
      ensures pushed == old(pushed) + Directory.AddPushes(h, old(blobs), d, name, ino)
    {
      hide Ties, Directory.DirOf, Directory.AddEntry, Directory.AddPushes, Directory.NameFits, PutAll, Clean, Grows,
           Directory.RemoveEntry, Directory.RemovePushes, Directory.LookupEntry, Directory.LookupPushes;
      ghost var st, more := State(), Directory.AddPushes(h, blobs, d, name, ino);
      SomeMore(h, start, pushed, more);
      Directory.PushesAre(h, blobs, d, name, ino);
      intact := intact && Directory.NameFits(m, name) && Clean(h, start, pushed + more);
      var after, added := Directory.AddDirEntry(h, blobs, d, name, ino);
      if intact {
        Directory.AddRefines(h, blobs, d, m, name, ino);
        TiesGrow(h, st, after, view);
      }
      pushed := pushed + more;
      blobs := after;
      r := added;
    }

    method RemoveName(d: Digest, name: Name, ghost m: map<Name, nat>) returns (r: Result<Digest, MetaError>)
      requires Valid() && (intact ==> Directory.DirOf(h, blobs, d, m))
      modifies this`blobs, this`pushed, this`intact
      ensures Valid() && Kept(true)
      ensures intact ==> if IsDot(name) then r == Err(InvalidName)
                         else if name !in m then r == Err(NotFound)
                         else r.Ok? && Directory.DirOf(h, blobs, r.value, m - {name})
      ensures pushed == old(pushed) + Directory.RemovePushes(h, old(blobs), d, name)
    {
      hide Ties, Directory.DirOf, Directory.RemoveEntry, Directory.RemovePushes, PutAll, Clean, Grows,
           Directory.AddEntry, Directory.AddPushes, Directory.LookupEntry, Directory.LookupPushes;
      ghost var st, more := State(), Directory.RemovePushes(h, blobs, d, name);
      SomeMore(h, start, pushed, more);
      Directory.PushesAre(h, blobs, d, name, 0);
      intact := intact && Clean(h, start, pushed + more);
      var after, removed := Directory.RemoveDirEntry(h, blobs, d, name);
      if intact {
        Directory.RemoveRefines(h, blobs, d, m, name);
        TiesGrow(h, st, after, view);
      }
      pushed := pushed + more;
      blobs := after;
      r := removed;
    }

    /** `create_dir_entries`. */
    method NewDirEntries(self: u64, parent: u64) returns (d: Digest)
      requires Valid()
      modifies this`blobs, this`pushed, this`intact
      ensures Valid() && Kept(true)
      ensures intact ==> Directory.DirOf(h, blobs, d, map[DOT := self, DOTDOT := parent])
      ensures pushed == old(pushed) + [DOT, DOTDOT, Directory.EncodeList(Directory.NewList(h, self, parent))]
    {
      hide Ties, Directory.DirOf, Directory.EncodeList, PutAll, Clean;
      var dot := Push(DOT);
      var dotdot := Push(DOTDOT);
      var entries: Directory.List := map[dot := Directory.Entry(dot, self, DOT)];
      entries := entries[dotdot := Directory.Entry(dotdot, parent, DOTDOT)];
      var b := Directory.SerializeEntryList(entries);
      d := Push(b);
      if intact { DotsPushed(h, blobs, self, parent); }
    }

    /** The inode and the entry list of a directory, both interned. */
    method InternDirectory(ino: u64, parent: u64, dir: Inode) returns (inodeDigest: Digest, listDigest: Digest)
      requires Valid() && Inodes.InodeFits(dir)
      modifies this`blobs, this`pushed, this`intact
      ensures Valid() && Kept(true)
      ensures intact ==> && HoldsInode(blobs, inodeDigest, dir)
                         && Directory.DirOf(h, blobs, listDigest, map[DOT := ino, DOTDOT := parent])
      ensures pushed == old(pushed) + [Inodes.EncodeInode(dir), DOT, DOTDOT,
                                       Directory.EncodeList(Directory.NewList(h, ino, parent))]
    {
      hide Ties, Directory.DirOf, HoldsInode, Inodes.InodeFits, Inodes.EncodeInode, Directory.EncodeList, PutAll, Clean,
           Grows;
      inodeDigest := InternInode(dir);
      label interned:
      listDigest := NewDirEntries(ino, parent);
      if intact {
        NothingLost@interned();
        HeldGrows(h, old@interned(blobs), blobs, inodeDigest, dir);
      }
    }

    method Lookup(parent: u64, name: Name) returns (r: Result<u64, MetaError>)
      requires Valid()
      modifies this`blobs, this`pushed, this`intact
      ensures Valid() && Kept(true) && (intact ==> r == StoreView.Lookup(view, parent, name))
      ensures pushed == old(pushed)
              + (if parent in dirData then Directory.LookupPushes(old(blobs), dirData[parent], name) else [])
    {
      hide Ties, Directory.DirOf, Directory.LookupEntry, Directory.LookupPushes, PutAll, Clean, Grows;
      if intact { HeldDir(h, State(), view, parent); }
      if parent !in dirData { return Err(NotADirectory); }
      ghost var st, more := State(), Directory.LookupPushes(blobs, dirData[parent], name);
      SomeMore(h, start, pushed, more);
      Directory.PushesAre(h, blobs, dirData[parent], name, 0);
      intact := intact && Clean(h, start, pushed + more);
      var after, found := Directory.LookupDirEntry(h, blobs, dirData[parent], name);
      if intact {
        Directory.LookupRefines(h, blobs, dirData[parent], view.dirs[parent], name);
        TiesGrow(h, st, after, view);
      }
      pushed := pushed + more;
      blobs := after;
      r := if found.Ok? then Ok(found.value) else Err(NotFound);
    }

    method ListDirectory(ino: u64) returns (r: Result<seq<Directory.Entry>, MetaError>)
      requires Valid()
      ensures intact ==> (r == Err(NotADirectory) <==> ino !in view.dirs)
      ensures intact && ino in view.dirs ==>
                && r.Ok?
                && (forall i :: 0 <= i < |r.value| ==>
                    r.value[i].name in view.dirs[ino]
                    && view.dirs[ino][r.value[i].name] == r.value[i].ino)
                && (forall n :: n in view.dirs[ino] ==> exists i :: 0 <= i < |r.value| && r.value[i].name == n)
                && (forall i, j :: 0 <= i < j < |r.value| ==> r.value[i].name != r.value[j].name)
    {
      hide Ties, Directory.DirOf, Directory.Sorted, Directory.Loaded;
      if intact { HeldDir(h, State(), view, ino); }
      if ino !in dirData { return Err(NotADirectory); }
      r := Directory.ListDirEntries(blobs, dirData[ino]);
      if intact { Directory.ListRefines(h, blobs, dirData[ino], view.dirs[ino]); }
    }

    method Link(parent: u64, name: Name, ino: u64) returns (r: Result<(), MetaError>)
      requires Valid()
      modifies this
      ensures Valid() && Kept(LinkFits(old(view), parent, name))
      ensures intact ==> match LinkEntry(old(view), parent, name, ino)
                         case Ok(v) => r == Ok(()) && view == v
                         case Err(e) => r == Err(e) && view == old(view)
      ensures pushed == old(pushed) + (if parent in old(dirData)
                                       then Directory.AddPushes(h, old(blobs), old(dirData)[parent], name, ino) else [])
    {
      hide Ties, Directory.DirOf, Directory.AddPushes, Directory.NameFits, PutAll, Clean;
      if intact { HeldDir(h, State(), view, parent); }
      if parent !in dirData { return Err(NotADirectory); }
      ghost var m := if parent in view.dirs then view.dirs[parent] else map[];
      var d := AddName(dirData[parent], name, ino, m);
      if d.Err? { return Err(d.error); }
      PutDir(parent, d.value, m[name := ino]);
      r := Ok(());
    }

    method Unlink(parent: u64, name: Name) returns (r: Result<(), MetaError>)
      requires Valid()
      modifies this
      ensures Valid() && Kept(true)
      ensures intact ==> match UnlinkEntry(old(view), parent, name)
                         case Ok(v) => r == Ok(()) && view == v
                         case Err(e) => r == Err(e) && view == old(view)
      ensures pushed == old(pushed) + (if parent in old(dirData)
                                       then Directory.RemovePushes(h, old(blobs), old(dirData)[parent], name) else [])
    {
      hide Ties, Directory.DirOf, Directory.RemovePushes, PutAll, Clean;
      if intact { HeldDir(h, State(), view, parent); }
      if parent !in dirData { return Err(NotADirectory); }
      ghost var m := if parent in view.dirs then view.dirs[parent] else map[];
      var d := RemoveName(dirData[parent], name, m);
      if d.Err? { return Err(d.error); }
      PutDir(parent, d.value, m - {name});
      r := Ok(());
    }

    /** The parent, if it is a directory with an entry list. */
    method ParentOf(parent: u64) returns (r: Result<Inode, MetaError>)
      requires Valid()
      ensures r.Ok? ==> Inodes.InodeFits(r.value) && parent in dirData
      ensures intact ==> r == if parent !in view.inodes then Err(NotFound)
                              else if !IsDir(view.inodes[parent]) || parent !in view.dirs then Err(NotADirectory)
                              else Ok(view.inodes[parent])
    {
      hide Ties, IsDir, Inodes.InodeFits, Directory.DirOf;
      r := GetInode(parent);
      if r.Err? { return; }
      if !IsDir(r.value) { return Err(NotADirectory); }
      if intact { HeldDir(h, State(), view, parent); }
      if parent !in dirData { return Err(NotADirectory); }
    }

    /** One more link for the parent of a new directory, and one more inode. */
    method LinkParent(parent: u64) returns (r: Result<(), MetaError>)
      requires Valid()
      modifies this
      ensures Valid() && Kept(true)
      ensures intact && parent in old(view).inodes ==>
                var p := old(view).inodes[parent];
                var more := p.(nlinks := AsU32(p.nlinks + 1));
                r == Ok(()) && view == old(view).(inodes := old(view).inodes[parent := more],
                                                  inodeCount := (old(view).inodeCount + 1) % U64_LIMIT)
    {
      hide Ties, PutAll, Clean, Grows, HoldsInode, IsDir;
      if intact { HeldInode(h, State(), view, parent); }
      var p := GetInode(parent);
      if p.Err? { return Err(p.error); }
      r := UpdateInode(p.value.(nlinks := AsU32(p.value.nlinks + 1)));
      if r.Ok? { CountUp(); }
    }

    /** The inode, the entry list and the parent's entry of a new directory; an entry that cannot be
        added leaves only unused blobs. */
    method MakeEntries(parent: u64, name: Name, ino: u64, dir: Inode) returns (r: Result<(), MetaError>)
      requires Valid() && Inodes.InodeFits(dir) && dir.ino == ino && parent in dirData
      requires intact ==> ino < view.nextIno && parent in view.dirs && parent != ino
      modifies this
      ensures Valid() && Kept(LinkFits(old(view), parent, name))
      ensures intact ==>
                if IsDot(name) then r == Err(InvalidName) && view == old(view)
                else if name in old(view).dirs[parent] then r == Err(AlreadyExists) && view == old(view)
                else r == Ok(()) && view == WithEntries(old(view), parent, name, ino, dir)
    {
      hide Ties, Directory.DirOf, HoldsInode, Inodes.InodeFits, WithEntries, Directory.NameFits, PutAll, Clean, Grows,
           Directory.AddPushes, Directory.EncodeList, Directory.NewList, Inodes.EncodeInode;
      ghost var m := if parent in view.dirs then view.dirs[parent] else map[];
      var parentDigest := dirData[parent];
      var inodeDigest, listDigest := InternDirectory(ino, parent, dir);
      label interned:
      if intact { HeldDir(h, State(), view, parent); }
      var d := AddName(parentDigest, name, ino, m);
      if intact {
        NothingLost@interned();
        HeldGrows(h, old@interned(blobs), blobs, inodeDigest, dir);
        Directory.OldDigestsResolve(h, old@interned(blobs), blobs, listDigest, map[DOT := ino, DOTDOT := parent]);
      }
      if d.Err? { return Err(d.error); }
      PutEntries(parent, name, ino, inodeDigest, listDigest, d.value, dir, m);
      r := Ok(());
    }

    method PutEntries(parent: u64, name: Name, ino: u64, inodeDigest: Digest, listDigest: Digest, parentDigest: Digest,
                      ghost dir: Inode, ghost m: map<Name, nat>)
      requires Valid()
      requires intact ==>
                 && HoldsInode(blobs, inodeDigest, dir) && dir.ino == ino < view.nextIno
                 && Directory.DirOf(h, blobs, listDigest, map[DOT := ino, DOTDOT := parent])
                 && Directory.DirOf(h, blobs, parentDigest, m[name := ino])
                 && parent in view.dirs && m == view.dirs[parent]
      modifies this`inodeMap, this`inodeData, this`dirData, this`view
      ensures Valid() && (intact ==> view == WithEntries(old(view), parent, name, ino, dir))
    {
      hide Ties, Directory.DirOf, HoldsInode, PutAll, Clean;
      PutInode(ino, inodeDigest, dir);
      PutDir(ino, listDigest, map[DOT := ino, DOTDOT := parent]);
      PutDir(parent, parentDigest, m[name := ino]);
    }

    method CreateDirectory(parent: u64, name: Name, meta: Inode) returns (r: Result<u64, MetaError>)
      requires Valid() && Inodes.InodeFits(meta)
      modifies this
      ensures Valid() && Kept(DirectoryFits(old(view), parent, name))
      ensures intact ==> (view, r) == StoreView.CreateDirectory(old(view), parent, name, meta)
    {
      hide Ties, IsDir, Inodes.InodeFits, StoreView.CreateDirectory, WithEntries, DirectoryInode, Directory.NameFits,
           PutAll, Clean;
      if intact {
        HeldInode(h, State(), view, parent);
        DirectoryMade(view, parent, name, meta);
      }
      var checked := ParentOf(parent);
      if checked.Err? { return Err(checked.error); }
      var ino := AllocateIno();
      var dir := DirectoryInode(meta, ino);
      DirectoryInodeFits(meta, ino);
      var added := MakeEntries(parent, name, ino, dir);
      if added.Err? { return Err(added.error); }
      var counted := LinkParent(parent);
      if counted.Err? { return Err(counted.error); }
      r := Ok(ino);
    }

    // ------------------------------------------------------------------ manifests

    method SetManifest(ino: u64, blocks: seq<Digest>)
      requires Valid()
      modifies this`blobs, this`pushed, this`intact, this`manifestData, this`view
      ensures Valid() && Kept(true) && view == StoreView.SetManifest(old(view), ino, blocks)
      ensures pushed == old(pushed) + [DigestList(blocks)]
    {
      hide Ties, PutAll, Clean;
      var b := EncodeManifest(blocks);
      var d := Push(b);
      ghost var st := State();
      manifestData := manifestData[ino := d];
      view := StoreView.SetManifest(view, ino, blocks);
      if intact { TiesManifest(h, st, old(view), ino, blocks, d); }
    }

    method GetManifest(ino: u64) returns (r: Result<seq<Digest>, MetaError>)
      requires Valid()
      ensures intact ==> r == StoreView.GetManifest(view, ino)
    {
      hide Ties, DigestList, DecodeManifest;
      if intact { HeldManifest(h, State(), view, ino); }
      if ino !in manifestData { return Err(NotFound); }
      if manifestData[ino] !in blobs { return Err(Corrupted); }
      r := DeserializeManifest(blobs[manifestData[ino]]);
    }

    // ----------------------------------------------------------------- attributes

    /** `load_xattrs`. */
    method LoadXattrs(ino: u64) returns (r: Result<Xattrs.Attrs, MetaError>)
      requires Valid() && ino in xattrData
      ensures intact ==> ino in view.xattrs && r == Ok(view.xattrs[ino])
    {
      hide Ties, Xattrs.DecodeAttrs;
      if intact { HeldXattrs(h, State(), view, ino); }
      if xattrData[ino] !in blobs { return Err(Corrupted); }
      r := Xattrs.DeserializeXattrs(blobs[xattrData[ino]]);
    }

    /** `intern_xattrs`, and the table entry. */
    method StoreXattrs(ino: u64, xs: Xattrs.Attrs)
      requires Valid()
      modifies this`blobs, this`pushed, this`intact, this`xattrData, this`view
      ensures Valid() && Kept(Xattrs.AttrsFit(xs)) && view == old(view).(xattrs := old(view).xattrs[ino := xs])
      ensures pushed == old(pushed) + [Xattrs.EncodeAttrs(xs)]
    {
      hide Ties, Xattrs.EncodeAttrs, Xattrs.AttrsFit, PutAll, Clean;
      intact := intact && Xattrs.AttrsFit(xs);
      var b := Xattrs.SerializeXattrs(xs);
      var d := Push(b);
      ghost var st := State();
      xattrData := xattrData[ino := d];
      view := view.(xattrs := view.xattrs[ino := xs]);
      if intact { TiesXattrs(h, st, old(view), ino, xs, d); }
    }

    method SetXattr(ino: u64, name: Name, value: Bytes) returns (r: Result<(), MetaError>)
      requires Valid()
      modifies this`blobs, this`pushed, this`intact, this`xattrData, this`view
      ensures Valid() && Kept(Xattrs.AttrsFit(Xattrs.SetAttr(AttrsOf(old(view), ino), name, value)))
      ensures intact ==> r == Ok(()) && view == StoreTies.SetXattr(old(view), ino, name, value)
      ensures old(intact) ==>
              pushed == old(pushed)
              + [Xattrs.EncodeAttrs(Xattrs.SetAttr(AttrsOf(old(view), ino), name, value))]
    {
      hide Ties, PutAll, Clean, Xattrs.AttrsFit;
      if intact { HeldXattrs(h, State(), view, ino); }
      var xs: Xattrs.Attrs := [];
      if ino in xattrData {
        var loaded := LoadXattrs(ino);
        if loaded.Err? { return Err(loaded.error); }
        xs := loaded.value;
      }
      xs := Xattrs.SetXattrEntry(xs, name, value);
      StoreXattrs(ino, xs);
      r := Ok(());
    }

    method GetXattr(ino: u64, name: Name) returns (r: Result<Bytes, MetaError>)
      requires Valid()
      ensures intact ==> r == StoreTies.GetXattr(view, ino, name)
    {
      hide Ties;
      if intact { HeldXattrs(h, State(), view, ino); }
      if ino !in xattrData { return Err(NotFound); }
      var loaded := LoadXattrs(ino);
      if loaded.Err? { return Err(loaded.error); }
      var k := Xattrs.FindAttr(loaded.value, name);
      r := if k < |loaded.value| then Ok(loaded.value[k].1) else Err(NotFound);
    }

    method ListXattrs(ino: u64) returns (r: Result<seq<Name>, MetaError>)
      requires Valid()
      ensures intact ==> r == Ok(Xattrs.ListNames(AttrsOf(view, ino)))
    {
      hide Ties;
      if intact { HeldXattrs(h, State(), view, ino); }
      if ino !in xattrData { return Ok([]); }
      var loaded := LoadXattrs(ino);
      if loaded.Err? { return Err(loaded.error); }
      r := Ok(Xattrs.ListNames(loaded.value));
    }

    method RemoveXattr(ino: u64, name: Name) returns (r: Result<(), MetaError>)
      requires Valid()
      modifies this`blobs, this`pushed, this`intact, this`xattrData, this`view
      ensures Valid() && Kept(true)
      ensures intact ==> match StoreTies.RemoveXattr(old(view), ino, name)
                         case Ok(v) => r == Ok(()) && view == v
                         case Err(e) => r == Err(e) && view == old(view)
    {
      hide Ties, PutAll, Clean, Xattrs.AttrsFit;
      if intact { HeldXattrs(h, State(), view, ino); }
      if ino !in xattrData { return Err(NotFound); }
      var loaded := LoadXattrs(ino);
      if loaded.Err? { return Err(loaded.error); }
      var xs, removed := Xattrs.RemoveXattrEntry(loaded.value, name);
      if !removed { return Err(NotFound); }
      if intact { AttrsLeftFit(h, State(), view, ino, name); }
      StoreXattrs(ino, xs);
      r := Ok(());
    }

    // ----------------------------------------------------------- a fresh store

    constructor (h: Hash, blobs: Blobs, uid: u32, gid: u32)
      ensures Valid() && this.h == h && start == blobs && pushed == FreshPushes(h, uid, gid)
      ensures intact <==> Clean(h, blobs, FreshPushes(h, uid, gid))
      ensures intact ==> Grows(blobs, this.blobs) && view == FreshView(uid, gid)
    {
      this.h, this.blobs, start, pushed := h, blobs, blobs, [];
      inodeMap, nextIno, inodeData, dirData, manifestData, xattrData := map[], 2, map[], map[], map[], map[];
      refcounts, logicalBytes, inodeCount := map[], 0, 1;
      view := View(map[], map[], map[], map[], map[], 2, 0, 1);
      intact := true;
      new;
      assert Ties(h, State(), view) by { EmptyTies(h, State(), view); }
      assert Valid();
      hide *;
      MakeRoot(uid, gid);
      assert [] + FreshPushes(h, uid, gid) == FreshPushes(h, uid, gid);
      if intact { CleanGrows(h, blobs, FreshPushes(h, uid, gid)); }
    }

    /** The root directory of a new store. */
    method MakeRoot(uid: u32, gid: u32)
      requires Valid() && view == View(map[], map[], map[], map[], map[], 2, 0, 1)
      modifies this
      ensures Valid() && Kept(true) && pushed == old(pushed) + FreshPushes(h, uid, gid)
      ensures intact ==> view == FreshView(uid, gid)
    {
      hide Ties, HoldsInode, Directory.DirOf, Inodes.InodeFits, Inodes.EncodeInode, Directory.EncodeList, PutAll, Clean,
           Grows;
      var meta := RootInode(uid, gid);
      RootFits(uid, gid);
      var inodeDigest, dirDigest := InternDirectory(1, 1, meta);
      PutInode(1, inodeDigest, meta);
      PutDir(1, dirDigest, map[DOT := 1, DOTDOT := 1]);
    }

    /** A store over tables that are already there. */
    constructor FromTables(h: Hash, st: Store, ghost v: View, ghost ok: bool)
      requires ok ==> Ties(h, st, v)
      ensures Valid() && this.h == h && State() == st && view == v && intact == ok && start == st.blobs && pushed == []
    {
      this.h, blobs, start, pushed := h, st.blobs, st.blobs, [];
      inodeMap, nextIno, inodeData, dirData := st.inodeMap, st.nextIno, st.inodeData, st.dirData;
      manifestData, xattrData := st.manifestData, st.xattrData;
      refcounts, logicalBytes, inodeCount := st.refcounts, st.logicalBytes, st.inodeCount;
      view, intact := v, ok;
    }

    // -------------------------------------------------------- commit and reload

    /** `intern_u64_digest_map` and `intern_digest224_u64_map`. */
    method InternTable(l: Layout, m: Table) returns (d: Digest)
      requires Valid() && Fits(l, m)
      modifies this`blobs, this`pushed, this`intact
      ensures Valid() && Kept(true) && d == h(EncodeTable(l, m)) && pushed == old(pushed) + [EncodeTable(l, m)]
    {
      hide Ties, EncodeTable, Fits, PutAll, Clean;
      var keys := Directory.AscendingKeys(m.Keys);
      var b := SerializeTable(l, m, keys);
      d := Push(b);
    }

    method InternInodeMap(m: Table) returns (d: Digest)
      requires Valid() && Fits(InoDigest, m)
      modifies this`blobs, this`pushed, this`intact
      ensures Valid() && Kept(true) && d == h(EncodeInodeMap(m)) && pushed == old(pushed) + [EncodeInodeMap(m)]
    {
      hide Ties, PutAll, Clean;
      var keys := Directory.AscendingKeys(m.Keys);
      AllKeys(InoDigest, m);
      var b := SerializeEntries(InoDigest, m, keys);
      d := Push(b);
    }

    /** The five counted tables. */
    method CommitTables(ghost m: Persist.Meta) returns (ds: seq<Digest>)
      requires Valid() && m == MetaOf(State()) && Persist.MetaFits(m)
      modifies this`blobs, this`pushed, this`intact
      ensures Valid() && Kept(true) && ds == Persist.TableDigests(h, m)
      ensures pushed == old(pushed) + Persist.Pushes(h, m)[1..6]
    {
      hide Ties, EncodeTable, Fits, PutAll, Clean, Persist.Pushes;
      TablesInOrder(h, m, pushed);
      var inodeDataDigest := InternTable(InoDigest, inodeData);
      var dirDataDigest := InternTable(InoDigest, dirData);
      var manifestDataDigest := InternTable(InoDigest, manifestData);
      var xattrDataDigest := InternTable(InoDigest, xattrData);
      var refcountDigest := InternTable(DigestCount, refcounts);
      ds := [inodeDataDigest, dirDataDigest, manifestDataDigest, xattrDataDigest, refcountDigest];
    }

    /** `commit`: six tables, then the root record that names them. */
    method Commit() returns (root: Digest)
      requires Valid() && SizesFit(State())
      modifies this`blobs, this`pushed, this`intact
      ensures Valid() && Kept(true)
      ensures Persist.MetaFits(MetaOf(State())) && root == Persist.RootOf(h, MetaOf(State()))
      ensures pushed == old(pushed) + Persist.Pushes(h, MetaOf(State()))
      ensures intact ==> Persist.Stored(h, blobs, MetaOf(State()))
    {
      hide Ties, EncodeInodeMap, Fits, SizesFit, PutAll, Clean, Persist.RecordBytes, Persist.TableDigests,
           Persist.Stored, Persist.RootRecord, Persist.RootOf, Persist.Pushes;
      SizesMakeMetaFit(State());
      ghost var m := MetaOf(State());
      RootIs(h, m);
      var inodeMapDigest := InternInodeMap(inodeMap);
      var ds := CommitTables(m);
      var record := Persist.RecordBytes(inodeMapDigest, nextIno, ds);
      root := Push(record);
      PushedInOrder(h, m, old(pushed));
      if intact { CommitStored(h, start, old(pushed), m); }
    }
  }

  lemma RootIs(h: Hash, m: Persist.Meta)
    requires Persist.MetaFits(m)
    ensures Persist.RootRecord(h, m)
         == Persist.RecordBytes(h(EncodeInodeMap(m.inodeMap)), m.nextIno, Persist.TableDigests(h, m))
    ensures Persist.RootOf(h, m) == h(Persist.RootRecord(h, m))
  {
  }

  lemma TablesInOrder(h: Hash, m: Persist.Meta, before: seq<Bytes>)
    requires Persist.MetaFits(m)
    ensures before + [EncodeTable(InoDigest, m.inodeData)] + [EncodeTable(InoDigest, m.dirData)]
              + [EncodeTable(InoDigest, m.manifestData)] + [EncodeTable(InoDigest, m.xattrData)]
              + [EncodeTable(DigestCount, m.refcounts)]
         == before + Persist.Pushes(h, m)[1..6]
  {
    hide EncodeTable, EncodeInodeMap, Fits, Persist.RootRecord;
  }

  lemma PushedInOrder(h: Hash, m: Persist.Meta, before: seq<Bytes>)
    requires Persist.MetaFits(m)
    ensures before + [EncodeInodeMap(m.inodeMap)] + Persist.Pushes(h, m)[1..6] + [Persist.RootRecord(h, m)]
         == before + Persist.Pushes(h, m)
  {
    hide EncodeTable, EncodeInodeMap, Fits, Persist.RootRecord;
  }

  /** A commit whose pushes did not clash is stored. */
  lemma CommitStored(h: Hash, start: Blobs, before: seq<Bytes>, m: Persist.Meta)
    requires Persist.MetaFits(m) && Clean(h, start, before + Persist.Pushes(h, m))
    ensures Persist.Stored(h, PutAll(h, start, before + Persist.Pushes(h, m)), m)
  {
    hide Persist.Pushes, Persist.MetaFits, PutAll, Clean;
    SomeMore(h, start, before, Persist.Pushes(h, m));
    CleanGrows(h, PutAll(h, start, before), Persist.Pushes(h, m));
  }

  // ------------------------------------------------------------------- reloading

  /** The recorded size of one inode, 0 when it cannot be loaded. */
  method SizeIn(blobs: Blobs, d: Digest) returns (size: u64)
    ensures d in blobs && Inodes.DecodeInode(blobs[d]).Ok? ==> size == Inodes.DecodeInode(blobs[d]).value.size
  {
    size := 0;
    if d in blobs {
      var meta := Inodes.DecodeInode(blobs[d]);
      if meta.Ok? {
        Inodes.InodeCodec(meta.value, blobs[d]);
        size := meta.value.size;
      }
    }
  }

  /** The table names exactly the inodes `m`, each loadable. */
  ghost predicate Names(blobs: Blobs, inodeData: DigestMap, m: map<int, Inode>) {
    && inodeData.Keys == m.Keys
    && forall k :: k in inodeData ==> inodeData[k] in blobs && Inodes.DecodeInode(blobs[inodeData[k]]) == Ok(m[k])
  }

  /** `inode_data.values().map(size).sum()`, as 64-bit numbers. */
  method SumSizes(blobs: Blobs, inodeData: DigestMap, ghost m: map<int, Inode>) returns (n: u64)
    ensures Names(blobs, inodeData, m) ==> n == Accounting.Total(m) % U64_LIMIT
  {
    hide Names, Summed, Inodes.DecodeInode, Accounting.Total, Ordered.Ascends, Ordered.Lists, Ordered.Ascending;
    var keys := Directory.AscendingKeys(inodeData.Keys);
    ghost var known := Names(blobs, inodeData, m);
    if known { SumStarts(blobs, inodeData, m, keys); }
    n := 0;
    for i := 0 to |keys|
      invariant known ==> Summed(m, keys, i, n)
    {
      KeyIn(inodeData.Keys, keys, i);
      var size := SizeIn(blobs, inodeData[keys[i]]);
      if known {
        SizeHeld(blobs, inodeData, m, keys[i]);
        SumStep(m, keys, i, n);
      }
      n := (n + size) % U64_LIMIT;
    }
    if known { SumEnds(m, keys, n); }
  }

  lemma KeyIn(s: set<int>, keys: seq<int>, i: nat)
    requires keys == Ordered.Ascending(s) && i < |keys|
    ensures keys[i] in s
  {
    assert keys[i] in keys;
  }

  ghost predicate Within(m: map<int, Inode>, ks: seq<int>) {
    forall i :: 0 <= i < |ks| ==> ks[i] in m
  }

  /** `n` is the sum of the first `i` sizes, modulo 2^64. */
  ghost predicate Summed(m: map<int, Inode>, ks: seq<int>, i: nat, n: u64) {
    i <= |ks| && Within(m, ks) && (n + Accounting.SumOver(m, ks[i..])) % U64_LIMIT == Accounting.Total(m) % U64_LIMIT
  }

  lemma SumWraps(a: nat, b: nat)
    ensures (a % U64_LIMIT + b) % U64_LIMIT == (a + b) % U64_LIMIT
  {
  }

  lemma SumStarts(blobs: Blobs, inodeData: DigestMap, m: map<int, Inode>, keys: seq<int>)
    requires Names(blobs, inodeData, m) && keys == Ordered.Ascending(inodeData.Keys)
    ensures Summed(m, keys, 0, 0)
  {
    hide Inodes.DecodeInode;
    assert inodeData.Keys == m.Keys;
    Accounting.TotalInOrder(m);
    Seqs.Units(keys);
  }

  lemma SumStep(m: map<int, Inode>, ks: seq<int>, i: nat, n: u64)
    requires Summed(m, ks, i, n) && i < |ks|
    ensures ks[i] in m && Summed(m, ks, i + 1, (n + m[ks[i]].size) % U64_LIMIT)
  {
    assert ks[i..][1..] == ks[i + 1..];
    SumWraps(n + m[ks[i]].size, Accounting.SumOver(m, ks[i + 1..]));
  }

  lemma SumEnds(m: map<int, Inode>, ks: seq<int>, n: u64)
    requires Summed(m, ks, |ks|, n)
    ensures n == Accounting.Total(m) % U64_LIMIT
  {
    assert ks[|ks|..] == [];
  }

  lemma SizeHeld(blobs: Blobs, inodeData: DigestMap, m: map<int, Inode>, k: u64)
    requires Names(blobs, inodeData, m) && k in inodeData
    ensures k in m && inodeData[k] in blobs && Inodes.DecodeInode(blobs[inodeData[k]]) == Ok(m[k])
  {
  }

  lemma TieNames(st: Store, v: View)
    requires InodesTie(st, v)
    ensures Names(st.blobs, st.inodeData, v.inodes)
  {
    hide Inodes.DecodeInode, Inodes.EncodeInode, Inodes.InodeFits;
    forall k | k in st.inodeData
      ensures st.inodeData[k] in st.blobs && Inodes.DecodeInode(st.blobs[st.inodeData[k]]) == Ok(v.inodes[k])
    {
      assert HoldsInode(st.blobs, st.inodeData[k], v.inodes[k]);
      Inodes.InodeCodec(v.inodes[k], st.blobs[st.inodeData[k]]);
    }
  }

  method FetchTable(l: Layout, blobs: Blobs, d: Digest) returns (r: Result<Table, MetaError>)
    ensures r == Persist.LoadTable(l, blobs, d)
  {
    if d !in blobs { return Err(Corrupted); }
    r := DeserializeTable(l, blobs[d]);
  }

  method FetchInodeMap(blobs: Blobs, d: Digest) returns (r: Result<(Table, int), MetaError>)
    ensures r == Persist.LoadInodeMap(blobs, d)
  {
    if d !in blobs { return Err(Corrupted); }
    r := DeserializeInodeMap(blobs[d]);
  }

  /** `load_from_root`, up to the tables. */
  method FetchMeta(blobs: Blobs, root: Digest) returns (r: Result<Persist.Meta, MetaError>)
    ensures r == Persist.Load(blobs, root)
  {
    hide Persist.LoadTable, Persist.LoadInodeMap, ReadDigest, ReadU64, Persist.TableField;
    if root !in blobs { return Err(Corrupted); }
    var record := blobs[root];
    if |record| != 156 && |record| != 184 { return Err(Corrupted); }
    var inodeMap :- FetchInodeMap(blobs, ReadDigest(record[0..28]));
    var rootIno, nextIno := ReadU64(record[28..36]), ReadU64(record[36..44]);
    var inodeData :- FetchTable(InoDigest, blobs, Persist.TableField(record, 0));
    var dirData :- FetchTable(InoDigest, blobs, Persist.TableField(record, 1));
    var manifestData :- FetchTable(InoDigest, blobs, Persist.TableField(record, 2));
    var xattrData :- FetchTable(InoDigest, blobs, Persist.TableField(record, 3));
    var refcounts: Table := map[];
    if |record| == 184 { refcounts :- FetchTable(DigestCount, blobs, Persist.TableField(record, 4)); }
    if rootIno !in inodeData { return Err(Corrupted); }
    r := Ok(Persist.Meta(inodeMap.0, nextIno, inodeData, dirData, manifestData, xattrData, refcounts));
  }

  ghost predicate Typed(l: Layout, t: Table) {
    forall k :: k in t ==> EntryFits(l, k, t[k])
  }

  function AsDigests(t: Table): (m: DigestMap)
    requires Typed(InoDigest, t)
    ensures m == t
  {
    t
  }

  function AsCounts(t: Table): (m: Counts)
    requires Typed(DigestCount, t)
    ensures m == t
  {
    t
  }

  lemma LoadedTyped(l: Layout, blobs: Blobs, d: Digest)
    requires Persist.LoadTable(l, blobs, d).Ok?
    ensures Typed(l, Persist.LoadTable(l, blobs, d).value)
  {
    DecodedTableFits(l, blobs[d]);
  }

  lemma LoadedMapTyped(blobs: Blobs, d: Digest)
    requires Persist.LoadInodeMap(blobs, d).Ok?
    ensures Typed(InoDigest, Persist.LoadInodeMap(blobs, d).value.0)
  {
    DecodedFits(InoDigest, blobs[d]);
  }

  /** Loaded tables have keys and values of the right width. */
  lemma LoadedMetaTyped(blobs: Blobs, root: Digest)
    requires Persist.Load(blobs, root).Ok?
    ensures var m := Persist.Load(blobs, root).value;
            && Typed(InoDigest, m.inodeMap) && Typed(InoDigest, m.inodeData) && Typed(InoDigest, m.dirData)
            && Typed(InoDigest, m.manifestData) && Typed(InoDigest, m.xattrData) && Typed(DigestCount, m.refcounts)
            && 0 <= m.nextIno < U64_LIMIT
  {
    hide Persist.LoadTable, Persist.LoadInodeMap, ReadDigest, ReadU64, Persist.TableField, EntryFits;
    var record := blobs[root];
    LoadedMapTyped(blobs, ReadDigest(record[0..28]));
    LoadedTyped(InoDigest, blobs, Persist.TableField(record, 0));
    LoadedTyped(InoDigest, blobs, Persist.TableField(record, 1));
    LoadedTyped(InoDigest, blobs, Persist.TableField(record, 2));
    LoadedTyped(InoDigest, blobs, Persist.TableField(record, 3));
    if |record| == 184 { LoadedTyped(DigestCount, blobs, Persist.TableField(record, 4)); }
  }

  /** The loaded tables with their recounted totals stand for the recorded view. */
  lemma RecordedTies(h: Hash, blobs: Blobs, root: Digest, st: Store, v: View, loaded: Store)
    requires Recorded(h, blobs, root, st, v)
    requires loaded.blobs == blobs && MetaOf(loaded) == MetaOf(st)
    requires loaded.logicalBytes == Accounting.Total(v.inodes) % U64_LIMIT
    requires loaded.inodeCount == |loaded.inodeData| % U64_LIMIT
    ensures Ties(h, loaded, Accounting.Reloaded(v))
  {
    hide InodesTie, DirsTie, ManifestsTie, XattrsTie, Persist.Stored, Persist.RootOf, Accounting.Total;
    TiesGrow(h, st, blobs, v);
    assert |loaded.inodeData| == |v.inodes| by { SameSize(st, v); }
    TiesCounters(h, st.(blobs := blobs), v, loaded, Accounting.Reloaded(v));
  }

  lemma SameSize(st: Store, v: View)
    requires InodesTie(st, v)
    ensures |st.inodeData| == |v.inodes|
  {
    hide HoldsInode;
    assert st.inodeData.Keys == v.inodes.Keys;
    assert |st.inodeData.Keys| == |st.inodeData| && |v.inodes.Keys| == |v.inodes|;
  }

  lemma RecordedLoads(h: Hash, blobs: Blobs, root: Digest, st: Store, v: View)
    requires Recorded(h, blobs, root, st, v)
    ensures Persist.Load(blobs, root) == Ok(MetaOf(st)) && Names(blobs, st.inodeData, v.inodes)
  {
    hide DirsTie, ManifestsTie, XattrsTie, HoldsInode, Persist.Load, Persist.Stored, Persist.RootOf, Accounting.Total,
         Names;
    TiesGrow(h, st, blobs, v);
    TieNames(st.(blobs := blobs), v);
    Persist.LoadOfCommit(h, blobs, MetaOf(st));
    assert ROOT in st.inodeData;
  }

  /** `load_from_root`. For a state committed as `st` with view `v`, the loaded store shows `v` again,
      its totals counted anew. */
  method LoadFromRoot(h: Hash, blobs: Blobs, root: Digest, ghost st: Store, ghost v: View)
    returns (r: Result<DictMetadataStore, MetaError>)
    ensures r.Ok? <==> Persist.Load(blobs, root).Ok?
    ensures r.Ok? ==>
              && fresh(r.value) && r.value.Valid() && r.value.h == h && r.value.blobs == blobs
              && MetaOf(r.value.State()) == Persist.Load(blobs, root).value
    ensures r.Ok? ==> r.value.start == blobs && r.value.pushed == []
    ensures Recorded(h, blobs, root, st, v) ==> r.Ok? && r.value.intact && r.value.view == Accounting.Reloaded(v)
    ensures Recorded(h, blobs, root, st, v) && Accounting.Accounted(v) ==> r.value.view == v
  {
    hide Ties, Recorded, Persist.Load, Names, Accounting.Total, Accounting.Accounted;
    ghost var known := Recorded(h, blobs, root, st, v);
    if known { RecordedLoads(h, blobs, root, st, v); }
    var meta := FetchMeta(blobs, root);
    if meta.Err? { return Err(meta.error); }
    LoadedMetaTyped(blobs, root);
    var m := meta.value;
    var inodeMap, inodeData, dirData := AsDigests(m.inodeMap), AsDigests(m.inodeData), AsDigests(m.dirData);
    var manifestData, xattrData, refcounts := AsDigests(m.manifestData), AsDigests(m.xattrData), AsCounts(m.refcounts);
    var bytes := SumSizes(blobs, inodeData, v.inodes);
    var loaded := Store(blobs, inodeMap, m.nextIno, inodeData, dirData, manifestData, xattrData, refcounts,
                        bytes, |inodeData| % U64_LIMIT);
    if known { RecordedTies(h, blobs, root, st, v, loaded); }
    if known && Accounting.Accounted(v) { RecordedSame(h, blobs, root, st, v); }
    var store := new DictMetadataStore.FromTables(h, loaded, Accounting.Reloaded(v), known);
    r := Ok(store);
  }

  /** Counting anew changes nothing where the totals were exact. */
  lemma ReloadedSame(v: View)
    requires Accounting.Accounted(v) && v.logicalBytes < U64_LIMIT && v.inodeCount < U64_LIMIT
    ensures Accounting.Reloaded(v) == v
  {
    hide Accounting.Total;
  }

  lemma RecordedSame(h: Hash, blobs: Blobs, root: Digest, st: Store, v: View)
    requires Recorded(h, blobs, root, st, v) && Accounting.Accounted(v)
    ensures Accounting.Reloaded(v) == v
  {
    hide Ties, Accounting.Accounted, Accounting.Reloaded, Persist.Stored, Persist.RootOf, Grows;
    TotalsTyped(h, st, v);
    ReloadedSame(v);
  }

  /** Committing a store and loading it from the root shows the same state again. */
  method CommitAndReload(store: DictMetadataStore) returns (r: Result<DictMetadataStore, MetaError>)
    requires store.Valid() && SizesFit(store.State())
    modifies store`blobs, store`pushed, store`intact
    ensures store.Valid() && store.view == old(store.view) && store.Kept(true)
            && Persist.MetaFits(MetaOf(store.State()))
    ensures store.pushed == old(store.pushed) + Persist.Pushes(store.h, MetaOf(store.State()))
    ensures store.intact && ROOT in store.view.inodes ==>
              r.Ok? && r.value.Valid() && r.value.intact && r.value.view == Accounting.Reloaded(old(store.view))
    ensures store.intact && ROOT in store.view.inodes && Accounting.Accounted(store.view) ==>
            r.value.view == old(store.view)
  {
    hide Ties, Persist.Stored, Persist.RootOf, Persist.MetaFits, Persist.Load, Persist.Pushes, Accounting.Accounted,
         SizesFit, PutAll, Clean;
    var root := store.Commit();
    ghost var st := store.State();
    assert Grows(st.blobs, store.blobs);
    r := LoadFromRoot(store.h, store.blobs, root, st, store.view);
    if store.intact && Accounting.Accounted(store.view) {
      TotalsTyped(store.h, st, store.view);
      ReloadedSame(store.view);
    }
  }

  lemma TotalsTyped(h: Hash, st: Store, v: View)
    requires Ties(h, st, v)
    ensures v.logicalBytes < U64_LIMIT && v.inodeCount < U64_LIMIT
  {
    hide InodesTie, DirsTie, ManifestsTie, XattrsTie;
  }

  const S_IFDIR_755: nat := 16384 + 493

  function RootInode(uid: u32, gid: u32): (i: Inode) {
    Inode(1, S_IFDIR_755, uid, gid, 2, 0, 0, 0, 0, 0)
  }

  /** The root directory alone. */
  function FreshView(uid: u32, gid: u32): (v: View) {
    var dots: map<Name, nat> := map[DOT := 1, DOTDOT := 1];
    View(map[1 := RootInode(uid, gid)], map[1 := dots], map[], map[], map[], 2, 0, 1)
  }

  /** What making the root directory pushes. */
  ghost function FreshPushes(h: Hash, uid: u32, gid: u32): (ss: seq<Bytes>) {
    RootFits(uid, gid);
    [Inodes.EncodeInode(RootInode(uid, gid)), DOT, DOTDOT, Directory.EncodeList(Directory.NewList(h, 1, 1))]
  }

  lemma RootFits(uid: u32, gid: u32)
    ensures Inodes.InodeFits(RootInode(uid, gid))
  {
  }

  lemma EmptyTies(h: Hash, st: Store, v: View)
    requires v.inodes == map[] && v.dirs == map[] && v.manifests == map[] && v.xattrs == map[] && CountersTie(st, v)
    requires st.inodeData == map[] && st.dirData == map[] && st.manifestData == map[] && st.xattrData == map[]
    ensures Ties(h, st, v)
  {
  }

  lemma HeldManifest(h: Hash, st: Store, v: View, ino: u64)
    requires Ties(h, st, v)
    ensures ino in st.manifestData <==> ino in v.manifests
    ensures ino in v.manifests ==>
              var d := st.manifestData[ino]; d in st.blobs && DecodeManifest(st.blobs[d]) == Ok(v.manifests[ino])
  {
    hide InodesTie, DirsTie, XattrsTie, DigestList, DecodeManifest;
    if ino in v.manifests {
      assert HoldsManifest(st.blobs, st.manifestData[ino], v.manifests[ino]);
      ManifestCodec(v.manifests[ino], st.blobs[st.manifestData[ino]]);
    }
  }

  lemma HeldXattrs(h: Hash, st: Store, v: View, ino: u64)
    requires Ties(h, st, v)
    ensures ino in st.xattrData <==> ino in v.xattrs
    ensures ino in v.xattrs ==>
              var d := st.xattrData[ino]; d in st.blobs && Xattrs.DecodeAttrs(st.blobs[d]) == Ok(v.xattrs[ino])
  {
    hide InodesTie, DirsTie, ManifestsTie, Xattrs.EncodeAttrs, Xattrs.DecodeAttrs, Xattrs.AttrsFit;
    if ino in v.xattrs {
      assert HoldsXattrs(st.blobs, st.xattrData[ino], v.xattrs[ino]);
      Xattrs.XattrCodec(v.xattrs[ino], st.blobs[st.xattrData[ino]]);
    }
  }

  /** Attributes that fit their fields still do when one is taken away. */
  lemma AttrsLeftFit(h: Hash, st: Store, v: View, ino: u64, name: Name)
    requires Ties(h, st, v) && ino in v.xattrs
    ensures Xattrs.AttrsFit(Xattrs.Retain(v.xattrs[ino], name))
  {
    hide InodesTie, DirsTie, ManifestsTie, Xattrs.EncodeAttrs, Xattrs.AttrsFit;
    assert HoldsXattrs(st.blobs, st.xattrData[ino], v.xattrs[ino]);
    Xattrs.RetainFits(v.xattrs[ino], name);
  }

  /** `serialize` of a manifest: 28 bytes a digest. */
  method EncodeManifest(blocks: seq<Digest>) returns (b: Bytes)
    ensures b == DigestList(blocks)
  {
    b := [];
    for i := 0 to |blocks|
      invariant b == DigestList(blocks[..i])
    {
      Seqs.PrefixSnoc(blocks, i);
      b := b + DigestBytes(blocks[i]);
    }
    Seqs.Units(blocks);
  }

  lemma DotsPushed(h: Hash, blobs: Blobs, self: u64, parent: u64)
    requires Has(h, blobs, DOT) && Has(h, blobs, DOTDOT)
             && Has(h, blobs, Directory.EncodeList(Directory.NewList(h, self, parent)))
    ensures Directory.DirOf(h, blobs, h(Directory.EncodeList(Directory.NewList(h, self, parent))),
            map[DOT := self, DOTDOT := parent])
  {
    hide Directory.DirOf, Directory.EncodeList;
    Directory.DotsFit(h, self, parent);
    Directory.NewListRepresents(h, self, parent);
    Directory.PushedIsDir(h, blobs, Directory.NewList(h, self, parent), map[DOT := self, DOTDOT := parent]);
  }

  /** A new directory's inode: the directory bit is set if it is not. */
  function DirectoryInode(meta: Inode, ino: u64): (dir: Inode) {
    meta.(ino := ino, mode := if IsDir(meta) then meta.mode else meta.mode + 16384)
  }

  lemma DirectoryInodeFits(meta: Inode, ino: u64)
    requires Inodes.InodeFits(meta)
    ensures Inodes.InodeFits(DirectoryInode(meta, ino)) && DirectoryInode(meta, ino).ino == ino
  {
  }

  ghost function WithEntries(v: View, parent: nat, name: Name, ino: nat, dir: Inode): (r: View)
    requires parent in v.dirs
    ensures parent in v.inodes ==> parent in r.inodes
  {
    var dots: map<Name, nat> := map[DOT := ino, DOTDOT := parent];
    var entries: map<Name, nat> := v.dirs[parent][name := ino];
    v.(inodes := v.inodes[ino := dir], dirs := v.dirs[ino := dots][parent := entries])
  }

  /** The steps of making a directory add up to the operation callers see. */
  lemma DirectoryMade(v: View, parent: nat, name: Name, meta: Inode)
    requires parent in v.inodes ==> parent < v.nextIno
    ensures var (v', r) := StoreView.CreateDirectory(v, parent, name, meta);
            if parent !in v.inodes then v' == v && r == Err(NotFound)
            else if !IsDir(v.inodes[parent]) || parent !in v.dirs then v' == v && r == Err(NotADirectory)
            else
              var v1 := v.(nextIno := v.nextIno + 1);
              if IsDot(name) then v' == v1 && r == Err(InvalidName)
              else if name in v.dirs[parent] then v' == v1 && r == Err(AlreadyExists)
              else
                r == Ok(v.nextIno)
                && (v.nextIno < U64_LIMIT ==>
                      var v2 := WithEntries(v1, parent, name, v.nextIno, DirectoryInode(meta, v.nextIno));
                      var p := v2.inodes[parent];
                      v' == v2.(inodes := v2.inodes[parent := p.(nlinks := AsU32(p.nlinks + 1))],
                                inodeCount := (v2.inodeCount + 1) % U64_LIMIT))
  {
    hide IsDir;
  }

  lemma HeldGrows(h: Hash, a: Blobs, b: Blobs, d: Digest, m: Inode)
    requires HoldsInode(a, d, m) && Grows(a, b)
    ensures HoldsInode(b, d, m)
  {
  }

  lemma HeldDir(h: Hash, st: Store, v: View, ino: nat)
    requires Ties(h, st, v)
    ensures ino in st.dirData <==> ino in v.dirs
    ensures ino in v.dirs ==> Directory.DirOf(h, st.blobs, st.dirData[ino], v.dirs[ino])
  {
    hide InodesTie, ManifestsTie, XattrsTie, Directory.DirOf;
  }

  lemma HeldInode(h: Hash, st: Store, v: View, ino: nat)
    requires Ties(h, st, v)
    ensures (ino in st.inodeData <==> ino in v.inodes)
            && (ino in v.inodes ==> ino < v.nextIno && v.inodes[ino].ino == ino)
    ensures ino in v.inodes ==>
              var d := st.inodeData[ino]; d in st.blobs && Inodes.DecodeInode(st.blobs[d]) == Ok(v.inodes[ino])
  {
    hide DirsTie, ManifestsTie, XattrsTie, Inodes.DecodeInode, Inodes.EncodeInode, Inodes.InodeFits;
    if ino in v.inodes {
      assert HoldsInode(st.blobs, st.inodeData[ino], v.inodes[ino]);
      Inodes.InodeCodec(v.inodes[ino], st.blobs[st.inodeData[ino]]);
    }
  }
}
