/** When a call keeps the links in order: exactly when its guard holds. What a rename does otherwise. */
module Renames {
  import opened ByteCodec
  import opened Cas
  import opened StoreView
  import opened Links
  import opened Fs
  import opened FsRuns

  /** A rename of a file over nothing or over a file does what it says if and only if it does not
      name the same place twice. Then the file's entry is removed, and with its last link the file. */
  lemma RenameMovesIff(s: Fs, parent: nat, name: Name, newParent: nat, newName: Name, now: Time)
    requires LinkInv(s.view) && IsEntry(s.view, (parent, name)) && !LiveDir(s.view, s.view.dirs[parent][name])
    requires newParent in s.view.dirs && !IsDot(newName)
    requires newName in s.view.dirs[newParent] ==> !LiveDir(s.view, s.view.dirs[newParent][newName])
    ensures var (s', r) := Rename(s, parent, name, newParent, newName, false, now);
            (r.Ok? && IsEntry(s'.view, (newParent, newName))
             && Target(s'.view, (newParent, newName)) == s.view.dirs[parent][name]
             && !IsEntry(s'.view, (parent, name)))
            <==> (parent, name) != (newParent, newName)
  {
    hide IsDir, DirLinked, FileLinked, LinkInv, DropLink;
    var v, src := s.view, s.view.dirs[parent][name];
    if newName in v.dirs[newParent] {
      var dst := v.dirs[newParent][newName];
      DropLinkKeeps(v, newParent, newName);
      DropLinkFrame(UnlinkEntry(v, newParent, newName).value, dst);
      if (parent, name) != (newParent, newName) {
        SourceStays(v, parent, name, newParent, newName);
        var v' := DropLink(UnlinkEntry(v, newParent, newName).value, dst);
        MoveMoves(s.(view := v'), src, parent, name, newParent, newName, now);
      }
    } else {
      MoveMoves(s, src, parent, name, newParent, newName, now);
    }
  }

  lemma MoveMoves(s: Fs, src: nat, parent: nat, name: Name, newParent: nat, newName: Name, now: Time)
    requires LinkInv(s.view) && IsEntry(s.view, (parent, name)) && s.view.dirs[parent][name] == src
    requires newParent in s.view.dirs && !IsDot(newName) && newName !in s.view.dirs[newParent]
    ensures var (s', r) := Move(s, src, parent, name, newParent, newName, now);
            r.Ok? && IsEntry(s'.view, (newParent, newName)) && Target(s'.view, (newParent, newName)) == src
            && !IsEntry(s'.view, (parent, name))
  {
    hide IsDir, DirLinked, FileLinked;
    assert Target(s.view, (parent, name)) in s.view.inodes;
  }

  /** Renaming a directory elsewhere leaves its `..` behind and both parents' link counts as they were:
      the links agree afterwards if and only if it stays in its parent. */
  lemma RenamedDirectoryParent(s: Fs, parent: nat, name: Name, newParent: nat, newName: Name, now: Time)
    requires LinkInv(s.view) && IsEntry(s.view, (parent, name)) && LiveDir(s.view, s.view.dirs[parent][name])
    requires newParent in s.view.dirs && newName !in s.view.dirs[newParent] && !IsDot(newName)
    ensures var (s', r) := Rename(s, parent, name, newParent, newName, false, now);
            var i := s.view.dirs[parent][name];
            r.Ok? && IsEntry(s'.view, (newParent, newName)) && Target(s'.view, (newParent, newName)) == i
            && i in s'.view.dirs && DOTDOT in s'.view.dirs[i] && s'.view.dirs[i][DOTDOT] == parent
            && (forall j :: j in s.view.inodes ==>
                j in s'.view.inodes
                && s'.view.inodes[j].nlinks == s.view.inodes[j].nlinks)
            && (LinkInv(s'.view) <==> newParent == parent)
  {
    hide IsDir, LinkInv, Move;
    var p: Place, i := (parent, name), s.view.dirs[parent][name];
    ParentAgrees(s.view, p);
    MoveMoves(s, i, parent, name, newParent, newName, now);
    MoveKeepsDots(s, i, parent, name, newParent, newName, now, i);
    MoveKeepsCounts(s, i, parent, name, newParent, newName, now);
    var v' := Move(s, i, parent, name, newParent, newName, now).0.view;
    if newParent == parent {
      RenameLinks(s, parent, name, newParent, newName, false, now);
    } else if LinkInv(v') {
      ParentAgrees(v', (newParent, newName));
    }
  }

  lemma MoveKeepsCounts(s: Fs, src: nat, parent: nat, name: Name, newParent: nat, newName: Name, now: Time)
    requires LinkInv(s.view)
    ensures var v' := Move(s, src, parent, name, newParent, newName, now).0.view;
            forall j :: j in s.view.inodes ==>
              && j in v'.inodes && v'.inodes[j].nlinks == s.view.inodes[j].nlinks
              && IsDir(v'.inodes[j]) == IsDir(s.view.inodes[j])
  {
    hide IsDir, DirLinked, FileLinked, IsDot;
    if src in s.view.inodes { KindIgnoresTime(s.view.inodes[src], now); }
  }

  /** A rename onto an existing directory succeeds, whatever that directory holds. The directory keeps
      its inode, with one link fewer, but no entry names it any more: the links never agree. */
  lemma RenameOntoDirectory(s: Fs, parent: nat, name: Name, newParent: nat, newName: Name, now: Time)
    requires LinkInv(s.view) && IsEntry(s.view, (parent, name)) && IsEntry(s.view, (newParent, newName))
    requires (parent, name) != (newParent, newName) && LiveDir(s.view, s.view.dirs[newParent][newName])
    ensures var (s', r) := Rename(s, parent, name, newParent, newName, false, now);
            var dst := s.view.dirs[newParent][newName];
            && r.Ok? && IsEntry(s'.view, (newParent, newName))
            && Target(s'.view, (newParent, newName)) == s.view.dirs[parent][name] && !IsEntry(s'.view, (parent, name))
            && LiveDir(s'.view, dst) && s'.view.inodes[dst].nlinks == s.view.inodes[dst].nlinks - 1
            && Naming(s'.view, dst) == {} && !LinkInv(s'.view)
  {
    hide IsDir, LinkInv, Move, DropLink, Naming;
    var v, src, dst := s.view, s.view.dirs[parent][name], s.view.dirs[newParent][newName];
    DisplacedDirectory(v, (newParent, newName));
    NothingDangles(v, (parent, name));
    assert (parent, name) in Naming(v, src);
    var v1 := UnlinkEntry(v, newParent, newName).value;
    var v2 := Displace(v1, dst);
    OntoMoves(s.(view := v2), src, parent, name, newParent, newName, now, dst);
    var v3 := Move(s.(view := v2), src, parent, name, newParent, newName, now).0.view;
    if LinkInv(v3) { DirIsNamed(v3, dst); }
  }

  /** A directory's only entry is not that of the root. */
  lemma OnlyEntry(v: View, q: Place)
    requires LinkInv(v) && IsEntry(v, q) && LiveDir(v, Target(v, q))
    ensures Target(v, q) != ROOT && Naming(v, Target(v, q)) == {q} && v.inodes[Target(v, q)].nlinks >= 2
  {
    hide IsDir;
    var dst := Target(v, q);
    assert DirLinked(v, dst);
    assert q in Naming(v, dst);
    assert dst != ROOT;
    var n: Name :| Naming(v, dst) == {(v.dirs[dst][DOTDOT], n)};
    assert Naming(v, dst) == {q};
  }

  /** The displaced directory loses its only entry and one link. */
  lemma DisplacedDirectory(v: View, q: Place)
    requires LinkInv(v) && IsEntry(v, q) && LiveDir(v, Target(v, q))
    ensures Target(v, q) != ROOT && Naming(v, Target(v, q)) == {q}
    ensures UnlinkEntry(v, q.0, q.1).Ok? && Target(v, q) in UnlinkEntry(v, q.0, q.1).value.inodes
    ensures var dst := Target(v, q);
            var v' := Displace(UnlinkEntry(v, q.0, q.1).value, dst);
            && Removed(v, v', q) && Naming(v', dst) == {} && v'.inodes.Keys == v.inodes.Keys
            && v'.inodes[dst].ino == dst
            && IsDir(v'.inodes[dst]) && v'.inodes[dst].nlinks == v.inodes[dst].nlinks - 1
            && (forall j :: j in v.inodes && j != dst ==> v'.inodes[j] == v.inodes[j] && v.inodes[j].ino == j)
  {
    hide IsDir, DirLinked, FileLinked, Naming;
    var dst := Target(v, q);
    OnlyEntry(v, q);
    var v1 := UnlinkEntry(v, q.0, q.1).value;
    var v' := Displace(v1, dst);
    KindIgnoresLinks(v.inodes[dst], v.inodes[dst].nlinks - 1);
    NamingRemoved(v, v', q, dst);
  }

  lemma OntoMoves(s: Fs, src: nat, parent: nat, name: Name, newParent: nat, newName: Name, now: Time, dst: nat)
    requires IsEntry(s.view, (parent, name)) && s.view.dirs[parent][name] == src && src in s.view.inodes && src != dst
    requires s.view.inodes[src].ino == src && dst in s.view.inodes && Naming(s.view, dst) == {}
    requires newParent in s.view.dirs && !IsDot(newName) && newName !in s.view.dirs[newParent]
    ensures var (s', r) := Move(s, src, parent, name, newParent, newName, now);
            && r.Ok? && IsEntry(s'.view, (newParent, newName)) && Target(s'.view, (newParent, newName)) == src
            && !IsEntry(s'.view, (parent, name)) && Naming(s'.view, dst) == {}
            && dst in s'.view.inodes && s'.view.inodes[dst] == s.view.inodes[dst]
  {
    hide IsDir, Naming;
    var p: Place, q: Place := (parent, name), (newParent, newName);
    var v1 := LinkEntry(s.view, newParent, newName, src).value;
    var v2 := UnlinkEntry(v1, parent, name).value;
    var v3 := Move(s, src, parent, name, newParent, newName, now).0.view;
    NamingAdded(s.view, v1, q, src, dst);
    NamingRemoved(v1, v3, p, dst);
  }

  lemma DirIsNamed(v: View, d: nat)
    requires LinkInv(v) && LiveDir(v, d) && d != ROOT
    ensures Naming(v, d) != {}
  {
    hide IsDir;
    assert DirLinked(v, d);
    var n: Name :| Naming(v, d) == {(v.dirs[d][DOTDOT], n)};
  }

  lemma MoveKeepsDots(s: Fs, src: nat, parent: nat, name: Name, newParent: nat, newName: Name, now: Time, d: nat)
    requires d in s.view.dirs && DOTDOT in s.view.dirs[d] && !IsDot(name) && !IsDot(newName)
    ensures var v' := Move(s, src, parent, name, newParent, newName, now).0.view;
            d in v'.dirs && DOTDOT in v'.dirs[d] && v'.dirs[d][DOTDOT] == s.view.dirs[d][DOTDOT]
  {
    hide LinkEntry, UnlinkEntry, IsDot;
    LinkKeepsDots(s.view, newParent, newName, src, d);
    var linked := LinkEntry(s.view, newParent, newName, src);
    if linked.Ok? { UnlinkKeepsDots(linked.value, parent, name, d); }
  }

  lemma LinkKeepsDots(v: View, parent: nat, name: Name, ino: nat, d: nat)
    requires d in v.dirs && DOTDOT in v.dirs[d] && !IsDot(name)
    ensures LinkEntry(v, parent, name, ino).Ok? ==>
              var v' := LinkEntry(v, parent, name, ino).value;
              d in v'.dirs && DOTDOT in v'.dirs[d] && v'.dirs[d][DOTDOT] == v.dirs[d][DOTDOT]
  {
  }

  lemma UnlinkKeepsDots(v: View, parent: nat, name: Name, d: nat)
    requires d in v.dirs && DOTDOT in v.dirs[d] && !IsDot(name)
    ensures UnlinkEntry(v, parent, name).Ok? ==>
              var v' := UnlinkEntry(v, parent, name).value;
              d in v'.dirs && DOTDOT in v'.dirs[d] && v'.dirs[d][DOTDOT] == v.dirs[d][DOTDOT]
  {
  }

  lemma ParentAgrees(v: View, p: Place)
    requires LinkInv(v) && IsEntry(v, p) && LiveDir(v, Target(v, p))
    ensures Target(v, p) in v.dirs && DOTDOT in v.dirs[Target(v, p)] && v.dirs[Target(v, p)][DOTDOT] == p.0
  {
    hide IsDir;
    var i := Target(v, p);
    assert DirLinked(v, i);
    assert p in Naming(v, i);
    var n: Name :| Naming(v, i) == {(v.dirs[i][DOTDOT], n)};
    assert p == (v.dirs[i][DOTDOT], n);
  }

  // ------------------------------------------------------- a dot entry as the source

  /** Adding an entry and counting it nowhere. */
  lemma AddedUncounted(v: View, v': View, q: Place, i: nat)
    requires LinkInv(v) && Added(v, v', q, i) && v'.inodes == v.inodes
    ensures !LinkInv(v')
  {
    hide IsDir, DirLinked, FileLinked;
    AddedSameBut(v, v', q, i);
    NamingAdded(v, v', q, i, i);
    if LinkInv(v') {
      assert i in v'.inodes;
      if IsDir(v.inodes[i]) {
        NamesOfDir(v, i);
        NamesOfDir(v', i);
      } else {
        LinkCount(v, i);
        LinkCount(v', i);
      }
    }
  }

  lemma LinkCount(v: View, i: nat)
    requires LinkInv(v) && i in v.inodes && !IsDir(v.inodes[i])
    ensures v.inodes[i].nlinks == |Naming(v, i)|
  {
    hide IsDir;
    assert FileLinked(v, i);
  }

  lemma SameChildren(v: View, v': View, d: nat)
    requires v'.dirs == v.dirs && d in v.dirs && SameKinds(v, v')
    ensures ChildDirs(v', d) == ChildDirs(v, d)
  {
    hide IsDir;
  }

  lemma ChildCount(v: View, d: nat)
    requires LinkInv(v) && LiveDir(v, d)
    ensures d in v.dirs && v.inodes[d].nlinks == 2 + |ChildDirs(v, d)|
  {
    hide IsDir;
    assert DirLinked(v, d);
  }

  /** The root has no entry, any other directory one. */
  lemma NamesOfDir(v: View, i: nat)
    requires LinkInv(v) && LiveDir(v, i)
    ensures |Naming(v, i)| == if i == ROOT then 0 else 1
  {
    hide IsDir;
    assert DirLinked(v, i);
    if i != ROOT {
      var n: Name :| Naming(v, i) == {(v.dirs[i][DOTDOT], n)};
    }
  }

  /** A directory's entry taken out and put back, but for the link it lost. */
  lemma LostLink(v: View, v': View, i: nat)
    requires LinkInv(v) && LiveDir(v, i) && v'.dirs == v.dirs && v'.inodes.Keys == v.inodes.Keys
    requires v'.inodes[i].nlinks == v.inodes[i].nlinks - 1 && IsDir(v'.inodes[i])
    requires forall j :: j in v.inodes && j != i ==> v'.inodes[j] == v.inodes[j]
    ensures !LinkInv(v')
  {
    hide IsDir;
    ChildCount(v, i);
    SameChildren(v, v', i);
    if LinkInv(v') { ChildCount(v', i); }
  }

  /** What linking a dot entry elsewhere leaves: the link is made, then the source cannot be removed. */
  lemma DotMove(s: Fs, src: nat, parent: nat, name: Name, newParent: nat, newName: Name, now: Time)
    requires IsDot(name) && parent in s.view.dirs && newParent in s.view.dirs && !IsDot(newName)
    requires newName !in s.view.dirs[newParent]
    ensures var (s', r) := Move(s, src, parent, name, newParent, newName, now);
            r == Err(EINVAL) && Added(s.view, s'.view, (newParent, newName), src) && s'.view.inodes == s.view.inodes
  {
    hide IsDot;
  }

  /** A rename whose source name is `.` or `..` reports an invalid name, but not before it has displaced
      what was at the new place and linked the directory there: the links never agree afterwards. */
  lemma RenameDotSource(s: Fs, parent: nat, name: Name, newParent: nat, newName: Name, noReplace: bool, now: Time)
    requires LinkInv(s.view) && IsDot(name) && Moves(s.view, parent, name, newParent, newName, noReplace)
    ensures var (s', r) := Rename(s, parent, name, newParent, newName, noReplace, now);
            && r == Err(EINVAL)
            && IsEntry(s'.view, (newParent, newName))
            && Target(s'.view, (newParent, newName)) == s.view.dirs[parent][name]
            && !LinkInv(s'.view)
  {
    hide IsDot, IsDir, LinkInv, Move, DropLink, Displace;
    var v, src, q: Place := s.view, s.view.dirs[parent][name], (newParent, newName);
    var v' := Rename(s, parent, name, newParent, newName, noReplace, now).0.view;
    if newName !in v.dirs[newParent] {
      DotMove(s, src, parent, name, newParent, newName, now);
      AddedSameBut(v, v', q, src);
      AddedUncounted(v, v', q, src);
    } else {
      DotOverEntry(s, parent, name, newParent, newName, now);
    }
  }

  lemma DotOverEntry(s: Fs, parent: nat, name: Name, newParent: nat, newName: Name, now: Time)
    requires LinkInv(s.view) && IsDot(name) && Lookup(s.view, parent, name).Ok? && IsEntry(s.view, (newParent, newName))
    ensures var (s', r) := Rename(s, parent, name, newParent, newName, false, now);
            && r == Err(EINVAL)
            && IsEntry(s'.view, (newParent, newName))
            && Target(s'.view, (newParent, newName)) == s.view.dirs[parent][name]
            && !LinkInv(s'.view)
  {
    hide IsDot, IsDir, LinkInv, Move, DropLink, Naming;
    var v, src, q: Place := s.view, s.view.dirs[parent][name], (newParent, newName);
    var dst, v1 := v.dirs[newParent][newName], UnlinkEntry(v, newParent, newName).value;
    NothingDangles(v, q);
    var v2 := Displace(v1, dst);
    DisplaceFrame(v1, dst);
    DotMove(s.(view := v2), src, parent, name, newParent, newName, now);
    var v' := Move(s.(view := v2), src, parent, name, newParent, newName, now).0.view;
    AddedSameBut(v2, v', q, src);
    if !LiveDir(v, dst) {
      DropLinkKeeps(v, newParent, newName);
      AddedUncounted(v2, v', q, src);
    } else {
      DisplacedDirectory(v, q);
      if src == dst {
        BackAgain(v, v2, v', q);
        LostLink(v, v', dst);
      } else {
        NamingAdded(v2, v', q, src, dst);
        if LinkInv(v') { DirIsNamed(v', dst); }
      }
    }
  }

  lemma NothingDangles(v: View, q: Place)
    requires LinkInv(v) && IsEntry(v, q)
    ensures Target(v, q) in v.inodes
  {
    hide IsDir, DirLinked, FileLinked;
  }

  lemma DisplaceFrame(v: View, dst: nat)
    requires dst in v.inodes
    ensures Displace(v, dst).dirs == v.dirs
  {
    hide DropLink;
    DropLinkFrame(v, dst);
  }

  lemma BackAgain(v: View, v1: View, v': View, q: Place)
    requires Removed(v, v1, q) && Added(v1, v', q, Target(v, q))
    ensures v'.dirs == v.dirs
  {
    assert v'.dirs[q.0] == v.dirs[q.0];
  }

  // ----------------------------------------------------------- exactly when links stay counted

  /** A directory renamed onto itself loses its entry. */
  lemma DirectoryOntoItself(s: Fs, parent: nat, name: Name, now: Time)
    requires LinkInv(s.view) && IsEntry(s.view, (parent, name)) && LiveDir(s.view, s.view.dirs[parent][name])
    ensures var v' := Rename(s, parent, name, parent, name, false, now).0.view;
            Naming(v', s.view.dirs[parent][name]) == {} && !LinkInv(v')
  {
    hide IsDir, LinkInv, DropLink, Naming;
    var v, p: Place, dst := s.view, (parent, name), s.view.dirs[parent][name];
    DisplacedDirectory(v, p);
    var v2 := Displace(UnlinkEntry(v, parent, name).value, dst);
    var v' := Rename(s, parent, name, parent, name, false, now).0.view;
    var v3 := LinkEntry(v2, parent, name, dst).value;
    NamingAdded(v2, v3, p, dst, dst);
    NamingRemoved(v3, v', p, dst);
    KindIgnoresTime(v2.inodes[dst], now);
    if LinkInv(v') { DirIsNamed(v', dst); }
  }

  /** A directory moved over a file into another parent keeps its old `..`. */
  lemma DirectoryOverFile(s: Fs, parent: nat, name: Name, newParent: nat, newName: Name, now: Time)
    requires LinkInv(s.view) && IsEntry(s.view, (parent, name)) && LiveDir(s.view, s.view.dirs[parent][name])
    requires IsEntry(s.view, (newParent, newName)) && !LiveDir(s.view, s.view.dirs[newParent][newName])
    requires newParent != parent
    ensures !LinkInv(Rename(s, parent, name, newParent, newName, false, now).0.view)
  {
    hide IsDir, LinkInv, DropLink, Move;
    var v, dst := s.view, s.view.dirs[newParent][newName];
    DropLinkKeeps(v, newParent, newName);
    SourceStays(v, parent, name, newParent, newName);
    var v2 := DropLink(UnlinkEntry(v, newParent, newName).value, dst);
    DropLinkFrame(UnlinkEntry(v, newParent, newName).value, dst);
    SourceStaysDir(v, (parent, name), (newParent, newName));
    RenamedDirectoryParent(s.(view := v2), parent, name, newParent, newName, now);
  }

  lemma SourceStaysDir(v: View, p: Place, q: Place)
    requires LinkInv(v) && IsEntry(v, p) && IsEntry(v, q) && LiveDir(v, Target(v, p)) && !LiveDir(v, Target(v, q))
    ensures Target(v, q) in v.inodes
    ensures LiveDir(DropLink(UnlinkEntry(v, q.0, q.1).value, Target(v, q)), Target(v, p))
  {
    hide IsDir, DirLinked, FileLinked;
    var v1, dst := UnlinkEntry(v, q.0, q.1).value, Target(v, q);
    DecRefsFrame(v1, Blocks(v1, dst));
    KindIgnoresLinks(v.inodes[dst], SaturatingSub(v.inodes[dst].nlinks, 1));
  }

  /** A rename keeps the links in order if and only if it stops at its checks or moves well. */
  lemma RenameLinksIff(s: Fs, parent: nat, name: Name, newParent: nat, newName: Name, noReplace: bool, now: Time)
    requires LinkInv(s.view)
    ensures LinkInv(Rename(s, parent, name, newParent, newName, noReplace, now).0.view)
            <==> (Moves(s.view, parent, name, newParent, newName, noReplace) ==>
                  MovesWell(s.view, parent, name, newParent, newName))
  {
    hide IsDot, IsDir, LinkInv, Rename;
    var v := s.view;
    if Moves(v, parent, name, newParent, newName, noReplace) && !MovesWell(v, parent, name, newParent, newName) {
      IgnoresFlag(s, parent, name, newParent, newName, noReplace, now);
      if IsDot(name) {
        RenameDotSource(s, parent, name, newParent, newName, noReplace, now);
      } else if newName !in v.dirs[newParent] {
        RenamedDirectoryParent(s, parent, name, newParent, newName, now);
      } else if !LiveDir(v, v.dirs[newParent][newName]) {
        DirectoryOverFile(s, parent, name, newParent, newName, now);
      } else if (parent, name) == (newParent, newName) {
        DirectoryOntoItself(s, parent, name, now);
      } else {
        RenameOntoDirectory(s, parent, name, newParent, newName, now);
      }
    } else {
      RenameLinks(s, parent, name, newParent, newName, noReplace, now);
    }
  }

  lemma IgnoresFlag(s: Fs, parent: nat, name: Name, newParent: nat, newName: Name, noReplace: bool, now: Time)
    requires Moves(s.view, parent, name, newParent, newName, noReplace)
    ensures Rename(s, parent, name, newParent, newName, noReplace, now)
            == Rename(s, parent, name, newParent, newName, false, now)
  {
    hide IsDot, Displace, Move;
  }

  lemma HardLinkLinksIff(s: Fs, ino: nat, parent: nat, name: Name, now: Time)
    requires LinkInv(s.view)
    ensures LinkInv(HardLink(s, ino, parent, name, now).0.view) <==> LinkGuard(s, OpHardLink(ino, parent, name, now))
  {
    hide IsDir, DirLinked, FileLinked;
    if LinkGuard(s, OpHardLink(ino, parent, name, now)) {
      HardLinkLinks(s, ino, parent, name, now);
    } else {
      var v := s.view;
      var v' := HardLink(s, ino, parent, name, now).0.view;
      var m := Touched(v.inodes[ino], now).(nlinks := v.inodes[ino].nlinks + 1);
      KindIgnoresTime(v.inodes[ino], now);
      KindIgnoresLinks(Touched(v.inodes[ino], now), v.inodes[ino].nlinks + 1);
      KindIgnoresLinks(Touched(v.inodes[ino], now), AsU32(v.inodes[ino].nlinks + 1));
      var counted := v'.(inodes := v.inodes[ino := m]);
      AddLinkKeeps(v, counted, (parent, name), ino, m);
      SameNaming(counted, v', ino);
      LinkCount(counted, ino);
      if LinkInv(v') { LinkCount(v', ino); }
    }
  }

  lemma MkdirLinksIff(s: Fs, parent: nat, name: Name, perm: nat, uid: nat, gid: nat)
    requires LinkInv(s.view)
    ensures LinkInv(Mkdir(s, parent, name, perm, uid, gid).0.view)
            <==> LinkGuard(s, OpMkdir(parent, name, perm, uid, gid))
  {
    hide IsDir, DirLinked, FileLinked;
    if LinkGuard(s, OpMkdir(parent, name, perm, uid, gid)) {
      MkdirLinks(s, parent, name, perm, uid, gid);
    } else {
      var v := s.view;
      ChildCount(v, parent);
      var v' := Mkdir(s, parent, name, perm, uid, gid).0.view;
      NewInodeKinds(uid, gid, perm, 0);
      var mid := LinkEntry(v.(nextIno := v.nextIno + 1), parent, name, v.nextIno).value;
      var m := NewDir(uid, gid, perm).(ino := v.nextIno);
      var pm := v.inodes[parent].(nlinks := v.inodes[parent].nlinks + 1);
      KindIgnoresLinks(v.inodes[parent], v.inodes[parent].nlinks + 1);
      KindIgnoresLinks(v.inodes[parent], AsU32(v.inodes[parent].nlinks + 1));
      KindIgnoresIno(NewDir(uid, gid, perm), v.nextIno);
      var counted := v'.(inodes := v.inodes[v.nextIno := m][parent := pm]);
      AddDirKeeps(v, mid, counted, (parent, name), m, pm);
      SameChildren(counted, v', parent);
      if LinkInv(v') { ChildCount(v', parent); ChildCount(counted, parent); }
    }
  }

  /** Links that are in order stay so over a call if and only if its guard holds. */
  lemma LinkStepIff(h: Hash, s: Fs, op: Op)
    requires LinkInv(s.view)
    ensures LinkInv(Step(h, s, op).view) <==> LinkGuard(s, op)
  {
    hide IsDir, LinkInv, Mkdir, HardLink, Rename;
    match op
    case OpHardLink(ino, parent, name, now) => HardLinkLinksIff(s, ino, parent, name, now);
    case OpMkdir(parent, name, perm, uid, gid) => MkdirLinksIff(s, parent, name, perm, uid, gid);
    case OpRename(parent, name, newParent, newName, noReplace, now) =>
      RenameLinksIff(s, parent, name, newParent, newName, noReplace, now);
    case _ => LinkStep(h, s, op);
  }

  /** The links are in order before the run and after each of its calls. */
  ghost predicate InOrder(h: Hash, s: Fs, ops: seq<Op>)
    decreases |ops|
  {
    LinkInv(s.view) && (ops == [] || InOrder(h, Step(h, s, ops[0]), ops[1..]))
  }

  /** Links that start in order stay so throughout a run if and only if every call of it is guarded. */
  lemma {:induction false} LinkCountsIff(h: Hash, s: Fs, ops: seq<Op>)
    requires LinkInv(s.view)
    ensures InOrder(h, s, ops) <==> LinkGuarded(h, s, ops)
    decreases |ops|
  {
    hide LinkInv, LinkGuard, Step;
    if ops != [] {
      LinkStepIff(h, s, ops[0]);
      if LinkGuard(s, ops[0]) { LinkCountsIff(h, Step(h, s, ops[0]), ops[1..]); }
    }
  }
}
