/** The link-count invariant of a directory tree, and what each primitive change does to it. */
module Links {
  import opened StoreView

  type Place = (nat, Name)

  ghost predicate IsEntry(v: View, p: Place) {
    p.0 in v.dirs && p.1 in v.dirs[p.0] && !IsDot(p.1)
  }

  function Target(v: View, p: Place): (ino: nat)
    requires p.0 in v.dirs && p.1 in v.dirs[p.0]
  {
    v.dirs[p.0][p.1]
  }

  /** All entries but `.` and `..`, in live and in removed directories. */
  ghost function Entries(v: View): (ps: set<Place>)
    ensures forall p :: p in ps <==> IsEntry(v, p)
  {
    var ps := set d, n | d in v.dirs && n in v.dirs[d] && !IsDot(n) :: (d, n);
    assert forall p: Place :: p in ps <==> IsEntry(v, p) by {
      forall p: Place ensures p in ps <==> IsEntry(v, p) { assert p == (p.0, p.1); }
    }
    ps
  }

  /** The entries that name inode `i`. */
  ghost function Naming(v: View, i: nat): (ps: set<Place>)
    ensures forall p :: p in ps <==> IsEntry(v, p) && Target(v, p) == i
  {
    set p | p in Entries(v) && Target(v, p) == i
  }

  ghost predicate LiveDir(v: View, i: nat) {
    i in v.inodes && IsDir(v.inodes[i])
  }

  /** The entries of directory `d` that name directories. */
  ghost function ChildDirs(v: View, d: nat): (ns: set<Name>)
    requires d in v.dirs
    ensures forall n :: n in ns <==> n in v.dirs[d] && !IsDot(n) && LiveDir(v, v.dirs[d][n])
  {
    set n | n in v.dirs[d] && !IsDot(n) && LiveDir(v, v.dirs[d][n])
  }

  /** No entry dangles, and inode numbers in use are below the counter. */
  ghost predicate Closed(v: View) {
    && (forall p :: IsEntry(v, p) ==> Target(v, p) in v.inodes)
    && Numbered(v)
    && (forall d :: d in v.dirs ==> d < v.nextIno)
    && ROOT in v.inodes
  }

  ghost predicate FileLinked(v: View, i: nat)
    requires i in v.inodes
  {
    v.inodes[i].nlinks == |Naming(v, i)|
  }

  /** A directory's link count is 2 plus its child directories; it has one entry in a live parent
      and its `..` names that parent. The root has none and is its own parent. */
  ghost predicate DirLinked(v: View, i: nat)
    requires i in v.inodes
  {
    && i in v.dirs
    && DOT in v.dirs[i] && v.dirs[i][DOT] == i
    && DOTDOT in v.dirs[i]
    && v.inodes[i].nlinks == 2 + |ChildDirs(v, i)|
    && (i == ROOT ==> Naming(v, i) == {} && v.dirs[i][DOTDOT] == ROOT)
    && (i != ROOT ==> LiveDir(v, v.dirs[i][DOTDOT]) && OnePlace(v, i, v.dirs[i][DOTDOT]))
  }

  ghost predicate OnePlace(v: View, i: nat, parent: nat) {
    exists n: Name :: Naming(v, i) == {(parent, n)}
  }

  ghost predicate LinkInv(v: View) {
    && Closed(v)
    && IsDir(v.inodes[ROOT])
    && (forall i :: i in v.inodes && !IsDir(v.inodes[i]) ==> FileLinked(v, i))
    && (forall i :: i in v.inodes && IsDir(v.inodes[i]) ==> DirLinked(v, i))
  }

  // ------------------------------------------------------------- changing one entry

  ghost predicate Added(v: View, v': View, p: Place, i: nat) {
    && p.0 in v.dirs && p.1 !in v.dirs[p.0] && !IsDot(p.1)
    && var table: map<Name, nat> := v.dirs[p.0][p.1 := i];
       v'.dirs == v.dirs[p.0 := table]
  }

  ghost predicate Removed(v: View, v': View, p: Place) {
    && IsEntry(v, p)
    && v'.dirs == v.dirs[p.0 := v.dirs[p.0] - {p.1}]
  }

  /** The tables agree everywhere but at the place `p`. */
  ghost predicate SameBut(v: View, v': View, p: Place) {
    && v'.dirs.Keys == v.dirs.Keys && !IsDot(p.1)
    && forall d, n :: d in v.dirs && (d, n) != p ==>
         (n in v.dirs[d] <==> n in v'.dirs[d]) && (n in v.dirs[d] ==> v'.dirs[d][n] == v.dirs[d][n])
  }

  lemma AddedSameBut(v: View, v': View, p: Place, i: nat)
    requires Added(v, v', p, i)
    ensures SameBut(v, v', p) && !IsEntry(v, p) && IsEntry(v', p) && Target(v', p) == i
  {
  }

  lemma RemovedSameBut(v: View, v': View, p: Place)
    requires Removed(v, v', p)
    ensures SameBut(v, v', p) && !IsEntry(v', p)
  {
  }

  lemma SameElsewhere(v: View, v': View, p: Place, q: Place)
    requires SameBut(v, v', p) && q != p
    ensures IsEntry(v, q) <==> IsEntry(v', q)
    ensures IsEntry(v, q) ==> Target(v', q) == Target(v, q)
  {
    assert (q.0, q.1) == q;
  }

  lemma NamingAdded(v: View, v': View, p: Place, i: nat, j: nat)
    requires Added(v, v', p, i)
    ensures p !in Naming(v, j)
    ensures Naming(v', j) == if j == i then Naming(v, j) + {p} else Naming(v, j)
  {
    AddedSameBut(v, v', p, i);
    forall q: Place ensures q in Naming(v', j) <==> q in (if j == i then Naming(v, j) + {p} else Naming(v, j)) {
      if q != p { SameElsewhere(v, v', p, q); }
    }
  }

  lemma NamingRemoved(v: View, v': View, p: Place, j: nat)
    requires Removed(v, v', p)
    ensures Naming(v', j) == Naming(v, j) - {p}
    ensures p in Naming(v, j) <==> j == Target(v, p)
  {
    RemovedSameBut(v, v', p);
    forall q: Place ensures q in Naming(v', j) <==> q in Naming(v, j) - {p} {
      if q != p { SameElsewhere(v, v', p, q); }
    }
  }

  ghost predicate SameKinds(v: View, v': View) {
    forall t :: LiveDir(v', t) <==> LiveDir(v, t)
  }

  /** Changing an entry that names no directory leaves every directory's children alone. */
  lemma ChildrenKept(v: View, v': View, p: Place, d: nat)
    requires SameBut(v, v', p) && SameKinds(v, v') && d in v.dirs
    requires IsEntry(v, p) ==> !LiveDir(v, Target(v, p))
    requires IsEntry(v', p) ==> !LiveDir(v', Target(v', p))
    ensures d in v'.dirs && ChildDirs(v', d) == ChildDirs(v, d)
  {
    forall n ensures n in ChildDirs(v', d) <==> n in ChildDirs(v, d) {
      if (d, n) == p {
      } else {
        assert (n in v.dirs[d] <==> n in v'.dirs[d]) && (n in v.dirs[d] ==> v'.dirs[d][n] == v.dirs[d][n]);
      }
    }
  }

  lemma DirKept(v: View, v': View, p: Place, i: nat)
    requires SameBut(v, v', p) && SameKinds(v, v') && i in v.inodes && i in v'.inodes && DirLinked(v, i)
    requires v'.inodes[i].nlinks == v.inodes[i].nlinks && Naming(v', i) == Naming(v, i)
    requires IsEntry(v, p) ==> !LiveDir(v, Target(v, p))
    requires IsEntry(v', p) ==> !LiveDir(v', Target(v', p))
    ensures DirLinked(v', i)
  {
    ChildrenKept(v, v', p, i);
    assert (i, DOT) != p && (i, DOTDOT) != p;
  }

  // --------------------------------------------------------- changes that keep the counts

  /** Nothing the invariant looks at has changed. */
  ghost predicate SameLinks(v: View, v': View) {
    && v'.dirs == v.dirs && v'.inodes.Keys == v.inodes.Keys && v'.nextIno >= v.nextIno
    && forall i :: i in v.inodes ==>
         v'.inodes[i].nlinks == v.inodes[i].nlinks && IsDir(v'.inodes[i]) == IsDir(v.inodes[i]) && v'.inodes[i].ino == i
  }

  lemma SameNaming(v: View, v': View, i: nat)
    requires v'.dirs == v.dirs
    ensures Naming(v', i) == Naming(v, i)
  {
    forall p ensures p in Naming(v', i) <==> p in Naming(v, i) {}
  }

  lemma SameDir(v: View, v': View, i: nat)
    requires SameLinks(v, v') && i in v.inodes && DirLinked(v, i)
    ensures DirLinked(v', i)
  {
    hide IsDir;
    SameNaming(v, v', i);
    assert ChildDirs(v', i) == ChildDirs(v, i);
  }

  lemma SameClosed(v: View, v': View)
    requires Closed(v) && SameLinks(v, v')
    ensures Closed(v')
  {
    hide IsDir;
    forall p | IsEntry(v', p) ensures Target(v', p) in v'.inodes { assert IsEntry(v, p); }
  }

  lemma SameLinksKeep(v: View, v': View)
    requires LinkInv(v) && SameLinks(v, v')
    ensures LinkInv(v')
  {
    hide IsDir, DirLinked;
    SameClosed(v, v');
    forall i | i in v'.inodes && IsDir(v'.inodes[i]) ensures DirLinked(v', i) {
      SameDir(v, v', i);
    }
    forall i | i in v'.inodes && !IsDir(v'.inodes[i]) ensures FileLinked(v', i) {
      assert FileLinked(v, i);
      SameNaming(v, v', i);
    }
  }

  // ------------------------------------------------------------------- adding a file

  lemma FreshIsUnnamed(v: View, i: nat)
    requires Closed(v) && i !in v.inodes
    ensures Naming(v, i) == {}
  {
    forall p ensures p !in Naming(v, i) {}
  }

  lemma AddFileKeeps(v: View, v': View, p: Place, m: Inode)
    requires LinkInv(v) && Added(v, v', p, v.nextIno)
    requires v'.inodes == v.inodes[v.nextIno := m] && v'.nextIno == v.nextIno + 1
    requires !IsDir(m) && m.nlinks == 1 && m.ino == v.nextIno
    ensures LinkInv(v')
  {
    hide IsDir, DirLinked;
    var i := v.nextIno;
    AddedSameBut(v, v', p, i);
    FreshIsUnnamed(v, i);
    AddedClosed(v, v', p, i);
    forall j | j in v'.inodes && !IsDir(v'.inodes[j]) ensures FileLinked(v', j) {
      NamingAdded(v, v', p, i, j);
      if j != i { assert FileLinked(v, j); }
    }
    forall j | j in v'.inodes && IsDir(v'.inodes[j]) ensures DirLinked(v', j) {
      NamingAdded(v, v', p, i, j);
      DirKept(v, v', p, j);
    }
  }

  lemma AddedClosed(v: View, v': View, p: Place, i: nat)
    requires Closed(v) && Added(v, v', p, i) && i in v'.inodes
    requires v.inodes.Keys <= v'.inodes.Keys && v'.nextIno >= v.nextIno
    requires forall j :: j in v'.inodes ==> j < v'.nextIno && v'.inodes[j].ino == j
    ensures Closed(v')
  {
    AddedSameBut(v, v', p, i);
    forall q | IsEntry(v', q) ensures Target(v', q) in v'.inodes {
      if q != p { SameElsewhere(v, v', p, q); }
    }
  }

  lemma RemovedClosed(v: View, v': View, p: Place)
    requires Closed(v) && Removed(v, v', p) && v'.nextIno == v.nextIno && ROOT in v'.inodes
    requires forall q :: IsEntry(v, q) && q != p ==> Target(v, q) in v'.inodes
    requires forall j :: j in v'.inodes ==> j < v'.nextIno && v'.inodes[j].ino == j
    ensures Closed(v')
  {
    RemovedSameBut(v, v', p);
    forall q | IsEntry(v', q) ensures Target(v', q) in v'.inodes {
      SameElsewhere(v, v', p, q);
    }
  }

  // ---------------------------------------------------------------- adding a hard link

  lemma AddLinkKeeps(v: View, v': View, p: Place, i: nat, m: Inode)
    requires LinkInv(v) && Added(v, v', p, i)
    requires i in v.inodes && !IsDir(v.inodes[i])
    requires v'.inodes == v.inodes[i := m] && v'.nextIno == v.nextIno
    requires !IsDir(m) && m.nlinks == v.inodes[i].nlinks + 1 && m.ino == i
    ensures LinkInv(v')
  {
    hide IsDir, DirLinked;
    AddedSameBut(v, v', p, i);
    AddedClosed(v, v', p, i);
    forall j | j in v'.inodes && !IsDir(v'.inodes[j]) ensures FileLinked(v', j) {
      NamingAdded(v, v', p, i, j);
      assert FileLinked(v, j);
    }
    forall j | j in v'.inodes && IsDir(v'.inodes[j]) ensures DirLinked(v', j) {
      NamingAdded(v, v', p, i, j);
      DirKept(v, v', p, j);
    }
  }

  // ------------------------------------------------------------------ removing a link

  /** Removing an entry of a file with other links lowers its count by one. */
  lemma RemoveLinkKeeps(v: View, v': View, p: Place, m: Inode)
    requires LinkInv(v) && Removed(v, v', p)
    requires var i := Target(v, p);
             i in v.inodes && !IsDir(v.inodes[i]) && v.inodes[i].nlinks > 1
             && v'.inodes == v.inodes[i := m] && !IsDir(m) && m.ino == i && m.nlinks == v.inodes[i].nlinks - 1
    requires v'.nextIno == v.nextIno
    ensures LinkInv(v')
  {
    hide IsDir, DirLinked;
    var i := Target(v, p);
    RemovedSameBut(v, v', p);
    RemovedClosed(v, v', p);
    forall j | j in v'.inodes && !IsDir(v'.inodes[j]) ensures FileLinked(v', j) {
      NamingRemoved(v, v', p, j);
      assert FileLinked(v, j);
    }
    forall j | j in v'.inodes && IsDir(v'.inodes[j]) ensures DirLinked(v', j) {
      NamingRemoved(v, v', p, j);
      DirKept(v, v', p, j);
    }
  }

  lemma OnlyName(v: View, p: Place, q: Place)
    requires IsEntry(v, p) && |Naming(v, Target(v, p))| == 1
    requires IsEntry(v, q) && Target(v, q) == Target(v, p)
    ensures p == q
  {
    var ps := Naming(v, Target(v, p));
    if p != q {
      assert {p, q} <= ps;
      CardinalityAtMost({p, q}, ps);
      assert false;
    }
  }

  lemma CardinalityAtMost(a: set<Place>, b: set<Place>)
    requires a <= b
    ensures |a| <= |b|
  {
    assert b == a + (b - a);
  }

  /** Removing the last entry of a file removes the file. */
  lemma RemoveLastKeeps(v: View, v': View, p: Place)
    requires LinkInv(v) && Removed(v, v', p)
    requires var i := Target(v, p);
             i in v.inodes && !IsDir(v.inodes[i]) && v.inodes[i].nlinks == 1 && v'.inodes == v.inodes - {i}
    requires v'.nextIno == v.nextIno
    ensures LinkInv(v')
  {
    hide IsDir, DirLinked;
    var i := Target(v, p);
    assert FileLinked(v, i);
    RemovedSameBut(v, v', p);
    forall q | IsEntry(v, q) && q != p ensures Target(v, q) in v'.inodes {
      if Target(v, q) == i { OnlyName(v, p, q); }
    }
    RemovedClosed(v, v', p);
    forall j | j in v'.inodes && !IsDir(v'.inodes[j]) ensures FileLinked(v', j) {
      NamingRemoved(v, v', p, j);
      assert FileLinked(v, j);
    }
    forall j | j in v'.inodes && IsDir(v'.inodes[j]) ensures DirLinked(v', j) {
      NamingRemoved(v, v', p, j);
      DirKept(v, v', p, j);
    }
  }

  // -------------------------------------------------------------------- moving an entry

  /** Moving an entry from `p` to the free place `q`, through the state where both exist; a
      directory's entry stays in its parent. */
  lemma MoveKeeps(v: View, mid: View, v': View, p: Place, q: Place)
    requires LinkInv(v) && IsEntry(v, p) && (LiveDir(v, Target(v, p)) ==> p.0 == q.0)
    requires Added(v, mid, q, Target(v, p)) && mid.inodes == v.inodes && mid.nextIno == v.nextIno
    requires Removed(mid, v', p) && v'.inodes == v.inodes && v'.nextIno == v.nextIno
    ensures LinkInv(v')
  {
    hide IsDir, DirLinked;
    var i := Target(v, p);
    assert p != q;
    AddedSameBut(v, mid, q, i);
    AddedClosed(v, mid, q, i);
    RemovedSameBut(mid, v', p);
    SameElsewhere(v, mid, q, p);
    RemovedClosed(mid, v', p);
    forall j | j in v'.inodes && !IsDir(v'.inodes[j]) ensures FileLinked(v', j) {
      assert FileLinked(v, j);
      MovedNaming(v, mid, v', p, q, j);
    }
    forall j | j in v'.inodes && IsDir(v'.inodes[j]) ensures DirLinked(v', j) {
      MovedNaming(v, mid, v', p, q, j);
      NamingAdded(v, mid, q, i, j);
      NamingRemoved(mid, v', p, j);
      if LiveDir(v, i) {
        DirMoved(v, mid, v', p, q, j);
      } else {
        DirKept(v, mid, q, j);
        DirKept(mid, v', p, j);
      }
    }
  }

  /** Every directory is linked as before when a directory gets another name in its parent. */
  lemma DirMoved(v: View, mid: View, v': View, p: Place, q: Place, j: nat)
    requires IsEntry(v, p) && LiveDir(v, Target(v, p)) && p.0 == q.0 && p != q
    requires Added(v, mid, q, Target(v, p)) && Removed(mid, v', p) && v'.inodes == v.inodes
    requires j in v.inodes && DirLinked(v, j)
    requires Naming(v', j) == if j == Target(v, p) then Naming(v, j) + {q} - {p} else Naming(v, j)
    ensures DirLinked(v', j)
  {
    hide IsDir, Naming;
    ChildrenMoved(v, mid, v', p, q, j);
    if j == Target(v, p) {
      assert p in Naming(v, j) by { NamedAt(v, p); }
      if j != ROOT {
        var n: Name :| Naming(v, j) == {(v.dirs[j][DOTDOT], n)};
        assert p == (v.dirs[j][DOTDOT], n);
        assert Naming(v', j) == {(v.dirs[j][DOTDOT], q.1)} by { assert q == (p.0, q.1); }
      }
    }
  }

  lemma NamedAt(v: View, p: Place)
    requires IsEntry(v, p)
    ensures p in Naming(v, Target(v, p))
  {
  }

  lemma ChildrenMoved(v: View, mid: View, v': View, p: Place, q: Place, j: nat)
    requires IsEntry(v, p) && LiveDir(v, Target(v, p)) && p.0 == q.0 && p != q
    requires Added(v, mid, q, Target(v, p)) && Removed(mid, v', p) && v'.inodes == v.inodes
    requires j in v.dirs
    ensures j in v'.dirs && |ChildDirs(v', j)| == |ChildDirs(v, j)|
    ensures forall n :: IsDot(n) ==>
            (n in v'.dirs[j] <==> n in v.dirs[j])
            && (n in v.dirs[j] ==> v'.dirs[j][n] == v.dirs[j][n])
  {
    hide IsDir;
    if j == p.0 {
      var was := ChildDirs(v, j);
      assert p.1 in was && q.1 !in was && p.1 != q.1;
      assert ChildDirs(v', j) == was - {p.1} + {q.1};
    } else {
      assert ChildDirs(v', j) == ChildDirs(v, j);
    }
  }

  lemma MovedNaming(v: View, mid: View, v': View, p: Place, q: Place, j: nat)
    requires IsEntry(v, p) && Added(v, mid, q, Target(v, p)) && Removed(mid, v', p)
    ensures |Naming(v', j)| == |Naming(v, j)|
    ensures j != Target(v, p) ==> Naming(v', j) == Naming(v, j)
  {
    AddedSameBut(v, mid, q, Target(v, p));
    SameElsewhere(v, mid, q, p);
    NamingAdded(v, mid, q, Target(v, p), j);
    NamingRemoved(mid, v', p, j);
  }

  // ----------------------------------------------------------------- adding a directory

  /** The new directory's own table holds only `.` and `..`. */
  ghost predicate NewTable(mid: View, v': View, i: nat, parent: nat) {
    && i !in mid.dirs
    && var table: map<Name, nat> := map[DOT := i, DOTDOT := parent];
       v'.dirs == mid.dirs[i := table]
  }

  lemma NewTableEntries(mid: View, v': View, i: nat, parent: nat)
    requires NewTable(mid, v', i, parent)
    ensures forall q: Place :: IsEntry(v', q) <==> IsEntry(mid, q)
    ensures forall q: Place :: IsEntry(mid, q) ==> Target(v', q) == Target(mid, q)
    ensures forall j :: Naming(v', j) == Naming(mid, j)
  {
    forall j ensures Naming(v', j) == Naming(mid, j) {}
  }

  ghost predicate DirAdded(v: View, mid: View, v': View, p: Place, m: Inode, pm: Inode) {
    && LiveDir(v, p.0) && Added(v, mid, p, v.nextIno) && mid.inodes == v.inodes
    && NewTable(mid, v', v.nextIno, p.0)
    && v'.inodes == v.inodes[v.nextIno := m][p.0 := pm] && v'.nextIno == v.nextIno + 1
    && IsDir(m) && m.nlinks == 2 && m.ino == v.nextIno
    && IsDir(pm) && pm.nlinks == v.inodes[p.0].nlinks + 1 && pm.ino == p.0
  }

  lemma DirAddedNaming(v: View, mid: View, v': View, p: Place, m: Inode, pm: Inode, j: nat)
    requires Closed(v) && DirAdded(v, mid, v', p, m, pm)
    ensures Naming(v', j) == if j == v.nextIno then {p} else Naming(v, j)
  {
    hide IsDir;
    NewTableEntries(mid, v', v.nextIno, p.0);
    FreshIsUnnamed(v, v.nextIno);
    NamingAdded(v, mid, p, v.nextIno, j);
  }

  lemma DirAddedClosed(v: View, mid: View, v': View, p: Place, m: Inode, pm: Inode)
    requires Closed(v) && DirAdded(v, mid, v', p, m, pm)
    ensures Closed(v')
  {
    hide IsDir;
    var i := v.nextIno;
    AddedSameBut(v, mid, p, i);
    NewTableEntries(mid, v', i, p.0);
    forall q | IsEntry(v', q) ensures Target(v', q) in v'.inodes {
      if q != p { SameElsewhere(v, mid, p, q); }
    }
  }

  lemma NewDirLinked(v: View, mid: View, v': View, p: Place, m: Inode, pm: Inode)
    requires Closed(v) && DirAdded(v, mid, v', p, m, pm)
    ensures DirLinked(v', v.nextIno)
  {
    hide IsDir;
    var i := v.nextIno;
    DirAddedNaming(v, mid, v', p, m, pm, i);
    assert ChildDirs(v', i) == {};
    assert Naming(v', i) == {(p.0, p.1)};
  }

  lemma AddDirKeeps(v: View, mid: View, v': View, p: Place, m: Inode, pm: Inode)
    requires LinkInv(v) && DirAdded(v, mid, v', p, m, pm)
    ensures LinkInv(v')
  {
    hide IsDir, DirLinked;
    DirAddedClosed(v, mid, v', p, m, pm);
    forall j | j in v'.inodes && !IsDir(v'.inodes[j]) ensures FileLinked(v', j) {
      assert FileLinked(v, j);
      DirAddedNaming(v, mid, v', p, m, pm, j);
    }
    forall j | j in v'.inodes && IsDir(v'.inodes[j]) ensures DirLinked(v', j) {
      if j == v.nextIno {
        NewDirLinked(v, mid, v', p, m, pm);
      } else {
        OldDirLinked(v, mid, v', p, m, pm, j);
      }
    }
  }

  lemma OldDirLinked(v: View, mid: View, v': View, p: Place, m: Inode, pm: Inode, j: nat)
    requires Closed(v) && DirAdded(v, mid, v', p, m, pm)
    requires LiveDir(v, j) && DirLinked(v, j)
    ensures DirLinked(v', j)
  {
    hide IsDir, Closed;
    assert j != v.nextIno by { CounterIsFresh(v, j); }
    DirAddedNaming(v, mid, v', p, m, pm, j);
    AddedSameBut(v, mid, p, v.nextIno);
    assert (j, DOT) != p && (j, DOTDOT) != p;
    AddedChildren(v, mid, v', p, m, pm, j);
  }

  lemma CounterIsFresh(v: View, j: nat)
    requires Closed(v) && j in v.inodes
    ensures j != v.nextIno
  {
  }

  lemma AddedChildren(v: View, mid: View, v': View, p: Place, m: Inode, pm: Inode, j: nat)
    requires Closed(v) && DirAdded(v, mid, v', p, m, pm) && j in v.dirs
    ensures j in v'.dirs && ChildDirs(v', j) == if j == p.0 then ChildDirs(v, j) + {p.1} else ChildDirs(v, j)
    ensures p.1 !in ChildDirs(v, p.0)
  {
    hide IsDir;
    AddedSameBut(v, mid, p, v.nextIno);
    var ns := if j == p.0 then ChildDirs(v, j) + {p.1} else ChildDirs(v, j);
    forall n ensures n in ChildDirs(v', j) <==> n in ns {
      if (j, n) != p {
        assert (n in v.dirs[j] <==> n in mid.dirs[j]) && (n in v.dirs[j] ==> mid.dirs[j][n] == v.dirs[j][n]);
        if n in v.dirs[j] && !IsDot(n) { assert IsEntry(v, (j, n)); }
      }
    }
  }

  // --------------------------------------------------------------- removing a directory

  ghost predicate DirRemoved(v: View, v': View, p: Place, pm: Inode) {
    && Removed(v, v', p) && LiveDir(v, Target(v, p))
    && Target(v, p) in v.dirs && (forall n :: n in v.dirs[Target(v, p)] ==> IsDot(n))
    && p.0 in v.inodes && v'.nextIno == v.nextIno
    && v'.inodes == (v.inodes - {Target(v, p)})[p.0 := pm]
    && IsDir(pm) && pm.ino == p.0 && pm.nlinks == v.inodes[p.0].nlinks - 1
  }

  /** The one entry of a directory that is not the root, and its parent. */
  lemma ParentOf(v: View, p: Place)
    requires LinkInv(v) && IsEntry(v, p) && LiveDir(v, Target(v, p))
    ensures Naming(v, Target(v, p)) == {p} && LiveDir(v, p.0) && Target(v, p) != ROOT
    ensures Target(v, p) in v.dirs
  {
    hide IsDir;
    var i := Target(v, p);
    assert DirLinked(v, i);
    assert p in Naming(v, i);
    var n: Name :| Naming(v, i) == {(v.dirs[i][DOTDOT], n)};
    assert p == (v.dirs[i][DOTDOT], n);
  }

  lemma NoOtherName(v: View, p: Place, q: Place)
    requires IsEntry(v, p) && Naming(v, Target(v, p)) == {p} && IsEntry(v, q) && q != p
    ensures Target(v, q) != Target(v, p)
  {
    assert q !in Naming(v, Target(v, p));
  }

  lemma DirRemovedClosed(v: View, v': View, p: Place, pm: Inode)
    requires LinkInv(v) && DirRemoved(v, v', p, pm)
    ensures Closed(v')
  {
    hide IsDir, DirLinked, FileLinked;
    ParentOf(v, p);
    forall q | IsEntry(v, q) && q != p ensures Target(v, q) in v'.inodes {
      NoOtherName(v, p, q);
    }
    RemovedClosed(v, v', p);
  }

  /** Removing an empty directory's entry removes the directory and one link of its parent. */
  lemma RemoveDirKeeps(v: View, v': View, p: Place, pm: Inode)
    requires LinkInv(v) && DirRemoved(v, v', p, pm)
    ensures LinkInv(v')
  {
    hide IsDir, DirLinked;
    ParentOf(v, p);
    DirRemovedClosed(v, v', p, pm);
    forall j | j in v'.inodes && !IsDir(v'.inodes[j]) ensures FileLinked(v', j) {
      assert FileLinked(v, j);
      NamingRemoved(v, v', p, j);
    }
    forall j | j in v'.inodes && IsDir(v'.inodes[j]) ensures DirLinked(v', j) {
      RemovedDirLinked(v, v', p, pm, j);
    }
  }

  /** An empty directory is nobody's parent. */
  lemma NotTheParent(v: View, i: nat, j: nat)
    requires i in v.dirs && (forall n :: n in v.dirs[i] ==> IsDot(n))
    requires j in v.inodes && j != ROOT && DirLinked(v, j)
    ensures v.dirs[j][DOTDOT] != i
  {
    hide IsDir;
    var n: Name :| Naming(v, j) == {(v.dirs[j][DOTDOT], n)};
    assert (v.dirs[j][DOTDOT], n) in Naming(v, j);
  }

  lemma DotsKept(v: View, v': View, p: Place, j: nat)
    requires SameBut(v, v', p) && j in v.dirs && DOT in v.dirs[j] && DOTDOT in v.dirs[j]
    ensures j in v'.dirs && DOT in v'.dirs[j] && DOTDOT in v'.dirs[j]
    ensures v'.dirs[j][DOT] == v.dirs[j][DOT] && v'.dirs[j][DOTDOT] == v.dirs[j][DOTDOT]
  {
    assert (j, DOT) != p && (j, DOTDOT) != p;
  }

  lemma RemovedDirLinked(v: View, v': View, p: Place, pm: Inode, j: nat)
    requires LinkInv(v) && DirRemoved(v, v', p, pm)
    requires LiveDir(v, j) && j != Target(v, p)
    ensures DirLinked(v', j)
  {
    hide IsDir, Closed, SameBut;
    ParentOf(v, p);
    NamingRemoved(v, v', p, j);
    assert DirLinked(v, j);
    RemovedSameBut(v, v', p);
    DotsKept(v, v', p, j);
    if j != ROOT { NotTheParent(v, Target(v, p), j); }
    RemovedChildren(v, v', p, pm, j);
    DirLinkedAgain(v, v', p, pm, j);
  }

  lemma DirLinkedAgain(v: View, v': View, p: Place, pm: Inode, j: nat)
    requires DirRemoved(v, v', p, pm) && LiveDir(v, j) && j != Target(v, p) && DirLinked(v, j)
    requires j in v'.dirs && DOT in v'.dirs[j] && DOTDOT in v'.dirs[j]
    requires v'.dirs[j][DOT] == v.dirs[j][DOT] && v'.dirs[j][DOTDOT] == v.dirs[j][DOTDOT]
    requires Naming(v', j) == Naming(v, j) && (j != ROOT ==> v.dirs[j][DOTDOT] != Target(v, p))
    requires ChildDirs(v', j) == if j == p.0 then ChildDirs(v, j) - {p.1} else ChildDirs(v, j)
    requires j == p.0 ==> p.1 in ChildDirs(v, j)
    ensures DirLinked(v', j)
  {
    hide IsDir, Removed, IsEntry, Naming, ChildDirs;
    if j == p.0 { OneFewer(ChildDirs(v, j), p.1); }
  }

  lemma OneFewer(ns: set<Name>, n: Name)
    requires n in ns
    ensures |ns - {n}| == |ns| - 1
  {
  }

  lemma RemovedChildren(v: View, v': View, p: Place, pm: Inode, j: nat)
    requires DirRemoved(v, v', p, pm) && Naming(v, Target(v, p)) == {p} && LiveDir(v, p.0) && j in v.dirs
    ensures j in v'.dirs && ChildDirs(v', j) == if j == p.0 then ChildDirs(v, j) - {p.1} else ChildDirs(v, j)
    ensures p.1 in ChildDirs(v, p.0)
  {
    hide IsDir;
    RemovedSameBut(v, v', p);
    var ns := if j == p.0 then ChildDirs(v, j) - {p.1} else ChildDirs(v, j);
    forall n ensures n in ChildDirs(v', j) <==> n in ns {
      if (j, n) != p {
        SameElsewhere(v, v', p, (j, n));
        if IsEntry(v, (j, n)) { NoOtherName(v, p, (j, n)); }
      }
    }
  }
}
