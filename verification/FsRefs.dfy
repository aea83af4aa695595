/** Reference counts over runs: what each digest's count means while files are open and closed. */
module FsRefs {
  import opened ByteCodec
  import opened Cas
  import opened StoreView
  import opened Links
  import opened Fs
  import opened FsRuns

  // ---------------------------------------------------------------------- claims

  /** The open handle on `i`, if there is one, has not given up the root it committed. */
  ghost predicate Kept(s: Fs, i: nat) {
    forall fh :: fh in s.files && s.files[fh].ino == i ==> s.files[fh].lastRoot.Some?
  }

  /** The digest a live inode holds a reference to: the one in its manifest, unless its open handle
      gave that up. */
  ghost function Claim(s: Fs, i: nat): (d: Option<Digest>) {
    if i in s.view.inodes && Blocks(s.view, i) != [] && Kept(s, i) then Some(Blocks(s.view, i)[0]) else None
  }

  ghost function Claimants(s: Fs, d: Digest): (inos: set<nat>)
    ensures forall i :: i in inos <==> i in s.view.inodes && Claim(s, i) == Some(d)
  {
    set i | i in s.view.inodes && Claim(s, i) == Some(d)
  }

  /** A count is exact, or has stuck at the largest value. */
  ghost predicate CountIs(c: nat, n: nat) {
    c == U64_MAX || c == n
  }

  ghost predicate Counted(s: Fs) {
    forall d: Digest :: CountIs(Count(s.view, d), |Claimants(s, d)|)
  }

  /** Handles are on distinct live files, and a handle's committed root is the file's manifest. */
  ghost predicate HandlesOk(s: Fs) {
    && (forall fh :: fh in s.files ==> fh <= s.nextFh && s.files[fh].ino in s.view.inodes)
    && (forall fh, gh :: fh in s.files && gh in s.files && s.files[fh].ino == s.files[gh].ino ==> fh == gh)
    && (forall fh :: fh in s.files && s.files[fh].lastRoot.Some? ==>
        Blocks(s.view, s.files[fh].ino) == [s.files[fh].lastRoot.value])
    && (forall fh :: fh in s.files ==> !LiveDir(s.view, s.files[fh].ino))
  }

  /** Manifests name at most one digest; directories have none; numbers are below the counter. */
  ghost predicate ManifestsOk(v: View) {
    && (forall i :: i in v.manifests ==> i < v.nextIno && |v.manifests[i]| <= 1)
    && (forall i :: i in v.inodes ==> i < v.nextIno && v.inodes[i].ino == i)
    && (forall i :: LiveDir(v, i) ==> Blocks(v, i) == [])
  }

  ghost predicate RefInv(s: Fs) {
    HandlesOk(s) && ManifestsOk(s.view) && Counted(s)
  }

  ghost predicate Unopened(s: Fs, i: nat) {
    forall fh :: fh in s.files ==> s.files[fh].ino != i
  }

  /** What exact counts need of a call. Closing a handle that has no bytes must not leave behind a
      root it gave up; opening for writing must find an empty file; a truncation by path, and the
      removal of a file's entry, must find it closed. */
  ghost predicate RefGuard(s: Fs, op: Op) {
    match op
    case OpRelease(fh, _) =>
      fh in s.files && s.files[fh].byteCount == 0 && Blocks(s.view, s.files[fh].ino) != [] ==>
          s.files[fh].lastRoot.Some?
    case OpOpen(ino, write, _, _) =>
      write ==> ino in s.view.inodes && !LiveDir(s.view, ino) && Unopened(s, ino) && Blocks(s.view, ino) == []
    case OpTruncateClosed(ino, _, _) => ino in s.view.inodes && !LiveDir(s.view, ino) && Unopened(s, ino)
    case OpUnlink(parent, name) => Lookup(s.view, parent, name).Ok? ==> Unopened(s, Lookup(s.view, parent, name).value)
    case OpRename(_, _, parent, name, _, _) => Lookup(s.view, parent, name).Ok? ==>
        Unopened(s, Lookup(s.view, parent, name).value)
    case _ => true
  }

  // ---------------------------------------------------------------- moving a claim

  /** One count moves: `up` references come, `down` references go, and the largest value sticks. */
  ghost predicate Moves(c: nat, c': nat, up: bool, down: bool) {
    if c == U64_MAX then c' == U64_MAX
    else c' == c + (if up then 1 else 0) - (if down then 1 else 0)
  }

  /** Every count of `v'` is that of `v` after dropping a reference to `a` and adding one to `b`. */
  ghost predicate Handed(v: View, v': View, a: Option<Digest>, b: Option<Digest>) {
    forall d: Digest :: Moves(Count(v, d), Count(v', d), b == Some(d), a == Some(d))
  }

  lemma DecHands(v: View, a: Digest)
    requires Count(v, a) >= 1
    ensures Handed(v, DecRef(v, a), Some(a), None)
  {
    forall d: Digest ensures Moves(Count(v, d), Count(DecRef(v, a), d), false, d == a) {
    }
  }

  lemma IncHands(v: View, b: Digest)
    ensures Handed(v, IncRef(v, b), None, Some(b))
  {
  }

  lemma SwapHands(v: View, a: Digest, b: Digest)
    requires Count(v, a) >= 1
    ensures Handed(v, IncRef(DecRef(v, a), b), Some(a), Some(b))
  {
    DecHands(v, a);
    IncHands(DecRef(v, a), b);
    forall d: Digest ensures Moves(Count(v, d), Count(IncRef(DecRef(v, a), b), d), d == b, d == a) {
      assert Moves(Count(v, d), Count(DecRef(v, a), d), false, d == a);
      assert Moves(Count(DecRef(v, a), d), Count(IncRef(DecRef(v, a), b), d), d == b, false);
    }
  }

  lemma SameHands(v: View, v': View, a: Option<Digest>)
    requires v'.refcounts == v.refcounts && (a.Some? ==> Count(v, a.value) >= 1)
    ensures Handed(v, v', a, a)
  {
  }

  lemma HandedFrame(v: View, v1: View, v': View, a: Option<Digest>, b: Option<Digest>)
    requires Handed(v, v1, a, b) && v'.refcounts == v1.refcounts
    ensures Handed(v, v', a, b)
  {
    assert forall d: Digest :: Count(v', d) == Count(v1, d);
  }

  /** Only inode `i` changed what it claims. */
  ghost predicate OnlyClaim(s: Fs, s': Fs, i: nat) {
    forall j :: j != i ==> (j in s'.view.inodes <==> j in s.view.inodes) && Claim(s', j) == Claim(s, j)
  }

  lemma ClaimantsMove(s: Fs, s': Fs, i: nat, d: Digest)
    requires OnlyClaim(s, s', i)
    ensures Claimants(s', d) == (if Claim(s', i) == Some(d) then Claimants(s, d) - {i} + {i} else Claimants(s, d) - {i})
    ensures i in Claimants(s, d) <==> Claim(s, i) == Some(d)
  {
  }

  lemma ClaimedIsCounted(s: Fs, i: nat)
    requires Counted(s) && Claim(s, i).Some?
    ensures Count(s.view, Claim(s, i).value) >= 1
  {
    var d := Claim(s, i).value;
    assert i in Claimants(s, d);
    assert CountIs(Count(s.view, d), |Claimants(s, d)|);
  }

  /** When one inode trades its claim and the counts are handed over accordingly, they stay exact. */
  lemma TradeKeepsCounts(s: Fs, s': Fs, i: nat)
    requires Counted(s) && OnlyClaim(s, s', i) && Handed(s.view, s'.view, Claim(s, i), Claim(s', i))
    ensures Counted(s')
  {
    hide Claim;
    forall d: Digest ensures CountIs(Count(s'.view, d), |Claimants(s', d)|) {
      ClaimantsMove(s, s', i, d);
      assert CountIs(Count(s.view, d), |Claimants(s, d)|);
      assert Moves(Count(s.view, d), Count(s'.view, d), Claim(s', i) == Some(d), Claim(s, i) == Some(d));
    }
  }

  /** A count at the largest value stays there. */
  ghost predicate Sticks(v: View, v': View) {
    forall d: Digest :: Count(v, d) == U64_MAX ==> Count(v', d) == U64_MAX
  }

  // ------------------------------------------------------------ who claims what

  lemma OpenClaim(s: Fs, fh: nat)
    requires HandlesOk(s) && fh in s.files
    ensures Claim(s, s.files[fh].ino) == s.files[fh].lastRoot
  {
  }

  lemma ClosedClaim(s: Fs, i: nat)
    requires i in s.view.inodes && Unopened(s, i)
    ensures Claim(s, i) == if Blocks(s.view, i) == [] then None else Some(Blocks(s.view, i)[0])
  {
  }

  /** Only what belongs to inode `i` has changed. */
  ghost predicate Elsewhere(s: Fs, s': Fs, i: nat) {
    && (forall j :: j != i ==> (j in s'.view.inodes <==> j in s.view.inodes) && Blocks(s'.view, j) == Blocks(s.view, j))
    && (forall fh :: fh in s.files && s.files[fh].ino != i ==> fh in s'.files && s'.files[fh] == s.files[fh])
    && (forall fh :: fh in s'.files && s'.files[fh].ino != i ==> fh in s.files && s'.files[fh] == s.files[fh])
  }

  lemma ElsewhereClaims(s: Fs, s': Fs, i: nat)
    requires Elsewhere(s, s', i)
    ensures OnlyClaim(s, s', i)
  {
    forall j | j != i ensures (j in s'.view.inodes <==> j in s.view.inodes) && Claim(s', j) == Claim(s, j) {
      assert Blocks(s'.view, j) == Blocks(s.view, j);
      assert Kept(s', j) <==> Kept(s, j);
    }
  }

  /** The inodes are the same up to sizes and times. */
  ghost predicate SameNodes(v: View, v': View) {
    && v'.inodes.Keys == v.inodes.Keys && v'.nextIno == v.nextIno
    && forall i :: i in v.inodes ==> v'.inodes[i].ino == v.inodes[i].ino && IsDir(v'.inodes[i]) == IsDir(v.inodes[i])
  }

  lemma SizeNodes(v: View, v1: View, ino: nat, size: nat, now: Time, mtime: bool)
    requires ManifestsOk(v) && v1.inodes == v.inodes && v1.nextIno == v.nextIno
    ensures var v' := SetSize(v1, ino, size, now, mtime).0;
            SameNodes(v, v') && v'.refcounts == v1.refcounts && v'.manifests == v1.manifests && v'.dirs == v1.dirs
  {
    hide IsDir;
    var v' := SetSize(v1, ino, size, now, mtime).0;
    if ino in v.inodes { SameKind(v.inodes[ino], v'.inodes[ino]); }
  }

  /** The kind of an inode is in its mode. */
  lemma SameKind(a: Inode, b: Inode)
    requires a.mode == b.mode
    ensures IsDir(a) == IsDir(b)
  {
  }

  // --------------------------------------------------- calls on an open handle

  /** A handle is replaced by one on the same file that keeps its root, or gives it up together with
      the reference. */
  ghost predicate Regripped(s: Fs, s': Fs, fh: nat, giveUp: bool) {
    && fh in s.files && s'.nextFh == s.nextFh
    && SameNodes(s.view, s'.view) && s'.view.manifests == s.view.manifests
    && fh in s'.files && s'.files == s.files[fh := s'.files[fh]] && s'.files[fh].ino == s.files[fh].ino
    && s'.files[fh].lastRoot == (if giveUp then None else s.files[fh].lastRoot)
    && s'.view.refcounts == (if giveUp then DropRoot(s.view, s.files[fh].lastRoot) else s.view).refcounts
  }

  lemma RegripKeeps(s: Fs, s': Fs, fh: nat, giveUp: bool)
    requires RefInv(s) && Regripped(s, s', fh, giveUp)
    ensures RefInv(s')
  {
    hide IsDir, Counted, OnlyClaim, Handed, DecRef;
    var i := s.files[fh].ino;
    RegripFrames(s, s', fh, giveUp);
    ElsewhereClaims(s, s', i);
    OpenClaim(s, fh);
    OpenClaim(s', fh);
    RegripHands(s, s', fh, giveUp);
    TradeKeepsCounts(s, s', i);
  }

  /** Replacing a handle by another on the same file. */
  ghost predicate Replaced(s: Fs, s': Fs, fh: nat, g: Handle) {
    && fh in s.files && g.ino == s.files[fh].ino && s'.files == s.files[fh := g] && s'.nextFh == s.nextFh
    && SameNodes(s.view, s'.view)
    && (forall j :: j != g.ino ==> Blocks(s'.view, j) == Blocks(s.view, j))
    && (g.lastRoot.Some? ==> Blocks(s'.view, g.ino) == [g.lastRoot.value])
  }

  lemma ReplacedHandles(s: Fs, s': Fs, fh: nat, g: Handle)
    requires HandlesOk(s) && Replaced(s, s', fh, g)
    ensures HandlesOk(s')
  {
    hide IsDir;
    assert forall k :: k in s'.files <==> k in s.files;
    assert forall k :: k in s.files ==> s'.files[k].ino == s.files[k].ino;
    assert forall i :: LiveDir(s'.view, i) <==> LiveDir(s.view, i);
  }

  lemma ReplacedElsewhere(s: Fs, s': Fs, fh: nat, g: Handle)
    requires HandlesOk(s) && Replaced(s, s', fh, g)
    ensures Elsewhere(s, s', g.ino)
  {
    hide IsDir;
  }

  lemma RegripFrames(s: Fs, s': Fs, fh: nat, giveUp: bool)
    requires HandlesOk(s) && ManifestsOk(s.view) && Regripped(s, s', fh, giveUp)
    ensures HandlesOk(s') && ManifestsOk(s'.view) && Elsewhere(s, s', s.files[fh].ino)
  {
    hide IsDir, DropRoot, Elsewhere;
    RegripReplaces(s, s', fh, giveUp);
    ReplacedHandles(s, s', fh, s'.files[fh]);
    ReplacedElsewhere(s, s', fh, s'.files[fh]);
    SameManifests(s.view, s'.view);
  }

  lemma RegripReplaces(s: Fs, s': Fs, fh: nat, giveUp: bool)
    requires HandlesOk(s) && Regripped(s, s', fh, giveUp)
    ensures Replaced(s, s', fh, s'.files[fh])
  {
    hide IsDir, DropRoot, SameNodes;
  }

  lemma SameManifests(v: View, v': View)
    requires ManifestsOk(v) && SameNodes(v, v') && v'.manifests == v.manifests
    ensures ManifestsOk(v')
  {
    hide IsDir;
    assert forall i :: LiveDir(v', i) <==> LiveDir(v, i);
  }

  lemma RegripHands(s: Fs, s': Fs, fh: nat, giveUp: bool)
    requires RefInv(s) && Regripped(s, s', fh, giveUp)
    ensures Handed(s.view, s'.view, s.files[fh].lastRoot, s'.files[fh].lastRoot)
  {
    hide IsDir, SameNodes, Handed, DecRef, Counted;
    var root := s.files[fh].lastRoot;
    OpenClaim(s, fh);
    if root.Some? { ClaimedIsCounted(s, s.files[fh].ino); }
    if giveUp && root.Some? {
      DecHands(s.view, root.value);
      HandedFrame(s.view, DecRef(s.view, root.value), s'.view, root, None);
    } else {
      SameHands(s.view, s'.view, root);
    }
  }

  lemma WriteRefs(h: Hash, s: Fs, fh: nat, off: nat, data: Bytes)
    requires RefInv(s)
    ensures RefInv(Write(h, s, fh, off, data).0)
  {
    hide IsDir, Pwrite, FallbackBase, RefInv, DecRef;
    if fh in s.files {
      var s' := Write(h, s, fh, off, data).0;
      var f := s.files[fh];
      var giveUp := f.mode.Streaming? && off != f.mode.next;
      if giveUp && f.lastRoot.Some? { CountFrame(s.view, f.lastRoot.value); }
      assert Regripped(s, s', fh, giveUp);
      RegripKeeps(s, s', fh, giveUp);
    }
  }

  lemma TruncateOpenRefs(h: Hash, s: Fs, fh: nat, n: nat, now: Time)
    requires RefInv(s) && fh in s.files
    ensures RefInv(TruncateOpen(h, s, s.files[fh].ino, fh, n, now).0)
  {
    hide IsDir, Resize, SetSize, DecRef, SameNodes, HandlesOk, Counted;
    var f := s.files[fh];
    var s' := TruncateOpen(h, s, f.ino, fh, n, now).0;
    var giveUp := n == 0 || f.mode.Streaming?;
    if f.lastRoot.Some? { CountFrame(s.view, f.lastRoot.value); }
    SizeNodes(s.view, if giveUp then DropRoot(s.view, f.lastRoot) else s.view, f.ino, n, now, false);
    RegripKeeps(s, s', fh, giveUp);
  }

  // ------------------------------------------------------------------- commits

  /** File `i` gets the manifest `[d]`, and the reference its old claim held is handed to `d`. */
  ghost predicate Committed(s: Fs, s': Fs, i: nat, d: Digest) {
    && i in s.view.inodes && !LiveDir(s.view, i) && s'.nextFh == s.nextFh
    && SameNodes(s.view, s'.view) && s'.view.manifests == s.view.manifests[i := [d]]
    && s'.view.refcounts == Rebind(s.view, i, Claim(s, i), d).refcounts
  }

  lemma RebindHands(s: Fs, v': View, i: nat, d: Digest)
    requires Counted(s) && v'.refcounts == Rebind(s.view, i, Claim(s, i), d).refcounts
    ensures Handed(s.view, v', Claim(s, i), Some(d))
  {
    hide Claim, Handed, IncRef, DecRef, Counted;
    var v, prior := s.view, Claim(s, i);
    if prior.Some? { ClaimedIsCounted(s, i); }
    if prior == Some(d) {
      SameHands(v, v', prior);
    } else if prior.Some? {
      SwapHands(v, prior.value, d);
      RebindIsSwap(v, i, prior.value, d);
      HandedFrame(v, IncRef(DecRef(v, prior.value), d), v', prior, Some(d));
    } else {
      IncHands(v, d);
      RebindIsInc(v, i, d);
      HandedFrame(v, IncRef(v, d), v', None, Some(d));
    }
  }

  lemma RebindIsSwap(v: View, i: nat, a: Digest, d: Digest)
    requires a != d
    ensures Rebind(v, i, Some(a), d).refcounts == IncRef(DecRef(v, a), d).refcounts
  {
    hide DecRef;
  }

  lemma RebindIsInc(v: View, i: nat, d: Digest)
    ensures Rebind(v, i, None, d).refcounts == IncRef(v, d).refcounts
  {
  }

  lemma CommitKeeps(s: Fs, s': Fs, i: nat, d: Digest)
    requires RefInv(s) && Committed(s, s', i, d) && Elsewhere(s, s', i)
    requires HandlesOk(s') && Claim(s', i) == Some(d)
    ensures RefInv(s')
  {
    hide IsDir, Counted, Claim, Handed, OnlyClaim, Elsewhere, Rebind;
    ElsewhereClaims(s, s', i);
    RebindHands(s, s'.view, i, d);
    TradeKeepsCounts(s, s', i);
    CommitManifests(s, s', i, d);
  }

  lemma CommitManifests(s: Fs, s': Fs, i: nat, d: Digest)
    requires ManifestsOk(s.view) && Committed(s, s', i, d)
    ensures ManifestsOk(s'.view)
  {
    hide IsDir, Rebind, Claim;
    assert forall j :: LiveDir(s'.view, j) <==> LiveDir(s.view, j);
  }

  /** The view after a commit of handle `f`, at the level the counts look at. */
  lemma CommitView(h: Hash, s: Fs, f: Handle, now: Time)
    requires ManifestsOk(s.view)
    ensures var d := h(InFlight(f));
            var v' := SetSize(Rebind(s.view, f.ino, f.lastRoot, d), f.ino, f.byteCount, now, true).0;
            SameNodes(s.view, v') && v'.manifests == s.view.manifests[f.ino := [d]]
            && v'.refcounts == Rebind(s.view, f.ino, f.lastRoot, d).refcounts
  {
    hide IsDir, Rebind, SetSize, SameNodes;
    var d := h(InFlight(f));
    RebindFrame(s.view, f.ino, f.lastRoot, d);
    SizeNodes(s.view, Rebind(s.view, f.ino, f.lastRoot, d), f.ino, f.byteCount, now, true);
  }

  lemma FsyncRefs(h: Hash, s: Fs, fh: nat, now: Time)
    requires RefInv(s)
    ensures RefInv(Fsync(h, s, InoOf(s, fh), fh, now).0)
  {
    hide IsDir, Rebind, SetSize, Counted;
    if fh in s.files && s.files[fh].byteCount != 0 {
      var f := s.files[fh];
      var s' := Fsync(h, s, f.ino, fh, now).0;
      OpenClaim(s, fh);
      CommitView(h, s, f, now);
      FsyncFrames(s, s', fh, h(InFlight(f)));
      OpenClaim(s', fh);
      CommitKeeps(s, s', f.ino, h(InFlight(f)));
    }
  }

  lemma FsyncFrames(s: Fs, s': Fs, fh: nat, d: Digest)
    requires HandlesOk(s) && fh in s.files && s'.nextFh == s.nextFh
    requires SameNodes(s.view, s'.view) && s'.view.manifests == s.view.manifests[s.files[fh].ino := [d]]
    requires s'.files == s.files[fh := s.files[fh].(committed := true, lastRoot := Some(d))]
    ensures HandlesOk(s') && Elsewhere(s, s', s.files[fh].ino)
  {
    hide IsDir, Elsewhere, HandlesOk;
    var g := s'.files[fh];
    assert Replaced(s, s', fh, g) by { hide SameNodes; }
    ReplacedHandles(s, s', fh, g);
    ReplacedElsewhere(s, s', fh, g);
  }

  lemma ReleaseFrames(s: Fs, s': Fs, fh: nat)
    requires HandlesOk(s) && fh in s.files && s'.nextFh == s.nextFh && s'.files == s.files - {fh}
    requires SameNodes(s.view, s'.view)
    requires forall j :: j != s.files[fh].ino ==> Blocks(s'.view, j) == Blocks(s.view, j)
    ensures HandlesOk(s') && Elsewhere(s, s', s.files[fh].ino) && Unopened(s', s.files[fh].ino)
  {
    hide IsDir;
    assert forall i :: LiveDir(s'.view, i) <==> LiveDir(s.view, i);
  }

  lemma ReleaseRefs(h: Hash, s: Fs, fh: nat, now: Time)
    requires RefInv(s) && RefGuard(s, OpRelease(fh, now))
    ensures RefInv(Release(h, s, InoOf(s, fh), fh, now).0)
  {
    hide IsDir, Rebind, SetSize, Counted;
    if fh in s.files {
      var f := s.files[fh];
      var s' := Release(h, s, f.ino, fh, now).0;
      OpenClaim(s, fh);
      CommitView(h, s, f, now);
      ReleaseFrames(s, s', fh);
      ClosedClaim(s', f.ino);
      if f.byteCount != 0 && !(f.lastRoot == Some(h(InFlight(f))) && f.committed) {
        CommitKeeps(s, s', f.ino, h(InFlight(f)));
      } else {
        ReleaseUnchanged(s, s', fh);
      }
    }
  }

  /** Closing without a new commit: the claim of the handle is the claim of the closed file. */
  lemma ReleaseUnchanged(s: Fs, s': Fs, fh: nat)
    requires RefInv(s) && fh in s.files && Elsewhere(s, s', s.files[fh].ino) && HandlesOk(s')
    requires s'.view == s.view
             || (s'.view == SetManifest(s.view, s.files[fh].ino, []) && Blocks(s.view, s.files[fh].ino) == [])
    requires Claim(s', s.files[fh].ino) == Claim(s, s.files[fh].ino)
    ensures RefInv(s')
  {
    hide IsDir, Counted, Claim, Handed, OnlyClaim, Elsewhere, HandlesOk;
    var i := s.files[fh].ino;
    ElsewhereClaims(s, s', i);
    if Claim(s, i).Some? { ClaimedIsCounted(s, i); }
    SameHands(s.view, s'.view, Claim(s, i));
    TradeKeepsCounts(s, s', i);
    assert i in s.view.inodes by { HandleIsLive(s, fh); }
    EmptyManifestOk(s.view, i);
  }

  lemma HandleIsLive(s: Fs, fh: nat)
    requires HandlesOk(s) && fh in s.files
    ensures s.files[fh].ino in s.view.inodes && !LiveDir(s.view, s.files[fh].ino)
  {
  }

  lemma EmptyManifestOk(v: View, i: nat)
    requires ManifestsOk(v) && i in v.inodes
    ensures ManifestsOk(SetManifest(v, i, []))
  {
    hide IsDir;
    assert forall j :: LiveDir(SetManifest(v, i, []), j) <==> LiveDir(v, j);
  }

  // --------------------------------------------------------- adding and removing files

  /** Inodes other than `i` are the same up to sizes, times and link counts. */
  ghost predicate NodesElse(v: View, v': View, i: nat) {
    && (forall j :: j != i ==> (j in v'.inodes <==> j in v.inodes))
    && (forall j :: j != i && j in v.inodes ==>
        v'.inodes[j].ino == v.inodes[j].ino
        && IsDir(v'.inodes[j]) == IsDir(v.inodes[j]))
  }

  /** Calls that change no manifest, count or handle. */
  lemma QuietKeeps(s: Fs, s': Fs)
    requires RefInv(s) && s'.files == s.files && s'.nextFh == s.nextFh
    requires s'.view.inodes.Keys == s.view.inodes.Keys && s'.view.nextIno >= s.view.nextIno
    requires forall i :: i in s.view.inodes ==>
             s'.view.inodes[i].ino == i
             && IsDir(s'.view.inodes[i]) == IsDir(s.view.inodes[i])
    requires s'.view.manifests == s.view.manifests && s'.view.refcounts == s.view.refcounts
    ensures RefInv(s')
  {
    hide IsDir, Counted, Handed, OnlyClaim;
    assert forall i :: LiveDir(s'.view, i) <==> LiveDir(s.view, i);
    var i := s'.view.nextIno;
    assert Elsewhere(s, s', i);
    ElsewhereClaims(s, s', i);
    assert Claim(s, i) == None && Claim(s', i) == None;
    SameHands(s.view, s'.view, None);
    TradeKeepsCounts(s, s', i);
  }

  /** A new inode, perhaps with a fresh handle on it. */
  ghost predicate NodeAdded(s: Fs, s': Fs) {
    var i := s.view.nextIno;
    && NodesElse(s.view, s'.view, i) && i in s'.view.inodes && s'.view.inodes[i].ino == i
    && s'.view.nextIno == i + 1
    && s'.view.manifests == s.view.manifests && s'.view.refcounts == s.view.refcounts
    && ((s'.files == s.files && s'.nextFh == s.nextFh)
        || (s'.files == s.files[s.nextFh + 1 := NewHandle(i)] && s'.nextFh == s.nextFh + 1 && !LiveDir(s'.view, i)))
  }

  lemma AddedHandles(s: Fs, s': Fs)
    requires HandlesOk(s) && ManifestsOk(s.view) && NodeAdded(s, s')
    ensures HandlesOk(s')
  {
    hide IsDir;
    var i := s.view.nextIno;
    assert Unopened(s, i) by { FreshIsClosed(s); }
    assert forall j :: j != i ==> (LiveDir(s'.view, j) <==> LiveDir(s.view, j));
    assert forall j :: Blocks(s'.view, j) == Blocks(s.view, j);
  }

  lemma AddedManifests(s: Fs, s': Fs)
    requires ManifestsOk(s.view) && NodeAdded(s, s')
    ensures ManifestsOk(s'.view)
  {
    hide IsDir;
    assert forall j :: j != s.view.nextIno ==> (LiveDir(s'.view, j) <==> LiveDir(s.view, j));
  }

  lemma AddedElsewhere(s: Fs, s': Fs)
    requires HandlesOk(s) && NodeAdded(s, s')
    ensures Elsewhere(s, s', s.view.nextIno)
  {
    hide IsDir;
  }

  lemma FreshIsClosed(s: Fs)
    requires HandlesOk(s) && ManifestsOk(s.view)
    ensures Unopened(s, s.view.nextIno) && s.view.nextIno !in s.view.inodes && Blocks(s.view, s.view.nextIno) == []
  {
  }

  lemma AddKeeps(s: Fs, s': Fs)
    requires RefInv(s) && NodeAdded(s, s')
    ensures RefInv(s')
  {
    hide IsDir, Counted, Handed, OnlyClaim, HandlesOk, Elsewhere, NodesElse;
    var i := s.view.nextIno;
    AddedHandles(s, s');
    AddedManifests(s, s');
    AddedElsewhere(s, s');
    ElsewhereClaims(s, s', i);
    FreshClaims(s, s');
    SameHands(s.view, s'.view, None);
    TradeKeepsCounts(s, s', i);
  }

  lemma FreshClaims(s: Fs, s': Fs)
    requires ManifestsOk(s.view) && NodeAdded(s, s')
    ensures Claim(s, s.view.nextIno) == None && Claim(s', s.view.nextIno) == None
  {
    hide IsDir, NodesElse, Kept;
  }

  /** An inode that no handle is on goes away together with its reference. */
  ghost predicate NodeRemoved(s: Fs, s': Fs, i: nat) {
    && i in s.view.inodes && Unopened(s, i)
    && NodesElse(s.view, s'.view, i) && i !in s'.view.inodes
    && s'.view.nextIno == s.view.nextIno && s'.view.manifests == s.view.manifests
    && s'.view.refcounts == DropRoot(s.view, Claim(s, i)).refcounts
    && s'.files == s.files && s'.nextFh == s.nextFh
  }

  lemma RemovedFrames(s: Fs, s': Fs, i: nat)
    requires HandlesOk(s) && ManifestsOk(s.view) && NodeRemoved(s, s', i)
    ensures HandlesOk(s') && ManifestsOk(s'.view) && Elsewhere(s, s', i)
  {
    hide IsDir, Claim, DropRoot;
    assert forall j :: j != i ==> (LiveDir(s'.view, j) <==> LiveDir(s.view, j));
  }

  lemma RemoveKeeps(s: Fs, s': Fs, i: nat)
    requires RefInv(s) && NodeRemoved(s, s', i)
    ensures RefInv(s')
  {
    hide IsDir, Counted, Handed, OnlyClaim, HandlesOk, ManifestsOk, Elsewhere, NodesElse, DecRef;
    RemovedFrames(s, s', i);
    ElsewhereClaims(s, s', i);
    var root := Claim(s, i);
    if root.Some? {
      ClaimedIsCounted(s, i);
      DecHands(s.view, root.value);
      HandedFrame(s.view, DecRef(s.view, root.value), s'.view, root, None);
    } else {
      SameHands(s.view, s'.view, None);
    }
    TradeKeepsCounts(s, s', i);
  }

  // ------------------------------------------------------------- namespace calls

  lemma MakeFileView(v: View, parent: nat, name: Name, meta: Inode)
    requires forall i :: i in v.inodes ==> i < v.nextIno
    ensures var (v', made) := MakeFile(v, parent, name, meta);
            && v'.manifests == v.manifests && v'.refcounts == v.refcounts && v'.nextIno == v.nextIno + 1
            && (made.Ok? ==> made.value == v.nextIno && v'.inodes == v.inodes[v.nextIno := meta.(ino := v.nextIno)])
            && (made.Err? ==> v'.inodes == v.inodes && v'.dirs == v.dirs)
  {
  }

  lemma CreateRefs(s: Fs, parent: nat, name: Name, perm: nat, uid: nat, gid: nat)
    requires RefInv(s)
    ensures RefInv(Create(s, parent, name, perm, uid, gid).0)
    ensures RefInv(MakeNode(s, parent, name, perm, uid, gid).0)
  {
    hide IsDir, MakeFile, Counted, HandlesOk;
    var meta := NewFile(uid, gid, perm);
    NewInodeKinds(uid, gid, perm, 0);
    KindIgnoresIno(meta, s.view.nextIno);
    MakeFileView(s.view, parent, name, meta);
    var made := MakeFile(s.view, parent, name, meta).1;
    if made.Ok? {
      AddKeeps(s, Create(s, parent, name, perm, uid, gid).0);
      AddKeeps(s, MakeNode(s, parent, name, perm, uid, gid).0);
    } else {
      QuietKeeps(s, Create(s, parent, name, perm, uid, gid).0);
      QuietKeeps(s, MakeNode(s, parent, name, perm, uid, gid).0);
    }
  }

  lemma SymlinkRefs(h: Hash, s: Fs, parent: nat, name: Name, target: Bytes, uid: nat, gid: nat)
    requires RefInv(s)
    ensures RefInv(Symlink(h, s, parent, name, target, uid, gid).0)
  {
    hide IsDir, MakeFile, Counted, HandlesOk, IncRef;
    var meta := NewSymlink(uid, gid, |target|);
    NewInodeKinds(uid, gid, 0, |target|);
    KindIgnoresIno(meta, s.view.nextIno);
    MakeFileView(s.view, parent, name, meta);
    var (v, made) := MakeFile(s.view, parent, name, meta);
    var s1, s' := s.(view := v), Symlink(h, s, parent, name, target, uid, gid).0;
    if made.Ok? {
      FreshIsClosed(s);
      AddKeeps(s, s1);
      CountFrame(SetManifest(v, made.value, [h(target)]), h(target));
      SymlinkCommit(s1, s', made.value, h(target));
    } else {
      QuietKeeps(s, s');
    }
  }

  lemma SymlinkCommit(s: Fs, s': Fs, i: nat, d: Digest)
    requires RefInv(s) && i in s.view.inodes && !LiveDir(s.view, i) && Blocks(s.view, i) == [] && Unopened(s, i)
    requires s'.files == s.files && s'.nextFh == s.nextFh
    requires s'.view == IncRef(SetManifest(s.view, i, [d]), d)
    ensures RefInv(s')
  {
    hide IsDir, Counted, IncRef, HandlesOk;
    CountFrame(SetManifest(s.view, i, [d]), d);
    ClosedClaim(s, i);
    ClosedClaim(s', i);
    assert Elsewhere(s, s', i);
    assert HandlesOk(s') by { SameHandles(s, s', i); }
    RebindIsIncSet(s.view, i, d);
    CommitKeeps(s, s', i, d);
  }

  lemma RebindIsIncSet(v: View, i: nat, d: Digest)
    ensures Rebind(v, i, None, d) == IncRef(SetManifest(v, i, [d]), d)
  {
  }

  lemma SameHandles(s: Fs, s': Fs, i: nat)
    requires HandlesOk(s) && s'.files == s.files && s'.nextFh == s.nextFh && s'.view.inodes == s.view.inodes
    requires Unopened(s, i) && forall j :: j != i ==> Blocks(s'.view, j) == Blocks(s.view, j)
    ensures HandlesOk(s')
  {
    hide IsDir;
    assert forall j :: LiveDir(s'.view, j) <==> LiveDir(s.view, j);
  }

  lemma MkdirRefs(s: Fs, parent: nat, name: Name, perm: nat, uid: nat, gid: nat)
    requires RefInv(s)
    ensures RefInv(Mkdir(s, parent, name, perm, uid, gid).0)
  {
    hide IsDir, Counted, HandlesOk;
    var s' := Mkdir(s, parent, name, perm, uid, gid).0;
    var (v', r) := CreateDirectory(s.view, parent, name, NewDir(uid, gid, perm));
    if r.Ok? {
      KindIgnoresLinks(s.view.inodes[parent], AsU32(s.view.inodes[parent].nlinks + 1));
      AddKeeps(s, s');
    } else {
      QuietKeeps(s, s');
    }
  }

  lemma RmdirRefs(s: Fs, parent: nat, name: Name)
    requires RefInv(s)
    ensures RefInv(Rmdir(s, parent, name).0)
  {
    hide IsDir, Counted, UnlinkEntry, Lookup, Rmdir, NodesElse;
    var s' := Rmdir(s, parent, name).0;
    RmdirView(s, parent, name);
    if s' != s {
      var i := Lookup(s.view, parent, name).value;
      assert Unopened(s, i);
      ClosedClaim(s, i);
      RemoveKeeps(s, s', i);
    }
  }

  lemma RmdirView(s: Fs, parent: nat, name: Name)
    requires ManifestsOk(s.view)
    ensures var s' := Rmdir(s, parent, name).0;
            s' == s || (var found := Lookup(s.view, parent, name);
                        && found.Ok? && LiveDir(s.view, found.value)
                        && NodesElse(s.view, s'.view, found.value) && found.value !in s'.view.inodes
                        && s'.files == s.files && s'.nextFh == s.nextFh && s'.view.nextIno == s.view.nextIno
                        && s'.view.manifests == s.view.manifests && s'.view.refcounts == s.view.refcounts)
  {
    hide IsDir, UnlinkEntry, LinkEntry, Lookup, EmptyDir;
    EntryFrames(s.view, parent, name, 0);
    if parent in s.view.inodes {
      KindIgnoresLinks(s.view.inodes[parent], SaturatingSub(s.view.inodes[parent].nlinks, 1));
    }
  }

  lemma EntryFrames(v: View, parent: nat, name: Name, ino: nat)
    ensures var r := UnlinkEntry(v, parent, name); r.Ok? ==> r.value == v.(dirs := r.value.dirs)
    ensures var r := LinkEntry(v, parent, name, ino); r.Ok? ==> r.value == v.(dirs := r.value.dirs)
  {
  }

  lemma HardLinkRefs(s: Fs, ino: nat, parent: nat, name: Name, now: Time)
    requires RefInv(s)
    ensures RefInv(HardLink(s, ino, parent, name, now).0)
  {
    hide IsDir, Counted, HandlesOk;
    if ino in s.view.inodes {
      KindIgnoresTime(s.view.inodes[ino], now);
      KindIgnoresLinks(Touched(s.view.inodes[ino], now), AsU32(s.view.inodes[ino].nlinks + 1));
    }
    QuietKeeps(s, HardLink(s, ino, parent, name, now).0);
  }

  /** Dropping a link of a closed file, by `unlink` or under a rename. */
  lemma DropLinkRefs(s: Fs, v1: View, i: nat)
    requires RefInv(s) && v1 == s.view.(dirs := v1.dirs) && i in s.view.inodes && Unopened(s, i)
    requires LiveDir(s.view, i) ==> s.view.inodes[i].nlinks > 1
    ensures RefInv(s.(view := DropLink(v1, i)))
  {
    hide IsDir, Counted, HandlesOk, DecRefs;
    var s' := s.(view := DropLink(v1, i));
    DecRefsFrame(v1, Blocks(v1, i));
    ClosedClaim(s, i);
    KindIgnoresLinks(s.view.inodes[i], SaturatingSub(s.view.inodes[i].nlinks, 1));
    if s.view.inodes[i].nlinks <= 1 {
      AtMostOne(s.view, v1, i);
      RemoveKeeps(s, s', i);
    } else {
      QuietKeeps(s, s');
    }
  }

  lemma AtMostOne(v: View, v1: View, i: nat)
    requires ManifestsOk(v) && v1.refcounts == v.refcounts && v1.manifests == v.manifests
    ensures var ds := Blocks(v1, i);
            DecRefs(v1, ds).refcounts == DropRoot(v, if ds == [] then None else Some(ds[0])).refcounts
  {
    hide DecRef, IsDir;
    var ds := Blocks(v1, i);
    assert |ds| <= 1;
    if ds != [] {
      assert ds == [ds[0]];
      OneBlock(v1, ds[0]);
      SameCounts(v, v1, ds[0]);
    }
  }

  lemma OneBlock(v: View, d: Digest)
    ensures DecRefs(v, [d]) == DecRef(v, d)
  {
    assert [d][..0] == [];
    assert DecRefs(v, []) == v;
  }

  lemma SameCounts(v: View, v1: View, d: Digest)
    requires v1.refcounts == v.refcounts
    ensures DecRef(v1, d).refcounts == DecRef(v, d).refcounts && IncRef(v1, d).refcounts == IncRef(v, d).refcounts
  {
  }

  lemma UnlinkRefs(s: Fs, parent: nat, name: Name)
    requires RefInv(s) && RefGuard(s, OpUnlink(parent, name))
    ensures RefInv(Unlink(s, parent, name).0)
  {
    hide IsDir, RefInv, DropLink;
    var found, removed := Lookup(s.view, parent, name), UnlinkEntry(s.view, parent, name);
    if found.Ok? && removed.Ok? && found.value in s.view.inodes && !IsDir(s.view.inodes[found.value]) {
      DropLinkRefs(s, removed.value, found.value);
    }
  }

  lemma MoveRefs(s: Fs, src: nat, parent: nat, name: Name, newParent: nat, newName: Name, now: Time)
    requires RefInv(s)
    ensures RefInv(Move(s, src, parent, name, newParent, newName, now).0)
  {
    hide IsDir, Counted, HandlesOk, LinkEntry, UnlinkEntry;
    EntryFrames(s.view, newParent, newName, src);
    var linked := LinkEntry(s.view, newParent, newName, src);
    if linked.Ok? { EntryFrames(linked.value, parent, name, src); }
    if src in s.view.inodes { KindIgnoresTime(s.view.inodes[src], now); }
    QuietKeeps(s, Move(s, src, parent, name, newParent, newName, now).0);
  }

  lemma RenameRefs(s: Fs, parent: nat, name: Name, newParent: nat, newName: Name, noReplace: bool, now: Time)
    requires RefInv(s) && RefGuard(s, OpRename(parent, name, newParent, newName, noReplace, now))
    ensures RefInv(Rename(s, parent, name, newParent, newName, noReplace, now).0)
  {
    hide IsDir, RefInv, DropLink, Move;
    var source, target := Lookup(s.view, parent, name), Lookup(s.view, newParent, newName);
    if source.Ok? {
      var removed := UnlinkEntry(s.view, newParent, newName);
      if target.Ok? && removed.Ok? && target.value in s.view.inodes {
        var dst := target.value;
        if IsDir(s.view.inodes[dst]) && s.view.inodes[dst].nlinks <= 1 {
          EntriesAside(s, s.(view := removed.value));
        } else {
          DropLinkRefs(s, removed.value, dst);
        }
        MoveRefs(s.(view := Displace(removed.value, dst)), source.value, parent, name, newParent, newName, now);
      } else if target.Err? {
        MoveRefs(s, source.value, parent, name, newParent, newName, now);
      }
    }
  }

  lemma EntriesAside(s: Fs, s': Fs)
    requires RefInv(s) && s' == s.(view := s.view.(dirs := s'.view.dirs))
    ensures RefInv(s')
  {
    hide IsDir, Counted, HandlesOk;
    QuietKeeps(s, s');
  }

  // ------------------------------------------------------- truncation by path, reading

  lemma TruncateClosedRefs(h: Hash, s: Fs, ino: nat, n: nat, now: Time)
    requires RefInv(s) && RefGuard(s, OpTruncateClosed(ino, n, now))
    ensures RefInv(TruncateClosed(h, s, ino, n, now).0)
  {
    hide IsDir, Counted, SetSize, Resize, IncRef, DecRef, SameNodes;
    var m := Blocks(s.view, ino);
    if m == [] || m[0] in s.cas {
      var content := Resize(if m == [] then [] else s.cas[m[0]], n);
      var v1 := if m == [] then s.view else DecRef(s.view, m[0]);
      var v2 :=
        if content == [] then SetManifest(v1, ino, []) else IncRef(SetManifest(v1, ino, [h(content)]), h(content));
      if m != [] { CountFrame(s.view, m[0]); }
      CountFrame(SetManifest(v1, ino, [h(content)]), h(content));
      SizeNodes(s.view, v2, ino, n, now, false);
      var s' := TruncateClosed(h, s, ino, n, now).0;
      ClosedFrames(s, s', ino, if content == [] then [] else [h(content)]);
      ClosedClaim(s, ino);
      ClosedClaim(s', ino);
      if content != [] { SameCounts(v1, SetManifest(v1, ino, [h(content)]), h(content)); }
      TruncateHands(s, s'.view, ino, if content == [] then None else Some(h(content)));
      ElsewhereClaims(s, s', ino);
      TradeKeepsCounts(s, s', ino);
    }
  }

  lemma ClosedFrames(s: Fs, s': Fs, i: nat, blocks: seq<Digest>)
    requires HandlesOk(s) && ManifestsOk(s.view) && Unopened(s, i) && i in s.view.inodes && !LiveDir(s.view, i)
             && |blocks| <= 1
    requires s'.files == s.files && s'.nextFh == s.nextFh && SameNodes(s.view, s'.view)
    requires s'.view.manifests == s.view.manifests[i := blocks]
    ensures HandlesOk(s') && ManifestsOk(s'.view) && Elsewhere(s, s', i) && Unopened(s', i) && i in s'.view.inodes
  {
    hide IsDir;
    assert forall j :: LiveDir(s'.view, j) <==> LiveDir(s.view, j);
  }

  lemma TruncateHands(s: Fs, v': View, i: nat, b: Option<Digest>)
    requires Counted(s)
    requires var a := Claim(s, i);
             v'.refcounts == (if b.Some? then IncRef(DropRoot(s.view, a), b.value) else DropRoot(s.view, a)).refcounts
    ensures Handed(s.view, v', Claim(s, i), b)
  {
    hide Claim, Handed, IncRef, DecRef, Counted;
    var a := Claim(s, i);
    if a.Some? {
      ClaimedIsCounted(s, i);
      DecHands(s.view, a.value);
      if b.Some? {
        SwapHands(s.view, a.value, b.value);
        HandedFrame(s.view, IncRef(DecRef(s.view, a.value), b.value), v', a, b);
      } else {
        HandedFrame(s.view, DecRef(s.view, a.value), v', a, b);
      }
    } else if b.Some? {
      IncHands(s.view, b.value);
      HandedFrame(s.view, IncRef(s.view, b.value), v', a, b);
    } else {
      SameHands(s.view, v', None);
    }
  }

  lemma OpenRefs(h: Hash, s: Fs, ino: nat, write: bool, trunc: bool, now: Time)
    requires RefInv(s) && RefGuard(s, OpOpen(ino, write, trunc, now))
    ensures RefInv(Open(h, s, ino, write, trunc, now).0)
  {
    hide IsDir, Counted, HandlesOk, TruncateOpen;
    var s' := Open(h, s, ino, write, trunc, now).0;
    if write {
      var (s1, fh) := AddHandle(s, ino);
      AddHandleRefs(s, ino);
      TruncateOpenRefs(h, s1, fh, 0, now);
      NoTruncateError(h, s1, fh, 0, now);
    } else {
      NextHandle(s, s');
    }
  }

  lemma NextHandle(s: Fs, s': Fs)
    requires RefInv(s) && s' == s.(nextFh := s.nextFh + 1)
    ensures RefInv(s')
  {
    hide IsDir, Handed, OnlyClaim, Counted;
    FreshIsClosed(s);
    ElsewhereClaims(s, s', s.view.nextIno);
    SameHands(s.view, s'.view, None);
    TradeKeepsCounts(s, s', s.view.nextIno);
  }

  lemma AddHandleRefs(s: Fs, ino: nat)
    requires RefInv(s) && ino in s.view.inodes && !LiveDir(s.view, ino) && Unopened(s, ino) && Blocks(s.view, ino) == []
    ensures RefInv(AddHandle(s, ino).0)
  {
    hide IsDir, Handed, OnlyClaim, Counted;
    var s' := AddHandle(s, ino).0;
    ElsewhereClaims(s, s', ino);
    SameHands(s.view, s'.view, None);
    TradeKeepsCounts(s, s', ino);
  }

  lemma NoTruncateError(h: Hash, s: Fs, fh: nat, n: nat, now: Time)
    requires RefInv(s) && fh in s.files
    ensures TruncateOpen(h, s, s.files[fh].ino, fh, n, now).1.Ok?
  {
    hide IsDir, Counted, Resize, DecRef;
    var f := s.files[fh];
    if f.lastRoot.Some? { CountFrame(s.view, f.lastRoot.value); }
  }

  lemma ReadRefs(h: Hash, s: Fs, ino: nat, writer: Option<nat>)
    requires RefInv(s) && (writer.Some? ==> writer.value in s.files)
    ensures RefInv(ReadVia(h, s, ino, writer).0)
  {
    hide IsDir, Counted, HandlesOk;
    QuietKeeps(s, ReadVia(h, s, ino, writer).0);
  }

  // ------------------------------------------------------------------- whole runs

  ghost predicate RefGuarded(h: Hash, s: Fs, ops: seq<Op>)
    decreases |ops|
  {
    ops == [] || (RefGuard(s, ops[0]) && RefGuarded(h, Step(h, s, ops[0]), ops[1..]))
  }

  lemma RefStep(h: Hash, s: Fs, op: Op)
    requires RefInv(s) && RefGuard(s, op)
    ensures RefInv(Step(h, s, op))
  {
    hide RefInv, RefGuard, Create, MakeNode, Symlink, Open, Write, Fsync, Release, TruncateOpen, TruncateClosed,
         ReadVia, HardLink, Unlink, Rename, Mkdir, Rmdir;
    match op
    case OpCreate(parent, name, perm, uid, gid) => CreateRefs(s, parent, name, perm, uid, gid);
    case OpMknod(parent, name, kind, perm, uid, gid) => CreateRefs(s, parent, name, perm, uid, gid);
    case OpSymlink(parent, name, target, uid, gid) => SymlinkRefs(h, s, parent, name, target, uid, gid);
    case OpOpen(ino, write, trunc, now) => OpenRefs(h, s, ino, write, trunc, now);
    case OpWrite(fh, off, data) => WriteRefs(h, s, fh, off, data);
    case OpFsync(fh, now) => FsyncRefs(h, s, fh, now);
    case OpRelease(fh, now) => ReleaseRefs(h, s, fh, now);
    case OpTruncateOpen(fh, size, now) => if fh in s.files { TruncateOpenRefs(h, s, fh, size, now); }
    case OpTruncateClosed(ino, size, now) => TruncateClosedRefs(h, s, ino, size, now);
    case OpRead(ino, writer) => if writer.Some? ==> writer.value in s.files { ReadRefs(h, s, ino, writer); }
    case OpHardLink(ino, parent, name, now) => HardLinkRefs(s, ino, parent, name, now);
    case OpUnlink(parent, name) => UnlinkRefs(s, parent, name);
    case OpRename(parent, name, newParent, newName, noReplace, now) =>
      RenameRefs(s, parent, name, newParent, newName, noReplace, now);
    case OpMkdir(parent, name, perm, uid, gid) => MkdirRefs(s, parent, name, perm, uid, gid);
    case OpRmdir(parent, name) => RmdirRefs(s, parent, name);
  }

  /** Reference counts are conserved: after every run, each digest's count is the number of live
      inodes that claim it, or has stuck at the largest value. */
  lemma {:induction false} RefcountConservation(h: Hash, s: Fs, ops: seq<Op>)
    requires RefInv(s) && RefGuarded(h, s, ops)
    ensures RefInv(RunFs(h, s, ops))
    decreases |ops|
  {
    hide RefInv, RefGuard, Step;
    if ops != [] {
      RefStep(h, s, ops[0]);
      RefcountConservation(h, Step(h, s, ops[0]), ops[1..]);
    }
  }

  lemma FreshRefs(s: Fs)
    requires Fresh(s)
    ensures RefInv(s)
  {
    hide IsDir;
    forall d: Digest ensures CountIs(Count(s.view, d), |Claimants(s, d)|) {
      assert Claimants(s, d) == {};
    }
  }

  /** The live files whose manifest names `d`. */
  ghost function Holders(v: View, d: Digest): (inos: set<nat>) {
    set i | i in v.inodes && d in Blocks(v, i)
  }

  /** From a fresh store, whenever no handle is open, every count that has not stuck is exactly the
      number of live files whose manifest names the digest. */
  lemma RefcountsExactWhenClosed(h: Hash, s: Fs, ops: seq<Op>, d: Digest)
    requires Fresh(s) && RefGuarded(h, s, ops) && RunFs(h, s, ops).files == map[]
    ensures var v := RunFs(h, s, ops).view;
            Count(v, d) == U64_MAX || Count(v, d) == |Holders(v, d)|
  {
    hide RefGuarded, RunFs, IsDir;
    FreshRefs(s);
    RefcountConservation(h, s, ops);
    var e := RunFs(h, s, ops);
    forall i ensures i in Holders(e.view, d) <==> i in Claimants(e, d) {
      if i in e.view.inodes { ClosedClaim(e, i); }
    }
    assert Holders(e.view, d) == Claimants(e, d);
    assert CountIs(Count(e.view, d), |Claimants(e, d)|);
  }

  // ------------------------------------------------------------ exactly when it fails

  /** A claim that comes or goes without its count moving. */
  lemma UnpaidClaim(s: Fs, s': Fs, i: nat, d: Digest)
    requires Counted(s) && OnlyClaim(s, s', i) && s'.view.refcounts == s.view.refcounts
    requires (Claim(s, i) == None && Claim(s', i) == Some(d)) || (Claim(s, i) == Some(d) && Claim(s', i) == None)
    ensures Counted(s') <==> Count(s.view, d) == U64_MAX
  {
    hide Claim;
    assert CountIs(Count(s.view, d), |Claimants(s, d)|);
    ClaimantsMove(s, s', i, d);
    forall e: Digest | e != d ensures CountIs(Count(s'.view, e), |Claimants(s', e)|) {
      ClaimantsMove(s, s', i, e);
      assert CountIs(Count(s.view, e), |Claimants(s, e)|);
      assert Count(s'.view, e) == Count(s.view, e);
    }
    assert Count(s'.view, d) == Count(s.view, d);
    if Counted(s') { assert CountIs(Count(s'.view, d), |Claimants(s', d)|); }
  }

  /** Closing a handle keeps the counts if and only if the handle has bytes, or still holds its root,
      or the file has no committed bytes (or the count had stuck anyway). The failing family is a
      handle truncated to zero after a commit: its file keeps a manifest nobody counts. */
  lemma ReleaseCountsIff(h: Hash, s: Fs, fh: nat, now: Time)
    requires RefInv(s) && fh in s.files
    ensures RefInv(Release(h, s, s.files[fh].ino, fh, now).0)
            <==> (s.files[fh].byteCount > 0 || s.files[fh].lastRoot.Some? || Blocks(s.view, s.files[fh].ino) == []
                  || Count(s.view, Blocks(s.view, s.files[fh].ino)[0]) == U64_MAX)
  {
    hide IsDir, Rebind, SetSize, Counted, OnlyClaim;
    var f := s.files[fh];
    if RefGuard(s, OpRelease(fh, now)) {
      ReleaseRefs(h, s, fh, now);
    } else {
      var s' := Release(h, s, f.ino, fh, now).0;
      OpenClaim(s, fh);
      ReleaseFrames(s, s', fh);
      ClosedClaim(s', f.ino);
      ElsewhereClaims(s, s', f.ino);
      UnpaidClaim(s, s', f.ino, Blocks(s.view, f.ino)[0]);
    }
  }

  /** Opening a closed file for writing keeps the counts if and only if the file has no committed
      bytes (or the count had stuck): the new handle does not know the old root, so the reference is
      never given back. */
  lemma OpenCountsIff(h: Hash, s: Fs, ino: nat, now: Time)
    requires RefInv(s) && ino in s.view.inodes && !LiveDir(s.view, ino) && Unopened(s, ino)
    ensures RefInv(Open(h, s, ino, true, false, now).0)
            <==> (Blocks(s.view, ino) == [] || Count(s.view, Blocks(s.view, ino)[0]) == U64_MAX)
  {
    hide IsDir, Counted, OnlyClaim;
    if Blocks(s.view, ino) == [] {
      AddHandleRefs(s, ino);
    } else {
      var s' := AddHandle(s, ino).0;
      assert !Kept(s', ino) by { assert s'.files[s.nextFh + 1].ino == ino; }
      ClosedClaim(s, ino);
      ElsewhereClaims(s, s', ino);
      UnpaidClaim(s, s', ino, Blocks(s.view, ino)[0]);
    }
  }

  // ------------------------------------------------------------- stuck counts stay stuck

  lemma SticksFrame(v: View, v': View)
    requires v'.refcounts == v.refcounts
    ensures Sticks(v, v')
  {
    assert forall d: Digest :: Count(v', d) == Count(v, d);
  }

  lemma SticksTransitive(a: View, b: View, c: View)
    requires Sticks(a, b) && Sticks(b, c)
    ensures Sticks(a, c)
  {
  }

  lemma OneSticks(v: View, d: Digest)
    ensures Sticks(v, IncRef(v, d)) && Sticks(v, DecRef(v, d))
  {
  }

  lemma {:induction false} DecRefsSticks(v: View, ds: seq<Digest>)
    ensures Sticks(v, DecRefs(v, ds))
  {
    hide Sticks, DecRef;
    if ds == [] {
      SticksFrame(v, v);
    } else {
      var v1 := DecRefs(v, ds[..|ds| - 1]);
      DecRefsSticks(v, ds[..|ds| - 1]);
      OneSticks(v1, ds[|ds| - 1]);
      SticksTransitive(v, v1, DecRef(v1, ds[|ds| - 1]));
    }
  }

  lemma DropRootSticks(v: View, root: Option<Digest>)
    ensures Sticks(v, DropRoot(v, root))
  {
    hide Sticks, DecRef;
    SticksFrame(v, v);
    if root.Some? { OneSticks(v, root.value); }
  }

  lemma RebindSticks(v: View, i: nat, prior: Option<Digest>, d: Digest)
    ensures Sticks(v, Rebind(v, i, prior, d))
  {
    hide Sticks, IncRef, DecRef;
    var v1 := if prior.Some? && prior.value != d then DecRef(v, prior.value) else v;
    var v2 := SetManifest(v1, i, [d]);
    DropRootSticks(v, prior);
    SticksFrame(v, v);
    SticksFrame(v1, v2);
    SticksTransitive(v, v1, v2);
    OneSticks(v2, d);
    SticksTransitive(v, v2, IncRef(v2, d));
  }

  lemma SizeSticks(v: View, v1: View, ino: nat, size: nat, now: Time, mtime: bool)
    requires Sticks(v, v1)
    ensures Sticks(v, SetSize(v1, ino, size, now, mtime).0)
  {
    hide Sticks;
    SticksFrame(v1, SetSize(v1, ino, size, now, mtime).0);
    SticksTransitive(v, v1, SetSize(v1, ino, size, now, mtime).0);
  }

  lemma HandleOpSticks(h: Hash, s: Fs, op: Op)
    requires op.OpOpen? || op.OpWrite? || op.OpFsync? || op.OpRelease? || op.OpTruncateOpen?
    ensures Sticks(s.view, Step(h, s, op).view)
  {
    hide Sticks, SetSize, Rebind, DropRoot, Resize, Pwrite, FallbackBase;
    var v := s.view;
    SticksFrame(v, v);
    match op
    case OpOpen(ino, write, trunc, now) =>
      DropRootSticks(v, None);
      SizeSticks(v, DropRoot(v, None), ino, 0, now, false);
    case OpWrite(fh, off, data) => if fh in s.files { DropRootSticks(v, s.files[fh].lastRoot); }
    case OpFsync(fh, now) => if fh in s.files { CommitSticks(h, s, s.files[fh], now); }
    case OpRelease(fh, now) =>
      SticksFrame(v, SetManifest(v, InoOf(s, fh), []));
      if fh in s.files { CommitSticks(h, s, s.files[fh], now); }
    case OpTruncateOpen(fh, size, now) =>
      if fh in s.files {
        DropRootSticks(v, s.files[fh].lastRoot);
        SizeSticks(v, DropRoot(v, s.files[fh].lastRoot), s.files[fh].ino, size, now, false);
        SizeSticks(v, v, s.files[fh].ino, size, now, false);
      }
  }

  lemma CommitSticks(h: Hash, s: Fs, f: Handle, now: Time)
    ensures Sticks(s.view, SetSize(Rebind(s.view, f.ino, f.lastRoot, h(InFlight(f))), f.ino, f.byteCount, now, true).0)
  {
    hide Sticks, SetSize, Rebind;
    var d := h(InFlight(f));
    RebindSticks(s.view, f.ino, f.lastRoot, d);
    SizeSticks(s.view, Rebind(s.view, f.ino, f.lastRoot, d), f.ino, f.byteCount, now, true);
  }

  lemma TruncateClosedSticks(h: Hash, s: Fs, ino: nat, size: nat, now: Time)
    ensures Sticks(s.view, TruncateClosed(h, s, ino, size, now).0.view)
  {
    hide Sticks, SetSize, Resize, IncRef, DecRef;
    var v, m := s.view, Blocks(s.view, ino);
    SticksFrame(v, v);
    if m == [] || m[0] in s.cas {
      var content := Resize(if m == [] then [] else s.cas[m[0]], size);
      var v1 := if m == [] then v else DecRef(v, m[0]);
      if m != [] { OneSticks(v, m[0]); }
      var mid := SetManifest(v1, ino, if content == [] then [] else [h(content)]);
      SticksFrame(v1, mid);
      SticksTransitive(v, v1, mid);
      OneSticks(mid, h(content));
      SticksTransitive(v, mid, IncRef(mid, h(content)));
      SizeSticks(v, if content == [] then mid else IncRef(mid, h(content)), ino, size, now, false);
    }
  }

  lemma DropLinkSticks(v: View, v1: View, i: nat)
    requires v1.refcounts == v.refcounts && i in v1.inodes
    ensures Sticks(v, DropLink(v1, i))
  {
    hide Sticks, DecRefs;
    DecRefsSticks(v1, Blocks(v1, i));
    DecRefsFrame(v1, Blocks(v1, i));
    SticksFrame(v, v1);
    SticksTransitive(v, v1, DecRefs(v1, Blocks(v1, i)));
    var v' := DropLink(v1, i);
    SticksFrame(if SaturatingSub(v1.inodes[i].nlinks, 1) == 0 then DecRefs(v1, Blocks(v1, i)) else v1, v');
    SticksTransitive(v, if SaturatingSub(v1.inodes[i].nlinks, 1) == 0 then DecRefs(v1, Blocks(v1, i)) else v1, v');
  }

  lemma MoveCounts(s: Fs, src: nat, parent: nat, name: Name, newParent: nat, newName: Name, now: Time)
    ensures Move(s, src, parent, name, newParent, newName, now).0.view.refcounts == s.view.refcounts
  {
    hide LinkEntry, UnlinkEntry;
    EntryFrames(s.view, newParent, newName, src);
    var linked := LinkEntry(s.view, newParent, newName, src);
    if linked.Ok? { EntryFrames(linked.value, parent, name, src); }
  }

  lemma RenameSticks(s: Fs, parent: nat, name: Name, newParent: nat, newName: Name, noReplace: bool, now: Time)
    ensures Sticks(s.view, Rename(s, parent, name, newParent, newName, noReplace, now).0.view)
  {
    hide Sticks, IsDir, DropLink, Move, UnlinkEntry, LinkEntry, Lookup;
    SticksFrame(s.view, s.view);
    EntryFrames(s.view, newParent, newName, 0);
    var source, target, removed := Lookup(s.view, parent, name), Lookup(s.view, newParent, newName),
        UnlinkEntry(s.view, newParent, newName);
    if source.Ok? {
      var s1 :=
        if target.Ok? && removed.Ok? && target.value in s.view.inodes
        then s.(view := Displace(removed.value, target.value)) else s;
      if target.Ok? && removed.Ok? && target.value in s.view.inodes {
        DropLinkSticks(s.view, removed.value, target.value);
        SticksFrame(s.view, removed.value);
      }
      var s' := Move(s1, source.value, parent, name, newParent, newName, now).0;
      MoveCounts(s1, source.value, parent, name, newParent, newName, now);
      SticksFrame(s1.view, s'.view);
      SticksTransitive(s.view, s1.view, s'.view);
    }
  }

  lemma MakeFileCounts(v: View, parent: nat, name: Name, meta: Inode)
    ensures MakeFile(v, parent, name, meta).0.refcounts == v.refcounts
  {
    hide LinkEntry, UnlinkEntry;
    EntryFrames(CreateInode(v, meta).0, parent, name, v.nextIno);
  }

  lemma HardLinkCounts(s: Fs, ino: nat, parent: nat, name: Name, now: Time)
    ensures HardLink(s, ino, parent, name, now).0.view.refcounts == s.view.refcounts
  {
    hide IsDir, LinkEntry, UnlinkEntry;
    EntryFrames(s.view, parent, name, ino);
  }

  lemma MkdirCounts(s: Fs, parent: nat, name: Name, perm: nat, uid: nat, gid: nat)
    ensures Mkdir(s, parent, name, perm, uid, gid).0.view.refcounts == s.view.refcounts
  {
    hide IsDir, LinkEntry, UnlinkEntry;
    EntryFrames(s.view.(nextIno := s.view.nextIno + 1), parent, name, s.view.nextIno);
  }

  lemma RmdirCounts(s: Fs, parent: nat, name: Name)
    ensures Rmdir(s, parent, name).0.view.refcounts == s.view.refcounts
  {
    hide IsDir, LinkEntry, UnlinkEntry, Lookup, EmptyDir;
    EntryFrames(s.view, parent, name, 0);
  }

  lemma NameOpSticks(h: Hash, s: Fs, op: Op)
    requires op.OpCreate? || op.OpMknod? || op.OpHardLink? || op.OpMkdir? || op.OpRmdir? || op.OpRead?
    ensures Sticks(s.view, Step(h, s, op).view)
  {
    hide Sticks, MakeFile, HardLink, Mkdir, Rmdir;
    assert Step(h, s, op).view.refcounts == s.view.refcounts by {
      match op
      case OpCreate(parent, name, perm, uid, gid) => MakeFileCounts(s.view, parent, name, NewFile(uid, gid, perm));
      case OpMknod(parent, name, kind, perm, uid, gid) => MakeFileCounts(s.view, parent, name, NewFile(uid, gid, perm));
      case OpHardLink(ino, parent, name, now) => HardLinkCounts(s, ino, parent, name, now);
      case OpMkdir(parent, name, perm, uid, gid) => MkdirCounts(s, parent, name, perm, uid, gid);
      case OpRmdir(parent, name) => RmdirCounts(s, parent, name);
      case OpRead(ino, writer) =>
    }
    SticksFrame(s.view, Step(h, s, op).view);
  }

  lemma SymlinkSticks(h: Hash, s: Fs, parent: nat, name: Name, target: Bytes, uid: nat, gid: nat)
    ensures Sticks(s.view, Symlink(h, s, parent, name, target, uid, gid).0.view)
  {
    hide Sticks, MakeFile, IncRef;
    var v := s.view;
    MakeFileCounts(v, parent, name, NewSymlink(uid, gid, |target|));
    var (v1, made) := MakeFile(v, parent, name, NewSymlink(uid, gid, |target|));
    SticksFrame(v, v1);
    if made.Ok? {
      var v2 := SetManifest(v1, made.value, [h(target)]);
      SticksFrame(v, v2);
      OneSticks(v2, h(target));
      SticksTransitive(v, v2, IncRef(v2, h(target)));
    }
  }

  lemma UnlinkSticks(s: Fs, parent: nat, name: Name)
    ensures Sticks(s.view, Unlink(s, parent, name).0.view)
  {
    hide Sticks, IsDir, UnlinkEntry, LinkEntry, Lookup, DropLink;
    SticksFrame(s.view, s.view);
    EntryFrames(s.view, parent, name, 0);
    var found, removed := Lookup(s.view, parent, name), UnlinkEntry(s.view, parent, name);
    if found.Ok? && removed.Ok? && found.value in s.view.inodes { DropLinkSticks(s.view, removed.value, found.value); }
  }

  lemma StickStep(h: Hash, s: Fs, op: Op)
    ensures Sticks(s.view, Step(h, s, op).view)
  {
    hide Sticks, Rename, TruncateClosed, Symlink, Unlink;
    match op
    case OpTruncateClosed(ino, size, now) => TruncateClosedSticks(h, s, ino, size, now);
    case OpRename(parent, name, newParent, newName, noReplace, now) =>
      RenameSticks(s, parent, name, newParent, newName, noReplace, now);
    case OpCreate(_, _, _, _, _) => NameOpSticks(h, s, op);
    case OpMknod(_, _, _, _, _, _) => NameOpSticks(h, s, op);
    case OpSymlink(parent, name, target, uid, gid) => SymlinkSticks(h, s, parent, name, target, uid, gid);
    case OpHardLink(_, _, _, _) => NameOpSticks(h, s, op);
    case OpUnlink(parent, name) => UnlinkSticks(s, parent, name);
    case OpMkdir(_, _, _, _, _) => NameOpSticks(h, s, op);
    case OpRmdir(_, _) => NameOpSticks(h, s, op);
    case OpRead(_, _) => NameOpSticks(h, s, op);
    case _ => HandleOpSticks(h, s, op);
  }

  /** In every run, guarded or not, a count that reaches the largest value stays there for good. */
  lemma {:induction false} StuckForGood(h: Hash, s: Fs, ops: seq<Op>)
    ensures Sticks(s.view, RunFs(h, s, ops).view)
    decreases |ops|
  {
    hide Sticks, Step;
    if ops == [] {
      SticksFrame(s.view, s.view);
    } else {
      var s1 := Step(h, s, ops[0]);
      StickStep(h, s, ops[0]);
      StuckForGood(h, s1, ops[1..]);
      SticksTransitive(s.view, s1.view, RunFs(h, s, ops).view);
    }
  }
}
