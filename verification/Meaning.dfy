/** What a root means: the view it was committed with is the only one its tables stand for. */
module Meaning {
  import opened ByteCodec
  import opened Cas
  import opened Tables
  import opened StoreView
  import opened StoreTies
  import Accounting
  import Directory
  import DictStore
  import Inodes
  import Persist
  import Xattrs

  lemma SameEntries(h: Hash, blobs: Blobs, d: Digest, a: map<Name, nat>, b: map<Name, nat>)
    requires Directory.DirOf(h, blobs, d, a) && Directory.DirOf(h, blobs, d, b)
    ensures a == b
  {
    hide Directory.DecodeList;
  }

  lemma SameInode(blobs: Blobs, d: Digest, a: Inode, b: Inode)
    requires HoldsInode(blobs, d, a) && HoldsInode(blobs, d, b)
    ensures a == b
  {
    hide Inodes.EncodeInode, Inodes.InodeFits, Inodes.DecodeInode;
    Inodes.InodeCodec(a, blobs[d]);
    Inodes.InodeCodec(b, blobs[d]);
  }

  lemma SameManifest(blobs: Blobs, d: Digest, a: seq<Digest>, b: seq<Digest>)
    requires HoldsManifest(blobs, d, a) && HoldsManifest(blobs, d, b)
    ensures a == b
  {
    hide DigestList, DecodeManifest;
    ManifestCodec(a, blobs[d]);
    ManifestCodec(b, blobs[d]);
  }

  lemma SameAttrs(blobs: Blobs, d: Digest, a: Xattrs.Attrs, b: Xattrs.Attrs)
    requires HoldsXattrs(blobs, d, a) && HoldsXattrs(blobs, d, b)
    ensures a == b
  {
    hide Xattrs.EncodeAttrs, Xattrs.DecodeAttrs, Xattrs.AttrsFit;
    Xattrs.XattrCodec(a, blobs[d]);
    Xattrs.XattrCodec(b, blobs[d]);
  }

  lemma SameInodes(a: Store, v: View, b: Store, w: View)
    requires a.blobs == b.blobs && a.inodeData == b.inodeData && InodesTie(a, v) && InodesTie(b, w)
    ensures v.inodes == w.inodes
  {
    hide HoldsInode;
    assert v.inodes.Keys == w.inodes.Keys;
    forall i | i in v.inodes ensures v.inodes[i] == w.inodes[i] {
      SameInode(a.blobs, a.inodeData[i], v.inodes[i], w.inodes[i]);
    }
  }

  lemma SameDirs(h: Hash, a: Store, v: View, b: Store, w: View)
    requires a.blobs == b.blobs && a.dirData == b.dirData && DirsTie(h, a, v) && DirsTie(h, b, w)
    ensures v.dirs == w.dirs
  {
    hide Directory.DirOf;
    assert v.dirs.Keys == w.dirs.Keys;
    forall i | i in v.dirs ensures v.dirs[i] == w.dirs[i] {
      SameEntries(h, a.blobs, a.dirData[i], v.dirs[i], w.dirs[i]);
    }
  }

  lemma SameManifests(a: Store, v: View, b: Store, w: View)
    requires a.blobs == b.blobs && a.manifestData == b.manifestData && ManifestsTie(a, v) && ManifestsTie(b, w)
    ensures v.manifests == w.manifests
  {
    hide HoldsManifest;
    assert v.manifests.Keys == w.manifests.Keys;
    forall i | i in v.manifests ensures v.manifests[i] == w.manifests[i] {
      SameManifest(a.blobs, a.manifestData[i], v.manifests[i], w.manifests[i]);
    }
  }

  lemma SameXattrs(a: Store, v: View, b: Store, w: View)
    requires a.blobs == b.blobs && a.xattrData == b.xattrData && XattrsTie(a, v) && XattrsTie(b, w)
    ensures v.xattrs == w.xattrs
  {
    hide HoldsXattrs;
    assert v.xattrs.Keys == w.xattrs.Keys;
    forall i | i in v.xattrs ensures v.xattrs[i] == w.xattrs[i] {
      SameAttrs(a.blobs, a.xattrData[i], v.xattrs[i], w.xattrs[i]);
    }
  }

  /** The same tables over the same blobs stand for the same view. */
  lemma TiesAreUnique(h: Hash, a: Store, v: View, b: Store, w: View)
    requires Ties(h, a, v) && Ties(h, b, w) && a.blobs == b.blobs && MetaOf(a) == MetaOf(b)
    ensures Accounting.Reloaded(v) == Accounting.Reloaded(w)
  {
    hide InodesTie, DirsTie, ManifestsTie, XattrsTie, Numbered, Accounting.Total;
    SameInodes(a, v, b, w);
    SameDirs(h, a, v, b, w);
    SameManifests(a, v, b, w);
    SameXattrs(a, v, b, w);
  }

  /** Whatever a root was committed from, and however often, loading it shows one and the same view:
      the same inodes, directories, manifests, attributes and reference counts. */
  lemma RootMeansOneView(h: Hash, blobs: Blobs, root: Digest, a: Store, v: View, b: Store, w: View)
    requires Recorded(h, blobs, root, a, v) && Recorded(h, blobs, root, b, w)
    ensures Accounting.Reloaded(v) == Accounting.Reloaded(w)
  {
    hide Ties, Persist.Stored, Persist.RootOf, Persist.Load, DictStore.Names;
    DictStore.RecordedLoads(h, blobs, root, a, v);
    DictStore.RecordedLoads(h, blobs, root, b, w);
    TiesGrow(h, a, blobs, v);
    TiesGrow(h, b, blobs, w);
    TiesAreUnique(h, a.(blobs := blobs), v, b.(blobs := blobs), w);
  }
}
