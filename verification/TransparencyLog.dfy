/**
 * The log that a domain keeps of its key events: appended to and never changed, with proofs for those who hold heads.
 */
module TransparencyLog {
  import opened Wrappers
  import opened Json
  import opened JsonParser
  import opened Signing
  import M = Merkle
  import Utf8

  /** What is hashed of an entry: its canonical text. */
  function EntryBytes(entry: Json): Bytes {
    Utf8.Encode(Canonical(entry))
  }

  function Texts(entries: seq<Json>): (bs: seq<Bytes>)
    ensures |bs| == |entries| && forall i | 0 <= i < |bs| :: bs[i] == EntryBytes(entries[i])
  {
    seq(|entries|, i requires 0 <= i < |entries| => EntryBytes(entries[i]))
  }

  function Leaves(sha: M.Sha, entries: seq<Json>): seq<M.Hash> {
    M.HashLeaves(sha, Texts(entries))
  }

  /** The root of the log with these entries. */
  function Root(sha: M.Sha, entries: seq<Json>): M.Hash {
    M.SubtreeRoot(sha, Leaves(sha, entries))
  }

  ghost predicate EntriesOk(entries: seq<Json>) {
    forall i | 0 <= i < |entries| :: WellFormed(entries[i]) && entries[i].JObj?
  }

  /** The same entries, each up to the order of its keys. */
  ghost predicate SameEntries(a: seq<Json>, b: seq<Json>) {
    |a| == |b| && forall i | 0 <= i < |a| :: Canon(a[i]) == Canon(b[i])
  }

  lemma BytesSame(a: Json, b: Json)
    requires WellFormed(a) && a.JObj? && WellFormed(b) && b.JObj? && EntryBytes(a) == EntryBytes(b)
    ensures Canon(a) == Canon(b)
  {
    Utf8.EncodeInjective(Canonical(a), Canonical(b));
    CanonicalInjective(a, b);
    SameCanon(a, b);
  }

  /** Everything that is hashed for the root of the log. */
  function Hashed(sha: M.Sha, entries: seq<Json>): seq<Bytes> {
    M.LogInputs(sha, Texts(entries))
  }

  lemma RootsSame(sha: M.Sha, a: seq<Json>, b: seq<Json>)
    requires M.NoCollision(sha, Hashed(sha, a), Hashed(sha, b))
    requires EntriesOk(a) && EntriesOk(b) && a != [] && b != [] && Root(sha, a) == Root(sha, b)
    ensures SameEntries(a, b)
  {
    M.RootsBind(sha, Texts(a), Texts(b));
    forall i | 0 <= i < |a| ensures Canon(a[i]) == Canon(b[i]) {
      assert Texts(a)[i] == Texts(b)[i];
      BytesSame(a[i], b[i]);
    }
  }

  lemma LeavesPrefix(sha: M.Sha, entries: seq<Json>, m: nat)
    requires m <= |entries|
    ensures Leaves(sha, entries)[..m] == Leaves(sha, entries[..m])
  {}

  /**
   * Who holds two heads and a proof between them that verifies knows that the older log is the beginning of the newer
   * one, entry by entry, unless what was hashed for the one and for the other collides.
   */
  lemma ConsistentMeansPrefix(sha: M.Sha, older: seq<Json>, newer: seq<Json>, proof: M.ConsistencyProof)
    requires EntriesOk(older) && EntriesOk(newer) && older != [] && M.SizeOk(|newer|)
    requires proof.fromSize == |older| && proof.toSize == |newer|
    requires M.VerifyConsistency(sha, proof, Root(sha, older), Root(sha, newer))
    requires M.NoCollision(sha, Hashed(sha, newer), M.ConsistencyInputs(sha, proof, Root(sha, older)))
    requires M.NoCollision(sha, Hashed(sha, older), Hashed(sha, newer[..|older|]))
    ensures |older| <= |newer| && SameEntries(older, newer[..|older|])
  {
    var inputs := M.ConsistencyInputs(sha, proof, Root(sha, older));
    M.TreeAmongLog(sha, Texts(newer));
    M.NoCollisionAmong(sha, Hashed(sha, newer), inputs, M.TreeInputs(sha, Leaves(sha, newer)), inputs);
    M.ConsistencyExact(sha, proof, Leaves(sha, newer), Root(sha, older));
    LeavesPrefix(sha, newer, |older|);
    RootsSame(sha, older, newer[..|older|]);
  }

  /**
   * Who holds a head and a proof for an entry that verifies knows that the log has the entry at that place, unless what
   * was hashed for the log and for the proof collides.
   */
  lemma IncludedMeansThere(sha: M.Sha, entries: seq<Json>, proof: M.InclusionProof, entry: Json)
    requires EntriesOk(entries) && M.SizeOk(|entries|) && WellFormed(entry) && entry.JObj?
    requires proof.logSize == |entries| && M.DecodeHash(proof.leafHash) == Some(M.HashLeaf(sha, EntryBytes(entry)))
    requires M.VerifyInclusion(sha, proof, Root(sha, entries))
    requires M.NoCollision(sha, Hashed(sha, entries), M.InclusionInputs(sha, proof) + [M.LeafInput(EntryBytes(entry))])
    ensures 0 <= proof.leafIndex < |entries| && Canon(entry) == Canon(entries[proof.leafIndex])
  {
    var inputs, own := M.InclusionInputs(sha, proof), M.LeafInput(EntryBytes(entry));
    M.TreeAmongLog(sha, Texts(entries));
    M.NoCollisionAmong(sha, Hashed(sha, entries), inputs + [own], M.TreeInputs(sha, Leaves(sha, entries)), inputs);
    M.InclusionExact(sha, proof, Leaves(sha, entries));
    var i := proof.leafIndex;
    assert M.LeafInput(Texts(entries)[i]) in Hashed(sha, entries) && own in inputs + [own];
    M.LeafInputParts(EntryBytes(entry), EntryBytes(entries[i]));
    BytesSame(entry, entries[i]);
  }

  // ---------------------------------------------------------------- in place

  class Log {
    const sha: M.Sha
    const admits: Json -> bool
    var entries: seq<Json>
    var leaves: seq<M.Hash>

    ghost predicate Valid()
      reads this
    {
      leaves == Leaves(sha, entries)
    }

    constructor (sha: M.Sha, admits: Json -> bool)
      ensures Valid() && this.sha == sha && this.admits == admits && entries == []
    {
      this.sha, this.admits := sha, admits;
      entries, leaves := [], [];
    }

    /** The index of the new entry, or an error that changes nothing. */
    method Append(entry: Json) returns (r: Result<nat>)
      requires Valid()
      modifies this
      ensures Valid()
      ensures if admits(entry) then r == Ok(|old(entries)|) && entries == old(entries) + [entry]
              else r.Err? && entries == old(entries)
    {
      if !admits(entry) {
        return Err("entry");
      }
      entries := entries + [entry];
      leaves := leaves + [M.HashLeaf(sha, EntryBytes(entry))];
      r := Ok(|leaves| - 1);
    }

    method RootHash() returns (root: M.Hash)
      requires Valid()
      ensures root == Root(sha, entries)
    {
      root := M.SubtreeRoot(sha, leaves);
    }

    /** A proof for any leaf of any earlier state of the log; it verifies under that state's root. */
    method InclusionProof(leafIndex: int, treeSize: int) returns (r: Result<M.InclusionProof>)
      requires Valid()
      ensures r.Ok? <==> 0 <= leafIndex < treeSize <= |entries|
      ensures r.Ok? ==> r.value.leafIndex == leafIndex && r.value.logSize == treeSize
      ensures r.Ok? ==> M.DecodeHash(r.value.leafHash) == Some(M.HashLeaf(sha, EntryBytes(entries[leafIndex])))
      ensures r.Ok? && M.SizeOk(treeSize) ==> M.VerifyInclusion(sha, r.value, Root(sha, entries[..treeSize]))
    {
      if treeSize <= 0 || treeSize > |leaves| {
        return Err("treeSize");
      }
      if leafIndex < 0 || leafIndex >= treeSize {
        return Err("leafIndex");
      }
      var tree := leaves[..treeSize];
      var siblings := M.AuditPath(sha, leafIndex, tree);
      var proof := M.InclusionProof(treeSize, M.EncodeHash(tree[leafIndex]), leafIndex, M.EncodeHashes(siblings));
      M.DecodeEncoded(tree[leafIndex]);
      M.DecodesEncoded(siblings);
      LeavesPrefix(sha, entries, treeSize);
      if M.SizeOk(treeSize) {
        M.InclusionComplete(sha, proof, tree);
      }
      r := Ok(proof);
    }

    /** A proof between any two earlier states of the log; it verifies under their roots. */
    method ConsistencyProof(firstSize: int, secondSize: int) returns (r: Result<M.ConsistencyProof>)
      requires Valid()
      ensures r.Ok? <==> 0 < firstSize <= secondSize <= |entries|
      ensures r.Ok? ==> r.value.fromSize == firstSize && r.value.toSize == secondSize
      ensures r.Ok? && M.SizeOk(secondSize) ==>
        M.VerifyConsistency(sha, r.value, Root(sha, entries[..firstSize]), Root(sha, entries[..secondSize]))
    {
      if firstSize <= 0 || secondSize <= 0 || firstSize > secondSize || secondSize > |leaves| {
        return Err("sizes");
      }
      var second := leaves[..secondSize];
      var path := M.Subproof(sha, firstSize, second, true);
      var proof := M.ConsistencyProof(firstSize, secondSize, M.EncodeHashes(path));
      M.DecodesEncoded(path);
      LeavesPrefix(sha, entries, secondSize);
      LeavesPrefix(sha, entries, firstSize);
      if M.SizeOk(secondSize) {
        assert second[..firstSize] == leaves[..firstSize];
        M.ConsistencyComplete(sha, proof, second);
      }
      r := Ok(proof);
    }
  }
}
