/**
The perceptual-hash index (src/server/hrb/index/PHashDb.cc): all blobs with one hash are packed
into a single string of 20-byte IDs.
 */
module PHashDb {
  import opened Common
  import opened StringTemplate
  import opened RedisKeys

  type PHash = nat

  ghost predicate Contains(s: string, id: string) { exists k: nat :: At(s, id, k) }

  // The script of add(): append the ID unless it is found somewhere in the string.
  ghost function Packed(s: string, id: string): string { if Contains(s, id) then s else s + id }

  ghost function PackAll(ids: seq<string>): string
    decreases |ids|
  {
    if ids == [] then "" else Packed(PackAll(ids[..|ids| - 1]), ids[|ids| - 1])
  }

  function Unpack(s: string): seq<string> {
    if |s| < BLOB_SIZE then [] else [s[..BLOB_SIZE]] + Unpack(s[BLOB_SIZE..])
  }

  // HGET, with nothing for a missing field.
  function Stored(table: map<PHash, string>, phash: PHash): string { if phash in table then table[phash] else "" }

  ghost function Indexed(table: map<PHash, string>, blob: string, phash: PHash): map<PHash, string> {
    table[phash := Packed(Stored(table, phash), blob)]
  }

  // The index after a run of adds, each of a blob with its hash.
  ghost function IndexAll(adds: seq<(string, PHash)>): map<PHash, string>
    decreases |adds|
  {
    if adds == [] then map[] else Indexed(IndexAll(adds[..|adds| - 1]), adds[|adds| - 1].0, adds[|adds| - 1].1)
  }

  // The blobs added with one hash, in order.
  function AddedWith(adds: seq<(string, PHash)>, phash: PHash): seq<string>
    decreases |adds|
  {
    if adds == [] then []
    else AddedWith(adds[..|adds| - 1], phash) + if adds[|adds| - 1].1 == phash then [adds[|adds| - 1].0] else []
  }

  // Each hash has a string of its own: it packs exactly the blobs added with that hash.
  lemma {:induction false} HashesAreSeparate(adds: seq<(string, PHash)>, phash: PHash)
    ensures Stored(IndexAll(adds), phash) == PackAll(AddedWith(adds, phash))
    decreases |adds|
  {
    if adds != [] {
      var before, last := adds[..|adds| - 1], adds[|adds| - 1];
      HashesAreSeparate(before, phash);
      var ids := AddedWith(before, phash);
      assert (ids + [last.0])[..|ids|] == ids;
      assert ids + [] == ids;
    }
  }

  class Index {
    var table: map<PHash, string>

    constructor ()
      ensures table == map[]
    {
      table := map[];
    }

    method Add(blob: string, phash: PHash)
      requires IsBlob(blob)
      modifies this
      ensures table == Indexed(old(table), blob, phash)
    {
      var oids := blob;
      assert !Contains("", blob) && "" + blob == blob;
      if phash in table {
        oids := table[phash];
        var pos := Find(oids, blob);
        if pos.None? {
          oids := oids + blob;
        }
      }
      table := table[phash := oids];
    }

    method ExactMatch(phash: PHash) returns (result: seq<string>)
      ensures result == Unpack(Stored(table, phash))
    {
      var oids := if phash in table then table[phash] else "";
      ghost var all := oids;
      result := [];
      while |oids| >= BLOB_SIZE
        invariant result + Unpack(oids) == Unpack(all)
        decreases |oids|
      {
        result := result + [oids[..BLOB_SIZE]];
        oids := oids[BLOB_SIZE..];
      }
    }
  }

  lemma {:induction false} UnpackAppend(s: string, id: string)
    requires |s| % BLOB_SIZE == 0 && IsBlob(id)
    ensures Unpack(s + id) == Unpack(s) + [id]
    decreases |s|
  {
    if s == [] {
      assert s + id == id && id[..BLOB_SIZE] == id && id[BLOB_SIZE..] == [];
    } else {
      assert (s + id)[..BLOB_SIZE] == s[..BLOB_SIZE] && (s + id)[BLOB_SIZE..] == s[BLOB_SIZE..] + id;
      UnpackAppend(s[BLOB_SIZE..], id);
    }
  }

  lemma {:induction false} UnpackedAt(s: string, i: nat)
    requires i < |Unpack(s)|
    ensures BLOB_SIZE * i + BLOB_SIZE <= |s| && At(s, Unpack(s)[i], BLOB_SIZE * i)
    decreases |s|
  {
    if i > 0 {
      UnpackedAt(s[BLOB_SIZE..], i - 1);
      assert Unpack(s)[i] == Unpack(s[BLOB_SIZE..])[i - 1];
      var k := BLOB_SIZE * (i - 1);
      assert s[BLOB_SIZE..][k..k + BLOB_SIZE] == s[k + BLOB_SIZE..k + BLOB_SIZE + BLOB_SIZE];
    }
  }

  // An occurrence at an aligned offset is decoded.
  lemma {:induction false} AlignedIsUnpacked(s: string, id: string, i: nat)
    requires IsBlob(id) && At(s, id, BLOB_SIZE * i)
    ensures id in Unpack(s)
    decreases i
  {
    if i > 0 {
      var k := BLOB_SIZE * (i - 1);
      assert s[BLOB_SIZE..][k..k + BLOB_SIZE] == s[k + BLOB_SIZE..k + BLOB_SIZE + BLOB_SIZE];
      AlignedIsUnpacked(s[BLOB_SIZE..], id, i - 1);
    }
  }

  ghost predicate IndexOk(ids: seq<string>, s: string) {
    && |s| % BLOB_SIZE == 0 && Distinct(Unpack(s))
    && (forall x :: x in Unpack(s) ==> x in ids)
    && (forall x :: x in ids ==> Contains(s, x))
  }

  lemma AppendKeepsSubstrings(s: string, id: string, x: string)
    requires Contains(s, x)
    ensures Contains(s + id, x)
  {
    var k: nat :| At(s, x, k);
    assert (s + id)[k..k + |x|] == s[k..k + |x|];
    assert At(s + id, x, k);
  }

  lemma AppendNew(ids: seq<string>, s: string, id: string)
    requires IndexOk(ids, s) && IsBlob(id) && !Contains(s, id)
    ensures IndexOk(ids + [id], s + id)
  {
    UnpackAppend(s, id);
    var u := Unpack(s);
    forall i | 0 <= i < |u| ensures u[i] != id {
      UnpackedAt(s, i);
    }
    assert (s + id)[|s|..|s| + BLOB_SIZE] == id;
    assert At(s + id, id, |s|);
    forall x | x in ids ensures Contains(s + id, x) {
      AppendKeepsSubstrings(s, id, x);
    }
  }

  // Over every run of adds: whole IDs, no duplicates, nothing invented, and every added ID stays
  // in the string.
  lemma {:induction false} IndexInvariant(ids: seq<string>)
    requires forall i :: 0 <= i < |ids| ==> IsBlob(ids[i])
    ensures IndexOk(ids, PackAll(ids))
    decreases |ids|
  {
    if ids != [] {
      var before, id := ids[..|ids| - 1], ids[|ids| - 1];
      assert ids == before + [id];
      IndexInvariant(before);
      var s := PackAll(before);
      if !Contains(s, id) {
        AppendNew(before, s, id);
      }
    }
  }

  // Decoding finds exactly the aligned occurrences.
  lemma UnpackedIffAligned(s: string, id: string)
    requires IsBlob(id)
    ensures id in Unpack(s) <==> exists i: nat :: At(s, id, BLOB_SIZE * i)
  {
    if id in Unpack(s) {
      var i :| 0 <= i < |Unpack(s)| && Unpack(s)[i] == id;
      UnpackedAt(s, i);
    }
    if i: nat :| At(s, id, BLOB_SIZE * i) {
      AlignedIsUnpacked(s, id, i);
    }
  }

  lemma PackAllPrefix(ids: seq<string>, k: nat)
    requires k < |ids|
    ensures ids[..k + 1][..k] == ids[..k]
    ensures PackAll(ids[..k + 1]) == Packed(PackAll(ids[..k]), ids[k])
  {
    assert ids[..k + 1][..k] == ids[..k];
  }

  // Once added, an ID is found or lost for good: later adds cannot change that.
  lemma {:induction false} SettledOnceAdded(ids: seq<string>, k: nat, n: nat)
    requires (forall i :: 0 <= i < |ids| ==> IsBlob(ids[i])) && k < n <= |ids|
    ensures ids[k] in Unpack(PackAll(ids[..n])) <==> ids[k] in Unpack(PackAll(ids[..k + 1]))
    decreases n
  {
    if n > k + 1 {
      SettledOnceAdded(ids, k, n - 1);
      PackAllPrefix(ids, n - 1);
      var s := PackAll(ids[..n - 1]);
      IndexInvariant(ids[..n - 1]);
      assert ids[k] == ids[..n - 1][k];
      if !Contains(s, ids[n - 1]) {
        UnpackAppend(s, ids[n - 1]);
      }
    }
  }

  /**
  What a caller can tell before adding a new ID: it will be found for ever after exactly if it
  does not already occur somewhere in the packed string. And if it is lost, then because all its
  occurrences are at unaligned offsets.
   */
  lemma FoundIffNotYetInString(ids: seq<string>, k: nat)
    requires forall i :: 0 <= i < |ids| ==> IsBlob(ids[i])
    requires k < |ids| && ids[k] !in ids[..k]
    ensures ids[k] in Unpack(PackAll(ids)) <==> !Contains(PackAll(ids[..k]), ids[k])
    ensures ids[k] in Unpack(PackAll(ids)) <==> exists i: nat :: At(PackAll(ids), ids[k], BLOB_SIZE * i)
    ensures Contains(PackAll(ids), ids[k])
  {
    var s := PackAll(ids[..k]);
    IndexInvariant(ids[..k]);
    IndexInvariant(ids);
    PackAllPrefix(ids, k);
    if !Contains(s, ids[k]) {
      UnpackAppend(s, ids[k]);
    }
    SettledOnceAdded(ids, k, |ids|);
    assert ids[..|ids|] == ids;
    UnpackedIffAligned(PackAll(ids), ids[k]);
  }

  // And that does happen: an ID that straddles two stored ones is never added.
  lemma StraddlingIsLost(p: string, q: string, k: nat)
    requires IsBlob(p) && IsBlob(q) && p != q && 0 < k < BLOB_SIZE
    ensures var x := p[k..] + q[..k];
            IsBlob(x) && PackAll([p, q, x]) == p + q && (x != p && x != q ==> x !in Unpack(PackAll([p, q, x])))
  {
    var x := p[k..] + q[..k];
    Straddles(p, q, k);
    PackTwo(p, q);
    assert [p, q, x][..2] == [p, q];
    UnpackTwo(p, q);
  }

  lemma Straddles(p: string, q: string, k: nat)
    requires IsBlob(p) && IsBlob(q) && k <= BLOB_SIZE
    ensures Contains(p + q, p[k..] + q[..k])
  {
    assert (p + q)[k..k + BLOB_SIZE] == p[k..] + q[..k];
    assert At(p + q, p[k..] + q[..k], k);
  }

  lemma UnpackTwo(p: string, q: string)
    requires IsBlob(p) && IsBlob(q)
    ensures Unpack(p + q) == [p, q]
  {
    UnpackAppend("", p);
    UnpackAppend(p, q);
    assert "" + p == p && Unpack("") == [];
  }

  lemma PackOne(p: string)
    requires IsBlob(p)
    ensures PackAll([p]) == p
  {}

  lemma PackTwo(p: string, q: string)
    requires IsBlob(p) && IsBlob(q) && p != q
    ensures PackAll([p, q]) == p + q
  {
    PackOne(p);
    assert [p, q][..1] == [p];
    forall j: nat ensures !At(p, q, j) {
      assert p[0..BLOB_SIZE] == p;
    }
  }
}
