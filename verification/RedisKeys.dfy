/**
How the typed tables are laid into one flat Redis keyspace (src/server/hrb/RedisKeys.cc).

Every key can be taken apart again: `Table` tells which table it belongs to and the other
functions recover its parameters. So keys of different tables never meet and keys of one
table are injective, for colon-free user names and 20-byte blob IDs.
 */
module RedisKeys {

  const BLOB_SIZE := 20

  predicate IsUser(u: string) { ':' !in u }

  predicate IsBlob(b: string) { |b| == BLOB_SIZE }

  datatype Table = RefsTable | OwnersTable | InodesTable | CollTable | CollListTable | PublicTable | Foreign

  // One or two bytes of the fixed prefix are enough to tell the tables apart.
  function TableOf(k: string): Table {
    if |k| < 5 then Foreign
    else match k[0]
      case 'b' => (if |k| == 5 then Foreign
                   else if k[5] == 'r' then RefsTable
                   else if k[5] == 'o' then OwnersTable
                   else if k[5] == 'i' then InodesTable
                   else Foreign)
      case 'c' => if k[4] == ':' then CollTable else CollListTable
      case 'p' => PublicTable
      case _ => Foreign
  }

  // Everything before the first colon.
  function BeforeColon(s: string): string {
    if s == [] || s[0] == ':' then [] else [s[0]] + BeforeColon(s[1..])
  }

  lemma {:induction false} BeforeColonOf(u: string, rest: string)
    requires IsUser(u)
    ensures BeforeColon(u + ":" + rest) == u
  {
    if u == [] {
      assert u + ":" + rest == ":" + rest;
    } else {
      assert (u + ":" + rest)[1..] == u[1..] + ":" + rest;
      BeforeColonOf(u[1..], rest);
    }
  }

  // "blob-refs:<user>:<blob>": the blob has a fixed size, so it is the last 20 bytes.
  function BlobOfRefs(k: string): string { if |k| < BLOB_SIZE then [] else k[|k| - BLOB_SIZE..] }

  function UserOfRefs(k: string): string { if |k| < 31 then [] else k[10..|k| - 21] }

  function BlobRefs(user: string, blob: string): (k: string)
    ensures TableOf(k) == RefsTable
    ensures IsBlob(blob) ==> UserOfRefs(k) == user && BlobOfRefs(k) == blob
  {
    var k := "blob-refs:" + user + ":" + blob;
    assert IsBlob(blob) ==> k[10..|k| - 21] == user;
    k
  }

  function BlobOfOwners(k: string): string { if |k| < 12 then [] else k[12..] }

  function BlobOwners(blob: string): (k: string)
    ensures TableOf(k) == OwnersTable && BlobOfOwners(k) == blob
  {
    "blob-owners:" + blob
  }

  // "coll:<user>:<coll>": the first colon after the prefix ends the user name.
  function UserOfColl(k: string): string { if |k| < 5 then [] else BeforeColon(k[5..]) }

  function NameOfColl(k: string): string {
    var n := 6 + |UserOfColl(k)|;
    if |k| < n then [] else k[n..]
  }

  function CollectionKey(user: string, coll: string): (k: string)
    ensures TableOf(k) == CollTable
    ensures IsUser(user) ==> UserOfColl(k) == user && NameOfColl(k) == coll
  {
    var k := "coll:" + user + ":" + coll;
    assert k[5..] == user + ":" + coll;
    assert IsUser(user) ==> BeforeColon(k[5..]) == user by {
      if IsUser(user) {
        BeforeColonOf(user, coll);
      }
    }
    k
  }

  function UserOfCollList(k: string): string { if |k| < 6 then [] else k[6..] }

  function CollectionList(user: string): (k: string)
    ensures TableOf(k) == CollListTable && UserOfCollList(k) == user
  {
    "colls:" + user
  }

  function PublicBlobs(): (k: string)
    ensures TableOf(k) == PublicTable
  {
    "public_blobs"
  }

  function UserOfInodes(k: string): string { if |k| < 12 then [] else k[12..] }

  function BlobInode(user: string): (k: string)
    ensures TableOf(k) == InodesTable && UserOfInodes(k) == user
  {
    "blob-inodes:" + user
  }

  // Two different users can share a collection key exactly when one name, closed by a colon,
  // starts the other. No two colon-free names do.
  predicate NamesClash(u: string, v: string) {
    u + ":" <= v + ":" || v + ":" <= u + ":"
  }

  lemma CollectionKeysCollide(u: string, v: string)
    requires u != v
    ensures (exists c, d :: CollectionKey(u, c) == CollectionKey(v, d)) <==> NamesClash(u, v)
    ensures IsUser(u) && IsUser(v) ==> !NamesClash(u, v)
  {
    if u + ":" <= v + ":" {
      SharedKey(u, v);
    } else if v + ":" <= u + ":" {
      SharedKey(v, u);
    }
    forall c, d | CollectionKey(u, c) == CollectionKey(v, d) ensures NamesClash(u, v) {
      assert CollectionKey(u, c)[5..] == (u + ":") + c;
      assert CollectionKey(v, d)[5..] == (v + ":") + d;
      if |u| <= |v| {
        assert forall i :: 0 <= i < |u + ":"| ==> (u + ":")[i] == ((u + ":") + c)[i] && (v + ":")[i] == ((v + ":") + d)[i];
      } else {
        assert forall i :: 0 <= i < |v + ":"| ==> (u + ":")[i] == ((u + ":") + c)[i] && (v + ":")[i] == ((v + ":") + d)[i];
      }
    }
  }

  lemma SharedKey(u: string, v: string)
    requires u + ":" <= v + ":" && u != v
    ensures ':' in v
    ensures CollectionKey(v, "") == CollectionKey(u, (v + ":")[|u| + 1..])
  {
    ColonInside(u, v);
    var rest := (v + ":")[|u| + 1..];
    assert v + ":" == u + ":" + rest;
    assert "coll:" + v + ":" + "" == "coll:" + (v + ":");
    assert "coll:" + u + ":" + rest == "coll:" + (u + ":" + rest);
  }

  lemma ColonInside(u: string, v: string)
    requires u + ":" <= v + ":" && u != v
    ensures |u| < |v| && v[|u|] == ':'
  {
    var a, b := u + ":", v + ":";
    assert a[|u|] == b[|u|] == ':';
    assert u == a[..|u|] && v == b[..|v|];
  }
}
