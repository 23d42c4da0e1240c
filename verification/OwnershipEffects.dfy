/**
What each script changes and what it leaves alone, table by table (src/server/hrb/Ownership.cc).
The other modules reason with the steps of module Ownership; here the steps are held against what
a user of the database expects of them.
 */
module OwnershipEffects {
  import opened Common
  import opened Ownership

  ghost predicate SameAt<K, V>(m: map<K, V>, n: map<K, V>, k: K) {
    (k in m <==> k in n) && (k in m ==> m[k] == n[k])
  }

  ghost predicate SameElsewhere<K(!new), V>(m: map<K, V>, n: map<K, V>, k: K) {
    forall x :: x != k ==> SameAt(m, n, x)
  }

  // The blob is a member under the given name, or under a stand-in when there is none; an inode
  // and a cover that exist are kept; nothing else changes.
  lemma LinkEffect(db: Db, u: User, c: Coll, b: Blob, entry: Inode, filename: string, bounded: bool)
    ensures var t := Step(db, LinkOp(u, c, b, entry, filename), bounded);
            && (u, c, b) in t.colls && SameElsewhere(t.colls, db.colls, (u, c, b))
            && (filename != "" ==> t.colls[(u, c, b)] == filename) && (filename == "" ==> t.colls[(u, c, b)] == "hello")
            && (u, b) in t.inodes && SameElsewhere(t.inodes, db.inodes, (u, b))
            && ((u, b) in db.inodes ==> t.inodes[(u, b)] == db.inodes[(u, b)]) && ((u, b) !in db.inodes ==> t.inodes[(u, b)] == entry)
            && (u, c) in t.covers && SameElsewhere(t.covers, db.covers, (u, c))
            && ((u, c) in db.covers ==> t.covers[(u, c)] == db.covers[(u, c)]) && ((u, c) !in db.covers ==> t.covers[(u, c)] == b)
            && (forall x :: x in t.refs <==> x in db.refs || x == (u, b, c))
            && (forall x :: x in t.owners <==> x in db.owners || x == (b, u))
            && t.public == db.public
  {}

  // The blob leaves the collection, and nothing happens to other collections.
  lemma UnlinkEffect(db: Db, u: User, c: Coll, b: Blob, pick: Blob, bounded: bool)
    ensures var t := Step(db, UnlinkOp(u, c, b, pick), bounded);
            && (u, c, b) !in t.colls && SameElsewhere(t.colls, db.colls, (u, c, b))
            && SameElsewhere(t.covers, db.covers, (u, c))
            && (forall x :: x in t.refs <==> x in db.refs && x != (u, b, c))
  {
    UnlinkMembers(db, u, c, b, pick);
  }

  // The inode, the owner entry and the publication of the blob go with its last collection and
  // stay otherwise; no other blob is touched.
  lemma UnlinkEffectOnBlob(db: Db, u: User, c: Coll, b: Blob, pick: Blob, bounded: bool)
    ensures var t := Step(db, UnlinkOp(u, c, b, pick), bounded);
            && SameElsewhere(t.inodes, db.inodes, (u, b)) && (forall x :: x != (b, u) ==> (x in t.owners <==> x in db.owners))
            && if OtherRef(db, u, b, c)
               then t.inodes == db.inodes && t.owners == db.owners && t.public == db.public
               else (u, b) !in t.inodes && (b, u) !in t.owners && Removed(db.public, (u, b), t.public)
  {
    RemovedByWithout(db.public, (u, b));
    var mid := db.(refs := db.refs - {(u, b, c)});
    assert HasRef(mid, u, b) <==> OtherRef(db, u, b, c);
    var half := DropRef(db, u, c, b);
    var t := Unlink(db, u, c, b, pick);
    assert t.inodes == half.inodes && t.owners == half.owners && t.public == half.public;
  }

  ghost predicate Removed<T(!new)>(s: seq<T>, x: T, t: seq<T>) {
    forall y :: y in t <==> y in s && y != x
  }

  lemma RemovedByWithout<T(!new)>(s: seq<T>, x: T)
    ensures Removed(s, x, Without(s, x))
  {
    WithoutMembers(s, x);
  }

  // A member moves under the name it had; nobody else's name changes. Moving it onto itself loses
  // it, and moving what is not there changes the back links only.
  lemma MoveEffect(db: Db, u: User, src: Coll, dest: Coll, b: Blob, bounded: bool)
    ensures var t := Step(db, MoveOp(u, src, dest, b), bounded);
            && t.inodes == db.inodes && t.owners == db.owners && t.public == db.public
            && (forall x :: x in t.refs <==> (x in db.refs || x == (u, b, dest)) && x != (u, b, src))
            && (forall x :: x != (u, src, b) && x != (u, dest, b) ==> SameAt(t.colls, db.colls, x))
            && (forall x :: x != (u, dest) ==> SameAt(t.covers, db.covers, x))
            && ((u, src, b) in db.colls ==>
                 && (u, src, b) !in t.colls && (u, dest) in t.covers
                 && (src != dest ==> (u, dest, b) in t.colls && t.colls[(u, dest, b)] == db.colls[(u, src, b)])
                 && ((u, dest) in db.covers ==> t.covers[(u, dest)] == db.covers[(u, dest)])
                 && ((u, dest) !in db.covers ==> t.covers[(u, dest)] == b))
            && ((u, src, b) !in db.colls ==> t.colls == db.colls && t.covers == db.covers)
  {}

  // The permission is stored as given beside the old description; the newest publication is last.
  lemma SetPermissionEffect(db: Db, u: User, b: Blob, perm: char, bounded: bool)
    ensures var t := Step(db, SetPermissionOp(u, b, perm), bounded);
            && t.refs == db.refs && t.owners == db.owners && t.colls == db.colls && t.covers == db.covers
            && SameElsewhere(t.inodes, db.inodes, (u, b))
            && ((u, b) !in db.inodes ==> t == db)
            && ((u, b) in db.inodes ==>
                 && (u, b) in t.inodes && t.inodes[(u, b)].perm == perm && t.inodes[(u, b)].json == db.inodes[(u, b)].json
                 && (perm == '*' ==> t.public != [] && t.public[|t.public| - 1] == (u, b))
                 && (perm != '*' ==> Removed(db.public, (u, b), t.public)))
  {
    RemovedByWithout(db.public, (u, b));
  }

  // The cover changes, and only it, exactly if the collection is listed and holds the blob.
  lemma SetCoverEffect(db: Db, u: User, c: Coll, b: Blob, bounded: bool)
    ensures var t := Step(db, SetCoverOp(u, c, b), bounded);
            && t == db.(covers := t.covers) && SameElsewhere(t.covers, db.covers, (u, c))
            && if (u, c) in db.covers && (u, c, b) in db.colls
               then (u, c) in t.covers && t.covers[(u, c)] == b
               else t == db
  {}
}
