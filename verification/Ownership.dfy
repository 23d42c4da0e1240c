/**
The ownership database (src/server/hrb/Ownership.cc): six linked tables, changed only by the
Lua scripts behind link, unlink, move, set_permission and set_cover. Redis runs a script
atomically, so each script is one step.

A Redis set or hash stored under a key is a set or map whose elements carry the key's
parameters; an empty Redis key does not exist, and neither does an empty slice here.
 */
module Ownership {
  import opened Common

  type User = string
  type Blob = string
  type Coll = string

  // An inode is stored as one permission character followed by JSON text.
  datatype Inode = Inode(perm: char, json: string)

  datatype Db = Db(
    refs: set<(User, Blob, Coll)>,           // blob-refs:<user>:<blob>  set of collections
    owners: set<(Blob, User)>,               // blob-owners:<blob>       set of users
    inodes: map<(User, Blob), Inode>,        // blob-inodes:<user>       hash blob -> inode
    colls: map<(User, Coll, Blob), string>,  // coll:<user>:<coll>       hash blob -> filename
    covers: map<(User, Coll), Blob>,         // colls:<user>             hash coll -> album record
    public: seq<(User, Blob)>)               // public_blobs             list

  const PUBLIC_LIMIT := 100

  const EMPTY := Db({}, {}, map[], map[], map[], [])

  ghost predicate HasRef(db: Db, u: User, b: Blob) {
    exists c :: (u, b, c) in db.refs
  }

  ghost predicate HasMember(db: Db, u: User, c: Coll) {
    exists b :: (u, c, b) in db.colls
  }

  // ------------------------------------------------------------------
  // The scripts
  // ------------------------------------------------------------------

  // LREM key 0 x
  function Without<T(==)>(s: seq<T>, x: T): seq<T> {
    if s == [] then [] else (if s[0] == x then [] else [s[0]]) + Without(s[1..], x)
  }

  function Publish<T(==)>(s: seq<T>, x: T, bounded: bool): seq<T> {
    var t := Without(s, x) + [x];
    if bounded && |t| > PUBLIC_LIMIT then t[1..] else t
  }

  function NonEmptyName(filename: string): string {
    if filename == "" then "hello" else filename
  }

  ghost function Link(db: Db, u: User, c: Coll, b: Blob, entry: Inode, filename: string): Db {
    db.(refs := db.refs + {(u, b, c)},
        owners := db.owners + {(b, u)},
        inodes := if (u, b) in db.inodes then db.inodes else db.inodes[(u, b) := entry],
        colls := db.colls[(u, c, b) := NonEmptyName(filename)],
        covers := if (u, c) in db.covers then db.covers else db.covers[(u, c) := b])
  }

  // The first half of the unlink script: the blob and its owner.
  ghost function DropRef(db: Db, u: User, c: Coll, b: Blob): Db {
    var db' := db.(refs := db.refs - {(u, b, c)});
    if HasRef(db', u, b) then db'
    else db'.(owners := db.owners - {(b, u)}, inodes := db.inodes - {(u, b)}, public := Without(db.public, (u, b)))
  }

  // The second half: the collection and its cover. `pick` is the first key HKEYS returns.
  // Without an album record cjson.decode() raises an error, and the script ends there.
  ghost function DropMember(db: Db, u: User, c: Coll, b: Blob, pick: Blob): Db {
    var db' := db.(colls := db.colls - {(u, c, b)});
    if !HasMember(db', u, c) then db'.(covers := db.covers - {(u, c)})
    else if (u, c) in db.covers && db.covers[(u, c)] == b then db'.(covers := db.covers[(u, c) := pick])
    else db'
  }

  ghost function Unlink(db: Db, u: User, c: Coll, b: Blob, pick: Blob): Db {
    DropMember(DropRef(db, u, c, b), u, c, b, pick)
  }

  // When the blob is not in the source, HGET yields false and the script fails at HSET, after
  // the back links have been changed.
  ghost function Move(db: Db, u: User, src: Coll, dest: Coll, b: Blob): Db {
    var db' := db.(refs := db.refs + {(u, b, dest)} - {(u, b, src)});
    if (u, src, b) !in db.colls then db'
    else db'.(colls := db.colls[(u, dest, b) := db.colls[(u, src, b)]] - {(u, src, b)},
              covers := if (u, dest) in db.covers then db.covers else db.covers[(u, dest) := b])
  }

  // Without an inode string.sub() fails before anything is written.
  ghost function SetPermission(db: Db, u: User, b: Blob, perm: char, bounded: bool): Db {
    if (u, b) !in db.inodes then db
    else db.(inodes := db.inodes[(u, b) := db.inodes[(u, b)].(perm := perm)],
             public := if perm == '*' then Publish(db.public, (u, b), bounded) else Without(db.public, (u, b)))
  }

  ghost function SetCover(db: Db, u: User, c: Coll, b: Blob): Db {
    if (u, c) in db.covers && (u, c, b) in db.colls then db.(covers := db.covers[(u, c) := b]) else db
  }

  datatype Op =
    | LinkOp(u: User, c: Coll, b: Blob, entry: Inode, filename: string)
    | UnlinkOp(u: User, c: Coll, b: Blob, pick: Blob)
    | MoveOp(u: User, src: Coll, dest: Coll, b: Blob)
    | SetPermissionOp(u: User, b: Blob, perm: char)
    | SetCoverOp(u: User, c: Coll, b: Blob)

  ghost function Step(db: Db, op: Op, bounded: bool): Db {
    match op
    case LinkOp(u, c, b, entry, filename) => Link(db, u, c, b, entry, filename)
    case UnlinkOp(u, c, b, pick) => Unlink(db, u, c, b, pick)
    case MoveOp(u, src, dest, b) => Move(db, u, src, dest, b)
    case SetPermissionOp(u, b, perm) => SetPermission(db, u, b, perm, bounded)
    case SetCoverOp(u, c, b) => SetCover(db, u, c, b)
  }

  // HKEYS can only return a key of the hash.
  ghost predicate PickOk(db: Db, u: User, c: Coll, b: Blob, pick: Blob) {
    (exists x :: x != b && (u, c, x) in db.colls) ==> pick != b && (u, c, pick) in db.colls
  }

  ghost predicate OtherRef(db: Db, u: User, b: Blob, c: Coll) {
    exists c' :: c' != c && (u, b, c') in db.refs
  }

  // What a caller has to check before a move: the blob is in the source and the destination is
  // elsewhere (or the source was not its last collection); or the move is about to do nothing.
  ghost predicate MoveSafe(db: Db, u: User, src: Coll, dest: Coll, b: Blob) {
    if (u, src, b) in db.colls then src != dest || OtherRef(db, u, b, src)
    else src == dest || (u, dest, b) in db.colls
  }

  ghost predicate ValidOp(db: Db, op: Op) {
    match op
    case UnlinkOp(u, c, b, pick) => PickOk(db, u, c, b, pick)
    case MoveOp(u, src, dest, b) => MoveSafe(db, u, src, dest, b)
    case _ => true
  }

  ghost function Run(ops: seq<Op>, bounded: bool): Db
    decreases |ops|
  {
    if ops == [] then EMPTY else Step(Run(ops[..|ops| - 1], bounded), ops[|ops| - 1], bounded)
  }

  ghost predicate ValidRun(ops: seq<Op>)
    decreases |ops|
  {
    ops == [] || (ValidRun(ops[..|ops| - 1]) && ValidOp(Run(ops[..|ops| - 1], true), ops[|ops| - 1]))
  }

  // A property of all states of a run, and one of all its operations where they start.
  ghost predicate Always(ops: seq<Op>, good: Db -> bool)
    decreases |ops|
  {
    good(Run(ops, true)) && (ops == [] || Always(ops[..|ops| - 1], good))
  }

  ghost predicate Each(ops: seq<Op>, ok: (Db, Op) -> bool)
    decreases |ops|
  {
    ops == [] || (Each(ops[..|ops| - 1], ok) && ok(Run(ops[..|ops| - 1], true), ops[|ops| - 1]))
  }

  // ------------------------------------------------------------------
  // The invariants
  // ------------------------------------------------------------------

  // Back links, membership, inodes and owners tell the same story.
  ghost predicate Linked(db: Db) {
    && (forall u, b, c :: (u, b, c) in db.refs <==> (u, c, b) in db.colls)
    && (forall u, b :: (u, b) in db.inodes <==> HasRef(db, u, b))
    && (forall u, b :: (b, u) in db.owners <==> HasRef(db, u, b))
  }

  // Every nonempty collection is listed.
  ghost predicate Listed(db: Db) {
    forall u, c, b :: (u, c, b) in db.colls ==> (u, c) in db.covers
  }

  // The cover of a listed collection is one of its members, so only nonempty ones are listed.
  ghost predicate Covered(db: Db) {
    forall u, c :: (u, c) in db.covers ==> (u, c, db.covers[(u, c)]) in db.colls
  }

  // A collection is listed exactly if it is nonempty.
  ghost predicate Tight(db: Db) {
    forall u, c :: (u, c) in db.covers <==> HasMember(db, u, c)
  }

  ghost predicate PublicOk(db: Db) {
    && Distinct(db.public)
    && forall x :: x in db.public ==> x in db.inodes && db.inodes[x].perm == '*'
  }

  // ------------------------------------------------------------------
  // Links survive every script, and exactly these moves
  // ------------------------------------------------------------------

  lemma LinkKeepsLinks(db: Db, u: User, c: Coll, b: Blob, entry: Inode, filename: string)
    requires Linked(db)
    ensures Linked(Link(db, u, c, b, entry, filename))
  {}

  lemma DropRefKeepsInodes(db: Db, u: User, c: Coll, b: Blob, u': User, b': Blob)
    requires Linked(db)
    ensures var t := DropRef(db, u, c, b);
            && ((u', b') in t.inodes <==> HasRef(t, u', b'))
            && ((b', u') in t.owners <==> HasRef(t, u', b'))
  {}

  lemma UnlinkKeepsLinks(db: Db, u: User, c: Coll, b: Blob, pick: Blob)
    requires Linked(db)
    ensures Linked(Unlink(db, u, c, b, pick))
  {
    var h, t := DropRef(db, u, c, b), Unlink(db, u, c, b, pick);
    forall u', b' ensures ((u', b') in t.inodes <==> HasRef(t, u', b')) && ((b', u') in t.owners <==> HasRef(t, u', b')) {
      DropRefKeepsInodes(db, u, c, b, u', b');
      assert HasRef(t, u', b') <==> HasRef(h, u', b');
    }
    assert t.refs == db.refs - {(u, b, c)} && t.colls == db.colls - {(u, c, b)};
  }

  lemma MoveKeepsLinks(db: Db, u: User, src: Coll, dest: Coll, b: Blob)
    requires Linked(db) && MoveSafe(db, u, src, dest, b)
    ensures Linked(Move(db, u, src, dest, b))
  {}

  lemma UnsafeMoveBreaksLinks(db: Db, u: User, src: Coll, dest: Coll, b: Blob)
    requires Linked(db) && !MoveSafe(db, u, src, dest, b)
    ensures !Linked(Move(db, u, src, dest, b))
  {
    var t := Move(db, u, src, dest, b);
    if (u, src, b) in db.colls {
      assert (u, b, src) in db.refs;
      assert HasRef(db, u, b) && (u, b) in t.inodes;
      assert forall c' :: (u, b, c') !in t.refs;
      assert !HasRef(t, u, b);
    } else {
      assert (u, b, dest) in t.refs && (u, dest, b) !in t.colls;
    }
  }

  lemma MoveKeepsLinksIff(db: Db, u: User, src: Coll, dest: Coll, b: Blob)
    requires Linked(db)
    ensures Linked(Move(db, u, src, dest, b)) <==> MoveSafe(db, u, src, dest, b)
  {
    if MoveSafe(db, u, src, dest, b) {
      MoveKeepsLinks(db, u, src, dest, b);
    } else {
      UnsafeMoveBreaksLinks(db, u, src, dest, b);
    }
  }

  lemma StepKeepsLinks(db: Db, op: Op, bounded: bool)
    requires Linked(db) && ValidOp(db, op)
    ensures Linked(Step(db, op, bounded))
  {
    match op
    case LinkOp(u, c, b, entry, filename) => LinkKeepsLinks(db, u, c, b, entry, filename);
    case UnlinkOp(u, c, b, pick) => UnlinkKeepsLinks(db, u, c, b, pick);
    case MoveOp(u, src, dest, b) => MoveKeepsLinks(db, u, src, dest, b);
    case SetPermissionOp(u, b, perm) =>
      var t := SetPermission(db, u, b, perm, bounded);
      assert forall u', b' :: HasRef(t, u', b') <==> HasRef(db, u', b');
    case SetCoverOp(u, c, b) =>
      var t := SetCover(db, u, c, b);
      assert forall u', b' :: HasRef(t, u', b') <==> HasRef(db, u', b');
  }

  // ------------------------------------------------------------------
  // Listing and covers
  // ------------------------------------------------------------------

  lemma UnlinkMembers(db: Db, u: User, c: Coll, b: Blob, pick: Blob)
    ensures Unlink(db, u, c, b, pick).colls == db.colls - {(u, c, b)}
    ensures forall u', c' :: (u', c') != (u, c) ==>
      ((u', c') in Unlink(db, u, c, b, pick).covers <==> (u', c') in db.covers)
    ensures forall u', c' :: (u', c') != (u, c) && (u', c') in db.covers ==>
      Unlink(db, u, c, b, pick).covers[(u', c')] == db.covers[(u', c')]
    ensures (exists x :: x != b && (u, c, x) in db.colls) && (u, c) in db.covers ==>
      && (u, c) in Unlink(db, u, c, b, pick).covers
      && Unlink(db, u, c, b, pick).covers[(u, c)] == if db.covers[(u, c)] == b then pick else db.covers[(u, c)]
    ensures (forall x :: (u, c, x) in db.colls ==> x == b) ==> (u, c) !in Unlink(db, u, c, b, pick).covers
  {
    var mid := DropRef(db, u, c, b);
    assert mid.colls == db.colls && mid.covers == db.covers;
    var db' := mid.(colls := mid.colls - {(u, c, b)});
    if exists x :: x != b && (u, c, x) in db.colls {
      var x :| x != b && (u, c, x) in db.colls;
      assert (u, c, x) in db'.colls;
      assert HasMember(db', u, c);
    } else {
      assert !HasMember(db', u, c);
    }
  }

  lemma StepKeepsListed(db: Db, op: Op, bounded: bool)
    requires Listed(db) && ValidOp(db, op)
    ensures Listed(Step(db, op, bounded))
  {}

  // Not a move of the cover out of its collection.
  ghost predicate KeepsCover(db: Db, op: Op) {
    op.MoveOp? && (op.u, op.src) in db.covers ==> db.covers[(op.u, op.src)] != op.b
  }

  // Not a move of the only member out of its collection.
  ghost predicate KeepsMember(db: Db, op: Op) {
    op.MoveOp? && (op.u, op.src, op.b) in db.colls ==> exists x :: x != op.b && (op.u, op.src, x) in db.colls
  }

  // Exactly the moves of a cover leave a cover behind that is no member.
  lemma StepKeepsCoveredIff(db: Db, op: Op, bounded: bool)
    requires Listed(db) && Covered(db) && ValidOp(db, op)
    ensures Covered(Step(db, op, bounded)) <==> KeepsCover(db, op)
  {
    if op.MoveOp? && !KeepsCover(db, op) {
      var t := Move(db, op.u, op.src, op.dest, op.b);
      assert (op.u, op.src) in t.covers && t.covers[(op.u, op.src)] == op.b;
    }
  }

  lemma MoveKeepsTightIff(db: Db, u: User, src: Coll, dest: Coll, b: Blob)
    requires Tight(db)
    ensures Tight(Move(db, u, src, dest, b)) <==> KeepsMember(db, MoveOp(u, src, dest, b))
  {
    var t := Move(db, u, src, dest, b);
    if (u, src, b) in db.colls {
      assert HasMember(db, u, src);
      forall u', c' | (u', c') != (u, src) ensures (u', c') in t.covers <==> HasMember(t, u', c') {
        assert forall x :: (u', c', x) in db.colls ==> (u', c', x) in t.colls;
        assert (u', c') == (u, dest) ==> (u', c', b) in t.colls;
        assert HasMember(t, u', c') <==> HasMember(db, u', c') || (u', c') == (u, dest);
      }
      assert forall x :: (u, src, x) in t.colls <==> x != b && (u, src, x) in db.colls;
    } else {
      assert t.colls == db.colls && t.covers == db.covers;
      assert forall u', c' :: HasMember(t, u', c') <==> HasMember(db, u', c');
    }
  }

  lemma UnlinkKeepsTight(db: Db, u: User, c: Coll, b: Blob, pick: Blob)
    requires Tight(db)
    ensures Tight(Unlink(db, u, c, b, pick))
  {
    var t := Unlink(db, u, c, b, pick);
    UnlinkMembers(db, u, c, b, pick);
    forall u', c' ensures (u', c') in t.covers <==> HasMember(t, u', c') {
      assert HasMember(t, u', c') <==> exists x :: (u', c', x) in db.colls && (u', c', x) != (u, c, b);
      if (u', c') != (u, c) {
        assert HasMember(t, u', c') <==> HasMember(db, u', c');
      }
    }
  }

  // Exactly the moves of an only member leave an empty collection in the list.
  lemma StepKeepsTightIff(db: Db, op: Op, bounded: bool)
    requires Tight(db)
    ensures Tight(Step(db, op, bounded)) <==> KeepsMember(db, op)
  {
    var t := Step(db, op, bounded);
    match op
    case MoveOp(u, src, dest, b) => MoveKeepsTightIff(db, u, src, dest, b);
    case UnlinkOp(u, c, b, pick) => UnlinkKeepsTight(db, u, c, b, pick);
    case LinkOp(u, c, b, _, _) =>
      assert (u, c, b) in t.colls;
      assert forall u', c', x :: (u', c', x) in db.colls ==> (u', c', x) in t.colls;
      assert forall u', c' :: HasMember(t, u', c') <==> HasMember(db, u', c') || (u', c') == (u, c);
    case _ =>
      assert t.colls == db.colls;
      assert forall u', c' :: HasMember(t, u', c') <==> HasMember(db, u', c');
  }

  // ------------------------------------------------------------------
  // The public list
  // ------------------------------------------------------------------

  lemma {:induction false} WithoutMembers<T>(s: seq<T>, x: T)
    ensures forall y :: y in Without(s, x) <==> y in s && y != x
    ensures Distinct(s) ==> Distinct(Without(s, x))
    ensures |Without(s, x)| <= |s|
  {
    if s != [] {
      WithoutMembers(s[1..], x);
      assert Distinct(s) ==> Distinct(s[1..]) && s[0] !in s[1..];
    }
  }

  lemma WithoutIn<T>(s: seq<T>, x: T, y: T)
    ensures y in Without(s, x) <==> y in s && y != x
  {}

  lemma AppendedMembers<T>(s: seq<T>, x: T)
    requires Distinct(s)
    ensures var t := Without(s, x) + [x];
            && Distinct(t) && (forall y :: y in t <==> y in s || y == x) && |t| <= |s| + 1
            && (forall i :: 0 <= i < |t| - 1 ==> t[i] != x && t[i] in s)
  {
    WithoutMembers(s, x);
    var t := Without(s, x) + [x];
    forall i | 0 <= i < |t| - 1 ensures t[i] != x && t[i] in s {
      WithoutIn(s, x, t[i]);
    }
  }

  lemma PublishMembers<T>(s: seq<T>, x: T, bounded: bool)
    requires Distinct(s)
    ensures var t := Publish(s, x, bounded);
            && Distinct(t) && (forall y :: y in t ==> y in s || y == x)
            && (bounded && |s| <= PUBLIC_LIMIT ==> |t| <= PUBLIC_LIMIT)
  {
    AppendedMembers(s, x);
  }

  lemma UnlinkKeepsPublic(db: Db, u: User, c: Coll, b: Blob, pick: Blob)
    requires PublicOk(db)
    ensures PublicOk(Unlink(db, u, c, b, pick)) && |Unlink(db, u, c, b, pick).public| <= |db.public|
  {
    WithoutMembers(db.public, (u, b));
    var t := DropRef(db, u, c, b);
    forall x | x in t.public ensures x in t.inodes && t.inodes[x].perm == '*' {
      WithoutIn(db.public, (u, b), x);
      assert x in db.public;
    }
  }

  lemma SetPermissionKeepsPublic(db: Db, u: User, b: Blob, perm: char, bounded: bool)
    requires PublicOk(db)
    ensures var t := SetPermission(db, u, b, perm, bounded);
            PublicOk(t) && (bounded && |db.public| <= PUBLIC_LIMIT ==> |t.public| <= PUBLIC_LIMIT)
  {
    PublishMembers(db.public, (u, b), bounded);
    WithoutMembers(db.public, (u, b));
    var t := SetPermission(db, u, b, perm, bounded);
    forall x | x in t.public ensures x in t.inodes && t.inodes[x].perm == '*' {
      assert x in db.public || x == (u, b);
    }
  }

  lemma StepKeepsPublic(db: Db, op: Op, bounded: bool)
    requires PublicOk(db)
    ensures PublicOk(Step(db, op, bounded))
    ensures bounded && |db.public| <= PUBLIC_LIMIT ==> |Step(db, op, bounded).public| <= PUBLIC_LIMIT
  {
    match op
    case SetPermissionOp(u, b, perm) => SetPermissionKeepsPublic(db, u, b, perm, bounded);
    case UnlinkOp(u, c, b, pick) => UnlinkKeepsPublic(db, u, c, b, pick);
    case _ =>
  }

  ghost predicate SuffixOf<T>(s: seq<T>, t: seq<T>) {
    |s| <= |t| && s == t[|t| - |s|..]
  }

  lemma WithoutSuffix<T>(s: seq<T>, t: seq<T>, x: T)
    requires SuffixOf(s, t)
    ensures SuffixOf(Without(s, x), Without(t, x))
  {}

  lemma PublishSuffix<T>(s: seq<T>, t: seq<T>, x: T)
    requires SuffixOf(s, t)
    ensures SuffixOf(Publish(s, x, true), Publish(t, x, false))
  {
    WithoutSuffix(s, t, x);
    SuffixSnoc(Without(s, x), Without(t, x), x);
  }

  lemma SuffixSnoc<T>(s: seq<T>, t: seq<T>, x: T)
    requires SuffixOf(s, t)
    ensures SuffixOf(s + [x], t + [x]) && SuffixOf((s + [x])[1..], t + [x])
  {}

  lemma {:induction false} UnlinkIgnoresPublic(db: Db, all: Db, u: User, c: Coll, b: Blob, pick: Blob)
    requires db == all.(public := db.public)
    ensures var t, t' := Unlink(db, u, c, b, pick), Unlink(all, u, c, b, pick);
            && t == t'.(public := t.public)
            && if t.public == db.public then t'.public == all.public || t'.public == Without(all.public, (u, b))
               else t.public == Without(db.public, (u, b)) && t'.public == Without(all.public, (u, b))
    ensures Unlink(db, u, c, b, pick).public == Without(db.public, (u, b)) || Unlink(all, u, c, b, pick).public == all.public
  {
    var mid, mid' := db.(refs := db.refs - {(u, b, c)}), all.(refs := all.refs - {(u, b, c)});
    assert HasRef(mid, u, b) <==> HasRef(mid', u, b);
    var h, h' := DropRef(db, u, c, b), DropRef(all, u, c, b);
    var m, m' := h.(colls := h.colls - {(u, c, b)}), h'.(colls := h'.colls - {(u, c, b)});
    assert HasMember(m, u, c) <==> HasMember(m', u, c);
  }

  lemma StepKeepsSuffix(db: Db, all: Db, op: Op)
    requires SuffixOf(db.public, all.public) && db == all.(public := db.public)
    ensures var t, t' := Step(db, op, true), Step(all, op, false);
            SuffixOf(t.public, t'.public) && t == t'.(public := t.public)
  {
    match op
    case SetPermissionOp(u, b, perm) =>
      WithoutSuffix(db.public, all.public, (u, b));
      PublishSuffix(db.public, all.public, (u, b));
    case UnlinkOp(u, c, b, pick) =>
      WithoutSuffix(db.public, all.public, (u, b));
      UnlinkIgnoresPublic(db, all, u, c, b, pick);
    case _ =>
  }

  // ------------------------------------------------------------------
  // Every reachable state
  // ------------------------------------------------------------------

  ghost predicate Sound(db: Db) {
    Linked(db) && Listed(db) && PublicOk(db)
  }

  lemma {:induction false} Reachable(ops: seq<Op>)
    requires ValidRun(ops)
    ensures Sound(Run(ops, true)) && |Run(ops, true).public| <= 100
    decreases |ops|
  {
    if ops == [] {
      assert forall u, b :: !HasRef(EMPTY, u, b);
    } else {
      var before, op := ops[..|ops| - 1], ops[|ops| - 1];
      Reachable(before);
      var db := Run(before, true);
      StepKeepsLinks(db, op, true);
      StepKeepsListed(db, op, true);
      StepKeepsPublic(db, op, true);
    }
  }

  // Every nonempty collection is always listed. Only nonempty ones are, all along, exactly in the
  // runs in which no move takes the only member out of a collection.
  lemma {:induction false} ListedIffNonEmpty(ops: seq<Op>)
    requires ValidRun(ops)
    ensures Listed(Run(ops, true))
    ensures Always(ops, Tight) <==> Each(ops, KeepsMember)
    decreases |ops|
  {
    Reachable(ops);
    if ops == [] {
      assert forall u, c :: !HasMember(EMPTY, u, c);
    } else {
      var before, op := ops[..|ops| - 1], ops[|ops| - 1];
      ListedIffNonEmpty(before);
      if Always(before, Tight) {
        AlwaysNow(before, Tight);
        StepKeepsTightIff(Run(before, true), op, true);
      }
    }
  }

  // Every cover is a member of its collection, all along, exactly in the runs in which no move
  // takes a cover out of its collection.
  lemma {:induction false} CoverIsMemberIff(ops: seq<Op>)
    requires ValidRun(ops)
    ensures Always(ops, Covered) <==> Each(ops, KeepsCover)
    ensures Each(ops, KeepsCover) ==> Covered(Run(ops, true)) && Tight(Run(ops, true))
    decreases |ops|
  {
    Reachable(ops);
    if ops != [] {
      var before, op := ops[..|ops| - 1], ops[|ops| - 1];
      CoverIsMemberIff(before);
      Reachable(before);
      if Always(before, Covered) {
        AlwaysNow(before, Covered);
        StepKeepsCoveredIff(Run(before, true), op, true);
      }
    }
  }

  lemma {:induction false} AlwaysNow(ops: seq<Op>, good: Db -> bool)
    requires Always(ops, good)
    ensures good(Run(ops, true))
  {}

  // unlink never decodes a missing album record.
  lemma {:induction false} UnlinkFindsAlbum(ops: seq<Op>, u: User, c: Coll, b: Blob)
    requires ValidRun(ops)
    ensures var db := DropRef(Run(ops, true), u, c, b);
            HasMember(db.(colls := db.colls - {(u, c, b)}), u, c) ==> (u, c) in db.covers
  {
    Reachable(ops);
  }

  // A move that empties its source leaves a listed, empty collection behind whose cover is gone.
  lemma MoveLeavesStaleCover(u: User, src: Coll, dest: Coll, b: Blob, entry: Inode, filename: string)
    requires src != dest
    ensures var ops := [LinkOp(u, src, b, entry, filename), MoveOp(u, src, dest, b)];
            && ValidRun(ops)
            && var db := Run(ops, true); (u, src) in db.covers && !HasMember(db, u, src) && !Covered(db)
  {
    var first, second := LinkOp(u, src, b, entry, filename), MoveOp(u, src, dest, b);
    assert [first, second][..1] == [first] && [first][..0] == [];
    assert Run([first], true) == Link(EMPTY, u, src, b, entry, filename);
    assert ValidRun([first]);
    var db := Run([first, second], true);
    assert db == Move(Run([first], true), u, src, dest, b);
    assert !HasMember(db, u, src);
  }

  // The public list is the newest part of the list that would be kept without the limit.
  lemma {:induction false} PublicIsSuffix(ops: seq<Op>)
    ensures SuffixOf(Run(ops, true).public, Run(ops, false).public)
    ensures Run(ops, true) == Run(ops, false).(public := Run(ops, true).public)
    decreases |ops|
  {
    if ops != [] {
      PublicIsSuffix(ops[..|ops| - 1]);
      StepKeepsSuffix(Run(ops[..|ops| - 1], true), Run(ops[..|ops| - 1], false), ops[|ops| - 1]);
    }
  }

  // When (user, blob) was last asked to become public; -1 if never.
  function LastPublication(ops: seq<Op>, x: (User, Blob)): int
    decreases |ops|
  {
    if ops == [] then -1
    else if ops[|ops| - 1] == SetPermissionOp(x.0, x.1, '*') then |ops| - 1
    else LastPublication(ops[..|ops| - 1], x)
  }

  ghost predicate Increasing<T(!new)>(s: seq<T>, f: T -> int) {
    forall i, j :: 0 <= i < j < |s| ==> f(s[i]) < f(s[j])
  }

  ghost predicate NewestLast(ops: seq<Op>, s: seq<(User, Blob)>) {
    && (forall i :: 0 <= i < |s| ==> 0 <= LastPublication(ops, s[i]) < |ops|)
    && Increasing(s, x => LastPublication(ops, x))
  }

  lemma {:induction false} WithoutIncreasing<T(!new)>(s: seq<T>, x: T, f: T -> int)
    requires Increasing(s, f)
    ensures Increasing(Without(s, x), f)
  {
    if s != [] {
      WithoutIncreasing(s[1..], x, f);
      var t := Without(s[1..], x);
      forall j | 0 <= j < |t| ensures f(s[0]) < f(t[j]) {
        WithoutIn(s[1..], x, t[j]);
      }
    }
  }

  lemma WithoutNewestLast(ops: seq<Op>, s: seq<(User, Blob)>, x: (User, Blob))
    requires NewestLast(ops, s)
    ensures NewestLast(ops, Without(s, x))
  {
    WithoutIncreasing(s, x, y => LastPublication(ops, y));
    var t := Without(s, x);
    forall i | 0 <= i < |t| ensures 0 <= LastPublication(ops, t[i]) < |ops| {
      WithoutIn(s, x, t[i]);
    }
  }

  lemma LaterOp(ops: seq<Op>, op: Op, s: seq<(User, Blob)>)
    requires NewestLast(ops, s)
    requires forall i :: 0 <= i < |s| ==> op != SetPermissionOp(s[i].0, s[i].1, '*')
    ensures NewestLast(ops + [op], s)
  {}

  // In all runs the unbounded list is ordered by latest publication; so is its suffix.
  lemma {:induction false} PublicByLatestPublication(ops: seq<Op>)
    requires ValidRun(ops)
    ensures NewestLast(ops, Run(ops, false).public)
    decreases |ops|
  {
    if ops != [] {
      var before, op := ops[..|ops| - 1], ops[|ops| - 1];
      assert ops == before + [op];
      PublicByLatestPublication(before);
      PublicIsSuffix(before);
      UnboundedPublicOk(before);
      var db := Run(before, false);
      NewestLastStep(before, op, db);
    }
  }

  lemma NewlyPublished(before: seq<Op>, x: (User, Blob), s: seq<(User, Blob)>)
    requires NewestLast(before, s) && Distinct(s)
    ensures NewestLast(before + [SetPermissionOp(x.0, x.1, '*')], Without(s, x) + [x])
  {
    var op := SetPermissionOp(x.0, x.1, '*');
    var w := Without(s, x);
    WithoutNewestLast(before, s, x);
    AppendedMembers(s, x);
    assert forall i :: 0 <= i < |w| ==> w[i] == (w + [x])[i];
    LaterOp(before, op, w);
    assert (before + [op])[..|before|] == before;
    forall i | 0 <= i < |w| ensures LastPublication(before + [op], w[i]) < |before| {
      assert LastPublication(before, w[i]) < |before|;
    }
  }

  lemma NewestLastStep(before: seq<Op>, op: Op, db: Db)
    requires NewestLast(before, db.public) && PublicOk(db)
    ensures NewestLast(before + [op], Step(db, op, false).public)
  {
    if op.SetPermissionOp? && op.perm == '*' && (op.u, op.b) in db.inodes {
      NewlyPublished(before, (op.u, op.b), db.public);
    } else if op.SetPermissionOp? || op.UnlinkOp? {
      NotNewlyPublished(before, op, db);
      assert Step(db, op, false).public == db.public || Step(db, op, false).public == Without(db.public, (op.u, op.b));
    } else {
      LaterOp(before, op, db.public);
    }
  }

  lemma NotNewlyPublished(before: seq<Op>, op: Op, db: Db)
    requires NewestLast(before, db.public) && PublicOk(db) && !(op.SetPermissionOp? && op.perm == '*' && (op.u, op.b) in db.inodes)
    ensures NewestLast(before + [op], db.public) && NewestLast(before + [op], Without(db.public, (op.u, op.b)))
  {
    var x := (op.u, op.b);
    var s := Without(db.public, x);
    WithoutNewestLast(before, db.public, x);
    forall i | 0 <= i < |db.public| ensures op != SetPermissionOp(db.public[i].0, db.public[i].1, '*') {
      assert db.public[i] in db.public;
    }
    forall i | 0 <= i < |s| ensures op != SetPermissionOp(s[i].0, s[i].1, '*') {
      WithoutIn(db.public, x, s[i]);
    }
    LaterOp(before, op, db.public);
    LaterOp(before, op, s);
  }

  lemma {:induction false} UnboundedPublicOk(ops: seq<Op>)
    requires ValidRun(ops)
    ensures Linked(Run(ops, false)) && PublicOk(Run(ops, false))
    decreases |ops|
  {
    if ops == [] {
      assert forall u, b :: !HasRef(EMPTY, u, b);
    } else {
      var before, op := ops[..|ops| - 1], ops[|ops| - 1];
      UnboundedPublicOk(before);
      PublicIsSuffix(before);
      var db := Run(before, false);
      assert ValidOp(Run(before, true), op) ==> ValidOp(db, op);
      StepKeepsLinks(db, op, false);
      StepKeepsPublic(db, op, false);
    }
  }

  ghost predicate HasInode(ops: seq<Op>, x: (User, Blob)) {
    x in Run(ops, false).inodes
  }

  // Since operation i the permission of x was not set again, and `has` held all the time.
  ghost predicate Undisturbed(ops: seq<Op>, x: (User, Blob), i: nat, has: seq<Op> -> bool) {
    && (forall j :: i < j < |ops| ==> !Sets(ops[j], x))
    && (forall j :: i <= j <= |ops| ==> has(ops[..j]))
  }

  // x was published while its inode existed, and its inode and its permission stayed.
  ghost predicate StaysPublic(ops: seq<Op>, x: (User, Blob)) {
    LastPublication(ops, x) >= 0 && Undisturbed(ops, x, LastPublication(ops, x), before => HasInode(before, x))
  }

  predicate Sets(op: Op, x: (User, Blob)) {
    op.SetPermissionOp? && (op.u, op.b) == x
  }

  lemma PublicStep(db: Db, op: Op, x: (User, Blob))
    requires Linked(db) && PublicOk(db)
    ensures var t := Step(db, op, false);
            && (x in t.public <==> (x in t.inodes && if Sets(op, x) then op.perm == '*' else x in db.public))
            && (Sets(op, x) ==> (x in t.inodes <==> x in db.inodes))
  {
    match op
    case SetPermissionOp(u, b, perm) => WithoutIn(db.public, (u, b), x);
    case UnlinkOp(u, c, b, pick) => WithoutIn(db.public, (u, b), x);
    case _ =>
  }

  lemma {:induction false} UndisturbedStep(ops: seq<Op>, x: (User, Blob), i: nat, has: seq<Op> -> bool)
    requires i < |ops|
    ensures var n := |ops| - 1;
            Undisturbed(ops, x, i, has) <==>
              (has(ops) && if i == n then has(ops[..n]) else Undisturbed(ops[..n], x, i, has) && !Sets(ops[n], x))
  {
    var n := |ops| - 1;
    assert forall j :: 0 <= j <= n ==> ops[..n][..j] == ops[..j];
    assert ops[..n + 1] == ops;
  }

  lemma {:induction false} StaysPublicStep(ops: seq<Op>, x: (User, Blob))
    requires ops != []
    ensures var n := |ops| - 1;
            StaysPublic(ops, x) <==> (HasInode(ops, x) &&
              if Sets(ops[n], x) then ops[n].perm == '*' && HasInode(ops[..n], x) else StaysPublic(ops[..n], x))
  {
    LastPublicationInPast(ops, x);
    LastPublicationInPast(ops[..|ops| - 1], x);
    if LastPublication(ops, x) >= 0 {
      UndisturbedStep(ops, x, LastPublication(ops, x), before => HasInode(before, x));
    }
  }

  lemma {:induction false} LastPublicationInPast(ops: seq<Op>, x: (User, Blob))
    ensures -1 <= LastPublication(ops, x) < |ops|
    decreases |ops|
  {
    if ops != [] {
      LastPublicationInPast(ops[..|ops| - 1], x);
    }
  }

  // Without the limit the list holds exactly the blobs that were published and stayed so.
  lemma {:induction false} PublicIsPublished(ops: seq<Op>, x: (User, Blob))
    requires ValidRun(ops)
    ensures x in Run(ops, false).public <==> StaysPublic(ops, x)
    decreases |ops|
  {
    if ops != [] {
      var n := |ops| - 1;
      PublicIsPublished(ops[..n], x);
      UnboundedPublicOk(ops[..n]);
      PublicStep(Run(ops[..n], false), ops[n], x);
      StaysPublicStep(ops, x);
    }
  }

  // As long as the unbounded list stays within the limit, nothing is forgotten.
  lemma {:induction false} NothingForgotten(ops: seq<Op>)
    requires forall j :: 0 <= j <= |ops| ==> |Run(ops[..j], false).public| <= 100
    ensures Run(ops, true) == Run(ops, false)
    decreases |ops|
  {
    assert ops[..|ops|] == ops;
    if ops != [] {
      var n := |ops| - 1;
      assert forall j :: 0 <= j <= n ==> ops[..n][..j] == ops[..j];
      NothingForgotten(ops[..n]);
    }
  }

  // ------------------------------------------------------------------
  // Undo and query
  // ------------------------------------------------------------------

  // Linking a blob into a collection that does not hold it and unlinking it again changes nothing.
  lemma LinkThenUnlink(db: Db, u: User, c: Coll, b: Blob, entry: Inode, filename: string, pick: Blob)
    requires Sound(db) && Covered(db) && (u, c, b) !in db.colls
    ensures Unlink(Link(db, u, c, b, entry, filename), u, c, b, pick) == db
  {
    var t := Link(db, u, c, b, entry, filename);
    assert (u, b, c) !in db.refs;
    assert t.refs - {(u, b, c)} == db.refs;
    var mid := t.(refs := t.refs - {(u, b, c)});
    assert HasRef(mid, u, b) <==> HasRef(db, u, b);
    if !HasRef(db, u, b) {
      WithoutAbsent(db.public, (u, b));
      assert t.owners - {(b, u)} == db.owners;
      assert t.inodes - {(u, b)} == db.inodes;
    } else {
      assert t.owners == db.owners;
    }
    var half := DropRef(t, u, c, b);
    assert half == db.(colls := t.colls, covers := t.covers);
    assert t.colls - {(u, c, b)} == db.colls;
    var rest := half.(colls := half.colls - {(u, c, b)});
    assert HasMember(rest, u, c) <==> HasMember(db, u, c);
    if HasMember(db, u, c) {
      assert (u, c) in db.covers && db.covers[(u, c)] != b;
    } else {
      assert (u, c) !in db.covers;
      assert t.covers - {(u, c)} == db.covers;
    }
  }

  lemma {:induction false} WithoutAbsent<T>(s: seq<T>, x: T)
    requires x !in s
    ensures Without(s, x) == s
  {
    if s != [] {
      WithoutAbsent(s[1..], x);
    }
  }

  // query_blob(): what the back links say, each with the inode of the blob.
  ghost function Query(db: Db, u: User, b: Blob): set<(Coll, Inode)> {
    set r | r in db.refs && r.0 == u && r.1 == b && (u, b) in db.inodes :: (r.2, db.inodes[(u, b)])
  }

  // The same question answered by looking into every collection of the user.
  ghost function Scan(db: Db, u: User, b: Blob): set<Coll> {
    set m | m in db.colls && m.0 == u && m.2 == b :: m.1
  }

  lemma QueryIsScan(ops: seq<Op>, u: User, b: Blob)
    requires ValidRun(ops)
    ensures var db := Run(ops, true);
            && (forall c, n :: (c, n) in Query(db, u, b) <==> c in Scan(db, u, b) && (u, b) in db.inodes && n == db.inodes[(u, b)])
            && (Scan(db, u, b) != {} <==> (u, b) in db.inodes)
            && (Scan(db, u, b) != {} <==> (b, u) in db.owners)
  {
    Reachable(ops);
    var db := Run(ops, true);
    forall c ensures (u, b, c) in db.refs <==> c in Scan(db, u, b) {
      if c in Scan(db, u, b) {
        assert (u, c, b) in db.colls;
      }
      if (u, b, c) in db.refs {
        assert (u, c, b) in db.colls;
      }
    }
    if (u, b) in db.inodes {
      var c :| (u, b, c) in db.refs;
      assert c in Scan(db, u, b);
    }
    if Scan(db, u, b) != {} {
      var c :| c in Scan(db, u, b);
      assert HasRef(db, u, b);
    }
  }
}
