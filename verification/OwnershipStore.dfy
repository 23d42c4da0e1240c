/**
The Lua scripts of src/server/hrb/Ownership.cc as they really run: one Redis command after
another on a flat keyspace. Each script is proved to do to the keyspace what the step of
module Ownership does to the six typed tables. JSON and MessagePack texts are kept decoded.
 */
module OwnershipStore {
  import O = Ownership
  import opened RedisKeys

  datatype Field = Text(text: string) | InodeText(inode: O.Inode) | Album(cover: string)

  datatype Value = Set(items: set<string>) | Hash(fields: map<string, Field>) | List(elements: seq<(string, string)>)

  type Keyspace = map<string, Value>

  // ------------------------------------------------------------------
  // Redis commands. An emptied key disappears.
  // ------------------------------------------------------------------

  function SetAt(ks: Keyspace, k: string): set<string> {
    if k in ks && ks[k].Set? then ks[k].items else {}
  }

  function HashAt(ks: Keyspace, k: string): map<string, Field> {
    if k in ks && ks[k].Hash? then ks[k].fields else map[]
  }

  function ListAt(ks: Keyspace, k: string): seq<(string, string)> {
    if k in ks && ks[k].List? then ks[k].elements else []
  }

  function PutSet(ks: Keyspace, k: string, s: set<string>): Keyspace {
    if s == {} then ks - {k} else ks[k := Set(s)]
  }

  function PutHash(ks: Keyspace, k: string, h: map<string, Field>): Keyspace {
    if h == map[] then ks - {k} else ks[k := Hash(h)]
  }

  function PutList(ks: Keyspace, k: string, l: seq<(string, string)>): Keyspace {
    if l == [] then ks - {k} else ks[k := List(l)]
  }

  // ------------------------------------------------------------------
  // The typed tables behind a keyspace
  // ------------------------------------------------------------------

  // No key holds a value of the wrong type, and no key is empty.
  ghost predicate WellTyped(ks: Keyspace) {
    forall k :: k in ks ==>
      match TableOf(k)
      case RefsTable => ks[k].Set? && ks[k].items != {}
      case OwnersTable => ks[k].Set? && ks[k].items != {}
      case InodesTable => ks[k].Hash? && ks[k].fields != map[]
      case CollTable => ks[k].Hash? && ks[k].fields != map[]
      case CollListTable => ks[k].Hash? && ks[k].fields != map[]
      case PublicTable => ks[k].List? && ks[k].elements != []
      case Foreign => true
  }

  ghost predicate RefsAgree(ks: Keyspace, refs: set<(string, string, string)>) {
    forall u, b, c :: IsUser(u) && IsBlob(b) ==> ((u, b, c) in refs <==> c in SetAt(ks, BlobRefs(u, b)))
  }

  ghost predicate OwnersAgree(ks: Keyspace, owners: set<(string, string)>) {
    forall b, u :: (b, u) in owners <==> u in SetAt(ks, BlobOwners(b))
  }

  ghost predicate InodesAgree(ks: Keyspace, inodes: map<(string, string), O.Inode>) {
    forall u, b ::
      && ((u, b) in inodes <==> b in HashAt(ks, BlobInode(u)))
      && ((u, b) in inodes ==> HashAt(ks, BlobInode(u))[b] == InodeText(inodes[(u, b)]))
  }

  ghost predicate CollsAgree(ks: Keyspace, colls: map<(string, string, string), string>) {
    forall u, c, b :: IsUser(u) ==>
      && ((u, c, b) in colls <==> b in HashAt(ks, CollectionKey(u, c)))
      && ((u, c, b) in colls ==> HashAt(ks, CollectionKey(u, c))[b] == Text(colls[(u, c, b)]))
  }

  ghost predicate CoversAgree(ks: Keyspace, covers: map<(string, string), string>) {
    forall u, c ::
      && ((u, c) in covers <==> c in HashAt(ks, CollectionList(u)))
      && ((u, c) in covers ==> HashAt(ks, CollectionList(u))[c] == Album(covers[(u, c)]))
  }

  ghost predicate Represents(ks: Keyspace, db: O.Db) {
    && WellTyped(ks)
    && RefsAgree(ks, db.refs) && OwnersAgree(ks, db.owners) && InodesAgree(ks, db.inodes)
    && CollsAgree(ks, db.colls) && CoversAgree(ks, db.covers) && ListAt(ks, PublicBlobs()) == db.public
  }

  // ------------------------------------------------------------------
  // A command on one key leaves the tables of all other keys alone
  // ------------------------------------------------------------------

  ghost predicate SameExcept(ks: Keyspace, ks': Keyspace, k: string) {
    forall k' :: k' != k ==> (k' in ks <==> k' in ks') && (k' in ks ==> ks[k'] == ks'[k'])
  }

  lemma FrameSets(ks: Keyspace, ks': Keyspace, k: string, db: O.Db)
    requires Represents(ks, db) && SameExcept(ks, ks', k)
    ensures TableOf(k) != RefsTable ==> RefsAgree(ks', db.refs)
    ensures TableOf(k) != OwnersTable ==> OwnersAgree(ks', db.owners)
    ensures TableOf(k) != PublicTable ==> ListAt(ks', PublicBlobs()) == db.public
  {
    forall u, b | IsUser(u) && IsBlob(b) && TableOf(k) != RefsTable ensures SetAt(ks', BlobRefs(u, b)) == SetAt(ks, BlobRefs(u, b)) {}
    forall b | TableOf(k) != OwnersTable ensures SetAt(ks', BlobOwners(b)) == SetAt(ks, BlobOwners(b)) {}
  }

  lemma FrameHashes(ks: Keyspace, ks': Keyspace, k: string, db: O.Db)
    requires Represents(ks, db) && SameExcept(ks, ks', k)
    ensures TableOf(k) != InodesTable ==> InodesAgree(ks', db.inodes)
    ensures TableOf(k) != CollTable ==> CollsAgree(ks', db.colls)
    ensures TableOf(k) != CollListTable ==> CoversAgree(ks', db.covers)
  {
    forall u | TableOf(k) != InodesTable ensures HashAt(ks', BlobInode(u)) == HashAt(ks, BlobInode(u)) {}
    forall u, c | TableOf(k) != CollTable ensures HashAt(ks', CollectionKey(u, c)) == HashAt(ks, CollectionKey(u, c)) {}
    forall u | TableOf(k) != CollListTable ensures HashAt(ks', CollectionList(u)) == HashAt(ks, CollectionList(u)) {}
  }

  lemma PutTyped(ks: Keyspace, k: string, s: set<string>, h: map<string, Field>, l: seq<(string, string)>)
    requires WellTyped(ks)
    ensures TableOf(k) == RefsTable || TableOf(k) == OwnersTable ==> WellTyped(PutSet(ks, k, s))
    ensures TableOf(k) == InodesTable || TableOf(k) == CollTable || TableOf(k) == CollListTable ==> WellTyped(PutHash(ks, k, h))
    ensures TableOf(k) == PublicTable ==> WellTyped(PutList(ks, k, l))
    ensures SameExcept(ks, PutSet(ks, k, s), k) && SameExcept(ks, PutHash(ks, k, h), k) && SameExcept(ks, PutList(ks, k, l), k)
  {}

  // ------------------------------------------------------------------
  // One command at a time
  // ------------------------------------------------------------------

  lemma {:induction false} SetCommand(ks: Keyspace, db: O.Db, k: string, s: set<string>)
    requires Represents(ks, db) && (TableOf(k) == RefsTable || TableOf(k) == OwnersTable)
    ensures var ks' := PutSet(ks, k, s);
            && WellTyped(ks') && InodesAgree(ks', db.inodes) && CollsAgree(ks', db.colls) && CoversAgree(ks', db.covers)
            && ListAt(ks', PublicBlobs()) == db.public
            && (TableOf(k) == RefsTable ==> OwnersAgree(ks', db.owners))
            && (TableOf(k) == OwnersTable ==> RefsAgree(ks', db.refs))
            && SetAt(ks', k) == s && SameExcept(ks, ks', k)
  {
    PutTyped(ks, k, s, map[], []);
    FrameSets(ks, PutSet(ks, k, s), k, db);
    FrameHashes(ks, PutSet(ks, k, s), k, db);
  }

  lemma {:induction false} HashCommand(ks: Keyspace, db: O.Db, k: string, h: map<string, Field>)
    requires Represents(ks, db) && (TableOf(k) == InodesTable || TableOf(k) == CollTable || TableOf(k) == CollListTable)
    ensures var ks' := PutHash(ks, k, h);
            && WellTyped(ks') && RefsAgree(ks', db.refs) && OwnersAgree(ks', db.owners)
            && ListAt(ks', PublicBlobs()) == db.public
            && (TableOf(k) != InodesTable ==> InodesAgree(ks', db.inodes))
            && (TableOf(k) != CollTable ==> CollsAgree(ks', db.colls))
            && (TableOf(k) != CollListTable ==> CoversAgree(ks', db.covers))
            && HashAt(ks', k) == h && SameExcept(ks, ks', k)
  {
    PutTyped(ks, k, {}, h, []);
    FrameSets(ks, PutHash(ks, k, h), k, db);
    FrameHashes(ks, PutHash(ks, k, h), k, db);
  }

  // SADD and SREM on a back-link set: `s` becomes its new value.
  lemma {:induction false} RefsCommand(ks: Keyspace, db: O.Db, u: string, b: string, s: set<string>, refs: set<(string, string, string)>)
    requires Represents(ks, db) && IsUser(u) && IsBlob(b)
    requires forall u', b', c' :: (u', b', c') in refs <==> if u' == u && b' == b then c' in s else (u', b', c') in db.refs
    ensures Represents(PutSet(ks, BlobRefs(u, b), s), db.(refs := refs))
  {
    var k := BlobRefs(u, b);
    SetCommand(ks, db, k, s);
    var ks' := PutSet(ks, k, s);
    forall u', b', c' | IsUser(u') && IsBlob(b') ensures (u', b', c') in refs <==> c' in SetAt(ks', BlobRefs(u', b')) {
      if u' != u || b' != b {
        assert UserOfRefs(BlobRefs(u', b')) == u' && BlobOfRefs(BlobRefs(u', b')) == b';
        assert BlobRefs(u', b') != k;
        assert SetAt(ks', BlobRefs(u', b')) == SetAt(ks, BlobRefs(u', b'));
      }
    }
  }

  lemma {:induction false} OwnersCommand(ks: Keyspace, db: O.Db, b: string, s: set<string>, owners: set<(string, string)>)
    requires Represents(ks, db)
    requires forall b', u' :: (b', u') in owners <==> if b' == b then u' in s else (b', u') in db.owners
    ensures Represents(PutSet(ks, BlobOwners(b), s), db.(owners := owners))
  {
    var k := BlobOwners(b);
    SetCommand(ks, db, k, s);
    var ks' := PutSet(ks, k, s);
    forall b', u' ensures (b', u') in owners <==> u' in SetAt(ks', BlobOwners(b')) {
      if b' != b {
        assert BlobOfOwners(BlobOwners(b')) == b';
        assert BlobOwners(b') != k;
        assert SetAt(ks', BlobOwners(b')) == SetAt(ks, BlobOwners(b'));
      }
    }
  }

  // HSET, HSETNX and HDEL on an inode hash.
  lemma {:induction false} InodesCommand(ks: Keyspace, db: O.Db, u: string, h: map<string, Field>, inodes: map<(string, string), O.Inode>)
    requires Represents(ks, db)
    requires forall u', b' :: (u', b') in inodes <==> if u' == u then b' in h else (u', b') in db.inodes
    requires forall u', b' :: (u', b') in inodes ==> if u' == u then h[b'] == InodeText(inodes[(u', b')]) else inodes[(u', b')] == db.inodes[(u', b')]
    ensures Represents(PutHash(ks, BlobInode(u), h), db.(inodes := inodes))
  {
    var k := BlobInode(u);
    HashCommand(ks, db, k, h);
    var ks' := PutHash(ks, k, h);
    forall u' | u' != u ensures HashAt(ks', BlobInode(u')) == HashAt(ks, BlobInode(u')) {
      assert UserOfInodes(BlobInode(u')) == u';
    }
  }

  lemma {:induction false} CollsCommand(ks: Keyspace, db: O.Db, u: string, c: string, h: map<string, Field>, colls: map<(string, string, string), string>)
    requires Represents(ks, db) && IsUser(u)
    requires forall u', c', b' :: (u', c', b') in colls <==> if u' == u && c' == c then b' in h else (u', c', b') in db.colls
    requires forall u', c', b' :: (u', c', b') in colls ==>
      if u' == u && c' == c then h[b'] == Text(colls[(u', c', b')]) else colls[(u', c', b')] == db.colls[(u', c', b')]
    ensures Represents(PutHash(ks, CollectionKey(u, c), h), db.(colls := colls))
  {
    var k := CollectionKey(u, c);
    HashCommand(ks, db, k, h);
    var ks' := PutHash(ks, k, h);
    forall u', c' | IsUser(u') && (u' != u || c' != c) ensures HashAt(ks', CollectionKey(u', c')) == HashAt(ks, CollectionKey(u', c')) {
      assert UserOfColl(CollectionKey(u', c')) == u' && NameOfColl(CollectionKey(u', c')) == c';
    }
  }

  lemma {:induction false} CoversCommand(ks: Keyspace, db: O.Db, u: string, h: map<string, Field>, covers: map<(string, string), string>)
    requires Represents(ks, db)
    requires forall u', c' :: (u', c') in covers <==> if u' == u then c' in h else (u', c') in db.covers
    requires forall u', c' :: (u', c') in covers ==> if u' == u then h[c'] == Album(covers[(u', c')]) else covers[(u', c')] == db.covers[(u', c')]
    ensures Represents(PutHash(ks, CollectionList(u), h), db.(covers := covers))
  {
    var k := CollectionList(u);
    HashCommand(ks, db, k, h);
    var ks' := PutHash(ks, k, h);
    forall u' | u' != u ensures HashAt(ks', CollectionList(u')) == HashAt(ks, CollectionList(u')) {
      assert UserOfCollList(CollectionList(u')) == u';
    }
  }

  // LREM, RPUSH and LPOP on the public list.
  lemma {:induction false} PublicCommand(ks: Keyspace, db: O.Db, l: seq<(string, string)>)
    requires Represents(ks, db)
    ensures Represents(PutList(ks, PublicBlobs(), l), db.(public := l))
  {
    var k := PublicBlobs();
    PutTyped(ks, k, {}, map[], l);
    FrameSets(ks, PutList(ks, k, l), k, db);
    FrameHashes(ks, PutList(ks, k, l), k, db);
  }

  // EXISTS on a back-link set or a collection hash.
  lemma ExistsMeans(ks: Keyspace, db: O.Db, u: string, b: string, c: string)
    requires Represents(ks, db) && IsUser(u)
    ensures IsBlob(b) ==> (BlobRefs(u, b) in ks <==> O.HasRef(db, u, b))
    ensures CollectionKey(u, c) in ks <==> O.HasMember(db, u, c)
  {
    if IsBlob(b) {
      var k := BlobRefs(u, b);
      if k in ks {
        var x :| x in ks[k].items;
        assert (u, b, x) in db.refs;
      }
    }
    var k := CollectionKey(u, c);
    if k in ks {
      var x :| x in ks[k].fields;
      assert (u, c, x) in db.colls;
    }
  }

  // ------------------------------------------------------------------
  // The scripts
  // ------------------------------------------------------------------

  // The user name has no colon and the blob ID has 20 bytes.
  predicate Addressed(op: O.Op) { IsUser(op.u) && IsBlob(op.b) }

  // What is asked for, whichever key an unlink picks.
  function Asked(op: O.Op): O.Op {
    match op
    case UnlinkOp(u, c, b, _) => O.UnlinkOp(u, c, b, "")
    case _ => op
  }

  ghost predicate TraceStep(before: O.Db, op: O.Op, request: O.Op, after: O.Db) {
    && Asked(op) == Asked(request) && (op.UnlinkOp? ==> O.ValidOp(before, op))
    && after == O.Step(before, op, true)
  }

  // Operations that carry out the requests, and the databases between them.
  ghost predicate IsTrace(requests: seq<O.Op>, ops: seq<O.Op>, dbs: seq<O.Db>) {
    && |ops| == |requests| && |dbs| == |ops| + 1 && dbs[0] == O.EMPTY
    && forall i :: 0 <= i < |ops| ==> TraceStep(dbs[i], ops[i], requests[i], dbs[i + 1])
  }

  lemma TraceOneMore(requests: seq<O.Op>, ops: seq<O.Op>, dbs: seq<O.Db>, request: O.Op, op: O.Op, after: O.Db)
    requires IsTrace(requests, ops, dbs) && TraceStep(dbs[|ops|], op, request, after)
    ensures IsTrace(requests + [request], ops + [op], dbs + [after])
  {
    var rs, os, ds := requests + [request], ops + [op], dbs + [after];
    forall i | 0 <= i < |os| ensures TraceStep(ds[i], os[i], rs[i], ds[i + 1]) {
      if i < |ops| {
        assert TraceStep(dbs[i], ops[i], requests[i], dbs[i + 1]);
      }
    }
  }

  // Such a trace is a run of module Ownership, and a valid one if its moves are safe.
  lemma {:induction false} TraceIsRun(requests: seq<O.Op>, ops: seq<O.Op>, dbs: seq<O.Db>)
    requires IsTrace(requests, ops, dbs)
    ensures O.Run(ops, true) == dbs[|ops|]
    ensures (forall i :: 0 <= i < |ops| ==> SafeIfMove(dbs[i], ops[i])) ==> O.ValidRun(ops)
    decreases |ops|
  {
    if ops != [] {
      var n := |ops| - 1;
      assert forall i :: 0 <= i < n ==> TraceStep(dbs[i], ops[i], requests[i], dbs[i + 1]);
      TraceIsRun(requests[..n], ops[..n], dbs[..n + 1]);
      assert TraceStep(dbs[n], ops[n], requests[n], dbs[n + 1]);
    }
  }

  ghost predicate SafeIfMove(db: O.Db, op: O.Op) {
    op.MoveOp? ==> O.MoveSafe(db, op.u, op.src, op.dest, op.b)
  }

  class Store {
    var ks: Keyspace

    constructor ()
      ensures Represents(ks, O.EMPTY)
    {
      ks := map[];
    }

    // ---- single commands; the ghost argument is the database the keyspace stands for ----

    method AddRef(u: string, b: string, c: string, ghost db: O.Db)
      requires Represents(ks, db) && IsUser(u) && IsBlob(b)
      modifies this
      ensures Represents(ks, db.(refs := db.refs + {(u, b, c)}))
    {
      RefsCommand(ks, db, u, b, SetAt(ks, BlobRefs(u, b)) + {c}, db.refs + {(u, b, c)});
      ks := PutSet(ks, BlobRefs(u, b), SetAt(ks, BlobRefs(u, b)) + {c});
    }

    method RemoveRef(u: string, b: string, c: string, ghost db: O.Db)
      requires Represents(ks, db) && IsUser(u) && IsBlob(b)
      modifies this
      ensures Represents(ks, db.(refs := db.refs - {(u, b, c)}))
    {
      RefsCommand(ks, db, u, b, SetAt(ks, BlobRefs(u, b)) - {c}, db.refs - {(u, b, c)});
      ks := PutSet(ks, BlobRefs(u, b), SetAt(ks, BlobRefs(u, b)) - {c});
    }

    method AddOwner(b: string, u: string, ghost db: O.Db)
      requires Represents(ks, db)
      modifies this
      ensures Represents(ks, db.(owners := db.owners + {(b, u)}))
    {
      OwnersCommand(ks, db, b, SetAt(ks, BlobOwners(b)) + {u}, db.owners + {(b, u)});
      ks := PutSet(ks, BlobOwners(b), SetAt(ks, BlobOwners(b)) + {u});
    }

    method RemoveOwner(b: string, u: string, ghost db: O.Db)
      requires Represents(ks, db)
      modifies this
      ensures Represents(ks, db.(owners := db.owners - {(b, u)}))
    {
      OwnersCommand(ks, db, b, SetAt(ks, BlobOwners(b)) - {u}, db.owners - {(b, u)});
      ks := PutSet(ks, BlobOwners(b), SetAt(ks, BlobOwners(b)) - {u});
    }

    method PutInode(u: string, b: string, n: O.Inode, ghost db: O.Db)
      requires Represents(ks, db)
      modifies this
      ensures Represents(ks, db.(inodes := db.inodes[(u, b) := n]))
    {
      InodesCommand(ks, db, u, HashAt(ks, BlobInode(u))[b := InodeText(n)], db.inodes[(u, b) := n]);
      ks := PutHash(ks, BlobInode(u), HashAt(ks, BlobInode(u))[b := InodeText(n)]);
    }

    method RemoveInode(u: string, b: string, ghost db: O.Db)
      requires Represents(ks, db)
      modifies this
      ensures Represents(ks, db.(inodes := db.inodes - {(u, b)}))
    {
      InodesCommand(ks, db, u, HashAt(ks, BlobInode(u)) - {b}, db.inodes - {(u, b)});
      ks := PutHash(ks, BlobInode(u), HashAt(ks, BlobInode(u)) - {b});
    }

    method PutName(u: string, c: string, b: string, name: string, ghost db: O.Db)
      requires Represents(ks, db) && IsUser(u)
      modifies this
      ensures Represents(ks, db.(colls := db.colls[(u, c, b) := name]))
    {
      CollsCommand(ks, db, u, c, HashAt(ks, CollectionKey(u, c))[b := Text(name)], db.colls[(u, c, b) := name]);
      ks := PutHash(ks, CollectionKey(u, c), HashAt(ks, CollectionKey(u, c))[b := Text(name)]);
    }

    method RemoveName(u: string, c: string, b: string, ghost db: O.Db)
      requires Represents(ks, db) && IsUser(u)
      modifies this
      ensures Represents(ks, db.(colls := db.colls - {(u, c, b)}))
    {
      CollsCommand(ks, db, u, c, HashAt(ks, CollectionKey(u, c)) - {b}, db.colls - {(u, c, b)});
      ks := PutHash(ks, CollectionKey(u, c), HashAt(ks, CollectionKey(u, c)) - {b});
    }

    method PutCover(u: string, c: string, b: string, ghost db: O.Db)
      requires Represents(ks, db)
      modifies this
      ensures Represents(ks, db.(covers := db.covers[(u, c) := b]))
    {
      CoversCommand(ks, db, u, HashAt(ks, CollectionList(u))[c := Album(b)], db.covers[(u, c) := b]);
      ks := PutHash(ks, CollectionList(u), HashAt(ks, CollectionList(u))[c := Album(b)]);
    }

    method RemoveCover(u: string, c: string, ghost db: O.Db)
      requires Represents(ks, db)
      modifies this
      ensures Represents(ks, db.(covers := db.covers - {(u, c)}))
    {
      CoversCommand(ks, db, u, HashAt(ks, CollectionList(u)) - {c}, db.covers - {(u, c)});
      ks := PutHash(ks, CollectionList(u), HashAt(ks, CollectionList(u)) - {c});
    }

    method PutPublic(l: seq<(string, string)>, ghost db: O.Db)
      requires Represents(ks, db)
      modifies this
      ensures Represents(ks, db.(public := l))
    {
      PublicCommand(ks, db, l);
      ks := PutList(ks, PublicBlobs(), l);
    }

    // HSETNX on the list of collections.
    method ListCollection(u: string, c: string, b: string, ghost db: O.Db)
      requires Represents(ks, db)
      modifies this
      ensures Represents(ks, db.(covers := if (u, c) in db.covers then db.covers else db.covers[(u, c) := b]))
    {
      if c !in HashAt(ks, CollectionList(u)) {
        PutCover(u, c, b, db);
      }
    }

    // ---- link, unlink, move, set_permission, set_cover ----

    method Link(u: string, c: string, b: string, entry: O.Inode, filename: string, ghost db: O.Db)
      requires Represents(ks, db) && IsUser(u) && IsBlob(b)
      modifies this
      ensures Represents(ks, O.Link(db, u, c, b, entry, filename))
    {
      AddRef(u, b, c, db);
      ghost var db1 := db.(refs := db.refs + {(u, b, c)});
      AddOwner(b, u, db1);
      ghost var db2 := db1.(owners := db.owners + {(b, u)});
      if b !in HashAt(ks, BlobInode(u)) {
        PutInode(u, b, entry, db2);
      }
      ghost var db3 := db2.(inodes := if (u, b) in db.inodes then db.inodes else db.inodes[(u, b) := entry]);
      PutName(u, c, b, if filename == "" then "hello" else filename, db3);
      ghost var db4 := db3.(colls := db.colls[(u, c, b) := O.NonEmptyName(filename)]);
      ListCollection(u, c, b, db4);
    }

    method Unlink(u: string, c: string, b: string, ghost db: O.Db) returns (ok: bool, ghost pick: string)
      requires Represents(ks, db) && IsUser(u) && IsBlob(b)
      modifies this
      ensures O.PickOk(db, u, c, b, pick) && Represents(ks, O.Unlink(db, u, c, b, pick))
      ensures !ok <==> (u, c) !in db.covers && exists x :: x != b && (u, c, x) in db.colls
    {
      UnlinkBlob(u, c, b, db);
      ok, pick := UnlinkMember(u, c, b, O.DropRef(db, u, c, b));
    }

    method UnlinkBlob(u: string, c: string, b: string, ghost db: O.Db)
      requires Represents(ks, db) && IsUser(u) && IsBlob(b)
      modifies this
      ensures Represents(ks, O.DropRef(db, u, c, b))
    {
      RemoveRef(u, b, c, db);
      ghost var db1 := db.(refs := db.refs - {(u, b, c)});
      ExistsMeans(ks, db1, u, b, c);
      if BlobRefs(u, b) !in ks {
        RemoveOwner(b, u, db1);
        ghost var db2 := db1.(owners := db.owners - {(b, u)});
        RemoveInode(u, b, db2);
        ghost var db3 := db2.(inodes := db.inodes - {(u, b)});
        PutPublic(O.Without(ListAt(ks, PublicBlobs()), (u, b)), db3);
      }
    }

    method UnlinkMember(u: string, c: string, b: string, ghost db: O.Db) returns (ok: bool, ghost pick: string)
      requires Represents(ks, db) && IsUser(u)
      modifies this
      ensures O.PickOk(db, u, c, b, pick) && Represents(ks, O.DropMember(db, u, c, b, pick))
      ensures !ok <==> (u, c) !in db.covers && exists x :: x != b && (u, c, x) in db.colls
    {
      RemoveName(u, c, b, db);
      ghost var db1 := db.(colls := db.colls - {(u, c, b)});
      ExistsMeans(ks, db1, u, b, c);
      assert forall x :: x != b && (u, c, x) in db.colls ==> (u, c, x) in db1.colls;
      if CollectionKey(u, c) !in ks {
        ok, pick := true, "";
        RemoveCover(u, c, db1);
      } else {
        ok, pick := RepairCover(u, c, b, db1);
      }
    }

    // If the removed blob was the cover, the first remaining key becomes the cover.
    method RepairCover(u: string, c: string, b: string, ghost db: O.Db) returns (ok: bool, ghost pick: string)
      requires Represents(ks, db) && IsUser(u) && CollectionKey(u, c) in ks
      modifies this
      ensures (u, c, pick) in db.colls && (ok <==> (u, c) in db.covers)
      ensures Represents(ks, if ok && db.covers[(u, c)] == b then db.(covers := db.covers[(u, c) := pick]) else db)
    {
      var key :| key in HashAt(ks, CollectionKey(u, c));
      assert (u, c, key) in db.colls;
      pick := key;
      var list := HashAt(ks, CollectionList(u));
      ok := c in list;
      if ok && list[c] == Album(b) {
        PutCover(u, c, key, db);
      }
    }

    method Move(u: string, src: string, dest: string, b: string, ghost db: O.Db) returns (ok: bool)
      requires Represents(ks, db) && IsUser(u) && IsBlob(b)
      modifies this
      ensures Represents(ks, O.Move(db, u, src, dest, b))
      ensures ok <==> (u, src, b) in db.colls
    {
      AddRef(u, b, dest, db);
      ghost var db1 := db.(refs := db.refs + {(u, b, dest)});
      RemoveRef(u, b, src, db1);
      ghost var db2 := db1.(refs := db.refs + {(u, b, dest)} - {(u, b, src)});
      ok := b in HashAt(ks, CollectionKey(u, src));
      if ok {
        var filename := HashAt(ks, CollectionKey(u, src))[b];
        assert filename == Text(db.colls[(u, src, b)]);
        PutName(u, dest, b, filename.text, db2);
        ghost var db3 := db2.(colls := db.colls[(u, dest, b) := filename.text]);
        RemoveName(u, src, b, db3);
        ghost var db4 := db3.(colls := db3.colls - {(u, src, b)});
        ListCollection(u, dest, b, db4);
      }
    }

    method SetPermission(u: string, b: string, perm: char, ghost db: O.Db) returns (ok: bool)
      requires Represents(ks, db)
      modifies this
      ensures Represents(ks, O.SetPermission(db, u, b, perm, true))
      ensures ok <==> (u, b) in db.inodes
    {
      ok := b in HashAt(ks, BlobInode(u));
      if ok {
        var original := HashAt(ks, BlobInode(u))[b];
        assert original == InodeText(db.inodes[(u, b)]);
        PutInode(u, b, original.inode.(perm := perm), db);
        ghost var db1 := db.(inodes := db.inodes[(u, b) := db.inodes[(u, b)].(perm := perm)]);
        var list := O.Without(ListAt(ks, PublicBlobs()), (u, b));
        PutPublic(list, db1);
        if perm == '*' {
          ghost var db2 := db1.(public := list);
          list := list + [(u, b)];
          PutPublic(list, db2);
          if |list| > O.PUBLIC_LIMIT {
            PutPublic(list[1..], db2.(public := list));
          }
        }
      }
    }

    method SetCover(u: string, c: string, b: string, ghost db: O.Db) returns (ok: bool)
      requires Represents(ks, db) && IsUser(u)
      modifies this
      ensures Represents(ks, O.SetCover(db, u, c, b))
      ensures ok <==> (u, c) in db.covers && (u, c, b) in db.colls
    {
      var listed := c in HashAt(ks, CollectionList(u));
      var member := b in HashAt(ks, CollectionKey(u, c));
      ok := listed && member;
      if ok {
        PutCover(u, c, b, db);
      }
    }

    // ---- any sequence of scripts ----

    // The script of one request. Which key HKEYS returns first is up to Redis, so the pick of an
    // unlink request is ignored and the actual one is reported.
    method Execute(request: O.Op, ghost db: O.Db) returns (ghost op: O.Op)
      requires Represents(ks, db) && Addressed(request)
      modifies this
      ensures TraceStep(db, op, request, O.Step(db, op, true)) && Represents(ks, O.Step(db, op, true))
    {
      op := request;
      match request
      case LinkOp(u, c, b, entry, filename) =>
        Link(u, c, b, entry, filename, db);
        assert O.Step(db, op, true) == O.Link(db, u, c, b, entry, filename);
      case UnlinkOp(u, c, b, _) =>
        var ok;
        ghost var pick;
        ok, pick := Unlink(u, c, b, db);
        op := O.UnlinkOp(u, c, b, pick);
        assert O.Step(db, op, true) == O.Unlink(db, u, c, b, pick);
      case MoveOp(u, src, dest, b) => var ok := Move(u, src, dest, b, db);
      case SetPermissionOp(u, b, perm) => var ok := SetPermission(u, b, perm, db);
      case SetCoverOp(u, c, b) => var ok := SetCover(u, c, b, db);
    }

    method ReplayNext(request: O.Op, ghost requests: seq<O.Op>, ghost ops: seq<O.Op>, ghost dbs: seq<O.Db>)
      returns (ghost op: O.Op, ghost db: O.Db)
      requires IsTrace(requests, ops, dbs) && Represents(ks, dbs[|ops|]) && Addressed(request)
      modifies this
      ensures IsTrace(requests + [request], ops + [op], dbs + [db]) && Represents(ks, db)
    {
      op := Execute(request, dbs[|ops|]);
      db := O.Step(dbs[|ops|], op, true);
      TraceOneMore(requests, ops, dbs, request, op, db);
    }

    // Any sequence of scripts on an empty store is a run of the steps on the tables.
    method Replay(requests: seq<O.Op>) returns (ghost ops: seq<O.Op>, ghost dbs: seq<O.Db>)
      requires Represents(ks, O.EMPTY) && forall i :: 0 <= i < |requests| ==> Addressed(requests[i])
      modifies this
      ensures IsTrace(requests, ops, dbs) && Represents(ks, dbs[|ops|])
    {
      ops, dbs := [], [O.EMPTY];
      var i := 0;
      while i < |requests|
        invariant 0 <= i <= |requests| && IsTrace(requests[..i], ops, dbs)
        invariant Represents(ks, dbs[|ops|])
      {
        ghost var op, db := ReplayNext(requests[i], requests[..i], ops, dbs);
        assert requests[..i + 1] == requests[..i] + [requests[i]];
        ops, dbs := ops + [op], dbs + [db];
        i := i + 1;
      }
      assert requests[..i] == requests;
    }
  }
}
