/**
Who may see a blob (src/common/hrb/Permission.cc).
 */
module Permissions {

  datatype UserID = UserID(hasSession: bool, name: string, guest: bool) {
    predicate Valid() { hasSession && name != "" }
  }

  predicate Allow(perm: char, requester: UserID, owner: string) {
    match perm
    case '*' => true
    case '+' => requester.Valid() || requester.guest
    case ' ' => !requester.guest && requester.name == owner
    case _ => false
  }

  function Description(perm: char): string {
    match perm
    case '*' => "public"
    case '+' => "shared"
    case ' ' => "private"
    case _ => "acl"
  }

  function FromDescription(d: string): char {
    if d == "public" then '*' else if d == "private" then ' ' else if d == "shared" then '+' else ' '
  }

  predicate Known(perm: char) { perm == '*' || perm == '+' || perm == ' ' }

  // Describing a permission and reading it back loses exactly the access control lists, and the
  // owner is shut out of exactly those.
  lemma KnownPermissions(perm: char, owner: UserID)
    requires owner.Valid() && !owner.guest
    ensures FromDescription(Description(perm)) == perm <==> Known(perm)
    ensures Allow(perm, owner, owner.name) <==> Known(perm)
  {}

  // What the words mean to a requester: "public" is for everybody, "shared" for whoever is signed
  // in or a guest, and every other word for the owner alone.
  lemma WordsMean(word: string, requester: UserID, owner: string)
    ensures word == "public" ==> Allow(FromDescription(word), requester, owner)
    ensures word == "shared" ==>
      (Allow(FromDescription(word), requester, owner) <==> requester.guest || (requester.hasSession && requester.name != ""))
    ensures word != "public" && word != "shared" ==>
      (Allow(FromDescription(word), requester, owner) <==> !requester.guest && requester.name == owner)
    ensures Description(FromDescription(word)) == if word == "public" || word == "shared" then word else "private"
  {
    assert "public"[1] == 'u' && "private"[1] == 'r' && "shared"[1] == 'h';
  }
}

/**
Listing a collection (src/server/hrb/Ownership.cc and Ownership.ipp): a script flattens the
collection into triples, and the server parses the triples back and filters them.

The JSON parser is a parameter: `decode` gives the fields of an inode's text, or nothing when
the text is no JSON.
 */
module CollectionListing {
  import O = Ownership
  import S = OwnershipStore
  import opened Common
  import opened RedisConnection
  import opened RedisKeys
  import opened Permissions
  import opened OwnershipEffects

  datatype Details = Details(filename: string, mime: string, timestamp: int)

  // A listed blob.
  datatype Entry = Entry(perm: char, details: Details)

  type Decoder = string -> Option<Details>

  function InodeReply(h: map<string, S.Field>, b: string): Reply {
    if b in h && h[b].InodeText? then Bulk([h[b].inode.perm] + h[b].inode.json) else Nil
  }

  function AsString(r: Reply): string { if r.Bulk? then r.text else "" }

  // BlobInodeDB::fields(). The empty text is no JSON.
  function Fields(raw: string, decode: Decoder): Option<Entry> {
    if raw == "" then None
    else match decode(raw[1..])
      case Some(details) => Some(Entry(raw[0], details))
      case None => None
  }

  // The filename in the collection overrides the one the blob was uploaded with.
  function Renamed(entry: Entry, filename: string): Entry {
    if filename == "" then entry else entry.(details := entry.details.(filename := filename))
  }

  // One triple, if the requester may see it.
  function Select(blob: string, raw: string, filename: string, requester: UserID, owner: string, decode: Decoder): map<string, Entry> {
    if raw != "" && IsBlob(blob) && Allow(raw[0], requester, owner) && Fields(raw, decode).Some?
    then map[blob := Renamed(Fields(raw, decode).value, filename)]
    else map[]
  }

  function Parsed(reply: seq<Reply>, requester: UserID, owner: string, decode: Decoder): map<string, Entry> {
    if |reply| < 3 then map[]
    else
      Parsed(reply[3..], requester, owner, decode) +
      Select(AsString(reply[0]), AsString(reply[1]), AsString(reply[2]), requester, owner, decode)
  }

  // add_blob() keeps what it has.
  method AddRow(before: map<string, Entry>, blob: string, raw: string, filename: string, requester: UserID, owner: string, decode: Decoder)
    returns (result: map<string, Entry>)
    ensures result == Select(blob, raw, filename, requester, owner, decode) + before
  {
    result := before;
    if raw == "" {
      return;
    }
    if IsBlob(blob) && Allow(raw[0], requester, owner) {
      var fields := Fields(raw, decode);
      if fields.Some? && blob !in result {
        result := result[blob := Renamed(fields.value, filename)];
      }
    }
  }

  method FromReply(reply: seq<Reply>, requester: UserID, owner: string, decode: Decoder) returns (result: map<string, Entry>)
    ensures result == Parsed(reply, requester, owner, decode)
  {
    result := map[];
    var i := 0;
    while i + 2 < |reply|
      invariant 0 <= i <= |reply|
      invariant Parsed(reply[i..], requester, owner, decode) + result == Parsed(reply, requester, owner, decode)
    {
      ghost var rest := reply[i..];
      assert rest[3..] == reply[i + 3..];
      ghost var before := result;
      result := AddRow(result, AsString(reply[i]), AsString(reply[i + 1]), AsString(reply[i + 2]), requester, owner, decode);
      MapsAssociate(
        Parsed(rest[3..], requester, owner, decode),
        Select(AsString(rest[0]), AsString(rest[1]), AsString(rest[2]), requester, owner, decode),
        before);
      i := i + 3;
    }
  }

  lemma MapsAssociate<K, V>(a: map<K, V>, b: map<K, V>, c: map<K, V>)
    ensures (a + b) + c == a + (b + c)
  {}

  // ------------------------------------------------------------------
  // The reply of the scan script
  // ------------------------------------------------------------------

  function Row(names: map<string, S.Field>, inodes: map<string, S.Field>, b: string): seq<Reply>
    requires b in names
  {
    [Bulk(b), InodeReply(inodes, b), Bulk(if names[b].Text? then names[b].text else "")]
  }

  function Flatten(names: map<string, S.Field>, inodes: map<string, S.Field>, order: seq<string>): seq<Reply>
    requires forall i :: 0 <= i < |order| ==> order[i] in names
  {
    if order == [] then [] else Row(names, inodes, order[0]) + Flatten(names, inodes, order[1..])
  }

  lemma {:induction false} FlattenSnoc(names: map<string, S.Field>, inodes: map<string, S.Field>, order: seq<string>, b: string)
    requires (forall i :: 0 <= i < |order| ==> order[i] in names) && b in names
    ensures Flatten(names, inodes, order + [b]) == Flatten(names, inodes, order) + Row(names, inodes, b)
  {
    if order != [] {
      assert (order + [b])[1..] == order[1..] + [b];
      FlattenSnoc(names, inodes, order[1..], b);
    }
  }

  // HGETALL in whatever order, each blob followed by its inode and its filename.
  method ScanCollection(ks: S.Keyspace, owner: string, coll: string) returns (reply: seq<Reply>, ghost order: seq<string>)
    ensures var names := S.HashAt(ks, CollectionKey(owner, coll));
            && Distinct(order) && (forall b :: b in order <==> b in names)
            && (forall i :: 0 <= i < |order| ==> order[i] in names)
            && reply == Flatten(names, S.HashAt(ks, BlobInode(owner)), order)
  {
    var names, inodes := S.HashAt(ks, CollectionKey(owner, coll)), S.HashAt(ks, BlobInode(owner));
    reply, order := [], [];
    var todo := names.Keys;
    while todo != {}
      invariant todo <= names.Keys && Distinct(order)
      invariant forall b :: b in order <==> b in names && b !in todo
      invariant forall i :: 0 <= i < |order| ==> order[i] in names
      invariant reply == Flatten(names, inodes, order)
      decreases todo
    {
      var b :| b in todo;
      reply := reply + Row(names, inodes, b);
      FlattenSnoc(names, inodes, order, b);
      order := order + [b];
      todo := todo - {b};
    }
  }

  ghost predicate Shown(names: map<string, S.Field>, inodes: map<string, S.Field>, b: string, requester: UserID, owner: string, decode: Decoder) {
    && b in names && names[b].Text? && IsBlob(b)
    && b in inodes && inodes[b].InodeText? && Allow(inodes[b].inode.perm, requester, owner)
    && decode(inodes[b].inode.json).Some?
  }

  // What listing blob b should give.
  ghost function RowEntry(names: map<string, S.Field>, inodes: map<string, S.Field>, b: string, decode: Decoder): Entry
    requires b in names && names[b].Text? && b in inodes && inodes[b].InodeText? && decode(inodes[b].inode.json).Some?
  {
    Listed(inodes[b].inode, names[b].text, decode)
  }

  // The entry of an inode under a name.
  ghost function Listed(inode: O.Inode, name: string, decode: Decoder): Entry
    requires decode(inode.json).Some?
  {
    Renamed(Entry(inode.perm, decode(inode.json).value), name)
  }

  lemma SelectRow(names: map<string, S.Field>, inodes: map<string, S.Field>, b: string, requester: UserID, owner: string, decode: Decoder)
    requires b in names && names[b].Text?
    ensures Select(AsString(Row(names, inodes, b)[0]), AsString(Row(names, inodes, b)[1]), AsString(Row(names, inodes, b)[2]), requester, owner, decode)
         == if Shown(names, inodes, b, requester, owner, decode) then map[b := RowEntry(names, inodes, b, decode)] else map[]
  {}

  // The map lists exactly the blobs seen so far that may be shown.
  ghost predicate Lists(m: map<string, Entry>, names: map<string, S.Field>, inodes: map<string, S.Field>,
                        seen: seq<string>, requester: UserID, owner: string, decode: Decoder) {
    forall b ::
      && (b in m <==> b in seen && Shown(names, inodes, b, requester, owner, decode))
      && (b in m ==> m[b] == RowEntry(names, inodes, b, decode))
  }

  lemma ListsOneMore(m: map<string, Entry>, names: map<string, S.Field>, inodes: map<string, S.Field>,
                     seen: seq<string>, x: string, requester: UserID, owner: string, decode: Decoder)
    requires Lists(m, names, inodes, seen, requester, owner, decode)
    ensures Lists(m + (if Shown(names, inodes, x, requester, owner, decode) then map[x := RowEntry(names, inodes, x, decode)] else map[]),
                  names, inodes, [x] + seen, requester, owner, decode)
  {}

  lemma {:induction false} ParsedRows(
    names: map<string, S.Field>, inodes: map<string, S.Field>, order: seq<string>, requester: UserID, owner: string, decode: Decoder)
    requires (forall i :: 0 <= i < |order| ==> order[i] in names) && (forall b :: b in names ==> names[b].Text?)
    ensures Lists(Parsed(Flatten(names, inodes, order), requester, owner, decode), names, inodes, order, requester, owner, decode)
  {
    if order != [] {
      ParsedRows(names, inodes, order[1..], requester, owner, decode);
      SelectRow(names, inodes, order[0], requester, owner, decode);
      var r := Flatten(names, inodes, order);
      assert r[3..] == Flatten(names, inodes, order[1..]);
      assert order == [order[0]] + order[1..];
      ListsOneMore(Parsed(r[3..], requester, owner, decode), names, inodes, order[1..], order[0], requester, owner, decode);
    }
  }

  // ------------------------------------------------------------------
  // The whole round
  // ------------------------------------------------------------------

  // What the requester should see of blob b in the collection, straight from the tables.
  ghost predicate MaySee(db: O.Db, owner: string, coll: string, b: string, requester: UserID, decode: Decoder) {
    && (owner, coll, b) in db.colls && IsBlob(b)
    && (owner, b) in db.inodes && Allow(db.inodes[(owner, b)].perm, requester, owner)
    && decode(db.inodes[(owner, b)].json).Some?
  }

  lemma TablesOf(ks: S.Keyspace, db: O.Db, owner: string, coll: string, b: string, requester: UserID, decode: Decoder)
    requires S.Represents(ks, db) && IsUser(owner)
    ensures var names, inodes := S.HashAt(ks, CollectionKey(owner, coll)), S.HashAt(ks, BlobInode(owner));
            && (b in names ==> names[b].Text?)
            && (Shown(names, inodes, b, requester, owner, decode) <==> MaySee(db, owner, coll, b, requester, decode))
            && (MaySee(db, owner, coll, b, requester, decode) ==>
                 RowEntry(names, inodes, b, decode) == Listed(db.inodes[(owner, b)], db.colls[(owner, coll, b)], decode))
            && (MaySee(db, owner, coll, b, requester, decode) ==> b in names)
  {}

  // The result holds exactly what the requester may see, under the collection's names.
  ghost predicate IsListing(db: O.Db, owner: string, coll: string, requester: UserID, decode: Decoder, result: map<string, Entry>) {
    forall b ::
      && (b in result <==> MaySee(db, owner, coll, b, requester, decode))
      && (b in result ==> result[b] == Listed(db.inodes[(owner, b)], db.colls[(owner, coll, b)], decode))
  }

  method GetCollection(ks: S.Keyspace, owner: string, coll: string, requester: UserID, decode: Decoder, ghost db: O.Db)
    returns (result: map<string, Entry>)
    requires S.Represents(ks, db) && IsUser(owner)
    ensures IsListing(db, owner, coll, requester, decode, result)
  {
    ghost var order;
    result, order := ReadCollection(ks, owner, coll, requester, decode);
    ListingOf(ks, db, owner, coll, requester, decode, order, result);
  }

  // The hash was read in this order and parsed into this result.
  ghost predicate ReadAs(names: map<string, S.Field>, inodes: map<string, S.Field>, order: seq<string>,
                         requester: UserID, owner: string, decode: Decoder, result: map<string, Entry>) {
    && (forall b :: b in order <==> b in names)
    && (forall i :: 0 <= i < |order| ==> order[i] in names)
    && result == Parsed(Flatten(names, inodes, order), requester, owner, decode)
  }

  method ReadCollection(ks: S.Keyspace, owner: string, coll: string, requester: UserID, decode: Decoder)
    returns (result: map<string, Entry>, ghost order: seq<string>)
    ensures ReadAs(S.HashAt(ks, CollectionKey(owner, coll)), S.HashAt(ks, BlobInode(owner)), order, requester, owner, decode, result)
  {
    var reply;
    reply, order := ScanCollection(ks, owner, coll);
    result := FromReply(reply, requester, owner, decode);
  }

  lemma {:induction false} ListingOf(ks: S.Keyspace, db: O.Db, owner: string, coll: string, requester: UserID, decode: Decoder,
                  order: seq<string>, result: map<string, Entry>)
    requires S.Represents(ks, db) && IsUser(owner)
    requires ReadAs(S.HashAt(ks, CollectionKey(owner, coll)), S.HashAt(ks, BlobInode(owner)), order, requester, owner, decode, result)
    ensures IsListing(db, owner, coll, requester, decode, result)
  {
    var names, inodes := S.HashAt(ks, CollectionKey(owner, coll)), S.HashAt(ks, BlobInode(owner));
    forall b ensures b in names ==> names[b].Text? {
      TablesOf(ks, db, owner, coll, b, requester, decode);
    }
    ParsedRows(names, inodes, order, requester, owner, decode);
    forall b
      ensures b in result <==> MaySee(db, owner, coll, b, requester, decode)
      ensures b in result ==> result[b] == Listed(db.inodes[(owner, b)], db.colls[(owner, coll, b)], decode)
    {
      TablesOf(ks, db, owner, coll, b, requester, decode);
    }
  }

  // ------------------------------------------------------------------
  // In every reachable state
  // ------------------------------------------------------------------

  ghost predicate ProperOp(op: O.Op, decode: Decoder) {
    match op
    case LinkOp(u, _, b, entry, _) => IsUser(u) && IsBlob(b) && Known(entry.perm) && decode(entry.json).Some?
    case MoveOp(_, _, _, b) => IsBlob(b)
    case SetPermissionOp(_, _, perm) => Known(perm)
    case _ => true
  }

  ghost predicate Proper(db: O.Db, decode: Decoder) {
    && (forall u, c, b :: (u, c, b) in db.colls ==> IsBlob(b))
    && (forall u, b :: (u, b) in db.inodes ==> IsUser(u) && Known(db.inodes[(u, b)].perm) && decode(db.inodes[(u, b)].json).Some?)
  }

  lemma StepKeepsProper(db: O.Db, op: O.Op, decode: Decoder)
    requires Proper(db, decode) && ProperOp(op, decode)
    ensures Proper(O.Step(db, op, true), decode)
  {
    if op.UnlinkOp? {
      O.UnlinkMembers(db, op.u, op.c, op.b, op.pick);
    }
  }

  lemma {:induction false} RunIsProper(ops: seq<O.Op>, decode: Decoder)
    requires O.ValidRun(ops) && forall i :: 0 <= i < |ops| ==> ProperOp(ops[i], decode)
    ensures Proper(O.Run(ops, true), decode)
    decreases |ops|
  {
    if ops != [] {
      RunIsProper(ops[..|ops| - 1], decode);
      StepKeepsProper(O.Run(ops[..|ops| - 1], true), ops[|ops| - 1], decode);
    }
  }

  // The member is shown with its own permission and details, and under the collection's name for
  // it unless that is empty.
  ghost predicate ShownAs(inode: O.Inode, name: string, decode: Decoder, entry: Entry) {
    && decode(inode.json).Some? && entry.perm == inode.perm
    && entry.details.mime == decode(inode.json).value.mime && entry.details.timestamp == decode(inode.json).value.timestamp
    && (name != "" ==> entry.details.filename == name)
    && (name == "" ==> entry.details.filename == decode(inode.json).value.filename)
  }

  /**
  What a listing shows, in every reachable state, requester by requester. The owner sees every
  member, unless as a guest. Guests and other signed-in users see the public and the shared ones.
  Anybody else sees the public ones, and with the owner's name but no session the private ones too.
   */
  lemma {:induction false} ListingIsComplete(
    ops: seq<O.Op>, owner: string, coll: string, requester: UserID, decode: Decoder, result: map<string, Entry>, b: string)
    requires O.ValidRun(ops) && forall i :: 0 <= i < |ops| ==> ProperOp(ops[i], decode)
    requires IsListing(O.Run(ops, true), owner, coll, requester, decode, result)
    ensures var db := O.Run(ops, true);
            var signedIn := requester.hasSession && requester.name != "";
            && ((owner, coll, b) !in db.colls ==> b !in result)
            && ((owner, coll, b) in db.colls ==>
                 && (owner, b) in db.inodes
                 && (b in result ==> ShownAs(db.inodes[(owner, b)], db.colls[(owner, coll, b)], decode, result[b]))
                 && var perm := db.inodes[(owner, b)].perm;
                    && (signedIn && !requester.guest && requester.name == owner ==> b in result)
                    && (requester.guest || (signedIn && requester.name != owner) ==> (b in result <==> perm == '*' || perm == '+'))
                    && (!requester.guest && !signedIn && requester.name != owner ==> (b in result <==> perm == '*'))
                    && (!requester.guest && !signedIn && requester.name == owner ==> (b in result <==> perm == '*' || perm == ' ')))
  {
    RunIsProper(ops, decode);
    O.Reachable(ops);
    var db := O.Run(ops, true);
    assert b in result <==> MaySee(db, owner, coll, b, requester, decode);
    if (owner, coll, b) in db.colls {
      assert (owner, b, coll) in db.refs;
      assert O.HasRef(db, owner, b);
      assert (owner, b) in db.inodes;
    }
  }

  // After a move of a member the destination lists it exactly as the source did, and the source
  // no longer does.
  lemma MoveCarriesListing(
    db: O.Db, owner: string, src: string, dest: string, b: string, requester: UserID, decode: Decoder,
    before: map<string, Entry>, left: map<string, Entry>, arrived: map<string, Entry>)
    requires src != dest && (owner, src, b) in db.colls
    requires IsListing(db, owner, src, requester, decode, before)
    requires var t := O.Step(db, O.MoveOp(owner, src, dest, b), true);
             IsListing(t, owner, src, requester, decode, left) && IsListing(t, owner, dest, requester, decode, arrived)
    ensures b !in left && (b in arrived <==> b in before) && (b in before ==> arrived[b] == before[b])
    ensures forall x :: x != b ==> (x in left <==> x in before) && (x in before ==> left[x] == before[x])
  {
    MoveEffect(db, owner, src, dest, b, true);
    var t := O.Step(db, O.MoveOp(owner, src, dest, b), true);
    forall x | x != b ensures (x in left <==> x in before) && (x in before ==> left[x] == before[x]) {
      assert SameAt(t.colls, db.colls, (owner, src, x));
    }
  }

  // Every row of the public list resolves to an inode and at least one collection.
  lemma PublicRowsResolve(ops: seq<O.Op>, x: (string, string))
    requires O.ValidRun(ops) && x in O.Run(ops, true).public
    ensures var db := O.Run(ops, true);
            x in db.inodes && db.inodes[x].perm == '*' && exists c :: (x.0, x.1, c) in db.refs && (x.0, c, x.1) in db.colls
  {
    O.Reachable(ops);
    var db := O.Run(ops, true);
    assert (x.0, x.1) in db.inodes;
    var c :| (x.0, x.1, c) in db.refs;
    assert (x.0, c, x.1) in db.colls;
  }
}
