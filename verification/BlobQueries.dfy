/**
Where a blob is used, and which blobs are public (query_blob and list_public_blobs in
src/server/hrb/Ownership.ipp): a script collects rows, and the server parses and filters them.
 */
module BlobQueries {
  import O = Ownership
  import S = OwnershipStore
  import opened Common
  import opened RedisConnection
  import opened RedisKeys
  import opened CollectionListing

  // The entry of a blob under the name it was uploaded with, if its inode can be read.
  ghost function Readable(db: O.Db, x: (string, string), decode: Decoder): Option<Entry> {
    if x in db.inodes && decode(db.inodes[x].json).Some?
    then Some(Entry(db.inodes[x].perm, decode(db.inodes[x].json).value))
    else None
  }

  lemma InodeReadBack(ks: S.Keyspace, db: O.Db, u: string, b: string, decode: Decoder)
    requires S.Represents(ks, db)
    ensures Fields(AsString(InodeReply(S.HashAt(ks, BlobInode(u)), b)), decode) == Readable(db, (u, b), decode)
  {}

  // ------------------------------------------------------------------
  // query_blob()
  // ------------------------------------------------------------------

  function Pairs(colls: seq<string>, inode: Reply): seq<Reply> {
    if colls == [] then [] else [Bulk(colls[0]), inode] + Pairs(colls[1..], inode)
  }

  function ParsedPairs(reply: seq<Reply>, decode: Decoder): seq<(string, Entry)> {
    if |reply| < 2 then []
    else
      match Fields(AsString(reply[1]), decode)
      case Some(entry) => [(AsString(reply[0]), entry)] + ParsedPairs(reply[2..], decode)
      case None => ParsedPairs(reply[2..], decode)
  }

  lemma {:induction false} PairsSnoc(colls: seq<string>, c: string, inode: Reply)
    ensures Pairs(colls + [c], inode) == Pairs(colls, inode) + [Bulk(c), inode]
  {
    if colls != [] {
      assert (colls + [c])[1..] == colls[1..] + [c];
      PairsSnoc(colls[1..], c, inode);
    }
  }

  lemma {:induction false} PairsParsed(colls: seq<string>, inode: Reply, decode: Decoder)
    ensures var parsed := ParsedPairs(Pairs(colls, inode), decode);
            match Fields(AsString(inode), decode)
            case Some(entry) => |parsed| == |colls| && forall i :: 0 <= i < |colls| ==> parsed[i] == (colls[i], entry)
            case None => parsed == []
  {
    if colls != [] {
      PairsParsed(colls[1..], inode, decode);
      assert Pairs(colls, inode)[2..] == Pairs(colls[1..], inode);
    }
  }

  // SMEMBERS in whatever order.
  method ScanRefs(ks: S.Keyspace, u: string, b: string) returns (reply: seq<Reply>, ghost colls: seq<string>)
    ensures Distinct(colls) && forall c :: c in colls <==> c in S.SetAt(ks, BlobRefs(u, b))
    ensures reply == Pairs(colls, InodeReply(S.HashAt(ks, BlobInode(u)), b))
  {
    var inode := InodeReply(S.HashAt(ks, BlobInode(u)), b);
    var todo := S.SetAt(ks, BlobRefs(u, b));
    reply, colls := [], [];
    while todo != {}
      invariant todo <= S.SetAt(ks, BlobRefs(u, b)) && Distinct(colls)
      invariant forall c :: c in colls <==> c in S.SetAt(ks, BlobRefs(u, b)) && c !in todo
      invariant reply == Pairs(colls, inode)
      decreases todo
    {
      var c :| c in todo;
      PairsSnoc(colls, c, inode);
      reply := reply + [Bulk(c), inode];
      colls := colls + [c];
      todo := todo - {c};
    }
  }

  // The blob's collections, each once and with the blob's entry; nothing if that is unreadable.
  ghost predicate IsQuery(db: O.Db, u: string, b: string, decode: Decoder, result: seq<(string, Entry)>) {
    && Distinct(result)
    && forall c, e :: (c, e) in result <==> (u, b, c) in db.refs && Readable(db, (u, b), decode) == Some(e)
  }

  method QueryBlob(ks: S.Keyspace, u: string, b: string, decode: Decoder, ghost db: O.Db) returns (result: seq<(string, Entry)>)
    requires S.Represents(ks, db) && IsUser(u) && IsBlob(b)
    ensures IsQuery(db, u, b, decode, result)
  {
    var reply, colls := ScanRefs(ks, u, b);
    result := ParsedPairs(reply, decode);
    PairsParsed(colls, InodeReply(S.HashAt(ks, BlobInode(u)), b), decode);
    InodeReadBack(ks, db, u, b, decode);
    assert forall c :: (u, b, c) in db.refs <==> c in colls;
    QueryOf(db, u, b, decode, colls, result);
  }

  lemma QueryOf(db: O.Db, u: string, b: string, decode: Decoder, colls: seq<string>, result: seq<(string, Entry)>)
    requires Distinct(colls) && forall c :: (u, b, c) in db.refs <==> c in colls
    requires match Readable(db, (u, b), decode)
             case Some(entry) => |result| == |colls| && forall i :: 0 <= i < |colls| ==> result[i] == (colls[i], entry)
             case None => result == []
    ensures IsQuery(db, u, b, decode, result)
  {
    forall c, e ensures (c, e) in result <==> (u, b, c) in db.refs && Readable(db, (u, b), decode) == Some(e) {
      if c in colls && Readable(db, (u, b), decode) == Some(e) {
        var i :| 0 <= i < |colls| && colls[i] == c;
        assert result[i] == (c, e);
      }
    }
  }

  // In every reachable state the answer names exactly the collections that hold the blob.
  lemma QueryFindsAll(ops: seq<O.Op>, u: string, b: string, decode: Decoder, result: seq<(string, Entry)>, c: string)
    requires O.ValidRun(ops) && forall i :: 0 <= i < |ops| ==> ProperOp(ops[i], decode)
    requires IsQuery(O.Run(ops, true), u, b, decode, result)
    ensures (exists e :: (c, e) in result) <==> (u, c, b) in O.Run(ops, true).colls
  {
    var db := O.Run(ops, true);
    RunIsProper(ops, decode);
    O.Reachable(ops);
    if (u, c, b) in db.colls {
      assert (u, b, c) in db.refs;
      assert O.HasRef(db, u, b);
      assert (u, b) in db.inodes;
      assert (c, Readable(db, (u, b), decode).value) in result;
    }
  }

  // ------------------------------------------------------------------
  // list_public_blobs()
  // ------------------------------------------------------------------

  datatype PublicBlob = PublicBlob(owner: string, coll: string, blob: string, entry: Entry)

  // SRANDMEMBER may answer any member.
  ghost predicate AnyMember(s: set<string>, r: Reply) {
    if s == {} then r == Nil else r.Bulk? && r.text in s
  }

  ghost predicate IsRow(ks: S.Keyspace, x: (string, string), row: Reply) {
    && row.Array? && |row.elements| == 4
    && row.elements[0] == Bulk(x.0) && row.elements[1] == Bulk(x.1)
    && AnyMember(S.SetAt(ks, BlobRefs(x.0, x.1)), row.elements[2])
    && row.elements[3] == InodeReply(S.HashAt(ks, BlobInode(x.0)), x.1)
  }

  method ScanPublic(ks: S.Keyspace) returns (reply: seq<Reply>)
    ensures var list := S.ListAt(ks, PublicBlobs());
            |reply| == |list| && forall i :: 0 <= i < |list| ==> IsRow(ks, list[i], reply[i])
  {
    var list := S.ListAt(ks, PublicBlobs());
    reply := [];
    for i := 0 to |list|
      invariant |reply| == i && forall j :: 0 <= j < i ==> IsRow(ks, list[j], reply[j])
    {
      var refs := S.SetAt(ks, "blob-refs:" + list[i].0 + ":" + list[i].1);
      var coll := Nil;
      if refs != {} {
        var c :| c in refs;
        coll := Bulk(c);
      }
      reply := reply + [Array([Bulk(list[i].0), Bulk(list[i].1), coll, InodeReply(S.HashAt(ks, "blob-inodes:" + list[i].0), list[i].1)])];
    }
  }

  function ParsedRow(row: Reply, decode: Decoder): Option<PublicBlob> {
    if !row.Array? || |row.elements| < 4 || !IsBlob(AsString(row.elements[1])) then None
    else
      match Fields(AsString(row.elements[3]), decode)
      case Some(entry) =>
        Some(PublicBlob(AsString(row.elements[0]), AsString(row.elements[2]), AsString(row.elements[1]), entry))
      case None => None
  }

  function ParsedList(reply: seq<Reply>, decode: Decoder): seq<PublicBlob> {
    if reply == [] then []
    else
      match ParsedRow(reply[0], decode)
      case Some(blob) => [blob] + ParsedList(reply[1..], decode)
      case None => ParsedList(reply[1..], decode)
  }

  // The part of the public list that can be shown.
  ghost function Visible(db: O.Db, list: seq<(string, string)>, decode: Decoder): seq<(string, string)> {
    if list == [] then []
    else
      (if IsBlob(list[0].1) && Readable(db, list[0], decode).Some? then [list[0]] else []) + Visible(db, list[1..], decode)
  }

  ghost predicate ShowsBlob(db: O.Db, x: (string, string), decode: Decoder, blob: PublicBlob) {
    && (blob.owner, blob.blob) == x && Readable(db, x, decode) == Some(blob.entry)
    && (O.HasRef(db, x.0, x.1) ==> (x.0, x.1, blob.coll) in db.refs)
  }

  ghost predicate ShowsList(db: O.Db, list: seq<(string, string)>, decode: Decoder, result: seq<PublicBlob>) {
    |result| == |list| && forall i :: 0 <= i < |list| ==> ShowsBlob(db, list[i], decode, result[i])
  }

  // What parsing the row of blob x must give.
  ghost predicate RowShows(db: O.Db, x: (string, string), decode: Decoder, parsed: Option<PublicBlob>) {
    match parsed
    case Some(blob) => IsBlob(x.1) && ShowsBlob(db, x, decode, blob)
    case None => !(IsBlob(x.1) && Readable(db, x, decode).Some?)
  }

  lemma RowParsed(ks: S.Keyspace, db: O.Db, x: (string, string), row: Reply, decode: Decoder)
    requires S.Represents(ks, db) && IsUser(x.0) && IsRow(ks, x, row)
    ensures RowShows(db, x, decode, ParsedRow(row, decode))
  {
    InodeReadBack(ks, db, x.0, x.1, decode);
    assert IsBlob(x.1) ==> forall c :: (x.0, x.1, c) in db.refs <==> c in S.SetAt(ks, BlobRefs(x.0, x.1));
  }

  lemma {:induction false} ListParsed(db: O.Db, list: seq<(string, string)>, reply: seq<Reply>, decode: Decoder)
    requires |reply| == |list| && forall i :: 0 <= i < |list| ==> RowShows(db, list[i], decode, ParsedRow(reply[i], decode))
    ensures ShowsList(db, Visible(db, list, decode), decode, ParsedList(reply, decode))
  {
    if list != [] {
      assert RowShows(db, list[0], decode, ParsedRow(reply[0], decode));
      ListParsed(db, list[1..], reply[1..], decode);
    }
  }

  method ListPublicBlobs(ks: S.Keyspace, decode: Decoder, ghost db: O.Db) returns (result: seq<PublicBlob>)
    requires S.Represents(ks, db) && forall i :: 0 <= i < |db.public| ==> IsUser(db.public[i].0)
    ensures ShowsList(db, Visible(db, db.public, decode), decode, result)
  {
    var reply := ScanPublic(ks);
    result := ParsedList(reply, decode);
    forall i | 0 <= i < |reply| ensures RowShows(db, db.public[i], decode, ParsedRow(reply[i], decode)) {
      RowParsed(ks, db, db.public[i], reply[i], decode);
    }
    ListParsed(db, db.public, reply, decode);
  }

  lemma {:induction false} AllVisible(db: O.Db, list: seq<(string, string)>, decode: Decoder)
    requires forall i :: 0 <= i < |list| ==> IsBlob(list[i].1) && Readable(db, list[i], decode).Some?
    ensures Visible(db, list, decode) == list
  {
    if list != [] {
      AllVisible(db, list[1..], decode);
    }
  }

  // In every reachable state all public blobs are shown: at most 100, none twice, each public and
  // each with a collection that holds it.
  lemma {:induction false} PublicPage(ops: seq<O.Op>, decode: Decoder, result: seq<PublicBlob>)
    requires O.ValidRun(ops) && forall i :: 0 <= i < |ops| ==> ProperOp(ops[i], decode)
    requires var db := O.Run(ops, true); ShowsList(db, Visible(db, db.public, decode), decode, result)
    ensures var db := O.Run(ops, true);
            && |result| == |db.public| <= 100 && Distinct(db.public)
            && forall i :: 0 <= i < |result| ==>
                 && IsUser(db.public[i].0)
                 && (result[i].owner, result[i].blob) == db.public[i] && result[i].entry.perm == '*'
                 && (result[i].owner, result[i].coll, result[i].blob) in db.colls
  {
    var db := O.Run(ops, true);
    RunIsProper(ops, decode);
    O.Reachable(ops);
    forall i | 0 <= i < |db.public|
      ensures IsUser(db.public[i].0) && IsBlob(db.public[i].1) && Readable(db, db.public[i], decode).Some?
      ensures db.inodes[db.public[i]].perm == '*' && O.HasRef(db, db.public[i].0, db.public[i].1)
    {
      PublicRowsResolve(ops, db.public[i]);
    }
    AllVisible(db, db.public, decode);
  }
}
