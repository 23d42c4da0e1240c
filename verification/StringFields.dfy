/**
Field lookup in "name=value" lists and cookies (src/common/util/StringFields.hh and Cookie.cc;
section 4.2.2 of RFC 2109).
 */
module StringFields {
  import opened Common
  import opened Escape

  // Separators between fields, and whether names are trimmed. '=' splits name from value.
  datatype Format = Format(separators: string, trim: bool) {
    predicate Valid() { '=' !in separators }
    function AllDelims(): string { "=" + separators }
  }

  const URL_FORM := Format(";&", false)
  const COOKIE := Format(";", true)

  predicate IsSpace(c: char) { c == ' ' || 9 <= c as int <= 13 }

  function TrimFront(s: string): string { if s != [] && IsSpace(s[0]) then TrimFront(s[1..]) else s }

  function TrimBack(s: string): string { if s != [] && IsSpace(s[|s| - 1]) then TrimBack(s[..|s| - 1]) else s }

  // ------------------------------------------------------------------
  // What a lookup means: split on the separators, split each piece at its first '=', and the
  // last piece with the right name wins
  // ------------------------------------------------------------------

  function Pieces(s: string, separators: string): seq<string> {
    var k := FirstOf(s, separators);
    if k == |s| then [s] else [s[..k]] + Pieces(s[k + 1..], separators)
  }

  function NameOf(piece: string, trim: bool): string {
    var name := piece[..FirstOf(piece, "=")];
    if trim then TrimBack(TrimFront(name)) else name
  }

  function ValueOf(piece: string): string { RestAfter(piece, "=") }

  function LastMatch(pieces: seq<string>, trim: bool, field: string): Option<string> {
    if pieces == [] then None
    else
      var rest := LastMatch(pieces[1..], trim, field);
      if rest.Some? then rest else if NameOf(pieces[0], trim) == field then Some(ValueOf(pieces[0])) else None
  }

  function Lookup(s: string, f: Format, field: string): Option<string> {
    LastMatch(Pieces(s, f.separators), f.trim, field)
  }

  // ------------------------------------------------------------------
  // The one-pass scan
  // ------------------------------------------------------------------

  lemma DelimsOf(f: Format, c: char)
    ensures c in f.AllDelims() <==> c == '=' || c in f.separators
  {}

  lemma EqualsComesFirst(s: string, f: Format)
    requires f.Valid() && Match(s, FirstOf(s, f.AllDelims())) == '='
    ensures var j := FirstOf(s, f.AllDelims());
            j < |s| && s[j] == '=' && j < FirstOf(s, f.separators) && forall i :: 0 <= i < j ==> s[i] != '='
  {
    var j := FirstOf(s, f.AllDelims());
    forall i | 0 <= i < j ensures s[i] != '=' && s[i] !in f.separators {
      DelimsOf(f, s[i]);
    }
    NoneUpTo(s, f.separators, j);
  }

  lemma {:induction false} NoneUpTo(s: string, value: string, j: nat)
    requires j < |s| && forall i :: 0 <= i <= j ==> s[i] !in value
    ensures j < FirstOf(s, value)
  {}

  // Texts that agree up to a match have it at the same place.
  lemma {:induction false} FirstOfSame(s: string, t: string, value: string)
    requires FirstOf(s, value) < |s| && FirstOf(s, value) < |t|
    requires s[..FirstOf(s, value)] == t[..FirstOf(s, value)] && t[FirstOf(s, value)] in value
    ensures FirstOf(t, value) == FirstOf(s, value)
  {
    var k := FirstOf(s, value);
    forall i | 0 <= i < k ensures t[i] !in value {
      assert t[i] == t[..k][i] == s[..k][i] == s[i];
    }
    FirstOfIs(t, value, k);
  }

  lemma CutName(piece: string, j: nat)
    requires j < |piece| && piece[j] == '=' && forall i :: 0 <= i < j ==> piece[i] != '='
    ensures FirstOf(piece, "=") == j && ValueOf(piece) == piece[j + 1..]
  {}

  lemma {:induction false} CutValue(s: string, separators: string, j: nat)
    requires j < FirstOf(s, separators)
    ensures FirstOf(s[j + 1..], separators) == FirstOf(s, separators) - j - 1
    ensures RestAfter(s[j + 1..], separators) == RestAfter(s, separators)
  {
    FirstOfDrop(s, separators, j + 1);
    if FirstOf(s, separators) < |s| {
      DropTwice(s, j + 1, FirstOf(s, separators) - j);
    }
  }

  lemma DropTwice(s: string, a: nat, b: nat)
    requires a + b <= |s|
    ensures s[a..][b..] == s[a + b..]
  {}

  lemma {:induction false} FirstOfDrop(s: string, value: string, j: nat)
    requires j <= FirstOf(s, value)
    ensures FirstOf(s[j..], value) == FirstOf(s, value) - j
  {}

  lemma CutPiece(s: string, separators: string, j: nat)
    requires j < FirstOf(s, separators) && s[j] == '=' && forall i :: 0 <= i < j ==> s[i] != '='
    ensures var piece := s[..FirstOf(s, separators)];
            && s[..j] == piece[..FirstOf(piece, "=")]
            && s[j + 1..][..FirstOf(s[j + 1..], separators)] == ValueOf(piece)
            && RestAfter(s[j + 1..], separators) == RestAfter(s, separators)
  {
    var piece := s[..FirstOf(s, separators)];
    CutName(piece, j);
    CutValue(s, separators, j);
    assert s[j + 1..][..|piece| - j - 1] == piece[j + 1..];
  }

  // A piece with '=': the name ends there and the value runs to the next separator.
  lemma {:induction false} PieceWithValue(s: string, f: Format)
    requires f.Valid() && Match(s, FirstOf(s, f.AllDelims())) == '='
    ensures var j, piece := FirstOf(s, f.AllDelims()), s[..FirstOf(s, f.separators)];
            && j < |s| && s[..j] == piece[..FirstOf(piece, "=")]
            && s[j + 1..][..FirstOf(s[j + 1..], f.separators)] == ValueOf(piece)
            && RestAfter(s[j + 1..], f.separators) == RestAfter(s, f.separators)
  {
    EqualsComesFirst(s, f);
    CutPiece(s, f.separators, FirstOf(s, f.AllDelims()));
  }

  // A piece without '=' is all name.
  lemma PieceWithoutValue(s: string, f: Format)
    requires f.Valid() && Match(s, FirstOf(s, f.AllDelims())) != '='
    ensures var j, piece := FirstOf(s, f.AllDelims()), s[..FirstOf(s, f.separators)];
            && s[..j] == piece[..FirstOf(piece, "=")] && ValueOf(piece) == ""
            && RestAfter(s, f.AllDelims()) == RestAfter(s, f.separators)
  {
    var j := FirstOf(s, f.AllDelims());
    forall i | 0 <= i <= j && i < |s| ensures s[i] in f.AllDelims() <==> s[i] == '=' || s[i] in f.separators {
      DelimsOf(f, s[i]);
    }
    FirstOfIs(s, f.separators, j);
    FirstOfIs(s[..j], "=", j);
  }

  // One turn of the scan takes off exactly one piece.
  method TakePiece(s: string, f: Format) returns (name: string, value: string, remain: string)
    requires f.Valid()
    ensures var piece := s[..FirstOf(s, f.separators)];
            name == NameOf(piece, f.trim) && value == ValueOf(piece) && remain == RestAfter(s, f.separators)
  {
    var match_, rest;
    name, match_, rest := SplitLeft(s, f.AllDelims());
    remain, value := rest, "";
    if match_ == '=' {
      PieceWithValue(s, f);
      var sep;
      value, sep, remain := SplitLeft(rest, f.separators);
    } else {
      PieceWithoutValue(s, f);
    }
    name := Trimmed(name, f.trim);
  }

  method Trimmed(input: string, trim: bool) returns (name: string)
    ensures name == if trim then TrimBack(TrimFront(input)) else input
  {
    name := input;
    while trim && name != [] && IsSpace(name[0])
      invariant TrimFront(name) == TrimFront(input) && (!trim ==> name == input)
      decreases |name|
    {
      name := name[1..];
    }
    while trim && name != [] && IsSpace(name[|name| - 1])
      invariant trim ==> TrimBack(name) == TrimBack(TrimFront(input))
      invariant !trim ==> name == input
      decreases |name|
    {
      name := name[..|name| - 1];
    }
  }

  function Merge(first: Option<string>, second: Option<string>): Option<string> {
    if second.Some? then second else first
  }

  function Found(piece: string, f: Format, field: string): Option<string> {
    if NameOf(piece, f.trim) == field then Some(ValueOf(piece)) else None
  }

  // What the scan computes: it stops as soon as nothing is left.
  function Scan(s: string, f: Format, field: string): Option<string>
    decreases |s|
  {
    if s == [] then None
    else Merge(Found(s[..FirstOf(s, f.separators)], f, field), Scan(RestAfter(s, f.separators), f, field))
  }

  // Closing a text with a separator adds one empty piece.
  lemma {:induction false} PiecesClosed(t: string, c: char, separators: string)
    requires c in separators
    ensures Pieces(t + [c], separators) == Pieces(t, separators) + [""]
    decreases |t|
  {
    var s, k := t + [c], FirstOf(t, separators);
    assert forall i :: 0 <= i < |t| ==> s[i] == t[i];
    FirstOfIs(s, separators, k);
    if k == |t| {
      assert s[..k] == t && s[k + 1..] == "" && Pieces("", separators) == [""];
    } else {
      assert s[..k] == t[..k] && s[k + 1..] == t[k + 1..] + [c];
      PiecesClosed(t[k + 1..], c, separators);
      Associate([t[..k]], Pieces(t[k + 1..], separators), [""]);
    }
  }

  // So a lookup finds what it found before, and under the empty name that empty piece.
  lemma LookupClosed(t: string, c: char, f: Format, field: string)
    requires c in f.separators
    ensures Lookup(t + [c], f, field) == if field == "" then Some("") else Lookup(t, f, field)
  {
    PiecesClosed(t, c, f.separators);
    LastMatchAppend(Pieces(t, f.separators), "", f.trim, field);
    assert FirstOf("", "=") == 0;
  }

  // A closing separator, which the scan does not look behind.
  function Unclosed(s: string, f: Format): string {
    if s != "" && s[|s| - 1] in f.separators then s[..|s| - 1] else s
  }

  lemma UnclosedPiece(s: string, f: Format)
    requires s != "" && RestAfter(s, f.separators) == ""
    ensures Unclosed(s, f) == s[..FirstOf(s, f.separators)]
  {
    var k := FirstOf(s, f.separators);
    assert k == |s| || k == |s| - 1;
  }

  lemma UnclosedTail(s: string, f: Format, k: nat)
    requires k + 1 < |s|
    ensures Unclosed(s, f)[..k] == s[..k] && Unclosed(s, f)[k] == s[k]
    ensures Unclosed(s, f)[k + 1..] == Unclosed(s[k + 1..], f)
  {
    var rest := s[k + 1..];
    assert rest[|rest| - 1] == s[|s| - 1];
  }

  lemma {:induction false} UnclosedParts(s: string, f: Format)
    requires RestAfter(s, f.separators) != ""
    ensures var k := FirstOf(s, f.separators);
            && k < |Unclosed(s, f)| && FirstOf(Unclosed(s, f), f.separators) == k
            && Unclosed(s, f)[..k] == s[..k] && Unclosed(s, f)[k + 1..] == Unclosed(RestAfter(s, f.separators), f)
  {
    var k := FirstOf(s, f.separators);
    UnclosedTail(s, f, k);
    FirstOfSame(s, Unclosed(s, f), f.separators);
  }

  lemma OnePiece(s: string, f: Format, field: string)
    requires FirstOf(s, f.separators) == |s|
    ensures Lookup(s, f, field) == Found(s, f, field)
  {
    assert [s][1..] == [] && LastMatch([], f.trim, field) == None;
  }

  lemma LastMatchFirst(piece: string, rest: seq<string>, f: Format, field: string)
    ensures LastMatch([piece] + rest, f.trim, field) == Merge(Found(piece, f, field), LastMatch(rest, f.trim, field))
  {
    assert ([piece] + rest)[1..] == rest;
  }

  lemma {:induction false} FirstPiece(s: string, f: Format, field: string)
    requires FirstOf(s, f.separators) < |s|
    ensures var k := FirstOf(s, f.separators);
            Lookup(s, f, field) == Merge(Found(s[..k], f, field), Lookup(s[k + 1..], f, field))
  {
    var k := FirstOf(s, f.separators);
    LastMatchFirst(s[..k], Pieces(s[k + 1..], f.separators), f, field);
  }

  // The one-pass scan answers, for every name, what splitting the text without its closing
  // separator would answer; an empty text has no fields at all.
  lemma {:induction false} ScanIsLookupUnclosed(s: string, f: Format, field: string)
    ensures Scan(s, f, field) == if s == "" then None else Lookup(Unclosed(s, f), f, field)
    decreases |s|
  {
    if s != "" {
      var k, rest := FirstOf(s, f.separators), RestAfter(s, f.separators);
      ScanIsLookupUnclosed(rest, f, field);
      if rest == "" {
        UnclosedPiece(s, f);
        FirstOfIs(s[..k], f.separators, k);
        OnePiece(s[..k], f, field);
      } else {
        UnclosedParts(s, f);
        FirstPiece(Unclosed(s, f), f, field);
      }
    }
  }

  // The scan answers what splitting the whole text would answer for every nonempty name, and for
  // the empty one exactly if the text ends in a field, or the last unnamed field before the
  // closing separator is empty too.
  lemma {:induction false} ScanIsLookupIff(s: string, f: Format, field: string)
    ensures Scan(s, f, field) == Lookup(s, f, field) <==>
      field != "" || (s != "" && (s[|s| - 1] !in f.separators || Lookup(Unclosed(s, f), f, "") == Some("")))
  {
    ScanIsLookupUnclosed(s, f, field);
    LookupUnclosed(s, f, field);
  }

  lemma {:induction false} LookupUnclosed(s: string, f: Format, field: string)
    ensures Lookup(s, f, field) ==
      if field == "" && (s == "" || s[|s| - 1] in f.separators) then Some("")
      else if s == "" then None
      else Lookup(Unclosed(s, f), f, field)
  {
    if s == "" {
      LookupEmpty(f, field);
    } else if s[|s| - 1] in f.separators {
      var n := |s| - 1;
      assert s == s[..n] + [s[n]];
      LookupClosed(s[..n], s[n], f, field);
    }
  }

  lemma LookupEmpty(f: Format, field: string)
    ensures Lookup("", f, field) == if field == "" then Some("") else None
  {
    OnePiece("", f, field);
    assert FirstOf("", "=") == 0;
  }

  // They do differ for the empty name: the scan does not look at a trailing empty piece.
  lemma {:induction false} EmptyNameDiffers()
    ensures Lookup("a=1;", COOKIE, "") == Some("") && Scan("a=1;", COOKIE, "") == None
  {
    var s := "a=1;";
    FirstOfIs(s, ";", 3);
    assert s[..3] == "a=1" && s[4..] == "";
    assert Pieces("", ";") == [""];
    assert Pieces(s, ";") == ["a=1"] + [""];
    LastMatchAppend(["a=1"], "", true, "");
    assert FirstOf("", "=") == 0;
    FirstOfIs("a=1", "=", 1);
    assert "a=1"[..1] == "a";
  }

  // match_field(): the first field with this name gets the value.
  method MatchField(result: seq<Option<string>>, fields: seq<string>, name: string, value: string)
    returns (r: seq<Option<string>>)
    requires |result| == |fields|
    ensures |r| == |fields|
    ensures forall i :: 0 <= i < |fields| && FirstNamed(fields, i) ==>
      r[i] == if fields[i] == name then Some(value) else result[i]
    ensures forall i :: 0 <= i < |fields| && !FirstNamed(fields, i) ==> r[i] == result[i]
  {
    r := result;
    var i := 0;
    while i < |fields| && fields[i] != name
      invariant 0 <= i <= |fields| && forall j :: 0 <= j < i ==> fields[j] != name
    {
      i := i + 1;
    }
    if i < |fields| {
      r := r[i := Some(value)];
    }
  }

  predicate FirstNamed(fields: seq<string>, i: nat)
    requires i < |fields|
  {
    forall j :: 0 <= j < i ==> fields[j] != fields[i]
  }

  method BasicFind(s: string, f: Format, fields: seq<string>) returns (result: seq<Option<string>>)
    requires f.Valid()
    ensures |result| == |fields|
    ensures forall i :: 0 <= i < |fields| && FirstNamed(fields, i) ==> result[i] == Scan(s, f, fields[i])
    ensures forall i :: 0 <= i < |fields| && !FirstNamed(fields, i) ==> result[i] == None
  {
    result := seq(|fields|, _ => None);
    var remain := s;
    while remain != []
      invariant |result| == |fields|
      invariant forall i :: 0 <= i < |fields| && !FirstNamed(fields, i) ==> result[i] == None
      invariant forall i :: 0 <= i < |fields| && FirstNamed(fields, i) ==> Merge(result[i], Scan(remain, f, fields[i])) == Scan(s, f, fields[i])
      decreases |remain|
    {
      var name, value;
      name, value, remain := TakePiece(remain, f);
      result := MatchField(result, fields, name, value);
    }
  }

  // ------------------------------------------------------------------
  // Cookies
  // ------------------------------------------------------------------

  function Added(header: string, id: string, value: string): string {
    (if header == "" then "" else header + "; ") + id + (if value == "" then "" else "=" + value)
  }

  predicate CleanName(id: string) {
    id != "" && ';' !in id && '=' !in id && !IsSpace(id[0]) && !IsSpace(id[|id| - 1])
  }

  predicate CleanValue(value: string) { ';' !in value }

  class Cookie {
    var header: string

    constructor (header: string)
      ensures this.header == header
    {
      this.header := header;
    }

    method Add(id: string, value: string)
      modifies this
      ensures header == Added(old(header), id, value)
      ensures value != "" ==> header == (if old(header) == "" then "" else old(header) + "; ") + (id + "=" + value)
      ensures value == "" ==> header == (if old(header) == "" then "" else old(header) + "; ") + id
    {
      if header != "" {
        header := header + "; ";
      }
      header := header + id;
      if value != "" {
        header := header + "=";
        header := header + value;
      }
    }

    method Field(id: string) returns (value: string)
      ensures value == match Scan(header, COOKIE, id) case Some(v) => v case None => ""
    {
      var r := BasicFind(header, COOKIE, [id]);
      assert [id][0] == id;
      value := if r[0].Some? then r[0].value else "";
    }

    method Has(id: string) returns (found: bool)
      ensures found == Scan(header, COOKIE, id).Some?
    {
      var r := BasicFind(header, COOKIE, [id]);
      assert [id][0] == id;
      found := r[0].Some?;
    }
  }

  lemma FirstSeparator(h: string, c: char, p: string, separators: string)
    requires c in separators
    ensures FirstOf(h + [c] + p, separators) == FirstOf(h, separators)
  {
    var s := h + [c] + p;
    assert forall i :: 0 <= i < |h| ==> s[i] == h[i];
    FirstOfIs(s, separators, FirstOf(h, separators));
  }

  lemma CutAppended(h: string, c: char, p: string, k: nat)
    requires k <= |h|
    ensures (h + [c] + p)[..k] == h[..k] && (k == |h| ==> h[..k] == h)
    ensures (h + [c] + p)[k + 1..] == if k == |h| then p else h[k + 1..] + [c] + p
  {}

  lemma {:induction false} PiecesFrom(s: string, separators: string, first: string, rest: string)
    requires FirstOf(s, separators) < |s| && first == s[..FirstOf(s, separators)] && rest == s[FirstOf(s, separators) + 1..]
    ensures Pieces(s, separators) == [first] + Pieces(rest, separators)
  {}

  lemma {:induction false} PiecesAppend(h: string, c: char, p: string, separators: string)
    requires c in separators && FirstOf(p, separators) == |p|
    ensures Pieces(h + [c] + p, separators) == Pieces(h, separators) + [p]
    decreases |h|
  {
    var s, k := h + [c] + p, FirstOf(h, separators);
    FirstSeparator(h, c, p, separators);
    CutAppended(h, c, p, k);
    if k < |h| {
      PiecesFrom(s, separators, h[..k], h[k + 1..] + [c] + p);
      PiecesFrom(h, separators, h[..k], h[k + 1..]);
      PiecesAppend(h[k + 1..], c, p, separators);
      Associate([h[..k]], Pieces(h[k + 1..], separators), [p]);
    } else {
      PiecesFrom(s, separators, h, p);
    }
  }

  lemma {:induction false} LastMatchAppend(pieces: seq<string>, p: string, trim: bool, field: string)
    ensures LastMatch(pieces + [p], trim, field) ==
      if NameOf(p, trim) == field then Some(ValueOf(p)) else LastMatch(pieces, trim, field)
  {
    if pieces == [] {
      assert [p][1..] == [];
      assert LastMatch([], trim, field) == None;
    } else {
      assert (pieces + [p])[1..] == pieces[1..] + [p];
      LastMatchAppend(pieces[1..], p, trim, field);
    }
  }

  // The piece that add() writes, with or without the leading blank.
  lemma AddedPiece(blank: string, id: string, value: string)
    requires (blank == "" || blank == " ") && CleanName(id)
    ensures var p := blank + id + (if value == "" then "" else "=" + value);
            NameOf(p, true) == id && ValueOf(p) == value
  {
    var p := blank + id + (if value == "" then "" else "=" + value);
    var n := |blank| + |id|;
    assert forall i :: 0 <= i < n ==> p[i] == (blank + id)[i];
    assert forall i :: 0 <= i < n ==> (blank + id)[i] != '=';
    FirstOfIs(p, "=", n);
    assert p[..n] == blank + id;
    assert value != "" ==> p[n + 1..] == value;
    TrimBlank(blank, id);
  }

  lemma TrimBlank(blank: string, id: string)
    requires (blank == "" || blank == " ") && CleanName(id)
    ensures TrimBack(TrimFront(blank + id)) == id
  {}

  function Tail(id: string, value: string): string { id + (if value == "" then "" else "=" + value) }

  lemma TailIsClean(id: string, value: string)
    requires CleanName(id) && CleanValue(value)
    ensures ';' !in Tail(id, value) && ';' !in " " + Tail(id, value)
  {}

  lemma {:induction false} NoSeparator(t: string)
    requires ';' !in t
    ensures FirstOf(t, ";") == |t|
  {
    FirstOfIs(t, ";", |t|);
  }

  lemma {:induction false} AddToEmpty(id: string, value: string, field: string)
    requires CleanName(id) && CleanValue(value) && field != ""
    ensures Lookup(Added("", id, value), COOKIE, field) == if field == id then Some(value) else None
  {
    var t := Tail(id, value);
    TailIsClean(id, value);
    AddedPiece("", id, value);
    assert "" + id == id && Added("", id, value) == t;
    NoSeparator(t);
    OnePiece(t, COOKIE, field);
  }

  lemma AddedShape(header: string, id: string, value: string)
    ensures header != "" ==> Added(header, id, value) == header + ";" + (" " + Tail(id, value))
    ensures " " + id + (if value == "" then "" else "=" + value) == " " + Tail(id, value)
  {}

  lemma AddToMore(header: string, id: string, value: string, field: string)
    requires CleanName(id) && CleanValue(value) && header != ""
    ensures Lookup(Added(header, id, value), COOKIE, field) == if field == id then Some(value) else Lookup(header, COOKIE, field)
  {
    var p := " " + Tail(id, value);
    TailIsClean(id, value);
    AddedPiece(" ", id, value);
    AddedShape(header, id, value);
    NoSeparator(p);
    PiecesAppend(header, ';', p, ";");
    LastMatchAppend(Pieces(header, ";"), p, true, field);
  }

  // Adding a field sets that field and leaves every other lookup as it was, in any header.
  lemma AddSetsField(header: string, id: string, value: string, field: string)
    requires CleanName(id) && CleanValue(value) && field != ""
    ensures Lookup(Added(header, id, value), COOKIE, field) == if field == id then Some(value) else Lookup(header, COOKIE, field)
  {
    if header == "" {
      AddToEmpty(id, value, field);
      LookupEmpty(COOKIE, field);
    } else {
      AddToMore(header, id, value, field);
    }
  }

  function AddAll(header: string, adds: seq<(string, string)>): string
    decreases |adds|
  {
    if adds == [] then header else Added(AddAll(header, adds[..|adds| - 1]), adds[|adds| - 1].0, adds[|adds| - 1].1)
  }

  function LastAdded(adds: seq<(string, string)>, id: string): Option<string>
    decreases |adds|
  {
    if adds == [] then None
    else if adds[|adds| - 1].0 == id then Some(adds[|adds| - 1].1)
    else LastAdded(adds[..|adds| - 1], id)
  }

  // After any series of adds a lookup returns the last value added.
  lemma {:induction false} ScanAfterAdds(adds: seq<(string, string)>, field: string)
    requires field != "" && forall i :: 0 <= i < |adds| ==> CleanName(adds[i].0) && CleanValue(adds[i].1)
    ensures Scan(AddAll("", adds), COOKIE, field) == LastAdded(adds, field)
    decreases |adds|
  {
    if adds != [] {
      var n := |adds| - 1;
      var before := AddAll("", adds[..n]);
      ScanAfterAdds(adds[..n], field);
      ScanIsLookupIff(before, COOKIE, field);
      ScanIsLookupIff(AddAll("", adds), COOKIE, field);
      AddSetsField(before, adds[n].0, adds[n].1, field);
    }
  }

  // ------------------------------------------------------------------
  // Forms and blanks
  // ------------------------------------------------------------------

  // In a URL form both '&' and ';' separate fields, and a field appended to any text is found and
  // leaves the others alone.
  lemma {:induction false} FormField(h: string, c: char, name: string, value: string, field: string)
    requires c == '&' || c == ';'
    requires (forall x :: x in name ==> x != '=' && x != '&' && x != ';') && (forall x :: x in value ==> x != '&' && x != ';')
    requires name != "" && field != ""
    ensures Scan(h + [c] + (name + "=" + value), URL_FORM, field) == if field == name then Some(value) else Lookup(h, URL_FORM, field)
  {
    var p := name + "=" + value;
    FieldPiece(name, value);
    forall i | 0 <= i < |p| ensures p[i] !in ";&" {
      assert p[i] in name || p[i] == '=' || p[i] in value;
    }
    FirstOfIs(p, ";&", |p|);
    PiecesAppend(h, c, p, ";&");
    LastMatchAppend(Pieces(h, ";&"), p, false, field);
    ScanIsLookupIff(h + [c] + p, URL_FORM, field);
  }

  lemma {:induction false} FieldPiece(name: string, value: string)
    requires '=' !in name
    ensures var p := name + "=" + value; p[..FirstOf(p, "=")] == name && ValueOf(p) == value
  {
    var p := name + "=" + value;
    assert forall i :: 0 <= i < |name| ==> p[i] == name[i];
    FirstOfIs(p, "=", |name|);
    assert p[..|name|] == name && p[|name| + 1..] == value;
  }

  // The characters that count as blank: space, tab, line feed, vertical tab, form feed, return.
  predicate AllBlank(s: string) {
    forall i :: 0 <= i < |s| ==> s[i] as int in {32, 9, 10, 11, 12, 13}
  }

  lemma {:induction false} BlanksInFront(blank: string, s: string)
    requires AllBlank(blank)
    ensures TrimFront(blank + s) == TrimFront(s)
  {
    if blank == "" {
      assert blank + s == s;
    } else {
      assert (blank + s)[1..] == blank[1..] + s;
      BlanksInFront(blank[1..], s);
    }
  }

  lemma {:induction false} BlanksBehind(s: string, blank: string)
    requires AllBlank(blank)
    ensures TrimBack(s + blank) == TrimBack(s)
    decreases |blank|
  {
    if blank == "" {
      assert s + blank == s;
    } else {
      var n := |blank| - 1;
      assert (s + blank)[..|s| + n] == s + blank[..n];
      BlanksBehind(s, blank[..n]);
    }
  }

  // A cookie's name is found whatever blanks stand around it; its value is taken as it stands.
  lemma {:induction false} BlanksAroundName(front: string, name: string, back: string, value: string)
    requires AllBlank(front) && AllBlank(back) && CleanName(name) && CleanValue(value)
    ensures Scan(front + name + back + "=" + value, COOKIE, name) == Some(value)
  {
    var padded := front + name + back;
    var p := padded + "=" + value;
    PaddedName(front, name, back);
    assert forall x :: x in padded ==> x in front || x in name || x in back;
    FieldPiece(padded, value);
    NoSeparator(p);
    OnePiece(p, COOKIE, name);
    ScanIsLookupIff(p, COOKIE, name);
  }

  lemma PaddedName(front: string, name: string, back: string)
    requires AllBlank(front) && AllBlank(back) && CleanName(name)
    ensures TrimBack(TrimFront(front + name + back)) == name
  {
    assert front + name + back == front + (name + back);
    BlanksInFront(front, name + back);
    assert (name + back)[0] == name[0];
    BlanksBehind(name, back);
  }
}
