/**
What a request URL asks for (src/common/hrb/URLIntent.cc; sections 3.3 and 3.4 of RFC 3986).

The parser takes single-segment fields from both ends of the path; what is left in the middle
is the collection, which may span several segments.
 */
module URLIntent {
  import opened Escape

  datatype Action = Login | Logout | View | Upload | Home | Lib | Query | Api | NoAction

  datatype QueryTarget = BlobTarget | CollectionTarget | BlobSetTarget | NoTarget

  datatype Parameter = User | Collection | Filename | Blob | Target

  datatype Intent = Intent(
    action: Action, user: string, coll: string, filename: string, option: string, target: QueryTarget, ok: bool)

  const NO_INTENT := Intent(NoAction, "", "", "", "", NoTarget, false)

  function Definition(a: Action): seq<Parameter> {
    match a
    case View => [User, Collection, Blob]
    case Upload => [User, Collection, Filename]
    case Lib => [Filename]
    case Query => [Target]
    case Api => [User, Collection, Blob]
    case _ => []
  }

  // std::find_first_of() the separator fields: where parsing from the left ends.
  function Middle(ps: seq<Parameter>): (m: nat)
    ensures m <= |ps|
  {
    if ps == [] || ps[0] == Collection then 0 else 1 + Middle(ps[1..])
  }

  predicate IsHex(s: string) {
    |s| == 40 && forall i :: 0 <= i < |s| ==> '0' <= s[i] <= '9' || 'A' <= s[i] <= 'F' || 'a' <= s[i] <= 'f'
  }

  function Name(a: Action): string {
    match a
    case Login => "login"
    case Logout => "logout"
    case View => "view"
    case Upload => "upload"
    case Lib => "lib"
    case Query => "query"
    case Api => "api"
    case _ => ""
  }

  function ParseAction(s: string): Action {
    if s == "view" then View
    else if s == "upload" then Upload
    else if s == "login" then Login
    else if s == "logout" then Logout
    else if s == "lib" then Lib
    else if s == "query" then Query
    else if s == "api" then Api
    else if s == "" then Home
    else NoAction
  }

  function ParseQueryTarget(s: string): QueryTarget {
    if s == "blob" then BlobTarget
    else if s == "collection" then CollectionTarget
    else if s == "blob_set" then BlobSetTarget
    else NoTarget
  }

  function TargetName(t: QueryTarget): string {
    match t
    case BlobTarget => "blob"
    case CollectionTarget => "collection"
    case BlobSetTarget => "blob_set"
    case NoTarget => ""
  }

  function TrimLeft(s: string): string {
    if s != [] && s[0] == '/' then TrimLeft(s[1..]) else s
  }

  function TrimRight(s: string): string {
    if s != [] && s[|s| - 1] == '/' then TrimRight(s[..|s| - 1]) else s
  }

  function Trim(s: string): string { TrimRight(TrimLeft(s)) }

  method TrimView(input: string) returns (s: string)
    ensures s == Trim(input)
  {
    s := input;
    while s != [] && s[0] == '/'
      invariant TrimLeft(s) == TrimLeft(input)
      decreases |s|
    {
      s := s[1..];
    }
    while s != [] && s[|s| - 1] == '/'
      invariant TrimRight(s) == Trim(input)
      decreases |s|
    {
      s := s[..|s| - 1];
    }
  }

  // ------------------------------------------------------------------
  // Parsing
  // ------------------------------------------------------------------

  function LeftField(t: string): string { t[..FirstOf(t, "/?#")] }

  // Only a slash is consumed with the field.
  function LeftRest(t: string): string {
    var k := FirstOf(t, "/?#");
    if k < |t| && t[k] == '/' then t[k + 1..] else t[k..]
  }

  function RightField(t: string): string { t[AfterLastOf(t, "/")..] }

  function RightRest(t: string): string {
    var k := AfterLastOf(t, "/");
    if k == 0 then [] else t[..k - 1]
  }

  function FromLeft(i: Intent, t: string, p: Parameter): (Intent, string) {
    var field := LeftField(t);
    (match p
     case User => i.(user := Decode(field))
     case Filename => i.(filename := Decode(field))
     case Target => i.(target := ParseQueryTarget(field))
     case _ => i,
     LeftRest(t))
  }

  function FromRight(i: Intent, t: string, p: Parameter): (Intent, string) {
    if p == Filename || p == Blob then
      if p == Filename || IsHex(RightField(t)) then (i.(filename := Decode(RightField(t))), RightRest(t)) else (i, t)
    else if p == Collection && '?' !in t then (i.(coll := Decode(Trim(t))), [])
    else (i, t)
  }

  function AllFromLeft(i: Intent, t: string, ps: seq<Parameter>): (Intent, string)
    decreases |ps|
  {
    if ps == [] then (i, t)
    else var (i', t') := FromLeft(i, t, ps[0]); AllFromLeft(i', t', ps[1..])
  }

  function AllFromRight(i: Intent, t: string, ps: seq<Parameter>): (Intent, string)
    decreases |ps|
  {
    if ps == [] then (i, t)
    else var (i', t') := FromRight(i, t, ps[|ps| - 1]); AllFromRight(i', t', ps[..|ps| - 1])
  }

  function BothEnds(start: Intent, t: string, ps: seq<Parameter>): Intent {
    var (i', t') := AllFromLeft(start, t, ps[..Middle(ps)]);
    var (i'', t'') := AllFromRight(i', t', ps[Middle(ps)..]);
    if t'' != [] then i''.(ok := false) else i''
  }

  function ParseFields(a: Action, option: string, t: string): Intent {
    BothEnds(Intent(a, "", "", "", option, NoTarget, !(a == Query && option == "")), t, Definition(a))
  }

  function ParseRest(a: Action, t: string): Intent {
    if a == NoAction then NO_INTENT
    else ParseFields(a, RestAfter(t, "?"), t[..FirstOf(t, "?")])
  }

  function Parse(url: string): Intent {
    if url == [] || url[0] != '/' then NO_INTENT
    else ParseRest(ParseAction(LeftField(url[1..])), LeftRest(url[1..]))
  }

  predicate NeedsUser(a: Action) { a == View || a == Upload || a == Api }

  predicate NeedsFilename(a: Action) { a == Upload || a == Lib }

  predicate Valid(i: Intent) {
    i.action != NoAction && (NeedsUser(i.action) ==> i.user != "") && (NeedsFilename(i.action) ==> i.filename != "") && i.ok
  }

  // ------------------------------------------------------------------
  // Printing
  // ------------------------------------------------------------------

  function PrintField(i: Intent, p: Parameter): string {
    match p
    case User => Encode(i.user) + (if i.user != "" then "/" else "")
    case Collection => Encode(i.coll) + (if i.coll != "" then "/" else "")
    case Filename => Encode(i.filename)
    case Blob => i.filename
    case Target => TargetName(i.target)
  }

  function PrintFields(i: Intent, ps: seq<Parameter>): string {
    if ps == [] then "" else PrintField(i, ps[0]) + PrintFields(i, ps[1..])
  }

  lemma {:induction false} PrintSnoc(i: Intent, ps: seq<Parameter>, p: Parameter)
    ensures PrintFields(i, ps + [p]) == PrintFields(i, ps) + PrintField(i, p)
  {
    if ps == [] {
      assert [p][1..] == [];
      assert PrintFields(i, [p]) == PrintField(i, p) + "";
    } else {
      assert (ps + [p])[0] == ps[0] && (ps + [p])[1..] == ps[1..] + [p];
      PrintSnoc(i, ps[1..], p);
    }
  }

  lemma {:induction false} PrintOneMore(before: string, i: Intent, ps: seq<Parameter>, k: nat)
    requires k < |ps|
    ensures before + PrintFields(i, ps[..k + 1]) == before + PrintFields(i, ps[..k]) + PrintField(i, ps[k])
  {
    PrintSnoc(i, ps[..k], ps[k]);
    assert ps[..k + 1] == ps[..k] + [ps[k]];
    Associate(before, PrintFields(i, ps[..k]), PrintField(i, ps[k]));
  }

  function Head(a: Action): string {
    if a == Login || a == Logout || a == Home || a == NoAction then Name(a) else Name(a) + "/"
  }

  function QueryString(s: string): string { if s == "" then "" else "?" + s }

  function Print(i: Intent): string {
    "/" + Head(i.action) + PrintFields(i, Definition(i.action)) + QueryString(i.option)
  }

  // ------------------------------------------------------------------
  // The object
  // ------------------------------------------------------------------

  method ExtractLeft(target: string) returns (field: string, rest: string)
    ensures field == LeftField(target) && rest == LeftRest(target)
  {
    var sep, tmp;
    field, sep, tmp := SplitLeft(target, "/?#");
    if sep == '/' {
      rest := tmp;
    } else {
      rest := target[|field|..];
    }
  }

  // The query string starts at the first question mark; without one the path is left alone.
  method TakeOption(path: string) returns (option: string, t: string)
    ensures option == RestAfter(path, "?") && t == path[..FirstOf(path, "?")]
  {
    var field, sep, tmp := SplitLeft(path, "?");
    option, t := "", path;
    if sep == '?' {
      option, t := tmp, field;
    } else {
      assert FirstOf(path, "?") == |path|;
    }
  }

  class Url {
    var action: Action
    var user: string
    var coll: string
    var filename: string
    var option: string
    var target: QueryTarget
    var ok: bool

    ghost function Value(): Intent
      reads this
    {
      Intent(action, user, coll, filename, option, target, ok)
    }

    constructor (url: string)
      ensures Value() == Parse(url)
    {
      action, user, coll, filename, option, target, ok := NoAction, "", "", "", "", NoTarget, false;
      new;
      if url != [] && url[0] == '/' {
        var field, rest := ExtractLeft(url[1..]);
        action := ParseAction(field);
        if action != NoAction {
          ParseTarget(rest);
        }
      }
    }

    method ParseTarget(path: string)
      requires Value() == NO_INTENT.(action := action) && action != NoAction
      modifies this
      ensures Value() == ParseRest(old(action), path)
    {
      ok := true;
      var t;
      option, t := TakeOption(path);
      if action == Query && option == "" {
        ok := false;
      }
      ParseBothEnds(t, Definition(action));
    }

    method ParseBothEnds(path: string, ps: seq<Parameter>)
      modifies this
      ensures Value() == BothEnds(old(Value()), path, ps)
    {
      var mid := Middle(ps);
      var t := ParseLeft(path, ps[..mid]);
      t := ParseRight(t, ps[mid..]);
      if t != [] {
        ok := false;
      }
    }

    method ParseLeft(path: string, ps: seq<Parameter>) returns (t: string)
      modifies this
      ensures AllFromLeft(old(Value()), path, ps) == (Value(), t)
    {
      t := path;
      var k := 0;
      while k < |ps|
        invariant 0 <= k <= |ps|
        invariant AllFromLeft(Value(), t, ps[k..]) == AllFromLeft(old(Value()), path, ps)
      {
        assert ps[k..][1..] == ps[k + 1..];
        t := ParseFieldFromLeft(t, ps[k]);
        k := k + 1;
      }
    }

    method ParseRight(path: string, ps: seq<Parameter>) returns (t: string)
      modifies this
      ensures AllFromRight(old(Value()), path, ps) == (Value(), t)
    {
      t := path;
      assert ps[..|ps|] == ps;
      var k := |ps|;
      while k > 0
        invariant 0 <= k <= |ps|
        invariant AllFromRight(Value(), t, ps[..k]) == AllFromRight(old(Value()), path, ps)
      {
        k := k - 1;
        assert ps[..k + 1][..k] == ps[..k];
        t := ParseFieldFromRight(t, ps[k]);
      }
    }

    method ParseFieldFromLeft(path: string, p: Parameter) returns (t: string)
      modifies this
      ensures FromLeft(old(Value()), path, p) == (Value(), t)
    {
      var field;
      field, t := ExtractLeft(path);
      match p {
        case User => user := UrlDecode(field);
        case Filename => filename := UrlDecode(field);
        case Target => target := ParseQueryTarget(field);
        case _ =>
      }
    }

    method ParseFieldFromRight(path: string, p: Parameter) returns (t: string)
      modifies this
      ensures FromRight(old(Value()), path, p) == (Value(), t)
    {
      t := path;
      if p == Filename || p == Blob {
        var field, sep, rest := SplitRight(path, "/");
        if p == Filename || IsHex(field) {
          filename := UrlDecode(field);
          t := rest;
        }
      } else if p == Collection && '?' !in path {
        var trimmed := TrimView(path);
        coll := UrlDecode(trimmed);
        t := [];
      }
    }

    method WriteField(before: string, p: Parameter) returns (url: string)
      ensures url == before + PrintField(Value(), p)
    {
      match p {
        case User =>
          var e := UrlEncode(user);
          url := before + e;
          if user != "" { url := url + "/"; }
        case Collection =>
          var e := UrlEncode(coll);
          url := before + e;
          if coll != "" { url := url + "/"; }
        case Filename =>
          var e := UrlEncode(filename);
          url := before + e;
        case Blob =>
          url := before + filename;
        case Target =>
          url := before + TargetName(target);
      }
    }

    method WriteFields(before: string, ps: seq<Parameter>) returns (url: string)
      ensures url == before + PrintFields(Value(), ps)
    {
      url := before;
      for k := 0 to |ps|
        invariant url == before + PrintFields(Value(), ps[..k])
      {
        PrintOneMore(before, Value(), ps, k);
        url := WriteField(url, ps[k]);
      }
      assert ps[..|ps|] == ps;
    }

    method Str() returns (url: string)
      ensures url == Print(Value())
    {
      url := "/" + Head(action);
      url := WriteFields(url, Definition(action));
      if option != "" {
        url := url + "?" + option;
      }
    }
  }
}
