/**
Printing an intent and parsing the result: exactly which intents survive.

The path is handled on decoded text. Encoding keeps slashes and introduces no delimiter, so
cutting the encoded path at slashes cuts the decoded path at the same places.
 */
module URLRoundTrip {
  import opened Escape
  import opened URLIntent

  // ------------------------------------------------------------------
  // The claim
  // ------------------------------------------------------------------

  ghost predicate SameRequest(i: Intent, j: Intent) {
    && i.action == j.action && i.user == j.user && i.coll == j.coll
    && i.filename == j.filename && i.option == j.option && i.target == j.target
  }

  predicate SlashFree(s: string) { '/' !in s }

  predicate Trimmed(s: string) { s == "" || (s[0] != '/' && s[|s| - 1] != '/') }

  // What a caller can check before printing.
  predicate Canonical(i: Intent) {
    match i.action
    case NoAction => false
    case Lib => i.user == "" && i.coll == "" && SlashFree(i.filename) && i.target == NoTarget
    case Query => i.user == "" && i.coll == "" && i.filename == ""
    case Login => i.user == "" && i.coll == "" && i.filename == "" && i.target == NoTarget
    case Logout => i.user == "" && i.coll == "" && i.filename == "" && i.target == NoTarget
    case Home => i.user == "" && i.coll == "" && i.filename == "" && i.target == NoTarget
    case _ =>
      && SlashFree(i.user) && Trimmed(i.coll) && i.target == NoTarget
      && (if i.action == Upload then SlashFree(i.filename) else i.filename == "" || IsHex(i.filename))
      && (i.user == "" ==> i.coll == "" && i.filename == "")
  }

  // ------------------------------------------------------------------
  // Cutting text that was glued together
  // ------------------------------------------------------------------

  ghost predicate NoDelimiter(s: string) {
    forall i :: 0 <= i < |s| ==> s[i] != '/' && s[i] != '?' && s[i] != '#'
  }

  // The first delimiter of p + d + s is d.
  lemma LeftCut(p: string, t: string)
    requires NoDelimiter(p) && p <= t && (|t| == |p| || t[|p|] == '/' || t[|p|] == '?' || t[|p|] == '#')
    ensures FirstOf(t, "/?#") == |p| && LeftField(t) == p
    ensures LeftRest(t) == if |t| > |p| && t[|p|] == '/' then t[|p| + 1..] else t[|p|..]
  {}

  lemma GluedCut(p: string, s: string)
    requires NoDelimiter(p)
    ensures LeftField(p + "/" + s) == p && LeftRest(p + "/" + s) == s
  {
    LeftCut(p, p + "/" + s);
  }

  lemma SlashCut(p: string, t: string)
    requires SlashFree(p) && p <= t && (|t| == |p| || t[|p|] == '/')
    ensures FirstOf(t, "/") == |p| && t[..FirstOf(t, "/")] == p
    ensures RestAfter(t, "/") == if |t| > |p| then t[|p| + 1..] else []
  {}

  lemma RightCut(p: string, f: string)
    requires SlashFree(f)
    ensures RightField(p + "/" + f) == f && RightRest(p + "/" + f) == p
    ensures RightField(f) == f && RightRest(f) == []
  {
    var t := p + "/" + f;
    assert forall i :: |p| < i < |t| ==> t[i] == f[i - |p| - 1];
    LastOfIs(t, "/", |p| + 1);
    LastOfIs(f, "/", 0);
  }

  // ------------------------------------------------------------------
  // Cutting encoded text
  // ------------------------------------------------------------------

  lemma EncodeSlash(p: string, s: string)
    ensures Encode(p + "/" + s) == Encode(p) + "/" + Encode(s)
  {
    EncodeConcat(p + "/", s);
    EncodeSnoc(p, '/');
    assert EncodeByte('/') == "/";
  }

  lemma EncodedHasNoDelimiter(p: string)
    requires SlashFree(p)
    ensures NoDelimiter(Encode(p))
  {
    EncodeSlashes(p);
    forall i | 0 <= i < |Encode(p)| ensures Encode(p)[i] != '?' && Encode(p)[i] != '#' {
      EncodeNoDelimiters(p, i);
    }
  }

  lemma EncodedFirstSlash(w: string)
    requires IsBytes(w)
    ensures Decode(LeftField(Encode(w))) == w[..FirstOf(w, "/")]
    ensures LeftRest(Encode(w)) == Encode(RestAfter(w, "/"))
  {
    var k := FirstOf(w, "/");
    var p := w[..k];
    assert SlashFree(p);
    DecodeEncode(p);
    if k < |w| {
      ThreeSlices(w, k + 1);
      EncodedGlue(p, w[k + 1..]);
    } else {
      assert w == p;
      EncodedWord(p);
    }
  }

  lemma {:induction false} EncodedGlue(p: string, rest: string)
    requires SlashFree(p)
    ensures LeftField(Encode(p + "/" + rest)) == Encode(p) && LeftRest(Encode(p + "/" + rest)) == Encode(rest)
  {
    EncodedHasNoDelimiter(p);
    EncodeSlash(p, rest);
    GluedCut(Encode(p), Encode(rest));
  }

  lemma {:induction false} EncodedWord(p: string)
    requires SlashFree(p)
    ensures LeftField(Encode(p)) == Encode(p) && LeftRest(Encode(p)) == []
  {
    EncodedHasNoDelimiter(p);
    LeftCut(Encode(p), Encode(p));
  }

  lemma {:induction false} EncodedLastSlash(w: string)
    ensures RightField(Encode(w)) == Encode(RightField(w))
    ensures RightRest(Encode(w)) == Encode(RightRest(w))
  {
    var f, p := RightField(w), RightRest(w);
    EncodeSlashes(f);
    RightCut(Encode(p), Encode(f));
    RightParts(w);
    if AfterLastOf(w, "/") > 0 {
      EncodeSlash(p, f);
    }
  }

  lemma RightParts(w: string)
    ensures SlashFree(RightField(w))
    ensures w == if AfterLastOf(w, "/") > 0 then RightRest(w) + "/" + RightField(w) else RightField(w)
  {
    var k := AfterLastOf(w, "/");
    if k > 0 {
      ThreeSlices(w, k);
      assert w[k - 1] == '/';
    }
  }

  lemma ThreeSlices(w: string, k: nat)
    requires 0 < k <= |w|
    ensures w == w[..k - 1] + [w[k - 1]] + w[k..]
  {}

  lemma {:induction false} EncodedTrimLeft(w: string)
    ensures TrimLeft(Encode(w)) == Encode(TrimLeft(w))
  {
    if w != [] {
      EncodeByteChars(w[0]);
      var e := Encode(w);
      assert e[0] == EncodeByte(w[0])[0];
      if w[0] == '/' {
        EncodedTrimLeft(w[1..]);
        assert e[1..] == Encode(w[1..]);
      }
    }
  }

  lemma {:induction false} EncodedTrimRight(w: string)
    ensures TrimRight(Encode(w)) == Encode(TrimRight(w))
  {
    if w != [] {
      var n := |w| - 1;
      EncodeByteChars(w[n]);
      EncodeSnoc(w[..n], w[n]);
      assert w == w[..n] + [w[n]];
      var e := Encode(w);
      assert e[|e| - 1] == EncodeByte(w[n])[|EncodeByte(w[n])| - 1];
      if w[n] == '/' {
        EncodedTrimRight(w[..n]);
        assert e[..|e| - 1] == Encode(w[..n]);
      }
    }
  }

  lemma {:induction false} EncodedTrim(w: string)
    requires IsBytes(w)
    ensures Decode(Trim(Encode(w))) == Trim(w)
  {
    EncodedTrimLeft(w);
    EncodedTrimRight(TrimLeft(w));
    TrimIsPart(w);
    DecodeEncode(Trim(w));
  }

  lemma {:induction false} TrimLeftIsPart(s: string)
    ensures |TrimLeft(s)| <= |s| && TrimLeft(s) == s[|s| - |TrimLeft(s)|..]
    ensures TrimLeft(s) == "" || TrimLeft(s)[0] != '/'
  {
    if s != [] && s[0] == '/' {
      TrimLeftIsPart(s[1..]);
    }
  }

  lemma {:induction false} TrimRightIsPart(s: string)
    ensures TrimRight(s) <= s
    ensures TrimRight(s) == "" || TrimRight(s)[|TrimRight(s)| - 1] != '/'
  {
    if s != [] && s[|s| - 1] == '/' {
      TrimRightIsPart(s[..|s| - 1]);
    }
  }

  lemma TrimIsPart(s: string)
    ensures IsBytes(s) ==> IsBytes(Trim(s))
    ensures Trimmed(Trim(s))
  {
    TrimLeftIsPart(s);
    TrimRightIsPart(TrimLeft(s));
  }

  lemma TrimKeeps(s: string)
    requires Trimmed(s)
    ensures Trim(s) == s && (s != "" ==> Trim(s + "/") == s)
  {}

  lemma HexIsPlain(s: string)
    ensures IsHex(s) ==> Encode(s) == s && SlashFree(s)
    ensures IsHex(Encode(s)) <==> IsHex(s)
  {
    if IsHex(s) {
      EncodeUnescaped(s);
    }
    if IsHex(Encode(s)) {
      assert '%' !in Encode(s);
      EncodedPlain(s);
    }
  }

  // ------------------------------------------------------------------
  // View, api and upload: user / collection / filename
  // ------------------------------------------------------------------

  function Closed(s: string): string { if s == "" then "" else s + "/" }

  function Join(user: string, coll: string, filename: string): string { Closed(user) + Closed(coll) + filename }

  // What the parser sees in a decoded path.
  function Cut(a: Action, w: string): (string, string, string) {
    var rest := RestAfter(w, "/");
    if a == Upload || IsHex(RightField(rest)) then (w[..FirstOf(w, "/")], Trim(RightRest(rest)), RightField(rest))
    else (w[..FirstOf(w, "/")], Trim(rest), "")
  }

  predicate ThreePart(a: Action) { a == View || a == Api || a == Upload }

  lemma {:induction false} ParsesAsCut(a: Action, w: string, option: string)
    requires ThreePart(a) && IsBytes(w)
    ensures ParseFields(a, option, Encode(w)) == Intent(a, Cut(a, w).0, Cut(a, w).1, Cut(a, w).2, option, NoTarget, true)
  {
    var last := if a == Upload then Filename else Blob;
    var start := Intent(a, "", "", "", option, NoTarget, true);
    assert ParseFields(a, option, Encode(w)) == BothEnds(start, Encode(w), [User, Collection, last]);
    FieldsAsCut(start, w, last);
  }

  lemma {:induction false} FieldsAsCut(start: Intent, w: string, last: Parameter)
    requires (last == Filename || last == Blob) && IsBytes(w)
    ensures var rest := RestAfter(w, "/");
            var i := start.(user := w[..FirstOf(w, "/")]);
            BothEnds(start, Encode(w), [User, Collection, last]) ==
              if last == Filename || IsHex(RightField(rest))
              then i.(coll := Trim(RightRest(rest)), filename := RightField(rest))
              else i.(coll := Trim(rest))
  {
    var rest := RestAfter(w, "/");
    EncodedFirstSlash(w);
    ThreeFields(start, Encode(w), last);
    MiddleAndRight(start.(user := w[..FirstOf(w, "/")]), rest, last);
  }

  lemma LastField(i: Intent, rest: string, last: Parameter)
    requires (last == Filename || last == Blob) && IsBytes(rest)
    ensures FromRight(i, Encode(rest), last) ==
      if last == Filename || IsHex(RightField(rest))
      then (i.(filename := RightField(rest)), Encode(RightRest(rest)))
      else (i, Encode(rest))
  {
    EncodedLastSlash(rest);
    HexIsPlain(RightField(rest));
    assert IsBytes(RightField(rest));
    DecodeEncode(RightField(rest));
  }

  lemma MiddleField(i: Intent, w: string)
    requires IsBytes(w)
    ensures FromRight(i, Encode(w), Collection) == (i.(coll := Trim(w)), [])
  {
    NoQuestionMark(w);
    EncodedTrim(w);
  }

  lemma MiddleAndRight(i: Intent, rest: string, last: Parameter)
    requires (last == Filename || last == Blob) && IsBytes(rest)
    ensures var (i2, t2) := FromRight(i, Encode(rest), last);
            FromRight(i2, t2, Collection) ==
              if last == Filename || IsHex(RightField(rest))
              then (i.(coll := Trim(RightRest(rest)), filename := RightField(rest)), [])
              else (i.(coll := Trim(rest)), [])
  {
    LastField(i, rest, last);
    assert IsBytes(RightRest(rest));
    MiddleField(i.(filename := RightField(rest)), RightRest(rest));
    MiddleField(i, rest);
  }

  // The two loops over the definition, unrolled.
  lemma ThreeFields(start: Intent, t: string, last: Parameter)
    requires last == Filename || last == Blob
    ensures var i1 := start.(user := Decode(LeftField(t)));
            var (i2, t2) := FromRight(i1, LeftRest(t), last);
            var (i3, t3) := FromRight(i2, t2, Collection);
            BothEnds(start, t, [User, Collection, last]) == if t3 != [] then i3.(ok := false) else i3
  {
    var ps := [User, Collection, last];
    assert ps[1..][0] == Collection && Middle(ps) == 1;
    assert ps[..1] == [User] && [User][1..] == [];
    assert AllFromLeft(start, t, [User]) == (start.(user := Decode(LeftField(t))), LeftRest(t));
    var qs := ps[1..];
    assert qs == [Collection, last] && qs[..1] == [Collection] && [Collection][..0] == [];
    var i1 := start.(user := Decode(LeftField(t)));
    var (i2, t2) := FromRight(i1, LeftRest(t), last);
    assert AllFromRight(i1, LeftRest(t), qs) == AllFromRight(i2, t2, [Collection]);
  }

  lemma CutJoin(a: Action, user: string, coll: string, filename: string)
    requires ThreePart(a) && SlashFree(user) && Trimmed(coll) && SlashFree(filename)
    requires a != Upload ==> filename == "" || IsHex(filename)
    requires user == "" ==> coll == "" && filename == ""
    ensures Cut(a, Join(user, coll, filename)) == (user, coll, filename)
  {
    var rest := Closed(coll) + filename;
    JoinParts(user, coll, filename);
    TrimKeeps(coll);
    RightCut(coll, filename);
    assert filename == "" ==> rest == Closed(coll);
  }

  lemma JoinParts(user: string, coll: string, filename: string)
    requires SlashFree(user) && (user == "" ==> coll == "" && filename == "")
    ensures var w := Join(user, coll, filename);
            w[..FirstOf(w, "/")] == user && RestAfter(w, "/") == Closed(coll) + filename
  {
    var w := Join(user, coll, filename);
    assert user != "" ==> w == user + ("/" + (Closed(coll) + filename));
    SlashCut(user, w);
  }

  lemma OnlyIfCanonical(a: Action, user: string, coll: string, filename: string)
    requires ThreePart(a) && Cut(a, Join(user, coll, filename)) == (user, coll, filename)
    ensures SlashFree(user) && Trimmed(coll) && SlashFree(filename)
    ensures user == "" ==> coll == "" && filename == ""
  {
    var w := Join(user, coll, filename);
    var rest := RestAfter(w, "/");
    TrimIsPart(rest);
    TrimIsPart(RightRest(rest));
    assert SlashFree(w[..FirstOf(w, "/")]);
    assert SlashFree(RightField(rest));
    if user == "" {
      FirstByte(coll, filename);
    }
  }

  // With no user, a path that starts with a slash starts with a slash of the collection.
  lemma FirstByte(coll: string, filename: string)
    requires FirstOf(Join("", coll, filename), "/") == 0 && Trimmed(coll) && SlashFree(filename)
    ensures coll == "" && filename == ""
  {}

  // ------------------------------------------------------------------
  // The frame around the fields
  // ------------------------------------------------------------------

  lemma NamesParse(a: Action)
    requires a != NoAction
    ensures ParseAction(Name(a)) == a
    ensures NoDelimiter(Name(a))
  {}

  lemma TargetsParse(t: QueryTarget)
    ensures ParseQueryTarget(TargetName(t)) == t
    ensures NoDelimiter(TargetName(t))
  {}

  // The query string is cut off where it was glued on.
  lemma {:induction false} OptionComesBack(body: string, option: string)
    requires '?' !in body
    ensures (body + QueryString(option))[..FirstOf(body + QueryString(option), "?")] == body
    ensures RestAfter(body + QueryString(option), "?") == option
  {
    QuestionMark(body, option);
    GluedOption(body, option);
  }

  lemma GluedOption(body: string, option: string)
    ensures (body + QueryString(option))[..|body|] == body
    ensures option != "" ==> (body + QueryString(option))[|body| + 1..] == option
  {}

  lemma {:induction false} QuestionMark(body: string, option: string)
    requires '?' !in body
    ensures FirstOf(body + QueryString(option), "?") == |body|
  {
    var t := body + QueryString(option);
    assert forall i :: 0 <= i < |body| ==> t[i] == body[i];
    FirstOfIs(t, "?", |body|);
  }

  lemma {:induction false} ActionComesBack(a: Action, tail: string)
    requires a != NoAction
    requires Head(a) == Name(a) ==> tail == "" || tail[0] == '?'
    ensures Parse("/" + Head(a) + tail) == ParseRest(a, tail)
  {
    var t := Head(a) + tail;
    assert ("/" + Head(a) + tail)[1..] == t;
    NamesParse(a);
    LeftCut(Name(a), t);
    if Head(a) == Name(a) {
      assert t[|Name(a)|..] == tail;
    } else {
      assert Head(a) == Name(a) + "/";
      assert t[|Name(a)| + 1..] == tail;
    }
  }

  lemma PrintedParses(i: Intent)
    requires i.action != NoAction && '?' !in PrintFields(i, Definition(i.action))
    ensures Parse(Print(i)) == ParseFields(i.action, i.option, PrintFields(i, Definition(i.action)))
  {
    var body := PrintFields(i, Definition(i.action));
    var tail := body + QueryString(i.option);
    OptionComesBack(body, i.option);
    assert Print(i) == "/" + Head(i.action) + tail;
    ActionComesBack(i.action, tail);
  }

  // ------------------------------------------------------------------
  // Each kind of intent
  // ------------------------------------------------------------------

  lemma PrintThree(i: Intent)
    requires ThreePart(i.action) && (i.action == Upload || Encode(i.filename) == i.filename)
    ensures PrintFields(i, Definition(i.action)) == Encode(Join(i.user, i.coll, i.filename))
  {
    var last := if i.action == Upload then Filename else Blob;
    PrintUnrolled(i, last);
    ClosedEncodes(i.user);
    ClosedEncodes(i.coll);
    EncodeConcat(Closed(i.user) + Closed(i.coll), i.filename);
    EncodeConcat(Closed(i.user), Closed(i.coll));
  }

  lemma PrintUnrolled(i: Intent, last: Parameter)
    ensures PrintFields(i, [User, Collection, last]) == PrintField(i, User) + PrintField(i, Collection) + PrintField(i, last)
  {
    var ps := [User, Collection, last];
    assert ps == [] + [User] + [Collection] + [last];
    PrintSnoc(i, [], User);
    PrintSnoc(i, [] + [User], Collection);
    PrintSnoc(i, [] + [User] + [Collection], last);
  }

  lemma ClosedEncodes(s: string)
    ensures Encode(Closed(s)) == Encode(s) + (if s != "" then "/" else "")
  {
    if s != "" {
      EncodeSnoc(s, '/');
      assert EncodeByte('/') == "/";
    }
  }

  ghost predicate ByteIntent(i: Intent) {
    IsBytes(i.user) && IsBytes(i.coll) && IsBytes(i.filename)
  }

  lemma NoQuestionMark(s: string)
    ensures '?' !in Encode(s)
  {
    forall i | 0 <= i < |Encode(s)| ensures Encode(s)[i] != '?' {
      EncodeNoDelimiters(s, i);
    }
  }

  lemma JoinBytes(user: string, coll: string, filename: string)
    requires IsBytes(user) && IsBytes(coll) && IsBytes(filename)
    ensures IsBytes(Join(user, coll, filename))
  {}

  lemma {:induction false} ThreePartParses(i: Intent)
    requires ThreePart(i.action) && ByteIntent(i)
    requires i.action == Upload || i.filename == "" || IsHex(i.filename)
    ensures var cut := Cut(i.action, Join(i.user, i.coll, i.filename));
            Parse(Print(i)) == Intent(i.action, cut.0, cut.1, cut.2, i.option, NoTarget, true)
  {
    var w := Join(i.user, i.coll, i.filename);
    HexIsPlain(i.filename);
    assert i.filename == "" ==> Encode(i.filename) == i.filename;
    PrintThree(i);
    NoQuestionMark(w);
    PrintedParses(i);
    JoinBytes(i.user, i.coll, i.filename);
    ParsesAsCut(i.action, w, i.option);
  }

  lemma CutIff(a: Action, user: string, coll: string, filename: string)
    requires ThreePart(a) && (a == Upload || filename == "" || IsHex(filename))
    ensures Cut(a, Join(user, coll, filename)) == (user, coll, filename) <==>
      && SlashFree(user) && Trimmed(coll) && SlashFree(filename)
      && (user == "" ==> coll == "" && filename == "")
  {
    if SlashFree(user) && Trimmed(coll) && SlashFree(filename) && (user == "" ==> coll == "" && filename == "") {
      CutJoin(a, user, coll, filename);
    }
    if Cut(a, Join(user, coll, filename)) == (user, coll, filename) {
      OnlyIfCanonical(a, user, coll, filename);
    }
  }

  lemma {:induction false} ThreePartIff(i: Intent)
    requires ThreePart(i.action) && ByteIntent(i)
    requires i.action == Upload || i.filename == "" || IsHex(i.filename)
    ensures SameRequest(Parse(Print(i)), i) <==> Canonical(i)
  {
    ThreePartParses(i);
    CutIff(i.action, i.user, i.coll, i.filename);
    SameThreeParts(i, Parse(Print(i)), Cut(i.action, Join(i.user, i.coll, i.filename)));
  }

  lemma SameThreeParts(i: Intent, j: Intent, cut: (string, string, string))
    requires ThreePart(i.action) && (i.action == Upload || i.filename == "" || IsHex(i.filename))
    requires j == Intent(i.action, cut.0, cut.1, cut.2, i.option, NoTarget, true)
    requires cut == (i.user, i.coll, i.filename) <==>
      && SlashFree(i.user) && Trimmed(i.coll) && SlashFree(i.filename)
      && (i.user == "" ==> i.coll == "" && i.filename == "")
    ensures SameRequest(j, i) <==> Canonical(i)
  {
    HexIsPlain(i.filename);
  }

  // A view or api URL never yields a filename that is not a blob ID.
  lemma ParsedBlobIsHex(url: string)
    ensures Parse(url).action == View || Parse(url).action == Api ==> Parse(url).filename == "" || IsHex(Parse(url).filename)
  {
    if url != [] && url[0] == '/' {
      var a, t := ParseAction(LeftField(url[1..])), LeftRest(url[1..]);
      if a == View || a == Api {
        BlobFieldIsHex(Intent(a, "", "", "", RestAfter(t, "?"), NoTarget, true), t[..FirstOf(t, "?")]);
      } else if a != NoAction {
        ActionIsKept(a, RestAfter(t, "?"), t[..FirstOf(t, "?")]);
      }
    }
  }

  lemma BlobFieldIsHex(start: Intent, t: string)
    requires start.filename == ""
    ensures BothEnds(start, t, [User, Collection, Blob]).filename == "" || IsHex(BothEnds(start, t, [User, Collection, Blob]).filename)
  {
    var i1 := start.(user := Decode(LeftField(t)));
    RightBlobIsHex(i1, LeftRest(t));
    ThreeFields(start, t, Blob);
    var (i2, t2) := FromRight(i1, LeftRest(t), Blob);
    assert BothEnds(start, t, [User, Collection, Blob]).filename == i2.filename;
  }

  lemma RightBlobIsHex(i: Intent, t: string)
    requires i.filename == ""
    ensures var f := FromRight(i, t, Blob).0.filename; f == "" || IsHex(f)
  {
    if IsHex(RightField(t)) {
      PlainDecodes(RightField(t));
    }
  }

  lemma {:induction false} LeftKeepsAction(i: Intent, t: string, ps: seq<Parameter>)
    ensures AllFromLeft(i, t, ps).0.action == i.action
    decreases |ps|
  {
    if ps != [] {
      var (i', t') := FromLeft(i, t, ps[0]);
      LeftKeepsAction(i', t', ps[1..]);
    }
  }

  lemma {:induction false} RightKeepsAction(i: Intent, t: string, ps: seq<Parameter>)
    ensures AllFromRight(i, t, ps).0.action == i.action
    decreases |ps|
  {
    if ps != [] {
      var (i', t') := FromRight(i, t, ps[|ps| - 1]);
      RightKeepsAction(i', t', ps[..|ps| - 1]);
    }
  }

  lemma ActionIsKept(a: Action, option: string, t: string)
    ensures ParseFields(a, option, t).action == a
  {
    var ps := Definition(a);
    var start := Intent(a, "", "", "", option, NoTarget, !(a == Query && option == ""));
    LeftKeepsAction(start, t, ps[..Middle(ps)]);
    var (i', t') := AllFromLeft(start, t, ps[..Middle(ps)]);
    RightKeepsAction(i', t', ps[Middle(ps)..]);
  }

  lemma {:induction false} PlainDecodes(s: string)
    requires IsHex(s) || '%' !in s
    ensures Decode(s) == s
  {
    assert '%' !in s;
    if s != [] {
      PlainDecodes(s[1..]);
    }
  }

  lemma {:induction false} LibParses(i: Intent)
    requires i.action == Lib && IsBytes(i.filename)
    ensures Parse(Print(i)) ==
      Intent(Lib, "", "", i.filename[..FirstOf(i.filename, "/")], i.option, NoTarget, RestAfter(i.filename, "/") == "")
  {
    PrintOne(i, Filename);
    NoQuestionMark(i.filename);
    PrintedParses(i);
    EncodedFirstSlash(i.filename);
    EncodeEmptyIff(RestAfter(i.filename, "/"));
    OneField(Intent(Lib, "", "", "", i.option, NoTarget, true), Encode(i.filename), Filename);
  }

  lemma PrintOne(i: Intent, p: Parameter)
    ensures PrintFields(i, [p]) == PrintField(i, p)
  {}

  lemma EncodeEmptyIff(s: string)
    ensures Encode(s) == "" <==> s == ""
  {}

  lemma {:induction false} LibIff(i: Intent)
    requires i.action == Lib && ByteIntent(i)
    ensures SameRequest(Parse(Print(i)), i) <==> Canonical(i)
  {
    LibParses(i);
    if SlashFree(i.filename) {
      SlashCut(i.filename, i.filename);
    }
  }

  lemma {:induction false} QueryParses(i: Intent)
    requires i.action == Query
    ensures Parse(Print(i)) == Intent(Query, "", "", "", i.option, i.target, i.option != "")
  {
    var body := TargetName(i.target);
    PrintOne(i, Target);
    TargetsParse(i.target);
    PrintedParses(i);
    LeftCut(body, body);
    OneField(Intent(Query, "", "", "", i.option, NoTarget, i.option != ""), body, Target);
  }

  lemma OneField(start: Intent, t: string, p: Parameter)
    requires p != Collection
    ensures BothEnds(start, t, [p]) == if LeftRest(t) != [] then FromLeft(start, t, p).0.(ok := false) else FromLeft(start, t, p).0
  {
    assert [p][1..] == [] && Middle([p]) == 1;
    assert [p][..1] == [p] && [p][1..] == [];
    var (i', t') := FromLeft(start, t, p);
    assert AllFromLeft(start, t, [p]) == AllFromLeft(i', t', []);
  }

  lemma {:induction false} PlainIff(i: Intent)
    requires i.action == Login || i.action == Logout || i.action == Home
    ensures SameRequest(Parse(Print(i)), i) <==> Canonical(i)
  {
    PrintedParses(i);
  }

  lemma NoActionNeverReturns(i: Intent)
    requires i.action == NoAction
    ensures Parse(Print(i)).action == Home
  {
    assert Print(i) == "/" + Head(Home) + QueryString(i.option);
    ActionComesBack(Home, QueryString(i.option));
  }

  // ------------------------------------------------------------------
  // The words of a URL
  // ------------------------------------------------------------------

  ghost predicate EndsWord(tail: string) {
    tail == "" || tail[0] == '/' || tail[0] == '?' || tail[0] == '#'
  }

  // The first word of a path says what is wanted; an empty one asks for the home page, and a URL
  // with any other word is not valid.
  lemma {:induction false} PathWords(word: string, tail: string)
    requires NoDelimiter(word) && EndsWord(tail)
    ensures var i := Parse("/" + word + tail);
            && (i.action == Login <==> word == "login") && (i.action == Logout <==> word == "logout")
            && (i.action == View <==> word == "view") && (i.action == Upload <==> word == "upload")
            && (i.action == Lib <==> word == "lib") && (i.action == Query <==> word == "query")
            && (i.action == Api <==> word == "api") && (i.action == Home <==> word == "")
            && (i.action == NoAction ==> !Valid(i))
  {
    FirstWord(word, tail);
    WordsDiffer(word);
  }

  lemma {:induction false} FirstWord(word: string, tail: string)
    requires NoDelimiter(word) && EndsWord(tail)
    ensures Parse("/" + word + tail).action == ParseAction(word)
  {
    var t := word + tail;
    assert ("/" + word + tail)[1..] == t;
    LeftCut(word, t);
    var a, rest := ParseAction(word), LeftRest(t);
    if a != NoAction {
      ActionIsKept(a, RestAfter(rest, "?"), rest[..FirstOf(rest, "?")]);
    }
  }

  lemma WordsDiffer(word: string)
    ensures var a := ParseAction(word);
            && (a == Login <==> word == "login") && (a == Logout <==> word == "logout") && (a == View <==> word == "view")
            && (a == Upload <==> word == "upload") && (a == Lib <==> word == "lib") && (a == Query <==> word == "query")
            && (a == Api <==> word == "api") && (a == Home <==> word == "")
  {}

  // The word after "query" says what is queried.
  lemma {:induction false} TargetWords(word: string, option: string)
    requires NoDelimiter(word)
    ensures var i := Parse("/query/" + word + QueryString(option));
            && i.action == Query && i.option == option
            && (i.target == BlobTarget <==> word == "blob") && (i.target == CollectionTarget <==> word == "collection")
            && (i.target == BlobSetTarget <==> word == "blob_set")
  {
    var tail := word + QueryString(option);
    assert "/query/" + word + QueryString(option) == "/" + Head(Query) + tail;
    ActionComesBack(Query, tail);
    OptionComesBack(word, option);
    QueryField(word, option);
    TargetsDiffer(word);
  }

  lemma QueryField(word: string, option: string)
    requires NoDelimiter(word)
    ensures ParseFields(Query, option, word) == Intent(Query, "", "", "", option, ParseQueryTarget(word), option != "")
  {
    LeftCut(word, word);
    OneField(Intent(Query, "", "", "", option, NoTarget, option != ""), word, Target);
  }

  lemma TargetsDiffer(word: string)
    ensures var t := ParseQueryTarget(word);
            && (t == BlobTarget <==> word == "blob") && (t == CollectionTarget <==> word == "collection")
            && (t == BlobSetTarget <==> word == "blob_set")
  {
    assert "blob"[0] == 'b' && "collection"[0] == 'c' && |"blob"| == 4 && |"blob_set"| == 8;
  }

  // What counts as a blob ID: 40 hexadecimal digits of either case.
  lemma BlobIdText(s: string)
    ensures IsHex(s) <==> |s| == 40 && forall i :: 0 <= i < |s| ==> IsDigit(s[i])
  {
    forall i | 0 <= i < |s| ensures IsDigit(s[i]) <==> HexDigit(s[i]).Some? {
      HexDigitExists(s[i]);
    }
  }

  /**
  Parsing the printed form of an intent gives back its action, user, collection, filename,
  query target and option exactly when the intent is canonical. In particular a collection may
  end in a segment that looks like a blob ID.
   */
  lemma {:induction false} RoundTripIff(i: Intent)
    requires ByteIntent(i)
    ensures SameRequest(Parse(Print(i)), i) <==> Canonical(i)
  {
    if ThreePart(i.action) {
      if i.action == Upload || i.filename == "" || IsHex(i.filename) {
        ThreePartIff(i);
      } else {
        ParsedBlobIsHex(Print(i));
      }
    } else {
      match i.action
      case Lib => LibIff(i);
      case Query => QueryParses(i);
      case NoAction => NoActionNeverReturns(i);
      case _ => PlainIff(i);
    }
  }

  // The URL of a canonical intent is accepted iff the fields its action needs are there.
  lemma {:induction false} PrintedIsValidIff(i: Intent)
    requires ByteIntent(i) && Canonical(i)
    ensures Valid(Parse(Print(i))) <==>
      match i.action
      case View => i.user != ""
      case Api => i.user != ""
      case Upload => i.user != "" && i.filename != ""
      case Lib => i.filename != ""
      case Query => i.option != ""
      case _ => true
  {
    RoundTripIff(i);
    PrintedIsOk(i);
    ValidMeans(Parse(Print(i)));
  }

  // Which fields each action needs.
  lemma ValidMeans(i: Intent)
    ensures Valid(i) <==>
      i.ok &&
      match i.action
      case View => i.user != ""
      case Api => i.user != ""
      case Upload => i.user != "" && i.filename != ""
      case Lib => i.filename != ""
      case NoAction => false
      case _ => true
  {}

  lemma PrintedIsOk(i: Intent)
    requires ByteIntent(i) && Canonical(i)
    ensures Parse(Print(i)).ok <==> (i.action == Query ==> i.option != "")
  {
    if ThreePart(i.action) {
      ThreePartParses(i);
    } else if i.action == Lib {
      LibParses(i);
      SlashCut(i.filename, i.filename);
    } else if i.action == Query {
      QueryParses(i);
    } else {
      PrintedParses(i);
    }
  }
}
