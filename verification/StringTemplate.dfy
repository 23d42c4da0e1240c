/**
HTML templates (src/server/util/StringTemplate.cc): a file is cut into segments, and text is
later injected into the gaps between them.
 */
module StringTemplate {
  import opened Common

  predicate At(s: string, needle: string, k: nat) {
    k + |needle| <= |s| && s[k..k + |needle|] == needle
  }

  // std::string_view::find(): the first occurrence.
  ghost predicate FirstAt(s: string, needle: string, r: Option<nat>) {
    match r
    case Some(k) => At(s, needle, k) && forall j: nat :: j < k ==> !At(s, needle, j)
    case None => forall j: nat :: !At(s, needle, j)
  }

  method Find(s: string, needle: string) returns (r: Option<nat>)
    ensures FirstAt(s, needle, r)
  {
    var k := 0;
    while k + |needle| <= |s|
      invariant 0 <= k && forall j: nat :: j < k ==> !At(s, needle, j)
    {
      if s[k..k + |needle|] == needle {
        return Some(k);
      }
      k := k + 1;
    }
    return None;
  }

  // segment, gap, segment, gap, ..., segment
  function Weave(src: seq<string>, gaps: seq<string>): string
    requires |src| == |gaps| + 1
  {
    if gaps == [] then src[0] else src[0] + gaps[0] + Weave(src[1..], gaps[1..])
  }

  // Cutting segment i in two weaves back to the same text.
  lemma {:induction false} WeaveSplit(src: seq<string>, gaps: seq<string>, i: nat, a: string, gap: string, b: string)
    requires |src| == |gaps| + 1 && i < |src| && src[i] == a + gap + b
    ensures Weave(src[..i] + [a, b] + src[i + 1..], gaps[..i] + [gap] + gaps[i..]) == Weave(src, gaps)
  {
    var src', gaps' := src[..i] + [a, b] + src[i + 1..], gaps[..i] + [gap] + gaps[i..];
    if i == 0 {
      assert src'[1..] == [b] + src[1..] && gaps'[1..] == gaps;
      if gaps != [] {
        assert src'[1..][1..] == src[1..];
      }
    } else {
      assert src'[1..] == src[1..][..i - 1] + [a, b] + src[1..][i..];
      assert gaps'[1..] == gaps[1..][..i - 1] + [gap] + gaps[1..][i - 1..];
      WeaveSplit(src[1..], gaps[1..], i - 1, a, gap, b);
    }
  }

  lemma {:induction false} WeaveAppend(src: seq<string>, gaps: seq<string>)
    requires |src| == |gaps| + 1
    ensures Weave(src + [""], gaps + [""]) == Weave(src, gaps)
  {
    var n := |src| - 1;
    WeaveSplit(src, gaps, n, src[n], "", "");
    assert src + [""] == src[..n] + [src[n], ""] + src[n + 1..];
    assert gaps + [""] == gaps[..n] + [""] + gaps[n..];
    assert src[n] + "" + "" == src[n];
  }

  /**
  Besides the segments the object remembers what each gap removed and the original file; the
  two always weave back together.
   */
  class Template {
    var src: seq<string>
    ghost var gaps: seq<string>
    ghost const file: string

    ghost predicate Valid()
      reads this
    {
      |src| == |gaps| + 1 && Weave(src, gaps) == file
    }

    constructor (file: string)
      ensures Valid() && this.file == file && src == [file] && gaps == []
    {
      this.file := file;
      src, gaps := [file], [];
    }

    method Inject(needle: string, before: nat, after: nat)
      requires Valid() && before + after <= |needle|
      modifies this
      ensures Valid() && |gaps| == |old(gaps)| + 1
      ensures InjectedAt(old(src), old(gaps), needle, before, after, src, gaps)
    {
      var i := 0;
      while i < |src|
        invariant 0 <= i <= |src| && src == old(src) && gaps == old(gaps)
        invariant forall j, k: nat :: 0 <= j < i ==> needle == "" || !At(src[j], needle, k)
      {
        var offset: Option<nat> := None;
        if needle != "" {
          offset := Find(src[i], needle);
        }
        if offset.Some? {
          Split(i, offset.value, needle, before, after);
          assert InjectedIn(old(src), old(gaps), needle, before, after, src, gaps, i, offset.value);
          return;
        }
        i := i + 1;
      }
      WeaveAppend(src, gaps);
      src, gaps := src + [""], gaps + [""];
    }

    method Split(i: nat, offset: nat, needle: string, before: nat, after: nat)
      requires Valid() && before + after <= |needle| && i < |src| && At(src[i], needle, offset)
      modifies this
      ensures Valid() && |gaps| == |old(gaps)| + 1
      ensures src == old(src)[..i] + [old(src)[i][..offset + before], old(src)[i][offset + |needle| - after..]] + old(src)[i + 1..]
      ensures gaps == old(gaps)[..i] + [needle[before..|needle| - after]] + old(gaps)[i..]
    {
      var first := src[i][..offset + before];
      var second := src[i][offset + |needle| - after..];
      ghost var gap := needle[before..|needle| - after];
      assert src[i] == first + gap + second by {
        assert src[i] == src[i][..offset] + needle + src[i][offset + |needle|..];
      }
      WeaveSplit(src, gaps, i, first, gap, second);
      ghost var old_ := src;
      src := src[i := first];
      src := src[..i + 1] + [second] + src[i + 1..];
      assert src == old_[..i] + [first, second] + old_[i + 1..];
      gaps := gaps[..i] + [gap] + gaps[i..];
    }

    method Replace(needle: string)
      requires Valid()
      modifies this
      ensures Valid() && |gaps| == |old(gaps)| + 1
      ensures InjectedAt(old(src), old(gaps), needle, 0, 0, src, gaps)
    {
      Inject(needle, 0, 0);
    }

    // Only `subneedle`, where it first occurs in the needle, is taken out.
    method ReplaceInside(needle: string, subneedle: string)
      requires Valid()
      modifies this
      ensures Valid()
      ensures (forall k: nat :: !At(needle, subneedle, k)) ==> src == old(src) && gaps == old(gaps)
      ensures forall k: nat :: FirstAt(needle, subneedle, Some(k)) ==>
        && |gaps| == |old(gaps)| + 1
        && InjectedAt(old(src), old(gaps), needle, k, |needle| - k - |subneedle|, src, gaps)
    {
      var offset := Find(needle, subneedle);
      if offset.Some? {
        Inject(needle, offset.value, |needle| - offset.value - |subneedle|);
      }
    }

    method InjectBefore(needle: string)
      requires Valid()
      modifies this
      ensures Valid() && |gaps| == |old(gaps)| + 1
      ensures InjectedAt(old(src), old(gaps), needle, 0, |needle|, src, gaps)
    {
      Inject(needle, 0, |needle|);
    }

    method InjectAfter(needle: string)
      requires Valid()
      modifies this
      ensures Valid() && |gaps| == |old(gaps)| + 1
      ensures InjectedAt(old(src), old(gaps), needle, |needle|, 0, src, gaps)
    {
      Inject(needle, |needle|, 0);
    }
  }

  // The first occurrence in the first segment that has one is cut, keeping `before` bytes of the
  // needle on the left and `after` on the right.
  ghost predicate InjectedIn(src: seq<string>, gaps: seq<string>, needle: string, before: nat, after: nat,
                             src': seq<string>, gaps': seq<string>, i: nat, k: nat)
    requires before + after <= |needle|
  {
    && needle != "" && i < |src| && i <= |gaps| && At(src[i], needle, k) && (forall j: nat :: j < k ==> !At(src[i], needle, j))
    && (forall j, m: nat :: 0 <= j < i ==> !At(src[j], needle, m))
    && src' == src[..i] + [src[i][..k + before], src[i][k + |needle| - after..]] + src[i + 1..]
    && gaps' == gaps[..i] + [needle[before..|needle| - after]] + gaps[i..]
  }

  // Without an occurrence an empty gap goes to the end.
  ghost predicate InjectedAt(src: seq<string>, gaps: seq<string>, needle: string, before: nat, after: nat,
                             src': seq<string>, gaps': seq<string>)
    requires before + after <= |needle|
  {
    || (exists i: nat, k: nat :: InjectedIn(src, gaps, needle, before, after, src', gaps', i, k))
    || ((forall j, k: nat :: 0 <= j < |src| ==> needle == "" || !At(src[j], needle, k)) && src' == src + [""] && gaps' == gaps + [""])
  }

  // ------------------------------------------------------------------
  // Instantiation (StringTemplate.hh)
  // ------------------------------------------------------------------

  function Concat(parts: seq<string>): string {
    if parts == [] then "" else parts[0] + Concat(parts[1..])
  }

  lemma {:induction false} ConcatSnoc(parts: seq<string>, p: string)
    ensures Concat(parts + [p]) == Concat(parts) + p
  {
    if parts != [] {
      assert (parts + [p])[1..] == parts[1..] + [p];
      ConcatSnoc(parts[1..], p);
    }
  }

  function Blank(n: nat): seq<string> { seq(n, _ => "") }

  /** An instance with room for N extra texts, so N + 1 segments. */
  class Instance {
    const size: nat
    var src: seq<string>
    var extra: seq<string>

    ghost predicate Valid()
      reads this
    {
      |extra| == size && |src| == size + 1
    }

    constructor (n: nat, segments: seq<string>)
      requires |segments| <= n + 1
      ensures Valid() && size == n && extra == Blank(n) && src == segments + Blank(n + 1 - |segments|)
    {
      size := n;
      src := segments + Blank(n + 1 - |segments|);
      extra := Blank(n);
    }

    // std::array::at() throws for an index without a gap.
    method SetExtra(i: nat, text: string) returns (ok: bool)
      requires Valid()
      modifies this`extra
      ensures Valid() && ok == (i < size) && extra == if ok then old(extra)[i := text] else old(extra)
    {
      ok := i < size;
      if ok {
        extra := extra[i := text];
      }
    }

    // Empty pieces are skipped, except a leading one.
    method Data() returns (result: seq<string>)
      requires Valid()
      ensures Concat(result) == Weave(src, extra)
    {
      result := [src[0]];
      assert Concat([src[0]]) == src[0] by { assert [src[0]][1..] == []; }
      var i := 0;
      while i + 1 < |src| && i < |extra|
        invariant 0 <= i <= |extra|
        invariant Concat(result) + Gaps(src[i + 1..], extra[i..]) == src[0] + Gaps(src[1..], extra)
      {
        ghost var before := result;
        if |extra[i]| > 0 {
          ConcatSnoc(result, extra[i]);
          result := result + [extra[i]];
        }
        assert Concat(result) == Concat(before) + extra[i];
        ghost var middle := result;
        if |src[i + 1]| > 0 {
          ConcatSnoc(result, src[i + 1]);
          result := result + [src[i + 1]];
        }
        assert Concat(result) == Concat(middle) + src[i + 1];
        assert src[i + 1..][1..] == src[i + 2..] && extra[i..][1..] == extra[i + 1..];
        GapsStep(Concat(before), src[i + 1..], extra[i..]);
        i := i + 1;
      }
      WeaveGaps(src, extra);
    }

    method Str() returns (s: string)
      requires Valid()
      ensures s == Weave(src, extra)
    {
      var bufs := Data();
      s := "";
      for i := 0 to |bufs|
        invariant s == Concat(bufs[..i])
      {
        assert bufs[..i + 1] == bufs[..i] + [bufs[i]];
        ConcatSnoc(bufs[..i], bufs[i]);
        s := s + bufs[i];
      }
      assert bufs[..|bufs|] == bufs;
    }
  }

  function Gaps(src: seq<string>, extra: seq<string>): string
    requires |src| == |extra|
  {
    if src == [] then "" else extra[0] + src[0] + Gaps(src[1..], extra[1..])
  }

  lemma {:induction false} GapsStep(done: string, src: seq<string>, extra: seq<string>)
    requires |src| == |extra| && src != []
    ensures done + extra[0] + src[0] + Gaps(src[1..], extra[1..]) == done + Gaps(src, extra)
  {}

  lemma {:induction false} WeaveGaps(src: seq<string>, extra: seq<string>)
    requires |src| == |extra| + 1
    ensures Weave(src, extra) == src[0] + Gaps(src[1..], extra)
  {
    if extra != [] {
      WeaveGaps(src[1..], extra[1..]);
      assert src[1..][1..] == src[2..];
    }
  }

  lemma {:induction false} WeaveBlank(src: seq<string>, gaps: seq<string>, k: nat)
    requires |src| == |gaps| + 1
    ensures Weave(src + Blank(k), gaps + Blank(k)) == Weave(src, gaps)
  {
    if k == 0 {
      assert src + Blank(0) == src && gaps + Blank(0) == gaps;
    } else {
      WeaveBlank(src, gaps, k - 1);
      assert Blank(k) == Blank(k - 1) + [""];
      assert src + Blank(k) == src + Blank(k - 1) + [""] && gaps + Blank(k) == gaps + Blank(k - 1) + [""];
      WeaveAppend(src + Blank(k - 1), gaps + Blank(k - 1));
    }
  }

  // std::out_of_range unless the segments fit; missing segments stay empty.
  method Instantiate(n: nat, segments: seq<string>) returns (r: Instance?)
    ensures r == null <==> |segments| > n + 1
    ensures r != null ==> fresh(r) && r.Valid() && r.size == n && r.extra == Blank(n) && r.src == segments + Blank(n + 1 - |segments|)
  {
    if |segments| > n + 1 {
      return null;
    }
    r := new Instance(n, segments);
  }

  /**
  Instantiating a template and filling every gap with the text it removed reproduces the file,
  whatever was replaced or injected before, if the template fits the instance.
   */
  method Reproduce(t: Template, removed: seq<string>, n: nat) returns (s: Option<string>)
    requires t.Valid() && removed == t.gaps
    ensures s == if |t.src| <= n + 1 then Some(t.file) else None
  {
    var instance := Instantiate(n, t.src);
    if instance == null {
      return None;
    }
    var i := 0;
    while i < |removed|
      invariant 0 <= i <= |removed| && instance.Valid() && instance.size == n && fresh(instance)
      invariant instance.src == t.src + Blank(n + 1 - |t.src|)
      invariant instance.extra == removed[..i] + Blank(n - i)
    {
      var ok := instance.SetExtra(i, removed[i]);
      i := i + 1;
    }
    assert removed[..|removed|] == removed;
    WeaveBlank(t.src, t.gaps, n + 1 - |t.src|);
    var text := instance.Str();
    s := Some(text);
  }
}
