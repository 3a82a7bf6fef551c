/** Formatting of a poem's commentary for display: surrounding white space is
    stripped and a blank line ("\n\n") is put in front of each of the three
    section headings, so that every section starts a new paragraph. */
module Description {

  const Sep: string := "\n\n"
  const SourceHeading: string := "【出典】"
  const SceneHeading: string := "【背景・情景】"
  const PointHeading: string := "【文学的ポイント】"

  /** The characters Python's `str.strip()` removes (those `str.isspace()`
      accepts): the ASCII controls 0x09-0x0D and 0x1C-0x1F, the space, NEL,
      NBSP and the Unicode space separators, including the ideographic space. */
  predicate IsSpace(c: char) {
    ('\U{0009}' <= c <= '\U{000D}') || ('\U{001C}' <= c <= '\U{001F}') || c == ' ' ||
    c == '\U{0085}' || c == '\U{00A0}' || c == '\U{1680}' ||
    ('\U{2000}' <= c <= '\U{200A}') || c == '\U{2028}' || c == '\U{2029}' ||
    c == '\U{202F}' || c == '\U{205F}' || c == '\U{3000}'
  }

  /** `s` without its leading white space. */
  function TrimStart(s: string): (r: string)
    ensures |r| <= |s| && r == s[|s| - |r|..]
    ensures forall k :: 0 <= k < |s| - |r| ==> IsSpace(s[k])
    ensures r == [] || !IsSpace(r[0])
  {
    if s != [] && IsSpace(s[0]) then TrimStart(s[1..]) else s
  }

  /** `s` without its trailing white space. */
  function TrimEnd(s: string): (r: string)
    ensures |r| <= |s| && r == s[..|r|]
    ensures forall k :: |r| <= k < |s| ==> IsSpace(s[k])
    ensures r == [] || !IsSpace(r[|r| - 1])
  {
    if s != [] && IsSpace(s[|s| - 1]) then TrimEnd(s[..|s| - 1]) else s
  }

  /** Python's `str.strip()` with no argument: no longer than the text, and
      with no white space left at either end. */
  function Strip(s: string): (r: string)
    ensures |r| <= |s|
    ensures r == [] || (!IsSpace(r[0]) && !IsSpace(r[|r| - 1]))
  {
    var t := TrimStart(s);
    var r := TrimEnd(t);
    assert r != [] ==> r[0] == t[0];
    r
  }

  /** Stripping keeps a contiguous piece of the text, removes only white space
      around it, and leaves no white space at either end. */
  lemma StripSpec(s: string)
    ensures var r, lead := Strip(s), |s| - |TrimStart(s)|;
      && lead + |r| <= |s| && r == s[lead..lead + |r|]
      && (forall k :: 0 <= k < lead ==> IsSpace(s[k]))
      && (forall k :: lead + |r| <= k < |s| ==> IsSpace(s[k]))
      && (r == [] || (!IsSpace(r[0]) && !IsSpace(r[|r| - 1])))
  {
    var t := TrimStart(s);
    var r := TrimEnd(t);
    assert r == t[..|r|] && t == s[|s| - |t|..];
  }

  /** Stripping twice is stripping once. */
  lemma StripIdempotent(s: string)
    ensures Strip(Strip(s)) == Strip(s)
  {
    var r := Strip(s);
    assert r != [] ==> TrimStart(r) == r;
    assert TrimStart(r) == r;
  }

  predicate StartsWith(s: string, w: string) {
    |w| <= |s| && s[..|w|] == w
  }

  /** Python's `s.replace(pat, rep)`: every occurrence of `pat`, found left to
      right without overlap, is replaced by `rep`. */
  function ReplaceAll(s: string, pat: string, rep: string): (r: string)
    requires pat != []
    ensures |rep| >= |pat| ==> |r| >= |s|
    ensures (forall k :: 0 <= k <= |s| ==> !OccursAt(s, pat, k)) ==> r == s
    decreases |s|
  {
    if |s| < |pat| then s
    else if StartsWith(s, pat) then
      assert OccursAt(s, pat, 0);
      rep + ReplaceAll(s[|pat|..], pat, rep)
    else
      assert forall k :: 0 <= k <= |s| - 1 && OccursAt(s[1..], pat, k) ==> OccursAt(s, pat, k + 1);
      [s[0]] + ReplaceAll(s[1..], pat, rep)
  }

  /** One formatting step: a blank line in front of every `heading`. */
  function Separate(s: string, heading: string): string
    requires heading != []
  {
    ReplaceAll(s, heading, Sep + heading)
  }

  /** The inverse step: the blank line in front of `heading` removed again. */
  function Unseparate(s: string, heading: string): string
    requires heading != []
  {
    ReplaceAll(s, Sep + heading, heading)
  }

  /** The commentary as displayed under the poem. */
  function Format(description: string): (r: string)
    ensures |r| >= |Strip(description)|
  {
    Separate(Separate(Separate(Strip(description), SourceHeading), SceneHeading), PointHeading)
  }

  /** The three steps of `Format` undone, in reverse order. */
  function Unformat(text: string): string {
    Unseparate(Unseparate(Unseparate(text, PointHeading), SceneHeading), SourceHeading)
  }

  predicate NoNewline(w: string) {
    forall k :: 0 <= k < |w| ==> w[k] != '\n'
  }

  /** A section heading: no line break in it, and its first character occurs
      nowhere else in it (so two occurrences of a heading never overlap). */
  predicate IsHeading(h: string) {
    |h| >= 2 && NoNewline(h) && forall k :: 1 <= k < |h| ==> h[k] != h[0]
  }

  lemma HeadingsAreHeadings()
    ensures IsHeading(SourceHeading) && IsHeading(SceneHeading) && IsHeading(PointHeading)
    ensures SceneHeading[0] == SourceHeading[0] && PointHeading[0] == SourceHeading[0]
  {
  }

  /** The three ways the separating step begins. */
  lemma SeparateUnfold(u: string, h: string)
    requires h != []
    ensures |u| < |h| ==> Separate(u, h) == u
    ensures |u| >= |h| && StartsWith(u, h) ==> Separate(u, h) == Sep + h + Separate(u[|h|..], h)
    ensures |u| >= |h| && StartsWith(u, h) ==> Separate(u, h)[0] == '\n' && Separate(u, h)[1] == '\n'
    ensures |u| >= |h| && !StartsWith(u, h) ==> Separate(u, h) == [u[0]] + Separate(u[1..], h)
  {
  }

  /** A text that the separating step turns into one starting with `w` (a
      string without line breaks) already started with `w`. */
  lemma {:induction false} SeparatePrefix(u: string, h: string, w: string)
    requires h != [] && h[0] != '\n'
    requires NoNewline(w)
    requires StartsWith(Separate(u, h), w)
    ensures StartsWith(u, w)
    decreases |w|
  {
    SeparateUnfold(u, h);
    assert w != [] ==> Separate(u, h)[0] == w[0];
    if w != [] && |u| >= |h| && !StartsWith(u, h) {
      var out := Separate(u, h);
      assert StartsWith(Separate(u[1..], h), w[1..]) by {
        assert out[1..|w|] == w[1..];
      }
      SeparatePrefix(u[1..], h, w[1..]);
      assert u[..|w|] == [u[0]] + u[1..][..|w| - 1];
    }
  }

  /** The separating step never produces a text that starts with the heading
      itself: a heading at the front gets the blank line in front of it. */
  lemma SeparateNeverStartsWithHeading(u: string, h: string)
    requires h != [] && NoNewline(h)
    ensures !StartsWith(Separate(u, h), h)
  {
    if StartsWith(Separate(u, h), h) {
      SeparatePrefix(u, h, h);
      SeparateUnfold(u, h);
    }
  }

  /** The separated text never starts with a line break followed by the
      heading: the only line breaks in front of a heading come in pairs. */
  lemma NoHeadingAfterLineBreak(rest: string, h: string)
    requires h != [] && NoNewline(h)
    ensures !StartsWith(Separate(rest, h), "\n" + h)
  {
    var tail := Separate(rest, h);
    SeparateUnfold(rest, h);
    assert StartsWith(tail, "\n" + h) ==> |tail| > |h| && tail[1] == h[0];
    if StartsWith(tail, "\n" + h) && |rest| >= |h| && !StartsWith(rest, h) {
      assert StartsWith(Separate(rest[1..], h), h) by {
        assert tail[1..|h| + 1] == h;
      }
      SeparateNeverStartsWithHeading(rest[1..], h);
    }
  }

  /** A character that does not start a blank line and a heading is kept by
      the inverse step. */
  lemma UnseparateCons(c: char, t: string, h: string)
    requires h != [] && NoNewline(h)
    requires !StartsWith(t, "\n" + h)
    ensures Unseparate([c] + t, h) == [c] + Unseparate(t, h)
  {
    var ct, sh := [c] + t, Sep + h;
    assert sh[1..] == "\n" + h;
    if |ct| >= |sh| {
      assert ct[1..|sh|] == t[..|sh| - 1];
      assert !StartsWith(ct, sh);
      assert ct[1..] == t;
    } else {
      assert Unseparate(t, h) == t;
    }
  }

  /** Removing the blank lines puts back exactly the text before separation. */
  lemma {:induction false} UnseparateSeparate(s: string, h: string)
    requires h != [] && NoNewline(h)
    ensures Unseparate(Separate(s, h), h) == s
    decreases |s|
  {
    var sh := Sep + h;
    if |s| < |h| {
      assert Separate(s, h) == s;
    } else if StartsWith(s, h) {
      var rest := s[|h|..];
      var out := sh + Separate(rest, h);
      assert Separate(s, h) == out;
      assert StartsWith(out, sh);
      assert out[|sh|..] == Separate(rest, h);
      assert Unseparate(out, h) == h + Unseparate(Separate(rest, h), h);
      UnseparateSeparate(rest, h);
      assert s == h + rest;
    } else {
      var rest := s[1..];
      assert Separate(s, h) == [s[0]] + Separate(rest, h);
      NoHeadingAfterLineBreak(rest, h);
      UnseparateCons(s[0], Separate(rest, h), h);
      UnseparateSeparate(rest, h);
      assert s == [s[0]] + rest;
    }
  }

  /** Nothing but the inserted blank lines distinguishes the displayed
      commentary from the stripped commentary. */
  lemma FormatRoundTrip(description: string)
    ensures Unformat(Format(description)) == Strip(description)
  {
    HeadingsAreHeadings();
    var t0 := Strip(description);
    var t1 := Separate(t0, SourceHeading);
    var t2 := Separate(t1, SceneHeading);
    UnseparateSeparate(t2, PointHeading);
    UnseparateSeparate(t1, SceneHeading);
    UnseparateSeparate(t0, SourceHeading);
  }

  predicate OccursAt(t: string, q: string, i: nat) {
    i + |q| <= |t| && t[i..i + |q|] == q
  }

  /** Every occurrence of `q` in `t` at position `lo` or later has a blank
      line right in front of it. */
  predicate SeparatedFrom(t: string, q: string, lo: nat) {
    forall i :: lo <= i <= |t| && OccursAt(t, q, i) ==> 2 <= i && t[i - 2..i] == Sep
  }

  /** Positions past a prefix `u` are positions of the rest `v`. */
  lemma ShiftSeparated(u: string, v: string, q: string)
    requires q != []
    ensures SeparatedFrom(u + v, q, |u| + 2) <==> SeparatedFrom(v, q, 2)
  {
    var t := u + v;
    forall i: nat | 2 <= i
      ensures OccursAt(t, q, |u| + i) <==> OccursAt(v, q, i)
      ensures |u| + i <= |t| ==> t[|u| + i - 2..|u| + i] == v[i - 2..i]
    {
      if |u| + i + |q| <= |t| {
        assert t[|u| + i..|u| + i + |q|] == v[i..i + |q|];
      }
    }
    if SeparatedFrom(v, q, 2) {
      forall i: nat | |u| + 2 <= i && OccursAt(t, q, i)
        ensures 2 <= i && t[i - 2..i] == Sep
      {
        assert OccursAt(v, q, i - |u|);
      }
    }
    if SeparatedFrom(t, q, |u| + 2) {
      forall i: nat | 2 <= i && OccursAt(v, q, i)
        ensures t[|u| + i - 2..|u| + i] == Sep
      {
        assert OccursAt(t, q, |u| + i);
      }
    }
  }

  /** A tail too short to hold the heading `h` is left alone. */
  lemma KeepShort(ctx: string, x: string, h: string, q: string)
    requires |ctx| == 2 && |x| < |h|
    requires IsHeading(h) && IsHeading(q)
    requires q == h || SeparatedFrom(ctx + x, q, 2)
    ensures SeparatedFrom(ctx + Separate(x, h), q, 2)
  {
    var out := ctx + Separate(x, h);
    SeparateUnfold(x, h);
    forall i: nat | 2 <= i <= |out| && OccursAt(out, q, i) ensures out[i - 2..i] == Sep {
      if q != h {
        assert OccursAt(ctx + x, q, i);
      }
    }
  }

  /** The step at a heading `h`: the blank line goes in front of it, and the
      rest is read with the heading's last two characters as context. */
  lemma KeepAtHeading(ctx: string, x: string, h: string, q: string)
    requires |ctx| == 2 && |x| >= |h| && StartsWith(x, h)
    requires IsHeading(h) && IsHeading(q) && q[0] == h[0]
    requires SeparatedFrom(h[|h| - 2..] + Separate(x[|h|..], h), q, 2)
    ensures SeparatedFrom(ctx + Separate(x, h), q, 2)
  {
    var rest := h[|h| - 2..] + Separate(x[|h|..], h);
    var pre := ctx + Sep + h[..|h| - 2];
    var out := ctx + Separate(x, h);
    SeparateUnfold(x, h);
    assert out == pre + rest;
    ShiftSeparated(pre, rest, q);
    forall i: nat | 2 <= i <= |out| && OccursAt(out, q, i)
      ensures out[i - 2..i] == Sep
    {
      if i < |h| + 4 {
        assert out[i] == q[0];
      }
    }
  }

  /** The step at any other character: it is copied, and the rest is read
      with that character as the last one of the context. */
  lemma KeepElsewhere(ctx: string, x: string, h: string, q: string)
    requires |ctx| == 2 && |x| >= |h| && !StartsWith(x, h)
    requires IsHeading(h) && IsHeading(q)
    requires q == h || SeparatedFrom(ctx + x, q, 2)
    requires SeparatedFrom([ctx[1], x[0]] + Separate(x[1..], h), q, 2)
    ensures SeparatedFrom(ctx + Separate(x, h), q, 2)
  {
    var rest := [ctx[1], x[0]] + Separate(x[1..], h);
    var out := ctx + Separate(x, h);
    SeparateUnfold(x, h);
    assert out == [ctx[0]] + rest;
    ShiftSeparated([ctx[0]], rest, q);
    if OccursAt(out, q, 2) {
      assert StartsWith(Separate(x, h), q) by {
        assert out[2..] == Separate(x, h);
        assert out[2..2 + |q|] == out[2..][..|q|];
      }
      SeparatePrefix(x, h, q);
      if q != h {
        assert (ctx + x)[2..2 + |q|] == x[..|q|];
        assert OccursAt(ctx + x, q, 2);
      }
    }
  }

  /** One separating step for heading `h`, read with two characters of
      context `ctx` in front: afterwards every `h` has a blank line in front
      of it, and every heading `q` that had one before still has one. */
  lemma {:induction false} SeparateKeepsSeparated(ctx: string, x: string, h: string, q: string)
    requires |ctx| == 2
    requires IsHeading(h) && IsHeading(q) && q[0] == h[0]
    requires q == h || SeparatedFrom(ctx + x, q, 2)
    ensures SeparatedFrom(ctx + Separate(x, h), q, 2)
    decreases |x|
  {
    if |x| < |h| {
      KeepShort(ctx, x, h, q);
    } else if StartsWith(x, h) {
      var y := x[|h|..];
      var ctx2 := h[|h| - 2..];
      if q != h {
        assert ctx + x == (ctx + h[..|h| - 2]) + (ctx2 + y);
        ShiftSeparated(ctx + h[..|h| - 2], ctx2 + y, q);
      }
      SeparateKeepsSeparated(ctx2, y, h, q);
      KeepAtHeading(ctx, x, h, q);
    } else {
      var y := x[1..];
      var ctx1 := [ctx[1], x[0]];
      if q != h {
        assert ctx + x == [ctx[0]] + (ctx1 + y);
        ShiftSeparated([ctx[0]], ctx1 + y, q);
      }
      SeparateKeepsSeparated(ctx1, y, h, q);
      KeepElsewhere(ctx, x, h, q);
    }
  }

  /** Reading a text with two context characters that are not line breaks
      hides no occurrence at its very start. */
  lemma DropContext(t: string, q: string)
    requires q != [] && q[0] != '\n'
    requires SeparatedFrom(".." + t, q, 2)
    ensures SeparatedFrom(t, q, 0)
  {
    var ct := ".." + t;
    assert ct[0] == '.' && ct[1] == '.';
    forall i: nat | i <= |t| && OccursAt(t, q, i) ensures 2 <= i && t[i - 2..i] == Sep {
      assert ct[i + 2..i + 2 + |q|] == t[i..i + |q|];
      assert OccursAt(ct, q, i + 2);
      assert ct[i..i + 2] == Sep;
      assert ct[i] == '\n';
      assert 2 <= i;
      assert ct[i..i + 2] == t[i - 2..i];
    }
  }

  /** In the displayed commentary, every occurrence of each of the three
      section headings has a blank line right in front of it. */
  lemma FormatSeparatesHeadings(description: string)
    ensures SeparatedFrom(Format(description), SourceHeading, 0)
    ensures SeparatedFrom(Format(description), SceneHeading, 0)
    ensures SeparatedFrom(Format(description), PointHeading, 0)
  {
    HeadingsAreHeadings();
    var ctx := "..";
    var t0 := Strip(description);
    var t1 := Separate(t0, SourceHeading);
    var t2 := Separate(t1, SceneHeading);
    var t3 := Separate(t2, PointHeading);
    SeparateKeepsSeparated(ctx, t0, SourceHeading, SourceHeading);
    SeparateKeepsSeparated(ctx, t1, SceneHeading, SourceHeading);
    SeparateKeepsSeparated(ctx, t2, PointHeading, SourceHeading);
    SeparateKeepsSeparated(ctx, t1, SceneHeading, SceneHeading);
    SeparateKeepsSeparated(ctx, t2, PointHeading, SceneHeading);
    SeparateKeepsSeparated(ctx, t2, PointHeading, PointHeading);
    DropContext(t3, SourceHeading);
    DropContext(t3, SceneHeading);
    DropContext(t3, PointHeading);
  }
}
