/** Templates as text with holes: substituting a placeholder is filling its holes. */
module TemplateText {
  import opened Wrappers
  import opened Bytes
  import opened Template

  // ---------------------------------------------------------------------------------------------
  // Templates: text with holes.
  // ---------------------------------------------------------------------------------------------

  datatype Segment = Literal(text: string) | Hole(key: string)

  predicate NoBraces(s: string) {
    '{' !in s && '}' !in s
  }

  predicate Plain(segments: seq<Segment>) {
    forall i :: 0 <= i < |segments| ==> NoBraces(if segments[i].Literal? then segments[i].text else segments[i].key)
  }

  function SegmentText(x: Segment): string {
    if x.Literal? then x.text else Placeholder(x.key)
  }

  function Render(segments: seq<Segment>): string {
    if segments == [] then [] else SegmentText(segments[0]) + Render(segments[1..])
  }

  /** Values for some keys. */
  type Filling = map<string, string>

  function FillSegment(x: Segment, m: Filling): Segment {
    if x.Hole? && x.key in m then Literal(m[x.key]) else x
  }

  function Fill(segments: seq<Segment>, m: Filling): (r: seq<Segment>)
    ensures |r| == |segments| && forall i :: 0 <= i < |r| ==> r[i] == FillSegment(segments[i], m)
  {
    if segments == [] then [] else [FillSegment(segments[0], m)] + Fill(segments[1..], m)
  }

  /** A text that starts with no brace is not the start of a placeholder. */
  lemma {:induction false} SkipLiteral(text: string, rest: string, pattern: string, value: string)
    requires |pattern| > 0 && pattern[0] == '{' && '{' !in text
    ensures Replace(text + rest, pattern, value) == text + Replace(rest, pattern, value)
    decreases |text|
  {
    if text == [] {
      assert text + rest == rest;
    } else {
      var s := text + rest;
      assert s[0] == text[0] && s[1..] == text[1..] + rest;
      SkipLiteral(text[1..], rest, pattern, value);
      assert [text[0]] + (text[1..] + Replace(rest, pattern, value)) == text + Replace(rest, pattern, value);
    }
  }

  lemma ReplaceAtFront(pattern: string, rest: string, value: string)
    requires pattern != []
    ensures Replace(pattern + rest, pattern, value) == value + Replace(rest, pattern, value)
  {
    assert (pattern + rest)[|pattern|..] == rest;
  }

  /** The placeholder of one key is not the start of the placeholder of another. */
  lemma PlaceholdersDiffer(key: string, other: string, rest: string)
    requires NoBraces(key) && NoBraces(other) && key != other
    ensures !(Placeholder(key) <= Placeholder(other) + rest)
  {
    var a, b := Placeholder(key), Placeholder(other) + rest;
    assert forall i :: 0 <= i < |key| ==> a[i + 2] == key[i] && key[i] in key;
    assert forall i :: 0 <= i < |other| ==> b[i + 2] == other[i] && other[i] in other;
    if |key| < |other| {
      assert a[|key| + 2] != b[|key| + 2];
    } else if |key| > |other| {
      assert a[|other| + 2] != b[|other| + 2];
    } else {
      var i :| 0 <= i < |key| && key[i] != other[i];
      assert a[i + 2] != b[i + 2];
    }
  }

  lemma BraceIsNotDouble(key: string, other: string, rest: string)
    requires NoBraces(other)
    ensures !(Placeholder(key) <= "{" + other + "}}" + rest)
  {
    var b := "{" + other + "}}" + rest;
    assert b[1] != '{' by {
      if other != [] {
        assert b[1] == other[0] && other[0] in other;
      }
    }
    assert Placeholder(key)[1] == '{';
  }

  /** Another key's placeholder is left as it is. */
  lemma SkipPlaceholder(key: string, other: string, rest: string, value: string)
    requires NoBraces(key) && NoBraces(other) && key != other
    ensures Replace(Placeholder(other) + rest, Placeholder(key), value)
            == Placeholder(other) + Replace(rest, Placeholder(key), value)
  {
    var s, inner := Placeholder(other) + rest, other + "}}";
    PlaceholdersDiffer(key, other, rest);
    assert s[0] == '{' && s[1..] == "{" + inner + rest;
    BraceIsNotDouble(key, other, rest);
    assert "{" + inner + rest == "{" + other + "}}" + rest;
    assert ("{" + inner + rest)[1..] == inner + rest;
    SkipLiteral(inner, rest, Placeholder(key), value);
    assert "{" + ("{" + (inner + Replace(rest, Placeholder(key), value)))
           == Placeholder(other) + Replace(rest, Placeholder(key), value);
  }

  /** Replacing a placeholder in the text of a template is filling its holes. */
  lemma {:induction false} ReplaceIsFill(segments: seq<Segment>, key: string, value: string)
    requires Plain(segments) && NoBraces(key)
    ensures Replace(Render(segments), Placeholder(key), value) == Render(Fill(segments, map[key := value]))
    decreases |segments|
  {
    hide Replace, Placeholder;
    if segments == [] {
      NothingToReplace(key, value);
    } else {
      var x, rest := segments[0], segments[1..];
      assert forall i :: 0 <= i < |rest| ==> rest[i] == segments[i + 1];
      ReplaceIsFill(rest, key, value);
      FirstSegment(x, Render(rest), key, value);
      assert Fill(segments, map[key := value])[1..] == Fill(rest, map[key := value]);
    }
  }

  lemma NothingToReplace(key: string, value: string)
    ensures Replace([], Placeholder(key), value) == []
  {
  }

  lemma FirstSegment(x: Segment, rest: string, key: string, value: string)
    requires NoBraces(key) && NoBraces(if x.Literal? then x.text else x.key)
    ensures Replace(SegmentText(x) + rest, Placeholder(key), value)
            == SegmentText(FillSegment(x, map[key := value])) + Replace(rest, Placeholder(key), value)
  {
    hide Replace;
    if x.Literal? {
      SkipLiteral(x.text, rest, Placeholder(key), value);
    } else if x.key == key {
      ReplaceAtFront(Placeholder(key), rest, value);
    } else {
      SkipPlaceholder(key, x.key, rest, value);
    }
  }

  /** Filling one more key. */
  lemma FillOneMore(segments: seq<Segment>, m: Filling, key: string, value: string)
    requires key !in m
    ensures Fill(Fill(segments, m), map[key := value]) == Fill(segments, m[key := value])
  {
  }

  lemma FillKeepsPlain(segments: seq<Segment>, m: Filling)
    requires Plain(segments) && forall k :: k in m ==> NoBraces(m[k])
    ensures Plain(Fill(segments, m))
  {
  }

  // ---------------------------------------------------------------------------------------------
  // Request templates.
  // ---------------------------------------------------------------------------------------------

  /** A header: placeholders in its name are searched for, but only those in its value are filled. */
  datatype HeaderShape = HeaderShape(name: seq<Segment>, value: seq<Segment>)

  datatype Shape = Shape(url: seq<Segment>, headers: seq<HeaderShape>, body: Option<seq<Segment>>)

  predicate PlainShape(t: Shape) {
    && Plain(t.url)
    && (forall i :: 0 <= i < |t.headers| ==> Plain(t.headers[i].value))
    && (t.body.Some? ==> Plain(t.body.value))
  }

  function RenderHeaders(hs: seq<HeaderShape>): seq<(string, string)> {
    if hs == [] then [] else [(Render(hs[0].name), Render(hs[0].value))] + RenderHeaders(hs[1..])
  }

  function RenderShape(t: Shape): Variant {
    Variant(Render(t.url), RenderHeaders(t.headers), if t.body.None? then None else Some(Render(t.body.value)))
  }

  function FillHeaders(hs: seq<HeaderShape>, m: Filling): (r: seq<HeaderShape>)
    ensures |r| == |hs| && forall i :: 0 <= i < |r| ==> r[i] == HeaderShape(hs[i].name, Fill(hs[i].value, m))
  {
    if hs == [] then [] else [HeaderShape(hs[0].name, Fill(hs[0].value, m))] + FillHeaders(hs[1..], m)
  }

  function FillShape(t: Shape, m: Filling): Shape {
    Shape(Fill(t.url, m), FillHeaders(t.headers, m), if t.body.None? then None else Some(Fill(t.body.value, m)))
  }

  lemma {:induction false} SubstituteHeadersIsFill(hs: seq<HeaderShape>, key: string, value: string)
    requires NoBraces(key) && forall i :: 0 <= i < |hs| ==> Plain(hs[i].value)
    ensures SubstituteHeaders(RenderHeaders(hs), key, value) == RenderHeaders(FillHeaders(hs, map[key := value]))
    decreases |hs|
  {
    hide Replace, Render, Fill;
    if hs != [] {
      ReplaceIsFill(hs[0].value, key, value);
      assert forall i :: 0 <= i < |hs[1..]| ==> hs[1..][i] == hs[i + 1];
      SubstituteHeadersIsFill(hs[1..], key, value);
      assert RenderHeaders(hs)[1..] == RenderHeaders(hs[1..]);
      assert FillHeaders(hs, map[key := value])[1..] == FillHeaders(hs[1..], map[key := value]);
    }
  }

  lemma SubstituteIsFill(t: Shape, key: string, value: string)
    requires PlainShape(t) && NoBraces(key)
    ensures Substitute(RenderShape(t), key, value) == RenderShape(FillShape(t, map[key := value]))
  {
    hide Replace, Render, Fill, SubstituteHeaders, RenderHeaders, FillHeaders;
    ReplaceIsFill(t.url, key, value);
    SubstituteHeadersIsFill(t.headers, key, value);
    if t.body.Some? {
      ReplaceIsFill(t.body.value, key, value);
    }
  }

  /** The value substituted later joins the filling. */
  lemma SubstituteExtends(t: Shape, m: Filling, key: string, value: string)
    requires PlainShape(t) && NoBraces(key) && key !in m && forall k :: k in m ==> NoBraces(m[k])
    ensures Substitute(RenderShape(FillShape(t, m)), key, value) == RenderShape(FillShape(t, m[key := value]))
  {
    hide Substitute, RenderShape, Plain;
    var filled := FillShape(t, m);
    FillKeepsPlain(t.url, m);
    if t.body.Some? {
      FillKeepsPlain(t.body.value, m);
      FillOneMore(t.body.value, m, key, value);
    }
    forall i | 0 <= i < |t.headers|
      ensures Plain(filled.headers[i].value)
      ensures Fill(filled.headers[i].value, map[key := value]) == Fill(t.headers[i].value, m[key := value])
    {
      FillKeepsPlain(t.headers[i].value, m);
      FillOneMore(t.headers[i].value, m, key, value);
    }
    SubstituteIsFill(filled, key, value);
    FillOneMore(t.url, m, key, value);
    assert FillHeaders(filled.headers, map[key := value]) == FillHeaders(t.headers, m[key := value]);
  }

  // ---------------------------------------------------------------------------------------------
  // A payload is referenced exactly when its hole occurs.
  // ---------------------------------------------------------------------------------------------

  /** No placeholder starts inside a segment that is not its own hole. */
  lemma NotInside(x: Segment, rest: string, key: string, i: nat)
    requires NoBraces(key) && NoBraces(if x.Literal? then x.text else x.key) && x != Hole(key) && i < |SegmentText(x)|
    ensures !OccursAt(SegmentText(x) + rest, Placeholder(key), i)
  {
    var s, p := SegmentText(x) + rest, Placeholder(key);
    assert p[0] == '{' && p[1] == '{';
    if x.Literal? {
      assert s[i] in x.text;
    } else if i == 0 {
      PlaceholdersDiffer(key, x.key, rest);
    } else {
      var inner := x.key + "}}";
      assert forall j :: 0 <= j < |inner| ==> s[j + 2] == inner[j] && (j < |x.key| ==> inner[j] in x.key);
      if i == 1 {
        assert s[2] == inner[0];
      } else {
        assert s[i] == inner[i - 2];
      }
    }
  }

  lemma ContainedInRest(text: string, rest: string, p: string)
    requires p != [] && forall i :: 0 <= i < |text| ==> !OccursAt(text + rest, p, i)
    ensures Contains(text + rest, p) <==> Contains(rest, p)
  {
    var s := text + rest;
    if Contains(rest, p) {
      OccursInRest(text, rest, p, Find(rest, p).value);
    }
    if Contains(s, p) {
      OccursInRest(text, rest, p, Find(s, p).value - |text|);
    }
  }

  lemma OccursInRest(text: string, rest: string, p: string, i: int)
    requires 0 <= i
    ensures OccursAt(text + rest, p, |text| + i) <==> OccursAt(rest, p, i)
  {
    if i + |p| <= |rest| {
      var s := text + rest;
      assert s[|text| + i..|text| + i + |p|] == rest[i..i + |p|];
    }
  }

  lemma FirstOccurrence(x: Segment, rest: string, key: string)
    requires NoBraces(key) && NoBraces(if x.Literal? then x.text else x.key)
    ensures Contains(SegmentText(x) + rest, Placeholder(key)) <==> x == Hole(key) || Contains(rest, Placeholder(key))
  {
    hide OccursAt;
    if x == Hole(key) {
      StartsWithIt(Placeholder(key), rest);
    } else {
      forall i: nat | i < |SegmentText(x)|
        ensures !OccursAt(SegmentText(x) + rest, Placeholder(key), i)
      {
        NotInside(x, rest, key, i);
      }
      ContainedInRest(SegmentText(x), rest, Placeholder(key));
    }
  }

  lemma StartsWithIt(p: string, rest: string)
    requires p != []
    ensures Contains(p + rest, p)
  {
    assert OccursAt(p + rest, p, 0);
  }

  lemma {:induction false} ContainsIsHole(segments: seq<Segment>, key: string)
    requires Plain(segments) && NoBraces(key)
    ensures Contains(Render(segments), Placeholder(key)) <==> Hole(key) in segments
    decreases |segments|
  {
    hide Contains, Placeholder;
    if segments == [] {
      NothingContained(key);
    } else {
      assert forall i :: 0 <= i < |segments[1..]| ==> segments[1..][i] == segments[i + 1];
      ContainsIsHole(segments[1..], key);
      FirstOccurrence(segments[0], Render(segments[1..]), key);
      assert segments == [segments[0]] + segments[1..];
    }
  }

  lemma NothingContained(key: string)
    ensures !Contains([], Placeholder(key))
  {
  }

  lemma {:induction false} RenderAppend(a: seq<Segment>, b: seq<Segment>)
    ensures Render(a + b) == Render(a) + Render(b)
    decreases |a|
  {
    if a == [] {
      assert a + b == b;
    } else {
      assert (a + b)[1..] == a[1..] + b;
      RenderAppend(a[1..], b);
    }
  }

  function HeaderSegments(hs: seq<HeaderShape>): seq<Segment> {
    if hs == [] then [] else [Literal(" ")] + (hs[0].name + (hs[0].value + HeaderSegments(hs[1..])))
  }

  function BodySegments(body: Option<seq<Segment>>): seq<Segment> {
    if body.None? then [] else [Literal(" ")] + body.value
  }

  function HaystackSegments(t: Shape): seq<Segment> {
    t.url + BodySegments(t.body) + HeaderSegments(t.headers)
  }

  lemma {:induction false} HeaderTextIsRender(hs: seq<HeaderShape>)
    ensures HeaderText(RenderHeaders(hs)) == Render(HeaderSegments(hs))
    decreases |hs|
  {
    hide Render;
    if hs == [] {
      RenderNothing();
    } else {
      var name, value, rest := hs[0].name, hs[0].value, HeaderSegments(hs[1..]);
      HeaderTextIsRender(hs[1..]);
      assert RenderHeaders(hs)[1..] == RenderHeaders(hs[1..]);
      RenderAppend(value, rest);
      RenderAppend(name, value + rest);
      RenderText(" ", name + (value + rest));
      assert " " + Render(name) + Render(value) + Render(rest) == " " + (Render(name) + (Render(value) + Render(rest)));
    }
  }

  lemma RenderNothing()
    ensures Render([]) == []
  {
  }

  lemma RenderText(text: string, rest: seq<Segment>)
    ensures Render([Literal(text)] + rest) == text + Render(rest)
  {
    assert ([Literal(text)] + rest)[1..] == rest;
  }

  lemma HaystackIsRender(t: Shape)
    ensures Haystack(RenderShape(t)) == Render(HaystackSegments(t))
  {
    hide HeaderSegments, HeaderText;
    HeaderTextIsRender(t.headers);
    RenderAppend(t.url + BodySegments(t.body), HeaderSegments(t.headers));
    RenderAppend(t.url, BodySegments(t.body));
    if t.body.Some? {
      assert ([Literal(" ")] + t.body.value)[1..] == t.body.value;
    }
  }

  /** The key's placeholder occurs in the URL, the body or a header value, where it will be filled. */
  ghost predicate InText(t: Shape, key: string) {
    || Hole(key) in t.url || (t.body.Some? && Hole(key) in t.body.value)
    || exists i :: 0 <= i < |t.headers| && Hole(key) in t.headers[i].value
  }

  /** It occurs in a header name, where it will not. */
  ghost predicate InNames(t: Shape, key: string) {
    exists i :: 0 <= i < |t.headers| && Hole(key) in t.headers[i].name
  }

  ghost predicate Mentions(t: Shape, key: string) {
    InText(t, key) || InNames(t, key)
  }

  lemma {:induction false} HeaderHoles(hs: seq<HeaderShape>, key: string)
    ensures Hole(key) in HeaderSegments(hs)
            <==> exists i :: 0 <= i < |hs| && (Hole(key) in hs[i].name || Hole(key) in hs[i].value)
    decreases |hs|
  {
    if hs != [] {
      HeaderHoles(hs[1..], key);
      assert hs == [hs[0]] + hs[1..];
      assert forall i :: 0 <= i < |hs[1..]| ==> hs[1..][i] == hs[i + 1];
      if i :| 0 <= i < |hs| && (Hole(key) in hs[i].name || Hole(key) in hs[i].value) {
        if i > 0 {
          assert hs[1..][i - 1] == hs[i];
        }
      }
    }
  }

  lemma {:induction false} HeaderSegmentsArePlain(hs: seq<HeaderShape>)
    requires forall i :: 0 <= i < |hs| ==> Plain(hs[i].name) && Plain(hs[i].value)
    ensures Plain(HeaderSegments(hs))
    decreases |hs|
  {
    if hs != [] {
      assert forall i :: 0 <= i < |hs[1..]| ==> hs[1..][i] == hs[i + 1];
      HeaderSegmentsArePlain(hs[1..]);
      var a, b, c, d := [Literal(" ")], hs[0].name, hs[0].value, HeaderSegments(hs[1..]);
      assert Plain(a) && Plain(b) && Plain(c);
      PlainAppend(c, d);
      PlainAppend(b, c + d);
      PlainAppend(a, b + (c + d));
    }
  }

  lemma PlainAppend(a: seq<Segment>, b: seq<Segment>)
    requires Plain(a) && Plain(b)
    ensures Plain(a + b)
  {
  }

  /** The text of the template, header names included, has no braces but those of its holes. */
  predicate PlainTemplate(t: Shape) {
    PlainShape(t) && forall i :: 0 <= i < |t.headers| ==> Plain(t.headers[i].name)
  }

  lemma ReferencedExactly(t: Shape, key: string)
    requires PlainTemplate(t) && NoBraces(key)
    ensures Contains(Haystack(RenderShape(t)), Placeholder(key)) <==> Mentions(t, key)
  {
    hide Contains, Placeholder, Haystack, Render, RenderShape, HeaderSegments, Plain;
    HaystackIsRender(t);
    HeaderSegmentsArePlain(t.headers);
    BodySegmentsArePlain(t.body);
    PlainAppend(t.url, BodySegments(t.body));
    PlainAppend(t.url + BodySegments(t.body), HeaderSegments(t.headers));
    ContainsIsHole(HaystackSegments(t), key);
    HeaderHoles(t.headers, key);
  }

  lemma BodySegmentsArePlain(body: Option<seq<Segment>>)
    requires body.Some? ==> Plain(body.value)
    ensures Plain(BodySegments(body))
  {
  }

  /** Filling removes exactly the holes of the keys filled, but not those in header names. */
  lemma FilledMentions(t: Shape, m: Filling, key: string)
    requires forall k :: k in m ==> NoBraces(m[k])
    ensures Mentions(FillShape(t, m), key) <==> InNames(t, key) || (InText(t, key) && key !in m)
  {
    hide Fill;
    var f := FillShape(t, m);
    FilledHole(t.url, m, key);
    if t.body.Some? {
      FilledHole(t.body.value, m, key);
    }
    forall i | 0 <= i < |t.headers|
      ensures f.headers[i].name == t.headers[i].name
      ensures Hole(key) in f.headers[i].value <==> Hole(key) in t.headers[i].value && key !in m
    {
      FilledHole(t.headers[i].value, m, key);
    }
    assert InNames(f, key) <==> InNames(t, key);
  }

  lemma FilledHole(segments: seq<Segment>, m: Filling, key: string)
    ensures Hole(key) in Fill(segments, m) <==> Hole(key) in segments && key !in m
  {
    if Hole(key) in segments {
      var i :| 0 <= i < |segments| && segments[i] == Hole(key);
      assert Fill(segments, m)[i] == FillSegment(segments[i], m);
    }
  }

  /** A value for a key that is in no text to be filled changes nothing. */
  lemma FillIgnores(t: Shape, m: Filling, key: string, value: string)
    requires !InText(t, key)
    ensures FillShape(t, m[key := value]) == FillShape(t, m - {key})
  {
    var a, b := m[key := value], m - {key};
    forall segments: seq<Segment> | Hole(key) !in segments
      ensures Fill(segments, a) == Fill(segments, b)
    {
      forall i | 0 <= i < |segments|
        ensures FillSegment(segments[i], a) == FillSegment(segments[i], b)
      {
        assert segments[i] in segments;
      }
    }
    assert FillHeaders(t.headers, a) == FillHeaders(t.headers, b);
  }

  lemma FillKeepsTemplate(t: Shape, m: Filling)
    requires PlainTemplate(t) && forall k :: k in m ==> NoBraces(m[k])
    ensures PlainTemplate(FillShape(t, m))
  {
    hide Plain, Fill;
    FillKeepsPlain(t.url, m);
    if t.body.Some? {
      FillKeepsPlain(t.body.value, m);
    }
    forall i | 0 <= i < |t.headers|
      ensures Plain(FillShape(t, m).headers[i].value)
    {
      FillKeepsPlain(t.headers[i].value, m);
    }
  }
}
