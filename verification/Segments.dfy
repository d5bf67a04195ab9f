/** Splitting a text into markers (`<...>` or `[...]`) and the text between them (`segmentize_markers`). */
module Segments {
  datatype SegmentType = TEXT | MARKER

  datatype Segment = Segment(kind: SegmentType, value: string)

  predicate IsOpener(c: char) {
    c == '<' || c == '['
  }

  predicate IsCloser(opener: char, c: char) {
    (opener == '<' && c == '>') || (opener == '[' && c == ']')
  }

  /** How far `s` reaches without an opener. */
  function TextLen(s: string): (n: nat)
    ensures n <= |s|
    ensures s != "" && !IsOpener(s[0]) ==> n > 0
  {
    if s == "" || IsOpener(s[0]) then 0 else 1 + TextLen(s[1..])
  }

  /** How far `s` reaches without the closer of `opener`. */
  function OpenLen(opener: char, s: string): (n: nat)
    ensures n <= |s|
  {
    if s == "" || IsCloser(opener, s[0]) then 0 else 1 + OpenLen(opener, s[1..])
  }

  /** The segments of a text, the first one first: a marker up to its closer, or text up to the next opener. */
  function Segmented(s: string): seq<Segment>
    decreases |s|
  {
    if s == "" then []
    else if !IsOpener(s[0]) then
      [Segment(TEXT, s[..TextLen(s)])] + Segmented(s[TextLen(s)..])
    else
      var n := 1 + OpenLen(s[0], s[1..]);
      if n == |s| then [Segment(TEXT, s)] // an opener without a closer
      else [Segment(MARKER, s[..n + 1])] + Segmented(s[n + 1..])
  }

  lemma {:induction false} TextLenIs(s: string, n: nat)
    requires n <= |s| && (forall k :: 0 <= k < n ==> !IsOpener(s[k])) && (n < |s| ==> IsOpener(s[n]))
    ensures TextLen(s) == n
  {
    if n > 0 {
      TextLenIs(s[1..], n - 1);
    }
  }

  lemma {:induction false} OpenLenIs(opener: char, s: string, n: nat)
    requires n <= |s| && (forall k :: 0 <= k < n ==> !IsCloser(opener, s[k])) && (n < |s| ==> IsCloser(opener, s[n]))
    ensures OpenLen(opener, s) == n
  {
    if n > 0 {
      OpenLenIs(opener, s[1..], n - 1);
    }
  }

  /** What the loop knows between two characters. */
  ghost predicate Scanned(text: string, done: seq<Segment>, border: nat, pos: nat, inMarker: bool, opener: char) {
    && border <= pos <= |text|
    && Segmented(text) == done + Segmented(text[border..])
    && (if inMarker then
          border < pos && text[border] == opener && IsOpener(opener)
          && forall k :: border < k < pos ==> !IsCloser(opener, text[k])
        else forall k :: border <= k < pos ==> !IsOpener(text[k]))
  }

  /** The front segment when it is text up to position `n`. */
  lemma TextFront(s: string, n: nat)
    requires 0 < n <= |s| && (forall k :: 0 <= k < n ==> !IsOpener(s[k])) && (n < |s| ==> IsOpener(s[n]))
    ensures Segmented(s) == [Segment(TEXT, s[..n])] + Segmented(s[n..])
  {
    TextLenIs(s, n);
    hide TextLen, IsOpener;
    assert !IsOpener(s[0]);
  }

  /** The front segment when it is a marker whose closer is at position `n`. */
  lemma MarkerFront(s: string, n: nat)
    requires 0 < n < |s| && IsOpener(s[0]) && IsCloser(s[0], s[n]) && (forall k :: 0 < k < n ==> !IsCloser(s[0], s[k]))
    ensures Segmented(s) == [Segment(MARKER, s[..n + 1])] + Segmented(s[n + 1..])
  {
    hide OpenLen, Segmented;
    var t := s[1..];
    assert t[n - 1] == s[n] && forall k :: 0 <= k < n - 1 ==> t[k] == s[k + 1];
    OpenLenIs(s[0], t, n - 1);
    SegmentedMarker(s);
  }

  lemma SegmentedMarker(s: string)
    requires s != "" && IsOpener(s[0]) && 1 + OpenLen(s[0], s[1..]) < |s|
    ensures var n := 1 + OpenLen(s[0], s[1..]); Segmented(s) == [Segment(MARKER, s[..n + 1])] + Segmented(s[n + 1..])
  {
    hide OpenLen;
  }

  lemma CutText(text: string, done: seq<Segment>, border: nat, pos: nat, opener: char)
    requires Scanned(text, done, border, pos, false, opener) && border < pos && (pos < |text| ==> IsOpener(text[pos]))
    ensures Segmented(text) == done + [Segment(TEXT, text[border..pos])] + Segmented(text[pos..])
  {
    hide Segmented, IsOpener;
    var s := text[border..];
    TextFront(s, pos - border);
    assert s[..pos - border] == text[border..pos] && s[pos - border..] == text[pos..];
    var seg, rest := [Segment(TEXT, text[border..pos])], Segmented(text[pos..]);
    assert done + (seg + rest) == done + seg + rest;
  }

  lemma CutMarker(text: string, done: seq<Segment>, border: nat, pos: nat, opener: char)
    requires Scanned(text, done, border, pos, true, opener) && pos < |text| && IsCloser(opener, text[pos])
    ensures Segmented(text) == done + [Segment(MARKER, text[border..pos + 1])] + Segmented(text[pos + 1..])
  {
    hide Segmented, IsOpener, IsCloser;
    var s, n := text[border..], pos - border;
    MarkerFront(s, n);
    assert s[..n + 1] == text[border..pos + 1] && s[n + 1..] == text[pos + 1..];
    var seg, rest := [Segment(MARKER, text[border..pos + 1])], Segmented(text[pos + 1..]);
    assert done + (seg + rest) == done + seg + rest;
  }

  lemma CutEnd(text: string, done: seq<Segment>, border: nat, inMarker: bool, opener: char)
    requires Scanned(text, done, border, |text|, inMarker, opener)
    ensures Segmented(text) == if border < |text| then done + [Segment(TEXT, text[border..])] else done
  {
    if border < |text| {
      if inMarker {
        OpenLenIs(opener, text[border..][1..], |text| - border - 1);
      } else {
        CutText(text, done, border, |text|, opener);
        assert text[|text|..] == "" && text[border..|text|] == text[border..];
        assert Segmented("") == [];
        var all := done + [Segment(TEXT, text[border..])];
        assert all + [] == all;
      }
    } else {
      assert text[border..] == "" && done + [] == done;
    }
  }

  method SegmentizeMarkers(text: string) returns (retval: seq<Segment>)
    ensures retval == Segmented(text)
  {
    hide Segmented;
    retval := [];
    var inMarker := false;
    var markerOpener := '\0';
    var lastBorder := 0;
    assert text[0..] == text && [] + Segmented(text) == Segmented(text);
    for pos := 0 to |text|
      invariant Scanned(text, retval, lastBorder, pos, inMarker, markerOpener)
    {
      if !inMarker && IsOpener(text[pos]) {
        if lastBorder < pos {
          CutText(text, retval, lastBorder, pos, markerOpener);
          retval := retval + [Segment(TEXT, text[lastBorder..pos])];
        }
        lastBorder := pos;
        inMarker := true;
        markerOpener := text[pos];
      } else if inMarker && IsCloser(markerOpener, text[pos]) {
        CutMarker(text, retval, lastBorder, pos, markerOpener);
        retval := retval + [Segment(MARKER, text[lastBorder..pos + 1])];
        lastBorder := pos + 1;
        inMarker := false;
        markerOpener := '\0';
      }
    }
    CutEnd(text, retval, lastBorder, inMarker, markerOpener);
    if lastBorder < |text| {
      retval := retval + [Segment(TEXT, text[lastBorder..])];
    }
  }

  // ---- What a segmentation is ----

  function Join(segs: seq<Segment>): string {
    if segs == [] then "" else segs[0].value + Join(segs[1..])
  }

  lemma {:induction false} JoinAppend(a: seq<Segment>, b: seq<Segment>)
    ensures Join(a + b) == Join(a) + Join(b)
  {
    if a == [] {
      assert a + b == b;
    } else {
      assert (a + b)[1..] == a[1..] + b;
      JoinAppend(a[1..], b);
    }
  }

  /** A marker runs from an opener to the first matching closer. */
  predicate IsMarker(v: string) {
    && |v| >= 2 && IsOpener(v[0]) && IsCloser(v[0], v[|v| - 1])
    && forall k :: 1 <= k < |v| - 1 ==> !IsCloser(v[0], v[k])
  }

  /** Text without an opener. */
  predicate IsPlainText(v: string) {
    v != "" && forall k :: 0 <= k < |v| ==> !IsOpener(v[k])
  }

  /** An opener whose closer never comes. */
  predicate IsUnclosed(v: string) {
    v != "" && IsOpener(v[0]) && forall k :: 1 <= k < |v| ==> !IsCloser(v[0], v[k])
  }

  /** Markers and maximal plain texts, with at most an unclosed marker, kept as text, at the end. */
  predicate IsSegmentation(segs: seq<Segment>) {
    segs == [] ||
    (if segs[0].kind == MARKER then IsMarker(segs[0].value) && IsSegmentation(segs[1..])
     else if IsUnclosed(segs[0].value) then |segs| == 1
     else
       && IsPlainText(segs[0].value)
       && (|segs| > 1 ==> segs[1].kind == MARKER || IsUnclosed(segs[1].value))
       && IsSegmentation(segs[1..]))
  }

  lemma {:induction false} TextLenMeaning(s: string)
    ensures forall k :: 0 <= k < TextLen(s) ==> !IsOpener(s[k])
    ensures TextLen(s) < |s| ==> IsOpener(s[TextLen(s)])
  {
    if s != "" && !IsOpener(s[0]) { TextLenMeaning(s[1..]); }
  }

  lemma {:induction false} OpenLenMeaning(opener: char, s: string)
    ensures forall k :: 0 <= k < OpenLen(opener, s) ==> !IsCloser(opener, s[k])
    ensures OpenLen(opener, s) < |s| ==> IsCloser(opener, s[OpenLen(opener, s)])
  {
    if s != "" && !IsCloser(opener, s[0]) { OpenLenMeaning(opener, s[1..]); }
  }

  /** The segments of a text are a segmentation of it: they join to the text. */
  lemma {:induction false} SegmentedIs(s: string)
    ensures IsSegmentation(Segmented(s)) && Join(Segmented(s)) == s
    decreases |s|
  {
    if s != "" {
      if !IsOpener(s[0]) {
        SegmentedIs(s[TextLen(s)..]);
        TextFirst(s);
      } else {
        var n := 1 + OpenLen(s[0], s[1..]);
        if n < |s| { SegmentedIs(s[n + 1..]); }
        MarkerFirst(s);
      }
    }
  }

  lemma Prepend(seg: Segment, rest: seq<Segment>)
    requires IsSegmentation(rest)
    requires if seg.kind == MARKER then IsMarker(seg.value)
             else if IsUnclosed(seg.value) then rest == []
             else IsPlainText(seg.value) && (rest != [] ==> rest[0].kind == MARKER || IsUnclosed(rest[0].value))
    ensures IsSegmentation([seg] + rest) && Join([seg] + rest) == seg.value + Join(rest)
  {
    hide IsMarker, IsUnclosed, IsPlainText;
    assert ([seg] + rest)[1..] == rest;
  }

  lemma TextFirst(s: string)
    requires s != "" && !IsOpener(s[0])
    requires var rest := s[TextLen(s)..]; IsSegmentation(Segmented(rest)) && Join(Segmented(rest)) == rest
    ensures IsSegmentation(Segmented(s)) && Join(Segmented(s)) == s
  {
    hide Segmented, IsSegmentation, Join;
    TextLenMeaning(s);
    var n := TextLen(s);
    TextFront(s, n);
    if n < |s| { FirstAfterText(s[n..]); } else { EmptySegmented(s[n..]); }
    Prepend(Segment(TEXT, s[..n]), Segmented(s[n..]));
    assert s[..n] + s[n..] == s;
  }

  lemma EmptySegmented(s: string)
    ensures s == "" ==> Segmented(s) == []
  {
  }

  lemma MarkerFirst(s: string)
    requires s != "" && IsOpener(s[0])
    requires var n := 1 + OpenLen(s[0], s[1..]);
      n < |s| ==> IsSegmentation(Segmented(s[n + 1..])) && Join(Segmented(s[n + 1..])) == s[n + 1..]
    ensures IsSegmentation(Segmented(s)) && Join(Segmented(s)) == s
  {
    hide Segmented, IsSegmentation, Join, OpenLen, IsOpener, IsCloser;
    var n := 1 + OpenLen(s[0], s[1..]);
    OpenLenMeaning(s[0], s[1..]);
    if n < |s| {
      assert s[n] == s[1..][n - 1];
      assert forall k :: 0 < k < n ==> s[k] == s[1..][k - 1];
      MarkerFront(s, n);
      assert s[..n + 1][n] == s[n];
      Prepend(Segment(MARKER, s[..n + 1]), Segmented(s[n + 1..]));
      assert s[..n + 1] + s[n + 1..] == s;
    } else {
      UnclosedAlone(s);
    }
  }

  lemma UnclosedAlone(s: string)
    requires s != "" && IsOpener(s[0]) && 1 + OpenLen(s[0], s[1..]) == |s|
    ensures IsSegmentation(Segmented(s)) && Join(Segmented(s)) == s
  {
    OpenLenMeaning(s[0], s[1..]);
    assert Segmented(s) == [Segment(TEXT, s)];
    hide Segmented, OpenLen;
    assert IsUnclosed(s);
    Prepend(Segment(TEXT, s), []);
    assert [Segment(TEXT, s)] + [] == [Segment(TEXT, s)] && s + "" == s;
  }

  lemma FirstAfterText(s: string)
    requires s != "" && IsOpener(s[0])
    ensures var r := Segmented(s); r != [] && (r[0].kind == MARKER || IsUnclosed(r[0].value))
  {
    OpenLenMeaning(s[0], s[1..]);
  }

  /** There is no other segmentation: the segments are determined by the text. */
  lemma {:induction false} SegmentationUnique(segs: seq<Segment>)
    requires IsSegmentation(segs)
    ensures Segmented(Join(segs)) == segs
    decreases |segs|
  {
    hide Segmented, IsMarker, IsUnclosed, IsPlainText;
    if segs == [] {
      EmptySegmented("");
    } else {
      var v, rest := segs[0].value, segs[1..];
      if segs[0].kind == MARKER {
        SegmentationUnique(rest);
        MarkerThen(v, Join(rest));
      } else if IsUnclosed(v) {
        assert rest == [] && v + "" == v;
        UnclosedSegmented(v);
      } else {
        if rest != [] { StartsWithOpener(rest); }
        SegmentationUnique(rest);
        TextThen(v, Join(rest));
      }
    }
  }

  lemma MarkerThen(v: string, t: string)
    requires IsMarker(v)
    ensures Segmented(v + t) == [Segment(MARKER, v)] + Segmented(t)
  {
    hide Segmented;
    var s := v + t;
    MarkerFront(s, |v| - 1);
    assert s[..|v|] == v && s[|v|..] == t;
  }

  lemma UnclosedSegmented(v: string)
    requires IsUnclosed(v)
    ensures Segmented(v) == [Segment(TEXT, v)]
  {
    OpenLenIs(v[0], v[1..], |v| - 1);
  }

  lemma TextThen(v: string, t: string)
    requires IsPlainText(v) && (t != "" ==> IsOpener(t[0]))
    ensures Segmented(v + t) == [Segment(TEXT, v)] + Segmented(t)
  {
    hide Segmented;
    var s := v + t;
    TextFront(s, |v|);
    assert s[..|v|] == v && s[|v|..] == t;
  }

  lemma StartsWithOpener(segs: seq<Segment>)
    requires segs != [] && IsSegmentation(segs) && (segs[0].kind == MARKER || IsUnclosed(segs[0].value))
    ensures Join(segs) != "" && IsOpener(Join(segs)[0])
  {
  }

  // ---- The characters ----

  /** Text without an opening bracket is one segment. */
  lemma PlainSegmented(s: string)
    requires s != "" && '<' !in s && '[' !in s
    ensures Segmented(s) == [Segment(TEXT, s)]
  {
    EmptySegmented("");
    TextThen(s, "");
    hide Segmented;
    assert s + "" == s && [Segment(TEXT, s)] + [] == [Segment(TEXT, s)];
  }

  /** Either kind of bracket with no closer inside is one marker, whatever follows it; without a closer it is text. */
  lemma BracketsSegmented(v: string, t: string)
    ensures '>' !in v ==> Segmented("<" + v + ">" + t) == [Segment(MARKER, "<" + v + ">")] + Segmented(t)
    ensures ']' !in v ==> Segmented("[" + v + "]" + t) == [Segment(MARKER, "[" + v + "]")] + Segmented(t)
    ensures '>' !in v ==> Segmented("<" + v) == [Segment(TEXT, "<" + v)]
    ensures ']' !in v ==> Segmented("[" + v) == [Segment(TEXT, "[" + v)]
  {
    hide Segmented;
    if '>' !in v {
      MarkerThen("<" + v + ">", t);
      UnclosedSegmented("<" + v);
    }
    if ']' !in v {
      MarkerThen("[" + v + "]", t);
      UnclosedSegmented("[" + v);
    }
  }
}
