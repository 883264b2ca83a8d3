/** Command footprints: sets of byte-string keys given by points and half-open spans. */
module Footprint {
  import opened ByteOrder
  import opened Types

  datatype Span = Span(start: Bytes, end: Bytes) {
    predicate Proper() {
      Less(start, end)
    }
  }

  datatype Footprint = Footprint(points: seq<Bytes>, spans: seq<Span>, all: bool)

  predicate InSpan(k: Bytes, s: Span) {
    LessEq(s.start, k) && Less(k, s.end)
  }

  predicate InSpans(k: Bytes, spans: seq<Span>) {
    exists s <- spans :: InSpan(k, s)
  }

  /** The set of keys a footprint stands for. */
  predicate Denotes(f: Footprint, k: Bytes) {
    f.all || k in f.points || InSpans(k, f.spans)
  }

  /** The comparison footprintsConflict makes between every pair of entries. */
  predicate Conflict(a: Footprint, b: Footprint) {
    || a.all || b.all
    || (exists p <- a.points :: p in b.points)
    || (exists p <- a.points, s <- b.spans :: InSpan(p, s))
    || (exists p <- b.points, s <- a.spans :: InSpan(p, s))
    || (exists s <- a.spans, t <- b.spans :: SpansMeet(s, t))
  }

  predicate SpansMeet(s: Span, t: Span) {
    Less(s.start, t.end) && Less(t.start, s.end)
  }

  ghost predicate PointsAt(points: seq<Bytes>, i: int, j: int) {
    0 <= i < j < |points| ==> Less(points[i], points[j])
  }

  ghost predicate Ascending(points: seq<Bytes>) {
    forall i, j :: PointsAt(points, i, j)
  }

  /** Ends lie strictly below the next start: neither overlapping nor adjacent. */
  ghost predicate SpansAt(spans: seq<Span>, i: int, j: int) {
    0 <= i < j < |spans| ==> Less(spans[i].end, spans[j].start)
  }

  ghost predicate Separated(spans: seq<Span>) {
    (forall i, j :: SpansAt(spans, i, j)) && forall s <- spans :: s.Proper()
  }

  /** The normal form: sorted distinct points outside the spans, and proper, separated spans. */
  ghost predicate Canonical(f: Footprint) {
    if f.all then f.points == [] && f.spans == []
    else
      && (f.points != [] || f.spans != [])
      && Separated(f.spans) && Ascending(f.points)
      && forall p <- f.points :: !InSpans(p, f.spans)
  }

  // Conflict means the key sets meet.

  ghost predicate Proper(f: Footprint) {
    (f.all || f.points != [] || f.spans != []) && forall s <- f.spans :: s.Proper()
  }

  /** Two proper spans meet exactly when they share a key: the larger of the two starts. */
  lemma SpansMeetMeaning(s: Span, t: Span)
    requires s.Proper() && t.Proper()
    ensures SpansMeet(s, t) <==> exists k :: InSpan(k, s) && InSpan(k, t)
  {
    if SpansMeet(s, t) {
      var k := if Less(s.start, t.start) then t.start else s.start;
      OrderLaws(k, k, k);
      OrderLaws(s.start, t.start, s.start);
      assert InSpan(k, s) && InSpan(k, t);
    }
    forall k | InSpan(k, s) && InSpan(k, t)
      ensures SpansMeet(s, t)
    {
      OrderLaws(s.start, k, t.end);
      OrderLaws(t.start, k, s.end);
    }
  }

  lemma SomeKey(f: Footprint) returns (k: Bytes)
    requires Proper(f)
    ensures Denotes(f, k)
  {
    if f.all || f.points != [] {
      k := if f.points != [] then f.points[0] else [];
    } else {
      k := f.spans[0].start;
      OrderLaws(k, k, k);
      assert f.spans[0] in f.spans && InSpan(k, f.spans[0]);
    }
  }

  /** The pairwise comparison holds exactly when some key is in both sets. */
  lemma ConflictMeaning(a: Footprint, b: Footprint)
    requires Proper(a) && Proper(b)
    ensures Conflict(a, b) <==> exists k :: Denotes(a, k) && Denotes(b, k)
  {
    if Conflict(a, b) {
      var k := SharedKey(a, b);
    }
    forall k | Denotes(a, k) && Denotes(b, k)
      ensures Conflict(a, b)
    {
      if !a.all && !b.all && k !in a.points && k !in b.points {
        var s :| s in a.spans && InSpan(k, s);
        var t :| t in b.spans && InSpan(k, t);
        SpansMeetMeaning(s, t);
      }
    }
  }

  lemma SharedKey(a: Footprint, b: Footprint) returns (k: Bytes)
    requires Proper(a) && Proper(b) && Conflict(a, b)
    ensures Denotes(a, k) && Denotes(b, k)
  {
    if a.all {
      k := SomeKey(b);
    } else if b.all {
      k := SomeKey(a);
    } else if p :| p in a.points && Denotes(b, p) {
      k := p;
    } else if p :| p in b.points && Denotes(a, p) {
      k := p;
    } else {
      var s, t :| s in a.spans && t in b.spans && SpansMeet(s, t);
      SpansMeetMeaning(s, t);
      k :| InSpan(k, s) && InSpan(k, t);
    }
  }

  predicate MeetsAny(s: Span, spans: seq<Span>) {
    exists t <- spans :: SpansMeet(s, t)
  }

  /** footprintsConflict. */
  method FootprintsConflict(a: Footprint, b: Footprint) returns (c: bool)
    ensures c <==> Conflict(a, b)
  {
    if a.all || b.all {
      return true;
    }
    for i := 0 to |a.points|
      invariant forall j | 0 <= j < i :: a.points[j] !in b.points && !InSpans(a.points[j], b.spans)
    {
      if a.points[i] in b.points || InSpans(a.points[i], b.spans) {
        return true;
      }
    }
    for i := 0 to |b.points|
      invariant forall j | 0 <= j < i :: !InSpans(b.points[j], a.spans)
    {
      if InSpans(b.points[i], a.spans) {
        return true;
      }
    }
    for i := 0 to |a.spans|
      invariant forall j | 0 <= j < i :: !MeetsAny(a.spans[j], b.spans)
    {
      if MeetsAny(a.spans[i], b.spans) {
        return true;
      }
    }
    return false;
  }

  // Sorting, by insertion: what sort.Slice leaves behind.

  ghost predicate PointsRise(points: seq<Bytes>, i: int, j: int) {
    0 <= i < j < |points| ==> LessEq(points[i], points[j])
  }

  ghost predicate Rising(points: seq<Bytes>) {
    forall i, j :: PointsRise(points, i, j)
  }

  function InsertPoint(s: seq<Bytes>, p: Bytes): seq<Bytes> {
    if s == [] || LessEq(p, s[0]) then [p] + s else [s[0]] + InsertPoint(s[1..], p)
  }

  function SortPoints(s: seq<Bytes>): seq<Bytes> {
    if s == [] then [] else InsertPoint(SortPoints(s[1..]), s[0])
  }

  lemma {:induction false} InsertPointRising(s: seq<Bytes>, p: Bytes)
    requires Rising(s)
    ensures Rising(InsertPoint(s, p)) && forall q :: q in InsertPoint(s, p) <==> q == p || q in s
  {
    if s == [] || LessEq(p, s[0]) {
      forall i, j
        ensures PointsRise([p] + s, i, j)
      {
        assert PointsRise(s, i - 1, j - 1) && PointsRise(s, 0, j - 1);
        if 0 == i < j <= |s| {
          OrderLaws(p, s[0], s[j - 1]);
        }
      }
    } else {
      forall i, j
        ensures PointsRise(s[1..], i, j)
      {
        assert PointsRise(s, i + 1, j + 1);
      }
      InsertPointRising(s[1..], p);
      var rest := InsertPoint(s[1..], p);
      OrderLaws(s[0], p, s[0]);
      forall q | q in rest
        ensures LessEq(s[0], q)
      {
        if q in s[1..] {
          var i :| 0 <= i < |s| - 1 && s[1..][i] == q;
          assert PointsRise(s, 0, i + 1);
        }
      }
      forall i, j
        ensures PointsRise([s[0]] + rest, i, j)
      {
        assert PointsRise(rest, i - 1, j - 1);
        if 0 == i < j <= |rest| {
          assert rest[j - 1] in rest;
        }
      }
    }
  }

  lemma {:induction false} SortPointsRising(s: seq<Bytes>)
    ensures Rising(SortPoints(s)) && forall q :: q in SortPoints(s) <==> q in s
  {
    if s != [] {
      SortPointsRising(s[1..]);
      InsertPointRising(SortPoints(s[1..]), s[0]);
    }
  }

  lemma {:induction false} SortPointsStable(s: seq<Bytes>)
    requires Ascending(s)
    ensures SortPoints(s) == s
  {
    if s != [] {
      forall i, j
        ensures PointsAt(s[1..], i, j)
      {
        assert PointsAt(s, i + 1, j + 1);
      }
      SortPointsStable(s[1..]);
      if |s| > 1 {
        assert PointsAt(s, 0, 1);
        OrderLaws(s[0], s[1], s[0]);
      }
    }
  }

  predicate SpanLE(s: Span, t: Span) {
    Less(s.start, t.start) || (s.start == t.start && LessEq(s.end, t.end))
  }

  lemma SpanOrder(a: Span, b: Span, c: Span)
    ensures SpanLE(a, b) || SpanLE(b, a)
    ensures SpanLE(a, b) && SpanLE(b, c) ==> SpanLE(a, c)
    ensures SpanLE(a, b) ==> LessEq(a.start, b.start)
  {
    OrderLaws(a.start, b.start, c.start);
    OrderLaws(a.end, b.end, c.end);
    OrderLaws(b.end, a.end, b.end);
  }

  ghost predicate SpansRise(spans: seq<Span>, i: int, j: int) {
    0 <= i < j < |spans| ==> SpanLE(spans[i], spans[j])
  }

  ghost predicate RisingSpans(spans: seq<Span>) {
    forall i, j :: SpansRise(spans, i, j)
  }

  function InsertSpan(s: seq<Span>, p: Span): seq<Span> {
    if s == [] || SpanLE(p, s[0]) then [p] + s else [s[0]] + InsertSpan(s[1..], p)
  }

  function SortSpans(s: seq<Span>): seq<Span> {
    if s == [] then [] else InsertSpan(SortSpans(s[1..]), s[0])
  }

  lemma {:induction false} InsertSpanRising(s: seq<Span>, p: Span)
    requires RisingSpans(s)
    ensures RisingSpans(InsertSpan(s, p)) && forall q :: q in InsertSpan(s, p) <==> q == p || q in s
  {
    if s == [] || SpanLE(p, s[0]) {
      forall i, j
        ensures SpansRise([p] + s, i, j)
      {
        assert SpansRise(s, i - 1, j - 1) && SpansRise(s, 0, j - 1);
        if 0 == i < j <= |s| {
          SpanOrder(p, s[0], s[j - 1]);
        }
      }
    } else {
      forall i, j
        ensures SpansRise(s[1..], i, j)
      {
        assert SpansRise(s, i + 1, j + 1);
      }
      InsertSpanRising(s[1..], p);
      var rest := InsertSpan(s[1..], p);
      SpanOrder(s[0], p, s[0]);
      forall q | q in rest
        ensures SpanLE(s[0], q)
      {
        if q in s[1..] {
          var i :| 0 <= i < |s| - 1 && s[1..][i] == q;
          assert SpansRise(s, 0, i + 1);
        }
      }
      forall i, j
        ensures SpansRise([s[0]] + rest, i, j)
      {
        assert SpansRise(rest, i - 1, j - 1);
        if 0 == i < j <= |rest| {
          assert rest[j - 1] in rest;
        }
      }
    }
  }

  lemma {:induction false} SortSpansRising(s: seq<Span>)
    ensures RisingSpans(SortSpans(s)) && forall q :: q in SortSpans(s) <==> q in s
  {
    if s != [] {
      SortSpansRising(s[1..]);
      InsertSpanRising(SortSpans(s[1..]), s[0]);
    }
  }

  lemma {:induction false} SortSpansStable(s: seq<Span>)
    requires Separated(s)
    ensures SortSpans(s) == s
  {
    if s != [] {
      forall i, j
        ensures SpansAt(s[1..], i, j)
      {
        assert SpansAt(s, i + 1, j + 1);
      }
      SortSpansStable(s[1..]);
      if |s| > 1 {
        assert SpansAt(s, 0, 1) && s[0] in s;
        OrderLaws(s[0].start, s[0].end, s[1].start);
      }
    }
  }

  // The passes over sorted entries.

  /** Removing repeats from sorted points. */
  method Dedup(points: seq<Bytes>) returns (out: seq<Bytes>)
    requires Rising(points)
    ensures Ascending(out) && forall q :: q in out <==> q in points
    ensures Ascending(points) ==> out == points
  {
    out := [];
    for i := 0 to |points|
      invariant Ascending(out) && forall q :: q in out <==> q in points[..i]
      invariant i == 0 ==> out == []
      invariant i > 0 ==> out != [] && out[|out| - 1] == points[i - 1]
      invariant Ascending(points) ==> out == points[..i]
    {
      assert points[..i + 1] == points[..i] + [points[i]];
      if out == [] || out[|out| - 1] != points[i] {
        DedupStep(points, i, out);
        out := out + [points[i]];
      } else if Ascending(points) {
        assert PointsAt(points, i - 1, i);
        LessIrreflexive(points[i]);
        assert false;
      }
    }
    assert points[..|points|] == points;
  }

  lemma DedupStep(points: seq<Bytes>, i: nat, out: seq<Bytes>)
    requires Rising(points) && i < |points| && Ascending(out)
    requires i > 0 ==> out != [] && out[|out| - 1] == points[i - 1]
    requires i == 0 ==> out == []
    requires out == [] || out[|out| - 1] != points[i]
    ensures Ascending(out + [points[i]])
  {
    forall a, b
      ensures PointsAt(out + [points[i]], a, b)
    {
      assert PointsAt(out, a, b) && PointsAt(out, a, |out| - 1) && PointsRise(points, i - 1, i);
      if 0 <= a < b == |out| {
        OrderLaws(out[|out| - 1], points[i], out[|out| - 1]);
        OrderLaws(out[a], out[|out| - 1], points[i]);
      }
    }
  }

  ghost predicate SameKeys(k: Bytes, a: seq<Span>, b: seq<Span>) {
    InSpans(k, a) <==> InSpans(k, b)
  }

  ghost predicate SameCover(a: seq<Span>, b: seq<Span>) {
    forall k :: SameKeys(k, a, b)
  }

  lemma InSpansAppend(k: Bytes, spans: seq<Span>, s: Span)
    ensures InSpans(k, spans + [s]) <==> InSpans(k, spans) || InSpan(k, s)
  {
    if InSpans(k, spans) {
      var t :| t in spans && InSpan(k, t);
      assert t in spans + [s];
    }
    assert s in spans + [s];
  }

  /** Joining a span to one it overlaps or touches covers exactly the keys of both. */
  lemma JoinedKeys(k: Bytes, s: Span, t: Span)
    requires s.Proper() && t.Proper() && LessEq(s.start, t.start) && LessEq(t.start, s.end)
    ensures InSpan(k, Span(s.start, if Less(s.end, t.end) then t.end else s.end)) <==> InSpan(k, s) || InSpan(k, t)
  {
    OrderLaws(s.start, t.start, k);
    OrderLaws(k, s.end, t.end);
    OrderLaws(k, t.end, s.end);
    OrderLaws(t.start, s.end, k);
    OrderLaws(s.end, t.end, k);
  }

  /** Merging overlapping or adjacent spans. */
  method MergeSpans(spans: seq<Span>) returns (out: seq<Span>)
    requires RisingSpans(spans) && forall s <- spans :: s.Proper()
    ensures Separated(out) && SameCover(out, spans)
    ensures Separated(spans) ==> out == spans
    ensures out == [] <==> spans == []
  {
    out := [];
    for i := 0 to |spans|
      invariant Separated(out) && SameCover(out, spans[..i])
      invariant out == [] <==> i == 0
      invariant i > 0 ==> LessEq(out[|out| - 1].start, spans[i - 1].start)
      invariant Separated(spans) ==> out == spans[..i]
    {
      var span := spans[i];
      assert spans[..i + 1] == spans[..i] + [span];
      if out == [] || Less(out[|out| - 1].end, span.start) {
        AppendSpan(spans, i, out);
        out := out + [span];
      } else {
        var last := out[|out| - 1];
        JoinSpan(spans, i, out);
        out := out[..|out| - 1] + [Span(last.start, if Less(last.end, span.end) then span.end else last.end)];
      }
    }
    assert spans[..|spans|] == spans;
  }

  lemma AppendSpan(spans: seq<Span>, i: nat, out: seq<Span>)
    requires i < |spans| && Separated(out) && spans[i].Proper() && SameCover(out, spans[..i])
    requires out == [] || Less(out[|out| - 1].end, spans[i].start)
    ensures Separated(out + [spans[i]]) && SameCover(out + [spans[i]], spans[..i] + [spans[i]])
    ensures LessEq(spans[i].start, spans[i].start)
  {
    LessIrreflexive(spans[i].start);
    forall a, b
      ensures SpansAt(out + [spans[i]], a, b)
    {
      assert SpansAt(out, a, b) && SpansAt(out, a, |out| - 1);
      if 0 <= a < b == |out| {
        var last := out[|out| - 1];
        assert last in out;
        OrderLaws(out[a].end, last.start, last.end);
        OrderLaws(out[a].end, last.end, spans[i].start);
      }
    }
    forall k
      ensures SameKeys(k, out + [spans[i]], spans[..i] + [spans[i]])
    {
      assert SameKeys(k, out, spans[..i]);
      InSpansAppend(k, out, spans[i]);
      InSpansAppend(k, spans[..i], spans[i]);
    }
  }

  lemma JoinSpan(spans: seq<Span>, i: nat, out: seq<Span>)
    requires 0 < i < |spans| && RisingSpans(spans) && (forall s <- spans :: s.Proper()) && Separated(out) && out != []
    requires SameCover(out, spans[..i])
    requires LessEq(out[|out| - 1].start, spans[i - 1].start) && !Less(out[|out| - 1].end, spans[i].start)
    ensures var last := out[|out| - 1];
            var joined := Span(last.start, if Less(last.end, spans[i].end) then spans[i].end else last.end);
            && Separated(out[..|out| - 1] + [joined]) && LessEq(joined.start, spans[i].start)
            && SameCover(out[..|out| - 1] + [joined], spans[..i] + [spans[i]])
    ensures !Separated(spans)|| out != spans[..i]
  {
    var init, last, span := out[..|out| - 1], out[|out| - 1], spans[i];
    var joined := Span(last.start, if Less(last.end, span.end) then span.end else last.end);
    assert SpansRise(spans, i - 1, i) && last in out && span in spans;
    SpanOrder(spans[i - 1], span, span);
    OrderLaws(last.start, spans[i - 1].start, span.start);
    OrderLaws(last.start, last.end, span.end);
    forall a, b
      ensures SpansAt(init + [joined], a, b)
    {
      assert SpansAt(out, a, b);
    }
    forall k
      ensures SameKeys(k, init + [joined], spans[..i] + [span])
    {
      assert SameKeys(k, out, spans[..i]);
      assert out == init + [last];
      InSpansAppend(k, init, last);
      InSpansAppend(k, init, joined);
      InSpansAppend(k, spans[..i], span);
      JoinedKeys(k, last, span);
    }
    if Separated(spans) {
      assert SpansAt(spans, i - 1, i);
    }
  }

  function Outside(points: seq<Bytes>, spans: seq<Span>): seq<Bytes> {
    if points == [] then []
    else
      var init, p := Outside(points[..|points| - 1], spans), points[|points| - 1];
      if InSpans(p, spans) then init else init + [p]
  }

  lemma {:induction false} OutsideMembers(points: seq<Bytes>, spans: seq<Span>)
    requires Ascending(points)
    ensures Ascending(Outside(points, spans)) && forall q :: q in Outside(points, spans) <==>
            q in points && !InSpans(q, spans)
    ensures (forall q <- points :: !InSpans(q, spans)) ==> Outside(points, spans) == points
  {
    if points != [] {
      var init, p := points[..|points| - 1], points[|points| - 1];
      assert points == init + [p];
      forall i, j
        ensures PointsAt(init, i, j)
      {
        assert PointsAt(points, i, j);
      }
      OutsideMembers(init, spans);
      var out := Outside(init, spans);
      forall i, j
        ensures PointsAt(out + [p], i, j)
      {
        assert PointsAt(out, i, j);
        if 0 <= i < j == |out| {
          assert out[i] in out;
          var m :| 0 <= m < |init| && init[m] == out[i];
          assert PointsAt(points, m, |points| - 1);
        }
      }
    }
  }

  /** Among separated spans only the first whose end lies above p can hold p. */
  lemma OnlyCandidate(spans: seq<Span>, at: nat, p: Bytes)
    requires Separated(spans) && at <= |spans| && forall j | 0 <= j < at :: LessEq(spans[j].end, p)
    requires at < |spans| ==> Less(p, spans[at].end)
    ensures InSpans(p, spans) <==> at < |spans| && InSpan(p, spans[at])
  {
    if InSpans(p, spans) {
      var s :| s in spans && InSpan(p, s);
      var j :| 0 <= j < |spans| && spans[j] == s;
      if j > at {
        assert SpansAt(spans, at, j);
        OrderLaws(p, spans[at].end, s.start);
      }
    }
    if at < |spans| {
      assert spans[at] in spans;
    }
  }

  /** Dropping the points that spans cover, in one pass over both. */
  method FilterPoints(points: seq<Bytes>, spans: seq<Span>) returns (out: seq<Bytes>)
    requires Ascending(points) && Separated(spans)
    ensures out == Outside(points, spans)
  {
    out := [];
    var at := 0;
    for i := 0 to |points|
      invariant 0 <= at <= |spans| && out == Outside(points[..i], spans)
      invariant i > 0 ==> forall j | 0 <= j < at :: LessEq(spans[j].end, points[i - 1])
      invariant i == 0 ==> at == 0
    {
      var p := points[i];
      assert points[..i + 1][..|points[..i + 1]| - 1] == points[..i];
      if i > 0 {
        assert PointsAt(points, i - 1, i);
        StillBelow(spans, at, points[i - 1], p);
      }
      at := Advance(spans, at, p);
      OnlyCandidate(spans, at, p);
      if at < |spans| && InSpan(p, spans[at]) {
        continue;
      }
      out := out + [p];
    }
    assert points[..|points|] == points;
  }

  lemma StillBelow(spans: seq<Span>, at: nat, p: Bytes, q: Bytes)
    requires at <= |spans| && Less(p, q) && forall j | 0 <= j < at :: LessEq(spans[j].end, p)
    ensures forall j | 0 <= j < at :: LessEq(spans[j].end, q)
  {
    forall j | 0 <= j < at
      ensures LessEq(spans[j].end, q)
    {
      OrderLaws(spans[j].end, p, q);
      OrderLaws(spans[j].end, q, p);
    }
  }

  /** The inner loop: skip the spans that end at or below p. */
  method Advance(spans: seq<Span>, from: nat, p: Bytes) returns (at: nat)
    requires from <= |spans| && forall j | 0 <= j < from :: LessEq(spans[j].end, p)
    ensures from <= at <= |spans| && forall j | 0 <= j < at :: LessEq(spans[j].end, p)
    ensures at < |spans| ==> Less(p, spans[at].end)
  {
    at := from;
    while at < |spans| && LessEq(spans[at].end, p)
      invariant from <= at <= |spans| && forall j | 0 <= j < at :: LessEq(spans[j].end, p)
    {
      at := at + 1;
    }
  }

  /** footprintCanonical: adjacent comparisons and one pass over points and spans decide the normal form. */
  method FootprintCanonical(f: Footprint) returns (ok: bool)
    ensures ok <==> Canonical(f)
  {
    if f.all {
      return f.points == [] && f.spans == [];
    }
    if f.points == [] && f.spans == [] {
      return false;
    }
    var separated := SpansSeparated(f.spans);
    if !separated {
      return false;
    }
    ok := PointsOutside(f.points, f.spans);
  }

  method SpansSeparated(spans: seq<Span>) returns (ok: bool)
    ensures ok <==> Separated(spans)
  {
    for i := 0 to |spans|
      invariant Separated(spans[..i])
    {
      var span := spans[i];
      assert spans[..i + 1] == spans[..i] + [span];
      if !Less(span.start, span.end) {
        assert span in spans;
        return false;
      }
      if i > 0 {
        var prev := spans[i - 1];
        assert prev == spans[..i][i - 1];
        if !Less(prev.start, span.start) || !Less(prev.end, span.start) {
          assert SpansAt(spans, i - 1, i) ==>
                   (assert prev in spans[..i]; OrderLaws(prev.start, prev.end, span.start); false);
          return false;
        }
      }
      AppendSpan(spans[..i] + [span], i, spans[..i]);
    }
    assert spans[..|spans|] == spans;
    return true;
  }

  method PointsOutside(points: seq<Bytes>, spans: seq<Span>) returns (ok: bool)
    requires Separated(spans)
    ensures ok <==> Ascending(points) && forall p <- points :: !InSpans(p, spans)
  {
    var at := 0;
    for i := 0 to |points|
      invariant 0 <= at <= |spans| && Ascending(points[..i]) && forall p <- points[..i] :: !InSpans(p, spans)
      invariant i > 0 ==> forall j | 0 <= j < at :: LessEq(spans[j].end, points[i - 1])
      invariant i == 0 ==> at == 0
    {
      var p := points[i];
      assert p in points && points[..i + 1] == points[..i] + [p];
      if i > 0 {
        if !Less(points[i - 1], p) {
          assert !PointsAt(points, i - 1, i);
          return false;
        }
        StillBelow(spans, at, points[i - 1], p);
      }
      AscendingAppend(points, i);
      at := Advance(spans, at, p);
      OnlyCandidate(spans, at, p);
      if at < |spans| && InSpan(p, spans[at]) {
        return false;
      }
    }
    assert points[..|points|] == points;
    return true;
  }

  lemma AscendingAppend(points: seq<Bytes>, i: nat)
    requires i < |points| && Ascending(points[..i]) && (i > 0 ==> Less(points[i - 1], points[i]))
    ensures Ascending(points[..i] + [points[i]])
  {
    var init, p := points[..i], points[i];
    var last := i - 1;
    forall a, b
      ensures PointsAt(init + [p], a, b)
    {
      assert PointsAt(init, a, b) && PointsAt(init, a, last);
      if 0 <= a < b == i {
        OrderLaws(points[a], points[i - 1], points[i]);
      }
    }
  }

  datatype Limits = Limits(points: int, spans: int, bytes: int)

  function TotalPoints(points: seq<Bytes>): nat {
    if points == [] then 0 else TotalPoints(points[..|points| - 1]) + |points[|points| - 1]|
  }

  function TotalSpans(spans: seq<Span>): nat {
    if spans == [] then 0
    else TotalSpans(spans[..|spans| - 1]) + |spans[|spans| - 1].start| + |spans[|spans| - 1].end|
  }

  /** What canonicalization accepts: within the limits, proper spans, and not the zero footprint. */
  ghost predicate Admissible(f: Footprint, limits: Limits) {
    && 0 <= limits.points && 0 <= limits.spans && 0 <= limits.bytes
    && |f.points| <= limits.points && |f.spans| <= limits.spans
    && TotalPoints(f.points) + TotalSpans(f.spans) <= limits.bytes
    && Proper(f)
  }

  /** The validation: running totals are checked entry by entry. */
  method Validate(f: Footprint, limits: Limits) returns (ok: bool)
    ensures ok <==> Admissible(f, limits)
  {
    if limits.points < 0 || limits.spans < 0 || limits.bytes < 0 || |f.points| > limits.points
        || |f.spans| > limits.spans {
      return false;
    }
    var fits, total := AddPoints(f.points, limits.bytes);
    if !fits {
      return false;
    }
    fits := AddSpans(f.spans, total, limits.bytes);
    return fits && (f.all || f.points != [] || f.spans != []);
  }

  method AddPoints(points: seq<Bytes>, limit: nat) returns (ok: bool, total: nat)
    ensures ok <==> TotalPoints(points) <= limit
    ensures ok ==> total == TotalPoints(points)
  {
    total := 0;
    for i := 0 to |points|
      invariant total == TotalPoints(points[..i]) <= limit
    {
      PointsTotal(points, i);
      if total > limit - |points[i]| {
        return false, total;
      }
      total := total + |points[i]|;
    }
    assert points[..|points|] == points;
    ok := true;
  }

  method AddSpans(spans: seq<Span>, from: nat, limit: nat) returns (ok: bool)
    requires from <= limit
    ensures ok <==> from + TotalSpans(spans) <= limit && forall s <- spans :: s.Proper()
  {
    var total := from;
    for i := 0 to |spans|
      invariant total == from + TotalSpans(spans[..i]) <= limit
      invariant forall j | 0 <= j < i :: spans[j].Proper()
    {
      SpansTotal(spans, i);
      var span := spans[i];
      assert span in spans;
      if !Less(span.start, span.end) || total > limit - |span.start| || total + |span.start| > limit - |span.end| {
        return false;
      }
      total := total + |span.start| + |span.end|;
    }
    assert spans[..|spans|] == spans;
    return true;
  }

  lemma {:induction false} PointsTotal(points: seq<Bytes>, i: nat)
    requires i < |points|
    ensures TotalPoints(points[..i + 1]) == TotalPoints(points[..i]) + |points[i]| <= TotalPoints(points)
    decreases |points|
  {
    assert points[..i + 1][..i] == points[..i];
    if i + 1 < |points| {
      var init := points[..|points| - 1];
      PointsTotal(init, i);
      assert init[..i + 1] == points[..i + 1] && init[..i] == points[..i];
    } else {
      assert points[..i + 1] == points;
    }
  }

  lemma {:induction false} SpansTotal(spans: seq<Span>, i: nat)
    requires i < |spans|
    ensures TotalSpans(spans[..i + 1])
            == TotalSpans(spans[..i]) + |spans[i].start| + |spans[i].end| <= TotalSpans(spans)
    decreases |spans|
  {
    assert spans[..i + 1][..i] == spans[..i];
    if i + 1 < |spans| {
      var init := spans[..|spans| - 1];
      SpansTotal(init, i);
      assert init[..i + 1] == spans[..i + 1] && init[..i] == spans[..i];
    } else {
      assert spans[..i + 1] == spans;
    }
  }

  /**
   canonicalizeFootprint: it succeeds exactly on the admissible footprints, the result is in normal
   form and stands for the same keys, and a footprint already in normal form comes back unchanged.
   */
  method Canonicalize(src: Footprint, limits: Limits) returns (r: Option<Footprint>)
    ensures r.Some? <==> Admissible(src, limits)
    ensures r.Some? ==> Canonical(r.value) && forall k :: Denotes(r.value, k) <==> Denotes(src, k)
    ensures r.Some? && Canonical(src) ==> r.value == src
  {
    var ok := Validate(src, limits);
    if !ok {
      return None;
    }
    if src.all {
      return Some(Footprint([], [], true));
    }
    SortPointsRising(src.points);
    SortSpansRising(src.spans);
    var points := Dedup(SortPoints(src.points));
    var spans := MergeSpans(SortSpans(src.spans));
    OutsideMembers(points, spans);
    var outside := FilterPoints(points, spans);
    r := Some(Footprint(outside, spans, false));
    if Canonical(src) {
      SortPointsStable(src.points);
      SortSpansStable(src.spans);
    }
    CanonicalKeys(src, points, spans);
  }

  lemma CanonicalKeys(src: Footprint, points: seq<Bytes>, spans: seq<Span>)
    requires !src.all && Proper(src) && Ascending(points) && (forall q :: q in points <==> q in src.points)
    requires SameCover(spans, SortSpans(src.spans)) && (spans == [] <==> SortSpans(src.spans) == [])
    ensures forall k :: Denotes(Footprint(Outside(points, spans), spans, false), k) <==> Denotes(src, k)
    ensures Outside(points, spans) != [] || spans != []
  {
    OutsideMembers(points, spans);
    SortSpansRising(src.spans);
    forall k
      ensures Denotes(Footprint(Outside(points, spans), spans, false), k) <==> Denotes(src, k)
    {
      assert SameKeys(k, spans, SortSpans(src.spans));
    }
    if src.points != [] {
      assert src.points[0] in src.points && src.points[0] in points;
      if spans == [] {
        assert src.points[0] in Outside(points, spans);
      }
    } else {
      assert src.spans[0] in SortSpans(src.spans);
    }
  }

  /** Canonicalizing both footprints decides whether the original key sets meet. */
  method ConflictOfSources(a: Footprint, b: Footprint, limits: Limits) returns (c: Option<bool>)
    ensures c.Some? <==> Admissible(a, limits) && Admissible(b, limits)
    ensures c.Some? ==> (c.value <==> exists k :: Denotes(a, k) && Denotes(b, k))
  {
    var x := Canonicalize(a, limits);
    var y := Canonicalize(b, limits);
    if x.None? || y.None? {
      return None;
    }
    ConflictMeaning(x.value, y.value);
    var meet := FootprintsConflict(x.value, y.value);
    c := Some(meet);
  }
}
