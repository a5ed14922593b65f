/** Attribution of tokens to spans in bench/respcost.go: one pass with two
    pointers, against counting token starts span by span. */
module TokenAttribution {
  import opened Strings
  import opened ResponseSpans

  // ----- partitions by index -----

  ghost predicate CoversByIndex<L>(spans: seq<Span<L>>, n: int) {
    if spans == [] then n == 0
    else
      && spans[0].start == 0
      && (forall i | 0 <= i < |spans| :: spans[i].start < spans[i].end)
      && (forall i | 0 < i < |spans| :: spans[i].start == spans[i - 1].end)
      && spans[|spans| - 1].end == n
  }

  lemma {:induction false} CoversIsByIndex<L>(spans: seq<Span<L>>, n: int)
    ensures Covers(spans, n) <==> CoversByIndex(spans, n)
    decreases |spans|
  {
    if spans != [] {
      var k := |spans| - 1;
      CoversIsByIndex(spans[..k], spans[k].start);
      if Covers(spans, n) {
        forall i | 0 < i <= k ensures spans[i].start == spans[i - 1].end {
          if i < k {
            assert spans[..k][i].start == spans[..k][i - 1].end;
          }
        }
        forall i | 0 <= i <= k ensures spans[i].start < spans[i].end {
          if i < k {
            assert spans[..k][i].start < spans[..k][i].end;
          }
        }
        assert k > 0 ==> spans[..k][0].start == 0;
      }
    }
  }

  lemma {:induction false} LabelAtIndex<L>(spans: seq<Span<L>>, n: int, i: nat, b: int)
    requires Covers(spans, n) && i < |spans| && spans[i].start <= b < spans[i].end
    ensures 0 <= b < n && LabelAt(spans, n, b) == spans[i].tag
    decreases |spans|
  {
    var k := |spans| - 1;
    if i < k {
      assert spans[..k][i] == spans[i];
      LabelAtIndex(spans[..k], spans[k].start, i, b);
    } else if k > 0 {
      assert 0 <= spans[k].start;
    }
  }

  /** `validateSpanPartition` accepts exactly the partitions of [0, textLen). */
  method ValidateSpanPartition<L>(spans: seq<Span<L>>, textLen: nat) returns (ok: bool)
    ensures ok <==> Covers(spans, textLen)
  {
    CoversIsByIndex(spans, textLen);
    if |spans| == 0 {
      return textLen == 0;
    }
    if spans[0].start != 0 {
      return false;
    }
    for i := 0 to |spans|
      invariant forall j | 0 <= j < i :: spans[j].start < spans[j].end
      invariant forall j | 0 < j < i :: spans[j].start == spans[j - 1].end
    {
      if spans[i].start >= spans[i].end {
        return false;
      }
      if i > 0 && spans[i].start != spans[i - 1].end {
        return false;
      }
    }
    return spans[|spans| - 1].end == textLen;
  }

  // ----- the naive count -----

  /** The byte at which piece i starts. */
  function StartOf(pieces: seq<string>, i: nat): (offset: nat)
    requires i <= |pieces|
  {
    if i == 0 then 0 else StartOf(pieces, i - 1) + |pieces[i - 1]|
  }

  /** How many of the first k pieces start inside a span labelled l. */
  ghost function StartsIn<L>(pieces: seq<string>, k: nat, spans: seq<Span<L>>, n: nat, l: L): nat
    requires k <= |pieces| && Covers(spans, n)
  {
    if k == 0 then 0
    else
      var b := StartOf(pieces, k - 1);
      StartsIn(pieces, k - 1, spans, n, l) + if b < n && LabelAt(spans, n, b) == l then 1 else 0
  }

  datatype Attribution<L> = Attributed(total: nat, components: map<L, nat>) | Rejected

  function CountOf<L>(components: map<L, nat>, l: L): nat {
    if l in components then components[l] else 0
  }

  /** What the tokenizer promises: non-empty pieces that spell the text. */
  ghost predicate Tokenizes(pieces: seq<string>, text: string) {
    (forall p <- pieces :: p != "") && StartOf(pieces, |pieces|) == |text|
  }

  lemma {:induction false} StartsGrow(pieces: seq<string>, i: nat, j: nat)
    requires i <= j <= |pieces|
    ensures StartOf(pieces, i) <= StartOf(pieces, j)
    decreases j
  {
    if i < j {
      StartsGrow(pieces, i, j - 1);
    }
  }

  /** All canonical labels at zero. */
  method ZeroCounts<L(==)>(canonical: seq<L>) returns (components: map<L, nat>)
    ensures forall l :: l in components <==> l in canonical
    ensures forall l <- components :: components[l] == 0
  {
    components := map[];
    for i := 0 to |canonical|
      invariant forall l :: l in components <==> l in canonical[..i]
      invariant forall l <- components :: components[l] == 0
    {
      components := components[canonical[i] := 0];
    }
    assert canonical[..|canonical|] == canonical;
  }

  method AttributeTokens<L(==, !new)>(text: string, pieces: seq<string>, spans: seq<Span<L>>, canonical: seq<L>)
      returns (r: Attribution<L>)
    ensures r.Attributed? <==> Covers(spans, |text|) && Tokenizes(pieces, text)
    ensures r.Attributed? ==> r.total == |pieces|
    ensures r.Attributed? ==> forall l :: CountOf(r.components, l) == StartsIn(pieces, |pieces|, spans, |text|, l)
    ensures r.Attributed? ==> forall l <- canonical :: l in r.components
    ensures r.Attributed? && NoRepeats(canonical) && (forall s <- spans :: s.tag in canonical) ==>
      SumOf(r.components, canonical) == r.total
  {
    var valid := ValidateSpanPartition(spans, |text|);
    if !valid {
      return Rejected;
    }
    CoversIsByIndex(spans, |text|);
    var components: map<L, nat> := ZeroCounts(canonical);
    var offset, si := 0, 0;
    for i := 0 to |pieces|
      invariant offset == StartOf(pieces, i) && si <= |spans|
      invariant forall j | 0 <= j < i :: pieces[j] != ""
      invariant si > 0 ==> spans[si - 1].end <= offset
      invariant forall l :: CountOf(components, l) == StartsIn(pieces, i, spans, |text|, l)
      invariant forall l <- canonical :: l in components
    {
      if |pieces[i]| == 0 {
        assert pieces[i] == "" && pieces[i] in pieces;
        return Rejected;
      }
      while si < |spans| && spans[si].end <= offset
        invariant si <= |spans| && (si > 0 ==> spans[si - 1].end <= offset)
      {
        si := si + 1;
      }
      if si >= |spans| {
        StartsGrow(pieces, i + 1, |pieces|);
        return Rejected;
      }
      LabelAtIndex(spans, |text|, si, offset);
      var tag := spans[si].tag;
      var count := CountOf(components, tag) + 1;
      components := components[tag := count];
      offset := offset + |pieces[i]|;
    }
    if offset != |text| {
      return Rejected;
    }
    CountsSumToTotal(components, pieces, text, spans, canonical);
    return Attributed(|pieces|, components);
  }

  /** at[i] is the byte at which piece i starts, when the pieces stand one behind the other. */
  ghost predicate Laid(pieces: seq<string>, at: seq<nat>) {
    && |at| == |pieces|
    && (at != [] ==> at[0] == 0)
    && forall i | 0 < i < |at| :: at[i] == at[i - 1] + |pieces[i - 1]|
  }

  ghost predicate StartsInSpan<L>(spans: seq<Span<L>>, l: L, b: nat) {
    exists s <- spans :: s.tag == l && s.start <= b < s.end
  }

  ghost function Starting<L>(spans: seq<Span<L>>, l: L, at: seq<nat>, k: nat): set<nat>
    requires k <= |at|
  {
    set i: nat | i < k && StartsInSpan(spans, l, at[i])
  }

  /** The naive count is the number of pieces whose first byte lies in a span
      with the label. */
  lemma {:induction false} CountsAreStarts<L>(pieces: seq<string>, at: seq<nat>, k: nat, spans: seq<Span<L>>, n: nat,
                                              l: L)
    requires Laid(pieces, at) && k <= |pieces| && Covers(spans, n)
    ensures StartsIn(pieces, k, spans, n, l) == |Starting(spans, l, at, k)|
  {
    hide StartsInSpan, Covers, LabelAt;
    if k > 0 {
      CountsAreStarts(pieces, at, k - 1, spans, n, l);
      LaidAtStart(pieces, at, k - 1);
      LabelAtExactly(spans, n, l, at[k - 1]);
      StartingNext(spans, l, at, k);
      hide Laid, Starting;
    }
  }

  lemma {:induction false} StartingNext<L>(spans: seq<Span<L>>, l: L, at: seq<nat>, k: nat)
    requires 0 < k <= |at|
    ensures |Starting(spans, l, at, k)|
         == |Starting(spans, l, at, k - 1)| + if StartsInSpan(spans, l, at[k - 1]) then 1 else 0
  {
    hide StartsInSpan;
    var before := Starting(spans, l, at, k - 1);
    assert Starting(spans, l, at, k) == before + if StartsInSpan(spans, l, at[k - 1]) then {k - 1} else {};
  }

  lemma {:induction false} LaidAtStart(pieces: seq<string>, at: seq<nat>, i: nat)
    requires Laid(pieces, at) && i < |pieces|
    ensures at[i] == StartOf(pieces, i)
  {
    if i > 0 {
      LaidAtStart(pieces, at, i - 1);
    }
  }

  lemma {:induction false} LabelAtExactly<L>(spans: seq<Span<L>>, n: nat, l: L, b: nat)
    requires Covers(spans, n)
    ensures StartsInSpan(spans, l, b) <==> b < n && LabelAt(spans, n, b) == l
  {
    hide Covers, LabelAt;
    if b < n {
      var i := SpanAt(spans, n, b);
      assert spans[i] in spans;
    }
    forall i | 0 <= i < |spans| && spans[i].start <= b < spans[i].end
      ensures b < n && LabelAt(spans, n, b) == spans[i].tag
    {
      LabelAtIndex(spans, n, i, b);
    }
  }

  // ----- conservation -----

  lemma {:induction false} SpanAt<L>(spans: seq<Span<L>>, n: int, b: int) returns (i: nat)
    requires Covers(spans, n) && 0 <= b < n
    ensures i < |spans| && spans[i].start <= b < spans[i].end && LabelAt(spans, n, b) == spans[i].tag
    decreases |spans|
  {
    i := |spans| - 1;
    if b < spans[i].start {
      i := SpanAt(spans[..i], spans[i].start, b);
    }
  }

  ghost function SumStarts<L>(pieces: seq<string>, k: nat, spans: seq<Span<L>>, n: nat, ls: seq<L>): nat
    requires k <= |pieces| && Covers(spans, n)
  {
    if ls == [] then 0
    else SumStarts(pieces, k, spans, n, ls[..|ls| - 1]) + StartsIn(pieces, k, spans, n, ls[|ls| - 1])
  }

  lemma {:induction false} OnePieceOneLabel<L>(pieces: seq<string>, k: nat, spans: seq<Span<L>>, n: nat, ls: seq<L>)
    requires 0 < k <= |pieces| && Covers(spans, n) && StartOf(pieces, k - 1) < n
    requires NoRepeats(ls)
    ensures SumStarts(pieces, k, spans, n, ls) == SumStarts(pieces, k - 1, spans, n, ls)
      + if LabelAt(spans, n, StartOf(pieces, k - 1)) in ls then 1 else 0
  {
    if ls != [] {
      OnePieceOneLabel(pieces, k, spans, n, ls[..|ls| - 1]);
      assert ls == ls[..|ls| - 1] + [ls[|ls| - 1]];
    }
  }

  /** Over any list that names each span label once, the components sum to the total. */
  lemma {:induction false} ComponentsSumToTotal<L>(pieces: seq<string>, k: nat, text: string, spans: seq<Span<L>>,
                                                   ls: seq<L>)
    requires k <= |pieces| && Covers(spans, |text|) && Tokenizes(pieces, text)
    requires NoRepeats(ls)
    requires forall i | 0 <= i < |spans| :: spans[i].tag in ls
    ensures SumStarts(pieces, k, spans, |text|, ls) == k
    decreases k, |ls|
  {
    if k > 0 {
      ComponentsSumToTotal(pieces, k - 1, text, spans, ls);
      assert pieces[k - 1] in pieces;
      StartsGrow(pieces, k, |pieces|);
      OnePieceOneLabel(pieces, k, spans, |text|, ls);
      var i := SpanAt(spans, |text|, StartOf(pieces, k - 1));
    } else if ls != [] {
      NothingStarts(pieces, spans, |text|, ls);
    }
  }

  lemma {:induction false} NothingStarts<L>(pieces: seq<string>, spans: seq<Span<L>>, n: nat, ls: seq<L>)
    requires Covers(spans, n)
    ensures SumStarts(pieces, 0, spans, n, ls) == 0
  {
    if ls != [] {
      NothingStarts(pieces, spans, n, ls[..|ls| - 1]);
    }
  }

  /** The components of the labels in ls, added up. */
  function SumOf<L>(components: map<L, nat>, ls: seq<L>): nat {
    if ls == [] then 0 else SumOf(components, ls[..|ls| - 1]) + CountOf(components, ls[|ls| - 1])
  }

  lemma {:induction false} SumOfCounts<L>(components: map<L, nat>, pieces: seq<string>, k: nat, spans: seq<Span<L>>,
                                          n: nat, ls: seq<L>)
    requires k <= |pieces| && Covers(spans, n)
    requires forall l <- ls :: CountOf(components, l) == StartsIn(pieces, k, spans, n, l)
    ensures SumOf(components, ls) == SumStarts(pieces, k, spans, n, ls)
  {
    hide StartsIn;
    if ls != [] {
      assert ls[|ls| - 1] in ls;
      SumOfCounts(components, pieces, k, spans, n, ls[..|ls| - 1]);
    }
  }

  lemma {:induction false} CountsSumToTotal<L>(components: map<L, nat>, pieces: seq<string>, text: string,
                                               spans: seq<Span<L>>, ls: seq<L>)
    requires Covers(spans, |text|) && Tokenizes(pieces, text)
    requires forall l :: CountOf(components, l) == StartsIn(pieces, |pieces|, spans, |text|, l)
    ensures NoRepeats(ls) && (forall s <- spans :: s.tag in ls) ==> SumOf(components, ls) == |pieces|
  {
    if NoRepeats(ls) && forall s <- spans :: s.tag in ls {
      SumOfCounts(components, pieces, |pieces|, spans, |text|, ls);
      ComponentsSumToTotal(pieces, |pieces|, text, spans, ls);
    }
  }

  // ----- splitting spans -----

  ghost predicate SameLabels<L>(a: seq<Span<L>>, b: seq<Span<L>>, n: nat) {
    Covers(a, n) && Covers(b, n) && forall i | 0 <= i < n :: LabelAt(a, n, i) == LabelAt(b, n, i)
  }

  /** The span at position i cut in two at byte m. */
  function SplitAt<L>(spans: seq<Span<L>>, i: nat, m: int): seq<Span<L>>
    requires i < |spans|
  {
    var s := spans[i];
    spans[..i] + [Span(s.tag, s.start, m), Span(s.tag, m, s.end)] + spans[i + 1..]
  }

  lemma {:induction false} SplitCovers<L>(spans: seq<Span<L>>, n: nat, i: nat, m: int)
    requires Covers(spans, n) && i < |spans| && spans[i].start < m < spans[i].end
    ensures Covers(SplitAt(spans, i, m), n)
  {
    CoversIsByIndex(spans, n);
    CoversIsByIndex(SplitAt(spans, i, m), n);
    hide Covers;
    SplitCoversByIndex(spans, n, i, m);
  }

  lemma {:induction false} SplitCoversByIndex<L>(spans: seq<Span<L>>, n: int, i: nat, m: int)
    requires CoversByIndex(spans, n) && i < |spans| && spans[i].start < m < spans[i].end
    ensures CoversByIndex(SplitAt(spans, i, m), n)
  {
    var split := SplitAt(spans, i, m);
    forall j | 0 <= j < |split|
      ensures split[j].start < split[j].end && (j > 0 ==> split[j].start == split[j - 1].end) {
      var k := if j <= i then j else j - 1;
      assert spans[k].start < spans[k].end && (k > 0 ==> spans[k].start == spans[k - 1].end);
    }
  }

  lemma {:induction false} SplitKeepsLabel<L>(spans: seq<Span<L>>, n: nat, i: nat, m: int, b: int)
    requires Covers(spans, n) && i < |spans| && spans[i].start < m < spans[i].end && 0 <= b < n
    requires Covers(SplitAt(spans, i, m), n)
    ensures LabelAt(spans, n, b) == LabelAt(SplitAt(spans, i, m), n, b)
  {
    var split := SplitAt(spans, i, m);
    var j := SpanAt(spans, n, b);
    var j' := if j < i || (j == i && b < m) then j else j + 1;
    assert split[j'].start <= b < split[j'].end && split[j'].tag == spans[j].tag;
    LabelAtIndex(split, n, j', b);
  }

  /** Cutting a span in two changes no byte's label. */
  lemma {:induction false} SplitKeepsLabels<L>(spans: seq<Span<L>>, n: nat, i: nat, m: int)
    requires Covers(spans, n) && i < |spans| && spans[i].start < m < spans[i].end
    ensures SameLabels(spans, SplitAt(spans, i, m), n)
  {
    SplitCovers(spans, n, i, m);
    forall b | 0 <= b < n ensures LabelAt(spans, n, b) == LabelAt(SplitAt(spans, i, m), n, b) {
      SplitKeepsLabel(spans, n, i, m, b);
    }
  }

  /** Partitions that label every byte alike, such as before and after splitting
      or merging neighbours with one label, give the same counts. */
  lemma {:induction false} CountsDependOnLabelsOnly<L>(pieces: seq<string>, k: nat, a: seq<Span<L>>, b: seq<Span<L>>,
                                                       n: nat, l: L)
    requires k <= |pieces| && SameLabels(a, b, n)
    ensures StartsIn(pieces, k, a, n, l) == StartsIn(pieces, k, b, n, l)
  {
    if k > 0 {
      CountsDependOnLabelsOnly(pieces, k - 1, a, b, n, l);
    }
  }

  // ----- the whole measurement -----

  const CANONICAL: seq<Component> := [InputSchemas, Descriptions, UsageInstructions, Metadata, Other]

  lemma {:induction false} EveryComponentIsCanonical()
    ensures NoRepeats(CANONICAL) && forall c: Component :: c in CANONICAL
  {
    forall c: Component ensures c in CANONICAL {
      match c
      case InputSchemas => assert CANONICAL[0] == c;
      case Descriptions => assert CANONICAL[1] == c;
      case UsageInstructions => assert CANONICAL[2] == c;
      case Metadata => assert CANONICAL[3] == c;
      case Other => assert CANONICAL[4] == c;
    }
  }

  datatype Measurement = Measured(totalTokens: nat, resultCount: nat, components: map<Component, nat>) | NotMeasured

  /** `MeasureRetrieveToolsResponse`: for an accepted response and a tokenizer
      that spells the text, nothing after the walk can fail. */
  method MeasureResponse(text: string, trimmed: nat, tokens: seq<Token>, ends: seq<nat>, pieces: seq<string>)
      returns (m: Measurement, ghost spans: seq<Span<Component>>)
    requires Lexed(tokens, ends, |text|)
    ensures m.Measured? <==> Accepts(tokens, ends, trimmed) && Tokenizes(pieces, text)
    ensures m.Measured? ==> Labelled(spans, |text|, ends, ResponseLabels(ParseResponse(tokens).value))
    ensures m.Measured? ==> m.totalTokens == |pieces| && m.resultCount == ToolCount(ParseResponse(tokens).value)
    ensures m.Measured? ==> forall c :: CountOf(m.components, c) == StartsIn(pieces, |pieces|, spans, |text|, c)
    ensures m.Measured? ==> SumOf(m.components, CANONICAL) == m.totalTokens
    ensures m.Measured? ==> var top := ParseResponse(tokens).value;
      && ValidTop(top) && ResponseTokens(top) <= tokens
      && BytesCountFor(spans, |text|, ends, top) && CountsLastTools(m.resultCount, top)
  {
    hide Tokenizes, StartsIn, Covers, Lexed, SumOf, NoRepeats, CANONICAL, ParseResponse, ResponseLabels, ToolCount;
    EveryComponentIsCanonical();
    var walk := new ResponseWalk(|text|, trimmed, tokens, ends);
    var ok, count := walk.Run();
    spans := walk.spans;
    if !ok {
      return NotMeasured, spans;
    }
    var r := AttributeTokens(text, pieces, walk.spans, CANONICAL);
    if r.Rejected? {
      return NotMeasured, spans;
    }
    m := Measured(r.total, count, r.components);
  }
}
