/** The text surgery of the archive sweep in scripts/gen-roadmap.py, on a file
    as its lines, each without its line ending and classified as the regular
    expressions of the script classify it. */
module RoadmapText {
  import opened Strings

  datatype Line =
    | EpicStart(id: string, text: string)
    | Banner(text: string)
    | Blank(text: string)
    | Other(text: string)

  type Lines = seq<Line>

  datatype Block = Block(id: string, start: nat, end: nat)

  /** Blank lines and banners belong to the group after them, not to an epic. */
  predicate IsSpacing(l: Line) {
    l.Blank? || l.Banner?
  }

  // ----- epic blocks -----

  /** The first epic line from i on, or the end of the file. */
  function NextStart(lines: Lines, i: nat): (n: nat)
    requires i <= |lines|
    ensures i <= n <= |lines| && (forall j | i <= j < n :: !lines[j].EpicStart?)
    ensures n < |lines| ==> lines[n].EpicStart?
    decreases |lines| - i
  {
    if i == |lines| || lines[i].EpicStart? then i else NextStart(lines, i + 1)
  }

  /** `end`, moved back over spacing but never past the line after `start`. */
  function TrimEnd(lines: Lines, start: nat, end: nat): (e: nat)
    requires start < end <= |lines|
    ensures start < e <= end && (forall j | e <= j < end :: IsSpacing(lines[j]))
    ensures e - 1 > start ==> !IsSpacing(lines[e - 1])
  {
    if end - 1 > start && IsSpacing(lines[end - 1]) then TrimEnd(lines, start, end - 1) else end
  }

  function BlockAt(lines: Lines, i: nat): Block
    requires i < |lines| && lines[i].EpicStart?
  {
    Block(lines[i].id, i, TrimEnd(lines, i, NextStart(lines, i + 1)))
  }

  /** The blocks that start at line i or later. */
  function Blocks(lines: Lines, i: nat): seq<Block>
    requires i <= |lines|
    decreases |lines| - i
  {
    if i == |lines| then []
    else if lines[i].EpicStart? then [BlockAt(lines, i)] + Blocks(lines, i + 1)
    else Blocks(lines, i + 1)
  }

  /** The ids of the epic lines, in order. */
  function ScanIds(lines: Lines): seq<string> {
    if lines == [] then []
    else (if lines[0].EpicStart? then [lines[0].id] else []) + ScanIds(lines[1..])
  }

  function BlockIds(blocks: seq<Block>): seq<string> {
    seq(|blocks|, i requires 0 <= i < |blocks| => blocks[i].id)
  }

  /** b is the block that its own first line starts. */
  ghost predicate BlockOf(lines: Lines, b: Block) {
    b.start < b.end <= |lines| && lines[b.start].EpicStart? && b == BlockAt(lines, b.start)
  }

  /** Blocks in file order, from line `low` on, that do not overlap. */
  ghost predicate Owned(lines: Lines, blocks: seq<Block>, low: nat) {
    && (forall k | 0 <= k < |blocks| :: BlockOf(lines, blocks[k]) && low <= blocks[k].start)
    && (forall j, k | 0 <= j < k < |blocks| :: blocks[j].end <= blocks[k].start)
  }

  lemma {:induction false} OwnedCons(lines: Lines, b: Block, rest: seq<Block>)
    requires BlockOf(lines, b) && Owned(lines, rest, b.end)
    ensures Owned(lines, [b] + rest, b.start)
  {
    hide BlockAt;
  }

  lemma {:induction false} BlocksAreOwned(lines: Lines, i: nat)
    requires i <= |lines|
    ensures Owned(lines, Blocks(lines, i), NextStart(lines, i))
    decreases |lines| - i
  {
    if i < |lines| {
      BlocksAreOwned(lines, i + 1);
      var blocks, rest := Blocks(lines, i), Blocks(lines, i + 1);
      if lines[i].EpicStart? {
        assert BlockOf(lines, BlockAt(lines, i));
        OwnedCons(lines, BlockAt(lines, i), rest);
      } else {
        assert blocks == rest;
      }
    }
  }

  lemma {:induction false} StartsAreOwned(lines: Lines, i: nat, j: nat)
    requires i <= j < |lines| && lines[j].EpicStart?
    ensures BlockAt(lines, j) in Blocks(lines, i)
    decreases |lines| - i
  {
    hide BlockAt;
    if i < j {
      StartsAreOwned(lines, i + 1, j);
    }
  }

  lemma {:induction false} BlocksAreWellFormed(lines: Lines)
    ensures forall b <- Blocks(lines, 0) :: BlockOf(lines, b)
    ensures forall j, k | 0 <= j < k < |Blocks(lines, 0)| :: Blocks(lines, 0)[j].end <= Blocks(lines, 0)[k].start
    ensures forall j | 0 <= j < |lines| && lines[j].EpicStart? :: BlockAt(lines, j) in Blocks(lines, 0)
  {
    BlocksAreOwned(lines, 0);
    forall j | 0 <= j < |lines| && lines[j].EpicStart? ensures BlockAt(lines, j) in Blocks(lines, 0) {
      StartsAreOwned(lines, 0, j);
    }
  }

  lemma {:induction false} BlockIdsAreScanIds(lines: Lines, i: nat)
    requires i <= |lines|
    ensures BlockIds(Blocks(lines, i)) == ScanIds(lines[i..])
    decreases |lines| - i
  {
    if i < |lines| {
      BlockIdsAreScanIds(lines, i + 1);
      assert lines[i..][1..] == lines[i + 1..];
    }
  }

  /** Only the first line of a block is an epic line. */
  lemma {:induction false} OneEpicPerBlock(lines: Lines, b: Block, i: nat)
    requires b in Blocks(lines, 0) && b.start <= i < b.end
    ensures i < |lines| && (lines[i].EpicStart? <==> i == b.start)
  {
    BlocksAreWellFormed(lines);
  }

  lemma {:induction false} LastStart(lines: Lines, i: nat) returns (j: nat)
    requires i < |lines| && exists k | 0 <= k <= i :: lines[k].EpicStart?
    ensures j <= i && lines[j].EpicStart? && forall k | j < k <= i :: !lines[k].EpicStart?
  {
    j := i;
    while !lines[j].EpicStart?
      invariant 0 <= j <= i && (forall k | j < k <= i :: !lines[k].EpicStart?)
      invariant exists k | 0 <= k <= j :: lines[k].EpicStart?
      decreases j
    {
      j := j - 1;
    }
  }

  /** Every line that is not spacing and has an epic line above lies in a block. */
  lemma {:induction false} ContentIsCovered(lines: Lines, i: nat)
    requires i < |lines| && !IsSpacing(lines[i]) && exists k | 0 <= k <= i :: lines[k].EpicStart?
    ensures exists b <- Blocks(lines, 0) :: b.start <= i < b.end
  {
    BlocksAreWellFormed(lines);
    var j := LastStart(lines, i);
    assert BlockAt(lines, j) in Blocks(lines, 0);
  }

  /** The positions of the epic lines from i on. */
  function Starts(lines: Lines, i: nat): seq<nat>
    requires i <= |lines|
    decreases |lines| - i
  {
    if i == |lines| then []
    else (if lines[i].EpicStart? then [i] else []) + Starts(lines, i + 1)
  }

  /** Where the block that starts at starts[k] is cut off before trimming. */
  function Limit(lines: Lines, starts: seq<nat>, k: nat): nat
    requires k < |starts|
  {
    if k + 1 < |starts| then starts[k + 1] else |lines|
  }

  ghost predicate StartAt(lines: Lines, starts: seq<nat>, k: nat)
    requires k < |starts|
  {
    && starts[k] < |lines| && lines[starts[k]].EpicStart?
    && NextStart(lines, starts[k] + 1) == Limit(lines, starts, k)
  }

  lemma {:induction false} StartsCons(lines: Lines, i: nat, rest: seq<nat>)
    requires i < |lines| && lines[i].EpicStart?
    requires NextStart(lines, i + 1) == if rest == [] then |lines| else rest[0]
    requires forall k | 0 <= k < |rest| :: StartAt(lines, rest, k)
    ensures forall k | 0 <= k < |rest| + 1 :: StartAt(lines, [i] + rest, k)
  {
    forall k | 0 <= k < |rest| + 1 ensures StartAt(lines, [i] + rest, k) {
      hide NextStart;
      if k > 0 {
        assert StartAt(lines, rest, k - 1);
      }
    }
  }

  lemma {:induction false} StartsAreNextStarts(lines: Lines, i: nat)
    requires i <= |lines|
    ensures NextStart(lines, i) == if Starts(lines, i) == [] then |lines| else Starts(lines, i)[0]
    ensures forall k | 0 <= k < |Starts(lines, i)| :: StartAt(lines, Starts(lines, i), k)
    decreases |lines| - i
  {
    if i < |lines| {
      StartsAreNextStarts(lines, i + 1);
      var starts, rest := Starts(lines, i), Starts(lines, i + 1);
      if lines[i].EpicStart? {
        hide Starts;
        assert starts == [i] + rest;
        StartsCons(lines, i, rest);
      } else {
        assert starts == rest;
      }
    }
  }

  lemma {:induction false} BlocksFollowStarts(lines: Lines, i: nat)
    requires i <= |lines|
    ensures |Blocks(lines, i)| == |Starts(lines, i)|
    ensures forall k | 0 <= k < |Blocks(lines, i)| ::
      var start := Starts(lines, i)[k];
      start < |lines| && lines[start].EpicStart? && Blocks(lines, i)[k] == BlockAt(lines, start)
    decreases |lines| - i
  {
    hide BlockAt;
    if i < |lines| {
      BlocksFollowStarts(lines, i + 1);
      var starts, blocks := Starts(lines, i), Blocks(lines, i);
      if lines[i].EpicStart? {
        forall k | 0 < k < |blocks|
          ensures starts[k] == Starts(lines, i + 1)[k - 1] && blocks[k] == Blocks(lines, i + 1)[k - 1]
        {
        }
      } else {
        assert starts == Starts(lines, i + 1) && blocks == Blocks(lines, i + 1);
      }
    }
  }

  /** The loop that moves the end of a block back over spacing. */
  method TrimBack(lines: Lines, start: nat, limit: nat) returns (end: nat)
    requires start < limit <= |lines|
    ensures end == TrimEnd(lines, start, limit)
  {
    end := limit;
    while end - 1 > start && IsSpacing(lines[end - 1])
      invariant start < end <= limit && TrimEnd(lines, start, end) == TrimEnd(lines, start, limit)
    {
      end := end - 1;
    }
  }

  lemma {:induction false} BlockFromStart(lines: Lines, starts: seq<nat>, k: nat)
    requires k < |starts| && StartAt(lines, starts, k)
    ensures starts[k] < Limit(lines, starts, k) <= |lines| && lines[starts[k]].EpicStart?
    ensures BlockAt(lines, starts[k])
         == Block(lines[starts[k]].id, starts[k], TrimEnd(lines, starts[k], Limit(lines, starts, k)))
  {
  }

  method FindStarts(lines: Lines) returns (starts: seq<nat>)
    ensures starts == Starts(lines, 0)
  {
    starts := [];
    for i := 0 to |lines|
      invariant starts + Starts(lines, i) == Starts(lines, 0)
    {
      if lines[i].EpicStart? {
        starts := starts + [i];
      }
    }
  }

  /** `find_epic_blocks`. */
  method FindEpicBlocks(lines: Lines) returns (blocks: seq<Block>)
    ensures blocks == Blocks(lines, 0)
  {
    hide BlockAt, StartAt, Limit, TrimEnd, NextStart;
    var starts := FindStarts(lines);
    StartsAreNextStarts(lines, 0);
    BlocksFollowStarts(lines, 0);
    blocks := [];
    for k := 0 to |starts|
      invariant |blocks| == k && forall j | 0 <= j < k :: blocks[j] == Blocks(lines, 0)[j]
    {
      BlockFromStart(lines, starts, k);
      var end := TrimBack(lines, starts[k], Limit(lines, starts, k));
      blocks := blocks + [Block(lines[starts[k]].id, starts[k], end)];
    }
  }

  // ----- appending blocks to a file -----

  function Shift(blocks: seq<Block>, n: nat): seq<Block> {
    seq(|blocks|, k requires 0 <= k < |blocks| => Block(blocks[k].id, blocks[k].start + n, blocks[k].end + n))
  }

  lemma {:induction false} NextStartInAppended(a: Lines, b: Lines, i: nat)
    requires i <= |a| && (b == [] || b[0].EpicStart?)
    ensures NextStart(a + b, i) == NextStart(a, i)
    decreases |a| - i
  {
    if i < |a| && !a[i].EpicStart? {
      NextStartInAppended(a, b, i + 1);
    }
  }

  lemma {:induction false} NextStartShifted(a: Lines, b: Lines, i: nat)
    requires i <= |b|
    ensures NextStart(a + b, |a| + i) == |a| + NextStart(b, i)
    decreases |b| - i
  {
    if i < |b| && !b[i].EpicStart? {
      NextStartShifted(a, b, i + 1);
    }
  }

  lemma {:induction false} TrimEndInAppended(a: Lines, b: Lines, start: nat, end: nat)
    requires start < end <= |a|
    ensures TrimEnd(a + b, start, end) == TrimEnd(a, start, end)
  {
    if end - 1 > start && IsSpacing(a[end - 1]) {
      TrimEndInAppended(a, b, start, end - 1);
    }
  }

  lemma {:induction false} TrimEndShifted(a: Lines, b: Lines, start: nat, end: nat)
    requires start < end <= |b|
    ensures TrimEnd(a + b, |a| + start, |a| + end) == |a| + TrimEnd(b, start, end)
  {
    if end - 1 > start && IsSpacing(b[end - 1]) {
      TrimEndShifted(a, b, start, end - 1);
    }
  }

  lemma {:induction false} BlockAtShifted(a: Lines, b: Lines, i: nat)
    requires i < |b| && b[i].EpicStart?
    ensures var block := BlockAt(b, i);
            BlockAt(a + b, |a| + i) == Block(block.id, block.start + |a|, block.end + |a|)
  {
    NextStartShifted(a, b, i + 1);
    TrimEndShifted(a, b, i, NextStart(b, i + 1));
  }

  lemma {:induction false} BlockAtInAppended(a: Lines, b: Lines, i: nat)
    requires i < |a| && a[i].EpicStart? && (b == [] || b[0].EpicStart?)
    ensures BlockAt(a + b, i) == BlockAt(a, i)
  {
    NextStartInAppended(a, b, i + 1);
    TrimEndInAppended(a, b, i, NextStart(a, i + 1));
  }

  lemma {:induction false} BlocksShifted(a: Lines, b: Lines, i: nat)
    requires i <= |b|
    ensures Blocks(a + b, |a| + i) == Shift(Blocks(b, i), |a|)
    decreases |b| - i
  {
    hide BlockAt;
    if i < |b| {
      BlocksShifted(a, b, i + 1);
      assert (a + b)[|a| + i] == b[i];
      if b[i].EpicStart? {
        BlockAtShifted(a, b, i);
      }
    }
  }

  /** A file extended by lines that start with an epic has its old blocks, then the new ones. */
  lemma {:induction false} BlocksAppend(a: Lines, b: Lines, i: nat)
    requires i <= |a| && (b == [] || b[0].EpicStart?)
    ensures Blocks(a + b, i) == Blocks(a, i) + Shift(Blocks(b, 0), |a|)
    decreases |a| - i
  {
    hide BlockAt;
    if i == |a| {
      BlocksShifted(a, b, 0);
    } else {
      BlocksAppend(a, b, i + 1);
      assert (a + b)[i] == a[i];
      if a[i].EpicStart? {
        BlockAtInAppended(a, b, i);
      }
    }
  }

  lemma {:induction false} NextStartBeforeSpacing(a: Lines, l: Line, i: nat)
    requires i <= |a| && IsSpacing(l)
    ensures NextStart(a + [l], i) == if NextStart(a, i) < |a| then NextStart(a, i) else |a| + 1
    decreases |a| - i
  {
    if i < |a| && !a[i].EpicStart? {
      NextStartBeforeSpacing(a, l, i + 1);
    }
  }

  lemma {:induction false} BlockAtBeforeSpacing(a: Lines, l: Line, i: nat)
    requires i < |a| && a[i].EpicStart? && IsSpacing(l)
    ensures BlockAt(a + [l], i) == BlockAt(a, i)
  {
    NextStartBeforeSpacing(a, l, i + 1);
    TrimEndInAppended(a, [l], i, NextStart(a, i + 1));
  }

  /** Spacing at the end of a file belongs to no block. */
  lemma {:induction false} BlocksBeforeSpacing(a: Lines, l: Line, i: nat)
    requires i <= |a| && IsSpacing(l)
    ensures Blocks(a + [l], i) == Blocks(a, i)
    decreases |a| - i
  {
    hide BlockAt;
    if i < |a| {
      BlocksBeforeSpacing(a, l, i + 1);
      assert (a + [l])[i] == a[i];
      if a[i].EpicStart? {
        BlockAtBeforeSpacing(a, l, i);
      }
    }
  }

  lemma {:induction false} ScanIdsAppend(a: Lines, b: Lines)
    ensures ScanIds(a + b) == ScanIds(a) + ScanIds(b)
  {
    if a == [] {
      assert a + b == b;
    } else {
      ScanIdsAppend(a[1..], b);
      assert (a + b)[1..] == a[1..] + b && (a + b)[0] == a[0];
      var h := if a[0].EpicStart? then [a[0].id] else [];
      assert h + (ScanIds(a[1..]) + ScanIds(b)) == h + ScanIds(a[1..]) + ScanIds(b);
    }
  }

  // ----- cutting blocks -----

  predicate InCut(blocks: seq<Block>, chosen: set<string>, i: nat) {
    exists b <- blocks :: b.id in chosen && b.start <= i < b.end
  }

  /** The lines from i on outside the chosen blocks. */
  function Outside(lines: Lines, chosen: set<string>, i: nat): Lines
    requires i <= |lines|
    decreases |lines| - i
  {
    if i == |lines| then []
    else (if InCut(Blocks(lines, 0), chosen, i) then [] else [lines[i]]) + Outside(lines, chosen, i + 1)
  }

  function Without(ids: seq<string>, chosen: set<string>): seq<string> {
    if ids == [] then []
    else (if ids[0] in chosen then [] else [ids[0]]) + Without(ids[1..], chosen)
  }

  /** An epic line is cut exactly when its own id is chosen. */
  lemma {:induction false} EpicLineInCut(lines: Lines, chosen: set<string>, i: nat)
    requires i < |lines| && lines[i].EpicStart?
    ensures InCut(Blocks(lines, 0), chosen, i) <==> lines[i].id in chosen
  {
    BlocksAreWellFormed(lines);
    assert BlockAt(lines, i) in Blocks(lines, 0);
    forall b <- Blocks(lines, 0) | b.start <= i < b.end ensures b.id == lines[i].id {
      OneEpicPerBlock(lines, b, i);
    }
  }

  /** The ids left after the cut are the old ids without the chosen ones, in order. */
  lemma {:induction false} CutRemovesChosenIds(lines: Lines, chosen: set<string>, i: nat)
    requires i <= |lines|
    ensures ScanIds(Outside(lines, chosen, i)) == Without(ScanIds(lines[i..]), chosen)
    decreases |lines| - i
  {
    hide InCut, Blocks;
    if i < |lines| {
      CutRemovesChosenIds(lines, chosen, i + 1);
      assert lines[i..][1..] == lines[i + 1..];
      if lines[i].EpicStart? {
        EpicLineInCut(lines, chosen, i);
      }
      var rest := Outside(lines, chosen, i + 1);
      assert lines[i..] == [lines[i]] + lines[i + 1..] && [] + rest == rest;
      CutStep(lines[i], rest, lines[i + 1..], chosen);
    }
  }

  lemma {:induction false} CutStep(l: Line, rest: Lines, after: Lines, chosen: set<string>)
    requires ScanIds(rest) == Without(ScanIds(after), chosen)
    ensures l.EpicStart? && l.id in chosen ==> ScanIds(rest) == Without(ScanIds([l] + after), chosen)
    ensures l.EpicStart? && l.id !in chosen ==> ScanIds([l] + rest) == Without(ScanIds([l] + after), chosen)
    ensures !l.EpicStart? ==> ScanIds(rest) == ScanIds([l] + rest) == Without(ScanIds([l] + after), chosen)
  {
    hide ScanIds, Without;
    ScanIdsCons(l, rest);
    ScanIdsCons(l, after);
    assert [] + ScanIds(rest) == ScanIds(rest) && [] + ScanIds(after) == ScanIds(after);
    if l.EpicStart? {
      WithoutCons(l.id, ScanIds(after), chosen);
    }
  }

  lemma {:induction false} WithoutCons(x: string, ids: seq<string>, chosen: set<string>)
    ensures Without([x] + ids, chosen) == if x in chosen then Without(ids, chosen) else [x] + Without(ids, chosen)
  {
    assert ([x] + ids)[1..] == ids;
    assert [] + Without(ids, chosen) == Without(ids, chosen);
  }

  lemma {:induction false} ScanIdsCons(l: Line, rest: Lines)
    ensures ScanIds([l] + rest) == (if l.EpicStart? then [l.id] else []) + ScanIds(rest)
  {
    assert ([l] + rest)[1..] == rest;
  }

  // ----- where the cut lines go -----

  /** The lines from i on inside the chosen blocks. */
  function Inside(lines: Lines, chosen: set<string>, i: nat): Lines
    requires i <= |lines|
    decreases |lines| - i
  {
    if i == |lines| then []
    else (if InCut(Blocks(lines, 0), chosen, i) then [lines[i]] else []) + Inside(lines, chosen, i + 1)
  }

  function BlockText(lines: Lines, b: Block): Lines {
    if b.start <= b.end <= |lines| then lines[b.start..b.end] else []
  }

  /** The chosen blocks' lines, block after block. */
  function CutText(lines: Lines, blocks: seq<Block>, chosen: set<string>): Lines {
    if blocks == [] then []
    else (if blocks[0].id in chosen then BlockText(lines, blocks[0]) else []) + CutText(lines, blocks[1..], chosen)
  }

  /** No line is lost or invented: each goes to one side of the cut. */
  lemma {:induction false} CutConservesLines(lines: Lines, chosen: set<string>, i: nat)
    requires i <= |lines|
    ensures multiset(lines[i..]) == multiset(Outside(lines, chosen, i)) + multiset(Inside(lines, chosen, i))
    decreases |lines| - i
  {
    hide InCut, Blocks, Outside, Inside;
    if i == |lines| {
      NothingLeft(lines, chosen);
    } else {
      CutConservesLines(lines, chosen, i + 1);
      OneMoreLine(lines, chosen, i);
      ConsLine(lines[i], lines[i + 1..]);
      assert lines[i..] == [lines[i]] + lines[i + 1..];
    }
  }

  lemma {:induction false} NothingLeft(lines: Lines, chosen: set<string>)
    ensures Outside(lines, chosen, |lines|) == [] == Inside(lines, chosen, |lines|)
  {
  }

  lemma {:induction false} OneMoreLine(lines: Lines, chosen: set<string>, i: nat)
    requires i < |lines|
    ensures multiset(Outside(lines, chosen, i)) + multiset(Inside(lines, chosen, i))
         == multiset{lines[i]} + (multiset(Outside(lines, chosen, i + 1)) + multiset(Inside(lines, chosen, i + 1)))
  {
    hide InCut, Blocks;
    var out, cut := Outside(lines, chosen, i + 1), Inside(lines, chosen, i + 1);
    ConsLine(lines[i], out);
    ConsLine(lines[i], cut);
    assert [] + out == out && [] + cut == cut;
  }

  lemma {:induction false} ConsLine(l: Line, s: Lines)
    ensures multiset([l] + s) == multiset{l} + multiset(s)
  {
  }

  lemma {:induction false} InsideBlock(lines: Lines, chosen: set<string>, b: Block, i: nat)
    requires b in Blocks(lines, 0) && b.start <= i <= b.end <= |lines|
    ensures Inside(lines, chosen, i) == (if b.id in chosen then lines[i..b.end] else []) + Inside(lines, chosen, b.end)
    decreases b.end - i
  {
    hide InCut, Blocks;
    if i < b.end {
      InsideBlock(lines, chosen, b, i + 1);
      InCutByBlock(lines, chosen, b, i);
      var rest, tail := Inside(lines, chosen, i + 1), Inside(lines, chosen, b.end);
      if b.id in chosen {
        assert Inside(lines, chosen, i) == [lines[i]] + rest;
        assert lines[i..b.end] == [lines[i]] + lines[i + 1..b.end];
      } else {
        assert Inside(lines, chosen, i) == rest;
      }
    }
  }

  lemma {:induction false} InCutByBlock(lines: Lines, chosen: set<string>, b: Block, i: nat)
    requires b in Blocks(lines, 0) && b.start <= i < b.end
    ensures InCut(Blocks(lines, 0), chosen, i) <==> b.id in chosen
  {
    BlocksAreOwned(lines, 0);
    var blocks := Blocks(lines, 0);
    var k :| 0 <= k < |blocks| && blocks[k] == b;
    forall j | 0 <= j < |blocks| && j != k ensures !(blocks[j].start <= i < blocks[j].end) {
      assert if j < k then blocks[j].end <= blocks[k].start else blocks[k].end <= blocks[j].start;
    }
  }

  lemma {:induction false} BetweenBlocks(lines: Lines, chosen: set<string>, i: nat, k: nat)
    requires i < |lines| && k <= |Blocks(lines, 0)|
    requires forall j | 0 <= j < k :: Blocks(lines, 0)[j].end <= i
    requires k < |Blocks(lines, 0)| ==> i < Blocks(lines, 0)[k].start
    ensures !InCut(Blocks(lines, 0), chosen, i)
  {
    hide BlockOf;
    BlocksAreOwned(lines, 0);
    BlockIsLater(lines, k);
    var blocks := Blocks(lines, 0);
    forall j | 0 <= j < |blocks| ensures !(blocks[j].start <= i < blocks[j].end) {
    }
  }

  lemma {:induction false} BlockIsLater(lines: Lines, k: nat)
    ensures forall j | k <= j < |Blocks(lines, 0)| :: Blocks(lines, 0)[k].start <= Blocks(lines, 0)[j].start
  {
    BlocksAreOwned(lines, 0);
    var blocks := Blocks(lines, 0);
    forall j | k <= j < |blocks| ensures blocks[k].start <= blocks[j].start {
      assert BlockOf(lines, blocks[k]);
      assert k < j ==> blocks[k].end <= blocks[j].start;
    }
  }

  /** The cut lines, in file order, are the chosen blocks. */
  lemma {:induction false} InsideIsCutText(lines: Lines, chosen: set<string>, i: nat, k: nat)
    requires i <= |lines| && k <= |Blocks(lines, 0)|
    requires forall j | 0 <= j < k :: Blocks(lines, 0)[j].end <= i
    requires k < |Blocks(lines, 0)| ==> i <= Blocks(lines, 0)[k].start
    ensures Inside(lines, chosen, i) == CutText(lines, Blocks(lines, 0)[k..], chosen)
    decreases |lines| - i
  {
    hide *;
    var blocks := Blocks(lines, 0);
    if k < |blocks| && blocks[k].start == i {
      BlockInOrder(lines, k);
      InsideIsCutText(lines, chosen, blocks[k].end, k + 1);
      InsideFromBlock(lines, chosen, k);
    } else if i < |lines| {
      BetweenBlocks(lines, chosen, i, k);
      InsideIsCutText(lines, chosen, i + 1, k);
      InsideSkips(lines, chosen, i);
    } else {
      BlockInOrder(lines, k);
      InsideEnds(lines, chosen);
      assert blocks[k..] == [];
    }
  }

  lemma {:induction false} BlockInOrder(lines: Lines, k: nat)
    ensures var blocks := Blocks(lines, 0);
      k < |blocks| ==>
        && blocks[k] in blocks && blocks[k].start < blocks[k].end <= |lines|
        && (forall j | 0 <= j <= k :: blocks[j].end <= blocks[k].end)
        && (k + 1 < |blocks| ==> blocks[k].end <= blocks[k + 1].start)
  {
    hide Blocks, BlockAt;
    BlocksAreWellFormed(lines);
    if k < |Blocks(lines, 0)| {
      assert BlockOf(lines, Blocks(lines, 0)[k]);
      forall j | 0 <= j < k ensures Blocks(lines, 0)[j].end <= Blocks(lines, 0)[k].end {
        assert Blocks(lines, 0)[j].end <= Blocks(lines, 0)[k].start;
      }
    }
  }

  lemma {:induction false} InsideFromBlock(lines: Lines, chosen: set<string>, k: nat)
    requires var blocks := Blocks(lines, 0);
      k < |blocks| && blocks[k].start < blocks[k].end <= |lines| &&
      Inside(lines, chosen, blocks[k].end) == CutText(lines, blocks[k + 1..], chosen)
    ensures Inside(lines, chosen, Blocks(lines, 0)[k].start) == CutText(lines, Blocks(lines, 0)[k..], chosen)
  {
    hide Blocks, InCut;
    var blocks := Blocks(lines, 0);
    InsideBlock(lines, chosen, blocks[k], blocks[k].start);
    hide Inside;
    assert blocks[k..][1..] == blocks[k + 1..] && blocks[k..][0] == blocks[k];
  }

  lemma {:induction false} InsideSkips(lines: Lines, chosen: set<string>, i: nat)
    requires i < |lines| && !InCut(Blocks(lines, 0), chosen, i)
    ensures Inside(lines, chosen, i) == Inside(lines, chosen, i + 1)
  {
    hide Blocks, InCut;
  }

  lemma {:induction false} InsideEnds(lines: Lines, chosen: set<string>)
    ensures Inside(lines, chosen, |lines|) == [] && CutText(lines, [], chosen) == []
  {}

  /** The excision of `sweep_archive`: a set of line numbers, then the lines not in it. */
  method CutBlocks(lines: Lines, chosen: set<string>) returns (kept: Lines)
    ensures kept == Outside(lines, chosen, 0)
  {
    hide InCut, Blocks, Outside;
    var blocks := FindEpicBlocks(lines);
    var cut := set i: nat | i < |lines| && InCut(blocks, chosen, i);
    kept := [];
    assert kept + Outside(lines, chosen, 0) == Outside(lines, chosen, 0);
    for i := 0 to |lines|
      invariant kept + Outside(lines, chosen, i) == Outside(lines, chosen, 0)
    {
      KeepOrCut(lines, chosen, i, kept);
      if i !in cut {
        kept := kept + [lines[i]];
      }
    }
    NothingLeft(lines, chosen);
  }

  lemma {:induction false} KeepOrCut(lines: Lines, chosen: set<string>, i: nat, kept: Lines)
    requires i < |lines|
    ensures kept + Outside(lines, chosen, i)
         == (if InCut(Blocks(lines, 0), chosen, i) then kept else kept + [lines[i]]) + Outside(lines, chosen, i + 1)
  {
    hide InCut, Blocks;
    var rest := Outside(lines, chosen, i + 1);
    assert kept + ([lines[i]] + rest) == kept + [lines[i]] + rest && [] + rest == rest;
  }

  // ----- pruning -----

  /** An epic line comes before the next banner. */
  predicate HasEpic(lines: Lines) {
    lines != [] && !lines[0].Banner? && (lines[0].EpicStart? || HasEpic(lines[1..]))
  }

  /** A banner with no epic under it is dropped, and the blank run right after it. */
  predicate Dropped(lines: Lines, after: bool)
    requires lines != []
  {
    (lines[0].Banner? && !HasEpic(lines[1..])) || (lines[0].Blank? && after)
  }

  /** Dropping, where `after` says that the line before was dropped. */
  function DropEmpty(lines: Lines, after: bool): Lines {
    if lines == [] then []
    else if Dropped(lines, after) then DropEmpty(lines[1..], true)
    else [lines[0]] + DropEmpty(lines[1..], false)
  }

  /** A blank is superfluous after a blank or a banner. */
  predicate Superfluous(before: Lines, l: Line) {
    l.Blank? && before != [] && IsSpacing(before[|before| - 1])
  }

  function Collapse(lines: Lines): Lines {
    if lines == [] then []
    else
      var out, l := Collapse(lines[..|lines| - 1]), lines[|lines| - 1];
      if Superfluous(out, l) then out else out + [l]
  }

  function TrimTail(lines: Lines): Lines {
    if lines != [] && lines[|lines| - 1].Blank? then TrimTail(lines[..|lines| - 1]) else lines
  }

  function Prune(lines: Lines): Lines {
    TrimTail(Collapse(DropEmpty(lines, false)))
  }

  /** The lines that are not spacing, in order. */
  function Content(lines: Lines): Lines {
    if lines == [] then []
    else Content(lines[..|lines| - 1]) + if IsSpacing(lines[|lines| - 1]) then [] else [lines[|lines| - 1]]
  }

  lemma {:induction false} ContentAppend(a: Lines, b: Lines)
    ensures Content(a + b) == Content(a) + Content(b)
  {
    if b == [] {
      assert a + b == a;
    } else {
      ContentAppend(a, b[..|b| - 1]);
      assert (a + b)[..|a + b| - 1] == a + b[..|b| - 1];
    }
  }

  lemma {:induction false} ContentOfOne(l: Line)
    ensures Content([l]) == if IsSpacing(l) then [] else [l]
  {
    assert [l][..0] == [];
  }

  lemma {:induction false} DropKeepsContent(lines: Lines, after: bool)
    ensures Content(DropEmpty(lines, after)) == Content(lines)
  {
    if lines != [] {
      var l, rest := lines[0], lines[1..];
      assert lines == [l] + rest;
      ContentAppend([l], rest);
      ContentOfOne(l);
      DropKeepsContent(rest, Dropped(lines, after));
      ContentAppend([l], DropEmpty(rest, false));
    }
  }

  lemma {:induction false} CollapseKeepsContent(lines: Lines)
    ensures Content(Collapse(lines)) == Content(lines)
  {
    if lines != [] {
      var front, l := lines[..|lines| - 1], lines[|lines| - 1];
      CollapseKeepsContent(front);
      ContentAppend(Collapse(front), [l]);
      ContentOfOne(l);
    }
  }

  lemma {:induction false} TrimKeepsContent(lines: Lines)
    ensures Content(TrimTail(lines)) == Content(lines)
  {
    if lines != [] && lines[|lines| - 1].Blank? {
      TrimKeepsContent(lines[..|lines| - 1]);
    }
  }

  /** Pruning keeps every line that is not spacing, in order. */
  lemma {:induction false} PruneKeepsContent(lines: Lines)
    ensures Content(Prune(lines)) == Content(lines)
  {
    DropKeepsContent(lines, false);
    CollapseKeepsContent(DropEmpty(lines, false));
    TrimKeepsContent(Collapse(DropEmpty(lines, false)));
  }

  lemma {:induction false} ScanIdsOfContent(lines: Lines)
    ensures ScanIds(lines) == ScanIds(Content(lines))
  {
    if lines != [] {
      var front, l := lines[..|lines| - 1], lines[|lines| - 1];
      ScanIdsOfContent(front);
      assert lines == front + [l];
      ScanIdsAppend(front, [l]);
      ScanIdsAppend(Content(front), if IsSpacing(l) then [] else [l]);
      assert [l][1..] == [];
    }
  }

  /** After the cut and the pruning the file scans as the old ids without the
      chosen ones, in their old order. */
  lemma {:induction false} SurgeryRemovesChosenIds(lines: Lines, chosen: set<string>)
    ensures ScanIds(Prune(Outside(lines, chosen, 0))) == Without(ScanIds(lines), chosen)
    ensures Content(Prune(Outside(lines, chosen, 0))) == Content(Outside(lines, chosen, 0))
  {
    var kept := Outside(lines, chosen, 0);
    PruneKeepsContent(kept);
    ScanIdsOfContent(kept);
    ScanIdsOfContent(Prune(kept));
    CutRemovesChosenIds(lines, chosen, 0);
    assert lines[0..] == lines;
  }

  // ----- the content of each epic -----

  /** The content lines above the first epic line. */
  function Lead(lines: Lines): Lines {
    if lines == [] || lines[0].EpicStart? then []
    else (if IsSpacing(lines[0]) then [] else [lines[0]]) + Lead(lines[1..])
  }

  /** For each epic its line and the content lines up to the next epic line. */
  function Entries(lines: Lines): seq<Lines> {
    if lines == [] then []
    else (if lines[0].EpicStart? then [[lines[0]] + Lead(lines[1..])] else []) + Entries(lines[1..])
  }

  lemma {:induction false} LeadCons(l: Line, rest: Lines)
    ensures Lead([l] + rest) == if l.EpicStart? then [] else if IsSpacing(l) then Lead(rest) else [l] + Lead(rest)
    ensures Entries([l] + rest) == if l.EpicStart? then [[l] + Lead(rest)] + Entries(rest) else Entries(rest)
  {
    assert ([l] + rest)[1..] == rest;
    assert [] + Lead(rest) == Lead(rest) && [] + Entries(rest) == Entries(rest);
  }

  lemma {:induction false} ContentCons(l: Line, rest: Lines)
    ensures Content([l] + rest) == if IsSpacing(l) then Content(rest) else [l] + Content(rest)
  {
    ContentAppend([l], rest);
    ContentOfOne(l);
    assert [] + Content(rest) == Content(rest);
  }

  /** Blanks and banners do not matter to the entries. */
  lemma {:induction false} EntriesOfContent(lines: Lines)
    ensures Lead(lines) == Lead(Content(lines)) && Entries(lines) == Entries(Content(lines))
  {
    if lines != [] {
      var l, rest := lines[0], lines[1..];
      assert lines == [l] + rest;
      EntriesOfContent(rest);
      ContentCons(l, rest);
      LeadCons(l, rest);
      LeadCons(l, Content(rest));
    }
  }

  function HeadId(entry: Lines): string {
    if entry != [] && entry[0].EpicStart? then entry[0].id else ""
  }

  function KeepEntries(entries: seq<Lines>, chosen: set<string>): seq<Lines> {
    if entries == [] then []
    else (if HeadId(entries[0]) in chosen then [] else [entries[0]]) + KeepEntries(entries[1..], chosen)
  }

  lemma {:induction false} KeepCons(entry: Lines, rest: seq<Lines>, chosen: set<string>)
    ensures KeepEntries([entry] + rest, chosen)
         == if HeadId(entry) in chosen then KeepEntries(rest, chosen) else [entry] + KeepEntries(rest, chosen)
  {
    assert ([entry] + rest)[1..] == rest;
    assert [] + KeepEntries(rest, chosen) == KeepEntries(rest, chosen);
  }

  /** The id of the last epic line above line i. */
  function OwnerAt(lines: Lines, i: nat): Option<string>
    requires i <= |lines|
  {
    if i == 0 then None
    else if lines[i - 1].EpicStart? then Some(lines[i - 1].id)
    else OwnerAt(lines, i - 1)
  }

  lemma {:induction false} OwnerIsLastStart(lines: Lines, i: nat)
    requires i <= |lines|
    ensures OwnerAt(lines, i).None? ==> forall k | 0 <= k < i :: !lines[k].EpicStart?
    ensures OwnerAt(lines, i).Some? ==> exists j | 0 <= j < i ::
      lines[j].EpicStart? && lines[j].id == OwnerAt(lines, i).value && forall k | j < k < i :: !lines[k].EpicStart?
  {
    if i > 0 && !lines[i - 1].EpicStart? {
      OwnerIsLastStart(lines, i - 1);
    }
  }

  predicate OwnerChosen(lines: Lines, chosen: set<string>, i: nat)
    requires i <= |lines|
  {
    OwnerAt(lines, i).Some? && OwnerAt(lines, i).value in chosen
  }

  lemma {:induction false} BlockReaches(lines: Lines, j: nat, i: nat)
    requires j < i < |lines| && lines[j].EpicStart? && !IsSpacing(lines[i])
    requires forall k | j < k <= i :: !lines[k].EpicStart?
    ensures var b := BlockAt(lines, j); b in Blocks(lines, 0) && b.id == lines[j].id && b.start <= i < b.end
  {
    hide NextStart, TrimEnd;
    StartsAreOwned(lines, 0, j);
  }

  lemma {:induction false} NoBlockAbove(lines: Lines, chosen: set<string>, i: nat)
    requires i < |lines| && forall k | 0 <= k <= i :: !lines[k].EpicStart?
    ensures !InCut(Blocks(lines, 0), chosen, i)
  {
    BlocksAreWellFormed(lines);
    hide Blocks, BlockAt;
    forall b <- Blocks(lines, 0) ensures !(b.start <= i < b.end) {
      assert BlockOf(lines, b);
    }
  }

  /** A content line is cut exactly when the epic above it is chosen. */
  lemma {:induction false} ContentLineInCut(lines: Lines, chosen: set<string>, i: nat)
    requires i < |lines| && !IsSpacing(lines[i]) && !lines[i].EpicStart?
    ensures InCut(Blocks(lines, 0), chosen, i) <==> OwnerChosen(lines, chosen, i)
  {
    hide Blocks, BlockAt, InCut;
    OwnerIsLastStart(lines, i);
    if OwnerAt(lines, i).Some? {
      var j :| 0 <= j < i && lines[j].EpicStart? && lines[j].id == OwnerAt(lines, i).value &&
        forall k | j < k < i :: !lines[k].EpicStart?;
      BlockReaches(lines, j, i);
      InCutByBlock(lines, chosen, BlockAt(lines, j), i);
    } else {
      NoBlockAbove(lines, chosen, i);
    }
  }

  lemma {:induction false} OutsideCons(lines: Lines, chosen: set<string>, i: nat)
    requires i < |lines|
    ensures Outside(lines, chosen, i)
         == if InCut(Blocks(lines, 0), chosen, i) then Outside(lines, chosen, i + 1)
            else [lines[i]] + Outside(lines, chosen, i + 1)
  {
    assert [] + Outside(lines, chosen, i + 1) == Outside(lines, chosen, i + 1);
  }

  /** From line i on, the cut takes the rest of a chosen epic and the chosen
      entries after it, and nothing else of the content. */
  lemma {:induction false} CutRemovesChosenEntries(lines: Lines, chosen: set<string>, i: nat)
    requires i <= |lines|
    ensures Lead(Outside(lines, chosen, i)) == if OwnerChosen(lines, chosen, i) then [] else Lead(lines[i..])
    ensures Entries(Outside(lines, chosen, i)) == KeepEntries(Entries(lines[i..]), chosen)
    decreases |lines| - i
  {
    hide Outside, InCut, Blocks, Lead, Entries, KeepEntries, OwnerAt;
    if i == |lines| {
      NothingLeft(lines, chosen);
      NoEntries(chosen);
      assert lines[i..] == [];
    } else {
      CutRemovesChosenEntries(lines, chosen, i + 1);
      var l, rest, after := lines[i], Outside(lines, chosen, i + 1), lines[i + 1..];
      assert lines[i..] == [l] + after;
      LeadCons(l, after);
      LeadCons(l, rest);
      OutsideCons(lines, chosen, i);
      OwnerCons(lines, i);
      if l.EpicStart? {
        EpicLineInCut(lines, chosen, i);
        KeepCons([l] + Lead(after), Entries(after), chosen);
        assert HeadId([l] + Lead(after)) == l.id;
      } else if !IsSpacing(l) {
        ContentLineInCut(lines, chosen, i);
      }
    }
  }

  lemma {:induction false} NoEntries(chosen: set<string>)
    ensures Lead([]) == [] && Entries([]) == [] && KeepEntries([], chosen) == []
  {}

  lemma {:induction false} OwnerCons(lines: Lines, i: nat)
    requires i < |lines|
    ensures OwnerAt(lines, i + 1) == if lines[i].EpicStart? then Some(lines[i].id) else OwnerAt(lines, i)
  {}

  /** After the cut and the pruning the content above the first epic and the
      entries of the other epics are what they were. */
  lemma {:induction false} SurgeryKeepsEntries(lines: Lines, chosen: set<string>)
    ensures Lead(Prune(Outside(lines, chosen, 0))) == Lead(lines)
    ensures Entries(Prune(Outside(lines, chosen, 0))) == KeepEntries(Entries(lines), chosen)
  {
    var kept := Outside(lines, chosen, 0);
    PruneKeepsContent(kept);
    EntriesOfContent(kept);
    EntriesOfContent(Prune(kept));
    CutRemovesChosenEntries(lines, chosen, 0);
    assert lines[0..] == lines;
  }

  // ----- the pruned file -----

  function NonBlank(lines: Lines): Lines {
    if lines == [] then []
    else (if lines[0].Blank? then [] else [lines[0]]) + NonBlank(lines[1..])
  }

  lemma {:induction false} NonBlankCons(l: Line, rest: Lines)
    ensures NonBlank([l] + rest) == (if l.Blank? then [] else [l]) + NonBlank(rest)
  {
    assert ([l] + rest)[1..] == rest;
  }

  lemma {:induction false} NonBlankAppend(a: Lines, b: Lines)
    ensures NonBlank(a + b) == NonBlank(a) + NonBlank(b)
  {
    if a == [] {
      assert a + b == b && NonBlank(a) == [];
    } else {
      hide NonBlank;
      NonBlankAppend(a[1..], b);
      NonBlankCons(a[0], a[1..]);
      NonBlankCons(a[0], a[1..] + b);
      assert a == [a[0]] + a[1..] && a + b == [a[0]] + (a[1..] + b);
    }
  }

  /** Every banner has an epic under it. */
  ghost predicate NoEmptySection(lines: Lines) {
    lines != [] ==> (lines[0].Banner? ==> HasEpic(lines[1..])) && NoEmptySection(lines[1..])
  }

  /** No blank follows a blank or a banner. */
  ghost predicate Tidy(lines: Lines) {
    forall i | 0 < i < |lines| && lines[i].Blank? :: !IsSpacing(lines[i - 1])
  }

  ghost predicate IsPruned(lines: Lines) {
    NoEmptySection(lines) && Tidy(lines) && (lines != [] ==> !lines[|lines| - 1].Blank?)
  }

  lemma {:induction false} HasEpicOfNonBlank(lines: Lines)
    ensures HasEpic(lines) == HasEpic(NonBlank(lines))
    ensures NoEmptySection(lines) == NoEmptySection(NonBlank(lines))
  {
    if lines != [] {
      HasEpicOfNonBlank(lines[1..]);
      assert !lines[0].Blank? ==> NonBlank(lines)[1..] == NonBlank(lines[1..]);
      assert lines[0].Blank? ==> NonBlank(lines) == NonBlank(lines[1..]);
    }
  }

  lemma {:induction false} DropKeepsHasEpic(lines: Lines, after: bool)
    ensures HasEpic(DropEmpty(lines, after)) == HasEpic(lines)
  {
    if lines != [] {
      DropKeepsHasEpic(lines[1..], Dropped(lines, after));
      assert ([lines[0]] + DropEmpty(lines[1..], false))[1..] == DropEmpty(lines[1..], false);
    }
  }

  lemma {:induction false} DropLeavesNoEmptySection(lines: Lines, after: bool)
    ensures NoEmptySection(DropEmpty(lines, after))
  {
    if lines != [] {
      DropLeavesNoEmptySection(lines[1..], Dropped(lines, after));
      DropKeepsHasEpic(lines[1..], false);
      assert ([lines[0]] + DropEmpty(lines[1..], false))[1..] == DropEmpty(lines[1..], false);
    }
  }

  lemma {:induction false} CollapseIsTidy(lines: Lines)
    ensures Tidy(Collapse(lines)) && NonBlank(Collapse(lines)) == NonBlank(lines)
  {
    if lines != [] {
      var front, l := lines[..|lines| - 1], lines[|lines| - 1];
      CollapseIsTidy(front);
      assert lines == front + [l];
      NonBlankAppend(front, [l]);
      NonBlankAppend(Collapse(front), [l]);
      assert [l][1..] == [];
    }
  }

  lemma {:induction false} BlankEndDoesNotShow(lines: Lines, l: Line)
    requires l.Blank?
    ensures NonBlank(lines + [l]) == NonBlank(lines)
  {
    NonBlankAppend(lines, [l]);
    assert [l][1..] == [];
  }

  lemma {:induction false} TrimIsTidy(lines: Lines)
    requires Tidy(lines)
    ensures Tidy(TrimTail(lines)) && NonBlank(TrimTail(lines)) == NonBlank(lines)
    ensures TrimTail(lines) != [] ==> !TrimTail(lines)[|TrimTail(lines)| - 1].Blank?
  {
    hide NonBlank;
    if lines != [] && lines[|lines| - 1].Blank? {
      var front, l := lines[..|lines| - 1], lines[|lines| - 1];
      TrimIsTidy(front);
      assert lines == front + [l];
      BlankEndDoesNotShow(front, l);
      assert TrimTail(lines) == TrimTail(front);
    }
  }

  lemma {:induction false} PruneIsPruned(lines: Lines)
    ensures IsPruned(Prune(lines))
  {
    var dropped := DropEmpty(lines, false);
    DropLeavesNoEmptySection(lines, false);
    CollapseIsTidy(dropped);
    TrimIsTidy(Collapse(dropped));
    HasEpicOfNonBlank(dropped);
    HasEpicOfNonBlank(Prune(lines));
  }

  /** The lines that are not blank, without the banners that have no epic under them. */
  function WithoutEmptySections(lines: Lines): Lines {
    if lines == [] then []
    else
      (if lines[0].Blank? || (lines[0].Banner? && !HasEpic(lines[1..])) then [] else [lines[0]])
        + WithoutEmptySections(lines[1..])
  }

  lemma {:induction false} DropDropsEmptySections(lines: Lines, after: bool)
    ensures NonBlank(DropEmpty(lines, after)) == WithoutEmptySections(lines)
  {
    if lines != [] {
      var rest := DropEmpty(lines[1..], false);
      DropDropsEmptySections(lines[1..], Dropped(lines, after));
      assert ([lines[0]] + rest)[1..] == rest;
      assert [] + WithoutEmptySections(lines[1..]) == WithoutEmptySections(lines[1..]);
      assert [] + NonBlank(rest) == NonBlank(rest);
    }
  }

  /** Blanks aside, pruning drops exactly the banners without an epic: every banner
      that heads an epic survives, in its place. */
  lemma {:induction false} PruneDropsOnlyEmptySections(lines: Lines)
    ensures NonBlank(Prune(lines)) == WithoutEmptySections(lines)
  {
    var dropped := DropEmpty(lines, false);
    DropDropsEmptySections(lines, false);
    CollapseIsTidy(dropped);
    TrimIsTidy(Collapse(dropped));
  }

  lemma {:induction false} DropIsIdle(lines: Lines)
    requires NoEmptySection(lines)
    ensures DropEmpty(lines, false) == lines
  {
    if lines != [] {
      DropIsIdle(lines[1..]);
      assert lines == [lines[0]] + lines[1..];
    }
  }

  lemma {:induction false} CollapseIsIdle(lines: Lines)
    requires Tidy(lines)
    ensures Collapse(lines) == lines
  {
    if lines != [] {
      var front := lines[..|lines| - 1];
      CollapseIsIdle(front);
      assert lines == front + [lines[|lines| - 1]];
      assert |front| > 0 ==> front[|front| - 1] == lines[|lines| - 2];
    }
  }

  /** Pruning changes nothing exactly in files without empty sections,
      superfluous blanks or a blank end, so pruning twice is pruning once. */
  lemma {:induction false} PruneIsIdleExactlyWhenPruned(lines: Lines)
    ensures Prune(lines) == lines <==> IsPruned(lines)
    ensures Prune(Prune(lines)) == Prune(lines)
  {
    PruneIsPruned(lines);
    PrunedIsFixed(Prune(lines));
    if IsPruned(lines) {
      PrunedIsFixed(lines);
    }
  }

  lemma {:induction false} PrunedIsFixed(lines: Lines)
    requires IsPruned(lines)
    ensures Prune(lines) == lines
  {
    DropIsIdle(lines);
    CollapseIsIdle(lines);
  }

  // ----- `prune_empty_sections` in its own form -----

  /** The first banner from i on, or the end of the file. */
  function NextBanner(lines: Lines, i: nat): (n: nat)
    requires i <= |lines|
    ensures i <= n <= |lines| && (forall j | i <= j < n :: !lines[j].Banner?)
    ensures n < |lines| ==> lines[n].Banner?
    decreases |lines| - i
  {
    if i == |lines| || lines[i].Banner? then i else NextBanner(lines, i + 1)
  }

  lemma {:induction false} HasEpicBeforeBanner(lines: Lines, i: nat)
    requires i <= |lines|
    ensures HasEpic(lines[i..]) <==> exists j | i <= j < NextBanner(lines, i) :: lines[j].EpicStart?
    decreases |lines| - i
  {
    if i < |lines| {
      HasEpicBeforeBanner(lines, i + 1);
      assert lines[i..][1..] == lines[i + 1..];
    }
  }

  predicate DroppedAt(lines: Lines, i: nat)
    requires i < |lines|
  {
    Dropped(lines[i..], i > 0 && DroppedAt(lines, i - 1))
  }

  /** The marked lines are the dropped ones among the first n. */
  ghost predicate Marks(lines: Lines, drop: set<nat>, n: nat)
    requires n <= |lines|
  {
    forall p: nat :: p in drop <==> p < n && DroppedAt(lines, p)
  }

  lemma {:induction false} DroppedAtIs(lines: Lines, i: nat)
    requires i < |lines|
    ensures DroppedAt(lines, i) <==>
      (lines[i].Banner? && !exists k | i + 1 <= k < NextBanner(lines, i + 1) :: lines[k].EpicStart?)
      || (lines[i].Blank? && i > 0 && DroppedAt(lines, i - 1))
  {
    HasEpicBeforeBanner(lines, i + 1);
    assert lines[i..][1..] == lines[i + 1..];
  }

  /** Once a line of a section is kept, so are the others up to the next banner. */
  lemma {:induction false} MarksExtend(lines: Lines, drop: set<nat>, j: nat, n: nat)
    requires 0 < j <= n <= |lines| && Marks(lines, drop, j)
    requires forall p | j <= p < n :: !lines[p].Banner?
    requires j < n && lines[j].Blank? ==> !DroppedAt(lines, j - 1)
    ensures Marks(lines, drop, n)
    decreases n - j
  {
    if j < n {
      DroppedAtIs(lines, j);
      MarksExtend(lines, drop, j + 1, n);
    }
  }

  /** Marks one section: the banner at i and the blank run after it, if no epic follows. */
  method MarkSection(lines: Lines, i: nat, drop: set<nat>) returns (drop': set<nat>)
    requires i < |lines| && lines[i].Banner? && Marks(lines, drop, i)
    ensures Marks(lines, drop', NextBanner(lines, i + 1))
  {
    hide DroppedAt;
    var next := NextBanner(lines, i + 1);
    drop' := drop;
    DroppedAtIs(lines, i);
    var j := i + 1;
    if !exists k | i + 1 <= k < next :: lines[k].EpicStart? {
      drop' := drop' + {i};
      while j < next && lines[j].Blank?
        invariant i < j <= next && DroppedAt(lines, j - 1)
        invariant Marks(lines, drop', j)
      {
        DroppedAtIs(lines, j);
        drop' := drop' + {j};
        j := j + 1;
      }
    }
    MarksExtend(lines, drop', j, next);
  }

  /** The first loop of `prune_empty_sections`, over the banners. */
  method MarkSections(lines: Lines) returns (drop: set<nat>)
    ensures Marks(lines, drop, |lines|)
  {
    var i := NextBanner(lines, 0);
    drop := {};
    NothingMarked(lines, i);
    while i < |lines|
      invariant i <= |lines| && (i < |lines| ==> lines[i].Banner?)
      invariant Marks(lines, drop, i)
    {
      drop := MarkSection(lines, i, drop);
      i := NextBanner(lines, i + 1);
    }
  }

  lemma {:induction false} NothingMarked(lines: Lines, n: nat)
    requires n <= |lines| && forall p | 0 <= p < n :: !lines[p].Banner?
    ensures Marks(lines, {}, n)
  {
    if n > 0 {
      DroppedAtIs(lines, 0);
      var none: set<nat> := {};
      assert Marks(lines, none, 1);
      MarksExtend(lines, none, 1, n);
    }
  }

  lemma {:induction false} DropNext(lines: Lines, i: nat)
    requires i < |lines|
    ensures DropEmpty(lines[i..], i > 0 && DroppedAt(lines, i - 1))
         == (if DroppedAt(lines, i) then [] else [lines[i]]) + DropEmpty(lines[i + 1..], DroppedAt(lines, i))
  {
    assert lines[i..][1..] == lines[i + 1..] && lines[i..][0] == lines[i];
  }

  lemma {:induction false} DropNothing(after: bool)
    ensures DropEmpty([], after) == []
  {}

  method KeepUnmarked(lines: Lines, drop: set<nat>) returns (kept: Lines)
    requires Marks(lines, drop, |lines|)
    ensures kept == DropEmpty(lines, false)
  {
    hide DropEmpty, DroppedAt;
    kept := [];
    var i := 0;
    assert lines[0..] == lines;
    while i < |lines|
      invariant i <= |lines|
      invariant kept + DropEmpty(lines[i..], i > 0 && DroppedAt(lines, i - 1)) == DropEmpty(lines, false)
    {
      DropNext(lines, i);
      ghost var rest := DropEmpty(lines[i + 1..], DroppedAt(lines, i));
      assert [] + rest == rest && kept + ([lines[i]] + rest) == kept + [lines[i]] + rest;
      if i !in drop {
        kept := kept + [lines[i]];
      }
      i := i + 1;
    }
    assert lines[i..] == [];
    DropNothing(i > 0 && DroppedAt(lines, i - 1));
  }

  lemma {:induction false} CollapseNothing()
    ensures Collapse([]) == []
  {}

  lemma {:induction false} CollapseNext(lines: Lines, i: nat)
    requires i < |lines|
    ensures var before := Collapse(lines[..i]);
      Collapse(lines[..i + 1]) == if Superfluous(before, lines[i]) then before else before + [lines[i]]
  {
    assert lines[..i + 1][..i] == lines[..i];
  }

  method PruneEmptySections(lines: Lines) returns (out: Lines)
    ensures out == Prune(lines)
  {
    var drop := MarkSections(lines);
    var kept := KeepUnmarked(lines, drop);
    hide DropEmpty, Collapse, Superfluous, Marks;
    out := [];
    CollapseNothing();
    assert kept[..0] == [];
    for i := 0 to |kept|
      invariant out == Collapse(kept[..i])
    {
      CollapseNext(kept, i);
      if !Superfluous(out, kept[i]) {
        out := out + [kept[i]];
      }
    }
    assert kept[..|kept|] == kept;
    while out != [] && out[|out| - 1].Blank?
      invariant TrimTail(out) == Prune(lines)
    {
      out := out[..|out| - 1];
    }
  }

  // ----- stamping -----

  predicate StartsWith(s: string, prefix: string) {
    prefix <= s
  }

  predicate IsStamped(block: Lines) {
    exists l <- block :: StartsWith(l.text, "    archived_on:")
  }

  /** `stamp_block`: two lines after the epic line, unless the block is stamped already. */
  function StampBlock(block: Lines, shippedOn: string, archivedOn: string): Lines
    requires block != []
  {
    if IsStamped(block) then block
    else [block[0], Other("    shipped_on: " + shippedOn), Other("    archived_on: " + archivedOn)] + block[1..]
  }

  /** Taking the two stamp lines out gives back the block, and a second stamp
      changes nothing. */
  lemma {:induction false} StampIsReversible(block: Lines, shippedOn: string, archivedOn: string, s: string, a: string)
    requires block != []
    ensures var stamped := StampBlock(block, shippedOn, archivedOn);
            && stamped != [] && stamped[0] == block[0]
            && (stamped == block <==> exists l <- block :: "    archived_on:" <= l.text)
            && (if IsStamped(block) then stamped == block
                else
                  && |stamped| == |block| + 2 && [stamped[0]] + stamped[3..] == block
                  && stamped[1].text == "    shipped_on: " + shippedOn
                  && stamped[2].text == "    archived_on: " + archivedOn)
            && IsStamped(stamped) && StampBlock(stamped, s, a) == stamped
  {
    if !IsStamped(block) {
      var stamped := StampBlock(block, shippedOn, archivedOn);
      assert stamped[2] in stamped && StartsWith(stamped[2].text, "    archived_on:") by {
        assert ("    archived_on: " + archivedOn)[..16] == "    archived_on:";
      }
      assert block == [block[0]] + block[1..];
    }
  }

  // ----- whole blocks, appended -----

  /** One epic line, at the top, and no spacing at the end. */
  ghost predicate WholeBlock(block: Lines) {
    && block != [] && block[0].EpicStart?
    && (forall i | 0 < i < |block| :: !block[i].EpicStart?)
    && (|block| > 1 ==> !IsSpacing(block[|block| - 1]))
  }

  /** The texts of the blocks of a file. */
  function BlockTexts(lines: Lines): seq<Lines> {
    seq(|Blocks(lines, 0)|, k requires 0 <= k < |Blocks(lines, 0)| => BlockText(lines, Blocks(lines, 0)[k]))
  }

  lemma {:induction false} BlockTextIsWhole(lines: Lines, b: Block)
    requires b in Blocks(lines, 0)
    ensures WholeBlock(BlockText(lines, b)) && BlockText(lines, b)[0].id == b.id
  {
    BlocksAreWellFormed(lines);
    assert BlockOf(lines, b);
    hide *;
    BlockOfIsWhole(lines, b);
  }

  lemma {:induction false} BlockOfIsWhole(lines: Lines, b: Block)
    requires BlockOf(lines, b)
    ensures WholeBlock(BlockText(lines, b)) && BlockText(lines, b)[0].id == b.id
  {
    hide NextStart, TrimEnd;
    var text := lines[b.start..b.end];
    assert text[0] == lines[b.start];
    forall i | 0 < i < |text| ensures !text[i].EpicStart? {
      assert text[i] == lines[b.start + i];
    }
    assert |text| > 1 ==> text[|text| - 1] == lines[b.end - 1];
  }

  lemma {:induction false} StampKeepsWhole(block: Lines, shippedOn: string, archivedOn: string)
    requires WholeBlock(block)
    ensures WholeBlock(StampBlock(block, shippedOn, archivedOn))
    ensures ScanIds(StampBlock(block, shippedOn, archivedOn)) == [block[0].id]
  {
    WholeBlockScans(StampBlock(block, shippedOn, archivedOn));
  }

  lemma {:induction false} NoEpicNoIds(lines: Lines)
    requires forall i | 0 <= i < |lines| :: !lines[i].EpicStart?
    ensures ScanIds(lines) == []
  {
    if lines != [] {
      NoEpicNoIds(lines[1..]);
    }
  }

  lemma {:induction false} WholeBlockScans(block: Lines)
    requires WholeBlock(block)
    ensures ScanIds(block) == [block[0].id]
  {
    NoEpicNoIds(block[1..]);
  }

  lemma {:induction false} NoMoreStarts(block: Lines, i: nat)
    requires 0 < i <= |block| && WholeBlock(block)
    ensures NextStart(block, i) == |block| && Blocks(block, i) == []
    decreases |block| - i
  {
    if i < |block| {
      NoMoreStarts(block, i + 1);
    }
  }

  lemma {:induction false} WholeBlockIsOneBlock(block: Lines)
    requires WholeBlock(block)
    ensures Blocks(block, 0) == [Block(block[0].id, 0, |block|)]
  {
    NoMoreStarts(block, 1);
  }

  /** Appending a whole block, with or without a blank line before it, adds that
      block to the blocks of the file and leaves the others as they were. */
  lemma {:induction false} AppendAddsOneBlock(file: Lines, spaced: bool, block: Lines)
    requires WholeBlock(block)
    ensures BlockTexts(file + (if spaced then [Blank("")] else []) + block) == BlockTexts(file) + [block]
    ensures ScanIds(file + (if spaced then [Blank("")] else []) + block) == ScanIds(file) + [block[0].id]
  {
    var a := file + if spaced then [Blank("")] else [];
    if spaced {
      BlocksBeforeSpacing(file, Blank(""), 0);
    } else {
      assert a == file;
    }
    BlocksAppend(a, block, 0);
    WholeBlockIsOneBlock(block);
    AppendedTexts(file, a, block);
    ScanIdsAppend(a, block);
    WholeBlockScans(block);
    ScanIdsAppend(file, if spaced then [Blank("")] else []);
    assert spaced ==> ScanIds([Blank("")]) == [] by { NoEpicNoIds([Blank("")]); }
  }

  lemma {:induction false} AppendedTexts(file: Lines, a: Lines, block: Lines)
    requires file <= a && Blocks(a, 0) == Blocks(file, 0) && block != [] && block[0].EpicStart?
    requires Blocks(a + block, 0) == Blocks(a, 0) + Shift([Block(block[0].id, 0, |block|)], |a|)
    ensures BlockTexts(a + block) == BlockTexts(file) + [block]
  {
    hide Blocks, BlockAt;
    BlocksAreOwned(file, 0);
    var blocks, all := Blocks(file, 0), Blocks(a + block, 0);
    forall k | 0 <= k < |blocks| ensures BlockText(a + block, all[k]) == BlockText(file, blocks[k]) {
      assert BlockOf(file, blocks[k]);
    }
    assert BlockText(a + block, all[|blocks|]) == block;
  }

  // ----- entries and blocks -----

  lemma {:induction false} LeadIsContent(lines: Lines, i: nat)
    requires i <= |lines|
    ensures Content(lines[i..NextStart(lines, i)]) == Lead(lines[i..])
    decreases |lines| - i
  {
    var n := NextStart(lines, i);
    if i < |lines| && !lines[i].EpicStart? {
      LeadIsContent(lines, i + 1);
      assert lines[i..] == [lines[i]] + lines[i + 1..];
      assert lines[i..n] == [lines[i]] + lines[i + 1..n];
      LeadCons(lines[i], lines[i + 1..]);
      ContentCons(lines[i], lines[i + 1..n]);
    } else {
      assert lines[i..n] == [];
    }
  }

  lemma {:induction false} SpacingIsNoContent(lines: Lines, l: Line)
    requires IsSpacing(l)
    ensures Content(lines + [l]) == Content(lines)
  {
    hide Content;
    ContentAppend(lines, [l]);
    ContentOfOne(l);
  }

  lemma {:induction false} TrimmedContent(lines: Lines, start: nat, end: nat)
    requires start < end <= |lines|
    ensures Content(lines[start..TrimEnd(lines, start, end)]) == Content(lines[start..end])
  {
    hide Content, IsSpacing;
    if end - 1 > start && IsSpacing(lines[end - 1]) {
      TrimmedContent(lines, start, end - 1);
      hide TrimEnd;
      SpacingIsNoContent(lines[start..end - 1], lines[end - 1]);
      assert lines[start..end] == lines[start..end - 1] + [lines[end - 1]];
    }
  }

  lemma {:induction false} BlockHoldsEntry(lines: Lines, i: nat)
    requires i < |lines| && lines[i].EpicStart?
    ensures Content(BlockText(lines, BlockAt(lines, i))) == [lines[i]] + Lead(lines[i + 1..])
  {
    hide NextStart, TrimEnd, Content, Lead;
    var n := NextStart(lines, i + 1);
    TrimmedContent(lines, i, n);
    LeadIsContent(lines, i + 1);
    assert lines[i..n] == [lines[i]] + lines[i + 1..n];
    ContentCons(lines[i], lines[i + 1..n]);
  }

  ghost predicate Hold(lines: Lines, blocks: seq<Block>, entries: seq<Lines>) {
    |blocks| == |entries| && forall k | 0 <= k < |blocks| :: Content(BlockText(lines, blocks[k])) == entries[k]
  }

  /** The entries are the contents of the blocks. */
  lemma {:induction false} EntriesAreBlockContents(lines: Lines, i: nat)
    requires i <= |lines|
    ensures Hold(lines, Blocks(lines, i), Entries(lines[i..]))
    decreases |lines| - i
  {
    if i < |lines| {
      EntriesAreBlockContents(lines, i + 1);
      assert lines[i..] == [lines[i]] + lines[i + 1..];
      LeadCons(lines[i], lines[i + 1..]);
      if lines[i].EpicStart? {
        BlockHoldsEntry(lines, i);
        hide BlockAt, BlockText, Content, Entries, Lead;
        var entry := [lines[i]] + Lead(lines[i + 1..]);
        HoldCons(lines, BlockAt(lines, i), Blocks(lines, i + 1), entry, Entries(lines[i + 1..]));
      }
    }
  }

  lemma {:induction false} HoldCons(lines: Lines, b: Block, blocks: seq<Block>, entry: Lines, entries: seq<Lines>)
    requires Hold(lines, blocks, entries) && Content(BlockText(lines, b)) == entry
    ensures Hold(lines, [b] + blocks, [entry] + entries)
  {
    hide BlockText, Content;
  }
}
