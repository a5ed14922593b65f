/** The archive sweep of scripts/gen-roadmap.py: which epics it picks, the two
    files it would write, and what a run of sweeps with crashes keeps. */
module RoadmapSweep {
  import opened Strings
  import opened RoadmapText

  // ----- picking epics -----

  datatype TaskRecord = TaskRecord(id: string, isDone: bool, prs: seq<nat>)

  datatype EpicRecord = EpicRecord(id: string, isDone: bool, keep: bool, prs: seq<nat>, tasks: seq<TaskRecord>)

  /** What `gh` says about a PR; merge times are in seconds. */
  datatype PrState = Unresolved | NotMerged | MergedUndated | Merged(at: int)

  datatype Shipped = Blocked | Undated | On(at: int)

  /** `epic_pr_numbers`: the epic's own PRs, then each task's new ones. */
  method EpicPrNumbers(e: EpicRecord) returns (nums: seq<nat>)
    ensures nums == PrNumbers(e, |e.tasks|)
  {
    nums := e.prs;
    for i := 0 to |e.tasks|
      invariant nums == PrNumbers(e, i)
    {
      var prs := e.tasks[i].prs;
      for j := 0 to |prs|
        invariant nums == AddNew(PrNumbers(e, i), prs[..j])
      {
        assert prs[..j + 1][..j] == prs[..j];
        if prs[j] !in nums {
          nums := nums + [prs[j]];
        }
      }
      assert prs[..|prs|] == prs;
    }
  }

  function AddNew(nums: seq<nat>, more: seq<nat>): seq<nat> {
    if more == [] then nums
    else
      var r := AddNew(nums, more[..|more| - 1]);
      if more[|more| - 1] in r then r else r + [more[|more| - 1]]
  }

  function PrNumbers(e: EpicRecord, n: nat): seq<nat>
    requires n <= |e.tasks|
  {
    if n == 0 then e.prs else AddNew(PrNumbers(e, n - 1), e.tasks[n - 1].prs)
  }

  type PrLookup = nat -> PrState

  /** A PR of the epic or of one of its tasks. */
  predicate RefersTo(e: EpicRecord, n: nat) {
    n in e.prs || exists t <- e.tasks :: n in t.prs
  }

  lemma {:induction false} AddNewAdds(nums: seq<nat>, more: seq<nat>, n: nat)
    ensures n in AddNew(nums, more) <==> n in nums || n in more
  {
    if more != [] {
      AddNewAdds(nums, more[..|more| - 1], n);
      assert more == more[..|more| - 1] + [more[|more| - 1]];
    }
  }

  lemma {:induction false} PrNumbersAreReferences(e: EpicRecord, k: nat, n: nat)
    requires k <= |e.tasks|
    ensures n in PrNumbers(e, k) <==> n in e.prs || exists t <- e.tasks[..k] :: n in t.prs
  {
    if k > 0 {
      PrNumbersAreReferences(e, k - 1, n);
      AddNewAdds(PrNumbers(e, k - 1), e.tasks[k - 1].prs, n);
      assert e.tasks[..k] == e.tasks[..k - 1] + [e.tasks[k - 1]];
    }
  }

  /** All PRs of the epic are merged with a date, and `at` is the newest of them. */
  ghost predicate NewestMerge(e: EpicRecord, gh: PrLookup, at: int) {
    && (forall n | RefersTo(e, n) :: gh(n).Merged? && gh(n).at <= at)
    && (exists n :: RefersTo(e, n) && gh(n).Merged? && gh(n).at == at)
  }

  /** The newest merge among the PRs, if each of them is a dated merge. */
  function Newest(nums: seq<nat>, gh: PrLookup): Shipped {
    if nums == [] then Blocked
    else
      var last := gh(nums[|nums| - 1]);
      if !last.Merged? then Blocked
      else if |nums| == 1 then On(last.at)
      else match Newest(nums[..|nums| - 1], gh)
        case On(at) => if last.at > at then On(last.at) else On(at)
        case _ => Blocked
  }

  function ShippedOn(e: EpicRecord, gh: PrLookup, useGh: bool): Shipped {
    if useGh then Newest(PrNumbers(e, |e.tasks|), gh) else Undated
  }

  lemma {:induction false} NewestIsMaximum(nums: seq<nat>, gh: PrLookup)
    ensures !Newest(nums, gh).Undated?
    ensures Newest(nums, gh).On? <==> nums != [] && forall n <- nums :: gh(n).Merged?
    ensures Newest(nums, gh).On? ==> forall n <- nums :: gh(n).Merged? && gh(n).at <= Newest(nums, gh).at
    ensures Newest(nums, gh).On? ==> exists n <- nums :: gh(n).Merged? && gh(n).at == Newest(nums, gh).at
  {
    if nums != [] {
      var front, last := nums[..|nums| - 1], nums[|nums| - 1];
      NewestIsMaximum(front, gh);
      assert nums == front + [last];
      assert last in nums && forall n <- front :: n in nums;
    }
  }

  /** With `gh`, an epic is dated exactly by the newest merge of all the PRs it
      refers to, and blocked when there is none. */
  lemma {:induction false} ShippedOnIsNewestMerge(e: EpicRecord, gh: PrLookup)
    ensures ShippedOn(e, gh, true).On? ==> NewestMerge(e, gh, ShippedOn(e, gh, true).at)
    ensures ShippedOn(e, gh, true).Blocked? <==> forall at :: !NewestMerge(e, gh, at)
    ensures !ShippedOn(e, gh, true).Undated?
  {
    var nums := PrNumbers(e, |e.tasks|);
    assert e.tasks[..|e.tasks|] == e.tasks;
    forall n: nat ensures n in nums <==> RefersTo(e, n) {
      PrNumbersAreReferences(e, |e.tasks|, n);
    }
    NewestIsMaximum(nums, gh);
    if Newest(nums, gh).Blocked? {
      forall at ensures !NewestMerge(e, gh, at) {
        if nums == [] {
          assert forall n :: !RefersTo(e, n);
        }
      }
    }
  }

  /** `epic_shipped_on`. */
  method EpicShippedOn(e: EpicRecord, gh: PrLookup, useGh: bool) returns (s: Shipped)
    ensures s == ShippedOn(e, gh, useGh)
  {
    if !useGh {
      return Undated;
    }
    var nums := EpicPrNumbers(e);
    if nums == [] {
      return Blocked;
    }
    s := Blocked;
    for i := 0 to |nums|
      invariant s == Newest(nums[..i], gh)
      invariant i > 0 ==> s.On?
    {
      assert nums[..i + 1][..i] == nums[..i];
      var state := gh(nums[i]);
      if !state.Merged? {
        BlockedOnce(nums, gh, i);
        return Blocked;
      }
      if s.Blocked? || state.at > s.at {
        s := On(state.at);
      }
    }
    assert nums[..|nums|] == nums;
  }

  lemma {:induction false} BlockedOnce(nums: seq<nat>, gh: PrLookup, i: nat)
    requires i < |nums| && !gh(nums[i]).Merged?
    ensures Newest(nums, gh) == Blocked
  {
    NewestIsMaximum(nums, gh);
    assert nums[i] in nums;
  }

  // ----- one sweep -----

  /** What the YAML parser makes of a file. */
  datatype Doc = Unparsable | NoEpicsKey | NullEpics | NotAList | Epics(epics: seq<EpicRecord>)

  datatype Env = Env(
    parse: Lines -> Doc,
    gh: PrLookup,
    ghAvailable: bool,
    forceUndated: bool,
    now: int,
    minAgeDays: int,
    dryRun: bool,
    archivedOn: string,
    dateOf: int -> string)

  datatype Files = Files(roadmap: Lines, archive: Option<Lines>)

  const SECONDS_PER_DAY := 86400

  /** A new archive: a comment header, the version, and a bare `epics:` line. */
  const NEW_ARCHIVE: Lines := [
    Other("# roadmap.archive.yaml"), Blank(""), Other("version: 1"), Blank(""), Other("epics:")]

  function Ids(epics: seq<EpicRecord>): seq<string> {
    seq(|epics|, i requires 0 <= i < |epics| => epics[i].id)
  }

  function TaskIds(tasks: seq<TaskRecord>): seq<string> {
    seq(|tasks|, i requires 0 <= i < |tasks| => tasks[i].id)
  }

  /** `id_list`: every epic id followed by its task ids. */
  function IdList(epics: seq<EpicRecord>): seq<string> {
    if epics == [] then []
    else
      var e := epics[0];
      [e.id] + TaskIds(e.tasks) + IdList(epics[1..])
  }

  function UseGh(env: Env): bool {
    env.ghAvailable && !env.forceUndated
  }

  /** The shipping stamp of an epic that is to be archived. */
  function Verdict(e: EpicRecord, env: Env): Option<string> {
    if !e.isDone || e.keep || (exists t <- e.tasks :: !t.isDone) then None
    else match ShippedOn(e, env.gh, UseGh(env))
      case Blocked => None
      case Undated => Some("unknown")
      case On(at) => if (env.now - at) / SECONDS_PER_DAY < env.minAgeDays then None else Some(env.dateOf(at))
  }

  datatype Pick = Pick(id: string, shippedOn: string)

  function Picks(epics: seq<EpicRecord>, env: Env): seq<Pick> {
    if epics == [] then []
    else
      var n := |epics| - 1;
      var v := Verdict(epics[n], env);
      Picks(epics[..n], env) + if v.Some? then [Pick(epics[n].id, v.value)] else []
  }

  // ----- which epics are archived, and with which stamp -----

  /** The epic is done and not kept, all its tasks are done, and with `gh` its newest
      merge is old enough and gives the stamp. */
  ghost predicate Qualifies(e: EpicRecord, env: Env, stamp: string) {
    && e.isDone && !e.keep && (forall t <- e.tasks :: t.isDone)
    && if env.ghAvailable && !env.forceUndated then
         exists at :: NewestMerge(e, env.gh, at) && at + env.minAgeDays * 86400 <= env.now && stamp == env.dateOf(at)
       else stamp == "unknown"
  }

  /** The i-th pick stems from the epic at from[i]; the picks are in file order. */
  ghost predicate StemFrom(picks: seq<Pick>, from: seq<nat>, epics: seq<EpicRecord>, env: Env) {
    && |from| == |picks|
    && (forall i | 0 <= i < |picks| ::
          from[i] < |epics| && epics[from[i]].id == picks[i].id && Qualifies(epics[from[i]], env, picks[i].shippedOn))
    && (forall i, j | 0 <= i < j < |from| :: from[i] < from[j])
  }

  /** Exactly the qualifying epics are picked, each once and in file order. */
  ghost predicate PicksTheQualified(picks: seq<Pick>, epics: seq<EpicRecord>, env: Env) {
    exists from: seq<nat> ::
      && StemFrom(picks, from, epics, env)
      && forall k: nat, stamp | k < |epics| && Qualifies(epics[k], env, stamp) :: k in from
  }

  lemma {:induction false} NewestMergeIsUnique(e: EpicRecord, gh: PrLookup, a: int, b: int)
    requires NewestMerge(e, gh, a) && NewestMerge(e, gh, b)
    ensures a == b
  {
    hide RefersTo;
  }

  lemma {:induction false} DaysPassed(now: int, at: int, days: int)
    ensures (now - at) / SECONDS_PER_DAY < days <==> !(at + days * 86400 <= now)
  {
  }

  lemma {:induction false} VerdictIsQualification(e: EpicRecord, env: Env, stamp: string)
    ensures Verdict(e, env) == Some(stamp) <==> Qualifies(e, env, stamp)
  {
    ShippedOnIsNewestMerge(e, env.gh);
    var s := ShippedOn(e, env.gh, true);
    hide NewestMerge, Newest, PrNumbers;
    if s.On? {
      DaysPassed(env.now, s.at, env.minAgeDays);
      forall at | NewestMerge(e, env.gh, at) ensures at == s.at {
        NewestMergeIsUnique(e, env.gh, at, s.at);
      }
    }
  }

  lemma {:induction false} PicksStem(epics: seq<EpicRecord>, env: Env) returns (from: seq<nat>)
    ensures StemFrom(Picks(epics, env), from, epics, env)
    ensures forall k: nat, stamp | k < |epics| && Qualifies(epics[k], env, stamp) :: k in from
  {
    hide Verdict, Qualifies;
    if epics == [] {
      from := [];
    } else {
      var n := |epics| - 1;
      var v := Verdict(epics[n], env);
      from := PicksStem(epics[..n], env);
      forall stamp ensures v == Some(stamp) <==> Qualifies(epics[n], env, stamp) {
        VerdictIsQualification(epics[n], env, stamp);
      }
      StillStem(Picks(epics[..n], env), from, epics, env);
      forall k: nat, stamp | k < n && Qualifies(epics[k], env, stamp) ensures k in from {
        assert epics[..n][k] == epics[k];
      }
      hide StemFrom;
      if v.Some? {
        StemNext(Picks(epics[..n], env), from, epics, env, v.value);
        from := from + [n];
      }
    }
  }

  lemma {:induction false} StillStem(picks: seq<Pick>, from: seq<nat>, epics: seq<EpicRecord>, env: Env)
    requires epics != [] && StemFrom(picks, from, epics[..|epics| - 1], env)
    ensures StemFrom(picks, from, epics, env) && forall i | 0 <= i < |from| :: from[i] < |epics| - 1
  {
    hide Qualifies;
  }

  lemma {:induction false} StemNext(picks: seq<Pick>, from: seq<nat>, epics: seq<EpicRecord>, env: Env, stamp: string)
    requires epics != [] && StemFrom(picks, from, epics, env) && forall i | 0 <= i < |from| :: from[i] < |epics| - 1
    requires Qualifies(epics[|epics| - 1], env, stamp)
    ensures StemFrom(picks + [Pick(epics[|epics| - 1].id, stamp)], from + [|epics| - 1], epics, env)
  {
    hide Qualifies;
  }

  lemma {:induction false} PicksAreTheQualified(epics: seq<EpicRecord>, env: Env)
    ensures PicksTheQualified(Picks(epics, env), epics, env)
  {
    var from := PicksStem(epics, env);
    hide StemFrom, Qualifies, Picks;
  }

  /** An epic whose id stands once is picked with a stamp exactly when it qualifies. */
  lemma {:induction false} PickedExactlyWhen(epics: seq<EpicRecord>, env: Env, k: nat, stamp: string)
    requires k < |epics| && forall j | 0 <= j < |epics| && j != k :: epics[j].id != epics[k].id
    ensures Pick(epics[k].id, stamp) in Picks(epics, env) <==> Qualifies(epics[k], env, stamp)
  {
    var picks: seq<Pick> := Picks(epics, env);
    var from := PicksStem(epics, env);
    hide Picks;
    if Pick(epics[k].id, stamp) in picks {
      var i: nat :| i < |picks| && picks[i] == Pick(epics[k].id, stamp);
      assert from[i] == k;
    }
    if Qualifies(epics[k], env, stamp) {
      var i: nat :| i < |from| && from[i] == k;
      StampIsUnique(epics[k], env, stamp, picks[i].shippedOn);
      assert picks[i] in picks;
    }
  }

  lemma {:induction false} StampIsUnique(e: EpicRecord, env: Env, a: string, b: string)
    requires Qualifies(e, env, a) && Qualifies(e, env, b)
    ensures a == b
  {
    hide NewestMerge;
    if env.ghAvailable && !env.forceUndated {
      var x :| NewestMerge(e, env.gh, x) && a == env.dateOf(x);
      var y :| NewestMerge(e, env.gh, y) && b == env.dateOf(y);
      NewestMergeIsUnique(e, env.gh, x, y);
    }
  }

  function PickIds(picks: seq<Pick>): seq<string> {
    seq(|picks|, i requires 0 <= i < |picks| => picks[i].id)
  }

  function IdSet(ids: seq<string>): set<string> {
    set x | x in ids
  }

  /** `rstrip("\n") + "\n"` on the archive. */
  function StripEnd(lines: Lines): Lines {
    if lines == [] then [Blank("")]
    else if lines[|lines| - 1] == Blank("") then StripEnd(lines[..|lines| - 1])
    else lines
  }

  predicate IsBareEpicsKey(l: Line) {
    "epics:" <= l.text && forall c <- l.text[6..] :: c == ' ' || c == '\t'
  }

  function LastNonBlank(lines: Lines): Option<Line> {
    if lines == [] then None
    else if lines[|lines| - 1].Blank? then LastNonBlank(lines[..|lines| - 1])
    else Some(lines[|lines| - 1])
  }

  /** `archive_append_target` finds nothing wrong. */
  predicate CanAppend(archive: Lines, parse: Lines -> Doc) {
    match parse(archive)
    case Epics(epics) =>
      if epics != [] then
        && LastNonBlank(archive).Some?
        && (var last := LastNonBlank(archive).value.text; StartsWith(last, "    ") || StartsWith(last, "  - "))
        && ScanIds(archive) == Ids(epics)
      else HasBareKey(archive)
    case NullEpics => HasBareKey(archive)
    case _ => false
  }

  predicate HasBareKey(lines: Lines) {
    exists l <- lines :: IsBareEpicsKey(l)
  }

  predicate EndsWith(s: string, suffix: string) {
    |suffix| <= |s| && s[|s| - |suffix|..] == suffix
  }

  /** The text of the block with the given id; the last one, should there be several. */
  function TextOf(lines: Lines, blocks: seq<Block>, id: string): Lines {
    if blocks == [] then []
    else
      var b := blocks[|blocks| - 1];
      if b.id == id then BlockText(lines, b) else TextOf(lines, blocks[..|blocks| - 1], id)
  }

  predicate NeedsSeparator(archive: Lines) {
    !(archive != [] && EndsWith(archive[|archive| - 1].text, "epics:"))
  }

  /** The archive after the first n picks are appended. */
  function Appended(archive: Lines, roadmap: Lines, picks: seq<Pick>, n: nat, archivedOn: string): Lines
    requires n <= |picks|
  {
    if n == 0 then archive
    else
      var before := Appended(archive, roadmap, picks, n - 1, archivedOn);
      var block := TextOf(roadmap, Blocks(roadmap, 0), picks[n - 1].id);
      before + (if NeedsSeparator(before) then [Blank("")] else [])
        + if block == [] then [] else StampBlock(block, picks[n - 1].shippedOn, archivedOn)
  }

  /** A sweep that an exception ends before it has written is refused too. */
  datatype Outcome = Refused | NothingToDo | Move(roadmap: Lines, archive: Lines)

  function ArchiveBase(files: Files): Lines {
    match files.archive case None => NEW_ARCHIVE case Some(lines) => StripEnd(lines)
  }

  /** The epics of the roadmap, as `data.get("epics", [])`: a key without a value
      gives None there, and iterating over it raises. */
  function RoadmapEpics(doc: Doc): Option<seq<EpicRecord>> {
    match doc
    case Epics(epics) => Some(epics)
    case NoEpicsKey => Some([])
    case _ => None
  }

  /** The epics of the archive, as `parsed_archive.get("epics") or []`. */
  function ArchiveEpics(doc: Doc): Option<seq<EpicRecord>> {
    match doc
    case Epics(epics) => Some(epics)
    case NoEpicsKey => Some([])
    case NullEpics => Some([])
    case _ => None
  }

  /** `sweep_archive` up to its writes. */
  function Plan(files: Files, env: Env): Outcome {
    var doc := RoadmapEpics(env.parse(files.roadmap));
    if doc.None? then Refused
    else if ScanIds(files.roadmap) != Ids(doc.value) || !NoRepeats(IdList(doc.value)) then Refused
    else if !env.ghAvailable && !env.forceUndated then Refused
    else
      var picks := Picks(doc.value, env);
      if picks == [] || env.dryRun then NothingToDo
      else PlanMove(files, env, doc.value, picks)
  }

  function PlanMove(files: Files, env: Env, epics: seq<EpicRecord>, picks: seq<Pick>): Outcome {
    var chosen := IdSet(PickIds(picks));
    var roadmap := Prune(Outside(files.roadmap, chosen, 0));
    var reparsed := RoadmapEpics(env.parse(roadmap));
    if !(chosen <= IdSet(ScanIds(files.roadmap))) then Refused
    else if reparsed.None? || IdSet(Ids(reparsed.value)) != IdSet(Ids(epics)) - chosen then Refused
    else if files.archive.Some? && !CanAppend(ArchiveBase(files), env.parse) then Refused
    else
      var archive := Appended(ArchiveBase(files), files.roadmap, picks, |picks|, env.archivedOn);
      var parsed := ArchiveEpics(env.parse(archive));
      if parsed.None? || !NoRepeats(Ids(parsed.value)) then Refused
      else Move(roadmap, archive)
  }

  /** Where a crash may interrupt the two atomic writes. */
  datatype Crash = BeforeWrites | BetweenWrites | NoCrash

  function After(files: Files, outcome: Outcome, crash: Crash): Files {
    match outcome
    case Move(roadmap, archive) =>
      (match crash
       case BeforeWrites => files
       case BetweenWrites => files.(archive := Some(archive))
       case NoCrash => Files(roadmap, Some(archive)))
    case _ => files
  }

  // ----- what one sweep does to the ids and the blocks -----

  lemma {:induction false} IdsOfBlocks(lines: Lines)
    ensures |Blocks(lines, 0)| == |ScanIds(lines)|
    ensures forall k | 0 <= k < |Blocks(lines, 0)| :: Blocks(lines, 0)[k].id == ScanIds(lines)[k]
  {
    BlockIdsAreScanIds(lines, 0);
    assert lines[0..] == lines;
    forall k | 0 <= k < |Blocks(lines, 0)| ensures Blocks(lines, 0)[k].id == BlockIds(Blocks(lines, 0))[k] {
    }
  }

  lemma {:induction false} TextOfFindsBlock(lines: Lines, blocks: seq<Block>, id: string) returns (k: nat)
    requires exists b <- blocks :: b.id == id
    ensures k < |blocks| && blocks[k].id == id && TextOf(lines, blocks, id) == BlockText(lines, blocks[k])
  {
    k := |blocks| - 1;
    if blocks[k].id != id {
      assert blocks == blocks[..k] + [blocks[k]];
      k := TextOfFindsBlock(lines, blocks[..k], id);
    }
  }

  lemma {:induction false} TextOfIsWhole(lines: Lines, id: string)
    requires id in ScanIds(lines)
    ensures var t := TextOf(lines, Blocks(lines, 0), id);
            WholeBlock(t) && t[0].id == id && t in BlockTexts(lines)
  {
    IdsOfBlocks(lines);
    var k :| 0 <= k < |ScanIds(lines)| && ScanIds(lines)[k] == id;
    assert Blocks(lines, 0)[k].id == id;
    var j := TextOfFindsBlock(lines, Blocks(lines, 0), id);
    BlockTextIsWhole(lines, Blocks(lines, 0)[j]);
    assert BlockTexts(lines)[j] == BlockText(lines, Blocks(lines, 0)[j]);
  }

  /** k is the last line that is not blank. */
  ghost predicate IsLastText(lines: Lines, k: nat) {
    k < |lines| && !lines[k].Blank? && forall j | k < j < |lines| :: lines[j].Blank?
  }

  lemma {:induction false} LastNonBlankIs(lines: Lines)
    ensures LastNonBlank(lines).None? <==> forall l <- lines :: l.Blank?
    ensures forall k: nat :: IsLastText(lines, k) ==> LastNonBlank(lines) == Some(lines[k])
    ensures LastNonBlank(lines).Some? ==> exists k: nat :: IsLastText(lines, k)
  {
    if lines != [] {
      var n, init := |lines| - 1, lines[..|lines| - 1];
      LastNonBlankIs(init);
      assert lines == init + [lines[n]];
      if lines[n].Blank? {
        forall k: nat ensures IsLastText(lines, k) <==> IsLastText(init, k) {
          assert k < n ==> init[k] == lines[k];
        }
      } else {
        assert IsLastText(lines, n);
      }
    }
  }

  /** An archive may be appended to exactly when it lists epics, all of them seen by
      the scan, and ends inside their list, or lists none below a bare key. */
  lemma {:induction false} CanAppendExactlyWhen(archive: Lines, parse: Lines -> Doc)
    ensures var doc := parse(archive);
      CanAppend(archive, parse) <==>
        if doc.Epics? && doc.epics != [] then
          && Ids(doc.epics) == ScanIds(archive)
          && exists k: nat :: IsLastText(archive, k) && ("    " <= archive[k].text || "  - " <= archive[k].text)
        else
          (doc.Epics? || doc.NullEpics?) &&
          exists l <- archive :: "epics:" <= l.text && forall c <- l.text[6..] :: c in " \t"
  {
    LastNonBlankIs(archive);
    hide ScanIds, Ids, LastNonBlank, IsLastText;
    assert " \t"[0] == ' ' && " \t"[1] == '\t';
  }

  ghost predicate AreEmpty(lines: Lines) {
    forall l <- lines :: l == Blank("")
  }

  /** Stripping takes the empty lines at the end, and leaves one if there is nothing else. */
  lemma {:induction false} StripEndIs(lines: Lines)
    ensures var r := StripEnd(lines);
      if AreEmpty(lines) then r == [Blank("")]
      else r <= lines && r != [] && r[|r| - 1] != Blank("") && AreEmpty(lines[|r|..])
  {
    if lines != [] && lines[|lines| - 1] == Blank("") {
      var init, r := lines[..|lines| - 1], StripEnd(lines);
      StripEndIs(init);
      hide StripEnd;
      assert lines == init + [Blank("")];
      EmptyAppend(init);
      if !AreEmpty(lines) {
        assert lines[|r|..] == init[|r|..] + [Blank("")];
        EmptyAppend(init[|r|..]);
      }
    } else if lines != [] {
      assert lines[|lines| - 1] in lines && lines[|lines|..] == [];
    }
  }

  lemma {:induction false} EmptyAppend(lines: Lines)
    ensures AreEmpty(lines + [Blank("")]) <==> AreEmpty(lines)
  {
    assert forall l <- lines :: l in lines + [Blank("")];
  }

  /** Each pick adds its stamped block, behind one blank line unless the text ends
      with the bare key. */
  lemma {:induction false} SeparatedBlocks(archive: Lines, roadmap: Lines, picks: seq<Pick>, n: nat, archivedOn: string)
    requires n < |picks| && picks[n].id in ScanIds(roadmap)
    ensures exists block: Lines <- BlockTexts(roadmap) ::
      && WholeBlock(block) && block[0].id == picks[n].id
      && var before := Appended(archive, roadmap, picks, n, archivedOn);
         Appended(archive, roadmap, picks, n + 1, archivedOn)
           == before
              + (if before != [] && EndsWith(before[|before| - 1].text, "epics:") then [] else [Blank("")])
              + StampBlock(block, picks[n].shippedOn, archivedOn)
  {
    TextOfIsWhole(roadmap, picks[n].id);
    hide TextOf, Blocks, StampBlock, BlockTexts, ScanIds;
    var block := TextOf(roadmap, Blocks(roadmap, 0), picks[n].id);
    assert block in BlockTexts(roadmap) && block != [];
  }

  /** What is appended for each pick. */
  function StampedTexts(roadmap: Lines, picks: seq<Pick>, n: nat, archivedOn: string): seq<Lines>
    requires n <= |picks|
  {
    if n == 0 then []
    else
      var block := TextOf(roadmap, Blocks(roadmap, 0), picks[n - 1].id);
      StampedTexts(roadmap, picks, n - 1, archivedOn)
        + [if block == [] then [] else StampBlock(block, picks[n - 1].shippedOn, archivedOn)]
  }

  ghost predicate PicksFrom(picks: seq<Pick>, ids: seq<string>) {
    forall i | 0 <= i < |picks| :: picks[i].id in ids
  }

  /** a is the archive with one stamped block for each of the first n picks. */
  ghost predicate Extended(a: Lines, archive: Lines, roadmap: Lines, picks: seq<Pick>, n: nat, archivedOn: string)
    requires n <= |picks|
  {
    && BlockTexts(a) == BlockTexts(archive) + StampedTexts(roadmap, picks, n, archivedOn)
    && ScanIds(a) == ScanIds(archive) + PickIds(picks)[..n]
  }

  /** The extended archive has its old blocks and ids, then one stamped block per pick. */
  lemma {:induction false} AppendedBlocks(archive: Lines, roadmap: Lines, picks: seq<Pick>, n: nat, archivedOn: string)
    requires n <= |picks| && PicksFrom(picks, ScanIds(roadmap))
    ensures Extended(Appended(archive, roadmap, picks, n, archivedOn), archive, roadmap, picks, n, archivedOn)
  {
    hide Extended, PicksFrom, ScanIds, Appended;
    if n == 0 {
      NoPickAppended(archive, roadmap, picks, archivedOn);
    } else {
      AppendedBlocks(archive, roadmap, picks, n - 1, archivedOn);
      OnePickAppended(archive, roadmap, picks, n, archivedOn);
    }
  }

  lemma {:induction false} NoPickAppended(archive: Lines, roadmap: Lines, picks: seq<Pick>, archivedOn: string)
    ensures Appended(archive, roadmap, picks, 0, archivedOn) == archive
    ensures Extended(archive, archive, roadmap, picks, 0, archivedOn)
  {
    hide BlockTexts, ScanIds;
  }

  lemma {:induction false} OnePickAppended(archive: Lines, roadmap: Lines, picks: seq<Pick>, n: nat, archivedOn: string)
    requires 0 < n <= |picks| && PicksFrom(picks, ScanIds(roadmap))
    requires Extended(Appended(archive, roadmap, picks, n - 1, archivedOn), archive, roadmap, picks, n - 1, archivedOn)
    ensures Extended(Appended(archive, roadmap, picks, n, archivedOn), archive, roadmap, picks, n, archivedOn)
  {
    hide TextOf, BlockTexts, ScanIds, StampBlock, NeedsSeparator, WholeBlock;
    var pick, before := picks[n - 1], Appended(archive, roadmap, picks, n - 1, archivedOn);
    TextOfIsWhole(roadmap, pick.id);
    var block := TextOf(roadmap, Blocks(roadmap, 0), pick.id);
    WholeIsNotEmpty(block);
    StampKeepsHead(block, pick.shippedOn, archivedOn);
    StampKeepsWhole(block, pick.shippedOn, archivedOn);
    AppendAddsOneBlock(before, NeedsSeparator(before), StampBlock(block, pick.shippedOn, archivedOn));
  }

  lemma {:induction false} WholeIsNotEmpty(block: Lines)
    requires WholeBlock(block)
    ensures block != [] && block[0].EpicStart?
  {
  }

  lemma {:induction false} StampKeepsHead(block: Lines, shippedOn: string, archivedOn: string)
    requires block != []
    ensures StampBlock(block, shippedOn, archivedOn) != [] && StampBlock(block, shippedOn, archivedOn)[0] == block[0]
  {
  }

  lemma {:induction false} StripKeepsBlocks(lines: Lines)
    ensures BlockTexts(StripEnd(lines)) == BlockTexts(lines) && ScanIds(StripEnd(lines)) == ScanIds(lines)
  {
    if lines == [] {
      NoEpicNoIds([Blank("")]);
      BlocksBeforeSpacing([], Blank(""), 0);
      assert [] + [Blank("")] == [Blank("")];
    } else if lines[|lines| - 1] == Blank("") {
      var front := lines[..|lines| - 1];
      StripKeepsBlocks(front);
      assert lines == front + [Blank("")];
      BlankEndKeepsTexts(front);
    }
  }

  lemma {:induction false} BlankEndKeepsTexts(front: Lines)
    ensures BlockTexts(front + [Blank("")]) == BlockTexts(front) && ScanIds(front + [Blank("")]) == ScanIds(front)
  {
    hide ScanIds, Blocks, BlockText, BlockOf;
    ScanIdsAppend(front, [Blank("")]);
    NoEpicNoIds([Blank("")]);
    BlocksBeforeSpacing(front, Blank(""), 0);
    BlocksAreOwned(front, 0);
    var blocks := Blocks(front, 0);
    forall k | 0 <= k < |blocks| ensures BlockText(front + [Blank("")], blocks[k]) == BlockText(front, blocks[k]) {
      BlankEndKeepsText(front, blocks[k]);
    }
  }

  lemma {:induction false} BlankEndKeepsText(front: Lines, b: Block)
    requires BlockOf(front, b)
    ensures BlockText(front + [Blank("")], b) == BlockText(front, b)
  {
    hide BlockAt;
  }

  lemma {:induction false} WithoutHas(ids: seq<string>, chosen: set<string>, x: string)
    ensures x in Without(ids, chosen) <==> x in ids && x !in chosen
  {
    if ids != [] {
      WithoutHas(ids[1..], chosen, x);
      assert ids == [ids[0]] + ids[1..];
      assert ids[0] in chosen ==> Without(ids, chosen) == Without(ids[1..], chosen);
    }
  }

  lemma {:induction false} WithoutIsDifference(ids: seq<string>, chosen: set<string>)
    ensures IdSet(Without(ids, chosen)) == IdSet(ids) - chosen
  {
    forall x ensures x in Without(ids, chosen) <==> x in ids && x !in chosen {
      WithoutHas(ids, chosen, x);
    }
  }

  function ArchiveIds(files: Files): seq<string> {
    match files.archive case None => [] case Some(lines) => ScanIds(lines)
  }

  function ArchiveTexts(files: Files): seq<Lines> {
    match files.archive case None => [] case Some(lines) => BlockTexts(lines)
  }

  lemma {:induction false} BaseHasOldBlocks(files: Files)
    ensures ScanIds(ArchiveBase(files)) == ArchiveIds(files) && BlockTexts(ArchiveBase(files)) == ArchiveTexts(files)
  {
    if files.archive.Some? {
      StripKeepsBlocks(files.archive.value);
    } else {
      NoEpicNoIds(NEW_ARCHIVE);
      IdsOfBlocks(NEW_ARCHIVE);
    }
  }

  /** The picks of a sweep that comes to a move. */
  function PicksOf(files: Files, env: Env): seq<Pick> {
    match RoadmapEpics(env.parse(files.roadmap))
    case None => []
    case Some(epics) => Picks(epics, env)
  }

  lemma {:induction false} PicksAreScanned(files: Files, env: Env)
    requires Plan(files, env).Move?
    ensures PicksFrom(PicksOf(files, env), ScanIds(files.roadmap)) && PicksOf(files, env) != []
  {
    var picks := PicksOf(files, env);
    forall i | 0 <= i < |picks| ensures picks[i].id in ScanIds(files.roadmap) {
      assert PickIds(picks)[i] in IdSet(PickIds(picks));
    }
  }

  /** A sweep that moves, moves exactly its picks: the roadmap keeps the other ids
      in order and all their text, the archive keeps its blocks and gains the
      picked ones, stamped, in order. */
  lemma {:induction false} MoveMovesExactlyThePicks(files: Files, env: Env)
    requires Plan(files, env).Move?
    ensures var m, picks := Plan(files, env), PicksOf(files, env);
            var chosen := IdSet(PickIds(picks));
            && ScanIds(m.roadmap) == Without(ScanIds(files.roadmap), chosen)
            && Content(m.roadmap) == Content(Outside(files.roadmap, chosen, 0))
            && ScanIds(m.archive) == ArchiveIds(files) + PickIds(picks)
            && BlockTexts(m.archive)
               == ArchiveTexts(files) + StampedTexts(files.roadmap, picks, |picks|, env.archivedOn)
  {
    var picks := PicksOf(files, env);
    PicksAreScanned(files, env);
    SurgeryRemovesChosenIds(files.roadmap, IdSet(PickIds(picks)));
    BaseHasOldBlocks(files);
    AppendedBlocks(ArchiveBase(files), files.roadmap, picks, |picks|, env.archivedOn);
    assert PickIds(picks)[..|picks|] == PickIds(picks);
  }

  /** What a moving sweep has checked: the text left is read as the epics that stay,
      and the extended archive as epics without repeated ids. */
  lemma {:induction false} MoveIsChecked(files: Files, env: Env)
    requires Plan(files, env).Move?
    ensures var m := Plan(files, env);
      var was, left, archived := RoadmapEpics(env.parse(files.roadmap)), RoadmapEpics(env.parse(m.roadmap)),
                                  ArchiveEpics(env.parse(m.archive));
      && was.Some? && left.Some? && archived.Some?
      && IdSet(Ids(left.value)) == IdSet(Ids(was.value)) - IdSet(PickIds(PicksOf(files, env)))
      && NoRepeats(Ids(archived.value))
      && ScanIds(files.roadmap) == Ids(was.value) && NoRepeats(IdList(was.value))
      && (files.archive.Some? ==> CanAppend(StripEnd(files.archive.value), env.parse))
      && (env.ghAvailable || env.forceUndated) && !env.dryRun
  {
    hide Appended, CanAppend, Prune, Outside, ScanIds, IdList, NoRepeats;
  }

  // ----- runs of sweeps with crashes -----

  /** Every epic id in either file. */
  function KnownIds(files: Files): set<string> {
    IdSet(ScanIds(files.roadmap)) + IdSet(ArchiveIds(files))
  }

  /** No sweep loses or invents an epic, wherever it crashes. */
  lemma {:induction false} SweepKeepsKnownIds(files: Files, env: Env, crash: Crash)
    ensures KnownIds(After(files, Plan(files, env), crash)) == KnownIds(files)
  {
    if Plan(files, env).Move? {
      var picks := PicksOf(files, env);
      MoveMovesExactlyThePicks(files, env);
      PicksAreScanned(files, env);
      WithoutIsDifference(ScanIds(files.roadmap), IdSet(PickIds(picks)));
      hide *;
      PickIdsAreScanned(picks, ScanIds(files.roadmap));
      MovedIdsAreKnown(files, Plan(files, env), PickIds(picks), crash);
    }
  }

  lemma {:induction false} PickIdsAreScanned(picks: seq<Pick>, ids: seq<string>)
    requires PicksFrom(picks, ids)
    ensures IdSet(PickIds(picks)) <= IdSet(ids)
  {
    forall x | x in PickIds(picks) ensures x in ids {
      var i :| 0 <= i < |picks| && PickIds(picks)[i] == x;
    }
  }

  lemma {:induction false} MovedIdsAreKnown(files: Files, m: Outcome, ids: seq<string>, crash: Crash)
    requires m.Move? && IdSet(ids) <= IdSet(ScanIds(files.roadmap))
    requires IdSet(ScanIds(m.roadmap)) == IdSet(ScanIds(files.roadmap)) - IdSet(ids)
    requires ScanIds(m.archive) == ArchiveIds(files) + ids
    ensures KnownIds(After(files, m, crash)) == KnownIds(files)
  {
    hide ScanIds;
  }

  datatype Step = Step(env: Env, crash: Crash)

  function Run(files: Files, steps: seq<Step>): Files {
    if steps == [] then files
    else
      var before, last := Run(files, steps[..|steps| - 1]), steps[|steps| - 1];
      After(before, Plan(before, last.env), last.crash)
  }

  /** Over any run the set of epic ids in the two files stays what it was. */
  lemma {:induction false} RunKeepsKnownIds(files: Files, steps: seq<Step>)
    ensures KnownIds(Run(files, steps)) == KnownIds(files)
  {
    if steps != [] {
      var n := |steps| - 1;
      RunKeepsKnownIds(files, steps[..n]);
      SweepKeepsKnownIds(Run(files, steps[..n]), steps[n].env, steps[n].crash);
    }
  }

  /** The archive that a sweep would write. */
  function ExtendedArchive(files: Files, env: Env): Lines {
    var picks := PicksOf(files, env);
    Appended(ArchiveBase(files), files.roadmap, picks, |picks|, env.archivedOn)
  }

  /** The roadmap that a sweep would write. */
  function RoadmapLeft(files: Files, env: Env): Lines {
    Prune(Outside(files.roadmap, IdSet(PickIds(PicksOf(files, env))), 0))
  }

  /** If the parser finds epics in this text, they are exactly its epic lines. */
  predicate FaithfulOn(parse: Lines -> Doc, lines: Lines) {
    ArchiveEpics(parse(lines)).Some? ==> Ids(ArchiveEpics(parse(lines)).value) == ScanIds(lines)
  }

  lemma {:induction false} SweepKeepsArchiveUnique(files: Files, env: Env, crash: Crash)
    requires FaithfulOn(env.parse, ExtendedArchive(files, env)) && NoRepeats(ArchiveIds(files))
    ensures NoRepeats(ArchiveIds(After(files, Plan(files, env), crash)))
  {
    if Plan(files, env).Move? {
      assert Plan(files, env).archive == ExtendedArchive(files, env);
    }
  }

  /** Each sweep of the run has a parser that is faithful on the archive it would write. */
  ghost predicate FaithfulRun(files: Files, steps: seq<Step>) {
    forall i | 0 <= i < |steps| ::
      FaithfulOn(steps[i].env.parse, ExtendedArchive(Run(files, steps[..i]), steps[i].env))
  }

  lemma {:induction false} FaithfulRunPrefix(files: Files, steps: seq<Step>)
    requires FaithfulRun(files, steps) && steps != []
    ensures FaithfulRun(files, steps[..|steps| - 1])
  {
    hide FaithfulOn, Run;
    var n := |steps| - 1;
    forall i | 0 <= i < n
      ensures FaithfulOn(steps[..n][i].env.parse, ExtendedArchive(Run(files, steps[..n][..i]), steps[..n][i].env))
    {
      assert steps[..n][..i] == steps[..i];
    }
  }

  /** Over any run no id is archived twice. */
  lemma {:induction false} RunKeepsArchiveUnique(files: Files, steps: seq<Step>)
    requires NoRepeats(ArchiveIds(files)) && FaithfulRun(files, steps)
    ensures NoRepeats(ArchiveIds(Run(files, steps)))
  {
    hide NoRepeats, FaithfulOn, Plan;
    if steps != [] {
      var n := |steps| - 1;
      FaithfulRunPrefix(files, steps);
      RunKeepsArchiveUnique(files, steps[..n]);
      SweepKeepsArchiveUnique(Run(files, steps[..n]), steps[n].env, steps[n].crash);
    }
  }

  /** A pick that is in the archive already makes the sweep write nothing at all,
      for the other picks either. The comment at lines 1293-1295 calls this a
      no-op for the duplicated epics. */
  lemma {:induction false} ArchivedPickBlocksSweep(files: Files, env: Env)
    requires FaithfulOn(env.parse, ExtendedArchive(files, env))
    requires exists p <- PicksOf(files, env) :: p.id in ArchiveIds(files)
    ensures !Plan(files, env).Move?
  {
    if Plan(files, env).Move? {
      var archive, picks := Plan(files, env).archive, PicksOf(files, env);
      MoveMovesExactlyThePicks(files, env);
      assert archive == ExtendedArchive(files, env) && ArchiveEpics(env.parse(archive)).Some?;
      var i :| 0 <= i < |picks| && picks[i].id in ArchiveIds(files);
      assert PickIds(picks)[i] == picks[i].id;
      SharedIdIsDuplicate(ArchiveIds(files), PickIds(picks), i);
    }
  }

  lemma {:induction false} SharedIdIsDuplicate(a: seq<string>, b: seq<string>, i: nat)
    requires i < |b| && b[i] in a
    ensures !NoRepeats(a + b)
  {
    var j :| 0 <= j < |a| && a[j] == b[i];
    assert (a + b)[j] == (a + b)[|a| + i];
  }

  /** After a crash between the two writes, sweeps that still pick one of the
      epics just archived leave both files as they are, however many there are. */
  lemma {:induction false} CrashBetweenWritesIsStable(files: Files, env: Env, steps: seq<Step>)
    requires Plan(files, env).Move?
    requires var crashed := After(files, Plan(files, env), BetweenWrites);
             forall s <- steps :: FaithfulOn(s.env.parse, ExtendedArchive(crashed, s.env)) &&
               exists p <- PicksOf(crashed, s.env) :: p.id in PickIds(PicksOf(files, env))
    ensures var crashed := After(files, Plan(files, env), BetweenWrites);
            && crashed.roadmap == files.roadmap
            && Run(crashed, steps) == crashed
  {
    var crashed := After(files, Plan(files, env), BetweenWrites);
    if steps != [] {
      var n := |steps| - 1;
      assert forall s <- steps[..n] :: s in steps;
      CrashBetweenWritesIsStable(files, env, steps[..n]);
      assert steps[n] in steps;
      MoveMovesExactlyThePicks(files, env);
      ArchivedPickBlocksSweep(crashed, steps[n].env);
    }
  }

  /** With a parser that is faithful on the text that is left, the check of the
      surviving ids cannot fail. */
  lemma {:induction false} SurvivorCheckHolds(files: Files, env: Env, epics: seq<EpicRecord>, chosen: set<string>)
    requires FaithfulOn(env.parse, Prune(Outside(files.roadmap, chosen, 0))) && ScanIds(files.roadmap) == Ids(epics)
    requires RoadmapEpics(env.parse(Prune(Outside(files.roadmap, chosen, 0)))).Some?
    ensures IdSet(Ids(RoadmapEpics(env.parse(Prune(Outside(files.roadmap, chosen, 0)))).value))
         == IdSet(Ids(epics)) - chosen
  {
    hide Prune, Outside, ScanIds, Without;
    SurgeryRemovesChosenIds(files.roadmap, chosen);
    WithoutIsDifference(ScanIds(files.roadmap), chosen);
  }

  // ----- when a sweep moves -----

  /** The roadmap is parsed as its epic lines say, has unique ids and an epic to
      pick, and the sweep may write. */
  ghost predicate HasPicks(files: Files, env: Env) {
    var doc := RoadmapEpics(env.parse(files.roadmap));
    && doc.Some? && ScanIds(files.roadmap) == Ids(doc.value) && NoRepeats(IdList(doc.value))
    && (env.ghAvailable || env.forceUndated)
    && PicksOf(files, env) != [] && !env.dryRun
  }

  /** The roadmap that would be left is parsed. */
  ghost predicate LeftIsParsed(files: Files, env: Env) {
    RoadmapEpics(env.parse(RoadmapLeft(files, env))).Some?
  }

  /** The archive can be appended to, and is parsed after that. */
  ghost predicate ArchiveIsParsed(files: Files, env: Env) {
    && (files.archive.Some? ==> CanAppend(ArchiveBase(files), env.parse))
    && ArchiveEpics(env.parse(ExtendedArchive(files, env))).Some?
  }

  /** Everything a sweep asks for, except that no pick is in the archive already. */
  ghost predicate Ready(files: Files, env: Env) {
    HasPicks(files, env) && LeftIsParsed(files, env) && ArchiveIsParsed(files, env)
  }

  lemma {:induction false} IdsAreListed(epics: seq<EpicRecord>)
    requires NoRepeats(IdList(epics))
    ensures NoRepeats(Ids(epics)) && forall x <- Ids(epics) :: x in IdList(epics)
  {
    if epics != [] {
      var e, rest := epics[0], epics[1..];
      var own := [e.id] + TaskIds(e.tasks);
      PartsHaveNoRepeats(own, IdList(rest));
      IdsAreListed(rest);
      assert own[0] in own;
      assert Ids(epics) == [e.id] + Ids(rest);
      DisjointHaveNoRepeats([e.id], Ids(rest));
    }
  }

  lemma {:induction false} PicksAreSomeEpics(epics: seq<EpicRecord>, env: Env)
    requires NoRepeats(Ids(epics))
    ensures NoRepeats(PickIds(Picks(epics, env))) && forall x <- PickIds(Picks(epics, env)) :: x in Ids(epics)
  {
    if epics != [] {
      var n := |epics| - 1;
      var front, v := epics[..n], Verdict(epics[n], env);
      assert Ids(epics) == Ids(front) + [epics[n].id];
      PartsHaveNoRepeats(Ids(front), [epics[n].id]);
      PicksAreSomeEpics(front, env);
      assert [epics[n].id][0] in [epics[n].id];
      if v.Some? {
        assert PickIds(Picks(epics, env)) == PickIds(Picks(front, env)) + [epics[n].id];
        DisjointHaveNoRepeats(PickIds(Picks(front, env)), [epics[n].id]);
      } else {
        assert Picks(epics, env) == Picks(front, env);
      }
    }
  }

  /** The ids a move would leave in the archive repeat exactly when a pick is there already. */
  lemma {:induction false} ArchiveStaysUniqueExactlyWhen(files: Files, picks: seq<Pick>)
    requires NoRepeats(ArchiveIds(files)) && NoRepeats(PickIds(picks))
    ensures NoRepeats(ArchiveIds(files) + PickIds(picks)) <==> forall p <- picks :: p.id !in ArchiveIds(files)
  {
    var a, b := ArchiveIds(files), PickIds(picks);
    assert forall i | 0 <= i < |picks| :: b[i] == picks[i].id;
    if NoRepeats(a + b) {
      PartsHaveNoRepeats(a, b);
      forall p | p in picks ensures p.id !in a {
        var i :| 0 <= i < |picks| && picks[i] == p;
        assert b[i] in b;
      }
    }
    if forall p <- picks :: p.id !in a {
      DisjointHaveNoRepeats(a, b);
    }
  }

  /** The guards on the roadmap that a ready sweep passes. */
  lemma {:induction false} ReadySweepPlansMove(files: Files, env: Env)
    requires HasPicks(files, env)
    ensures var epics, picks := RoadmapEpics(env.parse(files.roadmap)).value, PicksOf(files, env);
      && Plan(files, env) == PlanMove(files, env, epics, picks)
      && NoRepeats(PickIds(picks)) && PicksFrom(picks, ScanIds(files.roadmap))
      && IdSet(PickIds(picks)) <= IdSet(ScanIds(files.roadmap)) && ScanIds(files.roadmap) == Ids(epics)
  {
    var epics, picks := RoadmapEpics(env.parse(files.roadmap)).value, PicksOf(files, env);
    hide PlanMove, Prune, Outside, CanAppend, Appended, IdList, Picks, Verdict;
    IdsAreListed(epics);
    PicksAreSomeEpics(epics, env);
    PicksOfSomeEpics(picks, Ids(epics));
  }

  lemma {:induction false} PicksOfSomeEpics(picks: seq<Pick>, ids: seq<string>)
    requires forall x <- PickIds(picks) :: x in ids
    ensures PicksFrom(picks, ids) && IdSet(PickIds(picks)) <= IdSet(ids)
  {
    forall i | 0 <= i < |picks| ensures picks[i].id in ids {
      assert PickIds(picks)[i] in PickIds(picks);
    }
  }

  /** With a parser that is faithful on the two texts it would write and an archive
      without repeated ids, a sweep moves exactly when everything is ready and no
      pick is archived already. */
  lemma {:induction false} SweepMovesExactlyWhen(files: Files, env: Env)
    requires FaithfulOn(env.parse, RoadmapLeft(files, env)) && FaithfulOn(env.parse, ExtendedArchive(files, env))
    requires NoRepeats(ArchiveIds(files))
    ensures Plan(files, env).Move? <==>
      Ready(files, env) && forall p <- PicksOf(files, env) :: p.id !in ArchiveIds(files)
  {
    hide Plan, Ready;
    if Ready(files, env) {
      ReadyMovesExactlyWhen(files, env);
    }
    if Plan(files, env).Move? {
      MovingSweepIsReady(files, env);
    }
  }

  lemma {:induction false} MovingSweepIsReady(files: Files, env: Env)
    requires Plan(files, env).Move?
    ensures Ready(files, env)
  {
    hide Prune, Outside, CanAppend, Appended, IdList;
  }

  lemma {:induction false} ReadyMovesExactlyWhen(files: Files, env: Env)
    requires FaithfulOn(env.parse, RoadmapLeft(files, env)) && FaithfulOn(env.parse, ExtendedArchive(files, env))
    requires NoRepeats(ArchiveIds(files)) && Ready(files, env)
    ensures Plan(files, env).Move? <==> forall p <- PicksOf(files, env) :: p.id !in ArchiveIds(files)
  {
    var epics, picks := RoadmapEpics(env.parse(files.roadmap)).value, PicksOf(files, env);
    var chosen := IdSet(PickIds(picks));
    var archive := Appended(ArchiveBase(files), files.roadmap, picks, |picks|, env.archivedOn);
    ReadySweepPlansMove(files, env);
    SurvivorCheckHolds(files, env, epics, chosen);
    BaseHasOldBlocks(files);
    AppendedBlocks(ArchiveBase(files), files.roadmap, picks, |picks|, env.archivedOn);
    assert PickIds(picks)[..|picks|] == PickIds(picks);
    assert Ids(ArchiveEpics(env.parse(archive)).value) == ArchiveIds(files) + PickIds(picks);
    ArchiveStaysUniqueExactlyWhen(files, picks);
    hide Plan, Prune, Outside, CanAppend, Appended, IdList, ScanIds, BlockTexts, StampedTexts, Picks, FaithfulOn;
  }

  // ----- some sweep does move -----

  /** Epics without tasks, all done but one. */
  function AllDoneBut(ids: seq<string>, open: string): (epics: seq<EpicRecord>)
    ensures Ids(epics) == ids
  {
    seq(|ids|, i requires 0 <= i < |ids| => EpicRecord(ids[i], ids[i] != open, false, [], []))
  }

  lemma {:induction false} IdListWithoutTasks(epics: seq<EpicRecord>)
    requires forall e <- epics :: e.tasks == []
    ensures IdList(epics) == Ids(epics)
  {
    if epics != [] {
      IdListWithoutTasks(epics[1..]);
      assert TaskIds(epics[0].tasks) == [];
      assert Ids(epics) == [epics[0].id] + [] + Ids(epics[1..]);
    }
  }

  /** A parser that reads a file without epics as having a key without a value. */
  function ParseBut(open: string): Lines -> Doc {
    (lines: Lines) => if ScanIds(lines) == [] then NullEpics else Epics(AllDoneBut(ScanIds(lines), open))
  }

  function ForcedEnv(open: string): Env {
    Env(ParseBut(open), (n: nat) => Unresolved, false, true, 0, 0, false, "2026-01-01", (at: int) => "2026-01-01")
  }

  lemma {:induction false} DoneEpicIsPicked(epics: seq<EpicRecord>, id: string, open: string)
    ensures PickIds(Picks(epics + [EpicRecord(id, id != open, false, [], [])], ForcedEnv(open)))
         == PickIds(Picks(epics, ForcedEnv(open))) + if id == open then [] else [id]
  {
    var e, env := EpicRecord(id, id != open, false, [], []), ForcedEnv(open);
    assert Verdict(e, env) == if id == open then None else Some("unknown");
    hide Verdict, ForcedEnv;
    assert (epics + [e])[..|epics|] == epics && (epics + [e])[|epics|] == e;
    var before := Picks(epics, env);
    assert PickIds(before + [Pick(id, "unknown")]) == PickIds(before) + [id];
    assert before + [] == before && PickIds(before) + [] == PickIds(before);
  }

  lemma {:induction false} DoneEpicsArePicked(ids: seq<string>, open: string)
    ensures PickIds(Picks(AllDoneBut(ids, open), ForcedEnv(open))) == Without(ids, {open})
  {
    hide Picks, Verdict, ForcedEnv, PickIds;
    if ids == [] {
      assert AllDoneBut(ids, open) == [] && Without(ids, {open}) == [];
      NothingPicked(ForcedEnv(open));
    } else {
      hide AllDoneBut, Without;
      var n := |ids| - 1;
      AllDoneButAppend(ids[..n], ids[n], open);
      assert ids == ids[..n] + [ids[n]];
      DoneEpicsArePicked(ids[..n], open);
      WithoutAppend(ids[..n], ids[n], {open});
      DoneEpicIsPicked(AllDoneBut(ids[..n], open), ids[n], open);
    }
  }

  lemma {:induction false} NothingPicked(env: Env)
    ensures PickIds(Picks([], env)) == []
  {}

  lemma {:induction false} AllDoneButAppend(ids: seq<string>, id: string, open: string)
    ensures AllDoneBut(ids + [id], open) == AllDoneBut(ids, open) + [EpicRecord(id, id != open, false, [], [])]
  {
  }

  lemma {:induction false} WithoutAppend(ids: seq<string>, id: string, chosen: set<string>)
    ensures Without(ids + [id], chosen) == Without(ids, chosen) + if id in chosen then [] else [id]
  {
    if ids == [] {
      assert [] + [id] == [id] && [id][1..] == [];
    } else {
      WithoutAppend(ids[1..], id, chosen);
      assert (ids + [id])[1..] == ids[1..] + [id];
    }
  }

  lemma {:induction false} ForcedPicks(files: Files, open: string, other: string)
    requires open in ScanIds(files.roadmap) && other in ScanIds(files.roadmap) && open != other
    ensures var picks := PicksOf(files, ForcedEnv(open));
      && PickIds(picks) == Without(ScanIds(files.roadmap), {open}) && picks != []
      && PicksFrom(picks, ScanIds(files.roadmap)) && open !in PickIds(picks)
  {
    var ids, picks := ScanIds(files.roadmap), PicksOf(files, ForcedEnv(open));
    DoneEpicsArePicked(ids, open);
    hide ScanIds, Picks, AllDoneBut, Without;
    assert picks == Picks(AllDoneBut(ids, open), ForcedEnv(open));
    WithoutHas(ids, {open}, open);
    WithoutHas(ids, {open}, other);
    forall i | 0 <= i < |picks| ensures picks[i].id in ids {
      assert PickIds(picks)[i] == picks[i].id;
      WithoutHas(ids, {open}, picks[i].id);
    }
  }

  lemma {:induction false} ForcedParse(open: string, lines: Lines)
    requires ScanIds(lines) != []
    ensures var doc := ForcedEnv(open).parse(lines);
      RoadmapEpics(doc) == ArchiveEpics(doc) == Some(AllDoneBut(ScanIds(lines), open))
  {}

  lemma {:induction false} ForcedIsFaithful(open: string, lines: Lines)
    ensures FaithfulOn(ForcedEnv(open).parse, lines)
  {
    hide ScanIds, AllDoneBut, IdList;
  }

  lemma {:induction false} ForcedHasPicks(files: Files, open: string, other: string)
    requires NoRepeats(ScanIds(files.roadmap))
    requires open in ScanIds(files.roadmap) && other in ScanIds(files.roadmap) && open != other
    ensures HasPicks(files, ForcedEnv(open))
  {
    assert ForcedEnv(open).forceUndated && !ForcedEnv(open).dryRun;
    hide ScanIds, PicksOf, AllDoneBut, ForcedEnv, IdList, NoRepeats;
    ForcedPicks(files, open, other);
    ForcedParse(open, files.roadmap);
    UniqueIdsAreListed(ScanIds(files.roadmap), open);
  }

  lemma {:induction false} ForcedArchive(files: Files, open: string, other: string)
    requires files.archive.None?
    requires open in ScanIds(files.roadmap) && other in ScanIds(files.roadmap) && open != other
    ensures ArchiveIsParsed(files, ForcedEnv(open))
  {
    var env := ForcedEnv(open);
    hide ScanIds, Appended, BlockTexts, StampedTexts, PicksOf, AllDoneBut, ForcedEnv, NEW_ARCHIVE, ArchiveBase;
    ForcedPicks(files, open, other);
    var picks := PicksOf(files, env);
    AppendedBlocks(ArchiveBase(files), files.roadmap, picks, |picks|, env.archivedOn);
    assert PickIds(picks)[..|picks|] == PickIds(picks) && PickIds(picks) != [];
    ForcedParse(open, ExtendedArchive(files, env));
  }

  lemma {:induction false} ForcedSweepIsReady(roadmap: Lines, open: string, other: string)
    requires NoRepeats(ScanIds(roadmap)) && open in ScanIds(roadmap) && other in ScanIds(roadmap) && open != other
    ensures Ready(Files(roadmap, None), ForcedEnv(open))
  {
    hide HasPicks, LeftIsParsed, ArchiveIsParsed, ScanIds, NoRepeats;
    ForcedHasPicks(Files(roadmap, None), open, other);
    ForcedLeft(Files(roadmap, None), open, other);
    ForcedArchive(Files(roadmap, None), open, other);
  }

  lemma {:induction false} UniqueIdsAreListed(ids: seq<string>, open: string)
    requires NoRepeats(ids)
    ensures NoRepeats(IdList(AllDoneBut(ids, open)))
  {
    IdListWithoutTasks(AllDoneBut(ids, open));
  }

  lemma {:induction false} ForcedLeft(files: Files, open: string, other: string)
    requires open in ScanIds(files.roadmap) && other in ScanIds(files.roadmap) && open != other
    ensures LeftIsParsed(files, ForcedEnv(open))
  {
    hide ScanIds, Prune, Outside, Without, PicksOf, AllDoneBut, ForcedEnv;
    var chosen := IdSet(PickIds(PicksOf(files, ForcedEnv(open))));
    ForcedPicks(files, open, other);
    SurgeryRemovesChosenIds(files.roadmap, chosen);
    WithoutHas(ScanIds(files.roadmap), chosen, open);
    ForcedParse(open, Prune(Outside(files.roadmap, chosen, 0)));
  }

  /** Any roadmap with unique ids, one of them of an open epic and another one of a
      done epic, is moved by some sweep into a new archive. */
  lemma {:induction false} SomeSweepMoves(roadmap: Lines, open: string, other: string)
    requires NoRepeats(ScanIds(roadmap)) && open in ScanIds(roadmap) && other in ScanIds(roadmap) && open != other
    ensures forall lines :: FaithfulOn(ForcedEnv(open).parse, lines)
    ensures Plan(Files(roadmap, None), ForcedEnv(open)).Move?
  {
    hide FaithfulOn, Plan, Ready, ForcedEnv, PicksOf, ScanIds, RoadmapLeft, ExtendedArchive;
    forall lines ensures FaithfulOn(ForcedEnv(open).parse, lines) {
      ForcedIsFaithful(open, lines);
    }
    ForcedSweepIsReady(roadmap, open, other);
    SweepMovesExactlyWhen(Files(roadmap, None), ForcedEnv(open));
  }

  // ----- the last epic -----

  /** The last content line is a bare `epics:` key. */
  predicate EndsWithBareKey(lines: Lines) {
    lines != [] && IsBareEpicsKey(lines[|lines| - 1])
  }

  /** If this text has no epic lines and its content ends with a bare key, it is
      parsed as a key without a value, if it is parsed. */
  predicate ReadsBareKeyAsNull(parse: Lines -> Doc, lines: Lines) {
    ScanIds(lines) == [] && EndsWithBareKey(Content(lines)) ==> parse(lines).NullEpics? || parse(lines).Unparsable?
  }

  lemma {:induction false} WithoutAll(ids: seq<string>, chosen: set<string>)
    requires forall x <- ids :: x in chosen
    ensures Without(ids, chosen) == []
  {
    if ids != [] {
      assert ids == [ids[0]] + ids[1..];
      WithoutAll(ids[1..], chosen);
    }
  }

  lemma {:induction false} ContentWithoutEpics(lines: Lines)
    requires ScanIds(lines) == []
    ensures Content(lines) == Lead(lines)
  {
    if lines != [] {
      assert lines == [lines[0]] + lines[1..];
      ContentCons(lines[0], lines[1..]);
      LeadCons(lines[0], lines[1..]);
      ScanIdsCons(lines[0], lines[1..]);
      ContentWithoutEpics(lines[1..]);
    }
  }

  /** A sweep that picks every epic of a roadmap whose content above the first epic
      ends with the bare key never moves: the key that is left has no value, and
      reading the surviving ids raises. */
  lemma {:induction false} SweepNeverEmptiesTheRoadmap(files: Files, env: Env)
    requires ReadsBareKeyAsNull(env.parse, RoadmapLeft(files, env))
    requires EndsWithBareKey(Lead(files.roadmap))
    requires forall x <- ScanIds(files.roadmap) :: x in PickIds(PicksOf(files, env))
    ensures !Plan(files, env).Move?
  {
    hide Plan, Prune, Outside, Lead, Entries, Content, ScanIds, Without, PicksOf, EndsWithBareKey, ArchiveIsParsed;
    var chosen := IdSet(PickIds(PicksOf(files, env)));
    if Plan(files, env).Move? {
      MovingSweepIsReady(files, env);
      SurgeryRemovesChosenIds(files.roadmap, chosen);
      WithoutAll(ScanIds(files.roadmap), chosen);
      SurgeryKeepsEntries(files.roadmap, chosen);
      ContentWithoutEpics(RoadmapLeft(files, env));
      assert false;
    }
  }

  // ----- what happens to each epic's text -----

  /** The content of the text t is the entry, or the entry with stamp lines. */
  ghost predicate KeptOrStamped(entry: Lines, t: Lines) {
    Content(t) == entry || exists s, a :: entry != [] && Content(t) == StampBlock(entry, s, a)
  }

  /** The entry is in the roadmap as it was, or in the archive as it was or stamped. */
  ghost predicate Survives(files: Files, entry: Lines) {
    entry in Entries(files.roadmap) || exists t <- ArchiveTexts(files) :: KeptOrStamped(entry, t)
  }

  lemma {:induction false} StampedContent(block: Lines, s: string, a: string)
    requires block != [] && block[0].EpicStart?
    ensures KeptOrStamped(Content(block), StampBlock(block, s, a))
  {
    var entry, rest := Content(block), block[1..];
    assert block == [block[0]] + rest;
    ContentCons(block[0], rest);
    assert entry == [block[0]] + Content(rest) && entry[1..] == Content(rest);
    hide Content;
    if IsStamped(block) {
      assert StampBlock(block, s, a) == block;
    } else {
      ContentIsPart(block);
      assert !IsStamped(entry);
      StampLinesAreContent(block[0], rest, s, a);
      assert Content(StampBlock(block, s, a)) == StampBlock(entry, s, a);
    }
    hide StampBlock, IsStamped;
  }

  lemma {:induction false} StampLinesAreContent(head: Line, rest: Lines, s: string, a: string)
    requires head.EpicStart?
    ensures Content([head, Other("    shipped_on: " + s), Other("    archived_on: " + a)] + rest)
         == [head, Other("    shipped_on: " + s), Other("    archived_on: " + a)] + Content(rest)
  {
    hide Content;
    var shipped, archived := Other("    shipped_on: " + s), Other("    archived_on: " + a);
    ContentCons(head, [shipped] + ([archived] + rest));
    ContentCons(shipped, [archived] + rest);
    ContentCons(archived, rest);
    forall tail: Lines ensures [head, shipped, archived] + tail == [head] + ([shipped] + ([archived] + tail)) {
    }
  }

  lemma {:induction false} ContentIsPart(lines: Lines)
    ensures forall l <- Content(lines) :: l in lines
  {
    if lines != [] {
      ContentIsPart(lines[..|lines| - 1]);
    }
  }

  lemma {:induction false} KeptEntry(entries: seq<Lines>, chosen: set<string>, entry: Lines)
    requires entry in entries && HeadId(entry) !in chosen
    ensures entry in KeepEntries(entries, chosen)
  {
    if entry != entries[0] {
      assert entries == [entries[0]] + entries[1..];
      KeptEntry(entries[1..], chosen, entry);
    }
  }

  lemma {:induction false} EntryHasBlock(lines: Lines, entry: Lines) returns (k: nat)
    requires entry in Entries(lines)
    ensures k < |Blocks(lines, 0)| == |ScanIds(lines)| && ScanIds(lines)[k] == Blocks(lines, 0)[k].id == HeadId(entry)
    ensures Content(BlockText(lines, Blocks(lines, 0)[k])) == entry && WholeBlock(BlockText(lines, Blocks(lines, 0)[k]))
  {
    hide Blocks, Content, ScanIds, Entries, BlockText, WholeBlock;
    assert lines[0..] == lines;
    EntriesAreBlockContents(lines, 0);
    IdsOfBlocks(lines);
    var blocks := Blocks(lines, 0);
    k :| k < |blocks| && Entries(lines)[k] == entry;
    assert blocks[k] in blocks;
    BlockTextIsWhole(lines, blocks[k]);
    ContentHead(BlockText(lines, blocks[k]));
  }

  lemma {:induction false} ContentHead(block: Lines)
    requires WholeBlock(block)
    ensures HeadId(Content(block)) == block[0].id
  {
    hide Content;
    assert block == [block[0]] + block[1..];
    ContentCons(block[0], block[1..]);
  }

  /** With unique ids the text found for an id is the block of its entry. */
  lemma {:induction false} TextOfEntry(lines: Lines, entry: Lines)
    requires NoRepeats(ScanIds(lines)) && entry in Entries(lines)
    ensures HeadId(entry) in ScanIds(lines)
    ensures var t := TextOf(lines, Blocks(lines, 0), HeadId(entry));
      Content(t) == entry && t != [] && t[0].EpicStart?
  {
    var k := EntryHasBlock(lines, entry);
    IdsOfBlocks(lines);
    hide Blocks, Content, ScanIds, Entries, BlockText;
    var j := TextOfFindsBlock(lines, Blocks(lines, 0), HeadId(entry));
    assert ScanIds(lines)[j] == ScanIds(lines)[k];
    assert j == k;
  }

  lemma {:induction false} StampedTextAt(roadmap: Lines, picks: seq<Pick>, n: nat, archivedOn: string, i: nat)
    requires i < n <= |picks| && TextOf(roadmap, Blocks(roadmap, 0), picks[i].id) != []
    ensures StampBlock(TextOf(roadmap, Blocks(roadmap, 0), picks[i].id), picks[i].shippedOn, archivedOn)
      in StampedTexts(roadmap, picks, n, archivedOn)
  {
    hide StampBlock, TextOf, Blocks;
    if i < n - 1 {
      StampedTextAt(roadmap, picks, n - 1, archivedOn, i);
    }
  }

  lemma {:induction false} MoveKeepsEntry(files: Files, env: Env, entry: Lines)
    requires Plan(files, env).Move? && entry in Entries(files.roadmap)
    ensures var m := Plan(files, env);
      entry in Entries(m.roadmap) || exists t <- BlockTexts(m.archive) :: KeptOrStamped(entry, t)
  {
    var m, picks := Plan(files, env), PicksOf(files, env);
    var chosen := IdSet(PickIds(picks));
    MoveMovesExactlyThePicks(files, env);
    SurgeryKeepsEntries(files.roadmap, chosen);
    if HeadId(entry) !in chosen {
      KeptEntry(Entries(files.roadmap), chosen, entry);
    } else {
      MovingIdsAreUnique(files, env);
      TextOfEntry(files.roadmap, entry);
      var i: nat :| i < |picks| && PickIds(picks)[i] == HeadId(entry);
      var block := TextOf(files.roadmap, Blocks(files.roadmap, 0), HeadId(entry));
      StampedTextAt(files.roadmap, picks, |picks|, env.archivedOn, i);
      StampedContent(block, picks[i].shippedOn, env.archivedOn);
      assert StampBlock(block, picks[i].shippedOn, env.archivedOn) in BlockTexts(m.archive);
    }
  }

  lemma {:induction false} MovingIdsAreUnique(files: Files, env: Env)
    requires Plan(files, env).Move?
    ensures NoRepeats(ScanIds(files.roadmap))
  {
    hide PlanMove;
    IdsAreListed(RoadmapEpics(env.parse(files.roadmap)).value);
  }

  /** The block of this epic is at the end of the archive with the two stamp lines. */
  ghost predicate IsArchived(e: EpicRecord, stamp: string, files: Files, env: Env, archive: Lines) {
    |ArchiveTexts(files)| <= |BlockTexts(archive)| && exists block: Lines <- BlockTexts(files.roadmap) ::
      && WholeBlock(block) && block[0].id == e.id
      && StampBlock(block, stamp, env.archivedOn) in BlockTexts(archive)[|ArchiveTexts(files)|..]
  }

  /** A sweep that moves takes exactly the qualifying epics out of the roadmap,
      and archives each with its own stamp, in file order and nothing else. */
  lemma {:induction false} MoveArchivesTheQualified(files: Files, env: Env)
    requires Plan(files, env).Move?
    ensures RoadmapEpics(env.parse(files.roadmap)).Some?
    ensures var m, epics, picks := Plan(files, env), RoadmapEpics(env.parse(files.roadmap)).value, PicksOf(files, env);
      && PicksTheQualified(picks, epics, env)
      && ScanIds(m.archive) == ArchiveIds(files) + PickIds(picks)
      && |BlockTexts(m.archive)| == |ArchiveTexts(files)| + |picks|
      && (forall e <- epics :: e.id !in ScanIds(m.roadmap) <==> exists stamp :: Qualifies(e, env, stamp))
      && forall e, stamp | e in epics && Qualifies(e, env, stamp) :: IsArchived(e, stamp, files, env, m.archive)
  {
    var m, epics, picks := Plan(files, env), RoadmapEpics(env.parse(files.roadmap)).value, PicksOf(files, env);
    PicksAreTheQualified(epics, env);
    MoveMovesExactlyThePicks(files, env);
    StampedTextsLength(files.roadmap, picks, |picks|, env.archivedOn);
    forall e | e in epics ensures e.id !in ScanIds(m.roadmap) <==> exists stamp :: Qualifies(e, env, stamp) {
      LeavesExactlyWhen(files, env, e);
    }
    forall e, stamp | e in epics && Qualifies(e, env, stamp) ensures IsArchived(e, stamp, files, env, m.archive) {
      QualifiedIsArchived(files, env, e, stamp);
    }
    hide *;
  }

  lemma {:induction false} StampedTextsLength(roadmap: Lines, picks: seq<Pick>, n: nat, archivedOn: string)
    requires n <= |picks|
    ensures |StampedTexts(roadmap, picks, n, archivedOn)| == n
  {
    hide StampBlock, TextOf, Blocks;
    if n > 0 {
      StampedTextsLength(roadmap, picks, n - 1, archivedOn);
    }
  }

  lemma {:induction false} MovingEpic(files: Files, env: Env, e: EpicRecord, stamp: string)
    requires Plan(files, env).Move? && e in RoadmapEpics(env.parse(files.roadmap)).value
    ensures e.id in ScanIds(files.roadmap)
    ensures Pick(e.id, stamp) in PicksOf(files, env) <==> Qualifies(e, env, stamp)
  {
    var epics := RoadmapEpics(env.parse(files.roadmap)).value;
    MovingIdsAreUnique(files, env);
    hide PlanMove, Picks, Qualifies, ScanIds;
    var k: nat :| k < |epics| && epics[k] == e;
    assert Ids(epics)[k] == e.id;
    forall j | 0 <= j < |epics| && j != k ensures epics[j].id != e.id {
      assert Ids(epics)[j] == epics[j].id;
    }
    PickedExactlyWhen(epics, env, k, stamp);
  }

  lemma {:induction false} LeavesWhenPicked(files: Files, env: Env, id: string)
    requires Plan(files, env).Move? && id in ScanIds(files.roadmap)
    ensures id !in ScanIds(Plan(files, env).roadmap) <==> exists stamp :: Pick(id, stamp) in PicksOf(files, env)
  {
    var picks := PicksOf(files, env);
    MoveMovesExactlyThePicks(files, env);
    WithoutHas(ScanIds(files.roadmap), IdSet(PickIds(picks)), id);
    hide Plan, PicksOf, ScanIds, Without;
    if id in PickIds(picks) {
      var i: nat :| i < |picks| && PickIds(picks)[i] == id;
      assert picks[i] == Pick(id, picks[i].shippedOn) && picks[i] in picks;
    }
    if stamp :| Pick(id, stamp) in picks {
      var i: nat :| i < |picks| && picks[i] == Pick(id, stamp);
      assert PickIds(picks)[i] == id;
    }
  }

  lemma {:induction false} LeavesExactlyWhen(files: Files, env: Env, e: EpicRecord)
    requires Plan(files, env).Move? && e in RoadmapEpics(env.parse(files.roadmap)).value
    ensures e.id !in ScanIds(Plan(files, env).roadmap) <==> exists stamp :: Qualifies(e, env, stamp)
  {
    hide *;
    forall stamp ensures Pick(e.id, stamp) in PicksOf(files, env) <==> Qualifies(e, env, stamp) {
      MovingEpic(files, env, e, stamp);
    }
    MovingEpic(files, env, e, "");
    LeavesWhenPicked(files, env, e.id);
  }

  lemma {:induction false} QualifiedIsArchived(files: Files, env: Env, e: EpicRecord, stamp: string)
    requires Plan(files, env).Move? && e in RoadmapEpics(env.parse(files.roadmap)).value && Qualifies(e, env, stamp)
    ensures IsArchived(e, stamp, files, env, Plan(files, env).archive)
  {
    var picks := PicksOf(files, env);
    MoveMovesExactlyThePicks(files, env);
    MovingEpic(files, env, e, stamp);
    TextOfIsWhole(files.roadmap, e.id);
    hide Plan, PicksOf, Qualifies, ScanIds, TextOf, BlockTexts, ArchiveTexts;
    var i: nat :| i < |picks| && picks[i] == Pick(e.id, stamp);
    StampedTextAt(files.roadmap, picks, |picks|, env.archivedOn, i);
  }

  /** No sweep loses an epic's text, wherever it crashes. */
  lemma {:induction false} SweepKeepsEntry(files: Files, env: Env, crash: Crash, entry: Lines)
    requires Survives(files, entry)
    ensures Survives(After(files, Plan(files, env), crash), entry)
  {
    if Plan(files, env).Move? {
      MoveMovesExactlyThePicks(files, env);
      if entry in Entries(files.roadmap) {
        MoveKeepsEntry(files, env, entry);
      } else {
        var t :| t in ArchiveTexts(files) && KeptOrStamped(entry, t);
        assert t in BlockTexts(Plan(files, env).archive);
      }
      hide Plan, BlockTexts, Entries, KeptOrStamped;
    }
  }

  /** Over any run, each epic's content lines are in the roadmap as they were, or in
      the archive as they were or with the two stamp lines. */
  lemma {:induction false} RunKeepsEntries(files: Files, steps: seq<Step>, entry: Lines)
    requires Survives(files, entry)
    ensures Survives(Run(files, steps), entry)
  {
    if steps != [] {
      var n := |steps| - 1;
      RunKeepsEntries(files, steps[..n], entry);
      SweepKeepsEntry(Run(files, steps[..n]), steps[n].env, steps[n].crash, entry);
    }
  }

  lemma {:induction false} SweepKeepsArchive(files: Files, env: Env, crash: Crash)
    ensures ArchiveTexts(files) <= ArchiveTexts(After(files, Plan(files, env), crash))
  {
    if Plan(files, env).Move? {
      MoveMovesExactlyThePicks(files, env);
    }
    hide Plan, BlockTexts;
  }

  /** Over any run the blocks of the archive stay as they are, blanks and all. */
  lemma {:induction false} RunKeepsArchive(files: Files, steps: seq<Step>)
    ensures ArchiveTexts(files) <= ArchiveTexts(Run(files, steps))
  {
    hide Plan, After, ArchiveTexts;
    if steps != [] {
      var n := |steps| - 1;
      RunKeepsArchive(files, steps[..n]);
      SweepKeepsArchive(Run(files, steps[..n]), steps[n].env, steps[n].crash);
    }
  }

  // ----- the sweep in the source's own form -----

  /** The two files, and the sweep as a method that rewrites them. */
  class Repository {
    var roadmap: Lines
    var archive: Option<Lines>

    function State(): Files
      reads this
    {
      Files(roadmap, archive)
    }

    constructor (files: Files)
      ensures State() == files
    {
      roadmap, archive := files.roadmap, files.archive;
    }

    /** The selection loop. */
    method ChoosePicks(epics: seq<EpicRecord>, env: Env) returns (picks: seq<Pick>)
      ensures picks == Picks(epics, env)
      ensures PicksTheQualified(picks, epics, env)
    {
      picks := [];
      for i := 0 to |epics|
        invariant picks == Picks(epics[..i], env)
      {
        assert epics[..i + 1][..i] == epics[..i];
        var e := epics[i];
        if e.isDone && !e.keep && !exists t <- e.tasks :: !t.isDone {
          var s := EpicShippedOn(e, env.gh, UseGh(env));
          if s.Undated? {
            picks := picks + [Pick(e.id, "unknown")];
          } else if s.On? && (env.now - s.at) / SECONDS_PER_DAY >= env.minAgeDays {
            picks := picks + [Pick(e.id, env.dateOf(s.at))];
          }
        }
      }
      assert epics[..|epics|] == epics;
      PicksAreTheQualified(epics, env);
    }

    /** The loop that appends the stamped blocks to the archive text. */
    method AppendPicks(base: Lines, picks: seq<Pick>, archivedOn: string) returns (text: Lines)
      ensures text == Appended(base, roadmap, picks, |picks|, archivedOn)
    {
      var blocks := FindEpicBlocks(roadmap);
      text := base;
      for i := 0 to |picks|
        invariant text == Appended(base, roadmap, picks, i, archivedOn)
      {
        var block := TextOf(roadmap, blocks, picks[i].id);
        text := text + (if NeedsSeparator(text) then [Blank("")] else [])
          + if block == [] then [] else StampBlock(block, picks[i].shippedOn, archivedOn);
      }
    }

    /** `sweep_archive`; `crash` says whether the process dies before, between or
        after the writes. The archive is written first. */
    method SweepArchive(env: Env, crash: Crash) returns (outcome: Outcome)
      modifies this
      ensures outcome == Plan(old(State()), env)
      ensures State() == After(old(State()), outcome, crash)
    {
      var doc := RoadmapEpics(env.parse(roadmap));
      if doc.None? {
        return Refused;
      }
      if ScanIds(roadmap) != Ids(doc.value) || !NoRepeats(IdList(doc.value)) {
        return Refused;
      }
      if !env.ghAvailable && !env.forceUndated {
        return Refused;
      }
      var picks := ChoosePicks(doc.value, env);
      if picks == [] || env.dryRun {
        return NothingToDo;
      }
      outcome := MovePicks(env, doc.value, picks, crash);
    }

    method MovePicks(env: Env, epics: seq<EpicRecord>, picks: seq<Pick>, crash: Crash) returns (outcome: Outcome)
      modifies this
      ensures outcome == PlanMove(old(State()), env, epics, picks)
      ensures State() == After(old(State()), outcome, crash)
    {
      hide Appended, CanAppend;
      var chosen := IdSet(PickIds(picks));
      if !(chosen <= IdSet(ScanIds(roadmap))) {
        return Refused;
      }
      var kept := CutBlocks(roadmap, chosen);
      var newRoadmap := PruneEmptySections(kept);
      var reparsed := RoadmapEpics(env.parse(newRoadmap));
      if reparsed.None? || IdSet(Ids(reparsed.value)) != IdSet(Ids(epics)) - chosen {
        return Refused;
      }
      if archive.Some? && !CanAppend(ArchiveBase(State()), env.parse) {
        return Refused;
      }
      var newArchive := AppendPicks(ArchiveBase(State()), picks, env.archivedOn);
      var parsed := ArchiveEpics(env.parse(newArchive));
      if parsed.None? || !NoRepeats(Ids(parsed.value)) {
        return Refused;
      }
      outcome := Move(newRoadmap, newArchive);
      if crash == BeforeWrites {
        return;
      }
      archive := Some(newArchive);
      if crash == BetweenWrites {
        return;
      }
      roadmap := newRoadmap;
    }
  }
}
