/** Walking a repository and folding its files' metrics into one summary. */
module Analyzer {
  import opened Wrappers
  import opened Tally
  import opened FileMetrics
  import opened Ordering
  import DecimalText
  import ScoringSpec
  import Scoring

  datatype Language = Python | TypeScript

  /** A directory entry: its absolute path's parts, its path relative to the repository, whether it
      is a file, the language of its suffix if it has one, and its content. */
  datatype Entry = Entry(parts: seq<string>, relative: string, isFile: bool, language: Option<Language>,
                         text: string, lines: nat)

  const SKIP_DIRS: set<string> := {".git", ".hg", ".svn", ".venv", "node_modules", "__pycache__", "cce-out"}

  /** What a backend makes of a file: None is an AnalyzerError. */
  type Backend = Entry -> Option<Metrics>

  datatype FileEntry = FileEntry(path: string, language: Language, metrics: Metrics)

  datatype Report = Report(files: seq<FileEntry>, summary: Metrics)

  function Key(e: Entry): seq<int> {
    CodePoints(e.relative)
  }

  predicate IsSource(e: Entry) {
    (forall i :: 0 <= i < |e.parts| ==> e.parts[i] !in SKIP_DIRS) && e.isFile && e.language.Some?
  }

  function Sources(entries: seq<Entry>): seq<Entry> {
    if entries == [] then []
    else Sources(entries[..|entries| - 1]) + (if IsSource(entries[|entries| - 1]) then [entries[|entries| - 1]] else [])
  }

  /** The walk, in whatever order the file system lists it, then sorted by relative path. */
  method IterSourceFiles(entries: seq<Entry>) returns (files: seq<Entry>)
    ensures files == Sort(Sources(entries), Key)
    ensures forall e :: e in files <==>
              && e in entries && e.isFile && e.language.Some?
              && forall i :: 0 <= i < |e.parts| ==>
                   e.parts[i] !in [".git", ".hg", ".svn", ".venv", "node_modules", "__pycache__", "cce-out"]
    ensures forall i, j :: 0 <= i < j < |files| ==>
              !Less(CodePoints(files[j].relative), CodePoints(files[i].relative))
  {
    var paths: seq<Entry> := [];
    for i := 0 to |entries|
      invariant paths == Sources(entries[..i])
    {
      assert entries[..i + 1][..i] == entries[..i];
      if exists k :: 0 <= k < |entries[i].parts| && entries[i].parts[k] in SKIP_DIRS {
        continue;
      }
      if entries[i].isFile && entries[i].language.Some? {
        paths := paths + [entries[i]];
      }
    }
    assert entries[..|entries|] == entries;
    files := Sort(paths, Key);
    SortInOrder(paths, Key);
    forall i, j | 0 <= i < j < |files| ensures !Less(CodePoints(files[j].relative), CodePoints(files[i].relative)) {
      assert !Less(Key(files[j]), Key(files[i]));
    }
    forall e ensures e in files <==> e in entries && IsSource(e) {
      SortMembers(paths, Key);
      SourcesMember(entries, e);
      assert e in files <==> e in multiset(files);
    }
  }

  // ---------------------------------------------------------------- measuring

  /** A file's metrics, its length included. */
  function Measured(e: Entry, backend: Backend): Metrics
    requires backend(e).Some?
  {
    backend(e).value.(fileLength := e.lines)
  }

  const NO_FILES: Metrics := Metrics(0, 0, 0, 0, 0)

  function Pointwise(a: Metrics, b: Metrics): Metrics {
    Metrics(Max(a.cyclomatic, b.cyclomatic), Max(a.cognitive, b.cognitive), Max(a.nestingDepth, b.nestingDepth),
            MaxInt(a.functionLength, b.functionLength), Max(a.fileLength, b.fileLength))
  }

  predicate AtMost(a: Metrics, b: Metrics) {
    && a.cyclomatic <= b.cyclomatic && a.cognitive <= b.cognitive && a.nestingDepth <= b.nestingDepth
    && a.functionLength <= b.functionLength && a.fileLength <= b.fileLength
  }

  predicate Analysable(files: seq<Entry>, backend: Backend) {
    forall i :: 0 <= i < |files| ==> backend(files[i]).Some?
  }

  function Summary(files: seq<Entry>, backend: Backend): Metrics
    requires Analysable(files, backend)
  {
    if files == [] then NO_FILES
    else Pointwise(Summary(files[..|files| - 1], backend), Measured(files[|files| - 1], backend))
  }

  function FileEntries(files: seq<Entry>, backend: Backend): (r: seq<FileEntry>)
    requires Analysable(files, backend) && forall i :: 0 <= i < |files| ==> files[i].language.Some?
    ensures |r| == |files|
    ensures forall i :: 0 <= i < |files| ==>
              r[i] == FileEntry(files[i].relative, files[i].language.value, Measured(files[i], backend))
  {
    seq(|files|, i requires 0 <= i < |files| =>
      FileEntry(files[i].relative, files[i].language.value, Measured(files[i], backend)))
  }

  /** Fails on the first file its backend cannot analyse. */
  method MeasureMetrics(sources: seq<Entry>, backend: Backend) returns (r: Option<Report>)
    requires forall i :: 0 <= i < |sources| ==> sources[i].language.Some?
    ensures r.Some? <==> Analysable(sources, backend)
    ensures r.Some? ==> r.value == Report(FileEntries(sources, backend), Summary(sources, backend))
  {
    var files: seq<FileEntry> := [];
    for i := 0 to |sources|
      invariant |files| == i
      invariant forall k :: 0 <= k < i ==> backend(sources[k]).Some?
      invariant forall k :: 0 <= k < i ==>
                  files[k] == FileEntry(sources[k].relative, sources[k].language.value, Measured(sources[k], backend))
    {
      var metrics := backend(sources[i]);
      if metrics.None? { return None; }
      files := files + [FileEntry(sources[i].relative, sources[i].language.value,
                                  metrics.value.(fileLength := sources[i].lines))];
    }
    var summary := NO_FILES;
    for i := 0 to |files|
      invariant summary == Summary(sources[..i], backend)
    {
      assert sources[..i + 1][..i] == sources[..i];
      summary := Pointwise(summary, files[i].metrics);
    }
    assert sources[..|sources|] == sources;
    r := Some(Report(files, summary));
  }

  // ---------------------------------------------------------------- the summary is a maximum

  /** An upper bound of every file's metrics and of zero, and below every other such bound. */
  lemma {:induction false} SummaryIsLeastBound(files: seq<Entry>, backend: Backend, m: Metrics)
    requires Analysable(files, backend)
    ensures AtMost(Summary(files, backend), m) <==>
            AtMost(NO_FILES, m) && forall i :: 0 <= i < |files| ==> AtMost(Measured(files[i], backend), m)
  {
    if files != [] { SummaryIsLeastBound(files[..|files| - 1], backend, m); }
  }

  /** More files, whatever their order, never give a smaller summary. */
  lemma MoreFilesMore(files: seq<Entry>, more: seq<Entry>, backend: Backend)
    requires Analysable(more, backend)
    requires forall e :: e in files ==> e in more
    ensures Analysable(files, backend)
    ensures AtMost(Summary(files, backend), Summary(more, backend))
  {
    forall i | 0 <= i < |files| ensures backend(files[i]).Some? { assert files[i] in more; }
    SummaryIsLeastBound(more, backend, Summary(more, backend));
    forall i | 0 <= i < |files| ensures AtMost(Measured(files[i], backend), Summary(more, backend)) {
      assert files[i] in more;
    }
    SummaryIsLeastBound(files, backend, Summary(more, backend));
  }

  // ---------------------------------------------------------------- independence of the listing order

  lemma {:induction false} SourcesMember(entries: seq<Entry>, e: Entry)
    ensures e in Sources(entries) <==> e in entries && IsSource(e)
  {
    hide IsSource;
    if entries != [] {
      var k := |entries| - 1;
      SourcesMember(entries[..k], e);
      assert entries == entries[..k] + [entries[k]];
    }
  }

  lemma {:induction false} SourcesCount(entries: seq<Entry>, e: Entry)
    ensures multiset(Sources(entries))[e] == if IsSource(e) then multiset(entries)[e] else 0
  {
    hide IsSource;
    if entries != [] {
      var k := |entries| - 1;
      SourcesCount(entries[..k], e);
      SourcesStep(entries);
      hide Sources;
      assert entries == entries[..k] + [entries[k]];
    }
  }

  lemma SourcesStep(entries: seq<Entry>)
    requires entries != []
    ensures var k := |entries| - 1;
            Sources(entries) == Sources(entries[..k]) + (if IsSource(entries[k]) then [entries[k]] else [])
  {
    hide IsSource;
  }

  lemma {:induction false} SourcesDistinct(entries: seq<Entry>)
    requires DistinctKeys(entries, Key)
    ensures DistinctKeys(Sources(entries), Key)
  {
    hide IsSource, Key;
    if entries != [] {
      var k := |entries| - 1;
      SourcesDistinct(entries[..k]);
      var before := Sources(entries[..k]);
      forall i | 0 <= i < |before| ensures Key(before[i]) != Key(entries[k]) {
        SourcesMember(entries[..k], before[i]);
      }
    }
  }

  /** Two listings of the same tree, in any two orders, give the same files in the same order,
      hence the same report. */
  lemma OrderIndependent(entries: seq<Entry>, entries': seq<Entry>)
    requires DistinctKeys(entries, Key) && multiset(entries) == multiset(entries')
    ensures Sort(Sources(entries), Key) == Sort(Sources(entries'), Key)
    ensures Ascending(Sort(Sources(entries), Key), Key)
  {
    hide IsSource, Key, Sort, Sources;
    DistinctKeysPermuted(entries, entries', Key);
    SourcesDistinct(entries); SourcesDistinct(entries');
    forall e: Entry ensures multiset(Sources(entries))[e] == multiset(Sources(entries'))[e] {
      SourcesCount(entries, e); SourcesCount(entries', e);
    }
    assert multiset(Sources(entries)) == multiset(Sources(entries'));
    SortForgetsOrder(Sources(entries), Sources(entries'), Key);
    SortAscending(Sources(entries), Key);
  }

  // ---------------------------------------------------------------- where the repository lies

  predicate Skipped(parts: seq<string>) {
    exists i :: 0 <= i < |parts| && parts[i] in SKIP_DIRS
  }

  /** What the path below the repository says of an entry. */
  predicate IsSourceBelow(e: Entry, below: seq<string>) {
    !Skipped(below) && e.isFile && e.language.Some?
  }

  /** The test is on all parts of an absolute path: a source is one by its path below the repository, in
      a repository that does not itself lie under a skipped name. */
  lemma SourceUnderRoot(root: seq<string>, e: Entry, below: seq<string>)
    requires e.parts == root + below
    ensures IsSource(e) <==> !Skipped(root) && IsSourceBelow(e, below)
  {
    forall i | 0 <= i < |root| ensures e.parts[i] == root[i] { }
    forall i | 0 <= i < |below| ensures e.parts[|root| + i] == below[i] { }
    if !IsSource(e) && e.isFile && e.language.Some? {
      var i :| 0 <= i < |e.parts| && e.parts[i] in SKIP_DIRS;
      assert if i < |root| then root[i] in SKIP_DIRS else below[i - |root|] in SKIP_DIRS;
    }
  }

  /** The path below the repository alone decides, for all its entries, exactly when the repository's own
      path has none of the skipped names in it. */
  lemma RootMatters(root: seq<string>)
    ensures !Skipped(root) <==>
            forall e: Entry, below :: e.parts == root + below ==> (IsSource(e) <==> IsSourceBelow(e, below))
  {
    hide IsSource, IsSourceBelow, SKIP_DIRS;
    if !Skipped(root) {
      forall e: Entry, below | e.parts == root + below ensures IsSource(e) <==> IsSourceBelow(e, below) {
        SourceUnderRoot(root, e, below);
      }
    } else {
      var e := Entry(root, "a.py", true, Some(Python), "", 0);
      assert e.parts == root + [];
      SourceUnderRoot(root, e, []);
      PlainSource(e);
    }
  }

  lemma PlainSource(e: Entry)
    requires e.isFile && e.language.Some?
    ensures IsSourceBelow(e, [])
  {
  }

  /** And under such a name no file of the repository is a source at all. */
  lemma {:induction false} NothingUnderSkipped(root: seq<string>, entries: seq<Entry>)
    requires Skipped(root) && forall i :: 0 <= i < |entries| ==> root <= entries[i].parts
    ensures Sources(entries) == []
  {
    hide IsSource, Skipped;
    if entries != [] {
      var e := entries[|entries| - 1];
      NothingUnderSkipped(root, entries[..|entries| - 1]);
      assert e.parts == root + e.parts[|root|..];
      SourceUnderRoot(root, e, e.parts[|root|..]);
    }
  }

  // ---------------------------------------------------------------- end to end

  function MetricValue(s: Metrics, m: ScoringSpec.Metric): int {
    match m
    case Cyclomatic => s.cyclomatic
    case Cognitive => s.cognitive
    case NestingDepth => s.nestingDepth
    case FunctionLength => s.functionLength
    case FileLength => s.fileLength
  }

  /** The raw metrics handed to scoring: each summary value as text. */
  function RawMetrics(s: Metrics): (raw: map<ScoringSpec.Metric, Scoring.RawMetric>)
    requires s.functionLength >= 0
    ensures forall m: ScoringSpec.Metric ::
              m in raw && raw[m] == Scoring.Raw(MetricValue(s, m) as real, DecimalText.Natural(MetricValue(s, m)))
  {
    map m: ScoringSpec.Metric :: Scoring.Raw(MetricValue(s, m) as real, DecimalText.Natural(MetricValue(s, m)))
  }

  /** Each summary number that is not zero is that of some file; the file length is a number of lines. */
  lemma {:induction false} SummaryAttained(files: seq<Entry>, backend: Backend)
    requires Analysable(files, backend)
    ensures var n := Summary(files, backend).cyclomatic;
            n == 0 || exists i :: 0 <= i < |files| && backend(files[i]).value.cyclomatic == n
    ensures var n := Summary(files, backend).cognitive;
            n == 0 || exists i :: 0 <= i < |files| && backend(files[i]).value.cognitive == n
    ensures var n := Summary(files, backend).nestingDepth;
            n == 0 || exists i :: 0 <= i < |files| && backend(files[i]).value.nestingDepth == n
    ensures var n := Summary(files, backend).functionLength;
            n == 0 || exists i :: 0 <= i < |files| && backend(files[i]).value.functionLength == n
    ensures var n := Summary(files, backend).fileLength;
            n == 0 || exists i :: 0 <= i < |files| && files[i].lines == n
  {
    if files != [] {
      var k := |files| - 1;
      SummaryAttained(files[..k], backend);
      assert forall i :: 0 <= i < k ==> files[..k][i] == files[i];
      assert files[k] == files[|files| - 1];
    }
  }

  lemma RawByName(s: Metrics)
    requires s.functionLength >= 0
    ensures var raw := RawMetrics(s);
            && raw[ScoringSpec.Cyclomatic] == Numeral(s.cyclomatic)
            && raw[ScoringSpec.Cognitive] == Numeral(s.cognitive)
            && raw[ScoringSpec.NestingDepth] == Numeral(s.nestingDepth)
            && raw[ScoringSpec.FunctionLength] == Numeral(s.functionLength)
            && raw[ScoringSpec.FileLength] == Numeral(s.fileLength)
  {
  }

  lemma SummaryBounds(files: seq<Entry>, backend: Backend, i: int)
    requires Analysable(files, backend) && 0 <= i < |files|
    ensures AtMost(NO_FILES, Summary(files, backend)) && AtMost(Measured(files[i], backend), Summary(files, backend))
  {
    hide Summary, Measured, NO_FILES;
    SummaryIsLeastBound(files, backend, Summary(files, backend));
  }

  /** Each raw metric is, as a number and as its numeral, the summary's metric of that name: no file's
      metric of that name is greater, and one file has it unless it is zero. */
  lemma RawIsGreatest(files: seq<Entry>, backend: Backend)
    requires Analysable(files, backend)
    ensures Summary(files, backend).functionLength >= 0
    ensures var s, raw := Summary(files, backend), RawMetrics(Summary(files, backend));
            && raw[ScoringSpec.Cyclomatic] == Numeral(s.cyclomatic)
            && raw[ScoringSpec.Cognitive] == Numeral(s.cognitive)
            && raw[ScoringSpec.NestingDepth] == Numeral(s.nestingDepth)
            && raw[ScoringSpec.FunctionLength] == Numeral(s.functionLength)
            && raw[ScoringSpec.FileLength] == Numeral(s.fileLength)
            && forall i :: 0 <= i < |files| ==>
                 var m := backend(files[i]).value;
                 && m.cyclomatic <= s.cyclomatic && m.cognitive <= s.cognitive && m.nestingDepth <= s.nestingDepth
                 && m.functionLength <= s.functionLength && files[i].lines <= s.fileLength
    ensures var n := Summary(files, backend).cyclomatic;
            n == 0 || exists i :: 0 <= i < |files| && backend(files[i]).value.cyclomatic == n
    ensures var n := Summary(files, backend).cognitive;
            n == 0 || exists i :: 0 <= i < |files| && backend(files[i]).value.cognitive == n
    ensures var n := Summary(files, backend).nestingDepth;
            n == 0 || exists i :: 0 <= i < |files| && backend(files[i]).value.nestingDepth == n
    ensures var n := Summary(files, backend).functionLength;
            n == 0 || exists i :: 0 <= i < |files| && backend(files[i]).value.functionLength == n
    ensures var n := Summary(files, backend).fileLength;
            n == 0 || exists i :: 0 <= i < |files| && files[i].lines == n
  {
    hide Summary, RawMetrics, Numeral;
    SummaryIsLeastBound(files, backend, Summary(files, backend));
    SummaryAttained(files, backend);
    RawByName(Summary(files, backend));
    forall i | 0 <= i < |files| ensures AtMost(Measured(files[i], backend), Summary(files, backend)) {
      SummaryBounds(files, backend, i);
    }
  }

  /** A number, and the numeral recorded for it. */
  function Numeral(n: nat): Scoring.RawMetric {
    Scoring.Raw(n as real, DecimalText.Natural(n))
  }

  lemma SummaryRaw(files: seq<Entry>, more: seq<Entry>, backend: Backend)
    requires Analysable(more, backend) && forall e :: e in files ==> e in more
    ensures Analysable(files, backend)
    ensures 0 <= Summary(files, backend).functionLength && 0 <= Summary(more, backend).functionLength
    ensures Scoring.NoSmaller(RawMetrics(Summary(files, backend)), RawMetrics(Summary(more, backend)))
  {
    hide Summary;
    MoreFilesMore(files, more, backend);
    SummaryIsLeastBound(files, backend, Summary(files, backend));
    SummaryIsLeastBound(more, backend, Summary(more, backend));
  }

  /** Adding analysable files to a repository never lowers its score, as long as both have one. */
  lemma MoreFilesScoreMore(spec: Scoring.Spec, files: seq<Entry>, more: seq<Entry>, backend: Backend)
    requires Scoring.OrderedSpec(spec) && Analysable(more, backend)
    requires forall e :: e in files ==> e in more
    ensures Analysable(files, backend)
    ensures 0 <= Summary(files, backend).functionLength && 0 <= Summary(more, backend).functionLength
    ensures var raw, raw' := RawMetrics(Summary(files, backend)), RawMetrics(Summary(more, backend));
            && Scoring.Usable(spec, raw) && Scoring.Usable(spec, raw')
            && Scoring.Score(spec, raw).Some? && Scoring.Score(spec, raw').Some? ==>
              Scoring.Score(spec, raw).value <= Scoring.Score(spec, raw').value
  {
    hide Summary, Scoring.OrderedSpec, Scoring.Usable, Scoring.Score, Scoring.NoSmaller;
    SummaryRaw(files, more, backend);
    OrderedIsLoaded(spec);
    var raw, raw' := RawMetrics(Summary(files, backend)), RawMetrics(Summary(more, backend));
    if Scoring.Usable(spec, raw) && Scoring.Usable(spec, raw')
       && Scoring.Score(spec, raw).Some? && Scoring.Score(spec, raw').Some? {
      Scoring.ScoreMonotone(spec, raw, raw');
    }
  }

  lemma OrderedIsLoaded(spec: Scoring.Spec)
    requires Scoring.OrderedSpec(spec)
    ensures Scoring.Loaded(spec)
  {
  }

  /** Under a spec in [0, 1] both always do. */
  lemma MoreFilesUnitScoreMore(spec: Scoring.Spec, files: seq<Entry>, more: seq<Entry>, backend: Backend)
    requires Scoring.UnitSpec(spec) && Analysable(more, backend)
    requires forall e :: e in files ==> e in more
    ensures Analysable(files, backend)
    ensures 0 <= Summary(files, backend).functionLength && 0 <= Summary(more, backend).functionLength
    ensures var raw, raw' := RawMetrics(Summary(files, backend)), RawMetrics(Summary(more, backend));
            && Scoring.Usable(spec, raw) && Scoring.Usable(spec, raw')
            && Scoring.Score(spec, raw).Some? && Scoring.Score(spec, raw').Some?
            && Scoring.Score(spec, raw).value <= Scoring.Score(spec, raw').value
  {
    hide Summary, Scoring.UnitSpec, Scoring.OrderedSpec, Scoring.Usable, Scoring.Score, Scoring.NoSmaller;
    SummaryRaw(files, more, backend);
    Scoring.UnitIsOrdered(spec); OrderedIsLoaded(spec);
    Scoring.UnitScoreMonotone(spec, RawMetrics(Summary(files, backend)), RawMetrics(Summary(more, backend)));
  }

  // ---------------------------------------------------------------- geometry of a repository

  /** What the built-in backends return: the geometry of a file with a function or none at all. */
  ghost predicate BuiltIn(m: Metrics) {
    FileGeometry(m) || (m.cyclomatic == 0 && m.cognitive == 0 && m.nestingDepth == 0)
  }

  /** The bounds survive the repository's maxima: the lower one always, the upper one exactly when
      some file has a function, that is when the cyclomatic summary is not zero. */
  lemma {:induction false} SummaryGeometry(files: seq<Entry>, backend: Backend)
    requires Analysable(files, backend)
    requires forall i :: 0 <= i < |files| ==> BuiltIn(backend(files[i]).value)
    ensures BuiltIn(Summary(files, backend))
    ensures CostsItsNesting(Summary(files, backend).cognitive, Summary(files, backend).nestingDepth)
    ensures FileGeometry(Summary(files, backend)) <==> Summary(files, backend).cyclomatic >= 1
  {
    hide Times;
    TimesFacts(0, 0, 0, 1);
    if files != [] {
      var k := |files| - 1;
      SummaryGeometry(files[..k], backend);
      PointwiseGeometry(Summary(files[..k], backend), Measured(files[k], backend));
    }
    NotGeometric(Summary(files, backend));
  }

  lemma NotGeometric(m: Metrics)
    requires BuiltIn(m)
    ensures CostsItsNesting(m.cognitive, m.nestingDepth)
    ensures FileGeometry(m) <==> m.cyclomatic >= 1
  {
  }

  lemma PointwiseGeometry(a: Metrics, b: Metrics)
    requires BuiltIn(a) && BuiltIn(b)
    ensures BuiltIn(Pointwise(a, b))
  {
    hide Times;
    var m := Pointwise(a, b);
    TimesFacts(0, 0, 0, 1); TimesZero(1);
    if a.cyclomatic >= 1 {
      BothGrow(a.cyclomatic - 1, Max(1, a.nestingDepth), m.cyclomatic - 1, Max(1, m.nestingDepth));
    }
    if b.cyclomatic >= 1 {
      BothGrow(b.cyclomatic - 1, Max(1, b.nestingDepth), m.cyclomatic - 1, Max(1, m.nestingDepth));
    }
  }

  lemma TimesZero(n: nat)
    ensures Times(0, n) == 0
  {
  }
}
