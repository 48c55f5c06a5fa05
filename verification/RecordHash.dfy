/** Building a score record, hashing it, and what its hash pins down. */
module RecordHash {
  import opened Wrappers
  import opened Hex
  import opened Decimal
  import opened DecimalText
  import opened ScoringSpec
  import opened Scoring
  import opened Ordering
  import opened Utf8
  import opened Json
  import opened JsonMeaning

  /** SHA-256 as a hexadecimal digest; nothing about it is assumed. */
  type Sha256 = seq<Byte> -> string

  // ---------------------------------------------------------------- the record

  function MetricName(m: Metric): string {
    match m
    case Cyclomatic => "cyclomatic"
    case Cognitive => "cognitive"
    case NestingDepth => "nesting_depth"
    case FunctionLength => "function_length"
    case FileLength => "file_length"
  }

  function MetricsJson(records: seq<MetricRecord>): Json
    requires |records| == |METRIC_NAMES|
  {
    JObject(seq(|METRIC_NAMES|, i requires 0 <= i < |METRIC_NAMES| =>
      Member(MetricName(METRIC_NAMES[i]),
             JObject([Member("raw", JString(records[i].raw)), Member("normalised", JString(records[i].normalised))]))))
  }

  function DigestKey(d: (string, string)): seq<int> {
    CodePoints(d.0)
  }

  function DigestsJson(digests: seq<(string, string)>): Json {
    var sorted := Sort(digests, DigestKey);
    JObject(seq(|sorted|, i requires 0 <= i < |sorted| => Member(sorted[i].0, JString(sorted[i].1))))
  }

  function BaseRecord(spec: Spec, scored: Scored, score: string, repo: string, mode: string, commitSha: string,
                      computedAt: string): seq<Member>
    requires |scored.metrics| == |METRIC_NAMES|
  {
    [Member("poc", JBool(true)), Member("spec_version", JString(spec.specVersion)),
     Member("spec_hash", JString(spec.specHash)), Member("mode", JString(mode)), Member("vcs", JString("git")),
     Member("repo", JString(repo)), Member("commit_sha", JString(commitSha)),
     Member("computed_at", JString(computedAt)), Member("tool_digests", DigestsJson(spec.toolDigests)),
     Member("metrics", MetricsJson(scored.metrics)), Member("score", JString(score)),
     Member("score_decimal_places", JInt(spec.decimalPlaces))]
  }

  /** What the commit pattern accepts: 40 hexadecimal digits, and one line feed after them, which
      the end-of-text anchor lets through. */
  predicate CommitMatches(s: string) {
    (|s| == 40 || (|s| == 41 && s[40] == '\n')) && IsHex(s[..40])
  }

  /** So exactly these pass. */
  lemma CommitsAccepted(s: string)
    ensures CommitMatches(s) <==>
            exists hex :: && |hex| == 40 && (s == hex || s == hex + "\n")
                          && forall i :: 0 <= i < 40 ==> hex[i] in "0123456789abcdef"
  {
    HexDigits();
    if CommitMatches(s) {
      var hex := s[..40];
      assert s == hex || s == hex + "\n";
    }
    if hex :| && |hex| == 40 && (s == hex || s == hex + "\n")
              && forall i :: 0 <= i < 40 ==> hex[i] in "0123456789abcdef" {
      assert s[..40] == hex;
    }
  }

  lemma HexDigits()
    ensures forall c :: IsHexChar(c) <==> c in "0123456789abcdef"
  {
    forall c ensures IsHexChar(c) <==> c in "0123456789abcdef" {
      var digits := "0123456789abcdef";
      if '0' <= c <= '9' { assert digits[c as int - '0' as int] == c; }
      if 'a' <= c <= 'f' { assert digits[c as int - 'a' as int + 10] == c; }
    }
  }

  predicate IsSha256(s: string) {
    |s| == 71 && s[..7] == "sha256:" && IsHex(s[7..])
  }

  // ---------------------------------------------------------------- hashing

  datatype HashError = NotAString(key: string) | MissingKey(key: string)

  /** Dictionary lookup: None when the key is absent. */
  function Lookup(ms: seq<Member>, name: string): Option<Json> {
    if ms == [] then None else if ms[0].name == name then Some(ms[0].value) else Lookup(ms[1..], name)
  }

  predicate HasText(ms: seq<Member>, name: string) {
    Lookup(ms, name).Some? && Lookup(ms, name).value.JString?
  }

  predicate Hashable(ms: seq<Member>) {
    && HasText(ms, "spec_hash") && HasText(ms, "commit_sha")
    && Lookup(ms, "metrics").Some? && Lookup(ms, "tool_digests").Some?
  }

  function PreImage(ms: seq<Member>): seq<Byte>
    requires Hashable(ms)
  {
    Encode(Lookup(ms, "spec_hash").value.text) + Encode(Lookup(ms, "commit_sha").value.text)
    + Jcs(Lookup(ms, "metrics").value) + Jcs(Lookup(ms, "tool_digests").value)
  }

  method ComputeRecordHash(ms: seq<Member>, sha256: Sha256) returns (r: Result<string, HashError>)
    ensures r.Ok? <==> Hashable(ms)
    ensures r.Ok? ==> r.value == "sha256:" + sha256(PreImage(ms))
  {
    hide Lookup, Encode, Jcs;
    var digest: seq<Byte> := [];
    if !HasText(ms, "spec_hash") { return Err(NotAString("spec_hash")); }
    digest := digest + Encode(Lookup(ms, "spec_hash").value.text);
    if !HasText(ms, "commit_sha") { return Err(NotAString("commit_sha")); }
    digest := digest + Encode(Lookup(ms, "commit_sha").value.text);
    if Lookup(ms, "metrics").None? { return Err(MissingKey("metrics")); }
    digest := digest + Jcs(Lookup(ms, "metrics").value);
    if Lookup(ms, "tool_digests").None? { return Err(MissingKey("tool_digests")); }
    digest := digest + Jcs(Lookup(ms, "tool_digests").value);
    assert digest == PreImage(ms);
    r := Ok("sha256:" + sha256(digest));
  }

  /** A record whose own hash is missing or not text does not verify; one whose fields cannot be
      hashed raises. */
  method VerifyRecordHash(ms: seq<Member>, sha256: Sha256) returns (r: Result<bool, HashError>)
    ensures !HasText(ms, "record_hash") ==> r == Ok(false)
    ensures HasText(ms, "record_hash") ==> (r.Ok? <==> Hashable(ms))
    ensures HasText(ms, "record_hash") && Hashable(ms) ==> r == Ok(Verifies(ms, sha256))
  {
    hide Lookup, PreImage;
    if !HasText(ms, "record_hash") { return Ok(false); }
    var computed := ComputeRecordHash(ms, sha256);
    match computed
    case Err(e) => r := Err(e);
    case Ok(hash) => r := Ok(hash == Lookup(ms, "record_hash").value.text);
  }

  predicate Verifies(ms: seq<Member>, sha256: Sha256) {
    && HasText(ms, "record_hash") && Hashable(ms)
    && "sha256:" + sha256(PreImage(ms)) == Lookup(ms, "record_hash").value.text
  }

  /** The record a scoring run builds. */
  function Built(spec: Spec, scored: Scored, score: string, repo: string, mode: string, commitSha: string,
                 computedAt: string, sha256: Sha256): seq<Member>
    requires |scored.metrics| == |METRIC_NAMES|
  {
    var base := BaseRecord(spec, scored, score, repo, mode, commitSha, computedAt);
    BaseHashable(spec, scored, score, repo, mode, commitSha, computedAt);
    base + [Member("record_hash", JString("sha256:" + sha256(PreImage(base))))]
  }

  const FIELDS: seq<string> := [
    "poc", "spec_version", "spec_hash", "mode", "vcs", "repo", "commit_sha", "computed_at", "tool_digests", "metrics",
    "score", "score_decimal_places", "record_hash"]

  function Signature(s: string): (int, char)
    requires s != ""
  {
    (|s|, s[0])
  }

  /** Lengths and first letters tell the field names apart. */
  lemma FieldsDistinct()
    ensures forall i, j :: 0 <= i < j < |FIELDS| ==> FIELDS[i] != FIELDS[j]
  {
    var codes := [(3, 'p'), (12, 's'), (9, 's'), (4, 'm'), (3, 'v'), (4, 'r'), (10, 'c'), (11, 'c'), (12, 't'),
                  (7, 'm'), (5, 's'), (20, 's'), (11, 'r')];
    assert |FIELDS| == |codes| == 13;
    forall i | 0 <= i < 13 ensures FIELDS[i] != "" && Signature(FIELDS[i]) == codes[i] { }
    assert forall i, j :: 0 <= i < j < 13 ==> codes[i] != codes[j];
  }

  /** The record's fields are these, in this order. */
  lemma BaseNames(spec: Spec, scored: Scored, score: string, repo: string, mode: string, commitSha: string,
                  computedAt: string)
    requires |scored.metrics| == |METRIC_NAMES|
    ensures var base := BaseRecord(spec, scored, score, repo, mode, commitSha, computedAt);
            |base| == 12 && forall i :: 0 <= i < 12 ==> base[i].name == FIELDS[i]
  {
    hide MetricsJson, DigestsJson;
  }

  lemma BaseHashable(spec: Spec, scored: Scored, score: string, repo: string, mode: string, commitSha: string,
                     computedAt: string)
    requires |scored.metrics| == |METRIC_NAMES|
    ensures var base := BaseRecord(spec, scored, score, repo, mode, commitSha, computedAt);
            && Lookup(base, "spec_hash") == Some(JString(spec.specHash))
            && Lookup(base, "commit_sha") == Some(JString(commitSha))
            && Lookup(base, "metrics") == Some(MetricsJson(scored.metrics))
            && Lookup(base, "tool_digests") == Some(DigestsJson(spec.toolDigests))
            && Lookup(base, "record_hash") == None
            && DistinctNames(base)
  {
    hide MetricsJson, DigestsJson, Lookup;
    var base := BaseRecord(spec, scored, score, repo, mode, commitSha, computedAt);
    assert base[2] == Member("spec_hash", JString(spec.specHash));
    assert base[6] == Member("commit_sha", JString(commitSha));
    assert base[8] == Member("tool_digests", DigestsJson(spec.toolDigests));
    assert base[9] == Member("metrics", MetricsJson(scored.metrics));
    BaseLookups(spec, scored, score, repo, mode, commitSha, computedAt);
  }

  lemma BaseLookups(spec: Spec, scored: Scored, score: string, repo: string, mode: string, commitSha: string,
                    computedAt: string)
    requires |scored.metrics| == |METRIC_NAMES|
    ensures var base := BaseRecord(spec, scored, score, repo, mode, commitSha, computedAt);
            && |base| == 12 && DistinctNames(base) && Lookup(base, "record_hash") == None
            && forall i :: 0 <= i < 12 ==> Lookup(base, base[i].name) == Some(base[i].value)
  {
    BaseNames(spec, scored, score, repo, mode, commitSha, computedAt);
    FieldsDistinct();
    assert FIELDS[12] == "record_hash";
    hide MetricsJson, DigestsJson, Lookup, BaseRecord, FIELDS;
    var base := BaseRecord(spec, scored, score, repo, mode, commitSha, computedAt);
    forall i | 0 <= i < 12 ensures Lookup(base, base[i].name) == Some(base[i].value) { LookupAt(base, i); }
    LookupNone(base, "record_hash");
  }

  lemma {:induction false} LookupAt(ms: seq<Member>, i: int)
    requires 0 <= i < |ms| && forall k :: 0 <= k < i ==> ms[k].name != ms[i].name
    ensures Lookup(ms, ms[i].name) == Some(ms[i].value)
    decreases |ms|
  {
    if i > 0 { LookupAt(ms[1..], i - 1); }
  }

  lemma {:induction false} LookupNone(ms: seq<Member>, name: string)
    requires forall k :: 0 <= k < |ms| ==> ms[k].name != name
    ensures Lookup(ms, name) == None
    decreases |ms|
  {
    if ms != [] { LookupNone(ms[1..], name); }
  }

  // ---------------------------------------------------------------- building

  /** Rejects unknown modes and malformed commits before scoring anything. */
  method BuildScoreRecord(spec: Spec, raw: map<Metric, RawMetric>, repo: string, mode: string, commitSha: string,
                          computedAt: string, sha256: Sha256)
    returns (r: Result<seq<Member>, ScoringFailure>)
    requires Loaded(spec)
    ensures mode !in {"repo", "commit"} ==> r == Err(BadMode)
    ensures mode in {"repo", "commit"} && !CommitMatches(commitSha) ==> r == Err(BadCommit)
    ensures r.Ok? <==>
            (mode in {"repo", "commit"} && CommitMatches(commitSha) && Usable(spec, raw) && Score(spec, raw).Some?)
    ensures r.Ok? ==>
              exists text :: DecimalString(Score(spec, raw).value, spec.decimalPlaces) == Ok(text)
                && r.value == Built(spec, Scored(MetricRecords(spec, raw), Score(spec, raw).value), text, repo, mode,
                                    commitSha, computedAt, sha256)
  {
    hide Usable, MetricRecords, NormalisedValues, Quantize, FixedPoint, BaseRecord, PreImage, CommitMatches;
    if mode !in {"repo", "commit"} { return Err(BadMode); }
    if !CommitMatches(commitSha) { return Err(BadCommit); }
    var scored := ScoreMetrics(spec, raw);
    if scored.Err? { return Err(scored.error); }
    ScoreText(spec, raw);
    var text := DecimalString(scored.value.score, spec.decimalPlaces);
    BaseHashable(spec, scored.value, text.value, repo, mode, commitSha, computedAt);
    var record := BaseRecord(spec, scored.value, text.value, repo, mode, commitSha, computedAt);
    var hash := ComputeRecordHash(record, sha256);
    r := Ok(record + [Member("record_hash", JString(hash.value))]);
  }

  /** A quantized score has a text. */
  lemma ScoreText(spec: Spec, raw: map<Metric, RawMetric>)
    requires Loaded(spec) && Usable(spec, raw) && Score(spec, raw).Some?
    ensures DecimalString(Score(spec, raw).value, spec.decimalPlaces).Ok?
    ensures |MetricRecords(spec, raw)| == |METRIC_NAMES|
  {
    hide FixedPoint, HalfEven, Scaleb, PartialScore;
    QuantizeIdempotent(PartialScore(NormalisedValues(spec, raw), Weights(spec)), spec.decimalPlaces);
  }

  // ---------------------------------------------------------------- dictionaries

  lemma {:induction false} LookupIsField(ms: seq<Member>, name: string)
    requires DistinctNames(ms)
    ensures Lookup(ms, name).Some? <==> name in Fields(ms)
    ensures name in Fields(ms) ==> Meaning(Lookup(ms, name).value) == Fields(ms)[name]
    ensures Lookup(ms, name).Some? ==> exists i :: 0 <= i < |ms| && ms[i] == Member(name, Lookup(ms, name).value)
    decreases |ms|
  {
    hide Meaning;
    if ms != [] {
      LookupIsField(ms[1..], name);
      FieldNames(ms[1..], name);
      if ms[0].name == name {
        assert ms[0] == Member(name, Lookup(ms, name).value);
      } else if Lookup(ms, name).Some? {
        var i :| 0 <= i < |ms[1..]| && ms[1..][i] == Member(name, Lookup(ms, name).value);
        assert ms[i + 1] == Member(name, Lookup(ms, name).value);
      }
    }
  }

  /** Hashing does not see the order of a record's fields, nor of any dictionary inside it. */
  lemma HashIgnoresOrder(ms: seq<Member>, ns: seq<Member>)
    requires IsDict(JObject(ms)) && IsDict(JObject(ns)) && Fields(ms) == Fields(ns)
    ensures Hashable(ms) <==> Hashable(ns)
    ensures Hashable(ms) ==> PreImage(ms) == PreImage(ns)
    ensures forall sha256: Sha256 :: Verifies(ms, sha256) <==> Verifies(ns, sha256)
  {
    hide Fields, Lookup, Encode, Jcs, Meaning;
    SameField(ms, ns, "spec_hash"); SameField(ms, ns, "commit_sha"); SameField(ms, ns, "metrics");
    SameField(ms, ns, "tool_digests"); SameField(ms, ns, "record_hash");
  }

  lemma SameField(ms: seq<Member>, ns: seq<Member>, name: string)
    requires IsDict(JObject(ms)) && IsDict(JObject(ns)) && Fields(ms) == Fields(ns)
    ensures Lookup(ms, name).Some? <==> Lookup(ns, name).Some?
    ensures HasText(ms, name) <==> HasText(ns, name)
    ensures HasText(ms, name) ==> Lookup(ms, name) == Lookup(ns, name)
    ensures Lookup(ms, name).Some? ==> Jcs(Lookup(ms, name).value) == Jcs(Lookup(ns, name).value)
  {
    hide Fields, Lookup, Jcs;
    LookupIsField(ms, name); LookupIsField(ns, name);
    if Lookup(ms, name).Some? { CanonicalBytes(Lookup(ms, name).value, Lookup(ns, name).value); }
  }

  // ---------------------------------------------------------------- the pre-image is uniquely decodable

  /** The shape of every record a scoring run builds: a digest, a commit and two dictionaries. */
  ghost predicate Shaped(ms: seq<Member>) {
    && Hashable(ms)
    && IsSha256(Lookup(ms, "spec_hash").value.text) && CommitMatches(Lookup(ms, "commit_sha").value.text)
    && Lookup(ms, "metrics").value.JObject? && IsDict(Lookup(ms, "metrics").value)
    && Lookup(ms, "tool_digests").value.JObject? && IsDict(Lookup(ms, "tool_digests").value)
  }

  ghost predicate SameHashedFields(ms: seq<Member>, ns: seq<Member>)
    requires Hashable(ms) && Hashable(ns)
  {
    && Lookup(ms, "spec_hash") == Lookup(ns, "spec_hash")
    && Lookup(ms, "commit_sha") == Lookup(ns, "commit_sha")
    && Meaning(Lookup(ms, "metrics").value) == Meaning(Lookup(ns, "metrics").value)
    && Meaning(Lookup(ms, "tool_digests").value) == Meaning(Lookup(ns, "tool_digests").value)
  }

  lemma FixedFront(a: string, b: string, x: string, y: string)
    requires a + x == b + y && |a| == |b|
    ensures a == b && x == y
  {
    assert a == (a + x)[..|a|] && b == (b + y)[..|a|] && x == (a + x)[|a|..] && y == (b + y)[|a|..];
  }

  lemma Regroup(s: string, c: string, m: string, t: string)
    ensures s + c + m + t == s + (c + (m + t))
  {
  }

  /** Four texts laid end to end, the second 40 or 41 characters long, can be taken apart again. */
  lemma Split(s: string, c: string, m: Json, t: Json, s': string, c': string, m': Json, t': Json)
    requires |s| == |s'| == 71 && CommitMatches(c) && CommitMatches(c')
    requires m.JObject? && t.JObject? && m'.JObject? && t'.JObject?
    requires s + c + Text(m) + Text(t) == s' + c' + Text(m') + Text(t')
    ensures s == s' && c == c' && m == m' && t == t'
  {
    hide Text, IsHex;
    FirstChar(m); FirstChar(m'); FirstChar(t); FirstChar(t');
    var x, x' := Text(m) + Text(t), Text(m') + Text(t');
    Regroup(s, c, Text(m), Text(t)); Regroup(s', c', Text(m'), Text(t'));
    FixedFront(s, s', c + x, c' + x');
    FortyFirst(c, x); FortyFirst(c', x');
    FixedFront(c, c', x, x');
    TextUnique(m, m', Text(t), Text(t'));
    assert Text(t) + "" == Text(t') + "";
    TextUnique(t, t', "", "");
  }

  /** The character after the commit's digits tells whether a line feed was let through. */
  lemma FortyFirst(c: string, x: string)
    requires CommitMatches(c) && x != "" && x[0] == '{'
    ensures |c + x| > 40 && (|c| == 41 <==> (c + x)[40] == '\n')
  {
    hide IsHex;
  }

  lemma EncodeFour(a: string, b: string, c: string, d: string)
    ensures Encode(a + b + c + d) == Encode(a) + Encode(b) + Encode(c) + Encode(d)
  {
    hide Encode;
    EncodeAppend(a, b); EncodeAppend(a + b, c); EncodeAppend(a + b + c, d);
  }

  /** Equal pre-images mean that all four hashed fields are equal, and conversely. */
  lemma PreImageDecodable(ms: seq<Member>, ns: seq<Member>)
    requires Shaped(ms) && Shaped(ns)
    ensures PreImage(ms) == PreImage(ns) <==> SameHashedFields(ms, ns)
  {
    hide Lookup, Encode, Text, Canon, Meaning, IsHex, IsDict;
    var s, c, m, t := Lookup(ms, "spec_hash").value.text, Lookup(ms, "commit_sha").value.text,
                      Lookup(ms, "metrics").value, Lookup(ms, "tool_digests").value;
    var s', c', m', t' := Lookup(ns, "spec_hash").value.text, Lookup(ns, "commit_sha").value.text,
                          Lookup(ns, "metrics").value, Lookup(ns, "tool_digests").value;
    CanonicalBytes(m, m'); CanonicalBytes(t, t');
    if PreImage(ms) == PreImage(ns) {
      EncodeFour(s, c, Text(Canon(m)), Text(Canon(t))); EncodeFour(s', c', Text(Canon(m')), Text(Canon(t')));
      EncodeInjective(s + c + Text(Canon(m)) + Text(Canon(t)), s' + c' + Text(Canon(m')) + Text(Canon(t')));
      CanonObject(m); CanonObject(t); CanonObject(m'); CanonObject(t');
      Split(s, c, Canon(m), Canon(t), s', c', Canon(m'), Canon(t'));
    }
  }

  lemma CanonObject(j: Json)
    ensures j.JObject? ==> Canon(j).JObject?
  {
  }

  // ---------------------------------------------------------------- records that were built

  lemma MetricNamesDistinct()
    ensures forall i, j :: 0 <= i < j < |METRIC_NAMES| ==> MetricName(METRIC_NAMES[i]) != MetricName(METRIC_NAMES[j])
  {
    var lengths := [10, 9, 13, 15, 11];
    assert forall i :: 0 <= i < 5 ==> |MetricName(METRIC_NAMES[i])| == lengths[i];
    assert forall i, j :: 0 <= i < j < 5 ==> lengths[i] != lengths[j];
  }

  lemma MetricsJsonIsDict(records: seq<MetricRecord>)
    requires |records| == |METRIC_NAMES|
    ensures IsDict(MetricsJson(records))
  {
    MetricNamesDistinct();
    hide METRIC_NAMES, MetricName;
    var ms := MetricsJson(records).members;
    assert |"raw"| == 3 && |"normalised"| == 10;
    forall i | 0 <= i < |ms| ensures IsDict(ms[i].value) {
      var inner := ms[i].value.members;
      assert |inner| == 2 && inner[0].name == "raw" && inner[1].name == "normalised";
      assert inner[0].value.JString? && inner[1].value.JString?;
    }
  }

  /** No name occurs twice, as in any dictionary. */
  ghost predicate NamedOnce(digests: seq<(string, string)>) {
    forall i, j :: 0 <= i < j < |digests| ==> digests[i].0 != digests[j].0
  }

  lemma NamedOnceIsKeys(digests: seq<(string, string)>)
    ensures NamedOnce(digests) <==> DistinctKeys(digests, DigestKey)
  {
    forall i, j | 0 <= i < j < |digests|
      ensures digests[i].0 != digests[j].0 <==> DigestKey(digests[i]) != DigestKey(digests[j])
    {
      SameCodePoints(digests[i].0, digests[j].0);
    }
  }

  lemma SameCodePoints(s: string, t: string)
    ensures CodePoints(s) == CodePoints(t) <==> s == t
  {
    if CodePoints(s) == CodePoints(t) {
      assert |s| == |t|;
      forall i | 0 <= i < |s| ensures s[i] == t[i] { assert CodePoints(s)[i] == CodePoints(t)[i]; }
    }
  }

  lemma DigestsJsonIsDict(digests: seq<(string, string)>)
    requires NamedOnce(digests)
    ensures IsDict(DigestsJson(digests))
  {
    NamedOnceIsKeys(digests);
    SortKeeps(digests, DigestKey);
    hide Sort, DigestKey;
    var sorted := Sort(digests, DigestKey);
    NamedOnceIsKeys(sorted);
    assert NamedOnce(sorted);
  }

  /** The dictionary of these names and digests. */
  ghost function DigestMap(digests: seq<(string, string)>): map<string, Value>
    requires NamedOnce(digests)
  {
    map d | d in digests :: d.0 := VString(d.1)
  }

  lemma DigestMapAt(digests: seq<(string, string)>, i: int)
    requires NamedOnce(digests) && 0 <= i < |digests|
    ensures digests[i].0 in DigestMap(digests) && DigestMap(digests)[digests[i].0] == VString(digests[i].1)
  {
    assert digests[i] in digests;
  }

  lemma DigestMapNames(digests: seq<(string, string)>, name: string) returns (i: int)
    requires NamedOnce(digests) && name in DigestMap(digests)
    ensures 0 <= i < |digests| && digests[i].0 == name
  {
    var d :| d in digests && d.0 == name;
    i :| 0 <= i < |digests| && digests[i] == d;
  }

  lemma DigestMember(digests: seq<(string, string)>, k: int) returns (i: int)
    requires NamedOnce(digests) && 0 <= k < |digests|
    ensures var ms := DigestsJson(digests).members;
            0 <= i < |ms| && ms[i] == Member(digests[k].0, JString(digests[k].1))
  {
    hide DigestKey, Sort;
    SortMembers(digests, DigestKey);
    assert digests[k] in multiset(Sort(digests, DigestKey));
    i :| 0 <= i < |Sort(digests, DigestKey)| && Sort(digests, DigestKey)[i] == digests[k];
  }

  lemma MemberDigest(digests: seq<(string, string)>, i: int) returns (k: int)
    requires NamedOnce(digests) && 0 <= i < |DigestsJson(digests).members|
    ensures 0 <= k < |digests| && DigestsJson(digests).members[i].name == digests[k].0
  {
    hide DigestKey, Sort;
    SortMembers(digests, DigestKey);
    assert Sort(digests, DigestKey)[i] in multiset(digests);
    k :| 0 <= k < |digests| && digests[k] == Sort(digests, DigestKey)[i];
  }

  /** Each tool's name has that tool's digest, and nothing else is recorded. */
  lemma DigestFields(digests: seq<(string, string)>)
    requires NamedOnce(digests)
    ensures Meaning(DigestsJson(digests)) == VObject(DigestMap(digests))
  {
    DigestsJsonIsDict(digests);
    DigestsObject(digests);
    var j := DigestsJson(digests);
    var ms := j.members;
    assert Meaning(j) == VObject(Fields(ms)) && DistinctNames(ms);
    forall s ensures Meaning(JString(s)) == VString(s) { }
    hide DigestsJson, DigestMap, DistinctNames, NamedOnce, Fields, Meaning;
    forall name ensures name in Fields(ms) <==> name in DigestMap(digests) {
      FieldNames(ms, name);
      if name in DigestMap(digests) {
        var k := DigestMapNames(digests, name);
        var i := DigestMember(digests, k);
        assert ms[i].name == name;
      }
      if i :| 0 <= i < |ms| && ms[i].name == name {
        var k := MemberDigest(digests, i);
        DigestMapAt(digests, k);
      }
    }
    forall name | name in DigestMap(digests) ensures name in Fields(ms) && Fields(ms)[name] ==
      DigestMap(digests)[name] {
      var k := DigestMapNames(digests, name);
      var i := DigestMember(digests, k);
      DigestMapAt(digests, k);
      FieldAt(ms, i);
    }
  }

  lemma InDigests(a: seq<(string, string)>, b: seq<(string, string)>, d: (string, string))
    requires NamedOnce(a) && NamedOnce(b) && DigestMap(a) == DigestMap(b) && d in a
    ensures d in b
  {
    hide DigestMap, NamedOnce;
    var i :| 0 <= i < |a| && a[i] == d;
    DigestMapAt(a, i);
    var k := DigestMapNames(b, d.0);
    DigestMapAt(b, k);
    assert b[k] == d;
  }

  lemma SameDigests(a: seq<(string, string)>, b: seq<(string, string)>)
    requires NamedOnce(a) && NamedOnce(b)
    ensures DigestMap(a) == DigestMap(b) <==> multiset(a) == multiset(b)
  {
    if multiset(a) == multiset(b) { SameEntries(a, b); }
    if DigestMap(a) == DigestMap(b) {
      NamedOnceIsKeys(a); NamedOnceIsKeys(b);
      hide *;
      forall d ensures d in a <==> d in b {
        if d in a { InDigests(a, b, d); }
        if d in b { InDigests(b, a, d); }
      }
      SameElements(a, b, DigestKey);
    }
  }

  lemma SameEntries(a: seq<(string, string)>, b: seq<(string, string)>)
    requires NamedOnce(a) && NamedOnce(b) && multiset(a) == multiset(b)
    ensures DigestMap(a) == DigestMap(b)
  {
    hide DigestMap, NamedOnce;
    forall name | name in DigestMap(a) ensures name in DigestMap(b) && DigestMap(a)[name] == DigestMap(b)[name] {
      SameEntry(a, b, name);
    }
    forall name | name in DigestMap(b) ensures name in DigestMap(a) { SameEntry(b, a, name); }
  }

  lemma SameEntry(a: seq<(string, string)>, b: seq<(string, string)>, name: string)
    requires NamedOnce(a) && NamedOnce(b) && multiset(a) == multiset(b) && name in DigestMap(a)
    ensures name in DigestMap(b) && DigestMap(a)[name] == DigestMap(b)[name]
  {
    hide DigestMap, NamedOnce;
    var i := DigestMapNames(a, name);
    assert a[i] in multiset(b);
    var k :| 0 <= k < |b| && b[k] == a[i];
    DigestMapAt(a, i);
    DigestMapAt(b, k);
  }

  /** A spec as it is loaded: its hash is a digest, its tool digests form a dictionary. */
  ghost predicate Pinned(spec: Spec) {
    IsSha256(spec.specHash) && NamedOnce(spec.toolDigests)
  }

  /** Every record that is built has the shape, its own hash verifies, and what it hashes is the
      spec's hash, the commit, the metric texts and the tool digests, whatever the other fields say. */
  lemma BuiltVerifies(spec: Spec, scored: Scored, score: string, repo: string, mode: string, commitSha: string,
                      computedAt: string, sha256: Sha256)
    requires Pinned(spec) && CommitMatches(commitSha) && |scored.metrics| == |METRIC_NAMES|
    ensures var record := Built(spec, scored, score, repo, mode, commitSha, computedAt, sha256);
            && Shaped(record) && Verifies(record, sha256) && IsDict(JObject(record))
            && Lookup(record, "spec_hash") == Some(JString(spec.specHash))
            && Lookup(record, "commit_sha") == Some(JString(commitSha))
            && Lookup(record, "metrics") == Some(MetricsJson(scored.metrics))
            && Lookup(record, "tool_digests") == Some(DigestsJson(spec.toolDigests))
            && Meaning(MetricsJson(scored.metrics)) == VObject(MetricMap(scored.metrics))
            && Meaning(DigestsJson(spec.toolDigests)) == VObject(DigestMap(spec.toolDigests))
  {
    MetricFields(scored.metrics); DigestFields(spec.toolDigests);
    hide MetricsJson, DigestsJson, MetricMap, DigestMap, IsHex, Encode, Jcs, NamedOnce, BaseRecord, METRIC_NAMES;
    var base := BaseRecord(spec, scored, score, repo, mode, commitSha, computedAt);
    BaseHashable(spec, scored, score, repo, mode, commitSha, computedAt);
    var last := Member("record_hash", JString("sha256:" + sha256(PreImage(base))));
    LookupExtended(base, last, "spec_hash"); LookupExtended(base, last, "commit_sha");
    LookupExtended(base, last, "metrics"); LookupExtended(base, last, "tool_digests");
    LookupExtended(base, last, "record_hash");
    MetricsJsonIsDict(scored.metrics); DigestsJsonIsDict(spec.toolDigests);
    BuiltIsDict(spec, scored, score, repo, mode, commitSha, computedAt, last);
    MetricsObject(scored.metrics); DigestsObject(spec.toolDigests);
  }

  lemma DigestsObject(digests: seq<(string, string)>)
    ensures DigestsJson(digests).JObject?
  {
  }

  lemma MetricsObject(records: seq<MetricRecord>)
    requires |records| == |METRIC_NAMES|
    ensures MetricsJson(records).JObject?
  {
  }

  lemma {:induction false} LookupExtended(ms: seq<Member>, m: Member, name: string)
    ensures Lookup(ms + [m], name) ==
            if Lookup(ms, name).Some? then Lookup(ms, name) else if m.name == name then Some(m.value) else None
    decreases |ms|
  {
    if ms == [] {
      assert ms + [m] == [m];
    } else {
      LookupExtended(ms[1..], m, name);
      assert (ms + [m])[1..] == ms[1..] + [m];
    }
  }

  lemma BuiltIsDict(spec: Spec, scored: Scored, score: string, repo: string, mode: string, commitSha: string,
                    computedAt: string, last: Member)
    requires |scored.metrics| == |METRIC_NAMES| && NamedOnce(spec.toolDigests)
    requires last.name == "record_hash" && last.value.JString?
    ensures IsDict(JObject(BaseRecord(spec, scored, score, repo, mode, commitSha, computedAt) + [last]))
  {
    hide MetricsJson, DigestsJson, Lookup, FIELDS;
    var base := BaseRecord(spec, scored, score, repo, mode, commitSha, computedAt);
    BaseNames(spec, scored, score, repo, mode, commitSha, computedAt);
    FieldsDistinct(); LastField();
    MetricsJsonIsDict(scored.metrics); DigestsJsonIsDict(spec.toolDigests);
    var whole := base + [last];
    forall i | 0 <= i < 13 ensures whole[i].name == FIELDS[i] { }
    forall i | 0 <= i < |whole| ensures IsDict(whole[i].value) { }
  }

  lemma LastField()
    ensures |FIELDS| == 13 && FIELDS[12] == "record_hash"
  {
  }

  /** The metric texts can be read back from the hashed dictionary. */
  lemma MetricsReadBack(records: seq<MetricRecord>, records': seq<MetricRecord>)
    requires |records| == |records'| == |METRIC_NAMES|
    requires Meaning(MetricsJson(records)) == Meaning(MetricsJson(records'))
    ensures records == records'
  {
    MetricsJsonIsDict(records); MetricsJsonIsDict(records');
    hide METRIC_NAMES, MetricName, Fields;
    var ms, ms' := MetricsJson(records).members, MetricsJson(records').members;
    forall i | 0 <= i < |records| ensures records[i] == records'[i] {
      FieldAt(ms, i); FieldAt(ms', i);
      OneMetric(records[i], records'[i]);
    }
  }

  lemma OneMetric(a: MetricRecord, b: MetricRecord)
    requires Meaning(JObject([Member("raw", JString(a.raw)), Member("normalised", JString(a.normalised))]))
          == Meaning(JObject([Member("raw", JString(b.raw)), Member("normalised", JString(b.normalised))]))
    ensures a == b
  {
    hide Fields;
    var ms, ns := [Member("raw", JString(a.raw)), Member("normalised", JString(a.normalised))],
                  [Member("raw", JString(b.raw)), Member("normalised", JString(b.normalised))];
    assert |"raw"| == 3 && |"normalised"| == 10;
    FieldAt(ms, 0); FieldAt(ms, 1); FieldAt(ns, 0); FieldAt(ns, 1);
  }

  predicate HasField(ms: seq<Member>, name: string, value: Value) {
    name in Fields(ms) && Fields(ms)[name] == value
  }

  lemma OriginFields(spec: Spec, scored: Scored, score: string, repo: string, mode: string, commitSha: string,
                   computedAt: string, sha256: Sha256)
    requires Pinned(spec) && CommitMatches(commitSha) && |scored.metrics| == |METRIC_NAMES|
    ensures var record := Built(spec, scored, score, repo, mode, commitSha, computedAt, sha256);
            && HasField(record, "poc", VBool(true)) && HasField(record, "vcs", VString("git"))
            && HasField(record, "spec_version", VString(spec.specVersion))
            && HasField(record, "spec_hash", VString(spec.specHash))
            && HasField(record, "mode", VString(mode)) && HasField(record, "repo", VString(repo))
  {
    FieldsOfBase(spec, scored, score, repo, mode, commitSha, computedAt, sha256);
    hide Built, MetricsJson, DigestsJson, METRIC_NAMES, Pinned, CommitMatches, HasField, Fields;
    var base := BaseRecord(spec, scored, score, repo, mode, commitSha, computedAt);
    assert base[0] == Member("poc", JBool(true)) && base[1] == Member("spec_version", JString(spec.specVersion));
    assert base[2] == Member("spec_hash", JString(spec.specHash)) && base[3] == Member("mode", JString(mode));
    assert base[4] == Member("vcs", JString("git")) && base[5] == Member("repo", JString(repo));
  }

  lemma ResultFields(spec: Spec, scored: Scored, score: string, repo: string, mode: string, commitSha: string,
                 computedAt: string, sha256: Sha256)
    requires Pinned(spec) && CommitMatches(commitSha) && |scored.metrics| == |METRIC_NAMES|
    ensures var record := Built(spec, scored, score, repo, mode, commitSha, computedAt, sha256);
            && HasField(record, "commit_sha", VString(commitSha))
            && HasField(record, "computed_at", VString(computedAt))
            && HasField(record, "tool_digests", Meaning(DigestsJson(spec.toolDigests)))
            && HasField(record, "metrics", Meaning(MetricsJson(scored.metrics)))
            && HasField(record, "score", VString(score))
            && HasField(record, "score_decimal_places", VInt(spec.decimalPlaces))
  {
    FieldsOfBase(spec, scored, score, repo, mode, commitSha, computedAt, sha256);
    hide Built, MetricsJson, DigestsJson, METRIC_NAMES, Pinned, CommitMatches, HasField, Fields;
    var base := BaseRecord(spec, scored, score, repo, mode, commitSha, computedAt);
    assert base[6] == Member("commit_sha", JString(commitSha)) && base[7] == Member("computed_at", JString(computedAt));
    assert base[8].name == "tool_digests" && base[9].name == "metrics";
    assert base[10] == Member("score", JString(score));
    assert base[11] == Member("score_decimal_places", JInt(spec.decimalPlaces));
  }

  lemma PinnedDigests(spec: Spec)
    ensures Pinned(spec) ==> NamedOnce(spec.toolDigests)
  {
  }

  /** Each field of a built record, as any reader of the record finds it. */
  lemma RecordFields(spec: Spec, scored: Scored, score: string, repo: string, mode: string, commitSha: string,
                     computedAt: string, sha256: Sha256)
    requires Pinned(spec) && CommitMatches(commitSha) && |scored.metrics| == |METRIC_NAMES|
    ensures var record := Built(spec, scored, score, repo, mode, commitSha, computedAt, sha256);
            && HasField(record, "poc", VBool(true)) && HasField(record, "vcs", VString("git"))
            && HasField(record, "spec_version", VString(spec.specVersion))
            && HasField(record, "spec_hash", VString(spec.specHash))
            && HasField(record, "mode", VString(mode)) && HasField(record, "repo", VString(repo))
            && HasField(record, "commit_sha", VString(commitSha))
            && HasField(record, "computed_at", VString(computedAt))
            && HasField(record, "tool_digests", VObject(DigestMap(spec.toolDigests)))
            && HasField(record, "metrics", VObject(MetricMap(scored.metrics)))
            && HasField(record, "score", VString(score))
            && HasField(record, "score_decimal_places", VInt(spec.decimalPlaces))
            && Hashable(record) && HasField(record, "record_hash", VString("sha256:" + sha256(PreImage(record))))
            && |record| == 13
  {
    PinnedDigests(spec);
    hide *;
    DigestFields(spec.toolDigests);
    MetricFields(scored.metrics);
    OriginFields(spec, scored, score, repo, mode, commitSha, computedAt, sha256);
    ResultFields(spec, scored, score, repo, mode, commitSha, computedAt, sha256);
    OwnHash(spec, scored, score, repo, mode, commitSha, computedAt, sha256);
  }

  lemma OwnHash(spec: Spec, scored: Scored, score: string, repo: string, mode: string, commitSha: string,
                computedAt: string, sha256: Sha256)
    requires Pinned(spec) && CommitMatches(commitSha) && |scored.metrics| == |METRIC_NAMES|
    ensures var record := Built(spec, scored, score, repo, mode, commitSha, computedAt, sha256);
            && Hashable(record) && HasField(record, "record_hash", VString("sha256:" + sha256(PreImage(record))))
            && |record| == 13
  {
    BuiltVerifies(spec, scored, score, repo, mode, commitSha, computedAt, sha256);
    BuiltNamesDistinct(spec, scored, score, repo, mode, commitSha, computedAt, sha256);
    BaseNames(spec, scored, score, repo, mode, commitSha, computedAt);
    BuiltLast(spec, scored, score, repo, mode, commitSha, computedAt, sha256);
    hide Built, BaseRecord, Lookup, PreImage, Hashable, Fields, METRIC_NAMES, Pinned, CommitMatches, Shaped, IsDict,
      DistinctNames;
    var record := Built(spec, scored, score, repo, mode, commitSha, computedAt, sha256);
    LookupIsField(record, "record_hash");
  }

  lemma BuiltLast(spec: Spec, scored: Scored, score: string, repo: string, mode: string, commitSha: string,
                  computedAt: string, sha256: Sha256)
    requires |scored.metrics| == |METRIC_NAMES|
    ensures var record := Built(spec, scored, score, repo, mode, commitSha, computedAt, sha256);
            |record| == |BaseRecord(spec, scored, score, repo, mode, commitSha, computedAt)| + 1
  {
    hide BaseRecord, PreImage, METRIC_NAMES;
  }

  lemma FieldsOfBase(spec: Spec, scored: Scored, score: string, repo: string, mode: string, commitSha: string,
                     computedAt: string, sha256: Sha256)
    requires Pinned(spec) && CommitMatches(commitSha) && |scored.metrics| == |METRIC_NAMES|
    ensures var base := BaseRecord(spec, scored, score, repo, mode, commitSha, computedAt);
            var record := Built(spec, scored, score, repo, mode, commitSha, computedAt, sha256);
            |base| == 12 && forall i :: 0 <= i < 12 ==> HasField(record, base[i].name, Meaning(base[i].value))
  {
    BuiltNamesDistinct(spec, scored, score, repo, mode, commitSha, computedAt, sha256);
    BuiltStartsWithBase(spec, scored, score, repo, mode, commitSha, computedAt, sha256);
    BaseNames(spec, scored, score, repo, mode, commitSha, computedAt);
    hide Built, BaseRecord, METRIC_NAMES, Pinned, CommitMatches, DistinctNames, Meaning, Fields, FIELDS;
    var base := BaseRecord(spec, scored, score, repo, mode, commitSha, computedAt);
    var record := Built(spec, scored, score, repo, mode, commitSha, computedAt, sha256);
    forall i | 0 <= i < 12 ensures HasField(record, base[i].name, Meaning(base[i].value)) {
      FieldAt(record, i);
      assert record[i] == base[i];
    }
  }

  lemma BuiltStartsWithBase(spec: Spec, scored: Scored, score: string, repo: string, mode: string, commitSha: string,
                            computedAt: string, sha256: Sha256)
    requires |scored.metrics| == |METRIC_NAMES|
    ensures BaseRecord(spec, scored, score, repo, mode, commitSha, computedAt)
         <= Built(spec, scored, score, repo, mode, commitSha, computedAt, sha256)
  {
    hide BaseRecord, PreImage, METRIC_NAMES;
  }

  lemma BuiltNamesDistinct(spec: Spec, scored: Scored, score: string, repo: string, mode: string, commitSha: string,
                           computedAt: string, sha256: Sha256)
    requires Pinned(spec) && CommitMatches(commitSha) && |scored.metrics| == |METRIC_NAMES|
    ensures DistinctNames(Built(spec, scored, score, repo, mode, commitSha, computedAt, sha256))
  {
    BuiltVerifies(spec, scored, score, repo, mode, commitSha, computedAt, sha256);
    hide Built, Verifies, Shaped, Lookup, DistinctNames;
  }

  /** A metric's two texts under their names. */
  function Texts(r: MetricRecord): Value {
    VObject(map["raw" := VString(r.raw), "normalised" := VString(r.normalised)])
  }

  /** The metrics' dictionary: each metric's texts under its name. */
  function MetricMap(records: seq<MetricRecord>): map<string, Value>
    requires |records| == 5
  {
    map["cyclomatic" := Texts(records[0]), "cognitive" := Texts(records[1]), "nesting_depth" := Texts(records[2]),
        "function_length" := Texts(records[3]), "file_length" := Texts(records[4])]
  }

  lemma MetricMapAt(records: seq<MetricRecord>)
    requires |records| == 5
    ensures var m := MetricMap(records);
            && m.Keys == {"cyclomatic", "cognitive", "nesting_depth", "function_length", "file_length"}
            && m["cyclomatic"] == Texts(records[0]) && m["cognitive"] == Texts(records[1])
            && m["nesting_depth"] == Texts(records[2]) && m["function_length"] == Texts(records[3])
            && m["file_length"] == Texts(records[4])
  {
    hide Texts;
    assert |"cyclomatic"| == 10 && |"cognitive"| == 9 && |"nesting_depth"| == 13;
    assert |"function_length"| == 15 && |"file_length"| == 11;
  }

  lemma MetricMembers(records: seq<MetricRecord>)
    requires |records| == |METRIC_NAMES|
    ensures var ms := MetricsJson(records).members;
            && |ms| == |records| == 5
            && ms[0].name == "cyclomatic" && ms[1].name == "cognitive" && ms[2].name == "nesting_depth"
            && ms[3].name == "function_length" && ms[4].name == "file_length"
            && forall i :: 0 <= i < 5 ==> Meaning(ms[i].value) == Texts(records[i])
  {
    hide Fields;
    forall i | 0 <= i < 5 ensures Meaning(MetricsJson(records).members[i].value) == Texts(records[i]) {
      OneMetricFields(records[i]);
    }
  }

  /** The recorded metrics are these. */
  lemma MetricFields(records: seq<MetricRecord>)
    requires |records| == |METRIC_NAMES|
    ensures |records| == 5 && Meaning(MetricsJson(records)) == VObject(MetricMap(records))
  {
    MetricsJsonIsDict(records);
    MetricMembers(records);
    MetricMapAt(records);
    var j := MetricsJson(records);
    assert Meaning(j) == VObject(Fields(j.members));
    hide Fields, Meaning, MetricsJson, MetricMap, Texts;
    var ms := j.members;
    forall i | 0 <= i < 5 ensures ms[i].name in Fields(ms) && Fields(ms)[ms[i].name] == Texts(records[i]) {
      FieldAt(ms, i);
    }
    forall name ensures name in Fields(ms) <==> name in MetricMap(records).Keys { FieldNames(ms, name); }
  }

  lemma OneMetricFields(r: MetricRecord)
    ensures Fields([Member("raw", JString(r.raw)), Member("normalised", JString(r.normalised))]) ==
            map["raw" := VString(r.raw), "normalised" := VString(r.normalised)]
  {
    var ms := [Member("raw", JString(r.raw)), Member("normalised", JString(r.normalised))];
    assert |"raw"| == 3 && |"normalised"| == 10;
    assert ms[1..] == [ms[1]] && [ms[1]][1..] == [];
    assert Fields([ms[1]]) == map["normalised" := VString(r.normalised)];
  }

  /** Two records have the same pre-image exactly when they agree on the spec, the commit, every metric
      text and the tool digests; so with the same hash they do, unless SHA-256 collides on the two. */
  lemma HashPinsRecord(spec: Spec, scored: Scored, score: string, repo: string, mode: string, commitSha: string,
                       computedAt: string, spec': Spec, scored': Scored, score': string, repo': string,
                       mode': string, commitSha': string, computedAt': string, sha256: Sha256)
    requires Pinned(spec) && Pinned(spec') && CommitMatches(commitSha) && CommitMatches(commitSha')
    requires |scored.metrics| == |scored'.metrics| == |METRIC_NAMES|
    ensures var record := Built(spec, scored, score, repo, mode, commitSha, computedAt, sha256);
            var record' := Built(spec', scored', score', repo', mode', commitSha', computedAt', sha256);
            && Hashable(record) && Hashable(record')
            && (PreImage(record) == PreImage(record') <==>
                spec.specHash == spec'.specHash && commitSha == commitSha' && scored.metrics == scored'.metrics
                && multiset(spec.toolDigests) == multiset(spec'.toolDigests))
  {
    PinnedDigests(spec); PinnedDigests(spec');
    hide MetricsJson, DigestsJson, DigestMap, NamedOnce, IsSha256, CommitMatches, Meaning, PreImage, Built, Lookup,
      IsDict,
      METRIC_NAMES;
    DigestFields(spec.toolDigests); DigestFields(spec'.toolDigests);
    SameDigests(spec.toolDigests, spec'.toolDigests);
    BuiltVerifies(spec, scored, score, repo, mode, commitSha, computedAt, sha256);
    BuiltVerifies(spec', scored', score', repo', mode', commitSha', computedAt', sha256);
    PreImageDecodable(Built(spec, scored, score, repo, mode, commitSha, computedAt, sha256),
                      Built(spec', scored', score', repo', mode', commitSha', computedAt', sha256));
    if Meaning(MetricsJson(scored.metrics)) == Meaning(MetricsJson(scored'.metrics)) {
      MetricsReadBack(scored.metrics, scored'.metrics);
    }
  }
}
