/** Writing the outputs of a run, at every point where it may be cut short, and verifying a sidecar. */
module Outputs {
  import opened Wrappers
  import opened Hex
  import opened Utf8
  import opened Json
  import opened JsonMeaning
  import opened RecordHash
  import opened Scoring
  import opened ScoringSpec
  import opened Sidecars

  type Bytes = seq<Byte>

  /** The files of the output directory, by name. */
  type Files = map<string, Bytes>

  /** How a write goes: it ends, it fails before the file is touched, or after some of the bytes. */
  datatype WriteFault = Done | OpenFails | FailsAfter(bytes: nat)

  datatype Faults = Faults(write: WriteFault, replaceFails: bool, unlinkFails: bool)

  /** A state passed through while a file is being written: some of its bytes are there. */
  predicate IsPartial(before: Files, now: Files, name: string, data: Bytes) {
    name in now && now[name] <= data && now == before[name := now[name]]
  }

  class Disk {
    var files: Files
    /** Every state the directory has been in; a crash finds it in one of these. */
    ghost var seen: seq<Files>

    constructor (files: Files)
      ensures this.files == files && seen == [files]
    {
      this.files, seen := files, [files];
    }

    ghost predicate Valid()
      reads this
    {
      seen != [] && seen[|seen| - 1] == files
    }

    /** Not atomic: the file is emptied, and then its bytes arrive. */
    method WriteBytes(name: string, data: Bytes, fault: WriteFault) returns (ok: bool)
      requires Valid()
      modifies this
      ensures Valid() && old(seen) <= seen && ok == fault.Done?
      ensures ok ==> files == old(files)[name := data]
      ensures files == old(files) || IsPartial(old(files), files, name, data)
      ensures forall i :: |old(seen)| <= i < |seen| ==> IsPartial(old(files), seen[i], name, data)
    {
      if fault.OpenFails? { return false; }
      var n := if fault.FailsAfter? && fault.bytes < |data| then fault.bytes else |data|;
      files := files[name := []];
      seen := seen + [files];
      for i := 0 to n
        invariant Valid() && old(seen) <= seen
        invariant files == old(files)[name := data[..i]]
        invariant forall j :: |old(seen)| <= j < |seen| ==> IsPartial(old(files), seen[j], name, data)
      {
        files := files[name := data[..i + 1]];
        seen := seen + [files];
      }
      assert data[..|data|] == data;
      return fault.Done?;
    }

    /** Atomic: the name goes from one content to the other. */
    method Replace(source: string, target: string, fails: bool) returns (ok: bool)
      requires Valid() && source in files && source != target
      modifies this
      ensures Valid() && ok == !fails
      ensures ok ==> files == (old(files) - {source})[target := old(files)[source]] && seen == old(seen) + [files]
      ensures !ok ==> files == old(files) && seen == old(seen)
    {
      if fails { return false; }
      files := (files - {source})[target := files[source]];
      seen := seen + [files];
      return true;
    }

    method Unlink(name: string, fails: bool)
      requires Valid()
      modifies this
      ensures Valid()
      ensures if fails then files == old(files) && seen == old(seen)
              else files == old(files) - {name} && seen == old(seen) + [files]
    {
      if fails { return; }
      files := files - {name};
      seen := seen + [files];
    }

    /** Through a temporary file.  Seen without that file, the directory goes from its old contents to
        the new in one step, and has done so exactly when true is returned. */
    method AtomicWrite(path: string, data: Bytes, f: Faults) returns (ok: bool)
      requires Valid()
      modifies this
      ensures Valid() && old(seen) <= seen && ok == (f.write.Done? && !f.replaceFails)
      ensures ok ==> files == (old(files) - {TmpName(path)})[path := data]
      ensures !ok ==> files - {TmpName(path)} == old(files) - {TmpName(path)}
      ensures forall i :: |old(seen)| <= i < |seen| ==>
                Moved(old(files), seen[i], TmpName(path), path, data)
    {
      hide TmpName;
      TmpIsAppended(path);
      var tmp := TmpName(path);
      ok := WriteBytes(tmp, data, f.write);
      assert forall i :: |old(seen)| <= i < |seen| ==> Moved(old(files), seen[i], tmp, path, data);
      if ok {
        ok := Replace(tmp, path, f.replaceFails);
      }
      if !ok {
        Unlink(tmp, f.unlinkFails);
      }
    }
  }

  /** But for the temporary file, nothing has changed, or the one file has its new content. */
  predicate Moved(before: Files, now: Files, tmp: string, path: string, data: Bytes) {
    now - {tmp} == before - {tmp} || now - {tmp} == (before - {tmp})[path := data]
  }

  // ---------------------------------------------------------------- the three files of a run

  datatype File = File(name: string, data: Bytes)

  /** The record, the raw measurements, and last the sidecar with the record's digest. */
  function Outputs(hash: string, recordBytes: Bytes, raw: Bytes, sha256: Sha256): (outs: seq<File>)
    ensures |outs| == 3
  {
    [File(hash + ".json", recordBytes), File(hash + ".raw.json", raw),
     File(hash + ".sha256", Encode(SidecarText(sha256(recordBytes), hash + ".json")))]
  }

  /** The directory with the first p of the files in place. */
  function Installed(before: Files, outs: seq<File>, p: nat): Files
    requires p <= |outs|
  {
    if p == 0 then before else Installed(before, outs, p - 1)[outs[p - 1].name := outs[p - 1].data]
  }

  function Temps(outs: seq<File>): (temps: set<string>)
    ensures forall i :: 0 <= i < |outs| ==> TmpName(outs[i].name) in temps
  {
    set i | 0 <= i < |outs| :: TmpName(outs[i].name)
  }

  /** The files have names of their own, and none is a temporary one. */
  ghost predicate Apart(outs: seq<File>) {
    && (forall i, j :: 0 <= i < j < |outs| ==> outs[i].name != outs[j].name)
    && (forall i :: 0 <= i < |outs| ==> outs[i].name !in Temps(outs))
  }

  /** But for temporary files, the first p of the new files are in place and all else is as it was. */
  predicate IsStage(before: Files, now: Files, outs: seq<File>, p: nat)
    requires p <= |outs|
  {
    now - Temps(outs) == Installed(before, outs, p) - Temps(outs)
  }

  ghost predicate AtSomeStage(before: Files, now: Files, outs: seq<File>, most: nat)
    requires most <= |outs|
  {
    exists p: nat :: p <= most && IsStage(before, now, outs, p)
  }

  lemma OutputsApart(hash: string, recordBytes: Bytes, raw: Bytes, sha256: Sha256)
    ensures Apart(Outputs(hash, recordBytes, raw, sha256))
  {
    var outs := Outputs(hash, recordBytes, raw, sha256);
    hide TmpName, Encode, SidecarText;
    forall i | 0 <= i < 3 ensures TmpName(outs[i].name) == outs[i].name + ".tmp" { TmpIsAppended(outs[i].name); }
    var a, b, c := outs[0].name, outs[1].name, outs[2].name;
    assert |a| == |hash| + 5 && |b| == |hash| + 9 && |c| == |hash| + 7;
    assert b[|hash| + 1] == 'r' && (a + ".tmp")[|hash| + 1] == 'j';
    assert forall t :: t in Temps(outs) ==> t == a + ".tmp" || t == b + ".tmp" || t == c + ".tmp";
  }

  /** One atomic write takes the directory from a stage to the next. */
  lemma StageMoves(before: Files, base: Files, now: Files, outs: seq<File>, p: nat)
    requires p < |outs| && Apart(outs) && IsStage(before, base, outs, p)
    requires Moved(base, now, TmpName(outs[p].name), outs[p].name, outs[p].data)
    ensures IsStage(before, now, outs, p) || IsStage(before, now, outs, p + 1)
  {
    hide TmpName;
    var tmp, temps := TmpName(outs[p].name), Temps(outs);
    assert now - temps == (now - {tmp}) - temps && base - temps == (base - {tmp}) - temps;
    if now - {tmp} != base - {tmp} {
      var name, data := outs[p].name, outs[p].data;
      assert ((base - {tmp})[name := data]) - temps == ((base - {tmp}) - temps)[name := data];
      assert (Installed(before, outs, p)[name := data]) - temps == (Installed(before, outs, p) - temps)[name := data];
    }
  }

  /** Whatever fails and wherever it stops, every state passed through is a stage, and the last one
      is the complete one exactly when true is returned. */
  method WriteOutputs(disk: Disk, record: seq<Member>, raw: Bytes, sha256: Sha256, faults: seq<Faults>)
    returns (ok: bool)
    requires disk.Valid() && HasText(record, "record_hash") && |faults| == 3
    modifies disk
    ensures disk.Valid() && old(disk.seen) <= disk.seen
    ensures ok <==> forall i :: 0 <= i < 3 ==> faults[i].write.Done? && !faults[i].replaceFails
    ensures ok ==> Complete(disk.files, Lookup(record, "record_hash").value.text, Jcs(JObject(record)), raw, sha256)
    ensures var outs := Outputs(Lookup(record, "record_hash").value.text, Jcs(JObject(record)), raw, sha256);
            && (forall i :: |old(disk.seen)| <= i < |disk.seen| ==> AtSomeStage(old(disk.files), disk.seen[i], outs, 3))
            && (if ok then IsStage(old(disk.files), disk.files, outs, 3) && LeftOver(disk.files, outs) == {}
                else AtSomeStage(old(disk.files), disk.files, outs, 2))
  {
    hide Lookup, Jcs, Encode, SidecarText, TmpName, Moved, IsStage, Temps, Apart, LeftOver, Complete;
    var hash := Lookup(record, "record_hash").value.text;
    var recordBytes := Jcs(JObject(record));
    var digest := sha256(recordBytes);
    var sidecarText := SidecarText(digest, hash + ".json");
    ghost var outs, before := Outputs(hash, recordBytes, raw, sha256), disk.files;
    OutputsApart(hash, recordBytes, raw, sha256);
    StartStage(before, outs);
    ok := Next(disk, hash + ".json", recordBytes, faults[0], before, outs, 0);
    if !ok { return; }
    ok := Next(disk, hash + ".raw.json", raw, faults[1], before, outs, 1);
    if !ok { return; }
    ok := Next(disk, hash + ".sha256", Encode(sidecarText), faults[2], before, outs, 2);
    LeftOverIsTemp(before, outs);
    if ok { LastStageComplete(before, disk.files, hash, recordBytes, raw, sha256); }
  }

  /** The record, the raw measurements and the record's digest, each in the file meant for it. */
  ghost predicate Complete(files: Files, hash: string, recordBytes: Bytes, raw: Bytes, sha256: Sha256) {
    && hash + ".json" in files && files[hash + ".json"] == recordBytes
    && hash + ".raw.json" in files && files[hash + ".raw.json"] == raw
    && hash + ".sha256" in files
    && files[hash + ".sha256"] == Encode(sha256(recordBytes) + "  " + (hash + ".json") + "\n")
  }

  lemma LastStageComplete(before: Files, now: Files, hash: string, recordBytes: Bytes, raw: Bytes, sha256: Sha256)
    requires IsStage(before, now, Outputs(hash, recordBytes, raw, sha256), 3)
    ensures Complete(now, hash, recordBytes, raw, sha256)
  {
    hide IsStage, Encode, Apart, Temps, Installed, SameAt;
    var outs := Outputs(hash, recordBytes, raw, sha256);
    OutputsApart(hash, recordBytes, raw, sha256);
    StageFile(before, now, outs, 3, 0); StageFile(before, now, outs, 3, 1); StageFile(before, now, outs, 3, 2);
  }

  lemma StartStage(before: Files, outs: seq<File>)
    ensures IsStage(before, before, outs, 0)
  {
  }

  function LeftOver(now: Files, outs: seq<File>): set<string> {
    now.Keys * Temps(outs)
  }

  lemma LeftOverIsTemp(now: Files, outs: seq<File>)
    requires |outs| == 3
    ensures LeftOver(now, outs) <= {TmpName(outs[0].name), TmpName(outs[1].name), TmpName(outs[2].name)}
  {
  }

  /** The next of the files. */
  method Next(disk: Disk, name: string, data: Bytes, f: Faults, ghost before: Files, ghost outs: seq<File>,
              ghost p: nat)
    returns (ok: bool)
    requires disk.Valid() && p < |outs| && outs[p] == File(name, data) && Apart(outs)
    requires IsStage(before, disk.files, outs, p)
    modifies disk
    ensures disk.Valid() && old(disk.seen) <= disk.seen && ok == (f.write.Done? && !f.replaceFails)
    ensures IsStage(before, disk.files, outs, if ok then p + 1 else p)
    ensures ok ==> LeftOver(disk.files, outs) <= old(LeftOver(disk.files, outs)) - {TmpName(name)}
    ensures forall i :: |old(disk.seen)| <= i < |disk.seen| ==>
              IsStage(before, disk.seen[i], outs, p) || IsStage(before, disk.seen[i], outs, p + 1)
  {
    hide TmpName, Moved, IsStage, Temps, Apart, LeftOver;
    ghost var base := disk.files;
    ok := disk.AtomicWrite(name, data, f);
    forall i | |old(disk.seen)| <= i < |disk.seen|
      ensures IsStage(before, disk.seen[i], outs, p) || IsStage(before, disk.seen[i], outs, p + 1)
    {
      StageMoves(before, base, disk.seen[i], outs, p);
    }
    if ok { StageDone(before, base, disk.files, outs, p); } else { StageKept(before, base, disk.files, outs, p); }
  }

  lemma StageDone(before: Files, base: Files, now: Files, outs: seq<File>, p: nat)
    requires p < |outs| && Apart(outs) && IsStage(before, base, outs, p)
    requires now == (base - {TmpName(outs[p].name)})[outs[p].name := outs[p].data]
    ensures IsStage(before, now, outs, p + 1) && LeftOver(now, outs) <= LeftOver(base, outs) - {TmpName(outs[p].name)}
  {
    hide TmpName;
    var tmp, temps := TmpName(outs[p].name), Temps(outs);
    var name, data := outs[p].name, outs[p].data;
    assert now - temps == (base - temps)[name := data];
    assert (Installed(before, outs, p)[name := data]) - temps == (Installed(before, outs, p) - temps)[name := data];
  }

  lemma StageKept(before: Files, base: Files, now: Files, outs: seq<File>, p: nat)
    requires p < |outs| && IsStage(before, base, outs, p)
    requires now - {TmpName(outs[p].name)} == base - {TmpName(outs[p].name)}
    ensures IsStage(before, now, outs, p)
  {
    hide TmpName;
    var tmp, temps := TmpName(outs[p].name), Temps(outs);
    assert now - temps == (now - {tmp}) - temps && base - temps == (base - {tmp}) - temps;
  }

  // ---------------------------------------------------------------- verifying a sidecar

  /** What json.loads makes of bytes: an object, another value, a JSONDecodeError, or another error. */
  datatype Loaded = Dict(members: seq<Member>) | OtherValue | NotJson | Undecodable

  type Loads = Bytes -> Loaded

  datatype Reason = NoSidecar | BadText(error: SidecarError) | NoTarget | DigestMismatch | BadJson | HashMismatch

  datatype Verdict = Accepted | Rejected(reason: Reason) | Uncaught

  /** The sidecar's text, if there is one to read. */
  function TextOf(files: Files, name: string): Option<string> {
    if name in files && Decode(files[name]).Some? then Some(Universal(Decode(files[name]).value)) else None
  }

  /** The target file has the claimed digest and holds a record whose own hash is right. */
  predicate ClaimHolds(files: Files, claim: Claim, sha256: Sha256, loads: Loads) {
    && claim.target in files && sha256(files[claim.target]) == claim.digest
    && loads(files[claim.target]).Dict? && Verifies(loads(files[claim.target]).members, sha256)
  }

  predicate SidecarHolds(files: Files, name: string, sha256: Sha256, loads: Loads) {
    var text := TextOf(files, name);
    && text.Some? && Parse(text.value, Stem(name)).Ok?
    && ClaimHolds(files, Parse(text.value, Stem(name)).value, sha256, loads)
  }

  /** The text is not UTF-8, the target's bytes match but cannot be decoded, or its record cannot be
      hashed. */
  predicate Escapes(files: Files, name: string, sha256: Sha256, loads: Loads) {
    var text := TextOf(files, name);
    if text.None? then true
    else
      var claim := Parse(text.value, Stem(name));
      && claim.Ok? && claim.value.target in files
      && sha256(files[claim.value.target]) == claim.value.digest
      && var loaded := loads(files[claim.value.target]);
         loaded.Undecodable?
         || (loaded.Dict? && HasText(loaded.members, "record_hash") && !Hashable(loaded.members))
  }

  /** The sidecar is this text, it makes this claim, and the file it names is this record: the file has
      the claimed digest, and the record's own hash is that of its four hashed fields. */
  ghost predicate HoldsAs(files: Files, name: string, text: string, claim: Claim, ms: seq<Member>, sha256: Sha256,
                          loads: Loads)
  {
    && name in files && files[name] == Encode(text) && Parse(Universal(text), Stem(name)) == Ok(claim)
    && claim.target in files && sha256(files[claim.target]) == claim.digest
    && loads(files[claim.target]) == Dict(ms)
    && HasText(ms, "record_hash") && HasText(ms, "spec_hash") && HasText(ms, "commit_sha")
    && Lookup(ms, "metrics").Some? && Lookup(ms, "tool_digests").Some?
    && Lookup(ms, "record_hash").value.text
       == "sha256:" + sha256(Encode(Lookup(ms, "spec_hash").value.text) + Encode(Lookup(ms, "commit_sha").value.text)
                             + Jcs(Lookup(ms, "metrics").value) + Jcs(Lookup(ms, "tool_digests").value))
  }

  lemma HoldsWith(files: Files, name: string, text: string, claim: Claim, ms: seq<Member>, sha256: Sha256,
                  loads: Loads)
    requires HoldsAs(files, name, text, claim, ms, sha256, loads)
    ensures SidecarHolds(files, name, sha256, loads)
  {
    hide Decode, Encode, Universal, Parse, Stem, Lookup, Jcs;
    DecodeInverse(files[name], text);
  }

  lemma Holding(files: Files, name: string, sha256: Sha256, loads: Loads)
    returns (text: string, claim: Claim, ms: seq<Member>)
    requires SidecarHolds(files, name, sha256, loads)
    ensures HoldsAs(files, name, text, claim, ms, sha256, loads)
  {
    hide Decode, Encode, Universal, Parse, Stem, Lookup, Jcs;
    text := Decode(files[name]).value;
    DecodeInverse(files[name], text);
    claim := Parse(Universal(text), Stem(name)).value;
    ms := loads(files[claim.target]).members;
  }

  /** A sidecar holds exactly when all this is so of some text, claim and record. */
  lemma HoldsMeans(files: Files, name: string, sha256: Sha256, loads: Loads)
    ensures SidecarHolds(files, name, sha256, loads) <==>
            exists text, claim, ms :: HoldsAs(files, name, text, claim, ms, sha256, loads)
  {
    hide SidecarHolds, HoldsAs;
    if SidecarHolds(files, name, sha256, loads) { var text, claim, ms := Holding(files, name, sha256, loads); }
    if text, claim, ms :| HoldsAs(files, name, text, claim, ms, sha256, loads) {
      HoldsWith(files, name, text, claim, ms, sha256, loads);
    }
  }

  /** Read-only.  Accepts exactly the sidecars that hold. */
  method VerifySidecar(disk: Disk, name: string, sha256: Sha256, loads: Loads) returns (v: Verdict)
    ensures v.Accepted? <==> SidecarHolds(disk.files, name, sha256, loads)
    ensures v == Rejected(NoSidecar) <==> name !in disk.files
    ensures v == Uncaught <==> name in disk.files && Escapes(disk.files, name, sha256, loads)
  {
    hide Decode, Universal, Strip, Word, StripLeft, StripStars, IsDigest, Lower, Hashable, HasText;
    if name !in disk.files { return Rejected(NoSidecar); }
    var decoded := Decode(disk.files[name]);
    if decoded.None? { return Uncaught; }
    var text := Universal(decoded.value);
    var stripped := Strip(text);
    if stripped == "" { return Rejected(BadText(EmptySidecar)); }
    var expected, target;
    if LEGACY_PREFIX <= stripped {
      expected := Strip(stripped[|LEGACY_PREFIX|..]);
      target := Stem(name) + ".json";
    } else {
      expected := Word(stripped);
      var rest := StripLeft(stripped[|expected|..]);
      if rest == "" { return Rejected(BadText(Malformed)); }
      target := StripStars(rest);
    }
    if !IsDigest(Lower(expected)) { return Rejected(BadText(NotADigest)); }
    if target !in disk.files { return Rejected(NoTarget); }
    var recordBytes := disk.files[target];
    var actual := sha256(recordBytes);
    if actual != Lower(expected) { return Rejected(DigestMismatch); }
    match loads(recordBytes)
    case NotJson => return Rejected(BadJson);
    case Undecodable => return Uncaught;
    case OtherValue => return Rejected(HashMismatch);
    case Dict(members) =>
      var verified := VerifyRecordHash(members, sha256);
      if verified.Err? { return Uncaught; }
      if !verified.value { return Rejected(HashMismatch); }
      return Accepted;
  }

  /** Loading gives back what was serialised, as dictionaries go. */
  ghost predicate ReadsBack(loads: Loads) {
    forall ms :: IsDict(JObject(ms)) ==> ReadsBackOne(loads, ms)
  }

  ghost predicate ReadsBackOne(loads: Loads, ms: seq<Member>) {
    var loaded := loads(Jcs(JObject(ms)));
    loaded.Dict? && IsDict(JObject(loaded.members)) && Fields(loaded.members) == Fields(ms)
  }

  ghost predicate GivesDigests(sha256: Sha256) {
    forall bs: Bytes :: IsDigest(sha256(bs))
  }

  /** There is such a loader: canonical bytes leave no doubt about the dictionary. */
  lemma CanBeReadBack() returns (loads: Loads)
    ensures ReadsBack(loads)
  {
    hide IsDict, Jcs, Fields;
    loads := (bs: Bytes) => if HasSource(bs) then Dict(SourceOf(bs)) else NotJson;
    forall ms | IsDict(JObject(ms)) ensures ReadsBackOne(loads, ms) {
      var bs := Jcs(JObject(ms));
      assert IsSource(ms, bs);
      CanonicalBytes(JObject(SourceOf(bs)), JObject(ms));
    }
  }

  ghost predicate IsSource(ms: seq<Member>, bs: Bytes) {
    IsDict(JObject(ms)) && Jcs(JObject(ms)) == bs
  }

  ghost predicate HasSource(bs: Bytes) {
    exists ms :: IsSource(ms, bs)
  }

  ghost function SourceOf(bs: Bytes): seq<Member>
    requires HasSource(bs)
    ensures IsSource(SourceOf(bs), bs)
  {
    var ms :| IsSource(ms, bs); ms
  }

  /** A record as it is written: a dictionary whose own hash is right. */
  ghost predicate Sound(record: seq<Member>, sha256: Sha256) {
    IsDict(JObject(record)) && Verifies(record, sha256)
  }

  lemma LoadedVerifies(record: seq<Member>, sha256: Sha256, loads: Loads)
    requires Sound(record, sha256) && ReadsBack(loads)
    ensures loads(Jcs(JObject(record))).Dict? && Verifies(loads(Jcs(JObject(record))).members, sha256)
  {
    hide IsDict, Jcs, Fields, Verifies;
    assert ReadsBackOne(loads, record);
    HashIgnoresOrder(loads(Jcs(JObject(record))).members, record);
  }

  /** The hash of a sound record is a prefixed digest, so that a file named after it can be printed. */
  lemma HashText(record: seq<Member>, sha256: Sha256)
    requires Sound(record, sha256) && GivesDigests(sha256)
    ensures HasText(record, "record_hash")
    ensures var hash := Lookup(record, "record_hash").value.text;
            hash != "" && hash[0] == 's' && '\r' !in hash
  {
    hide IsDigest, Lookup, PreImage, IsDict;
    var digest := sha256(PreImage(record));
    assert IsDigest(digest);
    DigestHasNoReturn(digest);
    var prefix := "sha256:";
    assert '\r' !in prefix && prefix[0] == 's';
  }

  lemma DigestHasNoReturn(digest: string)
    requires IsDigest(digest)
    ensures '\r' !in digest
  {
    assert !IsHexChar('\r');
  }

  lemma WrittenText(files: Files, name: string, text: string)
    requires name in files && files[name] == Encode(text) && '\r' !in text
    ensures TextOf(files, name) == Some(text)
  {
    hide Decode, Encode, Universal;
    DecodeInverse(Encode(text), text);
    UniversalKeeps(text);
  }

  lemma SidecarHasNoReturn(digest: string, file: string)
    requires IsDigest(digest) && '\r' !in file
    ensures '\r' !in SidecarText(digest, file)
  {
    DigestHasNoReturn(digest);
    hide IsDigest;
    var gap := "  ";
    assert '\r' !in gap && '\r' !in digest + gap && '\r' !in digest + gap + file;
  }

  /** A sidecar as it is printed is read as the claim it was printed from. */
  lemma WrittenClaim(files: Files, hash: string, digest: string)
    requires IsDigest(digest) && hash != "" && hash[0] == 's' && '\r' !in hash
    requires hash + ".sha256" in files && files[hash + ".sha256"] == Encode(SidecarText(digest, hash + ".json"))
    ensures TextOf(files, hash + ".sha256") == Some(SidecarText(digest, hash + ".json"))
    ensures Parse(SidecarText(digest, hash + ".json"), Stem(hash + ".sha256")) == Ok(Claim(digest, hash + ".json"))
  {
    var extension := ".json";
    var file := hash + extension;
    assert file[0] == 's' && file[|file| - 1] == 'n' && !IsSpace('s') && !IsSpace('n');
    assert '\r' !in extension;
    hide IsDigest, Parse, Decode, Encode, IsSpace, SidecarText, TextOf, Stem;
    PrintedIsRead(digest, file, Stem(hash + ".sha256"));
    SidecarHasNoReturn(digest, file);
    WrittenText(files, hash + ".sha256", SidecarText(digest, file));
  }

  /** Where the record and a sidecar for these bytes are in place, the sidecar holds exactly when it
      carries the digest of the record that is there. */
  lemma HoldsWhenDigestsAgree(files: Files, record: seq<Member>, hash: string, digest: string, sha256: Sha256,
                              loads: Loads)
    requires Sound(record, sha256) && GivesDigests(sha256) && ReadsBack(loads) && IsDigest(digest)
    requires HasText(record, "record_hash") && hash == Lookup(record, "record_hash").value.text
    requires hash + ".json" in files && files[hash + ".json"] == Jcs(JObject(record))
    requires hash + ".sha256" in files && files[hash + ".sha256"] == Encode(SidecarText(digest, hash + ".json"))
    ensures SidecarHolds(files, hash + ".sha256", sha256, loads) <==> sha256(Jcs(JObject(record))) == digest
  {
    hide IsDigest, Sound, GivesDigests, ReadsBack, Parse, TextOf, SidecarText, Jcs, Encode, Verifies, Lookup;
    HashText(record, sha256);
    WrittenClaim(files, hash, digest);
    LoadedVerifies(record, sha256, loads);
  }

  /** A sidecar in the legacy form names no file; it holds exactly when it carries the digest of the
      record that shares its own name. */
  lemma LegacyHolds(files: Files, record: seq<Member>, hash: string, digest: string, sha256: Sha256, loads: Loads)
    requires Sound(record, sha256) && GivesDigests(sha256) && ReadsBack(loads) && IsDigest(digest)
    requires HasText(record, "record_hash") && hash == Lookup(record, "record_hash").value.text
    requires hash + ".json" in files && files[hash + ".json"] == Jcs(JObject(record))
    requires hash + ".sha256" in files && files[hash + ".sha256"] == Encode(LegacyText(digest))
    ensures SidecarHolds(files, hash + ".sha256", sha256, loads) <==> sha256(Jcs(JObject(record))) == digest
  {
    hide IsDigest, Sound, GivesDigests, ReadsBack, Parse, TextOf, LegacyText, Jcs, Encode, Verifies, Lookup, Stem;
    HashText(record, sha256);
    LegacyClaim(files, hash, digest);
    LoadedVerifies(record, sha256, loads);
  }

  lemma LegacyClaim(files: Files, hash: string, digest: string)
    requires IsDigest(digest) && hash != ""
    requires hash + ".sha256" in files && files[hash + ".sha256"] == Encode(LegacyText(digest))
    ensures TextOf(files, hash + ".sha256") == Some(LegacyText(digest))
    ensures Parse(LegacyText(digest), Stem(hash + ".sha256")) == Ok(Claim(digest, hash + ".json"))
  {
    DigestHasNoReturn(digest);
    LegacyHasNoReturn(digest);
    hide IsDigest, Parse, Decode, Encode, LegacyText, TextOf, Stem;
    var extension := "sha256";
    assert '.' !in extension && hash + ".sha256" == hash + "." + extension;
    StemOf(hash, extension);
    LegacyIsRead(digest, hash);
    WrittenText(files, hash + ".sha256", LegacyText(digest));
  }

  lemma LegacyHasNoReturn(digest: string)
    requires '\r' !in digest
    ensures '\r' !in LegacyText(digest)
  {
    assert '\r' !in LEGACY_PREFIX && '\r' !in LEGACY_PREFIX + digest;
  }

  // ---------------------------------------------------------------- wherever a run is cut short

  function HashOf(record: seq<Member>): string
    requires HasText(record, "record_hash")
  {
    Lookup(record, "record_hash").value.text
  }

  function OutputsOf(record: seq<Member>, raw: Bytes, sha256: Sha256): (outs: seq<File>)
    requires HasText(record, "record_hash")
    ensures |outs| == 3
  {
    Outputs(HashOf(record), Jcs(JObject(record)), raw, sha256)
  }

  predicate SameAt(before: Files, now: Files, name: string) {
    (name in now <==> name in before) && (name in now ==> now[name] == before[name])
  }

  lemma NamesDiffer(outs: seq<File>, i: nat, j: nat)
    requires Apart(outs) && i < j < |outs|
    ensures outs[i].name != outs[j].name
  {
  }

  lemma {:induction false} InstalledNew(before: Files, outs: seq<File>, p: nat, i: nat)
    requires i < p <= |outs| && Apart(outs)
    ensures var now := Installed(before, outs, p); outs[i].name in now && now[outs[i].name] == outs[i].data
    decreases p
  {
    hide Apart;
    if i < p - 1 {
      InstalledNew(before, outs, p - 1, i);
      NamesDiffer(outs, i, p - 1);
    }
  }

  lemma {:induction false} InstalledOld(before: Files, outs: seq<File>, p: nat, name: string)
    requires p <= |outs| && forall i :: 0 <= i < p ==> outs[i].name != name
    ensures SameAt(before, Installed(before, outs, p), name)
  {
    if p > 0 { InstalledOld(before, outs, p - 1, name); }
  }

  /** At stage p the first p files are there, complete. */
  lemma StageNew(before: Files, now: Files, outs: seq<File>, p: nat, i: nat)
    requires i < p <= |outs| && Apart(outs) && IsStage(before, now, outs, p)
    ensures outs[i].name in now && now[outs[i].name] == outs[i].data
  {
    InstalledNew(before, outs, p, i);
    NotTemporary(outs, i);
    hide Temps, Apart, Installed;
    assert outs[i].name in Installed(before, outs, p) - Temps(outs);
  }

  lemma NotTemporary(outs: seq<File>, i: nat)
    requires Apart(outs) && i < |outs|
    ensures outs[i].name !in Temps(outs)
  {
  }

  /** And every other name but the temporary ones is as it was. */
  lemma StageOld(before: Files, now: Files, outs: seq<File>, p: nat, name: string)
    requires p <= |outs| && IsStage(before, now, outs, p) && name !in Temps(outs)
    requires forall i :: 0 <= i < p ==> outs[i].name != name
    ensures SameAt(before, now, name)
  {
    InstalledOld(before, outs, p, name);
    var installed := Installed(before, outs, p);
    hide Temps, Installed;
    assert name in now - Temps(outs) <==> name in installed - Temps(outs);
  }

  lemma StageFile(before: Files, now: Files, outs: seq<File>, p: nat, i: nat)
    requires p <= |outs| && i < |outs| && Apart(outs) && IsStage(before, now, outs, p)
    ensures if i < p then outs[i].name in now && now[outs[i].name] == outs[i].data
            else SameAt(before, now, outs[i].name)
  {
    hide IsStage, Temps, SameAt;
    if i < p {
      StageNew(before, now, outs, p, i);
    } else {
      StageOld(before, now, outs, p, outs[i].name);
    }
  }

  /** At any point of a run that starts without a sidecar for its hash: each of its three files is the
      complete new one or just as it was, the sidecar comes last, and once it is there it holds; every
      other file but the temporary ones is untouched. */
  lemma CrashSafe(before: Files, now: Files, record: seq<Member>, raw: Bytes, sha256: Sha256, loads: Loads)
    requires Sound(record, sha256) && GivesDigests(sha256) && ReadsBack(loads) && HasText(record, "record_hash")
    requires AtSomeStage(before, now, OutputsOf(record, raw, sha256), 3)
    requires HashOf(record) + ".sha256" !in before
    ensures var outs := OutputsOf(record, raw, sha256);
            && (forall i :: 0 <= i < 3 ==>
                  SameAt(before, now, outs[i].name) || (outs[i].name in now && now[outs[i].name] == outs[i].data))
            && (outs[2].name in now ==>
                  SidecarHolds(now, outs[2].name, sha256, loads)
                  && forall i :: 0 <= i < 3 ==> outs[i].name in now && now[outs[i].name] == outs[i].data)
            && (forall name :: name !in Temps(outs) && (forall i :: 0 <= i < 3 ==> outs[i].name != name) ==>
                  SameAt(before, now, name))
  {
    var outs := OutputsOf(record, raw, sha256);
    OutputsApart(HashOf(record), Jcs(JObject(record)), raw, sha256);
    var p: nat :| p <= 3 && IsStage(before, now, outs, p);
    hide Sound, GivesDigests, ReadsBack, SidecarHolds, IsStage, Temps, Jcs, Encode, SidecarText, HasText, Apart, Lookup;
    forall i | 0 <= i < 3
      ensures if i < p then outs[i].name in now && now[outs[i].name] == outs[i].data
              else SameAt(before, now, outs[i].name)
    {
      StageFile(before, now, outs, p, i);
    }
    forall name | name !in Temps(outs) && forall i :: 0 <= i < 3 ==> outs[i].name != name
      ensures SameAt(before, now, name)
    {
      StageOld(before, now, outs, p, name);
    }
    if outs[2].name in now {
      assert p == 3;
      SidecarPlaced(now, record, raw, sha256, loads);
    }
  }

  /** Where all three files are in place the sidecar holds. */
  lemma SidecarPlaced(now: Files, record: seq<Member>, raw: Bytes, sha256: Sha256, loads: Loads)
    requires Sound(record, sha256) && GivesDigests(sha256) && ReadsBack(loads) && HasText(record, "record_hash")
    requires var outs := OutputsOf(record, raw, sha256);
             forall i :: 0 <= i < 3 ==> outs[i].name in now && now[outs[i].name] == outs[i].data
    ensures SidecarHolds(now, HashOf(record) + ".sha256", sha256, loads)
  {
    var outs := OutputsOf(record, raw, sha256);
    assert outs[0].name in now && outs[2].name in now;
    assert IsDigest(sha256(Jcs(JObject(record))));
    hide Sound, GivesDigests, ReadsBack, SidecarHolds, Jcs, Encode, SidecarText, HasText, Lookup, IsDigest;
    HoldsWhenDigestsAgree(now, record, HashOf(record), sha256(Jcs(JObject(record))), sha256, loads);
  }

  /** A run that completes leaves a sidecar that holds, whatever was there before. */
  lemma CompletedVerifies(before: Files, now: Files, record: seq<Member>, raw: Bytes, sha256: Sha256, loads: Loads)
    requires Sound(record, sha256) && GivesDigests(sha256) && ReadsBack(loads) && HasText(record, "record_hash")
    requires IsStage(before, now, OutputsOf(record, raw, sha256), 3)
    ensures SidecarHolds(now, HashOf(record) + ".sha256", sha256, loads)
  {
    var outs := OutputsOf(record, raw, sha256);
    OutputsApart(HashOf(record), Jcs(JObject(record)), raw, sha256);
    forall i | 0 <= i < 3 ensures outs[i].name in now && now[outs[i].name] == outs[i].data {
      StageNew(before, now, outs, 3, i);
    }
    hide *;
    SidecarPlaced(now, record, raw, sha256, loads);
  }

  /** Written over the outputs of an earlier record with the same hash, the window is real: once the new
      record is in place and until the new sidecar is, the old sidecar holds exactly when the two records
      have the same digest. */
  lemma OverwriteWindow(before: Files, now: Files, earlier: seq<Member>, record: seq<Member>, raw: Bytes,
                        sha256: Sha256, loads: Loads, p: nat)
    requires Sound(record, sha256) && GivesDigests(sha256) && ReadsBack(loads)
    requires HasText(record, "record_hash") && HasText(earlier, "record_hash") && HashOf(earlier) == HashOf(record)
    requires var sidecar := OutputsOf(earlier, raw, sha256)[2];
             sidecar.name in before && before[sidecar.name] == sidecar.data
    requires 1 <= p <= 2 && IsStage(before, now, OutputsOf(record, raw, sha256), p)
    ensures SidecarHolds(now, HashOf(record) + ".sha256", sha256, loads) <==>
              sha256(Jcs(JObject(record))) == sha256(Jcs(JObject(earlier)))
  {
    var outs := OutputsOf(record, raw, sha256);
    OutputsApart(HashOf(record), Jcs(JObject(record)), raw, sha256);
    StageFile(before, now, outs, p, 0); StageFile(before, now, outs, p, 2);
    assert outs[0].name in now && outs[2].name in now;
    assert IsDigest(sha256(Jcs(JObject(earlier))));
    hide Sound, GivesDigests, ReadsBack, SidecarHolds, Jcs, Encode, SidecarText, HasText, Lookup, IsDigest, IsStage,
      Apart, Temps;
    HoldsWhenDigestsAgree(now, record, HashOf(record), sha256(Jcs(JObject(earlier))), sha256, loads);
  }

  /** And such records are what two runs at different times produce: the same hash and so the same file
      names, and different bytes. */
  lemma RerunsDiffer(spec: Spec, scored: Scored, score: string, repo: string, mode: string, commitSha: string,
                     computedAt: string, later: string, sha256: Sha256)
    requires Pinned(spec) && CommitMatches(commitSha) && |scored.metrics| == |METRIC_NAMES| && computedAt != later
    ensures var record := Built(spec, scored, score, repo, mode, commitSha, computedAt, sha256);
            var record' := Built(spec, scored, score, repo, mode, commitSha, later, sha256);
            && HasText(record, "record_hash") && HasText(record', "record_hash") && HashOf(record) == HashOf(record')
            && Sound(record, sha256) && Sound(record', sha256) && Jcs(JObject(record)) != Jcs(JObject(record'))
  {
    var record := Built(spec, scored, score, repo, mode, commitSha, computedAt, sha256);
    var record' := Built(spec, scored, score, repo, mode, commitSha, later, sha256);
    BuiltVerifies(spec, scored, score, repo, mode, commitSha, computedAt, sha256);
    BuiltVerifies(spec, scored, score, repo, mode, commitSha, later, sha256);
    BuiltHash(spec, scored, score, repo, mode, commitSha, computedAt, sha256);
    BuiltHash(spec, scored, score, repo, mode, commitSha, later, sha256);
    RecordFields(spec, scored, score, repo, mode, commitSha, computedAt, sha256);
    RecordFields(spec, scored, score, repo, mode, commitSha, later, sha256);
    hide Built, BaseRecord, PreImage, Lookup, IsDict, Jcs, Shaped, Pinned, CommitMatches, Fields, MetricsJson,
      DigestsJson, METRIC_NAMES,
      Hashable, Verifies;
    CanonicalBytes(JObject(record), JObject(record'));
  }

  /** The hash covers the four hashed fields. */
  lemma BuiltHash(spec: Spec, scored: Scored, score: string, repo: string, mode: string, commitSha: string,
                  computedAt: string, sha256: Sha256)
    requires |scored.metrics| == |METRIC_NAMES|
    ensures Lookup(Built(spec, scored, score, repo, mode, commitSha, computedAt, sha256), "record_hash") ==
            Some(JString("sha256:" + sha256(Encode(spec.specHash) + Encode(commitSha) + Jcs(MetricsJson(scored.metrics))
                                            + Jcs(DigestsJson(spec.toolDigests)))))
  {
    hide Lookup, BaseRecord, METRIC_NAMES, Encode, Jcs, MetricsJson, DigestsJson;
    var base := BaseRecord(spec, scored, score, repo, mode, commitSha, computedAt);
    BaseHashable(spec, scored, score, repo, mode, commitSha, computedAt);
    LookupExtended(base, Member("record_hash", JString("sha256:" + sha256(PreImage(base)))), "record_hash");
  }
}
