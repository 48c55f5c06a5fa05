/** The sidecar's text: how it is printed, and the two formats it is read in. */
module Sidecars {
  import opened Wrappers
  import opened Hex

  // ---------------------------------------------------------------- file names

  /** The place of the last dot, or -1. */
  function LastDot(name: string): (i: int)
    ensures -1 <= i < |name|
    ensures i >= 0 ==> name[i] == '.'
    ensures forall k :: i < k < |name| ==> name[k] != '.'
  {
    if name == "" then -1 else if name[|name| - 1] == '.' then |name| - 1 else LastDot(name[..|name| - 1])
  }

  predicate HasSuffix(name: string) {
    0 < LastDot(name) < |name| - 1
  }

  function Suffix(name: string): string {
    if HasSuffix(name) then name[LastDot(name)..] else ""
  }

  function Stem(name: string): string {
    if HasSuffix(name) then name[..LastDot(name)] else name
  }

  function WithSuffix(name: string, suffix: string): string {
    Stem(name) + suffix
  }

  function TmpName(name: string): string {
    WithSuffix(name, Suffix(name) + ".tmp")
  }

  /** Whatever the name, its temporary name is the whole name and ".tmp". */
  lemma TmpIsAppended(name: string)
    ensures TmpName(name) == name + ".tmp"
  {
    assert Stem(name) + Suffix(name) == name;
    assert Stem(name) + (Suffix(name) + ".tmp") == (Stem(name) + Suffix(name)) + ".tmp";
  }

  lemma StemOf(base: string, extension: string)
    requires base != "" && extension != "" && '.' !in extension
    ensures Stem(base + "." + extension) == base
  {
    var name := base + "." + extension;
    assert name[|base|] == '.';
    assert forall k :: |base| < k < |name| ==> name[k] == extension[k - |base| - 1];
    assert LastDot(name) == |base|;
    assert name[..|base|] == base;
  }

  // ---------------------------------------------------------------- white space

  /** What str.isspace accepts. */
  predicate IsSpace(c: char) {
    var x := c as int;
    || 0x09 <= x <= 0x0D || 0x1C <= x <= 0x20 || x == 0x85 || x == 0xA0 || x == 0x1680 || 0x2000 <= x <= 0x200A
    || x == 0x2028 || x == 0x2029 || x == 0x202F || x == 0x205F || x == 0x3000
  }

  function StripLeft(s: string): string {
    if s != "" && IsSpace(s[0]) then StripLeft(s[1..]) else s
  }

  function StripRight(s: string): string {
    if s != "" && IsSpace(s[|s| - 1]) then StripRight(s[..|s| - 1]) else s
  }

  function Strip(s: string): string {
    StripRight(StripLeft(s))
  }

  function StripStars(s: string): string {
    if s != "" && s[0] == '*' then StripStars(s[1..]) else s
  }

  /** The characters before the first white space. */
  function Word(s: string): (w: string)
    ensures w <= s
  {
    if s == "" || IsSpace(s[0]) then "" else [s[0]] + Word(s[1..])
  }

  /** Universal newlines: a text file is read with every line end as a line feed. */
  function Universal(s: string): string {
    if s == "" then ""
    else if s[0] != '\r' then [s[0]] + Universal(s[1..])
    else if |s| > 1 && s[1] == '\n' then ['\n'] + Universal(s[2..])
    else ['\n'] + Universal(s[1..])
  }

  lemma {:induction false} UniversalKeeps(s: string)
    requires '\r' !in s
    ensures Universal(s) == s
  {
    if s != "" { UniversalKeeps(s[1..]); }
  }

  // ---------------------------------------------------------------- digests

  function LowerChar(c: char): char {
    if 'A' <= c <= 'Z' then (c as int + 32) as char else c
  }

  function Lower(s: string): (r: string)
    ensures |r| == |s| && forall i :: 0 <= i < |s| ==> r[i] == LowerChar(s[i])
  {
    seq(|s|, i requires 0 <= i < |s| => LowerChar(s[i]))
  }

  /** 64 hexadecimal digits, as hexdigest returns them. */
  predicate IsDigest(s: string) {
    |s| == 64 && IsHex(s)
  }

  // ---------------------------------------------------------------- the sidecar's text

  const LEGACY_PREFIX := "sha256:"

  function SidecarText(digest: string, file: string): string {
    digest + "  " + file + "\n"
  }

  function LegacyText(digest: string): string {
    LEGACY_PREFIX + digest + "\n"
  }

  datatype SidecarError = EmptySidecar | Malformed | NotADigest

  datatype Claim = Claim(digest: string, target: string)

  /** The digest and the file a sidecar's text claims it for. */
  function Parse(text: string, stem: string): Result<Claim, SidecarError> {
    var stripped := Strip(text);
    if stripped == "" then Err(EmptySidecar)
    else if LEGACY_PREFIX <= stripped then
      Checked(Claim(Strip(stripped[|LEGACY_PREFIX|..]), stem + ".json"))
    else
      var digest := Word(stripped);
      var rest := StripLeft(stripped[|digest|..]);
      if rest == "" then Err(Malformed) else Checked(Claim(digest, StripStars(rest)))
  }

  function Checked(claim: Claim): Result<Claim, SidecarError> {
    if IsDigest(Lower(claim.digest)) then Ok(Claim(Lower(claim.digest), claim.target)) else Err(NotADigest)
  }

  /** Neither its first nor its last character is white space. */
  predicate Trimmed(s: string) {
    s != "" && !IsSpace(s[0]) && !IsSpace(s[|s| - 1])
  }

  lemma StripTrimmed(s: string)
    requires Trimmed(s)
    ensures Strip(s) == s
  {
  }

  lemma StripLine(s: string)
    requires Trimmed(s)
    ensures Strip(s + "\n") == s
  {
    assert (s + "\n")[..|s|] == s && (s + "\n")[0] == s[0] && IsSpace('\n');
    assert StripLeft(s + "\n") == s + "\n" && StripRight(s) == s;
    assert StripRight(s + "\n") == StripRight(s);
  }

  /** Stripping removes something exactly when there is something to strip. */
  lemma {:induction false} StripLeftShrinks(s: string)
    ensures |StripLeft(s)| <= |s| && (|StripLeft(s)| == |s| <==> s == "" || !IsSpace(s[0]))
    ensures StripLeft(s) == "" || (!IsSpace(StripLeft(s)[0]) && StripLeft(s)[|StripLeft(s)| - 1] == s[|s| - 1])
    ensures StripLeft(s) == "" && s != "" ==> IsSpace(s[|s| - 1])
  {
    hide IsSpace;
    if s != "" && IsSpace(s[0]) { StripLeftShrinks(s[1..]); }
  }

  lemma {:induction false} StripRightShrinks(s: string)
    ensures |StripRight(s)| <= |s| && (|StripRight(s)| == |s| <==> s == "" || !IsSpace(s[|s| - 1]))
    ensures StripRight(s) == "" || !IsSpace(StripRight(s)[|StripRight(s)| - 1])
    ensures StripRight(s) <= s
  {
    hide IsSpace;
    if s != "" && IsSpace(s[|s| - 1]) { StripRightShrinks(s[..|s| - 1]); }
  }

  lemma {:induction false} StripStarsShrinks(s: string)
    ensures |StripStars(s)| <= |s| && (|StripStars(s)| == |s| <==> s == "" || s[0] != '*')
  {
    if s != "" && s[0] == '*' { StripStarsShrinks(s[1..]); }
  }

  lemma {:induction false} StripRightConcat(a: string, b: string)
    ensures StripRight(a + b) == if StripRight(b) == "" then StripRight(a) else a + StripRight(b)
    decreases |b|
  {
    hide IsSpace;
    if b == "" {
      assert a + b == a;
    } else {
      assert (a + b)[..|a + b| - 1] == a + b[..|b| - 1];
      if IsSpace(b[|b| - 1]) { StripRightConcat(a, b[..|b| - 1]); }
    }
  }

  lemma {:induction false} WordOf(w: string, rest: string)
    requires forall i :: 0 <= i < |w| ==> !IsSpace(w[i])
    requires rest != "" && IsSpace(rest[0])
    ensures Word(w + rest) == w
  {
    hide IsSpace;
    if w == "" {
      assert w + rest == rest;
    } else {
      WordOf(w[1..], rest);
      assert (w + rest)[1..] == w[1..] + rest;
    }
  }

  lemma HexIsNoSpace(digest: string)
    requires IsDigest(digest)
    ensures forall i :: 0 <= i < |digest| ==> !IsSpace(digest[i])
    ensures Lower(digest) == digest && Trimmed(digest)
  {
    assert forall i :: 0 <= i < |digest| ==> IsHexChar(digest[i]);
  }

  /** A digest does not look like the legacy format. */
  lemma NotLegacy(digest: string, rest: string)
    requires IsDigest(digest)
    ensures !(LEGACY_PREFIX <= digest + rest)
  {
    assert (digest + rest)[0] == digest[0] && IsHexChar(digest[0]);
    assert LEGACY_PREFIX[0] == 's';
  }

  lemma ParseGnu(text: string, line: string, stem: string)
    requires Strip(text) == line && line != "" && !(LEGACY_PREFIX <= line)
    ensures Parse(text, stem) ==
            var rest := StripLeft(line[|Word(line)|..]);
            if rest == "" then Err(Malformed) else Checked(Claim(Word(line), StripStars(rest)))
  {
    hide Strip, StripLeft, StripStars, Checked;
  }

  lemma {:induction false} WordWhole(w: string)
    requires forall i :: 0 <= i < |w| ==> !IsSpace(w[i])
    ensures Word(w) == w
  {
    hide IsSpace;
    if w != "" { WordWhole(w[1..]); }
  }

  /** What is left of a printed sidecar once it is stripped. */
  lemma PrintedStripped(digest: string, file: string)
    requires IsDigest(digest)
    ensures Strip(SidecarText(digest, file)) ==
            if StripRight(file) == "" then digest else digest + ("  " + StripRight(file))
  {
    HexIsNoSpace(digest);
    var text := SidecarText(digest, file);
    hide IsDigest, IsSpace, StripRight;
    assert text == digest + ("  " + (file + "\n")) && text[0] == digest[0];
    assert StripLeft(text) == text;
    StripRightConcat(digest, "  " + (file + "\n"));
    RestStripped(file);
    DigestStripped(digest);
  }

  lemma LineStripped(file: string)
    ensures StripRight(file + "\n") == StripRight(file)
  {
    assert IsSpace('\n');
    hide IsSpace;
    assert (file + "\n")[..|file|] == file;
  }

  lemma RestStripped(file: string)
    ensures StripRight("  " + (file + "\n")) == if StripRight(file) == "" then "" else "  " + StripRight(file)
  {
    TwoSpaces();
    LineStripped(file);
    hide IsSpace, StripRight;
    StripRightConcat("  ", file + "\n");
  }

  lemma DigestStripped(digest: string)
    requires Trimmed(digest)
    ensures StripRight(digest) == digest
  {
  }

  lemma TwoSpaces()
    ensures StripRight("  ") == ""
  {
    assert "  "[..1] == " ";
  }

  lemma GapSkipped(rest: string)
    ensures StripLeft("  " + rest) == StripLeft(rest)
  {
    var gap := "  " + rest;
    assert IsSpace(gap[0]) && gap[1..] == " " + rest && (" " + rest)[1..] == rest;
  }

  lemma UnnamedParses(digest: string, text: string, stem: string)
    requires IsDigest(digest) && Strip(text) == digest
    ensures Parse(text, stem) == Err(Malformed)
  {
    hide Parse, Strip, StripStars, StripLeft, IsSpace;
    HexIsNoSpace(digest); NotLegacy(digest, ""); WordWhole(digest); StripLeftShrinks("");
    assert digest + "" == digest && digest[|digest|..] == "";
    ParseGnu(text, digest, stem);
  }

  lemma NamedParses(digest: string, kept: string, text: string, stem: string)
    requires IsDigest(digest) && Strip(text) == digest + ("  " + kept) && StripLeft(kept) != ""
    ensures Parse(text, stem) == Ok(Claim(digest, StripStars(StripLeft(kept))))
  {
    hide Parse, Strip, StripStars, StripLeft, IsHex, Word;
    var line := digest + ("  " + kept);
    HexIsNoSpace(digest); NotLegacy(digest, "  " + kept); GapSkipped(kept);
    WordOf(digest, "  " + kept);
    assert line[|digest|..] == "  " + kept;
    ParseGnu(text, line, stem);
  }

  /** How a printed sidecar is read, for any name. */
  lemma PrintedParses(digest: string, file: string, stem: string)
    requires IsDigest(digest)
    ensures Parse(SidecarText(digest, file), stem) ==
            if StripRight(file) == "" then Err(Malformed)
            else Ok(Claim(digest, StripStars(StripLeft(StripRight(file)))))
  {
    hide IsDigest, IsSpace, Parse, StripStars, StripLeft, Strip, SidecarText, StripRight;
    var kept, text := StripRight(file), SidecarText(digest, file);
    PrintedStripped(digest, file);
    if kept == "" {
      UnnamedParses(digest, text, stem);
    } else {
      StripRightShrinks(file); StripLeftShrinks(kept);
      NamedParses(digest, kept, text, stem);
    }
  }

  /** What is printed is read back, exactly for the names that can be: not empty, no white space at
      either end, and no leading star. */
  lemma PrintedIsRead(digest: string, file: string, stem: string)
    requires IsDigest(digest)
    ensures Parse(SidecarText(digest, file), stem) == Ok(Claim(digest, file)) <==> Trimmed(file) && file[0] != '*'
  {
    hide IsDigest, IsSpace, Parse, SidecarText, StripRight;
    var kept := StripRight(file);
    PrintedParses(digest, file, stem);
    StripRightShrinks(file); StripLeftShrinks(kept); StripStarsShrinks(StripLeft(kept));
    if |kept| == |file| { assert kept == file; }
  }

  /** The legacy format names no file: it stands for the one that shares the sidecar's stem. */
  lemma LegacyIsRead(digest: string, stem: string)
    requires IsDigest(digest)
    ensures LegacyText(digest) == "sha256:" + digest + "\n"
    ensures Parse(LegacyText(digest), stem) == Ok(Claim(digest, stem + ".json"))
  {
    HexIsNoSpace(digest);
    hide IsDigest;
    var line := LEGACY_PREFIX + digest;
    assert LEGACY_PREFIX[0] == 's' && |LEGACY_PREFIX| == 7;
    assert line[0] == 's' && line[|line| - 1] == digest[|digest| - 1];
    assert line + "\n" == LegacyText(digest) && line[|LEGACY_PREFIX|..] == digest;
    StripLine(line); StripTrimmed(digest);
  }

  /** A digest shown in capitals is the same digest. */
  lemma CapitalsAreRead(digest: string, shown: string, target: string)
    requires IsDigest(digest) && |shown| == 64
    requires forall i :: 0 <= i < 64 ==>
               shown[i] == digest[i] || ('a' <= digest[i] && shown[i] as int == digest[i] as int - 32)
    ensures Checked(Claim(shown, target)) == Ok(Claim(digest, target))
  {
    assert forall i :: 0 <= i < |digest| ==> IsHexChar(digest[i]);
    assert Lower(shown) == digest;
  }

  /** A line that ends as another system ends lines is read as ending with a line feed. */
  lemma {:induction false} LineEndsAreRead(line: string)
    requires '\r' !in line
    ensures Universal(line + "\r\n") == line + "\n" == Universal(line + "\r") == Universal(line + "\n")
  {
    if line == "" {
      assert "" + "\r\n" == "\r\n" && "" + "\r" == "\r" && "" + "\n" == "\n";
      assert "\r\n"[2..] == "" && "\r"[1..] == "" && "\n"[1..] == "" && Universal("") == "";
    } else {
      LineEndsAreRead(line[1..]);
      assert (line + "\r\n")[1..] == line[1..] + "\r\n" && (line + "\r")[1..] == line[1..] + "\r";
      assert (line + "\n")[1..] == line[1..] + "\n";
    }
  }

  /** The white space characters. */
  lemma SpaceTable(c: char)
    ensures IsSpace(c) <==>
            c as int in [9, 10, 11, 12, 13, 28, 29, 30, 31, 32, 133, 160, 5760, 8192, 8193, 8194, 8195, 8196, 8197,
                         8198, 8199, 8200, 8201, 8202, 8232, 8233, 8239, 8287, 12288]
  {
  }
}
