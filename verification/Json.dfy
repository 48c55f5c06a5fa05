/** Canonical JSON of the values the records are made of, as RFC 8785 prescribes: members in the
    order of their names' UTF-16 code units (section 3.2.3), the shortest escapes (section 3.2.2.2),
    no white space, UTF-8. */
module Json {
  import opened Wrappers
  import opened Ordering
  import opened DecimalText
  import opened Utf8

  /** A value as a program holds it: an object lists its members in insertion order. */
  datatype Json =
    | JString(text: string)
    | JBool(value: bool)
    | JInt(number: SafeInt)
    | JObject(members: seq<Member>)

  datatype Member = Member(name: string, value: Json)

  // ---------------------------------------------------------------- serialisation

  function HexDigit(n: int): char
    requires 0 <= n < 16
  {
    if n < 10 then ('0' as int + n) as char else ('a' as int + n - 10) as char
  }

  function Escape(c: char): (s: string)
    ensures s != "" && s[0] != '"'
  {
    var x := c as int;
    if c == '"' then "\\\"" else if c == '\\' then "\\\\"
    else if x == 8 then "\\b" else if x == 9 then "\\t" else if x == 10 then "\\n"
    else if x == 12 then "\\f" else if x == 13 then "\\r"
    else if x < 32 then "\\u00" + [HexDigit(x / 16), HexDigit(x % 16)]
    else [c]
  }

  function Escaped(s: string): string {
    if s == "" then "" else Escape(s[0]) + Escaped(s[1..])
  }

  function Quote(s: string): string {
    "\"" + Escaped(s) + "\""
  }

  function IntText(n: int): string {
    if n < 0 then "-" + Natural(-n) else Natural(n)
  }

  function Text(j: Json): string
    decreases j, 1
  {
    match j
    case JString(s) => Quote(s)
    case JBool(b) => if b then "true" else "false"
    case JInt(n) => IntText(n)
    case JObject(ms) => "{" + MembersText(ms)
  }

  /** The members, the commas between them, and the closing brace. */
  function MembersText(ms: seq<Member>): string
    decreases ms, 0
  {
    if ms == [] then "}"
    else Quote(ms[0].name) + ":" + Text(ms[0].value) + (if |ms| == 1 then "}" else "," + MembersText(ms[1..]))
  }

  function MemberKey(m: Member): seq<int> {
    Utf16(m.name)
  }

  /** Members sorted by name, at every level. */
  function Canon(j: Json): Json
    decreases j, 1
  {
    match j
    case JObject(ms) => JObject(Sort(CanonMembers(ms), MemberKey))
    case _ => j
  }

  function CanonMembers(ms: seq<Member>): (r: seq<Member>)
    ensures |r| == |ms| && forall i :: 0 <= i < |ms| ==> r[i].name == ms[i].name
    decreases ms, 0
  {
    if ms == [] then [] else [Member(ms[0].name, Canon(ms[0].value))] + CanonMembers(ms[1..])
  }

  /** canonical_json_bytes */
  function Jcs(j: Json): seq<Byte> {
    Encode(Text(Canon(j)))
  }

  // ---------------------------------------------------------------- a reader of JSON without white space

  /** The value of a hexadecimal digit, of either case. */
  function HexValue(c: char): Option<int> {
    if '0' <= c <= '9' then Some(c as int - '0' as int)
    else if 'a' <= c <= 'f' then Some(c as int - 'a' as int + 10)
    else if 'A' <= c <= 'F' then Some(c as int - 'A' as int + 10)
    else None
  }

  /** Four hexadecimal digits as a character; escaped surrogates are not read. */
  function ReadHex(s: string): Option<char>
    requires |s| == 4
  {
    var a, b, c, d := HexValue(s[0]), HexValue(s[1]), HexValue(s[2]), HexValue(s[3]);
    if a.None? || b.None? || c.None? || d.None? then None
    else
      var x := ((a.value * 16 + b.value) * 16 + c.value) * 16 + d.value;
      if IsScalar(x) then Some(x as char) else None
  }

  /** What a backslash and this letter stand for. */
  function ReadShort(c: char): Option<char> {
    if c == '"' || c == '\\' || c == '/' then Some(c)
    else if c == 'b' then Some(8 as char) else if c == 't' then Some(9 as char) else if c == 'n' then Some(10 as char)
    else if c == 'f' then Some(12 as char) else if c == 'r' then Some(13 as char)
    else None
  }

  /** One character of a string, escaped or not, and what follows it. */
  function ReadChar(t: string): (r: Option<(char, string)>)
    ensures r.Some? ==> |r.value.1| < |t|
  {
    if t == "" || t[0] == '"' || t[0] as int < 32 then None
    else if t[0] != '\\' then Some((t[0], t[1..]))
    else if |t| >= 2 && ReadShort(t[1]).Some? then Some((ReadShort(t[1]).value, t[2..]))
    else if |t| >= 6 && t[1] == 'u' && ReadHex(t[2..6]).Some? then Some((ReadHex(t[2..6]).value, t[6..]))
    else None
  }

  /** A string behind its opening quote. */
  function ReadString(t: string): (r: Option<(string, string)>)
    ensures r.Some? ==> |r.value.1| < |t|
    decreases |t|
  {
    if t != "" && t[0] == '"' then Some(("", t[1..]))
    else
      match ReadChar(t)
      case None => None
      case Some((c, after)) =>
        match ReadString(after)
        case None => None
        case Some((s, rest)) => Some(([c] + s, rest))
  }

  function ReadInt(t: string): (r: Option<(Json, string)>)
    ensures r.Some? ==> |r.value.1| < |t|
  {
    var digits := if t != "" && t[0] == '-' then t[1..] else t;
    match ReadNumeral(digits)
    case None => None
    case Some((n, rest)) =>
      var m: int := if t[0] == '-' then -n else n;
      if -0x1F_FFFF_FFFF_FFFF <= m <= 0x1F_FFFF_FFFF_FFFF then Some((JInt(m), rest)) else None
  }

  function ReadValue(t: string): (r: Option<(Json, string)>)
    ensures r.Some? ==> |r.value.1| < |t|
    decreases |t|, 3
  {
    if t == "" then None
    else if t[0] == '"' then
      match ReadString(t[1..])
      case None => None
      case Some((s, rest)) => Some((JString(s), rest))
    else if t[0] == '{' then
      match ReadMembers(t[1..])
      case None => None
      case Some((ms, rest)) => Some((JObject(ms), rest))
    else if "true" <= t then Some((JBool(true), t[4..]))
    else if "false" <= t then Some((JBool(false), t[5..]))
    else ReadInt(t)
  }

  /** An object behind its opening brace. */
  function ReadMembers(t: string): (r: Option<(seq<Member>, string)>)
    ensures r.Some? ==> |r.value.1| < |t|
    decreases |t|, 2
  {
    if t != "" && t[0] == '}' then Some(([], t[1..])) else ReadPairs(t)
  }

  /** One member or more, commas between them, and the closing brace. */
  function ReadPairs(t: string): (r: Option<(seq<Member>, string)>)
    ensures r.Some? ==> |r.value.1| < |t|
    decreases |t|, 1
  {
    match ReadPair(t)
    case None => None
    case Some((m, rest)) =>
      if rest != "" && rest[0] == '}' then Some(([m], rest[1..]))
      else if rest != "" && rest[0] == ',' then
        match ReadPairs(rest[1..])
        case None => None
        case Some((ms, end)) => Some(([m] + ms, end))
      else None
  }

  function ReadPair(t: string): (r: Option<(Member, string)>)
    ensures r.Some? ==> |r.value.1| < |t|
    decreases |t|, 0
  {
    if t == "" || t[0] != '"' then None
    else
      match ReadString(t[1..])
      case None => None
      case Some((name, rest)) =>
        if rest == "" || rest[0] != ':' then None
        else
          match ReadValue(rest[1..])
          case None => None
          case Some((value, end)) => Some((Member(name, value), end))
  }

  // ---------------------------------------------------------------- what is written is read back

  /** What is written for a character is read as that character. */
  lemma CharIsRead(c: char, r: string)
    ensures ReadChar(Escape(c) + r) == Some((c, r))
  {
    hide Escape, ReadShort, ReadHex;
    EscapeForms(c);
    var e := Escape(c);
    var t := e + r;
    assert t[0] == e[0];
    assert t[|e|..] == r;
    if |e| == 6 {
      assert t[1] == e[1];
      assert t[2..6] == e[2..6];
    } else if |e| == 2 {
      assert t[1] == e[1];
    }
  }

  /** A character stands for itself, or a backslash and one letter or a backslash and five do. */
  lemma EscapeForms(c: char)
    ensures var e := Escape(c);
            || (|e| == 1 && e[0] == c && c != '"' && c != '\\' && c as int >= 32)
            || (|e| == 2 && e[0] == '\\' && ReadShort(e[1]) == Some(c))
            || (|e| == 6 && e[0] == '\\' && e[1] == 'u' && ReadShort('u') == None && ReadHex(e[2..6]) == Some(c))
  {
    if |Escape(c)| == 6 { ControlIsRead(c); }
  }

  lemma ControlIsRead(c: char)
    requires |Escape(c)| == 6
    ensures Escape(c)[0] == '\\' && Escape(c)[1] == 'u' && ReadHex(Escape(c)[2..6]) == Some(c)
  {
    var x := c as int;
    assert HexValue(HexDigit(x / 16)) == Some(x / 16) && HexValue(HexDigit(x % 16)) == Some(x % 16);
  }

  /** Nothing shorter is read as that character, and its letters are small ones. */
  lemma EscapeIsShortest(c: char, t: string)
    requires ReadChar(t) == Some((c, ""))
    ensures |Escape(c)| <= |t|
    ensures |Escape(c)| == 6 ==> forall i :: 0 <= i < 6 ==> !('A' <= Escape(c)[i] <= 'Z')
  {
  }

  lemma {:induction false} StringIsRead(s: string, r: string)
    ensures ReadString(Escaped(s) + ("\"" + r)) == Some((s, r))
  {
    hide Escape, ReadChar;
    if s == "" {
      assert ("" + ("\"" + r))[1..] == r;
    } else {
      var after := Escaped(s[1..]) + ("\"" + r);
      assert Escaped(s) + ("\"" + r) == Escape(s[0]) + after;
      CharIsRead(s[0], after);
      StringIsRead(s[1..], r);
      assert s == [s[0]] + s[1..];
      assert (Escape(s[0]) + after)[0] == Escape(s[0])[0];
    }
  }

  lemma QuoteIsRead(s: string, r: string)
    ensures Quote(s) + r != "" && (Quote(s) + r)[0] == '"' && ReadString((Quote(s) + r)[1..]) == Some((s, r))
  {
    hide Escaped, ReadString;
    StringIsRead(s, r);
    assert (Quote(s) + r)[1..] == Escaped(s) + ("\"" + r);
  }

  lemma IntIsRead(n: SafeInt, r: string)
    requires !StartsWithDigit(r)
    ensures ReadInt(IntText(n) + r) == Some((JInt(n), r))
  {
    hide Natural, ReadNumeral;
    var t := IntText(n) + r;
    assert t[0] == IntText(n)[0];
    if n < 0 { assert t[1..] == Natural(-n) + r; }
    NumeralIsRead(if n < 0 then -n else n, r);
  }

  /** The first character of a value's text, by kind. */
  lemma FirstChar(j: Json)
    ensures Text(j) != ""
    ensures match j
            case JString(_) => Text(j)[0] == '"'
            case JBool(b) => Text(j)[0] == if b then 't' else 'f'
            case JInt(n) => Text(j)[0] == '-' || IsDigit(Text(j)[0])
            case JObject(_) => Text(j)[0] == '{'
  {
    hide Escaped, MembersText, Natural;
  }

  /** What is written is read back, whatever follows it, unless that goes on with a digit. */
  lemma {:induction false} TextIsRead(j: Json, r: string)
    requires !StartsWithDigit(r)
    ensures ReadValue(Text(j) + r) == Some((j, r))
    decreases j, 2
  {
    hide Quote, MembersText, IntText, ReadString, ReadMembers, ReadInt;
    FirstChar(j);
    var t := Text(j) + r;
    assert t[0] == Text(j)[0];
    match j
    case JString(s) => QuoteIsRead(s, r);
    case JBool(b) => assert Text(j) <= t && t[|Text(j)|..] == r;
    case JInt(n) => IntIsRead(n, r);
    case JObject(ms) =>
      assert t[1..] == MembersText(ms) + r;
      MembersAreRead(ms, r);
  }

  lemma {:induction false} MembersAreRead(ms: seq<Member>, r: string)
    ensures ReadMembers(MembersText(ms) + r) == Some((ms, r))
    decreases ms, 1
  {
    hide Quote, Text, MembersText, ReadPairs;
    MembersStart(ms, r);
    if ms != [] { PairsAreRead(ms, r); }
  }

  lemma {:induction false} PairsAreRead(ms: seq<Member>, r: string)
    requires ms != []
    ensures ReadPairs(MembersText(ms) + r) == Some((ms, r))
    decreases ms, 0
  {
    hide Quote, Text, MembersText, ReadPair;
    MembersStart(ms, r);
    RestStart(ms, r);
    PairIsRead(ms[0], Rest(ms) + r);
    if |ms| == 1 {
      assert ms == [ms[0]];
    } else {
      PairsAreRead(ms[1..], r);
      assert ms == [ms[0]] + ms[1..];
    }
  }

  lemma {:induction false} PairIsRead(m: Member, r: string)
    requires !StartsWithDigit(r)
    ensures ReadPair(Quote(m.name) + (":" + (Text(m.value) + r))) == Some((m, r))
    decreases m, 0
  {
    hide Quote, Text, ReadString, ReadValue;
    var after := ":" + (Text(m.value) + r);
    QuoteIsRead(m.name, after);
    assert after[1..] == Text(m.value) + r;
    TextIsRead(m.value, r);
  }

  /** So different serialisations never run together. */
  lemma TextUnique(a: Json, b: Json, r: string, r': string)
    requires Text(a) + r == Text(b) + r'
    requires !StartsWithDigit(r) && !StartsWithDigit(r')
    ensures a == b && r == r'
  {
    hide Text, ReadValue;
    TextIsRead(a, r);
    TextIsRead(b, r');
  }

  /** What follows a member's value. */
  function Rest(ms: seq<Member>): string
    requires ms != []
  {
    if |ms| == 1 then "}" else "," + MembersText(ms[1..])
  }

  lemma RestStart(ms: seq<Member>, r: string)
    requires ms != []
    ensures Rest(ms) + r != "" && (Rest(ms) + r)[0] == if |ms| == 1 then '}' else ','
    ensures |ms| == 1 ==> Rest(ms) + r == "}" + r
    ensures |ms| > 1 ==> Rest(ms) + r == "," + (MembersText(ms[1..]) + r)
  {
    hide MembersText;
  }

  lemma Regroup(a: string, b: string, c: string, d: string, r: string)
    ensures (a + b + c + d) + r == a + (b + (c + (d + r)))
  {
  }

  lemma MembersStart(ms: seq<Member>, r: string)
    ensures MembersText(ms) + r != ""
    ensures (MembersText(ms) + r)[0] == if ms == [] then '}' else '"'
    ensures ms == [] ==> MembersText(ms) + r == "}" + r
    ensures ms != [] ==>
              MembersText(ms) + r == Quote(ms[0].name) + (":" + (Text(ms[0].value) + (Rest(ms) + r)))
  {
    hide Text, Quote, MembersText, Rest;
    MembersFirst(ms);
    if ms != [] { Regroup(Quote(ms[0].name), ":", Text(ms[0].value), Rest(ms), r); }
  }

  lemma MembersFirst(ms: seq<Member>)
    ensures ms == [] ==> MembersText(ms) == "}"
    ensures ms != [] ==> MembersText(ms) == Quote(ms[0].name) + ":" + Text(ms[0].value) + Rest(ms)
    ensures ms != [] ==> Quote(ms[0].name) != "" && Quote(ms[0].name)[0] == '"'
  {
    hide Text, Escaped;
  }
}
