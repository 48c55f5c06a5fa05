/** Canonical JSON identifies exactly the values that are equal as nested dictionaries. */
module JsonMeaning {
  import opened Ordering
  import opened Utf8
  import opened Json
  import opened DecimalText

  /** A value up to the insertion order of its dictionaries. */
  datatype Value =
    | VString(text: string)
    | VBool(value: bool)
    | VInt(number: SafeInt)
    | VObject(fields: map<string, Value>)

  function Meaning(j: Json): Value
    decreases j, 1
  {
    match j
    case JString(s) => VString(s)
    case JBool(b) => VBool(b)
    case JInt(n) => VInt(n)
    case JObject(ms) => VObject(Fields(ms))
  }

  function Fields(ms: seq<Member>): map<string, Value>
    decreases ms, 0
  {
    if ms == [] then map[] else Fields(ms[1..])[ms[0].name := Meaning(ms[0].value)]
  }

  /** At every level no name occurs twice, as in any dictionary. */
  ghost predicate IsDict(j: Json)
    decreases j
  {
    match j
    case JObject(ms) => DistinctNames(ms) && forall i :: 0 <= i < |ms| ==> IsDict(ms[i].value)
    case _ => true
  }

  ghost predicate DistinctNames(ms: seq<Member>) {
    forall i, j :: 0 <= i < j < |ms| ==> ms[i].name != ms[j].name
  }

  lemma DistinctNamesAreKeys(ms: seq<Member>)
    ensures DistinctNames(ms) <==> DistinctKeys(ms, MemberKey)
  {
    forall i, j | 0 <= i < j < |ms| ensures ms[i].name != ms[j].name <==> MemberKey(ms[i]) != MemberKey(ms[j]) {
      if MemberKey(ms[i]) == MemberKey(ms[j]) { Utf16Injective(ms[i].name, ms[j].name); }
    }
  }

  lemma {:induction false} FieldAt(ms: seq<Member>, i: int)
    requires DistinctNames(ms) && 0 <= i < |ms|
    ensures ms[i].name in Fields(ms) && Fields(ms)[ms[i].name] == Meaning(ms[i].value)
    decreases |ms|
  {
    hide Meaning;
    if i > 0 {
      FieldAt(ms[1..], i - 1);
      assert ms[1..][i - 1] == ms[i] && ms[0].name != ms[i].name;
    }
  }

  lemma {:induction false} FieldNames(ms: seq<Member>, name: string)
    ensures name in Fields(ms) <==> exists i :: 0 <= i < |ms| && ms[i].name == name
    decreases |ms|
  {
    hide Meaning;
    if ms != [] {
      FieldNames(ms[1..], name);
      if name in Fields(ms[1..]) {
        var i :| 0 <= i < |ms[1..]| && ms[1..][i].name == name;
        assert ms[i + 1].name == name;
      }
      if i :| 0 <= i < |ms| && ms[i].name == name {
        if i > 0 { assert ms[1..][i - 1].name == name; }
      }
      if ms[0].name == name { assert ms[0].name == name; }
    }
  }

  lemma {:induction false} CanonMemberAt(ms: seq<Member>, i: int)
    requires 0 <= i < |ms|
    ensures CanonMembers(ms)[i] == Member(ms[i].name, Canon(ms[i].value))
    decreases |ms|
  {
    hide Canon;
    if i > 0 { CanonMemberAt(ms[1..], i - 1); }
  }

  // ---------------------------------------------------------------- equal values, equal bytes

  lemma {:induction false} SameMeaningSameCanon(a: Json, b: Json)
    requires IsDict(a) && IsDict(b) && Meaning(a) == Meaning(b)
    ensures Canon(a) == Canon(b)
    decreases a
  {
    hide Sort, Fields, CanonMembers;
    match a
    case JObject(ms) =>
      var ns := b.members;
      var cm, cn := CanonMembers(ms), CanonMembers(ns);
      forall i | 0 <= i < |ms| ensures cm[i] in cn {
        FieldAt(ms, i); FieldNames(ns, ms[i].name);
        var j :| 0 <= j < |ns| && ns[j].name == ms[i].name;
        MembersMatch(ms, ns, i, j);
      }
      forall j | 0 <= j < |ns| ensures cn[j] in cm {
        FieldAt(ns, j); FieldNames(ms, ns[j].name);
        var i :| 0 <= i < |ms| && ms[i].name == ns[j].name;
        MembersMatch(ms, ns, i, j);
      }
      DistinctNamesAreKeys(cm); DistinctNamesAreKeys(cn);
      SameElements(cm, cn, MemberKey);
      SortForgetsOrder(cm, cn, MemberKey);
    case _ =>
  }

  /** Members of the same name have the same canonical form. */
  lemma {:induction false} MembersMatch(ms: seq<Member>, ns: seq<Member>, i: int, j: int)
    requires DistinctNames(ms) && DistinctNames(ns) && Fields(ms) == Fields(ns)
    requires 0 <= i < |ms| && 0 <= j < |ns| && ms[i].name == ns[j].name
    requires IsDict(ms[i].value) && IsDict(ns[j].value)
    ensures CanonMembers(ms)[i] == CanonMembers(ns)[j]
    decreases ms
  {
    hide Canon, Meaning, Fields, CanonMembers, IsDict;
    FieldAt(ms, i); FieldAt(ns, j);
    CanonMemberAt(ms, i); CanonMemberAt(ns, j);
    SameMeaningSameCanon(ms[i].value, ns[j].value);
  }

  // ---------------------------------------------------------------- equal bytes, equal values

  lemma {:induction false} CanonKeepsMeaning(j: Json)
    requires IsDict(j)
    ensures Meaning(Canon(j)) == Meaning(j) && IsDict(Canon(j))
    decreases j
  {
    hide Sort, Fields, CanonMembers;
    match j
    case JObject(ms) =>
      var cm := CanonMembers(ms);
      var sorted := Sort(cm, MemberKey);
      DistinctNamesAreKeys(cm); SortKeeps(cm, MemberKey); DistinctNamesAreKeys(sorted);
      forall k | 0 <= k < |sorted| ensures IsDict(sorted[k].value)
        ensures sorted[k].name in Fields(ms) && Fields(ms)[sorted[k].name] == Meaning(sorted[k].value)
      {
        assert sorted[k] in cm;
        var i :| 0 <= i < |cm| && cm[i] == sorted[k];
        CanonMemberAt(ms, i); FieldAt(ms, i);
        CanonKeepsMeaning(ms[i].value);
      }
      forall name ensures name in Fields(ms) ==> name in Fields(sorted) {
        FieldNames(ms, name); FieldNames(sorted, name);
        if name in Fields(ms) {
          var i :| 0 <= i < |ms| && ms[i].name == name;
          assert cm[i] in sorted;
          var k :| 0 <= k < |sorted| && sorted[k] == cm[i];
          assert sorted[k].name == name;
        }
      }
      SameFields(ms, sorted);
    case _ =>
  }

  lemma SameFields(ms: seq<Member>, sorted: seq<Member>)
    requires DistinctNames(sorted)
    requires forall k :: 0 <= k < |sorted| ==>
               sorted[k].name in Fields(ms) && Fields(ms)[sorted[k].name] == Meaning(sorted[k].value)
    requires forall name :: name in Fields(ms) ==> name in Fields(sorted)
    ensures Fields(sorted) == Fields(ms)
  {
    hide Meaning, Fields;
    forall name | name in Fields(sorted) ensures name in Fields(ms) && Fields(ms)[name] == Fields(sorted)[name] {
      FieldNames(sorted, name);
      var k :| 0 <= k < |sorted| && sorted[k].name == name;
      FieldAt(sorted, k);
    }
    assert Fields(sorted).Keys == Fields(ms).Keys;
  }

  // ---------------------------------------------------------------- the canonical order

  /** At every level the members ascend by the UTF-16 code units of their names. */
  ghost predicate InUnitOrder(j: Json)
    decreases j
  {
    match j
    case JObject(ms) =>
      && (forall i, k :: 0 <= i < k < |ms| ==> Less(Utf16(ms[i].name), Utf16(ms[k].name)))
      && (forall i :: 0 <= i < |ms| ==> InUnitOrder(ms[i].value))
    case _ => true
  }

  lemma {:induction false} CanonInOrder(j: Json)
    requires IsDict(j)
    ensures InUnitOrder(Canon(j))
    decreases j
  {
    hide Sort, CanonMembers, Less, Utf16;
    match j
    case JObject(ms) =>
      var cm := CanonMembers(ms);
      DistinctNamesAreKeys(cm);
      SortAscending(cm, MemberKey); SortKeeps(cm, MemberKey);
      var sorted := Sort(cm, MemberKey);
      forall i, k | 0 <= i < k < |sorted| ensures Less(Utf16(sorted[i].name), Utf16(sorted[k].name)) {
        assert Less(MemberKey(sorted[i]), MemberKey(sorted[k]));
      }
      forall k | 0 <= k < |sorted| ensures InUnitOrder(sorted[k].value) {
        assert sorted[k] in cm;
        var i :| 0 <= i < |cm| && cm[i] == sorted[k];
        CanonMemberAt(ms, i);
        CanonInOrder(ms[i].value);
      }
    case _ =>
  }

  /** A value in that order is its own canonical form. */
  lemma {:induction false} OrderedIsCanon(j: Json)
    requires IsDict(j) && InUnitOrder(j)
    ensures Canon(j) == j
    decreases j
  {
    hide Sort, CanonMembers, Less, Utf16;
    match j
    case JObject(ms) =>
      var cm := CanonMembers(ms);
      forall i | 0 <= i < |ms| ensures cm[i] == ms[i] {
        CanonMemberAt(ms, i);
        OrderedIsCanon(ms[i].value);
      }
      assert cm == ms;
      DistinctNamesAreKeys(ms);
      SortAscending(ms, MemberKey); SortMembers(ms, MemberKey);
      assert Ascending(ms, MemberKey);
      AscendingUnique(Sort(ms, MemberKey), ms, MemberKey);
    case _ =>
  }

  /** The canonical form of a dictionary is the one value equal to it, up to the order of members,
      whose members ascend by the UTF-16 code units of their names at every level. */
  lemma CanonicalForm(j: Json, c: Json)
    requires IsDict(j) && IsDict(c)
    ensures c == Canon(j) <==> Meaning(c) == Meaning(j) && InUnitOrder(c)
  {
    hide Canon, Meaning, InUnitOrder;
    CanonInOrder(j);
    CanonKeepsMeaning(j);
    if Meaning(c) == Meaning(j) && InUnitOrder(c) {
      SameMeaningSameCanon(c, j);
      OrderedIsCanon(c);
    }
  }

  /** The canonical bytes are UTF-8 of a text that reads, without any white space, as one value: the
      one serialised, in that order. */
  lemma CanonicalIsRead(j: Json)
    requires IsDict(j)
    ensures Decode(Jcs(j)).Some?
    ensures var r := ReadValue(Decode(Jcs(j)).value);
            r.Some? && r.value.1 == "" && Meaning(r.value.0) == Meaning(j) && InUnitOrder(r.value.0)
  {
    hide Canon, Meaning, InUnitOrder, Text, Encode, Decode, ReadValue;
    CanonInOrder(j);
    CanonKeepsMeaning(j);
    TextIsRead(Canon(j), "");
    assert Text(Canon(j)) + "" == Text(Canon(j));
    DecodeInverse(Jcs(j), Text(Canon(j)));
  }

  /** The canonical bytes of two values are equal exactly when the values are equal up to the
      insertion order of their dictionaries. */
  lemma CanonicalBytes(a: Json, b: Json)
    requires IsDict(a) && IsDict(b)
    ensures Jcs(a) == Jcs(b) <==> Meaning(a) == Meaning(b)
  {
    hide Canon, Text, Encode, Meaning;
    if Meaning(a) == Meaning(b) { SameMeaningSameCanon(a, b); }
    if Jcs(a) == Jcs(b) {
      EncodeInjective(Text(Canon(a)), Text(Canon(b)));
      assert Text(Canon(a)) + "" == Text(Canon(b)) + "";
      TextUnique(Canon(a), Canon(b), "", "");
      CanonKeepsMeaning(a); CanonKeepsMeaning(b);
    }
  }
}
