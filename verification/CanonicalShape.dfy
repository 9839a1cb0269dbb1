/**
 What the canonical text of a value is, told without the functions that write it: the
 characters of every literal, number and string, brackets and commas around the texts of
 the parts, members in ascending order of their keys; and of all texts that read as the
 value, a shortest one.
*/
module CanonicalShape {
  import opened Wrappers
  import opened Ordering
  import opened Numerals
  import opened CanonicalJson

  // ---------- Literals and numbers ----------

  lemma LiteralTexts()
    ensures Encode(Null) == "null" && Encode(Bool(true)) == "true" && Encode(Bool(false)) == "false"
  {}

  /** The decimal digits of the number, without a leading zero, after a minus sign if it is negative. */
  lemma NumberIsDecimal(n: nat)
    ensures var s := Encode(Number(n));
            (forall i | 0 <= i < |s| :: '0' <= s[i] <= '9') && Value(s) == n && s != "" && (|s| > 1 ==> s[0] != '0')
    ensures var m: int := n; m > 0 ==> Encode(Number(-m)) == "-" + Encode(Number(m))
  {
    ValueOfDecimal(n);
    NoLeadingZero(n);
  }

  lemma {:induction false} NoLeadingZero(n: nat)
    ensures |ToDecimal(n)| > 1 ==> ToDecimal(n)[0] != '0'
    ensures n > 0 ==> ToDecimal(n)[0] != '0'
  {
    if n >= 10 {
      NoLeadingZero(n / 10);
    }
  }

  // ---------- Strings ----------

  /** Quotes, backslashes and the characters below 32 are written as escapes, each in one way; everything else as itself. */
  lemma CharacterText(c: char)
    ensures Encode(Text([c])) ==
              if c == '\"' then "\"\\\"\""
              else if c == '\\' then "\"\\\\\""
              else if c == '\U{8}' then "\"\\b\""
              else if c == '\U{9}' then "\"\\t\""
              else if c == '\U{A}' then "\"\\n\""
              else if c == '\U{C}' then "\"\\f\""
              else if c == '\U{D}' then "\"\\r\""
              else if c as int < 32 then "\"\\u00" + TwoHexDigits(c as int) + "\""
              else "\"" + [c] + "\""
  {
    OneCharacter(c);
    if c as int < 32 {
      HexDigits(c as int / 16);
      HexDigits(c as int % 16);
    }
  }

  lemma OneCharacter(c: char)
    ensures Encode(Text([c])) == "\"" + EscapeChar(c) + "\""
  {
    assert [c][1..] == "";
    assert Escape([c]) == EscapeChar(c) + "";
  }

  function TwoHexDigits(n: nat): string
    requires n < 256
  {
    ["0123456789abcdef"[n / 16], "0123456789abcdef"[n % 16]]
  }

  lemma HexDigits(d: nat)
    requires d < 16
    ensures HexChar(d) == "0123456789abcdef"[d]
  {}

  lemma {:induction false} EscapeConcatenates(a: string, b: string)
    ensures Escape(a + b) == Escape(a) + Escape(b)
  {
    if a == "" {
      assert a + b == b;
    } else {
      assert (a + b)[1..] == a[1..] + b;
      EscapeConcatenates(a[1..], b);
      Assoc(EscapeChar(a[0]), Escape(a[1..]), Escape(b));
    }
  }

  /** The text of a string is that of its characters, one after the other, between one pair of quotes. */
  lemma StringTexts(a: string, b: string)
    ensures Encode(Text("")) == "\"\""
    ensures |Encode(Text(a))| >= 2 && |Encode(Text(b))| >= 2
    ensures Encode(Text(a + b)) == Encode(Text(a))[..|Encode(Text(a))| - 1] + Encode(Text(b))[1..]
  {
    EscapeConcatenates(a, b);
    Quoted(Escape(a), Escape(b));
  }

  lemma Quoted(a: string, b: string)
    ensures var left, right := "\"" + a + "\"", "\"" + b + "\""; "\"" + (a + b) + "\"" == left[..|left| - 1] + right[1..]
  {
    var left, right := "\"" + a + "\"", "\"" + b + "\"";
    assert left[..|left| - 1] == "\"" + a && right[1..] == b + "\"";
    Assoc("\"", a, b);
    Assoc("\"" + a, b, "\"");
  }

  ghost predicate Plain(s: string) {
    forall i | 0 <= i < |s| :: s[i] != '\"' && s[i] != '\\' && s[i] as int >= 32
  }

  /** Without quotes, backslashes and control characters a string is written as it is. */
  lemma {:induction false} PlainStringIsItself(s: string)
    requires Plain(s)
    ensures Encode(Text(s)) == "\"" + s + "\""
  {
    PlainEscape(s);
  }

  lemma {:induction false} PlainEscape(s: string)
    requires Plain(s)
    ensures Escape(s) == s
  {
    if s != "" {
      PlainEscape(s[1..]);
      assert s == [s[0]] + s[1..];
    }
  }

  // ---------- Arrays ----------

  lemma {:induction false} JoinConcatenates(a: seq<string>, b: seq<string>)
    requires a != [] && b != []
    ensures Join(a + b) == Join(a) + "," + Join(b)
  {
    if |a| == 1 {
      assert (a + b)[1..] == b;
    } else {
      assert (a + b)[1..] == a[1..] + b;
      JoinConcatenates(a[1..], b);
      var head, tail, rest := a[0] + ",", Join(a[1..]), Join(b);
      Assoc(head, tail, "," + rest);
      assert head + (tail + "," + rest) == head + tail + "," + rest;
    }
  }

  /** Brackets around the texts of the elements, in order, with commas between them. */
  lemma ArrayTexts(v: Json, a: seq<Json>, b: seq<Json>)
    ensures Encode(Array([])) == "[]" && Encode(Array([v])) == "[" + Encode(v) + "]"
    ensures |Encode(Array(a))| >= 2 && |Encode(Array(b))| >= 2
    ensures a != [] && b != [] ==>
              Encode(Array(a + b)) == Encode(Array(a))[..|Encode(Array(a))| - 1] + "," + Encode(Array(b))[1..]
  {
    assert ElementTexts(Array([])) == [] && ElementTexts(Array([v])) == [Encode(v)];
    if a != [] && b != [] {
      assert ElementTexts(Array(a + b)) == ElementTexts(Array(a)) + ElementTexts(Array(b));
      Bracketed("[", ElementTexts(Array(a)), ElementTexts(Array(b)), "]");
    }
  }

  lemma Bracketed(open: string, a: seq<string>, b: seq<string>, close: string)
    requires a != [] && b != [] && |open| == 1 && |close| == 1
    ensures var left, right := open + Join(a) + close, open + Join(b) + close;
            open + Join(a + b) + close == left[..|left| - 1] + "," + right[1..]
  {
    JoinConcatenates(a, b);
    var left, right := open + Join(a) + close, open + Join(b) + close;
    assert left[..|left| - 1] == open + Join(a);
    assert right[1..] == Join(b) + close;
    assert open + (Join(a) + "," + Join(b)) + close == open + Join(a) + "," + (Join(b) + close);
  }

  // ---------- Objects ----------

  /** Braces around the members, key first, in ascending order of their keys, with commas between them. */
  lemma ObjectTexts(key: string, v: Json, a: map<string, Json>, b: map<string, Json>)
    ensures Encode(Object(map[])) == "{}" && Encode(Object(map[key := v])) == "{" + Encode(Text(key)) + ":" + Encode(v) + "}"
    ensures |Encode(Object(a))| >= 2 && |Encode(Object(b))| >= 2
    ensures a != map[] && b != map[] && (forall j, k | j in a && k in b :: Less(j, k)) ==>
              Encode(Object(a + b)) == Encode(Object(a))[..|Encode(Object(a))| - 1] + "," + Encode(Object(b))[1..]
  {
    EmptyAndOneMember(key, v);
    if a != map[] && b != map[] && forall j, k | j in a && k in b :: Less(j, k) {
      ObjectsConcatenate(a, b);
    }
  }

  lemma ObjectsConcatenate(a: map<string, Json>, b: map<string, Json>)
    requires a != map[] && b != map[] && forall j, k | j in a && k in b :: Less(j, k)
    ensures Encode(Object(a + b)) == Encode(Object(a))[..|Encode(Object(a))| - 1] + "," + Encode(Object(b))[1..]
  {
    var ja := ObjectKeys(a);
    var jb := ObjectKeys(b);
    AscendingConcatenates(a, b, ja, jb);
    ObjectOfKeys(a + b, ja + jb);
    ObjectsOfKeysConcatenate(a, b, ja, jb);
  }

  /** The keys of the object in the order of its text. */
  ghost predicate KeysOf(members: map<string, Json>, keys: seq<string>) {
    Ascending(keys) && |keys| == |members.Keys| && forall k :: k in keys <==> k in members
  }

  lemma ObjectKeys(members: map<string, Json>) returns (keys: seq<string>)
    ensures KeysOf(members, keys) && (members != map[] ==> keys != [])
    ensures Encode(Object(members)) == "{" + Join(MemberTexts(Object(members), keys)) + "}"
  {
    keys := SortedKeys(members.Keys);
    if members != map[] {
      var k :| k in members;
      assert k in keys;
    }
  }

  lemma ObjectOfKeys(members: map<string, Json>, keys: seq<string>)
    requires KeysOf(members, keys)
    ensures Encode(Object(members)) == "{" + Join(MemberTexts(Object(members), keys)) + "}"
  {
    SortedKeysUnique(members.Keys, keys);
  }

  lemma AscendingConcatenates(a: map<string, Json>, b: map<string, Json>, ja: seq<string>, jb: seq<string>)
    requires KeysOf(a, ja) && KeysOf(b, jb) && forall j, k | j in a && k in b :: Less(j, k)
    ensures KeysOf(a + b, ja + jb)
  {
    var keys := ja + jb;
    forall i, j | 0 <= i < j < |keys|
      ensures Less(keys[i], keys[j])
    {
      if i < |ja| <= j {
        assert keys[i] in ja && keys[j] in jb;
      }
    }
    forall k | k in a
      ensures k !in b
    {
      LessIrreflexive(k);
    }
    assert (a + b).Keys == a.Keys + b.Keys && |a.Keys + b.Keys| == |a.Keys| + |b.Keys|;
  }

  lemma ObjectsOfKeysConcatenate(a: map<string, Json>, b: map<string, Json>, ja: seq<string>, jb: seq<string>)
    requires ja != [] && jb != [] && (forall k | k in ja :: k in a) && (forall k | k in jb :: k in b)
    requires forall j, k | j in a && k in b :: Less(j, k)
    ensures (forall k | k in ja + jb :: k in a + b)
    ensures var left, right := "{" + Join(MemberTexts(Object(a), ja)) + "}", "{" + Join(MemberTexts(Object(b), jb)) + "}";
            "{" + Join(MemberTexts(Object(a + b), ja + jb)) + "}" == left[..|left| - 1] + "," + right[1..]
  {
    DisjointMembers(a, b, ja, jb);
    Bracketed("{", MemberTexts(Object(a), ja), MemberTexts(Object(b), jb), "}");
  }

  lemma EmptyAndOneMember(key: string, v: Json)
    ensures Encode(Object(map[])) == "{}" && Encode(Object(map[key := v])) == "{" + Encode(Text(key)) + ":" + Encode(v) + "}"
  {
    EmptyObject();
    OneMember(key, v);
  }

  lemma EmptyObject()
    ensures Encode(Object(map[])) == "{}"
  {
    var none: map<string, Json> := map[];
    assert none.Keys == {} && MemberTexts(Object(none), []) == [];
  }

  lemma OneMember(key: string, v: Json)
    ensures Encode(Object(map[key := v])) == "{" + Encode(Text(key)) + ":" + Encode(v) + "}"
  {
    var one := Object(map[key := v]);
    assert one.members.Keys == {key};
    SortedKeysUnique({key}, [key]);
    assert MemberTexts(one, [key]) == [MemberText(one, key)];
    assert Encode(one) == "{" + MemberText(one, key) + "}";
    Braced(Quote(key), Encode(v));
  }

  lemma Braced(key: string, v: string)
    ensures "{" + (key + ":" + v) + "}" == "{" + key + ":" + v + "}"
  {
    Assoc("{", key + ":", v);
    Assoc("{", key, ":");
  }

  lemma DisjointMembers(a: map<string, Json>, b: map<string, Json>, ja: seq<string>, jb: seq<string>)
    requires (forall k | k in ja :: k in a) && (forall k | k in jb :: k in b) && forall j, k | j in a && k in b :: Less(j, k)
    ensures MemberTexts(Object(a + b), ja + jb) == MemberTexts(Object(a), ja) + MemberTexts(Object(b), jb)
  {
    forall k | k in ja
      ensures k !in b
    {
      LessIrreflexive(k);
    }
    MembersConcatenate(Object(a + b), ja, jb);
    SameMembers(Object(a + b), Object(a), ja);
    SameMembers(Object(a + b), Object(b), jb);
  }

  lemma MembersConcatenate(record: Json, ja: seq<string>, jb: seq<string>)
    requires record.Object? && (forall k | k in ja :: k in record.members) && forall k | k in jb :: k in record.members
    ensures forall k | k in ja + jb :: k in record.members
    ensures MemberTexts(record, ja + jb) == MemberTexts(record, ja) + MemberTexts(record, jb)
  {}

  lemma SameMembers(r: Json, q: Json, keys: seq<string>)
    requires r.Object? && q.Object?
    requires forall k | k in keys :: k in r.members && k in q.members && r.members[k] == q.members[k]
    ensures MemberTexts(r, keys) == MemberTexts(q, keys)
  {
    forall i | 0 <= i < |keys|
      ensures MemberText(r, keys[i]) == MemberText(q, keys[i])
    {
      assert keys[i] in keys;
    }
  }

  /** The order of keys: at the first difference the smaller character, or the shorter text, comes first. */
  lemma {:induction false} LessIsLexicographic(a: string, b: string)
    ensures Less(a, b) <==>
            exists i :: 0 <= i <= |a| && i < |b| && a[..i] == b[..i] && (i == |a| || a[i] < b[i])
  {
    if a != "" && b != "" && a[0] == b[0] {
      LessIsLexicographic(a[1..], b[1..]);
      if Less(a[1..], b[1..]) {
        var i :| 0 <= i <= |a[1..]| && i < |b[1..]| && a[1..][..i] == b[1..][..i] && (i == |a[1..]| || a[1..][i] < b[1..][i]);
        assert a[..i + 1] == [a[0]] + a[1..][..i] && b[..i + 1] == [b[0]] + b[1..][..i];
        assert i + 1 == |a| || a[i + 1] < b[i + 1];
      }
      if i :| 0 <= i <= |a| && i < |b| && a[..i] == b[..i] && (i == |a| || a[i] < b[i]) {
        assert i > 0;
        assert a[1..][..i - 1] == a[..i][1..] && b[1..][..i - 1] == b[..i][1..];
        assert i - 1 == |a[1..]| || a[1..][i - 1] < b[1..][i - 1];
      }
    } else if b != "" {
      if Less(a, b) {
        assert a[..0] == b[..0];
      }
      if i :| 0 <= i <= |a| && i < |b| && a[..i] == b[..i] && (i == |a| || a[i] < b[i]) {
        if i > 0 {
          SameHeads(a, b, i);
          assert false;
        }
      }
    }
  }

  lemma SameHeads(a: string, b: string, i: nat)
    requires 0 < i <= |a| && i <= |b| && a[..i] == b[..i]
    ensures a[0] == b[0]
  {
    assert a[..i][0] == a[0] && b[..i][0] == b[0];
  }

  // ---------- A shortest text ----------

  lemma {:induction false} ShortestDigits(digits: string)
    requires digits != "" && AllDigits(digits)
    ensures |ToDecimal(Value(digits))| <= |digits|
  {
    if |digits| > 1 {
      var front := digits[..|digits| - 1];
      ShortestDigits(front);
      assert Value(digits) == Value(front) * 10 + DigitValue(digits[|digits| - 1]);
      assert Value(digits) / 10 == Value(front);
    }
  }

  lemma ShortestNumber(s: string)
    requires DecodeNumber(s).Some?
    ensures var p := DecodeNumber(s).value; |Encode(p.value)| <= |s| - |p.rest|
  {
    var digits := if s != "" && s[0] == '-' then s[1..] else s;
    var k := DigitPrefix(digits);
    ShortestDigits(digits[..k]);
    assert digits[k..] == DecodeNumber(s).value.rest;
  }

  lemma ShortestEscape(s: string)
    requires DecodeEscape(s).Some?
    ensures var p := DecodeEscape(s).value; |EscapeChar(p.value)| <= 1 + |s| - |p.rest|
  {}

  lemma {:induction false} ShortestText(s: string)
    requires DecodeText(s).Some?
    ensures var p := DecodeText(s).value; |Escape(p.value)| + 1 <= |s| - |p.rest|
    decreases |s|
  {
    if s[0] != '\"' {
      var first := if s[0] == '\\' then DecodeEscape(s[1..]) else Some(Parsed(s[0], s[1..]));
      if s[0] == '\\' {
        ShortestEscape(s[1..]);
      }
      ShortestText(first.value.rest);
      var tail := DecodeText(first.value.rest).value.value;
      assert ([first.value.value] + tail)[1..] == tail;
    }
  }

  lemma JoinSize(head: string, tail: seq<string>)
    ensures |Join([head] + tail)| == |head| + if tail == [] then 0 else 1 + |Join(tail)|
  {
    assert ([head] + tail)[1..] == tail;
  }

  lemma {:induction false} JoinSizeAround(a: seq<string>, part: string, b: seq<string>)
    ensures |Join(a + [part] + b)| == |part| + if a + b == [] then 0 else 1 + |Join(a + b)|
  {
    if a == [] {
      assert a + [part] + b == [part] + b && a + b == b;
      JoinSize(part, b);
    } else {
      var rest := a[1..] + [part] + b;
      assert a + [part] + b == [a[0]] + rest && a + b == [a[0]] + (a[1..] + b);
      JoinSizeAround(a[1..], part, b);
      JoinSize(a[0], rest);
      JoinSize(a[0], a[1..] + b);
    }
  }

  ghost function MembersSize(members: map<string, Json>): nat {
    |Join(MemberTexts(Object(members), SortedKeys(members.Keys)))|
  }

  lemma WithoutKey(keys: seq<string>, i: nat, s: set<string>, key: string)
    requires Ascending(keys) && i < |keys| && keys[i] == key && |keys| == |s| && forall k :: k in keys <==> k in s
    ensures var others := keys[..i] + keys[i + 1..];
            Ascending(others) && |others| == |s - {key}| && forall k :: k in others <==> k in s - {key}
  {
    var others := keys[..i] + keys[i + 1..];
    assert key in keys;
    forall k
      ensures k in others <==> k in s - {key}
    {
      if k in others {
        var j :| 0 <= j < |others| && others[j] == k;
        assert k == keys[if j < i then j else j + 1];
        LessIrreflexive(k);
      }
      if k in s - {key} {
        var j :| 0 <= j < |keys| && keys[j] == k;
        assert k == others[if j < i then j else j - 1];
      }
    }
  }

  /** A new member adds its own text, and a comma if it is not alone. */
  lemma MemberAddsItsText(members: map<string, Json>, key: string, v: Json)
    requires key !in members
    ensures MembersSize(members[key := v]) == |Quote(key) + ":" + Encode(v)| + if members == map[] then 0 else 1 + MembersSize(members)
  {
    var more := members[key := v];
    var keys := ObjectKeys(more);
    var before, after := SplitAtKey(keys, more.Keys, key);
    assert more.Keys - {key} == members.Keys;
    MemberAddsAt(members, key, v, before, after);
  }

  lemma SplitAtKey(keys: seq<string>, s: set<string>, key: string) returns (before: seq<string>, after: seq<string>)
    requires Ascending(keys) && |keys| == |s| && key in s && forall k :: k in keys <==> k in s
    ensures keys == before + [key] + after && Ascending(before + after) && |before + after| == |s - {key}|
    ensures forall k :: k in before + after <==> k in s - {key}
  {
    assert key in keys;
    var i :| 0 <= i < |keys| && keys[i] == key;
    WithoutKey(keys, i, s, key);
    before, after := keys[..i], keys[i + 1..];
  }

  lemma SizeOfKeys(members: map<string, Json>, keys: seq<string>)
    requires KeysOf(members, keys)
    ensures MembersSize(members) == |Join(MemberTexts(Object(members), keys))|
  {
    SortedKeysUnique(members.Keys, keys);
  }

  lemma MemberAddsAt(members: map<string, Json>, key: string, v: Json, before: seq<string>, after: seq<string>)
    requires key !in members && KeysOf(members, before + after) && KeysOf(members[key := v], before + [key] + after)
    ensures MembersSize(members[key := v]) == |Quote(key) + ":" + Encode(v)| + if members == map[] then 0 else 1 + MembersSize(members)
  {
    var more := Object(members[key := v]);
    forall k | k in before || k in after
      ensures k in members
    {
      assert k in before + after;
    }
    SizeOfKeys(members, before + after);
    SizeOfKeys(members[key := v], before + [key] + after);
    TextsAround(members, key, v, before, after);
    JoinSizeAround(MemberTexts(more, before), MemberText(more, key), MemberTexts(more, after));
    assert members == map[] <==> members.Keys == {};
  }

  lemma TextsAround(members: map<string, Json>, key: string, v: Json, before: seq<string>, after: seq<string>)
    requires key !in members && (forall k | k in before :: k in members) && forall k | k in after :: k in members
    ensures var more := Object(members[key := v]);
            (forall k | k in before + [key] + after :: k in more.members)
            && MemberTexts(more, before + [key] + after)
               == MemberTexts(more, before) + [MemberText(more, key)] + MemberTexts(more, after)
            && MemberTexts(more, before) + MemberTexts(more, after) == MemberTexts(Object(members), before + after)
  {
    var more := Object(members[key := v]);
    MembersConcatenate(more, before + [key], after);
    MembersConcatenate(more, before, [key]);
    assert MemberTexts(more, [key]) == [MemberText(more, key)];
    MembersConcatenate(Object(members), before, after);
    SameMembers(more, Object(members), before);
    SameMembers(more, Object(members), after);
  }

  /** A text that reads as a value, up to what follows it, is at least as long as the canonical one. */
  lemma {:induction false} ShortestValue(s: string)
    requires Decode(s).Some?
    ensures var p := Decode(s).value; |Encode(p.value)| <= |s| - |p.rest|
    decreases |s|, 1
  {
    if s[0] == '\"' {
      ShortestText(s[1..]);
    } else if s[0] == '[' {
      ShortestArray(s[1..]);
    } else if s[0] == '{' {
      ShortestObject(s[1..]);
    } else if s[0] != 'n' && s[0] != 't' && s[0] != 'f' {
      ShortestNumber(s);
    }
  }

  lemma {:induction false} ShortestArray(s: string)
    requires DecodeArray(s).Some?
    ensures var p := DecodeArray(s).value; |Encode(p.value)| <= 1 + |s| - |p.rest|
    decreases |s|, 4
  {
    if s == "" || s[0] != ']' {
      ShortestElements(s);
    } else {
      assert ElementTexts(Array([])) == [];
    }
  }

  lemma {:induction false} ShortestElements(s: string)
    requires DecodeElements(s).Some?
    ensures var p := DecodeElements(s).value; p.value != [] && |Join(ElementTexts(Array(p.value)))| + 1 <= |s| - |p.rest|
    decreases |s|, 2
  {
    ShortestValue(s);
    var p := Decode(s).value;
    if p.rest[0] == ']' {
      assert ElementTexts(Array([p.value])) == [Encode(p.value)];
    } else {
      ShortestElements(p.rest[1..]);
      MoreElementsSize(p.value, DecodeElements(p.rest[1..]).value.value);
    }
  }

  lemma MoreElementsSize(v: Json, tail: seq<Json>)
    requires tail != []
    ensures |Join(ElementTexts(Array([v] + tail)))| == |Encode(v)| + 1 + |Join(ElementTexts(Array(tail)))|
  {
    assert ElementTexts(Array([v] + tail)) == [Encode(v)] + ElementTexts(Array(tail));
    JoinSize(Encode(v), ElementTexts(Array(tail)));
  }

  lemma {:induction false} ShortestObject(s: string)
    requires DecodeObject(s).Some?
    ensures var p := DecodeObject(s).value; |Encode(p.value)| <= 1 + |s| - |p.rest|
    decreases |s|, 4
  {
    if s == "" || s[0] != '}' {
      ShortestMembers(s);
    } else {
      var none: map<string, Json> := map[];
      assert none.Keys == {} && MemberTexts(Object(none), []) == [];
    }
  }

  lemma {:induction false} ShortestMembers(s: string)
    requires DecodeMembers(s).Some?
    ensures var p := DecodeMembers(s).value; p.value != map[] && MembersSize(p.value) + 1 <= |s| - |p.rest|
    decreases |s|, 2
  {
    ShortestText(s[1..]);
    var key := DecodeText(s[1..]).value;
    ShortestValue(key.rest[1..]);
    var v := Decode(key.rest[1..]).value;
    if v.rest[0] == '}' {
      OneMemberSize(key.value, v.value);
    } else {
      ShortestMembers(v.rest[1..]);
      MoreMembersSize(key.value, v.value, DecodeMembers(v.rest[1..]).value.value);
    }
  }

  lemma OneMemberSize(key: string, v: Json)
    ensures MembersSize(map[key := v]) == |Escape(key)| + 3 + |Encode(v)|
  {
    var none: map<string, Json> := map[];
    MemberAddsItsText(none, key, v);
    assert none[key := v] == map[key := v];
  }

  lemma MoreMembersSize(key: string, v: Json, tail: map<string, Json>)
    requires tail != map[]
    ensures MembersSize(map[key := v] + tail) <= |Escape(key)| + 4 + |Encode(v)| + MembersSize(tail)
    ensures map[key := v] + tail != map[]
  {
    if key in tail {
      assert map[key := v] + tail == tail;
    } else {
      assert map[key := v] + tail == tail[key := v];
      MemberAddsItsText(tail, key, v);
    }
  }

  /** Of all texts that read as the value and nothing more, the canonical one is a shortest. */
  lemma CanonicalIsShortest(value: Json, s: string)
    requires Decode(s) == Some(Parsed(value, ""))
    ensures Decode(Encode(value)) == Some(Parsed(value, "")) && |Encode(value)| <= |s|
  {
    ShortestValue(s);
    EncodingDecodes(value, "");
    assert Encode(value) + "" == Encode(value);
  }
}
