/**
 The canonical JSON text that manifests are hashed over, its writer, and a
 decoder that shows every text has exactly one reading. Objects are maps, so two
 values are equal regardless of the order in which their members were inserted.
 Escaping follows section 7 of RFC 8259.
*/
module CanonicalJson {
  import opened Wrappers
  import opened Ordering
  import opened Numerals

  datatype Json =
    | Null
    | Bool(flag: bool)
    | Number(number: int)
    | Text(text: string)
    | Array(elements: seq<Json>)
    | Object(members: map<string, Json>)

  // ---------- The text of a value ----------

  function Join(parts: seq<string>): string {
    if parts == [] then ""
    else if |parts| == 1 then parts[0]
    else parts[0] + "," + Join(parts[1..])
  }

  function NumberText(n: int): (s: string)
    ensures s != ""
  {
    if n < 0 then "-" + ToDecimal(-n) else ToDecimal(n)
  }

  function EscapeChar(c: char): string {
    if c == '\"' then "\\\""
    else if c == '\\' then "\\\\"
    else if c as int == 8 then "\\b"
    else if c as int == 9 then "\\t"
    else if c as int == 10 then "\\n"
    else if c as int == 12 then "\\f"
    else if c as int == 13 then "\\r"
    else if c as int < 32 then "\\u00" + [HexChar(c as int / 16), HexChar(c as int % 16)]
    else [c]
  }

  function Escape(s: string): string {
    if s == "" then "" else EscapeChar(s[0]) + Escape(s[1..])
  }

  function Quote(s: string): string {
    "\"" + Escape(s) + "\""
  }

  function Encode(value: Json): (s: string)
    ensures s != ""
    decreases value, 2
  {
    match value
    case Null => "null"
    case Bool(flag) => if flag then "true" else "false"
    case Number(n) => NumberText(n)
    case Text(text) => Quote(text)
    case Array(_) => "[" + Join(ElementTexts(value)) + "]"
    case Object(members) => "{" + Join(MemberTexts(value, SortedKeys(members.Keys))) + "}"
  }

  function ElementTexts(list: Json): (parts: seq<string>)
    requires list.Array?
    decreases list, 0
  {
    seq(|list.elements|, i requires 0 <= i < |list.elements| => Encode(list.elements[i]))
  }

  function MemberText(record: Json, key: string): (s: string)
    requires record.Object? && key in record.members
    decreases record, 0
  {
    Quote(key) + ":" + Encode(record.members[key])
  }

  function MemberTexts(record: Json, keys: seq<string>): (parts: seq<string>)
    requires record.Object? && forall k | k in keys :: k in record.members
    decreases record, 1
  {
    seq(|keys|, i requires 0 <= i < |keys| => MemberText(record, keys[i]))
  }

  // ---------- Reading a text back ----------

  /** A value read from the front of a text, and what follows it. */
  datatype Parsed<+T> = Parsed(value: T, rest: string)

  function Literal(s: string, literal: string, value: Json): (r: Option<Parsed<Json>>)
    requires literal != ""
    ensures r.Some? ==> |r.value.rest| < |s|
  {
    if literal <= s then Some(Parsed(value, s[|literal|..])) else None
  }

  function DecodeDigits(s: string): (r: Option<Parsed<nat>>)
    ensures r.Some? ==> |r.value.rest| < |s|
  {
    var k := DigitPrefix(s);
    if k == 0 then None else Some(Parsed(Value(s[..k]), s[k..]))
  }

  function DecodeNumber(s: string): (r: Option<Parsed<Json>>)
    ensures r.Some? ==> |r.value.rest| < |s|
  {
    if s != "" && s[0] == '-' then
      match DecodeDigits(s[1..])
      case None => None
      case Some(p) => var n: int := p.value; Some(Parsed(Number(-n), p.rest))
    else
      match DecodeDigits(s)
      case None => None
      case Some(p) => Some(Parsed(Number(p.value), p.rest))
  }

  /** The character named by the escape that follows a backslash. */
  function DecodeEscape(s: string): (r: Option<Parsed<char>>)
    ensures r.Some? ==> |r.value.rest| < |s|
  {
    if s == "" then None
    else if s[0] == '\"' || s[0] == '\\' || s[0] == '/' then Some(Parsed(s[0], s[1..]))
    else if s[0] == 'b' then Some(Parsed(8 as char, s[1..]))
    else if s[0] == 't' then Some(Parsed(9 as char, s[1..]))
    else if s[0] == 'n' then Some(Parsed(10 as char, s[1..]))
    else if s[0] == 'f' then Some(Parsed(12 as char, s[1..]))
    else if s[0] == 'r' then Some(Parsed(13 as char, s[1..]))
    else if s[0] == 'u' && |s| >= 5 then
      var a, b, c, d := HexValue(s[1]), HexValue(s[2]), HexValue(s[3]), HexValue(s[4]);
      if a < 0 || b < 0 || c < 0 || d < 0 then None
      else
        var code := ((a * 16 + b) * 16 + c) * 16 + d;
        if 0xD800 <= code < 0xE000 then None else Some(Parsed(code as char, s[5..]))
    else None
  }

  /** Reads the rest of a string literal, up to and including its closing quote. */
  function DecodeText(s: string): (r: Option<Parsed<string>>)
    ensures r.Some? ==> |r.value.rest| < |s|
    decreases |s|
  {
    if s == "" || s[0] as int < 32 then None
    else if s[0] == '\"' then Some(Parsed("", s[1..]))
    else
      var first := if s[0] == '\\' then DecodeEscape(s[1..]) else Some(Parsed(s[0], s[1..]));
      match first
      case None => None
      case Some(c) =>
        match DecodeText(c.rest)
        case None => None
        case Some(p) => Some(Parsed([c.value] + p.value, p.rest))
  }

  function Decode(s: string): (r: Option<Parsed<Json>>)
    ensures r.Some? ==> |r.value.rest| < |s|
    decreases |s|, 1
  {
    if s == "" then None
    else if s[0] == 'n' then Literal(s, "null", Null)
    else if s[0] == 't' then Literal(s, "true", Bool(true))
    else if s[0] == 'f' then Literal(s, "false", Bool(false))
    else if s[0] == '\"' then
      match DecodeText(s[1..])
      case None => None
      case Some(p) => Some(Parsed(Text(p.value), p.rest))
    else if s[0] == '[' then DecodeArray(s[1..])
    else if s[0] == '{' then DecodeObject(s[1..])
    else DecodeNumber(s)
  }

  /** What follows an opening bracket. */
  function DecodeArray(s: string): (r: Option<Parsed<Json>>)
    ensures r.Some? ==> |r.value.rest| < |s|
    decreases |s|, 4
  {
    if s != "" && s[0] == ']' then Some(Parsed(Array([]), s[1..]))
    else
      match DecodeElements(s)
      case None => None
      case Some(p) => Some(Parsed(Array(p.value), p.rest))
  }

  /** What follows an opening brace. */
  function DecodeObject(s: string): (r: Option<Parsed<Json>>)
    ensures r.Some? ==> |r.value.rest| < |s|
    decreases |s|, 4
  {
    if s != "" && s[0] == '}' then Some(Parsed(Object(map[]), s[1..]))
    else
      match DecodeMembers(s)
      case None => None
      case Some(p) => Some(Parsed(Object(p.value), p.rest))
  }

  function DecodeElements(s: string): (r: Option<Parsed<seq<Json>>>)
    ensures r.Some? ==> |r.value.rest| < |s|
    decreases |s|, 2
  {
    match Decode(s)
    case None => None
    case Some(p) =>
      if p.rest != "" && p.rest[0] == ']' then Some(Parsed([p.value], p.rest[1..]))
      else if p.rest != "" && p.rest[0] == ',' then
        match DecodeElements(p.rest[1..])
        case None => None
        case Some(tail) => Some(Parsed([p.value] + tail.value, tail.rest))
      else None
  }

  function DecodeMembers(s: string): (r: Option<Parsed<map<string, Json>>>)
    ensures r.Some? ==> |r.value.rest| < |s|
    decreases |s|, 2
  {
    if s == "" || s[0] != '\"' then None
    else
      match DecodeText(s[1..])
      case None => None
      case Some(key) =>
        if key.rest == "" || key.rest[0] != ':' then None
        else
          match Decode(key.rest[1..])
          case None => None
          case Some(p) =>
            MemberContinues(map[key.value := p.value], p.rest)
  }

  /** After one member: the closing brace, or a comma and the remaining members. */
  function MemberContinues(first: map<string, Json>, s: string): (r: Option<Parsed<map<string, Json>>>)
    ensures r.Some? ==> |r.value.rest| < |s|
    decreases |s|, 3
  {
    if s != "" && s[0] == '}' then Some(Parsed(first, s[1..]))
    else if s != "" && s[0] == ',' then
      match DecodeMembers(s[1..])
      case None => None
      case Some(tail) => Some(Parsed(first + tail.value, tail.rest))
    else None
  }

  // ---------- Every text has one reading ----------

  lemma EscapeDecodes(c: char, rest: string)
    requires EscapeChar(c) != [c]
    ensures |EscapeChar(c)| >= 2 && EscapeChar(c)[0] == '\\'
    ensures DecodeEscape(EscapeChar(c)[1..] + rest) == Some(Parsed(c, rest))
  {
    var escaped := EscapeChar(c)[1..] + rest;
    if |EscapeChar(c)| == 2 {
      assert escaped[1..] == rest;
    } else {
      HexRoundTrip(c as int / 16);
      HexRoundTrip(c as int % 16);
      assert escaped[5..] == rest;
    }
  }

  lemma Assoc(a: string, b: string, c: string)
    ensures a + b + c == a + (b + c)
  {}

  /** One written character decodes in front of a text that decodes. */
  lemma CharacterDecodes(c: char, tail: string, p: Parsed<string>)
    requires DecodeText(tail) == Some(p)
    ensures DecodeText(EscapeChar(c) + tail) == Some(Parsed([c] + p.value, p.rest))
  {
    var s := EscapeChar(c) + tail;
    if EscapeChar(c) == [c] {
      assert s[1..] == tail;
    } else {
      EscapeDecodes(c, tail);
      assert s[1..] == EscapeChar(c)[1..] + tail;
    }
  }

  lemma {:induction false} TextDecodes(text: string, rest: string)
    ensures DecodeText(Escape(text) + "\"" + rest) == Some(Parsed(text, rest))
  {
    if text == "" {
      assert (Escape(text) + "\"" + rest)[1..] == rest;
    } else {
      TextDecodes(text[1..], rest);
      CharacterDecodes(text[0], Escape(text[1..]) + "\"" + rest, Parsed(text[1..], rest));
      Assoc(EscapeChar(text[0]), Escape(text[1..]), "\"");
      Assoc(EscapeChar(text[0]), Escape(text[1..]) + "\"", rest);
      assert text == [text[0]] + text[1..];
    }
  }

  lemma DigitsDecode(n: nat, rest: string)
    requires EndsNumber(rest)
    ensures DecodeDigits(ToDecimal(n) + rest) == Some(Parsed(n, rest))
  {
    var digits := ToDecimal(n);
    PrefixOfNumeral(digits, rest);
    ValueOfDecimal(n);
    assert (digits + rest)[..|digits|] == digits && (digits + rest)[|digits|..] == rest;
  }

  lemma NumberDecodes(n: int, rest: string)
    requires EndsNumber(rest)
    ensures DecodeNumber(NumberText(n) + rest) == Some(Parsed(Number(n), rest))
  {
    if n < 0 {
      Assoc("-", ToDecimal(-n), rest);
      DigitsDecode(-n, rest);
      MinusDecodes(ToDecimal(-n) + rest);
    } else {
      DigitsDecode(n, rest);
      DigitDecodes(ToDecimal(n) + rest);
    }
  }

  lemma MinusDecodes(digits: string)
    ensures DecodeNumber("-" + digits) == match DecodeDigits(digits)
                                          case None => None
                                          case Some(p) => var n: int := p.value; Some(Parsed(Number(-n), p.rest))
  {
    assert ("-" + digits)[1..] == digits;
  }

  lemma DigitDecodes(digits: string)
    requires digits != "" && IsDigit(digits[0])
    ensures DecodeNumber(digits) == match DecodeDigits(digits)
                                    case None => None
                                    case Some(p) => Some(Parsed(Number(p.value), p.rest))
  {}

  lemma QuotedDecodes(text: string, rest: string)
    ensures (Quote(text) + rest)[0] == '\"'
    ensures DecodeText((Quote(text) + rest)[1..]) == Some(Parsed(text, rest))
  {
    assert (Quote(text) + rest)[1..] == Escape(text) + "\"" + rest;
    TextDecodes(text, rest);
  }

  lemma ScalarDecodes(value: Json, rest: string)
    requires !value.Array? && !value.Object?
    requires value.Number? ==> EndsNumber(rest)
    ensures Decode(Encode(value) + rest) == Some(Parsed(value, rest))
  {
    match value
    case Null => LiteralDecodes("null", Null, rest);
    case Bool(flag) => LiteralDecodes(if flag then "true" else "false", value, rest);
    case Number(n) => NumberValueDecodes(n, rest);
    case Text(text) => QuotedDecodes(text, rest);
  }

  lemma NumberValueDecodes(n: int, rest: string)
    requires EndsNumber(rest)
    ensures Decode(NumberText(n) + rest) == Some(Parsed(Number(n), rest))
  {
    var s := NumberText(n) + rest;
    NumberDecodes(n, rest);
    NumberStarts(n);
    assert s[0] == NumberText(n)[0];
  }

  lemma NumberStarts(n: int)
    ensures NumberText(n)[0] == '-' || IsDigit(NumberText(n)[0])
  {}

  lemma LiteralDecodes(literal: string, value: Json, rest: string)
    requires literal != ""
    ensures Literal(literal + rest, literal, value) == Some(Parsed(value, rest))
  {
    assert (literal + rest)[|literal|..] == rest;
  }

  /** The decoder returns the encoded value and exactly the text that follows it. */
  lemma {:induction false} EncodingDecodes(value: Json, rest: string)
    requires value.Number? ==> EndsNumber(rest)
    ensures Decode(Encode(value) + rest) == Some(Parsed(value, rest))
    decreases value
  {
    match value
    case Array(_) => ArrayDecodes(value, rest);
    case Object(_) => ObjectDecodes(value, rest);
    case _ => ScalarDecodes(value, rest);
  }

  lemma {:induction false} ArrayDecodes(list: Json, rest: string)
    requires list.Array?
    ensures Decode(Encode(list) + rest) == Some(Parsed(list, rest))
    decreases list, |list.elements| + 2
  {
    Opens("[", Join(ElementTexts(list)), "]", rest);
    ArrayBodyDecodes(list, rest);
  }

  lemma {:induction false} ArrayBodyDecodes(list: Json, rest: string)
    requires list.Array?
    ensures DecodeArray(Join(ElementTexts(list)) + "]" + rest) == Some(Parsed(list, rest))
    decreases list, |list.elements| + 1
  {
    var parts := ElementTexts(list);
    if list.elements == [] {
      assert Join(parts) + "]" + rest == "]" + rest;
      assert ("]" + rest)[1..] == rest;
    } else {
      assert parts[0] == Encode(list.elements[0]);
      FirstCharacter(list.elements[0]);
      FirstOfJoin(parts, "]", rest);
      assert parts[0..] == parts && list.elements[0..] == list.elements;
      ElementsDecode(list, 0, rest);
    }
  }

  lemma {:induction false} ObjectDecodes(record: Json, rest: string)
    requires record.Object?
    ensures Decode(Encode(record) + rest) == Some(Parsed(record, rest))
    decreases record, |record.members.Keys| + 2
  {
    var keys := SortedKeys(record.members.Keys);
    Opens("{", Join(MemberTexts(record, keys)), "}", rest);
    ObjectBodyDecodes(record, keys, rest);
  }

  lemma {:induction false} ObjectBodyDecodes(record: Json, keys: seq<string>, rest: string)
    requires record.Object? && Ascending(keys) && forall k :: k in keys <==> k in record.members
    ensures DecodeObject(Join(MemberTexts(record, keys)) + "}" + rest) == Some(Parsed(record, rest))
    decreases record, |keys| + 1
  {
    var parts := MemberTexts(record, keys);
    if keys == [] {
      assert record.members == map[];
      assert Join(parts) + "}" + rest == "}" + rest;
      assert ("}" + rest)[1..] == rest;
    } else {
      assert parts[0] == MemberText(record, keys[0]);
      FirstOfJoin(parts, "}", rest);
      MembersDecode(record, keys, rest);
      assert Restrict(record.members, keys) == record.members;
    }
  }

  lemma FirstOfJoin(parts: seq<string>, close: string, rest: string)
    requires parts != [] && parts[0] != ""
    ensures Join(parts) != "" && (Join(parts) + close + rest)[0] == parts[0][0]
  {}

  lemma Opens(open: string, body: string, close: string, rest: string)
    requires |open| == 1
    ensures (open + body + close + rest)[0] == open[0]
    ensures (open + body + close + rest)[1..] == body + close + rest
  {}

  lemma FirstCharacter(value: Json)
    ensures Encode(value)[0] != ']' && Encode(value)[0] != '}'
  {
    if value.Number? {
      NumberStarts(value.number);
    }
  }

  lemma {:induction false} ElementsDecode(list: Json, i: nat, rest: string)
    requires list.Array? && i < |list.elements|
    ensures DecodeElements(Join(ElementTexts(list)[i..]) + "]" + rest) == Some(Parsed(list.elements[i..], rest))
    decreases list, |list.elements| - i, 0
  {
    var parts := ElementTexts(list)[i..];
    var v := list.elements[i];
    assert parts[0] == Encode(v);
    if i + 1 == |list.elements| {
      Assoc(Encode(v), "]", rest);
      EncodingDecodes(v, "]" + rest);
      assert ("]" + rest)[1..] == rest;
      assert list.elements[i..] == [v];
    } else {
      var tail := Join(parts[1..]);
      assert parts[1..] == ElementTexts(list)[i + 1..];
      JoinedStep(parts[0], tail, "]", rest);
      EncodingDecodes(v, "," + (tail + "]" + rest));
      assert ("," + (tail + "]" + rest))[1..] == tail + "]" + rest;
      ElementsDecode(list, i + 1, rest);
      assert list.elements[i..] == [v] + list.elements[i + 1..];
    }
  }

  function Restrict(members: map<string, Json>, keys: seq<string>): map<string, Json> {
    map k | k in keys && k in members :: members[k]
  }

  lemma RestrictSplits(members: map<string, Json>, keys: seq<string>)
    requires Ascending(keys) && keys != [] && keys[0] in members
    ensures Restrict(members, keys) == map[keys[0] := members[keys[0]]] + Restrict(members, keys[1..])
  {
    HeadIsFresh(keys);
    assert keys == [keys[0]] + keys[1..];
  }

  lemma JoinedStep(head: string, tail: string, close: string, rest: string)
    ensures head + "," + tail + close + rest == head + ("," + (tail + close + rest))
  {}

  lemma {:induction false} MembersDecode(record: Json, keys: seq<string>, rest: string)
    requires record.Object? && keys != []
    requires Ascending(keys) && forall k | k in keys :: k in record.members
    ensures DecodeMembers(Join(MemberTexts(record, keys)) + "}" + rest)
         == Some(Parsed(Restrict(record.members, keys), rest))
    decreases record, |keys|, 0
  {
    var parts := MemberTexts(record, keys);
    var key := keys[0];
    var v := record.members[key];
    assert parts[0] == MemberText(record, key);
    RestrictSplits(record.members, keys);
    if |keys| == 1 {
      assert Restrict(record.members, keys) == map[key := v];
      Assoc(MemberText(record, key), "}", rest);
      EncodingDecodes(v, "}" + rest);
      MemberUnfolds(record, key, "}" + rest);
      assert ("}" + rest)[1..] == rest;
    } else {
      assert parts[1..] == MemberTexts(record, keys[1..]);
      var tail := Join(parts[1..]);
      JoinedStep(parts[0], tail, "}", rest);
      EncodingDecodes(v, "," + (tail + "}" + rest));
      MemberUnfolds(record, key, "," + (tail + "}" + rest));
      assert ("," + (tail + "}" + rest))[1..] == tail + "}" + rest;
      MembersDecode(record, keys[1..], rest);
    }
  }

  /** What the member decoder does on one member, given that its value decodes. */
  lemma MemberUnfolds(record: Json, key: string, after: string)
    requires record.Object? && key in record.members
    requires var v := record.members[key]; Decode(Encode(v) + after) == Some(Parsed(v, after))
    ensures DecodeMembers(MemberText(record, key) + after)
         == MemberContinues(map[key := record.members[key]], after)
  {
    var text := Encode(record.members[key]);
    Assoc(Quote(key), ":", text);
    Assoc(Quote(key), ":" + text, after);
    Assoc(":", text, after);
    QuotedDecodes(key, ":" + (text + after));
    assert (":" + (text + after))[1..] == text + after;
  }

  lemma HeadIsFresh(keys: seq<string>)
    requires Ascending(keys) && keys != []
    ensures keys[0] !in keys[1..]
  {
    LessIrreflexive(keys[0]);
  }

  /**
   Unique decodability: two canonical texts with arbitrary continuations agree
   only when both the values and the continuations agree.
  */
  lemma EncodingIsUniquelyDecodable(a: Json, b: Json, afterA: string, afterB: string)
    requires a.Number? ==> EndsNumber(afterA)
    requires b.Number? ==> EndsNumber(afterB)
    ensures Encode(a) + afterA == Encode(b) + afterB <==> a == b && afterA == afterB
  {
    EncodingDecodes(a, afterA);
    EncodingDecodes(b, afterB);
  }

  lemma EncodingIsInjective(a: Json, b: Json)
    ensures Encode(a) == Encode(b) <==> a == b
  {
    EncodingIsUniquelyDecodable(a, b, "", "");
    assert Encode(a) + "" == Encode(a) && Encode(b) + "" == Encode(b);
  }

  // ---------- The writer ----------

  /** The growable text the writer appends to. */
  class TextBuffer {
    var text: string

    constructor ()
      ensures text == ""
    {
      text := "";
    }

    method Push(s: string)
      modifies this
      ensures text == old(text) + s
    {
      text := text + s;
    }
  }

  /** The keys of an object in an arbitrary order, each once. */
  method CollectKeys(members: map<string, Json>) returns (keys: seq<string>)
    ensures |keys| == |members.Keys|
    ensures DistinctBy(keys, (k: string) => k)
    ensures forall k :: k in keys <==> k in members
  {
    keys := [];
    var left := members.Keys;
    while left != {}
      invariant left <= members.Keys
      invariant |keys| + |left| == |members.Keys|
      invariant forall k :: k in keys <==> k in members && k !in left
      invariant DistinctBy(keys, (k: string) => k)
      decreases |left|
    {
      var k :| k in left;
      keys := keys + [k];
      left := left - {k};
    }
  }

  /** Any way of collecting the keys sorts to the same sequence. */
  lemma CollectedKeysSort(members: map<string, Json>, keys: seq<string>)
    requires |keys| == |members.Keys|
    requires DistinctBy(keys, (k: string) => k)
    requires forall k :: k in keys <==> k in members
    ensures SortBy(keys, (k: string) => k) == SortedKeys(members.Keys)
  {
    var key := (k: string) => k;
    var sorted := SortBy(keys, key);
    DistinctIsOrderFree(keys, sorted, key);
    SortedDistinctIsAscending(sorted, key);
    assert |multiset(sorted)| == |multiset(keys)|;
    assert forall k :: k in sorted <==> k in multiset(keys);
    SortedKeysUnique(members.Keys, sorted);
  }

  method SortMemberKeys(members: map<string, Json>) returns (keys: seq<string>)
    ensures keys == SortedKeys(members.Keys)
  {
    keys := CollectKeys(members);
    CollectedKeysSort(members, keys);
    keys := SortBy(keys, (k: string) => k);
  }

  /** Appending a part to a comma-separated list. */
  lemma {:induction false} JoinAppends(parts: seq<string>, part: string)
    ensures Join(parts + [part]) == (if parts == [] then "" else Join(parts) + ",") + part
  {
    var all := parts + [part];
    if |parts| == 1 {
      assert all[1..] == [part];
    } else if |parts| > 1 {
      JoinAppends(parts[1..], part);
      assert all[1..] == parts[1..] + [part];
    }
  }

  method WriteCanonicalJson(value: Json, output: TextBuffer)
    modifies output
    ensures output.text == old(output.text) + Encode(value)
    decreases value
  {
    match value
    case Null => output.Push("null");
    case Bool(flag) => output.Push(if flag then "true" else "false");
    case Number(n) => output.Push(NumberText(n));
    case Text(text) => output.Push(Quote(text));
    case Array(_) => WriteArray(value, output);
    case Object(_) => WriteObject(value, output);
  }

  method WriteArray(list: Json, output: TextBuffer)
    requires list.Array?
    modifies output
    ensures output.text == old(output.text) + Encode(list)
    decreases list, 0
  {
    ghost var before := output.text;
    ghost var parts := ElementTexts(list);
    output.Push("[");
    ghost var open := output.text;
    for index := 0 to |list.elements|
      invariant output.text == open + Join(parts[..index])
    {
      if index > 0 {
        output.Push(",");
      }
      WriteCanonicalJson(list.elements[index], output);
      NextPart(open, parts, index);
    }
    output.Push("]");
    assert parts[..|list.elements|] == parts;
    Enclosed(before, "[", Join(parts), "]");
  }

  method WriteObject(record: Json, output: TextBuffer)
    requires record.Object?
    modifies output
    ensures output.text == old(output.text) + Encode(record)
    decreases record, 1
  {
    ghost var before := output.text;
    output.Push("{");
    ghost var open := output.text;
    var keys := SortMemberKeys(record.members);
    ghost var parts := MemberTexts(record, keys);
    for index := 0 to |keys|
      invariant output.text == open + Join(parts[..index])
    {
      if index > 0 {
        output.Push(",");
      }
      assert keys[index] in keys;
      WriteMember(record, keys[index], output);
      NextPart(open, parts, index);
    }
    output.Push("}");
    assert parts[..|keys|] == parts;
    Enclosed(before, "{", Join(parts), "}");
  }

  method WriteMember(record: Json, key: string, output: TextBuffer)
    requires record.Object? && key in record.members
    modifies output
    ensures output.text == old(output.text) + MemberText(record, key)
    decreases record, 0
  {
    ghost var before := output.text;
    output.Push(Quote(key));
    output.Push(":");
    WriteCanonicalJson(record.members[key], output);
    Enclosed(before, Quote(key), ":", Encode(record.members[key]));
  }

  lemma NextPart(open: string, parts: seq<string>, index: nat)
    requires index < |parts|
    ensures open + Join(parts[..index + 1])
         == open + Join(parts[..index]) + (if index > 0 then "," else "") + parts[index]
  {
    JoinAppends(parts[..index], parts[index]);
    assert parts[..index + 1] == parts[..index] + [parts[index]];
  }

  lemma Enclosed(before: string, open: string, body: string, close: string)
    ensures before + open + body + close == before + (open + body + close)
  {}
}
