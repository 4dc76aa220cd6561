/** The JSON values the handlers receive in request bodies and store in text
    columns, with the text encoding `json.dumps` produces for them (default
    separators ", " and ": ") and a decoder that accepts that text back. */
module Json {

  datatype Option<T> = None | Some(value: T)

  datatype Json =
    | JNull
    | JBool(b: bool)
    | JNum(n: int)
    | JStr(s: string)
    | JArr(items: seq<Json>)
    | JObj(members: seq<Member>)

  /** One key/value pair of an object, in insertion order (Python dicts keep
      it). A member list may repeat a key, which a Python dict cannot; no
      property here depends on keys being distinct. */
  datatype Member = Member(key: string, value: Json)

  // ---------------------------------------------------------------- numbers

  predicate IsDigit(c: char) { '0' <= c <= '9' }

  function DigitChar(d: nat): (c: char)
    requires d < 10
    ensures IsDigit(c)
  {
    ['0', '1', '2', '3', '4', '5', '6', '7', '8', '9'][d]
  }

  function DigitValue(c: char): (d: nat)
    ensures d < 10
  {
    if IsDigit(c) then (c as int - '0' as int) as nat else 0
  }

  /** Decimal text of a natural number, most significant digit first. */
  function NatText(n: nat): (s: string)
    ensures |s| > 0
    decreases n
  {
    if n < 10 then [DigitChar(n)] else NatText(n / 10) + [DigitChar(n % 10)]
  }

  function IntText(n: int): string {
    if n < 0 then "-" + NatText(-n) else NatText(n)
  }

  /** The value of a run of decimal digits. */
  function DigitsValue(ds: string): nat {
    if |ds| == 0 then 0 else DigitsValue(ds[..|ds| - 1]) * 10 + DigitValue(ds[|ds| - 1])
  }

  /** How many digits `s` starts with. */
  function DigitRun(s: string): (k: nat)
    ensures k <= |s|
  {
    if |s| > 0 && IsDigit(s[0]) then 1 + DigitRun(s[1..]) else 0
  }

  // ---------------------------------------------------------------- strings

  /** The characters of a string literal between its quotes. Only the quote
      and the backslash are escaped. */
  function Escape(s: string): string {
    if s == [] then []
    else (if s[0] == '"' || s[0] == '\\' then ['\\', s[0]] else [s[0]]) + Escape(s[1..])
  }

  function Quote(s: string): string {
    "\"" + Escape(s) + "\""
  }

  // ---------------------------------------------------------------- encoder

  function Encode(j: Json): (r: string)
    ensures |r| > 0
    ensures j.JStr? ==> r[0] == '"' && r[|r| - 1] == '"'
    ensures j.JArr? ==> r[0] == '[' && r[|r| - 1] == ']'
    ensures j.JObj? ==> r[0] == '{' && r[|r| - 1] == '}'
    decreases j, 1
  {
    match j
    case JNull => "null"
    case JBool(b) => if b then "true" else "false"
    case JNum(n) => IntText(n)
    case JStr(s) => Quote(s)
    case JArr(xs) => if xs == [] then "[]" else "[" + Encode(xs[0]) + EncodeMoreItems(xs[1..]) + "]"
    case JObj(ms) => if ms == [] then "{}" else "{" + EncodeMember(ms[0]) + EncodeMoreMembers(ms[1..]) + "}"
  }

  /** The array elements after the first, each preceded by ", ". */
  function EncodeMoreItems(xs: seq<Json>): string
    decreases xs, 0
  {
    if xs == [] then [] else ", " + Encode(xs[0]) + EncodeMoreItems(xs[1..])
  }

  function EncodeMember(m: Member): string
    decreases m, 0
  {
    Quote(m.key) + ": " + Encode(m.value)
  }

  function EncodeMoreMembers(ms: seq<Member>): string
    decreases ms, 0
  {
    if ms == [] then [] else ", " + EncodeMember(ms[0]) + EncodeMoreMembers(ms[1..])
  }

  // ---------------------------------------------------------------- decoder

  predicate StartsWith(s: string, p: string) {
    |p| <= |s| && s[..|p|] == p
  }

  /** Reads a string body up to and including its closing quote. */
  function ParseStrBody(s: string): (r: Option<(string, string)>)
    ensures r.Some? ==> |r.value.1| < |s|
  {
    if |s| == 0 then None
    else if s[0] == '"' then Some(([], s[1..]))
    else if s[0] == '\\' then
      if |s| >= 2 && (s[1] == '"' || s[1] == '\\') then
        match ParseStrBody(s[2..])
        case None => None
        case Some((body, rest)) => Some(([s[1]] + body, rest))
      else None
    else
      match ParseStrBody(s[1..])
      case None => None
      case Some((body, rest)) => Some(([s[0]] + body, rest))
  }

  /** Reads a run of digits without a leading zero. */
  function ParseNatural(t: string): (r: Option<(nat, string)>)
    ensures r.Some? ==> |r.value.1| < |t|
  {
    var k := DigitRun(t);
    if k == 0 || (k > 1 && t[0] == '0') then None
    else Some((DigitsValue(t[..k]), t[k..]))
  }

  /** Reads an integer, with an optional minus sign. */
  function ParseNumber(s: string): (r: Option<(Json, string)>)
    ensures r.Some? ==> |r.value.1| < |s|
  {
    if |s| > 0 && s[0] == '-' then
      match ParseNatural(s[1..])
      case None => None
      case Some((v, rest)) => Some((JNum(-(v as int)), rest))
    else
      match ParseNatural(s)
      case None => None
      case Some((v, rest)) => Some((JNum(v), rest))
  }

  /** Reads one value from the front of `s`, returning it and the rest. */
  function ParseValue(s: string): (r: Option<(Json, string)>)
    ensures r.Some? ==> |r.value.1| < |s|
    decreases |s|, 1
  {
    if |s| == 0 then None
    else match s[0]
      case 'n' => ParseLiteral(s, "null", JNull)
      case 't' => ParseLiteral(s, "true", JBool(true))
      case 'f' => ParseLiteral(s, "false", JBool(false))
      case '"' => ParseString(s)
      case '[' => ParseArray(s)
      case '{' => ParseObject(s)
      case _ => ParseNumber(s)
  }

  function ParseLiteral(s: string, word: string, j: Json): (r: Option<(Json, string)>)
    requires |word| > 0
    ensures r.Some? ==> |r.value.1| < |s|
  {
    if StartsWith(s, word) then Some((j, s[|word|..])) else None
  }

  function ParseString(s: string): (r: Option<(Json, string)>)
    requires |s| > 0
    ensures r.Some? ==> |r.value.1| < |s|
  {
    match ParseStrBody(s[1..])
    case None => None
    case Some((body, rest)) => Some((JStr(body), rest))
  }

  function ParseArray(s: string): (r: Option<(Json, string)>)
    requires |s| > 0
    ensures r.Some? ==> |r.value.1| < |s|
    decreases |s|, 0
  {
    if StartsWith(s, "[]") then Some((JArr([]), s[2..]))
    else
      match ParseValue(s[1..])
      case None => None
      case Some((first, rest)) =>
        match ParseMoreItems(rest)
        case None => None
        case Some((more, rest')) => Some((JArr([first] + more), rest'))
  }

  function ParseObject(s: string): (r: Option<(Json, string)>)
    requires |s| > 0
    ensures r.Some? ==> |r.value.1| < |s|
    decreases |s|, 0
  {
    if StartsWith(s, "{}") then Some((JObj([]), s[2..]))
    else
      match ParseMember(s[1..])
      case None => None
      case Some((first, rest)) =>
        match ParseMoreMembers(rest)
        case None => None
        case Some((more, rest')) => Some((JObj([first] + more), rest'))
  }

  /** Reads `, value` repeatedly up to and including the closing bracket. */
  function ParseMoreItems(s: string): (r: Option<(seq<Json>, string)>)
    ensures r.Some? ==> |r.value.1| < |s|
    decreases |s|, 2
  {
    if StartsWith(s, "]") then Some(([], s[1..]))
    else if StartsWith(s, ", ") then
      match ParseValue(s[2..])
      case None => None
      case Some((x, rest)) =>
        match ParseMoreItems(rest)
        case None => None
        case Some((xs, rest')) => Some(([x] + xs, rest'))
    else None
  }

  function ParseMember(s: string): (r: Option<(Member, string)>)
    ensures r.Some? ==> |r.value.1| < |s|
    decreases |s|, 2
  {
    if !StartsWith(s, "\"") then None
    else
      match ParseStrBody(s[1..])
      case None => None
      case Some((key, rest)) =>
        if !StartsWith(rest, ": ") then None
        else
          match ParseValue(rest[2..])
          case None => None
          case Some((v, rest')) => Some((Member(key, v), rest'))
  }

  /** Reads `, member` repeatedly up to and including the closing brace. */
  function ParseMoreMembers(s: string): (r: Option<(seq<Member>, string)>)
    ensures r.Some? ==> |r.value.1| < |s|
    decreases |s|, 3
  {
    if StartsWith(s, "}") then Some(([], s[1..]))
    else if StartsWith(s, ", ") then
      match ParseMember(s[2..])
      case None => None
      case Some((m, rest)) =>
        match ParseMoreMembers(rest)
        case None => None
        case Some((ms, rest')) => Some(([m] + ms, rest'))
    else None
  }

  /** `json.loads`: the whole text must be one value. */
  function Decode(s: string): (r: Option<Json>)
    ensures s == [] ==> r.None?
    ensures r.Some? ==> ParseValue(s) == Some((r.value, []))
  {
    match ParseValue(s)
    case Some((j, rest)) => if rest == [] then Some(j) else None
    case None => None
  }

  // ---------------------------------------------------------------- round trip

  lemma {:induction false} NatTextDigits(n: nat)
    ensures forall i :: 0 <= i < |NatText(n)| ==> IsDigit(NatText(n)[i])
    decreases n
  {
    if n >= 10 { NatTextDigits(n / 10); }
  }

  lemma {:induction false} DigitRunAppend(a: string, b: string)
    requires forall i :: 0 <= i < |a| ==> IsDigit(a[i])
    ensures DigitRun(a + b) == |a| + DigitRun(b)
    decreases |a|
  {
    if |a| > 0 {
      assert (a + b)[1..] == a[1..] + b;
      DigitRunAppend(a[1..], b);
    } else {
      assert a + b == b;
    }
  }

  lemma {:induction false} DigitsValueOfNatText(n: nat)
    ensures DigitsValue(NatText(n)) == n
    decreases n
  {
    var s := NatText(n);
    if n < 10 {
      assert s[..0] == [];
    } else {
      DigitsValueOfNatText(n / 10);
      assert s[..|s| - 1] == NatText(n / 10);
    }
  }

  lemma {:induction false} NatTextLeadingDigit(n: nat)
    ensures NatText(n)[0] == '0' ==> n == 0
    decreases n
  {
    if n >= 10 {
      NatTextLeadingDigit(n / 10);
      assert NatText(n)[0] == NatText(n / 10)[0];
    }
  }

  /** A suffix that can follow an encoded value inside the encoding of an
      enclosing value (or end the text). */
  predicate Follows(rest: string) {
    rest == [] || rest[0] == ',' || rest[0] == ']' || rest[0] == '}'
  }

  lemma {:induction false} NaturalRoundTrip(m: nat, rest: string)
    requires Follows(rest)
    ensures ParseNatural(NatText(m) + rest) == Some((m, rest))
  {
    var digits := NatText(m);
    var t := digits + rest;
    NatTextDigits(m);
    DigitRunAppend(digits, rest);
    assert DigitRun(rest) == 0;
    assert t[..|digits|] == digits;
    assert t[|digits|..] == rest;
    DigitsValueOfNatText(m);
    NatTextLeadingDigit(m);
  }

  lemma {:induction false} NegativeRoundTrip(m: nat, rest: string)
    requires Follows(rest)
    ensures ParseNumber("-" + (NatText(m) + rest)) == Some((JNum(-(m as int)), rest))
  {
    var s := "-" + (NatText(m) + rest);
    NaturalRoundTrip(m, rest);
    assert s[1..] == NatText(m) + rest;
    assert s[0] == '-';
  }

  lemma {:induction false} NonNegativeRoundTrip(m: nat, rest: string)
    requires Follows(rest)
    ensures ParseNumber(NatText(m) + rest) == Some((JNum(m), rest))
  {
    NaturalRoundTrip(m, rest);
    NatTextDigits(m);
    assert (NatText(m) + rest)[0] != '-';
  }

  lemma {:induction false} NumberRoundTrip(n: int, rest: string)
    requires Follows(rest)
    ensures ParseNumber(IntText(n) + rest) == Some((JNum(n), rest))
  {
    var s := IntText(n) + rest;
    if n < 0 {
      assert s == "-" + (NatText(-n) + rest);
      NegativeRoundTrip(-n, rest);
    } else {
      assert s == NatText(n) + rest;
      NonNegativeRoundTrip(n, rest);
    }
  }

  lemma {:induction false} StrRoundTrip(x: string, rest: string)
    ensures ParseStrBody(Escape(x) + "\"" + rest) == Some((x, rest))
    decreases |x|
  {
    var s := Escape(x) + "\"" + rest;
    if x == [] {
      assert s == "\"" + rest;
    } else {
      StrRoundTrip(x[1..], rest);
      if x[0] == '"' || x[0] == '\\' {
        assert s == ['\\', x[0]] + (Escape(x[1..]) + "\"" + rest);
        assert s[2..] == Escape(x[1..]) + "\"" + rest;
      } else {
        assert s == [x[0]] + (Escape(x[1..]) + "\"" + rest);
        assert s[1..] == Escape(x[1..]) + "\"" + rest;
      }
      assert [x[0]] + x[1..] == x;
    }
  }

  lemma {:induction false} QuotedRoundTrip(x: string, rest: string)
    ensures |Quote(x) + rest| > 0 && (Quote(x) + rest)[0] == '"'
    ensures ParseStrBody((Quote(x) + rest)[1..]) == Some((x, rest))
  {
    assert (Quote(x) + rest)[1..] == Escape(x) + "\"" + rest;
    StrRoundTrip(x, rest);
  }

  /** Decoding the encoding of a value gives the value back and leaves the
      text that followed it. */
  lemma {:induction false} ValueRoundTrip(j: Json, rest: string)
    requires Follows(rest)
    ensures ParseValue(Encode(j) + rest) == Some((j, rest))
    decreases j, 2
  {
    var s := Encode(j) + rest;
    match j
    case JNull => assert s[..4] == "null";
    case JBool(b) =>
      if b { assert s[..4] == "true"; } else { assert s[..5] == "false"; }
    case JNum(n) =>
      NumberRoundTrip(n, rest);
      assert s[0] == '-' || IsDigit(s[0]) by {
        if n >= 0 { NatTextDigits(n); }
      }
    case JStr(x) =>
      QuotedRoundTrip(x, rest);
    case JArr(xs) =>
      ArrayRoundTrip(xs, rest);
      assert s[0] == '[';
    case JObj(ms) =>
      ObjectRoundTrip(ms, rest);
      assert s[0] == '{';
  }

  lemma {:induction false} ParseArrayStep(s: string, x: Json, r: string, ys: seq<Json>, r': string)
    requires |s| > 1 && s[0] == '[' && s[1] != ']'
    requires ParseValue(s[1..]) == Some((x, r))
    requires ParseMoreItems(r) == Some((ys, r'))
    ensures ParseArray(s) == Some((JArr([x] + ys), r'))
  {
    assert s[..2] != "[]" by { assert s[..2][1] == s[1]; }
  }

  lemma {:induction false} ParseObjectStep(s: string, m: Member, r: string, ms: seq<Member>, r': string)
    requires |s| > 1 && s[0] == '{' && s[1] != '}'
    requires ParseMember(s[1..]) == Some((m, r))
    requires ParseMoreMembers(r) == Some((ms, r'))
    ensures ParseObject(s) == Some((JObj([m] + ms), r'))
  {
    assert s[..2] != "{}" by { assert s[..2][1] == s[1]; }
  }

  lemma {:induction false} ArrayRoundTrip(xs: seq<Json>, rest: string)
    requires Follows(rest)
    ensures |Encode(JArr(xs)) + rest| > 0
    ensures ParseArray(Encode(JArr(xs)) + rest) == Some((JArr(xs), rest))
    decreases xs, 1
  {
    var s := Encode(JArr(xs)) + rest;
    if xs == [] {
      assert s == "[]" + rest;
      assert s[..2] == "[]";
    } else {
      var tail := EncodeMoreItems(xs[1..]) + "]" + rest;
      var body := Encode(xs[0]) + tail;
      assert s == "[" + body;
      assert s[1..] == body;
      FollowsMoreItems(xs[1..], rest);
      ValueRoundTrip(xs[0], tail);
      ItemsRoundTrip(xs[1..], rest);
      FirstCharNotBracket(xs[0], tail);
      ParseArrayStep(s, xs[0], tail, xs[1..], rest);
      assert [xs[0]] + xs[1..] == xs;
    }
  }

  lemma {:induction false} ObjectRoundTrip(ms: seq<Member>, rest: string)
    requires Follows(rest)
    ensures |Encode(JObj(ms)) + rest| > 0
    ensures ParseObject(Encode(JObj(ms)) + rest) == Some((JObj(ms), rest))
    decreases ms, 1
  {
    var s := Encode(JObj(ms)) + rest;
    if ms == [] {
      assert s == "{}" + rest;
      assert s[..2] == "{}";
    } else {
      var tail := EncodeMoreMembers(ms[1..]) + "}" + rest;
      var body := EncodeMember(ms[0]) + tail;
      assert s == "{" + body;
      assert s[1..] == body;
      FollowsMoreMembers(ms[1..], rest);
      MemberRoundTrip(ms[0], tail);
      MembersRoundTrip(ms[1..], rest);
      assert body[0] == '"';
      ParseObjectStep(s, ms[0], tail, ms[1..], rest);
      assert [ms[0]] + ms[1..] == ms;
    }
  }

  lemma {:induction false} FirstCharNotBracket(j: Json, tail: string)
    ensures (Encode(j) + tail)[0] != ']'
  {
    match j
    case JNum(n) => if n < 0 {} else { NatTextDigits(n); }
    case _ =>
  }

  lemma {:induction false} FollowsMoreItems(xs: seq<Json>, rest: string)
    ensures Follows(EncodeMoreItems(xs) + "]" + rest)
  {
    if xs == [] { assert EncodeMoreItems(xs) + "]" + rest == "]" + rest; }
  }

  lemma {:induction false} FollowsMoreMembers(ms: seq<Member>, rest: string)
    ensures Follows(EncodeMoreMembers(ms) + "}" + rest)
  {
    if ms == [] { assert EncodeMoreMembers(ms) + "}" + rest == "}" + rest; }
  }

  lemma {:induction false} ItemsRoundTrip(xs: seq<Json>, rest: string)
    ensures ParseMoreItems(EncodeMoreItems(xs) + "]" + rest) == Some((xs, rest))
    decreases xs, 0
  {
    var s := EncodeMoreItems(xs) + "]" + rest;
    if xs == [] {
      assert s == "]" + rest;
      assert s[..1] == "]";
    } else {
      var tail := EncodeMoreItems(xs[1..]) + "]" + rest;
      assert s == ", " + (Encode(xs[0]) + tail);
      CommaSpace(Encode(xs[0]) + tail);
      ItemsRoundTrip(xs[1..], rest);
      FollowsMoreItems(xs[1..], rest);
      ValueRoundTrip(xs[0], tail);
      MoreItemsStep(s, xs[0], tail, xs[1..], rest);
      assert [xs[0]] + xs[1..] == xs;
    }
  }

  lemma {:induction false} MemberRoundTrip(m: Member, rest: string)
    requires Follows(rest)
    ensures ParseMember(EncodeMember(m) + rest) == Some((m, rest))
    decreases m, 0
  {
    var s := EncodeMember(m) + rest;
    var after := ": " + (Encode(m.value) + rest);
    assert s == Quote(m.key) + after;
    QuotedRoundTrip(m.key, after);
    ColonSpace(Encode(m.value) + rest);
    ValueRoundTrip(m.value, rest);
    ParseMemberStep(s, m.key, after, m.value, rest);
  }

  lemma ColonSpace(t: string)
    ensures StartsWith(": " + t, ": ") && (": " + t)[2..] == t
  {
    assert (": " + t)[..2] == ": ";
  }

  lemma ParseMemberStep(s: string, key: string, after: string, v: Json, rest: string)
    requires |s| > 0 && s[0] == '"'
    requires ParseStrBody(s[1..]) == Some((key, after))
    requires StartsWith(after, ": ") && ParseValue(after[2..]) == Some((v, rest))
    ensures ParseMember(s) == Some((Member(key, v), rest))
  {
    assert s[..1] == "\"";
  }

  lemma {:induction false} MembersRoundTrip(ms: seq<Member>, rest: string)
    ensures ParseMoreMembers(EncodeMoreMembers(ms) + "}" + rest) == Some((ms, rest))
    decreases ms, 0
  {
    var s := EncodeMoreMembers(ms) + "}" + rest;
    if ms == [] {
      assert s == "}" + rest;
      assert s[..1] == "}";
    } else {
      var tail := EncodeMoreMembers(ms[1..]) + "}" + rest;
      assert s == ", " + (EncodeMember(ms[0]) + tail);
      CommaSpace(EncodeMember(ms[0]) + tail);
      MembersRoundTrip(ms[1..], rest);
      FollowsMoreMembers(ms[1..], rest);
      MemberRoundTrip(ms[0], tail);
      MoreMembersStep(s, ms[0], tail, ms[1..], rest);
      assert [ms[0]] + ms[1..] == ms;
    }
  }

  lemma MoreItemsStep(s: string, x: Json, rest: string, xs: seq<Json>, rest': string)
    requires |s| > 0 && s[0] == ',' && StartsWith(s, ", ")
    requires ParseValue(s[2..]) == Some((x, rest)) && ParseMoreItems(rest) == Some((xs, rest'))
    ensures ParseMoreItems(s) == Some(([x] + xs, rest'))
  {
    assert !StartsWith(s, "]");
  }

  lemma CommaSpace(t: string)
    ensures (", " + t)[0] == ',' && StartsWith(", " + t, ", ") && (", " + t)[2..] == t
  {
    assert (", " + t)[..2] == ", ";
  }

  lemma MoreMembersStep(s: string, m: Member, rest: string, ms: seq<Member>, rest': string)
    requires |s| > 0 && s[0] == ',' && StartsWith(s, ", ")
    requires ParseMember(s[2..]) == Some((m, rest)) && ParseMoreMembers(rest) == Some((ms, rest'))
    ensures ParseMoreMembers(s) == Some(([m] + ms, rest'))
  {
    assert !StartsWith(s, "}");
  }

  /** `json.loads(json.dumps(j)) == j` for every value. */
  lemma {:induction false} DecodeEncode(j: Json)
    ensures Decode(Encode(j)) == Some(j)
  {
    ValueRoundTrip(j, []);
    assert Encode(j) + [] == Encode(j);
  }
}
