/** JSON values, the text `JSON.stringify` prints for them, and a reader for such texts.
    Strings are sequences of Unicode scalar values, so lone surrogates are outside the model;
    a number is represented by its printed decimal text. */
module JsonText {
  import opened Optional

  datatype Json =
    | Null
    | Bool(b: bool)
    | Num(text: string)
    | Str(s: string)
    | Arr(items: seq<Json>)
    | Obj(members: seq<Member>)

  datatype Member = Member(key: string, value: Json)

  predicate IsNumberChar(c: char) {
    '0' <= c <= '9' || c == '-' || c == '+' || c == '.' || c == 'e'
  }

  /** The shape of a printed number: a run of number characters that opens with a digit or a minus. */
  predicate IsNumberText(t: string) {
    && t != ""
    && ('0' <= t[0] <= '9' || t[0] == '-')
    && forall i :: 0 <= i < |t| ==> IsNumberChar(t[i])
  }

  ghost predicate DistinctKeys(ms: seq<Member>) {
    forall i, j :: 0 <= i < j < |ms| ==> ms[i].key != ms[j].key
  }

  ghost predicate WellFormed(v: Json)
    decreases v, 1
  {
    match v
    case Num(t) => IsNumberText(t)
    case Arr(items) => WellFormedItems(items)
    case Obj(ms) => DistinctKeys(ms) && WellFormedMembers(ms)
    case _ => true
  }

  ghost predicate WellFormedItems(items: seq<Json>)
    decreases items, 0
  {
    items != [] ==> WellFormed(items[0]) && WellFormedItems(items[1..])
  }

  ghost predicate WellFormedMembers(ms: seq<Member>)
    decreases ms, 0
  {
    ms != [] ==> WellFormed(ms[0].value) && WellFormedMembers(ms[1..])
  }

  // ---------------------------------------------------------------- printing

  function HexDigit(n: nat): char
    requires n < 16
  {
    "0123456789abcdef"[n]
  }

  function Escape(c: char): string {
    if c == '\"' then "\\\""
    else if c == '\\' then "\\\\"
    else if c == '\U{8}' then "\\b"
    else if c == '\U{9}' then "\\t"
    else if c == '\U{A}' then "\\n"
    else if c == '\U{C}' then "\\f"
    else if c == '\U{D}' then "\\r"
    else if c < '\U{20}' then
      var n := c as int;
      "\\u00" + [HexDigit(n / 16), HexDigit(n % 16)]
    else [c]
  }

  function EscapeAll(s: string): string {
    if s == "" then "" else Escape(s[0]) + EscapeAll(s[1..])
  }

  /** `JSON.stringify`. */
  function Stringify(v: Json): string
    decreases v, 1
  {
    match v
    case Null => "null"
    case Bool(b) => if b then "true" else "false"
    case Num(t) => t
    case Str(s) => "\"" + EscapeAll(s) + "\""
    case Arr(items) => "[" + if items == [] then "]" else ItemsText(items)
    case Obj(ms) => "{" + if ms == [] then "}" else MembersText(ms)
  }

  /** The items of a non-empty array, up to and including the closing bracket. */
  function ItemsText(items: seq<Json>): string
    requires items != []
    decreases items, 0
  {
    Stringify(items[0]) + if |items| == 1 then "]" else "," + ItemsText(items[1..])
  }

  function MembersText(ms: seq<Member>): string
    requires ms != []
    decreases ms, 0
  {
    MemberText(ms[0]) + if |ms| == 1 then "}" else "," + MembersText(ms[1..])
  }

  function MemberText(m: Member): string
    decreases m, 0
  {
    "\"" + EscapeAll(m.key) + "\":" + Stringify(m.value)
  }

  // ---------------------------------------------------------------- reading

  function HexValue(c: char): Option<nat> {
    if '0' <= c <= '9' then Some(c as int - '0' as int)
    else if 'a' <= c <= 'f' then Some(c as int - 'a' as int + 10)
    else None
  }

  /** Reads one escape sequence: the character and the number of characters used. */
  function ReadEscape(t: string): (r: Option<(char, nat)>)
    ensures r.Some? ==> 0 < r.value.1 <= |t|
  {
    if |t| < 2 || t[0] != '\\' then None
    else if t[1] == '\"' then Some(('\"', 2))
    else if t[1] == '\\' then Some(('\\', 2))
    else if t[1] == 'b' then Some(('\U{8}', 2))
    else if t[1] == 't' then Some(('\U{9}', 2))
    else if t[1] == 'n' then Some(('\U{A}', 2))
    else if t[1] == 'f' then Some(('\U{C}', 2))
    else if t[1] == 'r' then Some(('\U{D}', 2))
    else if |t| < 6 || t[1] != 'u' || t[2] != '0' || t[3] != '0' then None
    else
      var hi, lo := HexValue(t[4]), HexValue(t[5]);
      if hi.None? || lo.None? then None else Some(((16 * hi.value + lo.value) as char, 6))
  }

  /** Reads the characters of a string up to and including the closing quote. */
  function ReadChars(t: string): (r: Option<(string, string)>)
    ensures r.Some? ==> |r.value.1| < |t|
  {
    if t == "" then None
    else if t[0] == '\"' then Some(("", t[1..]))
    else if t[0] == '\\' then
      var e := ReadEscape(t);
      if e.None? then None
      else
        var rest := ReadChars(t[e.value.1..]);
        if rest.None? then None else Some(([e.value.0] + rest.value.0, rest.value.1))
    else
      var rest := ReadChars(t[1..]);
      if rest.None? then None else Some(([t[0]] + rest.value.0, rest.value.1))
  }

  function NumberLength(t: string): (n: nat)
    ensures n <= |t|
  {
    if t == "" || !IsNumberChar(t[0]) then 0 else 1 + NumberLength(t[1..])
  }

  /** Reads one value from the front of a text; returns it with the remaining text. */
  function Read(t: string): (r: Option<(Json, string)>)
    ensures r.Some? ==> |r.value.1| < |t|
    decreases |t|, 1
  {
    if t == "" then None
    else if "null" <= t then Some((Null, t[4..]))
    else if "true" <= t then Some((Bool(true), t[4..]))
    else if "false" <= t then Some((Bool(false), t[5..]))
    else if t[0] == '\"' then
      var chars := ReadChars(t[1..]);
      if chars.None? then None else Some((Str(chars.value.0), chars.value.1))
    else if "[]" <= t then Some((Arr([]), t[2..]))
    else if t[0] == '[' then
      var items := ReadItems(t[1..]);
      if items.None? then None else Some((Arr(items.value.0), items.value.1))
    else if "{}" <= t then Some((Obj([]), t[2..]))
    else if t[0] == '{' then
      var ms := ReadMembers(t[1..]);
      if ms.None? then None else Some((Obj(ms.value.0), ms.value.1))
    else if '0' <= t[0] <= '9' || t[0] == '-' then
      var n := NumberLength(t);
      Some((Num(t[..n]), t[n..]))
    else None
  }

  function ReadItems(t: string): (r: Option<(seq<Json>, string)>)
    ensures r.Some? ==> |r.value.1| < |t|
    decreases |t|, 2
  {
    var first := Read(t);
    if first.None? || first.value.1 == "" then None
    else
      var rest := first.value.1;
      if rest[0] == ']' then Some(([first.value.0], rest[1..]))
      else if rest[0] != ',' then None
      else
        var more := ReadItems(rest[1..]);
        if more.None? then None else Some(([first.value.0] + more.value.0, more.value.1))
  }

  function ReadMember(t: string): (r: Option<(Member, string)>)
    ensures r.Some? ==> |r.value.1| < |t|
    decreases |t|, 2
  {
    if t == "" || t[0] != '\"' then None
    else
      var key := ReadChars(t[1..]);
      if key.None? || key.value.1 == "" || key.value.1[0] != ':' then None
      else
        var v := Read(key.value.1[1..]);
        if v.None? then None else Some((Member(key.value.0, v.value.0), v.value.1))
  }

  function ReadMembers(t: string): (r: Option<(seq<Member>, string)>)
    ensures r.Some? ==> |r.value.1| < |t|
    decreases |t|, 3
  {
    var first := ReadMember(t);
    if first.None? || first.value.1 == "" then None
    else
      var rest := first.value.1;
      if rest[0] == '}' then Some(([first.value.0], rest[1..]))
      else if rest[0] != ',' then None
      else
        var more := ReadMembers(rest[1..]);
        if more.None? then None else Some(([first.value.0] + more.value.0, more.value.1))
  }

  /** `JSON.parse` on a whole text. */
  function Parse(t: string): Option<Json> {
    var r := Read(t);
    if r.Some? && r.value.1 == "" then Some(r.value.0) else None
  }

  // ---------------------------------------------------------------- round trip

  lemma EscapeReads(c: char, rest: string)
    ensures var t := Escape(c) + rest;
            if Escape(c)[0] == '\\' then ReadEscape(t) == Some((c, |Escape(c)|))
            else Escape(c) == [c] && c != '\"'
  {
    if c < '\U{20}' && |Escape(c)| == 6 {
      var n := c as int;
      var t := Escape(c) + rest;
      assert t[4] == HexDigit(n / 16) && t[5] == HexDigit(n % 16);
      HexReads(n / 16);
      HexReads(n % 16);
      assert (16 * (n / 16) + n % 16) as char == c;
    }
  }

  lemma HexReads(n: nat)
    requires n < 16
    ensures HexValue(HexDigit(n)) == Some(n)
  {
  }

  lemma {:induction false} CharsRoundTrip(s: string, rest: string)
    ensures ReadChars(EscapeAll(s) + "\"" + rest) == Some((s, rest))
    decreases |s|
  {
    if s == "" {
      assert EscapeAll(s) + "\"" + rest == "\"" + rest;
    } else {
      var e := Escape(s[0]);
      var tail := EscapeAll(s[1..]) + "\"" + rest;
      assert EscapeAll(s) + "\"" + rest == e + tail;
      CharsRoundTrip(s[1..], rest);
      EscapeReads(s[0], tail);
      assert (e + tail)[|e|..] == tail;
      assert [s[0]] + s[1..] == s;
    }
  }

  /** A text after which a number cannot go on. */
  predicate EndsNumber(rest: string) {
    rest == "" || !IsNumberChar(rest[0])
  }

  lemma {:induction false} NumberLengthIs(t: string, rest: string)
    requires (forall i :: 0 <= i < |t| ==> IsNumberChar(t[i])) && EndsNumber(rest)
    ensures NumberLength(t + rest) == |t|
    decreases |t|
  {
    if t == "" {
      assert t + rest == rest;
    } else {
      assert (t + rest)[1..] == t[1..] + rest;
      NumberLengthIs(t[1..], rest);
    }
  }

  lemma NumberRoundTrip(t: string, rest: string)
    requires IsNumberText(t) && EndsNumber(rest)
    ensures Read(t + rest) == Some((Num(t), rest))
  {
    NumberLengthIs(t, rest);
    var all := t + rest;
    assert all[0] == t[0];
    assert all[..|t|] == t && all[|t|..] == rest;
  }

  lemma StringRoundTrip(s: string, rest: string)
    ensures Read("\"" + EscapeAll(s) + "\"" + rest) == Some((Str(s), rest))
  {
    var t := "\"" + EscapeAll(s) + "\"" + rest;
    assert t[0] == '\"' && t[1..] == EscapeAll(s) + "\"" + rest;
    CharsRoundTrip(s, rest);
  }

  /** A printed value starts with a character that no closing bracket or brace matches. */
  lemma StringifyStart(v: Json)
    requires WellFormed(v)
    ensures Stringify(v) != "" && Stringify(v)[0] != ']' && Stringify(v)[0] != '}'
  {
  }

  /** Reading back a printed value gives the value and leaves what follows it. */
  lemma {:induction false} ReadStringify(v: Json, rest: string)
    requires WellFormed(v) && EndsNumber(rest)
    ensures Read(Stringify(v) + rest) == Some((v, rest))
    decreases v, 1
  {
    match v
    case Null => assert ("null" + rest)[4..] == rest;
    case Bool(b) => BoolRoundTrip(b, rest);
    case Num(n) => NumberRoundTrip(n, rest);
    case Str(s) => StringRoundTrip(s, rest);
    case Arr(items) => ReadArray(items, rest);
    case Obj(ms) => ReadObject(ms, rest);
  }

  lemma BoolRoundTrip(b: bool, rest: string)
    ensures Read(Stringify(Bool(b)) + rest) == Some((Bool(b), rest))
  {
    if b {
      assert ("true" + rest)[4..] == rest;
    } else {
      assert ("false" + rest)[5..] == rest;
    }
  }

  lemma {:induction false} ReadArray(items: seq<Json>, rest: string)
    requires WellFormedItems(items)
    ensures Read(Stringify(Arr(items)) + rest) == Some((Arr(items), rest))
    decreases items, 1
  {
    var t := Stringify(Arr(items)) + rest;
    if items == [] {
      assert t == "[]" + rest && t[0] == '[' && t[2..] == rest;
    } else {
      var body := ItemsText(items) + rest;
      ReadItemsText(items, rest);
      ItemsTextStart(items);
      assert t == "[" + body && body[0] != ']';
      ReadBracketed(t, body, items, rest);
    }
  }

  lemma {:induction false} ReadObject(ms: seq<Member>, rest: string)
    requires WellFormedMembers(ms)
    ensures Read(Stringify(Obj(ms)) + rest) == Some((Obj(ms), rest))
    decreases ms, 1
  {
    var t := Stringify(Obj(ms)) + rest;
    if ms == [] {
      assert t == "{}" + rest && t[0] == '{' && t[2..] == rest;
    } else {
      var body := MembersText(ms) + rest;
      ReadMembersText(ms, rest);
      assert t == "{" + body && body[0] == '\"';
      ReadBraced(t, body, ms, rest);
    }
  }

  lemma ReadBraced(t: string, body: string, ms: seq<Member>, rest: string)
    requires t == "{" + body && body != "" && body[0] != '}' && ReadMembers(body) == Some((ms, rest))
    ensures Read(t) == Some((Obj(ms), rest))
  {
    assert t[0] == '{' && t[1] == body[0] && t[1..] == body;
  }

  lemma ReadBracketed(t: string, body: string, items: seq<Json>, rest: string)
    requires t == "[" + body && body != "" && body[0] != ']' && ReadItems(body) == Some((items, rest))
    ensures Read(t) == Some((Arr(items), rest))
  {
    assert t[0] == '[' && t[1] == body[0] && t[1..] == body;
  }

  lemma ItemsTextStart(items: seq<Json>)
    requires items != [] && WellFormedItems(items)
    ensures ItemsText(items) != "" && ItemsText(items)[0] != ']'
  {
    StringifyStart(items[0]);
  }

  /** What follows the first item of an array. */
  function AfterItem(items: seq<Json>, rest: string): string
    requires items != []
  {
    if |items| == 1 then "]" + rest else "," + (ItemsText(items[1..]) + rest)
  }

  /** What follows the first member of an object. */
  function AfterMember(ms: seq<Member>, rest: string): string
    requires ms != []
  {
    if |ms| == 1 then "}" + rest else "," + (MembersText(ms[1..]) + rest)
  }

  lemma ItemsTextSplit(items: seq<Json>, rest: string)
    requires items != []
    ensures ItemsText(items) + rest == Stringify(items[0]) + AfterItem(items, rest)
  {
  }

  lemma MembersTextSplit(ms: seq<Member>, rest: string)
    requires ms != []
    ensures MembersText(ms) + rest == MemberText(ms[0]) + AfterMember(ms, rest)
  {
  }

  lemma ReadLastItem(t: string, v: Json, tail: string, rest: string)
    requires Read(t) == Some((v, tail)) && tail == "]" + rest
    ensures ReadItems(t) == Some(([v], rest))
  {
    assert tail[1..] == rest;
  }

  lemma ReadNextItem(t: string, v: Json, tail: string, others: string, more: seq<Json>, rest: string)
    requires Read(t) == Some((v, tail)) && tail == "," + others && ReadItems(others) == Some((more, rest))
    ensures ReadItems(t) == Some(([v] + more, rest))
  {
    assert tail[1..] == others;
  }

  lemma ReadLastMember(t: string, m: Member, tail: string, rest: string)
    requires ReadMember(t) == Some((m, tail)) && tail == "}" + rest
    ensures ReadMembers(t) == Some(([m], rest))
  {
    assert tail[1..] == rest;
  }

  lemma ReadNextMember(t: string, m: Member, tail: string, others: string, more: seq<Member>, rest: string)
    requires ReadMember(t) == Some((m, tail)) && tail == "," + others && ReadMembers(others) == Some((more, rest))
    ensures ReadMembers(t) == Some(([m] + more, rest))
  {
    assert tail[1..] == others;
  }

  lemma {:induction false} ReadItemsText(items: seq<Json>, rest: string)
    requires items != [] && WellFormedItems(items)
    ensures ReadItems(ItemsText(items) + rest) == Some((items, rest))
    decreases items, 0
  {
    var first, more, tail := items[0], items[1..], AfterItem(items, rest);
    assert items == [first] + more;
    ReadStringify(first, tail);
    ItemsTextSplit(items, rest);
    if |items| == 1 {
      assert items == [first];
      ReadLastItem(Stringify(first) + tail, first, tail, rest);
    } else {
      ReadItemsText(more, rest);
      ReadNextItem(Stringify(first) + tail, first, tail, ItemsText(more) + rest, more, rest);
    }
  }

  lemma ReadMemberStep(t: string, key: string, afterKey: string, v: Json, rest: string, value: string)
    requires t != "" && t[0] == '\"' && ReadChars(t[1..]) == Some((key, afterKey)) && afterKey == ":" + value
    requires Read(value) == Some((v, rest))
    ensures ReadMember(t) == Some((Member(key, v), rest))
  {
    assert afterKey[1..] == value;
  }

  lemma MemberTextStart(m: Member, rest: string)
    ensures var t := MemberText(m) + rest;
            t != "" && t[0] == '\"' && t[1..] == EscapeAll(m.key) + "\"" + (":" + (Stringify(m.value) + rest))
  {
  }

  lemma {:induction false} ReadMemberText(m: Member, rest: string)
    requires WellFormed(m.value) && EndsNumber(rest)
    ensures ReadMember(MemberText(m) + rest) == Some((m, rest))
    decreases m, 0
  {
    var t, value := MemberText(m) + rest, Stringify(m.value) + rest;
    var afterKey := ":" + value;
    MemberTextStart(m, rest);
    CharsRoundTrip(m.key, afterKey);
    ReadStringify(m.value, rest);
    ReadMemberStep(t, m.key, afterKey, m.value, rest, value);
  }

  lemma {:induction false} ReadMembersText(ms: seq<Member>, rest: string)
    requires ms != [] && WellFormedMembers(ms)
    ensures ReadMembers(MembersText(ms) + rest) == Some((ms, rest))
    decreases ms, 0
  {
    var first, more, tail := ms[0], ms[1..], AfterMember(ms, rest);
    assert ms == [first] + more;
    ReadMemberText(first, tail);
    MembersTextSplit(ms, rest);
    if |ms| == 1 {
      assert ms == [first];
      ReadLastMember(MemberText(first) + tail, first, tail, rest);
    } else {
      ReadMembersText(more, rest);
      ReadNextMember(MemberText(first) + tail, first, tail, MembersText(more) + rest, more, rest);
    }
  }

  /** `JSON.parse(JSON.stringify(v))` is `v`. */
  lemma ParseStringify(v: Json)
    requires WellFormed(v)
    ensures Parse(Stringify(v)) == Some(v)
  {
    ReadStringify(v, "");
    assert Stringify(v) + "" == Stringify(v);
  }
}
