/** `json.dumps(value, separators=(",", ":"))` with its default ASCII escapes, and
    why the text determines the value. */
module Json {
  import Text

  /** The text of a number.  It begins like one and holds no delimiter. */
  predicate IsNumberText(s: string) {
    && s != "" && (s[0] == '-' || '0' <= s[0] <= '9' || s[0] == 'N' || s[0] == 'I')
    && forall i | 0 <= i < |s| :: !IsDelimiter(s[i])
  }

  type NumberText = s: string | IsNumberText(s) witness "0"

  /** Members are in the order they are written, which `sort_keys` fixes. */
  datatype Json =
    | Null
    | Bool(b: bool)
    | Number(text: NumberText)
    | Str(s: string)
    | Arr(items: seq<Json>)
    | Obj(members: seq<Member>)

  datatype Member = Member(key: string, value: Json)

  predicate IsDelimiter(c: char) {
    c == ',' || c == ']' || c == '}'
  }

  // ----- strings

  predicate Plain(c: char) {
    ' ' <= c <= '~' && c != '"' && c != '\\'
  }

  const BACKSPACE := '\U{8}'
  const FORM_FEED := '\U{c}'

  predicate Short(c: char) {
    c == '"' || c == '\\' || c == '\n' || c == '\r' || c == '\t' || c == BACKSPACE || c == FORM_FEED
  }

  function ShortLetter(c: char): char
    requires Short(c)
  {
    if c == '\n' then 'n' else if c == '\r' then 'r' else if c == '\t' then 't'
    else if c == BACKSPACE then 'b' else if c == FORM_FEED then 'f' else c
  }

  function Hex(d: nat): char
    requires d < 16
  {
    if d < 10 then ('0' as int + d) as char else ('a' as int + (d - 10)) as char
  }

  function Hex2(n: nat): (s: string)
    requires n < 256
    ensures |s| == 2
  {
    [Hex(n / 16), Hex(n % 16)]
  }

  function Hex4(n: nat): (s: string)
    requires n < 0x10000
    ensures |s| == 4
  {
    Hex2(n / 256) + Hex2(n % 256)
  }

  predicate Astral(c: char) {
    c as int >= 0x10000
  }

  /** The UTF-16 units of a character; the second one only when it is astral. */
  function High(c: char): (n: nat)
    ensures n < 0x10000 && (Astral(c) <==> 0xD800 <= n < 0xDC00)
  {
    if Astral(c) then 0xD800 + (c as int - 0x10000) / 0x400 else c as int
  }

  function Low(c: char): (n: nat)
    ensures n < 0x10000
  {
    if Astral(c) then 0xDC00 + (c as int - 0x10000) % 0x400 else 0
  }

  function SecondUnit(c: char): string {
    if Astral(c) then "\\u" + Hex4(Low(c)) else ""
  }

  /** What follows the backslash. */
  function AfterBackslash(c: char): string {
    if Short(c) then [ShortLetter(c)] else ['u'] + (Hex4(High(c)) + SecondUnit(c))
  }

  function Escape(c: char): string {
    if Plain(c) then [c] else ['\\'] + AfterBackslash(c)
  }

  /** The characters of a string and the closing quote. */
  function Chars(s: string): string {
    if s == "" then "\"" else Escape(s[0]) + Chars(s[1..])
  }

  // ----- values

  function Encode(v: Json): string
    decreases v, 1
  {
    match v
    case Null => "null"
    case Bool(b) => if b then "true" else "false"
    case Number(text) => text
    case Str(s) => "\"" + Chars(s)
    case Arr(items) => "[" + Items(items, true)
    case Obj(members) => "{" + Members(members, true)
  }

  function Separator(first: bool): string {
    if first then "" else ","
  }

  function Items(items: seq<Json>, first: bool): string
    decreases items, 0
  {
    if items == [] then "]" else Separator(first) + (Encode(items[0]) + Items(items[1..], false))
  }

  function MemberText(m: Member): string
    decreases m, 0
  {
    ("\"" + Chars(m.key)) + (":" + Encode(m.value))
  }

  function Members(members: seq<Member>, first: bool): string
    decreases members, 0
  {
    if members == [] then "}" else Separator(first) + (MemberText(members[0]) + Members(members[1..], false))
  }

  // ----- the text determines the value

  lemma HexBinds(a: nat, b: nat)
    requires a < 16 && b < 16 && Hex(a) == Hex(b)
    ensures a == b
  {
  }

  lemma Hex2Binds(m: nat, n: nat)
    requires m < 256 && n < 256 && Hex2(m) == Hex2(n)
    ensures m == n
  {
    var s, t := Hex2(m), Hex2(n);
    assert s[0] == t[0] && s[1] == t[1];
    HexBinds(m / 16, n / 16);
    HexBinds(m % 16, n % 16);
  }

  lemma Hex4Binds(m: nat, n: nat)
    requires m < 0x10000 && n < 0x10000 && Hex4(m) == Hex4(n)
    ensures m == n
  {
    SplitAt(Hex2(m / 256), Hex2(m % 256), Hex2(n / 256), Hex2(n % 256));
    Hex2Binds(m / 256, n / 256);
    Hex2Binds(m % 256, n % 256);
  }

  /** Equal texts that begin with blocks of one length begin with equal blocks. */
  lemma SplitAt(a: string, x: string, b: string, y: string)
    requires |a| == |b| && a + x == b + y
    ensures a == b && x == y
  {
    assert a == (a + x)[..|a|] && b == (b + y)[..|b|];
    Text.CancelPrefix(a, x, y);
  }

  lemma StripFirst(c: char, a: string, x: string, b: string, y: string)
    requires ([c] + a) + x == ([c] + b) + y
    ensures a + x == b + y
  {
    Text.Associate([c], a, x);
    Text.Associate([c], b, y);
    Text.CancelPrefix([c], a + x, b + y);
  }

  /** The UTF-16 units of a character determine it. */
  lemma UnitsDetermine(c: char, d: char)
    requires High(c) == High(d) && (Astral(c) ==> Low(c) == Low(d))
    ensures c == d
  {
    assert Astral(c) <==> Astral(d);
  }

  lemma UnitsBind(c: char, x: string, d: char, y: string)
    requires (Hex4(High(c)) + SecondUnit(c)) + x == (Hex4(High(d)) + SecondUnit(d)) + y
    ensures c == d && x == y
  {
    Text.Associate(Hex4(High(c)), SecondUnit(c), x);
    Text.Associate(Hex4(High(d)), SecondUnit(d), y);
    SplitAt(Hex4(High(c)), SecondUnit(c) + x, Hex4(High(d)), SecondUnit(d) + y);
    Hex4Binds(High(c), High(d));
    SplitAt(SecondUnit(c), x, SecondUnit(d), y);
    if Astral(c) {
      SplitAt("\\u", Hex4(Low(c)), "\\u", Hex4(Low(d)));
      Hex4Binds(Low(c), Low(d));
    }
    UnitsDetermine(c, d);
  }

  lemma LetterBinds(c: char, d: char)
    requires Short(c)
    ensures ShortLetter(c) != 'u' && (Short(d) && ShortLetter(c) == ShortLetter(d) ==> c == d)
  {
  }

  lemma AfterBackslashStarts(c: char, x: string)
    ensures (AfterBackslash(c) + x)[0] == if Short(c) then ShortLetter(c) else 'u'
  {
  }

  lemma AfterBackslashBinds(c: char, x: string, d: char, y: string)
    requires !Plain(c) && !Plain(d) && AfterBackslash(c) + x == AfterBackslash(d) + y
    ensures c == d && x == y
  {
    AfterBackslashStarts(c, x);
    AfterBackslashStarts(d, y);
    if Short(c) {
      LetterBinds(c, d);
      SplitAt([ShortLetter(c)], x, [ShortLetter(d)], y);
    } else if Short(d) {
      LetterBinds(d, c);
    } else {
      StripFirst('u', Hex4(High(c)) + SecondUnit(c), x, Hex4(High(d)) + SecondUnit(d), y);
      UnitsBind(c, x, d, y);
    }
  }

  lemma EscapeStarts(c: char, x: string)
    ensures (Escape(c) + x)[0] == if Plain(c) then c else '\\'
  {
  }

  lemma EscapeBinds(c: char, x: string, d: char, y: string)
    requires Escape(c) + x == Escape(d) + y
    ensures c == d && x == y
  {
    EscapeStarts(c, x);
    EscapeStarts(d, y);
    if Plain(c) {
      SplitAt([c], x, [d], y);
    } else {
      StripFirst('\\', AfterBackslash(c), x, AfterBackslash(d), y);
      AfterBackslashBinds(c, x, d, y);
    }
  }

  /** A string ends at its closing quote. */
  lemma {:induction false} CharsBind(s: string, x: string, t: string, y: string)
    requires Chars(s) + x == Chars(t) + y
    ensures s == t && x == y
    decreases |s|
  {
    var l, r := Chars(s) + x, Chars(t) + y;
    assert l[0] == Chars(s)[0] && r[0] == Chars(t)[0];
    if s == "" || t == "" {
      assert s == t;
      SplitAt("\"", x, "\"", y);
    } else {
      Text.Associate(Escape(s[0]), Chars(s[1..]), x);
      Text.Associate(Escape(t[0]), Chars(t[1..]), y);
      EscapeBinds(s[0], Chars(s[1..]) + x, t[0], Chars(t[1..]) + y);
      CharsBind(s[1..], x, t[1..], y);
      assert s == [s[0]] + s[1..] && t == [t[0]] + t[1..];
    }
  }

  lemma {:induction false} PlainChars(s: string)
    requires forall i | 0 <= i < |s| :: Plain(s[i])
    ensures Chars(s) == s + "\""
    decreases |s|
  {
    if s != "" {
      PlainChars(s[1..]);
      assert s == [s[0]] + s[1..];
    }
  }

  predicate Delimited(x: string) {
    x == "" || IsDelimiter(x[0])
  }

  lemma NumberEnds(s: NumberText, x: string, t: NumberText, y: string)
    requires Delimited(x) && s + x == t + y
    ensures |s| >= |t|
  {
    assert forall i | 0 <= i < |t| :: (t + y)[i] == t[i];
    assert x != "" ==> (s + x)[|s|] == x[0];
  }

  lemma NumberBinds(s: NumberText, x: string, t: NumberText, y: string)
    requires Delimited(x) && Delimited(y) && s + x == t + y
    ensures s == t && x == y
  {
    NumberEnds(s, x, t, y);
    NumberEnds(t, y, s, x);
    SplitAt(s, x, t, y);
  }

  /** Which kind of value a text begins with. */
  predicate StartsLike(v: Json, c: char) {
    match v
    case Null => c == 'n'
    case Bool(b) => c == if b then 't' else 'f'
    case Number(_) => c == '-' || '0' <= c <= '9' || c == 'N' || c == 'I'
    case Str(_) => c == '"'
    case Arr(_) => c == '['
    case Obj(_) => c == '{'
  }

  lemma Starts(v: Json, x: string)
    ensures |Encode(v)| > 0 && (Encode(v) + x)[0] == Encode(v)[0] && StartsLike(v, Encode(v)[0])
  {
  }

  /** Encoded values can be told apart and told from what follows. */
  lemma {:induction false} EncodeBinds(v: Json, x: string, w: Json, y: string)
    requires Delimited(x) && Delimited(y) && Encode(v) + x == Encode(w) + y
    ensures v == w && x == y
    decreases v, 1
  {
    Starts(v, x);
    Starts(w, y);
    match v
    case Null => SplitAt("null", x, "null", y);
    case Bool(b) => SplitAt(Encode(v), x, Encode(w), y);
    case Number(text) => NumberBinds(text, x, w.text, y);
    case Str(s) =>
      StripFirst('"', Chars(s), x, Chars(w.s), y);
      CharsBind(s, x, w.s, y);
    case Arr(items) =>
      StripFirst('[', Items(items, true), x, Items(w.items, true), y);
      ItemsBind(items, x, w.items, y, true);
    case Obj(members) =>
      StripFirst('{', Members(members, true), x, Members(w.members, true), y);
      MembersBind(members, x, w.members, y, true);
  }

  /** The parts of a list: separator, first element, the rest and what follows. */
  lemma ListParts(sep: string, head: string, rest: string, x: string)
    ensures (sep + (head + rest)) + x == sep + (head + (rest + x))
  {
    Text.Associate(sep, head + rest, x);
    Text.Associate(head, rest, x);
  }

  lemma ItemsStart(items: seq<Json>, first: bool, x: string)
    ensures Items(items, first) != "" && (Items(items, first) + x)[0] == Items(items, first)[0]
    ensures items == [] <==> Items(items, first)[0] == ']'
    ensures !first ==> IsDelimiter(Items(items, first)[0])
  {
    if items != [] {
      Starts(items[0], Items(items[1..], false));
    }
  }

  lemma {:induction false} ItemsBind(a: seq<Json>, x: string, b: seq<Json>, y: string, first: bool)
    requires Items(a, first) + x == Items(b, first) + y
    ensures a == b && x == y
    decreases a, 0
  {
    ItemsStart(a, first, x);
    ItemsStart(b, first, y);
    if a == [] {
      SplitAt("]", x, "]", y);
    } else {
      var s, t := Items(a[1..], false), Items(b[1..], false);
      ListParts(Separator(first), Encode(a[0]), s, x);
      ListParts(Separator(first), Encode(b[0]), t, y);
      Text.CancelPrefix(Separator(first), Encode(a[0]) + (s + x), Encode(b[0]) + (t + y));
      ItemsStart(a[1..], false, x);
      ItemsStart(b[1..], false, y);
      EncodeBinds(a[0], s + x, b[0], t + y);
      ItemsBind(a[1..], x, b[1..], y, false);
      assert a == [a[0]] + a[1..] && b == [b[0]] + b[1..];
    }
  }

  lemma MembersStart(members: seq<Member>, first: bool, x: string)
    ensures Members(members, first) != "" && (Members(members, first) + x)[0] == Members(members, first)[0]
    ensures members == [] <==> Members(members, first)[0] == '}'
    ensures !first ==> IsDelimiter(Members(members, first)[0])
  {
  }

  lemma {:induction false} MemberBinds(m: Member, x: string, n: Member, y: string)
    requires Delimited(x) && Delimited(y) && MemberText(m) + x == MemberText(n) + y
    ensures m == n && x == y
    decreases m, 0
  {
    var l, r := "\"" + Chars(m.key), "\"" + Chars(n.key);
    Text.Associate(l, ":" + Encode(m.value), x);
    Text.Associate(r, ":" + Encode(n.value), y);
    StripFirst('"', Chars(m.key), (":" + Encode(m.value)) + x, Chars(n.key), (":" + Encode(n.value)) + y);
    CharsBind(m.key, (":" + Encode(m.value)) + x, n.key, (":" + Encode(n.value)) + y);
    StripFirst(':', Encode(m.value), x, Encode(n.value), y);
    EncodeBinds(m.value, x, n.value, y);
  }

  lemma {:induction false} MembersBind(a: seq<Member>, x: string, b: seq<Member>, y: string, first: bool)
    requires Members(a, first) + x == Members(b, first) + y
    ensures a == b && x == y
    decreases a, 0
  {
    MembersStart(a, first, x);
    MembersStart(b, first, y);
    if a == [] {
      SplitAt("}", x, "}", y);
    } else {
      var s, t := Members(a[1..], false), Members(b[1..], false);
      ListParts(Separator(first), MemberText(a[0]), s, x);
      ListParts(Separator(first), MemberText(b[0]), t, y);
      Text.CancelPrefix(Separator(first), MemberText(a[0]) + (s + x), MemberText(b[0]) + (t + y));
      MembersStart(a[1..], false, x);
      MembersStart(b[1..], false, y);
      MemberBinds(a[0], s + x, b[0], t + y);
      MembersBind(a[1..], x, b[1..], y, false);
      assert a == [a[0]] + a[1..] && b == [b[0]] + b[1..];
    }
  }

  /** Two values with the same text are the same value. */
  lemma EncodeInjective(v: Json, w: Json)
    requires Encode(v) == Encode(w)
    ensures v == w
  {
    assert Encode(v) + "" == Encode(v) && Encode(w) + "" == Encode(w);
    EncodeBinds(v, "", w, "");
  }

  // ----- the text itself

  /** The number that hexadecimal digits stand for. */
  function HexValue(s: string): nat {
    if s == "" then 0 else 16 * HexValue(s[..|s| - 1]) + DigitValue(s[|s| - 1])
  }

  function DigitValue(c: char): nat {
    if '0' <= c <= '9' then c as int - '0' as int
    else if 'a' <= c <= 'f' then c as int - 'a' as int + 10
    else 0
  }

  lemma HexAppend(s: string, c: char)
    ensures HexValue(s + [c]) == 16 * HexValue(s) + DigitValue(c)
  {
    assert (s + [c])[..|s|] == s;
  }

  lemma Hex4Value(n: nat)
    requires n < 0x10000
    ensures HexValue(Hex4(n)) == n
  {
    var a, b, c, d := Hex(n / 256 / 16), Hex(n / 256 % 16), Hex(n % 256 / 16), Hex(n % 256 % 16);
    assert Hex4(n) == (([a] + [b]) + [c]) + [d];
    HexAppend("", a);
    assert "" + [a] == [a];
    HexAppend([a], b);
    HexAppend([a] + [b], c);
    HexAppend(([a] + [b]) + [c], d);
  }

  /** How a character of a string is written: printable ASCII as it is, and seven
      characters by a letter, */
  lemma ShortEscapes(c: char)
    ensures ' ' <= c <= '~' && c != '"' && c != '\\' ==> Escape(c) == [c]
    ensures c == '"' ==> Escape(c) == "\\\""
    ensures c == '\\' ==> Escape(c) == "\\\\"
    ensures c == '\n' ==> Escape(c) == "\\n"
    ensures c == '\r' ==> Escape(c) == "\\r"
    ensures c == '\t' ==> Escape(c) == "\\t"
    ensures c == '\U{8}' ==> Escape(c) == "\\b"
    ensures c == '\U{c}' ==> Escape(c) == "\\f"
  {
  }

  /** any other by the UTF-16 units of its code point, of which a character beyond the
      basic plane has two. */
  lemma UnitEscapes(c: char)
    requires !(' ' <= c <= '~') && c !in {'\n', '\r', '\t', '\U{8}', '\U{c}'}
    ensures
      var e, code := Escape(c), c as int;
      if code < 0x10000 then |e| == 6 && e[..2] == "\\u" && HexValue(e[2..]) == code
      else
        && |e| == 12 && e[..2] == "\\u" && e[6..8] == "\\u"
        && IsPair(code, HexValue(e[2..6]), HexValue(e[8..]))
  {
    var e, h := Escape(c), Hex4(High(c));
    assert e == "\\u" + (h + SecondUnit(c));
    assert e[2..6] == h;
    Hex4Value(High(c));
    if Astral(c) {
      assert e[6..8] == "\\u" && e[8..] == Hex4(Low(c));
      Hex4Value(Low(c));
      SurrogatePair(c);
    } else {
      assert e[2..] == h;
    }
  }

  /** The surrogate pair of a code point. */
  predicate IsPair(code: int, high: nat, low: nat) {
    0xD800 <= high < 0xDC00 <= low < 0xE000 && code == 0x10000 + (high - 0xD800) * 0x400 + (low - 0xDC00)
  }

  lemma SurrogatePair(c: char)
    requires Astral(c)
    ensures IsPair(c as int, High(c), Low(c))
  {
  }

  /** sep.join(parts) */
  function Joined(parts: seq<string>, sep: string): string {
    if parts == [] then ""
    else if |parts| == 1 then parts[0]
    else parts[0] + (sep + Joined(parts[1..], sep))
  }

  function Escapes(s: string): seq<string> {
    seq(|s|, i requires 0 <= i < |s| => Escape(s[i]))
  }

  function Encoded(items: seq<Json>): seq<string> {
    seq(|items|, i requires 0 <= i < |items| => Encode(items[i]))
  }

  function EncodedMembers(members: seq<Member>): seq<string> {
    seq(|members|, i requires 0 <= i < |members| => Encode(Str(members[i].key)) + ":" + Encode(members[i].value))
  }

  lemma JoinedTail(parts: seq<string>, sep: string)
    requires parts != []
    ensures Joined(parts, sep) == parts[0] + (if |parts| == 1 then "" else sep + Joined(parts[1..], sep))
  {
    assert parts[0] + "" == parts[0];
  }

  /** The first part, and the text of the rest. */
  lemma JoinOneMore(parts: seq<string>, rest: string, sep: string, end: string)
    requires parts != []
    requires if |parts| == 1 then rest == end else rest == sep + (Joined(parts[1..], sep) + end)
    ensures parts[0] + rest == Joined(parts, sep) + end
  {
    JoinedTail(parts, sep);
    if |parts| > 1 {
      Text.Associate(sep, Joined(parts[1..], sep), end);
      Text.Associate(parts[0], sep + Joined(parts[1..], sep), end);
    }
  }

  lemma {:induction false} CharsAreJoined(s: string)
    ensures Chars(s) == Joined(Escapes(s), "") + "\""
    decreases |s|
  {
    if s != "" {
      CharsAreJoined(s[1..]);
      assert Escapes(s)[1..] == Escapes(s[1..]);
      assert "" + Chars(s[1..]) == Chars(s[1..]);
      JoinOneMore(Escapes(s), Chars(s[1..]), "", "\"");
    }
  }

  lemma {:induction false} ItemsAreJoined(items: seq<Json>, first: bool)
    ensures
      var text := Joined(Encoded(items), ",") + "]";
      Items(items, first) == if first || items == [] then text else "," + text
    decreases |items|
  {
    if items != [] {
      ItemsAreJoined(items[1..], false);
      assert Encoded(items)[1..] == Encoded(items[1..]);
      JoinOneMore(Encoded(items), Items(items[1..], false), ",", "]");
    }
  }

  lemma MemberTextIs(m: Member)
    ensures MemberText(m) == Encode(Str(m.key)) + ":" + Encode(m.value)
  {
  }

  lemma {:induction false} MembersAreJoined(members: seq<Member>, first: bool)
    ensures
      var text := Joined(EncodedMembers(members), ",") + "}";
      Members(members, first) == if first || members == [] then text else "," + text
    decreases |members|
  {
    if members != [] {
      MembersAreJoined(members[1..], false);
      assert EncodedMembers(members)[1..] == EncodedMembers(members[1..]);
      MemberTextIs(members[0]);
      JoinOneMore(EncodedMembers(members), Members(members[1..], false), ",", "}");
    }
  }

  /** The text of a value: compact JSON. */
  lemma EncodeIs(v: Json)
    ensures match v
      case Null => Encode(v) == "null"
      case Bool(b) => Encode(v) == if b then "true" else "false"
      case Number(text) => Encode(v) == text
      case Str(s) => Encode(v) == "\"" + (Joined(Escapes(s), "") + "\"")
      case Arr(items) => Encode(v) == "[" + (Joined(Encoded(items), ",") + "]")
      case Obj(members) => Encode(v) == "{" + (Joined(EncodedMembers(members), ",") + "}")
  {
    match v
    case Str(s) => CharsAreJoined(s);
    case Arr(items) => ItemsAreJoined(items, true);
    case Obj(members) => MembersAreJoined(members, true);
    case _ =>
  }
}
