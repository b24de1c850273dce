/** What a canonical encoding says, read by the grammar of JSON (RFC 8259, sections 3 to 7) and the table of UTF-8
    (RFC 3629, section 3) and not by the encoder (artefact_store.py:313-317): the text is JSON for the very value, its
    objects' members in ascending order of their names, and the bytes decode to the text. */
module JsonGrammar {
  import opened Options
  import opened Sorting
  import opened CanonicalJson

  function Ascii(s: string): Text {
    seq(|s|, i requires 0 <= i < |s| => Code(s[i]))
  }

  function Code(c: char): CodePoint {
    c as int
  }

  /* ---------------------------------------------------------------- strings */

  function HexValue(c: CodePoint): (n: Option<int>)
    ensures n.Some? ==> 0 <= n.value < 16
  {
    if Code('0') <= c <= Code('9') then Some(c - Code('0'))
    else if Code('a') <= c <= Code('f') then Some(c - Code('a') + 10)
    else if Code('A') <= c <= Code('F') then Some(c - Code('A') + 10)
    else None
  }

  /** The character a two-character escape stands for. */
  function ShortEscape(c: CodePoint): Option<CodePoint> {
    if c == Code('"') then Some(Code('"'))
    else if c == Code('\\') then Some(Code('\\'))
    else if c == Code('/') then Some(Code('/'))
    else if c == Code('b') then Some(0x08)
    else if c == Code('f') then Some(0x0C)
    else if c == Code('n') then Some(0x0A)
    else if c == Code('r') then Some(0x0D)
    else if c == Code('t') then Some(0x09)
    else None
  }

  /** The character four hexadecimal digits stand for. */
  function HexPoint(a: CodePoint, b: CodePoint, c: CodePoint, d: CodePoint): Option<CodePoint> {
    var p, q, r, s := HexValue(a), HexValue(b), HexValue(c), HexValue(d);
    if p.Some? && q.Some? && r.Some? && s.Some? then
      Some(p.value * 4096 + q.value * 256 + r.value * 16 + s.value)
    else None
  }

  /** The first character of a string's body and how long it is written. */
  function FirstChar(body: Text): Option<(CodePoint, nat)>
    requires body != []
  {
    if body[0] == Code('"') || body[0] < 0x20 then None
    else if body[0] != Code('\\') then Some((body[0], 1))
    else if |body| >= 6 && body[1] == Code('u') then
      match HexPoint(body[2], body[3], body[4], body[5])
      case None => None
      case Some(c) => Some((c, 6))
    else if |body| >= 2 then
      match ShortEscape(body[1])
      case None => None
      case Some(c) => Some((c, 2))
    else None
  }

  /** The string that a body stands for. */
  function Chars(body: Text): Option<Text>
    decreases |body|
  {
    if body == [] then Some([])
    else
      match FirstChar(body)
      case None => None
      case Some((c, n)) =>
        if n == 0 || n > |body| then None
        else
          var rest := Chars(body[n..]);
          if rest.Some? then Some([c] + rest.value) else None
  }

  predicate StringText(text: Text, value: Text) {
    |text| >= 2 && text[0] == Code('"') && text[|text| - 1] == Code('"') && Chars(text[1..|text| - 1]) == Some(value)
  }

  /* ---------------------------------------------------------------- numbers */

  /** The digits of a number from its first on, none of them a needless zero. */
  predicate NumberText(text: Text, n: nat) {
    |text| > 0 && (forall c <- text :: Code('0') <= c <= Code('9')) && DigitsValue(text) == n
    && (|text| > 1 ==> text[0] != Code('0'))
  }

  function DigitsValue(text: Text): int {
    if text == [] then 0 else 10 * DigitsValue(text[..|text| - 1]) + (text[|text| - 1] - Code('0'))
  }

  predicate IntText(text: Text, n: int) {
    if n < 0 then |text| > 0 && text[0] == Code('-') && NumberText(text[1..], -n) else NumberText(text, n)
  }

  /* ---------------------------------------------------------------- values */

  function Separated(parts: seq<Text>): Text {
    if parts == [] then [] else if |parts| == 1 then parts[0] else parts[0] + Ascii(",") + Separated(parts[1..])
  }

  /** The text is JSON for the value, without blanks, each object's members in ascending order of their names. */
  ghost predicate JsonText(v: Json, text: Text)
    decreases v
  {
    match v
    case Null => text == Ascii("null")
    case Bool(truth) => text == Ascii(if truth then "true" else "false")
    case Int(n) => IntText(text, n)
    case Str(value) => StringText(text, value)
    case Arr(items) =>
      exists parts: seq<Text> ::
        text == Ascii("[") + Separated(parts) + Ascii("]") && |parts| == |items|
        && forall i :: 0 <= i < |items| ==> JsonText(items[i], parts[i])
    case Obj(members) =>
      exists order: seq<Member>, parts: seq<Text> ::
        text == Ascii("{") + Separated(parts) + Ascii("}") && |parts| == |order| == |members|
        && (forall m <- members :: m in order) && Ascending(order)
        && forall i :: 0 <= i < |order| ==> order[i] in members && MemberText(order[i], parts[i])
    case Float => false
    case Foreign => false
  }

  ghost predicate MemberText(m: Member, part: Text)
    decreases m
  {
    m.name.Word?
    && exists name: Text, text: Text :: part == name + Ascii(":") + text && StringText(name, m.name.text) && JsonText(m.value, text)
  }

  ghost predicate Ascending(order: seq<Member>) {
    forall i, j :: 0 <= i < j < |order| ==>
      order[i].name.Word? && order[j].name.Word? && Lex(order[i].name.text, order[j].name.text)
  }

  /* ---------------------------------------------------------------- the encoder writes it */

  lemma EscapeIsChar(c: CodePoint, rest: Text)
    ensures Escape(c) + rest != [] && FirstChar(Escape(c) + rest) == Some((c, |Escape(c)|))
  {
    var body := Escape(c) + rest;
    assert body[0] == Escape(c)[0];
    if |Escape(c)| > 1 {
      assert body[1] == Escape(c)[1];
      if |Escape(c)| == 6 { ControlIsChar(c, body); }
    }
  }

  lemma ControlIsChar(c: CodePoint, body: Text)
    requires c < 0x20 && |body| >= 6 && body[..6] == [BACKSLASH, 0x75, ZERO, ZERO, HexDigit(c / 16), HexDigit(c % 16)]
    ensures FirstChar(body) == Some((c, 6))
  {
    assert body[0] == body[..6][0] && body[1] == body[..6][1] && body[2] == body[..6][2] && body[3] == body[..6][3];
    assert body[4] == body[..6][4] && body[5] == body[..6][5];
    HexReads(c / 16);
    HexReads(c % 16);
  }

  lemma HexReads(n: int)
    requires 0 <= n < 16
    ensures HexValue(HexDigit(n)) == Some(n)
  {
  }

  lemma {:induction false} EscapesAreChars(text: Text)
    ensures Chars(EscapeAll(text)) == Some(text)
  {
    if text != [] {
      hide Escape, FirstChar;
      var rest := EscapeAll(text[1..]);
      EscapeIsChar(text[0], rest);
      EscapesAreChars(text[1..]);
      assert (Escape(text[0]) + rest)[|Escape(text[0])|..] == rest;
      EscapeTaken(text[0]);
      assert [text[0]] + text[1..] == text;
    }
  }

  lemma EscapeTaken(c: CodePoint)
    ensures |Escape(c)| > 0
  {
  }

  lemma QuoteIsString(text: Text)
    ensures StringText(Quote(text), text)
  {
    EscapesAreChars(text);
    hide EscapeAll, Chars;
    assert Quote(text)[1..|Quote(text)| - 1] == EscapeAll(text);
  }

  lemma {:induction false} DigitsAreNumber(n: nat)
    ensures NumberText(Digits(n), n) && (n > 0 ==> Digits(n)[0] != Code('0'))
  {
    if n >= 10 {
      DigitsAreNumber(n / 10);
      assert Digits(n)[..|Digits(n)| - 1] == Digits(n / 10) && Digits(n)[0] == Digits(n / 10)[0];
    } else {
      assert Digits(n)[..0] == [];
    }
  }

  lemma DecimalIsInt(n: int)
    ensures IntText(Decimal(n), n)
  {
    if n < 0 {
      DigitsAreNumber(-n);
      assert Decimal(n)[1..] == Digits(-n);
    } else {
      DigitsAreNumber(n);
    }
  }

  lemma Marks()
    ensures Ascii(",") == [COMMA] && Ascii(":") == [COLON] && Ascii("[") == [OPEN_ARRAY] && Ascii("]") == [CLOSE_ARRAY]
    ensures Ascii("{") == [OPEN_OBJECT] && Ascii("}") == [CLOSE_OBJECT]
  {
  }

  lemma {:induction false} JoinIsSeparated(parts: seq<Text>)
    ensures Join(parts) == Separated(parts)
  {
    Marks();
    if |parts| > 1 { JoinIsSeparated(parts[1..]); }
  }

  /** THE ENCODING IS JSON FOR THE VALUE: literals, escapes, digits, separators and all. */
  lemma {:induction false} EncodingIsJson(v: Json)
    requires Check(v) && Distinct(v)
    ensures JsonText(v, Encode(v))
    decreases v
  {
    match v
    case Null => assert Ascii("null") == [0x6E, 0x75, 0x6C, 0x6C];
    case Bool(truth) => BoolIsJson(truth);
    case Int(n) => DecimalIsInt(n);
    case Str(text) => QuoteIsString(text);
    case Arr(items) =>
      forall i | 0 <= i < |items| ensures JsonText(items[i], Texts(items)[i]) { EncodingIsJson(items[i]); }
      ArrayIsJson(items);
    case Obj(members) =>
      forall i | 0 <= i < |members| ensures JsonText(members[i].value, Encode(members[i].value)) {
        EncodingIsJson(members[i].value);
      }
      ObjectIsJson(members);
  }

  lemma BoolIsJson(truth: bool)
    ensures JsonText(Bool(truth), Encode(Bool(truth)))
  {
    assert Ascii("true") == [0x74, 0x72, 0x75, 0x65];
    assert Ascii("false") == [0x66, 0x61, 0x6C, 0x73, 0x65];
  }

  lemma ArrayIsJson(items: seq<Json>)
    requires Check(Arr(items)) && forall i :: 0 <= i < |items| ==> JsonText(items[i], Texts(items)[i])
    ensures JsonText(Arr(items), Encode(Arr(items)))
  {
    hide Join, Separated, Ascii;
    Marks();
    EncodeArr(items);
    JoinIsSeparated(Texts(items));
  }

  /** The member an entry was made of. */
  ghost function MemberFor(members: seq<Member>, entry: Entry): Member
    requires forall i :: 0 <= i < |members| ==> members[i].name.Word? && Check(members[i].value)
    requires exists i :: 0 <= i < |members| && entry == Entries(members)[i]
  {
    var i :| 0 <= i < |members| && entry == Entries(members)[i];
    members[i]
  }

  lemma MemberForIs(members: seq<Member>, entry: Entry)
    requires forall i :: 0 <= i < |members| ==> members[i].name.Word? && Check(members[i].value)
    requires exists i :: 0 <= i < |members| && entry == Entries(members)[i]
    ensures var m := MemberFor(members, entry);
            m in members && m.name.Word? && Check(m.value) && entry == Entry(m.name.text, Encode(m.value))
  {
  }

  lemma ObjectIsJson(members: seq<Member>)
    requires Check(Obj(members)) && Distinct(Obj(members))
    requires forall i :: 0 <= i < |members| ==> JsonText(members[i].value, Encode(members[i].value))
    ensures JsonText(Obj(members), Encode(Obj(members)))
  {
    hide Join, Separated, Ascii, Sort, EntryBefore, JsonText, Encode, Quote, EntryParts, From;
    var p := Sort(EntryBefore, Entries(members));
    SortedFrom(members);
    SortIsPermutation(EntryBefore, Entries(members));
    var order := OrderOf(members, p);
    AllOrdered(members, p, order);
    OrderAscends(Entries(members), p, order);
    EncodeObj(members);
    JoinIsSeparated(EntryParts(p));
    Marks();
    MembersAreJson(members, order, EntryParts(p), Encode(Obj(members)));
  }

  /** The members in the order of the sorted entries. */
  lemma OrderOf(members: seq<Member>, p: seq<Entry>) returns (order: seq<Member>)
    requires Check(Obj(members)) && From(p, members)
    requires forall i :: 0 <= i < |members| ==> JsonText(members[i].value, Encode(members[i].value))
    ensures |order| == |p| == |EntryParts(p)|
    ensures forall k :: 0 <= k < |p| ==>
              order[k] in members && order[k].name.Word? && order[k].name.text == p[k].name
              && MemberText(order[k], EntryParts(p)[k])
  {
    hide MemberText, JsonText, Encode, Quote, MemberFor;
    order := seq(|p|, k requires 0 <= k < |p| => MemberFor(members, p[k]));
    forall k | 0 <= k < |p|
      ensures order[k] in members && order[k].name.Word? && order[k].name.text == p[k].name
      ensures MemberText(order[k], EntryParts(p)[k])
    {
      MemberForIs(members, p[k]);
      EntryIsMember(order[k], p[k]);
    }
  }

  lemma MembersAreJson(members: seq<Member>, order: seq<Member>, parts: seq<Text>, text: Text)
    requires text == Ascii("{") + Separated(parts) + Ascii("}") && |parts| == |order| == |members|
    requires (forall m <- members :: m in order) && Ascending(order)
    requires forall i :: 0 <= i < |order| ==> order[i] in members && MemberText(order[i], parts[i])
    ensures JsonText(Obj(members), text)
  {
    hide Separated, Ascii, Ascending, MemberText;
  }

  lemma EntryIsMember(m: Member, entry: Entry)
    requires m.name.Word? && Check(m.value) && entry == Entry(m.name.text, Encode(m.value)) && JsonText(m.value, Encode(m.value))
    ensures MemberText(m, Quote(entry.name) + [COLON] + entry.text)
  {
    hide Quote, JsonText, StringText;
    Marks();
    QuoteIsString(entry.name);
  }

  lemma AllOrdered(members: seq<Member>, p: seq<Entry>, order: seq<Member>)
    requires Check(Obj(members)) && Distinct(Obj(members)) && multiset(p) == multiset(Entries(members)) && |order| == |p|
    requires forall k :: 0 <= k < |p| ==> order[k] in members && order[k].name.Word? && order[k].name.text == p[k].name
    ensures forall m <- members :: m in order
  {
    forall i | 0 <= i < |members| ensures members[i] in order {
      assert Entries(members)[i] in multiset(p);
      var k :| 0 <= k < |p| && p[k] == Entries(members)[i];
      var j :| 0 <= j < |members| && members[j] == order[k];
      assert members[j].name == members[i].name;
      assert i == j;
    }
  }

  lemma OrderAscends(entries: seq<Entry>, p: seq<Entry>, order: seq<Member>)
    requires p == Sort(EntryBefore, entries) && |order| == |p|
    requires forall k :: 0 <= k < |p| ==> order[k].name.Word? && order[k].name.text == p[k].name
    ensures Ascending(order)
  {
    hide Lex;
    EntryBeforeIsTotalOrder();
    SortIsOrdered(EntryBefore, entries);
    forall i, j | 0 <= i < j < |order| ensures Lex(order[i].name.text, order[j].name.text) {
      assert EntryBefore(p[i], p[j]);
      if p[i].name == p[j].name { LexTotal(p[i].name, p[j].name); }
    }
  }

  /* ---------------------------------------------------------------- what is refused */

  /** The value, or one inside it at any depth. */
  ghost predicate Within(x: Json, v: Json)
    decreases v
  {
    x == v
    || (v.Arr? && exists i :: 0 <= i < |v.items| && Within(x, v.items[i]))
    || (v.Obj? && exists i :: 0 <= i < |v.members| && Within(x, v.members[i].value))
  }

  /** Nothing to refuse in the value itself: no float, nothing that is not JSON, no absolute path, no key but strings. */
  predicate Plain(x: Json) {
    match x
    case Str(text) =>
      !(|text| > 0 && text[0] == Code('/'))
      && !(|text| > 2 && text[1] == Code(':') && (text[2] == Code('/') || text[2] == Code('\\')))
    case Obj(members) => forall i :: 0 <= i < |members| ==> members[i].name.Word?
    case Float => false
    case Foreign => false
    case _ => true
  }

  /** WHAT HAS A KEY: exactly the values in which nothing is to be refused, at any depth. */
  lemma {:induction false} CheckIff(v: Json)
    ensures Check(v) <==> forall x :: Within(x, v) ==> Plain(x)
    decreases v
  {
    assert Within(v, v);
    match v {
      case Arr(items) =>
        forall i | 0 <= i < |items|
          ensures Check(items[i]) <==> forall x :: Within(x, items[i]) ==> Plain(x)
          ensures forall x :: Within(x, items[i]) ==> Within(x, v)
        {
          CheckIff(items[i]);
        }
      case Obj(members) =>
        forall i | 0 <= i < |members|
          ensures Check(members[i].value) <==> forall x :: Within(x, members[i].value) ==> Plain(x)
          ensures forall x :: Within(x, members[i].value) ==> Within(x, v)
        {
          CheckIff(members[i].value);
        }
      case _ =>
    }
  }

  /* ---------------------------------------------------------------- UTF-8 */

  /** The first code point of some bytes, and how many bytes it takes. */
  function FirstPoint(bytes: seq<Byte>): Option<(int, nat)> {
    if |bytes| >= 1 && bytes[0] <= 0x7F then Some((bytes[0], 1))
    else if |bytes| >= 2 && 0xC2 <= bytes[0] <= 0xDF && Tail(bytes[1]) then
      Some(((bytes[0] as int - 0xC0) * 0x40 + (bytes[1] as int - 0x80), 2))
    else if |bytes| >= 3 && 0xE0 <= bytes[0] <= 0xEF && Tail(bytes[1]) && Tail(bytes[2]) then
      Some(((bytes[0] as int - 0xE0) * 0x1000 + (bytes[1] as int - 0x80) * 0x40 + (bytes[2] as int - 0x80), 3))
    else if |bytes| >= 4 && 0xF0 <= bytes[0] <= 0xF4 && Tail(bytes[1]) && Tail(bytes[2]) && Tail(bytes[3]) then
      Some(((bytes[0] as int - 0xF0) * 0x40000 + (bytes[1] as int - 0x80) * 0x1000 + (bytes[2] as int - 0x80) * 0x40 + (bytes[3] as int - 0x80), 4))
    else None
  }

  predicate Tail(b: Byte) {
    0x80 <= b <= 0xBF
  }

  ghost predicate Decodes(bytes: seq<Byte>, text: Text)
    decreases |text|
  {
    if text == [] then bytes == []
    else
      var first := FirstPoint(bytes);
      first.Some? && first.value.0 == text[0] && first.value.1 <= |bytes| && Decodes(bytes[first.value.1..], text[1..])
  }

  lemma PointReads(c: CodePoint, rest: seq<Byte>)
    ensures FirstPoint(Utf8(c) + rest) == Some((c, |Utf8(c)|)) && (Utf8(c) + rest)[|Utf8(c)|..] == rest
  {
    var bytes := Utf8(c) + rest;
    assert forall i :: 0 <= i < |Utf8(c)| ==> bytes[i] == Utf8(c)[i];
    Sixes(c);
  }

  lemma Sixes(c: CodePoint)
    ensures c == c / 64 * 64 + c % 64
    ensures c == c / 4096 * 4096 + c / 64 % 64 * 64 + c % 64
    ensures c == c / 262144 * 262144 + c / 4096 % 64 * 4096 + c / 64 % 64 * 64 + c % 64
  {
    assert c / 64 / 64 == c / 4096 && c / 4096 / 64 == c / 262144;
  }

  lemma {:induction false} BytesDecode(text: Text)
    ensures Decodes(Utf8All(text), text)
  {
    if text != [] {
      hide Utf8, FirstPoint;
      PointReads(text[0], Utf8All(text[1..]));
      BytesDecode(text[1..]);
    }
  }

  /** A KEY'S BYTES SAY ITS INPUTS: they decode to a JSON text of the very document. */
  lemma CanonicalBytesSay(v: Json)
    requires Distinct(v) && CanonicalBytes(v).Bytes?
    ensures exists text :: Decodes(CanonicalBytes(v).bytes, text) && JsonText(v, text)
  {
    hide JsonText, Decodes, Encode;
    EncodingIsJson(v);
    BytesDecode(Encode(v));
  }
}
