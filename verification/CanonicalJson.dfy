/** A key's encoding (artefact_store.py, `_check`, `canonical_json`): what `json.dumps` writes with sorted keys, no
    whitespace and non-ASCII kept, as UTF-8. Its bytes name exactly one JSON value (RFC 8259, sections 4 to 7),
    whatever order the members of its objects were inserted in. */
module CanonicalJson {
  import opened Sorting

  /** A code point of a Python string; the surrogates are among them. */
  type CodePoint = c: int | 0 <= c < 0x110000

  type Text = seq<CodePoint>

  type Byte = b: int | 0 <= b < 256

  datatype Name = Word(text: Text) | NotString

  datatype Member = Member(name: Name, value: Json)

  /** A Python value handed to `canonical_json`: objects keep their insertion order; `Float` and `Foreign` are
      the values `_check` refuses. */
  datatype Json =
    | Null
    | Bool(truth: bool)
    | Int(number: int)
    | Str(text: Text)
    | Arr(items: seq<Json>)
    | Obj(members: seq<Member>)
    | Float
    | Foreign

  /** The JSON value a Python value stands for: an object is an unordered map. */
  datatype Value =
    | VNull
    | VBool(truth: bool)
    | VInt(number: int)
    | VStr(text: Text)
    | VArr(items: seq<Value>)
    | VObj(members: map<Name, Value>)
    | VOther

  datatype Canonical = Bytes(bytes: seq<Byte>) | KeyRefused | NotEncodable

  const QUOTE: CodePoint := 0x22
  const COMMA: CodePoint := 0x2C
  const COLON: CodePoint := 0x3A
  const SLASH: CodePoint := 0x2F
  const BACKSLASH: CodePoint := 0x5C
  const OPEN_ARRAY: CodePoint := 0x5B
  const CLOSE_ARRAY: CodePoint := 0x5D
  const OPEN_OBJECT: CodePoint := 0x7B
  const CLOSE_OBJECT: CodePoint := 0x7D
  const MINUS: CodePoint := 0x2D
  const ZERO: CodePoint := 0x30

  /* ---------------------------------------------------------------- what is accepted */

  predicate AbsolutePath(text: Text) {
    (|text| > 0 && text[0] == SLASH)
    || (|text| > 2 && text[1] == COLON && (text[2] == SLASH || text[2] == BACKSLASH))
  }

  /** `_check`: string keys, no float, no absolute path, nothing that is not JSON. */
  predicate Check(value: Json) {
    match value
    case Null => true
    case Bool(_) => true
    case Int(_) => true
    case Str(text) => !AbsolutePath(text)
    case Arr(items) => forall i :: 0 <= i < |items| ==> Check(items[i])
    case Obj(members) => forall i :: 0 <= i < |members| ==> members[i].name.Word? && Check(members[i].value)
    case Float => false
    case Foreign => false
  }

  /** What every Python dict is: no two members of one object bear one name. */
  predicate Distinct(value: Json) {
    match value
    case Arr(items) => forall i :: 0 <= i < |items| ==> Distinct(items[i])
    case Obj(members) =>
      && (forall i :: 0 <= i < |members| ==> Distinct(members[i].value))
      && forall i, j :: 0 <= i < j < |members| ==> members[i].name != members[j].name
    case _ => true
  }

  function Denote(value: Json): Value {
    match value
    case Null => VNull
    case Bool(truth) => VBool(truth)
    case Int(number) => VInt(number)
    case Str(text) => VStr(text)
    case Arr(items) => VArr(seq(|items|, i requires 0 <= i < |items| => Denote(items[i])))
    case Obj(members) =>
      VObj(MapOf(members, seq(|members|, i requires 0 <= i < |members| => Denote(members[i].value))))
    case _ => VOther
  }

  function MapOf(members: seq<Member>, values: seq<Value>): map<Name, Value>
    requires |values| == |members|
  {
    if members == [] then map[] else MapOf(members[1..], values[1..])[members[0].name := values[0]]
  }

  /* ---------------------------------------------------------------- the encoder */

  function HexDigit(n: int): CodePoint
    requires 0 <= n < 16
  {
    if n < 10 then ZERO + n else 0x61 + n - 10
  }

  function Escape(c: CodePoint): Text {
    if c == QUOTE || c == BACKSLASH then [BACKSLASH, c]
    else if c == 0x0A then [BACKSLASH, 0x6E]
    else if c == 0x0D then [BACKSLASH, 0x72]
    else if c == 0x09 then [BACKSLASH, 0x74]
    else if c == 0x0C then [BACKSLASH, 0x66]
    else if c == 0x08 then [BACKSLASH, 0x62]
    else if c < 0x20 then [BACKSLASH, 0x75, ZERO, ZERO, HexDigit(c / 16), HexDigit(c % 16)]
    else [c]
  }

  function EscapeAll(text: Text): Text {
    if text == [] then [] else Escape(text[0]) + EscapeAll(text[1..])
  }

  function Quote(text: Text): Text {
    [QUOTE] + EscapeAll(text) + [QUOTE]
  }

  function Digits(n: nat): Text {
    if n < 10 then [ZERO + n] else Digits(n / 10) + [ZERO + n % 10]
  }

  function Decimal(n: int): Text {
    if n < 0 then [MINUS] + Digits(-n) else Digits(n)
  }

  function Join(parts: seq<Text>): Text {
    if parts == [] then []
    else if |parts| == 1 then parts[0]
    else parts[0] + [COMMA] + Join(parts[1..])
  }

  /** An object's member as written: its name, and the encoding of its value. */
  datatype Entry = Entry(name: Text, text: Text)

  predicate EntryBefore(a: Entry, b: Entry) {
    if a.name == b.name then Lex(a.text, b.text) else Lex(a.name, b.name)
  }

  function EntryParts(entries: seq<Entry>): seq<Text> {
    seq(|entries|, i requires 0 <= i < |entries| => Quote(entries[i].name) + [COLON] + entries[i].text)
  }

  function Encode(value: Json): Text
    requires Check(value)
  {
    match value
    case Null => [0x6E, 0x75, 0x6C, 0x6C]
    case Bool(truth) => if truth then [0x74, 0x72, 0x75, 0x65] else [0x66, 0x61, 0x6C, 0x73, 0x65]
    case Int(number) => Decimal(number)
    case Str(text) => Quote(text)
    case Arr(items) =>
      [OPEN_ARRAY] + Join(seq(|items|, i requires 0 <= i < |items| => Encode(items[i]))) + [CLOSE_ARRAY]
    case Obj(members) =>
      var entries := seq(|members|, i requires 0 <= i < |members| =>
        Entry(members[i].name.text, Encode(members[i].value)));
      [OPEN_OBJECT] + Join(EntryParts(Sort(EntryBefore, entries))) + [CLOSE_OBJECT]
  }

  predicate Surrogate(c: CodePoint) {
    0xD800 <= c < 0xE000
  }

  function Utf8(c: CodePoint): seq<Byte> {
    if c < 0x80 then [c]
    else if c < 0x800 then [0xC0 + c / 64, 0x80 + c % 64]
    else if c < 0x10000 then [0xE0 + c / 4096, 0x80 + c / 64 % 64, 0x80 + c % 64]
    else [0xF0 + c / 262144, 0x80 + c / 4096 % 64, 0x80 + c / 64 % 64, 0x80 + c % 64]
  }

  function Utf8All(text: Text): seq<Byte> {
    if text == [] then [] else Utf8(text[0]) + Utf8All(text[1..])
  }

  /** `canonical_json`: refused by `_check`, or not encodable because a string holds a surrogate, or its bytes. */
  function CanonicalBytes(value: Json): Canonical {
    if !Check(value) then KeyRefused
    else if exists i :: 0 <= i < |Encode(value)| && Surrogate(Encode(value)[i]) then NotEncodable
    else Bytes(Utf8All(Encode(value)))
  }

  /* ---------------------------------------------------------------- UTF-8 is injective */

  lemma Utf8Prefix(c: CodePoint, d: CodePoint, r: seq<Byte>, t: seq<Byte>)
    requires Utf8(c) + r == Utf8(d) + t
    ensures c == d && r == t
  {
    var left, right := Utf8(c) + r, Utf8(d) + t;
    assert left[0] == Utf8(c)[0] && right[0] == Utf8(d)[0];
    assert |Utf8(c)| == |Utf8(d)|;
    assert left[..|Utf8(c)|] == Utf8(c) && right[..|Utf8(d)|] == Utf8(d);
    assert left[|Utf8(c)|..] == r && right[|Utf8(d)|..] == t;
    Utf8Determines(c, d);
  }

  lemma Utf8Determines(c: CodePoint, d: CodePoint)
    requires Utf8(c) == Utf8(d)
    ensures c == d
  {
    var a, b := Utf8(c), Utf8(d);
    assert |a| == |b|;
    assert forall i :: 0 <= i < |a| ==> a[i] == b[i];
    if |a| == 2 {
      assert a[0] == b[0] && a[1] == b[1];
    } else if |a| == 3 {
      assert a[0] == b[0] && a[1] == b[1] && a[2] == b[2];
      assert c / 4096 == c / 64 / 64 && d / 4096 == d / 64 / 64;
    } else if |a| == 4 {
      assert a[0] == b[0] && a[1] == b[1] && a[2] == b[2] && a[3] == b[3];
      assert c / 4096 == c / 64 / 64 && d / 4096 == d / 64 / 64;
      assert c / 262144 == c / 4096 / 64 && d / 262144 == d / 4096 / 64;
    }
  }

  lemma {:induction false} Utf8Injective(a: Text, b: Text)
    requires Utf8All(a) == Utf8All(b)
    ensures a == b
  {
    if a != [] && b != [] {
      Utf8Prefix(a[0], b[0], Utf8All(a[1..]), Utf8All(b[1..]));
      Utf8Injective(a[1..], b[1..]);
      assert a == [a[0]] + a[1..] == [b[0]] + b[1..] == b;
    }
  }

  /* ---------------------------------------------------------------- strings and numbers are unambiguous */

  lemma EscapePrefix(c: CodePoint, d: CodePoint, r: Text, t: Text)
    requires Escape(c) + r == Escape(d) + t
    ensures c == d && r == t
  {
    var left, right := Escape(c) + r, Escape(d) + t;
    assert left[0] == Escape(c)[0] && right[0] == Escape(d)[0];
    if |Escape(c)| > 1 {
      assert left[1] == Escape(c)[1] && right[1] == Escape(d)[1];
      if |Escape(c)| == 6 {
        assert left[4] == Escape(c)[4] && right[4] == Escape(d)[4];
        assert left[5] == Escape(c)[5] && right[5] == Escape(d)[5];
      }
    }
    assert left[|Escape(c)|..] == r && right[|Escape(d)|..] == t;
  }

  lemma EscapeAllFirst(a: Text, r: Text)
    ensures a == [] ==> EscapeAll(a) + [QUOTE] + r == [QUOTE] + r
    ensures a != [] ==> EscapeAll(a) + [QUOTE] + r == Escape(a[0]) + (EscapeAll(a[1..]) + [QUOTE] + r)
  {
  }

  lemma {:induction false} EscapeAllPrefix(a: Text, b: Text, r: Text, t: Text)
    requires EscapeAll(a) + [QUOTE] + r == EscapeAll(b) + [QUOTE] + t
    ensures a == b && r == t
  {
    EscapeAllFirst(a, r);
    EscapeAllFirst(b, t);
    assert ([QUOTE] + r)[0] == QUOTE && ([QUOTE] + t)[0] == QUOTE;
    assert a != [] ==> (EscapeAll(a) + [QUOTE] + r)[0] == Escape(a[0])[0];
    assert b != [] ==> (EscapeAll(b) + [QUOTE] + t)[0] == Escape(b[0])[0];
    if a == [] && b == [] {
      assert ([QUOTE] + r)[1..] == r && ([QUOTE] + t)[1..] == t;
    } else if a != [] && b != [] {
      EscapePrefix(a[0], b[0], EscapeAll(a[1..]) + [QUOTE] + r, EscapeAll(b[1..]) + [QUOTE] + t);
      EscapeAllPrefix(a[1..], b[1..], r, t);
      assert a == [a[0]] + a[1..] == [b[0]] + b[1..] == b;
    }
  }

  lemma QuoteOpens(a: Text, r: Text)
    ensures (Quote(a) + r)[1..] == EscapeAll(a) + [QUOTE] + r
  {
    hide EscapeAll;
  }

  lemma QuotePrefix(a: Text, b: Text, r: Text, t: Text)
    requires Quote(a) + r == Quote(b) + t
    ensures a == b && r == t
  {
    hide Quote, EscapeAll;
    QuoteOpens(a, r);
    QuoteOpens(b, t);
    EscapeAllPrefix(a, b, r, t);
  }

  predicate IsDigit(c: CodePoint) {
    ZERO <= c < ZERO + 10
  }

  /** What may follow a value inside an encoding. */
  predicate Ends(rest: Text) {
    rest == [] || rest[0] == COMMA || rest[0] == CLOSE_ARRAY || rest[0] == CLOSE_OBJECT
  }

  function ValueOf(digits: Text): int {
    if digits == [] then 0 else 10 * ValueOf(digits[..|digits| - 1]) + digits[|digits| - 1] - ZERO
  }

  lemma {:induction false} DigitsAreTheNumber(n: nat)
    ensures ValueOf(Digits(n)) == n
    ensures |Digits(n)| > 0 && forall i :: 0 <= i < |Digits(n)| ==> IsDigit(Digits(n)[i])
  {
    if n >= 10 {
      DigitsAreTheNumber(n / 10);
      assert Digits(n)[..|Digits(n)| - 1] == Digits(n / 10);
    } else {
      assert Digits(n)[..0] == [];
    }
  }

  /** A run of digits ends where the digits end. */
  lemma DigitsNoShorter(a: Text, b: Text, r: Text, t: Text)
    requires forall i :: 0 <= i < |b| ==> IsDigit(b[i])
    requires Ends(r) && a + r == b + t
    ensures |a| >= |b|
  {
    assert forall i :: 0 <= i < |b| ==> (b + t)[i] == b[i];
    assert r != [] ==> (a + r)[|a|] == r[0];
    assert |a| + |r| == |b| + |t|;
  }

  lemma DigitsPrefix(m: nat, n: nat, r: Text, t: Text)
    requires Ends(r) && Ends(t) && Digits(m) + r == Digits(n) + t
    ensures m == n && r == t
  {
    DigitsAreTheNumber(m);
    DigitsAreTheNumber(n);
    var left, right := Digits(m) + r, Digits(n) + t;
    DigitsNoShorter(Digits(m), Digits(n), r, t);
    DigitsNoShorter(Digits(n), Digits(m), t, r);
    assert left[..|Digits(m)|] == Digits(m) && right[..|Digits(n)|] == Digits(n);
    assert left[|Digits(m)|..] == r && right[|Digits(n)|..] == t;
  }

  lemma DecimalFirst(n: int, r: Text)
    ensures |Decimal(n)| > 0 && (Decimal(n) + r)[0] == Decimal(n)[0]
    ensures if n < 0 then Decimal(n)[0] == MINUS && (Decimal(n) + r)[1..] == Digits(-n) + r
            else IsDigit(Decimal(n)[0])
  {
    if n < 0 { assert (Decimal(n) + r)[1..] == Digits(-n) + r; } else { DigitsAreTheNumber(n); }
  }

  lemma DecimalPrefix(m: int, n: int, r: Text, t: Text)
    requires Ends(r) && Ends(t) && Decimal(m) + r == Decimal(n) + t
    ensures m == n && r == t
  {
    DecimalFirst(m, r);
    DecimalFirst(n, t);
    if m < 0 { DigitsPrefix(-m, -n, r, t); } else { DigitsPrefix(m, n, r, t); }
  }

  /* ---------------------------------------------------------------- the encoding of a value is unambiguous */

  function Texts(items: seq<Json>): (texts: seq<Text>)
    requires forall i :: 0 <= i < |items| ==> Check(items[i])
    ensures |texts| == |items| && forall i :: 0 <= i < |items| ==> texts[i] == Encode(items[i])
  {
    seq(|items|, i requires 0 <= i < |items| => Encode(items[i]))
  }

  function Entries(members: seq<Member>): (entries: seq<Entry>)
    requires forall i :: 0 <= i < |members| ==> members[i].name.Word? && Check(members[i].value)
    ensures |entries| == |members|
    ensures forall i :: 0 <= i < |members| ==> entries[i] == Entry(members[i].name.text, Encode(members[i].value))
  {
    seq(|members|, i requires 0 <= i < |members| => Entry(members[i].name.text, Encode(members[i].value)))
  }

  lemma EncodeArr(items: seq<Json>)
    requires Check(Arr(items))
    ensures Encode(Arr(items)) == [OPEN_ARRAY] + Join(Texts(items)) + [CLOSE_ARRAY]
  {
    assert Texts(items) == seq(|items|, i requires 0 <= i < |items| => Encode(items[i]));
  }

  lemma EncodeObj(members: seq<Member>)
    requires Check(Obj(members))
    ensures Encode(Obj(members))
            == [OPEN_OBJECT] + Join(EntryParts(Sort(EntryBefore, Entries(members)))) + [CLOSE_OBJECT]
  {
    assert Entries(members) == seq(|members|, i requires 0 <= i < |members| =>
      Entry(members[i].name.text, Encode(members[i].value)));
  }

  /** The first code point of an encoding tells the kind of its value. */
  function Lead(value: Json): CodePoint
    requires Check(value)
  {
    match value
    case Null => 0x6E
    case Bool(truth) => if truth then 0x74 else 0x66
    case Int(number) => Decimal(number)[0]
    case Str(_) => QUOTE
    case Arr(_) => OPEN_ARRAY
    case Obj(_) => OPEN_OBJECT
  }

  lemma LeadIsFirst(value: Json, r: Text)
    requires Check(value)
    ensures |Encode(value)| > 0 && (Encode(value) + r)[0] == Encode(value)[0] == Lead(value)
    ensures Lead(value) != COMMA && Lead(value) != CLOSE_ARRAY && Lead(value) != CLOSE_OBJECT
  {
    if value.Int? { DecimalFirst(value.number, r); }
    if value.Arr? { EncodeArr(value.items); }
    if value.Obj? { EncodeObj(value.members); }
  }

  /** One value's text cannot be another's, whatever legally follows either. */
  lemma {:induction false} Unambiguous(v: Json, w: Json, r: Text, t: Text)
    requires Check(v) && Check(w) && Distinct(v) && Distinct(w) && Ends(r) && Ends(t)
    requires Encode(v) + r == Encode(w) + t
    ensures Encode(v) == Encode(w) && r == t && Denote(v) == Denote(w)
    decreases v, 1, 0
  {
    LeadIsFirst(v, r);
    LeadIsFirst(w, t);
    if v.Int? && w.Int? {
      DecimalPrefix(v.number, w.number, r, t);
    } else if v.Int? {
      DecimalFirst(v.number, r);
    } else if w.Int? {
      DecimalFirst(w.number, t);
    } else if v.Str? {
      QuotePrefix(v.text, w.text, r, t);
    } else if v.Arr? {
      ArraysUnambiguous(v, w, r, t);
    } else if v.Obj? {
      ObjectsUnambiguous(v, w, r, t);
    } else {
      assert v == w;
      assert (Encode(v) + r)[|Encode(v)|..] == r && (Encode(w) + t)[|Encode(w)|..] == t;
    }
  }

  lemma {:induction false} ArraysUnambiguous(v: Json, w: Json, r: Text, t: Text)
    requires Check(v) && Check(w) && Distinct(v) && Distinct(w) && Ends(r) && Ends(t) && v.Arr? && w.Arr?
    requires Encode(v) + r == Encode(w) + t
    ensures Encode(v) == Encode(w) && r == t && Denote(v) == Denote(w)
    decreases v, 0, |v.items| + 1
  {
    hide Join, Distinct;
    EncodeArr(v.items);
    EncodeArr(w.items);
    assert (Encode(v) + r)[1..] == Join(Texts(v.items)[0..]) + ([CLOSE_ARRAY] + r) by {
      assert Texts(v.items)[0..] == Texts(v.items);
    }
    assert (Encode(w) + t)[1..] == Join(Texts(w.items)[0..]) + ([CLOSE_ARRAY] + t) by {
      assert Texts(w.items)[0..] == Texts(w.items);
    }
    ItemsUnambiguous(v, w, 0, r, t);
    assert Texts(v.items) == Texts(w.items);
  }

  /** What follows the first part of a join. */
  function Rest(parts: seq<Text>): Text
    requires parts != []
  {
    if |parts| == 1 then [] else [COMMA] + Join(parts[1..])
  }

  lemma JoinFirst(parts: seq<Text>, r: Text)
    requires parts != []
    ensures Join(parts) + r == parts[0] + (Rest(parts) + r)
  {
  }

  /** No item's text starts with the bracket that closes its array. */
  lemma ItemIsNoClose(v: Json, k: nat, r: Text, t: Text)
    requires Check(v) && v.Arr? && k < |v.items|
    ensures Join(Texts(v.items)[k..]) + r != [CLOSE_ARRAY] + t
  {
    hide Join, Rest;
    var p := Texts(v.items)[k..];
    JoinFirst(p, r);
    LeadIsFirst(v.items[k], Rest(p) + r);
  }

  lemma NoneLeft(p: seq<Text>, q: seq<Text>, close: CodePoint, r: Text, t: Text)
    requires p == [] && q == [] && Join(p) + ([close] + r) == Join(q) + ([close] + t)
    ensures r == t
  {
    assert Join(p) + ([close] + r) == [close] + r && Join(q) + ([close] + t) == [close] + t;
    assert ([close] + r)[1..] == r && ([close] + t)[1..] == t;
  }

  lemma {:induction false} ItemsUnambiguous(v: Json, w: Json, k: nat, r: Text, t: Text)
    requires Check(v) && Check(w) && Distinct(v) && Distinct(w) && v.Arr? && w.Arr?
    requires k <= |v.items| && k <= |w.items|
    requires Join(Texts(v.items)[k..]) + ([CLOSE_ARRAY] + r) == Join(Texts(w.items)[k..]) + ([CLOSE_ARRAY] + t)
    ensures |v.items| == |w.items| && r == t
    ensures forall i :: k <= i < |v.items| ==>
              Encode(v.items[i]) == Encode(w.items[i]) && Denote(v.items[i]) == Denote(w.items[i])
    decreases v, 0, |v.items| - k
  {
    hide Join, Rest, Denote, Quote;
    var p, q := Texts(v.items)[k..], Texts(w.items)[k..];
    if p == [] && q == [] {
      NoneLeft(p, q, CLOSE_ARRAY, r, t);
    } else if p == [] {
      NothingJoined(p, [CLOSE_ARRAY] + r);
      ItemIsNoClose(w, k, [CLOSE_ARRAY] + t, r);
    } else if q == [] {
      NothingJoined(q, [CLOSE_ARRAY] + t);
      ItemIsNoClose(v, k, [CLOSE_ARRAY] + r, t);
    } else {
      JoinFirst(p, [CLOSE_ARRAY] + r);
      JoinFirst(q, [CLOSE_ARRAY] + t);
      RestEnds(p, CLOSE_ARRAY, r);
      RestEnds(q, CLOSE_ARRAY, t);
      Unambiguous(v.items[k], w.items[k], Rest(p) + ([CLOSE_ARRAY] + r), Rest(q) + ([CLOSE_ARRAY] + t));
      RestPrefix(p, q, CLOSE_ARRAY, r, t);
      if |p| > 1 {
        assert p[1..] == Texts(v.items)[k + 1..] && q[1..] == Texts(w.items)[k + 1..];
        ItemsUnambiguous(v, w, k + 1, r, t);
      }
    }
  }

  lemma NothingJoined(p: seq<Text>, r: Text)
    requires p == []
    ensures Join(p) + r == r
  {
  }

  /** What follows the first part of a join and a close starts with the close, or with a comma and the other parts. */
  lemma RestStart(p: seq<Text>, close: CodePoint, r: Text)
    requires p != []
    ensures var rest := Rest(p) + ([close] + r);
            rest != [] && rest[0] == (if |p| == 1 then close else COMMA)
            && rest[1..] == if |p| == 1 then r else Join(p[1..]) + ([close] + r)
  {
    hide Join;
    if |p| == 1 {
      assert Rest(p) + ([close] + r) == [close] + r;
    } else {
      assert Rest(p) + ([close] + r) == [COMMA] + (Join(p[1..]) + ([close] + r));
    }
  }

  /** What follows an item or an entry ends it. */
  lemma RestEnds(p: seq<Text>, close: CodePoint, r: Text)
    requires p != [] && (close == CLOSE_ARRAY || close == CLOSE_OBJECT)
    ensures Ends(Rest(p) + ([close] + r))
  {
  }

  /** After one part, both joins go on or both close. */
  lemma RestPrefix(p: seq<Text>, q: seq<Text>, close: CodePoint, r: Text, t: Text)
    requires p != [] && q != [] && close != COMMA
    requires Rest(p) + ([close] + r) == Rest(q) + ([close] + t)
    ensures |p| == 1 <==> |q| == 1
    ensures |p| == 1 ==> r == t
    ensures |p| > 1 && |q| > 1 ==> Join(p[1..]) + ([close] + r) == Join(q[1..]) + ([close] + t)
  {
    hide Join, Rest;
    RestStart(p, close, r);
    RestStart(q, close, t);
  }

  /** Each entry is some member's. */
  ghost predicate From(entries: seq<Entry>, members: seq<Member>)
    requires forall i :: 0 <= i < |members| ==> members[i].name.Word? && Check(members[i].value)
  {
    forall j :: 0 <= j < |entries| ==> exists i :: 0 <= i < |members| && entries[j] == Entries(members)[i]
  }

  lemma SortedFrom(members: seq<Member>)
    requires Check(Obj(members))
    ensures From(Sort(EntryBefore, Entries(members)), members)
  {
    SortIsPermutation(EntryBefore, Entries(members));
    var sorted := Sort(EntryBefore, Entries(members));
    forall j | 0 <= j < |sorted| ensures exists i :: 0 <= i < |members| && sorted[j] == Entries(members)[i] {
      assert sorted[j] in multiset(sorted);
      assert sorted[j] in Entries(members);
    }
  }

  lemma {:induction false} ObjectsUnambiguous(v: Json, w: Json, r: Text, t: Text)
    requires Check(v) && Check(w) && Distinct(v) && Distinct(w) && Ends(r) && Ends(t) && v.Obj? && w.Obj?
    requires Encode(v) + r == Encode(w) + t
    ensures Encode(v) == Encode(w) && r == t && Denote(v) == Denote(w)
    decreases v, 0, |v.members| + 3
  {
    var p, q := Sort(EntryBefore, Entries(v.members)), Sort(EntryBefore, Entries(w.members));
    ObjectText(v, r);
    ObjectText(w, t);
    EntriesUnambiguous(v, w, p, q, 0, r, t);
    assert p == p[0..] == q[0..] == q;
    EncodeObj(v.members);
    EncodeObj(w.members);
    EqualEntriesEqualMaps(v, w);
  }

  lemma ObjectText(v: Json, r: Text)
    requires Check(v) && v.Obj?
    ensures var p := Sort(EntryBefore, Entries(v.members));
            From(p, v.members) && |p| == |v.members|
            && (Encode(v) + r)[1..] == Join(EntryParts(p)[0..]) + ([CLOSE_OBJECT] + r)
  {
    hide Sort, Join, From, Quote, EntryBefore;
    EncodeObj(v.members);
    SortedFrom(v.members);
    SortIsPermutation(EntryBefore, Entries(v.members));
    var p := Sort(EntryBefore, Entries(v.members));
    assert EntryParts(p)[0..] == EntryParts(p);
  }

  lemma EntryFirst(entry: Entry, r: Text)
    ensures Quote(entry.name) + [COLON] + entry.text + r == Quote(entry.name) + ([COLON] + (entry.text + r))
    ensures ([COLON] + (entry.text + r))[1..] == entry.text + r
    ensures (Quote(entry.name) + [COLON] + entry.text + r)[0] == QUOTE
  {
  }

  /** No entry's text starts with the brace that closes its object. */
  lemma EntryIsNoClose(q: seq<Entry>, k: nat, r: Text, t: Text)
    requires k < |q|
    ensures Join(EntryParts(q)[k..]) + r != [CLOSE_OBJECT] + t
  {
    hide Join, Rest, Quote;
    var b := EntryParts(q)[k..];
    JoinFirst(b, r);
    EntryFirst(q[k], Rest(b) + r);
  }

  lemma {:induction false} EntriesUnambiguous(v: Json, w: Json, p: seq<Entry>, q: seq<Entry>, k: nat, r: Text, t: Text)
    requires Check(v) && Check(w) && Distinct(v) && Distinct(w) && v.Obj? && w.Obj?
    requires From(p, v.members) && From(q, w.members) && k <= |p| <= |v.members| && k <= |q|
    requires Join(EntryParts(p)[k..]) + ([CLOSE_OBJECT] + r) == Join(EntryParts(q)[k..]) + ([CLOSE_OBJECT] + t)
    ensures |p| == |q| && p[k..] == q[k..] && r == t
    decreases v, 0, |v.members| - k
  {
    hide Join, Rest, Distinct, Quote, Check;
    var a, b := EntryParts(p)[k..], EntryParts(q)[k..];
    if a == [] && b == [] {
      NoneLeft(a, b, CLOSE_OBJECT, r, t);
    } else if a == [] {
      NothingJoined(a, [CLOSE_OBJECT] + r);
      EntryIsNoClose(q, k, [CLOSE_OBJECT] + t, r);
    } else if b == [] {
      NothingJoined(b, [CLOSE_OBJECT] + t);
      EntryIsNoClose(p, k, [CLOSE_OBJECT] + r, t);
    } else {
      JoinFirst(a, [CLOSE_OBJECT] + r);
      JoinFirst(b, [CLOSE_OBJECT] + t);
      RestEnds(a, CLOSE_OBJECT, r);
      RestEnds(b, CLOSE_OBJECT, t);
      EntryUnambiguous(v, w, p[k], q[k], Rest(a) + ([CLOSE_OBJECT] + r), Rest(b) + ([CLOSE_OBJECT] + t));
      RestPrefix(a, b, CLOSE_OBJECT, r, t);
      if |a| > 1 {
        assert a[1..] == EntryParts(p)[k + 1..] && b[1..] == EntryParts(q)[k + 1..];
        EntriesUnambiguous(v, w, p, q, k + 1, r, t);
      }
      assert p[k..] == [p[k]] + p[k + 1..] && q[k..] == [q[k]] + q[k + 1..];
    }
  }

  lemma {:induction false} EntryUnambiguous(v: Json, w: Json, e: Entry, f: Entry, r: Text, t: Text)
    requires Check(v) && Check(w) && Distinct(v) && Distinct(w) && v.Obj? && w.Obj? && Ends(r) && Ends(t)
    requires exists i :: 0 <= i < |v.members| && e == Entries(v.members)[i]
    requires exists j :: 0 <= j < |w.members| && f == Entries(w.members)[j]
    requires Quote(e.name) + [COLON] + e.text + r == Quote(f.name) + [COLON] + f.text + t
    ensures e == f && r == t
    decreases v, 0, 0
  {
    var i :| 0 <= i < |v.members| && e == Entries(v.members)[i];
    var j :| 0 <= j < |w.members| && f == Entries(w.members)[j];
    EntryFirst(e, r);
    EntryFirst(f, t);
    QuotePrefix(e.name, f.name, [COLON] + (e.text + r), [COLON] + (f.text + t));
    Unambiguous(v.members[i].value, w.members[j].value, r, t);
  }

  lemma {:induction false} MapOfDistinct(members: seq<Member>, values: seq<Value>)
    requires |values| == |members|
    requires forall i, j :: 0 <= i < j < |members| ==> members[i].name != members[j].name
    ensures forall i :: 0 <= i < |members| ==>
              members[i].name in MapOf(members, values) && MapOf(members, values)[members[i].name] == values[i]
    ensures forall name <- MapOf(members, values) :: exists i :: 0 <= i < |members| && members[i].name == name
  {
    if members != [] {
      MapOfDistinct(members[1..], values[1..]);
      forall i | 0 <= i < |members|
        ensures members[i].name in MapOf(members, values) && MapOf(members, values)[members[i].name] == values[i]
      {
        if i > 0 { assert members[1..][i - 1] == members[i] && values[1..][i - 1] == values[i]; }
      }
      forall name | name in MapOf(members, values) ensures exists i :: 0 <= i < |members| && members[i].name == name {
        if name == members[0].name { assert members[0].name == name; }
        else {
          var i :| 0 <= i < |members[1..]| && members[1..][i].name == name;
          assert members[i + 1].name == name;
        }
      }
    }
  }

  function Values(members: seq<Member>): (values: seq<Value>)
    ensures |values| == |members| && forall i :: 0 <= i < |members| ==> values[i] == Denote(members[i].value)
  {
    seq(|members|, i requires 0 <= i < |members| => Denote(members[i].value))
  }

  /** `all` is the map the members denote. */
  ghost predicate Tabled(all: map<Name, Value>, members: seq<Member>) {
    && (forall i :: 0 <= i < |members| ==> members[i].name in all && all[members[i].name] == Denote(members[i].value))
    && (forall name <- all :: Names(members, name))
  }

  lemma DenoteObj(members: seq<Member>)
    requires Distinct(Obj(members))
    ensures Denote(Obj(members)).VObj? && Tabled(Denote(Obj(members)).members, members)
  {
    assert Values(members) == seq(|members|, i requires 0 <= i < |members| => Denote(members[i].value));
    MapOfDistinct(members, Values(members));
    forall name | name in MapOf(members, Values(members)) ensures Names(members, name) {
      var i :| 0 <= i < |members| && members[i].name == name;
    }
  }

  /** Equal entries are equal names and texts, and equal texts are equal values. */
  lemma {:induction false} EqualEntriesEqualMaps(v: Json, w: Json)
    requires Check(v) && Check(w) && Distinct(v) && Distinct(w) && v.Obj? && w.Obj?
    requires Sort(EntryBefore, Entries(v.members)) == Sort(EntryBefore, Entries(w.members))
    ensures Denote(v) == Denote(w)
    decreases v, 0, 2
  {
    SortIsPermutation(EntryBefore, Entries(v.members));
    SortIsPermutation(EntryBefore, Entries(w.members));
    forall i | 0 <= i < |v.members| ensures Holds(w.members, v.members[i].name, Denote(v.members[i].value)) {
      MemberMatched(v, w, i);
    }
    NamesMatched(w.members, v.members);
    DenoteObj(v.members);
    DenoteObj(w.members);
    MatchedMapsEqual(Denote(v).members, Denote(w).members, v.members, w.members);
  }

  /** Some member bears this name, and this value. */
  ghost predicate Holds(members: seq<Member>, name: Name, value: Value) {
    exists j :: 0 <= j < |members| && members[j].name == name && Denote(members[j].value) == value
  }

  ghost predicate Names(members: seq<Member>, name: Name) {
    exists j :: 0 <= j < |members| && members[j].name == name
  }

  lemma NamesMatched(some: seq<Member>, all: seq<Member>)
    requires Check(Obj(some)) && Check(Obj(all))
    requires multiset(Entries(some)) == multiset(Entries(all))
    ensures forall j :: 0 <= j < |some| ==> Names(all, some[j].name)
  {
    forall j | 0 <= j < |some| ensures Names(all, some[j].name) {
      assert Entries(some)[j] in multiset(Entries(all));
      var i :| 0 <= i < |all| && Entries(all)[i] == Entries(some)[j];
      assert all[i].name == some[j].name;
    }
  }

  lemma MatchedMapsEqual(left: map<Name, Value>, right: map<Name, Value>, a: seq<Member>, b: seq<Member>)
    requires Tabled(left, a) && Tabled(right, b)
    requires forall i :: 0 <= i < |a| ==> Holds(b, a[i].name, Denote(a[i].value))
    requires forall j :: 0 <= j < |b| ==> Names(a, b[j].name)
    ensures left == right
  {
    forall name | name in left ensures name in right && right[name] == left[name] {
      assert Names(a, name);
      var i :| 0 <= i < |a| && a[i].name == name;
      assert Holds(b, a[i].name, Denote(a[i].value));
    }
    forall name | name in right ensures name in left {
      assert Names(b, name);
      var j :| 0 <= j < |b| && b[j].name == name;
      assert Names(a, b[j].name);
    }
  }

  lemma {:induction false} MemberMatched(v: Json, w: Json, i: nat)
    requires Check(v) && Check(w) && Distinct(v) && Distinct(w) && v.Obj? && w.Obj? && i < |v.members|
    requires multiset(Entries(v.members)) == multiset(Entries(w.members))
    ensures Holds(w.members, v.members[i].name, Denote(v.members[i].value))
    decreases v, 0, 1
  {
    assert Entries(v.members)[i] in multiset(Entries(w.members));
    var j :| 0 <= j < |w.members| && Entries(w.members)[j] == Entries(v.members)[i];
    assert w.members[j].name == v.members[i].name;
    assert Encode(v.members[i].value) + [] == Encode(w.members[j].value) + [];
    Unambiguous(v.members[i].value, w.members[j].value, [], []);
  }

  /* ---------------------------------------------------------------- the order of members does not matter */

  /** Equal values have equal texts, whatever order their objects' members were inserted in. */
  lemma {:induction false} OrderFree(v: Json, w: Json)
    requires Check(v) && Check(w) && Distinct(v) && Distinct(w) && Denote(v) == Denote(w)
    ensures Encode(v) == Encode(w)
    decreases v, 1
  {
    if v.Arr? {
      ArraysOrderFree(v, w);
    } else if v.Obj? {
      DenoteObj(v.members);
      DenoteObj(w.members);
      ObjectsOrderFree(v, w);
    }
  }

  lemma {:induction false} ArraysOrderFree(v: Json, w: Json)
    requires v.Arr? && w.Arr? && Check(v) && Check(w) && Distinct(v) && Distinct(w) && Denote(v) == Denote(w)
    ensures Encode(v) == Encode(w)
    decreases v, 0
  {
    EncodeArr(v.items);
    EncodeArr(w.items);
    var left := seq(|v.items|, i requires 0 <= i < |v.items| => Denote(v.items[i]));
    var right := seq(|w.items|, i requires 0 <= i < |w.items| => Denote(w.items[i]));
    assert left == right;
    forall i | 0 <= i < |v.items| ensures Encode(v.items[i]) == Encode(w.items[i]) {
      assert left[i] == right[i];
      OrderFree(v.items[i], w.items[i]);
    }
    assert Texts(v.items) == Texts(w.items);
  }

  lemma {:induction false} ObjectsOrderFree(v: Json, w: Json)
    requires v.Obj? && w.Obj? && Check(v) && Check(w) && Distinct(v) && Distinct(w) && Denote(v) == Denote(w)
    ensures Encode(v) == Encode(w)
    decreases v, 0
  {
    forall i, j | 0 <= i < |v.members| && 0 <= j < |w.members| && v.members[i].name == w.members[j].name
      ensures Entries(v.members)[i] == Entries(w.members)[j]
    {
      SharedName(v, w, i, j);
      OrderFree(v.members[i].value, w.members[j].value);
    }
    SameEntries(v.members, w.members);
    EntryBeforeIsTotalOrder();
    SortForgetsOrder(EntryBefore, Entries(v.members), Entries(w.members));
    EncodeObj(v.members);
    EncodeObj(w.members);
  }

  lemma SharedName(v: Json, w: Json, i: nat, j: nat)
    requires v.Obj? && w.Obj? && Distinct(v) && Distinct(w) && Denote(v) == Denote(w)
    requires i < |v.members| && j < |w.members| && v.members[i].name == w.members[j].name
    ensures Denote(v.members[i].value) == Denote(w.members[j].value)
  {
    DenoteObj(v.members);
    DenoteObj(w.members);
  }

  lemma SameEntries(a: seq<Member>, b: seq<Member>)
    requires Check(Obj(a)) && Check(Obj(b)) && Distinct(Obj(a)) && Distinct(Obj(b)) && Denote(Obj(a)) == Denote(Obj(b))
    requires forall i, j :: 0 <= i < |a| && 0 <= j < |b| && a[i].name == b[j].name ==> Entries(a)[i] == Entries(b)[j]
    ensures multiset(Entries(a)) == multiset(Entries(b))
  {
    SameNames(a, b);
    SameNames(b, a);
    EntriesIncluded(a, b);
    EntriesIncluded(b, a);
    DistinctEntries(a);
    DistinctEntries(b);
    SameElements(Entries(a), Entries(b));
  }

  lemma SameNames(a: seq<Member>, b: seq<Member>)
    requires Distinct(Obj(a)) && Distinct(Obj(b)) && Denote(Obj(a)) == Denote(Obj(b))
    ensures forall i :: 0 <= i < |a| ==> Names(b, a[i].name)
  {
    DenoteObj(a);
    DenoteObj(b);
    forall i | 0 <= i < |a| ensures Names(b, a[i].name) {
      assert a[i].name in Denote(Obj(b)).members;
    }
  }

  lemma EntriesIncluded(a: seq<Member>, b: seq<Member>)
    requires Check(Obj(a)) && Check(Obj(b))
    requires forall i :: 0 <= i < |a| ==> Names(b, a[i].name)
    requires forall i, j :: 0 <= i < |a| && 0 <= j < |b| && a[i].name == b[j].name ==> Entries(a)[i] == Entries(b)[j]
    ensures forall entry <- Entries(a) :: entry in Entries(b)
  {
    forall entry | entry in Entries(a) ensures entry in Entries(b) {
      var i :| 0 <= i < |a| && Entries(a)[i] == entry;
      assert Names(b, a[i].name);
      var j :| 0 <= j < |b| && b[j].name == a[i].name;
      assert Entries(b)[j] == entry;
    }
  }

  lemma DistinctEntries(a: seq<Member>)
    requires Check(Obj(a)) && Distinct(Obj(a))
    ensures forall i, j :: 0 <= i < j < |a| ==> Entries(a)[i] != Entries(a)[j]
  {
    forall i, j | 0 <= i < j < |a| ensures Entries(a)[i] != Entries(a)[j] {
      assert a[i].name != a[j].name && a[i].name.Word? && a[j].name.Word?;
    }
  }

  lemma {:induction false} Once<T>(s: seq<T>, x: T)
    requires forall i, j :: 0 <= i < j < |s| ==> s[i] != s[j]
    ensures multiset(s)[x] == if x in s then 1 else 0
  {
    if s != [] {
      Once(s[1..], x);
      assert s == [s[0]] + s[1..];
    }
  }

  lemma SameElements<T>(a: seq<T>, b: seq<T>)
    requires forall i, j :: 0 <= i < j < |a| ==> a[i] != a[j]
    requires forall i, j :: 0 <= i < j < |b| ==> b[i] != b[j]
    requires (forall x <- a :: x in b) && forall x <- b :: x in a
    ensures multiset(a) == multiset(b)
  {
    forall x ensures multiset(a)[x] == multiset(b)[x] {
      Once(a, x);
      Once(b, x);
    }
  }

  lemma EntryBeforeIsTotalOrder()
    ensures TotalOrder(EntryBefore)
  {
    forall a, b ensures (EntryBefore(a, b) || EntryBefore(b, a)) && (EntryBefore(a, b) && EntryBefore(b, a) ==> a == b) {
      LexTotal(a.name, b.name);
      LexTotal(a.text, b.text);
    }
    forall a, b, c | EntryBefore(a, b) && EntryBefore(b, c) ensures EntryBefore(a, c) {
      LexTotal(a.name, b.name);
      LexTotal(b.name, c.name);
      if a.name == b.name == c.name { LexTransitive(a.text, b.text, c.text); }
      else { LexTransitive(a.name, b.name, c.name); }
    }
  }

  /** A KEY NAMES ITS INPUTS: two documents that are keyed at all have the same canonical bytes exactly when they
      are the same JSON value. */
  lemma SameBytesIffSameValue(v: Json, w: Json)
    requires Distinct(v) && Distinct(w)
    requires CanonicalBytes(v).Bytes? && CanonicalBytes(w).Bytes?
    ensures CanonicalBytes(v) == CanonicalBytes(w) <==> Denote(v) == Denote(w)
  {
    if CanonicalBytes(v) == CanonicalBytes(w) {
      Utf8Injective(Encode(v), Encode(w));
      assert Encode(v) + [] == Encode(w) + [];
      Unambiguous(v, w, [], []);
    }
    if Denote(v) == Denote(w) {
      OrderFree(v, w);
    }
  }
}
