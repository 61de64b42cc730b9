/**
 JSON values (RFC 8259), the text `JSON.stringify` gives them, and a reader of such texts.
 An object keeps its fields in the order they were set. Numbers are finite, and -0 is 0.
 */
module Json {
  import opened Text
  import opened Sequences
  import opened JsonNumbers

  datatype Field = Field(key: Text, value: Json)

  datatype Json =
    | Null
    | Bool(b: bool)
    | Num(n: Number)
    | Str(s: Text)
    | Arr(items: seq<Json>)
    | Obj(fields: seq<Field>)

  ghost predicate DistinctKeys(fields: seq<Field>) {
    forall i, j | 0 <= i < j < |fields| :: fields[i].key != fields[j].key
  }

  /** Objects have each key once; numbers are in shortest decimal form. */
  ghost predicate WellFormed(v: Json) {
    match v
    case Num(n) => ValidNumber(n)
    case Arr(items) => forall x | x in items :: WellFormed(x)
    case Obj(fields) => DistinctKeys(fields) && forall f | f in fields :: WellFormed(f.value)
    case _ => true
  }

  // ----- strings (section 7) -----

  predicate IsHigh(u: Unit) { 0xD800 <= u < 0xDC00 }
  predicate IsLow(u: Unit) { 0xDC00 <= u < 0xE000 }

  /** Surrogates: the top six of sixteen bits are 110110 or 110111. */
  lemma SurrogateBits(u: Unit)
    ensures IsHigh(u) <==> u / 0x400 == 0x36
    ensures IsLow(u) <==> u / 0x400 == 0x37
  {
  }

  const LETTER_U: Unit := 117

  function HexDigit(d: int): (u: Unit)
    requires 0 <= d < 16
  {
    if d < 10 then ZERO + d else 87 + d
  }

  function ReadHexDigit(u: Unit): (d: int)
    ensures -1 <= d < 16
  {
    if IsDigit(u) then u - ZERO else if 97 <= u <= 102 then u - 87 else -1
  }

  function Hex4(u: Unit): (t: Text)
    ensures |t| == 4
  {
    [HexDigit(u / 4096), HexDigit(u / 256 % 16), HexDigit(u / 16 % 16), HexDigit(u % 16)]
  }

  /** The letter after the backslash in a two-character escape, or 0. */
  function ShortEscape(u: Unit): (e: Unit) {
    if u == QUOTE || u == BACKSLASH then u
    else if u == 8 then 98
    else if u == 9 then 116
    else if u == 10 then 110
    else if u == 12 then 102
    else if u == 13 then 114
    else 0
  }

  function ReadShortEscape(e: Unit): (u: int)
    ensures -1 <= u < 0x10000
  {
    if e == QUOTE || e == BACKSLASH then e
    else if e == 98 then 8
    else if e == 116 then 9
    else if e == 110 then 10
    else if e == 102 then 12
    else if e == 114 then 13
    else -1
  }

  function EscapeUnit(u: Unit): (t: Text)
    ensures t != []
  {
    if ShortEscape(u) != 0 then [BACKSLASH, ShortEscape(u)]
    else if u < 32 || IsHigh(u) || IsLow(u) then [BACKSLASH, LETTER_U] + Hex4(u)
    else [u]
  }

  function Escape(s: Text): Text {
    if s == [] then []
    else if |s| > 1 && IsHigh(s[0]) && IsLow(s[1]) then s[..2] + Escape(s[2..])
    else EscapeUnit(s[0]) + Escape(s[1..])
  }

  /** Everything else is printed as it is. */
  lemma {:induction false} EscapePlain(s: Text)
    requires forall i | 0 <= i < |s| :: s[i] >= 32 && s[i] != QUOTE && s[i] != BACKSLASH && !IsHigh(s[i]) && !IsLow(s[i])
    ensures Escape(s) == s
  {
    if s != [] {
      EscapePlain(s[1..]);
      assert s == [s[0]] + s[1..];
    }
  }

  function Quoted(s: Text): (t: Text)
    ensures t != [] && t[0] == QUOTE
  {
    [QUOTE] + Escape(s) + [QUOTE]
  }

  /** Well-formed UTF-16: every surrogate is half of a pair. */
  predicate Paired(t: Text) {
    if t == [] then true
    else if IsHigh(t[0]) then |t| > 1 && IsLow(t[1]) && Paired(t[2..])
    else !IsLow(t[0]) && Paired(t[1..])
  }

  lemma {:induction false} PairedJoin(a: Text, b: Text)
    requires Paired(a) && Paired(b)
    ensures Paired(a + b)
    decreases |a|
  {
    if a == [] {
      assert a + b == b;
    } else if IsHigh(a[0]) {
      PairedJoin(a[2..], b);
      assert (a + b)[2..] == a[2..] + b;
    } else {
      PairedJoin(a[1..], b);
      assert (a + b)[1..] == a[1..] + b;
    }
  }

  lemma {:induction false} NoSurrogates(t: Text)
    requires forall i | 0 <= i < |t| :: !IsHigh(t[i]) && !IsLow(t[i])
    ensures Paired(t)
  {
    if t != [] {
      NoSurrogates(t[1..]);
    }
  }

  /** What is printed is well-formed, whatever the string holds: lone surrogates are escaped. */
  lemma {:induction false} EscapePaired(s: Text)
    ensures Paired(Escape(s))
    decreases |s|
  {
    if s == [] {
    } else if |s| > 1 && IsHigh(s[0]) && IsLow(s[1]) {
      EscapePaired(s[2..]);
      assert s[..2][2..] == [];
      PairedJoin(s[..2], Escape(s[2..]));
    } else {
      EscapePaired(s[1..]);
      NoSurrogates(EscapeUnit(s[0]));
      PairedJoin(EscapeUnit(s[0]), Escape(s[1..]));
    }
  }

  datatype Read<T> = Fail | Done(value: T, rest: Text)

  /** The unit an escape stands for and how long the escape is; -1 when it is none. */
  function ReadEscape(t: Text): (r: (int, nat))
    ensures -1 <= r.0 < 0x10000
    ensures r.0 >= 0 ==> 0 < r.1 <= |t|
  {
    if |t| < 2 then (-1, 0)
    else if t[1] != LETTER_U then (ReadShortEscape(t[1]), 2)
    else if |t| < 6 then (-1, 0)
    else
      var a, b, c, d := ReadHexDigit(t[2]), ReadHexDigit(t[3]), ReadHexDigit(t[4]), ReadHexDigit(t[5]);
      if a < 0 || b < 0 || c < 0 || d < 0 then (-1, 0) else (a * 4096 + b * 256 + c * 16 + d, 6)
  }

  function Prepend(u: Unit, r: Read<Text>): Read<Text> {
    match r case Fail => Fail case Done(s, rest) => Done([u] + s, rest)
  }

  /** Reads a string whose opening quote is already consumed. */
  function ReadString(t: Text): (r: Read<Text>)
    ensures r.Done? ==> |r.rest| < |t|
  {
    if t == [] then Fail
    else if t[0] == QUOTE then Done([], t[1..])
    else
      var (u, n) := if t[0] == BACKSLASH then ReadEscape(t) else (t[0], 1);
      if u < 0 then Fail
      else
        Prepend(u, ReadString(t[n..]))
  }

  lemma Hex4RoundTrip(u: Unit)
    ensures var h := Hex4(u);
            && ReadHexDigit(h[0]) == u / 4096 && ReadHexDigit(h[1]) == u / 256 % 16
            && ReadHexDigit(h[2]) == u / 16 % 16 && ReadHexDigit(h[3]) == u % 16
    ensures u / 4096 * 4096 + u / 256 % 16 * 256 + u / 16 % 16 * 16 + u % 16 == u
  {
    forall d | 0 <= d < 16 ensures ReadHexDigit(HexDigit(d)) == d {}
    var a, b := u / 16, u / 256;
    assert b == a / 16 && u / 4096 == b / 16;
    assert u == a * 16 + u % 16 && a == b * 16 + a % 16 && b == b / 16 * 16 + b % 16;
  }

  lemma ReadEscaped(u: Unit, t: Text)
    requires EscapeUnit(u)[0] == BACKSLASH
    ensures ReadEscape(EscapeUnit(u) + t) == (u, |EscapeUnit(u)|)
  {
    Hex4RoundTrip(u);
    var e := EscapeUnit(u) + t;
    assert forall i | 0 <= i < |EscapeUnit(u)| :: e[i] == EscapeUnit(u)[i];
  }

  lemma ReadStringUnit(u: Unit, t: Text)
    ensures ReadString(EscapeUnit(u) + t) == Prepend(u, ReadString(t))
  {
    var e := EscapeUnit(u);
    assert (e + t)[0] == e[0] && (e + t)[|e|..] == t;
    if e[0] == BACKSLASH {
      ReadEscaped(u, t);
    }
  }

  lemma ReadStringRaw(u: Unit, t: Text)
    requires u != QUOTE && u != BACKSLASH
    ensures ReadString([u] + t) == Prepend(u, ReadString(t))
  {
    assert ([u] + t)[1..] == t;
  }

  lemma ReadStringPair(u: Unit, w: Unit, s: Text, t: Text, rest: Text)
    requires IsHigh(u) && IsLow(w) && ReadString(t) == Done(s, rest)
    ensures ReadString([u, w] + t) == Done([u, w] + s, rest)
  {
    ReadStringRaw(w, t);
    ReadStringRaw(u, [w] + t);
    assert [u, w] + t == [u] + ([w] + t);
    assert [u, w] + s == [u] + ([w] + s);
  }

  /** Every string, lone surrogates included, is recovered from its quoted text. */
  lemma {:induction false} ReadStringEscape(s: Text, rest: Text)
    ensures ReadString(Escape(s) + [QUOTE] + rest) == Done(s, rest)
    decreases |s|
  {
    var end := [QUOTE] + rest;
    Assoc(Escape(s), [QUOTE], rest);
    if s == [] {
      assert Escape(s) + end == end && end[1..] == rest;
    } else if |s| > 1 && IsHigh(s[0]) && IsLow(s[1]) {
      ReadStringEscape(s[2..], rest);
      Assoc(Escape(s[2..]), [QUOTE], rest);
      EscapePair(s);
      Assoc([s[0], s[1]], Escape(s[2..]), end);
      ReadStringPair(s[0], s[1], s[2..], Escape(s[2..]) + end, rest);
    } else {
      ReadStringEscape(s[1..], rest);
      Assoc(Escape(s[1..]), [QUOTE], rest);
      Assoc(EscapeUnit(s[0]), Escape(s[1..]), end);
      ReadStringUnit(s[0], Escape(s[1..]) + end);
      assert s == [s[0]] + s[1..];
    }
  }

  lemma EscapePair(s: Text)
    requires |s| > 1 && IsHigh(s[0]) && IsLow(s[1])
    ensures Escape(s) == [s[0], s[1]] + Escape(s[2..])
    ensures s == [s[0], s[1]] + s[2..]
  {
    assert s[..2] == [s[0], s[1]];
  }

  // ----- values (sections 3 to 5) -----

  const OPEN_ARRAY: Unit := 91
  const CLOSE_ARRAY: Unit := 93
  const OPEN_OBJECT: Unit := 123
  const CLOSE_OBJECT: Unit := 125

  const NULL_TEXT: Text := [110, 117, 108, 108]
  const TRUE_TEXT: Text := [116, 114, 117, 101]
  const FALSE_TEXT: Text := [102, 97, 108, 115, 101]

  ghost predicate NumbersValid(v: Json) {
    match v
    case Num(n) => ValidNumber(n)
    case Arr(items) => forall x | x in items :: NumbersValid(x)
    case Obj(fields) => forall f | f in fields :: NumbersValid(f.value)
    case _ => true
  }

  /** `JSON.stringify` of a value. */
  function Print(v: Json): Text
    requires NumbersValid(v)
    decreases v, 1
  {
    match v
    case Null => NULL_TEXT
    case Bool(b) => if b then TRUE_TEXT else FALSE_TEXT
    case Num(n) => NumberText(n)
    case Str(s) => Quoted(s)
    case Arr(items) => [OPEN_ARRAY] + PrintItems(items) + [CLOSE_ARRAY]
    case Obj(fields) => [OPEN_OBJECT] + PrintFields(fields) + [CLOSE_OBJECT]
  }

  function PrintItems(items: seq<Json>): Text
    requires forall x | x in items :: NumbersValid(x)
    decreases items, 0
  {
    if items == [] then []
    else if |items| == 1 then Print(items[0])
    else Print(items[0]) + [COMMA] + PrintItems(items[1..])
  }

  function PrintField(f: Field): Text
    requires NumbersValid(f.value)
    decreases f, 2
  {
    Quoted(f.key) + [COLON] + Print(f.value)
  }

  function PrintFields(fields: seq<Field>): Text
    requires forall f | f in fields :: NumbersValid(f.value)
    decreases fields, 0
  {
    if fields == [] then []
    else if |fields| == 1 then PrintField(fields[0])
    else PrintField(fields[0]) + [COMMA] + PrintFields(fields[1..])
  }

  /** The longest number-like prefix. */
  function NumberSpan(t: Text): (n: nat)
    ensures n <= |t| && NumberUnits(t[..n])
    ensures n < |t| ==> !NumberUnit(t[n])
  {
    if t == [] || !NumberUnit(t[0]) then 0
    else
      var n := 1 + NumberSpan(t[1..]);
      assert t[..n] == [t[0]] + t[1..][..n - 1];
      n
  }

  function Parse(t: Text): (r: Read<Json>)
    ensures r.Done? ==> |r.rest| < |t|
    decreases |t|, 2
  {
    if t == [] then Fail
    else if t[0] == QUOTE then
      match ReadString(t[1..]) case Fail => Fail case Done(s, rest) => Done(Str(s), rest)
    else if t[0] == OPEN_ARRAY then
      if |t| > 1 && t[1] == CLOSE_ARRAY then Done(Arr([]), t[2..])
      else match ParseItems(t[1..]) case Fail => Fail case Done(items, rest) => Done(Arr(items), rest)
    else if t[0] == OPEN_OBJECT then
      if |t| > 1 && t[1] == CLOSE_OBJECT then Done(Obj([]), t[2..])
      else match ParseFields(t[1..]) case Fail => Fail case Done(fields, rest) => Done(Obj(fields), rest)
    else if IsDigit(t[0]) || t[0] == MINUS then
      var n := NumberSpan(t);
      Done(Num(ReadNumber(t[..n])), t[n..])
    else if NULL_TEXT <= t then Done(Null, t[4..])
    else if TRUE_TEXT <= t then Done(Bool(true), t[4..])
    else if FALSE_TEXT <= t then Done(Bool(false), t[5..])
    else Fail
  }

  function ParseItems(t: Text): (r: Read<seq<Json>>)
    ensures r.Done? ==> |r.rest| < |t|
    decreases |t|, 3
  {
    match Parse(t)
    case Fail => Fail
    case Done(v, rest) =>
      if rest == [] then Fail
      else if rest[0] == CLOSE_ARRAY then Done([v], rest[1..])
      else if rest[0] != COMMA then Fail
      else
        match ParseItems(rest[1..])
        case Fail => Fail
        case Done(items, rest') => Done([v] + items, rest')
  }

  function ParseField(t: Text): (r: Read<Field>)
    ensures r.Done? ==> |r.rest| < |t|
    decreases |t|, 3
  {
    if t == [] || t[0] != QUOTE then Fail
    else
      match ReadString(t[1..])
      case Fail => Fail
      case Done(key, rest) =>
        if rest == [] || rest[0] != COLON then Fail
        else match Parse(rest[1..]) case Fail => Fail case Done(v, rest') => Done(Field(key, v), rest')
  }

  function ParseFields(t: Text): (r: Read<seq<Field>>)
    ensures r.Done? ==> |r.rest| < |t|
    decreases |t|, 4
  {
    match ParseField(t)
    case Fail => Fail
    case Done(f, rest) =>
      if rest == [] then Fail
      else if rest[0] == CLOSE_OBJECT then Done([f], rest[1..])
      else if rest[0] != COMMA then Fail
      else
        match ParseFields(rest[1..])
        case Fail => Fail
        case Done(fields, rest') => Done([f] + fields, rest')
  }

  /** A whole text, read as one value with nothing left over. */
  function ParseAll(t: Text): Read<Json> {
    match Parse(t) case Done(v, rest) => if rest == [] then Done(v, []) else Fail case Fail => Fail
  }

  // ----- the parser inverts the printer -----

  /** A text that may follow a value: it cannot extend a number. */
  predicate Ends(t: Text) { t == [] || !NumberUnit(t[0]) }

  lemma ParseDigits(t: Text, rest: Text)
    requires t != [] && (IsDigit(t[0]) || t[0] == MINUS) && NumberSpan(t + rest) == |t|
    ensures Parse(t + rest) == Done(Num(ReadNumber(t)), rest)
  {
    var all := t + rest;
    assert all[..|t|] == t && all[|t|..] == rest && all[0] == t[0];
  }

  lemma ParseNumber(n: Number, rest: Text)
    requires ValidNumber(n) && Ends(rest)
    ensures Parse(NumberText(n) + rest) == Done(Num(n), rest)
  {
    NumberTextShape(n);
    var t := NumberText(n);
    SpanOfNumber(t, rest);
    ParseDigits(t, rest);
    ReadNumberText(n);
  }

  lemma {:induction false} SpanOfNumber(t: Text, rest: Text)
    requires NumberUnits(t) && Ends(rest)
    ensures NumberSpan(t + rest) == |t|
  {
    if t == [] {
      assert t + rest == rest;
    } else {
      assert (t + rest)[1..] == t[1..] + rest;
      SpanOfNumber(t[1..], rest);
    }
  }

  lemma ParseQuoted(s: Text, rest: Text)
    ensures (Quoted(s) + rest)[0] == QUOTE
    ensures ReadString((Quoted(s) + rest)[1..]) == Done(s, rest)
  {
    assert (Quoted(s) + rest)[1..] == Escape(s) + [QUOTE] + rest;
    ReadStringEscape(s, rest);
  }

  lemma ParseLiteral(v: Json, rest: Text)
    requires v.Null? || v.Bool?
    ensures Parse(Print(v) + rest) == Done(v, rest)
  {
    var t := Print(v);
    assert (t + rest)[|t|..] == rest && (t + rest)[0] == t[0];
    assert t <= t + rest;
  }

  /** No printed value starts like the end of an array. */
  lemma PrintStarts(v: Json)
    requires NumbersValid(v)
    ensures Print(v) != [] && Print(v)[0] != CLOSE_ARRAY
  {
    match v
    case Num(n) => NumberTextShape(n);
    case _ =>
  }

  /** Whatever follows, the reader finds the printed value and stops where it ends. */
  lemma {:induction false} ParsePrint(v: Json, rest: Text)
    requires NumbersValid(v) && Ends(rest)
    ensures Parse(Print(v) + rest) == Done(v, rest)
    decreases v, 1
  {
    match v
    case Num(n) => ParseNumber(n, rest);
    case Str(s) => ParseQuoted(s, rest);
    case Arr(items) => ParsePrintArray(items, rest);
    case Obj(fields) => ParsePrintObject(fields, rest);
    case _ => ParseLiteral(v, rest);
  }

  lemma {:induction false} ParsePrintArray(items: seq<Json>, rest: Text)
    requires forall x | x in items :: NumbersValid(x)
    ensures Parse(Print(Arr(items)) + rest) == Done(Arr(items), rest)
    decreases items, 3
  {
    var t := Print(Arr(items)) + rest;
    assert t[0] == OPEN_ARRAY;
    if items == [] {
      assert PrintItems(items) == [];
      assert t == [OPEN_ARRAY, CLOSE_ARRAY] + rest;
      assert t[2..] == rest;
    } else {
      var body := PrintItems(items) + [CLOSE_ARRAY] + rest;
      assert t[1..] == body;
      PrintStarts(items[0]);
      assert body[0] == Print(items[0])[0];
      ParsePrintItems(items, rest);
    }
  }

  lemma ParseItemsStep(t: Text, v: Json, t': Text, items: seq<Json>, rest: Text)
    requires Parse(t) == Done(v, [COMMA] + t')
    requires ParseItems(t') == Done(items, rest)
    ensures ParseItems(t) == Done([v] + items, rest)
  {
    assert ([COMMA] + t')[1..] == t';
  }

  lemma ParseItemsLast(t: Text, v: Json, rest: Text)
    requires Parse(t) == Done(v, [CLOSE_ARRAY] + rest)
    ensures ParseItems(t) == Done([v], rest)
  {
    assert ([CLOSE_ARRAY] + rest)[1..] == rest;
  }

  lemma {:induction false} ParsePrintItems(items: seq<Json>, rest: Text)
    requires items != [] && forall x | x in items :: NumbersValid(x)
    ensures ParseItems(PrintItems(items) + [CLOSE_ARRAY] + rest) == Done(items, rest)
    decreases items, 2
  {
    var v, end := items[0], [CLOSE_ARRAY] + rest;
    Assoc(PrintItems(items), [CLOSE_ARRAY], rest);
    if |items| == 1 {
      assert items == [v];
      ParsePrint(v, end);
      ParseItemsLast(Print(v) + end, v, rest);
    } else {
      var tail := PrintItems(items[1..]) + end;
      Assoc(PrintItems(items[1..]), [CLOSE_ARRAY], rest);
      ParsePrintItems(items[1..], rest);
      CommaCut(Print(v), PrintItems(items[1..]), end);
      ParsePrint(v, [COMMA] + tail);
      ParseItemsStep(Print(v) + ([COMMA] + tail), v, tail, items[1..], rest);
      assert items == [v] + items[1..];
    }
  }

  lemma {:induction false} ParsePrintField(f: Field, rest: Text)
    requires NumbersValid(f.value) && Ends(rest)
    ensures ParseField(PrintField(f) + rest) == Done(f, rest)
    decreases f, 2
  {
    var tail := [COLON] + (Print(f.value) + rest);
    assert PrintField(f) + rest == Quoted(f.key) + tail;
    ParseQuoted(f.key, tail);
    assert tail[1..] == Print(f.value) + rest;
    ParsePrint(f.value, rest);
  }

  lemma {:induction false} ParsePrintObject(fields: seq<Field>, rest: Text)
    requires forall f | f in fields :: NumbersValid(f.value)
    ensures Parse(Print(Obj(fields)) + rest) == Done(Obj(fields), rest)
    decreases fields, 3
  {
    var t := Print(Obj(fields)) + rest;
    assert t[0] == OPEN_OBJECT;
    if fields == [] {
      assert PrintFields(fields) == [];
      assert t == [OPEN_OBJECT, CLOSE_OBJECT] + rest;
      assert t[2..] == rest;
    } else {
      var body := PrintFields(fields) + [CLOSE_OBJECT] + rest;
      assert t[1..] == body;
      assert body[0] == PrintField(fields[0])[0] == Quoted(fields[0].key)[0];
      ParsePrintFields(fields, rest);
    }
  }

  lemma ParseFieldsStep(t: Text, f: Field, t': Text, fields: seq<Field>, rest: Text)
    requires ParseField(t) == Done(f, [COMMA] + t')
    requires ParseFields(t') == Done(fields, rest)
    ensures ParseFields(t) == Done([f] + fields, rest)
  {
    assert ([COMMA] + t')[1..] == t';
  }

  lemma ParseFieldsLast(t: Text, f: Field, rest: Text)
    requires ParseField(t) == Done(f, [CLOSE_OBJECT] + rest)
    ensures ParseFields(t) == Done([f], rest)
  {
    assert ([CLOSE_OBJECT] + rest)[1..] == rest;
  }

  lemma CommaCut(a: Text, b: Text, c: Text)
    ensures a + [COMMA] + b + c == a + ([COMMA] + (b + c))
  {
    Assoc(a + [COMMA], b, c);
    Assoc(a, [COMMA], b + c);
  }

  lemma {:induction false} ParsePrintFields(fields: seq<Field>, rest: Text)
    requires fields != [] && forall f | f in fields :: NumbersValid(f.value)
    ensures ParseFields(PrintFields(fields) + [CLOSE_OBJECT] + rest) == Done(fields, rest)
    decreases fields, 2
  {
    var f, end := fields[0], [CLOSE_OBJECT] + rest;
    Assoc(PrintFields(fields), [CLOSE_OBJECT], rest);
    if |fields| == 1 {
      assert fields == [f];
      ParsePrintField(f, end);
      ParseFieldsLast(PrintField(f) + end, f, rest);
    } else {
      var tail := PrintFields(fields[1..]) + end;
      Assoc(PrintFields(fields[1..]), [CLOSE_OBJECT], rest);
      ParsePrintFields(fields[1..], rest);
      CommaCut(PrintField(f), PrintFields(fields[1..]), end);
      ParsePrintField(f, [COMMA] + tail);
      ParseFieldsStep(PrintField(f) + ([COMMA] + tail), f, tail, fields[1..], rest);
      assert fields == [f] + fields[1..];
    }
  }

  /** `JSON.parse(JSON.stringify(v))` is `v`, field order included. */
  lemma RoundTrip(v: Json)
    requires NumbersValid(v)
    ensures ParseAll(Print(v)) == Done(v, [])
  {
    ParsePrint(v, []);
    assert Print(v) + [] == Print(v);
  }
}
