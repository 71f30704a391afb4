/** `crates/dta-ffi/src/json.rs`: the JSON the bindings hand over, and the parser that reads it back. */
module Json {
  import opened Wrappers
  import opened Bits
  import opened Utf

  /** A parsed value. A number is its token: what `f64` makes of it is not modelled. */
  datatype Value =
    | Null
    | Bool(b: bool)
    | Number(token: seq<byte>)
    | String(text: seq<scalar>)
    | Array(items: seq<Value>)
    | Object(fields: seq<(seq<scalar>, Value)>)

  datatype Problem =
    | TooDeep | ExpectedComma | ExpectedColon | BadNumber | ExpectedValue | ExpectedString
    | Unterminated | BadEscape | ShortUnicode | BadUnicode | NotUtf8 | Trailing

  /** A value and the place after it, or where reading failed. */
  datatype Parsed<T> = Ok(value: T, end: nat) | Fail(problem: Problem, at: nat)

  const QUOTE: byte := 0x22
  const BACKSLASH: byte := 0x5C
  const COMMA: byte := 0x2C
  const COLON: byte := 0x3A
  const OPEN: byte := 0x5B
  const CLOSE: byte := 0x5D
  const OPEN_BRACE: byte := 0x7B
  const CLOSE_BRACE: byte := 0x7D
  const LOWER_U: byte := 0x75

  const MOST_DEPTH: nat := 64

  // ---------------------------------------------------------------- what the parser reads

  predicate Space(b: byte)
  {
    b == 0x20 || b == 0x09 || b == 0x0A || b == 0x0C || b == 0x0D
  }

  /** The place after any spaces. */
  function Skip(s: seq<byte>, at: nat): (end: nat)
    requires at <= |s|
    ensures at <= end <= |s|
    decreases |s| - at
  {
    if at < |s| && Space(s[at]) then Skip(s, at + 1) else at
  }

  /** Byte `b` comes next, after any spaces. */
  predicate Eats(s: seq<byte>, at: nat, b: byte)
    requires at <= |s|
  {
    Skip(s, at) < |s| && s[Skip(s, at)] == b
  }

  predicate Starts(s: seq<byte>, at: nat, word: seq<byte>)
  {
    at + |word| <= |s| && s[at..at + |word|] == word
  }

  function NullWord(): seq<byte> {
    [0x6E, 0x75, 0x6C, 0x6C]
  }

  function TrueWord(): seq<byte> {
    [0x74, 0x72, 0x75, 0x65]
  }

  function FalseWord(): seq<byte> {
    [0x66, 0x61, 0x6C, 0x73, 0x65]
  }

  function HexDigit(b: byte): Option<nat>
  {
    if 0x30 <= b < 0x3A then Some(b as int - 0x30)
    else if 0x61 <= b < 0x67 then Some(b as int - 0x61 + 10)
    else if 0x41 <= b < 0x47 then Some(b as int - 0x41 + 10)
    else None
  }

  /** The number hexadecimal digits make. */
  function HexNumber(digits: seq<byte>): Option<nat>
  {
    if digits == [] then Some(0) else
    var front := HexNumber(digits[..|digits| - 1]);
    var last := HexDigit(digits[|digits| - 1]);
    if front == None || last == None then None else Some(front.value * 16 + last.value)
  }

  /** Four hexadecimal digits (the first may be a plus sign, which the standard library skips). */
  function HexAt(s: seq<byte>, at: nat): (r: Parsed<nat>)
    ensures r.Ok? ==> r.end == at + 4 <= |s|
  {
    if at + 4 > |s| then Fail(ShortUnicode, at) else
    var digits := s[at..at + 4];
    if Decode(digits) == None then Fail(BadUnicode, at) else
    var n := HexNumber(if digits[0] == 0x2B then digits[1..] else digits);
    if n == None then Fail(BadUnicode, at + 4) else Ok(n.value, at + 4)
  }

  /** The escapes of one letter. */
  function Letter(e: byte): Option<scalar>
  {
    if e == QUOTE || e == BACKSLASH || e == 0x2F then Some(e)
    else if e == 0x62 then Some(8)
    else if e == 0x66 then Some(0x0C)
    else if e == 0x6E then Some(0x0A)
    else if e == 0x72 then Some(0x0D)
    else if e == 0x74 then Some(9)
    else None
  }

  /** The character of a `\u` escape, from its digits on. */
  function UnicodeAt(s: seq<byte>, at: nat): (r: Parsed<scalar>)
    ensures r.Ok? ==> at < r.end <= |s|
  {
    var high := HexAt(s, at);
    if high.Fail? then Fail(high.problem, high.at)
    else if 0xD800 <= high.value < 0xDC00 && Starts(s, high.end, [BACKSLASH, LOWER_U]) then
      var low := HexAt(s, high.end + 2);
      if low.Fail? then Fail(low.problem, low.at)
      else Scalar(0x10000 + (high.value - 0xD800) * 1024 + (low.value - 0xDC00) % 1024, low.end)
    else Scalar(high.value, high.end)
  }

  function Scalar(c: int, end: nat): (r: Parsed<scalar>)
    ensures r.Ok? ==> r.end == end && r.value == c
  {
    if 0 <= c < 0xD800 || 0xE000 <= c < 0x110000 then Ok(c, end) else Fail(BadUnicode, end)
  }

  /** The character an escape stands for, after the backslash. */
  function EscapeAt(s: seq<byte>, at: nat): (r: Parsed<scalar>)
    requires at <= |s|
    ensures r.Ok? ==> at < r.end <= |s|
  {
    if at == |s| then Fail(Unterminated, at)
    else if s[at] == LOWER_U then UnicodeAt(s, at + 1)
    else if Letter(s[at]) == None then Fail(BadEscape, at + 1)
    else Ok(Letter(s[at]).value, at + 1)
  }

  /** The bytes a string stands for, to its closing quote. */
  function BytesAt(s: seq<byte>, at: nat): (r: Parsed<seq<byte>>)
    requires at <= |s|
    ensures r.Ok? ==> at < r.end <= |s|
    decreases |s| - at
  {
    if at == |s| then Fail(Unterminated, at)
    else if s[at] == QUOTE then Ok([], at + 1)
    else if s[at] == BACKSLASH then
      var c := EscapeAt(s, at + 1);
      if c.Fail? then Fail(c.problem, c.at) else After(Utf8Of(c.value), BytesAt(s, c.end))
    else After([s[at]], BytesAt(s, at + 1))
  }

  /** What was read, and then the rest. */
  function After<T>(front: seq<T>, rest: Parsed<seq<T>>): (r: Parsed<seq<T>>)
    ensures r.Ok? <==> rest.Ok?
    ensures r.Ok? ==> r.value == front + rest.value && r.end == rest.end
  {
    if rest.Fail? then rest else Ok(front + rest.value, rest.end)
  }

  function StringAt(s: seq<byte>, at: nat): (r: Parsed<seq<scalar>>)
    requires at <= |s|
    ensures r.Ok? ==> at < r.end <= |s|
  {
    if at == |s| || s[at] != QUOTE then Fail(ExpectedString, at) else
    TextOf(BytesAt(s, at + 1))
  }

  function TextOf(bytes: Parsed<seq<byte>>): (r: Parsed<seq<scalar>>)
    ensures r.Ok? ==> bytes.Ok? && r.end == bytes.end
  {
    if bytes.Fail? then Fail(bytes.problem, bytes.at)
    else if Decode(bytes.value) == None then Fail(NotUtf8, bytes.end)
    else Ok(Decode(bytes.value).value, bytes.end)
  }

  predicate Numeric(b: byte)
  {
    b == 0x2B || b == 0x2D || b == 0x2E || b == 0x65 || b == 0x45 || 0x30 <= b < 0x3A
  }

  /** The place after any bytes numbers are made of. */
  function NumericEnd(s: seq<byte>, at: nat): (end: nat)
    requires at <= |s|
    ensures at <= end <= |s|
    decreases |s| - at
  {
    if at < |s| && Numeric(s[at]) then NumericEnd(s, at + 1) else at
  }

  /** A value at `at`; `accepts` says which number tokens are numbers. */
  function ValueAt(s: seq<byte>, at: nat, depth: nat, accepts: seq<byte> -> bool): (r: Parsed<Value>)
    requires at <= |s|
    ensures r.Ok? ==> at < r.end <= |s|
    decreases |s| - at, 1
  {
    if depth > MOST_DEPTH then Fail(TooDeep, at) else
    var p := Skip(s, at);
    if Starts(s, p, NullWord()) then Ok(Null, p + 4)
    else if Starts(s, p, TrueWord()) then Ok(Bool(true), p + 4)
    else if Starts(s, p, FalseWord()) then Ok(Bool(false), p + 5)
    else if p == |s| then Fail(ExpectedValue, p)
    else if s[p] == QUOTE then
      var t := StringAt(s, p);
      if t.Fail? then Fail(t.problem, t.at) else Ok(String(t.value), t.end)
    else if s[p] == OPEN then
      if Eats(s, p + 1, CLOSE) then Ok(Array([]), Skip(s, p + 1) + 1) else
      var items := ItemsAt(s, Skip(s, p + 1), depth, accepts);
      if items.Fail? then Fail(items.problem, items.at) else Ok(Array(items.value), items.end)
    else if s[p] == OPEN_BRACE then
      if Eats(s, p + 1, CLOSE_BRACE) then Ok(Object([]), Skip(s, p + 1) + 1) else
      var fields := FieldsAt(s, Skip(s, p + 1), depth, accepts);
      if fields.Fail? then Fail(fields.problem, fields.at) else Ok(Object(fields.value), fields.end)
    else if s[p] == 0x2D || 0x30 <= s[p] < 0x3A then
      var end := NumericEnd(s, p + 1);
      if accepts(s[p..end]) then Ok(Number(s[p..end]), end) else Fail(BadNumber, end)
    else Fail(ExpectedValue, p)
  }

  /** One or more items, to the closing bracket. */
  function ItemsAt(s: seq<byte>, at: nat, depth: nat, accepts: seq<byte> -> bool): (r: Parsed<seq<Value>>)
    requires at <= |s|
    ensures r.Ok? ==> at < r.end <= |s|
    decreases |s| - at, 2
  {
    var v := ValueAt(s, at, depth + 1, accepts);
    if v.Fail? then Fail(v.problem, v.at) else
    var p := Skip(s, v.end);
    if Eats(s, v.end, CLOSE) then Ok([v.value], p + 1)
    else if Eats(s, v.end, COMMA) then After([v.value], ItemsAt(s, p + 1, depth, accepts))
    else Fail(ExpectedComma, p)
  }

  /** One field: a name, a colon and a value. */
  function FieldAt(s: seq<byte>, at: nat, depth: nat, accepts: seq<byte> -> bool): (r: Parsed<(seq<scalar>, Value)>)
    requires at <= |s|
    ensures r.Ok? ==> at < r.end <= |s|
    decreases |s| - at, 2
  {
    var key := StringAt(s, Skip(s, at));
    if key.Fail? then Fail(key.problem, key.at)
    else if !Eats(s, key.end, COLON) then Fail(ExpectedColon, Skip(s, key.end))
    else
      var v := ValueAt(s, Skip(s, key.end) + 1, depth + 1, accepts);
      if v.Fail? then Fail(v.problem, v.at) else Ok((key.value, v.value), v.end)
  }

  /** One or more fields, to the closing brace. */
  function FieldsAt(s: seq<byte>, at: nat, depth: nat, accepts: seq<byte> -> bool): (r: Parsed<seq<(seq<scalar>, Value)>>)
    requires at <= |s|
    ensures r.Ok? ==> at < r.end <= |s|
    decreases |s| - at, 3
  {
    var f := FieldAt(s, at, depth, accepts);
    if f.Fail? then Fail(f.problem, f.at) else
    var p := Skip(s, f.end);
    if Eats(s, f.end, CLOSE_BRACE) then Ok([f.value], p + 1)
    else if Eats(s, f.end, COMMA) then After([f.value], FieldsAt(s, p + 1, depth, accepts))
    else Fail(ExpectedComma, p)
  }

  /** A whole text. */
  function Parse(s: seq<byte>, accepts: seq<byte> -> bool): Parsed<Value>
  {
    var v := ValueAt(s, 0, 0, accepts);
    if v.Fail? then v
    else if Skip(s, v.end) != |s| then Fail(Trailing, Skip(s, v.end))
    else Ok(v.value, |s|)
  }

  // ---------------------------------------------------------------- what the writers write

  /** A hexadecimal digit, in lower case. */
  function Hex(n: int): byte
    requires 0 <= n < 16
  {
    if n < 10 then 0x30 + n else 0x61 + n - 10
  }

  function EscapedOf(c: scalar): (b: seq<byte>)
    ensures b != []
  {
    if c == QUOTE || c == BACKSLASH then [BACKSLASH, c]
    else if c == 0x0A then [BACKSLASH, 0x6E]
    else if c == 0x0D then [BACKSLASH, 0x72]
    else if c == 9 then [BACKSLASH, 0x74]
    else if c < 0x20 then [BACKSLASH, LOWER_U, 0x30, 0x30, Hex(c / 16), Hex(c % 16)]
    else Utf8Of(c)
  }

  function Escaped(t: seq<scalar>): seq<byte>
  {
    if t == [] then [] else EscapedOf(t[0]) + Escaped(t[1..])
  }

  function Quoted(t: seq<scalar>): (b: seq<byte>)
    ensures |b| >= 2 && b[0] == QUOTE
  {
    [QUOTE] + Escaped(t) + [QUOTE]
  }

  /** A value as the writers write it: no spaces, and text in double quotes. */
  function Written(v: Value): (b: seq<byte>)
    decreases v
  {
    match v
    case Null => NullWord()
    case Bool(b) => if b then TrueWord() else FalseWord()
    case Number(token) => token
    case String(text) => Quoted(text)
    case Array(items) => [OPEN] + WrittenItems(items) + [CLOSE]
    case Object(fields) => [OPEN_BRACE] + WrittenFields(fields) + [CLOSE_BRACE]
  }

  function WrittenItems(items: seq<Value>): seq<byte>
    decreases items
  {
    if items == [] then []
    else if |items| == 1 then Written(items[0])
    else Written(items[0]) + [COMMA] + WrittenItems(items[1..])
  }

  function WrittenFields(fields: seq<(seq<scalar>, Value)>): seq<byte>
    decreases fields
  {
    if fields == [] then []
    else if |fields| == 1 then WrittenField(fields[0])
    else WrittenField(fields[0]) + [COMMA] + WrittenFields(fields[1..])
  }

  function WrittenField(f: (seq<scalar>, Value)): seq<byte>
    decreases f
  {
    Quoted(f.0) + [COLON] + Written(f.1)
  }

  /** How deep arrays and objects nest. */
  function Height(v: Value): nat
    decreases v
  {
    match v
    case Array(items) => if items == [] then 0 else 1 + ItemsHeight(items)
    case Object(fields) => if fields == [] then 0 else 1 + FieldsHeight(fields)
    case _ => 0
  }

  function ItemsHeight(items: seq<Value>): (h: nat)
    ensures items != [] ==> h >= Height(items[0]) && h >= ItemsHeight(items[1..])
    decreases items
  {
    if items == [] then 0 else
    var a, b := Height(items[0]), ItemsHeight(items[1..]);
    if a > b then a else b
  }

  function FieldsHeight(fields: seq<(seq<scalar>, Value)>): (h: nat)
    ensures fields != [] ==> h >= FieldHeight(fields[0]) && h >= FieldsHeight(fields[1..])
    decreases fields
  {
    if fields == [] then 0 else
    var a, b := FieldHeight(fields[0]), FieldsHeight(fields[1..]);
    if a > b then a else b
  }

  function FieldHeight(f: (seq<scalar>, Value)): nat
    decreases f
  {
    Height(f.1)
  }

  /** Every number in the value is a token that is accepted as a number. */
  ghost predicate Numbers(v: Value, accepts: seq<byte> -> bool)
    decreases v
  {
    match v
    case Number(token) =>
      && token != [] && (token[0] == 0x2D || 0x30 <= token[0] < 0x3A) && accepts(token)
      && forall i :: 0 <= i < |token| ==> Numeric(token[i])
    case Array(items) => ItemNumbers(items, accepts)
    case Object(fields) => FieldNumbers(fields, accepts)
    case _ => true
  }

  ghost predicate ItemNumbers(items: seq<Value>, accepts: seq<byte> -> bool)
    decreases items
  {
    items == [] || (Numbers(items[0], accepts) && ItemNumbers(items[1..], accepts))
  }

  ghost predicate FieldNumbers(fields: seq<(seq<scalar>, Value)>, accepts: seq<byte> -> bool)
    decreases fields
  {
    fields == [] || (FieldNumber(fields[0], accepts) && FieldNumbers(fields[1..], accepts))
  }

  ghost predicate FieldNumber(f: (seq<scalar>, Value), accepts: seq<byte> -> bool)
    decreases f
  {
    Numbers(f.1, accepts)
  }

  // ---------------------------------------------------------------- texts of a value

  /**
   How a character stands in a string: as it is, by an escape of one letter, by
   its UTF-16 units in digits of either case, or by what the parser takes for
   such units too.
   */
  datatype Spelling = AsIs(c: scalar) | Short(c: scalar) | Units(c: scalar, upper: seq<bool>) | Lax(c: scalar, first: Quad, second: Option<Quad>)

  /** Four bytes that are read as the number `n`. */
  datatype Quad = Quad(digits: seq<byte>, n: nat)

  /** A text of a value, with its spaces and spellings (RFC 8259). */
  datatype Syntax =
    | Literal(v: Value)
    | Digits(token: seq<byte>)
    | Chars(chars: seq<Spelling>)
    | List(blank: seq<byte>, items: seq<Item>)
    | Record(blank: seq<byte>, members: seq<Member>)

  datatype Item = Item(before: seq<byte>, x: Syntax, after: seq<byte>)

  datatype Member = Member(before: seq<byte>, name: seq<Spelling>, between: seq<byte>, item: Item)

  /** The letter after the backslash (section 7 of RFC 8259). */
  function ShortOf(c: scalar): (letter: Option<char>)
    ensures letter != None ==> letter.value < 128 as char
  {
    if c == '\"' as int then Some('\"')
    else if c == '\\' as int then Some('\\')
    else if c == '/' as int then Some('/')
    else if c == 8 then Some('b')
    else if c == 12 then Some('f')
    else if c == 10 then Some('n')
    else if c == 13 then Some('r')
    else if c == 9 then Some('t')
    else None
  }

  function HexChar(n: nat, upper: bool): (b: byte)
    requires n < 16
  {
    (if upper then "0123456789ABCDEF"[n] else "0123456789abcdef"[n]) as int
  }

  function UnitBytes(u: unit, upper: seq<bool>): (b: seq<byte>)
    requires |upper| == 4
    ensures |b| == 6
  {
    ['\\' as int, 'u' as int] + HexDigits(u, upper)
  }

  function HexDigits(u: unit, upper: seq<bool>): (b: seq<byte>)
    requires |upper| == 4
    ensures |b| == 4
  {
    [HexChar(u / 4096, upper[0]), HexChar(u / 256 % 16, upper[1]), HexChar(u / 16 % 16, upper[2]), HexChar(u % 16, upper[3])]
  }

  /** A digit of either case. */
  ghost predicate IsHex(b: byte, n: nat)
  {
    n < 16 && (b == HexChar(n, false) || b == HexChar(n, true))
  }

  /** Digits, or a plus sign and digits, which the standard library takes for the same number. */
  ghost predicate QuadOk(q: Quad)
  {
    && |q.digits| == 4 && IsHex(q.digits[1], q.n / 256 % 16) && IsHex(q.digits[2], q.n / 16 % 16) && IsHex(q.digits[3], q.n % 16)
    && (IsHex(q.digits[0], q.n / 4096) || (q.digits[0] == '+' as int && q.n < 4096))
  }

  /** A high surrogate goes with any second number, of which ten bits count. */
  ghost predicate LaxOk(c: scalar, first: Quad, second: Option<Quad>)
  {
    && QuadOk(first)
    && match second
       case None => c == first.n
       case Some(low) => QuadOk(low) && 0xD800 <= first.n < 0xDC00 && c == 0x10000 + (first.n - 0xD800) * 1024 + low.n % 1024
  }

  ghost predicate SpellingOk(p: Spelling)
  {
    match p
    case AsIs(c) => c != '\"' as int && c != '\\' as int
    case Short(c) => ShortOf(c) != None
    case Units(c, upper) => |upper| == 4 * |Utf16Of(c)|
    case Lax(c, first, second) => LaxOk(c, first, second)
  }

  ghost function SpellingBytes(p: Spelling): seq<byte>
  {
    if !SpellingOk(p) then [] else
    match p
    case AsIs(c) => Utf8Of(c)
    case Short(c) => ['\\' as int, ShortOf(c).value as int]
    case Units(c, upper) =>
      UnitBytes(Utf16Of(c)[0], upper[..4]) + if |upper| == 4 then [] else UnitBytes(Utf16Of(c)[1], upper[4..])
    case Lax(_, first, second) => LaxBytes(first) + if second == None then [] else LaxBytes(second.value)
  }

  function LaxBytes(q: Quad): seq<byte>
  {
    ['\\' as int, 'u' as int] + q.digits
  }

  ghost function SpellingsBytes(ps: seq<Spelling>): seq<byte>
  {
    if ps == [] then [] else SpellingBytes(ps[0]) + SpellingsBytes(ps[1..])
  }

  ghost function InQuotes(ps: seq<Spelling>): (b: seq<byte>)
    ensures |b| >= 2 && b[0] == QUOTE
  {
    ['\"' as int] + SpellingsBytes(ps) + ['\"' as int]
  }

  /** The text that spellings spell. */
  function SpelledText(ps: seq<Spelling>): (t: seq<scalar>)
    ensures |t| == |ps|
  {
    if ps == [] then [] else [ps[0].c] + SpelledText(ps[1..])
  }

  ghost predicate SpellingsOk(ps: seq<Spelling>)
  {
    forall i :: 0 <= i < |ps| ==> SpellingOk(ps[i])
  }

  /** Spaces (section 2 of RFC 8259), or form feeds, which the parser takes for spaces too. */
  ghost predicate Blank(b: seq<byte>)
  {
    forall i :: 0 <= i < |b| ==> b[i] as char in " \t\n\r" || b[i] == 12
  }

  ghost predicate TokenOk(token: seq<byte>, accepts: seq<byte> -> bool)
  {
    && token != [] && token[0] as char in "-0123456789" && accepts(token)
    && forall i :: 0 <= i < |token| ==> token[i] as char in "+-.eE0123456789"
  }

  ghost predicate SyntaxOk(x: Syntax, accepts: seq<byte> -> bool)
    decreases x
  {
    match x
    case Literal(v) => v.Null? || v.Bool?
    case Digits(token) => TokenOk(token, accepts)
    case Chars(chars) => SpellingsOk(chars)
    case List(blank, items) => Blank(blank) && ItemsOk(items, accepts)
    case Record(blank, members) => Blank(blank) && MembersOk(members, accepts)
  }

  ghost predicate ItemOk(i: Item, accepts: seq<byte> -> bool)
    decreases i
  {
    Blank(i.before) && SyntaxOk(i.x, accepts) && Blank(i.after)
  }

  ghost predicate ItemsOk(items: seq<Item>, accepts: seq<byte> -> bool)
    decreases items
  {
    items == [] || (ItemOk(items[0], accepts) && ItemsOk(items[1..], accepts))
  }

  ghost predicate MemberOk(m: Member, accepts: seq<byte> -> bool)
    decreases m
  {
    Blank(m.before) && SpellingsOk(m.name) && Blank(m.between) && ItemOk(m.item, accepts)
  }

  ghost predicate MembersOk(members: seq<Member>, accepts: seq<byte> -> bool)
    decreases members
  {
    members == [] || (MemberOk(members[0], accepts) && MembersOk(members[1..], accepts))
  }

  function WordOf(v: Value): (b: seq<byte>)
  {
    if v.Null? then ['n' as int, 'u' as int, 'l' as int, 'l' as int]
    else if v.Bool? && v.b then ['t' as int, 'r' as int, 'u' as int, 'e' as int]
    else ['f' as int, 'a' as int, 'l' as int, 's' as int, 'e' as int]
  }

  /** The bytes of a text. */
  ghost function Spelled(x: Syntax): (b: seq<byte>)
    decreases x
  {
    match x
    case Literal(v) => WordOf(v)
    case Digits(token) => token
    case Chars(chars) => InQuotes(chars)
    case List(blank, items) => ['[' as int] + (if items == [] then blank else SpelledItems(items)) + [']' as int]
    case Record(blank, members) => ['{' as int] + (if members == [] then blank else SpelledMembers(members)) + ['}' as int]
  }

  ghost function SpelledItem(i: Item): seq<byte>
    decreases i
  {
    i.before + Spelled(i.x) + i.after
  }

  ghost function SpelledItems(items: seq<Item>): seq<byte>
    decreases items
  {
    if items == [] then []
    else if |items| == 1 then SpelledItem(items[0])
    else SpelledItem(items[0]) + [',' as int] + SpelledItems(items[1..])
  }

  ghost function SpelledMember(m: Member): seq<byte>
    decreases m
  {
    m.before + InQuotes(m.name) + (m.between + [':' as int] + SpelledItem(m.item))
  }

  ghost function SpelledMembers(members: seq<Member>): seq<byte>
    decreases members
  {
    if members == [] then []
    else if |members| == 1 then SpelledMember(members[0])
    else SpelledMember(members[0]) + [',' as int] + SpelledMembers(members[1..])
  }

  /** The value of a text. */
  function Meaning(x: Syntax): Value
    decreases x
  {
    match x
    case Literal(v) => v
    case Digits(token) => Number(token)
    case Chars(chars) => String(SpelledText(chars))
    case List(_, items) => Array(Meanings(items))
    case Record(_, members) => Object(MemberFields(members))
  }

  function ItemMeaning(i: Item): Value
    decreases i
  {
    Meaning(i.x)
  }

  function Meanings(items: seq<Item>): (vs: seq<Value>)
    ensures |vs| == |items|
    decreases items
  {
    if items == [] then [] else [ItemMeaning(items[0])] + Meanings(items[1..])
  }

  function MemberField(m: Member): (seq<scalar>, Value)
    decreases m
  {
    (SpelledText(m.name), ItemMeaning(m.item))
  }

  function MemberFields(members: seq<Member>): (fs: seq<(seq<scalar>, Value)>)
    ensures |fs| == |members|
    decreases members
  {
    if members == [] then [] else [MemberField(members[0])] + MemberFields(members[1..])
  }

  // ---------------------------------------------------------------- strings read

  /** `s` goes on, from `at`, with `b` and then `rest`. */
  predicate Next(s: seq<byte>, at: nat, b: seq<byte>, rest: seq<byte>)
  {
    at <= |s| && s[at..] == b + rest
  }

  lemma NextAt(s: seq<byte>, at: nat, b: seq<byte>, rest: seq<byte>)
    requires Next(s, at, b, rest)
    ensures at + |b| <= |s| && s[at..at + |b|] == b && s[at + |b|..] == rest
    ensures forall i :: 0 <= i < |b| ==> s[at + i] == b[i]
  {
    assert s[at..][..|b|] == s[at..at + |b|];
    assert s[at..][|b|..] == s[at + |b|..];
    assert forall i :: 0 <= i < |b| ==> s[at..][i] == b[i];
  }

  /** The part after the first of two. */
  lemma NextMore(s: seq<byte>, at: nat, a: seq<byte>, b: seq<byte>, rest: seq<byte>)
    requires Next(s, at, a + b, rest)
    ensures Next(s, at, a, b + rest) && Next(s, at + |a|, b, rest)
  {
    assert (a + b) + rest == a + (b + rest);
    NextAt(s, at, a, b + rest);
  }

  /** Bytes that are neither a quote nor a backslash are read as they are. */
  lemma {:induction false} PlainRead(s: seq<byte>, at: nat, b: seq<byte>, rest: seq<byte>)
    requires Next(s, at, b, rest) && forall i :: 0 <= i < |b| ==> b[i] != QUOTE && b[i] != BACKSLASH
    ensures at + |b| <= |s| && BytesAt(s, at) == After(b, BytesAt(s, at + |b|))
    decreases |b|
  {
    NextAt(s, at, b, rest);
    if b != [] {
      assert b == [b[0]] + b[1..];
      NextMore(s, at, [b[0]], b[1..], rest);
      PlainRead(s, at + 1, b[1..], rest);
      AfterMore([b[0]], b[1..], BytesAt(s, at + |b|));
    } else {
      AfterNone(BytesAt(s, at));
    }
  }

  lemma AfterNone<T>(r: Parsed<seq<T>>)
    ensures After([], r) == r
  {
    if r.Ok? {
      assert [] + r.value == r.value;
    }
  }

  lemma AfterMore<T>(a: seq<T>, b: seq<T>, r: Parsed<seq<T>>)
    ensures After(a, After(b, r)) == After(a + b, r)
  {
    if r.Ok? {
      assert a + (b + r.value) == (a + b) + r.value;
    }
  }

  lemma Utf8Plain(c: scalar)
    requires c != QUOTE && c != BACKSLASH
    ensures forall i :: 0 <= i < |Utf8Of(c)| ==> Utf8Of(c)[i] != QUOTE && Utf8Of(c)[i] != BACKSLASH
  {}

  lemma DigitRead(n: nat, upper: bool)
    requires n < 16
    ensures HexDigit(HexChar(n, upper)) == Some(n) && HexChar(n, upper) < 128 && HexChar(n, upper) != 0x2B
  {}

  /** Four digits, each of either case, are a quad. */
  lemma HexRead(s: seq<byte>, at: nat, u: unit, upper: seq<bool>)
    requires |upper| == 4 && at + 4 <= |s| && s[at..at + 4] == HexDigits(u, upper)
    ensures HexAt(s, at) == Ok(u, at + 4)
  {
    hide HexAt, HexChar;
    QuadRead(s, at, Quad(HexDigits(u, upper), u));
  }

  lemma HexIs(b: byte, n: nat)
    requires IsHex(b, n)
    ensures HexDigit(b) == Some(n) && b < 128 && b != 0x2B
  {
    DigitRead(n, false);
    DigitRead(n, true);
  }

  lemma QuadRead(s: seq<byte>, at: nat, q: Quad)
    requires QuadOk(q) && at + 4 <= |s| && s[at..at + 4] == q.digits
    ensures HexAt(s, at) == Ok(q.n, at + 4)
  {
    hide Decode, IsHex, HexDigit, HexNumber;
    var d, u := q.digits, q.n;
    HexIs(d[1], u / 256 % 16);
    HexIs(d[2], u / 16 % 16);
    HexIs(d[3], u % 16);
    DigitsSum(u);
    if IsHex(d[0], u / 4096) {
      HexIs(d[0], u / 4096);
      NumberOf(d, u / 4096, u / 256 % 16, u / 16 % 16, u % 16);
    } else {
      PlusNumber(d[1..], u / 256 % 16, u / 16 % 16, u % 16);
    }
    AsciiText(d);
  }

  lemma PlusNumber(d: seq<byte>, b: nat, c: nat, e: nat)
    requires |d| == 3 && HexDigit(d[0]) == Some(b) && HexDigit(d[1]) == Some(c) && HexDigit(d[2]) == Some(e)
    ensures HexNumber(d) == Some((b * 16 + c) * 16 + e)
  {
    hide HexDigit;
    assert d[..2][..1] == d[..1] && d[..1][..0] == [];
    assert HexNumber(d[..0]) == Some(0);
    assert HexNumber(d[..1]) == Some(b);
    assert HexNumber(d[..2]) == Some(b * 16 + c);
  }

  lemma DigitsSum(u: nat)
    ensures u == ((u / 4096 * 16 + u / 256 % 16) * 16 + u / 16 % 16) * 16 + u % 16
  {
    var a, b := u / 16, u / 256;
    assert u == a * 16 + u % 16 && a == b * 16 + a % 16 && b == (u / 4096) * 16 + b % 16;
  }

  lemma NumberOf(d: seq<byte>, a: nat, b: nat, c: nat, e: nat)
    requires |d| == 4 && HexDigit(d[0]) == Some(a) && HexDigit(d[1]) == Some(b) && HexDigit(d[2]) == Some(c) && HexDigit(d[3]) == Some(e)
    ensures HexNumber(d) == Some(((a * 16 + b) * 16 + c) * 16 + e)
  {
    hide HexDigit;
    assert d[..3][..2] == d[..2] && d[..2][..1] == d[..1] && d[..1][..0] == [];
    assert HexNumber(d[..0]) == Some(0);
    assert HexNumber(d[..1]) == Some(a);
    assert HexNumber(d[..2]) == Some(a * 16 + b);
    assert HexNumber(d[..3]) == Some((a * 16 + b) * 16 + c);
  }

  /** The bytes of an escape by units, but for its first backslash and letter, read as the character. */
  lemma UnitsRead(s: seq<byte>, at: nat, c: scalar, upper: seq<bool>, rest: seq<byte>)
    requires |upper| == 4 * |Utf16Of(c)| && Next(s, at, SpellingBytes(Units(c, upper)), rest)
    ensures UnicodeAt(s, at + 2) == Ok(c, at + |SpellingBytes(Units(c, upper))|)
  {
    hide HexAt, HexDigits;
    var b := SpellingBytes(Units(c, upper));
    NextAt(s, at, b, rest);
    var first := UnitBytes(Utf16Of(c)[0], upper[..4]);
    assert s[at + 2..at + 6] == s[at..at + |b|][2..6] == first[2..6] == HexDigits(Utf16Of(c)[0], upper[..4]);
    HexRead(s, at + 2, Utf16Of(c)[0], upper[..4]);
    if |upper| == 8 {
      var second := UnitBytes(Utf16Of(c)[1], upper[4..]);
      assert s[at + 6..at + 8] == s[at..at + |b|][6..8] == second[..2] == [BACKSLASH, LOWER_U];
      assert s[at + 8..at + 12] == s[at..at + |b|][8..12] == second[2..6] == HexDigits(Utf16Of(c)[1], upper[4..]);
      HexRead(s, at + 8, Utf16Of(c)[1], upper[4..]);
    }
  }

  lemma LaxRead(s: seq<byte>, at: nat, c: scalar, first: Quad, second: Option<Quad>, rest: seq<byte>)
    requires LaxOk(c, first, second) && Next(s, at, SpellingBytes(Lax(c, first, second)), rest)
    ensures UnicodeAt(s, at + 2) == Ok(c, at + |SpellingBytes(Lax(c, first, second))|)
  {
    hide HexAt, SpellingBytes, QuadOk;
    var b := SpellingBytes(Lax(c, first, second));
    NextAt(s, at, b, rest);
    LaxParts(c, first, second);
    SliceIn(s, at, b, 2, 6);
    QuadRead(s, at + 2, first);
    if second != None {
      SliceIn(s, at, b, 6, 8);
      SliceIn(s, at, b, 8, 12);
      QuadRead(s, at + 8, second.value);
    }
  }

  lemma SliceIn(s: seq<byte>, at: nat, b: seq<byte>, i: nat, j: nat)
    requires at + |b| <= |s| && s[at..at + |b|] == b && i <= j <= |b|
    ensures s[at + i..at + j] == b[i..j]
  {
    forall k | i <= k < j
      ensures s[at + i..at + j][k - i] == b[k]
    {
      assert s[at..at + |b|][k] == b[k];
    }
    assert s[at + i..at + j] == b[i..j];
  }

  lemma LaxParts(c: scalar, first: Quad, second: Option<Quad>)
    requires LaxOk(c, first, second)
    ensures var b := SpellingBytes(Lax(c, first, second));
            && |b| == (if second == None then 6 else 12) && b[2..6] == first.digits
            && (second != None ==> b[6..8] == [BACKSLASH, LOWER_U] && b[8..12] == second.value.digits)
  {
    hide IsHex;
    var b, front := SpellingBytes(Lax(c, first, second)), LaxBytes(first);
    if second == None {
      assert b == front;
    } else {
      assert b == front + LaxBytes(second.value);
    }
  }

  /** However a character is spelled, it is read as its UTF-8. */
  lemma CharRead(s: seq<byte>, at: nat, p: Spelling, rest: seq<byte>)
    requires SpellingOk(p) && Next(s, at, SpellingBytes(p), rest)
    ensures at + |SpellingBytes(p)| <= |s|
    ensures BytesAt(s, at) == After(Utf8Of(p.c), BytesAt(s, at + |SpellingBytes(p)|))
  {
    hide Decode, HexAt, HexDigits, Utf8Of, UnicodeAt;
    var b := SpellingBytes(p);
    NextAt(s, at, b, rest);
    match p
    case AsIs(c) =>
      Utf8Plain(c);
      PlainRead(s, at, Utf8Of(c), rest);
    case Short(c) =>
      assert s[at] == b[0] && s[at + 1] == b[1];
      assert EscapeAt(s, at + 1) == Ok(c, at + 2);
    case Units(c, upper) =>
      assert s[at] == b[0] && s[at + 1] == b[1];
      UnitsRead(s, at, c, upper, rest);
    case Lax(c, first, second) =>
      assert s[at] == b[0] && s[at + 1] == b[1];
      LaxRead(s, at, c, first, second, rest);
  }

  lemma {:induction false} CharsRead(s: seq<byte>, at: nat, ps: seq<Spelling>, rest: seq<byte>)
    requires SpellingsOk(ps) && Next(s, at, SpellingsBytes(ps), [QUOTE] + rest)
    ensures BytesAt(s, at) == Ok(Utf8(SpelledText(ps)), at + |SpellingsBytes(ps)| + 1)
    decreases |ps|
  {
    hide SpellingBytes, SpellingOk, Utf8Of, EscapeAt;
    NextAt(s, at, SpellingsBytes(ps), [QUOTE] + rest);
    if ps == [] {
      assert s[at..][0] == s[at];
    } else {
      hide BytesAt, Next;
      NextMore(s, at, SpellingBytes(ps[0]), SpellingsBytes(ps[1..]), [QUOTE] + rest);
      CharRead(s, at, ps[0], SpellingsBytes(ps[1..]) + ([QUOTE] + rest));
      CharsRead(s, at + |SpellingBytes(ps[0])|, ps[1..], rest);
    }
  }

  /** A string is read as its text, however its characters are spelled. */
  lemma QuotedRead(s: seq<byte>, at: nat, ps: seq<Spelling>, rest: seq<byte>)
    requires SpellingsOk(ps) && Next(s, at, InQuotes(ps), rest)
    ensures at < |s| && s[at] == QUOTE && StringAt(s, at) == Ok(SpelledText(ps), at + |InQuotes(ps)|)
  {
    hide SpellingsBytes, BytesAt, Utf8, Decode, SpellingsOk;
    NextAt(s, at, InQuotes(ps), rest);
    assert InQuotes(ps) == [QUOTE] + (SpellingsBytes(ps) + [QUOTE]);
    NextMore(s, at, [QUOTE], SpellingsBytes(ps) + [QUOTE], rest);
    NextMore(s, at + 1, SpellingsBytes(ps), [QUOTE], rest);
    CharsRead(s, at + 1, ps, rest);
    DecodeUtf8(SpelledText(ps));
  }

  // ---------------------------------------------------------------- values read

  /** Nothing that could be part of a number comes next. */
  predicate Ended(rest: seq<byte>)
  {
    rest == [] || !Numeric(rest[0])
  }

  /** Blanks are skipped, to what is no space. */
  lemma {:induction false} BlankSkipped(s: seq<byte>, at: nat, blank: seq<byte>, rest: seq<byte>)
    requires Next(s, at, blank, rest) && Blank(blank) && (rest == [] || !Space(rest[0]))
    ensures at + |blank| <= |s| && Skip(s, at) == Skip(s, at + |blank|) == at + |blank| && s[at + |blank|..] == rest
    decreases |blank|
  {
    NextAt(s, at, blank, rest);
    if blank == [] {
      assert s[at..] == rest;
    } else {
      assert blank == [blank[0]] + blank[1..];
      NextMore(s, at, [blank[0]], blank[1..], rest);
      BlankSkipped(s, at + 1, blank[1..], rest);
    }
  }

  /** After any blanks comes byte `b`. */
  lemma BlankThen(s: seq<byte>, at: nat, blank: seq<byte>, b: byte, rest: seq<byte>)
    requires Next(s, at, blank, [b] + rest) && Blank(blank) && !Space(b)
    ensures at + |blank| < |s| && Skip(s, at) == at + |blank| && s[at + |blank|] == b && s[at + |blank| + 1..] == rest && Eats(s, at, b)
  {
    BlankSkipped(s, at, blank, [b] + rest);
    NextAt(s, at, blank, [b] + rest);
    assert s[at + |blank|..][0] == b && s[at + |blank|..][1..] == rest;
  }

  /** A byte that no word, space or number starts with. */
  lemma Punctuated(s: seq<byte>, at: nat, b: byte, rest: seq<byte>)
    requires Next(s, at, [b], rest) && !Space(b)
    ensures at < |s| && s[at] == b && Skip(s, at) == at && s[at + 1..] == rest && Eats(s, at, b)
    ensures b != 0x6E && b != 0x74 && b != 0x66 ==> !Starts(s, at, NullWord()) && !Starts(s, at, TrueWord()) && !Starts(s, at, FalseWord())
  {
    hide Starts;
    NextAt(s, at, [b], rest);
    NotWord(s, at, NullWord());
    NotWord(s, at, TrueWord());
    NotWord(s, at, FalseWord());
  }

  lemma NotWord(s: seq<byte>, at: nat, word: seq<byte>)
    requires at < |s| && word != []
    ensures s[at] != word[0] ==> !Starts(s, at, word)
  {
    if Starts(s, at, word) {
      assert s[at..at + |word|][0] == s[at];
    }
  }

  lemma {:induction false} TokenRead(s: seq<byte>, at: nat, token: seq<byte>, rest: seq<byte>)
    requires Next(s, at, token, rest) && Ended(rest) && forall i :: 0 <= i < |token| ==> Numeric(token[i])
    ensures NumericEnd(s, at) == at + |token|
    decreases |token|
  {
    NextAt(s, at, token, rest);
    if token == [] {
      assert s[at..] == rest;
    } else {
      assert token == [token[0]] + token[1..];
      NextMore(s, at, [token[0]], token[1..], rest);
      TokenRead(s, at + 1, token[1..], rest);
    }
  }

  /** A text of a value starts with no space and no closing bracket. */
  lemma SpelledStarts(x: Syntax, accepts: seq<byte> -> bool)
    requires SyntaxOk(x, accepts)
    ensures var b := Spelled(x); b != [] && !Space(b[0]) && b[0] != CLOSE && b[0] != CLOSE_BRACE
  {
    hide SpellingsBytes, SpelledItems, SpelledMembers;
  }

  /** A value is read past the blanks before it. */
  lemma PastBlank(s: seq<byte>, at: nat, p: nat, depth: nat, accepts: seq<byte> -> bool)
    requires at <= |s| && p <= |s| && Skip(s, at) == Skip(s, p) && depth <= MOST_DEPTH
    ensures ValueAt(s, at, depth, accepts) == ValueAt(s, p, depth, accepts)
  {
    hide ItemsAt, FieldsAt, StringAt, NumericEnd, Skip, Starts, Eats;
  }

  /** However a value is spelled, it is read as it is, unless it is nested too deeply: then it is refused. */
  lemma {:induction false} ValueRead(x: Syntax, s: seq<byte>, at: nat, rest: seq<byte>, depth: nat, accepts: seq<byte> -> bool)
    requires SyntaxOk(x, accepts) && Next(s, at, Spelled(x), rest) && Ended(rest)
    ensures if depth + Height(Meaning(x)) <= MOST_DEPTH then ValueAt(s, at, depth, accepts) == Ok(Meaning(x), at + |Spelled(x)|)
            else ValueAt(s, at, depth, accepts).Fail?
    decreases x
  {
    hide ItemsAt, FieldsAt, Next, Ended, InQuotes, SpelledItems, SpelledMembers, Meanings, MemberFields, ItemsHeight, FieldsHeight, Blank, TokenOk, Skip,
        Eats, Starts, NumericEnd, StringAt, WordOf;
    if depth <= MOST_DEPTH {
      match x
      case Literal(v) => WordRead(s, at, rest, depth, accepts, v);
      case Digits(token) => NumberRead(s, at, token, rest, depth, accepts);
      case Chars(chars) => TextRead(s, at, chars, rest, depth, accepts);
      case List(blank, items) =>
        if items != [] {
          Opens(s, at, OPEN, SpelledItems(items), CLOSE, rest);
          ItemsRead(items, s, at + 1, rest, depth, accepts);
        }
        ArrayRead(s, at, blank, items, rest, depth, accepts);
      case Record(blank, members) =>
        if members != [] {
          Opens(s, at, OPEN_BRACE, SpelledMembers(members), CLOSE_BRACE, rest);
          MembersRead(members, s, at + 1, rest, depth, accepts);
        }
        ObjectRead(s, at, blank, members, rest, depth, accepts);
    }
  }

  lemma Opens(s: seq<byte>, at: nat, open: byte, inner: seq<byte>, close: byte, rest: seq<byte>)
    requires Next(s, at, [open] + inner + [close], rest)
    ensures Next(s, at, [open], inner + ([close] + rest)) && Next(s, at + 1, inner, [close] + rest)
    ensures Next(s, at + 1 + |inner|, [close], rest)
  {
    assert [open] + inner + [close] == [open] + (inner + [close]);
    NextMore(s, at, [open], inner + [close], rest);
    assert (inner + [close]) + rest == inner + ([close] + rest);
    NextMore(s, at + 1, inner, [close], rest);
  }

  /** After `r`, the value `v`, any blanks end at `q`, where byte `c` is. */
  ghost predicate ReadTo<T>(r: Parsed<T>, v: T, s: seq<byte>, q: nat, c: byte)
  {
    r.Ok? && r.value == v && r.end <= q < |s| && Skip(s, r.end) == q && s[q] == c
  }

  /** A byte that ends an item. */
  predicate Closing(c: byte)
  {
    c == COMMA || c == CLOSE || c == CLOSE_BRACE
  }

  /** An item's parts, one after another. */
  lemma ItemParts(i: Item, s: seq<byte>, at: nat, end: seq<byte>)
    requires Next(s, at, SpelledItem(i), end)
    ensures var b, p := Spelled(i.x), at + |i.before|;
            && Next(s, at, i.before, b + (i.after + end)) && Next(s, p, b, i.after + end) && Next(s, p + |b|, i.after, end)
            && p + |b| + |i.after| == at + |SpelledItem(i)| <= |s| && p <= |s|
  {
    hide Next, Spelled;
    var b, p := Spelled(i.x), at + |i.before|;
    NextAt(s, at, SpelledItem(i), end);
    assert SpelledItem(i) == i.before + (b + i.after);
    NextMore(s, at, i.before, b + i.after, end);
    NextMore(s, p, b, i.after, end);
    assert (b + i.after) + end == b + (i.after + end);
  }

  lemma {:induction false} ItemRead(i: Item, s: seq<byte>, at: nat, c: byte, rest: seq<byte>, depth: nat, accepts: seq<byte> -> bool)
    requires ItemOk(i, accepts) && Next(s, at, SpelledItem(i), [c] + rest) && Closing(c)
    ensures at <= |s|
    ensures if depth + Height(ItemMeaning(i)) <= MOST_DEPTH then ReadTo(ValueAt(s, at, depth, accepts), ItemMeaning(i), s, at + |SpelledItem(i)|, c)
            else ValueAt(s, at, depth, accepts).Fail?
    decreases i
  {
    hide ValueAt, Next, Spelled, Height, Meaning, SyntaxOk, Skip, SpelledItem;
    var end := [c] + rest;
    ItemParts(i, s, at, end);
    if depth <= MOST_DEPTH {
      var b, p := Spelled(i.x), at + |i.before|;
      SpelledStarts(i.x, accepts);
      BlankSkipped(s, at, i.before, b + (i.after + end));
      PastBlank(s, at, p, depth, accepts);
      BlankEnds(i.after, c, rest);
      ValueRead(i.x, s, p, i.after + end, depth, accepts);
      BlankThen(s, p + |b|, i.after, c, rest);
    } else {
      TooDeepFails(s, at, depth, accepts);
    }
  }

  lemma BlankEnds(blank: seq<byte>, c: byte, rest: seq<byte>)
    requires Blank(blank) && Closing(c)
    ensures Ended(blank + ([c] + rest)) && !Space(c)
  {}

  lemma TooDeepFails(s: seq<byte>, at: nat, depth: nat, accepts: seq<byte> -> bool)
    requires at <= |s| && depth > MOST_DEPTH
    ensures ValueAt(s, at, depth, accepts).Fail?
  {}

  /** One item read, and what follows it. */
  lemma ItemThen(s: seq<byte>, at: nat, v: Value, q: nat, c: byte, depth: nat, accepts: seq<byte> -> bool)
    requires at <= |s| && ReadTo(ValueAt(s, at, depth + 1, accepts), v, s, q, c)
    ensures c == CLOSE ==> ItemsAt(s, at, depth, accepts) == Ok([v], q + 1)
    ensures c == COMMA ==> ItemsAt(s, at, depth, accepts) == After([v], ItemsAt(s, q + 1, depth, accepts))
  {
    hide ValueAt, Skip;
  }

  lemma ItemFails(s: seq<byte>, at: nat, depth: nat, accepts: seq<byte> -> bool)
    requires at <= |s| && ValueAt(s, at, depth + 1, accepts).Fail?
    ensures ItemsAt(s, at, depth, accepts).Fail?
  {
    hide ValueAt;
  }

  lemma OneItem(items: seq<Item>)
    requires |items| == 1
    ensures Meanings(items) == [ItemMeaning(items[0])] && SpelledItems(items) == SpelledItem(items[0])
  {
    hide ItemMeaning, SpelledItem;
  }

  lemma {:induction false} ItemsRead(items: seq<Item>, s: seq<byte>, at: nat, rest: seq<byte>, depth: nat, accepts: seq<byte> -> bool)
    requires items != [] && ItemsOk(items, accepts) && Next(s, at, SpelledItems(items), [CLOSE] + rest)
    ensures at <= |s|
    ensures if depth + 1 + ItemsHeight(Meanings(items)) <= MOST_DEPTH
            then ItemsAt(s, at, depth, accepts) == Ok(Meanings(items), at + |SpelledItems(items)| + 1)
            else ItemsAt(s, at, depth, accepts).Fail?
    decreases items
  {
    hide ValueAt, SpelledItem, Height, ItemOk, ItemMeaning, Next, ItemsAt, ReadTo;
    var i, q := items[0], at + |SpelledItem(items[0])|;
    NextAt(s, at, SpelledItems(items), [CLOSE] + rest);
    var more := if |items| == 1 then [] else SpelledItems(items[1..]);
    var c, after := if |items| == 1 then CLOSE else COMMA, if |items| == 1 then rest else more + ([CLOSE] + rest);
    if |items| > 1 {
      CommaNext(s, at, SpelledItem(i), more, CLOSE, rest);
    }
    ItemRead(i, s, at, c, after, depth + 1, accepts);
    assert Meanings(items)[1..] == Meanings(items[1..]);
    if depth + 1 + Height(ItemMeaning(i)) > MOST_DEPTH {
      ItemFails(s, at, depth, accepts);
    } else {
      ItemThen(s, at, ItemMeaning(i), q, c, depth, accepts);
      if |items| > 1 {
        ItemsRead(items[1..], s, q + 1, rest, depth, accepts);
      } else {
        OneItem(items);
      }
    }
  }

  /** One item, a comma and more, and the closing bracket. */
  lemma CommaNext(s: seq<byte>, at: nat, a: seq<byte>, more: seq<byte>, close: byte, rest: seq<byte>)
    requires Next(s, at, a + [COMMA] + more, [close] + rest)
    ensures Next(s, at, a, [COMMA] + (more + ([close] + rest))) && Next(s, at + |a| + 1, more, [close] + rest)
  {
    var end := [close] + rest;
    assert a + [COMMA] + more == a + ([COMMA] + more);
    NextMore(s, at, a, [COMMA] + more, end);
    NextMore(s, at + |a|, [COMMA], more, end);
    assert ([COMMA] + more) + end == [COMMA] + (more + end);
  }

  /** The name of a member, its colon, and where its value starts. */
  lemma NameRead(m: Member, s: seq<byte>, at: nat, rest: seq<byte>, accepts: seq<byte> -> bool)
    requires MemberOk(m, accepts) && Next(s, at, SpelledMember(m), rest)
    ensures at <= |s| && StringAt(s, Skip(s, at)).Ok?
    ensures var key := StringAt(s, Skip(s, at));
            && key.value == SpelledText(m.name) && Eats(s, key.end, COLON)
            && Skip(s, key.end) + 1 + |SpelledItem(m.item)| == at + |SpelledMember(m)|
            && Next(s, Skip(s, key.end) + 1, SpelledItem(m.item), rest)
  {
    hide StringAt, InQuotes, SpelledItem, SpellingsOk, Skip, ItemOk, Blank, Next, SpelledText, SpelledMember;
    var name, tail := InQuotes(m.name), m.between + [COLON] + SpelledItem(m.item);
    MemberParts(m, s, at, rest);
    BlankSkipped(s, at, m.before, name + (tail + rest));
    QuotedRead(s, at + |m.before|, m.name, tail + rest);
    ColonRead(s, at + |m.before| + |name|, m.between, SpelledItem(m.item), rest);
  }

  lemma MemberParts(m: Member, s: seq<byte>, at: nat, rest: seq<byte>)
    requires Next(s, at, SpelledMember(m), rest)
    ensures var name, tail := InQuotes(m.name), m.between + [COLON] + SpelledItem(m.item);
            && Next(s, at, m.before, name + (tail + rest)) && Next(s, at + |m.before|, name, tail + rest)
            && Next(s, at + |m.before| + |name|, tail, rest) && at + |m.before| + |name| + |tail| == at + |SpelledMember(m)| <= |s|
  {
    hide InQuotes, SpelledItem, Next;
    var name, tail := InQuotes(m.name), m.between + [COLON] + SpelledItem(m.item);
    NextAt(s, at, SpelledMember(m), rest);
    assert SpelledMember(m) == m.before + (name + tail);
    NextMore(s, at, m.before, name + tail, rest);
    NextMore(s, at + |m.before|, name, tail, rest);
    assert (name + tail) + rest == name + (tail + rest);
  }

  lemma ColonRead(s: seq<byte>, at: nat, blank: seq<byte>, value: seq<byte>, rest: seq<byte>)
    requires Next(s, at, blank + [COLON] + value, rest) && Blank(blank)
    ensures at <= |s| && Skip(s, at) == at + |blank| && Eats(s, at, COLON) && Next(s, at + |blank| + 1, value, rest)
  {
    hide Skip, Blank, Next;
    assert blank + [COLON] + value == blank + ([COLON] + value);
    NextMore(s, at, blank, [COLON] + value, rest);
    assert ([COLON] + value) + rest == [COLON] + (value + rest);
    BlankThen(s, at, blank, COLON, value + rest);
    NextMore(s, at + |blank|, [COLON], value, rest);
  }

  /** A name and a colon read to `p`, and then a value, or none. */
  lemma FieldFrom(s: seq<byte>, at: nat, name: seq<scalar>, p: nat, v: Value, q: nat, c: byte, depth: nat, accepts: seq<byte> -> bool)
    requires at <= |s| && StringAt(s, Skip(s, at)).Ok?
    requires var key := StringAt(s, Skip(s, at)); key.value == name && Eats(s, key.end, COLON) && p == Skip(s, key.end) + 1
    ensures ReadTo(ValueAt(s, p, depth + 1, accepts), v, s, q, c) ==> ReadTo(FieldAt(s, at, depth, accepts), (name, v), s, q, c)
    ensures ValueAt(s, p, depth + 1, accepts).Fail? ==> FieldAt(s, at, depth, accepts).Fail?
  {
    hide ValueAt, StringAt, Skip;
  }

  lemma {:induction false} MemberRead(m: Member, s: seq<byte>, at: nat, c: byte, rest: seq<byte>, depth: nat, accepts: seq<byte> -> bool)
    requires MemberOk(m, accepts) && Next(s, at, SpelledMember(m), [c] + rest) && Closing(c)
    ensures if depth + 1 + FieldHeight(MemberField(m)) <= MOST_DEPTH
            then ReadTo(FieldAt(s, at, depth, accepts), MemberField(m), s, at + |SpelledMember(m)|, c)
            else FieldAt(s, at, depth, accepts).Fail?
    decreases m
  {
    hide ValueAt, StringAt, Height, ItemMeaning, SpelledItem, Skip, Next, SpelledMember, ItemOk, Blank, SpellingsOk, SpelledText, Eats, ReadTo;
    NameRead(m, s, at, [c] + rest, accepts);
    var p := Skip(s, StringAt(s, Skip(s, at)).end) + 1;
    ItemRead(m.item, s, p, c, rest, depth + 1, accepts);
    FieldFrom(s, at, SpelledText(m.name), p, ItemMeaning(m.item), at + |SpelledMember(m)|, c, depth, accepts);
  }

  lemma FieldThen(s: seq<byte>, at: nat, f: (seq<scalar>, Value), q: nat, c: byte, depth: nat, accepts: seq<byte> -> bool)
    requires at <= |s| && ReadTo(FieldAt(s, at, depth, accepts), f, s, q, c)
    ensures c == CLOSE_BRACE ==> FieldsAt(s, at, depth, accepts) == Ok([f], q + 1)
    ensures c == COMMA ==> FieldsAt(s, at, depth, accepts) == After([f], FieldsAt(s, q + 1, depth, accepts))
  {
    hide FieldAt, Skip;
  }

  lemma FieldFails(s: seq<byte>, at: nat, depth: nat, accepts: seq<byte> -> bool)
    requires at <= |s| && FieldAt(s, at, depth, accepts).Fail?
    ensures FieldsAt(s, at, depth, accepts).Fail?
  {
    hide FieldAt;
  }

  lemma MembersSplit(members: seq<Member>, accepts: seq<byte> -> bool)
    requires members != [] && MembersOk(members, accepts)
    ensures MemberOk(members[0], accepts) && MembersOk(members[1..], accepts)
    ensures MemberFields(members) == [MemberField(members[0])] + MemberFields(members[1..])
    ensures var one, more := FieldHeight(MemberField(members[0])), FieldsHeight(MemberFields(members[1..]));
            FieldsHeight(MemberFields(members)) == if one > more then one else more
    ensures SpelledMembers(members) ==
              if |members| == 1 then SpelledMember(members[0]) else SpelledMember(members[0]) + [COMMA] + SpelledMembers(members[1..])
    ensures |members| == 1 ==> MemberFields(members) == [MemberField(members[0])] && FieldsHeight(MemberFields(members[1..])) == 0
  {
    hide MemberField, FieldHeight, SpelledMember, MemberOk;
    assert MemberFields(members)[1..] == MemberFields(members[1..]);
  }

  lemma {:induction false} MembersRead(members: seq<Member>, s: seq<byte>, at: nat, rest: seq<byte>, depth: nat, accepts: seq<byte> -> bool)
    requires members != [] && MembersOk(members, accepts) && Next(s, at, SpelledMembers(members), [CLOSE_BRACE] + rest)
    ensures at <= |s|
    ensures if depth + 1 + FieldsHeight(MemberFields(members)) <= MOST_DEPTH
            then FieldsAt(s, at, depth, accepts) == Ok(MemberFields(members), at + |SpelledMembers(members)| + 1)
            else FieldsAt(s, at, depth, accepts).Fail?
    decreases members
  {
    hide FieldAt, SpelledMember, SpelledMembers, FieldHeight, FieldsHeight, MemberOk, MembersOk, MemberField, MemberFields, Next, FieldsAt, ReadTo;
    MembersSplit(members, accepts);
    var m, q := members[0], at + |SpelledMember(members[0])|;
    NextAt(s, at, SpelledMembers(members), [CLOSE_BRACE] + rest);
    var more := if |members| == 1 then [] else SpelledMembers(members[1..]);
    var c, after := if |members| == 1 then CLOSE_BRACE else COMMA, if |members| == 1 then rest else more + ([CLOSE_BRACE] + rest);
    if |members| > 1 {
      CommaNext(s, at, SpelledMember(m), more, CLOSE_BRACE, rest);
    }
    MemberRead(m, s, at, c, after, depth, accepts);
    if depth + 1 + FieldHeight(MemberField(m)) > MOST_DEPTH {
      FieldFails(s, at, depth, accepts);
    } else {
      FieldThen(s, at, MemberField(m), q, c, depth, accepts);
      if |members| > 1 {
        MembersRead(members[1..], s, q + 1, rest, depth, accepts);
      }
    }
  }

  /** What an opening bracket leads to. */
  lemma ArrayOpened(s: seq<byte>, at: nat, rest: seq<byte>, depth: nat, accepts: seq<byte> -> bool)
    requires depth <= MOST_DEPTH && Next(s, at, [OPEN], rest)
    ensures at < |s|
    ensures ValueAt(s, at, depth, accepts) ==
              if Eats(s, at + 1, CLOSE) then Ok(Array([]), Skip(s, at + 1) + 1) else
              var items := ItemsAt(s, Skip(s, at + 1), depth, accepts);
              if items.Fail? then Fail(items.problem, items.at) else Ok(Array(items.value), items.end)
  {
    hide ItemsAt, FieldsAt, StringAt, NumericEnd, Starts, Next, Skip;
    Punctuated(s, at, OPEN, rest);
  }

  lemma ObjectOpened(s: seq<byte>, at: nat, rest: seq<byte>, depth: nat, accepts: seq<byte> -> bool)
    requires depth <= MOST_DEPTH && Next(s, at, [OPEN_BRACE], rest)
    ensures at < |s|
    ensures ValueAt(s, at, depth, accepts) ==
              if Eats(s, at + 1, CLOSE_BRACE) then Ok(Object([]), Skip(s, at + 1) + 1) else
              var fields := FieldsAt(s, Skip(s, at + 1), depth, accepts);
              if fields.Fail? then Fail(fields.problem, fields.at) else Ok(Object(fields.value), fields.end)
  {
    hide ItemsAt, FieldsAt, StringAt, NumericEnd, Starts, Next, Skip;
    Punctuated(s, at, OPEN_BRACE, rest);
  }

  lemma ListIs(blank: seq<byte>, items: seq<Item>)
    ensures Spelled(List(blank, items)) == [OPEN] + (if items == [] then blank else SpelledItems(items)) + [CLOSE]
    ensures Meaning(List(blank, items)) == Array(Meanings(items))
    ensures Height(Array(Meanings(items))) == if items == [] then 0 else 1 + ItemsHeight(Meanings(items))
  {
    hide SpelledItems, Meanings, ItemsHeight;
  }

  lemma RecordIs(blank: seq<byte>, members: seq<Member>)
    ensures Spelled(Record(blank, members)) == [OPEN_BRACE] + (if members == [] then blank else SpelledMembers(members)) + [CLOSE_BRACE]
    ensures Meaning(Record(blank, members)) == Object(MemberFields(members))
    ensures Height(Object(MemberFields(members))) == if members == [] then 0 else 1 + FieldsHeight(MemberFields(members))
  {
    hide SpelledMembers, MemberFields, FieldsHeight;
  }

  /** An array, its items read or not. */
  lemma ArrayRead(s: seq<byte>, at: nat, blank: seq<byte>, items: seq<Item>, rest: seq<byte>, depth: nat, accepts: seq<byte> -> bool)
    requires depth <= MOST_DEPTH && Blank(blank) && ItemsOk(items, accepts) && Next(s, at, Spelled(List(blank, items)), rest)
    requires items != [] ==>
               if depth + 1 + ItemsHeight(Meanings(items)) <= MOST_DEPTH
               then ItemsAt(s, at + 1, depth, accepts) == Ok(Meanings(items), at + 2 + |SpelledItems(items)|)
               else at + 1 <= |s| && ItemsAt(s, at + 1, depth, accepts).Fail?
    ensures var v := Meaning(List(blank, items));
            if depth + Height(v) <= MOST_DEPTH then ValueAt(s, at, depth, accepts) == Ok(v, at + |Spelled(List(blank, items))|)
            else ValueAt(s, at, depth, accepts).Fail?
  {
    hide ValueAt, ItemsAt, Spelled, SpelledItems, Next, Skip, Blank, Height, ItemsHeight, ItemsOk, Meaning, Meanings;
    ListIs(blank, items);
    var inner := if items == [] then blank else SpelledItems(items);
    Opens(s, at, OPEN, inner, CLOSE, rest);
    ArrayOpened(s, at, inner + ([CLOSE] + rest), depth, accepts);
    if items == [] {
      BlankThen(s, at + 1, blank, CLOSE, rest);
    } else {
      ItemsStart(items, s, at + 1, [CLOSE] + rest, accepts);
      ItemsPast(s, at + 1, depth, accepts);
    }
  }

  /** What starts with a blank and then another byte than `close` does not close. */
  lemma NotClosed(s: seq<byte>, at: nat, blank: seq<byte>, b: seq<byte>, rest: seq<byte>, close: byte)
    requires Next(s, at, blank + b, rest) && Blank(blank) && b != [] && !Space(b[0]) && b[0] != close
    ensures at <= |s| && !Eats(s, at, close)
  {
    NextMore(s, at, blank, b, rest);
    BlankSkipped(s, at, blank, b + rest);
    assert s[at + |blank|..][0] == b[0];
  }

  lemma ItemsStart(items: seq<Item>, s: seq<byte>, at: nat, rest: seq<byte>, accepts: seq<byte> -> bool)
    requires items != [] && ItemsOk(items, accepts) && Next(s, at, SpelledItems(items), rest)
    ensures at <= |s| && !Eats(s, at, CLOSE)
  {
    hide Spelled, SyntaxOk, Next, Skip, Blank;
    var i, more := items[0], if |items| == 1 then [] else [COMMA] + SpelledItems(items[1..]);
    SpelledStarts(i.x, accepts);
    assert SpelledItems(items) == i.before + (Spelled(i.x) + i.after + more);
    NotClosed(s, at, i.before, Spelled(i.x) + i.after + more, rest, CLOSE);
  }

  lemma MembersStart(members: seq<Member>, s: seq<byte>, at: nat, rest: seq<byte>, accepts: seq<byte> -> bool)
    requires members != [] && MembersOk(members, accepts) && Next(s, at, SpelledMembers(members), rest)
    ensures at <= |s| && !Eats(s, at, CLOSE_BRACE)
  {
    hide InQuotes, SpelledItem, ItemOk, Next, Skip, Blank, SpellingsOk;
    var m, more := members[0], if |members| == 1 then [] else [COMMA] + SpelledMembers(members[1..]);
    var tail := m.between + [COLON] + SpelledItem(m.item);
    assert SpelledMembers(members) == m.before + (InQuotes(m.name) + (tail + more));
    NotClosed(s, at, m.before, InQuotes(m.name) + (tail + more), rest, CLOSE_BRACE);
  }

  /** Items are read past the blanks before them. */
  lemma ItemsPast(s: seq<byte>, at: nat, depth: nat, accepts: seq<byte> -> bool)
    requires at <= |s|
    ensures var a, b := ItemsAt(s, Skip(s, at), depth, accepts), ItemsAt(s, at, depth, accepts); a == b || (a.Fail? && b.Fail?)
  {
    hide ValueAt, Skip;
    SkipTwice(s, at);
    if depth + 1 <= MOST_DEPTH {
      PastBlank(s, at, Skip(s, at), depth + 1, accepts);
    } else {
      TooDeepFails(s, at, depth + 1, accepts);
      TooDeepFails(s, Skip(s, at), depth + 1, accepts);
    }
  }

  lemma FieldsPast(s: seq<byte>, at: nat, depth: nat, accepts: seq<byte> -> bool)
    requires at <= |s|
    ensures FieldsAt(s, Skip(s, at), depth, accepts) == FieldsAt(s, at, depth, accepts)
  {
    hide ValueAt, Skip, StringAt;
    SkipTwice(s, at);
  }

  lemma ObjectRead(s: seq<byte>, at: nat, blank: seq<byte>, members: seq<Member>, rest: seq<byte>, depth: nat, accepts: seq<byte> -> bool)
    requires depth <= MOST_DEPTH && Blank(blank) && MembersOk(members, accepts) && Next(s, at, Spelled(Record(blank, members)), rest)
    requires members != [] ==>
               if depth + 1 + FieldsHeight(MemberFields(members)) <= MOST_DEPTH
               then FieldsAt(s, at + 1, depth, accepts) == Ok(MemberFields(members), at + 2 + |SpelledMembers(members)|)
               else at + 1 <= |s| && FieldsAt(s, at + 1, depth, accepts).Fail?
    ensures var v := Meaning(Record(blank, members));
            if depth + Height(v) <= MOST_DEPTH then ValueAt(s, at, depth, accepts) == Ok(v, at + |Spelled(Record(blank, members))|)
            else ValueAt(s, at, depth, accepts).Fail?
  {
    hide ValueAt, FieldsAt, Spelled, SpelledMembers, Next, Skip, Blank, Height, FieldsHeight, MembersOk, Meaning, MemberFields;
    RecordIs(blank, members);
    var inner := if members == [] then blank else SpelledMembers(members);
    Opens(s, at, OPEN_BRACE, inner, CLOSE_BRACE, rest);
    ObjectOpened(s, at, inner + ([CLOSE_BRACE] + rest), depth, accepts);
    if members == [] {
      BlankThen(s, at + 1, blank, CLOSE_BRACE, rest);
    } else {
      MembersStart(members, s, at + 1, [CLOSE_BRACE] + rest, accepts);
      FieldsPast(s, at + 1, depth, accepts);
    }
  }

  lemma WordRead(s: seq<byte>, at: nat, rest: seq<byte>, depth: nat, accepts: seq<byte> -> bool, v: Value)
    requires (v.Null? || v.Bool?) && Next(s, at, WordOf(v), rest) && depth <= MOST_DEPTH
    ensures ValueAt(s, at, depth, accepts) == Ok(v, at + |WordOf(v)|)
  {
    hide ItemsAt, FieldsAt, StringAt, NumericEnd;
    NextAt(s, at, WordOf(v), rest);
  }

  lemma NumberRead(s: seq<byte>, at: nat, token: seq<byte>, rest: seq<byte>, depth: nat, accepts: seq<byte> -> bool)
    requires Next(s, at, token, rest) && Ended(rest) && TokenOk(token, accepts) && depth <= MOST_DEPTH
    ensures ValueAt(s, at, depth, accepts) == Ok(Number(token), at + |token|)
  {
    hide ItemsAt, FieldsAt, StringAt, NumericEnd;
    NextAt(s, at, token, rest);
    assert token == [token[0]] + token[1..];
    NextMore(s, at, [token[0]], token[1..], rest);
    TokenRead(s, at + 1, token[1..], rest);
    Punctuated(s, at, token[0], token[1..] + rest);
  }

  lemma TextRead(s: seq<byte>, at: nat, chars: seq<Spelling>, rest: seq<byte>, depth: nat, accepts: seq<byte> -> bool)
    requires SpellingsOk(chars) && Next(s, at, InQuotes(chars), rest) && depth <= MOST_DEPTH
    ensures ValueAt(s, at, depth, accepts) == Ok(String(SpelledText(chars)), at + |InQuotes(chars)|)
  {
    hide ItemsAt, FieldsAt, StringAt, NumericEnd, SpellingsBytes, SpellingsOk;
    QuotedRead(s, at, chars, rest);
    assert InQuotes(chars) == [QUOTE] + (SpellingsBytes(chars) + [QUOTE]);
    NextMore(s, at, [QUOTE], SpellingsBytes(chars) + [QUOTE], rest);
    Punctuated(s, at, QUOTE, SpellingsBytes(chars) + [QUOTE] + rest);
  }

  /** Any text of a value, with any blanks around it, parses as the value, unless it nests more than 64 deep: then it is refused. */
  lemma ParseSpelled(i: Item, accepts: seq<byte> -> bool)
    requires ItemOk(i, accepts)
    ensures if Height(ItemMeaning(i)) <= 64 then Parse(SpelledItem(i), accepts) == Ok(ItemMeaning(i), |SpelledItem(i)|)
            else Parse(SpelledItem(i), accepts).Fail?
  {
    hide ValueAt, Spelled, SpelledItem, Height, Meaning, SyntaxOk, Skip, Blank, Ended, Next;
    var s, b, p := SpelledItem(i), Spelled(i.x), |i.before|;
    ItemNext(i);
    SpelledStarts(i.x, accepts);
    BlankSkipped(s, 0, i.before, b + i.after);
    PastBlank(s, 0, p, 0, accepts);
    BlankEnded(i.after);
    ValueRead(i.x, s, p, i.after, 0, accepts);
    BlankSkipped(s, p + |b|, i.after, []);
  }

  lemma ItemNext(i: Item)
    ensures var s, b := SpelledItem(i), Spelled(i.x);
            && Next(s, 0, i.before, b + i.after) && Next(s, |i.before|, b, i.after) && Next(s, |i.before| + |b|, i.after, [])
            && |s| == |i.before| + |b| + |i.after|
  {
    hide Spelled;
    var s, b := SpelledItem(i), Spelled(i.x);
    assert s == i.before + (b + i.after) && s[0..] == s;
    assert i.after + [] == i.after;
    assert Next(s, 0, i.before, b + i.after);
    NextAt(s, 0, i.before, b + i.after);
    NextAt(s, |i.before|, b, i.after);
  }

  lemma BlankEnded(blank: seq<byte>)
    requires Blank(blank)
    ensures Ended(blank)
  {}

  // ---------------------------------------------------------------- what the writers write is such a text

  /** How the writers spell a character. */
  function Plainest(c: scalar): (p: Spelling)
    ensures SpellingOk(p) && p.c == c
  {
    if c == QUOTE || c == BACKSLASH || c == 0x0A || c == 0x0D || c == 9 then Short(c)
    else if c < 0x20 then Units(c, [false, false, false, false])
    else AsIs(c)
  }

  function Plainly(t: seq<scalar>): (ps: seq<Spelling>)
    ensures SpellingsOk(ps)
  {
    if t == [] then [] else [Plainest(t[0])] + Plainly(t[1..])
  }

  lemma PlainestIs(c: scalar)
    ensures SpellingBytes(Plainest(c)) == EscapedOf(c)
  {
    if c < 0x20 && c != 0x0A && c != 0x0D && c != 9 {
      ControlDigits(c);
    }
  }

  lemma ControlDigits(c: scalar)
    requires c < 0x20
    ensures HexDigits(c, [false, false, false, false]) == [0x30, 0x30, Hex(c / 16), Hex(c % 16)]
    ensures Utf16Of(c) == [c]
  {
    HexSame(c / 16);
    HexSame(c % 16);
    HexSame(0);
    hide HexChar, Hex;
  }

  lemma HexSame(n: nat)
    requires n < 16
    ensures HexChar(n, false) == Hex(n)
  {}

  lemma {:induction false} PlainlyIs(t: seq<scalar>)
    ensures SpellingsBytes(Plainly(t)) == Escaped(t) && SpelledText(Plainly(t)) == t
  {
    hide SpellingBytes, EscapedOf;
    if t != [] {
      PlainestIs(t[0]);
      PlainlyIs(t[1..]);
      assert t == [t[0]] + t[1..];
    }
  }

  /** A value with no blanks, its text spelled as the writers do. */
  function Bare(v: Value): Syntax
    decreases v, 0
  {
    match v
    case Number(token) => Digits(token)
    case String(text) => Chars(Plainly(text))
    case Array(items) => List([], BareItems(items))
    case Object(fields) => Record([], BareMembers(fields))
    case _ => Literal(v)
  }

  function BareItem(v: Value): Item
    decreases v, 1
  {
    Item([], Bare(v), [])
  }

  function BareItems(items: seq<Value>): (r: seq<Item>)
    ensures |r| == |items|
    decreases items
  {
    if items == [] then [] else [BareItem(items[0])] + BareItems(items[1..])
  }

  function BareMember(f: (seq<scalar>, Value)): Member
    decreases f
  {
    Member([], Plainly(f.0), [], BareItem(f.1))
  }

  function BareMembers(fields: seq<(seq<scalar>, Value)>): (r: seq<Member>)
    ensures |r| == |fields|
    decreases fields
  {
    if fields == [] then [] else [BareMember(fields[0])] + BareMembers(fields[1..])
  }

  /** What the writers write of a value is its bare text. */
  lemma {:induction false} BareIs(v: Value, accepts: seq<byte> -> bool)
    requires Numbers(v, accepts)
    ensures SyntaxOk(Bare(v), accepts) && Spelled(Bare(v)) == Written(v) && Meaning(Bare(v)) == v
    decreases v, 0
  {
    hide BareItems, BareMembers, SpelledItems, SpelledMembers, Escaped, Plainly, SpellingsBytes, WrittenItems, WrittenFields, SpellingsOk;
    match v
    case String(text) => PlainlyIs(text);
    case Array(items) =>
      NothingWritten();
      BareItemsAre(items, accepts);
    case Object(fields) =>
      NothingWritten();
      BareMembersAre(fields, accepts);
    case Number(token) => NumericChars(token);
    case _ =>
  }

  lemma NothingWritten()
    ensures WrittenItems([]) == SpelledItems([]) == [] && WrittenFields([]) == SpelledMembers([]) == []
  {}

  lemma NumericChars(token: seq<byte>)
    ensures (forall i :: 0 <= i < |token| ==> Numeric(token[i])) ==> forall i :: 0 <= i < |token| ==> token[i] as char in "+-.eE0123456789"
    ensures token != [] && (token[0] == 0x2D || 0x30 <= token[0] < 0x3A) ==> token[0] as char in "-0123456789"
  {}

  lemma {:induction false} BareItemIs(v: Value, accepts: seq<byte> -> bool)
    requires Numbers(v, accepts)
    ensures ItemOk(BareItem(v), accepts) && SpelledItem(BareItem(v)) == Written(v) && ItemMeaning(BareItem(v)) == v
    decreases v, 1
  {
    hide Spelled, SyntaxOk, Written, Bare, Meaning;
    BareIs(v, accepts);
    assert [] + Written(v) + [] == Written(v);
  }

  lemma {:induction false} BareItemsAre(items: seq<Value>, accepts: seq<byte> -> bool)
    requires ItemNumbers(items, accepts)
    ensures ItemsOk(BareItems(items), accepts) && SpelledItems(BareItems(items)) == WrittenItems(items) && Meanings(BareItems(items)) == items
    decreases items
  {
    hide SpelledItem, ItemOk, Written, BareItem, ItemMeaning;
    if items != [] {
      BareItemIs(items[0], accepts);
      BareItemsAre(items[1..], accepts);
      assert items == [items[0]] + items[1..];
      assert BareItems(items)[1..] == BareItems(items[1..]);
    }
  }

  lemma {:induction false} BareMemberIs(f: (seq<scalar>, Value), accepts: seq<byte> -> bool)
    requires FieldNumber(f, accepts)
    ensures MemberOk(BareMember(f), accepts) && SpelledMember(BareMember(f)) == WrittenField(f) && MemberField(BareMember(f)) == f
    decreases f
  {
    hide Spelled, ItemOk, Written, BareItem, ItemMeaning, SpelledItem, SpellingsBytes, Escaped, SpellingsOk;
    BareItemIs(f.1, accepts);
    PlainlyIs(f.0);
    assert [] + Quoted(f.0) + ([] + [COLON] + Written(f.1)) == Quoted(f.0) + [COLON] + Written(f.1);
  }

  lemma {:induction false} BareMembersAre(fields: seq<(seq<scalar>, Value)>, accepts: seq<byte> -> bool)
    requires FieldNumbers(fields, accepts)
    ensures MembersOk(BareMembers(fields), accepts) && SpelledMembers(BareMembers(fields)) == WrittenFields(fields) && MemberFields(BareMembers(fields)) == fields
    decreases fields
  {
    hide SpelledMember, MemberOk, WrittenField, BareMember, MemberField;
    if fields != [] {
      BareMemberIs(fields[0], accepts);
      BareMembersAre(fields[1..], accepts);
      assert fields == [fields[0]] + fields[1..];
      assert BareMembers(fields)[1..] == BareMembers(fields[1..]);
    }
  }

  /** Parsing undoes writing exactly for values that do not nest more than 64 deep; deeper ones are refused. */
  lemma ParseWritten(v: Value, accepts: seq<byte> -> bool)
    requires Numbers(v, accepts)
    ensures Height(v) <= 64 ==> Parse(Written(v), accepts) == Ok(v, |Written(v)|)
    ensures Height(v) > 64 ==> Parse(Written(v), accepts).Fail?
  {
    hide ValueAt, Written, Height, Numbers, Parse, Spelled, SpelledItem, ItemOk;
    BareItemIs(v, accepts);
    ParseSpelled(BareItem(v), accepts);
  }

  // ---------------------------------------------------------------- the parser

  class Parser {
    const s: seq<byte>
    const accepts: seq<byte> -> bool
    var at: nat

    constructor (s: seq<byte>, accepts: seq<byte> -> bool)
      ensures this.s == s && this.accepts == accepts && at == 0
    {
      this.s, this.accepts, at := s, accepts, 0;
    }

    /** The place is in the text. */
    predicate Valid()
      reads this
    {
      at <= |s|
    }

    /** Reading gave `r` and left the place where it says. */
    ghost predicate Stopped<T>(r: Parsed<T>)
      reads this
    {
      at == if r.Ok? then r.end else r.at
    }

    method SkipSpace()
      requires Valid()
      modifies this`at
      ensures at == Skip(s, old(at))
    {
      while at < |s| && Space(s[at])
        invariant at <= |s| && Skip(s, at) == Skip(s, old(at))
      {
        at := at + 1;
      }
    }

    method Eat(b: byte) returns (ate: bool)
      requires Valid()
      modifies this`at
      ensures Valid() && ate == Eats(s, old(at), b)
      ensures at == Skip(s, old(at)) + if ate then 1 else 0
    {
      SkipSpace();
      ate := at < |s| && s[at] == b;
      if ate {
        at := at + 1;
      }
    }

    method Hex4() returns (r: Parsed<nat>)
      requires Valid()
      modifies this`at
      ensures r == HexAt(s, old(at)) && Stopped(r)
    {
      hide HexNumber, Decode;
      if at + 4 > |s| {
        return Fail(ShortUnicode, at);
      }
      var digits := s[at..at + 4];
      if Decode(digits) == None {
        return Fail(BadUnicode, at);
      }
      at := at + 4;
      var n := HexNumber(if digits[0] == 0x2B then digits[1..] else digits);
      if n == None {
        return Fail(BadUnicode, at);
      }
      return Ok(n.value, at);
    }

    method Escape() returns (r: Parsed<scalar>)
      requires Valid()
      modifies this`at
      ensures r == EscapeAt(s, old(at)) && Stopped(r)
    {
      hide HexAt;
      if at == |s| {
        return Fail(Unterminated, at);
      }
      var e := s[at];
      at := at + 1;
      if e != LOWER_U {
        if Letter(e) == None {
          return Fail(BadEscape, at);
        }
        return Ok(Letter(e).value, at);
      }
      var high := Hex4();
      if high.Fail? {
        return Fail(high.problem, high.at);
      }
      var c: int := high.value;
      if 0xD800 <= c < 0xDC00 && Starts(s, at, [BACKSLASH, LOWER_U]) {
        at := at + 2;
        var low := Hex4();
        if low.Fail? {
          return Fail(low.problem, low.at);
        }
        c := 0x10000 + (c - 0xD800) * 1024 + (low.value - 0xDC00) % 1024;
      }
      return Scalar(c, at);
    }

    method Text() returns (r: Parsed<seq<scalar>>)
      requires Valid()
      modifies this`at
      ensures r == StringAt(s, old(at)) && Stopped(r)
    {
      hide EscapeAt, Decode;
      if at == |s| || s[at] != QUOTE {
        return Fail(ExpectedString, at);
      }
      at := at + 1;
      ghost var start := at;
      var bytes: seq<byte> := [];
      AfterNone(BytesAt(s, at));
      while true
        invariant at <= |s| && BytesAt(s, start) == After(bytes, BytesAt(s, at))
        decreases |s| - at
      {
        if at == |s| {
          return Fail(Unterminated, at);
        }
        var b := s[at];
        ghost var from := at;
        at := at + 1;
        if b == QUOTE {
          break;
        } else if b == BACKSLASH {
          var c := Escape();
          if c.Fail? {
            return Fail(c.problem, c.at);
          }
          AfterMore(bytes, Utf8Of(c.value), BytesAt(s, at));
          bytes := bytes + Utf8Of(c.value);
        } else {
          AfterMore(bytes, [b], BytesAt(s, at));
          bytes := bytes + [b];
        }
      }
      assert BytesAt(s, start) == Ok(bytes + [], at);
      assert bytes + [] == bytes;
      if Decode(bytes) == None {
        return Fail(NotUtf8, at);
      }
      return Ok(Decode(bytes).value, at);
    }

    method NumberToken() returns (r: Parsed<Value>)
      requires at < |s|
      modifies this`at
      ensures at == NumericEnd(s, old(at) + 1) && Stopped(r)
      ensures r == if accepts(s[old(at)..at]) then Ok(Number(s[old(at)..at]), at) else Fail(BadNumber, at)
    {
      var start := at;
      at := at + 1;
      while at < |s| && Numeric(s[at])
        invariant start < at <= |s| && NumericEnd(s, at) == NumericEnd(s, start + 1)
      {
        at := at + 1;
      }
      if !accepts(s[start..at]) {
        return Fail(BadNumber, at);
      }
      return Ok(Number(s[start..at]), at);
    }

    method Value(depth: nat) returns (r: Parsed<Value>)
      requires Valid()
      modifies this`at
      ensures r == ValueAt(s, old(at), depth, accepts) && Stopped(r)
      decreases |s| - at, 1
    {
      hide ItemsAt, FieldsAt, StringAt, NumericEnd, Skip, Eats;
      if depth > MOST_DEPTH {
        return Fail(TooDeep, at);
      }
      ghost var from := at;
      SkipSpace();
      if Starts(s, at, NullWord()) {
        at := at + 4;
        return Ok(Null, at);
      }
      if Starts(s, at, TrueWord()) {
        at := at + 4;
        return Ok(Bool(true), at);
      }
      if Starts(s, at, FalseWord()) {
        at := at + 5;
        return Ok(Bool(false), at);
      }
      if at == |s| {
        return Fail(ExpectedValue, at);
      }
      if s[at] == QUOTE {
        var t := Text();
        return if t.Fail? then Fail(t.problem, t.at) else Ok(String(t.value), t.end);
      }
      if s[at] == OPEN {
        at := at + 1;
        var none := Eat(CLOSE);
        if none {
          return Ok(Array([]), at);
        }
        var items := Items(depth);
        return if items.Fail? then Fail(items.problem, items.at) else Ok(Array(items.value), items.end);
      }
      if s[at] == OPEN_BRACE {
        at := at + 1;
        var none := Eat(CLOSE_BRACE);
        if none {
          return Ok(Object([]), at);
        }
        var fields := Fields(depth);
        return if fields.Fail? then Fail(fields.problem, fields.at) else Ok(Object(fields.value), fields.end);
      }
      if s[at] == 0x2D || 0x30 <= s[at] < 0x3A {
        r := NumberToken();
        return;
      }
      return Fail(ExpectedValue, at);
    }

    method Items(depth: nat) returns (r: Parsed<seq<Value>>)
      requires Valid()
      modifies this`at
      ensures r == ItemsAt(s, old(at), depth, accepts) && Stopped(r)
      decreases |s| - at, 2
    {
      hide ValueAt, Skip, Eats;
      ghost var start := at;
      var items: seq<Value> := [];
      AfterNone(ItemsAt(s, at, depth, accepts));
      while true
        invariant start <= at <= |s|
        invariant ItemsAt(s, start, depth, accepts) == After(items, ItemsAt(s, at, depth, accepts))
        decreases |s| - at
      {
        var v := Value(depth + 1);
        if v.Fail? {
          return Fail(v.problem, v.at);
        }
        ghost var from := at;
        EatsOne(s, from, CLOSE, COMMA);
        var closes := Eat(CLOSE);
        if closes {
          return Ok(items + [v.value], at);
        }
        var goes := Eat(COMMA);
        if !goes {
          return Fail(ExpectedComma, at);
        }
        AfterMore(items, [v.value], ItemsAt(s, at, depth, accepts));
        items := items + [v.value];
      }
    }

    method Field(depth: nat) returns (r: Parsed<(seq<scalar>, Value)>)
      requires Valid()
      modifies this`at
      ensures r == FieldAt(s, old(at), depth, accepts) && Stopped(r)
      decreases |s| - at, 2
    {
      hide ValueAt, StringAt, Skip, Eats;
      SkipSpace();
      var key := Text();
      if key.Fail? {
        return Fail(key.problem, key.at);
      }
      var colon := Eat(COLON);
      if !colon {
        return Fail(ExpectedColon, at);
      }
      var v := Value(depth + 1);
      return if v.Fail? then Fail(v.problem, v.at) else Ok((key.value, v.value), v.end);
    }

    method Fields(depth: nat) returns (r: Parsed<seq<(seq<scalar>, Value)>>)
      requires Valid()
      modifies this`at
      ensures r == FieldsAt(s, old(at), depth, accepts) && Stopped(r)
      decreases |s| - at, 3
    {
      hide FieldAt, Skip, Eats;
      ghost var start := at;
      var fields: seq<(seq<scalar>, Value)> := [];
      AfterNone(FieldsAt(s, at, depth, accepts));
      while true
        invariant start <= at <= |s|
        invariant FieldsAt(s, start, depth, accepts) == After(fields, FieldsAt(s, at, depth, accepts))
        decreases |s| - at
      {
        var f := Field(depth);
        if f.Fail? {
          return Fail(f.problem, f.at);
        }
        ghost var from := at;
        EatsOne(s, from, CLOSE_BRACE, COMMA);
        var closes := Eat(CLOSE_BRACE);
        if closes {
          return Ok(fields + [f.value], at);
        }
        var goes := Eat(COMMA);
        if !goes {
          return Fail(ExpectedComma, at);
        }
        AfterMore(fields, [f.value], FieldsAt(s, at, depth, accepts));
        fields := fields + [f.value];
      }
    }
  }

  /** Having skipped spaces to find one byte not there, the other is found from where that stopped. */
  lemma EatsOne(s: seq<byte>, at: nat, a: byte, b: byte)
    requires at <= |s|
    ensures Skip(s, Skip(s, at)) == Skip(s, at) && Eats(s, Skip(s, at), b) == Eats(s, at, b)
    ensures a != b && Eats(s, at, a) ==> !Eats(s, at, b)
  {
    SkipTwice(s, at);
  }

  lemma {:induction false} SkipTwice(s: seq<byte>, at: nat)
    requires at <= |s|
    ensures Skip(s, Skip(s, at)) == Skip(s, at)
    decreases |s| - at
  {
    if at < |s| && Space(s[at]) {
      SkipTwice(s, at + 1);
    }
  }

  method ParseText(s: seq<byte>, accepts: seq<byte> -> bool) returns (r: Parsed<Value>)
    ensures r == Parse(s, accepts)
  {
    hide ValueAt;
    var p := new Parser(s, accepts);
    var v := p.Value(0);
    if v.Fail? {
      return v;
    }
    p.SkipSpace();
    if p.at != |s| {
      return Fail(Trailing, p.at);
    }
    return Ok(v.value, p.at);
  }

  // ---------------------------------------------------------------- the writers

  datatype Characteristic = Characteristic(variable: seq<scalar>, name: seq<scalar>, value: seq<scalar>)

  /** Append a text in quotes. */
  method PutString(out: seq<byte>, t: seq<scalar>) returns (now: seq<byte>)
    ensures now == out + Quoted(t)
  {
    hide EscapedOf;
    now := out + [QUOTE];
    var i := 0;
    while i < |t|
      invariant i <= |t| && now + Escaped(t[i..]) == out + [QUOTE] + Escaped(t)
    {
      assert t[i..][1..] == t[i + 1..];
      assert now + (EscapedOf(t[i]) + Escaped(t[i + 1..])) == (now + EscapedOf(t[i])) + Escaped(t[i + 1..]);
      now := now + EscapedOf(t[i]);
      i := i + 1;
    }
    now := now + [QUOTE];
    assert out + [QUOTE] + Escaped(t) + [QUOTE] == out + Quoted(t);
  }

  /** The values of texts. */
  function Texts(values: seq<seq<scalar>>): (r: seq<Value>)
    ensures |r| == |values|
  {
    if values == [] then [] else Texts(values[..|values| - 1]) + [String(values[|values| - 1])]
  }

  /** Items with one more at the end. */
  lemma {:induction false} ItemsPush(items: seq<Value>, v: Value)
    ensures WrittenItems(items + [v]) == (if items == [] then [] else WrittenItems(items) + [COMMA]) + Written(v)
  {
    hide Written;
    if items != [] {
      var rest := items[1..];
      assert (items + [v])[1..] == rest + [v];
      ItemsPush(rest, v);
      var head := Written(items[0]);
      if rest == [] {
        assert items == [items[0]];
      } else {
        assert head + [COMMA] + ((WrittenItems(rest) + [COMMA]) + Written(v)) == (head + [COMMA] + WrittenItems(rest)) + [COMMA] + Written(v);
      }
    }
  }

  /** Texts, written as an array. */
  method Strings(values: seq<seq<scalar>>) returns (out: seq<byte>)
    ensures out == Written(Array(Texts(values)))
  {
    hide Quoted;
    out := [OPEN];
    var i := 0;
    while i < |values|
      invariant i <= |values| && out == [OPEN] + WrittenItems(Texts(values[..i]))
    {
      assert values[..i + 1][..i] == values[..i];
      ItemsPush(Texts(values[..i]), String(values[i]));
      if i > 0 {
        out := out + [COMMA];
      }
      out := PutString(out, values[i]);
      i := i + 1;
    }
    assert values[..i] == values;
    out := out + [CLOSE];
  }

  /** Reading back what was written of texts gives them. */
  lemma StringsRoundTrip(values: seq<seq<scalar>>, accepts: seq<byte> -> bool)
    ensures Parse(Written(Array(Texts(values))), accepts) == Ok(Array(Texts(values)), |Written(Array(Texts(values)))|)
  {
    hide Written, Parse;
    TextsFlat(values, accepts);
    AllFlat(Texts(values), accepts);
    ParseWritten(Array(Texts(values)), accepts);
  }

  ghost predicate Flat(v: Value, accepts: seq<byte> -> bool)
  {
    Height(v) <= 1 && Numbers(v, accepts)
  }

  lemma {:induction false} TextsFlat(values: seq<seq<scalar>>, accepts: seq<byte> -> bool)
    ensures forall i :: 0 <= i < |values| ==> Flat(Texts(values)[i], accepts)
  {
    if values != [] {
      TextsFlat(values[..|values| - 1], accepts);
    }
  }

  lemma {:induction false} AllFlat(items: seq<Value>, accepts: seq<byte> -> bool)
    requires forall i :: 0 <= i < |items| ==> Flat(items[i], accepts)
    ensures ItemsHeight(items) <= 1 && ItemNumbers(items, accepts)
  {
    hide Height, Numbers;
    if items != [] {
      assert Flat(items[0], accepts);
      forall i | 0 <= i < |items[1..]|
        ensures Flat(items[1..][i], accepts)
      {
        assert Flat(items[i + 1], accepts);
      }
      AllFlat(items[1..], accepts);
    }
  }

  /** A name of the format's own. */
  function Name(s: string): (t: seq<scalar>)
    ensures |t| == |s| && forall i :: 0 <= i < |s| ==> t[i] == s[i] as int
  {
    seq(|s|, i requires 0 <= i < |s| => s[i] as int)
  }

  /** A characteristic as an object of three fields. */
  function CharacteristicValue(c: Characteristic): Value
  {
    Object([(Name("variable"), String(c.variable)), (Name("name"), String(c.name)), (Name("value"), String(c.value))])
  }

  function CharacteristicValues(chars: seq<Characteristic>): (r: seq<Value>)
    ensures |r| == |chars|
  {
    if chars == [] then [] else
    CharacteristicValues(chars[..|chars| - 1]) + [CharacteristicValue(chars[|chars| - 1])]
  }

  /** Append a field whose value is text. */
  method PutField(out: seq<byte>, name: seq<scalar>, value: seq<scalar>) returns (now: seq<byte>)
    ensures now == out + WrittenField((name, String(value)))
  {
    hide Quoted;
    now := PutString(out, name);
    now := now + [COLON];
    now := PutString(now, value);
    assert out + Quoted(name) + [COLON] + Quoted(value) == out + (Quoted(name) + [COLON] + Quoted(value));
  }

  method PutCharacteristic(out: seq<byte>, c: Characteristic) returns (now: seq<byte>)
    ensures now == out + Written(CharacteristicValue(c))
  {
    hide WrittenField, Name;
    now := PutField(out + [OPEN_BRACE], Name("variable"), c.variable);
    now := PutField(now + [COMMA], Name("name"), c.name);
    now := PutField(now + [COMMA], Name("value"), c.value);
    now := now + [CLOSE_BRACE];
    ThreeFields((Name("variable"), String(c.variable)), (Name("name"), String(c.name)), (Name("value"), String(c.value)));
  }

  lemma ThreeFields(a: (seq<scalar>, Value), b: (seq<scalar>, Value), c: (seq<scalar>, Value))
    ensures Written(Object([a, b, c]))
         == [OPEN_BRACE] + WrittenField(a) + [COMMA] + WrittenField(b) + [COMMA] + WrittenField(c) + [CLOSE_BRACE]
  {
    hide WrittenField;
    assert [a, b, c][1..] == [b, c] && [b, c][1..] == [c];
    assert WrittenFields([c]) == WrittenField(c);
    assert WrittenFields([b, c]) == WrittenField(b) + [COMMA] + WrittenFields([c]);
    assert WrittenFields([a, b, c]) == WrittenField(a) + [COMMA] + WrittenFields([b, c]);
  }

  method Characteristics(chars: seq<Characteristic>) returns (out: seq<byte>)
    ensures out == Written(Array(CharacteristicValues(chars)))
  {
    hide CharacteristicValue, WrittenItems, WrittenFields;
    out := [OPEN];
    var i := 0;
    NoItems();
    while i < |chars|
      invariant i <= |chars| && out == [OPEN] + WrittenItems(CharacteristicValues(chars[..i]))
    {
      assert chars[..i + 1][..i] == chars[..i];
      ItemsPush(CharacteristicValues(chars[..i]), CharacteristicValue(chars[i]));
      if i > 0 {
        out := out + [COMMA];
      }
      out := PutCharacteristic(out, chars[i]);
      i := i + 1;
    }
    assert chars[..i] == chars;
    out := out + [CLOSE];
  }

  lemma NoItems()
    ensures WrittenItems([]) == []
  {}

  lemma {:induction false} CharacteristicsFlat(chars: seq<Characteristic>, accepts: seq<byte> -> bool)
    ensures forall i :: 0 <= i < |chars| ==> Flat(CharacteristicValues(chars)[i], accepts)
  {
    if chars != [] {
      CharacteristicsFlat(chars[..|chars| - 1], accepts);
      ObjectFlat(chars[|chars| - 1], accepts);
    }
  }

  lemma ObjectFlat(c: Characteristic, accepts: seq<byte> -> bool)
    ensures Flat(CharacteristicValue(c), accepts)
  {
    TextFields(CharacteristicValue(c).fields, accepts);
  }

  lemma {:induction false} TextFields(fields: seq<(seq<scalar>, Value)>, accepts: seq<byte> -> bool)
    requires forall i :: 0 <= i < |fields| ==> fields[i].1.String?
    ensures FieldsHeight(fields) == 0 && FieldNumbers(fields, accepts)
  {
    if fields != [] {
      TextFields(fields[1..], accepts);
      assert FieldHeight(fields[0]) == 0 && FieldNumber(fields[0], accepts);
    }
  }

  /** Reading back what was written of characteristics gives their objects. */
  lemma CharacteristicsRoundTrip(chars: seq<Characteristic>, accepts: seq<byte> -> bool)
    ensures Parse(Written(Array(CharacteristicValues(chars))), accepts)
         == Ok(Array(CharacteristicValues(chars)), |Written(Array(CharacteristicValues(chars)))|)
  {
    hide Written, Parse;
    CharacteristicsFlat(chars, accepts);
    AllFlat(CharacteristicValues(chars), accepts);
    ParseWritten(Array(CharacteristicValues(chars)), accepts);
  }
}
