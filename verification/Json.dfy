/**
 The JSON printer and the recursive-descent parser of the value library, over characters.
 A float is carried as the text it was read from, which must be a decimal float.
 */
module Json {
  import opened Common
  import opened Decimal

  datatype Value =
    | VInt(n: int)
    | VFloat(text: string)
    | VBool(b: bool)
    | VNull
    | VStr(s: string)
    | VPath(s: string)
    | VList(items: seq<Value>)
    | VSet(attrs: seq<Attr>)
    | VFun

  datatype Attr = Attr(key: string, value: Value)

  // ---------------------------------------------------------------------------------------------
  // Printing

  function IntText(n: int): string { if n < 0 then "-" + Digits(-n) else Digits(n) }

  function Escape(c: char): (s: string)
    ensures 1 <= |s| <= 2
  {
    if c == '\"' then ['\\', '\"']
    else if c == '\\' then ['\\', '\\']
    else if c == '\n' then ['\\', 'n']
    else if c == '\r' then ['\\', 'r']
    else if c == '\t' then ['\\', 't']
    else [c]
  }

  function Escaped(s: string): string { if s == [] then [] else Escape(s[0]) + Escaped(s[1..]) }

  function PrintStr(s: string): string { "\"" + (Escaped(s) + "\"") }

  function Print(v: Value): Result<string>
    decreases v, 0
  {
    match v
    case VInt(n) => Ok(IntText(n))
    case VFloat(text) => Ok(text)
    case VBool(b) => Ok(if b then "true" else "false")
    case VNull => Ok("null")
    case VStr(s) => Ok(PrintStr(s))
    case VPath(s) => Ok(PrintStr(s))
    case VList(items) =>
      var body :- PrintItems(items);
      Ok("[" + (body + "]"))
    case VSet(attrs) =>
      var body :- PrintAttrs(attrs);
      Ok("{" + (body + "}"))
    case VFun => Err(PrimError)
  }

  function PrintItems(items: seq<Value>): Result<string>
    decreases items, 1
  {
    if items == [] then Ok("") else
    var first :- Print(items[0]);
    if |items| == 1 then Ok(first) else
    var rest :- PrintItems(items[1..]);
    Ok(first + ("," + rest))
  }

  function PrintAttrs(attrs: seq<Attr>): Result<string>
    decreases attrs, 1
  {
    if attrs == [] then Ok("") else
    var first :- Print(attrs[0].value);
    var entry := PrintStr(attrs[0].key) + (":" + first);
    if |attrs| == 1 then Ok(entry) else
    var rest :- PrintAttrs(attrs[1..]);
    Ok(entry + ("," + rest))
  }

  // ---------------------------------------------------------------------------------------------
  // Tokens

  predicate Blank(c: char) { c == ' ' || c == '\t' || c == '\n' || c == '\r' }

  function SkipWs(b: string, pos: nat): (r: nat)
    ensures pos <= r && (pos <= |b| ==> r <= |b|)
    decreases |b| - pos
  {
    if pos < |b| && Blank(b[pos]) then SkipWs(b, pos + 1) else pos
  }

  predicate Numeric(c: char) { Digit(c) || c == '-' || c == '+' || c == '.' || c == 'e' || c == 'E' }

  predicate FloatMark(c: char) { c == '.' || c == 'e' || c == 'E' }

  function NumberEnd(b: string, pos: nat): (r: nat)
    ensures pos <= r && (pos <= |b| ==> r <= |b|)
    decreases |b| - pos
  {
    if pos < |b| && Numeric(b[pos]) then NumberEnd(b, pos + 1) else pos
  }

  predicate FitsI64(n: int) { -0x8000_0000_0000_0000 <= n < 0x8000_0000_0000_0000 }

  /** A signed decimal within 64 bits. */
  function ParseInt(s: string): Option<int> {
    var neg := s != [] && s[0] == '-';
    var body := if neg || (s != [] && s[0] == '+') then s[1..] else s;
    match ParseDigits(body)
    case None => None
    case Some(n) =>
      var v: int := if neg then 0 - n else n;
      if FitsI64(v) then Some(v) else None
  }

  function DigitRun(s: string, pos: nat): (r: nat)
    requires pos <= |s|
    ensures pos <= r <= |s|
    decreases |s| - pos
  {
    if pos < |s| && Digit(s[pos]) then DigitRun(s, pos + 1) else pos
  }

  function SignEnd(s: string, pos: nat): (r: nat)
    requires pos <= |s|
    ensures pos <= r <= |s|
  {
    if pos < |s| && (s[pos] == '-' || s[pos] == '+') then pos + 1 else pos
  }

  /** An exponent that ends the text. */
  predicate ExponentAt(s: string, pos: nat) {
    && pos < |s| && (s[pos] == 'e' || s[pos] == 'E')
    && var d := SignEnd(s, pos + 1);
       d < DigitRun(s, d) == |s|
  }

  /** The decimal float texts: a sign, digits around an optional point, at least one of them, an exponent. */
  predicate FloatText(s: string) {
    var a := SignEnd(s, 0);
    var d := DigitRun(s, a);
    var f := if d < |s| && s[d] == '.' then DigitRun(s, d + 1) else d;
    (d > a || f > d + 1) && (f == |s| || ExponentAt(s, f))
  }

  function HexDigit(c: char): Option<nat> {
    if Digit(c) then Some((c as int) - ('0' as int))
    else if 'a' <= c <= 'f' then Some((c as int) - ('a' as int) + 10)
    else if 'A' <= c <= 'F' then Some((c as int) - ('A' as int) + 10)
    else None
  }

  function HexValue(s: string): (r: Option<nat>)
    ensures r.Some? && |s| == 4 ==> r.value < 0x1_0000
    ensures r.Some? && |s| == 3 ==> r.value < 0x1000
    ensures r.Some? && |s| == 2 ==> r.value < 0x100
    ensures r.Some? && |s| == 1 ==> r.value < 0x10
  {
    if s == [] then None else
    var d := HexDigit(s[|s| - 1]);
    if d.None? || |s| == 1 then d else
    match HexValue(s[..|s| - 1])
    case None => None
    case Some(n) => Some(16 * n + d.value)
  }

  /** The character after `\u`: four characters, an optional plus sign among them; a surrogate becomes U+FFFD. */
  function HexChar(b: string, pos: nat): Option<char> {
    if pos + 5 > |b| then None else
    var s := b[pos + 1..pos + 5];
    match HexValue(if s[0] == '+' then s[1..] else s)
    case None => None
    case Some(cp) => Some(if 0xD800 <= cp <= 0xDFFF then 0xFFFD as char else cp as char)
  }

  datatype Escaped1 = Escaped1(c: char, width: nat)

  /** The escape whose letter is at `pos`: its character and how many characters it takes from there. */
  function Unescape(b: string, pos: nat): (r: Option<Escaped1>)
    ensures r.Some? ==> 0 < r.value.width && pos + r.value.width <= |b|
  {
    if pos >= |b| then None else
    match b[pos]
    case '\"' => Some(Escaped1('\"', 1))
    case '\\' => Some(Escaped1('\\', 1))
    case '/' => Some(Escaped1('/', 1))
    case 'n' => Some(Escaped1('\n', 1))
    case 't' => Some(Escaped1('\t', 1))
    case 'r' => Some(Escaped1('\r', 1))
    case 'b' => Some(Escaped1(8 as char, 1))
    case 'f' => Some(Escaped1(12 as char, 1))
    case 'u' => (match HexChar(b, pos) case None => None case Some(c) => Some(Escaped1(c, 5)))
    case _ => None
  }

  /** The rest of a string literal from inside it, after the characters in `out`. */
  function ParseChars(b: string, pos: nat, out: string): (r: Option<(string, nat)>)
    ensures r.Some? ==> pos < r.value.1 <= |b|
    decreases |b| - pos
  {
    if pos >= |b| then None
    else if b[pos] == '\"' then Some((out, pos + 1))
    else if b[pos] == '\\' then
      match Unescape(b, pos + 1)
      case None => None
      case Some(e) => ParseChars(b, pos + 1 + e.width, out + [e.c])
    else ParseChars(b, pos + 1, out + [b[pos]])
  }

  // ---------------------------------------------------------------------------------------------
  // Values

  /** Character order is code point order. */
  predicate KeyLess(a: string, b: string) {
    if b == [] then false
    else if a == [] then true
    else if a[0] != b[0] then a[0] < b[0]
    else KeyLess(a[1..], b[1..])
  }

  /** A repeated key keeps its place and takes the last value. */
  function Upsert(out: seq<Attr>, k: string, v: Value): seq<Attr> {
    if out == [] then [Attr(k, v)]
    else if out[0].key == k then [Attr(k, v)] + out[1..]
    else [out[0]] + Upsert(out[1..], k, v)
  }

  function InsertAttr(x: Attr, s: seq<Attr>): seq<Attr> {
    if s == [] then [x]
    else if KeyLess(s[0].key, x.key) then [s[0]] + InsertAttr(x, s[1..])
    else [x] + s
  }

  /** A stable sort by key. */
  function SortAttrs(s: seq<Attr>): seq<Attr> {
    if s == [] then [] else InsertAttr(s[0], SortAttrs(s[1..]))
  }

  function ParseLit(b: string, pos: nat, lit: string, v: Value): Option<(Value, nat)> {
    if pos + |lit| <= |b| && b[pos..pos + |lit|] == lit then Some((v, pos + |lit|)) else None
  }

  function ParseNumber(b: string, pos: nat): Option<(Value, nat)>
    requires pos <= |b|
  {
    var end := NumberEnd(b, pos);
    var text := b[pos..end];
    if exists i :: 0 <= i < |text| && FloatMark(text[i]) then
      if FloatText(text) then Some((VFloat(text), end)) else None
    else
    match ParseInt(text)
    case None => None
    case Some(n) => Some((VInt(n), end))
  }

  function ParseValue(b: string, pos: nat): (r: Option<(Value, nat)>)
    requires pos <= |b|
    ensures r.Some? ==> pos < r.value.1 <= |b|
    decreases |b| - pos, 1
  {
    var p := SkipWs(b, pos);
    if p >= |b| then None
    else if b[p] == '{' then ParseObject(b, p)
    else if b[p] == '[' then ParseArray(b, p)
    else if b[p] == '\"' then (match ParseChars(b, p + 1, "") case None => None case Some(s) => Some((VStr(s.0), s.1)))
    else if b[p] == 't' then ParseLit(b, p, "true", VBool(true))
    else if b[p] == 'f' then ParseLit(b, p, "false", VBool(false))
    else if b[p] == 'n' then ParseLit(b, p, "null", VNull)
    else if b[p] == '-' || Digit(b[p]) then ParseNumber(b, p)
    else None
  }

  function ParseArray(b: string, pos: nat): (r: Option<(Value, nat)>)
    requires pos < |b|
    ensures r.Some? ==> pos < r.value.1 <= |b|
    decreases |b| - pos, 0
  {
    var p := SkipWs(b, pos + 1);
    if p < |b| && b[p] == ']' then Some((VList([]), p + 1)) else ParseItems(b, p, [])
  }

  /** The items of an array from a value on, after those in `out`. */
  function ParseItems(b: string, pos: nat, out: seq<Value>): (r: Option<(Value, nat)>)
    requires pos <= |b|
    ensures r.Some? ==> pos < r.value.1 <= |b|
    decreases |b| - pos, 2
  {
    match ParseValue(b, pos)
    case None => None
    case Some(v) =>
      var p := SkipWs(b, v.1);
      if p >= |b| then None
      else if b[p] == ',' then ParseItems(b, p + 1, out + [v.0])
      else if b[p] == ']' then Some((VList(out + [v.0]), p + 1))
      else None
  }

  function ParseObject(b: string, pos: nat): (r: Option<(Value, nat)>)
    requires pos < |b|
    ensures r.Some? ==> pos < r.value.1 <= |b|
    decreases |b| - pos, 0
  {
    var p := SkipWs(b, pos + 1);
    if p < |b| && b[p] == '}' then Some((VSet([]), p + 1)) else ParseAttrs(b, p, [])
  }

  /** One `key : value` of an object. */
  function ParseAttr(b: string, pos: nat): (r: Option<(Attr, nat)>)
    requires pos <= |b|
    ensures r.Some? ==> pos < r.value.1 <= |b|
    decreases |b| - pos, 2
  {
    var p := SkipWs(b, pos);
    if p >= |b| || b[p] != '\"' then None else
    match ParseChars(b, p + 1, "")
    case None => None
    case Some(k) =>
      var q := SkipWs(b, k.1);
      if q >= |b| || b[q] != ':' then None else
      match ParseValue(b, q + 1)
      case None => None
      case Some(v) => Some((Attr(k.0, v.0), v.1))
  }

  function ParseAttrs(b: string, pos: nat, out: seq<Attr>): (r: Option<(Value, nat)>)
    requires pos <= |b|
    ensures r.Some? ==> pos < r.value.1 <= |b|
    decreases |b| - pos, 3
  {
    match ParseAttr(b, pos)
    case None => None
    case Some(a) =>
      var more := Upsert(out, a.0.key, a.0.value);
      var p := SkipWs(b, a.1);
      if p >= |b| then None
      else if b[p] == ',' then ParseAttrs(b, p + 1, more)
      else if b[p] == '}' then Some((VSet(SortAttrs(more)), p + 1))
      else None
  }

  function ToJson(v: Value): Result<string> { Print(v) }

  /** A whole document: one value, blanks around it, nothing else. */
  function FromJson(s: string): Option<Value> {
    match ParseValue(s, 0)
    case None => None
    case Some(v) => if SkipWs(s, v.1) == |s| then Some(v.0) else None
  }
}
