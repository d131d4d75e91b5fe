/** Parsing inverts printing, and every parsed value prints and parses back. */
module JsonProof {
  import opened Common
  import opened Decimal
  import opened Json

  /** `b` holds `part` at `pos`. */
  predicate Has(b: string, pos: nat, part: string) {
    pos + |part| <= |b| && b[pos..pos + |part|] == part
  }

  lemma HasConcat(b: string, pos: nat, x: string, y: string)
    ensures Has(b, pos, x + y) <==> Has(b, pos, x) && Has(b, pos + |x|, y)
  {
    if pos + |x| + |y| <= |b| {
      var whole := b[pos..pos + |x + y|];
      assert whole[..|x|] == b[pos..pos + |x|];
      assert whole[|x|..] == b[pos + |x|..pos + |x| + |y|];
      assert whole == whole[..|x|] + whole[|x|..];
      assert (x + y)[..|x|] == x && (x + y)[|x|..] == y;
    }
  }

  lemma HasAt(b: string, pos: nat, part: string, i: nat)
    requires Has(b, pos, part) && i < |part|
    ensures pos + i < |b| && b[pos + i] == part[i]
  {
    assert b[pos..pos + |part|][i] == part[i];
  }

  // ---------------------------------------------------------------------------------------------
  // Strings

  lemma EscapeBack(b: string, pos: nat, c: char, out: string)
    requires Has(b, pos, Escape(c))
    ensures ParseChars(b, pos, out) == ParseChars(b, pos + |Escape(c)|, out + [c])
  {
    HasAt(b, pos, Escape(c), 0);
    if |Escape(c)| == 2 { HasAt(b, pos, Escape(c), 1); }
  }

  lemma {:induction false} CharsBack(b: string, pos: nat, s: string, out: string)
    requires Has(b, pos, Escaped(s) + "\"")
    ensures ParseChars(b, pos, out) == Some((out + s, pos + |Escaped(s)| + 1))
    decreases |s|
  {
    hide Escape, Has;
    HasConcat(b, pos, Escaped(s), "\"");
    if s == [] {
      HasAt(b, pos, "\"", 0);
      assert out + s == out;
    } else {
      var e, rest := Escape(s[0]), Escaped(s[1..]);
      HasConcat(b, pos, e, rest);
      EscapeBack(b, pos, s[0], out);
      HasConcat(b, pos + |e|, rest, "\"");
      CharsBack(b, pos + |e|, s[1..], out + [s[0]]);
      assert out + [s[0]] + s[1..] == out + s;
    }
  }

  // ---------------------------------------------------------------------------------------------
  // Numbers

  lemma IntBack(n: int)
    requires FitsI64(n)
    ensures ParseInt(IntText(n)) == Some(n)
  {
    if n < 0 {
      DigitsBack(-n);
      assert IntText(n)[1..] == Digits(-n);
    } else {
      DigitsBack(n);
      assert Digit(Digits(n)[0]);
    }
  }

  predicate IntChar(c: char) { Digit(c) || c == '-' }

  lemma IntChars(n: int)
    ensures IntText(n) != [] && (forall i :: 0 <= i < |IntText(n)| ==> IntChar(IntText(n)[i]))
  {
    if n < 0 { DigitsBack(-n); } else { DigitsBack(n); }
  }

  /** A value is followed by the end, a comma or a closing bracket. */
  predicate Stops(b: string, pos: nat) {
    pos == |b| || (pos < |b| && (b[pos] == ',' || b[pos] == ']' || b[pos] == '}'))
  }

  lemma {:induction false} NumberEndIs(b: string, pos: nat, text: string)
    requires Has(b, pos, text) && (forall i :: 0 <= i < |text| ==> IntChar(text[i])) && Stops(b, pos + |text|)
    ensures NumberEnd(b, pos) == pos + |text|
    decreases |text|
  {
    if text != [] {
      HasAt(b, pos, text, 0);
      assert text == [text[0]] + text[1..];
      HasConcat(b, pos, [text[0]], text[1..]);
      NumberEndIs(b, pos + 1, text[1..]);
    }
  }

  lemma NumberBack(b: string, pos: nat, n: int)
    requires FitsI64(n) && Has(b, pos, IntText(n)) && Stops(b, pos + |IntText(n)|)
    ensures ParseNumber(b, pos) == Some((VInt(n), pos + |IntText(n)|))
  {
    hide IntText;
    IntChars(n);
    NumberEndIs(b, pos, IntText(n));
    IntBack(n);
  }

  // ---------------------------------------------------------------------------------------------
  // Values

  predicate KeySorted(s: seq<Attr>) {
    forall i, j :: 0 <= i < j < |s| ==> KeyLess(s[i].key, s[j].key)
  }

  /** Built from integers, booleans, null, strings, lists and strictly key-sorted sets. */
  predicate Plain(v: Value) {
    match v
    case VInt(n) => FitsI64(n)
    case VBool(_) => true
    case VNull => true
    case VStr(_) => true
    case VList(items) => forall i :: 0 <= i < |items| ==> Plain(items[i])
    case VSet(attrs) => KeySorted(attrs) && forall i :: 0 <= i < |attrs| ==> Plain(attrs[i].value)
    case _ => false
  }

  lemma {:induction false} KeyIrreflexive(a: string)
    ensures !KeyLess(a, a)
  {
    if a != [] { KeyIrreflexive(a[1..]); }
  }

  lemma {:induction false} UpsertNew(out: seq<Attr>, k: string, v: Value)
    requires forall i :: 0 <= i < |out| ==> KeyLess(out[i].key, k)
    ensures Upsert(out, k, v) == out + [Attr(k, v)]
  {
    if out != [] {
      KeyIrreflexive(k);
      assert KeyLess(out[0].key, k);
      assert forall i :: 0 <= i < |out[1..]| ==> out[1..][i] == out[i + 1];
      UpsertNew(out[1..], k, v);
      assert out == [out[0]] + out[1..];
    }
  }

  lemma {:induction false} KeyAntisymmetric(a: string, b: string)
    requires KeyLess(a, b)
    ensures !KeyLess(b, a)
  {
    if a != [] && a[0] == b[0] { KeyAntisymmetric(a[1..], b[1..]); }
  }

  lemma {:induction false} SortSorted(s: seq<Attr>)
    requires KeySorted(s)
    ensures SortAttrs(s) == s
  {
    if s != [] {
      SortSorted(s[1..]);
      if |s| > 1 {
        assert s[1..][0] == s[1];
        assert KeyLess(s[0].key, s[1].key);
        KeyAntisymmetric(s[0].key, s[1].key);
      }
      assert s == [s[0]] + s[1..];
    }
  }

  /** A printed value starts with a character that picks its parser. */
  lemma Starts(v: Value)
    requires Plain(v) && Print(v).Ok?
    ensures Print(v).value != [] && !Blank(Print(v).value[0])
    ensures Print(v).value[0] != ']' && Print(v).value[0] != '}'
  {
    if v.VInt? { IntChars(v.n); }
  }

  lemma SkipNone(b: string, pos: nat)
    requires pos < |b| ==> !Blank(b[pos])
    ensures SkipWs(b, pos) == pos
  {
  }

  lemma {:induction false} PrintsAll(v: Value)
    requires Plain(v)
    ensures Print(v).Ok?
    decreases v, 0
  {
    match v
    case VList(items) => PrintsItems(items);
    case VSet(attrs) => PrintsAttrs(attrs);
    case _ =>
  }

  lemma {:induction false} PrintsItems(items: seq<Value>)
    requires forall i :: 0 <= i < |items| ==> Plain(items[i])
    ensures PrintItems(items).Ok?
    decreases items, 1
  {
    if items != [] {
      PrintsAll(items[0]);
      PrintsItems(items[1..]);
    }
  }

  lemma {:induction false} PrintsAttrs(attrs: seq<Attr>)
    requires forall i :: 0 <= i < |attrs| ==> Plain(attrs[i].value)
    ensures PrintAttrs(attrs).Ok?
    decreases attrs, 1
  {
    if attrs != [] {
      PrintsAll(attrs[0].value);
      PrintsAttrs(attrs[1..]);
    }
  }

  /** Parsing at a printed value answers it and stops right after it. */
  lemma {:induction false} ValueBack(b: string, pos: nat, v: Value)
    requires Plain(v) && Print(v).Ok? && Has(b, pos, Print(v).value) && Stops(b, pos + |Print(v).value|)
    ensures pos <= |b| && ParseValue(b, pos) == Some((v, pos + |Print(v).value|))
    decreases v, 0
  {
    hide Has, Stops, ParseArray, ParseObject, ParseNumber, ParseChars;
    HasBound(b, pos, Print(v).value);
    Starts(v);
    HasAt(b, pos, Print(v).value, 0);
    SkipNone(b, pos);
    match v
    case VInt(n) => IntStart(n); NumberBack(b, pos, n);
    case VBool(x) => LitBack(b, pos, if x then "true" else "false", v);
    case VNull => LitBack(b, pos, "null", v);
    case VStr(s) =>
      HasConcat(b, pos, "\"", Escaped(s) + "\"");
      CharsBack(b, pos + 1, s, "");
      assert "" + s == s;
    case VList(items) => ArrayBack(b, pos, items);
    case VSet(attrs) => ObjectBack(b, pos, attrs);
  }

  lemma HasBound(b: string, pos: nat, part: string)
    requires Has(b, pos, part)
    ensures pos + |part| <= |b|
  {
  }

  lemma IntStart(n: int)
    ensures IntText(n) != [] && IntChar(IntText(n)[0])
  {
    IntChars(n);
  }

  lemma LitBack(b: string, pos: nat, lit: string, v: Value)
    requires Has(b, pos, lit)
    ensures ParseLit(b, pos, lit, v) == Some((v, pos + |lit|))
  {
  }

  lemma {:induction false} ArrayBack(b: string, pos: nat, items: seq<Value>)
    requires forall i :: 0 <= i < |items| ==> Plain(items[i])
    requires PrintItems(items).Ok? && Has(b, pos, "[" + (PrintItems(items).value + "]"))
    ensures pos < |b| && ParseArray(b, pos) == Some((VList(items), pos + |PrintItems(items).value| + 2))
    decreases items, 2
  {
    hide Has, Stops, Plain, Print, ParseValue;
    var body := PrintItems(items).value;
    HasBound(b, pos, "[" + (body + "]"));
    HasConcat(b, pos, "[", body + "]");
    HasConcat(b, pos + 1, body, "]");
    if items == [] {
      HasAt(b, pos + 1, "]", 0);
      SkipNone(b, pos + 1);
    } else {
      FirstItem(items);
      HasAt(b, pos + 1, body, 0);
      SkipNone(b, pos + 1);
      ItemsBack(b, pos + 1, items, []);
      assert [] + items == items;
    }
  }

  lemma FirstItem(items: seq<Value>)
    requires items != [] && Plain(items[0]) && PrintItems(items).Ok?
    ensures PrintItems(items).value != [] && !Blank(PrintItems(items).value[0]) && PrintItems(items).value[0] != ']'
  {
    Starts(items[0]);
  }

  lemma StopsAt(b: string, pos: nat, c: char)
    requires Has(b, pos, [c]) && (c == ',' || c == ']' || c == '}')
    ensures pos < |b| && b[pos] == c && Stops(b, pos) && SkipWs(b, pos) == pos
  {
    HasAt(b, pos, [c], 0);
  }

  lemma {:induction false} ItemsBack(b: string, pos: nat, items: seq<Value>, out: seq<Value>)
    requires items != [] && (forall i :: 0 <= i < |items| ==> Plain(items[i]))
    requires PrintItems(items).Ok? && Has(b, pos, PrintItems(items).value) &&
      Has(b, pos + |PrintItems(items).value|, "]")
    ensures pos <= |b| && ParseItems(b, pos, out) == Some((VList(out + items), pos + |PrintItems(items).value| + 1))
    decreases items, 1
  {
    hide Has, Stops, Plain, Print, ParseValue, SkipWs;
    var first := Print(items[0]).value;
    var end := pos + |first|;
    HasBound(b, pos, PrintItems(items).value);
    if |items| == 1 {
      StopsAt(b, end, ']');
      ValueBack(b, pos, items[0]);
      assert items == [items[0]];
    } else {
      var rest := PrintItems(items[1..]).value;
      HasConcat(b, pos, first, "," + rest);
      HasConcat(b, end, ",", rest);
      StopsAt(b, end, ',');
      ValueBack(b, pos, items[0]);
      ItemsBack(b, end + 1, items[1..], out + [items[0]]);
      assert out + [items[0]] + items[1..] == out + items;
    }
  }

  lemma {:induction false} ObjectBack(b: string, pos: nat, attrs: seq<Attr>)
    requires KeySorted(attrs) && forall i :: 0 <= i < |attrs| ==> Plain(attrs[i].value)
    requires PrintAttrs(attrs).Ok? && Has(b, pos, "{" + (PrintAttrs(attrs).value + "}"))
    ensures pos < |b| && ParseObject(b, pos) == Some((VSet(attrs), pos + |PrintAttrs(attrs).value| + 2))
    decreases attrs, 3
  {
    hide Has, Stops, Plain, Print, ParseValue, KeySorted;
    var body := PrintAttrs(attrs).value;
    HasBound(b, pos, "{" + (body + "}"));
    HasConcat(b, pos, "{", body + "}");
    HasConcat(b, pos + 1, body, "}");
    if attrs == [] {
      HasAt(b, pos + 1, "}", 0);
      SkipNone(b, pos + 1);
    } else {
      assert body[0] == '\"';
      HasAt(b, pos + 1, body, 0);
      SkipNone(b, pos + 1);
      AttrsBack(b, pos + 1, attrs, 0);
      assert attrs[0..] == attrs && attrs[..0] == [];
    }
  }

  lemma AttrBack(b: string, pos: nat, a: Attr, first: string)
    requires Plain(a.value) && Print(a.value) == Ok(first)
    requires Has(b, pos, PrintStr(a.key) + (":" + first)) && Stops(b, pos + |PrintStr(a.key)| + 1 + |first|)
    ensures pos <= |b| && ParseAttr(b, pos) == Some((a, pos + |PrintStr(a.key)| + 1 + |first|))
    decreases a.value, 1
  {
    hide Has, Stops, Plain, Print, ParseValue, ParseChars;
    var key := PrintStr(a.key);
    HasConcat(b, pos, key, ":" + first);
    HasConcat(b, pos + |key|, ":", first);
    HasConcat(b, pos, "\"", Escaped(a.key) + "\"");
    HasAt(b, pos, key, 0);
    SkipNone(b, pos);
    CharsBack(b, pos + 1, a.key, "");
    assert "" + a.key == a.key;
    HasAt(b, pos + |key|, ":", 0);
    SkipNone(b, pos + |key|);
    ValueBack(b, pos + |key| + 1, a.value);
  }

  lemma UpsertNext(attrs: seq<Attr>, k: nat)
    requires k < |attrs| && KeySorted(attrs)
    ensures Upsert(attrs[..k], attrs[k].key, attrs[k].value) == attrs[..k + 1]
  {
    hide KeyLess, Upsert;
    UpsertNew(attrs[..k], attrs[k].key, attrs[k].value);
    assert attrs[..k] + [attrs[k]] == attrs[..k + 1];
  }

  /** The attributes from `k` on, after the first `k` were read. */
  lemma {:induction false} AttrsBack(b: string, pos: nat, attrs: seq<Attr>, k: nat)
    requires k < |attrs| && KeySorted(attrs) && forall i :: 0 <= i < |attrs| ==> Plain(attrs[i].value)
    requires PrintAttrs(attrs[k..]).Ok? && Has(b, pos, PrintAttrs(attrs[k..]).value) &&
      Has(b, pos + |PrintAttrs(attrs[k..]).value|, "}")
    ensures pos <= |b| && ParseAttrs(b, pos, attrs[..k]) ==
      Some((VSet(attrs), pos + |PrintAttrs(attrs[k..]).value| + 1))
    decreases attrs, 2, |attrs| - k
  {
    hide Has, Stops, Plain, Print, ParseAttr, SkipWs, PrintStr, Upsert, KeySorted, SortAttrs;
    var a := attrs[k];
    var first := Print(a.value).value;
    var entry := PrintStr(a.key) + (":" + first);
    var end := pos + |entry|;
    HasBound(b, pos, PrintAttrs(attrs[k..]).value);
    UpsertNext(attrs, k);
    if k + 1 == |attrs| {
      assert attrs[..k + 1] == attrs && |attrs[k..]| == 1;
      StopsAt(b, end, '}');
      AttrBack(b, pos, a, first);
      SortSorted(attrs);
    } else {
      assert attrs[k..][1..] == attrs[k + 1..];
      var rest := PrintAttrs(attrs[k + 1..]).value;
      HasConcat(b, pos, entry, "," + rest);
      HasConcat(b, end, ",", rest);
      StopsAt(b, end, ',');
      AttrBack(b, pos, a, first);
      AttrsBack(b, end + 1, attrs, k + 1);
    }
  }

  /** Printing then parsing gives the value back, with all input consumed. */
  lemma JsonRoundTrip(v: Value)
    requires Plain(v)
    ensures ToJson(v).Ok? && FromJson(ToJson(v).value) == Some(v)
  {
    hide Print, ParseValue;
    PrintsAll(v);
    var s := Print(v).value;
    assert Has(s, 0, s) && Stops(s, |s|);
    ValueBack(s, 0, v);
  }

  // ---------------------------------------------------------------------------------------------
  // Whatever is parsed is well formed

  predicate AllDigits(s: string) { forall i :: 0 <= i < |s| ==> Digit(s[i]) }

  predicate SignText(s: string) { s == "" || s == "-" || s == "+" }

  /** The text splits into a sign, digits, a point with more digits, and an exponent, with a digit outside the last. */
  ghost predicate FloatShape(s: string) {
    exists a, d, f :: 0 <= a <= d <= f <= |s| && FloatCut(s, a, d, f)
  }

  ghost predicate FloatCut(s: string, a: nat, d: nat, f: nat)
    requires a <= d <= f <= |s|
  {
    && SignText(s[..a]) && AllDigits(s[a..d])
    && (f == d || (s[d] == '.' && AllDigits(s[d + 1..f])))
    && (a < d || d + 1 < f)
    && (f == |s| || ExponentShape(s, f))
  }

  ghost predicate ExponentShape(s: string, f: nat)
    requires f < |s|
  {
    (s[f] == 'e' || s[f] == 'E') && exists k :: f + 1 <= k < |s| && SignText(s[f + 1..k]) && AllDigits(s[k..|s|])
  }

  lemma {:induction false} DigitRunIs(s: string, pos: nat, end: nat)
    requires pos <= end <= |s| && AllDigits(s[pos..end]) && (end < |s| ==> !Digit(s[end]))
    ensures DigitRun(s, pos) == end
    decreases end - pos
  {
    if pos < end {
      assert s[pos..end][0] == s[pos];
      assert s[pos + 1..end] == s[pos..end][1..];
      DigitRunIs(s, pos + 1, end);
    }
  }

  lemma {:induction false} DigitRunDigits(s: string, pos: nat)
    requires pos <= |s|
    ensures AllDigits(s[pos..DigitRun(s, pos)])
    decreases |s| - pos
  {
    if pos < |s| && Digit(s[pos]) {
      DigitRunDigits(s, pos + 1);
      var e := DigitRun(s, pos);
      assert s[pos..e] == [s[pos]] + s[pos + 1..e];
    }
  }

  lemma SignIs(s: string, pos: nat)
    requires pos <= |s|
    ensures SignText(s[pos..SignEnd(s, pos)])
  {
  }

  /** A sign is what is read as one, if no second sign follows. */
  lemma SignBack(s: string, pos: nat, end: nat)
    requires pos <= end <= |s| && SignText(s[pos..end]) && (end < |s| ==> s[end] != '-' && s[end] != '+')
    ensures SignEnd(s, pos) == end
  {
    if pos < end { assert s[pos..end][0] == s[pos]; }
  }

  lemma ExponentExact(s: string, f: nat)
    requires f < |s|
    ensures ExponentAt(s, f) <==> ExponentShape(s, f)
  {
    hide SignText, AllDigits;
    if ExponentAt(s, f) {
      SignIs(s, f + 1);
      DigitRunDigits(s, SignEnd(s, f + 1));
    }
    if ExponentShape(s, f) {
      var k :| f + 1 <= k < |s| && SignText(s[f + 1..k]) && AllDigits(s[k..|s|]);
      FirstDigit(s, k, |s|);
      SignBack(s, f + 1, k);
      DigitRunIs(s, k, |s|);
    }
  }

  lemma FirstDigit(s: string, pos: nat, end: nat)
    requires pos < end <= |s| && AllDigits(s[pos..end])
    ensures Digit(s[pos])
  {
    assert s[pos..end][0] == s[pos];
  }

  lemma FloatTextCut(s: string)
    requires FloatText(s)
    ensures FloatShape(s)
  {
    hide SignText, AllDigits, ExponentAt, ExponentShape, DigitRun, SignEnd;
    var a := SignEnd(s, 0);
    var d := DigitRun(s, a);
    var f := if d < |s| && s[d] == '.' then DigitRun(s, d + 1) else d;
    SignIs(s, 0);
    assert s[0..a] == s[..a];
    DigitRunDigits(s, a);
    if f > d { DigitRunDigits(s, d + 1); }
    if f < |s| { ExponentExact(s, f); }
    assert FloatCut(s, a, d, f);
  }

  lemma FloatCutText(s: string, a: nat, d: nat, f: nat)
    requires a <= d <= f <= |s| && FloatCut(s, a, d, f)
    ensures FloatText(s)
  {
    hide SignText, AllDigits, ExponentAt, DigitRun, SignEnd;
    assert s[0..a] == s[..a];
    if a < d { FirstDigit(s, a, d); }
    SignBack(s, 0, a);
    DigitRunIs(s, a, d);
    if d < f { DigitRunIs(s, d + 1, f); }
    if f < |s| { ExponentExact(s, f); }
  }

  /** The float test accepts exactly the decimal float grammar. */
  lemma FloatTextExact(s: string)
    ensures FloatText(s) <==> FloatShape(s)
  {
    hide FloatText, FloatCut;
    if FloatText(s) { FloatTextCut(s); }
    if FloatShape(s) {
      var a, d, f :| 0 <= a <= d <= f <= |s| && FloatCut(s, a, d, f);
      FloatCutText(s, a, d, f);
    }
  }

  /** As `Plain`, with floats and without functions and paths: what the parser can answer. */
  ghost predicate Parsed(v: Value) {
    match v
    case VInt(n) => FitsI64(n)
    case VFloat(text) => FloatShape(text)
    case VList(items) => forall i :: 0 <= i < |items| ==> Parsed(items[i])
    case VSet(attrs) => KeySorted(attrs) && forall i :: 0 <= i < |attrs| ==> Parsed(attrs[i].value)
    case VFun => false
    case VPath(_) => false
    case _ => true
  }

  predicate NoFloats(v: Value) {
    match v
    case VFloat(_) => false
    case VList(items) => forall i :: 0 <= i < |items| ==> NoFloats(items[i])
    case VSet(attrs) => forall i :: 0 <= i < |attrs| ==> NoFloats(attrs[i].value)
    case _ => true
  }

  lemma {:induction false} ParsedPlain(v: Value)
    requires Parsed(v) && NoFloats(v)
    ensures Plain(v)
  {
    match v
    case VList(items) =>
      forall i | 0 <= i < |items|
        ensures Plain(items[i])
      {
        ParsedPlain(items[i]);
      }
    case VSet(attrs) =>
      forall i | 0 <= i < |attrs|
        ensures Plain(attrs[i].value)
      {
        ParsedPlain(attrs[i].value);
      }
    case _ =>
  }

  lemma {:induction false} KeyTotal(a: string, b: string)
    requires a != b
    ensures KeyLess(a, b) || KeyLess(b, a)
  {
    if a != [] && b != [] && a[0] == b[0] {
      assert a == [a[0]] + a[1..] && b == [b[0]] + b[1..];
      KeyTotal(a[1..], b[1..]);
    }
  }

  lemma {:induction false} KeyTransitive(a: string, b: string, c: string)
    requires KeyLess(a, b) && KeyLess(b, c)
    ensures KeyLess(a, c)
  {
    if a != [] && a[0] == b[0] && b[0] == c[0] { KeyTransitive(a[1..], b[1..], c[1..]); }
  }

  ghost predicate Fine(s: seq<Attr>) { forall i :: 0 <= i < |s| ==> Parsed(s[i].value) }

  predicate HasKey(s: seq<Attr>, k: string) { exists i :: 0 <= i < |s| && s[i].key == k }

  predicate DistinctKeys(s: seq<Attr>) { s == [] || (!HasKey(s[1..], s[0].key) && DistinctKeys(s[1..])) }

  lemma HasKeyCons(a: Attr, s: seq<Attr>, k: string)
    ensures HasKey([a] + s, k) <==> a.key == k || HasKey(s, k)
  {
    if i :| 0 <= i < |s| && s[i].key == k { assert ([a] + s)[i + 1].key == k; }
    if a.key == k { assert ([a] + s)[0].key == k; }
  }

  lemma {:induction false} UpsertKeeps(out: seq<Attr>, k: string, v: Value, other: string)
    requires DistinctKeys(out)
    ensures DistinctKeys(Upsert(out, k, v))
    ensures HasKey(Upsert(out, k, v), other) <==> other == k || HasKey(out, other)
    decreases |out|
  {
    hide HasKey;
    if out == [] {
      HasKeyCons(Attr(k, v), [], other);
      assert [Attr(k, v)] + [] == [Attr(k, v)];
      NoKey(other);
      NoKey(k);
    } else {
      var rest := out[1..];
      assert out == [out[0]] + rest;
      HasKeyCons(out[0], rest, other);
      if out[0].key == k {
        HasKeyCons(Attr(k, v), rest, other);
      } else {
        UpsertKeeps(rest, k, v, other);
        UpsertKeeps(rest, k, v, out[0].key);
        HasKeyCons(out[0], Upsert(rest, k, v), other);
      }
    }
  }

  /** An entry after an upsert is the new one or an old one of another key. */
  lemma {:induction false} UpsertEntries(out: seq<Attr>, k: string, v: Value, a: Attr)
    requires a in Upsert(out, k, v) && DistinctKeys(out)
    ensures a == Attr(k, v) || (a in out && a.key != k)
    decreases |out|
  {
    if out != [] {
      assert out == [out[0]] + out[1..];
      if out[0].key == k {
        if a != Attr(k, v) {
          var i :| 0 <= i < |out[1..]| && out[1..][i] == a;
          assert !HasKey(out[1..], k);
        }
      } else if a != out[0] {
        UpsertEntries(out[1..], k, v, a);
      }
    }
  }

  lemma NoKey(k: string)
    ensures !HasKey([], k)
  {
  }

  lemma {:induction false} InsertKeeps(x: Attr, s: seq<Attr>, other: string)
    requires KeySorted(s) && !HasKey(s, x.key)
    ensures KeySorted(InsertAttr(x, s))
    ensures HasKey(InsertAttr(x, s), other) <==> other == x.key || HasKey(s, other)
    decreases |s|
  {
    hide KeyLess;
    if s == [] {
      HasKeyCons(x, [], other);
      assert [x] + [] == [x];
    } else if KeyLess(s[0].key, x.key) {
      var rest := s[1..];
      assert s == [s[0]] + rest;
      HasKeyCons(s[0], rest, x.key);
      HasKeyCons(s[0], rest, other);
      InsertKeeps(x, rest, other);
      var t := InsertAttr(x, rest);
      HasKeyCons(s[0], t, other);
      forall j | 0 <= j < |t|
        ensures KeyLess(s[0].key, t[j].key)
      {
        InsertKeeps(x, rest, t[j].key);
        assert HasKey(t, t[j].key);
        if t[j].key != x.key {
          var i :| 0 <= i < |rest| && rest[i].key == t[j].key;
          assert s[i + 1] == rest[i];
        }
      }
    } else {
      HasKeyCons(x, s, other);
      assert HasKey(s, s[0].key);
      KeyTotal(s[0].key, x.key);
      forall j | 0 <= j < |s|
        ensures KeyLess(x.key, s[j].key)
      {
        if j > 0 { KeyTransitive(x.key, s[0].key, s[j].key); }
      }
    }
  }

  lemma {:induction false} SortKeeps(s: seq<Attr>, other: string)
    requires DistinctKeys(s)
    ensures KeySorted(SortAttrs(s))
    ensures HasKey(SortAttrs(s), other) <==> HasKey(s, other)
    decreases |s|
  {
    hide HasKey, KeySorted;
    if s == [] {
      EmptySorted();
    } else {
      assert s == [s[0]] + s[1..];
      HasKeyCons(s[0], s[1..], other);
      SortKeeps(s[1..], other);
      SortKeeps(s[1..], s[0].key);
      InsertKeeps(s[0], SortAttrs(s[1..]), other);
    }
  }

  /** Sorting keeps every entry, key and value together. */
  lemma {:induction false} SortPermutes(s: seq<Attr>)
    ensures multiset(SortAttrs(s)) == multiset(s)
  {
    if s != [] {
      SortPermutes(s[1..]);
      InsertPermutes(s[0], SortAttrs(s[1..]));
      assert s == [s[0]] + s[1..];
    }
  }

  lemma {:induction false} InsertPermutes(x: Attr, s: seq<Attr>)
    ensures multiset(InsertAttr(x, s)) == multiset(s) + multiset{x}
  {
    if s != [] && KeyLess(s[0].key, x.key) {
      InsertPermutes(x, s[1..]);
      assert s == [s[0]] + s[1..];
    }
  }

  lemma SortEntries(s: seq<Attr>, a: Attr)
    ensures a in SortAttrs(s) <==> a in s
  {
    SortPermutes(s);
    assert a in SortAttrs(s) <==> a in multiset(SortAttrs(s));
    assert a in s <==> a in multiset(s);
  }

  lemma EmptySorted()
    ensures KeySorted([])
  {
  }

  lemma NumberParsed(b: string, pos: nat)
    requires pos <= |b|
    ensures ParseNumber(b, pos).Some? ==> Parsed(ParseNumber(b, pos).value.0)
  {
    hide FloatShape, FloatText;
    FloatTextExact(b[pos..NumberEnd(b, pos)]);
  }

  /** The parser answers only well-formed values: numbers of their grammar and range, sets strictly sorted by key. */
  lemma {:induction false} ParseParsed(b: string, pos: nat)
    requires pos <= |b| && ParseValue(b, pos).Some?
    ensures Parsed(ParseValue(b, pos).value.0)
    decreases |b| - pos, 1
  {
    hide ParseItems, ParseAttrs, ParseNumber, FloatShape;
    var p := SkipWs(b, pos);
    if b[p] == '-' || Digit(b[p]) {
      NumberParsed(b, p);
    } else if b[p] == '{' {
      var q := SkipWs(b, p + 1);
      if !(q < |b| && b[q] == '}') { AttrsParsed(b, q, []); }
    } else if b[p] == '[' {
      var q := SkipWs(b, p + 1);
      if !(q < |b| && b[q] == ']') { ItemsParsed(b, q, []); }
    }
  }

  lemma {:induction false} ItemsParsed(b: string, pos: nat, out: seq<Value>)
    requires pos <= |b| && ParseItems(b, pos, out).Some? && forall i :: 0 <= i < |out| ==> Parsed(out[i])
    ensures Parsed(ParseItems(b, pos, out).value.0)
    decreases |b| - pos, 2
  {
    hide ParseValue;
    ParseParsed(b, pos);
    var v := ParseValue(b, pos).value;
    var p := SkipWs(b, v.1);
    if b[p] == ',' { ItemsParsed(b, p + 1, out + [v.0]); }
  }

  lemma {:induction false} AttrsParsed(b: string, pos: nat, out: seq<Attr>)
    requires pos <= |b| && ParseAttrs(b, pos, out).Some? && DistinctKeys(out) && Fine(out)
    ensures Parsed(ParseAttrs(b, pos, out).value.0)
    decreases |b| - pos, 3
  {
    hide ParseAttr, Upsert, SortAttrs, DistinctKeys, KeySorted, Parsed;
    var a := ParseAttr(b, pos).value;
    AttrParsed(b, pos);
    UpsertKeeps(out, a.0.key, a.0.value, "");
    var more := Upsert(out, a.0.key, a.0.value);
    UpsertFine(out, a.0.key, a.0.value);
    var p := SkipWs(b, a.1);
    if b[p] == ',' {
      AttrsParsed(b, p + 1, more);
    } else {
      SortKeeps(more, "");
      SortFine(more);
      ParsedSet(SortAttrs(more));
    }
  }

  lemma ParsedSet(s: seq<Attr>)
    requires KeySorted(s) && Fine(s)
    ensures Parsed(VSet(s))
  {
  }

  lemma UpsertFine(out: seq<Attr>, k: string, v: Value)
    requires DistinctKeys(out) && Fine(out) && Parsed(v)
    ensures Fine(Upsert(out, k, v))
  {
    hide Parsed, Upsert;
    var r := Upsert(out, k, v);
    forall i | 0 <= i < |r|
      ensures Parsed(r[i].value)
    {
      UpsertEntries(out, k, v, r[i]);
    }
  }

  lemma SortFine(s: seq<Attr>)
    requires Fine(s)
    ensures Fine(SortAttrs(s))
  {
    hide Parsed, SortAttrs;
    var r := SortAttrs(s);
    forall i | 0 <= i < |r|
      ensures Parsed(r[i].value)
    {
      SortEntries(s, r[i]);
    }
  }

  lemma {:induction false} AttrParsed(b: string, pos: nat)
    requires pos <= |b| && ParseAttr(b, pos).Some?
    ensures Parsed(ParseAttr(b, pos).value.0.value)
    decreases |b| - pos, 2
  {
    hide ParseValue, Parsed;
    var p := SkipWs(b, pos);
    var k := ParseChars(b, p + 1, "").value;
    var q := SkipWs(b, k.1);
    ParseParsed(b, q + 1);
  }

  /** Any document that parses without floats prints to one that parses to the same value. */
  lemma ReparseStable(s: string)
    requires FromJson(s).Some? && NoFloats(FromJson(s).value)
    ensures ToJson(FromJson(s).value).Ok? && FromJson(ToJson(FromJson(s).value).value) == FromJson(s)
  {
    hide Print, ParseValue, Parsed, NoFloats, Plain;
    var v := ParseValue(s, 0).value.0;
    ParseParsed(s, 0);
    ParsedPlain(v);
    JsonRoundTrip(v);
  }
}
