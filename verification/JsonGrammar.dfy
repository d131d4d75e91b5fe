/**
 The documents the JSON parser reads, as a grammar. A tree records where the tokens of a text are;
 the parser answers a value exactly if the text has a tree that means it.
 */
module JsonGrammar {
  import opened Common
  import opened Decimal
  import opened Json
  import opened JsonProof

  // ---------------------------------------------------------------------------------------------
  // Strings

  /** One character of a string literal: as it is, as a one-letter escape, or as four hexadecimal characters. */
  datatype Piece = Bare(c: char) | Short(letter: char) | Code(hex: string)

  /** The one-letter escapes of section 7 of RFC 8259. */
  const ESCAPES: map<char, char> :=
    map['\"' := '\"', '\\' := '\\', '/' := '/', 'b' := 8 as char, 'f' := 12 as char, 'n' := '\n', 'r' := '\r',
        't' := '\t']

  const HEX_DIGITS: string := "0123456789abcdef"

  const HEX_CAPITALS: string := "0123456789ABCDEF"

  /** The character is the hexadecimal digit of value `d`, in either case. */
  predicate IsHex(c: char, d: nat) { d < 16 && (HEX_DIGITS[d] == c || HEX_CAPITALS[d] == c) }

  function Power(base: nat, n: nat): nat { if n == 0 then 1 else base * Power(base, n - 1) }

  /** The number written with these digits, the first one weighing most. */
  function Place(base: nat, ds: seq<nat>): nat {
    if ds == [] then 0 else ds[0] * Power(base, |ds| - 1) + Place(base, ds[1..])
  }

  ghost predicate HexSpells(text: string, n: nat) {
    exists ds: seq<nat> :: HexDigits(text, ds) && n == Place(16, ds)
  }

  predicate HexDigits(text: string, ds: seq<nat>) {
    |ds| == |text| > 0 && forall i :: 0 <= i < |ds| ==> IsHex(text[i], ds[i])
  }

  /** Four characters, the first of which may be a plus sign. */
  function CodeDigits(h: string): string { if h != [] && h[0] == '+' then h[1..] else h }

  ghost predicate CodeIs(h: string, n: nat) { |h| == 4 && HexSpells(CodeDigits(h), n) }

  /** A surrogate stands for no character of its own; it becomes the replacement character. */
  function CharOf(n: nat): char
    requires n < 0x1_0000
  {
    if 0xD800 <= n <= 0xDFFF then 0xFFFD as char else n as char
  }

  ghost predicate PieceMeans(p: Piece, c: char) {
    match p
    case Bare(x) => c == x && x != '\"' && x != '\\'
    case Short(l) => l in ESCAPES && c == ESCAPES[l]
    case Code(h) => exists n: nat :: n < 0x1_0000 && CodeIs(h, n) && c == CharOf(n)
  }

  function PieceText(p: Piece): string {
    match p
    case Bare(c) => [c]
    case Short(l) => ['\\', l]
    case Code(h) => ['\\', 'u'] + h
  }

  function PiecesText(ps: seq<Piece>): string {
    if ps == [] then [] else PieceText(ps[0]) + PiecesText(ps[1..])
  }

  ghost predicate PiecesMean(ps: seq<Piece>, s: string) {
    |ps| == |s| && forall i :: 0 <= i < |ps| ==> PieceMeans(ps[i], s[i])
  }

  lemma HexDigitExact(c: char, d: nat)
    ensures HexDigit(c) == Some(d) <==> IsHex(c, d)
  {
    if IsHex(c, d) {
      assert d == 0 || d == 1 || d == 2 || d == 3 || d == 4 || d == 5 || d == 6 || d == 7 || d == 8 || d == 9 ||
        d == 10 || d == 11 || d == 12 || d == 13 || d == 14 || d == 15;
    }
    if HexDigit(c) == Some(d) {
      var x := c as int;
      if d < 10 { assert HEX_DIGITS[d] == c; }
      else if x < 'a' as int { assert HEX_CAPITALS[d] == c; }
      else { assert HEX_DIGITS[d] == c; }
    }
  }

  lemma {:induction false} PlaceSnoc(base: nat, ds: seq<nat>, d: nat)
    ensures Place(base, ds + [d]) == base * Place(base, ds) + d
  {
    if ds == [] {
      assert ds + [d] == [d] && [d][1..] == [];
      assert Power(base, 0) == 1;
    } else {
      PlaceSnoc(base, ds[1..], d);
      assert (ds + [d])[1..] == ds[1..] + [d];
      assert Power(base, |ds|) == base * Power(base, |ds| - 1);
      var x, p := ds[0], Power(base, |ds| - 1);
      assert x * (base * p) == base * (x * p);
      assert base * (x * p + Place(base, ds[1..])) == base * (x * p) + base * Place(base, ds[1..]);
    }
  }

  lemma {:induction false} HexValueSound(text: string) returns (ds: seq<nat>)
    requires HexValue(text).Some?
    ensures HexDigits(text, ds) && HexValue(text).value == Place(16, ds)
  {
    var d := HexDigit(text[|text| - 1]).value;
    HexDigitExact(text[|text| - 1], d);
    if |text| == 1 {
      ds := [d];
      PlaceSnoc(16, [], d);
      assert [] + [d] == ds;
    } else {
      var rest := HexValueSound(text[..|text| - 1]);
      ds := rest + [d];
      PlaceSnoc(16, rest, d);
      assert forall i :: 0 <= i < |text| - 1 ==> text[i] == text[..|text| - 1][i];
    }
  }

  lemma {:induction false} HexValueComplete(text: string, ds: seq<nat>)
    requires HexDigits(text, ds)
    ensures HexValue(text) == Some(Place(16, ds))
  {
    hide Place, IsHex, HexDigit;
    var k := |ds| - 1;
    HexDigitExact(text[k], ds[k]);
    assert ds == ds[..k] + [ds[k]];
    PlaceSnoc(16, ds[..k], ds[k]);
    PlaceNone(16);
    if k > 0 { HexValueComplete(text[..k], ds[..k]); }
  }

  /** The four characters after `\\u` are read exactly as a hexadecimal number. */
  lemma CodeExact(h: string, n: nat)
    requires |h| == 4
    ensures HexValue(CodeDigits(h)) == Some(n) <==> CodeIs(h, n)
  {
    var ds := CodeDigits(h);
    if HexValue(ds) == Some(n) { var vs := HexValueSound(ds); }
    if CodeIs(h, n) {
      var vs :| HexDigits(ds, vs) && n == Place(16, vs);
      HexValueComplete(ds, vs);
    }
  }

  lemma EscapeComplete(b: string, pos: nat, p: Piece, c: char)
    requires Has(b, pos, PieceText(p)) && PieceMeans(p, c) && !p.Bare?
    ensures b[pos] == '\\' && Unescape(b, pos + 1) == Some(Escaped1(c, |PieceText(p)| - 1))
  {
    hide CodeIs, HexValue;
    HasAt(b, pos, PieceText(p), 0);
    HasAt(b, pos, PieceText(p), 1);
    if p.Code? {
      var n: nat :| n < 0x1_0000 && CodeIs(p.hex, n) && c == CharOf(n);
      CodeLength(p.hex, n);
      CodeExact(p.hex, n);
      assert b[pos + 2..pos + 6] == b[pos..pos + 6][2..] == p.hex;
    }
  }

  lemma CodeLength(h: string, n: nat)
    requires CodeIs(h, n)
    ensures |h| == 4
  {
  }

  lemma EscapeSound(b: string, pos: nat) returns (p: Piece)
    requires pos < |b| && b[pos] == '\\' && Unescape(b, pos + 1).Some?
    ensures
      var e := Unescape(b, pos + 1).value;
      !p.Bare? && Has(b, pos, PieceText(p)) && PieceMeans(p, e.c) && |PieceText(p)| == 1 + e.width
  {
    hide CodeIs, HexValue;
    var l := b[pos + 1];
    if l == 'u' {
      var h := b[pos + 2..pos + 6];
      p := Code(h);
      var n := HexValue(CodeDigits(h)).value;
      CodeExact(h, n);
      assert b[pos..pos + 6] == ['\\', 'u'] + h;
      assert CodeIs(h, n);
    } else {
      p := Short(l);
      assert b[pos..pos + 2] == ['\\', l];
    }
  }

  /** A piece that is an escape, at `pos`, of `c` and `width` characters after the backslash. */
  ghost predicate EscapeAt(b: string, pos: nat, p: Piece, c: char, width: nat) {
    !p.Bare? && Has(b, pos, PieceText(p)) && PieceMeans(p, c) && |PieceText(p)| == 1 + width
  }

  /** After a backslash, exactly the escapes are read, each as the character it means. */
  lemma UnescapeExact(b: string, pos: nat, c: char, width: nat)
    requires pos < |b| && b[pos] == '\\'
    ensures Unescape(b, pos + 1) == Some(Escaped1(c, width)) <==> exists p :: EscapeAt(b, pos, p, c, width)
  {
    hide Unescape, Has, PieceText, PieceMeans;
    if Unescape(b, pos + 1) == Some(Escaped1(c, width)) {
      var p := EscapeSound(b, pos);
      assert EscapeAt(b, pos, p, c, width);
    }
    if p :| EscapeAt(b, pos, p, c, width) { EscapeComplete(b, pos, p, c); }
  }

  lemma {:induction false} CharsComplete(b: string, pos: nat, ps: seq<Piece>, s: string, out: string)
    requires Has(b, pos, PiecesText(ps) + "\"") && PiecesMean(ps, s)
    ensures ParseChars(b, pos, out) == Some((out + s, pos + |PiecesText(ps)| + 1))
    decreases |ps|
  {
    hide Has, PieceMeans, PieceText, Unescape;
    HasConcat(b, pos, PiecesText(ps), "\"");
    if ps == [] {
      HasAt(b, pos, "\"", 0);
      assert out + s == out;
    } else {
      var first, rest := PieceText(ps[0]), PiecesText(ps[1..]);
      HasConcat(b, pos, first, rest);
      HasConcat(b, pos + |first|, rest, "\"");
      PieceComplete(b, pos, ps[0], s[0], out);
      CharsComplete(b, pos + |first|, ps[1..], s[1..], out + [s[0]]);
      assert out + [s[0]] + s[1..] == out + s;
    }
  }

  lemma PieceComplete(b: string, pos: nat, p: Piece, c: char, out: string)
    requires Has(b, pos, PieceText(p)) && PieceMeans(p, c)
    ensures ParseChars(b, pos, out) == ParseChars(b, pos + |PieceText(p)|, out + [c])
  {
    HasAt(b, pos, PieceText(p), 0);
    if !p.Bare? { EscapeComplete(b, pos, p, c); }
  }

  lemma {:induction false} CharsSound(b: string, pos: nat, out: string) returns (ps: seq<Piece>, s: string)
    requires ParseChars(b, pos, out).Some?
    ensures Has(b, pos, PiecesText(ps) + "\"") && PiecesMean(ps, s)
    ensures ParseChars(b, pos, out).value == (out + s, pos + |PiecesText(ps)| + 1)
    decreases |b| - pos
  {
    hide PieceMeans, PieceText, Unescape;
    if b[pos] == '\"' {
      ps, s := [], [];
      assert b[pos..pos + 1] == "\"";
      assert [] + "\"" == "\"" && out + s == out;
    } else {
      var p, c := PieceSound(b, pos, out);
      var w := |PieceText(p)|;
      ps, s := CharsSound(b, pos + w, out + [c]);
      assert ([p] + ps)[1..] == ps && out + [c] + s == out + ([c] + s);
      assert PieceText(p) + (PiecesText(ps) + "\"") == PiecesText([p] + ps) + "\"";
      HasConcat(b, pos, PieceText(p), PiecesText(ps) + "\"");
      ps, s := [p] + ps, [c] + s;
    }
  }

  lemma PieceSound(b: string, pos: nat, out: string) returns (p: Piece, c: char)
    requires pos < |b| && b[pos] != '\"' && ParseChars(b, pos, out).Some?
    ensures Has(b, pos, PieceText(p)) && PieceMeans(p, c) && |PieceText(p)| > 0
    ensures ParseChars(b, pos, out) == ParseChars(b, pos + |PieceText(p)|, out + [c])
  {
    if b[pos] == '\\' {
      p := EscapeSound(b, pos);
      c := Unescape(b, pos + 1).value.c;
    } else {
      p, c := Bare(b[pos]), b[pos];
      assert b[pos..pos + 1] == [b[pos]];
    }
  }

  /** A surrogate pair, which section 7 of RFC 8259 reads as one character, is read as two replacement characters. */
  lemma SurrogatePairSplit(high: string, low: string, h: nat, l: nat)
    requires CodeIs(high, h) && CodeIs(low, l) && 0xD800 <= h <= 0xDBFF && 0xDC00 <= l <= 0xDFFF
    ensures PiecesMean([Code(high), Code(low)], [0xFFFD as char, 0xFFFD as char])
  {
    assert PieceMeans(Code(high), 0xFFFD as char) && PieceMeans(Code(low), 0xFFFD as char);
  }

  // ---------------------------------------------------------------------------------------------
  // Numbers

  predicate DecimalDigits(text: string, ds: seq<nat>) {
    |ds| == |text| > 0 && forall i :: 0 <= i < |ds| ==> ds[i] < 10 && text[i] == DigitChar(ds[i])
  }

  lemma DigitCharIs(c: char, d: nat)
    requires d < 10
    ensures c == DigitChar(d) <==> Digit(c) && (c as int) - ('0' as int) == d
  {
  }

  lemma {:induction false} DigitsSound(text: string) returns (ds: seq<nat>)
    requires ParseDigits(text).Some?
    ensures DecimalDigits(text, ds) && ParseDigits(text).value == Place(10, ds)
  {
    hide Place, DigitChar;
    var k := |text| - 1;
    var d: nat := (text[k] as int) - ('0' as int);
    DigitCharIs(text[k], d);
    if k == 0 {
      ds := [d];
      PlaceSnoc(10, [], d);
      PlaceNone(10);
      assert [] + [d] == ds;
    } else {
      var rest := DigitsSound(text[..k]);
      ds := rest + [d];
      PlaceSnoc(10, rest, d);
      assert forall i :: 0 <= i < k ==> text[i] == text[..k][i];
    }
  }

  lemma PlaceNone(base: nat)
    ensures Place(base, []) == 0
  {
  }

  lemma {:induction false} DigitsComplete(text: string, ds: seq<nat>)
    requires DecimalDigits(text, ds)
    ensures ParseDigits(text) == Some(Place(10, ds))
  {
    hide Place, DigitChar;
    var k := |ds| - 1;
    DigitCharIs(text[k], ds[k]);
    assert ds == ds[..k] + [ds[k]];
    PlaceSnoc(10, ds[..k], ds[k]);
    PlaceNone(10);
    if k > 0 { DigitsComplete(text[..k], ds[..k]); }
  }

  /** The text after its sign. */
  function Unsigned(w: string): string { if w != [] && (w[0] == '-' || w[0] == '+') then w[1..] else w }

  function Signed(w: string, n: nat): int { if w != [] && w[0] == '-' then 0 - n else n }

  /** The text is a signed decimal of value `n`, within 64 bits. */
  ghost predicate IntWord(w: string, n: int) {
    FitsI64(n) && exists ds :: DecimalDigits(Unsigned(w), ds) && n == Signed(w, Place(10, ds))
  }

  lemma IntExact(w: string, n: int)
    ensures ParseInt(w) == Some(n) <==> IntWord(w, n)
  {
    hide Place, DecimalDigits, ParseDigits;
    if ParseInt(w) == Some(n) { var ds := DigitsSound(Unsigned(w)); }
    if IntWord(w, n) {
      var ds :| DecimalDigits(Unsigned(w), ds) && n == Signed(w, Place(10, ds));
      DigitsComplete(Unsigned(w), ds);
    }
  }

  predicate NumberText(w: string) {
    w != [] && (w[0] == '-' || Digit(w[0])) && forall i :: 0 <= i < |w| ==> Numeric(w[i])
  }

  predicate Marked(w: string) { exists i :: 0 <= i < |w| && FloatMark(w[i]) }

  ghost predicate NumberMeans(w: string, v: Value) {
    if Marked(w) then FloatShape(w) && v == VFloat(w) else v.VInt? && IntWord(w, v.n)
  }

  // ---------------------------------------------------------------------------------------------
  // Documents

  datatype Tree =
    | TWord(ws: string, word: string)
    | TString(ws: string, ps: seq<Piece>)
    | TArray(ws: string, items: seq<Item>, gap: string)
    | TObject(ws: string, members: seq<Member>, gap: string)

  /** An item and the blanks after it. */
  datatype Item = Item(value: Tree, after: string)

  /** A member with the blanks before its key, after its key and after its value. */
  datatype Member = Member(before: string, key: seq<Piece>, mid: string, value: Tree, after: string)

  predicate Blanks(s: string) { forall i :: 0 <= i < |s| ==> Blank(s[i]) }

  function Text(t: Tree): string
    decreases t, 0
  {
    match t
    case TWord(ws, word) => ws + word
    case TString(ws, ps) => ws + ("\"" + (PiecesText(ps) + "\""))
    case TArray(ws, items, gap) => ws + ("[" + ItemsBody(items, gap))
    case TObject(ws, members, gap) => ws + ("{" + MembersBody(members, gap))
  }

  /** What follows an opening bracket. */
  function ItemsBody(items: seq<Item>, gap: string): string
    decreases items, 2
  {
    if items == [] then gap + "]" else ItemsText(items)
  }

  function MembersBody(members: seq<Member>, gap: string): string
    decreases members, 3
  {
    if members == [] then gap + "}" else MembersText(members)
  }

  /** The items with commas between them and the closing bracket. */
  function ItemsText(items: seq<Item>): string
    requires items != []
    decreases items, 1
  {
    Text(items[0].value) + (items[0].after + (if |items| == 1 then "]" else "," + ItemsText(items[1..])))
  }

  function MemberText(m: Member): string
    decreases m, 1
  {
    m.before + ("\"" + (PiecesText(m.key) + "\"") + (m.mid + (":" + Text(m.value))))
  }

  function MembersText(members: seq<Member>): string
    requires members != []
    decreases members, 2
  {
    MemberText(members[0]) + (members[0].after + (if |members| == 1 then "}" else "," + MembersText(members[1..])))
  }

  /** `j` is the last place where `k` occurs. */
  predicate LastAt(ks: seq<string>, j: int, k: string) {
    0 <= j < |ks| && ks[j] == k && forall i :: j < i < |ks| ==> ks[i] != k
  }

  /** The entries have exactly the keys that occur, each with the value of its last occurrence. */
  ghost predicate LastWins(ks: seq<string>, vs: seq<Value>, attrs: seq<Attr>)
    requires |ks| == |vs|
  {
    && (forall k :: HasKey(attrs, k) <==> k in ks)
    && (forall a :: a in attrs ==> exists j :: LastAt(ks, j, a.key) && vs[j] == a.value)
  }

  ghost predicate WordMeans(word: string, v: Value) {
    || (word == "true" && v == VBool(true)) || (word == "false" && v == VBool(false)) || (word == "null" && v == VNull)
    || (NumberText(word) && NumberMeans(word, v))
  }

  /** The tree is well formed and means the value: items in order, each key with the value of its last member. */
  ghost predicate Means(t: Tree, v: Value)
    decreases t, 0
  {
    Blanks(t.ws) &&
    match t
    case TWord(_, word) => WordMeans(word, v)
    case TString(_, ps) => v.VStr? && PiecesMean(ps, v.s)
    case TArray(_, items, gap) => Blanks(gap) && v.VList? && ItemsMean(items, v.items)
    case TObject(_, members, gap) =>
      && Blanks(gap) && v.VSet? && KeySorted(v.attrs)
      && exists ks, vs :: |ks| == |vs| && MembersMean(members, ks, vs) && LastWins(ks, vs, v.attrs)
  }

  ghost predicate ItemsMean(items: seq<Item>, vs: seq<Value>)
    decreases items, 1
  {
    |items| == |vs| && forall i :: 0 <= i < |items| ==> Blanks(items[i].after) && Means(items[i].value, vs[i])
  }

  ghost predicate MembersMean(members: seq<Member>, ks: seq<string>, vs: seq<Value>)
    decreases members, 1
  {
    && |members| == |ks| == |vs|
    && forall i :: 0 <= i < |members| ==>
      && Blanks(members[i].before) && Blanks(members[i].mid) && Blanks(members[i].after)
      && PiecesMean(members[i].key, ks[i]) && Means(members[i].value, vs[i])
  }

  // ---------------------------------------------------------------------------------------------
  // What an object holds

  ghost predicate Gathered(ks: seq<string>, vs: seq<Value>, out: seq<Attr>) {
    |ks| == |vs| && DistinctKeys(out) && LastWins(ks, vs, out)
  }

  lemma GatheredNone()
    ensures Gathered([], [], [])
  {
  }

  lemma GatheredMore(ks: seq<string>, vs: seq<Value>, out: seq<Attr>, k: string, v: Value)
    requires Gathered(ks, vs, out)
    ensures Gathered(ks + [k], vs + [v], Upsert(out, k, v))
  {
    hide HasKey, DistinctKeys, Upsert;
    var ks', vs', r := ks + [k], vs + [v], Upsert(out, k, v);
    UpsertKeeps(out, k, v, "");
    forall x
      ensures HasKey(r, x) <==> x in ks'
    {
      UpsertKeeps(out, k, v, x);
    }
    forall a | a in r
      ensures exists j :: LastAt(ks', j, a.key) && vs'[j] == a.value
    {
      UpsertEntries(out, k, v, a);
      if a == Attr(k, v) {
        assert LastAt(ks', |ks|, k);
      } else {
        var j :| LastAt(ks, j, a.key) && vs[j] == a.value;
        assert LastAt(ks', j, a.key);
      }
    }
  }

  lemma GatheredSorted(ks: seq<string>, vs: seq<Value>, out: seq<Attr>)
    requires Gathered(ks, vs, out)
    ensures KeySorted(SortAttrs(out)) && LastWins(ks, vs, SortAttrs(out))
  {
    hide HasKey, DistinctKeys, SortAttrs, KeySorted;
    SortKeeps(out, "");
    forall x
      ensures HasKey(SortAttrs(out), x) <==> x in ks
    {
      SortKeeps(out, x);
    }
    forall a | a in SortAttrs(out)
      ensures a in out
    {
      SortEntries(out, a);
    }
  }

  lemma LastUnique(ks: seq<string>, j: int, i: int, k: string)
    requires LastAt(ks, j, k) && LastAt(ks, i, k)
    ensures i == j
  {
  }

  /** The occurrences decide the entries. */
  lemma {:induction false} LastWinsUnique(ks: seq<string>, vs: seq<Value>, a: seq<Attr>, b: seq<Attr>)
    requires |ks| == |vs| && KeySorted(a) && KeySorted(b) && LastWins(ks, vs, a) && LastWins(ks, vs, b)
    ensures a == b
  {
    forall x
      ensures x in a <==> x in b
    {
      if x in a { Transfer(ks, vs, a, b, x); }
      if x in b { Transfer(ks, vs, b, a, x); }
    }
    SortedUnique(a, b);
  }

  lemma Transfer(ks: seq<string>, vs: seq<Value>, a: seq<Attr>, b: seq<Attr>, x: Attr)
    requires |ks| == |vs| && LastWins(ks, vs, a) && LastWins(ks, vs, b) && x in a
    ensures x in b
  {
    var i :| 0 <= i < |a| && a[i] == x;
    assert HasKey(a, x.key);
    var m :| 0 <= m < |b| && b[m].key == x.key;
    assert b[m] in b;
    var j :| LastAt(ks, j, x.key) && vs[j] == x.value;
    var l :| LastAt(ks, l, x.key) && vs[l] == b[m].value;
    LastUnique(ks, j, l, x.key);
  }

  /** A sorted list is decided by its elements. */
  lemma {:induction false} SortedUnique(a: seq<Attr>, b: seq<Attr>)
    requires KeySorted(a) && KeySorted(b) && forall x :: x in a <==> x in b
    ensures a == b
    decreases |a|
  {
    BothEmpty(a, b);
    if a != [] {
      assert a[0] in b;
      var m :| 0 <= m < |b| && b[m] == a[0];
      assert b[0] in a;
      var l :| 0 <= l < |a| && a[l] == b[0];
      FirstOfBoth(a, b, m, l);
      assert a == [a[0]] + a[1..] && b == [b[0]] + b[1..];
      forall x
        ensures x in a[1..] <==> x in b[1..]
      {
        TailElement(a, x);
        TailElement(b, x);
      }
      SortedUnique(a[1..], b[1..]);
    }
  }

  lemma BothEmpty(a: seq<Attr>, b: seq<Attr>)
    requires forall x :: x in a <==> x in b
    ensures a == [] <==> b == []
  {
    assert a != [] ==> a[0] in a;
    assert b != [] ==> b[0] in b;
  }

  lemma FirstOfBoth(a: seq<Attr>, b: seq<Attr>, m: nat, l: nat)
    requires KeySorted(a) && KeySorted(b) && l < |a| && m < |b| && b[m] == a[0] && a[l] == b[0]
    ensures a[0] == b[0]
  {
    if m > 0 && l > 0 { KeyAntisymmetric(a[0].key, a[l].key); }
  }

  lemma TailElement(a: seq<Attr>, x: Attr)
    requires KeySorted(a) && a != []
    ensures x in a[1..] <==> x in a && x != a[0]
  {
    KeyIrreflexive(a[0].key);
    if x in a[1..] {
      var i :| 0 <= i < |a[1..]| && a[1..][i] == x;
      assert a[i + 1] == x;
    }
    assert a == [a[0]] + a[1..];
  }

  // ---------------------------------------------------------------------------------------------
  // Tokens and blanks

  lemma {:induction false} SkipIs(b: string, pos: nat, ws: string)
    requires Has(b, pos, ws) && Blanks(ws) && (pos + |ws| < |b| ==> !Blank(b[pos + |ws|]))
    ensures SkipWs(b, pos) == pos + |ws|
    decreases |ws|
  {
    if ws != [] {
      HasAt(b, pos, ws, 0);
      assert ws == [ws[0]] + ws[1..];
      HasConcat(b, pos, [ws[0]], ws[1..]);
      SkipIs(b, pos + 1, ws[1..]);
    }
  }

  lemma {:induction false} SkipSound(b: string, pos: nat)
    requires pos <= |b|
    ensures
      var p := SkipWs(b, pos);
      Blanks(b[pos..p]) && Has(b, pos, b[pos..p]) && (p < |b| ==> !Blank(b[p])) && SkipWs(b, p) == p
    decreases |b| - pos
  {
    if pos < |b| && Blank(b[pos]) {
      SkipSound(b, pos + 1);
      assert b[pos..SkipWs(b, pos)] == [b[pos]] + b[pos + 1..SkipWs(b, pos)];
    }
  }

  /** Reading a value or a member starts by skipping blanks, so blanks skipped before change nothing. */
  lemma SkipTwice(b: string, pos: nat)
    requires pos <= |b|
    ensures ParseValue(b, SkipWs(b, pos)) == ParseValue(b, pos)
    ensures ParseAttr(b, SkipWs(b, pos)) == ParseAttr(b, pos)
  {
    SkipSound(b, pos);
  }

  /** No number goes on at the position. */
  predicate Ends(b: string, pos: nat) { pos == |b| || (pos < |b| && !Numeric(b[pos])) }

  lemma {:induction false} NumberRun(b: string, pos: nat, w: string)
    requires Has(b, pos, w) && (forall i :: 0 <= i < |w| ==> Numeric(w[i])) && Ends(b, pos + |w|)
    ensures NumberEnd(b, pos) == pos + |w|
    decreases |w|
  {
    if w != [] {
      HasAt(b, pos, w, 0);
      assert w == [w[0]] + w[1..];
      HasConcat(b, pos, [w[0]], w[1..]);
      NumberRun(b, pos + 1, w[1..]);
    }
  }

  lemma {:induction false} NumberRunSound(b: string, pos: nat)
    requires pos <= |b|
    ensures
      var e := NumberEnd(b, pos);
      Has(b, pos, b[pos..e]) && Ends(b, e) && forall i :: 0 <= i < e - pos ==> Numeric(b[pos..e][i])
    decreases |b| - pos
  {
    if pos < |b| && Numeric(b[pos]) {
      NumberRunSound(b, pos + 1);
      var e := NumberEnd(b, pos);
      assert b[pos..e] == [b[pos]] + b[pos + 1..e];
    }
  }

  /** A number token is read exactly as its text says. */
  lemma NumberExact(b: string, pos: nat, v: Value)
    requires pos <= |b|
    ensures
      var e := NumberEnd(b, pos);
      ParseNumber(b, pos) == Some((v, e)) <==> NumberMeans(b[pos..e], v)
  {
    hide FloatText, FloatShape, IntWord, ParseInt;
    var w := b[pos..NumberEnd(b, pos)];
    FloatTextExact(w);
    if v.VInt? { IntExact(w, v.n); }
  }

  // ---------------------------------------------------------------------------------------------
  // Every tree is read

  lemma WordComplete(b: string, pos: nat, w: string, v: Value)
    requires WordMeans(w, v) && Has(b, pos, w) && Ends(b, pos + |w|) && w != []
    ensures pos < |b| && !Blank(b[pos]) && b[pos] !in "[]{},\""
    ensures ParseValue(b, pos) == Some((v, pos + |w|))
  {
    hide Has, Ends, NumberText, NumberMeans, ParseNumber, ParseObject, ParseArray, ParseChars, SkipWs;
    HasAt(b, pos, w, 0);
    if w == "true" || w == "false" || w == "null" {
      LitBack(b, pos, w, v);
      WordOnly(w, v);
    } else {
      NumberComplete(b, pos, w, v);
    }
    SkipNone(b, pos);
  }

  lemma NumberComplete(b: string, pos: nat, w: string, v: Value)
    requires NumberText(w) && NumberMeans(w, v) && Has(b, pos, w) && Ends(b, pos + |w|) && w != []
    ensures pos < |b| && (b[pos] == '-' || Digit(b[pos])) && ParseNumber(b, pos) == Some((v, pos + |w|))
  {
    hide NumberMeans, ParseNumber;
    HasAt(b, pos, w, 0);
    NumberRun(b, pos, w);
    NumberExact(b, pos, v);
  }

  lemma WordOnly(w: string, v: Value)
    requires WordMeans(w, v) && (w == "true" || w == "false" || w == "null")
    ensures v == if w == "true" then VBool(true) else if w == "false" then VBool(false) else VNull
  {
  }

  /** Where the first token of a tree is. */
  lemma Starts1(b: string, pos: nat, t: Tree, v: Value)
    requires Means(t, v) && Has(b, pos, Text(t))
    ensures
      var p := pos + |t.ws|;
      p < |b| && !Blank(b[p]) && b[p] != ']' && b[p] != '}' && b[p] != ',' && SkipWs(b, pos) == p
    ensures |Text(t)| > |t.ws| && Has(b, pos, t.ws)
  {
    hide Has, PiecesMean, NumberMeans, ItemsText, MembersText, PiecesText, ItemsMean, MembersMean, LastWins, KeySorted;
    var rest := Text(t)[|t.ws|..];
    assert Text(t) == t.ws + rest;
    HasConcat(b, pos, t.ws, rest);
    HasAt(b, pos + |t.ws|, rest, 0);
    SkipIs(b, pos, t.ws);
  }

  lemma {:induction false} ValueComplete(b: string, pos: nat, t: Tree, v: Value)
    requires Means(t, v) && Has(b, pos, Text(t)) && Ends(b, pos + |Text(t)|)
    ensures pos <= |b| && ParseValue(b, pos) == Some((v, pos + |Text(t)|))
    decreases t, 1
  {
    hide Has, Ends, Text, Means, ParseArray, ParseObject, ParseChars, ParseValue, SkipWs, Blank;
    Starts1(b, pos, t, v);
    HasBound(b, pos, Text(t));
    SkipTwice(b, pos);
    Picks(b, pos + |t.ws|);
    match t
    case TWord(ws, word) => WordAt(b, pos, ws, word, v);
    case TString(ws, ps) => StringAt(b, pos, ws, ps, v);
    case TArray(ws, items, gap) => ArrayAt(b, pos, ws, items, gap, v);
    case TObject(ws, members, gap) => ObjectAt(b, pos, ws, members, gap, v);
  }

  lemma WordAt(b: string, pos: nat, ws: string, word: string, v: Value)
    requires Means(TWord(ws, word), v) && Has(b, pos, Text(TWord(ws, word)))
    requires |Text(TWord(ws, word))| > |ws| && Ends(b, pos + |Text(TWord(ws, word))|)
    ensures pos + |ws| <= |b| && ParseValue(b, pos + |ws|) == Some((v, pos + |Text(TWord(ws, word))|))
  {
    hide Has, Ends, WordMeans, ParseValue, Blanks;
    HasConcat(b, pos, ws, word);
    WordComplete(b, pos + |ws|, word, v);
  }

  lemma StringAt(b: string, pos: nat, ws: string, ps: seq<Piece>, v: Value)
    requires Means(TString(ws, ps), v) && Has(b, pos, Text(TString(ws, ps)))
    ensures
      var p := pos + |ws|;
      p < |b| && b[p] == '\"' && v.VStr? && ParseChars(b, p + 1, "") == Some((v.s, pos + |Text(TString(ws, ps))|))
  {
    hide Has, PiecesMean, PiecesText, ParseChars, Blanks;
    HasConcat(b, pos, ws, "\"" + (PiecesText(ps) + "\""));
    StringComplete(b, pos + |ws|, ps, v.s);
  }

  lemma {:induction false} ArrayAt(b: string, pos: nat, ws: string, items: seq<Item>, gap: string, v: Value)
    requires Means(TArray(ws, items, gap), v) && Has(b, pos, Text(TArray(ws, items, gap)))
    ensures
      var p := pos + |ws|;
      p < |b| && b[p] == '[' && ParseArray(b, p) == Some((v, pos + |Text(TArray(ws, items, gap))|))
    decreases TArray(ws, items, gap), 0
  {
    hide Has, ItemsBody, ParseArray, ItemsMean, Blanks;
    HasConcat(b, pos, ws, "[" + ItemsBody(items, gap));
    ArrayComplete(b, pos + |ws|, items, gap, v.items);
  }

  lemma {:induction false} ObjectAt(b: string, pos: nat, ws: string, members: seq<Member>, gap: string, v: Value)
    requires Means(TObject(ws, members, gap), v) && Has(b, pos, Text(TObject(ws, members, gap)))
    ensures
      var p := pos + |ws|;
      p < |b| && b[p] == '{' && ParseObject(b, p) == Some((v, pos + |Text(TObject(ws, members, gap))|))
    decreases TObject(ws, members, gap), 0
  {
    hide Has, MembersBody, LastWins, KeySorted, ParseObject, MembersMean, Blanks;
    HasConcat(b, pos, ws, "{" + MembersBody(members, gap));
    ObjectComplete(b, pos + |ws|, members, gap, v.attrs);
  }

  /** The first character of a value picks its parser. */
  lemma Picks(b: string, p: nat)
    requires p < |b| && !Blank(b[p])
    ensures b[p] == '[' ==> ParseValue(b, p) == ParseArray(b, p)
    ensures b[p] == '{' ==> ParseValue(b, p) == ParseObject(b, p)
    ensures b[p] == '\"' && ParseChars(b, p + 1, "").Some? ==>
      ParseValue(b, p) == Some((VStr(ParseChars(b, p + 1, "").value.0), ParseChars(b, p + 1, "").value.1))
  {
    hide ParseArray, ParseObject, ParseChars;
    SkipNone(b, p);
  }

  lemma StringComplete(b: string, pos: nat, ps: seq<Piece>, s: string)
    requires Has(b, pos, "\"" + (PiecesText(ps) + "\"")) && PiecesMean(ps, s)
    ensures pos < |b| && b[pos] == '\"' && ParseChars(b, pos + 1, "") == Some((s, pos + |PiecesText(ps)| + 2))
  {
    hide Has, PiecesMean, PiecesText, ParseChars;
    HasConcat(b, pos, "\"", PiecesText(ps) + "\"");
    HasAt(b, pos, "\"", 0);
    CharsComplete(b, pos + 1, ps, s, "");
    assert "" + s == s;
  }

  lemma {:induction false} ArrayComplete(b: string, pos: nat, items: seq<Item>, gap: string, vs: seq<Value>)
    requires Blanks(gap) && ItemsMean(items, vs)
    requires Has(b, pos, "[" + ItemsBody(items, gap))
    ensures pos < |b| && b[pos] == '['
    ensures ParseArray(b, pos) ==
      Some((VList(vs), pos + 1 + |ItemsBody(items, gap)|))
    decreases items, 2
  {
    hide Has, Means, ParseValue, Text, ItemsMean, ParseItems;
    var body := ItemsBody(items, gap);
    HasConcat(b, pos, "[", body);
    HasAt(b, pos, "[", 0);
    if items == [] {
      EmptyBrackets(b, pos + 1, gap, ']');
      NoItems(items, vs);
    } else {
      ItemStart(b, pos + 1, items, vs);
      ItemsSkip(b, pos + 1, []);
      ItemsComplete(b, pos + 1, items, vs, []);
      assert [] + vs == vs;
    }
  }

  lemma NoItems(items: seq<Item>, vs: seq<Value>)
    requires items == [] && ItemsMean(items, vs)
    ensures vs == []
  {
  }

  lemma EmptyBrackets(b: string, pos: nat, gap: string, c: char)
    requires Has(b, pos, gap + [c]) && Blanks(gap) && !Blank(c)
    ensures pos + |gap| < |b| && b[pos + |gap|] == c && SkipWs(b, pos) == pos + |gap|
  {
    HasConcat(b, pos, gap, [c]);
    HasAt(b, pos + |gap|, [c], 0);
    SkipIs(b, pos, gap);
  }

  lemma ItemStart(b: string, pos: nat, items: seq<Item>, vs: seq<Value>)
    requires items != [] && ItemsMean(items, vs) && Has(b, pos, ItemsText(items))
    ensures pos <= SkipWs(b, pos) < |b| && b[SkipWs(b, pos)] != ']'
  {
    hide Has, Means, Text;
    var first := Text(items[0].value);
    var rest := items[0].after + (if |items| == 1 then "]" else "," + ItemsText(items[1..]));
    HasConcat(b, pos, first, rest);
    Starts1(b, pos, items[0].value, vs[0]);
  }

  lemma ItemsSkip(b: string, pos: nat, out: seq<Value>)
    requires pos <= |b|
    ensures ParseItems(b, SkipWs(b, pos), out) == ParseItems(b, pos, out)
  {
    hide ParseValue;
    SkipTwice(b, pos);
  }

  /** After a value come blanks and a comma or a closing bracket. */
  lemma AfterValue(b: string, pos: nat, ws: string, c: char)
    requires Has(b, pos, ws) && Has(b, pos + |ws|, [c]) && Blanks(ws) && (c == ',' || c == ']' || c == '}')
    ensures Ends(b, pos) && pos + |ws| < |b| && b[pos + |ws|] == c && SkipWs(b, pos) == pos + |ws|
  {
    HasAt(b, pos + |ws|, [c], 0);
    if ws != [] { HasAt(b, pos, ws, 0); }
    SkipIs(b, pos, ws);
  }

  lemma {:induction false} ItemsComplete(b: string, pos: nat, items: seq<Item>, vs: seq<Value>, out: seq<Value>)
    requires items != [] && ItemsMean(items, vs) && Has(b, pos, ItemsText(items))
    ensures pos <= |b| && ParseItems(b, pos, out) == Some((VList(out + vs), pos + |ItemsText(items)|))
    decreases items, 1
  {
    hide Has, Means, ParseValue, Ends, Text, SkipWs;
    var first, after := Text(items[0].value), items[0].after;
    var tail := if |items| == 1 then "]" else "," + ItemsText(items[1..]);
    var end := pos + |first|;
    HasConcat(b, pos, first, after + tail);
    HasConcat(b, end, after, tail);
    HasBound(b, pos, first);
    if |items| == 1 {
      AfterValue(b, end, after, ']');
      ValueComplete(b, pos, items[0].value, vs[0]);
      assert vs == [vs[0]];
    } else {
      HasConcat(b, end + |after|, ",", ItemsText(items[1..]));
      AfterValue(b, end, after, ',');
      ValueComplete(b, pos, items[0].value, vs[0]);
      ItemsComplete(b, end + |after| + 1, items[1..], vs[1..], out + [vs[0]]);
      assert out + [vs[0]] + vs[1..] == out + vs;
    }
  }

  lemma {:induction false} ObjectComplete(b: string, pos: nat, members: seq<Member>, gap: string, attrs: seq<Attr>)
    requires Blanks(gap) && KeySorted(attrs)
    requires exists ks, vs :: |ks| == |vs| && MembersMean(members, ks, vs) && LastWins(ks, vs, attrs)
    requires Has(b, pos, "{" + MembersBody(members, gap))
    ensures pos < |b| && b[pos] == '{'
    ensures ParseObject(b, pos) ==
      Some((VSet(attrs), pos + 1 + |MembersBody(members, gap)|))
    decreases members, 5
  {
    hide Has, LastWins, KeySorted, ParseAttrs, SkipWs, MembersMean, MembersText;
    var ks, vs :| |ks| == |vs| && MembersMean(members, ks, vs) && LastWins(ks, vs, attrs);
    var body := MembersBody(members, gap);
    HasConcat(b, pos, "{", body);
    HasAt(b, pos, "{", 0);
    if members == [] {
      EmptyBrackets(b, pos + 1, gap, '}');
      NoMembers(members, ks, vs, attrs);
    } else {
      FilledObject(b, pos, members, ks, vs, attrs);
    }
  }

  lemma {:induction false} FilledObject(b: string, pos: nat, members: seq<Member>, ks: seq<string>, vs: seq<Value>,
      attrs: seq<Attr>)
    requires members != [] && |ks| == |vs| && MembersMean(members, ks, vs) && Has(b, pos + 1, MembersText(members))
    requires KeySorted(attrs) && LastWins(ks, vs, attrs) && pos < |b| && b[pos] == '{'
    ensures ParseObject(b, pos) == Some((VSet(attrs), pos + 1 + |MembersText(members)|))
    decreases members, 4
  {
    hide Has, LastWins, KeySorted, ParseAttrs, SkipWs, MembersMean, MembersText;
    MembersFirst(members, ks, vs);
    MemberStart(b, pos + 1, members);
    AttrsSkip(b, pos + 1, []);
    ObjectBody(b, pos + 1, members, ks, vs, attrs);
  }

  lemma NoMembers(members: seq<Member>, ks: seq<string>, vs: seq<Value>, attrs: seq<Attr>)
    requires members == [] && |ks| == |vs| && MembersMean(members, ks, vs)
    requires LastWins(ks, vs, attrs) && KeySorted(attrs)
    ensures attrs == []
  {
    hide LastWins, KeySorted;
    GatheredEmpty();
    LastWinsUnique(ks, vs, attrs, []);
  }

  lemma MembersFirst(members: seq<Member>, ks: seq<string>, vs: seq<Value>)
    requires members != [] && MembersMean(members, ks, vs)
    ensures Blanks(members[0].before)
  {
  }

  lemma {:induction false} ObjectBody(b: string, pos: nat, members: seq<Member>, ks: seq<string>, vs: seq<Value>,
      attrs: seq<Attr>)
    requires members != [] && |ks| == |vs| && MembersMean(members, ks, vs) && Has(b, pos, MembersText(members))
    requires KeySorted(attrs) && LastWins(ks, vs, attrs)
    ensures pos <= |b| && ParseAttrs(b, pos, []) == Some((VSet(attrs), pos + |MembersText(members)|))
    decreases members, 3
  {
    hide Has, LastWins, KeySorted, ParseAttrs, MembersMean, MembersText;
    GatheredNone();
    MembersComplete(b, pos, members, ks, vs, [], [], []);
    assert [] + ks == ks && [] + vs == vs;
    LastWinsUnique(ks, vs, attrs, ParseAttrs(b, pos, []).value.0.attrs);
  }

  lemma GatheredEmpty()
    ensures KeySorted([]) && LastWins([], [], [])
  {
  }

  lemma AttrsSkip(b: string, pos: nat, out: seq<Attr>)
    requires pos <= |b|
    ensures ParseAttrs(b, SkipWs(b, pos), out) == ParseAttrs(b, pos, out)
  {
    hide ParseAttr, ParseValue, SortAttrs, Upsert;
    SkipTwice(b, pos);
  }

  lemma MemberStart(b: string, pos: nat, members: seq<Member>)
    requires members != [] && Blanks(members[0].before) && Has(b, pos, MembersText(members))
    ensures
      var p := pos + |members[0].before|;
      p < |b| && b[p] == '\"' && SkipWs(b, pos) == p
  {
    hide Has, PiecesText, Text;
    var m := members[0];
    var rest := MembersText(members)[|m.before|..];
    assert MembersText(members) == m.before + rest;
    HasConcat(b, pos, m.before, rest);
    HasAt(b, pos + |m.before|, rest, 0);
    SkipIs(b, pos, m.before);
  }

  lemma {:induction false} MemberComplete(b: string, pos: nat, m: Member, k: string, v: Value)
    requires Blanks(m.before) && Blanks(m.mid) && PiecesMean(m.key, k) && Means(m.value, v)
    requires Has(b, pos, MemberText(m)) && Ends(b, pos + |MemberText(m)|)
    ensures pos <= |b| && ParseAttr(b, pos) == Some((Attr(k, v), pos + |MemberText(m)|))
    decreases m, 1
  {
    hide Has, PiecesMean, PiecesText, Means, Text, ParseValue, ParseChars, Ends;
    var name, value := "\"" + (PiecesText(m.key) + "\""), Text(m.value);
    HasConcat(b, pos, m.before, name + (m.mid + (":" + value)));
    var p := pos + |m.before|;
    HasConcat(b, p, name, m.mid + (":" + value));
    HasConcat(b, p, "\"", PiecesText(m.key) + "\"");
    HasAt(b, p, "\"", 0);
    SkipIs(b, pos, m.before);
    CharsComplete(b, p + 1, m.key, k, "");
    assert "" + k == k;
    var q := p + |name|;
    HasConcat(b, q, m.mid, ":" + value);
    HasConcat(b, q + |m.mid|, ":", value);
    HasAt(b, q + |m.mid|, ":", 0);
    SkipIs(b, q, m.mid);
    ValueComplete(b, q + |m.mid| + 1, m.value, v);
  }

  lemma {:induction false} MembersComplete(b: string, pos: nat, members: seq<Member>, ks: seq<string>, vs: seq<Value>,
      out: seq<Attr>, ks0: seq<string>, vs0: seq<Value>)
    requires members != [] && MembersMean(members, ks, vs) && Has(b, pos, MembersText(members))
    requires Gathered(ks0, vs0, out)
    ensures pos <= |b| && ParseAttrs(b, pos, out).Some?
    ensures
      var r := ParseAttrs(b, pos, out).value;
      && r.0.VSet? && r.1 == pos + |MembersText(members)| && |ks0 + ks| == |vs0 + vs|
      && KeySorted(r.0.attrs) && LastWins(ks0 + ks, vs0 + vs, r.0.attrs)
    decreases members, 2
  {
    hide Has, PiecesMean, Means, ParseAttr, Ends, MemberText, SkipWs, LastWins, KeySorted, Upsert, SortAttrs, Gathered;
    var m, first := members[0], MemberText(members[0]);
    var tail := if |members| == 1 then "}" else "," + MembersText(members[1..]);
    var end := pos + |first|;
    HasConcat(b, pos, first, m.after + tail);
    HasConcat(b, end, m.after, tail);
    HasBound(b, pos, first);
    GatheredSame(ks0, vs0, out);
    GatheredMore(ks0, vs0, out, ks[0], vs[0]);
    var more := Upsert(out, ks[0], vs[0]);
    if |members| == 1 {
      AfterValue(b, end, m.after, '}');
      MemberComplete(b, pos, m, ks[0], vs[0]);
      assert ks == [ks[0]] && vs == [vs[0]];
      GatheredSorted(ks0 + [ks[0]], vs0 + [vs[0]], more);
    } else {
      HasConcat(b, end + |m.after|, ",", MembersText(members[1..]));
      AfterValue(b, end, m.after, ',');
      MemberComplete(b, pos, m, ks[0], vs[0]);
      MembersComplete(b, end + |m.after| + 1, members[1..], ks[1..], vs[1..], more, ks0 + [ks[0]], vs0 + [vs[0]]);
      assert ks0 + [ks[0]] + ks[1..] == ks0 + ks && vs0 + [vs[0]] + vs[1..] == vs0 + vs;
    }
  }

  lemma GatheredSame(ks: seq<string>, vs: seq<Value>, out: seq<Attr>)
    requires Gathered(ks, vs, out)
    ensures |ks| == |vs|
  {
  }

  // ---------------------------------------------------------------------------------------------
  // Everything read has a tree

  lemma WordSound(b: string, p: nat) returns (w: string)
    requires p < |b| && !Blank(b[p]) && b[p] != '[' && b[p] != '{' && b[p] != '\"' && ParseValue(b, p).Some?
    ensures w != [] && Has(b, p, w) && WordMeans(w, ParseValue(b, p).value.0) && ParseValue(b, p).value.1 == p + |w|
  {
    hide NumberMeans, ParseNumber, ParseArray, ParseObject, ParseChars;
    SkipNone(b, p);
    if b[p] == 't' {
      w := "true";
    } else if b[p] == 'f' {
      w := "false";
    } else if b[p] == 'n' {
      w := "null";
    } else {
      var e := NumberEnd(b, p);
      w := b[p..e];
      NumberRunSound(b, p);
      NumberEndOf(b, p);
      NumberExact(b, p, ParseNumber(b, p).value.0);
    }
  }

  lemma NumberEndOf(b: string, p: nat)
    requires p < |b| && Numeric(b[p])
    ensures NumberEnd(b, p) > p
    ensures ParseNumber(b, p).Some? ==> ParseNumber(b, p).value.1 == NumberEnd(b, p)
  {
  }

  lemma {:induction false} ValueSound(b: string, pos: nat) returns (t: Tree)
    requires pos <= |b| && ParseValue(b, pos).Some?
    ensures Means(t, ParseValue(b, pos).value.0) && Has(b, pos, Text(t))
    ensures ParseValue(b, pos).value.1 == pos + |Text(t)|
    decreases |b| - pos, 1
  {
    hide Has, PiecesMean, PiecesText, ItemsBody, MembersBody, LastWins, KeySorted, ParseArray, ParseObject, ParseChars,
        WordMeans, ItemsMean, MembersMean, Blank, ParseValue;
    var p := SkipWs(b, pos);
    SkipSound(b, pos);
    SkipTwice(b, pos);
    ValueThere(b, pos);
    var ws := b[pos..p];
    Picks(b, p);
    if b[p] == '\"' {
      StringThere(b, p);
      var ps, s := CharsSound(b, p + 1, "");
      assert "" + s == s;
      HasQuote(b, p, PiecesText(ps) + "\"");
      t := TString(ws, ps);
      HasConcat(b, pos, ws, "\"" + (PiecesText(ps) + "\""));
    } else if b[p] == '[' {
      var items, gap := ArraySound(b, p);
      t := TArray(ws, items, gap);
      HasConcat(b, pos, ws, "[" + ItemsBody(items, gap));
    } else if b[p] == '{' {
      var members, gap := ObjectSound(b, p);
      t := TObject(ws, members, gap);
      HasConcat(b, pos, ws, "{" + MembersBody(members, gap));
    } else {
      var w := WordSound(b, p);
      t := TWord(ws, w);
      HasConcat(b, pos, ws, w);
    }
  }

  lemma ValueThere(b: string, pos: nat)
    requires pos <= |b| && ParseValue(b, pos).Some?
    ensures SkipWs(b, pos) < |b|
  {
  }

  lemma StringThere(b: string, p: nat)
    requires p < |b| && b[p] == '\"' && ParseValue(b, p).Some?
    ensures ParseChars(b, p + 1, "").Some?
  {
  }

  lemma HasQuote(b: string, p: nat, rest: string)
    requires p < |b| && b[p] == '\"' && Has(b, p + 1, rest)
    ensures Has(b, p, "\"" + rest)
  {
    HasHead(b, p, '\"', rest);
  }

  lemma HasHead(b: string, p: nat, c: char, rest: string)
    requires p < |b| && b[p] == c && Has(b, p + 1, rest)
    ensures Has(b, p, [c] + rest)
  {
    assert b[p..p + 1] == [c];
    HasConcat(b, p, [c], rest);
  }

  lemma {:induction false} ArraySound(b: string, pos: nat) returns (items: seq<Item>, gap: string)
    requires pos < |b| && b[pos] == '[' && ParseArray(b, pos).Some?
    ensures Blanks(gap) && Has(b, pos, "[" + ItemsBody(items, gap))
    ensures
      var r := ParseArray(b, pos).value;
      r.0.VList? && ItemsMean(items, r.0.items) && r.1 == pos + 1 + |ItemsBody(items, gap)|
    decreases |b| - pos, 0
  {
    hide Has, Means, ParseItems, ItemsText, Blank;
    var p := SkipWs(b, pos + 1);
    SkipSound(b, pos + 1);
    if p < |b| && b[p] == ']' {
      items, gap := [], b[pos + 1..p];
      HasClose(b, pos + 1, gap, ']');
    } else {
      ItemsSkip(b, pos + 1, []);
      var vs;
      items, vs := ItemsSound(b, pos + 1, []);
      gap := "";
      assert [] + vs == vs;
    }
    HasHead(b, pos, '[', ItemsBody(items, gap));
  }

  lemma HasClose(b: string, pos: nat, ws: string, c: char)
    requires Has(b, pos, ws) && pos + |ws| < |b| && b[pos + |ws|] == c
    ensures Has(b, pos, ws + [c])
  {
    assert b[pos + |ws|..pos + |ws| + 1] == [c];
    HasConcat(b, pos, ws, [c]);
  }

  lemma {:induction false} ItemsSound(b: string, pos: nat, out: seq<Value>) returns (items: seq<Item>, vs: seq<Value>)
    requires pos <= |b| && ParseItems(b, pos, out).Some?
    ensures items != [] && ItemsMean(items, vs) && Has(b, pos, ItemsText(items))
    ensures ParseItems(b, pos, out).value == (VList(out + vs), pos + |ItemsText(items)|)
    decreases |b| - pos, 2
  {
    hide Has, Means, ParseValue, Text, SkipWs, Blank;
    var t := ValueSound(b, pos);
    var v := ParseValue(b, pos).value;
    var p := SkipWs(b, v.1);
    SkipSound(b, v.1);
    var after := b[v.1..p];
    if b[p] == ']' {
      items, vs := [Item(t, after)], [v.0];
      HasClose(b, v.1, after, ']');
      HasConcat(b, pos, Text(t), after + "]");
    } else {
      var rest, ws := ItemsSound(b, p + 1, out + [v.0]);
      items, vs := [Item(t, after)] + rest, [v.0] + ws;
      assert items[1..] == rest && out + [v.0] + ws == out + vs;
      HasHead(b, p, ',', ItemsText(rest));
      HasConcat(b, v.1, after, "," + ItemsText(rest));
      HasConcat(b, pos, Text(t), after + ("," + ItemsText(rest)));
      ItemsCons(Item(t, after), v.0, rest, ws);
    }
  }

  lemma ItemsCons(item: Item, v: Value, items: seq<Item>, vs: seq<Value>)
    requires Blanks(item.after) && Means(item.value, v) && ItemsMean(items, vs)
    ensures ItemsMean([item] + items, [v] + vs)
  {
    hide Means, Blanks;
  }

  lemma {:induction false} ObjectSound(b: string, pos: nat) returns (members: seq<Member>, gap: string)
    requires pos < |b| && b[pos] == '{' && ParseObject(b, pos).Some?
    ensures Blanks(gap) && Has(b, pos, "{" + MembersBody(members, gap))
    ensures
      var r := ParseObject(b, pos).value;
      && r.0.VSet? && KeySorted(r.0.attrs) && r.1 == pos + 1 + |MembersBody(members, gap)|
      && exists ks, vs :: |ks| == |vs| && MembersMean(members, ks, vs) && LastWins(ks, vs, r.0.attrs)
    decreases |b| - pos, 0
  {
    hide Has, ParseAttrs, MembersText, Blank, LastWins, KeySorted, MembersMean;
    var p := SkipWs(b, pos + 1);
    SkipSound(b, pos + 1);
    if p < |b| && b[p] == '}' {
      members, gap := [], b[pos + 1..p];
      HasClose(b, pos + 1, gap, '}');
      GatheredEmpty();
      MembersNone();
    } else {
      AttrsSkip(b, pos + 1, []);
      GatheredNone();
      var ks, vs;
      members, ks, vs := MembersSound(b, pos + 1, [], [], []);
      gap := "";
      assert [] + ks == ks && [] + vs == vs;
    }
    HasHead(b, pos, '{', MembersBody(members, gap));
  }

  lemma MembersNone()
    ensures MembersMean([], [], [])
  {
  }

  lemma {:induction false} MemberSound(b: string, pos: nat) returns (m: Member)
    requires pos <= |b| && ParseAttr(b, pos).Some?
    ensures
      var r := ParseAttr(b, pos).value;
      && m.after == "" && Blanks(m.before) && Blanks(m.mid) && PiecesMean(m.key, r.0.key) && Means(m.value, r.0.value)
      && Has(b, pos, MemberText(m)) && r.1 == pos + |MemberText(m)|
    decreases |b| - pos, 2
  {
    hide Has, PiecesMean, PiecesText, Means, Text, ParseValue, ParseChars, Blank, SkipWs;
    var p := SkipWs(b, pos);
    SkipSound(b, pos);
    var ps, s := CharsSound(b, p + 1, "");
    assert "" + s == s;
    var k := ParseChars(b, p + 1, "").value;
    var q := SkipWs(b, k.1);
    SkipSound(b, k.1);
    var t := ValueSound(b, q + 1);
    m := Member(b[pos..p], ps, b[k.1..q], t, "");
    HasHead(b, q, ':', Text(t));
    HasConcat(b, k.1, m.mid, ":" + Text(t));
    HasQuote(b, p, PiecesText(ps) + "\"");
    var name := "\"" + (PiecesText(ps) + "\"");
    HasConcat(b, p, name, m.mid + (":" + Text(t)));
    HasConcat(b, pos, m.before, name + (m.mid + (":" + Text(t))));
  }

  lemma {:induction false} MembersSound(b: string, pos: nat, out: seq<Attr>, ks0: seq<string>,
      vs0: seq<Value>) returns (members: seq<Member>, ks: seq<string>, vs: seq<Value>)
    requires pos <= |b| && ParseAttrs(b, pos, out).Some? && Gathered(ks0, vs0, out)
    ensures members != [] && MembersMean(members, ks, vs) && Has(b, pos, MembersText(members))
    ensures
      var r := ParseAttrs(b, pos, out).value;
      && r.0.VSet? && r.1 == pos + |MembersText(members)| && |ks0 + ks| == |vs0 + vs|
      && KeySorted(r.0.attrs) && LastWins(ks0 + ks, vs0 + vs, r.0.attrs)
    decreases |b| - pos, 3
  {
    hide Has, PiecesMean, Means, ParseAttr, SkipWs, LastWins, KeySorted, Upsert, SortAttrs, Gathered, Blank, MemberText,
        MembersMean;
    var m0 := MemberSound(b, pos);
    var a := ParseAttr(b, pos).value;
    var p := SkipWs(b, a.1);
    SkipSound(b, a.1);
    var after := b[a.1..p];
    var m := m0.(after := after);
    AfterIrrelevant(m0, after);
    GatheredSame(ks0, vs0, out);
    GatheredMore(ks0, vs0, out, a.0.key, a.0.value);
    var more := Upsert(out, a.0.key, a.0.value);
    MembersNone();
    if b[p] == '}' {
      members, ks, vs := [m], [a.0.key], [a.0.value];
      HasClose(b, a.1, after, '}');
      HasConcat(b, pos, MemberText(m), after + "}");
      GatheredSorted(ks0 + ks, vs0 + vs, more);
      MembersCons(m, a.0.key, a.0.value, [], [], []);
      assert [m] + [] == members && [a.0.key] + [] == ks && [a.0.value] + [] == vs;
    } else {
      var rest, ks1, vs1 := MembersSound(b, p + 1, more, ks0 + [a.0.key], vs0 + [a.0.value]);
      members, ks, vs := [m] + rest, [a.0.key] + ks1, [a.0.value] + vs1;
      assert members[1..] == rest && ks0 + [a.0.key] + ks1 == ks0 + ks && vs0 + [a.0.value] + vs1 == vs0 + vs;
      HasHead(b, p, ',', MembersText(rest));
      HasConcat(b, a.1, after, "," + MembersText(rest));
      HasConcat(b, pos, MemberText(m), after + ("," + MembersText(rest)));
      MembersCons(m, a.0.key, a.0.value, rest, ks1, vs1);
    }
  }

  lemma AfterIrrelevant(m: Member, after: string)
    ensures MemberText(m.(after := after)) == MemberText(m)
  {
  }

  lemma MembersCons(m: Member, k: string, v: Value, members: seq<Member>, ks: seq<string>, vs: seq<Value>)
    requires Blanks(m.before) && Blanks(m.mid) && Blanks(m.after) && PiecesMean(m.key, k) && Means(m.value, v)
    requires MembersMean(members, ks, vs)
    ensures MembersMean([m] + members, [k] + ks, [v] + vs)
  {
    hide Means, Blanks, PiecesMean;
  }

  /** A text is read as a value exactly if it is a tree of that value with blanks after it. */
  lemma DocumentExact(s: string, v: Value)
    ensures FromJson(s) == Some(v) <==> exists t, ws :: s == Text(t) + ws && Means(t, v) && Blanks(ws)
  {
    hide ParseValue, Means, Text, Blank;
    if FromJson(s) == Some(v) {
      var t := ValueSound(s, 0);
      var e := ParseValue(s, 0).value.1;
      SkipSound(s, e);
      assert s[0..e] == s[..e] && s == s[..e] + s[e..];
      assert s[e..|s|] == s[e..];
    }
    if t, ws :| s == Text(t) + ws && Means(t, v) && Blanks(ws) { DocumentComplete(s, t, ws, v); }
  }

  lemma DocumentComplete(s: string, t: Tree, ws: string, v: Value)
    requires s == Text(t) + ws && Means(t, v) && Blanks(ws)
    ensures FromJson(s) == Some(v)
  {
    hide ParseValue, Means, Text;
    var e := |Text(t)|;
    assert s[0..e] == Text(t) && s[e..e + |ws|] == ws;
    assert ws != [] ==> s[e] == ws[0];
    ValueComplete(s, 0, t, v);
    SkipIs(s, e, ws);
  }
}
