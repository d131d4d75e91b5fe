/** The JSON printer and parser as they run: one appends to a string, the other moves a position. */
module JsonRun {
  import opened Common
  import opened Decimal
  import opened Json

  class Printer {
    var out: string

    constructor ()
      ensures out == ""
    {
      out := "";
    }

    method Text(s: string)
      modifies this
      ensures out == old(out) + PrintStr(s)
    {
      hide Escape;
      out := out + "\"";
      for i := 0 to |s|
        invariant out + (Escaped(s[i..]) + "\"") == old(out) + PrintStr(s)
      {
        assert s[i..][1..] == s[i + 1..];
        ghost var rest := Escaped(s[i + 1..]) + "\"";
        assert out + (Escaped(s[i..]) + "\"") == out + Escape(s[i]) + rest;
        out := out + Escape(s[i]);
      }
      assert s[|s|..] == "";
      out := out + "\"";
    }

    method Value(v: Value) returns (r: Result<()>)
      modifies this
      ensures r.Ok? <==> Print(v).Ok?
      ensures r.Ok? ==> out == old(out) + Print(v).value
      ensures r.Err? ==> r.error == PrimError
      decreases v, 0
    {
      match v {
        case VInt(n) => out := out + IntText(n);
        case VFloat(text) => out := out + text;
        case VBool(b) => out := out + if b then "true" else "false";
        case VNull => out := out + "null";
        case VStr(s) => Text(s);
        case VPath(s) => Text(s);
        case VList(items) =>
          out := out + "[";
          var _ :- Items(items);
          out := out + "]";
        case VSet(attrs) =>
          out := out + "{";
          var _ :- Attrs(attrs);
          out := out + "}";
        case VFun => return Err(PrimError);
      }
      return Ok(());
    }

    method Items(items: seq<Value>) returns (r: Result<()>)
      modifies this
      ensures r.Ok? <==> PrintItems(items).Ok?
      ensures r.Ok? ==> out == old(out) + PrintItems(items).value
      ensures r.Err? ==> r.error == PrimError
      decreases items, 1
    {
      hide Print;
      ghost var all := PrintItems(items);
      ghost var start := out;
      for i := 0 to |items|
        invariant i == 0 ==> out == start
        invariant i < |items| ==> (all.Ok? <==> PrintItems(items[i..]).Ok?)
        invariant i < |items| && all.Ok? && i > 0 ==> start + all.value == out + ("," + PrintItems(items[i..]).value)
        invariant i == |items| ==> all.Ok? && (i > 0 ==> start + all.value == out)
      {
        assert items[i..][1..] == items[i + 1..];
        if i == 0 { assert items[0..] == items; }
        if i > 0 { out := out + ","; }
        assert all.Ok? ==> start + all.value == out + PrintItems(items[i..]).value;
        var _ :- Value(items[i]);
      }
      return Ok(());
    }

    method Attrs(attrs: seq<Attr>) returns (r: Result<()>)
      modifies this
      ensures r.Ok? <==> PrintAttrs(attrs).Ok?
      ensures r.Ok? ==> out == old(out) + PrintAttrs(attrs).value
      ensures r.Err? ==> r.error == PrimError
      decreases attrs, 1
    {
      hide Print, PrintStr;
      ghost var all := PrintAttrs(attrs);
      ghost var start := out;
      for i := 0 to |attrs|
        invariant i == 0 ==> out == start
        invariant i < |attrs| ==> (all.Ok? <==> PrintAttrs(attrs[i..]).Ok?)
        invariant i < |attrs| && all.Ok? && i > 0 ==> start + all.value == out + ("," + PrintAttrs(attrs[i..]).value)
        invariant i == |attrs| ==> all.Ok? && (i > 0 ==> start + all.value == out)
      {
        assert attrs[i..][1..] == attrs[i + 1..];
        if i == 0 { assert attrs[0..] == attrs; }
        if i > 0 { out := out + ","; }
        assert all.Ok? ==> start + all.value == out + PrintAttrs(attrs[i..]).value;
        var _ :- Entry(attrs[i]);
      }
      return Ok(());
    }

    method Entry(a: Attr) returns (r: Result<()>)
      modifies this
      ensures r.Ok? <==> Print(a.value).Ok?
      ensures r.Ok? ==> out == old(out) + (PrintStr(a.key) + (":" + Print(a.value).value))
      ensures r.Err? ==> r.error == PrimError
      decreases a, 0
    {
      hide Print, PrintStr;
      Text(a.key);
      out := out + ":";
      var _ :- Value(a.value);
      return Ok(());
    }
  }

  class Parser {
    const b: string
    var pos: nat

    constructor (b: string)
      ensures this.b == b && pos == 0
    {
      this.b := b;
      pos := 0;
    }

    method Blanks()
      modifies this
      ensures pos == SkipWs(b, old(pos))
    {
      while pos < |b| && Blank(b[pos])
        invariant SkipWs(b, pos) == SkipWs(b, old(pos))
      {
        pos := pos + 1;
      }
    }

    method Number() returns (r: Option<Value>)
      requires pos <= |b|
      modifies this
      ensures ParseNumber(b, old(pos)) == if r.Some? then Some((r.value, pos)) else None
    {
      var start, isFloat := pos, false;
      while pos < |b| && Numeric(b[pos])
        invariant start <= pos <= |b| && NumberEnd(b, pos) == NumberEnd(b, start)
        invariant isFloat <==> exists i :: 0 <= i < |b[start..pos]| && FloatMark(b[start..pos][i])
      {
        assert b[start..pos + 1] == b[start..pos] + [b[pos]];
        if FloatMark(b[pos]) {
          isFloat := true;
          assert FloatMark(b[start..pos + 1][pos - start]);
        } else if isFloat {
          ghost var i :| 0 <= i < |b[start..pos]| && FloatMark(b[start..pos][i]);
          assert FloatMark(b[start..pos + 1][i]);
        }
        pos := pos + 1;
      }
      var text := b[start..pos];
      if isFloat { return if FloatText(text) then Some(VFloat(text)) else None; }
      match ParseInt(text)
      case None => return None;
      case Some(n) => return Some(VInt(n));
    }

    /** A string literal; the position is on its opening quote. */
    method Literal() returns (r: Option<string>)
      modifies this
      ensures ParseChars(b, old(pos) + 1, "") == if r.Some? then Some((r.value, pos)) else None
    {
      hide Unescape;
      pos := pos + 1;
      var out := "";
      while pos < |b|
        invariant ParseChars(b, pos, out) == ParseChars(b, old(pos) + 1, "")
      {
        if b[pos] == '\"' {
          pos := pos + 1;
          return Some(out);
        } else if b[pos] == '\\' {
          var e := Unescape(b, pos + 1);
          if e.None? { return None; }
          out := out + [e.value.c];
          pos := pos + 1 + e.value.width;
        } else {
          out := out + [b[pos]];
          pos := pos + 1;
        }
      }
      return None;
    }

    method Word(lit: string, v: Value) returns (r: Option<Value>)
      modifies this
      ensures ParseLit(b, old(pos), lit, v) == if r.Some? then Some((r.value, pos)) else None
    {
      if pos + |lit| <= |b| && b[pos..pos + |lit|] == lit {
        pos := pos + |lit|;
        return Some(v);
      }
      return None;
    }

    method Value() returns (r: Option<Value>)
      requires pos <= |b|
      modifies this
      ensures ParseValue(b, old(pos)) == if r.Some? then Some((r.value, pos)) else None
      decreases |b| - pos, 1
    {
      hide SkipWs, ParseArray, ParseObject, ParseChars, ParseNumber, ParseLit;
      Blanks();
      if pos >= |b| { return None; }
      var c := b[pos];
      if c == '{' {
        r := Object();
      } else if c == '[' {
        r := Array();
      } else if c == '\"' {
        var s := Literal();
        if s.Some? { return Some(VStr(s.value)); }
        return None;
      } else if c == 't' {
        r := Word("true", VBool(true));
      } else if c == 'f' {
        r := Word("false", VBool(false));
      } else if c == 'n' {
        r := Word("null", VNull);
      } else if c == '-' || Digit(c) {
        r := Number();
      } else {
        return None;
      }
    }

    method Array() returns (r: Option<Value>)
      requires pos < |b|
      modifies this
      ensures ParseArray(b, old(pos)) == if r.Some? then Some((r.value, pos)) else None
      decreases |b| - pos, 0
    {
      hide SkipWs, ParseValue;
      ghost var start := pos;
      pos := pos + 1;
      Blanks();
      if pos < |b| && b[pos] == ']' {
        pos := pos + 1;
        return Some(VList([]));
      }
      var out: seq<Value> := [];
      while true
        invariant start < pos <= |b| && ParseItems(b, pos, out) == ParseArray(b, start)
        decreases |b| - pos
      {
        var v := Value();
        if v.None? { return None; }
        out := out + [v.value];
        Blanks();
        if pos < |b| && b[pos] == ',' {
          pos := pos + 1;
        } else if pos < |b| && b[pos] == ']' {
          pos := pos + 1;
          return Some(VList(out));
        } else {
          return None;
        }
      }
    }

    method Entry() returns (r: Option<Attr>)
      requires pos <= |b|
      modifies this
      ensures ParseAttr(b, old(pos)) == if r.Some? then Some((r.value, pos)) else None
      decreases |b| - pos, 2
    {
      hide SkipWs, ParseValue, ParseChars;
      Blanks();
      if pos >= |b| || b[pos] != '\"' { return None; }
      var key := Literal();
      if key.None? { return None; }
      Blanks();
      if pos >= |b| || b[pos] != ':' { return None; }
      pos := pos + 1;
      var v := Value();
      if v.None? { return None; }
      return Some(Attr(key.value, v.value));
    }

    method Object() returns (r: Option<Value>)
      requires pos < |b|
      modifies this
      ensures ParseObject(b, old(pos)) == if r.Some? then Some((r.value, pos)) else None
      decreases |b| - pos, 0
    {
      hide SkipWs, ParseAttr;
      ghost var start := pos;
      pos := pos + 1;
      Blanks();
      if pos < |b| && b[pos] == '}' {
        pos := pos + 1;
        return Some(VSet([]));
      }
      var out: seq<Attr> := [];
      while true
        invariant start < pos <= |b| && ParseAttrs(b, pos, out) == ParseObject(b, start)
        decreases |b| - pos
      {
        var a := Entry();
        if a.None? { return None; }
        out := Upsert(out, a.value.key, a.value.value);
        Blanks();
        if pos < |b| && b[pos] == ',' {
          pos := pos + 1;
        } else if pos < |b| && b[pos] == '}' {
          pos := pos + 1;
          return Some(VSet(SortAttrs(out)));
        } else {
          return None;
        }
      }
    }
  }

  method FromJsonText(s: string) returns (r: Option<Value>)
    ensures r == FromJson(s)
  {
    hide ParseValue;
    var p := new Parser(s);
    var v := p.Value();
    if v.None? { return None; }
    p.Blanks();
    if p.pos != |s| { return None; }
    return v;
  }

  method ToJsonText(v: Value) returns (r: Result<string>)
    ensures r == ToJson(v)
  {
    hide Print;
    PrintErr(v);
    var p := new Printer();
    var _ :- p.Value(v);
    assert p.out == Print(v).value;
    return Ok(p.out);
  }

  lemma {:induction false} PrintErr(v: Value)
    ensures Print(v).Err? ==> Print(v).error == PrimError
    decreases v, 0
  {
    match v
    case VList(items) => ItemsErr(items);
    case VSet(attrs) => AttrsErr(attrs);
    case _ =>
  }

  lemma {:induction false} ItemsErr(items: seq<Value>)
    ensures PrintItems(items).Err? ==> PrintItems(items).error == PrimError
    decreases items, 1
  {
    if items != [] {
      PrintErr(items[0]);
      ItemsErr(items[1..]);
    }
  }

  lemma {:induction false} AttrsErr(attrs: seq<Attr>)
    ensures PrintAttrs(attrs).Err? ==> PrintAttrs(attrs).error == PrimError
    decreases attrs, 1
  {
    if attrs != [] {
      PrintErr(attrs[0].value);
      AttrsErr(attrs[1..]);
    }
  }
}
