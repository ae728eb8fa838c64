/**
 * ODBC connection-string attributes: `key=value` pairs separated by ';',
 * where a value is either plain text up to the next ';' or enclosed in
 * braces, with a '}' inside it written twice.
 */
module Odbc {
  import opened Wrappers

  /** An attribute of a connection string. */
  datatype Attribute = Attribute(key: string, value: string)

  /** Splits `s` at the first `c`: the text before it, and the rest starting with it (empty if there is none). */
  function ReadUntil(s: string, c: char): (r: (string, string))
    ensures r.0 + r.1 == s
    ensures c !in r.0
    ensures r.1 == [] || r.1[0] == c
    decreases |s|
  {
    if |s| == 0 || s[0] == c then ([], s)
    else
      var (a, b) := ReadUntil(s[1..], c);
      ([s[0]] + a, b)
  }

  /** `ReadUntil` stops at the first occurrence. */
  lemma {:induction false} ReadUntilStopsAtFirst(a: string, b: string, c: char)
    requires c !in a
    requires b == [] || b[0] == c
    ensures ReadUntil(a + b, c) == (a, b)
    decreases |a|
  {
    if |a| > 0 {
      assert (a + b)[0] == a[0] && a[0] != c;
      assert (a + b)[1..] == a[1..] + b;
      ReadUntilStopsAtFirst(a[1..], b, c);
      assert [a[0]] + a[1..] == a;
    } else {
      assert a + b == b;
    }
  }

  /** The inside of a braced value: every '}' doubled. */
  function Escape(v: string): (e: string)
    ensures |e| >= |v|
    decreases |v|
  {
    if |v| == 0 then []
    else (if v[0] == '}' then "}}" else [v[0]]) + Escape(v[1..])
  }

  /**
   * Reads the inside of a braced value (the text after '{'): the value up to
   * the closing '}' with doubled '}' undone, and the text after the brace;
   * `None` when the brace is never closed.
   */
  function ReadBraced(s: string): (r: Option<(string, string)>)
    ensures r.Some? ==> |r.value.1| < |s|
    decreases |s|
  {
    if |s| == 0 then None
    else if s[0] == '}' then
      if |s| >= 2 && s[1] == '}' then
        match ReadBraced(s[2..])
        case None => None
        case Some((v, rest)) => Some(("}" + v, rest))
      else Some(([], s[1..]))
    else
      match ReadBraced(s[1..])
      case None => None
      case Some((v, rest)) => Some(([s[0]] + v, rest))
  }

  /** Reading a braced value undoes escaping it, whatever the value holds. */
  lemma {:induction false} ReadBracedEscape(v: string, rest: string)
    requires rest == [] || rest[0] != '}'
    ensures ReadBraced(Escape(v) + "}" + rest) == Some((v, rest))
    decreases |v|
  {
    var s := Escape(v) + "}" + rest;
    if |v| == 0 {
      assert s == "}" + rest;
      assert s[1..] == rest;
    } else if v[0] == '}' {
      assert s == "}}" + (Escape(v[1..]) + "}" + rest);
      assert s[2..] == Escape(v[1..]) + "}" + rest;
      ReadBracedEscape(v[1..], rest);
      assert "}" + v[1..] == v;
    } else {
      assert s == [v[0]] + (Escape(v[1..]) + "}" + rest);
      assert s[1..] == Escape(v[1..]) + "}" + rest;
      ReadBracedEscape(v[1..], rest);
      assert [v[0]] + v[1..] == v;
    }
  }

  /** Reads the attribute list of a connection string; `None` when it is malformed. */
  function Parse(s: string): (r: Option<seq<Attribute>>)
    decreases |s|
  {
    if |s| == 0 then Some([])
    else
      var (key, afterKey) := ReadUntil(s, '=');
      if afterKey == [] then None
      else
        var v := afterKey[1..];
        var valueAndRest :=
          if |v| > 0 && v[0] == '{' then ReadBraced(v[1..])
          else Some(ReadUntil(v, ';'));
        match valueAndRest
        case None => None
        case Some((value, rest)) =>
          if rest == [] then Some([Attribute(key, value)])
          else if rest[0] != ';' then None
          else
            match Parse(rest[1..])
            case None => None
            case Some(more) => Some([Attribute(key, value)] + more)
  }

  /** A value the reader takes as it is, without braces: no ';' in it and no '{' in front. */
  predicate PlainValue(v: string) {
    ';' !in v && (v == [] || v[0] != '{')
  }

  /** An unbraced `key=value;` in front of the rest reads as that attribute followed by the rest's attributes. */
  lemma PlainAttribute(key: string, value: string, rest: string)
    requires '=' !in key
    requires PlainValue(value)
    requires Parse(rest).Some?
    ensures Parse(key + "=" + value + ";" + rest) == Some([Attribute(key, value)] + Parse(rest).value)
  {
    var tail := ";" + rest;
    var v := value + tail;
    var afterKey := "=" + v;
    var s := key + afterKey;
    assert s == key + "=" + value + ";" + rest;
    assert ReadUntil(s, '=') == (key, afterKey) by {
      ReadUntilStopsAtFirst(key, afterKey, '=');
    }
    assert afterKey[1..] == v;
    assert !(|v| > 0 && v[0] == '{') by {
      if value == [] { assert v == tail; }
    }
    assert ReadUntil(v, ';') == (value, tail) by {
      ReadUntilStopsAtFirst(value, tail, ';');
    }
    assert tail[1..] == rest;
    ParseOneAttribute(s, key, afterKey, value, tail);
  }

  /** A braced `key={text};` whose text reads as `value` reads as that attribute followed by the rest's attributes. */
  lemma BracedStep(key: string, text: string, value: string, rest: string)
    requires '=' !in key
    requires ReadBraced(text + "}" + (";" + rest)) == Some((value, ";" + rest))
    requires Parse(rest).Some?
    ensures Parse(key + "=" + ("{" + text + "}") + ";" + rest) == Some([Attribute(key, value)] + Parse(rest).value)
  {
    var tail := ";" + rest;
    var inner := text + "}" + tail;
    var afterKey := "=" + ("{" + inner);
    var s := key + afterKey;
    assert s == key + "=" + ("{" + text + "}") + ";" + rest;
    assert ReadUntil(s, '=') == (key, afterKey) by {
      ReadUntilStopsAtFirst(key, afterKey, '=');
    }
    assert afterKey[1..][1..] == inner;
    assert tail[1..] == rest;
    ParseOneAttribute(s, key, afterKey, value, tail);
  }

  /** A braced `key={value};` whose value holds no '}' reads as that attribute followed by the rest's attributes. */
  lemma BracedAttribute(key: string, value: string, rest: string)
    requires '=' !in key
    requires '}' !in value
    requires Parse(rest).Some?
    ensures Parse(key + "=" + ("{" + value + "}") + ";" + rest) == Some([Attribute(key, value)] + Parse(rest).value)
  {
    ReadBracedWithoutBrace(value, ";" + rest);
    BracedStep(key, value, value, rest);
  }

  /** A braced value without '}' ends at the first '}'. */
  lemma ReadBracedWithoutBrace(value: string, rest: string)
    requires '}' !in value
    requires rest == [] || rest[0] != '}'
    ensures ReadBraced(value + "}" + rest) == Some((value, rest))
  {
    EscapeWithoutBrace(value);
    ReadBracedEscape(value, rest);
  }

  /** One step of `Parse`: a key, its value, then ';' and the rest. */
  lemma ParseOneAttribute(s: string, key: string, afterKey: string, value: string, tail: string)
    requires ReadUntil(s, '=') == (key, afterKey)
    requires afterKey != []
    requires var v := afterKey[1..];
             (if |v| > 0 && v[0] == '{' then ReadBraced(v[1..]) else Some(ReadUntil(v, ';'))) == Some((value, tail))
    requires tail != [] && tail[0] == ';'
    requires Parse(tail[1..]).Some?
    ensures Parse(s) == Some([Attribute(key, value)] + Parse(tail[1..]).value)
  {
  }

  /** Escaping changes nothing in a value without '}'. */
  lemma {:induction false} EscapeWithoutBrace(v: string)
    requires '}' !in v
    ensures Escape(v) == v
    decreases |v|
  {
    if |v| > 0 {
      assert v[0] in v;
      assert forall c :: c in v[1..] ==> c in v;
      EscapeWithoutBrace(v[1..]);
      assert [v[0]] + v[1..] == v;
    }
  }

  /** A rendered `key={value};` in front of the rest reads as that attribute, whatever the value holds, followed by the rest's attributes. */
  lemma RenderedAttribute(key: string, value: string, rest: string)
    requires '=' !in key
    requires Parse(rest).Some?
    ensures Parse(key + "=" + Braced(value) + ";" + rest) == Some([Attribute(key, value)] + Parse(rest).value)
  {
    ReadBracedEscape(value, ";" + rest);
    BracedStep(key, Escape(value), value, rest);
  }

  /** A value in braces. */
  function Braced(v: string): string {
    "{" + Escape(v) + "}"
  }

  /** Every attribute written as `key={value};`. */
  function Render(attrs: seq<Attribute>): string
    decreases |attrs|
  {
    if |attrs| == 0 then []
    else attrs[0].key + "=" + Braced(attrs[0].value) + ";" + Render(attrs[1..])
  }

  /** Keys that the reader can find the end of. */
  predicate PlainKeys(attrs: seq<Attribute>) {
    forall i :: 0 <= i < |attrs| ==> '=' !in attrs[i].key
  }

  /** Reading a rendered attribute list gives back every key and value, whatever characters the values hold. */
  lemma {:induction false} ParseRender(attrs: seq<Attribute>)
    requires PlainKeys(attrs)
    ensures Parse(Render(attrs)) == Some(attrs)
    decreases |attrs|
  {
    if |attrs| > 0 {
      var a := attrs[0];
      assert PlainKeys(attrs[1..]) by {
        forall i | 0 <= i < |attrs[1..]|
          ensures '=' !in attrs[1..][i].key
        {
          assert attrs[1..][i] == attrs[i + 1];
        }
      }
      ParseRender(attrs[1..]);
      RenderedAttribute(a.key, a.value, Render(attrs[1..]));
      assert [a] + attrs[1..] == attrs;
    }
  }
}
