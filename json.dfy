/**
 * JSON values as `JSON.parse` returns them and `JSON.stringify` writes them (RFC 8259).
 * Objects keep their fields in insertion order; numbers are integers only.
 * Property access follows JavaScript: an absent property is `None` (`undefined`).
 */
module Json {
  import opened Wrappers
  import Strings

  datatype Json =
    | JNull
    | JBool(b: bool)
    | JNum(n: int)
    | JStr(s: string)
    | JArr(items: seq<Json>)
    | JObj(fields: seq<Field>)

  datatype Field = Field(key: string, value: Json)

  /** JavaScript truthiness of a JSON value. */
  predicate Truthy(v: Json) {
    match v
    case JNull => false
    case JBool(b) => b
    case JNum(n) => n != 0
    case JStr(s) => s != ""
    case _ => true
  }

  /** Truthiness of a property read, where `undefined` is falsy. */
  predicate Present(v: Option<Json>) {
    v.Some? && Truthy(v.value)
  }

  /** The last field with key `key`, as `JSON.parse` keeps the last of duplicate keys. */
  function Lookup(fields: seq<Field>, key: string): Option<Json> {
    if |fields| == 0 then None
    else if fields[|fields| - 1].key == key then Some(fields[|fields| - 1].value)
    else Lookup(fields[..|fields| - 1], key)
  }

  /** A lookup finds nothing exactly when no field has the key, and otherwise finds a field's value. */
  lemma {:induction false} LookupSpec(fields: seq<Field>, key: string)
    ensures Lookup(fields, key).None? <==> forall i :: 0 <= i < |fields| ==> fields[i].key != key
    ensures Lookup(fields, key).Some? ==>
      exists i :: 0 <= i < |fields| && fields[i] == Field(key, Lookup(fields, key).value)
  {
    if |fields| > 0 && fields[|fields| - 1].key != key {
      var init := fields[..|fields| - 1];
      LookupSpec(init, key);
      assert forall i :: 0 <= i < |init| ==> init[i] == fields[i];
    }
  }

  /** `v.key`: only objects carry the properties the relay reads. */
  function Get(v: Json, key: string): Option<Json> {
    match v
    case JObj(fields) => Lookup(fields, key)
    case _ => None
  }

  /** `v[0]`: an array's first element, an object's `"0"` field, a string's first character. */
  function First(v: Json): Option<Json> {
    match v
    case JArr(items) => if |items| > 0 then Some(items[0]) else None
    case JObj(fields) => Lookup(fields, "0")
    case JStr(s) => if |s| > 0 then Some(JStr([s[0]])) else None
    case _ => None
  }

  function HexDigit(d: nat): char
    requires d < 16
  {
    if d < 10 then ('0' as int + d) as char else ('a' as int + d - 10) as char
  }

  /** How `JSON.stringify` writes one character of a string. */
  function EscapeChar(c: char): (r: string)
    ensures '\n' !in r
  {
    if c == '"' then "\\\""
    else if c == '\\' then "\\\\"
    else if c == '\n' then "\\n"
    else if c == '\r' then "\\r"
    else if c == '\t' then "\\t"
    else if c == '\U{0008}' then "\\b"
    else if c == '\U{000C}' then "\\f"
    else if c < ' ' then "\\u00" + [HexDigit(c as int / 16), HexDigit(c as int % 16)]
    else [c]
  }

  function Escape(s: string): (r: string)
    ensures '\n' !in r
  {
    if s == [] then "" else EscapeChar(s[0]) + Escape(s[1..])
  }

  function Quote(s: string): string {
    "\"" + Escape(s) + "\""
  }

  function Digits(n: nat): string {
    if n < 10 then [HexDigit(n)] else Digits(n / 10) + [HexDigit(n % 10)]
  }

  function NumberText(n: int): string {
    if n < 0 then "-" + Digits(-n) else Digits(n)
  }

  /** `JSON.stringify(v)` without indentation. */
  function Stringify(v: Json): string {
    match v
    case JNull => "null"
    case JBool(b) => if b then "true" else "false"
    case JNum(n) => NumberText(n)
    case JStr(s) => Quote(s)
    case JArr(items) =>
      "[" + Strings.Join(seq(|items|, i requires 0 <= i < |items| => Stringify(items[i])), ",") + "]"
    case JObj(fields) =>
      "{" + Strings.Join(seq(|fields|, i requires 0 <= i < |fields| =>
                               Quote(fields[i].key) + ":" + Stringify(fields[i].value)), ",") + "}"
  }

  /**
   * `String(v)`, the conversion `+=` applies when a value is added to a string. Inside an
   * array, `join` writes `null` as the empty string.
   */
  function ToJsString(v: Json): string {
    match v
    case JNull => "null"
    case JBool(b) => if b then "true" else "false"
    case JNum(n) => NumberText(n)
    case JStr(s) => s
    case JArr(items) =>
      Strings.Join(seq(|items|, i requires 0 <= i < |items| =>
                         if items[i] == JNull then "" else ToJsString(items[i])), ",")
    case JObj(_) => "[object Object]"
  }

  lemma {:induction false} DigitsNotEmpty(n: nat)
    ensures Digits(n) != ""
  {
    if n >= 10 {
      DigitsNotEmpty(n / 10);
    }
  }

  /**
   * A string converts to itself; a number or boolean converts as `JSON.stringify` writes it;
   * every other truthy value but an array converts to a non-empty string.
   */
  lemma ToJsStringSpec(v: Json)
    ensures v.JStr? ==> ToJsString(v) == v.s
    ensures v.JNum? || v.JBool? || v.JNull? ==> ToJsString(v) == Stringify(v)
    ensures Truthy(v) && !v.JArr? ==> ToJsString(v) != ""
  {
    if v.JNum? {
      DigitsNotEmpty(if v.n < 0 then -v.n else v.n);
    }
  }

  /** An array of `null`s converts to separators only: `String([null]) == ""` although `[null]` is truthy. */
  lemma NullArrayConvertsToCommas(k: nat)
    requires k >= 1
    ensures Truthy(JArr(seq(k, _ => JNull)))
    ensures ToJsString(JArr(seq(k, _ => JNull))) == Strings.Join(seq(k, _ => ""), ",")
  {
    var items := seq(k, _ => JNull);
    assert seq(|items|, i requires 0 <= i < |items| =>
                 if items[i] == JNull then "" else ToJsString(items[i])) == seq(k, _ => "");
  }

  /** A character `JSON.stringify` writes as itself. */
  predicate Plain(c: char) {
    c >= ' ' && c != '"' && c != '\\'
  }

  lemma {:induction false} EscapePlain(s: string)
    requires forall i :: 0 <= i < |s| ==> Plain(s[i])
    ensures Escape(s) == s
  {
    if s != [] {
      EscapePlain(s[1..]);
      assert s == [s[0]] + s[1..];
    }
  }

  lemma HexDigitInjective(d1: nat, d2: nat)
    requires d1 < 16 && d2 < 16 && HexDigit(d1) == HexDigit(d2)
    ensures d1 == d2
  {
  }

  /** No escape sequence is a prefix of another: the first character is recovered from the text. */
  lemma EscapeCharPrefixFree(c1: char, c2: char, x: string, y: string)
    requires EscapeChar(c1) + x == EscapeChar(c2) + y
    ensures c1 == c2
  {
    var r1, r2 := EscapeChar(c1), EscapeChar(c2);
    assert (r1 + x)[0] == r1[0] && (r2 + y)[0] == r2[0];
    if |r1| >= 2 && |r2| >= 2 {
      assert (r1 + x)[1] == r1[1] && (r2 + y)[1] == r2[1];
      if r1[1] == 'u' {
        assert (r1 + x)[4] == r1[4] && (r2 + y)[4] == r2[4];
        assert (r1 + x)[5] == r1[5] && (r2 + y)[5] == r2[5];
        HexDigitInjective(c1 as int / 16, c2 as int / 16);
        HexDigitInjective(c1 as int % 16, c2 as int % 16);
      }
    }
  }

  /** Escaping loses nothing: different strings are written differently. */
  lemma {:induction false} EscapeInjective(a: string, b: string)
    requires Escape(a) == Escape(b)
    ensures a == b
  {
    if a != [] && b != [] {
      var ra, rb := EscapeChar(a[0]), EscapeChar(b[0]);
      EscapeCharPrefixFree(a[0], b[0], Escape(a[1..]), Escape(b[1..]));
      assert Escape(a)[|ra|..] == Escape(a[1..]);
      assert Escape(b)[|rb|..] == Escape(b[1..]);
      EscapeInjective(a[1..], b[1..]);
      assert a == [a[0]] + a[1..] && b == [b[0]] + b[1..];
    }
  }

  lemma StringifySingle(k: string, v: Json)
    ensures Stringify(JObj([Field(k, v)])) == "{" + Quote(k) + ":" + Stringify(v) + "}"
  {
    var fields := [Field(k, v)];
    var parts := seq(|fields|, i requires 0 <= i < |fields| =>
                       Quote(fields[i].key) + ":" + Stringify(fields[i].value));
    assert parts == [Quote(k) + ":" + Stringify(v)];
  }

  lemma StringifyPair(k1: string, v1: Json, k2: string, v2: Json)
    ensures Stringify(JObj([Field(k1, v1), Field(k2, v2)]))
         == "{" + Quote(k1) + ":" + Stringify(v1) + "," + Quote(k2) + ":" + Stringify(v2) + "}"
  {
    var fields := [Field(k1, v1), Field(k2, v2)];
    var parts := seq(|fields|, i requires 0 <= i < |fields| =>
                       Quote(fields[i].key) + ":" + Stringify(fields[i].value));
    var a, b := Quote(k1) + ":" + Stringify(v1), Quote(k2) + ":" + Stringify(v2);
    assert parts == [a, b];
    assert parts[1..] == [b];
    assert Strings.Join(parts, ",") == a + "," + b;
    Flatten(Quote(k1), Stringify(v1), Quote(k2), Stringify(v2));
  }

  lemma Flatten(q1: string, s1: string, q2: string, s2: string)
    ensures "{" + ((q1 + ":" + s1) + "," + (q2 + ":" + s2)) + "}" == "{" + q1 + ":" + s1 + "," + q2 + ":" + s2 + "}"
  {
  }

  /** An object is written between braces. */
  lemma ObjectIsBraced(fields: seq<Field>)
    ensures var s := Stringify(JObj(fields)); |s| >= 2 && s[0] == '{' && s[|s| - 1] == '}'
  {
    var inner := Strings.Join(seq(|fields|, i requires 0 <= i < |fields| =>
                                    Quote(fields[i].key) + ":" + Stringify(fields[i].value)), ",");
    assert Stringify(JObj(fields)) == "{" + inner + "}";
  }

  lemma {:induction false} DigitsOneLine(n: nat)
    ensures '\n' !in Digits(n)
  {
    if n >= 10 {
      DigitsOneLine(n / 10);
    }
  }

  lemma {:induction false} JoinOneLine(parts: seq<string>, sep: string)
    requires forall i :: 0 <= i < |parts| ==> '\n' !in parts[i]
    requires '\n' !in sep
    ensures '\n' !in Strings.Join(parts, sep)
  {
    if |parts| > 1 {
      JoinOneLine(parts[1..], sep);
    }
  }

  /** `JSON.stringify` never writes a line break: newlines inside strings are escaped. */
  lemma {:induction false} StringifyOneLine(v: Json)
    ensures '\n' !in Stringify(v)
  {
    match v
    case JNum(n) =>
      DigitsOneLine(if n < 0 then -n else n);
    case JArr(items) =>
      var parts := seq(|items|, i requires 0 <= i < |items| => Stringify(items[i]));
      forall i | 0 <= i < |items|
        ensures '\n' !in parts[i]
      {
        StringifyOneLine(items[i]);
      }
      JoinOneLine(parts, ",");
    case JObj(fields) =>
      var parts := seq(|fields|, i requires 0 <= i < |fields| =>
                         Quote(fields[i].key) + ":" + Stringify(fields[i].value));
      forall i | 0 <= i < |fields|
        ensures '\n' !in parts[i]
      {
        StringifyOneLine(fields[i].value);
      }
      JoinOneLine(parts, ",");
    case _ =>
  }

  /** An object is written on one line between braces, so trimming leaves it unchanged. */
  lemma ObjectIsOneCleanLine(fields: seq<Field>)
    ensures var s := Stringify(JObj(fields));
      '\n' !in s && |s| >= 2 && s[0] == '{' && s[|s| - 1] == '}' && Strings.Clean(s)
  {
    StringifyOneLine(JObj(fields));
    ObjectIsBraced(fields);
  }
}
