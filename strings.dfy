/**
 * String operations with the semantics of the JavaScript built-ins the relay uses:
 * `String.prototype.trim`, `startsWith`, `split` on one character and `Array.prototype.join`.
 * Strings are sequences of Unicode scalar values; UTF-16 code units are not modelled.
 */
module Strings {

  /** The characters `trim` removes: ECMAScript's WhiteSpace and LineTerminator code points. */
  predicate IsJsWhitespace(c: char) {
    c == '\t' || c == '\n' || c == '\U{000B}' || c == '\U{000C}' || c == '\r' || c == ' '
    || c == '\U{00A0}' || c == '\U{1680}' || ('\U{2000}' <= c <= '\U{200A}')
    || c == '\U{2028}' || c == '\U{2029}' || c == '\U{202F}' || c == '\U{205F}'
    || c == '\U{3000}' || c == '\U{FEFF}'
  }

  /** Every character is whitespace (the empty string included). */
  predicate Blank(s: string) {
    forall i :: 0 <= i < |s| ==> IsJsWhitespace(s[i])
  }

  /** Neither end is whitespace: what `trim` returns. */
  predicate Clean(s: string) {
    s == [] || (!IsJsWhitespace(s[0]) && !IsJsWhitespace(s[|s| - 1]))
  }

  /** `trimStart`: the suffix left after the leading whitespace. */
  function TrimStart(s: string): string {
    if |s| > 0 && IsJsWhitespace(s[0]) then TrimStart(s[1..]) else s
  }

  /** `trimEnd`: the prefix left before the trailing whitespace. */
  function TrimEnd(s: string): string {
    if |s| > 0 && IsJsWhitespace(s[|s| - 1]) then TrimEnd(s[..|s| - 1]) else s
  }

  /** `trim`: `s` without whitespace at either end. */
  function Trim(s: string): string {
    TrimEnd(TrimStart(s))
  }

  /** `trimStart` removes exactly the leading whitespace. */
  lemma {:induction false} TrimStartSpec(s: string)
    ensures var r := TrimStart(s);
      && |r| <= |s| && r == s[|s| - |r|..]
      && (r == [] || !IsJsWhitespace(r[0]))
      && Blank(s[..|s| - |r|])
  {
    if |s| > 0 && IsJsWhitespace(s[0]) {
      TrimStartSpec(s[1..]);
      var r := TrimStart(s[1..]);
      assert s[..|s| - |r|] == [s[0]] + s[1..][..|s| - 1 - |r|];
    }
  }

  /** `trimEnd` removes exactly the trailing whitespace. */
  lemma {:induction false} TrimEndSpec(s: string)
    ensures var r := TrimEnd(s);
      && |r| <= |s| && r == s[..|r|]
      && (r == [] || !IsJsWhitespace(r[|r| - 1]))
      && Blank(s[|r|..])
  {
    if |s| > 0 && IsJsWhitespace(s[|s| - 1]) {
      TrimEndSpec(s[..|s| - 1]);
      var r := TrimEnd(s[..|s| - 1]);
      assert s[|r|..] == s[..|s| - 1][|r|..] + [s[|s| - 1]];
    }
  }

  /**
   * `trim` leaves no whitespace at either end, yields the empty string exactly for an
   * all-whitespace input, and returns a string without outer whitespace unchanged.
   */
  lemma TrimSpec(s: string)
    ensures Clean(Trim(s))
    ensures Trim(s) == [] <==> Blank(s)
    ensures Clean(s) ==> Trim(s) == s
  {
    var t := TrimStart(s);
    var r := TrimEnd(t);
    TrimStartSpec(s);
    TrimEndSpec(t);
    if r == [] {
      assert s == s[..|s| - |t|] + t;
      assert Blank(t[|r|..]);
    }
    if Clean(s) && s != [] {
      assert !IsJsWhitespace(s[0]) && !IsJsWhitespace(s[|s| - 1]);
    }
  }

  /** A leading space is removed by `trim` like any other leading whitespace. */
  lemma TrimLeadingSpace(s: string)
    ensures Trim(" " + s) == Trim(s)
  {
    assert (" " + s)[1..] == s;
    assert IsJsWhitespace((" " + s)[0]);
    assert TrimStart(" " + s) == TrimStart(s);
  }

  /** `s.startsWith(p)`. */
  predicate StartsWith(s: string, p: string) {
    |p| <= |s| && s[..|p|] == p
  }

  /** `parts.join(sep)`. */
  function Join(parts: seq<string>, sep: string): string {
    if |parts| == 0 then ""
    else if |parts| == 1 then parts[0]
    else parts[0] + sep + Join(parts[1..], sep)
  }

  /** `parts.join('')`, built from the back as `s += part` builds it. */
  function Concat(parts: seq<string>): string {
    if |parts| == 0 then "" else Concat(parts[..|parts| - 1]) + parts[|parts| - 1]
  }

  lemma {:induction false} ConcatAppend(a: seq<string>, b: seq<string>)
    ensures Concat(a + b) == Concat(a) + Concat(b)
    decreases |b|
  {
    if |b| == 0 {
      assert a + b == a;
    } else {
      var init, last := b[..|b| - 1], b[|b| - 1];
      assert (a + b)[..|a + b| - 1] == a + init;
      assert (a + b)[|a + b| - 1] == last;
      ConcatAppend(a, init);
      Assoc3(Concat(a), Concat(init), last);
    }
  }

  lemma Assoc3(a: string, b: string, c: string)
    ensures (a + b) + c == a + (b + c)
  {
  }

  /** `s.split(c)` for a one-character separator: the pieces between the separators, always at least one. */
  function Split(s: string, c: char): (r: seq<string>)
    ensures |r| >= 1
  {
    if s == [] then [""]
    else
      var rest := Split(s[1..], c);
      if s[0] == c then [""] + rest else [[s[0]] + rest[0]] + rest[1..]
  }

  /** No piece holds the separator, and joining the pieces with it gives back the input. */
  lemma {:induction false} SplitSpec(s: string, c: char)
    ensures forall i :: 0 <= i < |Split(s, c)| ==> c !in Split(s, c)[i]
    ensures Join(Split(s, c), [c]) == s
  {
    if s != [] {
      var rest := Split(s[1..], c);
      SplitSpec(s[1..], c);
      if s[0] == c {
        assert ([""] + rest)[1..] == rest;
      } else {
        var r := [[s[0]] + rest[0]] + rest[1..];
        assert r[1..] == rest[1..];
        assert Join(r, [c]) == [s[0]] + Join(rest, [c]);
        assert s == [s[0]] + s[1..];
      }
    }
  }

  /** Each line followed by its `'\n'`: the text a list of complete lines came from. */
  function Terminated(lines: seq<string>): string {
    if |lines| == 0 then "" else lines[0] + "\n" + Terminated(lines[1..])
  }

  lemma {:induction false} TerminatedAppend(a: seq<string>, b: seq<string>)
    ensures Terminated(a + b) == Terminated(a) + Terminated(b)
  {
    if |a| > 0 {
      assert (a + b)[1..] == a[1..] + b;
      TerminatedAppend(a[1..], b);
    } else {
      assert a + b == b;
    }
  }

  /** Joining on `'\n'` is terminating every piece but the last. */
  lemma {:induction false} JoinIsTerminated(parts: seq<string>)
    requires |parts| >= 1
    ensures Join(parts, "\n") == Terminated(parts[..|parts| - 1]) + parts[|parts| - 1]
  {
    if |parts| > 1 {
      JoinIsTerminated(parts[1..]);
      assert parts[1..][..|parts| - 2] == parts[..|parts| - 1][1..];
    }
  }

  /** Splitting undoes terminating: the decomposition into newline-free lines and a tail is unique. */
  lemma {:induction false} SplitTerminated(lines: seq<string>, tail: string)
    requires forall i :: 0 <= i < |lines| ==> '\n' !in lines[i]
    requires '\n' !in tail
    ensures Split(Terminated(lines) + tail, '\n') == lines + [tail]
  {
    if |lines| == 0 {
      SplitNoSeparator(tail, '\n');
      assert Terminated(lines) + tail == tail;
    } else {
      var rest := Terminated(lines[1..]) + tail;
      SplitTerminated(lines[1..], tail);
      assert Terminated(lines) + tail == lines[0] + ['\n'] + rest;
      SplitAfterPiece(lines[0], rest, '\n');
      assert lines == [lines[0]] + lines[1..];
    }
  }

  lemma {:induction false} SplitNoSeparator(s: string, c: char)
    requires c !in s
    ensures Split(s, c) == [s]
  {
    if s != [] {
      SplitNoSeparator(s[1..], c);
      assert s[0] != c by { assert s[0] in s; }
      var rest := Split(s[1..], c);
      assert rest[0] == s[1..] && rest[1..] == [];
      assert [s[0]] + s[1..] == s;
    }
  }

  /** A separator-free piece followed by the separator splits off as the first piece. */
  lemma {:induction false} SplitAfterPiece(piece: string, rest: string, c: char)
    requires c !in piece
    ensures Split(piece + [c] + rest, c) == [piece] + Split(rest, c)
  {
    if piece == [] {
      assert piece + [c] + rest == [c] + rest;
      assert ([c] + rest)[1..] == rest;
    } else {
      SplitAfterPiece(piece[1..], rest, c);
      assert (piece + [c] + rest)[1..] == piece[1..] + [c] + rest;
      assert [piece[0]] + piece[1..] == piece;
    }
  }

  /** The complete lines of a received text: everything `split('\n')` yields except the unterminated tail. */
  function CompleteLines(s: string): seq<string> {
    var pieces := Split(s, '\n');
    pieces[..|pieces| - 1]
  }

  /** The unterminated tail of a received text: the text after its last `'\n'`. */
  function Tail(s: string): string {
    var pieces := Split(s, '\n');
    pieces[|pieces| - 1]
  }

  /** The received text is its complete lines, each with its `'\n'`, then the tail, which holds no `'\n'`. */
  lemma LinesAndTail(s: string)
    ensures s == Terminated(CompleteLines(s)) + Tail(s)
    ensures '\n' !in Tail(s)
    ensures forall i :: 0 <= i < |CompleteLines(s)| ==> '\n' !in CompleteLines(s)[i]
  {
    var pieces := Split(s, '\n');
    SplitSpec(s, '\n');
    JoinIsTerminated(pieces);
    assert forall i :: 0 <= i < |pieces| - 1 ==> CompleteLines(s)[i] == pieces[i];
  }

  /** Splitting the buffer after a chunk moves its complete lines over and keeps the received text. */
  lemma Regroup(lines: seq<string>, buffer: string, chunk: string)
    requires forall i :: 0 <= i < |lines| ==> '\n' !in lines[i]
    ensures var text := buffer + chunk; var all := lines + CompleteLines(text);
      && Terminated(lines) + buffer + chunk == Terminated(all) + Tail(text)
      && (forall i :: 0 <= i < |all| ==> '\n' !in all[i])
      && '\n' !in Tail(text)
  {
    var text := buffer + chunk;
    var complete, t := CompleteLines(text), Tail(text);
    LinesAndTail(text);
    TerminatedAppend(lines, complete);
    var a, b := Terminated(lines), Terminated(complete);
    Assoc3(a, buffer, chunk);
    Assoc3(a, b, t);
    var all := lines + complete;
    forall i | 0 <= i < |all|
      ensures '\n' !in all[i]
    {
      if i >= |lines| {
        assert all[i] == complete[i - |lines|];
      }
    }
  }
}
