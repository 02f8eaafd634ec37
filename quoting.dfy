/**
 * Quoted strings for command arguments (src/client.rs, `quote!` and
 * `validate_str`): a string of section 4.3 of RFC 3501, where backslash and
 * double quote are escaped by a backslash and CR and LF may not appear.
 */
module Quoting {
  import opened Base
  import opened Errors

  /** `str::replace(from, to)` for a single-octet pattern. */
  function ReplaceByte(s: Bytes, from: byte, to: Bytes): Bytes {
    if s == [] then [] else (if s[0] == from then to else [s[0]]) + ReplaceByte(s[1..], from, to)
  }

  lemma {:induction false} ReplaceByteAppend(x: Bytes, y: Bytes, from: byte, to: Bytes)
    ensures ReplaceByte(x + y, from, to) == ReplaceByte(x, from, to) + ReplaceByte(y, from, to)
    decreases |x|
  {
    if x == [] {
      assert x + y == y;
    } else {
      assert (x + y)[0] == x[0];
      assert (x + y)[1..] == x[1..] + y;
      ReplaceByteAppend(x[1..], y, from, to);
    }
  }

  /** One octet of a quoted string's body. */
  function EscapeByte(b: byte): Bytes {
    if b == BACKSLASH || b == DQUOTE then [BACKSLASH, b] else [b]
  }

  /** The escaped body, written in a single pass. */
  function Escape(s: Bytes): Bytes {
    if s == [] then [] else EscapeByte(s[0]) + Escape(s[1..])
  }

  /** `quote!`: the escaped text between double quotes. */
  function Quote(s: Bytes): Bytes {
    [DQUOTE] + ReplaceByte(ReplaceByte(s, BACKSLASH, [BACKSLASH, BACKSLASH]), DQUOTE, [BACKSLASH, DQUOTE]) + [DQUOTE]
  }

  /** The two `replace` passes of `quote!` escape every octet exactly once:
      replacing backslashes first means the backslashes the second pass adds
      are not doubled. */
  lemma {:induction false} TwoPassesEscapeOnce(s: Bytes)
    ensures ReplaceByte(ReplaceByte(s, BACKSLASH, [BACKSLASH, BACKSLASH]), DQUOTE, [BACKSLASH, DQUOTE]) == Escape(s)
    decreases |s|
  {
    if s != [] {
      var h := if s[0] == BACKSLASH then [BACKSLASH, BACKSLASH] else [s[0]];
      assert ReplaceByte(s, BACKSLASH, [BACKSLASH, BACKSLASH]) == h + ReplaceByte(s[1..], BACKSLASH, [BACKSLASH, BACKSLASH]);
      ReplaceByteAppend(h, ReplaceByte(s[1..], BACKSLASH, [BACKSLASH, BACKSLASH]), DQUOTE, [BACKSLASH, DQUOTE]);
      TwoPassesEscapeOnce(s[1..]);
      if s[0] == BACKSLASH {
        assert ReplaceByte(h, DQUOTE, [BACKSLASH, DQUOTE]) == [BACKSLASH, BACKSLASH];
      } else {
        assert ReplaceByte(h, DQUOTE, [BACKSLASH, DQUOTE]) == (if s[0] == DQUOTE then [BACKSLASH, DQUOTE] else [s[0]]) + ReplaceByte([], DQUOTE, [BACKSLASH, DQUOTE]);
      }
    }
  }

  /** Reads an escaped body back: a backslash takes the next octet literally;
      a lone double quote or a trailing backslash is not an escaped body. */
  function Unescape(e: Bytes): (r: Option<Bytes>)
    decreases |e|
  {
    if e == [] then Some([])
    else if e[0] == BACKSLASH then
      if |e| == 1 then None
      else
        var t := Unescape(e[2..]);
        if t.Some? then Some([e[1]] + t.value) else None
    else if e[0] == DQUOTE then None
    else
      var t := Unescape(e[1..]);
      if t.Some? then Some([e[0]] + t.value) else None
  }

  /** Strips the surrounding double quotes and unescapes the body. */
  function Unquote(q: Bytes): Option<Bytes> {
    if |q| >= 2 && q[0] == DQUOTE && q[|q| - 1] == DQUOTE then Unescape(q[1..|q| - 1]) else None
  }

  lemma {:induction false} UnescapeEscape(s: Bytes)
    ensures Unescape(Escape(s)) == Some(s)
    decreases |s|
  {
    if s != [] {
      UnescapeEscape(s[1..]);
      var e := Escape(s);
      assert e == EscapeByte(s[0]) + Escape(s[1..]);
      assert s == [s[0]] + s[1..];
      if s[0] == BACKSLASH || s[0] == DQUOTE {
        assert e[0] == BACKSLASH && e[1] == s[0];
        assert e[2..] == Escape(s[1..]);
      } else {
        assert e[0] == s[0];
        assert e[1..] == Escape(s[1..]);
      }
    }
  }

  /** Quoting is undone by unquoting, so distinct strings quote differently. */
  lemma QuoteRoundTrip(s: Bytes)
    ensures Unquote(Quote(s)) == Some(s)
  {
    var q := Quote(s);
    TwoPassesEscapeOnce(s);
    assert q[1..|q| - 1] == Escape(s);
    UnescapeEscape(s);
  }

  lemma QuoteInjective(s: Bytes, t: Bytes)
    requires Quote(s) == Quote(t)
    ensures s == t
  {
    QuoteRoundTrip(s);
    QuoteRoundTrip(t);
  }

  /** Escaping adds only backslashes in front of backslashes and
      double quotes, so any other octet is in the quoted text exactly when
      it is in the original. */
  lemma {:induction false} EscapeKeeps(s: Bytes, b: byte)
    requires b != BACKSLASH && b != DQUOTE
    ensures b in Escape(s) <==> b in s
    decreases |s|
  {
    if s != [] {
      EscapeKeeps(s[1..], b);
      assert s == [s[0]] + s[1..];
      assert b in EscapeByte(s[0]) <==> b == s[0];
    }
  }

  lemma QuoteKeeps(s: Bytes, b: byte)
    requires b != BACKSLASH && b != DQUOTE
    ensures b in Quote(s) <==> b in s
  {
    TwoPassesEscapeOnce(s);
    EscapeKeeps(s, b);
  }

  /** Reads an escaped body up to the double quote that closes it, as a
      server reads a quoted string: the body and what follows the quote. */
  function ReadBody(e: Bytes): Option<(Bytes, Bytes)>
    decreases |e|
  {
    if e == [] then None
    else if e[0] == DQUOTE then Some(([], e[1..]))
    else if e[0] == BACKSLASH then
      if |e| == 1 then None
      else
        var t := ReadBody(e[2..]);
        if t.Some? then Some(([e[1]] + t.value.0, t.value.1)) else None
    else
      var t := ReadBody(e[1..]);
      if t.Some? then Some(([e[0]] + t.value.0, t.value.1)) else None
  }

  /** Reads one quoted string from the front of `s`. */
  function ReadQuoted(s: Bytes): Option<(Bytes, Bytes)> {
    if s != [] && s[0] == DQUOTE then ReadBody(s[1..]) else None
  }

  lemma {:induction false} ReadBodyEscape(s: Bytes, rest: Bytes)
    ensures ReadBody(Escape(s) + [DQUOTE] + rest) == Some((s, rest))
    decreases |s|
  {
    var e := Escape(s) + [DQUOTE] + rest;
    if s == [] {
      assert e == [DQUOTE] + rest;
      assert e[1..] == rest;
    } else {
      ReadBodyEscape(s[1..], rest);
      assert s == [s[0]] + s[1..];
      var tail := Escape(s[1..]) + [DQUOTE] + rest;
      assert e == EscapeByte(s[0]) + tail;
      if s[0] == BACKSLASH || s[0] == DQUOTE {
        assert e[0] == BACKSLASH && e[1] == s[0] && e[2..] == tail;
      } else {
        assert e[0] == s[0] && e[1..] == tail;
      }
    }
  }

  /** A quoted string ends at its own closing quote, whatever follows it, so
      several quoted arguments in a row read back one by one. */
  lemma QuoteSelfDelimiting(s: Bytes, rest: Bytes)
    ensures ReadQuoted(Quote(s) + rest) == Some((s, rest))
  {
    TwoPassesEscapeOnce(s);
    var q := Quote(s) + rest;
    assert q[1..] == Escape(s) + [DQUOTE] + rest;
    ReadBodyEscape(s, rest);
  }

  /** `validate_str`: the quoted string, unless it holds an LF (reported
      first) or a CR, which a quoted string may not contain. */
  function ValidateStr(s: Bytes): (r: Outcome<Bytes>)
    ensures r == Err(Validate('\n')) <==> LF in s
    ensures r == Err(Validate('\r')) <==> LF !in s && CR in s
    ensures r.Ok? <==> LF !in s && CR !in s
    ensures r.Ok? ==> r.value == Quote(s)
    ensures r.Ok? ==> Unquote(r.value) == Some(s) && CR !in r.value && LF !in r.value
  {
    var quoted := Quote(s);
    QuoteKeeps(s, LF);
    QuoteKeeps(s, CR);
    QuoteRoundTrip(s);
    if LF in quoted then Err(Validate('\n'))
    else if CR in quoted then Err(Validate('\r'))
    else Ok(quoted)
  }

  lemma {:induction false} EscapeAppend(x: Bytes, y: Bytes)
    ensures Escape(x + y) == Escape(x) + Escape(y)
    decreases |x|
  {
    if x == [] {
      assert x + y == y;
    } else {
      assert (x + y)[0] == x[0];
      assert (x + y)[1..] == x[1..] + y;
      EscapeAppend(x[1..], y);
    }
  }

  /** Text without backslash or double quote is its own escaped body. */
  lemma {:induction false} EscapePlain(s: Bytes)
    requires BACKSLASH !in s && DQUOTE !in s
    ensures Escape(s) == s
    decreases |s|
  {
    if s != [] {
      assert s[1..] == s[|s[..1]|..];
      EscapePlain(s[1..]);
    }
  }

  /** The shape of the `quote_backslash`, `quote_dquote` and `validate_random`
      tests of src/client.rs: one backslash or double quote between plain
      text is preceded by a backslash and the whole is put in double quotes,
      and `validate_str` accepts it. */
  predicate Plain(s: Bytes) {
    BACKSLASH !in s && DQUOTE !in s && CR !in s && LF !in s
  }

  lemma EscapeOneSpecial(a: Bytes, x: byte, b: Bytes)
    requires x == BACKSLASH || x == DQUOTE
    requires Plain(a) && Plain(b)
    ensures Escape(a + [x] + b) == a + [BACKSLASH, x] + b
  {
    assert Escape(a + [x]) == a + [BACKSLASH, x] by {
      EscapeAppend(a, [x]);
      EscapePlain(a);
      assert Escape([x]) == [BACKSLASH, x] + Escape([]);
    }
    assert BACKSLASH !in b && DQUOTE !in b;
    EscapeAppend(a + [x], b);
    EscapePlain(b);
  }

  lemma QuoteOneSpecial(a: Bytes, x: byte, b: Bytes)
    requires x == BACKSLASH || x == DQUOTE
    requires Plain(a) && Plain(b)
    ensures Quote(a + [x] + b) == [DQUOTE] + a + [BACKSLASH, x] + b + [DQUOTE]
    ensures ValidateStr(a + [x] + b) == Ok(Quote(a + [x] + b))
  {
    var s := a + [x] + b;
    TwoPassesEscapeOnce(s);
    EscapeOneSpecial(a, x, b);
    assert LF !in s && CR !in s by {
      assert s == a + ([x] + b);
      assert LF !in [x] + b && CR !in [x] + b;
    }
  }
}
