/**
 * The C library routines the Arduino sketch (src/arduino/message.cpp) relies
 * on: NUL-terminated strings, `strtok` and `atoi`, each over `seq<char>`.
 */
module CString {
  import opened Wrappers

  const NUL: char := '\0'

  /** The C string held by a character buffer: everything before the first NUL. */
  function CStr(buf: seq<char>): (s: seq<char>)
    ensures |s| <= |buf| && s == buf[..|s|]
    ensures NUL !in s
    ensures |s| < |buf| ==> buf[|s|] == NUL
  {
    if buf == [] || buf[0] == NUL then [] else [buf[0]] + CStr(buf[1..])
  }

  /** A buffer whose first `|s|` cells hold `s` and whose next cell is NUL holds the C string `s`. */
  lemma {:induction false} CStrOfTerminated(buf: seq<char>, s: seq<char>)
    requires |s| < |buf| && buf[..|s|] == s && buf[|s|] == NUL
    requires NUL !in s
    ensures CStr(buf) == s
  {
    if s != [] {
      assert buf[1..][..|s| - 1] == s[1..];
      CStrOfTerminated(buf[1..], s[1..]);
    }
  }

  // ---------------------------------------------------------------- strtok

  /** Drops the delimiters `strtok` skips before a token. */
  function DropDelims(s: seq<char>, delim: char): (r: seq<char>)
    ensures |r| <= |s|
    ensures r == [] || r[0] != delim
  {
    if s != [] && s[0] == delim then DropDelims(s[1..], delim) else s
  }

  /** Index of the first `delim` in `s`, or `|s|` if there is none. */
  function FindDelim(s: seq<char>, delim: char): (k: nat)
    ensures k <= |s|
    ensures delim !in s[..k]
    ensures k < |s| ==> s[k] == delim
  {
    if s == [] || s[0] == delim then 0 else FindDelim(s[1..], delim) + 1
  }

  /**
   * One call of `strtok` with a single delimiter: the next token and the
   * text after it, or `None` where `strtok` returns NULL.  The delimiter
   * that ends a token is consumed (C overwrites it with NUL).
   */
  function Strtok(s: seq<char>, delim: char): (r: Option<(seq<char>, seq<char>)>)
    ensures r.Some? ==> |r.value.0| >= 1 && delim !in r.value.0 && |r.value.1| < |s|
  {
    var t := DropDelims(s, delim);
    if t == [] then None
    else
      var k := FindDelim(t, delim);
      Some((t[..k], if k < |t| then t[k + 1..] else []))
  }

  /** Reference definition: the pieces of `s` between delimiters, empty ones included. */
  function Split(s: seq<char>, delim: char): (ps: seq<seq<char>>)
    ensures |ps| >= 1
  {
    if s == [] then [[]]
    else
      var tail := Split(s[1..], delim);
      if s[0] == delim then [[]] + tail else [[s[0]] + tail[0]] + tail[1..]
  }

  function NonEmpty(ps: seq<seq<char>>): seq<seq<char>>
  {
    if ps == [] then [] else (if ps[0] == [] then [] else [ps[0]]) + NonEmpty(ps[1..])
  }

  /** The tokens successive `strtok` calls return: the non-empty pieces. */
  function Tokens(s: seq<char>, delim: char): seq<seq<char>>
  {
    NonEmpty(Split(s, delim))
  }

  lemma {:induction false} NonEmptyAppend(a: seq<seq<char>>, b: seq<seq<char>>)
    ensures NonEmpty(a + b) == NonEmpty(a) + NonEmpty(b)
  {
    if a == [] {
      assert a + b == b;
    } else {
      assert (a + b)[0] == a[0];
      assert (a + b)[1..] == a[1..] + b;
      NonEmptyAppend(a[1..], b);
    }
  }

  lemma {:induction false} TokensSkipDelims(s: seq<char>, delim: char)
    ensures Tokens(s, delim) == Tokens(DropDelims(s, delim), delim)
  {
    if s != [] && s[0] == delim {
      assert Split(s, delim) == [[]] + Split(s[1..], delim);
      NonEmptyAppend([[]], Split(s[1..], delim));
      TokensSkipDelims(s[1..], delim);
    }
  }

  /** A delimiter-free prefix joins the first piece of whatever follows it. */
  lemma {:induction false} SplitWord(w: seq<char>, r: seq<char>, delim: char)
    requires delim !in w
    ensures Split(w + r, delim) == [w + Split(r, delim)[0]] + Split(r, delim)[1..]
  {
    var sr := Split(r, delim);
    if w == [] {
      assert w + r == r;
      assert w + sr[0] == sr[0];
      assert sr == [sr[0]] + sr[1..];
    } else {
      assert (w + r)[0] == w[0];
      assert (w + r)[1..] == w[1..] + r;
      SplitWord(w[1..], r, delim);
      var tail := Split(w[1..] + r, delim);
      assert tail == [w[1..] + sr[0]] + sr[1..];
      assert Split(w + r, delim) == [[w[0]] + tail[0]] + tail[1..];
      assert [w[0]] + (w[1..] + sr[0]) == w + sr[0];
    }
  }

  /** A non-empty delimiter-free word followed by a delimiter is the first token. */
  lemma TokensOfWord(w: seq<char>, r: seq<char>, delim: char)
    requires w != [] && delim !in w
    ensures Tokens(w + [delim] + r, delim) == [w] + Tokens(r, delim)
    ensures Tokens(w, delim) == [w]
  {
    SplitWord(w, [delim] + r, delim);
    assert ([delim] + r)[1..] == r;
    var sd := Split([delim] + r, delim);
    assert sd == [[]] + Split(r, delim);
    assert sd[0] == [] && sd[1..] == Split(r, delim);
    assert w + sd[0] == w;
    assert w + [delim] + r == w + ([delim] + r);
    NonEmptyAppend([w], Split(r, delim));
    SplitWord(w, [], delim);
    assert w + [] == w;
  }

  /** `strtok` agrees with the reference: NULL exactly when no token is left, else the first token. */
  lemma {:induction false} StrtokIsFirstToken(s: seq<char>, delim: char)
    ensures Strtok(s, delim).None? <==> Tokens(s, delim) == []
    ensures Strtok(s, delim).Some? ==>
      Tokens(s, delim) == [Strtok(s, delim).value.0] + Tokens(Strtok(s, delim).value.1, delim)
  {
    TokensSkipDelims(s, delim);
    var t := DropDelims(s, delim);
    if t != [] {
      var k := FindDelim(t, delim);
      var w := t[..k];
      assert w != [];
      if k < |t| {
        var rest := t[k + 1..];
        assert Strtok(s, delim) == Some((w, rest));
        assert t == w + [delim] + rest;
        TokensOfWord(w, rest, delim);
      } else {
        assert Strtok(s, delim) == Some((w, []));
        assert t == w;
        TokensOfWord(w, [], delim);
        assert Tokens([], delim) == [] by {
          assert Split([], delim) == [[]];
          assert NonEmpty([[]]) == [];
        }
      }
    } else {
      assert Split([], delim) == [[]];
      assert NonEmpty([[]]) == [];
    }
  }

  // ------------------------------------------------------------------ atoi

  /** `isspace` in the C locale: space, tab, newline, vertical tab, form feed, carriage return. */
  predicate IsSpace(c: char) {
    c == ' ' || c == '\t' || c == '\n' || c == 11 as char || c == 12 as char || c == '\r'
  }

  predicate IsDigit(c: char) {
    '0' <= c <= '9'
  }

  function DigitValue(c: char): nat
    requires IsDigit(c)
  {
    c as int - '0' as int
  }

  function SkipSpace(s: seq<char>): (r: seq<char>)
    ensures r == [] || !IsSpace(r[0])
  {
    if s != [] && IsSpace(s[0]) then SkipSpace(s[1..]) else s
  }

  /** The longest prefix of decimal digits. */
  function DigitPrefix(s: seq<char>): (ds: seq<char>)
    ensures forall i :: 0 <= i < |ds| ==> IsDigit(ds[i])
  {
    if s != [] && IsDigit(s[0]) then [s[0]] + DigitPrefix(s[1..]) else []
  }

  /** The number a string of digits denotes, most significant first. */
  function DigitsValue(ds: seq<char>): nat
    requires forall i :: 0 <= i < |ds| ==> IsDigit(ds[i])
  {
    if ds == [] then 0 else DigitsValue(ds[..|ds| - 1]) * 10 + DigitValue(ds[|ds| - 1])
  }

  /**
   * `atoi`: leading white space, an optional sign, then as many digits as
   * follow; anything else ends the number, and no digits give 0.
   */
  function Atoi(s: seq<char>): int
  {
    var t := SkipSpace(s);
    if t != [] && t[0] == '-' then 0 - DigitsValue(DigitPrefix(t[1..])) as int
    else if t != [] && t[0] == '+' then DigitsValue(DigitPrefix(t[1..]))
    else DigitsValue(DigitPrefix(t))
  }

  /** The digits are the whole digit prefix when a non-digit (or the end) follows. */
  lemma {:induction false} DigitPrefixOf(ds: seq<char>, r: seq<char>)
    requires forall i :: 0 <= i < |ds| ==> IsDigit(ds[i])
    requires r == [] || !IsDigit(r[0])
    ensures DigitPrefix(ds + r) == ds
  {
    if ds != [] {
      assert (ds + r)[1..] == ds[1..] + r;
      DigitPrefixOf(ds[1..], r);
    }
  }

  /** A separating space before a number is skipped. */
  lemma SkipOneSpace(x: seq<char>)
    requires x == [] || !IsSpace(x[0])
    ensures SkipSpace([' '] + x) == x
  {
    assert ([' '] + x)[1..] == x;
  }

  /** `atoi` of a space and a run of digits is the value of the digits. */
  lemma AtoiOfSpacedDigits(ds: seq<char>)
    requires |ds| >= 1 && forall i :: 0 <= i < |ds| ==> IsDigit(ds[i])
    ensures Atoi([' '] + ds) == DigitsValue(ds)
  {
    SkipOneSpace(ds);
    DigitPrefixOf(ds, []);
    assert ds + [] == ds;
  }

  /** `atoi` of a space, a minus sign and a run of digits is minus the value of the digits. */
  lemma AtoiOfSpacedNegative(ds: seq<char>)
    requires forall i :: 0 <= i < |ds| ==> IsDigit(ds[i])
    ensures Atoi([' ', '-'] + ds) == -(DigitsValue(ds) as int)
  {
    var t := ['-'] + ds;
    assert [' ', '-'] + ds == [' '] + t;
    SkipOneSpace(t);
    assert t[1..] == ds;
    DigitPrefixOf(ds, []);
    assert ds + [] == ds;
  }
}
