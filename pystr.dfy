/**
 * Models of the Python `str` operations that the response parser calls:
 * `split` on one character, `startswith`, `replace(old, "")`, `strip()`
 * and `int()` on a string. `Join` (`str.join`), `Contains` (`in` on
 * strings) and `IntToString` (`str()` on an integer) are used only by the
 * proofs and the round trip. Strings are sequences of characters; the
 * whitespace and digit sets are the ASCII parts of Python's.
 */
module PyStr {
  import opened Wrappers

  // ---------------------------------------------------------------------
  // Characters

  /** The ASCII characters for which Python's `str.isspace()` holds:
      tab, line feed, vertical tab, form feed, carriage return, the four
      information separators 0x1C-0x1F, and space. */
  predicate IsSpace(c: char) {
    ('\t' <= c <= '\r') || ('\U{1C}' <= c <= '\U{1F}') || c == ' '
  }

  predicate AllSpace(s: string) {
    forall k :: 0 <= k < |s| ==> IsSpace(s[k])
  }

  /** No whitespace at either end: what `strip()` returns. */
  predicate IsTrimmed(s: string) {
    |s| == 0 || (!IsSpace(s[0]) && !IsSpace(s[|s| - 1]))
  }

  /** The ASCII characters that `int()` skips around a literal: tab to
      carriage return, and space. Unlike `strip()`, it does not skip the
      information separators 0x1C-0x1F. */
  predicate IsIntSpace(c: char) {
    ('\t' <= c <= '\r') || c == ' '
  }

  predicate AllIntSpace(s: string) {
    forall k :: 0 <= k < |s| ==> IsIntSpace(s[k])
  }

  predicate IsDigit(c: char) {
    '0' as int <= c as int <= '9' as int
  }

  predicate IsSign(c: char) {
    c == '+' || c == '-'
  }

  // ---------------------------------------------------------------------
  // startswith and substring search

  /** `s.startswith(p)` */
  predicate StartsWith(s: string, p: string) {
    |p| <= |s| && s[..|p|] == p
  }

  /** `p in s`: some position of `s` starts an occurrence of `p`. */
  predicate Contains(s: string, p: string)
    decreases |s|
  {
    StartsWith(s, p) || (|s| > 0 && Contains(s[1..], p))
  }

  /** A string lacking the first character of `p` holds no occurrence of `p`. */
  lemma {:induction false} NotContainsWithoutFirstChar(s: string, p: string)
    requires |p| > 0 && p[0] !in s
    ensures !Contains(s, p)
    decreases |s|
  {
    if |s| > 0 {
      assert s[0] != p[0];
      NotContainsWithoutFirstChar(s[1..], p);
    }
  }

  /** Putting a character that differs from the head of `p` in front adds no occurrence. */
  lemma ContainsCons(c: char, s: string, p: string)
    requires |p| > 0 && c != p[0]
    ensures Contains([c] + s, p) == Contains(s, p)
  {
    assert ([c] + s)[1..] == s;
  }

  // ---------------------------------------------------------------------
  // replace(old, "")

  /** `s.replace(p, "")`: every non-overlapping occurrence of `p`, found
      left to right, is deleted. Replacing the empty string by the empty
      string leaves `s` as it is. */
  function RemoveAll(s: string, p: string): (r: string)
    ensures |r| <= |s|
    ensures forall k :: 0 <= k < |r| ==> r[k] in s
    ensures !Contains(s, p) ==> r == s
    decreases |s|
  {
    if p == [] || |s| == 0 then s
    else if StartsWith(s, p) then RemoveAll(s[|p|..], p)
    else [s[0]] + RemoveAll(s[1..], p)
  }

  /** An occurrence of `p` at the front is removed, and the rest is processed on its own. */
  lemma RemoveAllPrefix(p: string, v: string)
    requires |p| > 0
    ensures RemoveAll(p + v, p) == RemoveAll(v, p)
  {
    assert (p + v)[..|p|] == p;
    assert (p + v)[|p|..] == v;
  }

  /** A character that cannot start an occurrence of `p` is kept. */
  lemma RemoveAllKeepsHead(c: char, t: string, p: string)
    requires |p| > 0 && c != p[0]
    ensures RemoveAll([c] + t, p) == [c] + RemoveAll(t, p)
  {
    var ct := [c] + t;
    assert ct[0] == c && ct[1..] == t;
    assert !StartsWith(ct, p) by {
      if |p| <= |ct| {
        assert ct[..|p|][0] == c;
      }
    }
  }

  lemma {:induction false} RemoveAllKeeps(x: string, s: string, p: string)
    requires |p| > 0 && p[0] !in x
    ensures RemoveAll(x + s, p) == x + RemoveAll(s, p)
    decreases |x|
  {
    if |x| == 0 {
      assert x + s == s;
    } else {
      var c, y := x[0], x[1..];
      assert x == [c] + y;
      assert c != p[0] && p[0] !in y;
      calc {
        RemoveAll(x + s, p);
        { assert x + s == [c] + (y + s); }
        RemoveAll([c] + (y + s), p);
        { RemoveAllKeepsHead(c, y + s, p); }
        [c] + RemoveAll(y + s, p);
        { RemoveAllKeeps(y, s, p); }
        [c] + (y + RemoveAll(s, p));
      }
    }
  }

  // ---------------------------------------------------------------------
  // strip()

  /** `s.lstrip()` */
  function TrimStart(s: string): string
    decreases |s|
  {
    if |s| > 0 && IsSpace(s[0]) then TrimStart(s[1..]) else s
  }

  /** `s.rstrip()` */
  function TrimEnd(s: string): string
    decreases |s|
  {
    if |s| > 0 && IsSpace(s[|s| - 1]) then TrimEnd(s[..|s| - 1]) else s
  }

  /** `lstrip()` cuts whitespace, and only whitespace, from the front. */
  lemma {:induction false} TrimStartShape(s: string)
    ensures var r := TrimStart(s);
      |r| <= |s| && r == s[|s| - |r|..] && AllSpace(s[..|s| - |r|]) && (|r| > 0 ==> !IsSpace(r[0]))
    decreases |s|
  {
    if |s| > 0 && IsSpace(s[0]) {
      TrimStartShape(s[1..]);
    }
  }

  /** `rstrip()` cuts whitespace, and only whitespace, from the back. */
  lemma {:induction false} TrimEndShape(s: string)
    ensures var r := TrimEnd(s);
      |r| <= |s| && r == s[..|r|] && AllSpace(s[|r|..]) && (|r| > 0 ==> !IsSpace(r[|r| - 1]))
    decreases |s|
  {
    if |s| > 0 && IsSpace(s[|s| - 1]) {
      TrimEndShape(s[..|s| - 1]);
    }
  }

  /** `s.strip()`: the result is a slice of `s` with only whitespace cut
      away on either side, and it has no whitespace at either end. */
  function Strip(s: string): (r: string)
    ensures IsTrimmed(r)
    ensures exists i, j :: 0 <= i <= j <= |s| && r == s[i..j] && AllSpace(s[..i]) && AllSpace(s[j..])
  {
    var t := TrimStart(s);
    var r := TrimEnd(t);
    TrimStartShape(s);
    TrimEndShape(t);
    var i := |s| - |t|;
    assert r == s[i..i + |r|] && AllSpace(s[..i]);
    assert s[i + |r|..] == t[|r|..];
    r
  }

  /** Whitespace in front changes nothing that `lstrip()` returns. */
  lemma {:induction false} TrimStartSkipsSpace(w: string, s: string)
    requires AllSpace(w)
    ensures TrimStart(w + s) == TrimStart(s)
    decreases |w|
  {
    if |w| > 0 {
      assert IsSpace(w[0]) && (w + s)[0] == w[0];
      assert (w + s)[1..] == w[1..] + s;
      TrimStartSkipsSpace(w[1..], s);
    } else {
      assert w + s == s;
    }
  }

  /** Whitespace behind changes nothing that `rstrip()` returns. */
  lemma {:induction false} TrimEndSkipsSpace(s: string, w: string)
    requires AllSpace(w)
    ensures TrimEnd(s + w) == TrimEnd(s)
    decreases |w|
  {
    if |w| > 0 {
      assert IsSpace(w[|w| - 1]) && (s + w)[|s + w| - 1] == w[|w| - 1];
      assert (s + w)[..|s + w| - 1] == s + w[..|w| - 1];
      TrimEndSkipsSpace(s, w[..|w| - 1]);
    } else {
      assert s + w == s;
    }
  }

  /** `strip()` ignores surrounding whitespace and is idempotent. */
  lemma StripSurrounded(w1: string, s: string, w2: string)
    requires AllSpace(w1) && AllSpace(w2)
    ensures Strip(w1 + s + w2) == Strip(s)
    ensures Strip(Strip(s)) == Strip(s)
  {
    assert w1 + s + w2 == w1 + (s + w2);
    TrimStartSkipsSpace(w1, s + w2);
    var t := TrimStart(s);
    TrimStartShape(s);
    if |t| == 0 {
      assert AllSpace(s + w2);
      AllSpaceTrimStart(s + w2);
    } else {
      TrimStartAppend(s, w2);
      TrimEndSkipsSpace(t, w2);
    }
    StripFixed(Strip(s));
  }

  /** What `lstrip()` returns for `s + w` when `w` is whitespace. */
  lemma {:induction false} TrimStartAppend(s: string, w: string)
    requires AllSpace(w) && |TrimStart(s)| > 0
    ensures TrimStart(s + w) == TrimStart(s) + w
    decreases |s|
  {
    assert |s| > 0;
    if IsSpace(s[0]) {
      assert (s + w)[1..] == s[1..] + w;
      TrimStartAppend(s[1..], w);
    }
  }

  lemma {:induction false} AllSpaceTrimStart(s: string)
    requires AllSpace(s)
    ensures TrimStart(s) == []
    decreases |s|
  {
    if |s| > 0 {
      AllSpaceTrimStart(s[1..]);
    }
  }

  /** One space in front of a trimmed string is all that `strip()` removes. */
  lemma StripLeadingSpace(t: string)
    requires IsTrimmed(t)
    ensures Strip(" " + t) == t
  {
    TrimStartSkipsSpace(" ", t);
    StripFixed(t);
  }

  /** A string with no surrounding whitespace is its own `strip()`. */
  lemma StripFixed(s: string)
    requires IsTrimmed(s)
    ensures Strip(s) == s
  {
  }

  // ---------------------------------------------------------------------
  // split(sep) and join

  /** `s.split(sep)` for a one-character separator: the pieces between
      separators, so the empty string gives `[""]` and two adjacent
      separators give an empty piece. */
  function Split(s: string, sep: char): (r: seq<string>)
    ensures |r| == multiset(s)[sep] + 1
    ensures forall k :: 0 <= k < |r| ==> sep !in r[k]
    decreases |s|
  {
    if |s| == 0 then [""]
    else
      var rest := Split(s[1..], sep);
      assert s == [s[0]] + s[1..];
      assert multiset(s) == multiset{s[0]} + multiset(s[1..]);
      if s[0] == sep then [""] + rest
      else [[s[0]] + rest[0]] + rest[1..]
  }

  /** `sep.join(pieces)` */
  function Join(pieces: seq<string>, sep: char): string
    decreases |pieces|
  {
    if |pieces| == 0 then ""
    else if |pieces| == 1 then pieces[0]
    else pieces[0] + [sep] + Join(pieces[1..], sep)
  }

  /** A string without the separator is one piece. */
  lemma {:induction false} SplitNoSeparator(s: string, sep: char)
    requires sep !in s
    ensures Split(s, sep) == [s]
    decreases |s|
  {
    if |s| > 0 {
      SplitNoSeparator(s[1..], sep);
      assert [s[0]] + s[1..] == s;
    }
  }

  /** Splitting at one separator splits the two sides independently. */
  lemma {:induction false} SplitAppend(a: string, b: string, sep: char)
    ensures Split(a + [sep] + b, sep) == Split(a, sep) + Split(b, sep)
    decreases |a|
  {
    var s := a + [sep] + b;
    if |a| == 0 {
      assert s[1..] == b;
    } else {
      assert s[1..] == a[1..] + [sep] + b;
      SplitAppend(a[1..], b, sep);
    }
  }

  lemma JoinCons(pieces: seq<string>, sep: char)
    requires |pieces| > 1
    ensures Join(pieces, sep) == pieces[0] + [sep] + Join(pieces[1..], sep)
  {
  }

  /** Putting a character in front of the first piece puts it in front of the join. */
  lemma JoinPrependChar(c: char, pieces: seq<string>, sep: char)
    requires |pieces| > 0
    ensures Join([[c] + pieces[0]] + pieces[1..], sep) == [c] + Join(pieces, sep)
  {
    var lhs := [[c] + pieces[0]] + pieces[1..];
    if |pieces| > 1 {
      assert lhs[0] == [c] + pieces[0] && lhs[1..] == pieces[1..];
      JoinCons(lhs, sep);
      JoinCons(pieces, sep);
      assert ([c] + pieces[0]) + [sep] + Join(pieces[1..], sep)
          == [c] + (pieces[0] + [sep] + Join(pieces[1..], sep));
    }
  }

  /** Joining the pieces of a split gives back the string. */
  lemma {:induction false} JoinSplit(s: string, sep: char)
    ensures Join(Split(s, sep), sep) == s
    decreases |s|
  {
    if |s| > 0 {
      var rest := Split(s[1..], sep);
      JoinSplit(s[1..], sep);
      assert [s[0]] + s[1..] == s;
      if s[0] == sep {
        var r := [""] + rest;
        assert Split(s, sep) == r;
        assert r[0] == "" && r[1..] == rest;
        JoinCons(r, sep);
        assert "" + [sep] + s[1..] == s;
      } else {
        assert Split(s, sep) == [[s[0]] + rest[0]] + rest[1..];
        JoinPrependChar(s[0], rest, sep);
      }
    }
  }

  /** Splitting a join of separator-free pieces gives back the pieces. */
  lemma {:induction false} SplitJoin(pieces: seq<string>, sep: char)
    requires |pieces| > 0
    requires forall k :: 0 <= k < |pieces| ==> sep !in pieces[k]
    ensures Split(Join(pieces, sep), sep) == pieces
    decreases |pieces|
  {
    if |pieces| == 1 {
      SplitNoSeparator(pieces[0], sep);
    } else {
      var head, tail := pieces[0], pieces[1..];
      assert sep !in head;
      assert forall k :: 0 <= k < |tail| ==> tail[k] == pieces[k + 1];
      calc {
        Split(Join(pieces, sep), sep);
        { JoinCons(pieces, sep); }
        Split(head + [sep] + Join(tail, sep), sep);
        { SplitAppend(head, Join(tail, sep), sep); }
        Split(head, sep) + Split(Join(tail, sep), sep);
        { SplitNoSeparator(head, sep); SplitJoin(tail, sep); }
        [head] + tail;
      }
    }
  }

  // ---------------------------------------------------------------------
  // int() and str()

  predicate IsDigits(s: string) {
    |s| > 0 && forall k :: 0 <= k < |s| ==> IsDigit(s[k])
  }

  /** The value of a run of decimal digits; leading zeros are allowed. */
  function DigitsValue(s: string): nat
    requires forall k :: 0 <= k < |s| ==> IsDigit(s[k])
    decreases |s|
  {
    if |s| == 0 then 0
    else
      var last := s[|s| - 1];
      assert IsDigit(last);
      10 * DigitsValue(s[..|s| - 1]) + (last as int - '0' as int)
  }

  /** The whitespace skip in front of an `int()` literal. */
  function IntTrimStart(s: string): string
    decreases |s|
  {
    if |s| > 0 && IsIntSpace(s[0]) then IntTrimStart(s[1..]) else s
  }

  /** The whitespace skip behind an `int()` literal. */
  function IntTrimEnd(s: string): string
    decreases |s|
  {
    if |s| > 0 && IsIntSpace(s[|s| - 1]) then IntTrimEnd(s[..|s| - 1]) else s
  }

  /** What `int()` parses once the whitespace around the literal is skipped. */
  function IntStrip(s: string): string {
    IntTrimEnd(IntTrimStart(s))
  }

  lemma {:induction false} IntTrimStartSkipsSpace(w: string, s: string)
    requires AllIntSpace(w)
    ensures IntTrimStart(w + s) == IntTrimStart(s)
    decreases |w|
  {
    if |w| > 0 {
      assert IsIntSpace(w[0]) && (w + s)[0] == w[0];
      assert (w + s)[1..] == w[1..] + s;
      IntTrimStartSkipsSpace(w[1..], s);
    } else {
      assert w + s == s;
    }
  }

  lemma {:induction false} IntTrimEndSkipsSpace(s: string, w: string)
    requires AllIntSpace(w)
    ensures IntTrimEnd(s + w) == IntTrimEnd(s)
    decreases |w|
  {
    if |w| > 0 {
      assert IsIntSpace(w[|w| - 1]) && (s + w)[|s + w| - 1] == w[|w| - 1];
      assert (s + w)[..|s + w| - 1] == s + w[..|w| - 1];
      IntTrimEndSkipsSpace(s, w[..|w| - 1]);
    } else {
      assert s + w == s;
    }
  }

  /** Skipping in front of `s + w` when `w` is whitespace `int()` skips. */
  lemma {:induction false} IntTrimStartAppend(s: string, w: string)
    requires AllIntSpace(w)
    ensures IntTrimStart(s + w) == IntTrimStart(s) + w || (IntTrimStart(s) == [] && IntTrimStart(s + w) == [])
    decreases |s|
  {
    if |s| == 0 {
      assert s + w == w;
      AllIntSpaceTrimStart(w);
    } else if IsIntSpace(s[0]) {
      assert (s + w)[1..] == s[1..] + w;
      IntTrimStartAppend(s[1..], w);
    }
  }

  lemma {:induction false} AllIntSpaceTrimStart(s: string)
    requires AllIntSpace(s)
    ensures IntTrimStart(s) == []
    decreases |s|
  {
    if |s| > 0 {
      AllIntSpaceTrimStart(s[1..]);
    }
  }

  /** A string that `strip()` leaves alone is also left alone by `int()`'s
      skip, since every character `int()` skips is one `strip()` removes. */
  lemma IntStripFixed(s: string)
    requires IsTrimmed(s)
    ensures IntStrip(s) == s
  {
  }

  /** `int()` skips whitespace of its own set around the literal. */
  lemma IntStripSurrounded(w1: string, s: string, w2: string)
    requires AllIntSpace(w1) && AllIntSpace(w2)
    ensures IntStrip(w1 + s + w2) == IntStrip(s)
  {
    assert w1 + s + w2 == w1 + (s + w2);
    IntTrimStartSkipsSpace(w1, s + w2);
    IntTrimStartAppend(s, w2);
    IntTrimEndSkipsSpace(IntTrimStart(s), w2);
    if IntTrimStart(s) == [] {
      assert IntTrimStart(s) + w2 == w2;
    }
  }

  /** `int(s)` for base-ten literals: optional surrounding whitespace of the
      `IsIntSpace` set, an optional `+` or `-`, then one or more ASCII digits.
      `None` stands for the `ValueError` that Python raises on anything else. */
  function ParseInt(s: string): Option<int> {
    var t := IntStrip(s);
    if |t| > 0 && IsSign(t[0]) then
      var digits := t[1..];
      if IsDigits(digits) then
        var v: int := DigitsValue(digits);
        Some(if t[0] == '-' then -v else v)
      else None
    else if IsDigits(t) then Some(DigitsValue(t))
    else None
  }

  /** A literal `int()` accepts, described character by character: every
      character is a digit except a sign in front, and the last one is a digit. */
  predicate IsIntLiteral(t: string) {
    |t| > 0 && IsDigit(t[|t| - 1])
    && forall k :: 0 <= k < |t| ==> IsDigit(t[k]) || (k == 0 && IsSign(t[k]))
  }

  /** `int(s)` succeeds exactly on the literals described by `IsIntLiteral`,
      once the whitespace `int()` skips is cut away. */
  lemma ParseIntAccepts(s: string)
    ensures ParseInt(s).Some? <==> IsIntLiteral(IntStrip(s))
  {
    var t := IntStrip(s);
    if |t| > 0 && IsSign(t[0]) {
      if IsIntLiteral(t) {
        assert forall k :: 0 <= k < |t| - 1 ==> t[1..][k] == t[k + 1];
      }
      if IsDigits(t[1..]) {
        assert t[|t| - 1] == t[1..][|t| - 2];
        assert forall k :: 1 <= k < |t| ==> t[k] == t[1..][k - 1];
      }
    }
  }

  function DigitChar(d: nat): (c: char)
    requires d < 10
    ensures IsDigit(c) && c as int - '0' as int == d
  {
    ('0' as int + d) as char
  }

  /** `str(n)` for a natural number: its decimal digits, without leading zeros. */
  function NatToString(n: nat): (r: string)
    ensures IsDigits(r)
    ensures !IsSpace(r[0]) && !IsSign(r[0])
    decreases n
  {
    if n < 10 then [DigitChar(n)] else NatToString(n / 10) + [DigitChar(n % 10)]
  }

  /** `str(n)` */
  function IntToString(n: int): string {
    if n < 0 then "-" + NatToString(-n) else NatToString(n)
  }

  lemma {:induction false} DigitsValueOfNatToString(n: nat)
    ensures DigitsValue(NatToString(n)) == n
    decreases n
  {
    if n >= 10 {
      var s := NatToString(n);
      assert s[..|s| - 1] == NatToString(n / 10);
      DigitsValueOfNatToString(n / 10);
    }
  }

  /** `int(str(n)) == n` */
  lemma ParseIntOfIntToString(n: int)
    ensures ParseInt(IntToString(n)) == Some(n)
  {
    var s := IntToString(n);
    var d := NatToString(if n < 0 then -n else n);
    DigitsValueOfNatToString(if n < 0 then -n else n);
    IntStripFixed(s);
    if n < 0 {
      assert s[1..] == d;
    }
  }

  /** `int()` ignores the whitespace it skips around the literal. */
  lemma ParseIntSurrounded(w1: string, s: string, w2: string)
    requires AllIntSpace(w1) && AllIntSpace(w2)
    ensures ParseInt(w1 + s + w2) == ParseInt(s)
  {
    IntStripSurrounded(w1, s, w2);
  }

  /** The decimal form of an integer holds no whitespace, no `%` and
      nothing but digits after its first character, and ends in a digit. */
  lemma IntToStringChars(n: int)
    ensures IsTrimmed(IntToString(n)) && |IntToString(n)| > 0
    ensures forall k :: 0 <= k < |IntToString(n)| ==> IsDigit(IntToString(n)[k]) || IntToString(n)[k] == '-'
  {
  }
}
