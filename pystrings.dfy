/** The few Python string operations the AHF reader builds on:
    `str.split()` with no argument, `str.split(sep)` with a one-character
    separator, substring tests, `int()` of a token and `str()` of an int. */
module PyStrings {
  import opened Wrappers

  // ---------------------------------------------------------------------
  // Whitespace and str.split()

  /** What `str.isspace` accepts, the separators of `str.split()`. */
  predicate IsSpace(c: char) {
    || c == ' ' || c == '\t' || c == '\n' || c == '\r' || c == '\U{000B}' || c == '\U{000C}'
    || ('\U{001C}' <= c <= '\U{001F}') || c == '\U{0085}' || c == '\U{00A0}' || c == '\U{1680}'
    || ('\U{2000}' <= c <= '\U{200A}') || c == '\U{2028}' || c == '\U{2029}' || c == '\U{202F}'
    || c == '\U{205F}' || c == '\U{3000}'
  }

  predicate NoSpace(s: string) {
    forall i :: 0 <= i < |s| ==> !IsSpace(s[i])
  }

  /** A token as `str.split()` produces it: non-empty, without whitespace. */
  predicate IsToken(t: string) {
    |t| > 0 && NoSpace(t)
  }

  /** The length of the token that starts `s`. */
  function TokenLength(s: string): (n: nat)
    requires |s| > 0 && !IsSpace(s[0])
    ensures 1 <= n <= |s| && NoSpace(s[..n]) && (n < |s| ==> IsSpace(s[n]))
  {
    if |s| == 1 || IsSpace(s[1]) then 1
    else
      var m := TokenLength(s[1..]);
      assert s[1..][..m] == s[1..m + 1];
      1 + m
  }

  /** `s.split()`: the maximal runs of non-whitespace, in order. */
  function Split(s: string): (r: seq<string>)
    ensures forall k :: 0 <= k < |r| ==> IsToken(r[k])
  {
    if |s| == 0 then []
    else if IsSpace(s[0]) then Split(s[1..])
    else
      var n := TokenLength(s);
      [s[..n]] + Split(s[n..])
  }

  /** The characters of `s` that are not whitespace. */
  function NonSpace(s: string): string {
    if |s| == 0 then [] else (if IsSpace(s[0]) then [] else [s[0]]) + NonSpace(s[1..])
  }

  function Concat(ts: seq<string>): string {
    if |ts| == 0 then [] else ts[0] + Concat(ts[1..])
  }

  /** `" ".join(ts)` */
  function JoinSpace(ts: seq<string>): string {
    if |ts| == 0 then [] else if |ts| == 1 then ts[0] else ts[0] + " " + JoinSpace(ts[1..])
  }

  lemma {:induction false} NonSpaceAppend(x: string, y: string)
    ensures NonSpace(x + y) == NonSpace(x) + NonSpace(y)
  {
    if |x| > 0 {
      assert (x + y)[1..] == x[1..] + y;
      NonSpaceAppend(x[1..], y);
    } else {
      assert x + y == y;
    }
  }

  lemma {:induction false} NonSpaceOfToken(t: string)
    requires NoSpace(t)
    ensures NonSpace(t) == t
  {
    if |t| > 0 {
      NonSpaceOfToken(t[1..]);
    }
  }

  /** Splitting loses exactly the whitespace: the tokens, run together,
      are the non-whitespace characters of the input. */
  lemma {:induction false} SplitKeepsText(s: string)
    ensures Concat(Split(s)) == NonSpace(s)
    decreases |s|
  {
    if |s| > 0 {
      if IsSpace(s[0]) {
        SplitKeepsText(s[1..]);
      } else {
        var n := TokenLength(s);
        SplitKeepsText(s[n..]);
        assert s == s[..n] + s[n..];
        NonSpaceAppend(s[..n], s[n..]);
        NonSpaceOfToken(s[..n]);
        assert Split(s)[1..] == Split(s[n..]);
      }
    }
  }

  lemma {:induction false} SplitAfterSpace(s: string, t: string)
    requires |s| > 0 && IsSpace(s[0])
    ensures Split(s + t) == Split(s[1..] + t)
  {
    assert (s + t)[1..] == s[1..] + t;
  }

  lemma {:induction false} SplitToken(t: string, rest: string)
    requires IsToken(t)
    requires |rest| == 0 || IsSpace(rest[0])
    ensures Split(t + rest) == [t] + Split(rest)
  {
    var s := t + rest;
    TokenLengthOf(t, rest);
    assert s[..|t|] == t;
    assert s[|t|..] == rest;
  }

  lemma {:induction false} TokenLengthOf(t: string, rest: string)
    requires IsToken(t)
    requires |rest| == 0 || IsSpace(rest[0])
    ensures TokenLength(t + rest) == |t|
    decreases |t|
  {
    var s := t + rest;
    if |t| > 1 {
      assert !IsSpace(s[1]);
      assert s[1..] == t[1..] + rest;
      TokenLengthOf(t[1..], rest);
    }
  }

  /** Round trip: splitting tokens joined by single spaces gives the
      tokens back. */
  lemma {:induction false} SplitJoin(ts: seq<string>)
    requires forall k :: 0 <= k < |ts| ==> IsToken(ts[k])
    ensures Split(JoinSpace(ts)) == ts
  {
    if |ts| == 1 {
      SplitToken(ts[0], []);
      assert ts[0] + [] == ts[0];
    } else if |ts| > 1 {
      var rest := JoinSpace(ts[1..]);
      SplitJoin(ts[1..]);
      var tail := " " + rest;
      assert JoinSpace(ts) == ts[0] + tail;
      SplitToken(ts[0], tail);
      SplitSpaceThen(rest);
    }
  }

  lemma SplitSpaceThen(rest: string)
    ensures Split(" " + rest) == Split(rest)
  {
    assert (" " + rest)[1..] == rest;
  }

  // ---------------------------------------------------------------------
  // str.split(sep) with a one-character separator

  /** `s.split(c)`: the pieces between occurrences of `c`, empty ones
      included; always at least one piece. */
  function SplitOn(s: string, c: char): (r: seq<string>)
    ensures |r| >= 1
    ensures forall k :: 0 <= k < |r| ==> c !in r[k]
  {
    if |s| == 0 then [[]]
    else
      var rest := SplitOn(s[1..], c);
      if s[0] == c then [[]] + rest
      else [[s[0]] + rest[0]] + rest[1..]
  }

  /** `c.join(ps)` */
  function JoinOn(ps: seq<string>, c: char): string
    requires |ps| >= 1
  {
    if |ps| == 1 then ps[0] else ps[0] + [c] + JoinOn(ps[1..], c)
  }

  function Occurrences(s: string, c: char): nat {
    if |s| == 0 then 0 else (if s[0] == c then 1 else 0) + Occurrences(s[1..], c)
  }

  /** `c.join(s.split(c)) == s`, with one more piece than there are
      separators. */
  lemma {:induction false} SplitOnJoin(s: string, c: char)
    ensures JoinOn(SplitOn(s, c), c) == s
    ensures |SplitOn(s, c)| == Occurrences(s, c) + 1
  {
    if |s| > 0 {
      SplitOnJoin(s[1..], c);
      var rest := SplitOn(s[1..], c);
      if s[0] == c {
        assert JoinOn([[]] + rest, c) == [] + [c] + JoinOn(rest, c);
        assert s == [c] + s[1..];
      } else {
        var ps := [[s[0]] + rest[0]] + rest[1..];
        if |rest| == 1 {
          assert JoinOn(ps, c) == [s[0]] + rest[0];
        } else {
          assert ps[1..] == rest[1..];
          assert JoinOn(ps, c) == ([s[0]] + rest[0]) + [c] + JoinOn(rest[1..], c);
          assert JoinOn(rest, c) == rest[0] + [c] + JoinOn(rest[1..], c);
        }
        assert s == [s[0]] + s[1..];
      }
    }
  }

  lemma {:induction false} SplitOnSeparated(a: string, b: string, c: char)
    requires c !in a
    ensures SplitOn(a + [c] + b, c) == [a] + SplitOn(b, c)
  {
    if |a| == 0 {
      assert a + [c] + b == [c] + b;
      assert ([c] + b)[1..] == b;
    } else {
      assert (a + [c] + b)[1..] == a[1..] + [c] + b;
      SplitOnSeparated(a[1..], b, c);
      assert a == [a[0]] + a[1..];
    }
  }

  lemma {:induction false} SplitOnAbsent(s: string, c: char)
    requires c !in s
    ensures SplitOn(s, c) == [s]
  {
    if |s| > 0 {
      SplitOnAbsent(s[1..], c);
      assert s == [s[0]] + s[1..];
    }
  }

  /** `s.split(c)` undoes `c.join(pieces)` when no piece holds `c`. */
  lemma {:induction false} JoinOnSplit(ps: seq<string>, c: char)
    requires |ps| >= 1 && forall k :: 0 <= k < |ps| ==> c !in ps[k]
    ensures SplitOn(JoinOn(ps, c), c) == ps
  {
    if |ps| == 1 {
      SplitOnAbsent(ps[0], c);
    } else {
      JoinOnSplit(ps[1..], c);
      SplitOnSeparated(ps[0], JoinOn(ps[1..], c), c);
      assert ps == [ps[0]] + ps[1..];
    }
  }

  // ---------------------------------------------------------------------
  // Substrings

  /** `sub in s` */
  predicate Contains(s: string, sub: string)
    decreases |s|
  {
    (|sub| <= |s| && s[..|sub|] == sub) || (|s| > 0 && Contains(s[1..], sub))
  }

  /** `s.replace(c, "")` */
  function Remove(s: string, c: char): (r: string)
    ensures c !in r
    ensures forall x :: x in r ==> x in s
  {
    if |s| == 0 then [] else (if s[0] == c then [] else [s[0]]) + Remove(s[1..], c)
  }

  // ---------------------------------------------------------------------
  // int() and str() of integers

  predicate IsDigit(c: char) {
    '0' <= c <= '9'
  }

  function DigitValue(c: char): nat
    requires IsDigit(c)
  {
    (c as int - '0' as int) as nat
  }

  function DigitChar(d: nat): (c: char)
    requires d < 10
    ensures IsDigit(c) && DigitValue(c) == d
  {
    ('0' as int + d) as char
  }

  predicate DigitsOrUnderscores(s: string) {
    forall i :: 0 <= i < |s| ==> IsDigit(s[i]) || s[i] == '_'
  }

  /** A decimal literal as `int()` accepts it: digits, with single
      underscores allowed between two digits. */
  predicate IsDigitString(s: string) {
    && |s| > 0
    && DigitsOrUnderscores(s)
    && IsDigit(s[0]) && IsDigit(s[|s| - 1])
    && forall i :: 0 < i < |s| - 1 && s[i] == '_' ==> IsDigit(s[i - 1]) && IsDigit(s[i + 1])
  }

  /** The number a digit string denotes, underscores ignored. */
  function DigitsValue(s: string): nat
    requires DigitsOrUnderscores(s)
  {
    if |s| == 0 then 0
    else
      var init := DigitsValue(s[..|s| - 1]);
      if s[|s| - 1] == '_' then init else init * 10 + DigitValue(s[|s| - 1])
  }

  /** `int(token)`: an optional sign and a decimal literal, or a
      ValueError. */
  function ParseInt(s: string): (r: Result<int>)
    ensures r.Failure? ==> r.error == ValueError
  {
    if |s| > 0 && (s[0] == '-' || s[0] == '+') then
      var body := s[1..];
      if IsDigitString(body) then
        Success(if s[0] == '-' then -(DigitsValue(body) as int) else DigitsValue(body) as int)
      else Failure(ValueError)
    else if IsDigitString(s) then Success(DigitsValue(s))
    else Failure(ValueError)
  }

  /** `str(n)` for `n >= 0`: decimal digits, no leading zero. */
  function ShowNat(n: nat): (s: string)
    ensures |s| > 0 && forall i :: 0 <= i < |s| ==> IsDigit(s[i])
    ensures |s| > 1 ==> s[0] != '0'
  {
    if n < 10 then [DigitChar(n)] else ShowNat(n / 10) + [DigitChar(n % 10)]
  }

  /** `str(n)` */
  function ShowInt(n: int): string {
    if n < 0 then "-" + ShowNat(-n) else ShowNat(n)
  }

  lemma {:induction false} ShowNatValue(n: nat)
    ensures IsDigitString(ShowNat(n))
    ensures DigitsValue(ShowNat(n)) == n
  {
    var s := ShowNat(n);
    if n >= 10 {
      ShowNatValue(n / 10);
      assert s[..|s| - 1] == ShowNat(n / 10);
    }
  }

  lemma ParseShowNat(n: nat)
    ensures ParseInt(ShowNat(n)) == Success(n)
  {
    var s := ShowNat(n);
    ShowNatValue(n);
    assert IsDigit(s[0]);
  }

  lemma ParseShowNegative(n: int)
    requires n < 0
    ensures ParseInt(ShowInt(n)) == Success(n)
  {
    var body := ShowNat(-n);
    ShowNatValue(-n);
    var s := ShowInt(n);
    assert s == "-" + body;
    assert |s| > 0 && s[0] == '-';
    assert s[1..] == body;
    assert ParseInt(s) == Success(-(DigitsValue(body) as int));
  }

  /** Round trip: `int(str(n)) == n`. */
  lemma ParseShowInt(n: int)
    ensures ParseInt(ShowInt(n)) == Success(n)
  {
    if n < 0 {
      ParseShowNegative(n);
    } else {
      ParseShowNat(n);
    }
  }
}
