/** The text handling the planner and its checker share: Python's `str(n)`
    on naturals, `int(token)`, `str.strip()`, `str.rstrip(c)`,
    `str.split()`, `str.split(sep)` and `sep.join(parts)`. */
module DecimalText {
  import opened Wrappers

  predicate IsDigit(c: char) {
    '0' <= c <= '9'
  }

  /** The characters Python's `str.isspace()` accepts; `strip()` and
      `split()` without arguments use the same set. */
  predicate IsSpace(c: char) {
    c == ' ' || '\t' <= c <= '\r' || '\U{1c}' <= c <= '\U{1f}' || c == '\U{85}' || c == '\U{a0}'
    || c == '\U{1680}' || '\U{2000}' <= c <= '\U{200a}' || c == '\U{2028}' || c == '\U{2029}'
    || c == '\U{202f}' || c == '\U{205f}' || c == '\U{3000}'
  }

  predicate AllDigits(s: string) {
    forall i | 0 <= i < |s| :: IsDigit(s[i])
  }

  predicate NoSpace(s: string) {
    forall i | 0 <= i < |s| :: !IsSpace(s[i])
  }

  function DigitValue(c: char): nat
    requires IsDigit(c)
  {
    c as int - '0' as int
  }

  function DigitChar(d: nat): (c: char)
    requires d < 10
    ensures IsDigit(c) && DigitValue(c) == d
  {
    ('0' as int + d) as char
  }

  /** `str(n)`: the shortest decimal numeral of `n`. */
  function NatToString(n: nat): (s: string)
    ensures |s| > 0 && AllDigits(s)
    ensures s[0] == '0' ==> n == 0 && |s| == 1
    decreases n
  {
    if n < 10 then [DigitChar(n)] else NatToString(n / 10) + [DigitChar(n % 10)]
  }

  /** A Python decimal literal: digits, with single underscores allowed
      between two digits. */
  predicate Numeral(s: string) {
    && |s| > 0 && IsDigit(s[0]) && IsDigit(s[|s| - 1])
    && forall i | 0 <= i < |s| :: IsDigit(s[i]) || (s[i] == '_' && 0 < i < |s| - 1 && IsDigit(s[i - 1]) && IsDigit(s[i + 1]))
  }

  /** The value of the digits of `s`, underscores skipped. */
  function NumeralValue(s: string): nat
    decreases |s|
  {
    if s == [] then 0
    else
      var c := s[|s| - 1];
      if IsDigit(c) then NumeralValue(s[..|s| - 1]) * 10 + DigitValue(c) else NumeralValue(s[..|s| - 1])
  }

  /** `int(token)` on a token with no surrounding whitespace: an optional
      sign and a numeral; `None` is the ValueError. */
  function ParseInt(t: string): Option<int> {
    if |t| > 0 && (t[0] == '+' || t[0] == '-') then
      if Numeral(t[1..]) then Some(if t[0] == '-' then -(NumeralValue(t[1..]) as int) else NumeralValue(t[1..])) else None
    else if Numeral(t) then Some(NumeralValue(t))
    else None
  }

  lemma {:induction false} ValueOfNatToString(n: nat)
    ensures NumeralValue(NatToString(n)) == n
    decreases n
  {
    var s := NatToString(n);
    if n >= 10 {
      ValueOfNatToString(n / 10);
      assert s[..|s| - 1] == NatToString(n / 10);
    }
  }

  /** `int(str(n)) == n`. */
  lemma ParseNatToString(n: nat)
    ensures ParseInt(NatToString(n)) == Some(n)
  {
    ValueOfNatToString(n);
  }

  /** `int(str(-n)) == -n`: a minus sign negates. */
  lemma ParseNegated(n: nat)
    ensures ParseInt("-" + NatToString(n)) == Some(-(n as int))
  {
    ValueOfNatToString(n);
    assert ("-" + NatToString(n))[1..] == NatToString(n);
  }

  /** A token holding whitespace is not a number. */
  lemma ParseRejectsSpace(t: string, i: nat)
    requires i < |t| && IsSpace(t[i])
    ensures ParseInt(t) == None
  {
    if i > 0 {
      assert t[1..][i - 1] == t[i];
    }
  }

  /** `s.lstrip()`. */
  function LStrip(s: string): (r: string)
    ensures r == [] || !IsSpace(r[0])
    ensures exists i | 0 <= i <= |s| :: r == s[i..] && forall j | 0 <= j < i :: IsSpace(s[j])
    decreases |s|
  {
    if s != [] && IsSpace(s[0]) then
      var r := LStrip(s[1..]);
      ghost var i :| 0 <= i <= |s[1..]| && r == s[1..][i..] && forall j | 0 <= j < i :: IsSpace(s[1..][j]);
      assert r == s[i + 1..];
      assert forall j | 0 <= j < i + 1 :: IsSpace(s[j]) by {
        forall j | 0 <= j < i + 1 ensures IsSpace(s[j]) {
          if j > 0 {
            assert s[j] == s[1..][j - 1];
          }
        }
      }
      r
    else
      assert s == s[0..];
      s
  }

  /** `s.rstrip()`. */
  function RStrip(s: string): (r: string)
    ensures r == [] || !IsSpace(r[|r| - 1])
    ensures exists i | 0 <= i <= |s| :: r == s[..i] && forall j | i <= j < |s| :: IsSpace(s[j])
    decreases |s|
  {
    if s != [] && IsSpace(s[|s| - 1]) then
      var init := s[..|s| - 1];
      var r := RStrip(init);
      ghost var i :| 0 <= i <= |init| && r == init[..i] && forall j | i <= j < |init| :: IsSpace(init[j]);
      assert r == s[..i];
      r
    else
      assert s == s[..|s|];
      s
  }

  /** `s.strip()`: both ends. */
  function Strip(s: string): (r: string)
    ensures r == [] || (!IsSpace(r[0]) && !IsSpace(r[|r| - 1]))
  {
    var l := LStrip(s);
    var r := RStrip(l);
    ghost var i :| 0 <= i <= |l| && r == l[..i] && forall j | i <= j < |l| :: IsSpace(l[j]);
    assert r == [] || r[0] == l[0];
    r
  }

  /** Stripping a line that has no whitespace at its ends but its newline
      gives back the line. */
  lemma StripLine(s: string)
    requires s == [] || (!IsSpace(s[0]) && !IsSpace(s[|s| - 1]))
    ensures Strip(s + "\n") == s
  {
    var t := s + "\n";
    if s == [] {
      assert LStrip(t) == LStrip([]);
    } else {
      assert LStrip(t) == t;
      assert t[..|t| - 1] == s;
    }
  }

  /** `s.rstrip(c)`: every trailing `c` removed. */
  function RStripChar(s: string, c: char): (r: string)
    ensures r == [] || r[|r| - 1] != c
    ensures |r| <= |s| && r == s[..|r|]
    ensures forall j | |r| <= j < |s| :: s[j] == c
    decreases |s|
  {
    if s != [] && s[|s| - 1] == c then RStripChar(s[..|s| - 1], c) else s
  }

  /** The longest prefix of `s` without whitespace. */
  function Token(s: string): (t: string)
    ensures |t| <= |s| && t == s[..|t|] && NoSpace(t)
    ensures |t| == |s| || IsSpace(s[|t|])
    decreases |s|
  {
    if s == [] || IsSpace(s[0]) then [] else [s[0]] + Token(s[1..])
  }

  /** `s.split()`: the maximal runs of non-whitespace, in order. */
  function SplitWs(s: string): (ts: seq<string>)
    ensures forall k | 0 <= k < |ts| :: ts[k] != [] && NoSpace(ts[k])
    decreases |s|
  {
    if s == [] then []
    else if IsSpace(s[0]) then SplitWs(s[1..])
    else
      var t := Token(s);
      [t] + SplitWs(s[|t|..])
  }

  /** `sep.join(parts)`. */
  function Join(parts: seq<string>, sep: string): string
    decreases |parts|
  {
    if parts == [] then []
    else if |parts| == 1 then parts[0]
    else parts[0] + sep + Join(parts[1..], sep)
  }

  lemma {:induction false} TokenOf(t: string, rest: string)
    requires NoSpace(t) && (rest == [] || IsSpace(rest[0]))
    ensures Token(t + rest) == t
    decreases |t|
  {
    if t != [] {
      assert (t + rest)[1..] == t[1..] + rest;
      TokenOf(t[1..], rest);
    } else {
      assert t + rest == rest;
    }
  }

  /** Splitting a space-joined list of words returns the words. */
  lemma {:induction false} SplitWsJoin(ts: seq<string>)
    requires forall k | 0 <= k < |ts| :: ts[k] != [] && NoSpace(ts[k])
    ensures SplitWs(Join(ts, " ")) == ts
    decreases |ts|
  {
    if |ts| == 1 {
      TokenOf(ts[0], []);
      assert ts[0] + [] == ts[0];
      assert ts[0][|ts[0]|..] == [];
    } else if |ts| > 1 {
      var rest := Join(ts[1..], " ");
      var s := ts[0] + " " + rest;
      assert s == ts[0] + (" " + rest);
      TokenOf(ts[0], " " + rest);
      assert s[|ts[0]|..] == " " + rest;
      assert (" " + rest)[1..] == rest;
      SplitWsJoin(ts[1..]);
    }
  }

  /** `s.split(sep)`: the pieces between the non-overlapping occurrences of
      `sep`, found left to right. */
  function SplitOn(s: string, sep: string): (parts: seq<string>)
    requires |sep| > 0
    ensures |parts| >= 1
    decreases |s|
  {
    if |s| < |sep| then [s]
    else if s[..|sep|] == sep then [[]] + SplitOn(s[|sep|..], sep)
    else
      var rest := SplitOn(s[1..], sep);
      [[s[0]] + rest[0]] + rest[1..]
  }

  /** Joining the pieces with the separator gives back the string. */
  lemma {:induction false} JoinSplitOn(s: string, sep: string)
    requires |sep| > 0
    ensures Join(SplitOn(s, sep), sep) == s
    decreases |s|
  {
    if |s| < |sep| {
    } else if s[..|sep|] == sep {
      var tail := s[|sep|..];
      JoinSplitOn(tail, sep);
      assert s == [] + sep + Join(SplitOn(tail, sep), sep);
    } else {
      var rest := SplitOn(s[1..], sep);
      JoinSplitOn(s[1..], sep);
      assert SplitOn(s, sep) == [[s[0]] + rest[0]] + rest[1..];
      JoinGlued(s[0], rest, sep);
      assert [s[0]] + s[1..] == s;
    }
  }

  /** Gluing a character onto the first piece glues it onto the join. */
  lemma JoinGlued(c: char, rest: seq<string>, sep: string)
    requires |rest| >= 1
    ensures Join([[c] + rest[0]] + rest[1..], sep) == [c] + Join(rest, sep)
  {
    var parts := [[c] + rest[0]] + rest[1..];
    assert parts[1..] == rest[1..];
    if |rest| > 1 {
      assert Join(parts, sep) == [c] + rest[0] + sep + Join(rest[1..], sep);
    }
  }

  /** A string without the separator's first character splits into itself. */
  lemma {:induction false} SplitOnAbsent(s: string, sep: string)
    requires |sep| > 0 && sep[0] !in s
    ensures SplitOn(s, sep) == [s]
    decreases |s|
  {
    if |s| >= |sep| {
      assert s[..|sep|][0] == s[0];
      SplitOnAbsent(s[1..], sep);
      assert [s[0]] + s[1..] == s;
    }
  }

  /** One separator between two pieces free of its first character splits
      into exactly those two pieces. */
  lemma {:induction false} SplitOnOnce(a: string, sep: string, b: string)
    requires |sep| > 0 && sep[0] !in a && sep[0] !in b
    ensures SplitOn(a + sep + b, sep) == [a, b]
    decreases |a|
  {
    var s := a + sep + b;
    if a == [] {
      assert s[..|sep|] == sep && s[|sep|..] == b;
      SplitOnAbsent(b, sep);
    } else {
      assert s[..|sep|][0] == a[0];
      assert s[1..] == a[1..] + sep + b;
      SplitOnOnce(a[1..], sep, b);
      assert [a[0]] + a[1..] == a;
    }
  }

  /** Numerals joined by spaces hold only digits and spaces. */
  lemma {:induction false} JoinDigits(ts: seq<string>)
    requires forall k | 0 <= k < |ts| :: AllDigits(ts[k])
    ensures forall i | 0 <= i < |Join(ts, " ")| :: IsDigit(Join(ts, " ")[i]) || Join(ts, " ")[i] == ' '
    decreases |ts|
  {
    if |ts| > 1 {
      assert AllDigits(ts[0]);
      JoinDigits(ts[1..]);
      var rest := Join(ts[1..], " ");
      var s := ts[0] + " " + rest;
      forall i | 0 <= i < |s| ensures IsDigit(s[i]) || s[i] == ' ' {
        if i < |ts[0]| {
          assert s[i] == ts[0][i];
        } else if i > |ts[0]| {
          assert s[i] == rest[i - |ts[0]| - 1];
        }
      }
    }
  }

  /** `(s + c).rstrip(c) == s` when `s` does not itself end in `c`. */
  lemma RStripCharOnce(s: string, c: char)
    requires s == [] || s[|s| - 1] != c
    ensures RStripChar(s + [c], c) == s
  {
    assert (s + [c])[..|s|] == s;
  }
}
