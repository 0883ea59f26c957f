/**
 * The Python string built-ins the region parser and the report depend on:
 * `str.split` with a one-character separator, `str * int`, `int(str)` in base 10
 * and `str(int)`.
 */
module PyText {
  import opened Wrappers

  /** Number of occurrences of `c` in `s` (`s.count(c)`). */
  function Count(s: string, c: char): (n: nat)
    ensures n <= |s|
    ensures n == 0 <==> c !in s
  {
    if s == [] then 0 else (if s[0] == c then 1 else 0) + Count(s[1..], c)
  }

  /** `sep.join(parts)` for a one-character separator. */
  function Join(parts: seq<string>, sep: char): string
    requires |parts| >= 1
  {
    if |parts| == 1 then parts[0] else parts[0] + [sep] + Join(parts[1..], sep)
  }

  lemma JoinTwo(a: string, b: string, sep: char)
    ensures Join([a, b], sep) == a + [sep] + b
  {
    assert [a, b][1..] == [b];
  }

  /**
   * `s.split(sep)`: the pieces between the occurrences of `sep`, empty pieces
   * kept, so there is always one piece more than there are separators.
   */
  function Split(s: string, sep: char): (parts: seq<string>)
    ensures |parts| == Count(s, sep) + 1
    ensures forall i :: 0 <= i < |parts| ==> sep !in parts[i]
    ensures Join(parts, sep) == s
  {
    if s == [] then [[]]
    else
      var rest := Split(s[1..], sep);
      if s[0] == sep then
        [[]] + rest
      else
        var parts := [[s[0]] + rest[0]] + rest[1..];
        assert parts[1..] == rest[1..];
        parts
  }

  lemma {:induction false} SplitAfterPiece(p: string, sep: char, tail: string)
    requires sep !in p
    ensures Split(p + [sep] + tail, sep) == [p] + Split(tail, sep)
  {
    var s := p + [sep] + tail;
    if p == [] {
      assert s[1..] == tail;
    } else {
      assert s[1..] == p[1..] + [sep] + tail;
      SplitAfterPiece(p[1..], sep, tail);
      assert [p[0]] + p[1..] == p;
    }
  }

  /** Splitting a join of separator-free pieces gives the pieces back. */
  lemma {:induction false} SplitJoin(parts: seq<string>, sep: char)
    requires |parts| >= 1
    requires forall i :: 0 <= i < |parts| ==> sep !in parts[i]
    ensures Split(Join(parts, sep), sep) == parts
  {
    if |parts| > 1 {
      SplitJoin(parts[1..], sep);
      SplitAfterPiece(parts[0], sep, Join(parts[1..], sep));
      assert [parts[0]] + parts[1..] == parts;
    }
  }

  /** `c * n`: `n` copies of `c`, and the empty string when `n` is not positive. */
  function Repeat(c: char, n: int): (s: string)
    ensures |s| == if n > 0 then n else 0
    ensures forall i :: 0 <= i < |s| ==> s[i] == c
    decreases n
  {
    if n <= 0 then [] else [c] + Repeat(c, n - 1)
  }

  /** The characters `str.isspace()` accepts; `str.strip()` removes them. */
  predicate IsSpace(c: char) {
    || ('\t' <= c <= '\r')
    || ('\U{1C}' <= c <= ' ')
    || c == '\U{85}' || c == '\U{A0}' || c == '\U{1680}'
    || ('\U{2000}' <= c <= '\U{200A}')
    || c == '\U{2028}' || c == '\U{2029}' || c == '\U{202F}' || c == '\U{205F}' || c == '\U{3000}'
  }

  /**
   * The whitespace `int()` skips around a literal: the `str.isspace()` set
   * without the four ASCII separators U+001C to U+001F, which `int()` refuses.
   */
  predicate IntSpace(c: char) {
    IsSpace(c) && !('\U{1C}' <= c <= '\U{1F}')
  }

  /** `s` with its leading characters in `space` removed: a suffix of `s`. */
  function StripLeading(s: string, space: char -> bool): (t: string)
    ensures |t| <= |s| && t == s[|s| - |t|..]
    ensures forall k :: 0 <= k < |s| - |t| ==> space(s[k])
    ensures t == [] || !space(t[0])
  {
    if s != [] && space(s[0]) then
      var t := StripLeading(s[1..], space);
      assert s[1..][|s| - 1 - |t|..] == s[|s| - |t|..];
      assert forall k :: 1 <= k < |s| - |t| ==> s[k] == s[1..][k - 1];
      t
    else s
  }

  /** `s` with its trailing characters in `space` removed: a prefix of `s`. */
  function StripTrailing(s: string, space: char -> bool): (t: string)
    ensures |t| <= |s| && t == s[..|t|]
    ensures forall k :: |t| <= k < |s| ==> space(s[k])
    ensures t == [] || !space(t[|t| - 1])
  {
    if s != [] && space(s[|s| - 1]) then
      var t := StripTrailing(s[..|s| - 1], space);
      assert forall k :: |t| <= k < |s| - 1 ==> s[k] == s[..|s| - 1][k];
      t
    else s
  }

  /**
   * `s` with the characters in `space` removed at both ends: the infix of `s`
   * that is left once every such character before and after it is gone.
   */
  function StripBy(s: string, space: char -> bool): (t: string)
    ensures exists i, j ::
      && 0 <= i <= j <= |s| && t == s[i..j]
      && (forall k :: 0 <= k < i ==> space(s[k]))
      && (forall k :: j <= k < |s| ==> space(s[k]))
    ensures forall c :: c in s ==> c in t || space(c)
    ensures forall c :: c in t ==> c in s
    ensures t == [] || (!space(t[0]) && !space(t[|t| - 1]))
  {
    var u := StripLeading(s, space);
    var t := StripTrailing(u, space);
    StripInfix(s, space, u, t);
    t
  }

  /** The prefix of a suffix is an infix, and every character outside it is whitespace. */
  lemma StripInfix(s: string, space: char -> bool, u: string, t: string)
    requires |u| <= |s| && u == s[|s| - |u|..] && forall k :: 0 <= k < |s| - |u| ==> space(s[k])
    requires |t| <= |u| && t == u[..|t|] && forall k :: |t| <= k < |u| ==> space(u[k])
    ensures t == s[|s| - |u|..|s| - |u| + |t|]
    ensures forall k :: |s| - |u| + |t| <= k < |s| ==> space(s[k])
    ensures forall c :: c in s ==> c in t || space(c)
    ensures forall c :: c in t ==> c in s
  {
    var i := |s| - |u|;
    forall k | i + |t| <= k < |s|
      ensures space(s[k])
    {
      assert s[k] == u[k - i];
    }
    forall c | c in s
      ensures c in t || space(c)
    {
      var k :| 0 <= k < |s| && s[k] == c;
      if i <= k < i + |t| {
        assert t[k - i] == c;
      }
    }
  }

  /** `s.strip()`. */
  function Strip(s: string): string {
    StripBy(s, IsSpace)
  }

  /** A string that starts and ends with a character outside `space` is left as it is. */
  lemma {:induction false} StripUnpadded(s: string, space: char -> bool)
    requires s != [] && !space(s[0]) && !space(s[|s| - 1])
    ensures StripBy(s, space) == s
  {
    assert StripLeading(s, space) == s;
  }

  /** Stripping twice is stripping once. */
  lemma StripIdempotent(s: string, space: char -> bool)
    ensures StripBy(StripBy(s, space), space) == StripBy(s, space)
  {
    var t := StripBy(s, space);
    if t != [] {
      StripUnpadded(t, space);
    }
  }

  predicate IsDigit(c: char) {
    '0' <= c <= '9'
  }

  /** A character that can occur in a string `int()` accepts. */
  predicate LiteralChar(c: char) {
    IsDigit(c) || c == '_' || c == '+' || c == '-' || IntSpace(c)
  }

  /**
   * The body of a base-10 literal after its sign: digits, where an underscore
   * may stand only between two digits.
   */
  predicate IsDigitGroups(t: string) {
    && |t| > 0
    && IsDigit(t[0])
    && IsDigit(t[|t| - 1])
    && (forall i :: 0 <= i < |t| ==> IsDigit(t[i]) || t[i] == '_')
    && (forall i :: 0 <= i < |t| - 1 && t[i] == '_' ==> t[i + 1] != '_')
  }

  /** The number the digits of `t` spell, underscores skipped. */
  function DigitsValue(t: string): nat {
    if t == [] then 0
    else
      var last := t[|t| - 1];
      if IsDigit(last) then DigitsValue(t[..|t| - 1]) * 10 + (last as int - '0' as int)
      else DigitsValue(t[..|t| - 1])
  }

  /**
   * Python's `int(s)` on a string, in base 10: `Some(value)`, or `None` where
   * `int` raises `ValueError`. Surrounding `IntSpace` whitespace and one sign are accepted,
   * and underscores between digits; anything else (a comma, a letter, an empty
   * body) is refused.
   */
  function ParseInt(s: string): (r: Option<int>)
    ensures r.Some? ==> forall c :: c in s ==> LiteralChar(c)
    ensures r.Some? ==> exists i :: 0 <= i < |s| && IsDigit(s[i])
    ensures r.Some? && '-' !in s ==> r.value >= 0
  {
    var t := StripBy(s, IntSpace);
    var signed := |t| > 0 && (t[0] == '+' || t[0] == '-');
    var body := if signed then t[1..] else t;
    if !IsDigitGroups(body) then None
    else
      assert body[0] in s;
      assert forall c :: c in t ==> c == t[0] || c in body;
      var magnitude: int := DigitsValue(body);
      if signed && t[0] == '-' then Some(-magnitude) else Some(magnitude)
  }

  /** `int` refuses any text holding a character a literal cannot contain. */
  lemma ParseIntRejects(s: string, k: nat)
    requires k < |s| && !LiteralChar(s[k])
    ensures ParseInt(s) == None
  {
    assert s[k] in s;
  }

  /** `int` refuses a comma-grouped number such as `1,000`. */
  lemma ParseIntRejectsComma(s: string)
    requires ',' in s
    ensures ParseInt(s) == None
  {
    var k :| 0 <= k < |s| && s[k] == ',';
    ParseIntRejects(s, k);
  }

  /** `int` refuses the ASCII separators U+001C to U+001F, though `str.isspace()` accepts them. */
  lemma ParseIntRejectsSeparator(s: string, k: nat)
    requires k < |s| && '\U{1C}' <= s[k] <= '\U{1F}'
    ensures ParseInt(s) == None
  {
    assert IsSpace(s[k]);
    ParseIntRejects(s, k);
  }

  /** `str(n)` for a non-negative `n`: its decimal digits, without a leading zero. */
  function DecimalText(n: nat): (s: string)
    ensures |s| >= 1 && (s[0] == '0' ==> n == 0)
    ensures forall i :: 0 <= i < |s| ==> IsDigit(s[i])
    ensures DigitsValue(s) == n
  {
    if n < 10 then [('0' as int + n) as char]
    else
      var p := DecimalText(n / 10);
      var s := p + [('0' as int + n % 10) as char];
      assert s[..|s| - 1] == p;
      s
  }

  /** `str(i)` for any integer: a minus sign before the digits of a negative one. */
  function IntText(i: int): (s: string)
    ensures ':' !in s && ',' !in s
    ensures '-' in s <==> i < 0
  {
    if i < 0 then "-" + DecimalText(-i) else DecimalText(i)
  }

  /** `int` reads back an unsigned run of digits with its own value. */
  lemma {:induction false} ParseIntOfDigits(d: string)
    requires d != [] && forall k :: 0 <= k < |d| ==> IsDigit(d[k])
    ensures ParseInt(d) == Some(DigitsValue(d) as int)
  {
    assert !IntSpace(d[0]) && !IntSpace(d[|d| - 1]);
    StripUnpadded(d, IntSpace);
    var t := StripBy(d, IntSpace);
    assert t == d;
    assert !(t[0] == '+' || t[0] == '-');
    assert IsDigitGroups(d);
  }

  /** `int(str(i)) == i` for every integer. */
  lemma {:induction false} ParseIntOfIntText(i: int)
    ensures ParseInt(IntText(i)) == Some(i)
  {
    if i < 0 {
      var d := DecimalText(-i);
      var s := "-" + d;
      StripUnpadded(s, IntSpace);
      assert s[1..] == d;
      assert IsDigitGroups(d);
    } else {
      ParseIntOfDigits(DecimalText(i));
    }
  }
}
