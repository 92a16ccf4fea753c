/** Text helpers shared by the memory engine and the prompt assembler: Python's `sep.join(parts)`,
    substring search (`sub in s`), `str.strip()` and `str(n)` for natural numbers. */
module Strings {

  /** Python's `sep.join(parts)`. */
  function Join(parts: seq<string>, sep: string): (r: string)
    ensures |parts| == 0 ==> r == ""
    ensures |parts| > 0 ==> parts[0] <= r
    ensures |parts| > 0 ==> |r| >= |parts[0]| + (|parts| - 1) * |sep|
  {
    if |parts| == 0 then ""
    else if |parts| == 1 then parts[0]
    else parts[0] + sep + Join(parts[1..], sep)
  }

  /** Joining `ps + [x]` appends the separator and `x` to the join of `ps`. */
  lemma {:induction false} JoinSnoc(ps: seq<string>, x: string, sep: string)
    ensures Join(ps + [x], sep) == if ps == [] then x else Join(ps, sep) + sep + x
  {
    if |ps| > 1 {
      assert (ps + [x])[1..] == ps[1..] + [x];
      JoinSnoc(ps[1..], x, sep);
    } else if |ps| == 1 {
      assert (ps + [x])[1..] == [x];
    }
  }

  /** A join of several parts is non-empty as soon as its first part is. */
  lemma JoinNonEmpty(parts: seq<string>, sep: string)
    requires |parts| > 0 && parts[0] != ""
    ensures Join(parts, sep) != ""
  {
    assert parts[0] <= Join(parts, sep);
  }

  /** Joins of one, two and three parts. */
  lemma JoinSmall(a: string, b: string, c: string, sep: string)
    ensures Join([a], sep) == a
    ensures Join([a, b], sep) == a + sep + b
    ensures Join([a, b, c], sep) == a + sep + b + sep + c
  {
    assert [a, b][1..] == [b];
    assert [a, b, c][1..] == [b, c];
    assert Join([b, c], sep) == b + sep + c;
    assert a + sep + (b + sep + c) == a + sep + b + sep + c;
  }

  /** Python's `"".join(parts)` of two and three parts is their concatenation. */
  lemma ConcatSmall(a: string, b: string, c: string)
    ensures Join([a, b], "") == a + b
    ensures Join([a, b, c], "") == a + b + c
  {
    JoinSmall(a, b, c, "");
    assert a + "" == a && a + b + "" == a + b;
  }

  /** `sub` occurs in `s` starting at position `i`. */
  predicate OccursAt(s: string, sub: string, i: int)
  {
    0 <= i && i + |sub| <= |s| && s[i..i + |sub|] == sub
  }

  /** Python's `sub in s` for strings. */
  function Contains(s: string, sub: string): (r: bool)
    ensures r <==> exists i :: OccursAt(s, sub, i)
    decreases |s|
  {
    if |sub| > |s| then false
    else if s[..|sub|] == sub then assert OccursAt(s, sub, 0); true
    else
      var r := Contains(s[1..], sub);
      assert s[0..|sub|] == s[..|sub|];
      assert !OccursAt(s, sub, 0);
      assert forall i :: OccursAt(s, sub, i) ==> OccursAt(s[1..], sub, i - 1) by {
        forall i | OccursAt(s, sub, i) ensures OccursAt(s[1..], sub, i - 1) {
          assert i != 0;
          var here, there := s[i..i + |sub|], s[1..][i - 1..i - 1 + |sub|];
          assert forall k :: 0 <= k < |sub| ==> here[k] == there[k];
          assert here == there;
        }
      }
      assert forall i :: OccursAt(s[1..], sub, i) ==> OccursAt(s, sub, i + 1) by {
        forall i | OccursAt(s[1..], sub, i) ensures OccursAt(s, sub, i + 1) {
          var here, there := s[i + 1..i + 1 + |sub|], s[1..][i..i + |sub|];
          assert forall k :: 0 <= k < |sub| ==> here[k] == there[k];
          assert here == there;
        }
      }
      r
  }

  /** Python's `str.startswith(prefix)`. */
  predicate StartsWith(s: string, prefix: string)
  {
    prefix <= s
  }

  /** The characters Python's `str.strip()` removes (`str.isspace()`). */
  predicate IsPythonSpace(c: char)
  {
    || ('\U{0009}' <= c <= '\U{000D}')
    || ('\U{001C}' <= c <= '\U{001F}')
    || c == ' '
    || c == '\U{0085}'
    || c == '\U{00A0}'
    || c == '\U{1680}'
    || ('\U{2000}' <= c <= '\U{200A}')
    || c == '\U{2028}'
    || c == '\U{2029}'
    || c == '\U{202F}'
    || c == '\U{205F}'
    || c == '\U{3000}'
  }

  /** Every character of `s` is whitespace (the empty string included). */
  predicate IsBlank(s: string)
  {
    forall i :: 0 <= i < |s| ==> IsPythonSpace(s[i])
  }

  /** Python's `s.lstrip()`. */
  function LStrip(s: string): (r: string)
    ensures |r| <= |s| && r == s[|s| - |r|..]
    ensures r != "" ==> !IsPythonSpace(r[0])
    ensures IsBlank(s[..|s| - |r|])
  {
    if s == [] then s
    else if IsPythonSpace(s[0]) then
      var r := LStrip(s[1..]);
      assert s[..|s| - |r|] == [s[0]] + s[1..][..|s[1..]| - |r|];
      r
    else s
  }

  /** Python's `s.rstrip()`. */
  function RStrip(s: string): (r: string)
    ensures |r| <= |s| && r == s[..|r|]
    ensures r != "" ==> !IsPythonSpace(r[|r| - 1])
    ensures IsBlank(s[|r|..])
  {
    if s == [] then s
    else if IsPythonSpace(s[|s| - 1]) then
      var r := RStrip(s[..|s| - 1]);
      assert s[|r|..] == s[..|s| - 1][|r|..] + [s[|s| - 1]];
      r
    else s
  }

  /** Python's `s.strip()`. */
  function Strip(s: string): string
  {
    RStrip(LStrip(s))
  }

  /** `not s.strip()` holds exactly when `s` consists of whitespace only. */
  lemma StripEmptyIffBlank(s: string)
    ensures Strip(s) == "" <==> IsBlank(s)
  {
    var l := LStrip(s);
    var r := RStrip(l);
    assert s == s[..|s| - |l|] + l;
    if r == "" {
      assert IsBlank(l[0..]);
      assert s[..|s| - |l|] == s;
    } else {
      assert r[0] == l[0];
      assert s[|s| - |l|] == l[0];
    }
  }

  /** Python's `str(n)` for a natural number: its decimal digits, most significant first,
      with no leading zero. */
  function NatToString(n: nat): (r: string)
    ensures |r| > 0
    ensures forall i :: 0 <= i < |r| ==> '0' <= r[i] <= '9'
    ensures DecimalValue(r) == n
    ensures r[0] == '0' ==> n == 0
  {
    if n < 10 then [DigitChar(n)]
    else
      var r := NatToString(n / 10) + [DigitChar(n % 10)];
      assert r[..|r| - 1] == NatToString(n / 10);
      r
  }

  function DigitChar(d: nat): (c: char)
    requires d < 10
    ensures '0' <= c <= '9'
    ensures c as int - '0' as int == d
  {
    ('0' as int + d) as char
  }

  /** The number a string of decimal digits denotes (`int(s)`). */
  function DecimalValue(s: string): nat
  {
    if s == [] then 0
    else DecimalValue(s[..|s| - 1]) * 10 + DigitValue(s[|s| - 1])
  }

  function DigitValue(c: char): nat
  {
    if '0' <= c <= '9' then c as int - '0' as int else 0
  }
}
