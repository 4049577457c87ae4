/** String operations of the JavaScript runtime that the screens rely on, stated over
    `seq<char>`: join, split on one character, substring search, trimming and ASCII case
    mapping. */
module Text {
  import opened Base

  /** `parts.join(sep)`. */
  function Join(parts: seq<string>, sep: string): string
  {
    if |parts| == 0 then ""
    else if |parts| == 1 then parts[0]
    else parts[0] + sep + Join(parts[1..], sep)
  }

  lemma JoinCons(x: string, rest: seq<string>, sep: string)
    requires |rest| >= 1
    ensures Join([x] + rest, sep) == x + sep + Join(rest, sep)
  {
    assert ([x] + rest)[1..] == rest;
  }

  /** Index of the first `c` in `s`. */
  function CharIndex(s: string, c: char): (k: nat)
    requires c in s
    ensures k < |s| && s[k] == c && c !in s[..k]
  {
    if s[0] == c then 0
    else
      var k := CharIndex(s[1..], c);
      assert s[1..][..k] == s[1..k + 1];
      k + 1
  }

  /** `s.split(c)` for a one-character separator: the pieces between separators, in order. */
  function Split(s: string, c: char): (r: seq<string>)
    ensures |r| >= 1
    ensures forall i :: 0 <= i < |r| ==> c !in r[i]
    ensures Join(r, [c]) == s
    decreases |s|
  {
    if c !in s then [s]
    else
      var k := CharIndex(s, c);
      var rest := Split(s[k + 1..], c);
      JoinCons(s[..k], rest, [c]);
      assert s == s[..k] + [c] + s[k + 1..];
      [s[..k]] + rest
  }

  /** `pat` occurs in `s` starting at index `i`. */
  predicate OccursAt(s: string, pat: string, i: nat)
  {
    i + |pat| <= |s| && s[i..i + |pat|] == pat
  }

  /** `s.indexOf(pat, from)`, with `None` for -1. */
  function IndexOfFrom(s: string, pat: string, from: nat): (r: Option<nat>)
    ensures r.Some? ==> from <= r.value && OccursAt(s, pat, r.value)
    ensures r.Some? ==> forall j :: from <= j < r.value ==> !OccursAt(s, pat, j)
    ensures r.None? ==> forall j :: from <= j ==> !OccursAt(s, pat, j)
    decreases |s| - from
  {
    if from + |pat| > |s| then None
    else if OccursAt(s, pat, from) then Some(from)
    else IndexOfFrom(s, pat, from + 1)
  }

  /** `s.includes(pat)`. */
  predicate Contains(s: string, pat: string)
  {
    IndexOfFrom(s, pat, 0).Some?
  }

  lemma ContainsAt(s: string, pat: string, i: nat)
    requires OccursAt(s, pat, i)
    ensures Contains(s, pat)
  {
  }

  /** An occurrence with none before it, from `from` on, is the one `indexOf` finds. */
  lemma IndexOfFromIs(s: string, pat: string, from: nat, i: nat)
    requires from <= i && OccursAt(s, pat, i)
    requires forall j :: from <= j < i ==> !OccursAt(s, pat, j)
    ensures IndexOfFrom(s, pat, from) == Some(i)
  {
  }

  /** Index of the last `c` in `s`, as `s.lastIndexOf(c)`. */
  function LastCharIndex(s: string, c: char): (r: Option<nat>)
    ensures r.Some? ==> r.value < |s| && s[r.value] == c && c !in s[r.value + 1..]
    ensures r.None? ==> c !in s
  {
    if |s| == 0 then None
    else if s[|s| - 1] == c then Some(|s| - 1)
    else
      var r := LastCharIndex(s[..|s| - 1], c);
      assert s == s[..|s| - 1] + [s[|s| - 1]];
      r
  }

  /** Index of the first `c` in `s`, as `s.indexOf(c)`. */
  function FirstCharIndex(s: string, c: char): (r: Option<nat>)
    ensures r.Some? ==> r.value < |s| && s[r.value] == c && c !in s[..r.value]
    ensures r.None? ==> c !in s
  {
    if c in s then Some(CharIndex(s, c)) else None
  }

  /** The characters `String.prototype.trim` removes: white space and line terminators. */
  predicate IsSpace(c: char)
  {
    c == ' ' || c == '\t' || c == '\n' || c == '\r' || c == '\U{000B}' || c == '\U{000C}'
    || c == '\U{00A0}' || c == '\U{1680}' || ('\U{2000}' <= c <= '\U{200A}')
    || c == '\U{2028}' || c == '\U{2029}' || c == '\U{202F}' || c == '\U{205F}'
    || c == '\U{3000}' || c == '\U{FEFF}'
  }

  /** `s.trimStart()`: the suffix of `s` left after its leading white space. */
  function TrimStart(s: string): (r: string)
    ensures |r| <= |s| && r == s[|s| - |r|..]
    ensures forall i :: 0 <= i < |s| - |r| ==> IsSpace(s[i])
    ensures r == "" || !IsSpace(r[0])
  {
    if |s| > 0 && IsSpace(s[0]) then TrimStart(s[1..]) else s
  }

  /** `s.trimEnd()`: the prefix of `s` left after its trailing white space. */
  function TrimEnd(s: string): (r: string)
    ensures |r| <= |s| && r == s[..|r|]
    ensures forall i :: |r| <= i < |s| ==> IsSpace(s[i])
    ensures r == "" || !IsSpace(r[|r| - 1])
  {
    if |s| > 0 && IsSpace(s[|s| - 1]) then TrimEnd(s[..|s| - 1]) else s
  }

  /** `s.trim()`. */
  function Trim(s: string): (r: string)
    ensures r == "" || (!IsSpace(r[0]) && !IsSpace(r[|r| - 1]))
    ensures forall c :: c in r ==> c in s
  {
    TrimEnd(TrimStart(s))
  }

  /** The trimmed text is a contiguous middle of `s` with only white space before and after it. */
  lemma TrimMiddle(s: string)
    ensures var r := Trim(s);
      exists a :: (0 <= a <= |s| - |r| && r == s[a..][..|r|]
        && (forall i :: 0 <= i < a ==> IsSpace(s[i]))
        && (forall i :: a + |r| <= i < |s| ==> IsSpace(s[i])))
  {
    var t := TrimStart(s);
    var a := |s| - |t|;
    var r := TrimEnd(t);
    assert t == s[a..];
    assert r == t[..|r|];
    forall i | a + |r| <= i < |s| ensures IsSpace(s[i]) {
      assert s[i] == t[i - a];
      assert IsSpace(t[i - a]);
    }
  }

  lemma {:induction false} TrimOfSpaces(s: string)
    requires forall i :: 0 <= i < |s| ==> IsSpace(s[i])
    ensures TrimStart(s) == "" && Trim(s) == ""
  {
    if |s| > 0 {
      assert IsSpace(s[0]);
      TrimOfSpaces(s[1..]);
      assert TrimStart(s) == TrimStart(s[1..]);
    }
  }

  function LowerChar(c: char): char
  {
    if 'A' <= c <= 'Z' then (c as int + 32) as char else c
  }

  function UpperChar(c: char): char
  {
    if 'a' <= c <= 'z' then (c as int - 32) as char else c
  }

  /** `s.toLowerCase()` on the ASCII letters. */
  function ToLower(s: string): (r: string)
    ensures |r| == |s| && forall i :: 0 <= i < |s| ==> r[i] == LowerChar(s[i])
  {
    seq(|s|, i requires 0 <= i < |s| => LowerChar(s[i]))
  }

  /** `s.toUpperCase()` on the ASCII letters. */
  function ToUpper(s: string): (r: string)
    ensures |r| == |s| && forall i :: 0 <= i < |s| ==> r[i] == UpperChar(s[i])
  {
    seq(|s|, i requires 0 <= i < |s| => UpperChar(s[i]))
  }

  /** Decimal digits of `n`, as `String(n)` writes a non-negative integer. */
  function NatToString(n: nat): (r: string)
    ensures |r| >= 1
    ensures forall i :: 0 <= i < |r| ==> '0' <= r[i] <= '9'
    ensures |r| > 1 ==> r[0] != '0'
    decreases n
  {
    if n < 10 then [DigitChar(n)] else NatToString(n / 10) + [DigitChar(n % 10)]
  }

  function DigitChar(d: nat): (c: char)
    requires d < 10
    ensures '0' <= c <= '9' && c as int - '0' as int == d
  {
    ('0' as int + d) as char
  }
}
