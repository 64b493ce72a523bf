/** String helpers with the semantics of the Python built-ins the service relies on:
    str.strip(), str.startswith(), str.split(sep, 1), str.split(sep)[1], str(int)
    and the lower-casing of an e-mail domain. */
module Text {
  import opened Wrappers

  /** Python's str.isspace() for one character (the characters str.strip() removes). */
  predicate IsSpace(c: char)
  {
    || c == ' ' || ('\t' <= c <= '\r') || ('\U{001C}' <= c <= '\U{001F}')
    || c == '\U{0085}' || c == '\U{00A0}' || c == '\U{1680}'
    || ('\U{2000}' <= c <= '\U{200A}') || c == '\U{2028}' || c == '\U{2029}'
    || c == '\U{202F}' || c == '\U{205F}' || c == '\U{3000}'
  }

  function StripLeft(s: string): (r: string)
    ensures |r| <= |s|
    ensures r == [] || !IsSpace(r[0])
  {
    if s != [] && IsSpace(s[0]) then StripLeft(s[1..]) else s
  }

  /** StripLeft keeps a suffix and cuts only white space. */
  lemma {:induction false} StripLeftCutsSpace(s: string)
    ensures StripLeft(s) == s[|s| - |StripLeft(s)|..]
    ensures forall i :: 0 <= i < |s| - |StripLeft(s)| ==> IsSpace(s[i])
  {
    if s != [] && IsSpace(s[0]) {
      StripLeftCutsSpace(s[1..]);
      assert s[1..][|s| - 1 - |StripLeft(s)|..] == s[|s| - |StripLeft(s)|..];
      assert forall i :: 1 <= i < |s| - |StripLeft(s)| ==> s[i] == s[1..][i - 1];
    }
  }

  function StripRight(s: string): (r: string)
    ensures |r| <= |s| && r == s[..|r|]
    ensures r == [] || !IsSpace(r[|r| - 1])
  {
    if s != [] && IsSpace(s[|s| - 1]) then StripRight(s[..|s| - 1]) else s
  }

  /** StripRight cuts only white space. */
  lemma {:induction false} StripRightCutsSpace(s: string)
    ensures forall i :: |StripRight(s)| <= i < |s| ==> IsSpace(s[i])
  {
    if s != [] && IsSpace(s[|s| - 1]) {
      StripRightCutsSpace(s[..|s| - 1]);
    }
  }

  /** str.strip(): the longest infix with no white space at either end. */
  function Strip(s: string): string
  {
    StripRight(StripLeft(s))
  }

  /** Strip keeps a contiguous part of its input, cuts only white space and
      leaves no white space at either end. */
  lemma StripShape(s: string)
    ensures exists i, j :: 0 <= i <= j <= |s| && Strip(s) == s[i..j]
                           && (forall k :: 0 <= k < i ==> IsSpace(s[k]))
                           && (forall k :: j <= k < |s| ==> IsSpace(s[k]))
    ensures Strip(s) == [] || (!IsSpace(Strip(s)[0]) && !IsSpace(Strip(s)[|Strip(s)| - 1]))
  {
    var l := StripLeft(s);
    var i := |s| - |l|;
    var j := i + |StripRight(l)|;
    StripLeftCutsSpace(s);
    StripRightCutsSpace(l);
    assert Strip(s) == s[i..j];
    forall k | j <= k < |s| ensures IsSpace(s[k]) { assert s[k] == l[k - i]; }
    if Strip(s) != [] {
      assert Strip(s)[0] == l[0];
    }
  }

  /** What Strip returns has no white space at either end. */
  lemma StripEnds(s: string)
    ensures Strip(s) == [] || (!IsSpace(Strip(s)[0]) && !IsSpace(Strip(s)[|Strip(s)| - 1]))
  {
    var l := StripLeft(s);
    if Strip(s) != [] {
      assert Strip(s)[0] == l[0];
    }
  }

  /** Stripping twice is stripping once. */
  lemma StripIdempotent(s: string)
    ensures Strip(Strip(s)) == Strip(s)
  {
    StripShape(s);
  }

  predicate StartsWith(s: string, prefix: string)
  {
    |prefix| <= |s| && s[..|prefix|] == prefix
  }

  /** Index of the first occurrence of c, if any. */
  function FirstIndex(s: string, c: char): (r: Option<nat>)
    ensures r.None? <==> c !in s
    ensures r.Some? ==> r.value < |s| && s[r.value] == c && c !in s[..r.value]
  {
    if s == [] then None
    else if s[0] == c then Some(0)
    else match FirstIndex(s[1..], c)
      case None => None
      case Some(i) => assert s[1..][..i] == s[1..i + 1]; Some(i + 1)
  }

  /** Index of the last occurrence of c, if any. */
  function LastIndex(s: string, c: char): (r: Option<nat>)
    ensures r.None? <==> c !in s
    ensures r.Some? ==> r.value < |s| && s[r.value] == c
  {
    if s == [] then None
    else if s[|s| - 1] == c then Some(|s| - 1)
    else
      var r := LastIndex(s[..|s| - 1], c);
      if r.Some? then r
      else assert s == s[..|s| - 1] + [s[|s| - 1]]; r
  }

  /** No occurrence follows the one LastIndex finds. */
  lemma {:induction false} LastIndexIsLast(s: string, c: char)
    requires LastIndex(s, c).Some?
    ensures c !in s[LastIndex(s, c).value + 1..]
  {
    if s[|s| - 1] != c {
      var init := s[..|s| - 1];
      LastIndexIsLast(init, c);
      assert s[LastIndex(s, c).value + 1..] == init[LastIndex(s, c).value + 1..] + [s[|s| - 1]];
    }
  }

  /** The last occurrence is the one with no occurrence after it. */
  lemma {:induction false} LastIndexAt(s: string, c: char, k: nat)
    requires k < |s| && s[k] == c && c !in s[k + 1..]
    ensures LastIndex(s, c) == Some(k)
  {
    if k < |s| - 1 {
      var init := s[..|s| - 1];
      assert s[|s| - 1] == s[k + 1..][|s| - k - 2];
      assert init[k + 1..] == s[k + 1..|s| - 1];
      forall j | k + 1 <= j < |s| - 1 ensures init[j] != c { assert init[j] == s[k + 1..][j - k - 1]; }
      LastIndexAt(init, c, k);
    }
  }

  /** `a, b = s.split(c, 1)`: the two parts around the first c; None when the
      unpacking fails because s holds no c. */
  function SplitFirst(s: string, c: char): (r: Option<(string, string)>)
    ensures r.None? <==> c !in s
    ensures r.Some? ==> s == r.value.0 + [c] + r.value.1 && c !in r.value.0
  {
    match FirstIndex(s, c)
    case None => None
    case Some(i) => assert s == s[..i] + [c] + s[i + 1..]; Some((s[..i], s[i + 1..]))
  }

  /** The first occurrence is the one with no occurrence before it. */
  lemma {:induction false} FirstIndexAt(s: string, c: char, k: nat)
    requires k < |s| && s[k] == c && c !in s[..k]
    ensures FirstIndex(s, c) == Some(k)
  {
    if k > 0 {
      assert s[0] == s[..k][0];
      assert s[1..][..k - 1] == s[1..k];
      assert c !in s[1..][..k - 1] by { assert forall x :: x in s[1..k] ==> x in s[..k]; }
      FirstIndexAt(s[1..], c, k - 1);
    }
  }

  /** Splitting on the first separator undoes joining at a separator-free
      head: the tail may hold the separator again. */
  lemma SplitFirstJoin(a: string, c: char, b: string)
    requires c !in a
    ensures SplitFirst(a + [c] + b, c) == Some((a, b))
  {
    var s := a + [c] + b;
    assert s[..|a|] == a;
    FirstIndexAt(s, c, |a|);
    assert s[|a| + 1..] == b;
  }

  /** `s.split(c)[1]`: the text between the first and the second c (or the end);
      None when the index raises because s holds no c. */
  function SecondSegment(s: string, c: char): (r: Option<string>)
    ensures r.None? <==> c !in s
    ensures r.Some? ==> c !in r.value
  {
    match SplitFirst(s, c)
    case None => None
    case Some((_, rest)) =>
      match SplitFirst(rest, c)
      case None => Some(rest)
      case Some((seg, _)) => Some(seg)
  }

  /** The segment after the first separator is exactly what was put there. */
  lemma SecondSegmentJoin(a: string, c: char, b: string, tail: string)
    requires c !in a && c !in b
    ensures SecondSegment(a + [c] + b, c) == Some(b)
    ensures SecondSegment(a + [c] + b + [c] + tail, c) == Some(b)
  {
    SplitFirstJoin(a, c, b);
    assert a + [c] + b + [c] + tail == a + [c] + (b + [c] + tail);
    SplitFirstJoin(a, c, b + [c] + tail);
    SplitFirstJoin(b, c, tail);
  }

  function LowerChar(c: char): char
  {
    if 'A' <= c <= 'Z' then (c as int + 32) as char else c
  }

  lemma LowerCharKeeps(c: char)
    ensures IsSpace(LowerChar(c)) <==> IsSpace(c)
    ensures LowerChar(c) == '@' <==> c == '@'
    ensures LowerChar(LowerChar(c)) == LowerChar(c)
  {
  }

  /** ASCII lower-casing, character by character. */
  function Lower(s: string): (r: string)
    ensures |r| == |s|
  {
    if s == [] then [] else [LowerChar(s[0])] + Lower(s[1..])
  }

  lemma {:induction false} LowerAt(s: string)
    ensures forall i :: 0 <= i < |s| ==> Lower(s)[i] == LowerChar(s[i])
  {
    if s != [] {
      LowerAt(s[1..]);
    }
  }

  function DigitChar(d: nat): char
    requires d < 10
  {
    ('0' as int + d) as char
  }

  predicate IsDigit(c: char)
  {
    '0' <= c <= '9'
  }

  function NatToDecimal(n: nat): (r: string)
    ensures |r| > 0 && forall i :: 0 <= i < |r| ==> IsDigit(r[i])
  {
    if n < 10 then [DigitChar(n)] else NatToDecimal(n / 10) + [DigitChar(n % 10)]
  }

  /** str(n) for a Python int. */
  function IntToDecimal(n: int): string
  {
    if n < 0 then "-" + NatToDecimal(-n) else NatToDecimal(n)
  }
}
