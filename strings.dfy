/** `String.prototype.trim` of JavaScript, on `seq<char>`. */
module Strings {

  /** JavaScript's WhiteSpace and LineTerminator code points, the ones `trim` removes. */
  const SpaceChars: seq<char> := [
    ' ', '\t', '\n', '\U{000B}', '\U{000C}', '\r', '\U{00A0}', '\U{1680}',
    '\U{2000}', '\U{2001}', '\U{2002}', '\U{2003}', '\U{2004}', '\U{2005}',
    '\U{2006}', '\U{2007}', '\U{2008}', '\U{2009}', '\U{200A}',
    '\U{2028}', '\U{2029}', '\U{202F}', '\U{205F}', '\U{3000}', '\U{FEFF}'
  ]

  predicate Among(c: char, cs: seq<char>)
  {
    cs != [] && (c == cs[0] || Among(c, cs[1..]))
  }

  predicate IsSpace(c: char)
  {
    Among(c, SpaceChars)
  }

  predicate AllSpace(s: string)
  {
    forall i :: 0 <= i < |s| ==> IsSpace(s[i])
  }

  /** The number of white-space characters at the start of `s`. */
  function Leading(s: string): (n: nat)
    ensures n <= |s|
    ensures forall i :: 0 <= i < n ==> IsSpace(s[i])
    ensures n < |s| ==> !IsSpace(s[n])
  {
    if s == [] || !IsSpace(s[0]) then 0 else 1 + Leading(s[1..])
  }

  /** The number of white-space characters at the end of `s`. */
  function Trailing(s: string): (n: nat)
    ensures n <= |s|
    ensures forall i :: |s| - n <= i < |s| ==> IsSpace(s[i])
    ensures n < |s| ==> !IsSpace(s[|s| - 1 - n])
  {
    if s == [] || !IsSpace(s[|s| - 1]) then 0 else 1 + Trailing(s[..|s| - 1])
  }

  /** `s.trim()`: `s` without its leading and trailing white space. */
  function Trim(s: string): (r: string)
    ensures r == [] <==> AllSpace(s)
    ensures r != [] ==> !IsSpace(r[0]) && !IsSpace(r[|r| - 1])
  {
    var t := s[Leading(s)..];
    t[..|t| - Trailing(t)]
  }

  /** The white space `trim` cuts from the front of `s`. */
  function LeadingPart(s: string): string
  {
    s[..Leading(s)]
  }

  /** The white space `trim` cuts from the back of `s`. */
  function TrailingPart(s: string): string
  {
    var t := s[Leading(s)..];
    t[|t| - Trailing(t)..]
  }

  lemma PrefixAllSpace(s: string, n: nat)
    requires n <= |s| && forall i :: 0 <= i < n ==> IsSpace(s[i])
    ensures AllSpace(s[..n])
  {
  }

  lemma SuffixAllSpace(s: string, n: nat)
    requires n <= |s| && forall i :: |s| - n <= i < |s| ==> IsSpace(s[i])
    ensures AllSpace(s[|s| - n..])
  {
  }

  lemma SplitThree(s: string, a: nat, t: string, b: nat)
    requires a <= |s| && t == s[a..] && b <= |t|
    ensures s == s[..a] + t[..b] + t[b..]
  {
    assert t == t[..b] + t[b..];
    assert s == s[..a] + t;
  }

  /** `trim` only cuts white space: `s` is the cut-off front, the trimmed text and the cut-off back. */
  lemma TrimSplits(s: string)
    ensures s == LeadingPart(s) + Trim(s) + TrailingPart(s)
    ensures AllSpace(LeadingPart(s)) && AllSpace(TrailingPart(s))
  {
    var a := Leading(s);
    var t := s[a..];
    var n := Trailing(t);
    SplitThree(s, a, t, |t| - n);
    PrefixAllSpace(s, a);
    SuffixAllSpace(t, n);
  }

  lemma LeadingIs(s: string, n: nat)
    requires n <= |s| && (forall i :: 0 <= i < n ==> IsSpace(s[i])) && (n < |s| ==> !IsSpace(s[n]))
    ensures Leading(s) == n
  {
  }

  lemma TrailingIs(s: string, n: nat)
    requires n <= |s| && (forall i :: |s| - n <= i < |s| ==> IsSpace(s[i]))
    requires n < |s| ==> !IsSpace(s[|s| - 1 - n])
    ensures Trailing(s) == n
  {
  }

  /** Trimming text that is padded only with white space gives back the text,
      provided the text itself neither starts nor ends with white space. */
  lemma {:induction false} TrimPadded(front: string, m: string, back: string)
    requires AllSpace(front) && AllSpace(back)
    requires m == [] || (!IsSpace(m[0]) && !IsSpace(m[|m| - 1]))
    ensures Trim(front + m + back) == m
  {
    var s := front + m + back;
    if m == [] {
      assert AllSpace(s) by {
        forall i | 0 <= i < |s| ensures IsSpace(s[i]) {
          if i < |front| { assert s[i] == front[i]; } else { assert s[i] == back[i - |front|]; }
        }
      }
    } else {
      assert s[..|front|] == front;
      LeadingIs(s, |front|);
      var t := s[|front|..];
      assert t == m + back;
      assert t[|t| - |back|..] == back;
      assert t[|t| - 1 - |back|] == m[|m| - 1];
      TrailingIs(t, |back|);
      assert t[..|t| - |back|] == m;
    }
  }

  /** `trim` is idempotent. */
  lemma TrimIdempotent(s: string)
    ensures Trim(Trim(s)) == Trim(s)
  {
    TrimPadded([], Trim(s), []);
    assert [] + Trim(s) + [] == Trim(s);
  }

  /** Appending white space does not change what `trim` returns. */
  lemma TrimIgnoresAppendedSpace(s: string, w: string)
    requires AllSpace(w)
    ensures Trim(s + w) == Trim(s)
  {
    TrimSplits(s);
    var front, back := LeadingPart(s), TrailingPart(s);
    assert AllSpace(back + w) by {
      forall i | 0 <= i < |back + w| ensures IsSpace((back + w)[i]) {
        if i < |back| { assert (back + w)[i] == back[i]; } else { assert (back + w)[i] == w[i - |back|]; }
      }
    }
    assert s + w == front + Trim(s) + (back + w);
    TrimPadded(front, Trim(s), back + w);
  }
}
