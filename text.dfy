/** String normalisation: Python's `str.strip()` and `Collector.headerify`. */
module Text {

  /** The characters Python's `str.isspace()` accepts, which `str.strip()` removes. */
  predicate IsSpace(c: char)
  {
    || c == ' ' || '\t' <= c <= '\r' || '\U{1C}' <= c <= '\U{1F}'
    || c == '\U{85}' || c == '\U{A0}' || c == '\U{1680}'
    || '\U{2000}' <= c <= '\U{200A}' || c == '\U{2028}' || c == '\U{2029}'
    || c == '\U{202F}' || c == '\U{205F}' || c == '\U{3000}'
  }

  predicate IsUpper(c: char)
  {
    'A' <= c <= 'Z'
  }

  /** The number of characters at the start of s that satisfy p. */
  function LeadingRun(s: string, p: char -> bool): (n: nat)
    ensures n <= |s|
    ensures forall i :: 0 <= i < n ==> p(s[i])
    ensures n == |s| || !p(s[n])
  {
    if |s| > 0 && p(s[0]) then 1 + LeadingRun(s[1..], p) else 0
  }

  /** The number of characters at the end of s that satisfy p. */
  function TrailingRun(s: string, p: char -> bool): (n: nat)
    ensures n <= |s|
    ensures forall i :: |s| - n <= i < |s| ==> p(s[i])
    ensures n == |s| || !p(s[|s| - n - 1])
  {
    if |s| > 0 && p(s[|s| - 1]) then 1 + TrailingRun(s[..|s| - 1], p) else 0
  }

  /** s without the characters that satisfy p at its start and at its end. */
  function TrimBy(s: string, p: char -> bool): (r: string)
    ensures var a := LeadingRun(s, p);
            && a + |r| <= |s| && r == s[a..a + |r|]
            && (forall i :: a + |r| <= i < |s| ==> p(s[i]))
    ensures r == [] || (!p(r[0]) && !p(r[|r| - 1]))
    ensures s == [] || (!p(s[0]) && !p(s[|s| - 1])) ==> r == s
  {
    var t := s[LeadingRun(s, p)..];
    t[..|t| - TrailingRun(t, p)]
  }

  /** `s.strip()`: s without its leading and its trailing whitespace. */
  function Strip(s: string): string
  {
    TrimBy(s, IsSpace)
  }

  /** `c.lower()` on ASCII; other characters are left alone. */
  function LowerChar(c: char): (l: char)
    ensures !IsUpper(l)
    ensures IsSpace(l) <==> IsSpace(c)
    ensures l == ' ' <==> c == ' '
  {
    if IsUpper(c) then (c as int - 'A' as int + 'a' as int) as char else c
  }

  /** `s.lower()`, character by character. */
  function Lower(s: string): (r: string)
    ensures |r| == |s| && forall i :: 0 <= i < |s| ==> r[i] == LowerChar(s[i])
  {
    if |s| == 0 then [] else [LowerChar(s[0])] + Lower(s[1..])
  }

  /** `s.replace(" ", "_")`. */
  function SpacesToUnderscores(s: string): (r: string)
    ensures |r| == |s|
    ensures forall i :: 0 <= i < |s| ==> r[i] == if s[i] == ' ' then '_' else s[i]
  {
    if |s| == 0 then []
    else [if s[0] == ' ' then '_' else s[0]] + SpacesToUnderscores(s[1..])
  }

  /** What a normalised header name looks like: trimmed, with no space and no
      upper-case letter. */
  predicate IsHeaderName(h: string)
  {
    && (h == [] || (!IsSpace(h[0]) && !IsSpace(h[|h| - 1])))
    && forall i :: 0 <= i < |h| ==> h[i] != ' ' && !IsUpper(h[i])
  }

  /** `Collector.headerify`: trim, lowercase, spaces to underscores. */
  function Headerify(text: string): (h: string)
    ensures |h| <= |text|
    ensures IsHeaderName(h)
  {
    var t := Strip(text);
    var l := Lower(t);
    var h := SpacesToUnderscores(l);
    assert h == [] || (!IsSpace(h[0]) && !IsSpace(h[|h| - 1])) by {
      if h != [] {
        assert !IsSpace(t[0]) && !IsSpace(t[|t| - 1]);
      }
    }
    h
  }

  /** Headerify leaves a string unchanged exactly when it is already a header name. */
  lemma HeaderifyFixedPoints(s: string)
    ensures Headerify(s) == s <==> IsHeaderName(s)
  {
    if IsHeaderName(s) {
      assert Strip(s) == s;
      assert Lower(s) == s;
      assert SpacesToUnderscores(s) == s;
    }
  }

  /** Headerify is idempotent: the second application changes nothing. */
  lemma HeaderifyIdempotent(text: string)
    ensures Headerify(Headerify(text)) == Headerify(text)
  {
    HeaderifyFixedPoints(Headerify(text));
  }

  /** A string is p followed by k exactly when it starts with p and what follows is k;
      so two names built on the same prefix differ when their suffixes do. */
  lemma PrefixSplit(p: string, k: string, s: string)
    ensures s == p + k <==> |p| <= |s| && s[..|p|] == p && s[|p|..] == k
  {
    if |p| <= |s| && s[..|p|] == p && s[|p|..] == k {
      assert s == s[..|p|] + s[|p|..];
    }
    if s == p + k {
      assert s[..|p|] == p;
      assert s[|p|..] == k;
    }
  }
}
