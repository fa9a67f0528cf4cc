/**
 * The parts of Python's str semantics the program relies on: slicing with
 * possibly negative bounds, str.replace of one character, str.rfind of one
 * character, and str.strip() with no argument.
 */
module PyText {

  /** The position a Python slice bound k denotes in a string of length n:
      a negative bound counts from the end, and the result is clamped to [0, n]. */
  function SliceIndex(k: int, n: nat): (r: nat)
    ensures r <= n
    ensures 0 <= k <= n ==> r == k
    ensures k < 0 && 0 <= n + k ==> r == n + k
    ensures k > n ==> r == n
    ensures n + k < 0 ==> r == 0
  {
    if k < 0 then (if n + k < 0 then 0 else n + k)
    else if k > n then n
    else k
  }

  /** s[:k] */
  function SliceTo(s: string, k: int): string
  {
    s[..SliceIndex(k, |s|)]
  }

  /** s[k:] */
  function SliceFrom(s: string, k: int): string
  {
    s[SliceIndex(k, |s|)..]
  }

  /** s.replace(from, to) for one-character from and to. */
  function Replace(s: string, from: char, to: char): (r: string)
    ensures |r| == |s|
  {
    if s == [] then []
    else [if s[0] == from then to else s[0]] + Replace(s[1..], from, to)
  }

  /** Each character equal to from becomes to, and every other stays; so no from is left. */
  lemma {:induction false} ReplaceAt(s: string, from: char, to: char)
    ensures var r := Replace(s, from, to);
      forall i :: 0 <= i < |s| ==> r[i] == (if s[i] == from then to else s[i])
    ensures from != to ==> from !in Replace(s, from, to)
  {
    if s != [] {
      ReplaceAt(s[1..], from, to);
    }
  }

  /** Replacing distributes over concatenation. */
  lemma {:induction false} ReplaceConcat(a: string, b: string, from: char, to: char)
    ensures Replace(a + b, from, to) == Replace(a, from, to) + Replace(b, from, to)
  {
    if a != [] {
      assert (a + b)[1..] == a[1..] + b;
      ReplaceConcat(a[1..], b, from, to);
    } else {
      assert a + b == b;
    }
  }

  /** A string without the character is left as it is. */
  lemma ReplaceAbsent(s: string, from: char, to: char)
    requires from !in s
    ensures Replace(s, from, to) == s
  {
    ReplaceAt(s, from, to);
  }

  /** s.rfind(c): the last index holding c, or -1. */
  function RFind(s: string, c: char): int
  {
    if s == [] then -1
    else if s[|s| - 1] == c then |s| - 1
    else RFind(s[..|s| - 1], c)
  }

  /** rfind gives the last position of c, and -1 exactly when c does not occur. */
  lemma {:induction false} RFindSpec(s: string, c: char)
    ensures var r := RFind(s, c);
      && -1 <= r < |s|
      && (r >= 0 ==> s[r] == c && (forall j :: r < j < |s| ==> s[j] != c))
      && (r == -1 <==> c !in s)
  {
    if s != [] && s[|s| - 1] != c {
      RFindSpec(s[..|s| - 1], c);
      assert c in s[..|s| - 1] <==> c in s by {
        assert s == s[..|s| - 1] + [s[|s| - 1]];
      }
    }
  }

  /** The characters str.isspace() accepts, which are what str.strip() removes. */
  predicate IsSpace(c: char)
  {
    || c == ' ' || ('\t' <= c <= '\r') || ('\U{1C}' <= c <= '\U{1F}')
    || c == '\U{85}' || c == '\U{A0}' || c == '\U{1680}'
    || ('\U{2000}' <= c <= '\U{200A}') || c == '\U{2028}' || c == '\U{2029}'
    || c == '\U{202F}' || c == '\U{205F}' || c == '\U{3000}'
  }

  /** s.lstrip(): s from its first non-space character on. */
  function LStrip(s: string): string
  {
    if s != [] && IsSpace(s[0]) then LStrip(s[1..]) else s
  }

  /** lstrip removes exactly the leading whitespace: a suffix remains, everything
      cut is whitespace, and what remains does not start with whitespace. */
  lemma {:induction false} LStripShape(s: string)
    ensures var r := LStrip(s);
      && |r| <= |s| && r == s[|s| - |r|..]
      && (forall k :: 0 <= k < |s| - |r| ==> IsSpace(s[k]))
      && (r == [] || !IsSpace(r[0]))
  {
    if s != [] && IsSpace(s[0]) {
      LStripShape(s[1..]);
      var r := LStrip(s);
      assert forall k :: 1 <= k < |s| - |r| ==> s[k] == s[1..][k - 1];
    }
  }

  /** s.rstrip(): s up to its last non-space character. */
  function RStrip(s: string): string
  {
    if s != [] && IsSpace(s[|s| - 1]) then RStrip(s[..|s| - 1]) else s
  }

  /** rstrip removes exactly the trailing whitespace. */
  lemma {:induction false} RStripShape(s: string)
    ensures var r := RStrip(s);
      && |r| <= |s| && r == s[..|r|]
      && (forall k :: |r| <= k < |s| ==> IsSpace(s[k]))
      && (r == [] || !IsSpace(r[|r| - 1]))
  {
    if s != [] && IsSpace(s[|s| - 1]) {
      RStripShape(s[..|s| - 1]);
    }
  }

  /** The number of whitespace characters s starts with. */
  function LeadingSpaces(s: string): nat
  {
    LStripShape(s);
    |s| - |LStrip(s)|
  }

  /** Every character of s is whitespace. */
  predicate Blank(s: string)
  {
    forall k :: 0 <= k < |s| ==> IsSpace(s[k])
  }

  /** s is raw with its surrounding whitespace removed and nothing else. */
  predicate StrippedFrom(raw: string, s: string)
  {
    var a := LeadingSpaces(raw);
    && a + |s| <= |raw| && s == raw[a..a + |s|]
    && (forall k :: 0 <= k < a ==> IsSpace(raw[k]))
    && (forall k :: a + |s| <= k < |raw| ==> IsSpace(raw[k]))
    && (s != [] ==> !IsSpace(s[0]) && !IsSpace(s[|s| - 1]))
  }

  /** s.strip(): s without its leading and trailing whitespace. */
  function Strip(s: string): string
  {
    RStrip(LStrip(s))
  }

  /** strip keeps the middle of s between its leading and its trailing whitespace,
      and gives the empty string exactly for a blank s. */
  lemma StripShape(s: string)
    ensures StrippedFrom(s, Strip(s))
    ensures Strip(s) == [] <==> Blank(s)
  {
    var l := LStrip(s);
    LStripShape(s);
    RStripShape(l);
    var r := RStrip(l);
    var a := |s| - |l|;
    assert a == LeadingSpaces(s);
    assert r == s[a..a + |r|] by {
      assert l == s[a..];
    }
    assert forall k :: a + |r| <= k < |s| ==> IsSpace(s[k]) by {
      forall k | a + |r| <= k < |s| ensures IsSpace(s[k]) {
        assert s[k] == l[k - a];
      }
    }
  }

  /** Stripping a string that has already been stripped changes nothing. */
  lemma StripIdempotent(s: string)
    ensures Strip(Strip(s)) == Strip(s)
  {
    var t := Strip(s);
    StripShape(s);
    if t != [] {
      assert LStrip(t) == t;
      assert RStrip(t) == t;
    }
  }

}
