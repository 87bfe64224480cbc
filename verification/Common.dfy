/** Small definitions shared by the modules below. */
module Common {
  datatype Option<+T> = None | Some(value: T)

  datatype Result<+T, +E> = Ok(value: T) | Err(error: E)

  function Least(a: int, b: int): int { if a < b then a else b }

  predicate Distinct<T(==)>(items: seq<T>) {
    forall i, j :: 0 <= i < j < |items| ==> items[i] != items[j]
  }
}

/** The string operations and the string order the modelled code relies on. */
module Text {
  /** The characters str.strip and str.isspace treat as white space. */
  predicate IsSpace(c: char) {
    || '\t' <= c <= '\r' || '\U{1c}' <= c <= ' '
    || c in {'\U{85}', '\U{a0}', '\U{1680}', '\U{2028}', '\U{2029}', '\U{202f}', '\U{205f}', '\U{3000}'}
    || '\U{2000}' <= c <= '\U{200a}'
  }

  function RStrip(s: string): string {
    if s != [] && IsSpace(s[|s| - 1]) then RStrip(s[..|s| - 1]) else s
  }

  function LStrip(s: string): string {
    if s != [] && IsSpace(s[0]) then LStrip(s[1..]) else s
  }

  function Strip(s: string): string { LStrip(RStrip(s)) }

  lemma {:induction false} RStripIsPrefix(s: string)
    ensures RStrip(s) <= s
    ensures forall i :: |RStrip(s)| <= i < |s| ==> IsSpace(s[i])
    ensures RStrip(s) != [] ==> !IsSpace(RStrip(s)[|RStrip(s)| - 1])
  {
    if s != [] && IsSpace(s[|s| - 1]) {
      RStripIsPrefix(s[..|s| - 1]);
    }
  }

  lemma {:induction false} RStripIsIdempotent(s: string)
    ensures RStrip(RStrip(s)) == RStrip(s)
  {
    if s != [] && IsSpace(s[|s| - 1]) {
      RStripIsIdempotent(s[..|s| - 1]);
    }
  }

  predicate EndsWith(s: string, suffix: string) {
    |s| >= |suffix| && s[|s| - |suffix|..] == suffix
  }

  /** Lexicographic order, as string comparison has it. */
  predicate StringBefore(a: string, b: string) {
    if b == [] then false
    else if a == [] then true
    else a[0] < b[0] || (a[0] == b[0] && StringBefore(a[1..], b[1..]))
  }

  /** What the order looks at: the first difference, or which one ends first. */
  lemma {:induction false} FirstDifferenceDecides(a: string, b: string)
    ensures StringBefore(a, b) <==>
      || a < b
      || exists k: nat :: k < |a| && k < |b| && a[..k] == b[..k] && a[k] < b[k]
    decreases |a|
  {
    if a != [] && b != [] {
      assert a == [a[0]] + a[1..] && b == [b[0]] + b[1..];
      if a[0] < b[0] {
        assert a[..0] == b[..0] && a[0] < b[0];
      } else if a[0] == b[0] {
        FirstDifferenceDecides(a[1..], b[1..]);
        SameHeadSameOrder(a, b);
      }
    }
  }

  lemma SameHeadSameOrder(a: string, b: string)
    requires a != [] && b != [] && a[0] == b[0]
    ensures a < b <==> a[1..] < b[1..]
    ensures (exists k: nat :: k < |a| && k < |b| && a[..k] == b[..k] && a[k] < b[k])
       <==> (exists k: nat :: k < |a| - 1 && k < |b| - 1 && a[1..][..k] == b[1..][..k] && a[1..][k] < b[1..][k])
  {
    assert a == [a[0]] + a[1..] && b == [b[0]] + b[1..];
    forall k: nat | k < |a| - 1 && k < |b| - 1 ensures a[..k + 1] == b[..k + 1] <==> a[1..][..k] == b[1..][..k] {
      assert a[..k + 1] == [a[0]] + a[1..][..k] && b[..k + 1] == [b[0]] + b[1..][..k];
      assert a[1..][..k] == a[..k + 1][1..] && b[1..][..k] == b[..k + 1][1..];
    }
    if exists k: nat :: k < |a| && k < |b| && a[..k] == b[..k] && a[k] < b[k] {
      var k: nat :| k < |a| && k < |b| && a[..k] == b[..k] && a[k] < b[k];
      assert k > 0 && a[..k - 1 + 1] == b[..k - 1 + 1] && a[1..][k - 1] < b[1..][k - 1];
    }
    if exists k: nat :: k < |a| - 1 && k < |b| - 1 && a[1..][..k] == b[1..][..k] && a[1..][k] < b[1..][k] {
      var k: nat :| k < |a| - 1 && k < |b| - 1 && a[1..][..k] == b[1..][..k] && a[1..][k] < b[1..][k];
      assert a[..k + 1] == b[..k + 1] && a[k + 1] < b[k + 1];
    }
  }

  lemma {:induction false} StringTotal(a: string, b: string)
    ensures StringBefore(a, b) || StringBefore(b, a) || a == b
    ensures !(StringBefore(a, b) && StringBefore(b, a))
    ensures !StringBefore(a, a)
    decreases |a|
  {
    if a != [] {
      StringTotal(a[1..], a[1..]);
      if b != [] && a[0] == b[0] {
        StringTotal(a[1..], b[1..]);
        assert a == [a[0]] + a[1..] && b == [b[0]] + b[1..];
      }
    }
  }

  lemma {:induction false} StringTransitive(a: string, b: string, c: string)
    requires StringBefore(a, b) && StringBefore(b, c)
    ensures StringBefore(a, c)
  {
    if a != [] && a[0] == b[0] == c[0] {
      StringTransitive(a[1..], b[1..], c[1..]);
    }
  }
}

/** Hex digests and the hash that makes them. */
module Digests {
  import opened Text

  /** The bytes of a file; character c stands for byte c, and only values below 128 are ASCII. */
  type Content = string

  const DIGEST_LENGTH: nat := 64

  predicate IsHex(c: char) { '0' <= c <= '9' || 'a' <= c <= 'f' || 'A' <= c <= 'F' }

  function LowerChar(c: char): char { if 'A' <= c <= 'Z' then c - 'A' + 'a' else c }

  function Lower(s: string): string { seq(|s|, i requires 0 <= i < |s| => LowerChar(s[i])) }

  predicate IsDigest(d: string) {
    |d| == DIGEST_LENGTH && forall i :: 0 <= i < |d| ==> IsHex(d[i]) && LowerChar(d[i]) == d[i]
  }

  /** The hash is any function to lower-case digests. */
  ghost predicate IsHash(sha: Content -> string) { forall bytes :: IsDigest(sha(bytes)) }
}
