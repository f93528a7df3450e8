// Shared helpers: an Option type, the string operations the extension relies
// on (JavaScript's `startsWith`, `includes`, `trim`, `toLowerCase`, a global
// literal `replace`) and JavaScript's rounding division.

module Common {

  datatype Option<+T> = None | Some(value: T)

  /** `s.startsWith(p)` */
  predicate StartsWith(s: string, p: string)
  {
    |p| <= |s| && s[..|p|] == p
  }

  /** `s.includes(t)`: t occurs somewhere in s. */
  predicate Contains(s: string, t: string)
  {
    exists i :: 0 <= i <= |s| && t <= s[i..]
  }

  /** The characters JavaScript's `\s` class and `String.prototype.trim` treat as white space. */
  predicate IsWhitespace(c: char)
  {
    c == '\t' || c == '\n' || c == '\U{000B}' || c == '\U{000C}' || c == '\r' || c == ' ' ||
    c == '\U{00A0}' || c == '\U{1680}' || ('\U{2000}' <= c <= '\U{200A}') ||
    c == '\U{2028}' || c == '\U{2029}' || c == '\U{202F}' || c == '\U{205F}' ||
    c == '\U{3000}' || c == '\U{FEFF}'
  }

  function TrimStart(s: string): (r: string)
    ensures |r| <= |s| && r == s[|s| - |r|..]
    ensures r == [] || !IsWhitespace(r[0])
    ensures forall i :: 0 <= i < |s| - |r| ==> IsWhitespace(s[i])
  {
    if s != [] && IsWhitespace(s[0]) then TrimStart(s[1..]) else s
  }

  function TrimEnd(s: string): (r: string)
    ensures |r| <= |s| && r == s[..|r|]
    ensures r == [] || !IsWhitespace(r[|r| - 1])
    ensures forall i :: |r| <= i < |s| ==> IsWhitespace(s[i])
  {
    if s != [] && IsWhitespace(s[|s| - 1]) then TrimEnd(s[..|s| - 1]) else s
  }

  /** `s.trim()` */
  function Trim(s: string): string
  {
    TrimEnd(TrimStart(s))
  }

  lemma TrimBounds(s: string)
    ensures var r := Trim(s);
      (r == [] || (!IsWhitespace(r[0]) && !IsWhitespace(r[|r| - 1]))) && |r| <= |s|
  {
    var t := TrimStart(s);
    var r := TrimEnd(t);
    if r != [] {
      assert r[0] == t[0];
    }
  }

  function LowerChar(c: char): char
  {
    if 'A' <= c <= 'Z' then (c as int + 32) as char else c
  }

  /** `s.toLowerCase()`, restricted to the ASCII letters. */
  function ToLower(s: string): (r: string)
    ensures |r| == |s|
    ensures forall i :: 0 <= i < |s| ==> r[i] == LowerChar(s[i])
  {
    if s == [] then [] else [LowerChar(s[0])] + ToLower(s[1..])
  }

  /** `Math.ceil(a / b)` for a positive integer divisor. */
  function CeilDiv(a: int, b: int): (q: int)
    requires b > 0
    ensures (q - 1) * b < a <= q * b
  {
    -((-a) / b)
  }

  /** `s.replace(/p/g, r)` for a literal, non-empty pattern p. */
  function ReplaceAll(s: string, p: string, r: string): string
    requires |p| > 0
    decreases |s|
  {
    if |s| < |p| then s
    else if s[..|p|] == p then r + ReplaceAll(s[|p|..], p, r)
    else [s[0]] + ReplaceAll(s[1..], p, r)
  }

  /** A pattern whose first character does not occur leaves the string as it is. */
  lemma {:induction false} ReplaceAbsent(s: string, p: string, r: string)
    requires |p| > 0 && p[0] !in s
    ensures ReplaceAll(s, p, r) == s
  {
    if |s| >= |p| {
      assert s[..|p|][0] == s[0];
      ReplaceAbsent(s[1..], p, r);
    }
  }

  /** Replacing a pattern by itself changes nothing. */
  lemma {:induction false} ReplaceSelf(s: string, p: string)
    requires |p| > 0
    ensures ReplaceAll(s, p, p) == s
  {
    if |s| >= |p| {
      if s[..|p|] == p {
        ReplaceSelf(s[|p|..], p);
        assert s == p + s[|p|..];
      } else {
        ReplaceSelf(s[1..], p);
        assert s == [s[0]] + s[1..];
      }
    }
  }

  /** With a one-character pattern, replacing distributes over concatenation. */
  lemma {:induction false} ReplaceCharConcat(a: string, b: string, c: char, r: string)
    ensures ReplaceAll(a + b, [c], r) == ReplaceAll(a, [c], r) + ReplaceAll(b, [c], r)
  {
    if a == [] {
      assert a + b == b;
    } else {
      assert (a + b)[1..] == a[1..] + b;
      assert (a + b)[..1] == a[..1];
      ReplaceCharConcat(a[1..], b, c, r);
    }
  }

  predicate Distinct<T(==)>(s: seq<T>)
  {
    forall i, j :: 0 <= i < j < |s| ==> s[i] != s[j]
  }

  lemma DistinctHead<T>(s: seq<T>)
    ensures Distinct(s) && s != [] ==> Distinct(s[1..]) && s[0] !in s[1..]
  {
    if Distinct(s) && s != [] {
      forall j | 0 <= j < |s[1..]| ensures s[1..][j] != s[0] {
        assert s[1..][j] == s[j + 1];
      }
    }
  }

  /** A new element at the end keeps a sequence duplicate-free. */
  lemma DistinctSnoc<T>(a: seq<T>, x: T)
    requires Distinct(a) && x !in a
    ensures Distinct(a + [x])
  {
    var s := a + [x];
    forall i, j | 0 <= i < j < |s| ensures s[i] != s[j] {
      assert s[i] == a[i];
      if j < |a| { assert s[j] == a[j]; }
    }
  }

  lemma DistinctAppend<T>(a: seq<T>, x: T, b: seq<T>)
    requires Distinct(a + b) && x !in a && x !in b
    ensures Distinct(a + [x] + b) && Distinct(a + (b + [x]))
  {
    var s := a + [x] + b;
    forall i, j | 0 <= i < j < |s| ensures s[i] != s[j] {
      if i < |a| && j < |a| { assert s[i] == (a + b)[i] && s[j] == (a + b)[j]; }
      else if i < |a| && j > |a| { assert s[i] == (a + b)[i] && s[j] == (a + b)[j - 1]; }
      else if i > |a| { assert s[i] == (a + b)[i - 1] && s[j] == (a + b)[j - 1]; }
    }
    var t := a + (b + [x]);
    forall i, j | 0 <= i < j < |t| ensures t[i] != t[j] {
      if j < |t| - 1 { assert t[i] == (a + b)[i] && t[j] == (a + b)[j]; }
    }
  }

  lemma DistinctTail<T>(a: seq<T>, b: seq<T>)
    requires a != [] && Distinct(a + b)
    ensures Distinct(a[1..] + b) && a[0] !in a[1..] && a[0] !in b
  {
    assert a[1..] + b == (a + b)[1..];
    forall i | 0 <= i < |a[1..] + b| ensures (a[1..] + b)[i] != a[0] {
      assert (a + b)[i + 1] == (a[1..] + b)[i] && (a + b)[0] == a[0];
    }
    forall k | 0 <= k < |a[1..]| ensures a[1..][k] != a[0] {
      assert (a[1..] + b)[k] == a[1..][k];
    }
    forall k | 0 <= k < |b| ensures b[k] != a[0] {
      assert (a[1..] + b)[|a| - 1 + k] == b[k];
    }
  }
}
