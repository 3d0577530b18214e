/** The string functions of PHP and Laravel that the package relies on. */
module Text {

  /** PHP's conversion of a string to bool: only "" and "0" are false. */
  predicate Truthy(s: string) {
    s != "" && s != "0"
  }

  /** `implode($sep, $parts)` */
  function Join(sep: string, parts: seq<string>): string {
    if |parts| == 0 then ""
    else if |parts| == 1 then parts[0]
    else parts[0] + sep + Join(sep, parts[1..])
  }

  /** Position of the first occurrence of `c` in `s`. */
  function IndexOf(s: string, c: char): (i: nat)
    requires c in s
    ensures i < |s| && s[i] == c && c !in s[..i]
  {
    if s[0] == c then 0 else 1 + IndexOf(s[1..], c)
  }

  /** `explode($c, $s)` for a delimiter of one character. */
  function Split(s: string, c: char): (parts: seq<string>)
    ensures |parts| >= 1
    decreases |s|
  {
    if c !in s then [s]
    else
      var i := IndexOf(s, c);
      [s[..i]] + Split(s[i + 1..], c)
  }

  lemma {:induction false} IndexOfAfter(p: string, c: char, t: string)
    requires c !in p
    ensures c in p + [c] + t && IndexOf(p + [c] + t, c) == |p|
  {
    var s := p + [c] + t;
    assert s[|p|] == c;
    if |p| > 0 {
      assert s[1..] == p[1..] + [c] + t;
      IndexOfAfter(p[1..], c, t);
    }
  }

  /** Exploding an imploded string gives the strings back... */
  lemma {:induction false} SplitJoin(parts: seq<string>, c: char)
    requires |parts| >= 1 && forall k :: 0 <= k < |parts| ==> c !in parts[k]
    ensures Split(Join([c], parts), c) == parts
  {
    if |parts| > 1 {
      var rest := Join([c], parts[1..]);
      assert Join([c], parts) == parts[0] + [c] + rest;
      IndexOfAfter(parts[0], c, rest);
      var s := parts[0] + [c] + rest;
      assert s[..|parts[0]|] == parts[0];
      assert s[|parts[0]| + 1..] == rest;
      SplitJoin(parts[1..], c);
    }
  }

  /** ... and imploding exploded pieces gives the string back. */
  lemma {:induction false} JoinSplit(s: string, c: char)
    ensures Join([c], Split(s, c)) == s
    decreases |s|
  {
    if c in s {
      var i := IndexOf(s, c);
      JoinSplit(s[i + 1..], c);
      assert s == s[..i] + [c] + s[i + 1..];
    }
  }

  /** An imploded list starts with its first piece. */
  lemma {:induction false} JoinHead(first: string, rest: seq<string>, sep: string)
    ensures first <= Join(sep, [first] + rest)
  {
    if |rest| > 0 {
      assert ([first] + rest)[1..] == rest;
    }
  }

  /** `str_contains($s, $sub)`, i.e. `strpos($s, $sub) !== false`. */
  predicate Contains(s: string, sub: string)
    decreases |s|
  {
    (|sub| <= |s| && s[..|sub|] == sub) || (|s| > 0 && Contains(s[1..], sub))
  }

  lemma {:induction false} ContainsPrefix(sub: string, t: string)
    ensures Contains(sub + t, sub)
  {
    assert (sub + t)[..|sub|] == sub;
  }

  /** A string that does not hold the character does not hold a piece starting with it. */
  lemma {:induction false} NotContainsChar(s: string, sub: string)
    requires |sub| > 0 && sub[0] !in s
    ensures !Contains(s, sub)
    decreases |s|
  {
    if |s| > 0 {
      if |sub| <= |s| {
        assert s[..|sub|][0] == s[0];
      }
      NotContainsChar(s[1..], sub);
    }
  }

  /**
   * The part of a dotted key before its first dot: `explode('.', $key)[0]`,
   * which is the key itself when it has no dot.
   */
  function TopKey(key: string): (top: string)
    ensures '.' !in top
  {
    var parts := Split(key, '.');
    if '.' in key then
      assert parts[0] == key[..IndexOf(key, '.')];
      parts[0]
    else key
  }

  /** A key below `parent` (as nested rules are written) leads back to `parent`. */
  lemma TopKeyBelow(parent: string, rest: string)
    requires '.' !in parent
    ensures TopKey(parent + "." + rest) == parent
  {
    IndexOfAfter(parent, '.', rest);
    var s := parent + "." + rest;
    assert s == parent + ['.'] + rest;
    assert s[..|parent|] == parent;
  }

  lemma TopKeyPlain(key: string)
    requires '.' !in key
    ensures TopKey(key) == key
  {
  }

  /** Laravel's `class_basename`: the part of a class name after its last backslash. */
  function ClassBasename(name: string): (base: string)
    ensures '\\' !in base
  {
    if |name| == 0 then ""
    else if name[|name| - 1] == '\\' then ""
    else ClassBasename(name[..|name| - 1]) + [name[|name| - 1]]
  }

  /** The base name of a namespaced class is its last segment, and a bare name is its own. */
  lemma {:induction false} ClassBasenameOf(ns: string, name: string)
    requires '\\' !in name
    ensures ClassBasename(ns + "\\" + name) == name
    ensures ClassBasename(name) == name
    decreases |name|
  {
    if |name| > 0 {
      var init := name[..|name| - 1];
      var s := ns + "\\" + name;
      assert s[..|s| - 1] == ns + "\\" + init;
      assert name[..|name| - 1] == init;
      ClassBasenameOf(ns, init);
      assert name == init + [name[|name| - 1]];
    }
  }

  /** `substr($s, 0, -$n)`: the string without its last n characters ("" when it is not longer). */
  function DropLast(s: string, n: nat): (r: string)
    ensures |r| == if |s| > n then |s| - n else 0
    ensures r == s[..|r|]
  {
    if |s| > n then s[..|s| - n] else ""
  }

  /** `strtolower`, which changes only the ASCII letters A to Z. */
  function AsciiLower(s: string): (r: string)
    ensures |r| == |s|
    ensures forall i :: 0 <= i < |s| ==> r[i] == if 'A' <= s[i] <= 'Z' then (s[i] as int + 32) as char else s[i]
  {
    seq(|s|, i requires 0 <= i < |s| => if 'A' <= s[i] <= 'Z' then (s[i] as int + 32) as char else s[i])
  }

  function Digit(d: nat): char
    requires d < 10
  {
    "0123456789"[d]
  }

  /** PHP's conversion of a non-negative integer to its decimal string. */
  function NatToString(n: nat): string
    decreases n
  {
    if n < 10 then [Digit(n)] else NatToString(n / 10) + [Digit(n % 10)]
  }

  /** PHP's conversion of an integer to its decimal string. */
  function IntToString(i: int): string {
    if i < 0 then "-" + NatToString(-i) else NatToString(i)
  }

  /** Reads a string of decimal digits back. */
  function ParseNat(s: string): int {
    if |s| == 0 then 0 else ParseNat(s[..|s| - 1]) * 10 + (s[|s| - 1] as int - '0' as int)
  }

  /** The decimal string of n reads back as n and is made of digits only. */
  lemma {:induction false} NatToStringRoundTrip(n: nat)
    ensures ParseNat(NatToString(n)) == n
    ensures forall k :: 0 <= k < |NatToString(n)| ==> '0' <= NatToString(n)[k] <= '9'
    decreases n
  {
    if n >= 10 {
      NatToStringRoundTrip(n / 10);
      var s := NatToString(n);
      assert s[..|s| - 1] == NatToString(n / 10);
    }
  }
}
