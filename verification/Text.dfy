/**
Byte strings as the Rust code handles them.

A Rust `String` is modelled by its UTF-8 bytes: one Dafny `char` stands for one byte, so `|s|` is
`s.len()` and the order below is the byte order of `str`. All delimiters are ASCII and therefore
never occur inside a multi-byte sequence.
*/
module Text {
  datatype Option<+T> = None | Some(value: T)

  /** Position of the first `c`, or the length when there is none. */
  function IndexOf(s: string, c: char): (i: nat)
    ensures i <= |s| && c !in s[..i]
    ensures i < |s| ==> s[i] == c
  {
    if s == "" || s[0] == c then 0
    else
      var rest := IndexOf(s[1..], c);
      assert s[..1 + rest] == [s[0]] + s[1..][..rest];
      1 + rest
  }

  /** `str::split_once`. */
  function SplitOnce(s: string, c: char): Option<(string, string)> {
    var i := IndexOf(s, c);
    if i < |s| then Some((s[..i], s[i + 1..])) else None
  }

  /** `str::strip_prefix`. */
  function StripPrefix(s: string, p: string): Option<string> {
    if p <= s then Some(s[|p|..]) else None
  }

  lemma StripPrefixMeans(s: string, p: string)
    requires StripPrefix(s, p).Some?
    ensures s == p + StripPrefix(s, p).value
  {
  }

  lemma SplitOnceMeans(s: string, c: char)
    requires SplitOnce(s, c).Some?
    ensures s == SplitOnce(s, c).value.0 + ([c] + SplitOnce(s, c).value.1) && c !in SplitOnce(s, c).value.0
  {
  }

  lemma SplitOnceConcat(a: string, c: char, b: string)
    requires c !in a
    ensures SplitOnce(a + ([c] + b), c) == Some((a, b))
  {
    var s := a + ([c] + b);
    var i := IndexOf(s, c);
    assert s[|a|] == c;
    assert forall j :: 0 <= j < |a| ==> s[j] == a[j];
    assert forall j :: 0 <= j < i ==> s[j] == s[..i][j];
    assert i == |a|;
    assert s[..|a|] == a && s[|a| + 1..] == b;
  }

  /** A delimiter absent from both heads splits a text in only one way. */
  lemma SplitUnique(a: string, b: string, a': string, b': string, c: char)
    requires c !in a && c !in a'
    requires a + ([c] + b) == a' + ([c] + b')
    ensures a == a' && b == b'
  {
    SplitOnceConcat(a, c, b);
    SplitOnceConcat(a', c, b');
  }

  lemma ConcatUnique<T>(a: seq<T>, b: seq<T>, a': seq<T>, b': seq<T>)
    requires |a| == |a'| && a + b == a' + b'
    ensures a == a' && b == b'
  {
    assert a == (a + b)[..|a|] && b == (a + b)[|a|..];
    assert a' == (a' + b')[..|a|] && b' == (a' + b')[|a|..];
  }

  /** `str::trim().is_empty()`. */
  predicate Blank(s: string) { forall i :: 0 <= i < |s| ==> Space(s[i]) }

  /** ASCII white space: tab to carriage return, and the space. */
  predicate Space(c: char) { c == ' ' || '\t' <= c <= '\r' }

  /** Blank texts are those of spaces, tabs, line feeds, vertical tabs, form feeds and carriage returns. */
  lemma BlankIff(s: string)
    ensures Blank(s) <==> forall c :: c in s ==> c in [' ', '\t', '\n', 11 as char, 12 as char, '\r']
  {
    if forall c :: c in s ==> c in [' ', '\t', '\n', 11 as char, 12 as char, '\r'] {
      forall i | 0 <= i < |s| ensures Space(s[i]) { assert s[i] in s; }
    }
  }

  lemma InitAndLast<T>(s: seq<T>)
    requires s != []
    ensures s == s[..|s| - 1] + [s[|s| - 1]]
  {
  }

  // ---- decimal numbers ----

  const U64_LIMIT: nat := 0x1_0000_0000_0000_0000

  predicate IsDigit(c: char) { '0' <= c <= '9' }

  predicate AllDigits(s: string) { forall i :: 0 <= i < |s| ==> IsDigit(s[i]) }

  function Digit(d: nat): (c: char)
    requires d < 10
    ensures IsDigit(c)
  {
    '0' + d as char
  }

  /** Decimal `to_string` of an unsigned integer. */
  function Decimal(n: nat): (s: string)
    ensures s != "" && AllDigits(s)
  {
    if n < 10 then [Digit(n)] else Decimal(n / 10) + [Digit(n % 10)]
  }

  function DigitsValue(s: string): nat
    requires AllDigits(s)
  {
    if s == "" then 0
    else 10 * DigitsValue(s[..|s| - 1]) + (s[|s| - 1] - '0') as nat
  }

  /** `str::parse::<u64>` (and `usize` on a 64-bit host): one leading plus is allowed. */
  function ParseU64(s: string): (r: Option<nat>)
    ensures r.Some? ==> r.value < U64_LIMIT
  {
    var digits := if s != "" && s[0] == '+' then s[1..] else s;
    if digits == "" || !AllDigits(digits) || DigitsValue(digits) >= U64_LIMIT then None
    else Some(DigitsValue(digits))
  }

  lemma {:induction false} DecimalValue(n: nat)
    ensures DigitsValue(Decimal(n)) == n
  {
    if n >= 10 {
      DecimalValue(n / 10);
      assert Decimal(n)[..|Decimal(n)| - 1] == Decimal(n / 10);
    }
  }

  lemma ParseDecimal(n: nat)
    ensures ParseU64(Decimal(n)) == if n < U64_LIMIT then Some(n) else None
  {
    DecimalValue(n);
    assert IsDigit(Decimal(n)[0]);
  }

  lemma DecimalInjective(m: nat, n: nat)
    requires Decimal(m) == Decimal(n)
    ensures m == n
  {
    DecimalValue(m);
    DecimalValue(n);
  }

  lemma DecimalFree(n: nat, c: char)
    requires !IsDigit(c)
    ensures c !in Decimal(n)
  {
  }

  // ---- byte order ----

  /** Strict lexicographic order of byte strings. */
  predicate Less(a: string, b: string)
  {
    b != "" && (a == "" || a[0] < b[0] || (a[0] == b[0] && Less(a[1..], b[1..])))
  }

  predicate AtMost(a: string, b: string) { a == b || Less(a, b) }

  lemma {:induction false} LessTotal(a: string, b: string)
    ensures Less(a, b) || Less(b, a) || a == b
    ensures !(Less(a, b) && Less(b, a))
    ensures !Less(a, a)
  {
    if a != "" {
      LessIrreflexive(a);
      if b != "" {
        LessTotal(a[1..], b[1..]);
        assert a == [a[0]] + a[1..] && b == [b[0]] + b[1..];
      }
    }
  }

  lemma {:induction false} LessIrreflexive(a: string)
    ensures !Less(a, a)
  {
    if a != "" { LessIrreflexive(a[1..]); }
  }

  lemma {:induction false} LessTransitive(a: string, b: string, c: string)
    requires Less(a, b) && Less(b, c)
    ensures Less(a, c)
  {
    if a != "" && a[0] == b[0] == c[0] { LessTransitive(a[1..], b[1..], c[1..]); }
  }

  /** Proper extensions of a prefix sort after it. */
  lemma {:induction false} PrefixBelowExtension(p: string, k: string)
    requires p < k
    ensures Less(p, k)
  {
    if p != "" {
      assert p[1..] < k[1..];
      PrefixBelowExtension(p[1..], k[1..]);
    }
  }

  /** Once an ascending walk that started after `p` leaves the extensions of `p`, it never returns. */
  lemma {:induction false} PrefixContiguous(p: string, k: string, later: string)
    requires Less(p, k) && !(p <= k) && Less(k, later)
    ensures !(p <= later)
  {
    assert p != "";
    if p <= later {
      assert later[0] == p[0];
      if k[0] == p[0] {
        assert k == [k[0]] + k[1..] && p == [p[0]] + p[1..];
        PrefixContiguous(p[1..], k[1..], later[1..]);
      }
    }
  }

  /** First key of an ordered set. */
  predicate IsLeast(keys: set<string>, k: string) {
    k in keys && forall j :: j in keys ==> AtMost(k, j)
  }

  lemma {:induction false} LeastKey(keys: set<string>) returns (least: string)
    requires keys != {}
    ensures IsLeast(keys, least)
  {
    var k :| k in keys;
    if keys == {k} {
      least := k;
    } else {
      var rest := LeastKey(keys - {k});
      LessTotal(k, rest);
      least := if Less(k, rest) then k else rest;
      forall j | j in keys ensures AtMost(least, j) {
        assert j == k || j in keys - {k};
        if j != k && Less(k, rest) && Less(rest, j) { LessTransitive(k, rest, j); }
      }
    }
  }

  lemma LeastBelow(keys: set<string>, k: string, j: string)
    requires IsLeast(keys, k) && j in keys && j != k
    ensures Less(k, j)
  {
  }

  /** A subset with as many elements is the whole set. */
  lemma {:induction false} SubsetOfSameSize<T>(a: set<T>, b: set<T>)
    requires a <= b && |a| == |b|
    ensures a == b
  {
    if a != {} {
      var x :| x in a;
      SubsetOfSameSize(a - {x}, b - {x});
    }
  }

  lemma LeastKeyUnique(keys: set<string>, a: string, b: string)
    requires IsLeast(keys, a) && IsLeast(keys, b)
    ensures a == b
  {
    LessTotal(a, b);
  }
}
