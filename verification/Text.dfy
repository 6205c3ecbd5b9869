/**
 The text primitives the monitor builds its keys and messages from: decimal
 printing, `str.join`, `str.split`, and sorting by code point.
 */
module Text {

  // ---- decimal integers ----

  predicate IsDigit(c: char) { '0' <= c <= '9' }

  function Digit(d: nat): (c: char)
    requires d < 10
    ensures IsDigit(c) && c as int == '0' as int + d
  {
    "0123456789"[d]
  }

  function NatToString(n: nat): (s: string)
    ensures s != "" && forall c | c in s :: IsDigit(c)
    ensures n >= 10 <==> |s| >= 2
  {
    if n < 10 then [Digit(n)] else NatToString(n / 10) + [Digit(n % 10)]
  }

  function IntToString(i: int): (s: string)
    ensures s != "" && forall c | c in s :: IsDigit(c) || c == '-'
  {
    if i < 0 then "-" + NatToString(-i) else NatToString(i)
  }

  lemma {:induction false} NatToStringInjective(a: nat, b: nat)
    requires NatToString(a) == NatToString(b)
    ensures a == b
  {
    hide Digit;
    var s, t := NatToString(a), NatToString(b);
    assert s[|s| - 1] == Digit(a % 10) && t[|t| - 1] == Digit(b % 10);
    if a >= 10 {
      assert s[..|s| - 1] == NatToString(a / 10) && t[..|t| - 1] == NatToString(b / 10);
      NatToStringInjective(a / 10, b / 10);
    }
  }

  /** The number that decimal digits stand for, most significant first. */
  function Reading(s: string): nat
    requires forall c | c in s :: IsDigit(c)
  {
    if s == "" then 0
    else
      assert IsDigit(s[|s| - 1]) by { assert s[|s| - 1] in s; }
      Reading(s[..|s| - 1]) * 10 + (s[|s| - 1] as int - '0' as int)
  }

  /** The printed number reads back, without a leading zero. */
  lemma {:induction false} NatToStringReads(n: nat)
    ensures Reading(NatToString(n)) == n && (n > 0 ==> NatToString(n)[0] != '0')
  {
    var s := NatToString(n);
    assert s[|s| - 1] == Digit(n % 10);
    if n >= 10 {
      NatToStringReads(n / 10);
      assert s[..|s| - 1] == NatToString(n / 10);
    }
  }

  lemma IntToStringInjective(a: int, b: int)
    requires IntToString(a) == IntToString(b)
    ensures a == b
  {
    hide NatToString;
    var s, t := IntToString(a), IntToString(b);
    assert a < 0 <==> s[0] == '-' by { assert s[0] in s; }
    assert b < 0 <==> t[0] == '-' by { assert t[0] in t; }
    if a < 0 {
      assert s[1..] == NatToString(-a) && t[1..] == NatToString(-b);
      NatToStringInjective(-a, -b);
    } else {
      NatToStringInjective(a, b);
    }
  }

  /** n has at most k decimal digits when n < 10^k. */
  function Pow10(k: nat): (r: nat)
    ensures r >= 1
  {
    if k == 0 then 1 else 10 * Pow10(k - 1)
  }

  lemma {:induction false} DigitCount(n: nat, k: nat)
    requires k >= 1 && n < Pow10(k)
    ensures |NatToString(n)| <= k
  {
    if n >= 10 {
      assert k >= 2 by { assert Pow10(1) == 10; }
      assert n / 10 < Pow10(k - 1);
      DigitCount(n / 10, k - 1);
    }
  }

  // ---- join ----

  function Join(sep: string, parts: seq<string>): string {
    if parts == [] then ""
    else if |parts| == 1 then parts[0]
    else parts[0] + sep + Join(sep, parts[1..])
  }

  /** A separator character that does not occur in the heads fixes where they end. */
  lemma HeadUnique(p: string, q: string, c: char, x: string, y: string)
    requires c !in p && c !in q
    requires p + [c] + x == q + [c] + y
    ensures p == q && x == y
  {
    var s := p + [c] + x;
    assert s[|p|] == c && s[|q|] == c;
    assert forall i | 0 <= i < |p| :: s[i] == p[i] && p[i] in p;
    assert forall i | 0 <= i < |q| :: s[i] == q[i] && q[i] in q;
    assert |p| == |q|;
    assert p == s[..|p|] == q;
    assert x == s[|p| + 1..] == y;
  }

  /** Joining with a character that no part contains loses nothing, except that
      no parts and one empty part print alike. */
  lemma {:induction false} JoinInjective(c: char, a: seq<string>, b: seq<string>)
    requires forall p | p in a :: c !in p
    requires forall p | p in b :: c !in p
    requires a != [] && b != []
    requires Join([c], a) == Join([c], b)
    ensures a == b
  {
    assert a[0] in a && b[0] in b;
    assert |a| > 1 ==> Join([c], a)[|a[0]|] == c;
    assert |b| > 1 ==> Join([c], b)[|b[0]|] == c;
    assert |a| == 1 <==> |b| == 1;
    if |a| > 1 {
      HeadUnique(a[0], b[0], c, Join([c], a[1..]), Join([c], b[1..]));
      JoinInjective(c, a[1..], b[1..]);
      assert a == [a[0]] + a[1..] && b == [b[0]] + b[1..];
    }
  }

  // ---- split on one character ----

  function Split(s: string, c: char): (parts: seq<string>)
    ensures parts != []
    ensures forall p | p in parts :: c !in p
  {
    if s == "" then [""]
    else
      var rest := Split(s[1..], c);
      if s[0] == c then [""] + rest else [[s[0]] + rest[0]] + rest[1..]
  }

  lemma {:induction false} SplitHead(p: string, c: char, x: string)
    requires c !in p
    ensures Split(p, c) == [p]
    ensures Split(p + [c] + x, c) == [p] + Split(x, c)
  {
    if p == "" {
      assert ("" + [c] + x)[1..] == x;
    } else {
      SplitHead(p[1..], c, x);
      assert (p + [c] + x)[1..] == p[1..] + [c] + x;
      assert p == [p[0]] + p[1..];
    }
  }

  lemma {:induction false} SplitJoin(parts: seq<string>, c: char)
    requires parts != []
    requires forall p | p in parts :: c !in p
    ensures Split(Join([c], parts), c) == parts
  {
    SplitHead(parts[0], c, Join([c], parts[1..]));
    if |parts| > 1 {
      SplitJoin(parts[1..], c);
      assert parts == [parts[0]] + parts[1..];
    }
  }

  lemma JoinFront(sep: string, rest: seq<string>, x: string)
    requires rest != []
    ensures Join(sep, [""] + rest) == sep + Join(sep, rest)
    ensures Join(sep, [x + rest[0]] + rest[1..]) == x + Join(sep, rest)
  {
    assert ([""] + rest)[1..] == rest;
    assert ([x + rest[0]] + rest[1..])[1..] == rest[1..];
    if |rest| > 1 {
      assert x + (rest[0] + sep + Join(sep, rest[1..])) == x + rest[0] + sep + Join(sep, rest[1..]);
    }
  }

  /** Splitting loses nothing: the parts, none with the separator in it, join to the text. */
  lemma {:induction false} JoinSplit(s: string, c: char)
    ensures Join([c], Split(s, c)) == s && forall p | p in Split(s, c) :: c !in p
  {
    hide Join;
    if s == "" {
      EmptyJoin([c]);
    } else {
      JoinSplit(s[1..], c);
      JoinFront([c], Split(s[1..], c), [s[0]]);
      assert s == [s[0]] + s[1..];
    }
  }

  lemma EmptyJoin(sep: string)
    ensures Join(sep, [""]) == ""
  {}

  // ---- ordering by code point ----

  predicate Le(a: string, b: string) {
    a == "" || (b != "" && (a[0] < b[0] || (a[0] == b[0] && Le(a[1..], b[1..]))))
  }

  /** At position i the texts differ for the first time, and a has the smaller character there. */
  ghost predicate SmallerAt(a: string, b: string, i: nat) {
    i < |a| && i < |b| && a[..i] == b[..i] && a[i] < b[i]
  }

  lemma SmallerStart(a: string, b: string, i: nat)
    requires SmallerAt(a, b, i)
    ensures a[0] <= b[0]
  {
    if i > 0 {
      assert a[..i][0] == a[0] && b[..i][0] == b[0];
    }
  }

  /** The order is that of code points at the first difference, a prefix coming first. */
  lemma {:induction false} LeIsByCodePoint(a: string, b: string)
    ensures Le(a, b) <==> a <= b || exists i: nat :: SmallerAt(a, b, i)
  {
    if a != "" && b != "" {
      if a[0] == b[0] {
        LeIsByCodePoint(a[1..], b[1..]);
        if i: nat :| SmallerAt(a[1..], b[1..], i) {
          assert SmallerAt(a, b, i + 1) by {
            assert a[..i + 1] == [a[0]] + a[1..][..i] && b[..i + 1] == [b[0]] + b[1..][..i];
          }
        }
        if i: nat :| SmallerAt(a, b, i) {
          assert i > 0 && SmallerAt(a[1..], b[1..], i - 1) by {
            assert a[1..][..i - 1] == a[..i][1..] && b[1..][..i - 1] == b[..i][1..];
          }
        }
      } else {
        if a[0] < b[0] { assert SmallerAt(a, b, 0); }
        if i: nat :| SmallerAt(a, b, i) {
          SmallerStart(a, b, i);
        }
      }
    }
  }

  lemma {:induction false} LeTotal(a: string, b: string)
    ensures Le(a, b) || Le(b, a)
  {
    if a != "" && b != "" {
      LeTotal(a[1..], b[1..]);
    }
  }

  lemma {:induction false} LeAntisymmetric(a: string, b: string)
    requires Le(a, b) && Le(b, a)
    ensures a == b
  {
    if a != "" && b != "" {
      LeAntisymmetric(a[1..], b[1..]);
      assert a == [a[0]] + a[1..] && b == [b[0]] + b[1..];
    }
  }

  lemma {:induction false} LeTransitive(a: string, b: string, c: string)
    requires Le(a, b) && Le(b, c)
    ensures Le(a, c)
  {
    if a != "" && a[0] == b[0] == c[0] {
      LeTransitive(a[1..], b[1..], c[1..]);
    }
  }

  ghost predicate IsSorted(s: seq<string>) {
    forall i, j | 0 <= i < j < |s| :: Le(s[i], s[j])
  }

  function Insert(x: string, s: seq<string>): (r: seq<string>)
    ensures multiset(r) == multiset(s) + multiset{x}
  {
    if s == [] then [x]
    else if Le(x, s[0]) then [x] + s
    else
      assert s == [s[0]] + s[1..];
      [s[0]] + Insert(x, s[1..])
  }

  lemma {:induction false} InsertKeepsOrder(x: string, s: seq<string>)
    requires IsSorted(s)
    ensures IsSorted(Insert(x, s))
  {
    hide Le;
    var r := Insert(x, s);
    if s == [] {
    } else if Le(x, s[0]) {
      forall j | 0 < j < |r| ensures Le(r[0], r[j]) {
        if j > 1 { LeTransitive(x, s[0], s[j - 1]); }
      }
    } else {
      InsertKeepsOrder(x, s[1..]);
      LeTotal(x, s[0]);
      forall j | 0 < j < |r| ensures Le(r[0], r[j]) {
        assert r[j] in multiset(Insert(x, s[1..])) by { assert r[j] == Insert(x, s[1..])[j - 1]; }
        assert r[j] == x || r[j] in s[1..];
      }
    }
  }

  /** Python's `sorted` on a list of strings. */
  function Sort(s: seq<string>): (r: seq<string>)
    ensures multiset(r) == multiset(s)
    ensures |r| == |s|
  {
    if s == [] then []
    else
      assert s == [s[0]] + s[1..];
      var r := Insert(s[0], Sort(s[1..]));
      assert |multiset(r)| == |r|;
      r
  }

  lemma {:induction false} SortSorts(s: seq<string>)
    ensures IsSorted(Sort(s))
  {
    if s != [] {
      SortSorts(s[1..]);
      InsertKeepsOrder(s[0], Sort(s[1..]));
    }
  }

  lemma HeadIsLeast(s: seq<string>, x: string)
    requires IsSorted(s) && x in s
    ensures Le(s[0], x)
  {
    hide Le;
    var i :| 0 <= i < |s| && s[i] == x;
    LeTotal(s[0], s[0]);
  }

  /** Two sorted lists with the same elements are the same list. */
  lemma {:induction false} SortedUnique(s: seq<string>, t: seq<string>)
    requires IsSorted(s) && IsSorted(t)
    requires multiset(s) == multiset(t)
    ensures s == t
  {
    hide Le, IsSorted;
    if s == [] {
      assert |multiset(t)| == 0;
    } else {
      assert s[0] in multiset(s) && s[0] in multiset(t);
      assert t[0] in multiset(t) && t[0] in multiset(s);
      HeadIsLeast(s, t[0]);
      HeadIsLeast(t, s[0]);
      LeAntisymmetric(s[0], t[0]);
      Tail(s);
      Tail(t);
      SortedUnique(s[1..], t[1..]);
    }
  }

  lemma Tail(s: seq<string>)
    requires s != []
    ensures s == [s[0]] + s[1..] && multiset(s[1..]) == multiset(s) - multiset{s[0]}
    ensures IsSorted(s) ==> IsSorted(s[1..])
  {
    hide Le;
    assert s == [s[0]] + s[1..];
  }

  ghost predicate Distinct<T>(s: seq<T>) {
    forall i, j | 0 <= i < j < |s| :: s[i] != s[j]
  }

  function Elements<T>(s: seq<T>): set<T> { set x | x in s }

  lemma {:induction false} DistinctMultiset<T>(s: seq<T>)
    requires Distinct(s)
    ensures multiset(s) == multiset(Elements(s))
  {
    if s == [] {
    } else {
      DistinctMultiset(s[1..]);
      assert s == [s[0]] + s[1..];
      assert s[0] !in Elements(s[1..]);
      assert Elements(s) == {s[0]} + Elements(s[1..]);
    }
  }

  /** Sorting forgets the order of a duplicate-free list and nothing else. */
  lemma SortCanonical(s: seq<string>, t: seq<string>)
    requires Distinct(s) && Distinct(t)
    ensures Sort(s) == Sort(t) <==> Elements(s) == Elements(t)
  {
    if Elements(s) == Elements(t) {
      DistinctMultiset(s);
      DistinctMultiset(t);
      SortSorts(s);
      SortSorts(t);
      SortedUnique(Sort(s), Sort(t));
    }
    if Sort(s) == Sort(t) {
      forall x ensures x in s <==> x in t {
        assert x in s <==> x in multiset(s);
        assert x in t <==> x in multiset(t);
      }
    }
  }

  lemma SortKeeps(s: seq<string>)
    ensures Elements(Sort(s)) == Elements(s)
    ensures Distinct(s) ==> Distinct(Sort(s))
  {
    hide Sort;
    var r := Sort(s);
    forall x ensures x in r <==> x in s {
      assert x in r <==> x in multiset(r);
      assert x in s <==> x in multiset(s);
    }
    if Distinct(s) {
      DistinctMultiset(s);
      MultisetDistinct(r, Elements(s));
    }
  }

  lemma MultisetDistinct<T>(r: seq<T>, elements: set<T>)
    requires multiset(r) == multiset(elements)
    ensures Distinct(r)
  {
    forall i, j | 0 <= i < j < |r| ensures r[i] != r[j] {
      assert r == r[..j] + r[j..];
      assert r[i] in multiset(r[..j]) && r[j] in multiset(r[j..]);
      assert multiset(r)[r[i]] <= 1;
    }
  }
}
