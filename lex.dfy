/** The lexicographic order on strings that Python's `<` on `str` uses, which
    is also the byte order of binary (`BINARY`/`VARBINARY`) columns on UTF-8
    text: UTF-8 byte order and code-point order agree, so comparing
    characters is enough. */
module Lex {

  /** `a < b` in Python: a proper prefix comes first, otherwise the first
      differing character decides. */
  predicate LexLess(a: string, b: string)
    decreases |a|
  {
    if |b| == 0 then false
    else if |a| == 0 then true
    else if a[0] != b[0] then a[0] < b[0]
    else LexLess(a[1..], b[1..])
  }

  predicate LexLe(a: string, b: string) {
    a == b || LexLess(a, b)
  }

  lemma {:induction false} LexIrreflexive(a: string)
    ensures !LexLess(a, a)
    decreases |a|
  {
    if |a| > 0 {
      LexIrreflexive(a[1..]);
    }
  }

  lemma {:induction false} LexTransitive(a: string, b: string, c: string)
    requires LexLess(a, b) && LexLess(b, c)
    ensures LexLess(a, c)
    decreases |a|
  {
    if |a| > 0 && a[0] == b[0] && b[0] == c[0] {
      LexTransitive(a[1..], b[1..], c[1..]);
    }
  }

  lemma {:induction false} LexTotal(a: string, b: string)
    ensures a == b || LexLess(a, b) || LexLess(b, a)
    decreases |a|
  {
    if |a| > 0 && |b| > 0 && a[0] == b[0] {
      LexTotal(a[1..], b[1..]);
      if a[1..] == b[1..] {
        assert a == [a[0]] + a[1..] && b == [b[0]] + b[1..];
      }
    }
  }

  lemma LexAsymmetric(a: string, b: string)
    requires LexLess(a, b)
    ensures !LexLess(b, a)
  {
    if LexLess(b, a) {
      LexTransitive(a, b, a);
      LexIrreflexive(a);
    }
  }

  lemma LexLeTransitive(a: string, b: string, c: string)
    requires LexLe(a, b) && LexLe(b, c)
    ensures LexLe(a, c)
  {
    if a != b && b != c {
      LexTransitive(a, b, c);
    }
  }

  /** Only the empty string precedes nothing: every non-empty string comes after `""`. */
  lemma EmptyIsLeast(a: string)
    ensures LexLess("", a) <==> a != ""
  {
  }

  /** The lexicographically greatest string of a non-empty list: the last
      element once the list is sorted ascending. */
  function Greatest(s: seq<string>): (r: string)
    requires |s| > 0
    ensures r in s
    ensures forall x :: x in s ==> LexLe(x, r)
  {
    if |s| == 1 then s[0]
    else
      var g := Greatest(s[1..]);
      LexTotal(s[0], g);
      if LexLess(g, s[0]) then
        assert forall x :: x in s[1..] ==> LexLe(x, g) ==> LexLe(x, s[0]) by {
          forall x | x in s[1..] && LexLe(x, g) ensures LexLe(x, s[0]) {
            LexLeTransitive(x, g, s[0]);
          }
        }
        s[0]
      else g
  }

  /** Any element that no other element exceeds is the greatest one. */
  lemma GreatestUnique(s: seq<string>, m: string)
    requires |s| > 0 && m in s
    requires forall x :: x in s ==> LexLe(x, m)
    ensures Greatest(s) == m
  {
    var g := Greatest(s);
    if g != m {
      assert LexLess(g, m) && LexLess(m, g);
      LexAsymmetric(g, m);
    }
  }

  /** Keys in ascending order, as `ORDER BY` returns them (ties allowed). */
  predicate SortedBy<R>(rows: seq<R>, key: R -> string) {
    forall i, j :: 0 <= i < j < |rows| ==> LexLe(key(rows[i]), key(rows[j]))
  }

  /** Keys in strictly ascending order: a unique key column read in order. */
  predicate StrictlySortedBy<R>(rows: seq<R>, key: R -> string) {
    forall i, j :: 0 <= i < j < |rows| ==> LexLess(key(rows[i]), key(rows[j]))
  }
}
