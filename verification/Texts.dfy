/** Strings in code-point order, and the sorted lists of names that Python's `sorted` builds from sets. */
module Texts {

  /** The order of Python's `<` on strings. */
  predicate Less(a: string, b: string)
    decreases a
  {
    if a == [] then b != []
    else b != [] && (a[0] < b[0] || (a[0] == b[0] && Less(a[1..], b[1..])))
  }

  /** The first difference decides: there the first string ends or has the smaller character. */
  lemma {:induction false} LessExact(a: string, b: string)
    ensures Less(a, b) <==> exists k: nat :: SmallerAt(a, b, k)
    decreases a
  {
    if a != [] && b != [] && a[0] == b[0] {
      LessExact(a[1..], b[1..]);
      if k: nat :| SmallerAt(a[1..], b[1..], k) {
        assert forall i | 1 <= i < k + 1 :: a[i] == a[1..][i - 1] && b[i] == b[1..][i - 1];
        assert SmallerAt(a, b, k + 1);
      }
      if k: nat :| SmallerAt(a, b, k) {
        assert k > 0 && SmallerAt(a[1..], b[1..], k - 1);
      }
    } else if Less(a, b) {
      assert SmallerAt(a, b, 0);
    }
  }

  predicate SmallerAt(a: string, b: string, k: nat) {
    && k <= |a| && k < |b| && (forall i | 0 <= i < k :: a[i] == b[i])
    && (k < |a| ==> a[k] < b[k])
  }

  lemma {:induction false} LessTotal(a: string, b: string)
    ensures Less(a, b) || a == b || Less(b, a)
    ensures !(Less(a, b) && Less(b, a))
    ensures a == b ==> !Less(a, b)
    decreases a
  {
    if a == [] || b == [] {
    } else {
      LessTotal(a[1..], b[1..]);
      assert a == [a[0]] + a[1..] && b == [b[0]] + b[1..];
    }
  }

  lemma {:induction false} LessTransitive(a: string, b: string, c: string)
    requires Less(a, b) && Less(b, c)
    ensures Less(a, c)
    decreases a
  {
    if a != [] && a[0] == b[0] == c[0] {
      LessTransitive(a[1..], b[1..], c[1..]);
    }
  }

  ghost predicate Ascending(names: seq<string>) {
    forall i, j | 0 <= i < j < |names| :: Less(names[i], names[j])
  }

  lemma AscendingTail(names: seq<string>)
    requires Ascending(names) && names != []
    ensures Ascending(names[1..]) && forall name | name in names[1..] :: Less(names[0], name)
  {
  }

  lemma NoneTogether(a: seq<string>, b: seq<string>)
    requires forall x :: x in a <==> x in b
    ensures a == [] <==> b == []
  {
    if a != [] { assert a[0] in b; }
    if b != [] { assert b[0] in a; }
  }

  /** A strictly ascending list is determined by its members. */
  lemma {:induction false} AscendingUnique(a: seq<string>, b: seq<string>)
    requires Ascending(a) && Ascending(b) && forall x :: x in a <==> x in b
    ensures a == b
    decreases |a|
  {
    NoneTogether(a, b);
    if a != [] {
      assert a[0] in b && b[0] in a;
      AscendingTail(a);
      AscendingTail(b);
      assert a == [a[0]] + a[1..] && b == [b[0]] + b[1..];
      LessTotal(a[0], b[0]);
      assert a[0] == b[0];
      forall x ensures x in a[1..] <==> x in b[1..] {
        LessTotal(a[0], x);
        assert x in a <==> x == a[0] || x in a[1..];
        assert x in b <==> x == b[0] || x in b[1..];
      }
      AscendingUnique(a[1..], b[1..]);
    }
  }

  function Insert(name: string, names: seq<string>): (r: seq<string>)
    requires Ascending(names)
    ensures Ascending(r)
    ensures forall x :: x in r <==> x == name || x in names
  {
    if names == [] || Less(name, names[0]) then
      InsertFirst(name, names);
      [name] + names
    else if name == names[0] then names
    else
      var rest := Insert(name, names[1..]);
      InsertLater(name, names, rest);
      [names[0]] + rest
  }

  lemma InsertFirst(name: string, names: seq<string>)
    requires Ascending(names) && (names == [] || Less(name, names[0]))
    ensures Ascending([name] + names)
  {
    forall j | 0 < j < |names| ensures Less(name, names[j]) {
      LessTransitive(name, names[0], names[j]);
    }
  }

  lemma InsertLater(name: string, names: seq<string>, rest: seq<string>)
    requires Ascending(names) && names != [] && name != names[0] && !Less(name, names[0])
    requires Ascending(rest) && forall x :: x in rest <==> x == name || x in names[1..]
    ensures Ascending([names[0]] + rest)
    ensures forall x :: x in [names[0]] + rest <==> x == name || x in names
  {
    LessTotal(name, names[0]);
    forall j | 0 <= j < |rest| ensures Less(names[0], rest[j]) {
      assert rest[j] in rest;
    }
    assert names == [names[0]] + names[1..];
  }

  /** `sorted(set(a) - set(b))`. */
  function SortedDifference(a: seq<string>, b: seq<string>): (r: seq<string>)
    ensures Ascending(r)
    ensures forall x :: x in r <==> x in a && x !in b
  {
    if a == [] then []
    else
      assert forall x :: x in a <==> x == a[0] || x in a[1..];
      var rest := SortedDifference(a[1..], b);
      if a[0] in b then rest else Insert(a[0], rest)
  }

  /** The position of the first occurrence, or the number of texts when there is none. */
  function FirstIndex(texts: seq<string>, text: string): (r: nat)
    ensures r <= |texts|
    ensures r < |texts| ==> texts[r] == text
    ensures forall i | 0 <= i < r :: texts[i] != text
  {
    if texts == [] || texts[0] == text then 0 else 1 + FirstIndex(texts[1..], text)
  }
}
