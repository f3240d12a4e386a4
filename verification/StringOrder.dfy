/** The order of strings that sorting uses. */
module StringOrder {
  /** Comparison of strings by code point. */
  predicate Le(a: string, b: string) {
    a == "" || (b != "" && (a[0] < b[0] || (a[0] == b[0] && Le(a[1..], b[1..]))))
  }

  lemma {:induction false} LeTotal(a: string, b: string)
    ensures Le(a, b) || Le(b, a)
  {
    if a != "" && b != "" { LeTotal(a[1..], b[1..]); }
  }

  lemma {:induction false} LeTransitive(a: string, b: string, c: string)
    requires Le(a, b) && Le(b, c)
    ensures Le(a, c)
  {
    if a != "" && a[0] == b[0] == c[0] { LeTransitive(a[1..], b[1..], c[1..]); }
  }

  lemma {:induction false} LeAntisymmetric(a: string, b: string)
    requires Le(a, b) && Le(b, a)
    ensures a == b
  {
    if a != "" {
      LeAntisymmetric(a[1..], b[1..]);
      assert a == [a[0]] + a[1..] && b == [b[0]] + b[1..];
    }
  }

  lemma LeReflexive(a: string)
    ensures Le(a, a)
  {
    LeTotal(a, a);
  }

  // ---------- sorted sets ----------

  /** Strictly ascending: sorted, without repetitions. */
  predicate Ascending(s: seq<string>) {
    forall i, j :: 0 <= i < j < |s| ==> Le(s[i], s[j]) && s[i] != s[j]
  }

  function Insert(x: string, s: seq<string>): (r: seq<string>)
    requires Ascending(s) && x !in s
    ensures Ascending(r) && forall y :: y in r <==> y == x || y in s
  {
    if s == [] then [x]
    else if Le(x, s[0]) then
      InFront(x, s);
      [x] + s
    else
      LeTotal(x, s[0]);
      var rest := Insert(x, s[1..]);
      assert Ascending([s[0]] + rest) by { Behind(s, rest, x); }
      [s[0]] + rest
  }

  lemma InFront(x: string, s: seq<string>)
    requires Ascending(s) && s != [] && Le(x, s[0]) && x !in s
    ensures Ascending([x] + s)
  {
    forall j | 0 <= j < |s| ensures Le(x, s[j]) {
      if j > 0 { LeTransitive(x, s[0], s[j]); }
    }
  }

  lemma Behind(s: seq<string>, rest: seq<string>, x: string)
    requires Ascending(s) && s != [] && Le(s[0], x) && x != s[0] && Ascending(rest)
    requires forall y :: y in rest <==> y == x || y in s[1..]
    ensures Ascending([s[0]] + rest)
  {
    forall j | 0 <= j < |rest| ensures Le(s[0], rest[j]) && s[0] != rest[j] {
      assert rest[j] in rest;
    }
  }

  /** `sorted(set(...))`: the one sorted list of the set. */
  method Sorted(s: set<string>) returns (r: seq<string>)
    ensures Ascending(r) && forall x :: x in r <==> x in s
    ensures forall t :: Ascending(t) && (forall x :: x in t <==> x in s) ==> t == r
  {
    r := [];
    var left := s;
    while exists x :: x in left
      invariant left <= s && Ascending(r) && forall x :: x in r <==> x in s - left
      decreases |left|
    {
      var x :| x in left;
      left := left - {x};
      r := Insert(x, r);
    }
    forall t | Ascending(t) && (forall x :: x in t <==> x in s) ensures t == r { AscendingIsUnique(t, r); }
  }

  /** A set has one sorted list. */
  lemma {:induction false} AscendingIsUnique(s: seq<string>, t: seq<string>)
    requires Ascending(s) && Ascending(t) && forall x :: x in s <==> x in t
    ensures s == t
  {
    if s == [] {
      if t != [] { HasFirst(t); }
    } else {
      assert s[0] in t;
      assert t[0] in s;
      var i :| 0 <= i < |t| && t[i] == s[0];
      var j :| 0 <= j < |s| && s[j] == t[0];
      LeReflexive(s[0]);
      LeReflexive(t[0]);
      assert Le(t[0], t[i]) && Le(s[0], s[j]);
      LeAntisymmetric(s[0], t[0]);
      assert s == [s[0]] + s[1..] && t == [t[0]] + t[1..];
      forall x ensures x in s[1..] <==> x in t[1..] {
        RestOf(s, x);
        RestOf(t, x);
      }
      AscendingIsUnique(s[1..], t[1..]);
    }
  }

  lemma HasFirst(t: seq<string>)
    requires t != []
    ensures exists x :: x in t
  {
    assert t[0] in t;
  }

  lemma RestOf(s: seq<string>, x: string)
    requires Ascending(s) && s != []
    ensures x in s[1..] <==> x in s && x != s[0]
  {
    assert s == [s[0]] + s[1..];
  }
}
