// Query semantics shared by the server models: the `ORDER BY` on a text column and
// the `ILIKE` pattern match of PostgreSQL, over plain code points.

module Sql {
  import opened Text

  // ---------------------------------------------------------------- ORDER BY text

  /** Lexicographic order on code points (a prefix sorts first). */
  predicate StrLe(a: string, b: string)
    decreases |a|
  {
    a == [] || (b != [] && (a[0] < b[0] || (a[0] == b[0] && StrLe(a[1..], b[1..]))))
  }

  lemma {:induction false} StrLeTotal(a: string, b: string)
    ensures StrLe(a, b) || StrLe(b, a)
    decreases |a|
  {
    if a != [] && b != [] && a[0] == b[0] {
      StrLeTotal(a[1..], b[1..]);
    }
  }

  lemma {:induction false} StrLeAntisymmetric(a: string, b: string)
    requires StrLe(a, b) && StrLe(b, a)
    ensures a == b
    decreases |a|
  {
    if a != [] {
      StrLeAntisymmetric(a[1..], b[1..]);
    }
  }

  /** Adjacent keys are in order. */
  predicate SortedBy<T>(ys: seq<T>, key: T -> string) {
    forall i :: 0 < i < |ys| ==> StrLe(key(ys[i - 1]), key(ys[i]))
  }

  /** One step of insertion sort: `x` goes before the first element it does not follow. */
  function Insert<T>(ys: seq<T>, x: T, key: T -> string): seq<T>
  {
    if ys == [] then [x]
    else if StrLe(key(x), key(ys[0])) then [x] + ys
    else [ys[0]] + Insert(ys[1..], x, key)
  }

  /** `ORDER BY key`: the rows re-arranged so the keys ascend. */
  function SortBy<T>(xs: seq<T>, key: T -> string): seq<T>
  {
    if xs == [] then [] else Insert(SortBy(xs[1..], key), xs[0], key)
  }

  lemma {:induction false} InsertSpec<T>(ys: seq<T>, x: T, key: T -> string)
    requires SortedBy(ys, key)
    ensures SortedBy(Insert(ys, x, key), key)
    ensures multiset(Insert(ys, x, key)) == multiset(ys) + multiset{x}
    ensures Insert(ys, x, key) != [] && (Insert(ys, x, key)[0] == x || (ys != [] && Insert(ys, x, key)[0] == ys[0]))
  {
    if ys == [] {
    } else if StrLe(key(x), key(ys[0])) {
    } else {
      var rest := ys[1..];
      assert SortedBy(rest, key) by {
        forall i | 0 < i < |rest| ensures StrLe(key(rest[i - 1]), key(rest[i])) {
          assert rest[i - 1] == ys[i] && rest[i] == ys[i + 1];
        }
      }
      InsertSpec(rest, x, key);
      var r := Insert(rest, x, key);
      StrLeTotal(key(x), key(ys[0]));
      assert StrLe(key(ys[0]), key(r[0])) by {
        if r[0] != x {
          assert rest != [] && r[0] == rest[0] == ys[1];
        }
      }
      assert ys == [ys[0]] + rest;
    }
  }

  /** The sorted rows are in order and are exactly the input rows. */
  lemma {:induction false} SortBySpec<T>(xs: seq<T>, key: T -> string)
    ensures SortedBy(SortBy(xs, key), key)
    ensures multiset(SortBy(xs, key)) == multiset(xs)
  {
    if xs != [] {
      SortBySpec(xs[1..], key);
      InsertSpec(SortBy(xs[1..], key), xs[0], key);
      assert xs == [xs[0]] + xs[1..];
    }
  }

  // ---------------------------------------------------------------- ILIKE

  /**
   * `s LIKE p` with PostgreSQL's default escape character: `%` matches any run of
   * characters, `_` any one character, and a backslash makes the next character literal.
   */
  predicate Like(s: string, p: string)
    decreases |s| + |p|
  {
    if p == [] then s == []
    else if p[0] == '%' then Like(s, p[1..]) || (s != [] && Like(s[1..], p))
    else if p[0] == '_' then s != [] && Like(s[1..], p[1..])
    else if p[0] == '\\' && |p| >= 2 then s != [] && s[0] == p[1] && Like(s[1..], p[2..])
    else s != [] && s[0] == p[0] && Like(s[1..], p[1..])
  }

  /** `s ILIKE p`: both sides compared in lower case. */
  predicate ILike(s: string, p: string) {
    Like(Lower(s), Lower(p))
  }

  /** No character of `t` has a meaning in a pattern. */
  predicate Literal(t: string) {
    forall i :: 0 <= i < |t| ==> t[i] != '%' && t[i] != '_' && t[i] != '\\'
  }

  lemma {:induction false} LikeAnything(s: string)
    ensures Like(s, "%")
    decreases |s|
  {
    if s != [] {
      LikeAnything(s[1..]);
    }
  }

  lemma {:induction false} LikePrefix(s: string, t: string)
    requires Literal(t)
    ensures Like(s, t + "%") <==> StartsWith(s, t)
    decreases |t|
  {
    if t == [] {
      assert t + "%" == "%";
      LikeAnything(s);
    } else {
      assert (t + "%")[0] == t[0] && (t + "%")[1..] == t[1..] + "%";
      if s != [] {
        LikePrefix(s[1..], t[1..]);
        assert StartsWith(s, t) <==> s[0] == t[0] && StartsWith(s[1..], t[1..]) by {
          if |t| <= |s| {
            assert s[..|t|] == [s[0]] + s[1..][..|t| - 1];
            assert t == [t[0]] + t[1..];
          }
        }
      }
    }
  }

  /** A pattern `%t%` with a literal `t` is substring search. */
  lemma {:induction false} LikeContains(s: string, t: string)
    requires Literal(t)
    ensures Like(s, "%" + t + "%") <==> Contains(s, t)
    decreases |s|
  {
    var p := "%" + t + "%";
    assert p[0] == '%' && p[1..] == t + "%";
    LikePrefix(s, t);
    if s != [] {
      LikeContains(s[1..], t);
    }
  }

  /** Lower-casing keeps a literal term literal. */
  lemma LowerLiteral(t: string)
    requires Literal(t)
    ensures Literal(Lower(t))
  {
  }

  /** `ILIKE '%t%'` with a literal term is case-insensitive substring search. */
  lemma ILikeContains(s: string, t: string)
    requires Literal(t)
    ensures ILike(s, "%" + t + "%") <==> Contains(Lower(s), Lower(t))
  {
    assert Lower("%" + t + "%") == "%" + Lower(t) + "%";
    LowerLiteral(t);
    LikeContains(Lower(s), Lower(t));
  }

  // ---------------------------------------------------------------- WHERE

  /** `WHERE p`: the rows satisfying `p`, in table order. */
  function Where<T>(xs: seq<T>, p: T -> bool): (r: seq<T>)
    ensures |r| <= |xs|
  {
    if xs == [] then [] else (if p(xs[0]) then [xs[0]] else []) + Where(xs[1..], p)
  }

  /** A row is selected exactly when it is in the table and satisfies `p`. */
  lemma {:induction false} WhereSpec<T>(xs: seq<T>, p: T -> bool)
    ensures forall x :: x in Where(xs, p) <==> x in xs && p(x)
  {
    if xs != [] {
      WhereSpec(xs[1..], p);
      assert xs == [xs[0]] + xs[1..];
    }
  }

  /** A row satisfying `p` is selected as many times as the table holds it, and
      any other row never. */
  lemma {:induction false} WhereCount<T>(xs: seq<T>, p: T -> bool)
    ensures forall x :: multiset(Where(xs, p))[x] == if p(x) then multiset(xs)[x] else 0
  {
    if xs != [] {
      WhereCount(xs[1..], p);
      assert xs == [xs[0]] + xs[1..];
    }
  }

  /** When `p` holds of one position only, that row alone is selected. */
  lemma {:induction false} WhereOnly<T>(xs: seq<T>, p: T -> bool, i: int)
    requires 0 <= i < |xs| && p(xs[i])
    requires forall j :: 0 <= j < |xs| && j != i ==> !p(xs[j])
    ensures Where(xs, p) == [xs[i]]
  {
    if i == 0 {
      WhereNone(xs[1..], p);
    } else {
      WhereOnly(xs[1..], p, i - 1);
    }
  }

  lemma {:induction false} WhereNone<T>(xs: seq<T>, p: T -> bool)
    requires forall j :: 0 <= j < |xs| ==> !p(xs[j])
    ensures Where(xs, p) == []
  {
    if xs != [] {
      WhereNone(xs[1..], p);
    }
  }
}
