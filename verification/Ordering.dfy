/** The orders SQL results come in: `ORDER BY rank ASC, id ASC LIMIT n`, and `min`. */
module Ordering {

  /** Code-point order on identifiers, the table's default text collation. */
  predicate LexLess(a: string, b: string) {
    b != [] && (a == [] || a[0] < b[0] || (a[0] == b[0] && LexLess(a[1..], b[1..])))
  }

  lemma {:induction false} LexAsymmetric(a: string, b: string)
    ensures !(LexLess(a, b) && LexLess(b, a))
  {
    if a != [] && b != [] {
      LexAsymmetric(a[1..], b[1..]);
    }
  }

  lemma {:induction false} LexTotal(a: string, b: string)
    ensures a == b || LexLess(a, b) || LexLess(b, a)
  {
    if a != [] && b != [] && a[0] == b[0] {
      LexTotal(a[1..], b[1..]);
      assert a == [a[0]] + a[1..] && b == [b[0]] + b[1..];
    }
  }

  lemma {:induction false} LexTransitive(a: string, b: string, c: string)
    requires LexLess(a, b) && LexLess(b, c)
    ensures LexLess(a, c)
  {
    if a != [] && a[0] == b[0] && b[0] == c[0] {
      LexTransitive(a[1..], b[1..], c[1..]);
    }
  }

  /** `a` is listed before `b` when rows are ordered by rank and then by id. */
  predicate Before(rank: map<string, int>, a: string, b: string)
    requires a in rank && b in rank
  {
    rank[a] < rank[b] || (rank[a] == rank[b] && LexLess(a, b))
  }

  lemma BeforeTransitive(rank: map<string, int>, a: string, b: string, c: string)
    requires a in rank && b in rank && c in rank
    requires Before(rank, a, b) && Before(rank, b, c)
    ensures Before(rank, a, c)
  {
    if rank[a] == rank[b] == rank[c] {
      LexTransitive(a, b, c);
    }
  }

  predicate IsFirst(keys: set<string>, rank: map<string, int>, k: string)
    requires keys <= rank.Keys
  {
    k in keys && forall o | o in keys :: o == k || Before(rank, k, o)
  }

  lemma {:induction false} FirstExists(keys: set<string>, rank: map<string, int>)
    requires keys != {} && keys <= rank.Keys
    ensures exists k :: IsFirst(keys, rank, k)
    decreases keys
  {
    var a :| a in keys;
    var rest := keys - {a};
    if rest == {} {
      assert keys == {a};
      assert IsFirst(keys, rank, a);
    } else {
      FirstExists(rest, rank);
      var k :| IsFirst(rest, rank, k);
      LexTotal(a, k);
      if Before(rank, a, k) {
        forall o | o in keys && o != a ensures Before(rank, a, o) {
          if o != k { BeforeTransitive(rank, a, k, o); }
        }
        assert IsFirst(keys, rank, a);
      } else {
        assert IsFirst(keys, rank, k);
      }
    }
  }

  lemma FirstUnique(keys: set<string>, rank: map<string, int>)
    requires keys <= rank.Keys
    ensures forall a, b | IsFirst(keys, rank, a) && IsFirst(keys, rank, b) :: a == b
  {
    forall a, b | IsFirst(keys, rank, a) && IsFirst(keys, rank, b) ensures a == b {
      LexAsymmetric(a, b);
    }
  }

  function First(keys: set<string>, rank: map<string, int>): (k: string)
    requires keys != {} && keys <= rank.Keys
    ensures IsFirst(keys, rank, k)
  {
    FirstExists(keys, rank);
    FirstUnique(keys, rank);
    var k :| k in keys && IsFirst(keys, rank, k);
    k
  }

  /** `SELECT id ... ORDER BY rank ASC, id ASC LIMIT n` over the rows in `keys`. */
  function Select(keys: set<string>, rank: map<string, int>, n: nat): (r: seq<string>)
    requires keys <= rank.Keys
    decreases n
  {
    if n == 0 || keys == {} then []
    else
      var k := First(keys, rank);
      [k] + Select(keys - {k}, rank, n - 1)
  }

  /** What the query promises: at most `n` distinct rows of `keys`, in order, and every
      row left out comes after all the rows returned, which then number exactly `n`. */
  lemma {:induction false} SelectIsPage(keys: set<string>, rank: map<string, int>, n: nat)
    requires keys <= rank.Keys
    ensures var r := Select(keys, rank, n);
            && |r| <= n
            && (forall i | 0 <= i < |r| :: r[i] in keys)
            && (forall i, j | 0 <= i < j < |r| :: r[i] != r[j] && Before(rank, r[i], r[j]))
            && (forall k | k in keys && k !in r :: |r| == n && forall i | 0 <= i < |r| :: Before(rank, r[i], k))
    decreases n
  {
    if n != 0 && keys != {} {
      var k := First(keys, rank);
      SelectIsPage(keys - {k}, rank, n - 1);
      var rest := Select(keys - {k}, rank, n - 1);
      var r := Select(keys, rank, n);
      assert r == [k] + rest;
      forall i, j | 0 <= i < j < |r| ensures r[i] != r[j] && Before(rank, r[i], r[j]) {
        assert r[j] == rest[j - 1];
        if i > 0 { assert r[i] == rest[i - 1]; }
      }
      forall x | x in keys && x !in r
        ensures |r| == n && forall i | 0 <= i < |r| :: Before(rank, r[i], x)
      {
        assert x != k by { assert r[0] == k; }
        assert x !in rest by { assert forall i | 0 <= i < |rest| :: rest[i] == r[i + 1]; }
        forall i | 0 <= i < |r| ensures Before(rank, r[i], x) {
          if i > 0 { assert r[i] == rest[i - 1]; }
        }
      }
    }
  }

  predicate IsMin(s: set<nat>, m: nat) {
    m in s && forall x | x in s :: m <= x
  }

  lemma {:induction false} MinExists(s: set<nat>, a: nat)
    requires a in s
    ensures exists m :: IsMin(s, m)
    decreases s
  {
    var rest := s - {a};
    assert forall x | x in s :: x == a || x in rest;
    if forall x | x in rest :: a <= x {
      assert IsMin(s, a);
    } else {
      var b :| b in rest && b < a;
      MinExists(rest, b);
      var m :| IsMin(rest, m);
      assert IsMin(s, m);
    }
  }

  /** `Math.min(...values)` over a non-empty collection. */
  function MinOf(s: set<nat>): (m: nat)
    requires s != {}
    ensures IsMin(s, m)
  {
    assert exists m :: IsMin(s, m) by {
      var a :| a in s;
      MinExists(s, a);
    }
    var m :| m in s && IsMin(s, m);
    m
  }

  predicate IsMax(s: set<nat>, m: nat) {
    m in s && forall x | x in s :: x <= m
  }

  lemma {:induction false} MaxExists(s: set<nat>, a: nat)
    requires a in s
    ensures exists m :: IsMax(s, m)
    decreases s
  {
    var rest := s - {a};
    assert forall x | x in s :: x == a || x in rest;
    if forall x | x in rest :: x <= a {
      assert IsMax(s, a);
    } else {
      var b :| b in rest && b > a;
      MaxExists(rest, b);
      var m :| IsMax(rest, m);
      assert IsMax(s, m);
    }
  }

  /** The latest of some times, zero if there is none. */
  function Latest(s: set<nat>): (m: nat)
    ensures if s == {} then m == 0 else IsMax(s, m)
  {
    if s == {} then 0
    else
      assert exists m :: IsMax(s, m) by {
        var a :| a in s;
        MaxExists(s, a);
      }
      var m :| m in s && IsMax(s, m);
      m
  }
}
