/** Sums over finite sets, in whatever order a Go range loop visits them. */
module Sums {
  import opened Prelude

  ghost function Sum(keys: set<string>, f: string -> real): real {
    if keys == {} then 0.0
    else
      var k :| k in keys;
      f(k) + Sum(keys - {k}, f)
  }

  /** The order does not matter: any element can be taken first. */
  lemma {:induction false} SumRemove(keys: set<string>, f: string -> real, k: string)
    requires k in keys
    ensures Sum(keys, f) == f(k) + Sum(keys - {k}, f)
    decreases |keys|
  {
    var j :| j in keys && Sum(keys, f) == f(j) + Sum(keys - {j}, f);
    if j != k {
      SumRemove(keys - {j}, f, k);
      SumRemove(keys - {k}, f, j);
      assert keys - {j} - {k} == keys - {k} - {j};
    }
  }

  lemma {:induction false} SumSame(keys: set<string>, f: string -> real, g: string -> real)
    requires forall k :: k in keys ==> f(k) == g(k)
    ensures Sum(keys, f) == Sum(keys, g)
    decreases |keys|
  {
    if keys != {} {
      var k :| k in keys;
      SumRemove(keys, f, k);
      SumRemove(keys, g, k);
      SumSame(keys - {k}, f, g);
    }
  }

  lemma {:induction false} SumPlus(keys: set<string>, f: string -> real, g: string -> real, h: string -> real)
    requires forall k :: k in keys ==> h(k) == f(k) + g(k)
    ensures Sum(keys, h) == Sum(keys, f) + Sum(keys, g)
    decreases |keys|
  {
    if keys != {} {
      var k :| k in keys;
      SumRemove(keys, f, k);
      SumRemove(keys, g, k);
      SumRemove(keys, h, k);
      SumPlus(keys - {k}, f, g, h);
    }
  }

  lemma {:induction false} SumTimes(keys: set<string>, f: string -> real, c: real, h: string -> real)
    requires forall k :: k in keys ==> h(k) == f(k) * c
    ensures Sum(keys, h) == Sum(keys, f) * c
    decreases |keys|
  {
    hide Sum;
    if keys != {} {
      var k :| k in keys;
      SumRemove(keys, f, k);
      SumRemove(keys, h, k);
      SumTimes(keys - {k}, f, c, h);
      Distribute(f(k), Sum(keys - {k}, f), c);
    } else {
      SumZero(keys, f);
      SumZero(keys, h);
    }
  }

  lemma Distribute(a: real, b: real, c: real)
    ensures (a + b) * c == a * c + b * c
  {
  }

  /** Keys with value zero add nothing. */
  lemma {:induction false} SumExtend(small: set<string>, keys: set<string>, f: string -> real)
    requires small <= keys && forall k :: k in keys - small ==> f(k) == 0.0
    ensures Sum(keys, f) == Sum(small, f)
    decreases |keys - small|
  {
    if keys - small == {} {
      assert keys == small;
    } else {
      var k :| k in keys - small;
      SumRemove(keys, f, k);
      assert keys - {k} - small == keys - small - {k};
      SumExtend(small, keys - {k}, f);
    }
  }

  /** Summing rows first or columns first. */
  lemma {:induction false} SumSwap(rows: set<string>, cols: set<string>, a: (string, string) -> real)
    ensures Sum(rows, r => Sum(cols, c => a(r, c))) == Sum(cols, c => Sum(rows, r => a(r, c)))
    decreases |rows|
  {
    var byRow := r => Sum(cols, c => a(r, c));
    var byCol := c => Sum(rows, r => a(r, c));
    if rows == {} {
      SumZero(cols, byCol);
    } else {
      var r :| r in rows;
      var rest := rows - {r};
      var restCol := c => Sum(rest, r' => a(r', c));
      SumRemove(rows, byRow, r);
      SumSwap(rest, cols, a);
      forall c | c in cols
        ensures byCol(c) == a(r, c) + restCol(c)
      {
        SumRemove(rows, r' => a(r', c), r);
      }
      SumPlus(cols, c => a(r, c), restCol, byCol);
    }
  }

  lemma {:induction false} SumZero(keys: set<string>, f: string -> real)
    requires forall k :: k in keys ==> f(k) == 0.0
    ensures Sum(keys, f) == 0.0
    decreases |keys|
  {
    if keys != {} {
      var k :| k in keys;
      SumRemove(keys, f, k);
      SumZero(keys - {k}, f);
    }
  }
}
