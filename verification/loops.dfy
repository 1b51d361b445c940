/** The output of the nested index loops shared by both sphere tessellators:
    `for (r = 0; r < rows; r++) for (c = 0; c < cols; c++) emit body(r, c)`. */
module Loops {

  /** Number of iterations of `for (int i = 0; i < n; i++)`: none when n <= 0. */
  function Count(n: int): (c: nat)
    ensures n <= 0 ==> c == 0
    ensures n >= 0 ==> c == n
  {
    if n > 0 then n else 0
  }

  /** Everything emitted by the outer loop, in emission order. */
  function Nested<T>(rows: nat, cols: nat, body: (nat, nat) -> seq<T>): seq<T>
  {
    if rows == 0 then [] else Nested(rows - 1, cols, body) + Row(rows - 1, cols, body)
  }

  /** Everything emitted by the inner loop for outer counter r. */
  function Row<T>(r: nat, cols: nat, body: (nat, nat) -> seq<T>): seq<T>
  {
    if cols == 0 then [] else Row(r, cols - 1, body) + body(r, cols - 1)
  }

  /** Every iteration of the loop body emits exactly k elements. */
  ghost predicate Uniform<T>(rows: nat, cols: nat, body: (nat, nat) -> seq<T>, k: nat)
  {
    forall r: nat, c: nat :: r < rows && c < cols ==> |body(r, c)| == k
  }

  lemma Distrib(a: int, b: int, k: int)
    ensures (a + b) * k == a * k + b * k
  {
  }

  lemma MulMono(a: int, b: int, k: nat)
    requires a <= b
    ensures a * k <= b * k
  {
    assert b * k == a * k + (b - a) * k;
  }

  /** Position p of a row-major n x n grid is cell (p / n, p % n). */
  lemma GridPosition(p: int, n: nat)
    requires 0 <= p < n * n
    ensures n > 0
    ensures 0 <= p / n < n && 0 <= p % n < n
    ensures p == (p / n) * n + p % n
  {
    var q := p / n;
    if q >= n {
      MulMono(n, q, n);
    }
  }

  lemma {:induction false} RowLength<T>(r: nat, cols: nat, body: (nat, nat) -> seq<T>, k: nat)
    requires forall c: nat :: c < cols ==> |body(r, c)| == k
    ensures |Row(r, cols, body)| == cols * k
  {
    if cols > 0 {
      RowLength(r, cols - 1, body, k);
      Distrib(cols - 1, 1, k);
    }
  }

  /** The outer loop emits rows * cols * k elements. */
  lemma {:induction false} NestedLength<T>(rows: nat, cols: nat, body: (nat, nat) -> seq<T>, k: nat)
    requires Uniform(rows, cols, body, k)
    ensures |Nested(rows, cols, body)| == rows * cols * k
  {
    if rows > 0 {
      NestedLength(rows - 1, cols, body, k);
      RowLength(rows - 1, cols, body, k);
      Distrib(rows - 1, 1, cols);
      Distrib((rows - 1) * cols, cols, k);
    }
  }

  /** Element j of iteration c sits right after what iterations 0 .. c-1 emitted, and
      later iterations do not move it. */
  lemma {:induction false} RowAfter<T>(r: nat, cols: nat, c: nat, body: (nat, nat) -> seq<T>, j: nat)
    requires c < cols && j < |body(r, c)|
    ensures |Row(r, c, body)| + j < |Row(r, cols, body)|
    ensures Row(r, cols, body)[|Row(r, c, body)| + j] == body(r, c)[j]
  {
    var i := |Row(r, c, body)| + j;
    if c == cols - 1 {
      assert Row(r, cols, body)[i] == body(r, c)[j];
    } else {
      RowAfter(r, cols - 1, c, body, j);
      assert Row(r, cols, body)[i] == Row(r, cols - 1, body)[i];
    }
  }

  /** Element t of outer iteration r sits right after what iterations 0 .. r-1 emitted,
      and later iterations do not move it. */
  lemma {:induction false} NestedAfter<T>(rows: nat, r: nat, cols: nat, body: (nat, nat) -> seq<T>, t: nat)
    requires r < rows && t < |Row(r, cols, body)|
    ensures |Nested(r, cols, body)| + t < |Nested(rows, cols, body)|
    ensures Nested(rows, cols, body)[|Nested(r, cols, body)| + t] == Row(r, cols, body)[t]
  {
    var i := |Nested(r, cols, body)| + t;
    if r == rows - 1 {
      assert Nested(rows, cols, body)[i] == Row(r, cols, body)[t];
    } else {
      NestedAfter(rows - 1, r, cols, body, t);
      assert Nested(rows, cols, body)[i] == Nested(rows - 1, cols, body)[i];
    }
  }

  lemma RowAt<T>(r: nat, cols: nat, body: (nat, nat) -> seq<T>, k: nat, c: nat, j: nat)
    requires forall c': nat :: c' < cols ==> |body(r, c')| == k
    requires c < cols && j < k
    ensures c * k + j < |Row(r, cols, body)|
    ensures Row(r, cols, body)[c * k + j] == body(r, c)[j]
  {
    RowLength(r, c, body, k);
    RowAfter(r, cols, c, body, j);
  }

  /** Slot j of iteration (r, c) is slot c*k + j of row r, after r rows of cols*k each. */
  lemma SlotSplit(r: nat, cols: nat, c: nat, k: nat, j: nat)
    ensures (r * cols + c) * k + j == r * cols * k + (c * k + j)
  {
    Distrib(r * cols, c, k);
  }

  /** Iteration (r, c) occupies the k slots starting at (r * cols + c) * k. */
  lemma NestedAt<T>(rows: nat, cols: nat, body: (nat, nat) -> seq<T>, k: nat,
                    r: nat, c: nat, j: nat)
    requires Uniform(rows, cols, body, k)
    requires r < rows && c < cols && j < k
    ensures (r * cols + c) * k + j < |Nested(rows, cols, body)|
    ensures Nested(rows, cols, body)[(r * cols + c) * k + j] == body(r, c)[j]
  {
    NestedLength(r, cols, body, k);
    RowAt(r, cols, body, k, c, j);
    NestedAfter(rows, r, cols, body, c * k + j);
    SlotSplit(r, cols, c, k, j);
  }

  /** A window of s that agrees with x element by element is x. */
  lemma Window<T>(s: seq<T>, b: nat, x: seq<T>)
    requires b + |x| <= |s|
    requires forall j :: 0 <= j < |x| ==> s[b + j] == x[j]
    ensures s[b .. b + |x|] == x
  {
    forall j | 0 <= j < |x|
      ensures s[b .. b + |x|][j] == x[j]
    {
    }
  }

  /** The k slots of iteration (r, c) hold exactly what that iteration emitted. */
  lemma NestedSlice<T>(rows: nat, cols: nat, body: (nat, nat) -> seq<T>, k: nat, r: nat, c: nat)
    requires Uniform(rows, cols, body, k)
    requires r < rows && c < cols
    ensures (r * cols + c) * k + k <= |Nested(rows, cols, body)|
    ensures Nested(rows, cols, body)[(r * cols + c) * k .. (r * cols + c) * k + k] == body(r, c)
  {
    var whole, cell := Nested(rows, cols, body), body(r, c);
    var before, row := Nested(r, cols, body), Row(r, cols, body);
    var head := Row(r, c, body);
    NestedLength(r, cols, body, k);
    RowLength(r, c, body, k);
    RowLength(r, cols, body, k);
    SlotSplit(r, cols, c, k, 0);
    var b := |before| + |head|;
    assert b == (r * cols + c) * k;
    assert |cell| == k;
    forall j | 0 <= j < k
      ensures b + j < |whole| && whole[b + j] == cell[j]
    {
      RowAfter(r, cols, c, body, j);
      NestedAfter(rows, r, cols, body, |head| + j);
      assert b + j == |before| + (|head| + j);
    }
    if k > 0 {
      RowAfter(r, cols, c, body, k - 1);
      NestedAfter(rows, r, cols, body, |head| + (k - 1));
    }
    Window(whole, b, cell);
  }

  /** A property every iteration's output has, the whole output has. */
  lemma {:induction false} NestedAll<T>(rows: nat, cols: nat, body: (nat, nat) -> seq<T>, P: T -> bool)
    requires forall r: nat, c: nat, x :: r < rows && c < cols && x in body(r, c) ==> P(x)
    ensures forall x :: x in Nested(rows, cols, body) ==> P(x)
  {
    if rows > 0 {
      var a, b := Nested(rows - 1, cols, body), Row(rows - 1, cols, body);
      NestedAll(rows - 1, cols, body, P);
      var last := rows - 1;
      forall c: nat, x | c < cols && x in body(last, c)
        ensures P(x)
      {
      }
      RowAll(last, cols, body, P);
      assert Nested(rows, cols, body) == a + b;
      forall x | x in a + b
        ensures P(x)
      {
        assert x in a || x in b;
      }
    }
  }

  lemma {:induction false} RowAll<T>(r: nat, cols: nat, body: (nat, nat) -> seq<T>, P: T -> bool)
    requires forall c: nat, x :: c < cols && x in body(r, c) ==> P(x)
    ensures forall x :: x in Row(r, cols, body) ==> P(x)
  {
    if cols > 0 {
      var a, b := Row(r, cols - 1, body), body(r, cols - 1);
      RowAll(r, cols - 1, body, P);
      assert Row(r, cols, body) == a + b;
      forall x | x in a + b
        ensures P(x)
      {
        assert x in a || x in b;
      }
    }
  }
}
