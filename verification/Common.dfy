/** Shared datatypes and the cardinality facts the measures use. */
module Common {

  datatype Option<+T> = None | Some(value: T)

  type Byte = x: int | 0 <= x < 256

  type Bytes = seq<Byte>

  /** The server's error classes. The text says why and is not part of any claim. */
  datatype Error = Unauthorized(why: string) | BadRequest(why: string) | Internal(why: string)

  datatype Result<+T> = Ok(value: T) | Err(error: Error)

  /** Same success, or errors of the same class. */
  predicate SameClass<T(==)>(x: Result<T>, y: Result<T>) {
    || (x.Ok? && x == y)
    || (x.Err? && y.Err? && x.error.Unauthorized? == y.error.Unauthorized?
        && x.error.BadRequest? == y.error.BadRequest?)
  }

  ghost function Pairs<A, B>(xs: set<A>, ys: set<B>): set<(A, B)> {
    set x, y | x in xs && y in ys :: (x, y)
  }

  lemma {:induction false} PairsSize<A, B>(xs: set<A>, ys: set<B>)
    ensures |Pairs(xs, ys)| == |xs| * |ys|
  {
    if xs == {} {
      assert Pairs(xs, ys) == {};
    } else {
      var x0 :| x0 in xs;
      var fewer := xs - {x0};
      PairsSize(fewer, ys);
      RowSize(x0, ys);
      assert Pairs(xs, ys) == Pairs(fewer, ys) + Pairs({x0}, ys);
      DisjointSize(Pairs(fewer, ys), Pairs({x0}, ys));
      assert |xs| == |fewer| + 1;
      OneMoreRow(|fewer|, |ys|);
    }
  }

  lemma DisjointSize<T>(xs: set<T>, ys: set<T>)
    requires xs !! ys
    ensures |xs + ys| == |xs| + |ys|
  {
  }

  lemma OneMoreRow(n: nat, m: nat)
    ensures n * m + m == (n + 1) * m
  {
  }

  lemma {:induction false} RowSize<A, B>(x: A, ys: set<B>)
    ensures |Pairs({x}, ys)| == |ys|
  {
    if ys == {} {
      assert Pairs({x}, ys) == {};
    } else {
      var y0 :| y0 in ys;
      RowSize(x, ys - {y0});
      assert Pairs({x}, ys) == Pairs({x}, ys - {y0}) + {(x, y0)};
    }
  }
}
