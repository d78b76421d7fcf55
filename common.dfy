/** Failure-compatible wrappers shared by every module of the model. */
module Common {

  datatype Option<T> = None | Some(value: T) {
    function GetOr(default: T): T {
      match this
      case Some(v) => v
      case None => default
    }
  }

  /** The outcome of a guard or an action: it passes, or it raises `error`. */
  datatype Outcome<E> = Pass | Fail(error: E)

  /** The outcome of an operation that creates a record: the new id, or the error raised. */
  datatype Result<T, E> = Ok(value: T) | Err(error: E)

  /**
   * Python truthiness of an optional text value: both a missing value and
   * the empty string are false.
   */
  predicate IsSet(s: Option<string>) {
    s.Some? && s.value != ""
  }

  /** Python's `a or b` on optional text values. */
  function OrElse(a: Option<string>, b: Option<string>): (r: Option<string>)
    ensures IsSet(a) ==> r == a
    ensures !IsSet(a) ==> r == b
  {
    if IsSet(a) then a else b
  }

  /** No id occurs twice in `ids`. */
  predicate Distinct(ids: seq<nat>) {
    forall i, j | 0 <= i < j < |ids| :: ids[i] != ids[j]
  }

  /** `m` is the least element of `s`. */
  predicate IsLeast(m: nat, s: set<nat>) {
    m in s && forall y | y in s :: m <= y
  }

  /** Every non-empty set of ids has a least element. */
  lemma {:induction false} HasMinimum(s: set<nat>)
    requires s != {}
    ensures exists m :: IsLeast(m, s)
  {
    var x :| x in s;
    var rest := s - {x};
    if rest == {} {
      assert s == {x};
      assert IsLeast(x, s);
    } else {
      HasMinimum(rest);
      var m :| IsLeast(m, rest);
      var least := if x < m then x else m;
      forall y | y in s ensures least <= y {
        if y != x { assert y in rest; }
      }
      assert IsLeast(least, s);
    }
  }

  /** A subset is no larger than its superset. */
  lemma SubsetSize<T>(a: set<T>, b: set<T>)
    requires a <= b
    ensures |a| <= |b|
  {
    assert b == a + (b - a);
    assert a * (b - a) == {};
  }

  /** The least element of a non-empty set of ids. */
  function Min(s: set<nat>): (m: nat)
    requires s != {}
    ensures m in s && forall y | y in s :: m <= y
  {
    HasMinimum(s);
    var m :| IsLeast(m, s);
    m
  }

  /** The elements of a finite set of ids in increasing order. */
  function Ordered(s: set<nat>): (r: seq<nat>)
    ensures |r| == |s|
    ensures forall x :: x in r <==> x in s
    ensures forall i, j | 0 <= i < j < |r| :: r[i] < r[j]
    decreases s
  {
    if s == {} then []
    else
      var m := Min(s);
      var rest := Ordered(s - {m});
      PrependSmallest(s, m, rest);
      [m] + rest
  }

  /**
   * The least element of `s` in front of the remaining elements in
   * increasing order gives all of `s` in increasing order.
   */
  lemma PrependSmallest(s: set<nat>, m: nat, rest: seq<nat>)
    requires m in s && forall y | y in s :: m <= y
    requires |rest| == |s - {m}| && forall x :: x in rest <==> x in s - {m}
    requires forall i, j | 0 <= i < j < |rest| :: rest[i] < rest[j]
    ensures |[m] + rest| == |s|
    ensures forall x :: x in [m] + rest <==> x in s
    ensures forall i, j | 0 <= i < j < |[m] + rest| :: ([m] + rest)[i] < ([m] + rest)[j]
  {
    var r := [m] + rest;
    assert forall x | x in rest :: m < x;
    forall i, j | 0 <= i < j < |r| ensures r[i] < r[j] {
      assert r[j] == rest[j - 1] && rest[j - 1] in rest;
      if i > 0 { assert r[i] == rest[i - 1]; }
    }
    assert forall x :: x in r <==> x == m || x in rest;
  }

  /** The sum of `f` over a finite set of ids, taken in increasing order. */
  function Sum(s: set<nat>, f: nat -> int): int
    decreases s
  {
    if s == {} then 0 else var m := Min(s); f(m) + Sum(s - {m}, f)
  }

  /** Any element can be taken out of a sum first. */
  lemma {:induction false} SumRemove(s: set<nat>, x: nat, f: nat -> int)
    requires x in s
    ensures Sum(s, f) == f(x) + Sum(s - {x}, f)
    decreases s
  {
    var m := Min(s);
    if x != m {
      SumRemove(s - {m}, x, f);
      SumRemove(s - {x}, m, f);
      assert s - {m} - {x} == s - {x} - {m};
    }
  }

  /** A sum splits over any partition of its set. */
  lemma {:induction false} SumSplit(s: set<nat>, part: set<nat>, f: nat -> int)
    ensures Sum(s, f) == Sum(s * part, f) + Sum(s - part, f)
    decreases s
  {
    if s != {} {
      var m := Min(s);
      SumSplit(s - {m}, part, f);
      assert (s - {m}) * part == if m in part then s * part - {m} else s * part;
      assert (s - {m}) - part == if m in part then s - part else s - part - {m};
      if m in part {
        SumRemove(s * part, m, f);
      } else {
        SumRemove(s - part, m, f);
      }
    }
  }

  /** A sum of non-negative terms is not negative, and not greater over a superset. */
  lemma {:induction false} SumMonotone(s: set<nat>, t: set<nat>, f: nat -> int)
    requires s <= t
    requires forall x | x in t :: f(x) >= 0
    ensures 0 <= Sum(s, f) <= Sum(t, f)
    decreases t
  {
    SumSplit(t, s, f);
    assert t * s == s;
    SumNonNegative(t - s, f);
    SumNonNegative(s, f);
  }

  lemma {:induction false} SumNonNegative(s: set<nat>, f: nat -> int)
    requires forall x | x in s :: f(x) >= 0
    ensures Sum(s, f) >= 0
    decreases s
  {
    if s != {} {
      SumNonNegative(s - {Min(s)}, f);
    }
  }
}
