/**
 * The persistent list behind collision nodes. Its implementation is not part
 * of this model; its behaviour is the one list_test.go pins down: `Add`
 * prepends, indices count from the head, every operation returns a new list
 * and leaves its receiver as it was, and `Map` visits the oldest element
 * first.
 */
module Lists {
  import opened Wrappers

  datatype List<T> = Empty | Cons(head: T, tail: List<T>)

  /** The elements of `l`, head first. */
  function Elems<T>(l: List<T>): seq<T>
  {
    match l
    case Empty => []
    case Cons(x, t) => [x] + Elems(t)
  }

  function IsEmpty<T>(l: List<T>): (r: bool)
    ensures r <==> Elems(l) == []
  {
    l.Empty?
  }

  /** Add prepends: the new element becomes the head and `l` the tail. */
  function Add<T>(l: List<T>, x: T): (r: List<T>)
    ensures Head(r) == Some(x) && Tail(r) == Some(l)
    ensures Elems(r) == [x] + Elems(l)
  {
    Cons(x, l)
  }

  function Head<T>(l: List<T>): (r: Option<T>)
    ensures r.None? <==> Elems(l) == []
    ensures r.Some? ==> r.value == Elems(l)[0]
  {
    match l
    case Empty => None
    case Cons(x, _) => Some(x)
  }

  function Tail<T>(l: List<T>): (r: Option<List<T>>)
    ensures r.None? <==> Elems(l) == []
    ensures r.Some? ==> Elems(r.value) == Elems(l)[1..]
  {
    match l
    case Empty => None
    case Cons(_, t) => Some(t)
  }

  function Length<T>(l: List<T>): (n: nat)
    ensures n == |Elems(l)|
  {
    match l
    case Empty => 0
    case Cons(_, t) => 1 + Length(t)
  }

  /** The i-th element from the head, or nothing when i is out of range. */
  function Get<T>(l: List<T>, i: nat): (r: Option<T>)
    ensures r.Some? <==> i < |Elems(l)|
    ensures r.Some? ==> r.value == Elems(l)[i]
  {
    match l
    case Empty => None
    case Cons(x, t) => if i == 0 then Some(x) else Get(t, i - 1)
  }

  /** Insert `x` so that it becomes element i; an error past the end. */
  function Insert<T>(l: List<T>, x: T, i: nat): (r: Result<List<T>>)
    ensures r.Ok? <==> i <= |Elems(l)|
    ensures r.Ok? ==> Elems(r.value) == Elems(l)[..i] + [x] + Elems(l)[i..]
  {
    if i == 0 then Ok(Cons(x, l))
    else match l
      case Empty => Err("index out of range")
      case Cons(y, t) =>
        match Insert(t, x, i - 1)
        case Ok(r) => Ok(Cons(y, r))
        case Err(m) => Err(m)
  }

  /** Drop element i; an error when there is no element i. */
  function Remove<T>(l: List<T>, i: nat): (r: Result<List<T>>)
    ensures r.Ok? <==> i < |Elems(l)|
    ensures r.Ok? ==> Elems(r.value) == Elems(l)[..i] + Elems(l)[i + 1..]
  {
    match l
    case Empty => Err("index out of range")
    case Cons(y, t) =>
      if i == 0 then Ok(t)
      else match Remove(t, i - 1)
        case Ok(r) => Ok(Cons(y, r))
        case Err(m) => Err(m)
  }

  /** The index of the first element satisfying `p`, or -1. */
  function FindIndex<T>(l: List<T>, p: T -> bool): (r: int)
    ensures -1 <= r < |Elems(l)|
    ensures r == -1 <==> forall j :: 0 <= j < |Elems(l)| ==> !p(Elems(l)[j])
    ensures r >= 0 ==> p(Elems(l)[r]) && forall j :: 0 <= j < r ==> !p(Elems(l)[j])
  {
    match l
    case Empty => -1
    case Cons(x, t) =>
      if p(x) then assert Elems(l)[0] == x; 0
      else
        var r := FindIndex(t, p);
        assert forall j :: 0 < j <= |Elems(t)| ==> Elems(l)[j] == Elems(t)[j - 1];
        if r < 0 then -1 else assert Elems(l)[r + 1] == Elems(t)[r]; r + 1
  }

  /** The first element satisfying `p`, if any. */
  function Find<T>(l: List<T>, p: T -> bool): (r: Option<T>)
    ensures r.None? <==> forall j :: 0 <= j < |Elems(l)| ==> !p(Elems(l)[j])
    ensures r.Some? ==> p(r.value)
    ensures r == if FindIndex(l, p) < 0 then None else Some(Elems(l)[FindIndex(l, p)])
  {
    match l
    case Empty => None
    case Cons(x, t) =>
      assert Elems(l)[0] == x;
      assert forall j :: 0 < j <= |Elems(t)| ==> Elems(l)[j] == Elems(t)[j - 1];
      if p(x) then Some(x)
      else
        var r := Find(t, p);
        if r.None? then r
        else
          var j := FindIndex(t, p);
          assert Elems(l)[j + 1] == Elems(t)[j];
          r
  }

  /** `f` applied to every element, oldest (first added) first. */
  function Map<T, U>(l: List<T>, f: T -> U): (r: seq<U>)
    ensures |r| == |Elems(l)|
    ensures forall j :: 0 <= j < |r| ==> r[j] == f(Elems(l)[|r| - 1 - j])
  {
    match l
    case Empty => []
    case Cons(x, t) => Map(t, f) + [f(x)]
  }
}
