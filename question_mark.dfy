/** A model of the `Result<T, E>` class template of the QuestionMark header
    library: a success-or-error container built on two nullable owning
    pointers, of which the public factories fill exactly one.

    None of the class's own members changes an object after its private
    constructor has run, so it is modelled as a datatype value and its
    queries as functions of that value. The move constructor and move
    assignment that C++ generates for the class are not modelled; a
    moved-from object has both pointers null. */
module QuestionMark {

  /** A nullable owning pointer (`std::unique_ptr`): either null or the sole
      owner of one heap object, modelled by the object's value. */
  datatype Ptr<T> = Null | Own(target: T)

  /** The success-or-error container. `Make` plays the part of the private
      two-pointer constructor; of the class's declared members only `Ok` and
      `Err` build one. Nothing in the representation itself excludes both
      pointers being null (the state a moved-from object is left in) or both
      being set: that is what `Valid` states and what the factories
      establish. */
  datatype Result<T(==,!new), E(==,!new)> = Make(ok: Ptr<T>, err: Ptr<E>) {

    /** The representation invariant: exactly one side is populated. */
    predicate Valid() {
      (ok.Own? && err.Null?) || (ok.Null? && err.Own?)
    }

    /** Creates a successful result holding `value`. */
    static function Ok(value: T): (r: Result<T, E>)
      ensures r.Valid()
      ensures r.IsOk() && !r.IsErr()
      ensures forall v :: r.Contains(v) <==> v == value
      ensures forall e :: !r.ContainsErr(e)
    {
      Make(Own(value), Null)
    }

    /** Creates a result holding the error `error`. */
    static function Err(error: E): (r: Result<T, E>)
      ensures r.Valid()
      ensures r.IsErr() && !r.IsOk()
      ensures forall e :: r.ContainsErr(e) <==> e == error
      ensures forall v :: !r.Contains(v)
    {
      Make(Null, Own(error))
    }

    /** The success pointer is set. */
    predicate IsOk() {
      ok.Own?
    }

    /** The error pointer is set. */
    predicate IsErr() {
      err.Own?
    }

    /** The result is successful and its value equals `value`. */
    predicate Contains(value: T) {
      if IsOk() then ok.target == value else false
    }

    /** The result holds an error and that error equals `error`. */
    predicate ContainsErr(error: E) {
      if IsErr() then err.target == error else false
    }

    /** The value this container stands for, read as a tagged union. */
    function Abs(): (o: Outcome<T, E>)
      requires Valid()
      ensures o.Success? <==> IsOk()
      ensures o.Failure? <==> IsErr()
      ensures forall v :: Contains(v) <==> o == Success(v)
      ensures forall e :: ContainsErr(e) <==> o == Failure(e)
    {
      if ok.Own? then Success(ok.target) else Failure(err.target)
    }
  }

  /** The tagged union with exactly two states that the two-pointer
      representation emulates. */
  datatype Outcome<T, E> = Success(value: T) | Failure(error: E)

  /** Builds the container for an outcome through the public factories only. */
  function Concrete<T(==,!new), E(==,!new)>(o: Outcome<T, E>): (r: Result<T, E>)
    ensures r.Valid()
    ensures r.Abs() == o
  {
    match o
    case Success(v) => Result.Ok(v)
    case Failure(e) => Result.Err(e)
  }

  /** A container some sequence of public calls can produce: the result of
      `Ok` or of `Err`. */
  ghost predicate Reachable<T(!new), E(!new)>(r: Result<T, E>) {
    (exists v :: r == Result.Ok(v)) || (exists e :: r == Result.Err(e))
  }

  /** The invariant is exactly the set of values the factories produce:
      every factory result is valid, and every valid representation is the
      result of one of the factories. */
  lemma ReachableIffValid<T(!new), E(!new)>(r: Result<T, E>)
    ensures Reachable(r) <==> r.Valid()
  {
    if r.Valid() {
      if r.ok.Own? {
        assert r == Result.Ok(r.ok.target);
      } else {
        assert r == Result.Err(r.err.target);
      }
    }
  }

  /** A container public code can hold: one built by `Ok` or `Err`, or one
      left behind with both pointers null after the compiler-generated move
      constructor or move assignment moved its contents out. */
  ghost predicate Constructible<T(!new), E(!new)>(r: Result<T, E>) {
    Reachable(r) || r == Result.Make(Null, Null)
  }

  /** The containers public code can hold are exactly those whose two
      pointers are not both set. */
  lemma ConstructibleIffNotBothSet<T(!new), E(!new)>(r: Result<T, E>)
    ensures Constructible(r) <==> !(r.ok.Own? && r.err.Own?)
  {
    ReachableIffValid(r);
  }

  /** On every container public code can hold, at most one of the two
      queries holds; a moved-from container answers false to both. */
  lemma AtMostOneQuery<T(!new), E(!new)>(r: Result<T, E>)
    requires Constructible(r)
    ensures !(r.IsOk() && r.IsErr())
    ensures r == Result.Make(Null, Null) ==> !r.IsOk() && !r.IsErr()
  {
  }

  /** On every reachable container exactly one of the two queries holds. */
  lemma OkIffNotErr<T(!new), E(!new)>(r: Result<T, E>)
    requires Reachable(r)
    ensures r.IsOk() <==> !r.IsErr()
  {
  }

  /** `contains(v)` holds exactly of the successful container built from `v`;
      an error container, and a moved-from one, contains no value. */
  lemma ContainsIffOkOf<T(!new), E(!new)>(r: Result<T, E>, v: T)
    requires Constructible(r)
    ensures r.Contains(v) <==> r == Result.Ok(v)
    ensures r.IsErr() ==> !r.Contains(v)
  {
  }

  /** `contains_err(e)` holds exactly of the error container built from `e`;
      a successful container, and a moved-from one, contains no error. */
  lemma ContainsErrIffErrOf<T(!new), E(!new)>(r: Result<T, E>, e: E)
    requires Constructible(r)
    ensures r.ContainsErr(e) <==> r == Result.Err(e)
    ensures r.IsOk() ==> !r.ContainsErr(e)
  {
  }

  /** A container holds at most one value and at most one error, and never
      both a value and an error. */
  lemma ContentsUnique<T(!new), E(!new)>(r: Result<T, E>, v: T, w: T, e: E)
    requires Constructible(r)
    ensures r.Contains(v) && r.Contains(w) ==> v == w
    ensures !(r.Contains(v) && r.ContainsErr(e))
  {
  }

  /** The factories lose no information and never collide: distinct inputs
      give distinct containers, and no success equals an error. */
  lemma FactoriesInjective<T(!new), E(!new)>(v1: T, v2: T, e1: E, e2: E)
    ensures Result<T, E>.Ok(v1) == Result<T, E>.Ok(v2) <==> v1 == v2
    ensures Result<T, E>.Err(e1) == Result<T, E>.Err(e2) <==> e1 == e2
    ensures Result<T, E>.Ok(v1) != Result<T, E>.Err(e1)
  {
  }

  /** Reading a valid container as an outcome and building it back through
      the factories gives the same container. */
  lemma ConcreteAbs<T(!new), E(!new)>(r: Result<T, E>)
    requires r.Valid()
    ensures Concrete(r.Abs()) == r
  {
  }

  /** What the invariant rules out. Both pointers null is the state a
      moved-from object is left in (and what the private constructor would
      build from two null pointers): it is neither ok nor err. Both pointers
      set, which only the private constructor could build, is both ok and
      err and contains a value and an error at once. */
  lemma InvalidStatesBreakDuality<T(!new), E(!new)>(v: T, e: E)
    ensures var none := Result<T, E>.Make(Null, Null);
      !none.Valid() && !none.IsOk() && !none.IsErr()
    ensures var both := Result<T, E>.Make(Own(v), Own(e));
      !both.Valid() && both.IsOk() && both.IsErr() && both.Contains(v) && both.ContainsErr(e)
  {
  }
}
