# QuestionMark `Result<T, E>` in Dafny

QuestionMark is a header-only C++ library for Rust-like error handling.
Its header `question_mark.hpp` defines the `Result<T, E>` class template;
its tests also use an `Option<T>` type that this header does not define.
This project models `Result<T, E>`, a success-or-error container. Each object
holds two nullable owning pointers, `_ok` and `_err`. The constructor that
sets them is private, so among the class's declared members the static
factories `Ok(value)` and `Err(error)` are the only public way to build
one. `Ok` sets the success pointer and
leaves the error pointer null. `Err` does the opposite. The queries
`is_ok`, `is_err`, `contains` and `contains_err` only read the pointers.

The model (`question_mark.dfy`, module `QuestionMark`):

- `Ptr<T>` stands for `std::unique_ptr<T>`. A pointer is either `Null` or
  `Own(target)`, the value of the object it owns.
- `Result<T, E>` is a datatype `Make(ok, err)` holding the two pointers.
  `Make` is the two-pointer constructor. Nothing in the type keeps both
  pointers from being null, or both from being set.
- `Result.Valid()` is the representation invariant: exactly one pointer is
  set.
- `Reachable(r)` says that `r` is what `Ok` or `Err` returns for some
  argument. `ReachableIffValid` proves that the reachable containers are
  exactly the valid ones.
- `Constructible(r)` widens `Reachable` by the moved-from state, both
  pointers null, which public code reaches through the move constructor or
  move assignment that C++ generates for the class.
  `ConstructibleIffNotBothSet` proves these are exactly the containers
  whose two pointers are not both set.
- `Outcome<T, E>` is a plain two-state tagged union. It is the independent
  reference for what a container means. `Result.Abs` reads a valid
  container as an `Outcome`, and `Concrete` builds one back through the
  factories.

No declared member changes an object after construction, and every query
is a read. So the container is modelled as a datatype value, and the queries
are functions of it. That the queries leave the container unchanged follows
from this form. C++ also generates a public move constructor and move
assignment for the class; those are not modelled (see "Left out").

## Model

| member | source | states |
|---|---|---|
| QuestionMark.Result.Ok | question_mark.hpp:10-12 | `Ok(v)` is valid, `is_ok` holds and `is_err` does not; it contains exactly `v` and no error |
| QuestionMark.Result.Err | question_mark.hpp:15-17 | `Err(e)` is valid, `is_err` holds and `is_ok` does not; it contains exactly the error `e` and no value |
| QuestionMark.ReachableIffValid | question_mark.hpp:10-17 | a representation comes from one of the two public factories if and only if exactly one of its two pointers is set |
| QuestionMark.OkIffNotErr | question_mark.hpp:20-27 | on every container the factories can produce, `is_ok` is true exactly when `is_err` is false |
| QuestionMark.ConstructibleIffNotBothSet | question_mark.hpp:53-54 | a container is one public code can hold (factory-built or moved-from) if and only if its two pointers are not both set |
| QuestionMark.AtMostOneQuery | question_mark.hpp:20-27 | on every container public code can hold, `is_ok` and `is_err` are never both true, and on a moved-from container both are false |
| QuestionMark.ContainsIffOkOf | question_mark.hpp:30-36 | on every container public code can hold, moved-from ones included, `contains(v)` holds exactly when the container is `Ok(v)`; an error container contains no value |
| QuestionMark.ContainsErrIffErrOf | question_mark.hpp:39-45 | on every container public code can hold, moved-from ones included, `contains_err(e)` holds exactly when the container is `Err(e)`; a success container contains no error |
| QuestionMark.ContentsUnique | question_mark.hpp:30-45 | a container public code can hold, moved-from ones included, contains at most one value, and never both a value and an error |
| QuestionMark.FactoriesInjective | question_mark.hpp:10-17 | distinct arguments give distinct containers, and no `Ok` container equals an `Err` container |
| QuestionMark.Result.Abs | question_mark.hpp:53-54 | a valid two-pointer container reads as a tagged union: success exactly when `is_ok`, failure exactly when `is_err`, `contains`/`contains_err` agree with the held value |
| QuestionMark.Concrete | question_mark.hpp:10-17 | building from a tagged union through the factories gives a valid container that reads back as the same tagged union |
| QuestionMark.ConcreteAbs | question_mark.hpp:48-54 | a valid container is the one its tagged-union reading builds back, so no valid state exists beyond those the factories produce |
| QuestionMark.InvalidStatesBreakDuality | question_mark.hpp:48-51 | the two states outside the invariant break the queries: both pointers null, the state a moved-from object is left in, is neither ok nor err; both set, which only the private constructor could build, is both ok and err and holds a value and an error at once |

## Left out

- `Option<T>` and its combinators (`map`, `and_`, `and_then`, `filter`, `or_`, `or_else`, `xor_`, `ok_or`, `ok_or_else`, `unwrap_or`, `unwrap_or_else`, `expect`, `unwrap`). The test file uses them, but `question_mark.hpp` does not define them, so there is no code to model.
- `Result::operator==` and `Result::ok()`. `operator==` is used by the tests (tests.cpp:141-147); `ok()` appears only in commented-out test code (tests.cpp:150-151); the header defines neither. `FactoriesInjective` states the matching facts about Dafny's structural equality on the representation.
- The fatal `expect`/`unwrap` path. It ends the process, and no such code exists for `Result` in the header.
- Heap allocation through `std::make_unique`, ownership transfer through `std::move`, and move-only semantics. These are memory management. Each pointer is modelled as an optional value.
- The move constructor and move assignment that C++ generates for `Result`. The operations themselves are not modelled; their effect on the queries is. A moved-from `Result` has both pointers null, so it answers false to both `is_ok` and `is_err`. `Reachable` and `Valid` describe objects that have not been moved from. Of the facts about queries, only `OkIffNotErr` (`is_ok` exactly when not `is_err`) and those needing `Valid` (`Result.Abs`, `ConcreteAbs`) fail on a moved-from object. `AtMostOneQuery`, `ContainsIffOkOf`, `ContainsErrIffErrOf` and `ContentsUnique` are stated under `Constructible`, which includes it. Move assignment also replaces the contents of an existing object; the model has no object identity, so that replacement is not modelled.
- The private access of the two-pointer constructor. Dafny cannot hide a datatype constructor inside its own module. Privacy is modelled by `Reachable`: the facts about queries are stated for reachable containers, meaning those built by `Ok` or `Err`.
- Any `operator==` on `T` or `E` that is not an equivalence, including the built-in floating-point `==` on NaN. `contains` and `contains_err` compare with `==`, and the model uses Dafny's equality for that comparison. So `Result.Ok`, `Result.Err`, `ContainsIffOkOf` and `ContainsErrIffErrOf` promise `Ok(v).contains(v)` and `Err(e).contains_err(e)` for every value, which the C++ code does not deliver for a NaN.
- The type parameters of `Result` are restricted to types with equality and without references (`T(==,!new)`, `E(==,!new)`). The C++ template accepts any copyable `T` and `E` and needs `operator==` only where `contains` or `contains_err` is instantiated.
- The Catch2 test harness.
