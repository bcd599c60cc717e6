/**
 * Shared vocabulary of the framework: the error codes and expected-value
 * wrapper of include/Expected.h, UUIDs as their two 64-bit halves (UuidParts
 * of include/Uuid.h),
 * fixed-width unsigned integers and an optional value.
 */
module Common {

  /** An unsigned 8-bit value. */
  type Byte = x: int | 0 <= x < 0x100

  /** An unsigned 32-bit value. */
  type U32 = x: int | 0 <= x < 0x1_0000_0000

  /** An unsigned 64-bit value. */
  type U64 = x: int | 0 <= x < 0x1_0000_0000_0000_0000

  const U32Max: U32 := 0xFFFF_FFFF
  const U64Max: U64 := 0xFFFF_FFFF_FFFF_FFFF

  /** A UUID as UuidParts: its big-endian high and low 64 bits. */
  datatype Uuid = Uuid(high: U64, low: U64)

  /** Type identifiers share the UUID representation. */
  type TypeId = Uuid

  /** The nil UUID: all 128 bits zero. */
  const NilUuid: Uuid := Uuid(0, 0)

  predicate IsNil(id: Uuid) {
    id == NilUuid
  }

  /** Failure categories of the framework (EErrorCode without None). */
  datatype ErrorCode =
    | NotFound
    | InvalidArgument
    | TypeMismatch
    | OutOfRange
    | AlreadyExists
    | NotReady
    | InternalError

  /** A value or an error code (TExpected<T>). */
  datatype Result<+T> = Ok(value: T) | Err(code: ErrorCode) {
    predicate IsFailure() {
      Err?
    }

    function PropagateFailure<U>(): Result<U>
      requires Err?
    {
      Err(code)
    }

    function Extract(): T
      requires Ok?
    {
      value
    }
  }

  /** Success or an error code (TExpected<void>). */
  datatype Outcome = Done | Fail(code: ErrorCode) {
    predicate IsFailure() {
      Fail?
    }

    function PropagateFailure(): Outcome
      requires Fail?
    {
      this
    }
  }

  datatype Option<+T> = None | Some(value: T)

  /** Opaque identity of a heap object the framework points at; 0 is nullptr. */
  type Ptr = nat

  const Null: Ptr := 0

  /** The elements of `s` with the first element equal to `x` removed. */
  function RemoveFirst<T(==)>(s: seq<T>, x: T): (r: seq<T>)
    ensures x !in s ==> r == s
    ensures x in s ==> |r| == |s| - 1
    ensures forall y :: y in r ==> y in s
  {
    if s == [] then []
    else if s[0] == x then
      assert s == [s[0]] + s[1..];
      s[1..]
    else
      assert s == [s[0]] + s[1..];
      [s[0]] + RemoveFirst(s[1..], x)
  }

  /** Dropping the first `x` from a duplicate-free sequence keeps it duplicate-free, without `x`, and with every other element. */
  lemma {:induction false} RemoveFirstDistinct<T>(s: seq<T>, x: T)
    requires NoDuplicates(s)
    ensures NoDuplicates(RemoveFirst(s, x)) && x !in RemoveFirst(s, x)
    ensures forall y :: y in RemoveFirst(s, x) <==> y in s && y != x
  {
    if s != [] {
      assert s[0] !in s[1..];
      assert NoDuplicates(s[1..]);
      if s[0] != x {
        RemoveFirstDistinct(s[1..], x);
        assert s[0] !in RemoveFirst(s[1..], x);
      } else {
        assert forall y :: y in s[1..] <==> y in s && y != x;
      }
    }
  }

  /** Index of the first occurrence of `x` in `s`. */
  function IndexOf<T(==)>(s: seq<T>, x: T): (k: nat)
    requires x in s
    ensures k < |s| && s[k] == x && x !in s[..k]
  {
    if s[0] == x then 0 else 1 + IndexOf(s[1..], x)
  }

  predicate NoDuplicates<T(==)>(s: seq<T>) {
    forall i, j :: 0 <= i < j < |s| ==> s[i] != s[j]
  }

  /** Swap-remove: slot `i` takes the last element, then the sequence shrinks by one. */
  function SwapRemove<E>(dense: seq<E>, i: nat): (r: seq<E>)
    requires i < |dense|
    ensures |r| == |dense| - 1
    ensures i < |r| ==> r[i] == dense[|dense| - 1]
    ensures forall k :: 0 <= k < |r| && k != i ==> r[k] == dense[k]
  {
    if i + 1 < |dense| then dense[i := dense[|dense| - 1]][..|dense| - 1] else dense[..|dense| - 1]
  }

  /** The distinct elements of a duplicate-free sequence number its length. */
  lemma {:induction false} DistinctCard<T>(s: seq<T>)
    requires NoDuplicates(s)
    ensures |set k | 0 <= k < |s| :: s[k]| == |s|
  {
    if |s| > 0 {
      var t := s[..|s| - 1];
      DistinctCard(t);
      assert (set k | 0 <= k < |s| :: s[k]) == (set k | 0 <= k < |t| :: t[k]) + {s[|s| - 1]};
      assert s[|s| - 1] !in (set k | 0 <= k < |t| :: t[k]);
    }
  }

  /** The naturals below `m`. */
  function Below(m: nat): (r: set<nat>)
    ensures |r| == m
    ensures forall x: nat :: x in r <==> x < m
  {
    if m == 0 then {} else Below(m - 1) + {m - 1}
  }

  /** A subset is no larger than its superset. */
  lemma {:induction false} SubsetCard<T>(a: set<T>, b: set<T>)
    requires a <= b
    ensures |a| <= |b|
    decreases |a|
  {
    if a != {} {
      var x :| x in a;
      SubsetCard(a - {x}, b - {x});
    }
  }

  /** Pigeonhole: a duplicate-free sequence of naturals below `m` has at most `m` elements. */
  lemma DistinctBelowBound(s: seq<nat>, m: nat)
    requires NoDuplicates(s)
    requires forall k :: 0 <= k < |s| ==> s[k] < m
    ensures |s| <= m
  {
    DistinctCard(s);
    var elems := set k | 0 <= k < |s| :: s[k];
    forall y | y in elems ensures y in Below(m) {
      var k :| 0 <= k < |s| && s[k] == y;
    }
    SubsetCard(elems, Below(m));
  }

}
