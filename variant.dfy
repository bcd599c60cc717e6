/**
 * Variant and VariantView of include/Variant.h: a reflected type id, a
 * storage pointer and the reference/const flags, with the checks the
 * typed extractors make before handing the payload out.
 *
 * Type ids are values (the cached TypeIdFromName of a type's name), so
 * "type T" is written as the id of T; the shared_ptr is the address it
 * holds, Null when empty.
 */
module Variants {
  import opened Common

  datatype Variant = Variant(typeId: TypeId, storage: Ptr, isRef: bool, isConst: bool)

  /** Variant(): nil type id, no storage, owned and non-const. */
  const Empty: Variant := Variant(NilUuid, Null, false, false)

  /** Void(): the void type id (given), no storage, owned and non-const. */
  function Void(voidType: TypeId): (r: Variant)
    ensures IsVoid(r, voidType) && !r.isRef && !r.isConst && r.storage == Null
    ensures AsConstRef(r, voidType) == Err(TypeMismatch)
  {
    Variant(voidType, Null, false, false)
  }

  /**
   * FromValue: `cell` is the heap cell make_shared allocated for the
   * moved-in value, so it is never null.
   */
  function FromValue(t: TypeId, cell: Ptr): (r: Variant)
    requires cell != Null
    ensures Is(r, t) && !r.isRef && !r.isConst
    ensures AsRef(r, t) == Ok(cell) && AsConstRef(r, t) == Ok(cell)
  {
    Variant(t, cell, false, false)
  }

  /** FromRef: a non-owning, mutable reference to the object at `addr`. */
  function FromRef(t: TypeId, addr: Ptr): (r: Variant)
    requires addr != Null
    ensures Is(r, t) && r.isRef && !r.isConst
    ensures AsRef(r, t) == Ok(addr) && AsConstRef(r, t) == Ok(addr)
  {
    Variant(t, addr, true, false)
  }

  /** FromConstRef: a non-owning reference that refuses mutable extraction. */
  function FromConstRef(t: TypeId, addr: Ptr): (r: Variant)
    requires addr != Null
    ensures Is(r, t) && r.isRef && r.isConst
    ensures AsRef(r, t) == Err(InvalidArgument) && AsConstRef(r, t) == Ok(addr)
  {
    Variant(t, addr, true, true)
  }

  predicate IsVoid(v: Variant, voidType: TypeId) {
    v.typeId == voidType
  }

  /** Is<T>: the stored type id is T's. */
  predicate Is(v: Variant, t: TypeId) {
    v.typeId == t
  }

  /**
   * AsRef<T>: the type is checked first, then the const-reference gate,
   * then the presence of storage.
   */
  function AsRef(v: Variant, t: TypeId): (r: Result<Ptr>)
  {
    if !Is(v, t) then Err(TypeMismatch)
    else if v.isRef && v.isConst then Err(InvalidArgument)
    else if v.storage == Null then Err(TypeMismatch)
    else Ok(v.storage)
  }

  /** AsConstRef<T>: the type check, then the presence of storage; constness is no obstacle. */
  function AsConstRef(v: Variant, t: TypeId): (r: Result<Ptr>)
  {
    if !Is(v, t) then Err(TypeMismatch)
    else if v.storage == Null then Err(TypeMismatch)
    else Ok(v.storage)
  }

  /**
   * Mutable extraction succeeds exactly when const extraction does and the
   * variant is not a const reference; both hand out the same pointer.
   */
  lemma AsRefIsGatedAsConstRef(v: Variant, t: TypeId)
    ensures AsRef(v, t).Ok? <==> AsConstRef(v, t).Ok? && !(v.isRef && v.isConst)
    ensures AsRef(v, t).Ok? ==> AsRef(v, t) == AsConstRef(v, t) == Ok(v.storage) && v.storage != Null
  {
  }

  /** A type mismatch is reported before anything else, whatever the flags. */
  lemma MismatchFirst(v: Variant, t: TypeId)
    requires v.typeId != t
    ensures AsRef(v, t) == Err(TypeMismatch) && AsConstRef(v, t) == Err(TypeMismatch)
  {
  }

  /** An InvalidArgument from AsRef means exactly: right type, const reference. */
  lemma InvalidArgumentMeansConstRef(v: Variant, t: TypeId)
    ensures AsRef(v, t) == Err(InvalidArgument) <==> Is(v, t) && v.isRef && v.isConst
  {
  }

  /** A default-constructed variant yields a TypeMismatch to every extractor, for every type. */
  lemma EmptyExtracts(t: TypeId)
    ensures AsRef(Empty, t) == Err(TypeMismatch) && AsConstRef(Empty, t) == Err(TypeMismatch)
  {
  }

  /** VariantView: a type id, a payload address and a constness gate (const by default). */
  datatype VariantView = VariantView(typeId: TypeId, ptr: Ptr, isConst: bool)

  const EmptyView: VariantView := VariantView(NilUuid, Null, true)

  /** BorrowedMutable: nullptr for a const view, otherwise the payload address. */
  function BorrowedMutable(v: VariantView): (r: Ptr)
    ensures v.isConst ==> r == Null
    ensures !v.isConst ==> r == v.ptr
  {
    if v.isConst then Null else v.ptr
  }

  /** The const borrow never depends on the gate; the mutable one is the const one or nothing. */
  lemma BorrowedMutableIsBorrowedOrNull(v: VariantView)
    ensures BorrowedMutable(v) == v.ptr || BorrowedMutable(v) == Null
    ensures BorrowedMutable(EmptyView) == Null
  {
  }
}
