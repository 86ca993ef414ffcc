/** `MapSerializableType`: the schema type of a map from string keys to values
    of one value type, with bounds on the number of entries.

    The other `SerializableType` classes are not part of this model: they are
    the `Other` case, over an opaque type `L`, whose `equals` and `hashCode`
    are parameters (`otherEq`, `otherHash`). Properties that depend on them
    assume what Java requires of any `equals`/`hashCode` pair. A `null` key
    type or value type is `None`. */
module MapSerializableType {
  import opened Wrappers
  import opened JavaLang

  /** `StringSerializableType` as a key type: only `DEFAULT_STRING` is known by name. */
  datatype StringType = DefaultString | CustomString(id: nat)

  /** A schema type: a map type, or a type of another class. */
  datatype SType<L> =
    | MapType(keyType: Option<StringType>, valueType: Option<SType<L>>, minSize: int32, maxSize: int32)
    | Other(leaf: L)

  /** The `MapTypeChecker` a map type creates for itself, bound to that type. */
  datatype MapTypeChecker<L> = MapTypeChecker(checkedType: SType<L>)

  /** `new MapSerializableType(keyType, valueType, minSize, maxSize)`: every argument stored
      as given, with no validation (a minimum above the maximum is accepted). */
  function MapWithBounds<L>(keyType: Option<StringType>, valueType: Option<SType<L>>, minSize: int32, maxSize: int32): (t: SType<L>)
    ensures t.MapType?
    ensures t.keyType == keyType && t.valueType == valueType
    ensures t.minSize == minSize && t.maxSize == maxSize
  {
    MapType(keyType, valueType, minSize, maxSize)
  }

  /** `new MapSerializableType(keyType, valueType)`: between 0 and `Integer.MAX_VALUE` entries. */
  function MapWithKey<L>(keyType: Option<StringType>, valueType: Option<SType<L>>): (t: SType<L>)
    ensures t.MapType? && t.keyType == keyType && t.valueType == valueType
    ensures t.minSize == 0 && t.maxSize == INT_MAX
  {
    MapWithBounds(keyType, valueType, 0, INT_MAX)
  }

  /** `new MapSerializableType(valueType)`: `DEFAULT_STRING` keys, between 0 and `Integer.MAX_VALUE` entries. */
  function MapOf<L>(valueType: Option<SType<L>>): (t: SType<L>)
    ensures t.MapType? && t.keyType == Some(DefaultString) && t.valueType == valueType
    ensures t.minSize == 0 && t.maxSize == INT_MAX
  {
    MapWithKey(Some(DefaultString), valueType)
  }

  /** `getConstraint()`: the checker created at construction, bound to this very type. */
  function GetConstraint<L>(t: SType<L>): (c: MapTypeChecker<L>)
    requires t.MapType?
    ensures c.checkedType == t
  {
    MapTypeChecker(t)
  }

  /** `equals(Object)`, for a receiver of any schema class.
      On a map type: the same object is equal; `null` or an object of another
      class is not; otherwise the minimum sizes, the maximum sizes and the value
      types (by `Objects.equals`) must agree, and the key type is not compared.
      Object identity is taken to be equality of values. */
  function Equals<L(==)>(t: SType<L>, o: Option<SType<L>>, otherEq: (L, L) -> bool): (r: bool)
    // the same object is always equal, whatever `equals` does on other classes
    ensures t.MapType? && o == Some(t) ==> r
    // `null`, and an object of another class, are never equal
    ensures r ==> o.Some? && o.value.MapType? == t.MapType?
  {
    match t
    case MapType(_, valueType, minSize, maxSize) =>
      if o == Some(t) then true
      else if o.None? || !o.value.MapType? then false
      else
        var that := o.value;
        && minSize == that.minSize
        && maxSize == that.maxSize
        && (valueType == that.valueType || (valueType.Some? && Equals(valueType.value, that.valueType, otherEq)))
    case Other(x) =>
      o.Some? && o.value.Other? && otherEq(x, o.value.leaf)
  }

  /** `Objects.equals(a, b)` over schema types. */
  function ObjectsEquals<L(==)>(a: Option<SType<L>>, b: Option<SType<L>>, otherEq: (L, L) -> bool): bool
  {
    a == b || (a.Some? && Equals(a.value, b, otherEq))
  }

  /** `hashCode()`: for a map type, `Objects.hash(valueType, minSize, maxSize)`,
      that is `31 * (31 * (31 + h(valueType)) + minSize) + maxSize` in `int`
      arithmetic, with `h(null) == 0`. */
  function HashCode<L>(t: SType<L>, otherHash: L -> int32): (r: int32)
    ensures t.MapType? ==>
      r == ObjectsHash([if t.valueType.None? then 0 else HashCode(t.valueType.value, otherHash), t.minSize, t.maxSize])
  {
    match t
    case MapType(_, valueType, minSize, maxSize) =>
      var h: int32 := if valueType.None? then 0 else HashCode(valueType.value, otherHash);
      ObjectsHashOfThree(h, minSize, maxSize);
      Wrap32(31 * (31 * (31 + h as int) + minSize as int) + maxSize as int)
    case Other(x) => otherHash(x)
  }

  /** Reflexivity, symmetry and transitivity of a relation on `L`. */
  ghost predicate IsEquivalence<L(!new)>(eq: (L, L) -> bool)
  {
    && (forall x :: eq(x, x))
    && (forall x, y :: eq(x, y) ==> eq(y, x))
    && (forall x, y, z :: eq(x, y) && eq(y, z) ==> eq(x, z))
  }

  /** Two map types are equal exactly when their minimum sizes, maximum sizes
      and value types are equal; their key types play no part. */
  lemma MapEqualsIffComponentsEqual<L>(a: SType<L>, b: SType<L>, otherEq: (L, L) -> bool)
    requires a.MapType? && b.MapType?
    ensures Equals(a, Some(b), otherEq)
        <==> a.minSize == b.minSize && a.maxSize == b.maxSize && ObjectsEquals(a.valueType, b.valueType, otherEq)
    ensures forall k: Option<StringType> :: Equals(a, Some(b), otherEq) == Equals(a.(keyType := k), Some(b), otherEq)
  {
  }

  /** Two map types that differ only in their key type are equal and hash alike. */
  lemma KeyTypeIgnored<L>(k1: Option<StringType>, k2: Option<StringType>, v: Option<SType<L>>, minSize: int32, maxSize: int32,
                          otherEq: (L, L) -> bool, otherHash: L -> int32)
    ensures Equals(MapWithBounds(k1, v, minSize, maxSize), Some(MapWithBounds(k2, v, minSize, maxSize)), otherEq)
    ensures HashCode(MapWithBounds(k1, v, minSize, maxSize), otherHash) == HashCode(MapWithBounds(k2, v, minSize, maxSize), otherHash)
  {
  }

  /** `equals` is reflexive on every schema type when it is on the other classes. */
  lemma EqualsReflexive<L>(t: SType<L>, otherEq: (L, L) -> bool)
    requires forall x :: otherEq(x, x)
    ensures Equals(t, Some(t), otherEq)
  {
  }

  /** `equals` is symmetric when it is on the other classes. */
  lemma {:induction false} EqualsSymmetric<L>(a: SType<L>, b: SType<L>, otherEq: (L, L) -> bool)
    requires forall x, y :: otherEq(x, y) ==> otherEq(y, x)
    ensures Equals(a, Some(b), otherEq) <==> Equals(b, Some(a), otherEq)
    decreases a
  {
    if a.MapType? && b.MapType? && a != b && a.valueType.Some? && b.valueType.Some? {
      EqualsSymmetric(a.valueType.value, b.valueType.value, otherEq);
    }
  }

  /** `equals` is transitive when it is on the other classes. */
  lemma {:induction false} EqualsTransitive<L>(a: SType<L>, b: SType<L>, c: SType<L>, otherEq: (L, L) -> bool)
    requires forall x, y, z :: otherEq(x, y) && otherEq(y, z) ==> otherEq(x, z)
    requires Equals(a, Some(b), otherEq) && Equals(b, Some(c), otherEq)
    ensures Equals(a, Some(c), otherEq)
    decreases a
  {
    if a.MapType? && a != b && b != c && a != c {
      var va, vb, vc := a.valueType, b.valueType, c.valueType;
      if va != vb && vb != vc && va != vc {
        EqualsTransitive(va.value, vb.value, vc.value, otherEq);
      }
    }
  }

  /** `equals` is an equivalence relation on schema types when it is one on the other classes. */
  lemma EqualsIsEquivalence<L(!new)>(otherEq: (L, L) -> bool)
    requires IsEquivalence(otherEq)
    ensures IsEquivalence((a: SType<L>, b: SType<L>) => Equals(a, Some(b), otherEq))
  {
    forall a: SType<L> ensures Equals(a, Some(a), otherEq) {
      EqualsReflexive(a, otherEq);
    }
    forall a: SType<L>, b: SType<L> | Equals(a, Some(b), otherEq) ensures Equals(b, Some(a), otherEq) {
      EqualsSymmetric(a, b, otherEq);
    }
    forall a: SType<L>, b: SType<L>, c: SType<L> | Equals(a, Some(b), otherEq) && Equals(b, Some(c), otherEq)
      ensures Equals(a, Some(c), otherEq)
    {
      EqualsTransitive(a, b, c, otherEq);
    }
  }

  /** Equal schema types have equal hash codes, when that holds of the other classes:
      the map hash reads exactly the components `equals` compares. */
  lemma {:induction false} EqualTypesHaveEqualHashes<L>(a: SType<L>, b: SType<L>, otherEq: (L, L) -> bool, otherHash: L -> int32)
    requires forall x, y :: otherEq(x, y) ==> otherHash(x) == otherHash(y)
    requires Equals(a, Some(b), otherEq)
    ensures HashCode(a, otherHash) == HashCode(b, otherHash)
    decreases a
  {
    if a.MapType? && a != b && a.valueType != b.valueType {
      EqualTypesHaveEqualHashes(a.valueType.value, b.valueType.value, otherEq, otherHash);
    }
  }
}
