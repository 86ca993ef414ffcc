/** The few facts about the Java platform that the model depends on:
    32-bit `int` arithmetic, class objects, and boxing of primitive classes. */
module JavaLang {

  /** Java's `int`. */
  newtype int32 = x: int | -0x8000_0000 <= x < 0x8000_0000

  /** `Integer.MAX_VALUE`. */
  const INT_MAX: int32 := 0x7fff_ffff

  /** Two's-complement wrap-around of an unbounded integer into an `int`,
      which is what a chain of Java `int` additions and multiplications computes. */
  function Wrap32(x: int): (r: int32)
    ensures -0x8000_0000 <= x < 0x8000_0000 ==> r as int == x
    ensures (x - r as int) % 0x1_0000_0000 == 0
  {
    ((x + 0x8000_0000) % 0x1_0000_0000 - 0x8000_0000) as int32
  }

  /** Wrapping in the middle of a computation changes nothing: it is the same
      to wrap `x` before scaling it by `c` and adding `y` as to wrap only the end. */
  lemma {:induction false} WrapInside(c: int, x: int, y: int)
    ensures Wrap32(c * Wrap32(x) as int + y) == Wrap32(c * x + y)
  {
    var m := 0x1_0000_0000;
    var w := Wrap32(x) as int;
    var q := (x - w) / m;
    assert x - w == q * m;
    var a, b := c * w + y, c * x + y;
    assert a == b - (c * q) * m by {
      assert c * (x - w) == (c * q) * m;
    }
    assert (a + 0x8000_0000) % m == (b + 0x8000_0000) % m by {
      ModSubMultiple(b + 0x8000_0000, c * q);
    }
  }

  /** Subtracting a multiple of 2^32 leaves the remainder modulo 2^32 unchanged. */
  lemma ModSubMultiple(x: int, k: int)
    ensures (x - k * 0x1_0000_0000) % 0x1_0000_0000 == x % 0x1_0000_0000
  {
  }

  /** `Objects.hash(values...)`, which is `Arrays.hashCode`: starting from 1,
      each value in turn is folded in as `31 * result + value` in `int` arithmetic. */
  function ObjectsHash(values: seq<int32>): int32
  {
    if values == [] then 1
    else Wrap32(31 * ObjectsHash(values[..|values| - 1]) as int + values[|values| - 1] as int)
  }

  /** `Objects.hash` of three values, wrapped once at the end instead of at every step. */
  lemma ObjectsHashOfThree(h: int32, lo: int32, hi: int32)
    ensures ObjectsHash([h, lo, hi]) == Wrap32(31 * (31 * (31 + h as int) + lo as int) + hi as int)
  {
    assert [h, lo, hi][..2] == [h, lo] && [h, lo][..1] == [h] && [h][..0] == [];
    var a := ObjectsHash([h]);
    assert ObjectsHash([h][..0]) == 1;
    assert a == Wrap32(31 + h as int);
    var ab := ObjectsHash([h, lo]);
    assert ab == Wrap32(31 * a as int + lo as int);
    WrapInside(31, 31 * a as int + lo as int, hi as int);
    WrapInside(961, 31 + h as int, 31 * lo as int + hi as int);
  }

  /** The primitive classes of Java (`int.class`, `boolean.class`, ...). */
  datatype PrimitiveKind = Boolean | Byte | Char | Short | Int | Long | Float | Double | Void

  /** A `java.lang.Class` object: a primitive class or a reference class named by its binary name. */
  datatype JClass = Primitive(kind: PrimitiveKind) | Named(name: string)

  /** The class of `java.util.function.BiConsumer`. */
  const BiConsumerClass: JClass := Named("java.util.function.BiConsumer")

  /** The wrapper class name Guava's `Primitives.wrap` gives each primitive class. */
  function WrapperName(k: PrimitiveKind): string
  {
    match k
    case Boolean => "java.lang.Boolean"
    case Byte => "java.lang.Byte"
    case Char => "java.lang.Character"
    case Short => "java.lang.Short"
    case Int => "java.lang.Integer"
    case Long => "java.lang.Long"
    case Float => "java.lang.Float"
    case Double => "java.lang.Double"
    case Void => "java.lang.Void"
  }

  /** `type.isPrimitive() ? Primitives.wrap(type) : type`: the class used for every type comparison. */
  function Box(c: JClass): (r: JClass)
    ensures r.Named?
    ensures c.Named? ==> r == c
    ensures c.Primitive? ==> r.name == WrapperName(c.kind)
  {
    if c.Primitive? then Named(WrapperName(c.kind)) else c
  }
}
