/**
 * What the executable nodes work on at run time: boxed Java values, the frame
 * a function body runs in (its argument array and its local-variable slots),
 * and the outcome of a node execution, which is a value or a Java exception.
 */
module Runtime {
  import opened Syntax

  /** A Java `int`. */
  newtype Int32 = x: int | -0x8000_0000 <= x < 0x8000_0000

  /** A Java `long`. */
  newtype Int64 = x: int | -0x8000_0000_0000_0000 <= x < 0x8000_0000_0000_0000

  /** A boxed runtime value: Integer, Character, Long, Boolean, or any other
      object, known only by its identity. */
  datatype Val =
    | IntVal(i: Int32)
    | CharVal(c: Char16)
    | LongVal(l: Int64)
    | BoolVal(b: bool)
    | ObjectVal(id: nat)

  /** A Java reference to a boxed value: `None` is `null`. */
  type Ref = Option<Val>

  /** A frame slot, known by its index in the frame descriptor. */
  type Slot = nat

  /** The exceptions a node execution can raise here. */
  datatype JavaException = ClassCast | NullPointer | IndexOutOfBounds

  /** What a node execution produces: a value, or the exception it throws. */
  datatype Outcome<+T> = Returned(value: T) | Thrown(exception: JavaException)

  /** A `VirtualFrame`: the call's argument array, which nothing here
      changes, and the local-variable slots, which write nodes update in place.
      Both hold references, so either may be `null`; a slot that was never
      written reads as `null` too. */
  class Frame {
    const arguments: seq<Ref>
    var slots: map<Slot, Ref>

    constructor(arguments: seq<Ref>)
      ensures this.arguments == arguments && slots == map[]
    {
      this.arguments := arguments;
      slots := map[];
    }
  }

  /** The `(int)` cast of a boxed value: unboxing null throws
      NullPointerException, any other box than Integer ClassCastException. */
  function CastToInt(v: Ref): (r: Outcome<Int32>)
    ensures r.Returned? <==> v.Some? && v.value.IntVal?
    ensures r.Returned? ==> v == Some(IntVal(r.value))
    ensures v.None? ==> r == Thrown(NullPointer)
  {
    match v
    case None => Thrown(NullPointer)
    case Some(IntVal(i)) => Returned(i)
    case Some(_) => Thrown(ClassCast)
  }

  /** The `(boolean)` cast of a boxed value. */
  function CastToBool(v: Ref): (r: Outcome<bool>)
    ensures r.Returned? <==> v.Some? && v.value.BoolVal?
    ensures r.Returned? ==> v == Some(BoolVal(r.value))
    ensures v.None? ==> r == Thrown(NullPointer)
  {
    match v
    case None => Thrown(NullPointer)
    case Some(BoolVal(b)) => Returned(b)
    case Some(_) => Thrown(ClassCast)
  }
}
