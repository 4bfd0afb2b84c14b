/**
 * The parameter-read node. It is built with the parameter's position and its
 * type descriptor, stores the position plus one, and reads that entry of the
 * frame's argument array; entry 0 of the array is not a parameter.
 */
module ParameterNode {
  import opened Runtime

  /** Type descriptors from the type table; `ConstantIntDescriptor` is the one
      singleton tag the model names, every other descriptor is known by name. */
  datatype TypeDescriptor = ConstantIntDescriptor | NamedDescriptor(name: string)

  /** The Java `int` addition `x + 1`, wrapping at 2^31. */
  function Increment(x: Int32): (r: Int32)
    ensures x < 0x7fff_ffff ==> r as int == x as int + 1
    ensures x == 0x7fff_ffff ==> r == -0x8000_0000
  {
    if x == 0x7fff_ffff then -0x8000_0000 else x + 1
  }

  /** `MJReadParameterNode`: its final fields. */
  datatype ReadParameterNode = ReadParameterNode(index: Int32, descriptor: TypeDescriptor) {
    /** `getType()`. */
    function GetType(): TypeDescriptor {
      descriptor
    }

    /** `executeGeneric(frame)`: the argument at the stored index, or
        ArrayIndexOutOfBoundsException outside the argument array. */
    function ExecuteGeneric(frame: Frame): (r: Outcome<Ref>)
      ensures r.Returned? <==> 0 <= index as int < |frame.arguments|
      ensures r.Returned? ==> r.value == frame.arguments[index]
      ensures r.Thrown? ==> r.exception == IndexOutOfBounds
    {
      if 0 <= index as int < |frame.arguments| then Returned(frame.arguments[index]) else Thrown(IndexOutOfBounds)
    }
  }

  /** The constructor `MJReadParameterNode(index, typeDescriptor)`. */
  function NewReadParameterNode(index: Int32, typeDescriptor: TypeDescriptor): (n: ReadParameterNode)
    ensures n.GetType() == typeDescriptor
    ensures n.index == Increment(index)
  {
    ReadParameterNode(Increment(index), typeDescriptor)
  }

  /** The node built for parameter `i` reads argument `i + 1`, and fails
      exactly when the argument array has no more than `i + 1` entries. */
  lemma {:induction false} ReadsNextArgument(i: Int32, t: TypeDescriptor, frame: Frame)
    requires 0 <= i < 0x7fff_ffff
    ensures NewReadParameterNode(i, t).ExecuteGeneric(frame) ==
            if i as int + 1 < |frame.arguments| then Returned(frame.arguments[i as int + 1]) else Thrown(IndexOutOfBounds)
  {
  }

  /** No parameter node built for a position from 0 upwards reads argument 0,
      and the last Java `int` position wraps to an index no array has. */
  lemma {:induction false} FirstArgumentNeverRead(i: Int32, t: TypeDescriptor, frame: Frame)
    requires 0 <= i
    ensures NewReadParameterNode(i, t).index != 0
    ensures i == 0x7fff_ffff ==> NewReadParameterNode(i, t).ExecuteGeneric(frame) == Thrown(IndexOutOfBounds)
  {
  }
}
