/**
 * The generated local-variable nodes. The write node is a small state
 * machine: its 4-bit `state` has one bit per specialization (int, char, long,
 * Object); a value that no active specialization accepts turns the bit for
 * its kind on, and the state decides whether the next execution takes the
 * int fast path or the generic path. The read node has no state.
 *
 * The pure part (which path an execution takes and the next state) is given
 * by functions; `WriteLocalVariableNode.Execute` is proved to follow them.
 */
module VariableNodes {
  import opened Syntax
  import opened Runtime

  /** A node's cost as the runtime reports it. */
  datatype NodeCost = Uninitialized | Monomorphic | Polymorphic

  /** The specializations of the write node's `execute(frame, value)`. */
  datatype Specialization = IntSpec | CharSpec | LongSpec | ObjectSpec

  /** The state bit of a specialization. */
  function Bit(sp: Specialization): bv4 {
    match sp
    case IntSpec => 0x1
    case CharSpec => 0x2
    case LongSpec => 0x4
    case ObjectSpec => 0x8
  }

  predicate Active(state: bv4, sp: Specialization) {
    state & Bit(sp) != 0
  }

  /** The specialization that `executeAndSpecialize` adds for a value: its own
      for Integer, Character and Long, the Object one for anything else,
      `null` included (it is an instance of no class). */
  function KindOf(v: Ref): Specialization {
    match v
    case Some(IntVal(_)) => IntSpec
    case Some(CharVal(_)) => CharSpec
    case Some(LongVal(_)) => LongSpec
    case _ => ObjectSpec
  }

  /** Number of active specializations. */
  function PopCount(state: bv4): nat {
    (if Active(state, IntSpec) then 1 else 0) + (if Active(state, CharSpec) then 1 else 0) +
    (if Active(state, LongSpec) then 1 else 0) + (if Active(state, ObjectSpec) then 1 else 0)
  }

  /** The test in `execute`: no char, long or Object bit and not uninitialized,
      which is exactly "only the int specialization is active". */
  function FastPath(state: bv4): (fast: bool)
    ensures fast <==> state == Bit(IntSpec)
  {
    state & 0xE == 0 && state != 0
  }

  /** The generic path's choice: the first active specialization that accepts
      the value, trying int, char, long and then Object. */
  function GenericMatch(state: bv4, v: Ref): (r: Option<Specialization>)
    ensures r.Some? ==> Active(state, r.value) && (r.value == KindOf(v) || r.value == ObjectSpec)
    ensures r.Some? && r.value == ObjectSpec ==> KindOf(v) == ObjectSpec || !Active(state, KindOf(v))
    ensures r.None? <==> !Active(state, KindOf(v)) && !Active(state, ObjectSpec)
  {
    if Active(state, IntSpec) && v.Some? && v.value.IntVal? then Some(IntSpec)
    else if Active(state, CharSpec) && v.Some? && v.value.CharVal? then Some(CharSpec)
    else if Active(state, LongSpec) && v.Some? && v.value.LongVal? then Some(LongSpec)
    else if Active(state, ObjectSpec) then Some(ObjectSpec)
    else None
  }

  /** The way one execution goes: the int fast path, the generic path through
      an active specialization, a new specialization, or a failed int cast on
      the fast path (the child is asked for an int and yields `null` or
      another box). */
  datatype Path = FastInt | Generic(sp: Specialization) | Specialized(added: Specialization) | FastCastFailure

  function PathOf(state: bv4, v: Ref): (p: Path)
    ensures p == FastInt || p == FastCastFailure <==> state == Bit(IntSpec)
    ensures p == FastInt ==> KindOf(v) == IntSpec
    ensures p.Specialized? ==> p.added == KindOf(v)
  {
    if FastPath(state) then (if CastToInt(v).Returned? then FastInt else FastCastFailure)
    else match GenericMatch(state, v)
      case Some(sp) => Generic(sp)
      case None => Specialized(KindOf(v))
  }

  /** The state after one execution. */
  function NextState(state: bv4, v: Ref): (s': bv4)
    ensures s' & state == state
    ensures s' == state || (s' == state | Bit(KindOf(v)) && !Active(state, KindOf(v)))
  {
    match PathOf(state, v)
    case Specialized(sp) => state | Bit(sp)
    case _ => state
  }

  /** A specialization turns on exactly one bit that was off. */
  lemma {:induction false} SpecializingAddsOneBit(state: bv4, v: Ref)
    requires PathOf(state, v).Specialized?
    ensures NextState(state, v) != state
    ensures PopCount(NextState(state, v)) == PopCount(state) + 1
  {
    var sp := KindOf(v);
    assert !Active(state, sp);
    match sp
    case IntSpec =>
      assert NextState(state, v) == state | 0x1;
    case CharSpec =>
      assert NextState(state, v) == state | 0x2;
    case LongSpec =>
      assert NextState(state, v) == state | 0x4;
    case ObjectSpec =>
      assert NextState(state, v) == state | 0x8;
  }

  /** Executing twice with the same value specializes at most once: the
      value that made the node specialize is accepted afterwards. */
  lemma {:induction false} NextStateIdempotent(state: bv4, v: Ref)
    ensures !PathOf(NextState(state, v), v).Specialized?
    ensures NextState(NextState(state, v), v) == NextState(state, v)
  {
    var s' := NextState(state, v);
    if s' != state {
      assert Active(s', KindOf(v)) by {
        assert s' == state | Bit(KindOf(v));
      }
    } else if PathOf(state, v).Specialized? {
      SpecializingAddsOneBit(state, v);
    }
  }

  /** Once the Object specialization is active every value is accepted, so
      the node never specializes again and its state is fixed. */
  lemma {:induction false} ObjectBitFixesState(state: bv4, v: Ref)
    requires Active(state, ObjectSpec)
    ensures !PathOf(state, v).Specialized? && NextState(state, v) == state
  {
  }

  /** `null` matches no `instanceof` test: on the generic path it is written
      through the Object specialization, turning that bit on if it was off,
      and on the fast path its int cast fails. */
  lemma {:induction false} NullIsAnObject(state: bv4)
    ensures !FastPath(state) ==> NextState(state, None) == state | Bit(ObjectSpec)
    ensures !FastPath(state) && !Active(state, ObjectSpec) ==> PathOf(state, None) == Specialized(ObjectSpec)
    ensures FastPath(state) ==> PathOf(state, None) == FastCastFailure && NextState(state, None) == state
  {
  }

  /** The state after executing with each of `vs` in turn. */
  function Run(state: bv4, vs: seq<Ref>): bv4
    decreases |vs|
  {
    if vs == [] then state else Run(NextState(state, vs[0]), vs[1..])
  }

  /** How many of those executions specialized the node. */
  function Respecializations(state: bv4, vs: seq<Ref>): nat
    decreases |vs|
  {
    if vs == [] then 0
    else (if PathOf(state, vs[0]).Specialized? then 1 else 0) + Respecializations(NextState(state, vs[0]), vs[1..])
  }

  /** Over any run the state only gains bits, and every specialization adds
      one, so a node specializes at most four times in its life. */
  lemma {:induction false} RunOnlyGainsBits(state: bv4, vs: seq<Ref>)
    ensures Run(state, vs) & state == state
    ensures Respecializations(state, vs) == PopCount(Run(state, vs)) - PopCount(state)
    ensures Respecializations(state, vs) <= 4
    decreases |vs|
  {
    if vs != [] {
      var s' := NextState(state, vs[0]);
      RunOnlyGainsBits(s', vs[1..]);
      if PathOf(state, vs[0]).Specialized? {
        SpecializingAddsOneBit(state, vs[0]);
      }
      assert Run(state, vs) & s' == s';
      assert s' & state == state;
    }
  }

  /** `MJWriteLocalVariableNodeGen`: writes the value its child expression
      yields into a fixed slot. The child is evaluated by the caller; `v` is
      what its `executeGeneric` yields (possibly `null`), and its
      `executeI32` is the int cast of that value. */
  class WriteLocalVariableNode {
    const slot: Slot
    var state: bv4

    /** `create(value, slot)`: a fresh node has no active specialization. */
    constructor(slot: Slot)
      ensures this.slot == slot && state == 0
    {
      this.slot := slot;
      state := 0;
    }

    /** `getCost()`: uninitialized with no specialization, monomorphic with
        one, polymorphic with more; `state & (state - 1)` clears the lowest
        set bit. */
    function GetCost(): (c: NodeCost)
      reads this
      ensures c == Uninitialized <==> PopCount(state) == 0
      ensures c == Monomorphic <==> PopCount(state) == 1
      ensures c == Polymorphic <==> PopCount(state) >= 2
    {
      var state := state;
      if state == 0 then Uninitialized
      else if state & (state - 1) == 0 then Monomorphic
      else Polymorphic
    }

    /** `execute(frame)`: the fast path when only the int bit is active, the
        generic path otherwise. The value is written to the slot and
        returned, and a read node of the slot then yields it, unless the fast
        path's int cast fails: NullPointerException on `null`,
        ClassCastException on another box. */
    method Execute(frame: Frame, v: Ref) returns (r: Outcome<Ref>)
      modifies this, frame
      ensures state == NextState(old(state), v)
      ensures PathOf(old(state), v) == FastCastFailure ==>
                r == Thrown(if v == None then NullPointer else ClassCast) && frame.slots == old(frame.slots)
      ensures PathOf(old(state), v) != FastCastFailure ==>
                r == Returned(v) && frame.slots == old(frame.slots)[slot := v] &&
                ReadLocalVariableNode(slot).ExecuteGeneric(frame) == v
    {
      var state := this.state;
      if state & 0xE == 0 && state != 0 {
        r := ExecuteInt0(frame, v, state);
      } else {
        r := ExecuteGeneric1(frame, v, state);
      }
    }

    /** `execute_int0`: ask the child for an int and write it. */
    method ExecuteInt0(frame: Frame, v: Ref, state: bv4) returns (r: Outcome<Ref>)
      requires state == this.state && FastPath(state)
      modifies frame
      ensures KindOf(v) == IntSpec ==> r == Returned(v) && frame.slots == old(frame.slots)[slot := v]
      ensures v == None ==> r == Thrown(NullPointer) && frame.slots == old(frame.slots)
      ensures v != None && KindOf(v) != IntSpec ==> r == Thrown(ClassCast) && frame.slots == old(frame.slots)
    {
      match CastToInt(v)
      case Thrown(e) =>
        return Thrown(e);
      case Returned(i) =>
        assert state & 0x1 != 0;
        r := Write(frame, Some(IntVal(i)));
    }

    /** `execute_generic1`: write through the first active specialization
        that accepts the value; with none, specialize. */
    method ExecuteGeneric1(frame: Frame, v: Ref, state: bv4) returns (r: Outcome<Ref>)
      requires state == this.state && !FastPath(state)
      modifies this, frame
      ensures GenericMatch(old(this.state), v).Some? ==> this.state == old(this.state)
      ensures GenericMatch(old(this.state), v).None? ==> this.state == old(this.state) | Bit(KindOf(v))
      ensures r == Returned(v) && frame.slots == old(frame.slots)[slot := v]
    {
      if state & 0x1 != 0 && v.Some? && v.value.IntVal? {
        r := Write(frame, v);
        return;
      }
      if state & 0x2 != 0 && v.Some? && v.value.CharVal? {
        r := Write(frame, v);
        return;
      }
      if state & 0x4 != 0 && v.Some? && v.value.LongVal? {
        r := Write(frame, v);
        return;
      }
      if state & 0x8 != 0 {
        r := Write(frame, v);
        return;
      }
      r := ExecuteAndSpecialize(frame, v);
    }

    /** `executeAndSpecialize`: turn on the bit for the value's kind, then
        write the value. */
    method ExecuteAndSpecialize(frame: Frame, v: Ref) returns (r: Outcome<Ref>)
      modifies this, frame
      ensures this.state == old(this.state) | Bit(KindOf(v))
      ensures r == Returned(v) && frame.slots == old(frame.slots)[slot := v]
    {
      var state := this.state;
      if v.Some? && v.value.IntVal? {
        this.state := state | 0x1;
        r := Write(frame, v);
        return;
      }
      if v.Some? && v.value.CharVal? {
        this.state := state | 0x2;
        r := Write(frame, v);
        return;
      }
      if v.Some? && v.value.LongVal? {
        this.state := state | 0x4;
        r := Write(frame, v);
        return;
      }
      this.state := state | 0x8;
      r := Write(frame, v);
    }

    /** The inherited `execute(frame, value)`: store the value in the slot
        and return it. */
    method Write(frame: Frame, v: Ref) returns (r: Outcome<Ref>)
      modifies frame
      ensures r == Returned(v) && frame.slots == old(frame.slots)[slot := v]
    {
      frame.slots := frame.slots[slot := v];
      r := Returned(v);
    }
  }

  /** `MJReadLocalVariableNodeGen`: reads a fixed slot. */
  datatype ReadLocalVariableNode = ReadLocalVariableNode(slot: Slot) {
    /** `executeGeneric`: the inherited `readVariable`, the slot's value, or
        null when nothing was written to it. */
    function ExecuteGeneric(frame: Frame): (r: Ref)
      reads frame
      ensures r.Some? <==> slot in frame.slots && frame.slots[slot].Some?
      ensures r.Some? ==> r == frame.slots[slot]
    {
      if slot in frame.slots then frame.slots[slot] else None
    }

    /** `executeI32`: the int cast of `executeGeneric`. */
    function ExecuteI32(frame: Frame): (r: Outcome<Int32>)
      reads frame
      ensures r.Returned? <==> slot in frame.slots && frame.slots[slot].Some? && frame.slots[slot].value.IntVal?
      ensures r.Returned? ==> frame.slots[slot] == Some(IntVal(r.value))
      ensures r == Thrown(NullPointer) <==> slot !in frame.slots || frame.slots[slot] == None
    {
      CastToInt(ExecuteGeneric(frame))
    }

    /** `executeBool`: the boolean cast of `executeGeneric`. */
    function ExecuteBool(frame: Frame): (r: Outcome<bool>)
      reads frame
      ensures r.Returned? <==> slot in frame.slots && frame.slots[slot].Some? && frame.slots[slot].value.BoolVal?
      ensures r.Returned? ==> frame.slots[slot] == Some(BoolVal(r.value))
      ensures r == Thrown(NullPointer) <==> slot !in frame.slots || frame.slots[slot] == None
    {
      CastToBool(ExecuteGeneric(frame))
    }

    /** `getCost`: a read node is always monomorphic. */
    function GetCost(): (c: NodeCost)
      ensures c == Monomorphic
    {
      Monomorphic
    }
  }
}
