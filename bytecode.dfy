/**
 * The instructions the engine emits or looks for, the load and return families chosen from
 * a type (the `*load` and `*return` instructions of section 6.5 of the Java Virtual Machine
 * Specification, which ASM picks with `Type.getOpcode`), and a count of operand-stack values
 * along a straight-line instruction sequence.
 */
module Bytecode {
  import opened Wrappers
  import opened Descriptors

  /** Which member of a load or return family: `i`, `l`, `f`, `d` or `a`. */
  datatype ValueKind = IntKind | LongKind | FloatKind | DoubleKind | RefKind

  datatype InvokeKind = InvokeVirtual | InvokeSpecial | InvokeStatic | InvokeInterface

  datatype Insn =
    | Load(kind: ValueKind, slot: nat)
    | New(typeName: string)
    | Dup
    | Invoke(op: InvokeKind, owner: string, name: string, desc: MethodDesc, isInterface: bool)
    | GetField(fieldOwner: string, fieldName: string, fieldDesc: FieldType)
    | PutField(fieldOwner: string, fieldName: string, fieldDesc: FieldType)
    | CheckCast(castType: string)
    | Return(retKind: ValueKind)
    | ReturnVoid
    | Other(opcode: nat)

  /** `boolean`, `byte`, `char`, `short` and `int` share the `i` instructions; arrays and objects the `a` ones. */
  function KindOf(t: FieldType): ValueKind {
    match t
    case Base(b) =>
      (match b
       case Long => LongKind
       case Float => FloatKind
       case Double => DoubleKind
       case _ => IntKind)
    case _ => RefKind
  }

  /** `Type.getReturnType(desc).getOpcode(IRETURN)`: `return` for void, else the typed return. */
  function ReturnInsn(r: ReturnType): Insn {
    match r
    case Void => ReturnVoid
    case Value(t) => Return(KindOf(t))
  }

  /**
   * Loads of the arguments `ts` into consecutive local slots starting at `slot`, each with
   * the load of its own kind, the next slot moving on by the argument's size.
   */
  function ArgLoads(ts: seq<FieldType>, slot: nat): seq<Insn> {
    if ts == [] then [] else [Load(KindOf(ts[0]), slot)] + ArgLoads(ts[1..], slot + Size(ts[0]))
  }

  /** The k-th argument is loaded with its own kind from `slot` plus the sizes of the arguments before it. */
  lemma {:induction false} ArgLoadsAt(ts: seq<FieldType>, slot: nat, k: nat)
    requires k < |ts|
    ensures |ArgLoads(ts, slot)| == |ts|
    ensures ArgLoads(ts, slot)[k] == Load(KindOf(ts[k]), slot + SlotSum(ts[..k]))
  {
    ArgLoadsLength(ts, slot);
    if k > 0 {
      ArgLoadsAt(ts[1..], slot + Size(ts[0]), k - 1);
      assert ts[..k][1..] == ts[1..][..k - 1];
    }
  }

  lemma {:induction false} ArgLoadsLength(ts: seq<FieldType>, slot: nat)
    ensures |ArgLoads(ts, slot)| == |ts|
  {
    if ts != [] {
      ArgLoadsLength(ts[1..], slot + Size(ts[0]));
    }
  }

  // ----------------------------------------------------------- stack count

  /** Values an instruction takes off the operand stack. */
  function Pops(i: Insn): nat {
    match i
    case Load(_, _) => 0
    case New(_) => 0
    case Dup => 1
    case Invoke(op, _, _, d, _) => |d.args| + (if op == InvokeStatic then 0 else 1)
    case GetField(_, _, _) => 1
    case PutField(_, _, _) => 2
    case CheckCast(_) => 1
    case Return(_) => 1
    case ReturnVoid => 0
    case Other(_) => 0
  }

  /** Values an instruction leaves on the operand stack. */
  function Pushes(i: Insn): nat {
    match i
    case Load(_, _) => 1
    case New(_) => 1
    case Dup => 2
    case Invoke(_, _, _, d, _) => if d.ret == Void then 0 else 1
    case GetField(_, _, _) => 1
    case PutField(_, _, _) => 0
    case CheckCast(_) => 1
    case Return(_) => 0
    case ReturnVoid => 0
    case Other(_) => 0
  }

  /**
   * The number of operand-stack values after running `insns` in order from `depth` values,
   * or None when an instruction finds fewer operands than it takes, or is one whose effect
   * this model does not know.
   */
  function StackAfter(insns: seq<Insn>, depth: nat): Option<nat> {
    if insns == [] then Some(depth)
    else if insns[0].Other? || depth < Pops(insns[0]) then None
    else StackAfter(insns[1..], depth - Pops(insns[0]) + Pushes(insns[0]))
  }

  /** Every instruction finds its operands and nothing is left behind. */
  predicate WellStacked(insns: seq<Insn>) {
    StackAfter(insns, 0) == Some(0)
  }

  lemma {:induction false} StackAfterJoin(a: seq<Insn>, b: seq<Insn>, depth: nat)
    ensures StackAfter(a + b, depth) ==
            match StackAfter(a, depth)
            case None => None
            case Some(d) => StackAfter(b, d)
  {
    if a != [] {
      assert (a + b)[1..] == a[1..] + b;
      if !(a[0].Other? || depth < Pops(a[0])) {
        StackAfterJoin(a[1..], b, depth - Pops(a[0]) + Pushes(a[0]));
      }
    } else {
      assert a + b == b;
    }
  }

  /** A call followed by the return of its result takes the receiver (unless static) and the arguments, and leaves nothing. */
  lemma CallReturnStack(op: InvokeKind, owner: string, name: string, d: MethodDesc, isInterface: bool, depth: nat)
    ensures var k := |d.args| + (if op == InvokeStatic then 0 else 1);
            StackAfter([Invoke(op, owner, name, d, isInterface), ReturnInsn(d.ret)], depth) ==
            if depth < k then None else Some(depth - k)
  {
    var s := [Invoke(op, owner, name, d, isInterface), ReturnInsn(d.ret)];
    var k := |d.args| + (if op == InvokeStatic then 0 else 1);
    if depth >= k {
      var push := if d.ret == Void then 0 else 1;
      assert s[1..] == [ReturnInsn(d.ret)];
      assert StackAfter(s, depth) == StackAfter(s[1..], depth - k + push);
      assert StackAfter(s[1..][1..], depth - k) == Some(depth - k);
    }
  }

  /** Argument loads push one value per argument. */
  lemma {:induction false} StackAfterArgLoads(ts: seq<FieldType>, slot: nat, depth: nat)
    ensures StackAfter(ArgLoads(ts, slot), depth) == Some(depth + |ts|)
  {
    if ts != [] {
      StackAfterArgLoads(ts[1..], slot + Size(ts[0]), depth + 1);
    }
  }
}
