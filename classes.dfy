/**
 * The editable form of a class that ASM's tree API gives the engine: a `ClassNode` whose
 * `fields` and `methods` lists the rewriters change in place, holding field and method
 * records. A `ClassFile` value stands for the bytes of a class: reading them builds a fresh
 * `ClassNode`, and writing the node back takes a snapshot of its state.
 */
module Classes {
  import opened Wrappers
  import opened Descriptors
  import opened Bytecode

  // Access flags (section 4.6 of the Java Virtual Machine Specification).
  const ACC_PUBLIC: bv32 := 0x0001
  const ACC_PRIVATE: bv32 := 0x0002
  const ACC_STATIC: bv32 := 0x0008
  const ACC_NATIVE: bv32 := 0x0100
  const ACC_SYNTHETIC: bv32 := 0x1000

  datatype FieldNode = FieldNode(access: bv32, name: string, desc: FieldType, signature: Option<string>, value: Option<string>)

  datatype TryCatchBlock = TryCatchBlock(start: nat, end: nat, handler: nat, catchType: Option<string>)

  datatype LocalVariable = LocalVariable(name: string, desc: string, signature: Option<string>, start: nat, end: nat, index: nat)

  /** A method: `localVariables == None` is the `null` the rewriters store there. */
  datatype MethodNode = MethodNode(
    access: bv32,
    name: string,
    desc: MethodDesc,
    signature: Option<string>,
    exceptions: Option<seq<string>>,
    instructions: seq<Insn>,
    tryCatchBlocks: seq<TryCatchBlock>,
    localVariables: Option<seq<LocalVariable>>)

  /** A parsed class; `superName == None` only for `java/lang/Object`. */
  datatype ClassFile = ClassFile(
    access: bv32,
    name: string,
    superName: Option<string>,
    interfaces: seq<string>,
    fields: seq<FieldNode>,
    methods: seq<MethodNode>)

  /** The bytes handed to the class-loading hook: a class the reader accepts, or input it rejects. */
  datatype ClassBytes = Wellformed(file: ClassFile) | Malformed

  /** `method.name + method.desc`, the key both rewriters look methods up by. */
  function Key(m: MethodNode): string {
    m.name + Render(m.desc)
  }

  class ClassNode {
    var access: bv32
    var name: string
    var superName: Option<string>
    var interfaces: seq<string>
    var fields: seq<FieldNode>
    var methods: seq<MethodNode>

    /** `new ClassReader(bytes).accept(node, 0)`: the node holds the class as read. */
    constructor Read(file: ClassFile)
      ensures Snapshot() == file
    {
      access := file.access;
      name := file.name;
      superName := file.superName;
      interfaces := file.interfaces;
      fields := file.fields;
      methods := file.methods;
    }

    /** What `node.accept(writer)` serialises: the node's current state. */
    function Snapshot(): ClassFile
      reads this
    {
      ClassFile(access, name, superName, interfaces, fields, methods)
    }
  }
}
