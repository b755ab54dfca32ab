/**
 * What the agent's class-file transformer does to a class, as functions on class values.
 *
 * A target class gets a private field holding an instance of the mixin, every constructor
 * creates that instance right after its superclass constructor returns, every method whose
 * name and descriptor is an overwrite key gets a body that delegates to the mixin, and a
 * synthetic copy of each such method's previous body is appended under a new name. A mixin
 * class gets, for every `@Original` stub, a body that calls that copy on the target.
 */
module Engine {
  import opened Wrappers
  import opened Strings
  import opened Hashing
  import opened Descriptors
  import opened Bytecode
  import opened Classes
  import opened Mappings

  /** `Type.getInternalName` of a class, or `replace('.', '/')` of its binary name. */
  function InternalName(binary: string): string {
    Replace(binary, '.', '/')
  }

  // ----------------------------------------------------------- mixin field

  /** `"__mixin$" + mixinClass.getName().replace('.', '$')`. */
  function MixinFieldName(mixinClass: string): string {
    "__mixin$" + Replace(mixinClass, '.', '$')
  }

  /** `Type.getDescriptor(mixinClass)`. */
  function MixinType(mixinClass: string): FieldType {
    Object(InternalName(mixinClass))
  }

  /** The added field: private, of the mixin's type, no signature, no constant value. */
  function MixinField(mixinClass: string): FieldNode {
    FieldNode(ACC_PRIVATE, MixinFieldName(mixinClass), MixinType(mixinClass), None, None)
  }

  predicate HasFieldNamed(fs: seq<FieldNode>, n: string) {
    exists i :: 0 <= i < |fs| && fs[i].name == n
  }

  /** How many fields carry the name `n`. */
  function CountNamed(fs: seq<FieldNode>, n: string): nat {
    if fs == [] then 0 else CountNamed(fs[..|fs| - 1], n) + (if fs[|fs| - 1].name == n then 1 else 0)
  }

  /** The field list after the "add mixin field" step: the field is appended only when no field has its name. */
  function WithMixinField(fs: seq<FieldNode>, mixinClass: string): seq<FieldNode> {
    if HasFieldNamed(fs, MixinFieldName(mixinClass)) then fs else fs + [MixinField(mixinClass)]
  }

  // --------------------------------------------------- constructor patching

  /** `INVOKESPECIAL <superName>.<init>`; a class without a superclass has no such call. */
  predicate IsSuperInit(i: Insn, superName: Option<string>) {
    i.Invoke? && i.op == InvokeSpecial && i.name == "<init>" && superName == Some(i.owner)
  }

  /** The position of the first superclass-constructor call, if there is one. */
  function SuperInitIndex(insns: seq<Insn>, superName: Option<string>): (r: Option<nat>)
    ensures r.Some? ==> r.value < |insns| && IsSuperInit(insns[r.value], superName)
    ensures r.Some? ==> forall k :: 0 <= k < r.value ==> !IsSuperInit(insns[k], superName)
    ensures r.None? ==> forall k :: 0 <= k < |insns| ==> !IsSuperInit(insns[k], superName)
  {
    if insns == [] then None
    else if IsSuperInit(insns[0], superName) then Some(0)
    else
      match SuperInitIndex(insns[1..], superName)
      case None =>
        assert forall k :: 0 < k < |insns| ==> insns[k] == insns[1..][k - 1];
        None
      case Some(k) =>
        assert forall j :: 0 < j <= k ==> insns[j] == insns[1..][j - 1];
        Some(k + 1)
  }

  /** `this.<field> = new Mixin();` as the constructor patch emits it. */
  function InitSequence(ownerName: string, mixinClass: string): seq<Insn> {
    var mixin := InternalName(mixinClass);
    [ Load(RefKind, 0),
      New(mixin),
      Dup,
      Invoke(InvokeSpecial, mixin, "<init>", MethodDesc([], Void), false),
      PutField(ownerName, MixinFieldName(mixinClass), MixinType(mixinClass)) ]
  }

  /** A method the patch step accepts: anything but a constructor, or a constructor calling its superclass's. */
  predicate Patchable(m: MethodNode, superName: Option<string>) {
    m.name == "<init>" ==> SuperInitIndex(m.instructions, superName).Some?
  }

  /** A constructor with the mixin's creation inserted right after its first superclass-constructor call. */
  function Patch(m: MethodNode, ownerName: string, superName: Option<string>, mixinClass: string): MethodNode
    requires Patchable(m, superName)
  {
    if m.name != "<init>" then m
    else
      var k := SuperInitIndex(m.instructions, superName).value;
      m.(instructions := m.instructions[..k + 1] + InitSequence(ownerName, mixinClass) + m.instructions[k + 1..])
  }

  /** All methods patched, or None when a constructor has no superclass-constructor call (the step throws). */
  function PatchAll(ms: seq<MethodNode>, ownerName: string, superName: Option<string>, mixinClass: string): Option<seq<MethodNode>> {
    if forall i :: 0 <= i < |ms| ==> Patchable(ms[i], superName) then
      Some(seq(|ms|, i requires 0 <= i < |ms| => Patch(ms[i], ownerName, superName, mixinClass)))
    else None
  }

  // -------------------------------------------------------------- overwrites

  /**
   * The body of an overwritten method: `this.<field>.<handler>(this, arg1, ..., argN)` and a
   * return of the handler's return kind, the arguments loaded from slot 1 on.
   */
  function DelegationBody(ownerName: string, field: string, h: Handler, targetDesc: MethodDesc): seq<Insn> {
    [Load(RefKind, 0), GetField(ownerName, field, Object(InternalName(h.owner))), Load(RefKind, 0)]
    + ArgLoads(targetDesc.args, 1)
    + [Invoke(InvokeVirtual, InternalName(h.owner), h.name, h.desc, false), ReturnInsn(h.desc.ret)]
  }

  /** The method after `applyOverwrite`: the delegating body, no handlers, no local-variable table. */
  function Overwritten(m: MethodNode, ownerName: string, field: string, h: Handler): MethodNode {
    m.(instructions := DelegationBody(ownerName, field, h, m.desc), tryCatchBlocks := [], localVariables := None)
  }

  /** `"__original$" + name + "$" + Integer.toHexString(desc.hashCode())`. */
  function OriginalName(name: string, desc: MethodDesc): string {
    "__original$" + name + "$" + ToHexString(HashCode(Render(desc)))
  }

  /** The clone's access: public and synthetic, and static when the original is. */
  function CloneAccess(access: bv32): (r: bv32)
    ensures r & ACC_PUBLIC != 0 && r & ACC_SYNTHETIC != 0
    ensures (r & ACC_STATIC != 0) == (access & ACC_STATIC != 0)
    ensures r & !(ACC_PUBLIC | ACC_STATIC | ACC_SYNTHETIC) == 0
  {
    if access & ACC_STATIC != 0 then ACC_PUBLIC | ACC_STATIC | ACC_SYNTHETIC else ACC_PUBLIC | ACC_SYNTHETIC
  }

  /** `cloneAsOriginal`: the method as it stands, renamed, with the clone's access. */
  function CloneAsOriginal(m: MethodNode): MethodNode {
    m.(access := CloneAccess(m.access), name := OriginalName(m.name, m.desc))
  }

  /** One method after the overwrite step. */
  function RewriteOne(m: MethodNode, ownerName: string, field: string, overwrites: map<string, Handler>): MethodNode {
    if Key(m) in overwrites then Overwritten(m, ownerName, field, overwrites[Key(m)]) else m
  }

  function RewriteAll(ms: seq<MethodNode>, ownerName: string, field: string, overwrites: map<string, Handler>): seq<MethodNode> {
    seq(|ms|, i requires 0 <= i < |ms| => RewriteOne(ms[i], ownerName, field, overwrites))
  }

  /** The clones the overwrite step collects, in method order. */
  function Clones(ms: seq<MethodNode>, overwrites: map<string, Handler>): seq<MethodNode> {
    if ms == [] then []
    else
      var last := ms[|ms| - 1];
      Clones(ms[..|ms| - 1], overwrites) + (if Key(last) in overwrites then [CloneAsOriginal(last)] else [])
  }

  /** The clones of a longer prefix: those of the shorter one, and the next method's when it is keyed. */
  lemma ClonesSnoc(ms: seq<MethodNode>, i: nat, overwrites: map<string, Handler>)
    requires i < |ms|
    ensures Clones(ms[..i + 1], overwrites) ==
            Clones(ms[..i], overwrites) + (if Key(ms[i]) in overwrites then [CloneAsOriginal(ms[i])] else [])
  {
    assert ms[..i + 1][..i] == ms[..i];
  }

  /** `transformTarget`: None when a constructor cannot be patched (the exception the hook swallows). */
  function TargetRewrite(cf: ClassFile, mapping: MixinMapping): Option<ClassFile> {
    match PatchAll(cf.methods, cf.name, cf.superName, mapping.mixinClass)
    case None => None
    case Some(patched) =>
      var field := MixinFieldName(mapping.mixinClass);
      Some(cf.(fields := WithMixinField(cf.fields, mapping.mixinClass),
               methods := RewriteAll(patched, cf.name, field, mapping.overwrites) + Clones(patched, mapping.overwrites)))
  }

  // ------------------------------------------------------------ mixin stubs

  /**
   * The `@Original` stub body as the engine writes it: load self, cast it to the target,
   * invoke the target's clone with the self-stripped descriptor, return its value. Only self
   * is loaded, whatever the descriptor's arguments.
   */
  function StubBodyAsWritten(targetClass: string, value: string, td: MethodDesc): seq<Insn> {
    var target := InternalName(targetClass);
    [ Load(RefKind, 1),
      CheckCast(target),
      Invoke(InvokeVirtual, target, OriginalName(value, td), td, false),
      ReturnInsn(td.ret) ]
  }

  /** The stub body with the stub's remaining parameters passed on, loaded from slot 2 (slot 1 is self). */
  function StubBody(targetClass: string, value: string, td: MethodDesc): seq<Insn> {
    var target := InternalName(targetClass);
    [Load(RefKind, 1), CheckCast(target)]
    + ArgLoads(td.args, 2)
    + [Invoke(InvokeVirtual, target, OriginalName(value, td), td, false), ReturnInsn(td.ret)]
  }

  /** A keyed stub the engine rejects: it declares no self parameter. */
  predicate StubRejected(m: MethodNode, originals: map<string, string>) {
    Key(m) in originals && |m.desc.args| == 0
  }

  /** A stub after rewriting: no longer native, the calling body, no handlers, no local-variable table. */
  function Stub(m: MethodNode, targetClass: string, value: string): MethodNode {
    m.(access := m.access & !ACC_NATIVE,
       instructions := StubBody(targetClass, value, TargetDescriptor(m.desc)),
       tryCatchBlocks := [],
       localVariables := None)
  }

  function StubOne(m: MethodNode, mapping: MixinMapping): MethodNode {
    if Key(m) in mapping.originals then Stub(m, mapping.targetClass, mapping.originals[Key(m)]) else m
  }

  /** `transformMixin`: None when a keyed stub has no parameter. */
  function MixinRewrite(cf: ClassFile, mapping: MixinMapping): Option<ClassFile> {
    if exists i :: 0 <= i < |cf.methods| && StubRejected(cf.methods[i], mapping.originals) then None
    else Some(cf.(methods := seq(|cf.methods|, i requires 0 <= i < |cf.methods| => StubOne(cf.methods[i], mapping))))
  }

  /** A stub as the engine writes it: the rewritten stub with the body that loads only self. */
  function StubAsWritten(m: MethodNode, targetClass: string, value: string): MethodNode {
    Stub(m, targetClass, value).(instructions := StubBodyAsWritten(targetClass, value, TargetDescriptor(m.desc)))
  }

  function StubOneAsWritten(m: MethodNode, mapping: MixinMapping): MethodNode {
    if Key(m) in mapping.originals then StubAsWritten(m, mapping.targetClass, mapping.originals[Key(m)]) else m
  }

  /** `transformMixin` with the stub body it writes. */
  function MixinRewriteAsWritten(cf: ClassFile, mapping: MixinMapping): Option<ClassFile> {
    if exists i :: 0 <= i < |cf.methods| && StubRejected(cf.methods[i], mapping.originals) then None
    else Some(cf.(methods := seq(|cf.methods|, i requires 0 <= i < |cf.methods| => StubOneAsWritten(cf.methods[i], mapping))))
  }

  // --------------------------------------------------------------- dispatch

  /** A map filled by `put` in list order: for a repeated key the later mapping stays. */
  function IndexBy<T>(ms: seq<T>, key: T -> string): map<string, T> {
    if ms == [] then map[]
    else IndexBy(ms[..|ms| - 1], key)[key(ms[|ms| - 1]) := ms[|ms| - 1]]
  }

  function TargetKey(m: MixinMapping): string {
    InternalName(m.targetClass)
  }

  function MixinKey(m: MixinMapping): string {
    InternalName(m.mixinClass)
  }

  /**
   * `transform`: a target is rewritten as a target, otherwise a mixin as a mixin; any other
   * class, bytes the reader rejects and a failing rewrite all give `null` (None).
   */
  function TransformSpec(targets: map<string, MixinMapping>, mixins: map<string, MixinMapping>,
                         className: string, bytes: ClassBytes): Option<ClassFile> {
    if className in targets then
      (match bytes
       case Malformed => None
       case Wellformed(cf) => TargetRewrite(cf, targets[className]))
    else if className in mixins then
      (match bytes
       case Malformed => None
       case Wellformed(cf) => MixinRewrite(cf, mixins[className]))
    else None
  }
}
