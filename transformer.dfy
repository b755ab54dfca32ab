/**
 * The agent's class-file transformer as the step-by-step program it is: a hook object
 * holding two indexes of the loaded mappings, which reads each class it is handed into a
 * fresh `ClassNode`, edits the node's field and method lists in place, and writes it back.
 * Each method is proved to compute the class value the `Engine` functions describe.
 */
module Transformer {
  import opened Wrappers
  import opened Descriptors
  import opened Bytecode
  import opened Classes
  import opened Mappings
  import opened Engine

  /**
   * `patchConstructor`: finds the first superclass-constructor call of constructor `i` and
   * inserts the mixin's creation after it. Returns false, changing nothing, when there is no
   * such call (the method throws there).
   */
  method PatchConstructor(node: ClassNode, i: nat, mixinClass: string) returns (ok: bool)
    requires i < |node.methods| && node.methods[i].name == "<init>"
    modifies node`methods
    ensures ok == Patchable(old(node.methods[i]), node.superName)
    ensures ok ==> node.methods == old(node.methods)[i := Patch(old(node.methods[i]), node.name, node.superName, mixinClass)]
    ensures !ok ==> node.methods == old(node.methods)
  {
    var ctor := node.methods[i];
    var insns := ctor.instructions;
    var insertAfter: Option<nat> := None;
    var k := 0;
    while k < |insns| && insertAfter.None?
      invariant 0 <= k <= |insns|
      invariant insertAfter.None? ==> forall j :: 0 <= j < k ==> !IsSuperInit(insns[j], node.superName)
      invariant insertAfter.Some? ==> insertAfter.value < |insns| && IsSuperInit(insns[insertAfter.value], node.superName)
      invariant insertAfter.Some? ==> forall j :: 0 <= j < insertAfter.value ==> !IsSuperInit(insns[j], node.superName)
    {
      var insn := insns[k];
      if insn.Invoke? && insn.op == InvokeSpecial && insn.name == "<init>" && node.superName == Some(insn.owner) {
        insertAfter := Some(k);
      }
      k := k + 1;
    }
    if insertAfter.None? {
      return false;
    }
    var at := insertAfter.value;
    var inject := InitSequence(node.name, mixinClass);
    node.methods := node.methods[i := ctor.(instructions := insns[..at + 1] + inject + insns[at + 1..])];
    return true;
  }

  /**
   * `applyOverwrite`: appends the clone of method `i` to `originals` and replaces the
   * method's body by the call to the handler, loading the arguments slot by slot.
   */
  method ApplyOverwrite(node: ClassNode, i: nat, h: Handler, mixinFieldName: string, originals: seq<MethodNode>)
    returns (originals': seq<MethodNode>)
    requires i < |node.methods|
    modifies node`methods
    ensures originals' == originals + [CloneAsOriginal(old(node.methods[i]))]
    ensures node.methods == old(node.methods)[i := Overwritten(old(node.methods[i]), node.name, mixinFieldName, h)]
  {
    var target := node.methods[i];
    originals' := originals + [CloneAsOriginal(target)];
    var mixinOwner := InternalName(h.owner);
    var prefix := [Load(RefKind, 0), GetField(node.name, mixinFieldName, Object(mixinOwner)), Load(RefKind, 0)];
    var insns := prefix;
    var targetArgs := target.desc.args;
    var localIndex: nat := 1;
    var k := 0;
    while k < |targetArgs|
      invariant 0 <= k <= |targetArgs|
      invariant insns + ArgLoads(targetArgs[k..], localIndex) == prefix + ArgLoads(targetArgs, 1)
    {
      var t := targetArgs[k];
      assert targetArgs[k..][1..] == targetArgs[k + 1..];
      insns := insns + [Load(KindOf(t), localIndex)];
      localIndex := localIndex + Size(t);
      k := k + 1;
    }
    assert insns == prefix + ArgLoads(targetArgs, 1);
    insns := insns + [Invoke(InvokeVirtual, mixinOwner, h.name, h.desc, false), ReturnInsn(h.desc.ret)];
    node.methods := node.methods[i := target.(instructions := insns, tryCatchBlocks := [], localVariables := None)];
  }

  /** The "init mixin in constructor" loop: every constructor patched; false when one cannot be. */
  method PatchConstructors(node: ClassNode, mixinClass: string) returns (ok: bool)
    modifies node`methods
    ensures ok == PatchAll(old(node.methods), node.name, node.superName, mixinClass).Some?
    ensures ok ==> node.methods == PatchAll(old(node.methods), node.name, node.superName, mixinClass).value
  {
    ghost var ms := node.methods;
    var i := 0;
    while i < |node.methods|
      invariant 0 <= i <= |node.methods| == |ms|
      invariant forall k :: 0 <= k < i ==> Patchable(ms[k], node.superName)
      invariant forall k :: 0 <= k < i ==> node.methods[k] == Patch(ms[k], node.name, node.superName, mixinClass)
      invariant forall k :: i <= k < |ms| ==> node.methods[k] == ms[k]
    {
      if node.methods[i].name == "<init>" {
        ok := PatchConstructor(node, i, mixinClass);
        if !ok {
          return false;
        }
      }
      i := i + 1;
    }
    assert node.methods == PatchAll(ms, node.name, node.superName, mixinClass).value;
    return true;
  }

  /** One turn of the overwrite loop: method `i` rewritten, its clone collected when it is keyed. */
  method OverwriteStep(node: ClassNode, i: nat, overwrites: map<string, Handler>, mixinFieldName: string,
                       originals: seq<MethodNode>) returns (originals': seq<MethodNode>)
    requires i < |node.methods|
    modifies node`methods
    ensures originals' == originals + (if Key(old(node.methods[i])) in overwrites then [CloneAsOriginal(old(node.methods[i]))] else [])
    ensures node.methods == old(node.methods)[i := RewriteOne(old(node.methods[i]), node.name, mixinFieldName, overwrites)]
  {
    var key := Key(node.methods[i]);
    if key in overwrites {
      originals' := ApplyOverwrite(node, i, overwrites[key], mixinFieldName, originals);
    } else {
      originals' := originals;
    }
  }

  /** The "overwrites the requested methods" loop: every keyed method overwritten; the clones collected in order. */
  method ApplyOverwrites(node: ClassNode, overwrites: map<string, Handler>, mixinFieldName: string)
    returns (originals: seq<MethodNode>)
    modifies node`methods
    ensures node.methods == RewriteAll(old(node.methods), node.name, mixinFieldName, overwrites)
    ensures originals == Clones(old(node.methods), overwrites)
  {
    ghost var ms := node.methods;
    var owner := node.name;
    originals := [];
    var i := 0;
    while i < |node.methods|
      invariant 0 <= i <= |node.methods| == |ms|
      invariant originals == Clones(ms[..i], overwrites)
      invariant forall k :: 0 <= k < i ==> node.methods[k] == RewriteOne(ms[k], owner, mixinFieldName, overwrites)
      invariant forall k :: i <= k < |ms| ==> node.methods[k] == ms[k]
    {
      ClonesSnoc(ms, i, overwrites);
      originals := OverwriteStep(node, i, overwrites, mixinFieldName, originals);
      i := i + 1;
    }
    assert ms[..i] == ms;
    assert node.methods == RewriteAll(ms, owner, mixinFieldName, overwrites);
  }

  class MixinTransformer {
    /** Mappings by the internal name of their target class. */
    var targets: map<string, MixinMapping>
    /** Mappings by the internal name of their mixin class. */
    var mixins: map<string, MixinMapping>

    constructor (mappings: seq<MixinMapping>)
      ensures targets == IndexBy(mappings, TargetKey)
      ensures mixins == IndexBy(mappings, MixinKey)
    {
      var ts: map<string, MixinMapping> := map[];
      var xs: map<string, MixinMapping> := map[];
      var i := 0;
      while i < |mappings|
        invariant 0 <= i <= |mappings|
        invariant ts == IndexBy(mappings[..i], TargetKey)
        invariant xs == IndexBy(mappings[..i], MixinKey)
      {
        var m := mappings[i];
        assert mappings[..i + 1][..i] == mappings[..i];
        ts := ts[InternalName(m.targetClass) := m];
        xs := xs[InternalName(m.mixinClass) := m];
        i := i + 1;
      }
      assert mappings[..i] == mappings;
      targets := ts;
      mixins := xs;
    }

    /** The class-loading hook: the rewritten class, or None for `null` (leave the class as it is). */
    method Transform(className: string, bytes: ClassBytes) returns (r: Option<ClassFile>)
      ensures r == TransformSpec(targets, mixins, className, bytes)
    {
      if className in targets {
        if bytes.Malformed? {
          return None;
        }
        r := TransformTarget(bytes.file, targets[className]);
        return;
      }
      if className in mixins {
        if bytes.Malformed? {
          return None;
        }
        r := TransformMixin(bytes.file, mixins[className]);
        return;
      }
      return None;
    }

    /** `transformMixin`: rewrites every keyed `@Original` stub; None when one has no parameter. */
    method TransformMixin(file: ClassFile, mapping: MixinMapping) returns (r: Option<ClassFile>)
      ensures r == MixinRewrite(file, mapping)
    {
      var node := new ClassNode.Read(file);
      var i := 0;
      while i < |node.methods|
        invariant 0 <= i <= |node.methods| == |file.methods|
        invariant node.access == file.access && node.name == file.name && node.superName == file.superName
        invariant node.interfaces == file.interfaces && node.fields == file.fields
        invariant forall k :: 0 <= k < i ==> !StubRejected(file.methods[k], mapping.originals)
        invariant forall k :: 0 <= k < i ==> node.methods[k] == StubOne(file.methods[k], mapping)
        invariant forall k :: i <= k < |file.methods| ==> node.methods[k] == file.methods[k]
      {
        var m := node.methods[i];
        var key := Key(m);
        if key in mapping.originals {
          var args := m.desc.args;
          if |args| == 0 {
            assert StubRejected(file.methods[i], mapping.originals);
            return None;
          }
          var targetDesc := MethodDesc(args[1..], m.desc.ret);
          var targetName := mapping.originals[key];
          var insns := StubBody(mapping.targetClass, targetName, targetDesc);
          node.methods := node.methods[i := m.(access := m.access & !ACC_NATIVE,
                                                instructions := insns,
                                                tryCatchBlocks := [],
                                                localVariables := None)];
        }
        i := i + 1;
      }
      r := Some(node.Snapshot());
      assert r.value.methods == MixinRewrite(file, mapping).value.methods;
    }

    /**
     * `transformTarget`: adds the mixin field, patches every constructor, overwrites every
     * keyed method and appends the clones; None when a constructor cannot be patched.
     */
    method TransformTarget(file: ClassFile, mapping: MixinMapping) returns (r: Option<ClassFile>)
      ensures r == TargetRewrite(file, mapping)
    {
      var node := new ClassNode.Read(file);
      var mixinField := MixinFieldName(mapping.mixinClass);
      if !HasFieldNamed(node.fields, mixinField) {
        node.fields := node.fields + [MixinField(mapping.mixinClass)];
      }

      var ok := PatchConstructors(node, mapping.mixinClass);
      if !ok {
        return None;
      }
      var originals := ApplyOverwrites(node, mapping.overwrites, mixinField);
      node.methods := node.methods + originals;
      r := Some(node.Snapshot());
    }
  }
}
