/**
 * The older agent's class-file transformer: for a class some legacy mapping targets, every
 * method whose name and descriptor is an overwrite key gets a body that calls the static
 * handler with `this` and returns its value. Nothing is added and nothing is reordered.
 */
module LegacyTransformer {
  import opened Wrappers
  import opened Descriptors
  import opened Bytecode
  import opened Classes
  import Mappings
  import opened LegacyMappings
  import opened Engine
  import opened EngineProperties

  /** `aload 0; invokestatic <handler>; <return>`: only `this` is passed, whatever the handler declares. */
  function LegacyBody(h: Mappings.Handler): seq<Insn> {
    [Load(RefKind, 0), Invoke(InvokeStatic, InternalName(h.owner), h.name, h.desc, false), ReturnInsn(h.desc.ret)]
  }

  /** One method after the legacy overwrite: new body and no handlers; the local-variable table is left as it was. */
  function LegacyRewriteOne(m: MethodNode, overwrites: map<string, Mappings.Handler>): MethodNode {
    if Key(m) in overwrites then m.(instructions := LegacyBody(overwrites[Key(m)]), tryCatchBlocks := []) else m
  }

  /** `targetClass.getName().replace('.', '/')`. */
  function LegacyTargetKey(m: LegacyMapping): string {
    InternalName(m.targetClass)
  }

  /** `transform`: None (`null`) for a class no mapping targets and for bytes the reader rejects. */
  function LegacyTransformSpec(targets: map<string, LegacyMapping>, className: string, bytes: ClassBytes): Option<ClassFile> {
    if className !in targets then None
    else
      match bytes
      case Malformed => None
      case Wellformed(cf) =>
        var overwrites := targets[className].overwrites;
        Some(cf.(methods := seq(|cf.methods|, i requires 0 <= i < |cf.methods| => LegacyRewriteOne(cf.methods[i], overwrites))))
  }

  class LegacyMixinTransformer {
    /** Mappings by the internal name of their target class. */
    var targets: map<string, LegacyMapping>

    constructor (mappings: seq<LegacyMapping>)
      ensures targets == IndexBy(mappings, LegacyTargetKey)
    {
      var ts: map<string, LegacyMapping> := map[];
      var i := 0;
      while i < |mappings|
        invariant 0 <= i <= |mappings|
        invariant ts == IndexBy(mappings[..i], LegacyTargetKey)
      {
        var m := mappings[i];
        assert mappings[..i + 1][..i] == mappings[..i];
        var internal := InternalName(m.targetClass);
        ts := ts[internal := m];
        i := i + 1;
      }
      assert mappings[..i] == mappings;
      targets := ts;
    }

    method Transform(className: string, bytes: ClassBytes) returns (r: Option<ClassFile>)
      ensures r == LegacyTransformSpec(targets, className, bytes)
    {
      if className !in targets {
        return None;
      }
      var mapping := targets[className];
      if bytes.Malformed? {
        return None;
      }
      var file := bytes.file;
      var node := new ClassNode.Read(file);
      var i := 0;
      while i < |node.methods|
        invariant 0 <= i <= |node.methods| == |file.methods|
        invariant node.access == file.access && node.name == file.name && node.superName == file.superName
        invariant node.interfaces == file.interfaces && node.fields == file.fields
        invariant forall k :: 0 <= k < i ==> node.methods[k] == LegacyRewriteOne(file.methods[k], mapping.overwrites)
        invariant forall k :: i <= k < |file.methods| ==> node.methods[k] == file.methods[k]
      {
        var m := node.methods[i];
        var key := Key(m);
        if key in mapping.overwrites {
          ApplyLegacyOverwrite(node, i, mapping.overwrites[key]);
        }
        i := i + 1;
      }
      r := Some(node.Snapshot());
      assert r.value.methods == LegacyTransformSpec(targets, className, bytes).value.methods;
    }
  }

  /** `applyOverwrite`: method `i` gets the static call as its body and loses its exception handlers. */
  method ApplyLegacyOverwrite(node: ClassNode, i: nat, h: Mappings.Handler)
    requires i < |node.methods|
    modifies node`methods
    ensures node.methods == old(node.methods)[i := old(node.methods[i]).(instructions := LegacyBody(h), tryCatchBlocks := [])]
  {
    var target := node.methods[i];
    var insns := [Load(RefKind, 0)];
    var mixinOwner := InternalName(h.owner);
    insns := insns + [Invoke(InvokeStatic, mixinOwner, h.name, h.desc, false)];
    insns := insns + [ReturnInsn(h.desc.ret)];
    assert insns == LegacyBody(h);
    node.methods := node.methods[i := target.(instructions := insns, tryCatchBlocks := [])];
  }

  // -------------------------------------------------------------- properties

  /** The static call balances the operand stack exactly when the handler takes one parameter. */
  lemma LegacyBodyWellStackedIff(h: Mappings.Handler)
    ensures WellStacked(LegacyBody(h)) <==> |h.desc.args| == 1
  {
    var b := LegacyBody(h);
    assert b[1..] == [Invoke(InvokeStatic, InternalName(h.owner), h.name, h.desc, false), ReturnInsn(h.desc.ret)];
    CallReturnStack(InvokeStatic, InternalName(h.owner), h.name, h.desc, false, 1);
  }

  /**
   * For a built legacy mapping, the key of a target method is stored exactly when some
   * `@Overwrite` method has that method's name and full descriptor, self parameter included;
   * the stored handler is then that method of the mixin, so the rewritten body balances the
   * stack exactly when the target method takes a single argument.
   */
  lemma LegacyMatch(decl: LegacyDecl, t: MethodNode)
    requires LegacyBuildSpec(decl).Success?
    requires forall i :: 0 <= i < |decl.methods| ==> ValidDesc(decl.methods[i].desc) && '(' !in decl.methods[i].name
    requires ValidDesc(t.desc) && '(' !in t.name
    ensures var ow := LegacyBuildSpec(decl).value.overwrites;
            Key(t) in ow <==>
              exists i :: 0 <= i < |decl.methods| && decl.methods[i].overwrite &&
                          decl.methods[i].name == t.name && decl.methods[i].desc == t.desc
    ensures var ow := LegacyBuildSpec(decl).value.overwrites;
            Key(t) in ow ==>
              var h := ow[Key(t)];
              && h.owner == decl.className
              && h.name == t.name && h.desc == t.desc
              && (WellStacked(LegacyBody(h)) <==> |t.desc.args| == 1)
  {
    var r := LegacyBuildSpec(decl).value;
    LegacyBuildContents(decl);
    if Key(t) in r.overwrites {
      var m :| m in decl.methods && m.overwrite && LegacyKey(m) == Key(t);
      var i :| 0 <= i < |decl.methods| && decl.methods[i] == m;
      KeyInjective(t.name, t.desc, m.name, m.desc);
      LegacyBodyWellStackedIff(r.overwrites[Key(t)]);
    }
    if exists i :: 0 <= i < |decl.methods| && decl.methods[i].overwrite &&
                   decl.methods[i].name == t.name && decl.methods[i].desc == t.desc {
      var i :| 0 <= i < |decl.methods| && decl.methods[i].overwrite &&
               decl.methods[i].name == t.name && decl.methods[i].desc == t.desc;
      assert LegacyKey(decl.methods[i]) == Key(t);
      assert decl.methods[i] in decl.methods;
    }
  }

  /**
   * The legacy key of a method with a self parameter is never the self-stripped key the
   * newer builder derives from the same method, when the value names the method itself.
   */
  lemma LegacyKeyKeepsSelf(name: string, d: MethodDesc)
    requires |d.args| > 0 && ValidDesc(d) && '(' !in name
    ensures name + Render(d) != name + Render(Mappings.TargetDescriptor(d))
  {
    var td := Mappings.TargetDescriptor(d);
    assert ValidDesc(td) by {
      forall i | 0 <= i < |td.args| ensures ValidField(td.args[i]) {
        assert td.args[i] == d.args[i + 1];
      }
    }
    if name + Render(d) == name + Render(td) {
      KeyInjective(name, d, name, td);
    }
  }

  /**
   * The rewritten class keeps everything but the keyed methods' bodies and handlers: same
   * header, same fields, same methods in the same order, local-variable tables included.
   */
  lemma LegacyRewriteShape(targets: map<string, LegacyMapping>, className: string, cf: ClassFile)
    requires className in targets
    ensures var r := LegacyTransformSpec(targets, className, Wellformed(cf));
            var ow := targets[className].overwrites;
            && r.Some?
            && r.value == cf.(methods := r.value.methods)
            && |r.value.methods| == |cf.methods|
            && (forall i :: 0 <= i < |cf.methods| ==>
                  r.value.methods[i] == cf.methods[i].(instructions := r.value.methods[i].instructions,
                                                       tryCatchBlocks := r.value.methods[i].tryCatchBlocks))
            && (forall i :: 0 <= i < |cf.methods| && Key(cf.methods[i]) !in ow ==> r.value.methods[i] == cf.methods[i])
            && (forall i :: 0 <= i < |cf.methods| && Key(cf.methods[i]) in ow ==>
                  r.value.methods[i].instructions == LegacyBody(ow[Key(cf.methods[i])]) && r.value.methods[i].tryCatchBlocks == [])
  {
  }

  /** Over the mapping list the hook was built from, a class no mapping targets is left alone. */
  lemma LegacyTransformOfUntargeted(mappings: seq<LegacyMapping>, className: string, bytes: ClassBytes)
    requires forall i :: 0 <= i < |mappings| ==> LegacyTargetKey(mappings[i]) != className
    ensures LegacyTransformSpec(IndexBy(mappings, LegacyTargetKey), className, bytes) == None
  {
    IndexByDomain(mappings, LegacyTargetKey, className);
  }

  /** Over the mapping list the hook was built from, a targeted class is rewritten with the last mapping that targets it. */
  lemma LegacyTransformOfTarget(mappings: seq<LegacyMapping>, className: string, i: nat)
    requires i < |mappings| && LegacyTargetKey(mappings[i]) == className
    requires forall j :: i < j < |mappings| ==> LegacyTargetKey(mappings[j]) != className
    ensures var targets := IndexBy(mappings, LegacyTargetKey);
            className in targets && targets[className] == mappings[i]
  {
    IndexByDomain(mappings, LegacyTargetKey, className);
    IndexByLast(mappings, LegacyTargetKey, className);
    var targets := IndexBy(mappings, LegacyTargetKey);
    var i' :| 0 <= i' < |mappings| && LegacyTargetKey(mappings[i']) == className && targets[className] == mappings[i'] &&
              forall j :: i' < j < |mappings| ==> LegacyTargetKey(mappings[j]) != className;
    assert i == i';
  }
}
