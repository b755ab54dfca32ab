/**
 * What the agent's rewriting guarantees: the mixin field exists once, constructors gain
 * exactly the mixin's creation, delegating bodies and stub bodies balance the operand
 * stack, clones keep method signatures distinct, a stub calls precisely the clone of the
 * method its `@Original` names, and the hook picks the mapping the last `put` stored.
 */
module EngineProperties {
  import opened Wrappers
  import opened Strings
  import opened Hashing
  import opened Descriptors
  import opened Bytecode
  import opened Classes
  import opened Mappings
  import opened MappingProperties
  import opened Engine

  // ----------------------------------------------------------- mixin field

  lemma {:induction false} CountNamedZero(fs: seq<FieldNode>, n: string)
    ensures CountNamed(fs, n) == 0 <==> !HasFieldNamed(fs, n)
    decreases |fs|
  {
    if fs != [] {
      var init := fs[..|fs| - 1];
      CountNamedZero(init, n);
      assert forall i :: 0 <= i < |init| ==> init[i] == fs[i];
      if HasFieldNamed(init, n) {
        var i :| 0 <= i < |init| && init[i].name == n;
        assert fs[i].name == n;
      }
    }
  }

  /**
   * After the field step the class has a field under the mixin field's name; the step only
   * appends, adds the field exactly when no field had that name (so the name is then held
   * once), and applying it again changes nothing.
   */
  lemma MixinFieldOnce(fs: seq<FieldNode>, mixinClass: string)
    ensures var n := MixinFieldName(mixinClass);
            var fs' := WithMixinField(fs, mixinClass);
            && HasFieldNamed(fs', n)
            && |fs| <= |fs'| && fs'[..|fs|] == fs
            && CountNamed(fs', n) == (if CountNamed(fs, n) == 0 then 1 else CountNamed(fs, n))
            && (CountNamed(fs, n) == 0 ==> fs' == fs + [MixinField(mixinClass)])
            && (HasFieldNamed(fs, n) ==> fs' == fs)
            && WithMixinField(fs', mixinClass) == fs'
  {
    var n := MixinFieldName(mixinClass);
    var fs' := WithMixinField(fs, mixinClass);
    CountNamedZero(fs, n);
    if !HasFieldNamed(fs, n) {
      assert fs'[..|fs|] == fs;
      assert fs'[|fs|].name == n;
    }
  }

  // --------------------------------------------------- constructor patching

  /** The target rewrite fails (the hook returns `null`) exactly when some constructor never calls its superclass's constructor. */
  lemma TargetRewriteSucceedsIff(cf: ClassFile, mapping: MixinMapping)
    ensures TargetRewrite(cf, mapping).Some? <==>
            forall i :: 0 <= i < |cf.methods| && cf.methods[i].name == "<init>" ==>
              exists k :: 0 <= k < |cf.methods[i].instructions| && IsSuperInit(cf.methods[i].instructions[k], cf.superName)
  {
    forall i | 0 <= i < |cf.methods| && cf.methods[i].name == "<init>"
      ensures Patchable(cf.methods[i], cf.superName) <==>
              exists k :: 0 <= k < |cf.methods[i].instructions| && IsSuperInit(cf.methods[i].instructions[k], cf.superName)
    {
      var r := SuperInitIndex(cf.methods[i].instructions, cf.superName);
      if r.Some? {
        assert IsSuperInit(cf.methods[i].instructions[r.value], cf.superName);
      }
    }
  }

  /**
   * A patched constructor is the original with the five creation instructions inserted
   * right after its first superclass-constructor call, and nothing else changed.
   */
  lemma PatchShape(m: MethodNode, ownerName: string, superName: Option<string>, mixinClass: string)
    requires m.name == "<init>" && Patchable(m, superName)
    ensures var p := Patch(m, ownerName, superName, mixinClass);
            var k := SuperInitIndex(m.instructions, superName).value;
            && p == m.(instructions := p.instructions)
            && |p.instructions| == |m.instructions| + 5
            && p.instructions[..k + 1] == m.instructions[..k + 1]
            && p.instructions[k + 1..k + 6] == InitSequence(ownerName, mixinClass)
            && p.instructions[..k + 1] + p.instructions[k + 6..] == m.instructions
  {
    var k := SuperInitIndex(m.instructions, superName).value;
    var a := m.instructions[..k + 1];
    var b := m.instructions[k + 1..];
    var p := Patch(m, ownerName, superName, mixinClass).instructions;
    assert p == a + InitSequence(ownerName, mixinClass) + b;
    assert p[..k + 1] == a;
    assert p[k + 6..] == b;
    SliceJoin(m.instructions, k + 1);
  }

  /** `this.<field> = new Mixin()` leaves the operand stack as it found it. */
  lemma InitSequenceNeutral(ownerName: string, mixinClass: string, depth: nat)
    ensures StackAfter(InitSequence(ownerName, mixinClass), depth) == Some(depth)
  {
    var s := InitSequence(ownerName, mixinClass);
    assert StackAfter(s[4..], depth + 2) == Some(depth);
    assert StackAfter(s[3..], depth + 3) == Some(depth);
    assert StackAfter(s[2..], depth + 2) == Some(depth);
    assert StackAfter(s[1..], depth + 1) == Some(depth);
  }

  /** The patch does not change the constructor's operand-stack count, from any depth. */
  lemma PatchKeepsStack(m: MethodNode, ownerName: string, superName: Option<string>, mixinClass: string, depth: nat)
    requires Patchable(m, superName)
    ensures StackAfter(Patch(m, ownerName, superName, mixinClass).instructions, depth) == StackAfter(m.instructions, depth)
  {
    if m.name == "<init>" {
      var k := SuperInitIndex(m.instructions, superName).value;
      var a := m.instructions[..k + 1];
      var b := m.instructions[k + 1..];
      var init := InitSequence(ownerName, mixinClass);
      assert Patch(m, ownerName, superName, mixinClass).instructions == a + (init + b);
      SliceJoin(m.instructions, k + 1);
      StackAfterJoin(a, init + b, depth);
      StackAfterJoin(a, b, depth);
      var d := StackAfter(a, depth);
      if d.Some? {
        StackAfterJoin(init, b, d.value);
        InitSequenceNeutral(ownerName, mixinClass, d.value);
      }
    }
  }

  // -------------------------------------------------------------- overwrites

  /**
   * The delegating body finds every operand and leaves nothing behind exactly when the
   * handler takes one parameter more than the target method: its self parameter.
   */
  lemma DelegationWellStackedIff(ownerName: string, field: string, h: Handler, td: MethodDesc)
    ensures WellStacked(DelegationBody(ownerName, field, h, td)) <==> |h.desc.args| == |td.args| + 1
  {
    var p := [Load(RefKind, 0), GetField(ownerName, field, Object(InternalName(h.owner))), Load(RefKind, 0)];
    var loads := ArgLoads(td.args, 1);
    var tail := [Invoke(InvokeVirtual, InternalName(h.owner), h.name, h.desc, false), ReturnInsn(h.desc.ret)];
    assert DelegationBody(ownerName, field, h, td) == p + (loads + tail);
    assert StackAfter(p[2..], 1) == Some(2);
    assert StackAfter(p[1..], 1) == Some(2);
    StackAfterJoin(p, loads + tail, 0);
    StackAfterJoin(loads, tail, 2);
    StackAfterArgLoads(td.args, 1, 2);
    CallReturnStack(InvokeVirtual, InternalName(h.owner), h.name, h.desc, false, 2 + |td.args|);
  }

  /**
   * The delegating body passes the k-th argument of the target method with the load of its
   * own kind, from slot 1 plus the slots the arguments before it take, then calls the handler
   * and returns with the handler's return kind.
   */
  lemma DelegationPassesArguments(ownerName: string, field: string, h: Handler, td: MethodDesc)
    ensures var b := DelegationBody(ownerName, field, h, td);
            && |b| == |td.args| + 5
            && b[..3] == [Load(RefKind, 0), GetField(ownerName, field, Object(InternalName(h.owner))), Load(RefKind, 0)]
            && (forall k :: 0 <= k < |td.args| ==> b[3 + k] == Load(KindOf(td.args[k]), 1 + SlotSum(td.args[..k])))
            && b[|td.args| + 3] == Invoke(InvokeVirtual, InternalName(h.owner), h.name, h.desc, false)
            && b[|td.args| + 4] == ReturnInsn(h.desc.ret)
  {
    ArgLoadsLength(td.args, 1);
    forall k | 0 <= k < |td.args|
      ensures DelegationBody(ownerName, field, h, td)[3 + k] == Load(KindOf(td.args[k]), 1 + SlotSum(td.args[..k]))
    {
      ArgLoadsAt(td.args, 1, k);
    }
  }

  /**
   * End to end over a built mapping: whatever target method an overwrite key selects, the
   * handler is a method of the mixin class, the body reads the very field the field step
   * adds, and the body balances the operand stack.
   */
  lemma OverwriteBodyWellStacked(decl: MixinDecl, t: MethodNode, ownerName: string)
    requires BuildSpec(decl).Success?
    requires forall i :: 0 <= i < |decl.methods| ==> ValidDesc(decl.methods[i].desc)
    requires forall i :: 0 <= i < |decl.methods| && IsOverwrite(decl.methods[i]) ==> '(' !in decl.methods[i].overwrite.value
    requires ValidDesc(t.desc) && '(' !in t.name
    requires Key(t) in BuildSpec(decl).value.overwrites
    ensures var r := BuildSpec(decl).value;
            var h := r.overwrites[Key(t)];
            var body := Overwritten(t, ownerName, MixinFieldName(r.mixinClass), h).instructions;
            && h.owner == r.mixinClass
            && body[1] == GetField(ownerName, MixinFieldName(r.mixinClass), MixinType(r.mixinClass))
            && WellStacked(body)
  {
    var r := BuildSpec(decl).value;
    BuildOverwriteOrigin(decl, Key(t));
    var i :| 0 <= i < |decl.methods| && IsOverwrite(decl.methods[i]) && OverwriteKey(decl.methods[i]) == Key(t);
    var m := decl.methods[i];
    OverwriteKeyMatches(m, t.name, t.desc);
    DelegationWellStackedIff(ownerName, MixinFieldName(r.mixinClass), r.overwrites[Key(t)], t.desc);
  }

  // ------------------------------------------------------------------ clones

  /** A name the clone step produces. */
  predicate IsCloneName(n: string) {
    |n| >= 11 && n[..11] == "__original$"
  }

  /** What marks a clone: its clone name, and the public and synthetic access bits. */
  predicate CloneMarked(c: MethodNode) {
    IsCloneName(c.name) && c.access & ACC_SYNTHETIC != 0 && c.access & ACC_PUBLIC != 0
  }

  /** No two methods share both name and descriptor (section 4.6 of the JVM Specification requires this). */
  predicate DistinctSignatures(ms: seq<MethodNode>) {
    forall i, j :: 0 <= i < j < |ms| ==> ms[i].name != ms[j].name || ms[i].desc != ms[j].desc
  }

  lemma NoDollarInHex(n: nat)
    ensures '$' !in ToHexString(n)
  {
    var r := ToHexString(n);
    forall i | 0 <= i < |r| ensures r[i] != '$' {
      assert IsHexDigit(r[i]);
    }
  }

  /** The clone name gives back the method name, and the descriptor's hash. */
  lemma OriginalNameInjective(a: string, d: MethodDesc, b: string, e: MethodDesc)
    requires OriginalName(a, d) == OriginalName(b, e)
    ensures a == b && HashCode(Render(d)) == HashCode(Render(e))
  {
    var ha := ToHexString(HashCode(Render(d)));
    var hb := ToHexString(HashCode(Render(e)));
    var p := "__original$";
    assert OriginalName(a, d) == p + (a + ['$'] + ha);
    assert OriginalName(b, e) == p + (b + ['$'] + hb);
    assert (p + (a + ['$'] + ha))[|p|..] == a + ['$'] + ha;
    assert (p + (b + ['$'] + hb))[|p|..] == b + ['$'] + hb;
    NoDollarInHex(HashCode(Render(d)));
    NoDollarInHex(HashCode(Render(e)));
    SplitAtLast(a, ha, b, hb, '$');
  }

  lemma CloneNameIsCloneName(name: string, desc: MethodDesc)
    ensures IsCloneName(OriginalName(name, desc))
  {
    assert OriginalName(name, desc) == "__original$" + (name + "$" + ToHexString(HashCode(Render(desc))));
  }

  /**
   * A clone carries the method's descriptor, signature, exceptions, body, handlers and
   * local-variable table unchanged, bears a clone name, and is public and synthetic, static
   * exactly when the method is, with no other access bit.
   */
  lemma CloneShape(m: MethodNode)
    ensures var c := CloneAsOriginal(m);
            && c.desc == m.desc && c.signature == m.signature && c.exceptions == m.exceptions
            && c.instructions == m.instructions && c.tryCatchBlocks == m.tryCatchBlocks
            && c.localVariables == m.localVariables
            && CloneMarked(c)
            && (c.access & ACC_STATIC != 0) == (m.access & ACC_STATIC != 0)
            && c.access & !(ACC_PUBLIC | ACC_STATIC | ACC_SYNTHETIC) == 0
  {
    CloneNameIsCloneName(m.name, m.desc);
  }

  /** Every clone comes from a keyed method. */
  lemma {:induction false} ClonesFrom(ms: seq<MethodNode>, overwrites: map<string, Handler>)
    ensures forall c :: c in Clones(ms, overwrites) ==>
              exists i :: 0 <= i < |ms| && Key(ms[i]) in overwrites && c == CloneAsOriginal(ms[i])
    decreases |ms|
  {
    if ms != [] {
      var init := ms[..|ms| - 1];
      var last := ms[|ms| - 1];
      var cs := Clones(init, overwrites);
      var tail := if Key(last) in overwrites then [CloneAsOriginal(last)] else [];
      assert Clones(ms, overwrites) == cs + tail;
      ClonesFrom(init, overwrites);
      forall c | c in cs + tail
        ensures exists i :: 0 <= i < |ms| && Key(ms[i]) in overwrites && c == CloneAsOriginal(ms[i])
      {
        if c in cs {
          var i :| 0 <= i < |init| && Key(init[i]) in overwrites && c == CloneAsOriginal(init[i]);
          assert ms[i] == init[i];
        } else {
          assert c == CloneAsOriginal(last) && Key(ms[|ms| - 1]) in overwrites;
        }
      }
    }
  }

  /** The clones of two method lists joined are the clones of each, joined. */
  lemma {:induction false} ClonesAppend(a: seq<MethodNode>, b: seq<MethodNode>, overwrites: map<string, Handler>)
    ensures Clones(a + b, overwrites) == Clones(a, overwrites) + Clones(b, overwrites)
    decreases |b|
  {
    if b == [] {
      assert a + b == a;
    } else {
      var b' := b[..|b| - 1];
      var last := b[|b| - 1];
      var tail := if Key(last) in overwrites then [CloneAsOriginal(last)] else [];
      ClonesAppend(a, b', overwrites);
      assert (a + b)[..|a + b| - 1] == a + b';
      assert (a + b)[|a + b| - 1] == last;
      assert Clones(a + b, overwrites) == Clones(a + b', overwrites) + tail;
      assert Clones(b, overwrites) == Clones(b', overwrites) + tail;
    }
  }

  /** Every keyed method has its clone among the clones, behind the clones of the methods before it. */
  lemma ClonesOf(ms: seq<MethodNode>, overwrites: map<string, Handler>)
    ensures forall i :: 0 <= i < |ms| && Key(ms[i]) in overwrites ==>
              && |Clones(ms[..i], overwrites)| < |Clones(ms, overwrites)|
              && Clones(ms, overwrites)[|Clones(ms[..i], overwrites)|] == CloneAsOriginal(ms[i])
    ensures forall i :: 0 <= i < |ms| && Key(ms[i]) in overwrites ==> CloneAsOriginal(ms[i]) in Clones(ms, overwrites)
  {
    forall i | 0 <= i < |ms| && Key(ms[i]) in overwrites
      ensures && |Clones(ms[..i], overwrites)| < |Clones(ms, overwrites)|
              && Clones(ms, overwrites)[|Clones(ms[..i], overwrites)|] == CloneAsOriginal(ms[i])
    {
      assert ms == ms[..i] + ([ms[i]] + ms[i + 1..]);
      assert [ms[i]][..0] == [];
      ClonesAppend(ms[..i], [ms[i]] + ms[i + 1..], overwrites);
      ClonesAppend([ms[i]], ms[i + 1..], overwrites);
    }
  }

  /** Clones of methods with distinct signatures have distinct signatures. */
  lemma {:induction false} ClonesDistinct(ms: seq<MethodNode>, overwrites: map<string, Handler>)
    requires DistinctSignatures(ms)
    ensures DistinctSignatures(Clones(ms, overwrites))
    decreases |ms|
  {
    if ms != [] {
      var init := ms[..|ms| - 1];
      var last := ms[|ms| - 1];
      assert forall i :: 0 <= i < |init| ==> init[i] == ms[i];
      ClonesDistinct(init, overwrites);
      var cs := Clones(init, overwrites);
      if Key(last) in overwrites {
        var c := CloneAsOriginal(last);
        ClonesFrom(init, overwrites);
        forall j | 0 <= j < |cs| ensures cs[j].name != c.name || cs[j].desc != c.desc {
          assert cs[j] in cs;
          var i :| 0 <= i < |init| && Key(init[i]) in overwrites && cs[j] == CloneAsOriginal(init[i]);
          if cs[j].desc == c.desc {
            assert init[i].desc == last.desc;
            assert init[i].name != last.name;
            if cs[j].name == c.name {
              OriginalNameInjective(init[i].name, init[i].desc, last.name, last.desc);
            }
          }
        }
        assert Clones(ms, overwrites) == cs + [c];
      }
    }
  }

  /** Every clone bears a clone name and is public and synthetic. */
  lemma ClonesNamed(ms: seq<MethodNode>, overwrites: map<string, Handler>)
    ensures forall j :: 0 <= j < |Clones(ms, overwrites)| ==> CloneMarked(Clones(ms, overwrites)[j])
  {
    var cs := Clones(ms, overwrites);
    ClonesFrom(ms, overwrites);
    forall j | 0 <= j < |cs| ensures CloneMarked(cs[j]) {
      assert cs[j] in cs;
      var i :| 0 <= i < |ms| && Key(ms[i]) in overwrites && cs[j] == CloneAsOriginal(ms[i]);
      CloneNameIsCloneName(ms[i].name, ms[i].desc);
    }
  }

  /** Two method lists with distinct signatures, one free of clone names and one made of them, join without a clash. */
  lemma DistinctJoin(rs: seq<MethodNode>, cs: seq<MethodNode>)
    requires DistinctSignatures(rs) && DistinctSignatures(cs)
    requires forall i :: 0 <= i < |rs| ==> !IsCloneName(rs[i].name)
    requires forall j :: 0 <= j < |cs| ==> CloneMarked(cs[j])
    ensures DistinctSignatures(rs + cs)
  {
    var all := rs + cs;
    forall i, j | 0 <= i < j < |all| ensures all[i].name != all[j].name || all[i].desc != all[j].desc {
      if j < |rs| {
        assert all[i] == rs[i] && all[j] == rs[j];
      } else if i >= |rs| {
        assert all[i] == cs[i - |rs|] && all[j] == cs[j - |rs|];
      } else {
        assert all[i] == rs[i] && all[j] == cs[j - |rs|] && CloneMarked(cs[j - |rs|]);
      }
    }
  }

  /**
   * The rewritten target declares no two methods with the same name and descriptor, given
   * that the class as read did not and that none of its methods already bears a clone name.
   */
  lemma TargetRewriteSignaturesDistinct(cf: ClassFile, mapping: MixinMapping)
    requires TargetRewrite(cf, mapping).Some?
    requires DistinctSignatures(cf.methods)
    requires forall i :: 0 <= i < |cf.methods| ==> !IsCloneName(cf.methods[i].name)
    ensures DistinctSignatures(TargetRewrite(cf, mapping).value.methods)
  {
    var patched := PatchAll(cf.methods, cf.name, cf.superName, mapping.mixinClass).value;
    var field := MixinFieldName(mapping.mixinClass);
    var rs := RewriteAll(patched, cf.name, field, mapping.overwrites);
    var cs := Clones(patched, mapping.overwrites);
    assert forall i :: 0 <= i < |patched| ==> patched[i].name == cf.methods[i].name && patched[i].desc == cf.methods[i].desc;
    assert forall i :: 0 <= i < |rs| ==> rs[i].name == cf.methods[i].name && rs[i].desc == cf.methods[i].desc;
    assert DistinctSignatures(patched);
    assert DistinctSignatures(rs);
    ClonesDistinct(patched, mapping.overwrites);
    ClonesNamed(patched, mapping.overwrites);
    DistinctJoin(rs, cs);
  }

  /** The target keeps its class header, and its fields are those of the field step. */
  lemma TargetRewriteHeader(cf: ClassFile, mapping: MixinMapping)
    requires TargetRewrite(cf, mapping).Some?
    ensures var r := TargetRewrite(cf, mapping).value;
            && r.access == cf.access && r.name == cf.name && r.superName == cf.superName && r.interfaces == cf.interfaces
            && r.fields == WithMixinField(cf.fields, mapping.mixinClass)
            && |cf.methods| <= |r.methods|
  {
  }

  /**
   * Every method as read keeps its place, name, descriptor, access, signature and
   * exceptions; a keyed method gets the delegating body with no handlers and no local-variable
   * table; an unkeyed method other than a constructor is untouched.
   */
  lemma TargetRewriteMethods(cf: ClassFile, mapping: MixinMapping, i: nat)
    requires TargetRewrite(cf, mapping).Some? && i < |cf.methods|
    ensures var r := TargetRewrite(cf, mapping).value;
            var m := cf.methods[i];
            var field := MixinFieldName(mapping.mixinClass);
            && i < |r.methods|
            && r.methods[i].name == m.name && r.methods[i].desc == m.desc && r.methods[i].access == m.access
            && r.methods[i].signature == m.signature && r.methods[i].exceptions == m.exceptions
            && (Key(m) in mapping.overwrites ==>
                  && r.methods[i].instructions == DelegationBody(cf.name, field, mapping.overwrites[Key(m)], m.desc)
                  && r.methods[i].tryCatchBlocks == []
                  && r.methods[i].localVariables == None)
            && (Key(m) !in mapping.overwrites && m.name != "<init>" ==> r.methods[i] == m)
            && (Key(m) !in mapping.overwrites && m.name == "<init>" ==>
                  && Patchable(m, cf.superName)
                  && r.methods[i] == Patch(m, cf.name, cf.superName, mapping.mixinClass))
  {
  }

  /** Behind the methods as read stand exactly the clones of the patched methods, in order. */
  lemma TargetRewriteTail(cf: ClassFile, mapping: MixinMapping)
    requires TargetRewrite(cf, mapping).Some?
    ensures var r := TargetRewrite(cf, mapping).value;
            var patched := PatchAll(cf.methods, cf.name, cf.superName, mapping.mixinClass).value;
            && |cf.methods| <= |r.methods|
            && r.methods[|cf.methods|..] == Clones(patched, mapping.overwrites)
  {
  }

  /**
   * Behind the methods as read stands a clone of every keyed method that is not a
   * constructor (a keyed constructor's clone carries the patched body).
   */
  lemma TargetRewriteClonesPresent(cf: ClassFile, mapping: MixinMapping)
    requires TargetRewrite(cf, mapping).Some?
    ensures var r := TargetRewrite(cf, mapping).value;
            var n := |cf.methods|;
            && n <= |r.methods|
            && (forall i :: 0 <= i < n && cf.methods[i].name != "<init>" && Key(cf.methods[i]) in mapping.overwrites ==>
                  CloneAsOriginal(cf.methods[i]) in r.methods[n..])
  {
    var patched := PatchAll(cf.methods, cf.name, cf.superName, mapping.mixinClass).value;
    TargetRewriteTail(cf, mapping);
    ClonesOf(patched, mapping.overwrites);
    forall i | 0 <= i < |cf.methods| && cf.methods[i].name != "<init>"
      ensures patched[i] == cf.methods[i]
    {
    }
  }

  /** Everything behind the methods as read is a clone: public, synthetic and under a clone name. */
  lemma TargetRewriteClonesMarked(cf: ClassFile, mapping: MixinMapping)
    requires TargetRewrite(cf, mapping).Some?
    ensures var r := TargetRewrite(cf, mapping).value;
            && |cf.methods| <= |r.methods|
            && (forall j :: |cf.methods| <= j < |r.methods| ==> CloneMarked(r.methods[j]))
  {
    var ms := TargetRewrite(cf, mapping).value.methods;
    var n := |cf.methods|;
    var patched := PatchAll(cf.methods, cf.name, cf.superName, mapping.mixinClass).value;
    TargetRewriteTail(cf, mapping);
    ClonesNamed(patched, mapping.overwrites);
    forall j | n <= j < |ms| ensures CloneMarked(ms[j]) {
      assert ms[j] == ms[n..][j - n];
    }
  }

  // ------------------------------------------------------------- mixin stubs

  /**
   * The stub invokes the clone of a target method exactly when that method bears the
   * `@Original` value as its name and has the stub's descriptor without self; it invokes it
   * on the mapping's target class, which it first casts self to.
   */
  lemma StubCallsClone(m: MethodNode, mapping: MixinMapping, t: MethodNode)
    requires Key(m) in mapping.originals && |m.desc.args| > 0
    ensures var value := mapping.originals[Key(m)];
            var body := Stub(m, mapping.targetClass, value).instructions;
            var td := TargetDescriptor(m.desc);
            && |body| == |m.desc.args| + 3
            && body[1] == CheckCast(InternalName(mapping.targetClass))
            && body[|body| - 2].Invoke?
            && body[|body| - 2].owner == InternalName(mapping.targetClass)
            && (body[|body| - 2].name == CloneAsOriginal(t).name && body[|body| - 2].desc == CloneAsOriginal(t).desc
                <==> t.name == value && t.desc == td)
  {
    var value := mapping.originals[Key(m)];
    var td := TargetDescriptor(m.desc);
    var body := Stub(m, mapping.targetClass, value).instructions;
    ArgLoadsLength(td.args, 2);
    assert body[|body| - 2] == Invoke(InvokeVirtual, InternalName(mapping.targetClass), OriginalName(value, td), td, false);
    if OriginalName(value, td) == OriginalName(t.name, t.desc) {
      OriginalNameInjective(value, td, t.name, t.desc);
    }
  }

  /** The stub as written leaves the invoked method's arguments off the stack: whenever there is one, it underflows. */
  lemma StubAsWrittenUnderflows(targetClass: string, value: string, td: MethodDesc)
    requires |td.args| > 0
    ensures StackAfter(StubBodyAsWritten(targetClass, value, td), 0) == None
  {
    var s := StubBodyAsWritten(targetClass, value, td);
    assert StackAfter(s[2..], 1) == None;
  }

  /** `@Original("add") native int add(Object self, int x)`: the stub written for it cannot be verified by the JVM. */
  lemma StubAsWrittenCounterexample()
    ensures !WellStacked(StubBodyAsWritten("Calculator", "add", TargetDescriptor(MethodDesc([Object("java/lang/Object"), Base(Int)], Value(Base(Int))))))
  {
    StubAsWrittenUnderflows("Calculator", "add", MethodDesc([Base(Int)], Value(Base(Int))));
  }

  /** The corrected stub balances the stack for every descriptor. */
  lemma StubBodyWellStacked(targetClass: string, value: string, td: MethodDesc)
    ensures WellStacked(StubBody(targetClass, value, td))
  {
    var target := InternalName(targetClass);
    var p := [Load(RefKind, 1), CheckCast(target)];
    var loads := ArgLoads(td.args, 2);
    var tail := [Invoke(InvokeVirtual, target, OriginalName(value, td), td, false), ReturnInsn(td.ret)];
    assert StubBody(targetClass, value, td) == p + (loads + tail);
    StackAfterJoin(p, loads + tail, 0);
    StackAfterJoin(loads, tail, 1);
    StackAfterArgLoads(td.args, 2, 1);
    CallReturnStack(InvokeVirtual, target, OriginalName(value, td), td, false, 1 + |td.args|);
  }

  /**
   * The corrected stub passes the k-th parameter after self, with its own load kind and from
   * its own slot; for a stub with only self it is the body as written.
   */
  lemma StubPassesParameters(targetClass: string, value: string, td: MethodDesc)
    ensures |StubBody(targetClass, value, td)| == |td.args| + 4
    ensures forall k :: 0 <= k < |td.args| ==>
              StubBody(targetClass, value, td)[2 + k] == Load(KindOf(td.args[k]), 2 + SlotSum(td.args[..k]))
    ensures td.args == [] ==> StubBody(targetClass, value, td) == StubBodyAsWritten(targetClass, value, td)
  {
    ArgLoadsLength(td.args, 2);
    forall k | 0 <= k < |td.args|
      ensures StubBody(targetClass, value, td)[2 + k] == Load(KindOf(td.args[k]), 2 + SlotSum(td.args[..k]))
    {
      ArgLoadsAt(td.args, 2, k);
    }
  }

  /** The mixin rewrite fails (the hook returns `null`) exactly when some keyed stub declares no parameter at all. */
  lemma MixinRewriteSucceedsIff(cf: ClassFile, mapping: MixinMapping)
    ensures MixinRewrite(cf, mapping).None? <==>
            exists i :: 0 <= i < |cf.methods| && Key(cf.methods[i]) in mapping.originals && cf.methods[i].desc.args == []
  {
  }

  /**
   * The mixin as rewritten: the same class with the same methods in the same order; each
   * keyed stub keeps name, descriptor, signature and exceptions, loses only its native bit,
   * and gets a body that balances the stack; every other method is untouched.
   */
  lemma MixinRewriteShape(cf: ClassFile, mapping: MixinMapping)
    requires MixinRewrite(cf, mapping).Some?
    ensures var r := MixinRewrite(cf, mapping).value;
            && r == cf.(methods := r.methods)
            && |r.methods| == |cf.methods|
            && (forall i :: 0 <= i < |cf.methods| && Key(cf.methods[i]) !in mapping.originals ==> r.methods[i] == cf.methods[i])
            && (forall i :: 0 <= i < |cf.methods| && Key(cf.methods[i]) in mapping.originals ==>
                  && r.methods[i].name == cf.methods[i].name
                  && r.methods[i].desc == cf.methods[i].desc
                  && r.methods[i].signature == cf.methods[i].signature
                  && r.methods[i].exceptions == cf.methods[i].exceptions
                  && r.methods[i].access & ACC_NATIVE == 0
                  && r.methods[i].access | ACC_NATIVE == cf.methods[i].access | ACC_NATIVE
                  && WellStacked(r.methods[i].instructions)
                  && r.methods[i].tryCatchBlocks == []
                  && r.methods[i].localVariables == None)
  {
    var r := MixinRewrite(cf, mapping).value;
    forall i | 0 <= i < |cf.methods| && Key(cf.methods[i]) in mapping.originals
      ensures WellStacked(r.methods[i].instructions)
    {
      var m := cf.methods[i];
      StubBodyWellStacked(mapping.targetClass, mapping.originals[Key(m)], TargetDescriptor(m.desc));
    }
  }

  /**
   * The mixin as the engine writes it and the mixin with the corrected stubs agree exactly
   * when the rewrite is refused anyway or every keyed stub declares at most its self parameter.
   */
  lemma MixinRewriteAsWrittenAgrees(cf: ClassFile, mapping: MixinMapping)
    ensures MixinRewriteAsWritten(cf, mapping) == MixinRewrite(cf, mapping) <==>
            || (exists i :: 0 <= i < |cf.methods| && StubRejected(cf.methods[i], mapping.originals))
            || (forall i :: 0 <= i < |cf.methods| && Key(cf.methods[i]) in mapping.originals ==> |cf.methods[i].desc.args| <= 1)
  {
    if !exists i :: 0 <= i < |cf.methods| && StubRejected(cf.methods[i], mapping.originals) {
      var w := MixinRewriteAsWritten(cf, mapping).value;
      var c := MixinRewrite(cf, mapping).value;
      if forall i :: 0 <= i < |cf.methods| && Key(cf.methods[i]) in mapping.originals ==> |cf.methods[i].desc.args| <= 1 {
        forall i | 0 <= i < |cf.methods| ensures w.methods[i] == c.methods[i] {
          var m := cf.methods[i];
          if Key(m) in mapping.originals {
            StubPassesParameters(mapping.targetClass, mapping.originals[Key(m)], TargetDescriptor(m.desc));
          }
        }
        assert w.methods == c.methods;
      } else {
        var i :| 0 <= i < |cf.methods| && Key(cf.methods[i]) in mapping.originals && |cf.methods[i].desc.args| > 1;
        var m := cf.methods[i];
        StubPassesParameters(mapping.targetClass, mapping.originals[Key(m)], TargetDescriptor(m.desc));
        assert |w.methods[i].instructions| != |c.methods[i].instructions|;
      }
    }
  }

  // --------------------------------------------------------------- dispatch

  /** A key is stored exactly when some mapping has it. */
  lemma {:induction false} IndexByDomain<T>(ms: seq<T>, key: T -> string, k: string)
    ensures k in IndexBy(ms, key) <==> exists i :: 0 <= i < |ms| && key(ms[i]) == k
    decreases |ms|
  {
    if ms != [] {
      var init := ms[..|ms| - 1];
      assert IndexBy(ms, key) == IndexBy(init, key)[key(ms[|ms| - 1]) := ms[|ms| - 1]];
      IndexByDomain(init, key, k);
      if k in IndexBy(init, key) {
        var i :| 0 <= i < |init| && key(init[i]) == k;
        assert ms[i] == init[i];
      }
      if exists i :: 0 <= i < |ms| && key(ms[i]) == k {
        var i :| 0 <= i < |ms| && key(ms[i]) == k;
        if i < |init| {
          assert init[i] == ms[i];
        }
      }
    }
  }

  /** A stored key holds the last mapping that has it. */
  lemma {:induction false} IndexByLast<T>(ms: seq<T>, key: T -> string, k: string)
    requires k in IndexBy(ms, key)
    ensures exists i :: 0 <= i < |ms| && key(ms[i]) == k && IndexBy(ms, key)[k] == ms[i] &&
              forall j :: i < j < |ms| ==> key(ms[j]) != k
    decreases |ms|
  {
    var init := ms[..|ms| - 1];
    var last := |ms| - 1;
    assert IndexBy(ms, key) == IndexBy(init, key)[key(ms[last]) := ms[last]];
    if key(ms[last]) != k {
      IndexByLast(init, key, k);
      var i :| 0 <= i < |init| && key(init[i]) == k && IndexBy(init, key)[k] == init[i] &&
               forall j :: i < j < |init| ==> key(init[j]) != k;
      assert ms[i] == init[i];
      forall j | i < j < |ms| ensures key(ms[j]) != k {
        if j < last {
          assert ms[j] == init[j];
        }
      }
    }
  }

  /** Over the mapping list the hook was built from, a class no mapping names as target or mixin is left alone. */
  lemma TransformOfUnnamed(mappings: seq<MixinMapping>, className: string, bytes: ClassBytes)
    requires forall i :: 0 <= i < |mappings| ==> TargetKey(mappings[i]) != className && MixinKey(mappings[i]) != className
    ensures TransformSpec(IndexBy(mappings, TargetKey), IndexBy(mappings, MixinKey), className, bytes) == None
  {
    IndexByDomain(mappings, TargetKey, className);
    IndexByDomain(mappings, MixinKey, className);
  }

  /**
   * Over the mapping list the hook was built from, a class some mapping targets is rewritten
   * with the last mapping that targets it, even when it is also a mixin.
   */
  lemma TransformOfTarget(mappings: seq<MixinMapping>, className: string, bytes: ClassBytes, i: nat)
    requires i < |mappings| && TargetKey(mappings[i]) == className
    requires forall j :: i < j < |mappings| ==> TargetKey(mappings[j]) != className
    ensures TransformSpec(IndexBy(mappings, TargetKey), IndexBy(mappings, MixinKey), className, bytes) ==
            (if bytes.Malformed? then None else TargetRewrite(bytes.file, mappings[i]))
  {
    IndexByDomain(mappings, TargetKey, className);
    IndexByLast(mappings, TargetKey, className);
    var targets := IndexBy(mappings, TargetKey);
    var i' :| 0 <= i' < |mappings| && TargetKey(mappings[i']) == className && targets[className] == mappings[i'] &&
              forall j :: i' < j < |mappings| ==> TargetKey(mappings[j]) != className;
    assert i == i';
  }

  /**
   * Over the mapping list the hook was built from, a class that is some mapping's mixin and no
   * mapping's target is rewritten as a mixin, with the last mapping that has it as mixin.
   */
  lemma TransformOfMixin(mappings: seq<MixinMapping>, className: string, bytes: ClassBytes, i: nat)
    requires i < |mappings| && MixinKey(mappings[i]) == className
    requires forall j :: i < j < |mappings| ==> MixinKey(mappings[j]) != className
    requires forall j :: 0 <= j < |mappings| ==> TargetKey(mappings[j]) != className
    ensures TransformSpec(IndexBy(mappings, TargetKey), IndexBy(mappings, MixinKey), className, bytes) ==
            (if bytes.Malformed? then None else MixinRewrite(bytes.file, mappings[i]))
  {
    IndexByDomain(mappings, TargetKey, className);
    IndexByDomain(mappings, MixinKey, className);
    IndexByLast(mappings, MixinKey, className);
    var mixins := IndexBy(mappings, MixinKey);
    var i' :| 0 <= i' < |mappings| && MixinKey(mappings[i']) == className && mixins[className] == mappings[i'] &&
              forall j :: i' < j < |mappings| ==> MixinKey(mappings[j]) != className;
    assert i == i';
  }
}
