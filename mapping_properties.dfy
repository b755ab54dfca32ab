/**
 * What the mapping builder promises: when a build succeeds, which declarations it accepts,
 * what the three tables then hold, and how the keys it stores match the target's methods.
 */
module MappingProperties {
  import opened Wrappers
  import opened Strings
  import opened Descriptors
  import opened Mappings

  /** The keys the declared `@Original` stubs contribute. */
  function OriginalKeys(ms: seq<MethodDecl>): set<string> {
    set m | m in ms && IsOriginal(m) :: OriginalKey(m)
  }

  /** The keys the declared overwrites contribute. */
  function OverwriteKeys(ms: seq<MethodDecl>): set<string> {
    set m | m in ms && IsOverwrite(m) :: OverwriteKey(m)
  }

  /** The redirect declarations, in declaration order, as entries. */
  function RedirectsOf(cls: string, ms: seq<MethodDecl>): seq<RedirectEntry> {
    if ms == [] then []
    else (if IsRedirect(ms[0]) then [RedirectEntryOf(cls, ms[0], RoleOf(ms[0]).at)] else []) + RedirectsOf(cls, ms[1..])
  }

  /** No two `@Original` stubs share name and descriptor, as in any valid class file. */
  predicate OriginalKeysDistinct(ms: seq<MethodDecl>) {
    forall i, j :: 0 <= i < j < |ms| && IsOriginal(ms[i]) && IsOriginal(ms[j]) ==> OriginalKey(ms[i]) != OriginalKey(ms[j])
  }

  /** One declaration: accepted exactly when it is acceptable and does not repeat a stored overwrite key; what it adds. */
  lemma HandleMethodEffect(t: Tables, cls: string, target: string, m: MethodDecl)
    ensures HandleMethod(t, cls, target, m).Success? <==>
            Acceptable(target, m) && (IsOverwrite(m) ==> OverwriteKey(m) !in t.overwrites)
    ensures HandleMethod(t, cls, target, m).Success? ==>
            var t' := HandleMethod(t, cls, target, m).value;
            && t'.overwrites == (if IsOverwrite(m) then t.overwrites[OverwriteKey(m) := Handler(cls, m.name, m.desc)] else t.overwrites)
            && t'.originals == (if IsOriginal(m) then t.originals[OriginalKey(m) := m.original.value] else t.originals)
            && t'.redirects == t.redirects + (if IsRedirect(m) then [RedirectEntryOf(cls, m, RoleOf(m).at)] else [])
  {
  }

  lemma StepOriginals(t: Tables, cls: string, target: string, m: MethodDecl)
    requires HandleMethod(t, cls, target, m).Success?
    ensures HandleMethod(t, cls, target, m).value.originals ==
            (if IsOriginal(m) then t.originals[OriginalKey(m) := m.original.value] else t.originals)
  {
  }

  lemma StepOverwrites(t: Tables, cls: string, target: string, m: MethodDecl)
    requires HandleMethod(t, cls, target, m).Success?
    ensures HandleMethod(t, cls, target, m).value.overwrites ==
            (if IsOverwrite(m) then t.overwrites[OverwriteKey(m) := Handler(cls, m.name, m.desc)] else t.overwrites)
    ensures IsOverwrite(m) ==> OverwriteKey(m) !in t.overwrites
  {
  }

  lemma StepRedirects(t: Tables, cls: string, target: string, m: MethodDecl)
    requires HandleMethod(t, cls, target, m).Success?
    ensures HandleMethod(t, cls, target, m).value.redirects ==
            t.redirects + (if IsRedirect(m) then [RedirectEntryOf(cls, m, RoleOf(m).at)] else [])
  {
  }

  lemma {:induction false} HandleAllSucceedsIff(t: Tables, cls: string, target: string, ms: seq<MethodDecl>)
    ensures HandleAll(t, cls, target, ms).Success? <==>
            && (forall i :: 0 <= i < |ms| ==> Acceptable(target, ms[i]))
            && OverwriteKeysDistinct(ms)
            && (forall i :: 0 <= i < |ms| && IsOverwrite(ms[i]) ==> OverwriteKey(ms[i]) !in t.overwrites)
    decreases |ms|
  {
    if ms != [] {
      var m := ms[0];
      var rest := ms[1..];
      assert forall i :: 0 <= i < |rest| ==> rest[i] == ms[i + 1];
      HandleMethodEffect(t, cls, target, m);
      var step := HandleMethod(t, cls, target, m);
      if step.Success? {
        var t' := step.value;
        HandleAllSucceedsIff(t', cls, target, rest);
        if HandleAll(t, cls, target, ms).Success? {
          assert HandleAll(t', cls, target, rest).Success?;
          forall i, j | 0 <= i < j < |ms| && IsOverwrite(ms[i]) && IsOverwrite(ms[j])
            ensures OverwriteKey(ms[i]) != OverwriteKey(ms[j])
          {
            if i > 0 {
              assert rest[i - 1] == ms[i] && rest[j - 1] == ms[j];
            } else {
              assert rest[j - 1] == ms[j];
              assert OverwriteKey(ms[j]) !in t'.overwrites;
            }
          }
        } else {
          assert !HandleAll(t', cls, target, rest).Success?;
          if (forall i :: 0 <= i < |ms| ==> Acceptable(target, ms[i])) && OverwriteKeysDistinct(ms) {
            assert forall i, j :: 0 <= i < j < |rest| && IsOverwrite(rest[i]) && IsOverwrite(rest[j]) ==>
              OverwriteKey(rest[i]) != OverwriteKey(rest[j]) by {
              forall i, j | 0 <= i < j < |rest| && IsOverwrite(rest[i]) && IsOverwrite(rest[j])
                ensures OverwriteKey(rest[i]) != OverwriteKey(rest[j])
              {
                assert rest[i] == ms[i + 1] && rest[j] == ms[j + 1];
              }
            }
            var i :| 0 <= i < |rest| && IsOverwrite(rest[i]) && OverwriteKey(rest[i]) in t'.overwrites;
            assert ms[i + 1] == rest[i];
            if IsOverwrite(m) {
              assert OverwriteKey(m) != OverwriteKey(ms[i + 1]);
            }
          }
        }
      } else {
        assert !Acceptable(target, ms[0]) || (IsOverwrite(ms[0]) && OverwriteKey(ms[0]) in t.overwrites);
      }
    }
  }

  /**
   * A build succeeds exactly when the class carries `@Mixin`, every declaration passes the
   * checks of its role, and no two overwrites share a key; otherwise it fails as a whole.
   */
  lemma BuildSucceedsIff(decl: MixinDecl)
    ensures BuildSpec(decl).Success? <==>
            && decl.mixinTarget.Some?
            && (forall i :: 0 <= i < |decl.methods| ==> Acceptable(decl.mixinTarget.value, decl.methods[i]))
            && OverwriteKeysDistinct(decl.methods)
  {
    if decl.mixinTarget.Some? {
      HandleAllSucceedsIff(NoTables, decl.className, decl.mixinTarget.value, decl.methods);
    }
  }

  lemma {:induction false} HandleAllOriginals(t: Tables, cls: string, target: string, ms: seq<MethodDecl>)
    requires HandleAll(t, cls, target, ms).Success?
    ensures var t' := HandleAll(t, cls, target, ms).value;
            && t'.originals.Keys == t.originals.Keys + OriginalKeys(ms)
            && (forall k :: k in t.originals && k !in OriginalKeys(ms) ==> t'.originals[k] == t.originals[k])
    decreases |ms|
  {
    if ms != [] {
      var m := ms[0];
      var rest := ms[1..];
      var t1 := HandleMethod(t, cls, target, m).value;
      assert HandleAll(t, cls, target, ms) == HandleAll(t1, cls, target, rest);
      assert forall x :: x in ms <==> x == m || x in rest;
      StepOriginals(t, cls, target, m);
      HandleAllOriginals(t1, cls, target, rest);
      var here: set<string> := if IsOriginal(m) then {OriginalKey(m)} else {};
      assert t1.originals.Keys == t.originals.Keys + here;
      assert OriginalKeys(ms) == here + OriginalKeys(rest);
    } else {
      assert OriginalKeys(ms) == {};
    }
  }

  lemma OriginalKeysDistinctRest(ms: seq<MethodDecl>)
    requires |ms| > 0 && OriginalKeysDistinct(ms)
    ensures OriginalKeysDistinct(ms[1..])
    ensures IsOriginal(ms[0]) ==> OriginalKey(ms[0]) !in OriginalKeys(ms[1..])
  {
    var rest := ms[1..];
    forall i, j | 0 <= i < j < |rest| && IsOriginal(rest[i]) && IsOriginal(rest[j])
      ensures OriginalKey(rest[i]) != OriginalKey(rest[j])
    {
      assert rest[i] == ms[i + 1] && rest[j] == ms[j + 1];
    }
    if IsOriginal(ms[0]) {
      forall j | 0 <= j < |rest| && IsOriginal(rest[j])
        ensures OriginalKey(rest[j]) != OriginalKey(ms[0])
      {
        assert rest[j] == ms[j + 1];
      }
    }
  }

  lemma {:induction false} HandleAllOriginalValues(t: Tables, cls: string, target: string, ms: seq<MethodDecl>)
    requires HandleAll(t, cls, target, ms).Success?
    requires OriginalKeysDistinct(ms)
    ensures var t' := HandleAll(t, cls, target, ms).value;
            forall i :: 0 <= i < |ms| && IsOriginal(ms[i]) ==>
              OriginalKey(ms[i]) in t'.originals && t'.originals[OriginalKey(ms[i])] == ms[i].original.value
    decreases |ms|
  {
    if ms != [] {
      var m := ms[0];
      var rest := ms[1..];
      var t1 := HandleMethod(t, cls, target, m).value;
      var t' := HandleAll(t1, cls, target, rest).value;
      assert t' == HandleAll(t, cls, target, ms).value;
      OriginalKeysDistinctRest(ms);
      HandleAllOriginalValues(t1, cls, target, rest);
      if IsOriginal(m) {
        StepOriginals(t, cls, target, m);
        HandleAllOriginals(t1, cls, target, rest);
        assert OriginalKey(m) in t1.originals && t1.originals[OriginalKey(m)] == m.original.value;
      }
      forall i | 0 < i < |ms| && IsOriginal(ms[i])
        ensures OriginalKey(ms[i]) in t'.originals && t'.originals[OriginalKey(ms[i])] == ms[i].original.value
      {
        assert rest[i - 1] == ms[i];
      }
    }
  }

  lemma {:induction false} HandleAllOverwrites(t: Tables, cls: string, target: string, ms: seq<MethodDecl>)
    requires HandleAll(t, cls, target, ms).Success?
    ensures var t' := HandleAll(t, cls, target, ms).value;
            && t'.overwrites.Keys == t.overwrites.Keys + OverwriteKeys(ms)
            && (forall k :: k in t.overwrites ==> t'.overwrites[k] == t.overwrites[k])
    decreases |ms|
  {
    if ms != [] {
      var m := ms[0];
      var rest := ms[1..];
      var t1 := HandleMethod(t, cls, target, m).value;
      assert HandleAll(t, cls, target, ms) == HandleAll(t1, cls, target, rest);
      assert forall x :: x in ms <==> x == m || x in rest;
      StepOverwrites(t, cls, target, m);
      HandleAllOverwrites(t1, cls, target, rest);
      var here: set<string> := if IsOverwrite(m) then {OverwriteKey(m)} else {};
      assert t1.overwrites.Keys == t.overwrites.Keys + here;
      assert OverwriteKeys(ms) == here + OverwriteKeys(rest);
    } else {
      assert OverwriteKeys(ms) == {};
    }
  }

  lemma {:induction false} HandleAllOverwriteValues(t: Tables, cls: string, target: string, ms: seq<MethodDecl>)
    requires HandleAll(t, cls, target, ms).Success?
    ensures var t' := HandleAll(t, cls, target, ms).value;
            forall i :: 0 <= i < |ms| && IsOverwrite(ms[i]) ==>
              OverwriteKey(ms[i]) in t'.overwrites && t'.overwrites[OverwriteKey(ms[i])] == Handler(cls, ms[i].name, ms[i].desc)
    decreases |ms|
  {
    if ms != [] {
      var m := ms[0];
      var rest := ms[1..];
      var t1 := HandleMethod(t, cls, target, m).value;
      var t' := HandleAll(t1, cls, target, rest).value;
      assert t' == HandleAll(t, cls, target, ms).value;
      HandleAllOverwriteValues(t1, cls, target, rest);
      if IsOverwrite(m) {
        StepOverwrites(t, cls, target, m);
        HandleAllOverwrites(t1, cls, target, rest);
        assert OverwriteKey(m) in t1.overwrites && t1.overwrites[OverwriteKey(m)] == Handler(cls, m.name, m.desc);
      }
      forall i | 0 < i < |ms| && IsOverwrite(ms[i])
        ensures OverwriteKey(ms[i]) in t'.overwrites && t'.overwrites[OverwriteKey(ms[i])] == Handler(cls, ms[i].name, ms[i].desc)
      {
        assert rest[i - 1] == ms[i];
      }
    }
  }

  lemma {:induction false} HandleAllRedirects(t: Tables, cls: string, target: string, ms: seq<MethodDecl>)
    requires HandleAll(t, cls, target, ms).Success?
    ensures HandleAll(t, cls, target, ms).value.redirects == t.redirects + RedirectsOf(cls, ms)
    decreases |ms|
  {
    if ms == [] {
      assert RedirectsOf(cls, ms) == [];
    } else {
      var m := ms[0];
      var t1 := HandleMethod(t, cls, target, m).value;
      var here := if IsRedirect(m) then [RedirectEntryOf(cls, m, RoleOf(m).at)] else [];
      StepRedirects(t, cls, target, m);
      HandleAllRedirects(t1, cls, target, ms[1..]);
      assert t1.redirects == t.redirects + here;
      assert RedirectsOf(cls, ms) == here + RedirectsOf(cls, ms[1..]);
    }
  }

  /**
   * On success the mapping names the declared target, its originals are keyed by the stubs'
   * own name and full descriptor and carry the `@Original` value, its overwrites are keyed by
   * value plus self-stripped descriptor and carry the declaring method, and its redirects are
   * the redirect declarations in order.
   */
  lemma BuildContents(decl: MixinDecl)
    requires BuildSpec(decl).Success?
    ensures var r := BuildSpec(decl).value;
            && r.mixinClass == decl.className
            && Some(r.targetClass) == decl.mixinTarget
            && r.originals.Keys == OriginalKeys(decl.methods)
            && (OriginalKeysDistinct(decl.methods) ==>
                  forall i :: 0 <= i < |decl.methods| && IsOriginal(decl.methods[i]) ==>
                    r.originals[OriginalKey(decl.methods[i])] == decl.methods[i].original.value)
            && r.overwrites.Keys == OverwriteKeys(decl.methods)
            && (forall i :: 0 <= i < |decl.methods| && IsOverwrite(decl.methods[i]) ==>
                  r.overwrites[OverwriteKey(decl.methods[i])] == Handler(decl.className, decl.methods[i].name, decl.methods[i].desc))
            && r.redirects == RedirectsOf(decl.className, decl.methods)
  {
    var target := decl.mixinTarget.value;
    HandleAllOriginals(NoTables, decl.className, target, decl.methods);
    if OriginalKeysDistinct(decl.methods) {
      HandleAllOriginalValues(NoTables, decl.className, target, decl.methods);
    }
    HandleAllOverwrites(NoTables, decl.className, target, decl.methods);
    HandleAllOverwriteValues(NoTables, decl.className, target, decl.methods);
    HandleAllRedirects(NoTables, decl.className, target, decl.methods);
  }

  /**
   * Every overwrite entry of a built mapping comes from one accepted declaration: its key is
   * that declaration's key, its handler is that method of the mixin class, and the method
   * declares the self parameter.
   */
  lemma BuildOverwriteOrigin(decl: MixinDecl, k: string)
    requires BuildSpec(decl).Success? && k in BuildSpec(decl).value.overwrites
    ensures exists i :: 0 <= i < |decl.methods| && IsOverwrite(decl.methods[i]) && OverwriteKey(decl.methods[i]) == k
    ensures forall i :: 0 <= i < |decl.methods| && IsOverwrite(decl.methods[i]) && OverwriteKey(decl.methods[i]) == k ==>
              && BuildSpec(decl).value.overwrites[k] == Handler(decl.className, decl.methods[i].name, decl.methods[i].desc)
              && |decl.methods[i].desc.args| > 0
  {
    BuildContents(decl);
    BuildSucceedsIff(decl);
    var m :| m in decl.methods && IsOverwrite(m) && OverwriteKey(m) == k;
    var i :| 0 <= i < |decl.methods| && decl.methods[i] == m;
    assert Acceptable(decl.mixinTarget.value, decl.methods[i]);
  }

  /**
   * Every stored overwrite handler is an instance method with a self parameter, and its key
   * splits back into the target method's name and the handler's self-stripped descriptor.
   */
  lemma OverwriteKeyMatches(m: MethodDecl, name: string, desc: MethodDesc)
    requires IsOverwrite(m) && ValidDesc(m.desc) && ValidDesc(desc)
    requires '(' !in name && '(' !in m.overwrite.value
    ensures name + Render(desc) == OverwriteKey(m) <==> name == m.overwrite.value && desc == TargetDescriptor(m.desc)
  {
    var td := TargetDescriptor(m.desc);
    assert ValidDesc(td) by {
      if |m.desc.args| > 0 {
        forall i | 0 <= i < |td.args| ensures ValidField(td.args[i]) {
          assert td.args[i] == m.desc.args[i + 1];
        }
      }
    }
    if name + Render(desc) == OverwriteKey(m) {
      KeyInjective(name, desc, m.overwrite.value, td);
    }
  }

  /**
   * For an `@At` descriptor of the form `owner.name(args)ret` the split keeps `(args)ret`, so
   * a redirect handler's signature check passes exactly when its descriptor is the invoked one.
   */
  lemma RedirectSignatureMatches(owner: string, name: string, invoked: MethodDesc, handler: MethodDesc)
    requires '(' !in owner && '(' !in name
    requires ValidDesc(invoked) && ValidDesc(handler)
    ensures '(' in owner + "." + name + Render(invoked)
    ensures Render(handler) == InvokeSignature(owner + "." + name + Render(invoked)) <==> handler == invoked
  {
    var prefix := owner + "." + name;
    var s := prefix + Render(invoked);
    assert s[|prefix|] == '(';
    IndexOfJoin(prefix, Render(invoked), '(');
    assert s[|prefix|..] == Render(invoked);
    if Render(handler) == InvokeSignature(s) {
      RenderInjective(handler, invoked);
    }
  }
}
