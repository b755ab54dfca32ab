/**
 * The mapping of the older agent: a mixin class whose declared methods must all be static,
 * and whose `@Overwrite` methods are keyed by their own name and full descriptor (self
 * parameter included). A non-static method or a repeated key aborts the build.
 */
module LegacyMappings {
  import opened Wrappers
  import opened Descriptors
  import Mappings

  /** A declared method of a legacy mixin: name, descriptor, static or not, `@Overwrite` present or not. */
  datatype LegacyMethod = LegacyMethod(name: string, desc: MethodDesc, isStatic: bool, overwrite: bool)

  /** A legacy mixin class: its binary name, the binary name its `@Mixin` names (None when absent), its declared methods. */
  datatype LegacyDecl = LegacyDecl(className: string, mixinTarget: Option<string>, methods: seq<LegacyMethod>)

  datatype LegacyMapping = LegacyMapping(mixinClass: string, targetClass: string, overwrites: map<string, Mappings.Handler>)

  datatype LegacyError =
    | MissingMixin
    | NonStaticMethod(name: string, desc: MethodDesc)
    | DuplicateOverwrite(key: string)

  /** `method.getName()` followed by the `MethodType` descriptor of its return and parameter types. */
  function LegacyKey(m: LegacyMethod): string {
    m.name + Render(m.desc)
  }

  /** One turn of the constructor's loop. */
  function LegacyStep(overwrites: map<string, Mappings.Handler>, cls: string, m: LegacyMethod): Result<map<string, Mappings.Handler>, LegacyError> {
    if !m.isStatic then Failure(NonStaticMethod(m.name, m.desc))
    else if !m.overwrite then Success(overwrites)
    else
      var key := LegacyKey(m);
      if key in overwrites then Failure(DuplicateOverwrite(key))
      else Success(overwrites[key := Mappings.Handler(cls, m.name, m.desc)])
  }

  function LegacyAll(overwrites: map<string, Mappings.Handler>, cls: string, ms: seq<LegacyMethod>): Result<map<string, Mappings.Handler>, LegacyError>
    decreases |ms|
  {
    if ms == [] then Success(overwrites)
    else
      match LegacyStep(overwrites, cls, ms[0])
      case Failure(e) => Failure(e)
      case Success(o) => LegacyAll(o, cls, ms[1..])
  }

  function LegacyBuildSpec(decl: LegacyDecl): Result<LegacyMapping, LegacyError> {
    match decl.mixinTarget
    case None => Failure(MissingMixin)
    case Some(target) =>
      match LegacyAll(map[], decl.className, decl.methods)
      case Failure(e) => Failure(e)
      case Success(o) => Success(LegacyMapping(decl.className, target, o))
  }

  /** The legacy `MixinMapping` constructor. */
  method LegacyBuild(decl: LegacyDecl) returns (r: Result<LegacyMapping, LegacyError>)
    ensures r == LegacyBuildSpec(decl)
  {
    if decl.mixinTarget.None? {
      return Failure(MissingMixin);
    }
    var overwrites: map<string, Mappings.Handler> := map[];
    var i := 0;
    while i < |decl.methods|
      invariant 0 <= i <= |decl.methods|
      invariant LegacyAll(overwrites, decl.className, decl.methods[i..]) == LegacyAll(map[], decl.className, decl.methods)
    {
      var m := decl.methods[i];
      assert decl.methods[i..][1..] == decl.methods[i + 1..];
      if !m.isStatic {
        return Failure(NonStaticMethod(m.name, m.desc));
      }
      if m.overwrite {
        var key := m.name + Render(m.desc);
        if key in overwrites {
          return Failure(DuplicateOverwrite(key));
        }
        overwrites := overwrites[key := Mappings.Handler(decl.className, m.name, m.desc)];
      }
      i := i + 1;
    }
    r := Success(LegacyMapping(decl.className, decl.mixinTarget.value, overwrites));
  }

  // -------------------------------------------------------------- properties

  /** No two `@Overwrite` methods share a key. */
  predicate LegacyKeysDistinct(ms: seq<LegacyMethod>) {
    forall i, j :: 0 <= i < j < |ms| && ms[i].overwrite && ms[j].overwrite ==> LegacyKey(ms[i]) != LegacyKey(ms[j])
  }

  lemma {:induction false} LegacyAllSucceedsIff(o: map<string, Mappings.Handler>, cls: string, ms: seq<LegacyMethod>)
    ensures LegacyAll(o, cls, ms).Success? <==>
            && (forall i :: 0 <= i < |ms| ==> ms[i].isStatic)
            && LegacyKeysDistinct(ms)
            && (forall i :: 0 <= i < |ms| && ms[i].overwrite ==> LegacyKey(ms[i]) !in o)
    decreases |ms|
  {
    if ms != [] {
      var m := ms[0];
      var rest := ms[1..];
      assert forall i :: 0 <= i < |rest| ==> rest[i] == ms[i + 1];
      var step := LegacyStep(o, cls, m);
      if step.Success? {
        LegacyAllSucceedsIff(step.value, cls, rest);
        if LegacyAll(o, cls, ms).Success? {
          forall i, j | 0 <= i < j < |ms| && ms[i].overwrite && ms[j].overwrite
            ensures LegacyKey(ms[i]) != LegacyKey(ms[j])
          {
            if i > 0 {
              assert ms[i] == rest[i - 1] && ms[j] == rest[j - 1];
            } else {
              assert ms[j] == rest[j - 1];
            }
          }
        } else {
          // rejection in the rest: some method there is non-static, or two keys there clash,
          // or a key there is already stored after the first step
          if (forall i :: 0 <= i < |ms| ==> ms[i].isStatic) && LegacyKeysDistinct(ms) {
            assert LegacyKeysDistinct(rest) by {
              forall i, j | 0 <= i < j < |rest| && rest[i].overwrite && rest[j].overwrite
                ensures LegacyKey(rest[i]) != LegacyKey(rest[j])
              {
                assert rest[i] == ms[i + 1] && rest[j] == ms[j + 1];
              }
            }
            var i :| 0 <= i < |rest| && rest[i].overwrite && LegacyKey(rest[i]) in step.value;
            assert ms[i + 1] == rest[i];
          }
        }
      }
    }
  }

  /** A build succeeds exactly when `@Mixin` is present, every declared method is static and no two overwrites share a key. */
  lemma LegacyBuildSucceedsIff(decl: LegacyDecl)
    ensures LegacyBuildSpec(decl).Success? <==>
            && decl.mixinTarget.Some?
            && (forall i :: 0 <= i < |decl.methods| ==> decl.methods[i].isStatic)
            && LegacyKeysDistinct(decl.methods)
  {
    LegacyAllSucceedsIff(map[], decl.className, decl.methods);
  }

  /** The keys the annotated methods contribute. */
  function LegacyKeys(ms: seq<LegacyMethod>): set<string> {
    set m | m in ms && m.overwrite :: LegacyKey(m)
  }

  lemma {:induction false} LegacyAllKeys(o: map<string, Mappings.Handler>, cls: string, ms: seq<LegacyMethod>)
    requires LegacyAll(o, cls, ms).Success?
    ensures var o' := LegacyAll(o, cls, ms).value;
            && o'.Keys == o.Keys + LegacyKeys(ms)
            && (forall k :: k in o ==> o'[k] == o[k])
    decreases |ms|
  {
    if ms != [] {
      var m := ms[0];
      var rest := ms[1..];
      assert forall x :: x in ms <==> x == m || x in rest;
      LegacyAllKeys(LegacyStep(o, cls, m).value, cls, rest);
      assert LegacyKeys(ms) == (if m.overwrite then {LegacyKey(m)} else {}) + LegacyKeys(rest);
    } else {
      assert LegacyKeys(ms) == {};
    }
  }

  lemma {:induction false} LegacyAllValues(o: map<string, Mappings.Handler>, cls: string, ms: seq<LegacyMethod>)
    requires LegacyAll(o, cls, ms).Success?
    ensures var o' := LegacyAll(o, cls, ms).value;
            forall i :: 0 <= i < |ms| && ms[i].overwrite ==>
              LegacyKey(ms[i]) in o' && o'[LegacyKey(ms[i])] == Mappings.Handler(cls, ms[i].name, ms[i].desc)
    decreases |ms|
  {
    if ms != [] {
      var m := ms[0];
      var rest := ms[1..];
      var o1 := LegacyStep(o, cls, m).value;
      LegacyAllValues(o1, cls, rest);
      LegacyAllKeys(o1, cls, rest);
      var o' := LegacyAll(o, cls, ms).value;
      forall i | 0 <= i < |ms| && ms[i].overwrite
        ensures LegacyKey(ms[i]) in o' && o'[LegacyKey(ms[i])] == Mappings.Handler(cls, ms[i].name, ms[i].desc)
      {
        if i > 0 {
          assert rest[i - 1] == ms[i];
        }
      }
    }
  }

  /**
   * On success the overwrites are keyed by the annotated methods' own keys, each holding
   * that method, so every entry's key is its handler's name followed by its full descriptor.
   */
  lemma LegacyBuildContents(decl: LegacyDecl)
    requires LegacyBuildSpec(decl).Success?
    ensures var r := LegacyBuildSpec(decl).value;
            && r.mixinClass == decl.className
            && Some(r.targetClass) == decl.mixinTarget
            && r.overwrites.Keys == LegacyKeys(decl.methods)
            && (forall i :: 0 <= i < |decl.methods| && decl.methods[i].overwrite ==>
                  r.overwrites[LegacyKey(decl.methods[i])] == Mappings.Handler(decl.className, decl.methods[i].name, decl.methods[i].desc))
            && (forall k :: k in r.overwrites ==> k == r.overwrites[k].name + Render(r.overwrites[k].desc))
  {
    LegacyAllKeys(map[], decl.className, decl.methods);
    LegacyAllValues(map[], decl.className, decl.methods);
    var r := LegacyBuildSpec(decl).value;
    forall k | k in r.overwrites ensures k == r.overwrites[k].name + Render(r.overwrites[k].desc) {
      var m :| m in decl.methods && m.overwrite && LegacyKey(m) == k;
      var i :| 0 <= i < |decl.methods| && decl.methods[i] == m;
    }
  }
}
