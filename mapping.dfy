/**
 * The mapping builder: from a mixin class's declared methods and their role annotations
 * (`@Original`, `@Overwrite`, `@Redirect`) to the three tables the engine consults:
 * overwrites, originals and redirects. Any rejected declaration aborts the whole build, so
 * either every declaration is accepted and the mapping is returned, or an error is.
 */
module Mappings {
  import opened Wrappers
  import opened Strings
  import opened Descriptors

  /** `@Redirect(method = ..., at = @At(desc = ..., index = ..., call = ...))`. */
  datatype RedirectAnnotation = RedirectAnnotation(targetMethod: string, atDesc: string, atIndex: int, atCall: string)

  /**
   * A declared method of the mixin as reflection reports it: its name, descriptor, whether it
   * is static, and the value of each role annotation it carries (None when absent).
   */
  datatype MethodDecl = MethodDecl(
    name: string,
    desc: MethodDesc,
    isStatic: bool,
    original: Option<string>,
    overwrite: Option<string>,
    redirect: Option<RedirectAnnotation>)

  /** A mixin class: its binary name, the value of its `@Mixin` (None when absent), its declared methods in reflection order. */
  datatype MixinDecl = MixinDecl(className: string, mixinTarget: Option<string>, methods: seq<MethodDecl>)

  /** A `java.lang.reflect.Method` of the mixin: declaring class (binary name), name and descriptor. */
  datatype Handler = Handler(owner: string, name: string, desc: MethodDesc)

  /** One collected redirect: the five values the builder passes. */
  datatype RedirectEntry = RedirectEntry(targetMethod: string, invokeDesc: string, index: int, call: string, handler: Handler)

  datatype MixinMapping = MixinMapping(
    mixinClass: string,
    targetClass: string,
    overwrites: map<string, Handler>,
    originals: map<string, string>,
    redirects: seq<RedirectEntry>)

  datatype BuildError =
    | MissingMixin
    | EmptyOriginalValue
    | EmptyOverwriteValue
    | StaticOverwrite
    | MissingSelf
    | TargetTypedParameter
    | DuplicateOverwrite(key: string)
    | NonStaticRedirect
    | MissingAtDesc
    | MissingRedirectMethod
    | NegativeIndex
    | InvalidInvokeDesc(desc: string)
    | SignatureMismatch(expected: string, found: string)

  datatype Role = NoRole | OriginalRole(originalOf: string) | OverwriteRole(overwriteOf: string) | RedirectRole(at: RedirectAnnotation)

  /** The role a method plays: `@Original` is checked first, then `@Overwrite`, then `@Redirect`. */
  function RoleOf(m: MethodDecl): Role {
    if m.original.Some? then OriginalRole(m.original.value)
    else if m.overwrite.Some? then OverwriteRole(m.overwrite.value)
    else if m.redirect.Some? then RedirectRole(m.redirect.value)
    else NoRole
  }

  predicate IsOriginal(m: MethodDecl) { RoleOf(m).OriginalRole? }
  predicate IsOverwrite(m: MethodDecl) { RoleOf(m).OverwriteRole? }
  predicate IsRedirect(m: MethodDecl) { RoleOf(m).RedirectRole? }

  function BaseName(b: BaseType): string {
    match b
    case Boolean => "boolean"
    case Byte => "byte"
    case Char => "char"
    case Short => "short"
    case Int => "int"
    case Float => "float"
    case Long => "long"
    case Double => "double"
  }

  /** `Class.getName()` of a parameter type: `int`, `a.b.C`, or `[La.b.C;` for arrays. */
  function JavaClassName(t: FieldType): string {
    match t
    case Base(b) => BaseName(b)
    case Object(n) => Replace(n, '/', '.')
    case Array(_) => Replace(RenderField(t), '/', '.')
  }

  /** `targetDescriptor`: the mixin method's descriptor without its leading self parameter. */
  function TargetDescriptor(d: MethodDesc): (r: MethodDesc)
    ensures r.ret == d.ret
    ensures |d.args| == 0 ==> r.args == []
    ensures |d.args| > 0 ==> |r.args| == |d.args| - 1 && [d.args[0]] + r.args == d.args
  {
    MethodDesc(d.args[if |d.args| == 0 then 0 else 1..], d.ret)
  }

  /** `method.getName() + Type.getMethodDescriptor(method)`. */
  function OriginalKey(m: MethodDecl): string {
    m.name + Render(m.desc)
  }

  /** `overwrite.value() + targetDescriptor(method)`. */
  function OverwriteKey(m: MethodDecl): string
    requires IsOverwrite(m)
  {
    m.overwrite.value + Render(TargetDescriptor(m.desc))
  }

  /** The part of an `@At` descriptor from its first `(`: the invoked method's descriptor. */
  function InvokeSignature(atDesc: string): string
    requires '(' in atDesc
  {
    atDesc[IndexOf(atDesc, '(')..]
  }

  predicate HasTargetTypedParameter(target: string, m: MethodDecl) {
    exists i :: 0 <= i < |m.desc.args| && JavaClassName(m.desc.args[i]) == target
  }

  /** What an accepted overwrite declaration satisfies. */
  predicate OverwriteAcceptable(target: string, m: MethodDecl, value: string) {
    value != "" && !m.isStatic && |m.desc.args| > 0 && !HasTargetTypedParameter(target, m)
  }

  /** What an accepted redirect declaration satisfies. */
  predicate RedirectAcceptable(m: MethodDecl, a: RedirectAnnotation) {
    && m.isStatic
    && a.atDesc != ""
    && a.targetMethod != ""
    && a.atIndex >= 0
    && '(' in a.atDesc
    && Render(m.desc) == InvokeSignature(a.atDesc)
  }

  /** A declaration the builder accepts on its own, whatever the others are. */
  predicate Acceptable(target: string, m: MethodDecl) {
    match RoleOf(m)
    case NoRole => true
    case OriginalRole(v) => v != ""
    case OverwriteRole(v) => OverwriteAcceptable(target, m, v)
    case RedirectRole(a) => RedirectAcceptable(m, a)
  }

  /** No two overwrite declarations share a key. */
  predicate OverwriteKeysDistinct(ms: seq<MethodDecl>) {
    forall i, j :: 0 <= i < j < |ms| && IsOverwrite(ms[i]) && IsOverwrite(ms[j]) ==> OverwriteKey(ms[i]) != OverwriteKey(ms[j])
  }

  // ------------------------------------------------------------ the builder

  datatype Tables = Tables(overwrites: map<string, Handler>, originals: map<string, string>, redirects: seq<RedirectEntry>)

  const NoTables := Tables(map[], map[], [])

  function HandleOriginal(t: Tables, m: MethodDecl, value: string): Result<Tables, BuildError> {
    if value == "" then Failure(EmptyOriginalValue)
    else Success(t.(originals := t.originals[OriginalKey(m) := value]))
  }

  function HandleOverwrite(t: Tables, cls: string, target: string, m: MethodDecl): Result<Tables, BuildError>
    requires IsOverwrite(m)
  {
    var value := m.overwrite.value;
    if value == "" then Failure(EmptyOverwriteValue)
    else if m.isStatic then Failure(StaticOverwrite)
    else if |m.desc.args| == 0 then Failure(MissingSelf)
    else if HasTargetTypedParameter(target, m) then Failure(TargetTypedParameter)
    else
      var key := OverwriteKey(m);
      if key in t.overwrites then Failure(DuplicateOverwrite(key))
      else Success(t.(overwrites := t.overwrites[key := Handler(cls, m.name, m.desc)]))
  }

  function RedirectEntryOf(cls: string, m: MethodDecl, a: RedirectAnnotation): RedirectEntry {
    RedirectEntry(a.targetMethod, a.atDesc, a.atIndex, a.atCall, Handler(cls, m.name, m.desc))
  }

  function HandleRedirect(t: Tables, cls: string, m: MethodDecl, a: RedirectAnnotation): Result<Tables, BuildError> {
    if !m.isStatic then Failure(NonStaticRedirect)
    else if a.atDesc == "" then Failure(MissingAtDesc)
    else if a.targetMethod == "" then Failure(MissingRedirectMethod)
    else if a.atIndex < 0 then Failure(NegativeIndex)
    else
      var paren := IndexOf(a.atDesc, '(');
      if paren == -1 then Failure(InvalidInvokeDesc(a.atDesc))
      else
        var invokeDesc := a.atDesc[paren..];
        var handlerDesc := Render(m.desc);
        if handlerDesc != invokeDesc then Failure(SignatureMismatch(invokeDesc, handlerDesc))
        else Success(t.(redirects := t.redirects + [RedirectEntryOf(cls, m, a)]))
  }

  /** One turn of the constructor's loop: the handler of the method's role, or nothing. */
  function HandleMethod(t: Tables, cls: string, target: string, m: MethodDecl): Result<Tables, BuildError> {
    match RoleOf(m)
    case OriginalRole(v) => HandleOriginal(t, m, v)
    case OverwriteRole(_) => HandleOverwrite(t, cls, target, m)
    case RedirectRole(a) => HandleRedirect(t, cls, m, a)
    case NoRole => Success(t)
  }

  /** The declarations handled in order from `t`, stopping at the first rejection. */
  function HandleAll(t: Tables, cls: string, target: string, ms: seq<MethodDecl>): Result<Tables, BuildError>
    decreases |ms|
  {
    if ms == [] then Success(t)
    else
      match HandleMethod(t, cls, target, ms[0])
      case Failure(e) => Failure(e)
      case Success(t') => HandleAll(t', cls, target, ms[1..])
  }

  function BuildSpec(decl: MixinDecl): Result<MixinMapping, BuildError> {
    match decl.mixinTarget
    case None => Failure(MissingMixin)
    case Some(target) =>
      match HandleAll(NoTables, decl.className, target, decl.methods)
      case Failure(e) => Failure(e)
      case Success(t) => Success(MixinMapping(decl.className, target, t.overwrites, t.originals, t.redirects))
  }

  /** The `MixinMapping` constructor. */
  method Build(decl: MixinDecl) returns (r: Result<MixinMapping, BuildError>)
    ensures r == BuildSpec(decl)
  {
    if decl.mixinTarget.None? {
      return Failure(MissingMixin);
    }
    var target := decl.mixinTarget.value;
    var overwrites: map<string, Handler> := map[];
    var originals: map<string, string> := map[];
    var redirects: seq<RedirectEntry> := [];
    var i := 0;
    while i < |decl.methods|
      invariant 0 <= i <= |decl.methods|
      invariant HandleAll(Tables(overwrites, originals, redirects), decl.className, target, decl.methods[i..])
                == HandleAll(NoTables, decl.className, target, decl.methods)
    {
      var m := decl.methods[i];
      var step := HandleMethod(Tables(overwrites, originals, redirects), decl.className, target, m);
      assert decl.methods[i..][1..] == decl.methods[i + 1..];
      if step.Failure? {
        return Failure(step.error);
      }
      overwrites, originals, redirects := step.value.overwrites, step.value.originals, step.value.redirects;
      i := i + 1;
    }
    r := Success(MixinMapping(decl.className, target, overwrites, originals, redirects));
  }
}
