# HyperMixins core, modelled in Dafny

HyperMixins is a Java agent that patches classes as the JVM loads them. A *mixin* class names its
*target* class with `@Mixin`. Its methods carry one of three role annotations:

- `@Overwrite("name")`: this method replaces the body of the target method `name`.
- `@Original("name")`: a native stub that calls the target method's original body.
- `@Redirect`: a call-site redirection. It is collected but never applied.

The project models two generations of the system:

- The agent engine (package `net.echo.hypermixins.agent`).
  - A mapping builder turns a mixin declaration into three tables: overwrites, originals and
    redirects. It rejects any ill-formed declaration.
  - A class-file transformer rewrites a target class. It adds a private field holding a mixin
    instance and creates that instance right after the superclass-constructor call of every
    constructor. It replaces each overwritten method's body by a call to the mixin's handler.
    It appends a public synthetic clone of each overwritten method under the name
    `__original$<name>$<hex hash of descriptor>`.
  - The same transformer also rewrites the mixin class itself: each `@Original` stub becomes a
    call to that clone.
- The older agent (package `net.echo.hypermixins` and its `transformer` package).
  - Its builder accepts only static methods and keys each `@Overwrite` by the method's own name
    and full descriptor.
  - Its transformer replaces a keyed method's body by a static call passing `this`.

Modules, one file each:

| file | module | what it holds |
|---|---|---|
| `wrappers.dfy` | `Wrappers` | `Option` and `Result` |
| `strings.dfy` | `Strings` | `String.replace(char, char)` and `indexOf(char)` |
| `hashing.dfy` | `Hashing` | `String.hashCode` (exact for text in the Basic Multilingual Plane, as its unsigned 32 bits) and `Integer.toHexString` |
| `descriptors.dfy` | `Descriptors` | method descriptors as a structure, with their rendering as JVM text and a parser that inverts it |
| `bytecode.dfy` | `Bytecode` | the instructions the engine emits, and an operand-stack depth check |
| `classes.dfy` | `Classes` | the parts of a class file the engine touches. `ClassNode` is a mutable class: the reader builds it and the writer snapshots it |
| `mapping.dfy` | `Mappings` | the agent's mapping builder, as the method `Build` and its specification `BuildSpec` |
| `mapping_properties.dfy` | `MappingProperties` | what a built mapping contains, and when a build fails |
| `engine.dfy` | `Engine` | every rewrite the agent's transformer performs, as functions on class values |
| `transformer.dfy` | `Transformer` | the agent's transformer: in-place methods on a `ClassNode`, each proved equal to an `Engine` function |
| `engine_properties.dfy` | `EngineProperties` | properties of the rewrites: stack balance, argument passing, distinct signatures, clone shape, dispatch |
| `legacy_mapping.dfy` | `LegacyMappings` | the older builder and its properties |
| `legacy_transformer.dfy` | `LegacyTransformer` | the older transformer and its properties |

Inputs from outside the program are parameters:

- Reflection over the mixin class is a `MixinDecl` or `LegacyDecl` value: class name, the
  `@Mixin` value, and the declared methods in reflection order with their annotation values.
- The class-file bytes are a `ClassBytes` value: either a parsed `ClassFile` or `Malformed`,
  which stands for bytes the reader rejects.
- A Java `null` result from `transform` is `None`.
- An exception the transformer throws and then catches is also `None`.
- An exception the builder throws is a `Failure` naming the check that failed.

## Model

| member | source | states |
|---|---|---|
| Mappings.TargetDescriptor | hypermixins-api/src/main/java/net/echo/hypermixins/agent/MixinMapping.java:141-147 | the target descriptor keeps the return type and drops exactly the first parameter (none when there is none) |
| Mappings.JavaClassName | hypermixins-api/src/main/java/net/echo/hypermixins/agent/MixinMapping.java:69-70 | `Class.getName()` of a parameter type: primitive names, dotted class names, and array descriptors with dots; used by the target-typed-parameter check |
| Mappings.OriginalKey | hypermixins-api/src/main/java/net/echo/hypermixins/agent/MixinMapping.java:48 | an `@Original` method is keyed by its own name and full descriptor; `Descriptors.KeyInjective` shows the key determines both |
| Mappings.OverwriteKey | hypermixins-api/src/main/java/net/echo/hypermixins/agent/MixinMapping.java:80 | an `@Overwrite` method is keyed by its annotation value and its self-stripped descriptor; `MappingProperties.OverwriteKeyMatches` characterises the target methods it selects |
| Mappings.InvokeSignature | hypermixins-api/src/main/java/net/echo/hypermixins/agent/MixinMapping.java:113-119 | the part of the `@At` descriptor from its first `(`; `MappingProperties.RedirectSignatureMatches` states what the comparison against it accepts |
| Mappings.HandleOriginal | hypermixins-api/src/main/java/net/echo/hypermixins/agent/MixinMapping.java:41-50 | an empty value is refused, otherwise the key is put with the value; its effect is stated by `MappingProperties.HandleMethodEffect` |
| Mappings.HandleOverwrite | hypermixins-api/src/main/java/net/echo/hypermixins/agent/MixinMapping.java:52-87 | the four checks in source order (empty value, static, no self, target-typed parameter), then the duplicate-key check and the put; effect stated by `MappingProperties.HandleMethodEffect` |
| Mappings.HandleRedirect | hypermixins-api/src/main/java/net/echo/hypermixins/agent/MixinMapping.java:89-139 | the checks in source order (non-static, empty `@At` desc, empty method, negative index, no `(`, signature mismatch), then the five-value entry is appended; effect stated by `MappingProperties.HandleMethodEffect` |
| Mappings.BuildSpec | hypermixins-api/src/main/java/net/echo/hypermixins/agent/MixinMapping.java:18-39 | missing `@Mixin` is refused, then the declarations are handled in order from empty tables; success and contents are stated by `MappingProperties.BuildSucceedsIff` and `MappingProperties.BuildContents` |
| Strings.Replace | hypermixins-api/src/main/java/net/echo/hypermixins/agent/MixinTransformer.java:115 | `replace(char, char)` keeps the length and swaps each occurrence of one character, leaving no occurrence when the two differ |
| Strings.IndexOf | hypermixins-api/src/main/java/net/echo/hypermixins/agent/MixinMapping.java:113 | `indexOf(char)` is -1 iff the character is absent, and otherwise the position of its first occurrence |
| Mappings.Build | hypermixins-api/src/main/java/net/echo/hypermixins/agent/MixinMapping.java:18-39 | the builder's loop over the declared methods computes exactly `BuildSpec`, the first failure aborting |
| MappingProperties.HandleMethodEffect | hypermixins-api/src/main/java/net/echo/hypermixins/agent/MixinMapping.java:30-38 | one declaration is accepted iff it passes its role's checks and, for an overwrite, its key is new; on success exactly one table changes, by the entry its role defines |
| MappingProperties.HandleAllSucceedsIff | hypermixins-api/src/main/java/net/echo/hypermixins/agent/MixinMapping.java:30-38 | the loop succeeds iff every declaration is acceptable, no two overwrite keys clash and none is already stored |
| MappingProperties.BuildSucceedsIff | hypermixins-api/src/main/java/net/echo/hypermixins/agent/MixinMapping.java:21-38 | a build succeeds iff `@Mixin` is present, every declaration is acceptable and overwrite keys are distinct |
| MappingProperties.HandleAllOriginals | hypermixins-api/src/main/java/net/echo/hypermixins/agent/MixinMapping.java:41-50 | the originals table gains exactly the keys of the `@Original` declarations; other entries are kept |
| MappingProperties.HandleAllOriginalValues | hypermixins-api/src/main/java/net/echo/hypermixins/agent/MixinMapping.java:48-49 | with distinct keys, each `@Original` key maps to that annotation's value |
| MappingProperties.HandleAllOverwrites | hypermixins-api/src/main/java/net/echo/hypermixins/agent/MixinMapping.java:80-86 | the overwrites table gains exactly the keys of the `@Overwrite` declarations; earlier entries are kept |
| MappingProperties.HandleAllOverwriteValues | hypermixins-api/src/main/java/net/echo/hypermixins/agent/MixinMapping.java:80-86 | each `@Overwrite` key maps to the method that declared it |
| MappingProperties.HandleAllRedirects | hypermixins-api/src/main/java/net/echo/hypermixins/agent/MixinMapping.java:132-138 | the redirects list is extended by the `@Redirect` declarations' entries, in declaration order |
| MappingProperties.BuildContents | hypermixins-api/src/main/java/net/echo/hypermixins/agent/MixinMapping.java:18-139 | a built mapping names the mixin and its `@Mixin` target; its three tables hold exactly the declarations' keys, values and entries |
| MappingProperties.BuildOverwriteOrigin | hypermixins-api/src/main/java/net/echo/hypermixins/agent/MixinMapping.java:63-86 | every overwrite entry comes from a declaration with that key; its handler is that method, which declares a self parameter |
| MappingProperties.OverwriteKeyMatches | hypermixins-api/src/main/java/net/echo/hypermixins/agent/MixinMapping.java:80 | a target method's name and descriptor form an overwrite's key iff the name is the annotation value and the descriptor is the self-stripped one |
| MappingProperties.RedirectSignatureMatches | hypermixins-api/src/main/java/net/echo/hypermixins/agent/MixinMapping.java:109-130 | the redirect signature check passes iff the handler's descriptor equals the invoked method's descriptor |
| Descriptors.ParseRender | hypermixins-api/src/main/java/net/echo/hypermixins/agent/MixinMapping.java:48 | a well-formed descriptor is parsed back from its text |
| Descriptors.KeyInjective | hypermixins-api/src/main/java/net/echo/hypermixins/agent/MixinTransformer.java:55 | the key `name + desc` determines both the name and the descriptor |
| Hashing.HashCode | hypermixins-api/src/main/java/net/echo/hypermixins/agent/MixinTransformer.java:260 | `String.hashCode` is a value below 2^32, the unsigned reading of Java's 32-bit result; the 31-polynomial itself is the function's definition |
| Hashing.ToHexString | hypermixins-api/src/main/java/net/echo/hypermixins/agent/MixinTransformer.java:260 | `Integer.toHexString` is nonempty lowercase hex with no leading zero, and reads back as the number |
| Engine.SuperInitIndex | hypermixins-api/src/main/java/net/echo/hypermixins/agent/MixinTransformer.java:165-179 | the position found is the first `invokespecial <init>` on the superclass; None iff there is none |
| Engine.CloneAccess | hypermixins-api/src/main/java/net/echo/hypermixins/agent/MixinTransformer.java:262-264 | the clone is public and synthetic, static iff the original is, with no other access bit |
| Engine.WithMixinField | hypermixins-api/src/main/java/net/echo/hypermixins/agent/MixinTransformer.java:118-127 | the field step: the private mixin-typed field is appended iff no field has its name; stated by `EngineProperties.MixinFieldOnce` |
| Engine.Patch | hypermixins-api/src/main/java/net/echo/hypermixins/agent/MixinTransformer.java:185-207 | the creation sequence inserted right after the first superclass-constructor call; stated by `EngineProperties.PatchShape` and `EngineProperties.PatchKeepsStack` |
| Engine.PatchAll | hypermixins-api/src/main/java/net/echo/hypermixins/agent/MixinTransformer.java:129-134 | every constructor patched, or None when one cannot be; stated by `EngineProperties.TargetRewriteSucceedsIff` |
| Engine.DelegationBody | hypermixins-api/src/main/java/net/echo/hypermixins/agent/MixinTransformer.java:225-254 | the overwritten body; its shape and stack balance are stated by `EngineProperties.DelegationPassesArguments` and `EngineProperties.DelegationWellStackedIff` |
| Engine.OriginalName | hypermixins-api/src/main/java/net/echo/hypermixins/agent/MixinTransformer.java:260 | the clone name; `EngineProperties.OriginalNameInjective`, `EngineProperties.NoDollarInHex` and `EngineProperties.CloneNameIsCloneName` state what it determines |
| Engine.CloneAsOriginal | hypermixins-api/src/main/java/net/echo/hypermixins/agent/MixinTransformer.java:259-276 | the clone of a method; stated by `EngineProperties.CloneShape` |
| Engine.Clones | hypermixins-api/src/main/java/net/echo/hypermixins/agent/MixinTransformer.java:136-148 | the clones the overwrite loop collects, in method order; stated by `EngineProperties.ClonesFrom`, `EngineProperties.ClonesOf` and `EngineProperties.ClonesAppend` |
| Engine.TargetRewrite | hypermixins-api/src/main/java/net/echo/hypermixins/agent/MixinTransformer.java:110-157 | the whole target rewrite; stated by the `EngineProperties.TargetRewrite*` lemmas |
| Engine.StubBodyAsWritten | hypermixins-api/src/main/java/net/echo/hypermixins/agent/MixinTransformer.java:75-97 | the stub body the source writes: self loaded, cast and passed alone; `EngineProperties.StubAsWrittenUnderflows` shows the stack underflows when the clone takes arguments |
| Engine.StubBody | hypermixins-api/src/main/java/net/echo/hypermixins/agent/MixinTransformer.java:75-97 | the corrected stub body, with the remaining parameters loaded from slot 2; stated by `EngineProperties.StubBodyWellStacked` and `EngineProperties.StubPassesParameters` |
| Engine.Stub | hypermixins-api/src/main/java/net/echo/hypermixins/agent/MixinTransformer.java:68-99 | a keyed stub loses `native`, its handlers and its local-variable table and gets the corrected body; stated by `EngineProperties.MixinRewriteShape` |
| Engine.MixinRewrite | hypermixins-api/src/main/java/net/echo/hypermixins/agent/MixinTransformer.java:49-107 | the mixin rewrite with corrected stubs; stated by `EngineProperties.MixinRewriteSucceedsIff` and `EngineProperties.MixinRewriteShape` |
| Engine.MixinRewriteAsWritten | hypermixins-api/src/main/java/net/echo/hypermixins/agent/MixinTransformer.java:49-107 | the mixin rewrite with the stub body the source writes; `EngineProperties.MixinRewriteAsWrittenAgrees` says exactly when it equals `MixinRewrite` |
| Engine.TransformSpec | hypermixins-api/src/main/java/net/echo/hypermixins/agent/MixinTransformer.java:24-47 | the hook's dispatch: target before mixin, None for reader failures and unnamed classes; stated by `EngineProperties.TransformOfTarget`, `TransformOfMixin` and `TransformOfUnnamed` |
| Transformer.PatchConstructor | hypermixins-api/src/main/java/net/echo/hypermixins/agent/MixinTransformer.java:159-208 | succeeds iff the constructor calls the superclass constructor; then the mixin creation is inserted right after the first such call, otherwise nothing changes |
| Transformer.PatchConstructors | hypermixins-api/src/main/java/net/echo/hypermixins/agent/MixinTransformer.java:130-134 | every constructor is patched in place; it fails iff one cannot be |
| Transformer.ApplyOverwrite | hypermixins-api/src/main/java/net/echo/hypermixins/agent/MixinTransformer.java:211-257 | appends the method's clone to `originals`; the method's body becomes the delegating call, with no handlers and no local-variable table |
| Transformer.OverwriteStep | hypermixins-api/src/main/java/net/echo/hypermixins/agent/MixinTransformer.java:139-147 | one turn of the overwrite loop: a keyed method is overwritten and its clone collected; an unkeyed one is left alone |
| Transformer.ApplyOverwrites | hypermixins-api/src/main/java/net/echo/hypermixins/agent/MixinTransformer.java:136-148 | every keyed method is overwritten in place; the clones are collected in method order |
| Transformer.MixinTransformer.constructor | hypermixins-api/src/main/java/net/echo/hypermixins/agent/MixinTransformer.java:16-21 | the two indexes hold, under each target and each mixin internal name, the last mapping that has that name |
| Transformer.MixinTransformer.Transform | hypermixins-api/src/main/java/net/echo/hypermixins/agent/MixinTransformer.java:24-47 | a target class is rewritten as a target before a mixin is looked up; reader failures and unnamed classes give `null` |
| Transformer.MixinTransformer.TransformMixin | hypermixins-api/src/main/java/net/echo/hypermixins/agent/MixinTransformer.java:49-107 | the in-place stub loop computes `MixinRewrite`; `null` when a keyed stub has no parameter |
| Transformer.MixinTransformer.TransformTarget | hypermixins-api/src/main/java/net/echo/hypermixins/agent/MixinTransformer.java:110-157 | field added when missing, constructors patched, keyed methods overwritten and clones appended: exactly `TargetRewrite` |
| Classes.ClassNode.Read | hypermixins-api/src/main/java/net/echo/hypermixins/agent/MixinTransformer.java:50-52 | the node built by the reader holds exactly the class read: its snapshot is that class |
| EngineProperties.CountNamedZero | hypermixins-api/src/main/java/net/echo/hypermixins/agent/MixinTransformer.java:119 | no field has the name iff the count of fields with that name is zero |
| EngineProperties.MixinFieldOnce | hypermixins-api/src/main/java/net/echo/hypermixins/agent/MixinTransformer.java:115-127 | after the field step a field bears the mixin name; the fields read stay in front; one field is added iff none had the name, and the list is unchanged when one had it, so the step is idempotent |
| EngineProperties.TargetRewriteSucceedsIff | hypermixins-api/src/main/java/net/echo/hypermixins/agent/MixinTransformer.java:130-134 | a target rewrite succeeds iff every constructor contains a superclass-constructor call |
| EngineProperties.PatchShape | hypermixins-api/src/main/java/net/echo/hypermixins/agent/MixinTransformer.java:185-207 | a patched constructor is its old body with the five-instruction creation sequence inserted right after the first super call |
| EngineProperties.InitSequenceNeutral | hypermixins-api/src/main/java/net/echo/hypermixins/agent/MixinTransformer.java:185-205 | the creation sequence leaves the operand stack as it found it |
| EngineProperties.PatchKeepsStack | hypermixins-api/src/main/java/net/echo/hypermixins/agent/MixinTransformer.java:207 | patching a constructor does not change its stack balance |
| EngineProperties.DelegationWellStackedIff | hypermixins-api/src/main/java/net/echo/hypermixins/agent/MixinTransformer.java:225-254 | the delegating body balances the stack iff the handler takes exactly one parameter more than the target |
| EngineProperties.DelegationPassesArguments | hypermixins-api/src/main/java/net/echo/hypermixins/agent/MixinTransformer.java:236-254 | the delegating body loads `this`, the mixin and `this`, then each target argument from its slot (wide types take two), then invokes the handler and returns by the return type |
| EngineProperties.OverwriteBodyWellStacked | hypermixins-api/src/main/java/net/echo/hypermixins/agent/MixinTransformer.java:139-147 | over a built mapping, whatever method a key selects, the handler belongs to the mixin, the body reads the mixin field the field step adds, and it balances the stack |
| EngineProperties.NoDollarInHex | hypermixins-api/src/main/java/net/echo/hypermixins/agent/MixinTransformer.java:260 | the hex part of a clone name has no `$` |
| EngineProperties.OriginalNameInjective | hypermixins-api/src/main/java/net/echo/hypermixins/agent/MixinTransformer.java:260 | equal clone names come from the same method name and descriptors with the same hash |
| EngineProperties.CloneNameIsCloneName | hypermixins-api/src/main/java/net/echo/hypermixins/agent/MixinTransformer.java:260 | every clone name starts with `__original$` |
| EngineProperties.CloneShape | hypermixins-api/src/main/java/net/echo/hypermixins/agent/MixinTransformer.java:259-276 | a clone keeps descriptor, signature, exceptions, body, handlers and locals; it is public, synthetic, carries a clone name, and is static iff the original is |
| EngineProperties.ClonesFrom | hypermixins-api/src/main/java/net/echo/hypermixins/agent/MixinTransformer.java:139-148 | every collected clone is the clone of some keyed method |
| EngineProperties.ClonesAppend | hypermixins-api/src/main/java/net/echo/hypermixins/agent/MixinTransformer.java:139-148 | the clone collection distributes over splitting the method list |
| EngineProperties.ClonesOf | hypermixins-api/src/main/java/net/echo/hypermixins/agent/MixinTransformer.java:139-148 | every keyed method's clone is collected, right behind the clones of the methods before it |
| EngineProperties.ClonesDistinct | hypermixins-api/src/main/java/net/echo/hypermixins/agent/MixinTransformer.java:150 | the clones of methods with distinct signatures have distinct signatures |
| EngineProperties.ClonesNamed | hypermixins-api/src/main/java/net/echo/hypermixins/agent/MixinTransformer.java:259-264 | every collected clone is public, synthetic and under a clone name |
| EngineProperties.DistinctJoin | hypermixins-api/src/main/java/net/echo/hypermixins/agent/MixinTransformer.java:150 | two lists with distinct signatures, one free of clone names and one made of them, join without a clash |
| EngineProperties.TargetRewriteSignaturesDistinct | hypermixins-api/src/main/java/net/echo/hypermixins/agent/MixinTransformer.java:110-157 | the rewritten target never declares two methods with one name and descriptor, when the class read had none and used no clone name |
| EngineProperties.TargetRewriteHeader | hypermixins-api/src/main/java/net/echo/hypermixins/agent/MixinTransformer.java:110-157 | the rewritten target keeps its access, name, superclass and interfaces; its fields are those of the field step; methods are only added |
| EngineProperties.TargetRewriteMethods | hypermixins-api/src/main/java/net/echo/hypermixins/agent/MixinTransformer.java:130-148 | each method keeps its place, name, descriptor, access, signature and exceptions; a keyed one gets the delegating body; an unkeyed constructor is exactly the patched constructor; any other unkeyed method is untouched |
| EngineProperties.TargetRewriteTail | hypermixins-api/src/main/java/net/echo/hypermixins/agent/MixinTransformer.java:150 | behind the methods read stand exactly the clones of the patched methods, in order |
| EngineProperties.TargetRewriteClonesPresent | hypermixins-api/src/main/java/net/echo/hypermixins/agent/MixinTransformer.java:218-219 | every keyed non-constructor method has its clone among the appended methods |
| EngineProperties.TargetRewriteClonesMarked | hypermixins-api/src/main/java/net/echo/hypermixins/agent/MixinTransformer.java:259-264 | every appended method is a public synthetic clone |
| EngineProperties.StubCallsClone | hypermixins-api/src/main/java/net/echo/hypermixins/agent/MixinTransformer.java:84-93 | a stub invokes the clone of a target method iff that method bears the `@Original` value's name and the stub's self-stripped descriptor |
| EngineProperties.StubAsWrittenUnderflows | hypermixins-api/src/main/java/net/echo/hypermixins/agent/MixinTransformer.java:75-97 | the stub body as written underflows the stack whenever the invoked method takes an argument |
| EngineProperties.StubAsWrittenCounterexample | hypermixins-api/src/main/java/net/echo/hypermixins/agent/MixinTransformer.java:75-97 | the stub as written for `native int add(Object self, int x)` does not balance the stack |
| EngineProperties.StubBodyWellStacked | hypermixins-api/src/main/java/net/echo/hypermixins/agent/MixinTransformer.java:75-97 | the corrected stub body always balances the stack |
| EngineProperties.StubPassesParameters | hypermixins-api/src/main/java/net/echo/hypermixins/agent/MixinTransformer.java:75-97 | the corrected stub passes each remaining parameter from slot 2 on; with none it is the stub as written |
| EngineProperties.MixinRewriteSucceedsIff | hypermixins-api/src/main/java/net/echo/hypermixins/agent/MixinTransformer.java:54-62 | the mixin rewrite fails iff some keyed method declares no parameter |
| EngineProperties.MixinRewriteShape | hypermixins-api/src/main/java/net/echo/hypermixins/agent/MixinTransformer.java:54-100 | the mixin keeps its header and method order; keyed methods lose only `native`, get a balanced body and lose handlers and locals; others are untouched |
| EngineProperties.MixinRewriteAsWrittenAgrees | hypermixins-api/src/main/java/net/echo/hypermixins/agent/MixinTransformer.java:75-97 | the mixin as the source writes it equals the corrected one iff the rewrite is refused anyway or every keyed stub declares at most its self parameter |
| EngineProperties.IndexByDomain | hypermixins-api/src/main/java/net/echo/hypermixins/agent/MixinTransformer.java:16-21 | a name is indexed iff some mapping has it |
| EngineProperties.IndexByLast | hypermixins-api/src/main/java/net/echo/hypermixins/agent/MixinTransformer.java:16-21 | an indexed name holds the last mapping that has it |
| EngineProperties.TransformOfUnnamed | hypermixins-api/src/main/java/net/echo/hypermixins/agent/MixinTransformer.java:35-42 | a class no mapping names is left alone |
| EngineProperties.TransformOfTarget | hypermixins-api/src/main/java/net/echo/hypermixins/agent/MixinTransformer.java:35-36 | a targeted class is rewritten with the last mapping that targets it, even when it is also a mixin |
| EngineProperties.TransformOfMixin | hypermixins-api/src/main/java/net/echo/hypermixins/agent/MixinTransformer.java:39-40 | a class that is some mapping's mixin and no mapping's target is rewritten as a mixin with the last mapping that has it as mixin |
| LegacyMappings.LegacyBuild | hypermixins-api/src/main/java/net/echo/hypermixins/MixinMapping.java:15-46 | the loop computes exactly `LegacyBuildSpec`, the first failure aborting |
| LegacyMappings.LegacyBuildSpec | hypermixins-api/src/main/java/net/echo/hypermixins/MixinMapping.java:15-46 | missing `@Mixin` is refused, then each method in order: non-static refused, unannotated skipped, a repeated key refused; stated by `LegacyMappings.LegacyBuildSucceedsIff` and `LegacyMappings.LegacyBuildContents` |
| LegacyMappings.LegacyAllSucceedsIff | hypermixins-api/src/main/java/net/echo/hypermixins/MixinMapping.java:25-45 | the loop succeeds iff every method is static, the overwrite keys are distinct and none is already stored |
| LegacyMappings.LegacyBuildSucceedsIff | hypermixins-api/src/main/java/net/echo/hypermixins/MixinMapping.java:18-45 | a legacy build succeeds iff `@Mixin` is present, every declared method is static and the overwrite keys are distinct |
| LegacyMappings.LegacyAllKeys | hypermixins-api/src/main/java/net/echo/hypermixins/MixinMapping.java:34-44 | the overwrites map gains exactly the keys of the `@Overwrite` methods; earlier entries are kept |
| LegacyMappings.LegacyAllValues | hypermixins-api/src/main/java/net/echo/hypermixins/MixinMapping.java:38-44 | each `@Overwrite` key maps to the method that declared it |
| LegacyMappings.LegacyBuildContents | hypermixins-api/src/main/java/net/echo/hypermixins/MixinMapping.java:15-46 | a built legacy mapping names the mixin and target; its keys are the overwrite methods' own name-plus-descriptor |
| LegacyTransformer.LegacyMixinTransformer.constructor | hypermixins-agent/src/main/java/net/echo/hypermixins/transformer/MixinTransformer.java:21-26 | the index equals `IndexBy` over the mapping list with the target's internal name as key; `IndexByDomain` and `IndexByLast` give its domain and the last-wins rule |
| LegacyTransformer.LegacyMixinTransformer.Transform | hypermixins-agent/src/main/java/net/echo/hypermixins/transformer/MixinTransformer.java:29-63 | untargeted classes and reader failures give `null`; otherwise every keyed method is rewritten in place, in order |
| LegacyTransformer.LegacyTransformSpec | hypermixins-agent/src/main/java/net/echo/hypermixins/transformer/MixinTransformer.java:29-63 | None for an untargeted class or a reader failure, otherwise every method rewritten by its key; stated by `LegacyTransformer.LegacyRewriteShape` |
| LegacyTransformer.LegacyRewriteOne | hypermixins-agent/src/main/java/net/echo/hypermixins/transformer/MixinTransformer.java:46-53 | a keyed method gets the legacy body and no handlers; any other method is kept |
| LegacyTransformer.LegacyBody | hypermixins-agent/src/main/java/net/echo/hypermixins/transformer/MixinTransformer.java:73-87 | `aload 0; invokestatic handler; return`; stated by `LegacyTransformer.LegacyBodyWellStackedIff` |
| LegacyTransformer.LegacyTransformOfUntargeted | hypermixins-agent/src/main/java/net/echo/hypermixins/transformer/MixinTransformer.java:37-38 | over the mapping list the hook was built from, a class no mapping targets is left alone |
| LegacyTransformer.LegacyTransformOfTarget | hypermixins-agent/src/main/java/net/echo/hypermixins/transformer/MixinTransformer.java:21-26 | over the mapping list the hook was built from, a targeted class is indexed with the last mapping that targets it |
| LegacyTransformer.ApplyLegacyOverwrite | hypermixins-agent/src/main/java/net/echo/hypermixins/transformer/MixinTransformer.java:65-90 | the method's body becomes `aload 0; invokestatic handler; return` and its handlers are cleared; nothing else changes |
| LegacyTransformer.LegacyBodyWellStackedIff | hypermixins-agent/src/main/java/net/echo/hypermixins/transformer/MixinTransformer.java:73-87 | the legacy body balances the stack iff the handler takes exactly one parameter |
| LegacyTransformer.LegacyMatch | hypermixins-agent/src/main/java/net/echo/hypermixins/transformer/MixinTransformer.java:46-52 | over a built legacy mapping, a target method's key is stored iff some `@Overwrite` method has its name and full descriptor; the handler is then that method, and its body balances the stack iff the target takes one argument |
| LegacyTransformer.LegacyKeyKeepsSelf | hypermixins-api/src/main/java/net/echo/hypermixins/MixinMapping.java:34-38 | the legacy key of a method with a self parameter differs from the self-stripped key the newer builder derives |
| LegacyTransformer.LegacyRewriteShape | hypermixins-agent/src/main/java/net/echo/hypermixins/transformer/MixinTransformer.java:46-58 | the rewritten class keeps header, fields and method order; keyed methods change only body and handlers; others are untouched |

## Left out

- The ASM class reader and writer, and their byte format, are not modelled.
  - A parsed class is a `ClassFile` value, and `Malformed` stands for every reader failure.
  - The writer is `ClassNode.Snapshot`. Its frames and `COMPUTE_MAXS` are not computed.
  - Stack balance is checked instead, by `Bytecode.WellStacked`.
- Reflection and annotation processing are inputs, not code.
  - The order of `getDeclaredMethods()` is the order of the declaration sequence, whatever it is.
  - The value of `@Overwrite` is a plain string.
- The two `HyperMixins` agent entry points, which register the transformer with the
  instrumentation API, are not part of this model.
- `printStackTrace` in the catch blocks is I/O and is left out. A caught exception is `None`.
- Redirects are collected and proved to be collected, but no code in the repository applies
  them, so no redirect application is modelled.
  - The builder passes five values to `RedirectMapping`. The model keeps all five.
- Characters are Unicode code points, not UTF-16 units, so `hashCode` differs from Java's for
  names outside the Basic Multilingual Plane.
- A clone copies the modelled parts of a method only: access, name, descriptor, signature,
  exceptions, instructions, exception handlers and local variables. Annotations, parameter
  names, line numbers and maximum sizes are not modelled.
- Concurrent calls into the transformer are not modelled. The hook's indexes are never changed
  after construction.
- Transformer.MixinTransformer.TransformMixin: uses the corrected stub body of `Engine.StubBody`
  rather than the body as written, which is modelled separately (see Findings).
- Engine.Stub: like `TransformMixin`, builds the corrected stub body.

## Findings

| source | as written | input that shows it | evidently intended | confidence | as-written member | corrected member |
|---|---|---|---|---|---|---|
| hypermixins-api/src/main/java/net/echo/hypermixins/agent/MixinTransformer.java:75-97 | the `@Original` stub loads only `self` (slot 1), casts it, and invokes the clone with the self-stripped descriptor, so none of the clone's arguments are on the stack | `@Original("add") native int add(Object self, int x)`: the call needs `self` and one `int` but only `self` has been loaded, so the operand stack underflows | load every remaining parameter, from slot 2 on, before the call | not executed | Engine.StubBodyAsWritten, Engine.MixinRewriteAsWritten, EngineProperties.StubAsWrittenCounterexample, EngineProperties.StubAsWrittenUnderflows, EngineProperties.MixinRewriteAsWrittenAgrees | Engine.StubBody, EngineProperties.StubBodyWellStacked, EngineProperties.StubPassesParameters |
