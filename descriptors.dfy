/**
 * JVM field and method descriptors (section 4.3 of the Java Virtual Machine Specification),
 * held structurally and rendered to the text that ASM's `Type.getMethodDescriptor` produces.
 * A parser is the partner of the renderer: parsing a rendered descriptor gives it back, so
 * two methods have equal descriptor strings exactly when their descriptors are equal.
 */
module Descriptors {
  import opened Wrappers
  import opened Strings

  datatype BaseType = Boolean | Byte | Char | Short | Int | Float | Long | Double

  /** A field descriptor; object types carry their internal (slash-separated) class name. */
  datatype FieldType = Base(base: BaseType) | Object(className: string) | Array(component: FieldType)

  /** A return descriptor: `V` or a field type. */
  datatype ReturnType = Void | Value(t: FieldType)

  datatype MethodDesc = MethodDesc(args: seq<FieldType>, ret: ReturnType)

  function BaseChar(b: BaseType): char {
    match b
    case Boolean => 'Z'
    case Byte => 'B'
    case Char => 'C'
    case Short => 'S'
    case Int => 'I'
    case Float => 'F'
    case Long => 'J'
    case Double => 'D'
  }

  function BaseOf(c: char): Option<BaseType> {
    match c
    case 'Z' => Some(Boolean)
    case 'B' => Some(Byte)
    case 'C' => Some(Char)
    case 'S' => Some(Short)
    case 'I' => Some(Int)
    case 'F' => Some(Float)
    case 'J' => Some(Long)
    case 'D' => Some(Double)
    case _ => None
  }

  /** A class name that can stand inside `L...;`: it holds no `;`. */
  predicate ValidField(t: FieldType) {
    match t
    case Base(_) => true
    case Object(n) => ';' !in n
    case Array(c) => ValidField(c)
  }

  predicate ValidReturn(r: ReturnType) {
    r.Void? || ValidField(r.t)
  }

  predicate ValidDesc(d: MethodDesc) {
    (forall i :: 0 <= i < |d.args| ==> ValidField(d.args[i])) && ValidReturn(d.ret)
  }

  function RenderField(t: FieldType): (r: string)
    ensures |r| > 0 && r[0] != ')' && r[0] != 'V' && r[0] != '('
  {
    match t
    case Base(b) => [BaseChar(b)]
    case Object(n) => "L" + n + ";"
    case Array(c) => "[" + RenderField(c)
  }

  function RenderArgs(ts: seq<FieldType>): string {
    if ts == [] then "" else RenderField(ts[0]) + RenderArgs(ts[1..])
  }

  function RenderReturn(r: ReturnType): string {
    match r
    case Void => "V"
    case Value(t) => RenderField(t)
  }

  /** The descriptor text, e.g. `(IJ)Ljava/lang/String;`. */
  function Render(d: MethodDesc): (s: string)
    ensures |s| > 0 && s[0] == '('
  {
    "(" + RenderArgs(d.args) + ")" + RenderReturn(d.ret)
  }

  // ---------------------------------------------------------------- parsing

  /** Parses one field type at the front of `s`, returning it and the text after it. */
  function ParseField(s: string): (r: Option<(FieldType, string)>)
    ensures r.Some? ==> |r.value.1| < |s|
    decreases |s|
  {
    if s == [] then None
    else if s[0] == 'L' then
      var k := IndexOf(s[1..], ';');
      if k < 0 then None else Some((Object(s[1..][..k]), s[1..][k + 1..]))
    else if s[0] == '[' then
      match ParseField(s[1..])
      case None => None
      case Some(p) => Some((Array(p.0), p.1))
    else
      match BaseOf(s[0])
      case None => None
      case Some(b) => Some((Base(b), s[1..]))
  }

  /** Parses field types up to and including the closing `)`. */
  function ParseArgs(s: string): Option<(seq<FieldType>, string)>
    decreases |s|
  {
    if s == [] then None
    else if s[0] == ')' then Some(([], s[1..]))
    else
      match ParseField(s)
      case None => None
      case Some(p) =>
        match ParseArgs(p.1)
        case None => None
        case Some(q) => Some(([p.0] + q.0, q.1))
  }

  function ParseReturn(s: string): Option<ReturnType> {
    if s == "V" then Some(Void)
    else
      match ParseField(s)
      case Some(p) => if p.1 == [] then Some(Value(p.0)) else None
      case None => None
  }

  /** Parses a whole method descriptor; anything left over is an error. */
  function Parse(s: string): Option<MethodDesc> {
    if s == [] || s[0] != '(' then None
    else
      match ParseArgs(s[1..])
      case None => None
      case Some(p) =>
        match ParseReturn(p.1)
        case None => None
        case Some(r) => Some(MethodDesc(p.0, r))
  }

  lemma {:induction false} ParseRenderField(t: FieldType, rest: string)
    requires ValidField(t)
    ensures ParseField(RenderField(t) + rest) == Some((t, rest))
  {
    var s := RenderField(t) + rest;
    match t
    case Base(b) =>
      assert s[0] == BaseChar(b);
      assert s[1..] == rest;
    case Object(n) =>
      assert s[1..] == n + ";" + rest;
      IndexOfJoin(n, ";" + rest, ';');
      assert n + ";" + rest == n + (";" + rest);
      assert s[1..][..|n|] == n;
      assert s[1..][|n| + 1..] == rest;
    case Array(c) =>
      assert s[1..] == RenderField(c) + rest;
      ParseRenderField(c, rest);
  }

  lemma {:induction false} ParseRenderArgs(ts: seq<FieldType>, rest: string)
    requires forall i :: 0 <= i < |ts| ==> ValidField(ts[i])
    ensures ParseArgs(RenderArgs(ts) + ")" + rest) == Some((ts, rest))
  {
    var s := RenderArgs(ts) + ")" + rest;
    if ts == [] {
      assert s == ")" + rest;
      assert s[1..] == rest;
    } else {
      var tail := RenderArgs(ts[1..]) + ")" + rest;
      assert s == RenderField(ts[0]) + tail;
      assert ValidField(ts[0]);
      ParseRenderField(ts[0], tail);
      ParseRenderArgs(ts[1..], rest);
      assert [ts[0]] + ts[1..] == ts;
    }
  }

  /** Parsing a rendered descriptor gives back the descriptor. */
  lemma ParseRender(d: MethodDesc)
    requires ValidDesc(d)
    ensures Parse(Render(d)) == Some(d)
  {
    var s := Render(d);
    var ret := RenderReturn(d.ret);
    assert s[1..] == RenderArgs(d.args) + ")" + ret;
    ParseRenderArgs(d.args, ret);
    match d.ret
    case Void =>
    case Value(t) =>
      ParseRenderField(t, "");
      assert RenderField(t) + "" == RenderField(t);
  }

  /** Equal descriptor strings come from equal descriptors. */
  lemma RenderInjective(d: MethodDesc, e: MethodDesc)
    requires ValidDesc(d) && ValidDesc(e)
    requires Render(d) == Render(e)
    ensures d == e
  {
    ParseRender(d);
    ParseRender(e);
  }

  /**
   * A method key is its name followed by its descriptor. When names hold no `(`, the key
   * determines both: the first `(` is where the descriptor begins.
   */
  lemma KeyInjective(n: string, d: MethodDesc, n': string, d': MethodDesc)
    requires '(' !in n && '(' !in n' && ValidDesc(d) && ValidDesc(d')
    requires n + Render(d) == n' + Render(d')
    ensures n == n' && d == d'
  {
    SplitAtFirst(n, Render(d), n', Render(d'), '(');
    RenderInjective(d, d');
  }

  // ------------------------------------------------------- sizes and kinds

  /** Local-variable slots a value of this type occupies (section 2.6.1 of the Java Virtual Machine Specification): long and double take two. */
  function Size(t: FieldType): (n: nat)
    ensures n == 1 || n == 2
  {
    if t == Base(Long) || t == Base(Double) then 2 else 1
  }

  /** Total slots of a run of arguments. */
  function SlotSum(ts: seq<FieldType>): nat {
    if ts == [] then 0 else Size(ts[0]) + SlotSum(ts[1..])
  }
}
