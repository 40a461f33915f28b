/**
 * Evaluation of one code span: the `=` shorthand, the sandbox each span runs in, the value a
 * span returns and when it is spliced, and the `require` closure every sandbox carries (its
 * path rules, its sub-template invoker and its fallback to the host's own module loader).
 *
 * Running JavaScript, converting values to strings, Node's `path` helpers and Node's module
 * loader are not modelled: they are the uninterpreted functions of a `Host`.
 */
module Evaluation {
  import opened Wrappers
  import opened JsText
  import opened Scanner

  /** The JavaScript values the engine tells apart. */
  datatype Value =
    | Undefined
    | Null
    | Bool(b: bool)
    | Num(x: real)
    | NaN
    | Str(s: string)
    | Obj(id: nat)   // any object, including functions such as a sub-template invoker

  /** JavaScript truthiness (`if (codeResult)`): every value but the six falsy ones. */
  predicate Truthy(v: Value)
    ensures !Truthy(v) <==> v in {Undefined, Null, Bool(false), Num(0.0), NaN, Str("")}
  {
    match v
    case Undefined => false
    case Null => false
    case Bool(b) => b
    case Num(x) => x != 0.0
    case NaN => false
    case Str(s) => s != ""
    case Obj(_) => true
  }

  /** Template arguments: names bound in a span's sandbox. */
  type Args = map<string, Value>

  /** How running a span ended: a returned value, or a thrown one. */
  datatype Completion = Returned(value: Value) | Threw(error: Value)

  /** What the `require` closure of a sandbox is bound to. */
  datatype Resolver = Resolver(dir: string, projectRoot: string, templateArgs: Args)

  /** What a name in a sandbox is bound to. */
  datatype Binding =
    | Param(value: Value)
    | FileName(path: string)
    | DirName(path: string)
    | Require(resolver: Resolver)

  type Sandbox = map<string, Binding>

  /** The file and offsets handed to the VM for error locations. */
  datatype Origin = Origin(filename: string, lineOffset: int, columnOffset: int)

  /** The collaborators the engine calls and this model does not interpret. */
  datatype Host = Host(
    run: (Sandbox, string, Origin) -> Completion,   // vm.runInContext
    show: Value -> string,                          // string coercion of a non-string value
    dirOf: string -> string,                        // path.normalize(file.replace(path.basename(file), ''))
    join: (string, string) -> string,               // path.join
    resolve: (string, string) -> string,            // path.resolve
    load: string -> Completion)                     // Node's require

  /** The text a span's result adds to the output: nothing unless the result is truthy. */
  function Emitted(v: Value, show: Value -> string): (out: string)
    ensures !Truthy(v) ==> out == ""
    ensures v.Str? ==> out == v.s
    ensures v == Bool(true) ==> out == "true"
  {
    if !Truthy(v) then ""
    else match v
      case Str(s) => s
      case Bool(_) => "true"
      case _ => show(v)
  }

  // ---------------------------------------------------------------------------
  // processCode
  // ---------------------------------------------------------------------------

  /** The `=` shorthand: a span that begins exactly with `=` returns the rest. */
  function ExpandShorthand(code: string): (r: string)
    ensures !StartsWith(r, "=")
    ensures r != code <==> StartsWith(code, "=")
    ensures StartsWith(code, "=") ==> StartsWith(r, "return ") && r[|"return "|..] == code[1..]
  {
    if StartsWith(code, "=") then
      var r := "return " + code[1..];
      assert r[0] == 'r';
      r
    else code
  }

  /** `=e` and `return e` are the same span once the shorthand is expanded. */
  lemma ShorthandIsExplicitReturn(e: string)
    ensures ExpandShorthand("=" + e) == ExpandShorthand("return " + e) == "return " + e
  {
    assert ("=" + e)[1..] == e;
  }

  /** The shorthand marker must be the very first character: no whitespace is skipped. */
  lemma NoTrimBeforeShorthand(e: string)
    ensures ExpandShorthand(" =" + e) == " =" + e
  {
  }

  /** The span as the body of a function that is called at once, on lines of its own. */
  function Wrapped(code: string): (w: string)
    ensures StartsWith(w, "(function(){\n") && EndsWith(w, "\n})()")
    ensures |w| == |code| + 18 && w[13..|w| - 5] == code
  {
    "(function(){\n" + code + "\n})()"
  }

  const RESERVED: set<string> := {"__filename", "__dirname", "require"}

  /**
   * The context of one span: the template arguments spread first, then `__filename`,
   * `__dirname` and `require`, which therefore override arguments of the same name.
   */
  function MakeSandbox(templateArgs: Args, file: string, dir: string, projectRoot: string): (sb: Sandbox)
    ensures sb.Keys == templateArgs.Keys + RESERVED
    ensures sb["__filename"] == FileName(file) && sb["__dirname"] == DirName(dir)
    ensures sb["require"] == Require(Resolver(dir, projectRoot, templateArgs))
    ensures forall k :: k in templateArgs && k !in RESERVED ==> sb[k] == Param(templateArgs[k])
  {
    (map k | k in templateArgs :: Param(templateArgs[k]))
    + map["__filename" := FileName(file), "__dirname" := DirName(dir),
          "require" := Require(Resolver(dir, projectRoot, templateArgs))]
  }

  /**
   * `processCode`: expand the shorthand and run the span in a fresh sandbox; the VM is told
   * the span starts one line above the tag (the wrapper adds a line) at the tag's column.
   */
  function ProcessCode(code: string, start: Position, file: string, dir: string,
                       projectRoot: string, templateArgs: Args, host: Host): (c: Completion)
    ensures var sb, origin := MakeSandbox(templateArgs, file, dir, projectRoot), Origin(file, start.line - 1, start.column);
            && (!StartsWith(code, "=") ==> c == host.run(sb, Wrapped(code), origin))
            && (StartsWith(code, "=") ==> c == host.run(sb, Wrapped("return " + code[1..]), origin))
  {
    host.run(MakeSandbox(templateArgs, file, dir, projectRoot), Wrapped(ExpandShorthand(code)),
             Origin(file, start.line - 1, start.column))
  }

  /** A `<%= e %>` span runs exactly as `<% return e %>` does. */
  lemma ShorthandRunsAsReturn(e: string, start: Position, file: string, dir: string,
                              projectRoot: string, templateArgs: Args, host: Host)
    ensures ProcessCode("=" + e, start, file, dir, projectRoot, templateArgs, host)
         == ProcessCode("return " + e, start, file, dir, projectRoot, templateArgs, host)
  {
    ShorthandIsExplicitReturn(e);
  }

  // ---------------------------------------------------------------------------
  // The require closure
  // ---------------------------------------------------------------------------

  /** How a specifier resolves: a sub-template to render, or a module to load. */
  datatype Resolution =
    | SubTemplate(path: string, inherited: Args)
    | Module(path: string, fallback: string)

  /** A path that is absolute is kept; any other is resolved against the project root. */
  function Rooted(projectRoot: string, p: string, host: Host): string {
    if StartsWith(p, "/") then p else host.resolve(projectRoot, p)
  }

  /** The path rules of `require`, and whether the path names a sub-template. */
  function Resolve(r: Resolver, specifier: string, host: Host): (res: Resolution)
    ensures StartsWith(specifier, ".") ==> res.path == Rooted(r.projectRoot, host.join(r.dir, specifier[1..]), host)
    ensures !StartsWith(specifier, ".") && StartsWith(specifier, "/") ==> res.path == specifier
    ensures !StartsWith(specifier, ".") && !StartsWith(specifier, "/") ==> res.path == host.resolve(r.projectRoot, specifier)
    ensures res.SubTemplate? <==> EndsWith(res.path, ".ejs")
    ensures res.SubTemplate? ==> res.inherited == r.templateArgs
    ensures res.Module? ==> res.fallback == specifier
  {
    var joined := if StartsWith(specifier, ".") then host.join(r.dir, specifier[1..]) else specifier;
    var newPath := if |joined| == 0 || joined[0] != '/' then host.resolve(r.projectRoot, joined) else joined;
    if EndsWith(newPath, ".ejs") then SubTemplate(newPath, r.templateArgs) else Module(newPath, specifier)
  }

  /** Only the leading `.` is dropped: `../x` is joined to the template's own directory as `./x`. */
  lemma ParentSpecifierStaysInDirectory(r: Resolver, host: Host)
    ensures Resolve(r, "../x", host).path == Rooted(r.projectRoot, host.join(r.dir, "./x"), host)
  {
    assert StartsWith("../x", ".");
    assert "../x"[1..] == "./x";
  }

  /** The template arguments with the inline ones laid over them (`{...templateArgs, ...inlineArgs}`). */
  function MergeArgs(parent: Args, inline: Option<Args>): (m: Args)
    ensures m.Keys == parent.Keys + inline.GetOr(map[]).Keys
    ensures forall k :: k in inline.GetOr(map[]) ==> m[k] == inline.GetOr(map[])[k]
    ensures forall k :: k in parent && k !in inline.GetOr(map[]) ==> m[k] == parent[k]
  {
    parent + inline.GetOr(map[])
  }

  /** Parent `{a: 1, b: 2}` with inline `{b: 3}` gives the sub-template `{a: 1, b: 3}`. */
  lemma InlineArgsOverrideInherited()
    ensures MergeArgs(map["a" := Num(1.0), "b" := Num(2.0)], Some(map["b" := Num(3.0)]))
         == map["a" := Num(1.0), "b" := Num(3.0)]
  {
  }

  /** What calling a sub-template invoker asks for: a render of `path` with these arguments. */
  datatype SubRender = SubRender(path: string, templateArgs: Args)

  /** Calling the invoker returned for a sub-template with inline arguments. */
  function Invoke(path: string, inherited: Args, inline: Option<Args>): (call: SubRender)
    ensures call.path == path
    ensures call.templateArgs.Keys == inherited.Keys + inline.GetOr(map[]).Keys
    ensures forall k :: k in inline.GetOr(map[]) ==> call.templateArgs[k] == inline.GetOr(map[])[k]
    ensures forall k :: k in inherited && k !in inline.GetOr(map[]) ==> call.templateArgs[k] == inherited[k]
  {
    SubRender(path, MergeArgs(inherited, inline))
  }

  /** What `require(specifier)` gives a span. */
  datatype Required =
    | Invoker(path: string, inherited: Args)
    | Exported(value: Value)
    | RequireFailed(error: Value)

  function Loaded(c: Completion): Required {
    match c
    case Returned(v) => Exported(v)
    case Threw(e) => RequireFailed(e)
  }

  /**
   * The `require` closure: a sub-template yields an invoker; any other path is loaded, and
   * when that throws, the unmodified specifier is loaded instead.
   */
  function RequireModule(r: Resolver, specifier: string, host: Host): (out: Required)
    ensures var res := Resolve(r, specifier, host);
            res.SubTemplate? ==> out == Invoker(res.path, r.templateArgs)
    ensures var res := Resolve(r, specifier, host);
            res.Module? ==>
              out == (if host.load(res.path).Returned? then Exported(host.load(res.path).value)
                      else Loaded(host.load(specifier)))
  {
    match Resolve(r, specifier, host)
    case SubTemplate(p, inherited) => Invoker(p, inherited)
    case Module(p, fallback) =>
      match host.load(p)
      case Returned(v) => Exported(v)
      case Threw(_) => Loaded(host.load(fallback))
  }

  /**
   * Calling the invoker `require` returns for a sub-template renders the resolved path with
   * the span's own template arguments, overridden key by key by the inline ones.
   */
  lemma SubTemplateCallMergesArgs(r: Resolver, specifier: string, host: Host, inline: Option<Args>)
    requires Resolve(r, specifier, host).SubTemplate?
    ensures var out := RequireModule(r, specifier, host);
            && out.Invoker?
            && var call := Invoke(out.path, out.inherited, inline);
            && call.path == Resolve(r, specifier, host).path
            && EndsWith(call.path, ".ejs")
            && call.templateArgs.Keys == r.templateArgs.Keys + inline.GetOr(map[]).Keys
            && (forall k :: k in inline.GetOr(map[]) ==> call.templateArgs[k] == inline.GetOr(map[])[k])
            && (forall k :: k in r.templateArgs && k !in inline.GetOr(map[]) ==> call.templateArgs[k] == r.templateArgs[k])
  {
  }
}
