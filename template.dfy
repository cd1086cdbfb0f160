/**
 * gen_dynamic: the interpreter for the templates of dynamic schemas.
 *
 * A template is text with `$`-delimited directives. The outer pass reads it once, printing
 * literal text and the whole-template directives (`ty`, `fmt`, `dst`, `offset`, the guard
 * pairs) into the output. Inside `for` it prints nothing: it captures the loop body into a
 * buffer, already substituting the whole-template directives and rewriting the field
 * directives into `$field$`, `$type$`, `$tag$` and `$if … {$` markers. At the `$}$` that closes
 * the loop it runs the inner pass over that buffer once per field, then empties it.
 *
 * The functions here describe both passes a segment at a time (the text up to the next `$`,
 * then the directive up to the following one); the methods step through the template a
 * character at a time, as the source does, and are proved to print what the functions say.
 */
module Template {

  import opened Util
  import opened Types
  import opened StrView
  import opened Buffer

  /**
   * The texts the interpreter prints besides the template: the disable-macro prefix, the
   * implementation macro and the offset type macro of the configuration, and the call's
   * `dst_type` and `fmt_macro`.
   */
  datatype Env = Env(dp: string, implMacro: string, offsetMacro: string, dst: string, fmt: string)

  /** What a pass printed, and whether it reached its end (false: abandoned on an error). */
  datatype Res = Res(text: string, ok: bool)

  /** `s` printed, then what `r` prints. */
  function Prefix(s: string, r: Res): Res
  {
    Res(s + r.text, r.ok)
  }

  lemma PrefixPrefix(a: string, b: string, r: Res)
    ensures Prefix(a, Prefix(b, r)) == Prefix(a + b, r)
  {
    AppendRegroup2(a, b, r.text);
  }

  /** `sv_substr(s, 0, s.len - sv_find(s, ' ').len)`: the text before the first space. */
  function UpToSpace(s: string): (r: string)
    ensures |r| <= |s| && ' ' !in r && r == s[..|r|]
    ensures |r| < |s| ==> s[|r|] == ' '
  {
    s[..IndexOf(s, ' ')]
  }

  // ----- The inner pass: one field over the captured loop body -----

  /** The flags of the inner pass: `in_if`, `in_if_cond_true`, `in_correct_type`. */
  datatype IState = IState(inIf: bool, condTrue: bool, correctType: bool)

  const IStart := IState(false, false, false)

  /** Text and field directives print only outside an `if` or inside one whose condition holds. */
  predicate Shown(ist: IState)
  {
    (ist.inIf && ist.condTrue) || !ist.inIf
  }

  /** The key a field is written under: its tag when it has one, else its name. */
  function TagOrName(f: Field): string
  {
    if f.tag.Some? then f.tag.value else f.name
  }

  /** `(size_t)` of an `int`: negative values wrap modulo 2^64. */
  function SizeT(a: int): (r: int)
    ensures r >= 0 ==> (r == a <==> a >= 0)
  {
    if a < 0 then a + 0x1_0000_0000_0000_0000 else a
  }

  /**
   * The inner `$if …$`: `rest` is the directive after `if`. `==`/`!=` compare the field index
   * with the number after the operator; anything else is a kind name, true when it starts with
   * the field's kind tag.
   */
  function InnerIf(rest: string, f: Field, idx: nat): (r: IState)
    ensures r.inIf && (r.correctType ==> r.condTrue)
  {
    var s := TrimWsStart(rest);
    var cond := UpToSpace(s);
    if StartsWith(cond, "==") then
      IState(true, SizeT(Atoi(UpToSpace(cond[2..]))) == idx, false)
    else if StartsWith(cond, "!=") then
      IState(true, SizeT(Atoi(UpToSpace(cond[2..]))) != idx, false)
    else
      var hit := KindTag(f.ty).Some? && StartsWith(cond, KindTag(f.ty).value);
      IState(true, hit, hit)
  }

  /** How the inner scan goes on after a directive: on, out of its loop, or abandoning the schema. */
  datatype Flow = Continue | Break | Abort

  datatype IEffect = IEffect(out: string, ist: IState, flow: Flow)

  /** The directives of the inner pass, recognised by prefix in this order. */
  datatype InnerKind = IIf(rest: string) | IEndIf | IType | ITag | IField | IUnknown

  function InnerClassify(d: string): InnerKind
  {
    if StartsWith(d, "if") then IIf(d[2..])
    else if StartsWith(d, "}") then IEndIf
    else if StartsWith(d, "type") then IType
    else if StartsWith(d, "tag") then ITag
    else if StartsWith(d, "field") then IField
    else IUnknown
  }

  /**
   * One directive of the inner pass, with the leading whitespace already trimmed. `$}$` clears
   * the flags; `$type$` on a field whose type is not external, inside a matching type `if`,
   * abandons the schema; an unknown directive ends the scan.
   */
  function InnerDirective(d: string, ist: IState, f: Field, idx: nat): IEffect
  {
    match InnerClassify(d)
    case IIf(rest) => IEffect("", InnerIf(rest, f, idx), Continue)
    case IEndIf => IEffect("", IStart, Continue)
    case IType =>
      if f.ty.External? && ist.correctType then
        IEffect(if (ist.inIf && ist.correctType) || !ist.inIf then f.ty.name else "", ist, Continue)
      else if ist.correctType then IEffect("", ist, Abort)
      else IEffect("", ist, Continue)
    case ITag => IEffect(if Shown(ist) then TagOrName(f) else "", ist, Continue)
    case IField => IEffect(if Shown(ist) then f.name else "", ist, Continue)
    case IUnknown => IEffect("", ist, Break)
  }

  /**
   * The inner pass from `n`, outside a directive: the text up to the next `$` is printed
   * trimmed when shown and when that `$` is not the last character; at the end, the rest is
   * printed trimmed whatever the flags.
   */
  function InnerFrom(t: string, dir: (string, IState) -> IEffect, n: nat, ist: IState): Res
    requires n <= |t|
    decreases |t| + 1 - n, 1
  {
    var j := FindFrom(t, '$', n);
    if j == |t| then Res(TrimWs(t[n..]), true)
    else
      var out := if j + 1 < |t| && Shown(ist) then TrimWs(t[n..j]) else "";
      Prefix(out, InnerSpecial(t, dir, n, j + 1, ist))
  }

  /**
   * The inner pass inside a directive starting at `sp`, the text before it starting at `n`.
   * An unknown directive ends the scan, printing the text from `n` to the directive's end.
   */
  function InnerSpecial(t: string, dir: (string, IState) -> IEffect, n: nat, sp: nat, ist: IState): Res
    requires n < sp <= |t|
    decreases |t| + 1 - sp, 0
  {
    var k := FindFrom(t, '$', sp);
    if k == |t| then Res(TrimWs(t[n..]), true)
    else
      var e := dir(TrimWsStart(t[sp..k]), ist);
      match e.flow
      case Continue => Prefix(e.out, InnerFrom(t, dir, k + 1, e.ist))
      case Break => Res(TrimWs(t[n..k]), true)
      case Abort => Res("", false)
  }

  /** The inner directives for field `f`, number `idx`. */
  function FieldDirectives(f: Field, idx: nat): (string, IState) -> IEffect
  {
    (d, ist) => InnerDirective(d, ist, f, idx)
  }

  /** The inner pass for field `f`, number `idx`, over the loop body `t`. */
  function Inner(t: string, f: Field, idx: nat): Res
  {
    InnerFrom(t, FieldDirectives(f, idx), 0, IStart)
  }

  /** The inner passes for the first `n` fields, in order, stopping at the first abandoned one. */
  function ExpandFields(t: string, fields: seq<Field>, n: nat): Res
    requires n <= |fields|
  {
    if n == 0 then Res("", true)
    else
      var r := ExpandFields(t, fields, n - 1);
      if r.ok then Prefix(r.text, Inner(t, fields[n - 1], n - 1)) else r
  }

  /** The fields' passes all reach their end exactly when each field's pass does. */
  lemma {:induction false} ExpandFieldsOk(t: string, fields: seq<Field>, n: nat)
    requires n <= |fields|
    ensures ExpandFields(t, fields, n).ok <==> forall i :: 0 <= i < n ==> Inner(t, fields[i], i).ok
  {
    if n > 0 {
      ExpandFieldsOk(t, fields, n - 1);
    }
  }

  /** Once a field's pass is abandoned, the fields after it print nothing more. */
  lemma {:induction false} ExpandFieldsStops(t: string, fields: seq<Field>, i: nat, n: nat)
    requires i < n <= |fields|
    requires !Inner(t, fields[i], i).ok
    ensures ExpandFields(t, fields, n) == ExpandFields(t, fields, i + 1)
    ensures !ExpandFields(t, fields, n).ok
    decreases n
  {
    if n > i + 1 {
      ExpandFieldsStops(t, fields, i, n - 1);
    }
  }

  // ----- The outer pass -----

  /** The directives of the outer pass, recognised by prefix in this order. */
  datatype DirKind =
    | TyName | ImplGuard | EndImplGuard | DumpGuard | EndDumpGuard | ParseGuard | EndParseGuard
    | FmtMacro | DstType | OffsetType | It(rest: string) | TagDir | For(rest: string) | If(rest: string)
    | CloseBrace | Unknown

  function Classify(d: string): DirKind
  {
    if StartsWith(d, "ty") then TyName
    else if StartsWith(d, "implguard") then ImplGuard
    else if StartsWith(d, "endimplguard") then EndImplGuard
    else if StartsWith(d, "dumpguard") then DumpGuard
    else if StartsWith(d, "enddumpguard") then EndDumpGuard
    else if StartsWith(d, "parseguard") then ParseGuard
    else if StartsWith(d, "endparseguard") then EndParseGuard
    else if StartsWith(d, "fmt") then FmtMacro
    else if StartsWith(d, "dst") then DstType
    else if StartsWith(d, "offset") then OffsetType
    else if StartsWith(d, "it") then It(d[2..])
    else if StartsWith(d, "tag") then TagDir
    else if StartsWith(d, "for") then For(d[3..])
    else if StartsWith(d, "if") then If(d[2..])
    else if StartsWith(d, "}") then CloseBrace
    else Unknown
  }

  /** The outer flags `in_loop` and `in_if`, and the loop buffer `impl`. */
  datatype OState = OState(inLoop: bool, inIf: bool, impl: string)

  const OStart := OState(false, false, [])

  /** What a directive prints, the state after it, and whether the schema goes on. */
  datatype Effect = Effect(out: string, st: OState, ok: bool)

  /** A value directive: into the loop buffer inside a loop, else into the output. */
  function Value(st: OState, v: string): Effect
  {
    if st.inLoop then Effect("", st.(impl := st.impl + v), true) else Effect(v, st, true)
  }

  /** `dumpguard` / `parseguard`: two `#ifndef` lines, for all types and for this one. */
  function GuardOpen(dp: string, tyName: string, fn: string): string
  {
    "\n#ifndef " + dp + fn + "\n" + ("\n#ifndef " + dp + tyName + "_" + fn + "\n")
  }

  /** `enddumpguard` / `endparseguard`: the matching `#endif` lines, innermost first. */
  function GuardClose(dp: string, tyName: string, fn: string): string
  {
    "\n#endif // " + dp + tyName + "_" + fn + "\n" + ("\n#endif // " + dp + fn + "\n")
  }

  /** `if` with `index` inside a loop: the comparison operator is neither `==` nor `!=`. */
  predicate BadIndexOp(rest: string, st: OState)
  {
    var s := TrimWsStart(rest);
    StartsWith(UpToSpace(s), "index") && st.inLoop &&
    var c := TrimWsStart(s[5..]);
    var op := UpToSpace(c);
    !StartsWith(op, "==") && !StartsWith(op, "!=")
  }

  /**
   * The outer `$if …$`: it needs a `{`. `index OP VALUE` inside a loop is captured as
   * `$if OP VALUE {$` for `==` and `!=` only; any other condition is captured by its first word.
   */
  function IfEffect(rest: string, st: OState): Effect
  {
    if '{' !in rest then Effect("", st, false)
    else
      var s := TrimWsStart(rest);
      var cond := UpToSpace(s);
      if StartsWith(cond, "index") && st.inLoop then
        var c := TrimWsStart(s[5..]);
        var op := UpToSpace(c);
        var value := UpToSpace(TrimWsStart(Find(c, ' ')));
        if StartsWith(op, "==") then Effect("", OState(true, true, st.impl + ("$if == " + value + " {$")), true)
        else if StartsWith(op, "!=") then Effect("", OState(true, true, st.impl + ("$if != " + value + " {$")), true)
        else Effect("", st.(inIf := true), false)
      else Effect("", OState(st.inLoop, true, st.impl + ("$if " + cond + " {$")), true)
  }

  /** One directive of the outer pass, with the leading whitespace already trimmed. */
  function Directive(d: string, st: OState, tyName: string, fields: seq<Field>, env: Env): Effect
  {
    match Classify(d)
    case TyName => Value(st, tyName)
    case ImplGuard => Effect("\n#ifdef " + env.implMacro + "\n", st, true)
    case EndImplGuard => Effect("\n#endif // " + env.implMacro + "\n", st, true)
    case DumpGuard => Effect(GuardOpen(env.dp, tyName, "DUMP"), st, true)
    case EndDumpGuard => Effect(GuardClose(env.dp, tyName, "DUMP"), st, true)
    case ParseGuard => Effect(GuardOpen(env.dp, tyName, "PARSE"), st, true)
    case EndParseGuard => Effect(GuardClose(env.dp, tyName, "PARSE"), st, true)
    case FmtMacro => Value(st, env.fmt)
    case DstType => Value(st, env.dst)
    case OffsetType => Value(st, env.offsetMacro)
    case It(rest) =>
      if !st.inLoop then Effect("", st, false)
      else if StartsWith(rest, ".type") then Effect("", st.(impl := st.impl + "$type$"), true)
      else Effect("", st.(impl := st.impl + "$field$"), true)
    case TagDir =>
      if !st.inLoop then Effect("", st, false) else Effect("", st.(impl := st.impl + "$tag$"), true)
    case For(rest) =>
      if st.inLoop || '{' !in rest then Effect("", st, false) else Effect("", st.(inLoop := true), true)
    case If(rest) => IfEffect(rest, st)
    case CloseBrace =>
      if st.inIf then Effect("", OState(st.inLoop, false, st.impl + "$}$"), true)
      else if st.inLoop then
        var r := ExpandFields(st.impl, fields, |fields|);
        Effect(r.text, OState(false, false, []), r.ok)
      else Effect("", st, false)
    case Unknown => Effect("", st, false)
  }

  /**
   * One schema's run of the outer pass: the template (leading whitespace trimmed), the `#endif`
   * line that closes it, and what a directive does. The scan below does not depend on the
   * directives' meaning; SchemaJob binds them to Directive for one type and configuration.
   */
  datatype Job = Job(src: string, endif: string, directive: (string, OState) -> Effect)

  function SchemaJob(s: DynamicSchema, ty: CCompound, env: Env): Job
  {
    Job(TrimWsStart(s.source), "\n#endif // " + env.dp + s.name + "\n", (d, st) => Directive(d, st, ty.name, ty.fields, env))
  }

  /** The end of a schema: the rest of the text trimmed after a line break, then its `#endif`. */
  function Finish(job: Job, n: nat): string
    requires n <= |job.src|
  {
    var post := "\n" + TrimWs(job.src[n..]);
    post + job.endif
  }

  /**
   * The outer pass from `n`, outside a directive: the text up to the next `$`, unless that `$`
   * is the last character, goes into the loop buffer inside a loop and into the output outside.
   */
  function Outer(job: Job, n: nat, st: OState): Res
    requires n <= |job.src|
    decreases |job.src| + 1 - n, 1
  {
    var j := FindFrom(job.src, '$', n);
    if j == |job.src| then Res(Finish(job, n), true)
    else
      var lit := job.src[n..j];
      var shown := j + 1 < |job.src|;
      var out := if shown && !st.inLoop then lit else "";
      var st1 := if shown && st.inLoop then st.(impl := st.impl + lit) else st;
      Prefix(out, Special(job, n, j + 1, st1))
  }

  /**
   * The outer pass inside a directive starting at `sp`. A directive that fails abandons the
   * schema, keeping what was printed; a `$` never closed ends it like the end of the text,
   * printing everything from `n`.
   */
  function Special(job: Job, n: nat, sp: nat, st: OState): Res
    requires n < sp <= |job.src|
    decreases |job.src| + 1 - sp, 0
  {
    var k := FindFrom(job.src, '$', sp);
    if k == |job.src| then Res(Finish(job, n), true)
    else
      var e := job.directive(TrimWsStart(job.src[sp..k]), st);
      if !e.ok then Res(e.out, false) else Prefix(e.out, Outer(job, k + 1, e.st))
  }

  /** The `#ifndef` line a schema's output opens with. */
  function SchemaHeader(env: Env, name: string): string
  {
    "\n#ifndef " + env.dp + name + "\n"
  }

  /** Everything one dynamic schema prints for `ty`. */
  function SchemaOut(s: DynamicSchema, ty: CCompound, env: Env): Res
  {
    Prefix(SchemaHeader(env, s.name), Outer(SchemaJob(s, ty, env), 0, OStart))
  }

  /** The outputs of the first `n` dynamic schemas, abandoned ones included, in registry order. */
  function SchemasText(reg: Registry, ty: CCompound, env: Env, n: nat): string
    requires n <= |reg.dynamics|
  {
    if n == 0 then [] else SchemasText(reg, ty, env, n - 1) + SchemaOut(reg.dynamics[n - 1], ty, env).text
  }

  /** gen_dynamic: nothing for an empty mask; else every dynamic schema inside the type's guard. */
  function DynamicOutput(reg: Registry, ty: CCompound, env: Env): string
  {
    if ty.derived == {} then []
    else
      var open := "\n#ifndef " + env.dp + ty.name + "\n";
      var close := "\n#endif // " + env.dp + ty.name + "\n";
      open + SchemasText(reg, ty, env, |reg.dynamics|) + close
  }

  // ----- One step of each pass: what the scans below advance by -----

  /** Outside a directive, at the next `$`: the text before it, shown or not, then the directive. */
  lemma InnerFromAt(t: string, dir: (string, IState) -> IEffect, n: nat, ist: IState, j: nat)
    requires n <= j < |t| && '$' !in t[n..j] && t[j] == '$'
    ensures InnerFrom(t, dir, n, ist) ==
      Prefix(if j + 1 < |t| && Shown(ist) then TrimWs(t[n..j]) else "", InnerSpecial(t, dir, n, j + 1, ist))
  {
    hide InnerSpecial, TrimWs, FindFrom, Prefix;
    FindFromIs(t, '$', n, j);
  }

  /** No `$` left: the rest, trimmed, whatever the flags. */
  lemma InnerFromEnd(t: string, dir: (string, IState) -> IEffect, n: nat, ist: IState)
    requires n <= |t| && '$' !in t[n..]
    ensures InnerFrom(t, dir, n, ist) == Res(TrimWs(t[n..]), true)
  {
    hide InnerSpecial, TrimWs, FindFrom;
    FindFromIs(t, '$', n, |t|);
  }

  /** At the `$` closing a directive: its effect, then the scan after it. */
  lemma InnerSpecialAt(t: string, dir: (string, IState) -> IEffect, n: nat, sp: nat, ist: IState, k: nat)
    requires n < sp <= k < |t| && '$' !in t[sp..k] && t[k] == '$'
    ensures var e := dir(TrimWsStart(t[sp..k]), ist);
      InnerSpecial(t, dir, n, sp, ist) ==
        match e.flow
        case Continue => Prefix(e.out, InnerFrom(t, dir, k + 1, e.ist))
        case Break => Res(TrimWs(t[n..k]), true)
        case Abort => Res("", false)
  {
    hide InnerFrom, TrimWs, TrimWsStart, FindFrom, Prefix;
    FindFromIs(t, '$', sp, k);
  }

  /** A directive never closed: the text from before it, trimmed. */
  lemma InnerSpecialEnd(t: string, dir: (string, IState) -> IEffect, n: nat, sp: nat, ist: IState)
    requires n < sp <= |t| && '$' !in t[sp..]
    ensures InnerSpecial(t, dir, n, sp, ist) == Res(TrimWs(t[n..]), true)
  {
    hide InnerFrom, TrimWs, TrimWsStart, FindFrom;
    FindFromIs(t, '$', sp, |t|);
  }

  /**
   * Outside a directive, at the next `$`: the text before it goes to the output outside a loop
   * and into the loop buffer inside one, unless that `$` is the last character.
   */
  lemma OuterAt(job: Job, n: nat, st: OState, j: nat)
    requires n <= j < |job.src| && '$' !in job.src[n..j] && job.src[j] == '$'
    ensures var shown := j + 1 < |job.src|;
      Outer(job, n, st) ==
        Prefix(if shown && !st.inLoop then job.src[n..j] else "",
          Special(job, n, j + 1, if shown && st.inLoop then st.(impl := st.impl + job.src[n..j]) else st))
  {
    hide Special, Finish, FindFrom, Prefix;
    FindFromIs(job.src, '$', n, j);
  }

  /** No `$` left: the schema's end. */
  lemma OuterEnd(job: Job, n: nat, st: OState)
    requires n <= |job.src| && '$' !in job.src[n..]
    ensures Outer(job, n, st) == Res(Finish(job, n), true)
  {
    hide Special, Finish, FindFrom;
    FindFromIs(job.src, '$', n, |job.src|);
  }

  /** At the `$` closing a directive: abandon the schema on an error, else go on after it. */
  lemma SpecialAt(job: Job, n: nat, sp: nat, st: OState, k: nat)
    requires n < sp <= k < |job.src| && '$' !in job.src[sp..k] && job.src[k] == '$'
    ensures var e := job.directive(TrimWsStart(job.src[sp..k]), st);
      Special(job, n, sp, st) == if !e.ok then Res(e.out, false) else Prefix(e.out, Outer(job, k + 1, e.st))
  {
    hide Outer, Finish, TrimWsStart, FindFrom, Prefix;
    FindFromIs(job.src, '$', sp, k);
  }

  /** A directive never closed: the schema ends as if it were text. */
  lemma SpecialEnd(job: Job, n: nat, sp: nat, st: OState)
    requires n < sp <= |job.src| && '$' !in job.src[sp..]
    ensures Special(job, n, sp, st) == Res(Finish(job, n), true)
  {
    hide Outer, Finish, TrimWsStart, FindFrom;
    FindFromIs(job.src, '$', sp, |job.src|);
  }
}
