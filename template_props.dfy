/**
 * What gen_dynamic's two passes promise: how the captured markers read back per field, the
 * quirks of the inner conditions, the errors that abandon a schema, and that the expansion
 * ignores which bits of the mask are set.
 */
module TemplateProps {

  import opened Util
  import opened Types
  import opened StrView
  import opened Template

  // ----- Recognising directives -----

  lemma InnerClassifyIf(d: string)
    requires StartsWith(d, "if")
    ensures InnerClassify(d) == IIf(d[2..])
  {
  }

  lemma InnerClassifyType(d: string)
    requires StartsWith(d, "type")
    ensures InnerClassify(d) == IType
  {
    assert d[0] == 't' && d[1] == 'y';
  }

  lemma InnerClassifyTag(d: string)
    requires StartsWith(d, "tag")
    ensures InnerClassify(d) == ITag
  {
    assert d[0] == 't' && d[1] == 'a';
  }

  lemma InnerClassifyField(d: string)
    requires StartsWith(d, "field")
    ensures InnerClassify(d) == IField
  {
    assert d[0] == 'f';
  }

  lemma ClassifyTy(d: string)
    requires StartsWith(d, "ty")
    ensures Classify(d) == TyName
  {
  }

  lemma ClassifyFmt(d: string)
    requires StartsWith(d, "fmt")
    ensures Classify(d) == FmtMacro
  {
    assert d[0] == 'f' && d[1] == 'm';
  }

  lemma ClassifyDst(d: string)
    requires StartsWith(d, "dst")
    ensures Classify(d) == DstType
  {
    assert d[0] == 'd' && d[1] == 's';
  }

  lemma ClassifyOffset(d: string)
    requires StartsWith(d, "offset")
    ensures Classify(d) == OffsetType
  {
    assert d[0] == 'o' && d[1] == 'f';
  }

  lemma ClassifyIt(d: string)
    requires StartsWith(d, "it")
    ensures Classify(d) == It(d[2..])
  {
    assert d[0] == 'i' && d[1] == 't';
  }

  lemma ClassifyTag(d: string)
    requires StartsWith(d, "tag")
    ensures Classify(d) == TagDir
  {
    assert d[0] == 't' && d[1] == 'a';
  }

  lemma ClassifyFor(d: string)
    requires StartsWith(d, "for")
    ensures Classify(d) == For(d[3..])
  {
    assert d[0] == 'f' && d[1] == 'o';
  }

  lemma ClassifyIf(d: string)
    requires StartsWith(d, "if")
    ensures Classify(d) == If(d[2..])
  {
    assert d[0] == 'i' && d[1] == 'f';
  }

  lemma ClassifyClose(d: string)
    requires StartsWith(d, "}")
    ensures Classify(d) == CloseBrace
  {
    assert d[0] == '}';
  }

  // ----- The inner pass -----

  /** The flags claim a matching type only inside an `if` whose condition holds. */
  predicate Coherent(ist: IState)
  {
    ist.correctType ==> ist.inIf && ist.condTrue
  }

  /** Every inner directive keeps the flags coherent. */
  lemma DirectiveKeepsCoherent(d: string, ist: IState, f: Field, idx: nat)
    requires Coherent(ist)
    ensures Coherent(InnerDirective(d, ist, f, idx).ist)
  {
    hide InnerClassify, InnerIf, TagOrName;
  }

  /** Under an `if` whose condition is false, no directive prints anything. */
  lemma HiddenDirectivePrintsNothing(d: string, ist: IState, f: Field, idx: nat)
    requires Coherent(ist) && !Shown(ist)
    ensures InnerDirective(d, ist, f, idx).out == ""
  {
    hide InnerClassify, InnerIf, TagOrName;
  }

  /**
   * `$it.type$` in the inner pass: the external type's name inside a matching type `if`, the
   * schema abandoned for a primitive field there, and nothing printed anywhere else.
   */
  lemma ItTypeDirective(ist: IState, f: Field, idx: nat)
    requires Coherent(ist)
    ensures var e := InnerDirective("type", ist, f, idx);
      (e.flow == Abort <==> ist.correctType && f.ty.Primitive?) && e.flow != Break &&
      e.out == (if ist.correctType && f.ty.External? then f.ty.name else "") &&
      e.ist == ist
  {
    InnerClassifyType("type");
  }

  /**
   * A captured `$if == V {$` holds exactly for the first field, whatever `V` says: the number
   * is read from what follows `==` within the first word, which is nothing.
   */
  lemma IndexEqualsTestsFirstField(v: string, ist: IState, f: Field, idx: nat)
    ensures InnerDirective("if == " + v + " {", ist, f, idx) == IEffect("", IState(true, idx == 0, false), Continue)
  {
    hide Directive, Classify, ExpandFields, InnerFrom, InnerSpecial, TrimWsStart;
    var d := "if == " + v + " {";
    InnerClassifyIf(d);
    var rest := d[2..];
    assert rest == " == " + v + " {";
    TrimWsStartDropsOne(rest);
    var s := rest[1..];
    FindFromIs(s, ' ', 0, 2);
    assert UpToSpace(s) == "==";
    assert Atoi("") == 0;
  }

  /** A captured `$if != V {$` holds exactly for every field but the first. */
  lemma IndexDiffersTestsOtherFields(v: string, ist: IState, f: Field, idx: nat)
    ensures InnerDirective("if != " + v + " {", ist, f, idx) == IEffect("", IState(true, idx != 0, false), Continue)
  {
    hide Directive, Classify, ExpandFields, InnerFrom, InnerSpecial, TrimWsStart;
    var d := "if != " + v + " {";
    InnerClassifyIf(d);
    var rest := d[2..];
    assert rest == " != " + v + " {";
    TrimWsStartDropsOne(rest);
    var s := rest[1..];
    FindFromIs(s, ' ', 0, 2);
    assert UpToSpace(s) == "!=";
    assert !StartsWith("!=", "==") by {
      assert "!="[0] != "=="[0];
    }
    assert Atoi("") == 0;
  }

  /**
   * A captured type condition `$if COND {$` holds, and marks the field's type as matching,
   * exactly when COND starts with the field's kind tag (`CINT` … `CSTRING`, `CEXTERNAL`).
   */
  lemma TypeConditionMatchesKind(cond: string, ist: IState, f: Field, idx: nat)
    requires cond != [] && !IsWs(cond[0]) && ' ' !in cond
    requires !StartsWith(cond, "==") && !StartsWith(cond, "!=")
    ensures var hit := KindTag(f.ty).Some? && StartsWith(cond, KindTag(f.ty).value);
      InnerDirective("if " + cond + " {", ist, f, idx) == IEffect("", IState(true, hit, hit), Continue)
  {
    hide Directive, Classify, ExpandFields, InnerFrom, InnerSpecial, TrimWsStart;
    var d := "if " + cond + " {";
    InnerClassifyIf(d);
    var rest := d[2..];
    assert rest == " " + cond + " {";
    TrimWsStartDropsOne(rest);
    var s := rest[1..];
    assert s == cond + " {";
    FindFromIs(s, ' ', 0, |cond|);
    assert UpToSpace(s) == cond;
  }

  /** What `$field$` and `$tag$` print for a field when shown. */
  function FieldValue(w: string, f: Field): string
  {
    if w == "field" then f.name else TagOrName(f)
  }

  /** One directive between two literals, for any directive that prints `v` and changes nothing. */
  lemma InnerOneDirectiveAt(t: string, dir: (string, IState) -> IEffect, j: nat, k: nat, v: string)
    requires j < k < |t| && t[j] == '$' && t[k] == '$'
    requires '$' !in t[..j] && '$' !in t[j + 1..k] && '$' !in t[k + 1..]
    requires dir(TrimWsStart(t[j + 1..k]), IStart) == IEffect(v, IStart, Continue)
    ensures InnerFrom(t, dir, 0, IStart) == Res(TrimWs(t[..j]) + v + TrimWs(t[k + 1..]), true)
  {
    InnerFromAt(t, dir, 0, IStart, j);
    InnerSpecialAt(t, dir, 0, j + 1, IStart, k);
    InnerFromEnd(t, dir, k + 1, IStart);
    AppendRegroup2(TrimWs(t[..j]), v, TrimWs(t[k + 1..]));
  }

  lemma InnerOneDirective(lit1: string, w: string, lit2: string, dir: (string, IState) -> IEffect, v: string)
    requires '$' !in lit1 && '$' !in w && '$' !in lit2
    requires dir(TrimWsStart(w), IStart) == IEffect(v, IStart, Continue)
    ensures InnerFrom(lit1 + "$" + w + "$" + lit2, dir, 0, IStart) == Res(TrimWs(lit1) + v + TrimWs(lit2), true)
  {
    var t := lit1 + "$" + w + "$" + lit2;
    var j := |lit1|;
    var k := j + 1 + |w|;
    assert t[..j] == lit1 && t[j] == '$';
    assert t[j + 1..k] == w && t[k] == '$';
    assert t[k + 1..] == lit2;
    InnerOneDirectiveAt(t, dir, j, k, v);
  }

  /**
   * The inner pass over a body with one `$field$` or `$tag$` between two literals: the
   * literals trimmed at both ends, with the field's name, or its tag when it has one, between.
   */
  lemma InnerSubstitutes(lit1: string, w: string, lit2: string, f: Field, idx: nat)
    requires '$' !in lit1 && '$' !in lit2
    requires w == "field" || w == "tag"
    ensures Inner(lit1 + "$" + w + "$" + lit2, f, idx) == Res(TrimWs(lit1) + FieldValue(w, f) + TrimWs(lit2), true)
  {
    hide InnerFrom, InnerSpecial, InnerDirective, InnerClassify, Directive, Classify, TrimWsStart, TrimWs, ExpandFields;
    FieldWordValue(w, f, idx);
    InnerOneDirective(lit1, w, lit2, FieldDirectives(f, idx), FieldValue(w, f));
  }

  /** `field` and `tag` hold no `$` and, outside any `if`, print the field's value. */
  lemma FieldWordValue(w: string, f: Field, idx: nat)
    requires w == "field" || w == "tag"
    ensures '$' !in w
    ensures FieldDirectives(f, idx)(TrimWsStart(w), IStart) == IEffect(FieldValue(w, f), IStart, Continue)
  {
    hide InnerFrom, InnerSpecial, Directive, Classify, TrimWsStart, ExpandFields;
    TrimWsStartKeeps(w);
    if w == "field" {
      InnerClassifyField(w);
      assert '$' !in w by {
        assert forall i :: 0 <= i < |w| ==> w[i] != '$';
      }
    } else {
      InnerClassifyTag(w);
      assert '$' !in w by {
        assert forall i :: 0 <= i < |w| ==> w[i] != '$';
      }
    }
  }

  // ----- The outer pass -----

  /** Inside a loop, `$it$` is captured as `$field$`, which the inner pass turns into the field's name. */
  lemma ItCapturedAsField(st: OState, tyName: string, fields: seq<Field>, env: Env, f: Field, idx: nat)
    requires st.inLoop
    ensures Directive("it", st, tyName, fields, env) == Effect("", st.(impl := st.impl + "$field$"), true)
    ensures Inner("$field$", f, idx) == Res(f.name, true)
  {
    hide Classify, IfEffect, GuardOpen, GuardClose, ExpandFields, Inner, InnerFrom, InnerSpecial, InnerDirective;
    ClassifyIt("it");
    FieldAlone(f, idx);
  }

  lemma TrimWsEmpty()
    ensures TrimWs("") == ""
  {
  }

  /** A field pass over `$field$` alone prints the field's name. */
  lemma FieldAlone(f: Field, idx: nat)
    ensures Inner("$field$", f, idx) == Res(f.name, true)
  {
    hide Inner, InnerFrom, InnerSpecial, InnerDirective, Directive, Classify, TrimWs;
    TrimWsEmpty();
    InnerSubstitutes("", "field", "", f, idx);
    assert "" + "$" + "field" + "$" + "" == "$field$";
  }

  /** A field pass over `$tag$` alone prints the field's tag, or its name when it has none. */
  lemma TagAlone(f: Field, idx: nat)
    ensures Inner("$tag$", f, idx) == Res(TagOrName(f), true)
  {
    hide Inner, InnerFrom, InnerSpecial, InnerDirective, Directive, Classify, TrimWs;
    TrimWsEmpty();
    InnerSubstitutes("", "tag", "", f, idx);
    assert "" + "$" + "tag" + "$" + "" == "$tag$";
  }

  /** Inside a loop, `$tag$` is captured as itself, which the inner pass turns into the tag or the name. */
  lemma TagCaptured(st: OState, tyName: string, fields: seq<Field>, env: Env, f: Field, idx: nat)
    requires st.inLoop
    ensures Directive("tag", st, tyName, fields, env) == Effect("", st.(impl := st.impl + "$tag$"), true)
    ensures Inner("$tag$", f, idx) == Res(TagOrName(f), true)
  {
    hide Classify, IfEffect, GuardOpen, GuardClose, ExpandFields, Inner, InnerFrom, InnerSpecial, InnerDirective;
    ClassifyTag("tag");
    TagAlone(f, idx);
  }

  /** A field pass over `$type$` alone, outside any `if`, prints nothing and reaches the end. */
  lemma TypeAlonePrintsNothing(f: Field, idx: nat)
    ensures Inner("$type$", f, idx) == Res("", true)
  {
    hide InnerFrom, InnerSpecial, InnerDirective, InnerClassify, Directive, Classify, TrimWsStart, TrimWs, ExpandFields;
    var t := "$type$";
    assert t[1..5] == "type" && t[..0] == [] && t[6..] == [];
    assert t[0] == '$' && t[5] == '$';
    TypeWordValue(f, idx);
    TrimWsEmpty();
    InnerOneDirectiveAt(t, FieldDirectives(f, idx), 0, 5, "");
  }

  /** `type` holds no `$` and, outside any `if`, prints nothing and changes nothing. */
  lemma TypeWordValue(f: Field, idx: nat)
    ensures '$' !in "type"
    ensures FieldDirectives(f, idx)(TrimWsStart("type"), IStart) == IEffect("", IStart, Continue)
  {
    hide InnerFrom, InnerSpecial, Directive, Classify, TrimWsStart, ExpandFields;
    assert '$' !in "type" by {
      assert forall i :: 0 <= i < 4 ==> "type"[i] != '$';
    }
    TrimWsStartKeeps("type");
    ItTypeDirective(IStart, f, idx);
  }

  /** Inside a loop, `$it.type$` is captured as `$type$`, which prints nothing outside a type `if`. */
  lemma ItTypeCaptured(st: OState, tyName: string, fields: seq<Field>, env: Env, f: Field, idx: nat)
    requires st.inLoop
    ensures Directive("it.type", st, tyName, fields, env) == Effect("", st.(impl := st.impl + "$type$"), true)
    ensures Inner("$type$", f, idx) == Res("", true)
  {
    hide Classify, IfEffect, GuardOpen, GuardClose, ExpandFields, Inner, InnerFrom, InnerSpecial, InnerDirective;
    ClassifyIt("it.type");
    assert "it.type"[2..] == ".type";
    TypeAlonePrintsNothing(f, idx);
  }

  /** The value directives print their text outside a loop and are captured with it inside one. */
  lemma ValuesSubstituted(st: OState, tyName: string, fields: seq<Field>, env: Env)
    ensures Directive("ty", st, tyName, fields, env) == Value(st, tyName)
    ensures Directive("fmt", st, tyName, fields, env) == Value(st, env.fmt)
    ensures Directive("dst", st, tyName, fields, env) == Value(st, env.dst)
    ensures Directive("offset", st, tyName, fields, env) == Value(st, env.offsetMacro)
    ensures st.inLoop ==> Value(st, tyName).out == "" && Value(st, tyName).st.impl == st.impl + tyName
    ensures !st.inLoop ==> Value(st, tyName) == Effect(tyName, st, true)
  {
    hide Classify, IfEffect, GuardOpen, GuardClose, ExpandFields, Inner, InnerFrom, InnerSpecial, InnerDirective;
    ClassifyTy("ty");
    ClassifyFmt("fmt");
    ClassifyDst("dst");
    ClassifyOffset("offset");
  }

  /** What the outer pass knows, in the order it tries them. */
  predicate Known(d: string)
  {
    StartsWith(d, "ty") || StartsWith(d, "implguard") || StartsWith(d, "endimplguard") ||
    StartsWith(d, "dumpguard") || StartsWith(d, "enddumpguard") || StartsWith(d, "parseguard") ||
    StartsWith(d, "endparseguard") || StartsWith(d, "fmt") || StartsWith(d, "dst") ||
    StartsWith(d, "offset") || StartsWith(d, "it") || StartsWith(d, "tag") || StartsWith(d, "for") ||
    StartsWith(d, "if") || StartsWith(d, "}")
  }

  /** An unknown directive abandons the schema. */
  lemma UnknownDirectiveFails(d: string, st: OState, tyName: string, fields: seq<Field>, env: Env)
    requires !Known(d)
    ensures !Directive(d, st, tyName, fields, env).ok
  {
  }

  /** `it` and `tag` are errors outside a loop, and fine inside one. */
  lemma ItAndTagNeedLoop(d: string, st: OState, tyName: string, fields: seq<Field>, env: Env)
    requires StartsWith(d, "it") || StartsWith(d, "tag")
    ensures Directive(d, st, tyName, fields, env).ok <==> st.inLoop
  {
    if StartsWith(d, "it") {
      ClassifyIt(d);
    } else {
      ClassifyTag(d);
    }
  }

  /** `for` opens a loop only outside one and only with a `{` after it. */
  lemma ForNeedsBraceOutsideLoop(d: string, st: OState, tyName: string, fields: seq<Field>, env: Env)
    requires StartsWith(d, "for")
    ensures Directive(d, st, tyName, fields, env).ok <==> !st.inLoop && '{' in d[3..]
    ensures Directive(d, st, tyName, fields, env).ok ==> Directive(d, st, tyName, fields, env) == Effect("", st.(inLoop := true), true)
  {
    ClassifyFor(d);
  }

  /** `if` needs a `{`, and an `index` condition inside a loop needs the operator `==` or `!=`. */
  lemma IfNeedsBrace(d: string, st: OState, tyName: string, fields: seq<Field>, env: Env)
    requires StartsWith(d, "if")
    ensures Directive(d, st, tyName, fields, env).ok <==> '{' in d[2..] && !BadIndexOp(d[2..], st)
  {
    ClassifyIf(d);
  }

  /**
   * `}` closes an open `if` first, appending its marker; else it closes the loop, running the
   * inner pass for every field and emptying the buffer; with nothing open it is an error.
   */
  lemma CloseBraceCloses(d: string, st: OState, tyName: string, fields: seq<Field>, env: Env)
    requires StartsWith(d, "}")
    ensures st.inIf ==> Directive(d, st, tyName, fields, env) == Effect("", OState(st.inLoop, false, st.impl + "$}$"), true)
    ensures !st.inIf && st.inLoop ==>
      var r := ExpandFields(st.impl, fields, |fields|);
      Directive(d, st, tyName, fields, env) == Effect(r.text, OStart, r.ok)
    ensures !st.inIf && !st.inLoop ==> !Directive(d, st, tyName, fields, env).ok
  {
    hide Classify, IfEffect, GuardOpen, GuardClose, Inner, InnerFrom, InnerSpecial, InnerDirective;
    ClassifyClose(d);
  }

  /** The other known directives never fail. */
  lemma OtherDirectivesSucceed(d: string, st: OState, tyName: string, fields: seq<Field>, env: Env)
    requires Known(d)
    requires !StartsWith(d, "it") && !StartsWith(d, "tag") && !StartsWith(d, "for")
    requires !StartsWith(d, "if") && !StartsWith(d, "}")
    ensures Directive(d, st, tyName, fields, env).ok
  {
  }

  /** A template without `$` is printed trimmed, after a line break, and the schema closes. */
  lemma PlainTemplate(job: Job, st: OState)
    requires '$' !in job.src
    ensures Outer(job, 0, st) == Res(Finish(job, 0), true)
  {
    OuterEnd(job, 0, st);
  }

  lemma FinishEndsWithEndif(job: Job, n: nat)
    requires n <= |job.src|
    ensures IsSuffix(job.endif, Finish(job, n))
  {
    var post := "\n" + TrimWs(job.src[n..]);
    assert (post + job.endif)[|post|..] == job.endif;
  }

  lemma PrefixKeepsSuffix(e: string, a: string, r: Res)
    requires r.ok ==> IsSuffix(e, r.text)
    ensures Prefix(a, r).ok ==> IsSuffix(e, Prefix(a, r).text)
  {
    if r.ok {
      assert (a + r.text)[|a| + |r.text| - |e|..] == r.text[|r.text| - |e|..];
    }
  }

  /** A schema that reaches its end closes with its own `#endif` line. */
  lemma {:induction false} OuterEndsWithEndif(job: Job, n: nat, st: OState)
    requires n <= |job.src|
    ensures Outer(job, n, st).ok ==> IsSuffix(job.endif, Outer(job, n, st).text)
    decreases |job.src| + 1 - n, 1
  {
    hide Outer, Special, Finish, Prefix, FindFrom, TrimWs, TrimWsStart, Directive;
    var j := FindFrom(job.src, '$', n);
    if j == |job.src| {
      OuterEnd(job, n, st);
      FinishEndsWithEndif(job, n);
    } else {
      var shown := j + 1 < |job.src|;
      var st1 := if shown && st.inLoop then st.(impl := st.impl + job.src[n..j]) else st;
      var lit := if shown && !st.inLoop then job.src[n..j] else "";
      var r := Special(job, n, j + 1, st1);
      assert r.ok ==> IsSuffix(job.endif, r.text) by {
        SpecialEndsWithEndif(job, n, j + 1, st1);
      }
      assert Outer(job, n, st) == Prefix(lit, r) by {
        OuterAt(job, n, st, j);
      }
      PrefixKeepsSuffix(job.endif, lit, r);
    }
  }

  lemma {:induction false} SpecialEndsWithEndif(job: Job, n: nat, sp: nat, st: OState)
    requires n < sp <= |job.src|
    ensures Special(job, n, sp, st).ok ==> IsSuffix(job.endif, Special(job, n, sp, st).text)
    decreases |job.src| + 1 - sp, 0
  {
    hide Outer, Special, Finish, Prefix, FindFrom, TrimWs, TrimWsStart, Directive;
    var k := FindFrom(job.src, '$', sp);
    if k == |job.src| {
      SpecialEnd(job, n, sp, st);
      FinishEndsWithEndif(job, n);
    } else {
      var e := job.directive(TrimWsStart(job.src[sp..k]), st);
      var r := Outer(job, k + 1, e.st);
      assert r.ok ==> IsSuffix(job.endif, r.text) by {
        OuterEndsWithEndif(job, k + 1, e.st);
      }
      assert Special(job, n, sp, st) == if e.ok then Prefix(e.out, r) else Res(e.out, false) by {
        SpecialAt(job, n, sp, st, k);
      }
      PrefixKeepsSuffix(job.endif, e.out, r);
    }
  }

  // ----- gen_dynamic -----

  /** The schemas' outputs depend on the type's name and fields, never on its mask. */
  lemma {:induction false} SchemasIgnoreMask(reg: Registry, ty: CCompound, ty2: CCompound, env: Env, n: nat)
    requires ty.name == ty2.name && ty.fields == ty2.fields && n <= |reg.dynamics|
    ensures SchemasText(reg, ty, env, n) == SchemasText(reg, ty2, env, n)
  {
    hide Outer, Special, Prefix, SchemaHeader, Directive, TrimWsStart;
    if n > 0 {
      SchemasIgnoreMask(reg, ty, ty2, env, n - 1);
      assert SchemaJob(reg.dynamics[n - 1], ty, env) == SchemaJob(reg.dynamics[n - 1], ty2, env);
    }
  }

  /**
   * gen_dynamic prints nothing exactly when the mask is empty, and otherwise the same text for
   * every mask: all dynamic schemas are expanded, whichever bits are set.
   */
  lemma DynamicIgnoresOwnBits(reg: Registry, ty: CCompound, ty2: CCompound, env: Env)
    requires ty.name == ty2.name && ty.fields == ty2.fields
    ensures DynamicOutput(reg, ty, env) == [] <==> ty.derived == {}
    ensures ty.derived != {} && ty2.derived != {} ==> DynamicOutput(reg, ty, env) == DynamicOutput(reg, ty2, env)
  {
    SchemasIgnoreMask(reg, ty, ty2, env, |reg.dynamics|);
  }
}
