/**
 * gen_dynamic as the source runs it: a cursor stepping through the text one character at a
 * time, with the flags and the loop buffer in local variables. Each scan collects the text it
 * prints and is proved to collect exactly what the segment-level functions of Template say;
 * GenDynamic prints the collected texts into the book in the source's order.
 */
module DynamicGen {

  import opened Util
  import opened Types
  import opened StrView
  import opened Buffer
  import opened Template

  /** No `$` in `t[a..b]`, stated per index: the form the scans' invariants keep. */
  predicate Free(t: string, a: nat, b: nat)
    requires a <= b <= |t|
  {
    forall i :: a <= i < b ==> NotDollar(t, i)
  }

  predicate NotDollar(t: string, i: nat)
    requires i < |t|
  {
    t[i] != '$'
  }

  lemma FreeSlice(t: string, a: nat, b: nat)
    requires a <= b <= |t| && Free(t, a, b)
    ensures '$' !in t[a..b]
  {
    forall k | 0 <= k < b - a
      ensures t[a..b][k] != '$'
    {
      assert NotDollar(t, a + k);
    }
  }

  // ----- The inner pass -----

  /** What is left of an inner pass: after text from `n`, or inside a directive from `sp`. */
  ghost function InnerPending(t: string, dir: (string, IState) -> IEffect, inSpecial: bool, n: nat, sp: nat, ist: IState): Res
    requires n <= |t| && (inSpecial ==> n < sp <= |t|)
  {
    if inSpecial then InnerSpecial(t, dir, n, sp, ist) else InnerFrom(t, dir, n, ist)
  }

  /**
   * The scan of the loop buffer `t` inside the `$}$` branch, for one field whose directives
   * `dir` gives: the text it prints, and false when a directive abandons the schema. An
   * unknown directive leaves the loop, as the source's `break` does.
   */
  method InnerScan(t: string, dir: (string, IState) -> IEffect) returns (out: string, ok: bool)
    ensures Res(out, ok) == InnerFrom(t, dir, 0, IStart)
  {
    hide InnerFrom, InnerSpecial;
    ghost var goal := InnerFrom(t, dir, 0, IStart);
    var c, n, sp := 0, 0, 0;
    var inSpecial := false;
    var ist := IStart;
    out := "";
    while true
      invariant n <= c <= |t|
      invariant inSpecial ==> n < sp == c
      invariant !inSpecial ==> n == c
      invariant Prefix(out, InnerPending(t, dir, inSpecial, n, sp, ist)) == goal
      decreases |t| - c
    {
      ghost var from := c;
      while c < |t| && t[c] != '$'
        invariant from <= c <= |t| && Free(t, from, c)
      {
        c := c + 1;
      }
      if c == |t| {
        InnerScanEnd(out, goal, t, dir, inSpecial, n, sp, c, ist);
        break;
      }
      if inSpecial {
        var e := dir(TrimWsStart(t[sp..c]), ist);
        InnerScanDirective(out, goal, t, dir, n, sp, c, ist, e);
        if e.flow == Abort {
          return out, false;
        } else if e.flow == Break {
          out := out + TrimWs(t[n..c]);
          return out, true;
        }
        out := out + e.out;
        inSpecial, ist := false, e.ist;
        n := c + 1;
      } else {
        var shown := c + 1 < |t| && Shown(ist);
        InnerScanText(out, goal, t, dir, n, sp, c, ist, shown);
        if shown {
          out := out + TrimWs(t[n..c]);
        }
        inSpecial := true;
        sp := c + 1;
      }
      c := c + 1;
    }
    out := out + TrimWs(t[n..c]);
    ok := true;
  }

  /** At a `$` outside a directive: the text before it is printed when shown, and a directive starts. */
  lemma InnerScanText(printed: string, goal: Res, t: string, dir: (string, IState) -> IEffect, n: nat, sp: nat, c: nat, ist: IState, shown: bool)
    requires n <= c < |t| && Free(t, n, c) && t[c] == '$'
    requires shown == (c + 1 < |t| && Shown(ist))
    requires Prefix(printed, InnerPending(t, dir, false, n, sp, ist)) == goal
    ensures shown ==> Prefix(printed + TrimWs(t[n..c]), InnerPending(t, dir, true, n, c + 1, ist)) == goal
    ensures !shown ==> Prefix(printed, InnerPending(t, dir, true, n, c + 1, ist)) == goal
  {
    var out := if shown then TrimWs(t[n..c]) else "";
    var rest := InnerSpecial(t, dir, n, c + 1, ist);
    assert InnerFrom(t, dir, n, ist) == Prefix(out, rest) by {
      FreeSlice(t, n, c);
      InnerFromAt(t, dir, n, ist, c);
    }
    assert Prefix(printed, Prefix(out, rest)) == Prefix(printed + out, rest) by {
      PrefixPrefix(printed, out, rest);
    }
    assert printed + "" == printed;
  }

  /**
   * At the `$` closing a directive with effect `e`: a directive that goes on prints its text and
   * the scan resumes after it; one that breaks leaves the text from `n` to print; one that
   * aborts, nothing.
   */
  lemma InnerScanDirective(printed: string, goal: Res, t: string, dir: (string, IState) -> IEffect, n: nat, sp: nat, c: nat, ist: IState, e: IEffect)
    requires n < sp <= c < |t| && Free(t, sp, c) && t[c] == '$'
    requires e == dir(TrimWsStart(t[sp..c]), ist)
    requires Prefix(printed, InnerPending(t, dir, true, n, sp, ist)) == goal
    ensures e.flow == Continue ==> Prefix(printed + e.out, InnerPending(t, dir, false, c + 1, sp, e.ist)) == goal
    ensures e.flow == Break ==> goal == Res(printed + TrimWs(t[n..c]), true)
    ensures e.flow == Abort ==> goal == Res(printed, false)
  {
    FreeSlice(t, sp, c);
    InnerSpecialAt(t, dir, n, sp, ist, c);
    if e.flow == Continue {
      PrefixPrefix(printed, e.out, InnerFrom(t, dir, c + 1, e.ist));
    }
  }

  /** At the end `c` of the buffer: the text from `n`, trimmed, whatever the flags. */
  lemma InnerScanEnd(printed: string, goal: Res, t: string, dir: (string, IState) -> IEffect, inSpecial: bool, n: nat, sp: nat, c: nat, ist: IState)
    requires n <= c == |t| && (inSpecial ==> n < sp <= c && Free(t, sp, c)) && (!inSpecial ==> Free(t, n, c))
    requires Prefix(printed, InnerPending(t, dir, inSpecial, n, sp, ist)) == goal
    ensures goal == Res(printed + TrimWs(t[n..c]), true)
  {
    assert t[n..c] == t[n..];
    if inSpecial {
      assert t[sp..c] == t[sp..];
      FreeSlice(t, sp, c);
      InnerSpecialEnd(t, dir, n, sp, ist);
    } else {
      FreeSlice(t, n, c);
      InnerFromEnd(t, dir, n, ist);
    }
  }

  /**
   * The `$}$` that closes a loop: the inner scan of the loop buffer once per field, in order,
   * giving up at the first field whose scan abandons the schema.
   */
  method ExpandLoop(impl: string, fields: seq<Field>) returns (out: string, ok: bool)
    ensures Res(out, ok) == ExpandFields(impl, fields, |fields|)
  {
    hide InnerFrom, InnerSpecial, FieldDirectives;
    out, ok := "", true;
    var i := 0;
    while i < |fields|
      invariant 0 <= i <= |fields|
      invariant Res(out, true) == ExpandFields(impl, fields, i)
    {
      var text, fieldOk := InnerScan(impl, FieldDirectives(fields[i], i));
      out := out + text;
      if !fieldOk {
        ExpandFieldsStops(impl, fields, i, |fields|);
        return out, false;
      }
      i := i + 1;
    }
  }

  // ----- The outer pass -----

  /** What is left of a schema's pass: after text from `n`, or inside a directive from `sp`. */
  ghost function OuterPending(job: Job, inSpecial: bool, n: nat, sp: nat, st: OState): Res
    requires n <= |job.src| && (inSpecial ==> n < sp <= |job.src|)
  {
    if inSpecial then Special(job, n, sp, st) else Outer(job, n, st)
  }

  /**
   * One directive of a schema for `ty`: `$}$` closing a loop runs the loop's expansion; any
   * other directive's text and new state are as Directive gives them.
   */
  method RunDirective(d: string, st: OState, ty: CCompound, env: Env) returns (e: Effect)
    ensures e == Directive(d, st, ty.name, ty.fields, env)
    ensures Classify(d) == CloseBrace && !st.inIf && st.inLoop ==>
      e.st == OStart && Res(e.out, e.ok) == ExpandFields(st.impl, ty.fields, |ty.fields|)
  {
    if Classify(d) == CloseBrace && !st.inIf && st.inLoop {
      var text, ok := ExpandLoop(st.impl, ty.fields);
      e := Effect(text, OState(false, false, []), ok);
    } else {
      e := Directive(d, st, ty.name, ty.fields, env);
    }
  }

  /**
   * One schema's scan over its template with the leading whitespace trimmed: the text it
   * prints after its `#ifndef` line, and false when a directive abandons the schema, which
   * then keeps what it printed and leaves out its `#endif`.
   */
  method OuterScan(s: DynamicSchema, ty: CCompound, env: Env) returns (out: string, ok: bool)
    ensures Res(out, ok) == Outer(SchemaJob(s, ty, env), 0, OStart)
  {
    hide Outer, Special, Directive, ExpandFields, Classify, TrimWs, TrimWsStart;
    ghost var job := SchemaJob(s, ty, env);
    ghost var goal := Outer(job, 0, OStart);
    var src := TrimWsStart(s.source);
    var c, n, sp := 0, 0, 0;
    var inSpecial := false;
    var st := OStart;
    out := "";
    while true
      invariant src == job.src
      invariant n <= c <= |src|
      invariant inSpecial ==> n < sp == c
      invariant !inSpecial ==> n == c
      invariant Prefix(out, OuterPending(job, inSpecial, n, sp, st)) == goal
      decreases |src| - c
    {
      ghost var from := c;
      while c < |src| && src[c] != '$'
        invariant from <= c <= |src| && Free(src, from, c)
      {
        c := c + 1;
      }
      if c == |src| {
        OuterScanEnd(out, goal, job, inSpecial, n, sp, c, st);
        break;
      }
      if inSpecial {
        var e := RunDirective(TrimWsStart(src[sp..c]), st, ty, env);
        OuterScanDirective(out, goal, s, ty, env, n, sp, c, st, e);
        out := out + e.out;
        if !e.ok {
          return out, false;
        }
        inSpecial, st := false, e.st;
        n := c + 1;
      } else {
        OuterScanText(out, goal, job, n, sp, c, st);
        if c + 1 < |src| {
          if st.inLoop {
            st := st.(impl := st.impl + src[n..c]);
          } else {
            out := out + src[n..c];
          }
        }
        inSpecial := true;
        sp := c + 1;
      }
      c := c + 1;
    }
    out := out + ("\n" + TrimWs(src[n..c]));
    out := out + ("\n#endif // " + env.dp + s.name + "\n");
    ok := true;
  }

  /**
   * At a `$` outside a directive: unless it is the last character, the text before it goes to
   * the output outside a loop and into the loop buffer inside one; a directive starts.
   */
  lemma OuterScanText(printed: string, goal: Res, job: Job, n: nat, sp: nat, c: nat, st: OState)
    requires n <= c < |job.src| && Free(job.src, n, c) && job.src[c] == '$'
    requires Prefix(printed, OuterPending(job, false, n, sp, st)) == goal
    ensures c + 1 == |job.src| ==> Prefix(printed, OuterPending(job, true, n, c + 1, st)) == goal
    ensures c + 1 < |job.src| && st.inLoop ==>
      Prefix(printed, OuterPending(job, true, n, c + 1, st.(impl := st.impl + job.src[n..c]))) == goal
    ensures c + 1 < |job.src| && !st.inLoop ==>
      Prefix(printed + job.src[n..c], OuterPending(job, true, n, c + 1, st)) == goal
  {
    var shown := c + 1 < |job.src|;
    var out := if shown && !st.inLoop then job.src[n..c] else "";
    var st1 := if shown && st.inLoop then st.(impl := st.impl + job.src[n..c]) else st;
    var rest := Special(job, n, c + 1, st1);
    assert Outer(job, n, st) == Prefix(out, rest) by {
      FreeSlice(job.src, n, c);
      OuterAt(job, n, st, c);
    }
    assert Prefix(printed, Prefix(out, rest)) == Prefix(printed + out, rest) by {
      PrefixPrefix(printed, out, rest);
    }
    assert printed + "" == printed;
  }

  /**
   * At the `$` closing a directive with effect `e`: its text is printed; a directive that
   * fails ends the schema there, any other lets the scan resume after it.
   */
  lemma OuterScanDirective(printed: string, goal: Res, s: DynamicSchema, ty: CCompound, env: Env, n: nat, sp: nat, c: nat, st: OState, e: Effect)
    requires var src := SchemaJob(s, ty, env).src;
      n < sp <= c < |src| && Free(src, sp, c) && src[c] == '$'
    requires e == Directive(TrimWsStart(SchemaJob(s, ty, env).src[sp..c]), st, ty.name, ty.fields, env)
    requires Prefix(printed, OuterPending(SchemaJob(s, ty, env), true, n, sp, st)) == goal
    ensures e.ok ==> Prefix(printed + e.out, OuterPending(SchemaJob(s, ty, env), false, c + 1, sp, e.st)) == goal
    ensures !e.ok ==> goal == Res(printed + e.out, false)
  {
    var job := SchemaJob(s, ty, env);
    assert e == job.directive(TrimWsStart(job.src[sp..c]), st);
    FreeSlice(job.src, sp, c);
    SpecialAt(job, n, sp, st, c);
    if e.ok {
      PrefixPrefix(printed, e.out, Outer(job, c + 1, e.st));
    }
  }

  /** At the end `c` of the template: the rest, trimmed, after a line break, then the `#endif`. */
  lemma OuterScanEnd(printed: string, goal: Res, job: Job, inSpecial: bool, n: nat, sp: nat, c: nat, st: OState)
    requires n <= c == |job.src|
    requires inSpecial ==> n < sp <= c && Free(job.src, sp, c)
    requires !inSpecial ==> Free(job.src, n, c)
    requires Prefix(printed, OuterPending(job, inSpecial, n, sp, st)) == goal
    ensures goal == Res(printed + ("\n" + TrimWs(job.src[n..c])) + job.endif, true)
  {
    assert job.src[n..c] == job.src[n..];
    if inSpecial {
      assert job.src[sp..c] == job.src[sp..];
      FreeSlice(job.src, sp, c);
      SpecialEnd(job, n, sp, st);
    } else {
      FreeSlice(job.src, n, c);
      OuterEnd(job, n, st);
    }
    AppendRegroup2(printed, "\n" + TrimWs(job.src[n..c]), job.endif);
  }

  // ----- gen_dynamic -----

  /**
   * gen_dynamic: nothing for a type with no schema bit set; otherwise the type's `#ifndef`
   * line, each dynamic schema's `#ifndef` line and scan in registry order, and the type's
   * `#endif` line, all printed into the book.
   */
  method GenDynamic(book: DynArray<char>, reg: Registry, ty: CCompound, env: Env)
    requires book.Valid()
    modifies book, book.items
    ensures book.Valid() && (book.items == old(book.items) || fresh(book.items))
    ensures book.Contents() == old(book.Contents()) + DynamicOutput(reg, ty, env)
  {
    hide Outer, Special, SchemaJob, SchemaHeader;
    if ty.derived == {} {
      return;
    }
    ghost var c0 := book.Contents();
    var open := "\n#ifndef " + env.dp + ty.name + "\n";
    book.PrintString(open);
    var i := 0;
    while i < |reg.dynamics|
      invariant 0 <= i <= |reg.dynamics|
      invariant book.Valid() && (book.items == old(book.items) || fresh(book.items))
      invariant book.Contents() == c0 + open + SchemasText(reg, ty, env, i)
    {
      PrintSchema(book, reg.dynamics[i], ty, env);
      AppendRegroup2(c0 + open, SchemasText(reg, ty, env, i), SchemaOut(reg.dynamics[i], ty, env).text);
      i := i + 1;
    }
    var close := "\n#endif // " + env.dp + ty.name + "\n";
    book.PrintString(close);
    AppendRegroup3(c0, open, SchemasText(reg, ty, env, |reg.dynamics|), close);
  }

  /** One dynamic schema: its `#ifndef` line, then what its scan prints, into the book. */
  method PrintSchema(book: DynArray<char>, schema: DynamicSchema, ty: CCompound, env: Env)
    requires book.Valid()
    modifies book, book.items
    ensures book.Valid() && (book.items == old(book.items) || fresh(book.items))
    ensures book.Contents() == old(book.Contents()) + SchemaOut(schema, ty, env).text
  {
    hide Outer, Special, SchemaJob;
    book.PrintString(SchemaHeader(env, schema.name));
    var text, _ := OuterScan(schema, ty, env);
    book.PrintString(text);
    AppendRegroup2(old(book.Contents()), SchemaHeader(env, schema.name), text);
  }
}
