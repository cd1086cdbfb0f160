/**
 * The static-schema emitters of bk.c: `gen_prelude`, `gen_dump_decl`, `gen_parse_decl`,
 * `gen_dump_impl` and `gen_parse_impl`, with the guard macros that wrap their output in nested
 * `#ifndef` / `#endif` blocks (the default mode, where a macro disables generation).
 *
 * What bk.c itself writes is described as a list of lines (`Line`); the text a schema's
 * generator appends is opaque. The methods write into the growable text buffer with
 * `print_string`, one call per line, and are proved to write the rendering of those lines.
 */
module Emitter {

  import opened Util
  import opened Types
  import opened Buffer

  /** One `print_string` of a guard macro, or text written by a generator. */
  datatype Line = Ifndef(macro: string, newline: bool) | Endif(macro: string) | Text(text: string)

  function LineText(l: Line): string
  {
    match l
    case Ifndef(m, nl) => "\n#ifndef " + m + (if nl then "\n" else "")
    case Endif(m) => "\n#endif // " + m + "\n"
    case Text(t) => t
  }

  /** The lines written one after the other. */
  function Render(ls: seq<Line>): string
  {
    if ls == [] then [] else Render(ls[..|ls| - 1]) + LineText(ls[|ls| - 1])
  }

  lemma {:induction false} RenderAppend(a: seq<Line>, b: seq<Line>)
    ensures Render(a + b) == Render(a) + Render(b)
    decreases |b|
  {
    if b == [] {
      assert a + b == a;
    } else {
      assert (a + b)[..|a + b| - 1] == a + b[..|b| - 1];
      RenderAppend(a, b[..|b| - 1]);
    }
  }

  /** The generator slots a static schema may fill. */
  datatype Slot = DumpDecl | ParseDecl | DumpImpl | ParseImpl

  /** The name part of the guard macros: `DUMP` or `PARSE`. */
  function FnType(slot: Slot): string
  {
    if slot == DumpDecl || slot == DumpImpl then "DUMP" else "PARSE"
  }

  predicate HasGen(s: StaticSchema, slot: Slot)
  {
    match slot
    case DumpDecl => s.dumpDecl.Some?
    case ParseDecl => s.parseDecl.Some?
    case DumpImpl => s.dumpImpl.Some?
    case ParseImpl => s.parseImpl.Some?
  }

  /** What a slot's generator appends, and the count it returns (the impl generators return none). */
  function RunGen(s: StaticSchema, slot: Slot, ty: CCompound, dst: string, fmt: string): (string, nat)
    requires HasGen(s, slot)
  {
    match slot
    case DumpDecl => s.dumpDecl.value(ty, dst)
    case ParseDecl => s.parseDecl.value(ty)
    case DumpImpl => (s.dumpImpl.value(ty, dst, fmt), 0)
    case ParseImpl => (s.parseImpl.value(ty), 0)
  }

  /** An `#ifndef` line for each macro, in order. */
  function OpenLines(ms: seq<string>): (ls: seq<Line>)
    ensures |ls| == |ms|
    ensures forall k :: 0 <= k < |ms| ==> ls[k] == Ifndef(ms[k], true)
  {
    if ms == [] then [] else OpenLines(ms[..|ms| - 1]) + [Ifndef(ms[|ms| - 1], true)]
  }

  /** An `#endif` line for each macro, innermost (last) first. */
  function CloseLines(ms: seq<string>): (ls: seq<Line>)
    ensures |ls| == |ms|
    ensures forall k :: 0 <= k < |ms| ==> ls[k] == Endif(ms[|ms| - 1 - k])
  {
    if ms == [] then [] else [Endif(ms[|ms| - 1])] + CloseLines(ms[..|ms| - 1])
  }

  /** The macros of the outer guard: disable all `fn`, this type, or this type's `fn`. */
  function DefMacros(dp: string, tyName: string, fn: string): seq<string>
  {
    [dp + fn, dp + tyName, dp + tyName + "_" + fn]
  }

  /** gen_def_guard; its last `#ifndef` is written without a line break. */
  function DefOpen(dp: string, tyName: string, fn: string): seq<Line>
  {
    var ms := DefMacros(dp, tyName, fn);
    [Ifndef(ms[0], true), Ifndef(ms[1], true), Ifndef(ms[2], false)]
  }

  /** gen_endif_guard */
  function DefClose(dp: string, tyName: string, fn: string): seq<Line>
  {
    CloseLines(DefMacros(dp, tyName, fn))
  }

  /** The macros of a schema's guard: the schema, its `fn`, it for this type, its `fn` for this type. */
  function TypeMacros(dp: string, tyName: string, sName: string, fn: string): seq<string>
  {
    [dp + sName, dp + sName + "_" + fn, dp + tyName + "_" + sName, dp + tyName + "_" + sName + "_" + fn]
  }

  /** gen_def_type_guard */
  function TypeOpen(dp: string, tyName: string, sName: string, fn: string): seq<Line>
  {
    OpenLines(TypeMacros(dp, tyName, sName, fn))
  }

  /** gen_endif_type_guard */
  function TypeClose(dp: string, tyName: string, sName: string, fn: string): seq<Line>
  {
    CloseLines(TypeMacros(dp, tyName, sName, fn))
  }

  /** Static schema `i` is selected for `ty` and fills `slot`. */
  predicate Emits(reg: Registry, ty: CCompound, slot: Slot, i: nat)
    requires i < |reg.statics|
  {
    SchemaBit(reg, Static, i) in ty.derived && HasGen(reg.statics[i], slot)
  }

  /** The block for static schema `i`: its type guard around its generator's text, or nothing. */
  function Block(reg: Registry, ty: CCompound, slot: Slot, dp: string, dst: string, fmt: string, i: nat): seq<Line>
    requires i < |reg.statics|
  {
    if Emits(reg, ty, slot, i) then
      var s := reg.statics[i];
      TypeOpen(dp, ty.name, s.name, FnType(slot)) + [Text(RunGen(s, slot, ty, dst, fmt).0)] +
      TypeClose(dp, ty.name, s.name, FnType(slot))
    else []
  }

  /** The blocks of the first `n` static schemas, in registry order. */
  function Blocks(reg: Registry, ty: CCompound, slot: Slot, dp: string, dst: string, fmt: string, n: nat): seq<Line>
    requires n <= |reg.statics|
  {
    if n == 0 then [] else Blocks(reg, ty, slot, dp, dst, fmt, n - 1) + Block(reg, ty, slot, dp, dst, fmt, n - 1)
  }

  /** One more schema appends its block, and its rendering. */
  lemma RenderBlocksStep(reg: Registry, ty: CCompound, slot: Slot, dp: string, dst: string, fmt: string, i: nat)
    requires i < |reg.statics|
    ensures forall c: string ::
      (c + Render(Blocks(reg, ty, slot, dp, dst, fmt, i + 1)) ==
       c + Render(Blocks(reg, ty, slot, dp, dst, fmt, i)) + Render(Block(reg, ty, slot, dp, dst, fmt, i)))
  {
    RenderAppend(Blocks(reg, ty, slot, dp, dst, fmt, i), Block(reg, ty, slot, dp, dst, fmt, i));
  }

  /** What static schema `i`'s generator counts when it runs for `ty`; the impl calls count 0. */
  function BlockCount(reg: Registry, ty: CCompound, slot: Slot, dst: string, i: nat): nat
    requires i < |reg.statics|
  {
    if Emits(reg, ty, slot, i) then RunGen(reg.statics[i], slot, ty, dst, "").1 else 0
  }

  /** The counts the generators of the first `n` static schemas return, summed. */
  function Count(reg: Registry, ty: CCompound, slot: Slot, dst: string, n: nat): nat
    requires n <= |reg.statics|
  {
    if n == 0 then 0 else Count(reg, ty, slot, dst, n - 1) + BlockCount(reg, ty, slot, dst, n - 1)
  }

  /** Everything one of the four emitters writes for `ty`: nothing when its mask is empty. */
  function Guarded(reg: Registry, ty: CCompound, slot: Slot, dp: string, dst: string, fmt: string): seq<Line>
  {
    if ty.derived == {} then []
    else
      DefOpen(dp, ty.name, FnType(slot)) + [Text("\n")] +
      Blocks(reg, ty, slot, dp, dst, fmt, |reg.statics|) + DefClose(dp, ty.name, FnType(slot))
  }

  /** What a declaration emitter returns: 0 when the mask is empty, else the generators' sum. */
  function GuardedCount(reg: Registry, ty: CCompound, slot: Slot, dst: string): nat
  {
    if ty.derived == {} then 0 else Count(reg, ty, slot, dst, |reg.statics|)
  }

  // ----- Nesting of the guards -----

  /**
   * The open macros after reading `ls` with `stack` open (innermost last): every `#endif` names
   * the innermost open `#ifndef`; `None` at the first that does not.
   */
  function Nest(ls: seq<Line>, stack: seq<string>): Option<seq<string>>
    decreases |ls|
  {
    if ls == [] then Some(stack)
    else match ls[0]
      case Ifndef(m, _) => Nest(ls[1..], stack + [m])
      case Endif(m) =>
        if stack != [] && stack[|stack| - 1] == m then Nest(ls[1..], stack[..|stack| - 1]) else None
      case Text(_) => Nest(ls[1..], stack)
  }

  /** Every `#ifndef` is closed by an `#endif` naming it, innermost first. */
  predicate Balanced(ls: seq<Line>)
  {
    Nest(ls, []) == Some([])
  }

  lemma {:induction false} NestAppend(a: seq<Line>, b: seq<Line>, stack: seq<string>)
    requires Nest(a, stack).Some?
    ensures Nest(a + b, stack) == Nest(b, Nest(a, stack).value)
    decreases |a|
  {
    if a == [] {
      assert a + b == b;
    } else {
      assert (a + b)[0] == a[0];
      assert (a + b)[1..] == a[1..] + b;
      match a[0]
      case Ifndef(m, _) => NestAppend(a[1..], b, stack + [m]);
      case Endif(m) => NestAppend(a[1..], b, stack[..|stack| - 1]);
      case Text(_) => NestAppend(a[1..], b, stack);
    }
  }

  /** Reading `#ifndef` lines opens their macros in order. */
  lemma {:induction false} NestOpens(ls: seq<Line>, stack: seq<string>)
    requires forall k :: 0 <= k < |ls| ==> ls[k].Ifndef?
    ensures Nest(ls, stack) == Some(stack + seq(|ls|, k requires 0 <= k < |ls| => ls[k].macro))
    decreases |ls|
  {
    var ms := seq(|ls|, k requires 0 <= k < |ls| => ls[k].macro);
    if ls == [] {
      assert stack + ms == stack;
    } else {
      NestOpens(ls[1..], stack + [ls[0].macro]);
      var rest := seq(|ls[1..]|, k requires 0 <= k < |ls[1..]| => ls[1..][k].macro);
      assert stack + [ls[0].macro] + rest == stack + ms;
    }
  }

  /** Reading the `#endif` lines of `ms` closes exactly `ms`, innermost first. */
  lemma {:induction false} NestCloses(ms: seq<string>, stack: seq<string>)
    ensures Nest(CloseLines(ms), stack + ms) == Some(stack)
    decreases |ms|
  {
    if ms == [] {
      assert stack + ms == stack;
    } else {
      var inner := ms[..|ms| - 1];
      assert CloseLines(ms)[1..] == CloseLines(inner);
      assert (stack + ms)[..|stack + ms| - 1] == stack + inner;
      NestCloses(inner, stack);
    }
  }

  /** A type guard block leaves the open guards as it found them. */
  lemma BlockNests(reg: Registry, ty: CCompound, slot: Slot, dp: string, dst: string, fmt: string, i: nat, stack: seq<string>)
    requires i < |reg.statics|
    ensures Nest(Block(reg, ty, slot, dp, dst, fmt, i), stack) == Some(stack)
  {
    if Emits(reg, ty, slot, i) {
      var s := reg.statics[i];
      var ms := TypeMacros(dp, ty.name, s.name, FnType(slot));
      var o := OpenLines(ms);
      var t := [Text(RunGen(s, slot, ty, dst, fmt).0)];
      NestOpens(o, stack);
      assert seq(|o|, k requires 0 <= k < |o| => o[k].macro) == ms;
      NestAppend(o, t, stack);
      assert Nest(t, stack + ms) == Some(stack + ms) by {
        assert t[1..] == [];
      }
      NestAppend(o + t, CloseLines(ms), stack);
      NestCloses(ms, stack);
    }
  }

  lemma {:induction false} BlocksNest(reg: Registry, ty: CCompound, slot: Slot, dp: string, dst: string, fmt: string, n: nat, stack: seq<string>)
    requires n <= |reg.statics|
    ensures Nest(Blocks(reg, ty, slot, dp, dst, fmt, n), stack) == Some(stack)
  {
    hide Block, RunGen, TypeOpen, TypeClose, Emits;
    if n > 0 {
      BlocksNest(reg, ty, slot, dp, dst, fmt, n - 1, stack);
      NestAppend(Blocks(reg, ty, slot, dp, dst, fmt, n - 1), Block(reg, ty, slot, dp, dst, fmt, n - 1), stack);
      BlockNests(reg, ty, slot, dp, dst, fmt, n - 1, stack);
    }
  }

  /** Every emitter's guards are properly nested and all closed. */
  lemma GuardedBalanced(reg: Registry, ty: CCompound, slot: Slot, dp: string, dst: string, fmt: string)
    ensures Balanced(Guarded(reg, ty, slot, dp, dst, fmt))
  {
    if ty.derived != {} {
      var fn := FnType(slot);
      var ms := DefMacros(dp, ty.name, fn);
      var d := DefOpen(dp, ty.name, fn);
      var open := d + [Text("\n")];
      var blocks := Blocks(reg, ty, slot, dp, dst, fmt, |reg.statics|);
      NestOpens(d, []);
      assert seq(|d|, k requires 0 <= k < |d| => d[k].macro) == ms;
      assert [] + ms == ms;
      NestAppend(d, [Text("\n")], []);
      assert Nest([Text("\n")], ms) == Some(ms) by {
        assert [Text("\n")][1..] == [];
      }
      NestAppend(open, blocks, []);
      BlocksNest(reg, ty, slot, dp, dst, fmt, |reg.statics|, ms);
      NestAppend(open + blocks, CloseLines(ms), []);
      NestCloses(ms, []);
    }
  }

  // ----- Counting the guards -----

  function Opens(ls: seq<Line>): nat
  {
    if ls == [] then 0 else Opens(ls[..|ls| - 1]) + (if ls[|ls| - 1].Ifndef? then 1 else 0)
  }

  function Closes(ls: seq<Line>): nat
  {
    if ls == [] then 0 else Closes(ls[..|ls| - 1]) + (if ls[|ls| - 1].Endif? then 1 else 0)
  }

  lemma {:induction false} CountsAppend(a: seq<Line>, b: seq<Line>)
    ensures Opens(a + b) == Opens(a) + Opens(b)
    ensures Closes(a + b) == Closes(a) + Closes(b)
    decreases |b|
  {
    if b == [] {
      assert a + b == a;
    } else {
      assert (a + b)[..|a + b| - 1] == a + b[..|b| - 1];
      CountsAppend(a, b[..|b| - 1]);
    }
  }

  /** A run of `#ifndef` lines opens one guard per line and closes none. */
  lemma {:induction false} CountsOfOpens(ls: seq<Line>)
    requires forall k :: 0 <= k < |ls| ==> ls[k].Ifndef?
    ensures Opens(ls) == |ls| && Closes(ls) == 0
    decreases |ls|
  {
    if ls != [] {
      CountsOfOpens(ls[..|ls| - 1]);
    }
  }

  /** A run of `#endif` lines closes one guard per line and opens none. */
  lemma {:induction false} CountsOfCloses(ls: seq<Line>)
    requires forall k :: 0 <= k < |ls| ==> ls[k].Endif?
    ensures Opens(ls) == 0 && Closes(ls) == |ls|
    decreases |ls|
  {
    if ls != [] {
      CountsOfCloses(ls[..|ls| - 1]);
    }
  }

  /** Text wrapped in a guard of `ms` opens and closes one guard per macro. */
  lemma CountsOfWrap(ms: seq<string>, text: string)
    ensures Opens(OpenLines(ms) + [Text(text)] + CloseLines(ms)) == |ms|
    ensures Closes(OpenLines(ms) + [Text(text)] + CloseLines(ms)) == |ms|
  {
    var t := [Text(text)];
    CountsAppend(OpenLines(ms) + t, CloseLines(ms));
    CountsAppend(OpenLines(ms), t);
    CountsOfOpens(OpenLines(ms));
    CountsOfCloses(CloseLines(ms));
    assert t[..0] == [];
  }

  /** How many of the first `n` static schemas are selected and fill the slot. */
  function Selected(reg: Registry, ty: CCompound, slot: Slot, n: nat): nat
    requires n <= |reg.statics|
  {
    if n == 0 then 0 else Selected(reg, ty, slot, n - 1) + (if Emits(reg, ty, slot, n - 1) then 1 else 0)
  }

  lemma {:induction false} BlocksCounts(reg: Registry, ty: CCompound, slot: Slot, dp: string, dst: string, fmt: string, n: nat)
    requires n <= |reg.statics|
    ensures Opens(Blocks(reg, ty, slot, dp, dst, fmt, n)) == 4 * Selected(reg, ty, slot, n)
    ensures Closes(Blocks(reg, ty, slot, dp, dst, fmt, n)) == 4 * Selected(reg, ty, slot, n)
  {
    if n > 0 {
      BlocksCounts(reg, ty, slot, dp, dst, fmt, n - 1);
      var b := Block(reg, ty, slot, dp, dst, fmt, n - 1);
      CountsAppend(Blocks(reg, ty, slot, dp, dst, fmt, n - 1), b);
      if Emits(reg, ty, slot, n - 1) {
        var s := reg.statics[n - 1];
        CountsOfWrap(TypeMacros(dp, ty.name, s.name, FnType(slot)), RunGen(s, slot, ty, dst, fmt).0);
      } else {
        assert b == [];
      }
    }
  }

  /**
   * With a non-empty mask an emitter opens 3 + 4k guards and closes as many, k being the number
   * of selected static schemas that fill its slot; with an empty mask it writes nothing.
   */
  lemma GuardedCounts(reg: Registry, ty: CCompound, slot: Slot, dp: string, dst: string, fmt: string)
    ensures ty.derived == {} ==> Guarded(reg, ty, slot, dp, dst, fmt) == [] && GuardedCount(reg, ty, slot, dst) == 0
    ensures ty.derived != {} ==>
      Opens(Guarded(reg, ty, slot, dp, dst, fmt)) == 3 + 4 * Selected(reg, ty, slot, |reg.statics|) &&
      Closes(Guarded(reg, ty, slot, dp, dst, fmt)) == 3 + 4 * Selected(reg, ty, slot, |reg.statics|)
  {
    if ty.derived != {} {
      var fn := FnType(slot);
      var d := DefOpen(dp, ty.name, fn);
      var o := d + [Text("\n")];
      var bl := Blocks(reg, ty, slot, dp, dst, fmt, |reg.statics|);
      var c := DefClose(dp, ty.name, fn);
      BlocksCounts(reg, ty, slot, dp, dst, fmt, |reg.statics|);
      CountsAppend(o + bl, c);
      CountsAppend(o, bl);
      CountsAppend(d, [Text("\n")]);
      CountsOfOpens(d);
      CountsOfCloses(c);
      assert [Text("\n")][..0] == [];
    }
  }

  // ----- The emitters as bk.c writes them -----

  /** A run of `print_string` calls, one per line. */
  method PrintLines(book: DynArray<char>, ls: seq<Line>)
    requires book.Valid()
    modifies book, book.items
    ensures book.Valid() && (book.items == old(book.items) || fresh(book.items))
    ensures book.Contents() == old(book.Contents()) + Render(ls)
  {
    var i := 0;
    while i < |ls|
      invariant 0 <= i <= |ls|
      invariant book.Valid() && (book.items == old(book.items) || fresh(book.items))
      invariant book.Contents() == old(book.Contents()) + Render(ls[..i])
    {
      book.PrintString(LineText(ls[i]));
      assert ls[..i + 1][..i] == ls[..i];
      i := i + 1;
    }
    assert ls[..i] == ls;
  }

  /**
   * The loop shared by gen_dump_decl, gen_parse_decl, gen_dump_impl and gen_parse_impl: nothing
   * for an empty mask; otherwise the type's guard, then for each static schema in registry
   * order whose bit is set and whose slot is filled, its type guard around the generator call,
   * then the closing guard. Returns the sum of the generators' counts.
   */
  method GenGuarded(book: DynArray<char>, reg: Registry, ty: CCompound, slot: Slot, dp: string, dst: string, fmt: string)
    returns (count: nat)
    requires book.Valid()
    modifies book, book.items
    ensures book.Valid()
    ensures book.Contents() == old(book.Contents()) + Render(Guarded(reg, ty, slot, dp, dst, fmt))
    ensures count == GuardedCount(reg, ty, slot, dst)
  {
    count := 0;
    if ty.derived == {} {
      assert Render([]) == [];
      return;
    }
    var fn := FnType(slot);
    var open := DefOpen(dp, ty.name, fn);
    var close := DefClose(dp, ty.name, fn);
    PrintLines(book, open);
    book.PrintString("\n");
    count := PrintBlocks(book, reg, ty, slot, dp, dst, fmt);
    PrintLines(book, close);
    RenderGuarded(reg, ty, slot, dp, dst, fmt);
  }

  /** The rendering of a non-empty emitter output, piece by piece. */
  lemma RenderGuarded(reg: Registry, ty: CCompound, slot: Slot, dp: string, dst: string, fmt: string)
    requires ty.derived != {}
    ensures forall c: string ::
      (c + Render(Guarded(reg, ty, slot, dp, dst, fmt)) ==
       c + Render(DefOpen(dp, ty.name, FnType(slot))) + "\n" + Render(Blocks(reg, ty, slot, dp, dst, fmt, |reg.statics|)) +
       Render(DefClose(dp, ty.name, FnType(slot))))
  {
    RenderPieces(DefOpen(dp, ty.name, FnType(slot)), Blocks(reg, ty, slot, dp, dst, fmt, |reg.statics|), DefClose(dp, ty.name, FnType(slot)));
  }

  lemma RenderPieces(open: seq<Line>, bl: seq<Line>, close: seq<Line>)
    ensures forall c: string ::
      (c + Render(open + [Text("\n")] + bl + close) == c + Render(open) + "\n" + Render(bl) + Render(close))
  {
    RenderAppend(open, [Text("\n")]);
    RenderAppend(open + [Text("\n")], bl);
    RenderAppend(open + [Text("\n")] + bl, close);
    assert Render([Text("\n")]) == "\n" by {
      assert [Text("\n")][..0] == [];
    }
    forall c: string
      ensures c + Render(open + [Text("\n")] + bl + close) == c + Render(open) + "\n" + Render(bl) + Render(close)
    {
      AppendRegroup(c, Render(open), "\n", Render(bl), Render(close));
    }
  }

  /** The loop of those emitters: the blocks of all static schemas, in registry order. */
  method PrintBlocks(book: DynArray<char>, reg: Registry, ty: CCompound, slot: Slot, dp: string, dst: string, fmt: string)
    returns (count: nat)
    requires book.Valid()
    modifies book, book.items
    ensures book.Valid() && (book.items == old(book.items) || fresh(book.items))
    ensures book.Contents() == old(book.Contents()) + Render(Blocks(reg, ty, slot, dp, dst, fmt, |reg.statics|))
    ensures count == Count(reg, ty, slot, dst, |reg.statics|)
  {
    hide Block, BlockCount, RunGen, TypeOpen, TypeClose, LineText;
    count := 0;
    var i := 0;
    while i < |reg.statics|
      invariant 0 <= i <= |reg.statics|
      invariant book.Valid() && (book.items == old(book.items) || fresh(book.items))
      invariant book.Contents() == old(book.Contents()) + Render(Blocks(reg, ty, slot, dp, dst, fmt, i))
      invariant count == Count(reg, ty, slot, dst, i)
    {
      ghost var c := book.Contents();
      var n := PrintBlock(book, reg, ty, slot, dp, dst, fmt, i);
      count := count + n;
      RenderBlocksStep(reg, ty, slot, dp, dst, fmt, i);
      assert c == old(book.Contents()) + Render(Blocks(reg, ty, slot, dp, dst, fmt, i));
      assert count == Count(reg, ty, slot, dst, i + 1);
      i := i + 1;
    }
  }

  /** Lines, then a generator's text, then lines. */
  method PrintAround(book: DynArray<char>, before: seq<Line>, text: string, after: seq<Line>)
    requires book.Valid()
    modifies book, book.items
    ensures book.Valid() && (book.items == old(book.items) || fresh(book.items))
    ensures book.Contents() == old(book.Contents()) + Render(before + [Text(text)] + after)
  {
    ghost var c0 := book.Contents();
    PrintLines(book, before);
    book.PrintString(text);
    PrintLines(book, after);
    assert book.Contents() == c0 + Render(before) + text + Render(after);
    RenderAppend(before, [Text(text)]);
    RenderAppend(before + [Text(text)], after);
    assert Render([Text(text)]) == text by {
      assert [Text(text)][..0] == [];
    }
    AppendRegroup3(c0, Render(before), text, Render(after));
  }

  /**
   * One turn of that loop: when static schema `i` is selected and fills the slot, its type
   * guard, the generator's text and the guard's end; returns what the generator counts.
   */
  method PrintBlock(book: DynArray<char>, reg: Registry, ty: CCompound, slot: Slot, dp: string, dst: string, fmt: string, i: nat)
    returns (n: nat)
    requires book.Valid() && i < |reg.statics|
    modifies book, book.items
    ensures book.Valid() && (book.items == old(book.items) || fresh(book.items))
    ensures book.Contents() == old(book.Contents()) + Render(Block(reg, ty, slot, dp, dst, fmt, i))
    ensures n == BlockCount(reg, ty, slot, dst, i)
  {
    n := 0;
    var s := reg.statics[i];
    if SchemaBit(reg, Static, i) in ty.derived && HasGen(s, slot) {
      var fn := FnType(slot);
      var gen := RunGen(s, slot, ty, dst, fmt);
      PrintAround(book, TypeOpen(dp, ty.name, s.name, fn), gen.0, TypeClose(dp, ty.name, s.name, fn));
      n := gen.1;
      assert RunGen(s, slot, ty, dst, "").1 == n;
    } else {
      assert Render([]) == [];
    }
  }

  /** gen_dump_decl */
  method GenDumpDecl(book: DynArray<char>, reg: Registry, ty: CCompound, dp: string, dst: string) returns (count: nat)
    requires book.Valid()
    modifies book, book.items
    ensures book.Valid()
    ensures book.Contents() == old(book.Contents()) + Render(Guarded(reg, ty, DumpDecl, dp, dst, ""))
    ensures count == GuardedCount(reg, ty, DumpDecl, dst)
  {
    count := GenGuarded(book, reg, ty, DumpDecl, dp, dst, "");
  }

  /** gen_parse_decl */
  method GenParseDecl(book: DynArray<char>, reg: Registry, ty: CCompound, dp: string) returns (count: nat)
    requires book.Valid()
    modifies book, book.items
    ensures book.Valid()
    ensures book.Contents() == old(book.Contents()) + Render(Guarded(reg, ty, ParseDecl, dp, "", ""))
    ensures count == GuardedCount(reg, ty, ParseDecl, "")
  {
    count := GenGuarded(book, reg, ty, ParseDecl, dp, "", "");
  }

  /** gen_dump_impl */
  method GenDumpImpl(book: DynArray<char>, reg: Registry, ty: CCompound, dp: string, dst: string, fmt: string)
    requires book.Valid()
    modifies book, book.items
    ensures book.Valid()
    ensures book.Contents() == old(book.Contents()) + Render(Guarded(reg, ty, DumpImpl, dp, dst, fmt))
  {
    var _ := GenGuarded(book, reg, ty, DumpImpl, dp, dst, fmt);
  }

  /** gen_parse_impl */
  method GenParseImpl(book: DynArray<char>, reg: Registry, ty: CCompound, dp: string)
    requires book.Valid()
    modifies book, book.items
    ensures book.Valid()
    ensures book.Contents() == old(book.Contents()) + Render(Guarded(reg, ty, ParseImpl, dp, "", ""))
  {
    var _ := GenGuarded(book, reg, ty, ParseImpl, dp, "", "");
  }

  /** The impl emitters return no count: their blocks' generators all count 0. */
  lemma {:induction false} ImplCountZero(reg: Registry, ty: CCompound, slot: Slot, dst: string, n: nat)
    requires slot == DumpImpl || slot == ParseImpl
    requires n <= |reg.statics|
    ensures Count(reg, ty, slot, dst, n) == 0
  {
    if n > 0 {
      ImplCountZero(reg, ty, slot, dst, n - 1);
    }
  }

  // ----- Preludes -----

  /** A schema's prelude inside its include guard; a schema without one still gets the guard. */
  function PreludeBlock(s: StaticSchema): string
  {
    var g := "___BK_PRELUDE_" + s.name + "___";
    var open := "#ifndef " + g + "\n";
    var def := "#define " + g + "\n";
    var close := "#endif // " + g + "\n";
    open + def + (if s.prelude.Some? then s.prelude.value else "") + close
  }

  /** The preludes of the selected schemas among the first `n`, in registry order. */
  function Preludes(reg: Registry, ty: CCompound, n: nat): string
    requires n <= |reg.statics|
  {
    if n == 0 then []
    else
      var b := if SchemaBit(reg, Static, n - 1) in ty.derived then PreludeBlock(reg.statics[n - 1]) else [];
      Preludes(reg, ty, n - 1) + b
  }

  /** One more schema adds its guarded prelude when selected. */
  lemma PreludesStep(reg: Registry, ty: CCompound, i: nat)
    requires i < |reg.statics|
    ensures forall c: string ::
      (c + Preludes(reg, ty, i + 1) ==
       c + Preludes(reg, ty, i) + (if SchemaBit(reg, Static, i) in ty.derived then PreludeBlock(reg.statics[i]) else []))
  {
    var b := if SchemaBit(reg, Static, i) in ty.derived then PreludeBlock(reg.statics[i]) else [];
    forall c: string
      ensures c + Preludes(reg, ty, i + 1) == c + Preludes(reg, ty, i) + b
    {
      AppendRegroup2(c, Preludes(reg, ty, i), b);
    }
  }

  /** Schemas whose bit is clear add nothing: the preludes depend only on the selected ones. */
  lemma {:induction false} PreludesSelectedOnly(reg: Registry, ty: CCompound, ty2: CCompound, n: nat)
    requires n <= |reg.statics|
    requires forall i :: 0 <= i < n ==> (SchemaBit(reg, Static, i) in ty.derived <==> SchemaBit(reg, Static, i) in ty2.derived)
    ensures Preludes(reg, ty, n) == Preludes(reg, ty2, n)
  {
    if n > 0 {
      PreludesSelectedOnly(reg, ty, ty2, n - 1);
    }
  }

  /** With no static bit set, there are no preludes. */
  lemma {:induction false} PreludesNone(reg: Registry, ty: CCompound, n: nat)
    requires n <= |reg.statics|
    requires forall i :: 0 <= i < n ==> SchemaBit(reg, Static, i) !in ty.derived
    ensures Preludes(reg, ty, n) == []
  {
    if n > 0 {
      PreludesNone(reg, ty, n - 1);
    }
  }

  /** One selected schema's part of gen_prelude: guard, prelude text, end of guard. */
  method PrintPrelude(book: DynArray<char>, s: StaticSchema)
    requires book.Valid()
    modifies book, book.items
    ensures book.Valid() && (book.items == old(book.items) || fresh(book.items))
    ensures book.Contents() == old(book.Contents()) + PreludeBlock(s)
  {
    var g := "___BK_PRELUDE_" + s.name + "___";
    var open, def, close := "#ifndef " + g + "\n", "#define " + g + "\n", "#endif // " + g + "\n";
    ghost var c0 := book.Contents();
    book.PrintString(open);
    book.PrintString(def);
    ghost var mid := book.Contents();
    if s.prelude.Some? {
      book.PrintString(s.prelude.value);
    }
    ghost var body := if s.prelude.Some? then s.prelude.value else "";
    assert book.Contents() == mid + body;
    book.PrintString(close);
    AppendRegroup(c0, open, def, body, close);
  }

  /** gen_prelude: the include-guarded prelude of every selected static schema. */
  method GenPrelude(book: DynArray<char>, reg: Registry, ty: CCompound)
    requires book.Valid()
    modifies book, book.items
    ensures book.Valid()
    ensures book.Contents() == old(book.Contents()) + Preludes(reg, ty, |reg.statics|)
  {
    hide PreludeBlock, SchemaBit;
    var i := 0;
    while i < |reg.statics|
      invariant 0 <= i <= |reg.statics|
      invariant book.Valid() && (book.items == old(book.items) || fresh(book.items))
      invariant book.Contents() == old(book.Contents()) + Preludes(reg, ty, i)
    {
      ghost var c := book.Contents();
      if SchemaBit(reg, Static, i) in ty.derived {
        PrintPrelude(book, reg.statics[i]);
      }
      PreludesStep(reg, ty, i);
      assert c == old(book.Contents()) + Preludes(reg, ty, i);
      i := i + 1;
    }
  }
}
