/**
 * The JSON dump emitter of the earlier generator (the emission loop of `main` in
 * bookkeeper_gen.c): for every record marked DERIVE_JSON, a C function `dump_json_<Name>` that
 * prints the record as a JSON object, one `BK_FMT` line per field.
 */
module LegacyJson {

  import opened Util
  import opened Types
  import opened Buffer
  import opened Lexer
  import opened LegacyScanner

  // ----- The lines of a dump function -----

  /** The six lines written before any record: default definitions of BK_FMT and BK_OFFSET_t. */
  function FmtGuard(): string { "#ifndef BK_FMT\n" }
  function FmtDefine(): string { "#define BK_FMT(...) offset += sprintf(dst + offset, __VA_ARGS__)\n" }
  function OffsetGuard(): string { "#ifndef BK_OFFSET_t\n" }
  function OffsetDefine(): string { "#define BK_OFFSET_t size_t\n" }
  function EndIf(): string { "#endif\n" }

  function Preamble(): string
  {
    FmtGuard() + FmtDefine() + EndIf() + OffsetGuard() + OffsetDefine() + EndIf()
  }

  /** The line written between two fields. */
  function Comma(): string { "    BK_FMT(\",\");\n" }

  /** The first lines of `dump_json_<name>`: signature, offset, and the opening brace. */
  function Opening(name: string): string
  {
    "\nvoid dump_json_" + name + "(" + name + "* item, void* dst) {\n" +
    "    BK_OFFSET_t offset = 0;\n" +
    "    BK_FMT(\"{\");\n"
  }

  /** The last lines of a dump function: the closing brace of the object and of the function. */
  function Closing(): string { "    BK_FMT(\"}\");\n" + "}" }

  /** The start of every field's first line: `BK_FMT("\"<name>\":` — the JSON key. */
  function Key(name: string): string
  {
    "    BK_FMT(\"\\\"" + name + "\\\":"
  }

  /** The printf conversion the dump uses for a primitive; a string value is printed in quotes. */
  function Conversion(p: CPrimitive): string
    requires p != CNone
  {
    match p
    case CINT => "%d"
    case CUINT => "%u"
    case CLONG => "%ld"
    case CULONG => "%lu"
    case CFLOAT => "%f"
    case CBOOL => "%s"
    case CSTRING => "\\\"%s\\\""
    case CCHAR => "%c"
  }

  /**
   * What the emitter writes for one field: the key and the value's conversion, with `bool`
   * printed as `true`/`false`; an external type prints its key and then calls that type's own
   * dump function on the member. An untyped field makes the source abort.
   */
  function FieldLine(f: LegacyField): (s: string)
    requires Typed(f)
    ensures |Key(f.name)| <= |s| && s[..|Key(f.name)|] == Key(f.name)
    ensures s[|s| - 3..] == ");\n"
  {
    match f.ty
    case External(t) =>
      Key(f.name) + "\");\n" + ("    dump_json_" + t + "(&item->" + f.name + ", dst);\n")
    case Primitive(p) =>
      Key(f.name) + (Conversion(p) + "\", item->" + f.name +
        (if p == CBOOL then " ? \"true\" : \"false\"" else "") + ");\n")
  }

  /** The field lines in declaration order. */
  function FieldLines(fields: seq<LegacyField>): (r: seq<string>)
    requires forall f <- fields :: Typed(f)
    ensures |r| == |fields|
    ensures forall k :: 0 <= k < |fields| ==> r[k] == FieldLine(fields[k])
  {
    if fields == [] then [] else FieldLines(fields[..|fields| - 1]) + [FieldLine(fields[|fields| - 1])]
  }

  /** `parts` with `sep` between each two neighbours and nowhere else. */
  function Join(parts: seq<string>, sep: string): string
  {
    if |parts| == 0 then "" else if |parts| == 1 then parts[0] else parts[0] + sep + Join(parts[1..], sep)
  }

  /**
   * The dump function of a record: nothing unless it carries DERIVE_JSON; otherwise the opening
   * lines, the field lines in declaration order with a `,` line between each two, and the
   * closing lines.
   */
  function Dump(r: LegacyRecord): (s: string)
    requires forall f <- r.fields :: Typed(f)
    ensures s == [] <==> !r.json
  {
    if !r.json then "" else Opening(r.name) + Join(FieldLines(r.fields), Comma()) + Closing()
  }

  predicate AllTyped(rs: seq<LegacyRecord>)
  {
    forall r <- rs, f <- r.fields :: Typed(f)
  }

  /** The dump functions of `rs`, in order. */
  function Dumps(rs: seq<LegacyRecord>): string
    requires AllTyped(rs)
  {
    if rs == [] then "" else Dumps(rs[..|rs| - 1]) + Dump(rs[|rs| - 1])
  }

  /** The whole of bookkeeper.c: the preamble, the dump functions, and a final newline. */
  function Book(rs: seq<LegacyRecord>): string
    requires AllTyped(rs)
  {
    Preamble() + Dumps(rs) + "\n"
  }

  /** The records that carry DERIVE_JSON, in order. */
  function Marked(rs: seq<LegacyRecord>): (m: seq<LegacyRecord>)
    ensures forall r <- m :: r in rs && r.json
    ensures |m| <= |rs|
  {
    if rs == [] then [] else
    var last := rs[|rs| - 1];
    Marked(rs[..|rs| - 1]) + (if last.json then [last] else [])
  }

  // ----- Properties of the output -----

  /** Joining one more part adds the separator only when there was a part before. */
  lemma {:induction false} JoinSnoc(parts: seq<string>, x: string, sep: string)
    ensures Join(parts + [x], sep) == Join(parts, sep) + (if parts == [] then "" else sep) + x
    decreases |parts|
  {
    if |parts| == 0 {
    } else if |parts| == 1 {
      assert (parts + [x])[1..] == [x];
    } else {
      assert (parts + [x])[1..] == parts[1..] + [x];
      JoinSnoc(parts[1..], x, sep);
    }
  }

  /** One more field adds its line, after a `,` line when it is not the first. */
  lemma FieldLinesStep(fields: seq<LegacyField>, j: nat)
    requires j < |fields| && forall f <- fields :: Typed(f)
    ensures Join(FieldLines(fields[..j + 1]), Comma()) ==
      Join(FieldLines(fields[..j]), Comma()) + (if j == 0 then "" else Comma()) + FieldLine(fields[j])
  {
    assert fields[..j + 1][..j] == fields[..j];
    assert FieldLines(fields[..j + 1]) == FieldLines(fields[..j]) + [FieldLine(fields[j])];
    JoinSnoc(FieldLines(fields[..j]), FieldLine(fields[j]), Comma());
  }

  /** Before the first field the body is empty. */
  lemma BodyStart(fields: seq<LegacyField>)
    requires forall f <- fields :: Typed(f)
    ensures FieldsSoFar(fields, 0) == ""
  {
    assert fields[..0] == [];
  }

  /** What follows field `j`: a `,` line unless it is the last field. */
  function Separator(fields: seq<LegacyField>, j: nat): string
  {
    if j < |fields| - 1 then Comma() else ""
  }

  /** The text of the fields loop after its first `j` turns. */
  function FieldsSoFar(fields: seq<LegacyField>, j: nat): string
    requires j <= |fields| && forall f <- fields :: Typed(f)
  {
    Join(FieldLines(fields[..j]), Comma()) + (if 0 < j < |fields| then Comma() else "")
  }

  /** A turn of the fields loop adds the field's line and its separator. */
  lemma FieldsSoFarStep(fields: seq<LegacyField>, j: nat)
    requires j < |fields| && forall f <- fields :: Typed(f)
    ensures FieldsSoFar(fields, j + 1) == FieldsSoFar(fields, j) + (FieldLine(fields[j]) + Separator(fields, j))
  {
    hide FieldLine, Comma, Join, FieldLines;
    FieldLinesStep(fields, j);
  }

  /** After the last turn the loop has written the joined field lines. */
  lemma FieldsSoFarAll(fields: seq<LegacyField>)
    requires forall f <- fields :: Typed(f)
    ensures FieldsSoFar(fields, |fields|) == Join(FieldLines(fields), Comma())
  {
    assert fields[..|fields|] == fields;
  }

  /** One more record adds its dump function. */
  lemma DumpsStep(rs: seq<LegacyRecord>, i: nat)
    requires i < |rs| && AllTyped(rs)
    ensures AllTyped(rs[..i]) && AllTyped(rs[..i + 1])
    ensures Dumps(rs[..i + 1]) == Dumps(rs[..i]) + Dump(rs[i])
  {
    assert rs[..i + 1][..i] == rs[..i];
  }

  /** Records without DERIVE_JSON add nothing: the output is that of the marked records alone. */
  lemma {:induction false} DumpsMarked(rs: seq<LegacyRecord>)
    requires AllTyped(rs)
    ensures AllTyped(Marked(rs))
    ensures Dumps(rs) == Dumps(Marked(rs))
    decreases |rs|
  {
    if rs != [] {
      var init := rs[..|rs| - 1];
      var last := rs[|rs| - 1];
      DumpsMarked(init);
      if last.json {
        assert (Marked(init) + [last])[..|Marked(init)|] == Marked(init);
      } else {
        assert Marked(init) + [] == Marked(init);
      }
    }
  }

  /** When every record is marked, all of them are dumped. */
  lemma {:induction false} MarkedAll(rs: seq<LegacyRecord>)
    requires forall r <- rs :: r.json
    ensures Marked(rs) == rs
    decreases |rs|
  {
    if rs != [] {
      MarkedAll(rs[..|rs| - 1]);
      assert rs[..|rs| - 1] + [rs[|rs| - 1]] == rs;
    }
  }

  /** With `--derive-all` the book holds a dump function for every record found. */
  lemma DeriveAllDumpsAll(toks: seq<Token>)
    ensures AllTyped(Analyze(toks, true))
    ensures Marked(Analyze(toks, true)) == Analyze(toks, true)
  {
    AnalyzeTyped(toks, true);
    AnalyzeDeriveAll(toks);
    MarkedAll(Analyze(toks, true));
  }

  /** The sum of the lengths of `parts`. */
  function TotalLength(parts: seq<string>): nat
  {
    if parts == [] then 0 else TotalLength(parts[..|parts| - 1]) + |parts[|parts| - 1]|
  }

  /** A join holds every part and exactly one separator fewer than there are parts. */
  lemma {:induction false} JoinLength(parts: seq<string>, sep: string)
    ensures |Join(parts, sep)| == TotalLength(parts) + (if parts == [] then 0 else (|parts| - 1) * |sep|)
    decreases |parts|
  {
    if parts != [] {
      var init := parts[..|parts| - 1];
      assert init + [parts[|parts| - 1]] == parts;
      JoinSnoc(init, parts[|parts| - 1], sep);
      JoinLength(init, sep);
    }
  }

  /** Every marked record gets its own dump function, in order: one per record, each complete. */
  lemma {:induction false} DumpsOfMarked(rs: seq<LegacyRecord>, r: LegacyRecord)
    requires AllTyped(rs + [r]) && r.json
    ensures AllTyped(rs)
    ensures Dumps(rs + [r]) == Dumps(rs) + Opening(r.name) + Join(FieldLines(r.fields), Comma()) + Closing()
  {
    hide Opening, Closing, Join, FieldLines, Comma;
    assert (rs + [r])[..|rs|] == rs;
  }

  // ----- The emission loop as the source writes it -----

  /** The fields loop: each field's line, then a `,` line unless it is the last field. */
  method PrintFields(book: DynArray<char>, fields: seq<LegacyField>)
    requires book.Valid() && forall f <- fields :: Typed(f)
    modifies book, book.items
    ensures book.Valid() && (book.items == old(book.items) || fresh(book.items))
    ensures book.Contents() == old(book.Contents()) + Join(FieldLines(fields), Comma())
  {
    hide FieldLine, FieldLines, Join, Comma, FieldsSoFar;
    ghost var c0 := book.Contents();
    BodyStart(fields);
    var j := 0;
    while j < |fields|
      invariant 0 <= j <= |fields|
      invariant book.Valid() && (book.items == old(book.items) || fresh(book.items))
      invariant book.Contents() == c0 + FieldsSoFar(fields, j)
    {
      PrintField(book, fields, j);
      FieldsSoFarStep(fields, j);
      AppendRegroup2(c0, FieldsSoFar(fields, j), FieldLine(fields[j]) + Separator(fields, j));
      j := j + 1;
    }
    FieldsSoFarAll(fields);
  }

  /** One turn of the fields loop. */
  method PrintField(book: DynArray<char>, fields: seq<LegacyField>, j: nat)
    requires book.Valid() && j < |fields| && forall f <- fields :: Typed(f)
    modifies book, book.items
    ensures book.Valid() && (book.items == old(book.items) || fresh(book.items))
    ensures book.Contents() == old(book.Contents()) + (FieldLine(fields[j]) + Separator(fields, j))
  {
    hide FieldLine, Comma;
    var line := FieldLine(fields[j]);
    book.PrintString(line);
    if j < |fields| - 1 {
      book.PrintString(Comma());
    }
  }

  /** One turn of the records loop: the record's dump function when it is marked. */
  method PrintDump(book: DynArray<char>, r: LegacyRecord)
    requires book.Valid() && forall f <- r.fields :: Typed(f)
    modifies book, book.items
    ensures book.Valid() && (book.items == old(book.items) || fresh(book.items))
    ensures book.Contents() == old(book.Contents()) + Dump(r)
  {
    hide FieldLines, Join, Opening, Closing;
    if r.json {
      ghost var c0 := book.Contents();
      book.PrintString(Opening(r.name));
      PrintFields(book, r.fields);
      book.PrintString(Closing());
      AppendRegroup3(c0, Opening(r.name), Join(FieldLines(r.fields), Comma()), Closing());
    }
  }

  lemma PreambleAfter(c: string)
    ensures c + FmtGuard() + FmtDefine() + EndIf() + OffsetGuard() + OffsetDefine() + EndIf() == c + Preamble()
  {
    hide FmtGuard, FmtDefine, OffsetGuard, OffsetDefine, EndIf;
  }

  /** The six preamble lines, one print_string each. */
  method PrintPreamble(book: DynArray<char>)
    requires book.Valid()
    modifies book, book.items
    ensures book.Valid() && (book.items == old(book.items) || fresh(book.items))
    ensures book.Contents() == old(book.Contents()) + Preamble()
  {
    hide FmtGuard, FmtDefine, OffsetGuard, OffsetDefine, EndIf;
    ghost var c0 := book.Contents();
    book.PrintString(FmtGuard());
    book.PrintString(FmtDefine());
    book.PrintString(EndIf());
    book.PrintString(OffsetGuard());
    book.PrintString(OffsetDefine());
    book.PrintString(EndIf());
    PreambleAfter(c0);
  }

  /**
   * The emission part of `main`: the preamble, each record's dump function in the order the
   * records were found, and a final newline, into a fresh buffer.
   */
  method WriteBook(rs: seq<LegacyRecord>) returns (book: DynArray<char>)
    requires AllTyped(rs)
    ensures fresh(book) && book.Valid()
    ensures book.Contents() == Book(rs)
  {
    hide Dump, Preamble;
    book := new DynArray<char>.Empty();
    PrintPreamble(book);
    assert rs[..0] == [];
    var i := 0;
    while i < |rs|
      invariant 0 <= i <= |rs|
      invariant fresh(book) && fresh(book.items) && book.Valid()
      invariant book.Contents() == Preamble() + Dumps(rs[..i])
    {
      PrintDump(book, rs[i]);
      DumpsStep(rs, i);
      AppendRegroup2(Preamble(), Dumps(rs[..i]), Dump(rs[i]));
      i := i + 1;
    }
    assert rs[..i] == rs;
    book.PushDa('\n');
  }

  /**
   * The earlier generator end to end on one file's tokens: the records analyze_file finds are
   * always typed, so the emission never aborts, and the file written is their book.
   */
  method Generate(toks: seq<Token>, deriveAll: bool) returns (book: DynArray<char>)
    ensures fresh(book) && book.Valid()
    ensures AllTyped(Analyze(toks, deriveAll))
    ensures book.Contents() == Book(Analyze(toks, deriveAll))
  {
    hide Analyze, Scan, Book, Dumps;
    var rs := AnalyzeFile(toks, deriveAll);
    AnalyzeTyped(toks, deriveAll);
    book := WriteBook(rs);
  }
}
