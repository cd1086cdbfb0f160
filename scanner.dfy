/**
 * bk.c's `analyze_file`: find every `typedef struct { ... } Name attr() ...;` in a token stream
 * and record its fields and the schemas its attributes select.
 *
 * The functions below are the scanner one loop iteration at a time (`FieldStep`, `AttrStep`) and
 * as a whole (`FieldsFrom`, `AttrsFrom`, `Scan`); `AnalyzeFile` is the scanner as the source
 * writes it, with its three nested loops, and is proved to compute `Scan`.
 */
module Scanner {

  import opened Util
  import opened Types
  import opened Lexer

  /** The primitive a one-word type name stands for. */
  function PrimitiveNamed(name: string): Option<CPrimitive>
  {
    if name == "int" then Some(CINT)
    else if name == "long" then Some(CLONG)
    else if name == "size_t" then Some(CULONG)
    else if name == "double" || name == "float" then Some(CFLOAT)
    else if name == "char" then Some(CCHAR)
    else if name == "bool" then Some(CBOOL)
    else None
  }

  /**
   * The names the `<id> <id>` shape tests with `peek_ids`, in the source's order, with the
   * primitive each gives. The source tests `double`/`float` twice; the second pair never fires.
   */
  const OneWordChain: seq<(string, CPrimitive)> := [
    ("int", CINT), ("long", CLONG), ("size_t", CULONG), ("double", CFLOAT), ("float", CFLOAT),
    ("char", CCHAR), ("double", CFLOAT), ("float", CFLOAT), ("bool", CBOOL)]

  /** The primitive of the first entry of the chain, from `i` on, that names `name`. */
  function ChainLookup(name: string, i: nat): (r: Option<CPrimitive>)
    requires i <= |OneWordChain|
    ensures r.Some? ==> exists j :: i <= j < |OneWordChain| && OneWordChain[j] == (name, r.value)
    ensures r.None? <==> forall j :: i <= j < |OneWordChain| ==> OneWordChain[j].0 != name
    decreases |OneWordChain| - i
  {
    if i == |OneWordChain| then None
    else if OneWordChain[i].0 == name then Some(OneWordChain[i].1)
    else ChainLookup(name, i + 1)
  }

  /** The chain as the source orders it gives each name the primitive `PrimitiveNamed` gives. */
  lemma ChainLookupIsPrimitiveNamed(name: string)
    ensures ChainLookup(name, 0) == PrimitiveNamed(name)
  {
    var c := OneWordChain;
    assert ChainLookup(name, 9) == None;
    assert ChainLookup(name, 8) == if name == c[8].0 then Some(c[8].1) else None;
    assert ChainLookup(name, 7) == if name == c[7].0 then Some(c[7].1) else ChainLookup(name, 8);
    assert ChainLookup(name, 6) == if name == c[6].0 then Some(c[6].1) else ChainLookup(name, 7);
    assert ChainLookup(name, 5) == if name == c[5].0 then Some(c[5].1) else ChainLookup(name, 6);
    assert ChainLookup(name, 4) == if name == c[4].0 then Some(c[4].1) else ChainLookup(name, 5);
    assert ChainLookup(name, 3) == if name == c[3].0 then Some(c[3].1) else ChainLookup(name, 4);
    assert ChainLookup(name, 2) == if name == c[2].0 then Some(c[2].1) else ChainLookup(name, 3);
    assert ChainLookup(name, 1) == if name == c[1].0 then Some(c[1].1) else ChainLookup(name, 2);
  }

  /**
   * The primitive chain of the `<id> <id>` shape: one `peek_ids` per entry from `i` on, the
   * first that matches deciding the type. Nothing is consumed.
   */
  function OneWord(l: Lex, i: nat): (r: (Option<CPrimitive>, Lex))
    requires l.Valid() && i <= |OneWordChain|
    ensures r.1.Valid() && r.1.toks == l.toks && r.1.pos == l.pos
    ensures l.pos < |l.toks| && l.toks[l.pos].Id? ==> r.0 == ChainLookup(l.toks[l.pos].text, i)
    ensures !(l.pos < |l.toks| && l.toks[l.pos].Id?) ==> r.0.None?
    decreases |OneWordChain| - i
  {
    if i == |OneWordChain| then (None, l)
    else
      var (hit, l1) := PeekId(l, OneWordChain[i].0);
      if hit then (Some(OneWordChain[i].1), l1) else OneWord(l1, i + 1)
  }

  /** The `unsigned int` / `unsigned long` test of the `<id> <id> <id>` shape. */
  function Unsigned(l: Lex): (r: (Option<CPrimitive>, Lex))
    requires l.Valid()
    ensures r.1.Valid() && r.1.toks == l.toks && r.1.pos == l.pos
    ensures r.0 == Some(CUINT) <==> MatchesAt(l.toks, l.pos, [IdIs("unsigned"), IdIs("int")])
    ensures r.0 == Some(CULONG) <==> !MatchesAt(l.toks, l.pos, [IdIs("unsigned"), IdIs("int")]) &&
                                     MatchesAt(l.toks, l.pos, [IdIs("unsigned"), IdIs("long")])
    ensures r.0 == None || r.0 == Some(CUINT) || r.0 == Some(CULONG)
  {
    var (a, l1) := Peek(l, [IdIs("unsigned"), IdIs("int")]);
    if a then (Some(CUINT), l1) else
    var (b, l2) := Peek(l1, [IdIs("unsigned"), IdIs("long")]);
    if b then (Some(CULONG), l2) else (None, l2)
  }

  /** What the shape tests decide: a type (the type words are consumed), or the end of the fields. */
  datatype Shape = Typed(ty: CType) | StopFields

  /**
   * The field shapes in priority order: `const char * id`, `char * id`, three identifiers,
   * two identifiers. When none matches, no token is consumed and the type stays unset.
   */
  function FieldShape(l: Lex): (r: (Shape, Lex))
    requires l.Valid()
    ensures r.1.Valid() && r.1.toks == l.toks && l.pos <= r.1.pos
  {
    var (a, l1) := Peek(l, ConstCharStar);
    if a then (Typed(Primitive(CSTRING)), Skip(l1, 3)) else
    var (b, l2) := Peek(l1, CharStar);
    if b then (Typed(Primitive(CSTRING)), Skip(l2, 2)) else
    var (c, l3) := Peek(l2, ThreeIds);
    if c then
      var (u, l4) := Unsigned(l3);
      if u.Some? then (Typed(Primitive(u.value)), Skip(l4, 2)) else (StopFields, l4)
    else
    var (d, l5) := Peek(l3, TwoIds);
    if d then
      var (p, l6) := OneWord(l5, 0);
      var l7 := Next(l6).1;
      if p.Some? then (Typed(Primitive(p.value)), l7) else (Typed(External(l7.str)), l7)
    else (Typed(Primitive(CNone)), l5)
  }

  const ConstCharStar: seq<Word> := [IdIs("const"), IdIs("char"), PunctIs('*'), AnyId]
  const CharStar: seq<Word> := [IdIs("char"), PunctIs('*'), AnyId]
  const ThreeIds: seq<Word> := [AnyId, AnyId, AnyId]
  const TwoIds: seq<Word> := [AnyId, AnyId]

  /** `const char * id` is a string; the three type tokens are read. */
  lemma ShapeConstCharStar(l: Lex)
    requires l.Valid() && MatchesAt(l.toks, l.pos, ConstCharStar)
    ensures FieldShape(l).0 == Typed(Primitive(CSTRING)) && FieldShape(l).1.pos == l.pos + 3
  {
  }

  /** `char * id` is a string; the two type tokens are read. */
  lemma ShapeCharStar(l: Lex)
    requires l.Valid() && MatchesAt(l.toks, l.pos, CharStar)
    ensures FieldShape(l).0 == Typed(Primitive(CSTRING)) && FieldShape(l).1.pos == l.pos + 2
  {
    assert Matches(l.toks[l.pos + 0], CharStar[0]);
    assert !Matches(l.toks[l.pos + 0], ConstCharStar[0]);
  }

  /** `unsigned int id` is CUINT; two type tokens are read. */
  lemma ShapeUnsignedInt(l: Lex)
    requires l.Valid() && MatchesAt(l.toks, l.pos, [IdIs("unsigned"), IdIs("int"), AnyId])
    ensures FieldShape(l).0 == Typed(Primitive(CUINT)) && FieldShape(l).1.pos == l.pos + 2
  {
    var ws := [IdIs("unsigned"), IdIs("int"), AnyId];
    assert Matches(l.toks[l.pos + 0], ws[0]);
    assert Matches(l.toks[l.pos + 1], ws[1]);
    assert Matches(l.toks[l.pos + 2], ws[2]);
    assert !Matches(l.toks[l.pos + 0], ConstCharStar[0]);
    assert !Matches(l.toks[l.pos + 0], CharStar[0]);
    assert MatchesAt(l.toks, l.pos, ThreeIds);
    assert MatchesAt(l.toks, l.pos, [IdIs("unsigned"), IdIs("int")]);
  }

  /** `unsigned long id` is CULONG; two type tokens are read. */
  lemma ShapeUnsignedLong(l: Lex)
    requires l.Valid() && MatchesAt(l.toks, l.pos, [IdIs("unsigned"), IdIs("long"), AnyId])
    ensures FieldShape(l).0 == Typed(Primitive(CULONG)) && FieldShape(l).1.pos == l.pos + 2
  {
    var ws := [IdIs("unsigned"), IdIs("long"), AnyId];
    assert Matches(l.toks[l.pos + 0], ws[0]);
    assert Matches(l.toks[l.pos + 1], ws[1]);
    assert Matches(l.toks[l.pos + 2], ws[2]);
    assert !Matches(l.toks[l.pos + 0], ConstCharStar[0]);
    assert !Matches(l.toks[l.pos + 0], CharStar[0]);
    assert MatchesAt(l.toks, l.pos, ThreeIds);
    assert MatchesAt(l.toks, l.pos, [IdIs("unsigned"), IdIs("long")]);
    var ui := [IdIs("unsigned"), IdIs("int")];
    assert !Matches(l.toks[l.pos + 1], ui[1]);
  }

  /** Three identifiers that do not start `unsigned int` or `unsigned long` end the field list. */
  lemma ShapeThreeIdsStop(l: Lex)
    requires l.Valid() && MatchesAt(l.toks, l.pos, ThreeIds)
    requires !MatchesAt(l.toks, l.pos, [IdIs("unsigned"), IdIs("int")])
    requires !MatchesAt(l.toks, l.pos, [IdIs("unsigned"), IdIs("long")])
    ensures FieldShape(l).0 == StopFields && FieldShape(l).1.pos == l.pos
  {
    assert Matches(l.toks[l.pos + 1], ThreeIds[1]);
    assert Matches(l.toks[l.pos + 2], ThreeIds[2]);
    assert !Matches(l.toks[l.pos + 1], CharStar[1]);
    assert !Matches(l.toks[l.pos + 2], ConstCharStar[2]);
  }

  /**
   * Two identifiers that start neither `const char * id` nor three identifiers: a known
   * one-word type name gives its primitive, any other first identifier an external type of that
   * name; one token is read. A `*` after them does not matter (`struct Foo *p;` is an external
   * type named `struct`, see `ShapeStructPointer`).
   */
  lemma ShapeTwoIds(l: Lex)
    requires l.Valid() && MatchesAt(l.toks, l.pos, TwoIds)
    requires !MatchesAt(l.toks, l.pos, ConstCharStar) && !MatchesAt(l.toks, l.pos, ThreeIds)
    ensures l.toks[l.pos].Id?
    ensures var name := l.toks[l.pos].text;
      FieldShape(l).0 == Typed(if PrimitiveNamed(name).Some? then Primitive(PrimitiveNamed(name).value) else External(name))
    ensures FieldShape(l).1.pos == l.pos + 1
  {
    hide Expect, Skip, Unsigned, OneWord, ChainLookup, PrimitiveNamed;
    assert Matches(l.toks[l.pos + 0], TwoIds[0]);
    assert Matches(l.toks[l.pos + 1], TwoIds[1]);
    assert !Matches(l.toks[l.pos + 1], CharStar[1]);
    ChainLookupIsPrimitiveNamed(l.toks[l.pos].text);
  }

  /** `struct Foo *p;` takes the two-identifier shape: an external type named `struct`. */
  lemma ShapeStructPointer(str: string)
    ensures var l := Lex([Id("struct"), Id("Foo"), Punct('*'), Id("p"), Punct(';')], 0, str);
      FieldShape(l).0 == Typed(External("struct")) && FieldShape(l).1.pos == 1
  {
    var l := Lex([Id("struct"), Id("Foo"), Punct('*'), Id("p"), Punct(';')], 0, str);
    assert !Matches(l.toks[0], ConstCharStar[0]);
    assert !Matches(l.toks[2], ThreeIds[2]);
    assert PrimitiveNamed("struct").None?;
    ShapeTwoIds(l);
  }

  /** `const char` and three identifiers both start with two identifiers. */
  lemma TwoIdsFirst(toks: seq<Token>, p: nat)
    ensures MatchesAt(toks, p, ConstCharStar) ==> MatchesAt(toks, p, TwoIds)
    ensures MatchesAt(toks, p, ThreeIds) ==> MatchesAt(toks, p, TwoIds)
  {
    if MatchesAt(toks, p, ConstCharStar) {
      assert Matches(toks[p + 0], ConstCharStar[0]);
      assert Matches(toks[p + 1], ConstCharStar[1]);
    }
    if MatchesAt(toks, p, ThreeIds) {
      assert Matches(toks[p + 0], ThreeIds[0]);
      assert Matches(toks[p + 1], ThreeIds[1]);
    }
  }

  /** When no shape matches, no token is read and the type stays unset. */
  lemma ShapeNone(l: Lex)
    requires l.Valid()
    requires !MatchesAt(l.toks, l.pos, TwoIds) && !MatchesAt(l.toks, l.pos, CharStar)
    ensures FieldShape(l).0 == Typed(Primitive(CNone)) && FieldShape(l).1.pos == l.pos
  {
    TwoIdsFirst(l.toks, l.pos);
  }

  /** The words of a `tag("...")` annotation after a field. */
  const TagWords: seq<Word> := [IdIs("tag"), PunctIs('('), AnyDqString, PunctIs(')')]

  datatype FieldOutcome = EndFields | GotField(field: Field)

  /**
   * The end of one iteration of the field loop, once a shape gave the type: read the name,
   * require `;` (or stop, dropping the field) and take an optional `tag("...")`.
   */
  function FieldTail(ty: CType, l: Lex): (r: (FieldOutcome, Lex))
    requires l.Valid()
    ensures r.1.Valid() && r.1.toks == l.toks && l.pos <= r.1.pos
    ensures r.0.GotField? ==> l.pos < r.1.pos
  {
    var l1 := Next(l).1;
    var name := l1.str;
    var (semi, l2) := Expect(l1, [PunctIs(';')]);
    if !semi then (EndFields, l2) else
    var (tagged, l3) := Peek(l2, TagWords);
    if tagged then
      var l4 := Skip(l3, 3);
      (GotField(Field(name, Some(l4.str), ty)), Next(l4).1)
    else (GotField(Field(name, None, ty)), l3)
  }

  /** One iteration of the field loop: stop at `}`; otherwise try the shapes, then `FieldTail`. */
  function FieldStep(l: Lex): (r: (FieldOutcome, Lex))
    requires l.Valid()
    ensures r.1.Valid() && r.1.toks == l.toks && l.pos <= r.1.pos
    ensures r.0.GotField? ==> l.pos < r.1.pos
  {
    var (close, l0) := Peek(l, [PunctIs('}')]);
    if close then (EndFields, l0) else
    var (shape, l1) := FieldShape(l0);
    if shape.StopFields? then (EndFields, l1) else FieldTail(shape.ty, l1)
  }

  /** The tag a `tag("...")` at `p` gives, if one is there. */
  function TagAt(toks: seq<Token>, p: nat): (r: Option<string>)
    ensures r.Some? <==> MatchesAt(toks, p, TagWords)
  {
    if MatchesAt(toks, p, TagWords) then
      assert Matches(toks[p + 2], TagWords[2]);
      Some(toks[p + 2].text)
    else None
  }

  /** Where the field loop goes on when the `;` of a field is at `p - 1`. */
  function AfterTag(toks: seq<Token>, p: nat): (q: nat)
    ensures q == p || q == p + 4
    ensures q == p + 4 <==> MatchesAt(toks, p, TagWords)
  {
    if MatchesAt(toks, p, TagWords) then p + 4 else p
  }

  /** Reading `tag ( "..."` leaves the string's text in `lex.string`. */
  lemma TagText(l: Lex)
    requires l.Valid() && MatchesAt(l.toks, l.pos, TagWords)
    ensures l.toks[l.pos + 2].DqString?
    ensures Skip(l, 3).pos == l.pos + 3 && Skip(l, 3).str == l.toks[l.pos + 2].text
  {
    assert Matches(l.toks[l.pos + 2], TagWords[2]);
    var l1 := Next(l).1;
    var l2 := Next(l1).1;
    var l3 := Next(l2).1;
    assert Skip(l, 3) == Skip(l1, 2) == Skip(l2, 1) == Skip(l3, 0);
  }

  /**
   * Once a shape gave type `ty`, an identifier and `;` make a field named by the identifier
   * and tagged by a `tag("...")` that follows.
   */
  lemma FieldTailField(ty: CType, l: Lex)
    requires l.Valid() && l.pos + 1 < |l.toks| && l.toks[l.pos].Id? && l.toks[l.pos + 1] == Punct(';')
    ensures FieldTail(ty, l).0 == GotField(Field(l.toks[l.pos].text, TagAt(l.toks, l.pos + 2), ty))
    ensures FieldTail(ty, l).1.pos == AfterTag(l.toks, l.pos + 2)
  {
    var l1 := Next(l).1;
    assert MatchesAt(l.toks, l.pos + 1, [PunctIs(';')]) by {
      assert Matches(l.toks[l.pos + 1 + 0], PunctIs(';'));
    }
    var (semi, l2) := Expect(l1, [PunctIs(';')]);
    var (tagged, l3) := Peek(l2, TagWords);
    if tagged {
      TagText(l3);
    }
  }

  /** Anything but `;` after the name ends the field list; the field is dropped. */
  lemma FieldTailNoSemicolon(ty: CType, l: Lex)
    requires l.Valid() && !(l.pos + 1 < |l.toks| && l.toks[l.pos + 1] == Punct(';'))
    ensures FieldTail(ty, l).0 == EndFields
  {
    var l1 := Next(l).1;
    assert !MatchesAt(l.toks, l1.pos, [PunctIs(';')]) by {
      if l1.pos < |l.toks| {
        var ws := [PunctIs(';')];
        assert !Matches(l.toks[l1.pos + 0], ws[0]);
      }
    }
  }

  /** The field loop: the fields read, appended to `acc` in source order, and where it stopped. */
  function FieldsFrom(l: Lex, acc: seq<Field>): (r: (seq<Field>, Lex))
    requires l.Valid()
    ensures r.1.Valid() && r.1.toks == l.toks && l.pos <= r.1.pos
    ensures acc <= r.0
    decreases |l.toks| - l.pos
  {
    var (step, l1) := FieldStep(l);
    if step.EndFields? then (acc, l1) else FieldsFrom(l1, acc + [step.field])
  }

  /** At `}` the field loop ends without reading anything. */
  lemma FieldStepClose(l: Lex)
    requires l.Valid() && l.pos < |l.toks| && l.toks[l.pos] == Punct('}')
    ensures FieldStep(l).0 == EndFields && FieldStep(l).1.pos == l.pos
  {
    var ws := [PunctIs('}')];
    assert MatchesAt(l.toks, l.pos, ws) by {
      assert Matches(l.toks[l.pos + 0], ws[0]);
    }
  }

  /** The first of the derive attributes `attrs`, from index `i` on, that is `name`. */
  function FirstNamed(attrs: seq<string>, name: string, i: nat): (r: Option<nat>)
    requires i <= |attrs|
    ensures r.Some? ==> i <= r.value < |attrs| && attrs[r.value] == name
    ensures r.Some? ==> forall j :: i <= j < r.value ==> attrs[j] != name
    ensures r.None? ==> forall j :: i <= j < |attrs| ==> attrs[j] != name
    decreases |attrs| - i
  {
    if i == |attrs| then None
    else if attrs[i] == name then Some(i)
    else FirstNamed(attrs, name, i + 1)
  }

  /** The derive attributes of the static schemas, in registry order. */
  function StaticAttrs(reg: Registry): (r: seq<string>)
    ensures |r| == |reg.statics| && forall j :: 0 <= j < |r| ==> r[j] == reg.statics[j].deriveAttr
  {
    seq(|reg.statics|, j requires 0 <= j < |reg.statics| => reg.statics[j].deriveAttr)
  }

  /** The derive attributes of the dynamic schemas, in registry order. */
  function DynamicAttrs(reg: Registry): (r: seq<string>)
    ensures |r| == |reg.dynamics| && forall j :: 0 <= j < |r| ==> r[j] == reg.dynamics[j].deriveAttr
  {
    seq(|reg.dynamics|, j requires 0 <= j < |reg.dynamics| => reg.dynamics[j].deriveAttr)
  }

  /**
   * The bits attribute `name` sets: all of them for `derive_all`, else the bit of the first
   * static schema with that attribute, else that of the first dynamic one; none when unknown.
   */
  function AttrBits(reg: Registry, name: string): (r: Option<set<nat>>)
    ensures name == "derive_all" ==> r == Some(AllBits)
    ensures name != "derive_all" && r.Some? ==>
      exists i :: r == Some({i}) &&
        ((i < |reg.statics| && reg.statics[i].deriveAttr == name &&
          forall j :: 0 <= j < i ==> reg.statics[j].deriveAttr != name) ||
         (|reg.statics| <= i < |reg.statics| + |reg.dynamics| &&
          reg.dynamics[i - |reg.statics|].deriveAttr == name &&
          (forall j :: 0 <= j < |reg.statics| ==> reg.statics[j].deriveAttr != name) &&
          forall j :: 0 <= j < i - |reg.statics| ==> reg.dynamics[j].deriveAttr != name))
    ensures r.None? <==>
      name != "derive_all" &&
      (forall j :: 0 <= j < |reg.statics| ==> reg.statics[j].deriveAttr != name) &&
      (forall j :: 0 <= j < |reg.dynamics| ==> reg.dynamics[j].deriveAttr != name)
  {
    if name == "derive_all" then Some(AllBits)
    else
      match FirstNamed(StaticAttrs(reg), name, 0)
      case Some(i) => Some({SchemaBit(reg, Static, i)})
      case None =>
        match FirstNamed(DynamicAttrs(reg), name, 0)
        case Some(i) => Some({SchemaBit(reg, Dynamic, i)})
        case None => None
  }

  /** The diagnostic `-W unknown-attr` prints: the attribute and the type it was found on. */
  datatype Warning = UnknownAttr(attr: string, typeName: string)

  /** What one attribute iteration yields: the new mask and the warnings it adds. */
  datatype AttrOutcome = EndAttrs | GotAttr(mask: set<nat>, warned: seq<Warning>)

  /**
   * One iteration of the attribute loop: when `<id> ( )` follows, consume it and add the bits
   * the identifier selects; warn about an unknown one when warnings are on.
   */
  function AttrStep(l: Lex, reg: Registry, warn: bool, typeName: string, mask: set<nat>): (r: (AttrOutcome, Lex))
    requires l.Valid()
    ensures r.1.Valid() && r.1.toks == l.toks && l.pos <= r.1.pos
    ensures r.0.GotAttr? ==> r.1.pos == l.pos + 3
    ensures r.0.GotAttr? <==> MatchesAt(l.toks, l.pos, [AnyId, PunctIs('('), PunctIs(')')])
    ensures r.0.GotAttr? ==> l.toks[l.pos].Id?
    ensures r.0.GotAttr? ==> (
      var bits := AttrBits(reg, l.toks[l.pos].text);
      && r.0.mask == (if bits.Some? then mask + bits.value else mask)
      && r.0.warned == (if bits.None? && warn then [UnknownAttr(l.toks[l.pos].text, typeName)] else []))
  {
    var (more, l1) := Peek(l, [AnyId, PunctIs('('), PunctIs(')')]);
    if !more then (EndAttrs, l1) else
    assert Matches(l.toks[l.pos + 0], [AnyId, PunctIs('('), PunctIs(')')][0]);
    var name := l.toks[l.pos].text;
    var bits := AttrBits(reg, name);
    var l2 := Skip(l1, 3);
    match bits
    case Some(b) => (GotAttr(mask + b, []), l2)
    case None => (GotAttr(mask, if warn then [UnknownAttr(name, typeName)] else []), l2)
  }

  /** The attribute loop: the final mask, the warnings, and where it stopped. */
  function AttrsFrom(l: Lex, reg: Registry, warn: bool, typeName: string, mask: set<nat>, warns: seq<Warning>)
    : (r: (set<nat>, seq<Warning>, Lex))
    requires l.Valid()
    ensures r.2.Valid() && r.2.toks == l.toks && l.pos <= r.2.pos
    ensures mask <= r.0
    ensures Fits(reg) && mask <= AllBits ==> r.0 <= AllBits
    decreases |l.toks| - l.pos
  {
    var (step, l1) := AttrStep(l, reg, warn, typeName, mask);
    match step
    case EndAttrs => (mask, warns, l1)
    case GotAttr(m, w) =>
      assert Fits(reg) && mask <= AllBits ==> m <= AllBits by {
        if Fits(reg) && mask <= AllBits {
          var b := AttrBits(reg, l.toks[l.pos].text);
          if b.Some? {
            assert b.value <= AllBits;
          }
        }
      }
      AttrsFrom(l1, reg, warn, typeName, m, warns + w)
  }

  /** The mask a new record starts with: every bit under `--derive-all`, none otherwise. */
  function InitialMask(deriveAll: bool): (m: set<nat>)
    ensures m <= AllBits
    ensures deriveAll <==> 31 in m
  {
    if deriveAll then AllBits else {}
  }

  /** The words that end a record: `}` and the type name. */
  const CloseWords: seq<Word> := [PunctIs('}'), AnyId]

  /**
   * What follows the field loop, given the fields it read and where it stopped: `}` and the
   * type name (or the record is dropped), then the attributes.
   */
  function CloseRecord(fields: seq<Field>, l: Lex, reg: Registry, deriveAll: bool, warn: bool)
    : (r: (Option<CCompound>, seq<Warning>, Lex))
    requires l.Valid()
    ensures r.2.Valid() && r.2.toks == l.toks && l.pos <= r.2.pos
    ensures r.0.Some? <==> MatchesAt(l.toks, l.pos, CloseWords)
  {
    var close := Expect(l, CloseWords);
    if !close.0 then (None, [], close.1) else
    var name := close.1.str;
    var attrs := AttrsFrom(close.1, reg, warn, name, InitialMask(deriveAll), []);
    (Some(CCompound(name, fields, attrs.0)), attrs.1, attrs.2)
  }

  /**
   * A record that closes holds the fields read before `}`, is named by the identifier after
   * it, and its mask holds the initial mask and, when the registry fits, no bit past 31.
   */
  lemma CloseRecordValue(fields: seq<Field>, l: Lex, reg: Registry, deriveAll: bool, warn: bool)
    requires l.Valid() && MatchesAt(l.toks, l.pos, CloseWords)
    ensures var c := CloseRecord(fields, l, reg, deriveAll, warn).0.value;
      && c.fields == fields
      && l.pos + 1 < |l.toks| && l.toks[l.pos + 1].Id? && c.name == l.toks[l.pos + 1].text
      && InitialMask(deriveAll) <= c.derived
      && (Fits(reg) ==> c.derived <= AllBits)
      && (Fits(reg) && deriveAll ==> c.derived == AllBits)
  {
    CloseName(l);
  }

  /** After `}` and an identifier, `lex.string` holds the type name. */
  lemma CloseName(l: Lex)
    requires l.Valid() && MatchesAt(l.toks, l.pos, CloseWords)
    ensures l.pos + 1 < |l.toks| && l.toks[l.pos + 1].Id?
    ensures Expect(l, CloseWords).1.str == l.toks[l.pos + 1].text
  {
    ExpectLastText(l, CloseWords);
  }

  /** Everything after `typedef struct {`: the field loop, then the rest of the record. */
  function StructBody(l: Lex, reg: Registry, deriveAll: bool, warn: bool): (r: (Option<CCompound>, seq<Warning>, Lex))
    requires l.Valid()
    ensures r.2.Valid() && r.2.toks == l.toks && l.pos <= r.2.pos
  {
    var fl := FieldsFrom(l, []);
    CloseRecord(fl.0, fl.1, reg, deriveAll, warn)
  }

  /** The words that open a record. */
  const TypedefStruct: seq<Word> := [IdIs("typedef"), IdIs("struct")]

  /**
   * The outer loop of analyze_file from `l` on, with the records and warnings found so far.
   * A token that does not start `typedef struct` is skipped alone; `typedef struct` without `{`
   * is skipped; the scan ends at the end of the tokens.
   */
  function Scan(l: Lex, reg: Registry, deriveAll: bool, warn: bool, out: seq<CCompound>, warns: seq<Warning>)
    : (r: (seq<CCompound>, seq<Warning>))
    requires l.Valid()
    ensures out <= r.0
    ensures warns <= r.1
    decreases |l.toks| - l.pos, 1
  {
    var (t, l1) := Next(l);
    if t == Eof then (out, warns) else
    var (ts, l2) := Expect(l1.(pos := l.pos), TypedefStruct);
    if ts then
      var (brace, l3) := Expect(l2, [PunctIs('{')]);
      if !brace then Scan(l3, reg, deriveAll, warn, out, warns)
      else RecordThenScan(l.pos, l3, reg, deriveAll, warn, out, warns)
    else
      Scan(Next(l2.(pos := l.pos)).1, reg, deriveAll, warn, out, warns)
  }

  /**
   * The outer loop's record branch, after `typedef struct {` read from `start` on: read the
   * record, keep it when it closes, and go on scanning after it.
   */
  function RecordThenScan(start: nat, l: Lex, reg: Registry, deriveAll: bool, warn: bool, out: seq<CCompound>, warns: seq<Warning>)
    : (r: (seq<CCompound>, seq<Warning>))
    requires l.Valid() && start < l.pos
    ensures out <= r.0
    ensures warns <= r.1
    decreases |l.toks| - start, 0
  {
    var (c, w, l4) := StructBody(l, reg, deriveAll, warn);
    Scan(l4, reg, deriveAll, warn, if c.Some? then out + [c.value] else out, warns + w)
  }

  /** analyze_file over a whole token stream: the records found, in source order. */
  function Analyze(toks: seq<Token>, reg: Registry, deriveAll: bool, warn: bool): (r: (seq<CCompound>, seq<Warning>))
  {
    Scan(Lex(toks, 0, ""), reg, deriveAll, warn, [], [])
  }

  /** At the end of the tokens the scan stops with what it found. */
  lemma ScanAtEnd(l: Lex, reg: Registry, deriveAll: bool, warn: bool, out: seq<CCompound>, warns: seq<Warning>)
    requires l.Valid() && l.pos == |l.toks|
    ensures Scan(l, reg, deriveAll, warn, out, warns) == (out, warns)
  {
  }

  /**
   * A token that does not start `typedef struct` is read alone and skipped: the scan goes on
   * from the next token, with `lex.string` as reading that token leaves it.
   */
  lemma ScanSkipsOther(l: Lex, reg: Registry, deriveAll: bool, warn: bool, out: seq<CCompound>, warns: seq<Warning>)
    requires l.Valid() && l.pos < |l.toks| && l.toks[l.pos] != Eof
    requires !MatchesAt(l.toks, l.pos, TypedefStruct)
    ensures Scan(l, reg, deriveAll, warn, out, warns) == Scan(Next(l).1, reg, deriveAll, warn, out, warns)
  {
    var t := l.toks[l.pos];
    var l1 := Next(l).1;
    var l2 := Expect(l1.(pos := l.pos), TypedefStruct).1;
    if !(t.Id? || t.DqString?) {
      assert !Matches(l.toks[l.pos + 0], TypedefStruct[0]);
      assert l2.str == l1.str == l.str;
    }
    assert !Expect(l1.(pos := l.pos), TypedefStruct).0;
    assert Scan(l, reg, deriveAll, warn, out, warns) == Scan(Next(l2.(pos := l.pos)).1, reg, deriveAll, warn, out, warns);
    assert Next(l2.(pos := l.pos)).1 == l1;
  }

  /** After `typedef struct {` the record branch runs with `lex.string` holding "struct". */
  lemma ScanRecord(l: Lex, reg: Registry, deriveAll: bool, warn: bool, out: seq<CCompound>, warns: seq<Warning>)
    requires l.Valid() && MatchesAt(l.toks, l.pos, TypedefStruct + [PunctIs('{')])
    ensures Scan(l, reg, deriveAll, warn, out, warns) ==
      RecordThenScan(l.pos, Lex(l.toks, l.pos + 3, "struct"), reg, deriveAll, warn, out, warns)
  {
    hide FieldsFrom, CloseRecord, FieldStep, AttrsFrom;
    var ws := TypedefStruct + [PunctIs('{')];
    assert Matches(l.toks[l.pos + 0], ws[0]);
    assert Matches(l.toks[l.pos + 1], ws[1]);
    assert Matches(l.toks[l.pos + 2], ws[2]);
    assert MatchesAt(l.toks, l.pos, TypedefStruct);
    assert MatchesAt(l.toks, l.pos + 2, [PunctIs('{')]);
    ExpectLastText(l, TypedefStruct);
  }

  /**
   * The record branch keeps the record exactly when `}` and a name follow its fields, and the
   * scan goes on after the record either way.
   */
  lemma RecordKeptWhenClosed(start: nat, l: Lex, reg: Registry, deriveAll: bool, warn: bool, out: seq<CCompound>, warns: seq<Warning>)
    requires l.Valid() && start < l.pos
    ensures var fl := FieldsFrom(l, []);
      var (c, w, l4) := CloseRecord(fl.0, fl.1, reg, deriveAll, warn);
      && (c.Some? <==> MatchesAt(l.toks, fl.1.pos, CloseWords))
      && RecordThenScan(start, l, reg, deriveAll, warn, out, warns) ==
         Scan(l4, reg, deriveAll, warn, if c.Some? then out + [c.value] else out, warns + w)
  {
  }

  /** The field loop of analyze_file: read fields until a step ends the list. */
  method ReadFields(start: Lex) returns (fields: seq<Field>, lex: Lex)
    requires start.Valid()
    ensures (fields, lex) == FieldsFrom(start, [])
  {
    lex := start;
    fields := [];
    while true
      invariant lex.Valid() && lex.toks == start.toks
      invariant FieldsFrom(lex, fields) == FieldsFrom(start, [])
      decreases |lex.toks| - lex.pos
    {
      var step := FieldStep(lex);
      if step.0.EndFields? {
        lex := step.1;
        return;
      }
      lex := step.1;
      fields := fields + [step.0.field];
    }
  }

  /**
   * The rest of a record in analyze_file: `}` and the name, then the attribute loop, which
   * starts from every bit under `--derive-all` and adds the bits each attribute selects.
   */
  method FinishRecord(fields: seq<Field>, start: Lex, reg: Registry, deriveAll: bool, warn: bool)
    returns (record: Option<CCompound>, found: seq<Warning>, lex: Lex)
    requires start.Valid()
    ensures (record, found, lex) == CloseRecord(fields, start, reg, deriveAll, warn)
  {
    var ok := Expect(start, CloseWords);
    lex := ok.1;
    if !ok.0 {
      return None, [], lex;
    }
    var name := lex.str;
    ghost var atAttrs := lex;
    var mask := InitialMask(deriveAll);
    found := [];
    while true
      invariant lex.Valid() && lex.toks == start.toks
      invariant AttrsFrom(lex, reg, warn, name, mask, found) == AttrsFrom(atAttrs, reg, warn, name, InitialMask(deriveAll), [])
      decreases |lex.toks| - lex.pos
    {
      var step := AttrStep(lex, reg, warn, name, mask);
      lex := step.1;
      if step.0.EndAttrs? {
        break;
      }
      mask, found := step.0.mask, found + step.0.warned;
    }
    record := Some(CCompound(name, fields, mask));
  }

  /**
   * analyze_file as the source writes it: an outer `for (;;)` over the tokens; after
   * `typedef struct {` the field loop and the attribute loop; each complete record appended.
   */
  method AnalyzeFile(toks: seq<Token>, reg: Registry, deriveAll: bool, warn: bool)
    returns (out: seq<CCompound>, warnings: seq<Warning>)
    ensures (out, warnings) == Analyze(toks, reg, deriveAll, warn)
  {
    hide FieldsFrom, CloseRecord, FieldStep, AttrsFrom;
    var lex := Lex(toks, 0, "");
    out, warnings := [], [];
    while true
      invariant lex.Valid() && lex.toks == toks
      invariant Scan(lex, reg, deriveAll, warn, out, warnings) == Analyze(toks, reg, deriveAll, warn)
      decreases |toks| - lex.pos
    {
      var pp := lex.pos;
      var (t, l1) := Next(lex);
      if t == Eof {
        return;
      }
      var ts := Expect(l1.(pos := pp), TypedefStruct);
      lex := ts.1;
      if !ts.0 {
        lex := Next(lex.(pos := pp)).1;
        continue;
      }
      var brace := Expect(lex, [PunctIs('{')]);
      lex := brace.1;
      if !brace.0 {
        continue;
      }
      var fields, afterFields := ReadFields(lex);
      var record, found, afterRecord := FinishRecord(fields, afterFields, reg, deriveAll, warn);
      lex := afterRecord;
      if record.Some? {
        out := out + [record.value];
      }
      warnings := warnings + found;
    }
  }
}
