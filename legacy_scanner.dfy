/**
 * The scanner of bookkeeper_gen.c, the earlier standalone generator: the same outer loop as
 * bk.c's, but a field shape is taken only when its whole pattern, `;` included, is seen in
 * lookahead, fields carry no tags, and the only attribute is one `derive_json()`.
 *
 * `FieldStep` and `CloseRecord` follow the source's lookahead calls one by one; `ShapeAt` says on
 * the tokens alone which field, if any, the lookahead accepts, and `FieldStepIsShapeAt` ties
 * the two together. `AnalyzeFile` is the loop nest as the source writes it.
 */
module LegacyScanner {

  import opened Util
  import opened Types
  import opened Lexer
  import Scanner

  /** A field of the earlier generator: a name and a type, no tag. */
  datatype LegacyField = LegacyField(name: string, ty: CType)

  /** A recognised `typedef struct`: its name, its fields in source order, and whether DERIVE_JSON is set. */
  datatype LegacyRecord = LegacyRecord(name: string, fields: seq<LegacyField>, json: bool)

  /** The lookahead patterns of the field loop, in the order it tries them. */
  const StarredTwo: seq<Word> := [AnyId, AnyId, PunctIs('*'), AnyId, PunctIs(';')]
  const StarredOne: seq<Word> := [AnyId, PunctIs('*'), AnyId, PunctIs(';')]
  const ThreeIdsSemi: seq<Word> := [AnyId, AnyId, AnyId, PunctIs(';')]
  const TwoIdsSemi: seq<Word> := [AnyId, AnyId, PunctIs(';')]

  datatype LegacyStep = Stop | Got(field: LegacyField)

  /** `peek_tokens` of a pattern, then, only when it matched, `peek_ids` of the type words. */
  function PeekBoth(l: Lex, pattern: seq<Word>, words: seq<Word>): (r: (bool, Lex))
    requires l.Valid()
    ensures r.1.Valid() && r.1.toks == l.toks && r.1.pos == l.pos
    ensures r.0 <==> MatchesAt(l.toks, l.pos, pattern) && MatchesAt(l.toks, l.pos, words)
  {
    var (a, l1) := Peek(l, pattern);
    if a then Peek(l1, words) else (false, l1)
  }

  /** Read `n` type tokens, the name, and the `;` the lookahead saw: the field, typed `ty`. */
  function ReadField(l: Lex, n: nat, ty: CType): (r: (LegacyStep, Lex))
    requires l.Valid() && l.pos + n + 2 <= |l.toks|
    ensures r.1.Valid() && r.1.toks == l.toks && r.1.pos == l.pos + n + 2
    ensures r.0.Got? && r.0.field.ty == ty
  {
    var l1 := Skip(l, n);
    var l2 := Next(l1).1;
    (Got(LegacyField(l2.str, ty)), Next(l2).1)
  }

  /** The `<id> <id> ;` shape: the primitive chain, then the type word (naming an external type), the name and `;`. */
  function ReadTwoIds(l: Lex): (r: (LegacyStep, Lex))
    requires l.Valid() && l.pos + 3 <= |l.toks|
    ensures r.1.Valid() && r.1.toks == l.toks && r.1.pos == l.pos + 3
    ensures r.0.Got?
  {
    var (p, l1) := Scanner.OneWord(l, 0);
    var l2 := Next(l1).1;
    ReadField(l2, 0, if p.Some? then Primitive(p.value) else External(l2.str))
  }

  /**
   * One iteration of the field loop. Each branch first peeks its whole pattern (then, with
   * `peek_ids`, the type words) and only then reads the tokens; when nothing matches, nothing is
   * read and the loop stops. An `<id> <id> <id> ;` that is not `unsigned int` or `unsigned long`
   * stops it as well.
   */
  function FieldStep(l: Lex): (r: (LegacyStep, Lex))
    requires l.Valid()
    ensures r.1.Valid() && r.1.toks == l.toks && l.pos <= r.1.pos
    ensures r.0.Stop? ==> r.1.pos == l.pos
    ensures r.0.Got? ==> l.pos < r.1.pos
  {
    var (constChar, l1) := PeekBoth(l, StarredTwo, [IdIs("const"), IdIs("char")]);
    if constChar then ReadField(l1, 3, Primitive(CSTRING)) else
    var (isChar, l2) := PeekBoth(l1, StarredOne, [IdIs("char")]);
    if isChar then ReadField(l2, 2, Primitive(CSTRING)) else
    var (c, l3) := Peek(l2, ThreeIdsSemi);
    if c then
      var (u, l4) := Scanner.Unsigned(l3);
      if u.Some? then ReadField(l4, 2, Primitive(u.value)) else (Stop, l4)
    else
    var (d, l5) := Peek(l3, TwoIdsSemi);
    if d then ReadTwoIds(l5) else (Stop, l5)
  }

  /** The type a one-word type name gives in the `<id> <id> ;` shape. */
  function TypeNamed(name: string): (t: CType)
    ensures t.Primitive? <==> Scanner.PrimitiveNamed(name).Some?
    ensures t.External? ==> t.name == name
    ensures t != Primitive(CNone)
  {
    var p := Scanner.PrimitiveNamed(name);
    if p.Some? then Primitive(p.value) else External(name)
  }

  /**
   * Which field the lookahead rules accept at `p`, stated on the tokens alone, with the number
   * of tokens it spans; None when the field loop stops there.
   */
  function ShapeAt(toks: seq<Token>, p: nat): (r: Option<(LegacyField, nat)>)
    ensures r.Some? ==> 3 <= r.value.1 <= 5 && p + r.value.1 <= |toks| && toks[p + r.value.1 - 1] == Punct(';')
  {
    var cs := ConstCharSemi;
    var s := CharSemi;
    var ui := UnsignedIntSemi;
    var ul := UnsignedLongSemi;
    if MatchesAt(toks, p, cs) then
      assert Matches(toks[p + 3], cs[3]) && Matches(toks[p + 4], cs[4]);
      Some((LegacyField(toks[p + 3].text, Primitive(CSTRING)), 5))
    else if MatchesAt(toks, p, s) then
      assert Matches(toks[p + 2], s[2]) && Matches(toks[p + 3], s[3]);
      Some((LegacyField(toks[p + 2].text, Primitive(CSTRING)), 4))
    else if MatchesAt(toks, p, ui) then
      assert Matches(toks[p + 2], ui[2]) && Matches(toks[p + 3], ui[3]);
      Some((LegacyField(toks[p + 2].text, Primitive(CUINT)), 4))
    else if MatchesAt(toks, p, ul) then
      assert Matches(toks[p + 2], ul[2]) && Matches(toks[p + 3], ul[3]);
      Some((LegacyField(toks[p + 2].text, Primitive(CULONG)), 4))
    else if MatchesAt(toks, p, ThreeIdsSemi) then None
    else if MatchesAt(toks, p, TwoIdsSemi) then
      assert Matches(toks[p], TwoIdsSemi[0]) && Matches(toks[p + 1], TwoIdsSemi[1]);
      assert Matches(toks[p + 2], TwoIdsSemi[2]);
      Some((LegacyField(toks[p + 1].text, TypeNamed(toks[p].text)), 3))
    else None
  }

  // ----- The lookahead, stated on the tokens -----

  /** Reading `n` type tokens and then an identifier names the field by that identifier. */
  lemma ReadFieldIs(l: Lex, n: nat, ty: CType)
    requires l.Valid() && l.pos + n + 2 <= |l.toks| && l.toks[l.pos + n].Id?
    ensures ReadField(l, n, ty).0 == Got(LegacyField(l.toks[l.pos + n].text, ty))
  {
    hide Expect, Skip;
  }

  /** The `<id> <id> ;` shape types the field by its first word and names it by the second. */
  lemma ReadTwoIdsIs(l: Lex)
    requires l.Valid() && MatchesAt(l.toks, l.pos, TwoIdsSemi)
    ensures l.toks[l.pos].Id? && l.toks[l.pos + 1].Id?
    ensures ReadTwoIds(l).0 == Got(LegacyField(l.toks[l.pos + 1].text, TypeNamed(l.toks[l.pos].text)))
  {
    hide Expect, Skip;
    assert Matches(l.toks[l.pos + 0], TwoIdsSemi[0]);
    assert Matches(l.toks[l.pos + 1], TwoIdsSemi[1]);
    Scanner.ChainLookupIsPrimitiveNamed(l.toks[l.pos].text);
    var l1 := Scanner.OneWord(l, 0).1;
    var l2 := Next(l1).1;
    assert l2.pos == l.pos + 1 && l2.str == l.toks[l.pos].text;
    ReadFieldIs(l2, 0, TypeNamed(l.toks[l.pos].text));
  }

  /** `const char * id ;` is the five-token pattern whose first two words are `const char`. */
  lemma ConstCharPattern(toks: seq<Token>, p: nat)
    ensures MatchesAt(toks, p, ConstCharSemi) <==>
      MatchesAt(toks, p, StarredTwo) && MatchesAt(toks, p, [IdIs("const"), IdIs("char")])
  {
    var cs := ConstCharSemi;
    var w := [IdIs("const"), IdIs("char")];
    if MatchesAt(toks, p, StarredTwo) && MatchesAt(toks, p, w) {
      forall i | 0 <= i < |cs|
        ensures Matches(toks[p + i], cs[i])
      {
        if i < 2 {
          assert Matches(toks[p + i], w[i]);
        } else {
          assert Matches(toks[p + i], StarredTwo[i]);
        }
      }
    }
    if MatchesAt(toks, p, cs) {
      forall i | 0 <= i < |StarredTwo|
        ensures Matches(toks[p + i], StarredTwo[i])
      {
        assert Matches(toks[p + i], cs[i]);
      }
      forall i | 0 <= i < |w|
        ensures Matches(toks[p + i], w[i])
      {
        assert Matches(toks[p + i], cs[i]);
      }
    }
  }

  /** `char * id ;` is the four-token pattern whose first word is `char`. */
  lemma CharPattern(toks: seq<Token>, p: nat)
    ensures MatchesAt(toks, p, CharSemi) <==>
      MatchesAt(toks, p, StarredOne) && MatchesAt(toks, p, [IdIs("char")])
  {
    var cs := CharSemi;
    var w := [IdIs("char")];
    if MatchesAt(toks, p, StarredOne) && MatchesAt(toks, p, w) {
      forall i | 0 <= i < |cs|
        ensures Matches(toks[p + i], cs[i])
      {
        if i < 1 {
          assert Matches(toks[p + i], w[i]);
        } else {
          assert Matches(toks[p + i], StarredOne[i]);
        }
      }
    }
    if MatchesAt(toks, p, cs) {
      forall i | 0 <= i < |StarredOne|
        ensures Matches(toks[p + i], StarredOne[i])
      {
        assert Matches(toks[p + i], cs[i]);
      }
      forall i | 0 <= i < |w|
        ensures Matches(toks[p + i], w[i])
      {
        assert Matches(toks[p + i], cs[i]);
      }
    }
  }

  /** `unsigned <w> id ;` is the three-identifier pattern whose first two words are `unsigned <w>`. */
  lemma UnsignedPattern(toks: seq<Token>, p: nat, w: string)
    ensures MatchesAt(toks, p, [IdIs("unsigned"), IdIs(w), AnyId, PunctIs(';')]) <==>
      MatchesAt(toks, p, ThreeIdsSemi) && MatchesAt(toks, p, [IdIs("unsigned"), IdIs(w)])
  {
    var cs := [IdIs("unsigned"), IdIs(w), AnyId, PunctIs(';')];
    var u := [IdIs("unsigned"), IdIs(w)];
    if MatchesAt(toks, p, ThreeIdsSemi) && MatchesAt(toks, p, u) {
      forall i | 0 <= i < |cs|
        ensures Matches(toks[p + i], cs[i])
      {
        if i < 2 {
          assert Matches(toks[p + i], u[i]);
        } else {
          assert Matches(toks[p + i], ThreeIdsSemi[i]);
        }
      }
    }
    if MatchesAt(toks, p, cs) {
      forall i | 0 <= i < |ThreeIdsSemi|
        ensures Matches(toks[p + i], ThreeIdsSemi[i])
      {
        assert Matches(toks[p + i], cs[i]);
      }
      forall i | 0 <= i < |u|
        ensures Matches(toks[p + i], u[i])
      {
        assert Matches(toks[p + i], cs[i]);
      }
    }
  }

  /** The field loop's step reads exactly the field `ShapeAt` accepts, or stops where it accepts none. */
  predicate StepAgrees(l: Lex)
    requires l.Valid()
  {
    var s := ShapeAt(l.toks, l.pos);
    && (s.None? ==> FieldStep(l).0 == Stop && FieldStep(l).1.pos == l.pos)
    && (s.Some? ==> FieldStep(l).0 == Got(s.value.0) && FieldStep(l).1.pos == l.pos + s.value.1)
  }

  const ConstCharSemi: seq<Word> := [IdIs("const"), IdIs("char"), PunctIs('*'), AnyId, PunctIs(';')]
  const CharSemi: seq<Word> := [IdIs("char"), PunctIs('*'), AnyId, PunctIs(';')]

  lemma StepConstChar(l: Lex)
    requires l.Valid() && MatchesAt(l.toks, l.pos, ConstCharSemi)
    ensures StepAgrees(l)
  {
    hide Expect, Skip;
    ConstCharPattern(l.toks, l.pos);
    assert Matches(l.toks[l.pos + 3], ConstCharSemi[3]);
    ReadFieldIs(l, 3, Primitive(CSTRING));
  }

  lemma StepChar(l: Lex)
    requires l.Valid() && !MatchesAt(l.toks, l.pos, ConstCharSemi) && MatchesAt(l.toks, l.pos, CharSemi)
    ensures StepAgrees(l)
  {
    hide Expect, Skip;
    ConstCharPattern(l.toks, l.pos);
    CharPattern(l.toks, l.pos);
    assert Matches(l.toks[l.pos + 2], CharSemi[2]);
    ReadFieldIs(l, 2, Primitive(CSTRING));
  }

  const UnsignedInt: seq<Word> := [IdIs("unsigned"), IdIs("int")]
  const UnsignedLong: seq<Word> := [IdIs("unsigned"), IdIs("long")]

  /** The state of the lexer once the two starred shapes have been peeked and rejected. */
  function AfterStarred(l: Lex): (r: Lex)
    requires l.Valid()
    ensures r.Valid() && r.toks == l.toks && r.pos == l.pos
  {
    var l1 := PeekBoth(l, StarredTwo, [IdIs("const"), IdIs("char")]).1;
    PeekBoth(l1, StarredOne, [IdIs("char")]).1
  }

  /** The state of the lexer once `<id> <id> <id> ;` has been peeked as well. */
  function ThreeIdsLex(l: Lex): (r: Lex)
    requires l.Valid()
    ensures r.Valid() && r.toks == l.toks && r.pos == l.pos
  {
    Peek(AfterStarred(l), ThreeIdsSemi).1
  }

  lemma StarredRejected(l: Lex)
    requires l.Valid() && !MatchesAt(l.toks, l.pos, ConstCharSemi) && !MatchesAt(l.toks, l.pos, CharSemi)
    ensures !PeekBoth(l, StarredTwo, [IdIs("const"), IdIs("char")]).0
    ensures !PeekBoth(PeekBoth(l, StarredTwo, [IdIs("const"), IdIs("char")]).1, StarredOne, [IdIs("char")]).0
  {
    ConstCharPattern(l.toks, l.pos);
    CharPattern(l.toks, l.pos);
  }

  const UnsignedIntSemi: seq<Word> := [IdIs("unsigned"), IdIs("int"), AnyId, PunctIs(';')]
  const UnsignedLongSemi: seq<Word> := [IdIs("unsigned"), IdIs("long"), AnyId, PunctIs(';')]

  /** After the starred shapes, `<id> <id> <id> ;` with a known unsigned type reads the field typed `prim`. */
  lemma ThreeIdsRead(l: Lex, prim: CPrimitive)
    requires l.Valid() && !MatchesAt(l.toks, l.pos, ConstCharSemi) && !MatchesAt(l.toks, l.pos, CharSemi)
    requires MatchesAt(l.toks, l.pos, ThreeIdsSemi)
    requires Scanner.Unsigned(ThreeIdsLex(l)).0 == Some(prim)
    ensures l.pos + 2 < |l.toks| && l.toks[l.pos + 2].Id?
    ensures FieldStep(l).0 == Got(LegacyField(l.toks[l.pos + 2].text, Primitive(prim)))
    ensures FieldStep(l).1.pos == l.pos + 4
  {
    hide Expect, Skip;
    StarredRejected(l);
    var l4 := Scanner.Unsigned(ThreeIdsLex(l)).1;
    assert FieldStep(l) == ReadField(l4, 2, Primitive(prim));
    assert Matches(l.toks[l.pos + 2], ThreeIdsSemi[2]);
    ReadFieldIs(l4, 2, Primitive(prim));
  }

  lemma StepUnsignedInt(l: Lex)
    requires l.Valid() && !MatchesAt(l.toks, l.pos, ConstCharSemi) && !MatchesAt(l.toks, l.pos, CharSemi)
    requires MatchesAt(l.toks, l.pos, UnsignedIntSemi)
    ensures StepAgrees(l)
  {
    hide Expect, Skip, FieldStep;
    UnsignedPattern(l.toks, l.pos, "int");
    ThreeIdsRead(l, CUINT);
    assert Matches(l.toks[l.pos + 2], UnsignedIntSemi[2]);
    assert ShapeAt(l.toks, l.pos) == Some((LegacyField(l.toks[l.pos + 2].text, Primitive(CUINT)), 4));
  }

  lemma StepUnsignedLong(l: Lex)
    requires l.Valid() && !MatchesAt(l.toks, l.pos, ConstCharSemi) && !MatchesAt(l.toks, l.pos, CharSemi)
    requires !MatchesAt(l.toks, l.pos, UnsignedIntSemi) && MatchesAt(l.toks, l.pos, UnsignedLongSemi)
    ensures StepAgrees(l)
  {
    hide Expect, Skip, FieldStep;
    UnsignedPattern(l.toks, l.pos, "int");
    UnsignedPattern(l.toks, l.pos, "long");
    ThreeIdsRead(l, CULONG);
    assert Matches(l.toks[l.pos + 2], UnsignedLongSemi[2]);
    assert ShapeAt(l.toks, l.pos) == Some((LegacyField(l.toks[l.pos + 2].text, Primitive(CULONG)), 4));
  }

  lemma StepThreeIdsStop(l: Lex)
    requires l.Valid() && !MatchesAt(l.toks, l.pos, ConstCharSemi) && !MatchesAt(l.toks, l.pos, CharSemi)
    requires MatchesAt(l.toks, l.pos, ThreeIdsSemi)
    requires !MatchesAt(l.toks, l.pos, UnsignedInt) && !MatchesAt(l.toks, l.pos, UnsignedLong)
    ensures StepAgrees(l)
  {
    hide Expect, Skip;
    StarredRejected(l);
    UnsignedPattern(l.toks, l.pos, "int");
    UnsignedPattern(l.toks, l.pos, "long");
    assert ShapeAt(l.toks, l.pos) == None;
    assert FieldStep(l).0 == Stop;
  }

  /** After the starred and three-identifier shapes, `<id> <id> ;` reads the field its words give. */
  lemma TwoIdsRead(l: Lex)
    requires l.Valid() && !MatchesAt(l.toks, l.pos, ConstCharSemi) && !MatchesAt(l.toks, l.pos, CharSemi)
    requires !MatchesAt(l.toks, l.pos, ThreeIdsSemi) && MatchesAt(l.toks, l.pos, TwoIdsSemi)
    ensures l.pos + 1 < |l.toks| && l.toks[l.pos].Id? && l.toks[l.pos + 1].Id?
    ensures FieldStep(l).0 == Got(LegacyField(l.toks[l.pos + 1].text, TypeNamed(l.toks[l.pos].text)))
    ensures FieldStep(l).1.pos == l.pos + 3
  {
    hide Expect, Skip, ReadTwoIds, Scanner.Unsigned, Scanner.OneWord, ShapeAt;
    StarredRejected(l);
    var l5 := Peek(ThreeIdsLex(l), TwoIdsSemi).1;
    assert FieldStep(l) == ReadTwoIds(l5);
    ReadTwoIdsIs(l5);
  }

  lemma StepTwoIds(l: Lex)
    requires l.Valid() && !MatchesAt(l.toks, l.pos, ConstCharSemi) && !MatchesAt(l.toks, l.pos, CharSemi)
    requires !MatchesAt(l.toks, l.pos, ThreeIdsSemi) && MatchesAt(l.toks, l.pos, TwoIdsSemi)
    ensures StepAgrees(l)
  {
    hide Expect, Skip, FieldStep;
    TwoIdsRead(l);
    UnsignedPattern(l.toks, l.pos, "int");
    UnsignedPattern(l.toks, l.pos, "long");
    assert ShapeAt(l.toks, l.pos) == Some((LegacyField(l.toks[l.pos + 1].text, TypeNamed(l.toks[l.pos].text)), 3));
  }

  lemma StepNone(l: Lex)
    requires l.Valid() && !MatchesAt(l.toks, l.pos, ConstCharSemi) && !MatchesAt(l.toks, l.pos, CharSemi)
    requires !MatchesAt(l.toks, l.pos, ThreeIdsSemi) && !MatchesAt(l.toks, l.pos, TwoIdsSemi)
    ensures StepAgrees(l)
  {
    hide Expect, Skip;
    StarredRejected(l);
    UnsignedPattern(l.toks, l.pos, "int");
    UnsignedPattern(l.toks, l.pos, "long");
    assert ShapeAt(l.toks, l.pos) == None;
    assert FieldStep(l).0 == Stop;
  }

  /**
   * The field loop's step is the token-level rule: it reads exactly the field `ShapeAt` accepts,
   * spanning its tokens, and stops without reading anything where `ShapeAt` accepts none.
   */
  lemma FieldStepIsShapeAt(l: Lex)
    requires l.Valid()
    ensures var s := ShapeAt(l.toks, l.pos);
      && (s.None? ==> FieldStep(l).0 == Stop && FieldStep(l).1.pos == l.pos)
      && (s.Some? ==> FieldStep(l).0 == Got(s.value.0) && FieldStep(l).1.pos == l.pos + s.value.1)
  {
    if MatchesAt(l.toks, l.pos, ConstCharSemi) {
      StepConstChar(l);
    } else if MatchesAt(l.toks, l.pos, CharSemi) {
      StepChar(l);
    } else if MatchesAt(l.toks, l.pos, ThreeIdsSemi) {
      UnsignedPattern(l.toks, l.pos, "int");
      UnsignedPattern(l.toks, l.pos, "long");
      if MatchesAt(l.toks, l.pos, UnsignedIntSemi) {
        StepUnsignedInt(l);
      } else if MatchesAt(l.toks, l.pos, UnsignedLongSemi) {
        StepUnsignedLong(l);
      } else {
        StepThreeIdsStop(l);
      }
    } else if MatchesAt(l.toks, l.pos, TwoIdsSemi) {
      StepTwoIds(l);
    } else {
      StepNone(l);
    }
  }

  /** A `}` where a field would start ends the field list. */
  lemma ShapeAtClose(toks: seq<Token>, p: nat)
    requires p < |toks| && toks[p] == Punct('}')
    ensures ShapeAt(toks, p) == None
  {
    assert !Matches(toks[p + 0], TwoIdsSemi[0]);
    assert !Matches(toks[p + 0], ThreeIdsSemi[0]);
    assert !Matches(toks[p + 0], ConstCharSemi[0]);
    assert !Matches(toks[p + 0], CharSemi[0]);
    assert !Matches(toks[p + 0], UnsignedIntSemi[0]);
    assert !Matches(toks[p + 0], UnsignedLongSemi[0]);
  }

  /** A field whose type the scanner could not name: the emitter has no case for it. */
  predicate Typed(f: LegacyField)
  {
    f.ty != Primitive(CNone)
  }

  // ----- The field loop and the end of a record -----

  /** The field loop: the fields read, appended to `acc` in source order, and where it stopped. */
  function FieldsFrom(l: Lex, acc: seq<LegacyField>): (r: (seq<LegacyField>, Lex))
    requires l.Valid()
    ensures r.1.Valid() && r.1.toks == l.toks && l.pos <= r.1.pos
    ensures acc <= r.0
    decreases |l.toks| - l.pos
  {
    var (step, l1) := FieldStep(l);
    if step.Stop? then (acc, l1) else FieldsFrom(l1, acc + [step.field])
  }

  /** Each accepted shape names a type the emitter knows. */
  lemma ShapeAtTyped(toks: seq<Token>, p: nat)
    ensures ShapeAt(toks, p).Some? ==> Typed(ShapeAt(toks, p).value.0)
  {
  }

  /** Every field the loop reads has a type: each shape that is accepted names one. */
  lemma {:induction false} FieldsFromTyped(l: Lex, acc: seq<LegacyField>)
    requires l.Valid() && forall f <- acc :: Typed(f)
    ensures forall f <- FieldsFrom(l, acc).0 :: Typed(f)
    decreases |l.toks| - l.pos
  {
    hide FieldStep, ShapeAt;
    var (step, l1) := FieldStep(l);
    if step.Got? {
      FieldStepIsShapeAt(l);
      ShapeAtTyped(l.toks, l.pos);
      FieldsFromTyped(l1, acc + [step.field]);
    }
  }

  /** The words that end a record, and the one attribute the earlier generator knows. */
  const CloseWords: seq<Word> := [PunctIs('}'), AnyId]
  const DeriveJsonWords: seq<Word> := [IdIs("derive_json"), PunctIs('('), PunctIs(')')]

  /**
   * After the field loop: `}` and the type name, or the record is dropped; then at most one
   * `derive_json()`, which sets DERIVE_JSON. `--derive-all` sets the same bit from the start.
   */
  function CloseRecord(fields: seq<LegacyField>, l: Lex, deriveAll: bool): (r: (Option<LegacyRecord>, Lex))
    requires l.Valid()
    ensures r.1.Valid() && r.1.toks == l.toks && l.pos <= r.1.pos
    ensures r.0.Some? <==> MatchesAt(l.toks, l.pos, CloseWords)
  {
    var (closed, l1) := Expect(l, CloseWords);
    if !closed then (None, l1) else
    var name := l1.str;
    var (attr, l2) := PeekBoth(l1, [AnyId, PunctIs('('), PunctIs(')')], [IdIs("derive_json")]);
    if attr then (Some(LegacyRecord(name, fields, true)), Skip(l2, 3))
    else (Some(LegacyRecord(name, fields, deriveAll)), l2)
  }

  /** `derive_json ( )` is the attribute pattern whose word is `derive_json`. */
  lemma DeriveJsonPattern(toks: seq<Token>, p: nat)
    ensures MatchesAt(toks, p, DeriveJsonWords) <==>
      MatchesAt(toks, p, [AnyId, PunctIs('('), PunctIs(')')]) && MatchesAt(toks, p, [IdIs("derive_json")])
  {
    var a := [AnyId, PunctIs('('), PunctIs(')')];
    var w := [IdIs("derive_json")];
    if MatchesAt(toks, p, a) && MatchesAt(toks, p, w) {
      forall i | 0 <= i < |DeriveJsonWords|
        ensures Matches(toks[p + i], DeriveJsonWords[i])
      {
        if i == 0 {
          assert Matches(toks[p + i], w[i]);
        } else {
          assert Matches(toks[p + i], a[i]);
        }
      }
    }
    if MatchesAt(toks, p, DeriveJsonWords) {
      forall i | 0 <= i < |a|
        ensures Matches(toks[p + i], a[i])
      {
        assert Matches(toks[p + i], DeriveJsonWords[i]);
      }
      assert Matches(toks[p + 0], DeriveJsonWords[0]);
    }
  }

  /**
   * A record that closes is named by the identifier after `}`, keeps the fields, and has
   * DERIVE_JSON exactly when `--derive-all` is on or `derive_json()` follows the name; the scan
   * goes on after that one attribute.
   */
  lemma CloseRecordValue(fields: seq<LegacyField>, l: Lex, deriveAll: bool)
    requires l.Valid() && MatchesAt(l.toks, l.pos, CloseWords)
    ensures l.pos + 1 < |l.toks| && l.toks[l.pos + 1].Id?
    ensures var json := MatchesAt(l.toks, l.pos + 2, DeriveJsonWords);
      && CloseRecord(fields, l, deriveAll).0 == Some(LegacyRecord(l.toks[l.pos + 1].text, fields, deriveAll || json))
      && CloseRecord(fields, l, deriveAll).1.pos == l.pos + 2 + (if json then 3 else 0)
  {
    hide Expect;
    ExpectLastText(l, CloseWords);
    DeriveJsonPattern(l.toks, l.pos + 2);
  }

  // ----- The outer loop -----

  const TypedefStruct: seq<Word> := [IdIs("typedef"), IdIs("struct")]

  /**
   * The outer loop of analyze_file from `l` on, with the records found so far. A token that
   * does not start `typedef struct` is skipped alone; `typedef struct` without `{` is skipped;
   * the scan ends at the end of the tokens.
   */
  function Scan(l: Lex, deriveAll: bool, out: seq<LegacyRecord>): (r: seq<LegacyRecord>)
    requires l.Valid()
    ensures out <= r
    decreases |l.toks| - l.pos, 1
  {
    var (t, l1) := Next(l);
    if t == Eof then out else
    var (ts, l2) := Expect(l1.(pos := l.pos), TypedefStruct);
    if ts then
      var (brace, l3) := Expect(l2, [PunctIs('{')]);
      if !brace then Scan(l3, deriveAll, out)
      else RecordThenScan(l.pos, l3, deriveAll, out)
    else
      Scan(Next(l2.(pos := l.pos)).1, deriveAll, out)
  }

  /** After `typedef struct {` read from `start` on: the record, kept when it closes, then the rest. */
  function RecordThenScan(start: nat, l: Lex, deriveAll: bool, out: seq<LegacyRecord>): (r: seq<LegacyRecord>)
    requires l.Valid() && start < l.pos
    ensures out <= r
    decreases |l.toks| - start, 0
  {
    var (fields, l1) := FieldsFrom(l, []);
    var (c, l2) := CloseRecord(fields, l1, deriveAll);
    Scan(l2, deriveAll, if c.Some? then out + [c.value] else out)
  }

  /** analyze_file over a whole token stream: the records found, in source order. */
  function Analyze(toks: seq<Token>, deriveAll: bool): seq<LegacyRecord>
  {
    Scan(Lex(toks, 0, ""), deriveAll, [])
  }

  /** At the end of the tokens the scan stops with what it found. */
  lemma ScanAtEnd(l: Lex, deriveAll: bool, out: seq<LegacyRecord>)
    requires l.Valid() && l.pos == |l.toks|
    ensures Scan(l, deriveAll, out) == out
  {
  }

  /** A token that does not start `typedef struct` is read alone and skipped. */
  lemma ScanSkipsOther(l: Lex, deriveAll: bool, out: seq<LegacyRecord>)
    requires l.Valid() && l.pos < |l.toks| && l.toks[l.pos] != Eof
    requires !MatchesAt(l.toks, l.pos, TypedefStruct)
    ensures Scan(l, deriveAll, out) == Scan(Next(l).1, deriveAll, out)
  {
    var t := l.toks[l.pos];
    var l1 := Next(l).1;
    var l2 := Expect(l1.(pos := l.pos), TypedefStruct).1;
    if !(t.Id? || t.DqString?) {
      assert !Matches(l.toks[l.pos + 0], TypedefStruct[0]);
      assert l2.str == l1.str == l.str;
    }
    assert !Expect(l1.(pos := l.pos), TypedefStruct).0;
    assert Scan(l, deriveAll, out) == Scan(Next(l2.(pos := l.pos)).1, deriveAll, out);
    assert Next(l2.(pos := l.pos)).1 == l1;
  }

  /** After `typedef struct {` the record branch runs on the tokens after the brace. */
  lemma ScanRecord(l: Lex, deriveAll: bool, out: seq<LegacyRecord>)
    requires l.Valid() && MatchesAt(l.toks, l.pos, TypedefStruct + [PunctIs('{')])
    ensures Scan(l, deriveAll, out) == RecordThenScan(l.pos, Lex(l.toks, l.pos + 3, "struct"), deriveAll, out)
  {
    hide FieldsFrom, CloseRecord, FieldStep;
    var ws := TypedefStruct + [PunctIs('{')];
    assert Matches(l.toks[l.pos + 0], ws[0]);
    assert Matches(l.toks[l.pos + 1], ws[1]);
    assert Matches(l.toks[l.pos + 2], ws[2]);
    assert MatchesAt(l.toks, l.pos, TypedefStruct);
    assert MatchesAt(l.toks, l.pos + 2, [PunctIs('{')]);
    ExpectLastText(l, TypedefStruct);
  }

  /** Every record the scan keeps has typed fields only. */
  lemma {:induction false} ScanTyped(l: Lex, deriveAll: bool, out: seq<LegacyRecord>)
    requires l.Valid() && forall r <- out, f <- r.fields :: Typed(f)
    ensures forall r <- Scan(l, deriveAll, out), f <- r.fields :: Typed(f)
    decreases |l.toks| - l.pos, 1
  {
    var (t, l1) := Next(l);
    if t != Eof {
      var (ts, l2) := Expect(l1.(pos := l.pos), TypedefStruct);
      if ts {
        var (brace, l3) := Expect(l2, [PunctIs('{')]);
        if !brace {
          ScanTyped(l3, deriveAll, out);
        } else {
          RecordThenScanTyped(l.pos, l3, deriveAll, out);
        }
      } else {
        ScanTyped(Next(l2.(pos := l.pos)).1, deriveAll, out);
      }
    }
  }

  lemma {:induction false} RecordThenScanTyped(start: nat, l: Lex, deriveAll: bool, out: seq<LegacyRecord>)
    requires l.Valid() && start < l.pos && forall r <- out, f <- r.fields :: Typed(f)
    ensures forall r <- RecordThenScan(start, l, deriveAll, out), f <- r.fields :: Typed(f)
    decreases |l.toks| - start, 0
  {
    hide FieldsFrom, FieldStep, Expect;
    var (fields, l1) := FieldsFrom(l, []);
    FieldsFromTyped(l, []);
    var (c, l2) := CloseRecord(fields, l1, deriveAll);
    if c.Some? {
      assert c.value.fields == fields by {
        CloseRecordValue(fields, l1, deriveAll);
      }
    }
    ScanTyped(l2, deriveAll, if c.Some? then out + [c.value] else out);
  }

  /** The records analyze_file finds have typed fields only. */
  lemma AnalyzeTyped(toks: seq<Token>, deriveAll: bool)
    ensures forall r <- Analyze(toks, deriveAll), f <- r.fields :: Typed(f)
  {
    ScanTyped(Lex(toks, 0, ""), deriveAll, []);
  }

  /** With `--derive-all` every record kept carries DERIVE_JSON. */
  lemma {:induction false} ScanDeriveAll(l: Lex, out: seq<LegacyRecord>)
    requires l.Valid() && forall r <- out :: r.json
    ensures forall r <- Scan(l, true, out) :: r.json
    decreases |l.toks| - l.pos, 1
  {
    var (t, l1) := Next(l);
    if t != Eof {
      var (ts, l2) := Expect(l1.(pos := l.pos), TypedefStruct);
      if ts {
        var (brace, l3) := Expect(l2, [PunctIs('{')]);
        if !brace {
          ScanDeriveAll(l3, out);
        } else {
          RecordThenScanDeriveAll(l.pos, l3, out);
        }
      } else {
        ScanDeriveAll(Next(l2.(pos := l.pos)).1, out);
      }
    }
  }

  lemma {:induction false} RecordThenScanDeriveAll(start: nat, l: Lex, out: seq<LegacyRecord>)
    requires l.Valid() && start < l.pos && forall r <- out :: r.json
    ensures forall r <- RecordThenScan(start, l, true, out) :: r.json
    decreases |l.toks| - start, 0
  {
    hide FieldsFrom, FieldStep, Expect;
    var (fields, l1) := FieldsFrom(l, []);
    var (c, l2) := CloseRecord(fields, l1, true);
    if c.Some? {
      assert c.value.json by {
        CloseRecordValue(fields, l1, true);
      }
    }
    ScanDeriveAll(l2, if c.Some? then out + [c.value] else out);
  }

  /** `--derive-all` marks every record analyze_file finds. */
  lemma AnalyzeDeriveAll(toks: seq<Token>)
    ensures forall r <- Analyze(toks, true) :: r.json
  {
    ScanDeriveAll(Lex(toks, 0, ""), []);
  }

  // ----- analyze_file as the source writes it -----

  /** The field loop of analyze_file: read fields until a step stops. */
  method ReadFields(start: Lex) returns (fields: seq<LegacyField>, lex: Lex)
    requires start.Valid()
    ensures (fields, lex) == FieldsFrom(start, [])
  {
    lex := start;
    fields := [];
    while true
      invariant lex.Valid() && lex.toks == start.toks
      invariant FieldsFrom(lex, fields) == FieldsFrom(start, [])
      decreases |lex.toks| - lex.pos
    {
      var step := FieldStep(lex);
      lex := step.1;
      if step.0.Stop? {
        return;
      }
      fields := fields + [step.0.field];
    }
  }

  /**
   * analyze_file of bookkeeper_gen.c: an outer `for (;;)` over the tokens; after
   * `typedef struct {` the field loop, then `}`, the name and the optional `derive_json()`;
   * each complete record appended.
   */
  method AnalyzeFile(toks: seq<Token>, deriveAll: bool) returns (out: seq<LegacyRecord>)
    ensures out == Analyze(toks, deriveAll)
  {
    hide FieldsFrom, CloseRecord, FieldStep;
    var lex := Lex(toks, 0, "");
    out := [];
    while true
      invariant lex.Valid() && lex.toks == toks
      invariant Scan(lex, deriveAll, out) == Analyze(toks, deriveAll)
      decreases |toks| - lex.pos
    {
      var pp := lex.pos;
      var (t, l1) := Next(lex);
      if t == Eof {
        return;
      }
      var ts := Expect(l1.(pos := pp), TypedefStruct);
      lex := ts.1;
      if !ts.0 {
        lex := Next(lex.(pos := pp)).1;
        continue;
      }
      var brace := Expect(lex, [PunctIs('{')]);
      lex := brace.1;
      if !brace.0 {
        continue;
      }
      var fields, afterFields := ReadFields(lex);
      var closed := CloseRecord(fields, afterFields, deriveAll);
      lex := closed.1;
      if closed.0.Some? {
        out := out + [closed.0.value];
      }
    }
  }
}
