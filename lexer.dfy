/**
 * The token-level view of the C lexer bk.c drives, and the lookahead helpers built on it
 * (`get_expect_*`, `peek_*`). The lexer itself is a foreign library; here it is a sequence of
 * tokens with a cursor. Its `string` field, the text of the last identifier or string literal
 * read, is kept as well: the helpers that "peek" restore only the cursor, never that text.
 */
module Lexer {

  /** A token: an identifier, a one-character punctuator, a string literal, anything else, or end. */
  datatype Token = Id(text: string) | Punct(c: char) | DqString(text: string) | Other | Eof

  /** The lexer state: the tokens, the cursor (`parse_point`) and `lex.string`. */
  datatype Lex = Lex(toks: seq<Token>, pos: nat, str: string)
  {
    predicate Valid()
    {
      pos <= |toks|
    }
  }

  /** `lex.string` after reading `t`: identifiers and string literals set it, other tokens leave it. */
  function StrAfter(str: string, t: Token): string
  {
    match t
    case Id(s) => s
    case DqString(s) => s
    case _ => str
  }

  /** stb_c_lexer_get_token: read the token under the cursor; at the end, read `Eof` and stay. */
  function Next(lex: Lex): (r: (Token, Lex))
    requires lex.Valid()
    ensures r.1.Valid() && r.1.toks == lex.toks
    ensures lex.pos < |lex.toks| ==> r.0 == lex.toks[lex.pos] && r.1.pos == lex.pos + 1
    ensures lex.pos == |lex.toks| ==> r.0 == Eof && r.1.pos == lex.pos
    ensures r.1.str == StrAfter(lex.str, r.0)
  {
    if lex.pos < |lex.toks| then
      var t := lex.toks[lex.pos];
      (t, Lex(lex.toks, lex.pos + 1, StrAfter(lex.str, t)))
    else (Eof, lex)
  }

  /** Reading `n` tokens and dropping them, as a run of `stb_c_lexer_get_token` calls does. */
  function Skip(lex: Lex, n: nat): (r: Lex)
    requires lex.Valid()
    ensures r.Valid() && r.toks == lex.toks
    ensures lex.pos + n <= |lex.toks| ==> r.pos == lex.pos + n
    decreases n
  {
    if n == 0 then lex else Skip(Next(lex).1, n - 1)
  }

  /** One expected word: a given identifier (`ID`), any identifier, a punctuator, a string literal. */
  datatype Word = IdIs(name: string) | AnyId | PunctIs(c: char) | AnyDqString

  predicate Matches(t: Token, w: Word)
  {
    match w
    case IdIs(n) => t == Id(n)
    case AnyId => t.Id?
    case PunctIs(c) => t == Punct(c)
    case AnyDqString => t.DqString?
  }

  /** The tokens from `pos` on match `ws` word for word. */
  predicate MatchesAt(toks: seq<Token>, pos: nat, ws: seq<Word>)
  {
    pos + |ws| <= |toks| && forall i :: 0 <= i < |ws| ==> Matches(toks[pos + i], ws[i])
  }

  /**
   * va_get_expect_* / get_expect_*: read one token per expected word and give up at the first
   * mismatch. The tokens read stay read, including the one that did not match.
   */
  function Expect(lex: Lex, ws: seq<Word>): (r: (bool, Lex))
    requires lex.Valid()
    ensures r.1.Valid() && r.1.toks == lex.toks
    ensures lex.pos <= r.1.pos <= lex.pos + |ws|
    ensures r.0 <==> MatchesAt(lex.toks, lex.pos, ws)
    ensures r.0 ==> r.1.pos == lex.pos + |ws|
    decreases |ws|
  {
    if ws == [] then (true, lex)
    else
      var (t, l1) := Next(lex);
      if !Matches(t, ws[0]) then
        assert !MatchesAt(lex.toks, lex.pos, ws) by {
          assert lex.pos < |lex.toks| ==> !Matches(lex.toks[lex.pos + 0], ws[0]);
        }
        (false, l1)
      else
        var r := Expect(l1, ws[1..]);
        assert MatchesAt(lex.toks, lex.pos, ws) <==> MatchesAt(lex.toks, lex.pos + 1, ws[1..]) by {
          if MatchesAt(lex.toks, lex.pos + 1, ws[1..]) {
            forall i | 0 <= i < |ws|
              ensures Matches(lex.toks[lex.pos + i], ws[i])
            {
              if i > 0 {
                assert Matches(lex.toks[lex.pos + 1 + (i - 1)], ws[1..][i - 1]);
              }
            }
          }
        }
        r
  }

  /** peek_*: run the matcher, then put the cursor back. `lex.string` keeps what was read. */
  function Peek(lex: Lex, ws: seq<Word>): (r: (bool, Lex))
    requires lex.Valid()
    ensures r.1.Valid() && r.1.toks == lex.toks && r.1.pos == lex.pos
    ensures r.0 <==> MatchesAt(lex.toks, lex.pos, ws)
  {
    var (ok, l1) := Expect(lex, ws);
    (ok, l1.(pos := lex.pos))
  }

  /** peek_ids with one identifier: whether the token under the cursor is that identifier. */
  function PeekId(lex: Lex, name: string): (r: (bool, Lex))
    requires lex.Valid()
    ensures r.1.Valid() && r.1.toks == lex.toks && r.1.pos == lex.pos
    ensures r.0 <==> lex.pos < |lex.toks| && lex.toks[lex.pos] == Id(name)
    ensures r == Peek(lex, [IdIs(name)])
  {
    var ws := [IdIs(name)];
    assert ws[1..] == [];
    assert MatchesAt(lex.toks, lex.pos, ws) <==> lex.pos < |lex.toks| && lex.toks[lex.pos] == Id(name) by {
      if MatchesAt(lex.toks, lex.pos, ws) {
        assert Matches(lex.toks[lex.pos + 0], ws[0]);
      }
      if lex.pos < |lex.toks| && lex.toks[lex.pos] == Id(name) {
        forall i | 0 <= i < |ws|
          ensures Matches(lex.toks[lex.pos + i], ws[i])
        {
          assert i == 0;
        }
      }
    }
    Peek(lex, ws)
  }

  /** After a successful `Expect` that ends with an identifier or a string, `lex.string` is its text. */
  lemma {:induction false} ExpectLastText(lex: Lex, ws: seq<Word>)
    requires lex.Valid() && ws != [] && !ws[|ws| - 1].PunctIs?
    requires MatchesAt(lex.toks, lex.pos, ws)
    ensures lex.toks[lex.pos + |ws| - 1].Id? || lex.toks[lex.pos + |ws| - 1].DqString?
    ensures Expect(lex, ws).1.str == lex.toks[lex.pos + |ws| - 1].text
    decreases |ws|
  {
    assert Matches(lex.toks[lex.pos + (|ws| - 1)], ws[|ws| - 1]);
    var l1 := Next(lex).1;
    if |ws| > 1 {
      assert MatchesAt(lex.toks, lex.pos + 1, ws[1..]) by {
        forall i | 0 <= i < |ws[1..]|
          ensures Matches(lex.toks[lex.pos + 1 + i], ws[1..][i])
        {
          assert Matches(lex.toks[lex.pos + (i + 1)], ws[i + 1]);
        }
      }
      assert Matches(lex.toks[lex.pos + 0], ws[0]);
      ExpectLastText(l1, ws[1..]);
    } else {
      assert Matches(lex.toks[lex.pos + 0], ws[0]);
      assert ws[1..] == [];
    }
  }
}
