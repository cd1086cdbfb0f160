/**
 * The string-view helpers of bk.c (`sv_*`) and the C library's `atoi`, as functions on
 * `string`. A C string view is a pointer and a length into a buffer; here a view is the
 * sequence of characters it shows, and "a view into the same buffer further on" is a suffix.
 */
module StrView {

  import opened Util

  /** The characters `sv_trim_whitespace*` drop: space, tab and newline. */
  predicate IsWs(c: char)
  {
    c == ' ' || c == '\t' || c == '\n'
  }

  /** `s` ends with `r`: a view obtained from `s` by moving its start forward. */
  predicate IsSuffix(r: string, s: string)
  {
    |r| <= |s| && r == s[|s| - |r|..]
  }

  function Min(a: nat, b: nat): nat
  {
    if a <= b then a else b
  }

  /** Number of occurrences of `c` in `s`. */
  function Count(s: string, c: char): nat
  {
    multiset(s)[c]
  }

  /** sv_starts_with: `s` is at least as long as `prefix` and `strncmp` finds them equal that far. */
  predicate StartsWith(s: string, prefix: string)
  {
    |prefix| <= |s| && s[..|prefix|] == prefix
  }

  /** sv_chop / sv_chop2: drop the first `n` characters, or all of them when fewer. */
  function Chop(s: string, n: nat): (r: string)
    ensures IsSuffix(r, s)
    ensures |s| - |r| == Min(n, |s|)
  {
    if n <= |s| then s[n..] else []
  }

  /** sv_chop_if_prefix: drop `prefix` from the front when `s` starts with it. */
  function ChopIfPrefix(s: string, prefix: string): (r: (bool, string))
    ensures r.0 <==> StartsWith(s, prefix)
    ensures r.0 ==> s == prefix + r.1
    ensures !r.0 ==> r.1 == s
  {
    if StartsWith(s, prefix) then (true, s[|prefix|..]) else (false, s)
  }

  /** The loop of sv_find from index `i` on: the first position at or after `i` holding `c`, or `|s|`. */
  function FindFrom(s: string, c: char, i: nat): (k: nat)
    requires i <= |s|
    ensures i <= k <= |s|
    ensures c !in s[i..k]
    ensures k < |s| ==> s[k] == c
    decreases |s| - i
  {
    if i == |s| || s[i] == c then i else FindFrom(s, c, i + 1)
  }

  /** The search from `i` stops at `k` when `k` holds the first `c` at or after `i` (or is the end). */
  lemma FindFromIs(s: string, c: char, i: nat, k: nat)
    requires i <= k <= |s|
    requires c !in s[i..k]
    requires k < |s| ==> s[k] == c
    ensures FindFrom(s, c, i) == k
  {
  }

  /** Position of the first `c` in `s`, or `|s|` when there is none. */
  function IndexOf(s: string, c: char): (k: nat)
    ensures k <= |s|
    ensures c !in s[..k]
    ensures k < |s| ==> s[k] == c
  {
    FindFrom(s, c, 0)
  }

  /** sv_find: the view from the first `c` on, or the empty view at the end. */
  function Find(s: string, c: char): (r: string)
    ensures IsSuffix(r, s)
    ensures r == [] || r[0] == c
    ensures c !in s[..|s| - |r|]
  {
    s[IndexOf(s, c)..]
  }

  /** sv_substr, within bounds (the source leaves out-of-bounds views undefined). */
  function Substr(s: string, start: nat, len: nat): (r: string)
    requires start + len <= |s|
    ensures |r| == len
    ensures s == s[..start] + r + s[start + len..]
  {
    s[start..start + len]
  }

  /** sv_trim_start: drop leading copies of `c`. */
  function TrimStart(s: string, c: char): (r: string)
    ensures IsSuffix(r, s)
    ensures r == [] || r[0] != c
    ensures forall i :: 0 <= i < |s| - |r| ==> s[i] == c
  {
    if s != [] && s[0] == c then TrimStart(s[1..], c) else s
  }

  /** sv_trim2_start: drop leading characters that occur in `cs`. */
  function Trim2Start(s: string, cs: string): (r: string)
    ensures IsSuffix(r, s)
    ensures r == [] || r[0] !in cs
    ensures forall i :: 0 <= i < |s| - |r| ==> s[i] in cs
  {
    if s != [] && s[0] in cs then Trim2Start(s[1..], cs) else s
  }

  /** Every character of `s` is whitespace. */
  predicate AllWs(s: string)
  {
    forall i :: 0 <= i < |s| ==> IsWs(s[i])
  }

  /** sv_trim_whitespace_start. */
  function TrimWsStart(s: string): (r: string)
    ensures IsSuffix(r, s)
    ensures r == [] || !IsWs(r[0])
    ensures AllWs(s[..|s| - |r|])
  {
    var r := Trim2Start(s, " \t\n");
    assert AllWs(s[..|s| - |r|]) by {
      forall i | 0 <= i < |s| - |r| ensures IsWs(s[i]) {
        assert s[i] in " \t\n";
      }
    }
    r
  }

  /** Trimming a view that starts with a non-blank character changes nothing. */
  lemma TrimWsStartKeeps(s: string)
    requires s == [] || !IsWs(s[0])
    ensures TrimWsStart(s) == s
  {
  }

  /** Trimming a view with exactly one leading blank drops just that blank. */
  lemma TrimWsStartDropsOne(s: string)
    requires |s| >= 2 && IsWs(s[0]) && !IsWs(s[1])
    ensures TrimWsStart(s) == s[1..]
  {
  }

  /**
   * sv_trim_whitespace_end exactly as written: the `for (;;)` loop keeps reading
   * `items[len - 1]` after `len` has reached 0, so an input made only of whitespace makes it
   * read before the start of the buffer. `None` marks that out-of-bounds read.
   */
  function TrimWsEndAsWritten(s: string): (r: Option<string>)
  {
    if |s| == 0 then Some(s) else TrimWsEndLoop(s)
  }

  /** The `for (;;)` loop of sv_trim_whitespace_end with `len == |s|`. */
  function TrimWsEndLoop(s: string): Option<string>
  {
    if |s| == 0 then None
    else if IsWs(s[|s| - 1]) then TrimWsEndLoop(s[..|s| - 1])
    else Some(s)
  }

  /** sv_trim_whitespace_end as evidently intended: stop when the view is empty. */
  function TrimWsEnd(s: string): (r: string)
    ensures |r| <= |s| && r == s[..|r|]
    ensures r == [] || !IsWs(r[|r| - 1])
    ensures AllWs(s[|r|..])
  {
    if s != [] && IsWs(s[|s| - 1]) then
      var r := TrimWsEnd(s[..|s| - 1]);
      assert s[|r|..] == s[..|s| - 1][|r|..] + [s[|s| - 1]];
      r
    else s
  }

  /** An all-whitespace, non-empty view makes the source read out of bounds. */
  lemma TrimWsEndAsWrittenReadsBeforeStart()
    ensures TrimWsEndAsWritten(" ") == None
    ensures TrimWsEnd(" ") == []
  {
    assert " "[..0] == [];
  }

  /** Wherever the source's loop stays in bounds it agrees with the corrected function. */
  lemma {:induction false} TrimWsEndAgrees(s: string)
    requires s == [] || exists i :: 0 <= i < |s| && !IsWs(s[i])
    ensures TrimWsEndAsWritten(s) == Some(TrimWsEnd(s))
  {
    if s != [] {
      TrimWsEndLoopAgrees(s);
    }
  }

  lemma {:induction false} TrimWsEndLoopAgrees(s: string)
    requires exists i :: 0 <= i < |s| && !IsWs(s[i])
    ensures TrimWsEndLoop(s) == Some(TrimWsEnd(s))
  {
    var i :| 0 <= i < |s| && !IsWs(s[i]);
    if IsWs(s[|s| - 1]) {
      assert i < |s| - 1 && s[..|s| - 1][i] == s[i];
      TrimWsEndLoopAgrees(s[..|s| - 1]);
    }
  }

  /** sv_trim_whitespace: trim both ends. */
  function TrimWs(s: string): (r: string)
    ensures r == [] || (!IsWs(r[0]) && !IsWs(r[|r| - 1]))
  {
    var t := TrimWsStart(s);
    var r := TrimWsEnd(t);
    assert r != [] ==> r[0] == t[0];
    r
  }

  /** sv_trim_whitespace drops nothing but whitespace, on either side of what it keeps. */
  lemma TrimWsDropsOnlyWs(s: string)
    ensures exists lead, trail :: s == lead + TrimWs(s) + trail && AllWs(lead) && AllWs(trail)
  {
    var t := TrimWsStart(s);
    var r := TrimWsEnd(t);
    hide TrimWsStart, TrimWsEnd, Trim2Start;
    var lead, trail := s[..|s| - |t|], t[|r|..];
    assert TrimWs(s) == r;
    assert AllWs(lead) && AllWs(trail);
    assert s == lead + t by {
      assert t == s[|s| - |t|..];
    }
    assert t == r + trail by {
      assert r == t[..|r|];
    }
    assert s == lead + r + trail;
  }

  /**
   * sv_trim_whitespace never reaches the out-of-bounds read of sv_trim_whitespace_end: after
   * the start is trimmed, the view is empty or begins with a non-whitespace character.
   */
  lemma TrimWsInBounds(s: string)
    ensures TrimWsEndAsWritten(TrimWsStart(s)) == Some(TrimWs(s))
  {
    var t := TrimWsStart(s);
    if t != [] {
      assert !IsWs(t[0]);
      TrimWsEndAgrees(t);
    }
  }

  /**
   * sv_chop_line: `n` rounds of "find the next newline, then chop one character". The
   * recursion follows the loop: the view after round `n` is one round applied to the view
   * after round `n - 1`. A view left non-empty by at least one round starts right after a
   * newline.
   */
  function ChopLine(s: string, n: nat): (r: string)
    ensures IsSuffix(r, s)
    ensures n > 0 && r != [] ==> |r| < |s| && s[|s| - |r| - 1] == '\n'
  {
    if n == 0 then s
    else
      var t := ChopLine(s, n - 1);
      ChopLineRound(s, t);
      Chop(Find(t, '\n'), 1)
  }

  /** A round on a suffix of `s` leaves a suffix of `s` that, when non-empty, follows a newline. */
  lemma ChopLineRound(s: string, t: string)
    requires IsSuffix(t, s)
    ensures var r := Chop(Find(t, '\n'), 1);
      IsSuffix(r, s) && (r != [] ==> |r| < |s| && s[|s| - |r| - 1] == '\n')
  {
    hide IndexOf, Find, Chop;
    var f := Find(t, '\n');
    var r := Chop(f, 1);
    SuffixTrans(f, t, s);
    SuffixTrans(r, f, s);
    if r != [] {
      assert f[0] == '\n';
      assert s[|s| - |f|] == f[0];
    }
  }

  lemma SuffixTrans(a: string, b: string, c: string)
    requires IsSuffix(a, b) && IsSuffix(b, c)
    ensures IsSuffix(a, c)
  {
    assert c[|c| - |b|..][|b| - |a|..] == c[|c| - |a|..];
  }

  /** One round drops exactly the first line, newline included, or everything when there is no newline. */
  lemma ChopLineOne(s: string)
    ensures ChopLine(s, 1) == if '\n' in s then s[IndexOf(s, '\n') + 1..] else []
  {
    assert ChopLine(s, 0) == s;
  }

  /** Without a newline, any positive number of rounds leaves the empty view. */
  lemma {:induction false} ChopLineNoNewline(s: string, n: nat)
    requires '\n' !in s && n > 0
    ensures ChopLine(s, n) == []
  {
    var t := ChopLine(s, n - 1);
    if n > 1 {
      ChopLineNoNewline(s, n - 1);
    } else {
      assert t == s;
    }
    assert '\n' !in t;
  }

  /** Characters after the last newline of `s` (all of them when there is none). */
  function AfterLastNewline(s: string): nat
  {
    if s == [] then 0 else if s[|s| - 1] == '\n' then 0 else AfterLastNewline(s[..|s| - 1]) + 1
  }

  /**
   * sv_loc: the 1-based line and column of the position `|file| - |cursor|` in `file`, counting
   * the characters before it the way the source's loop does.
   */
  function Loc(file: string, cursor: string): (r: (int, int))
    requires |cursor| <= |file|
    ensures r.0 == 1 + Count(file[..|file| - |cursor|], '\n')
    ensures r.1 == 1 + AfterLastNewline(file[..|file| - |cursor|])
  {
    var prefix := file[..|file| - |cursor|];
    LocLoopCounts(prefix, 0, 1, 1);
    LocLoop(prefix, 0, 1, 1)
  }

  /** The source's loop from index `i` on, with the line and offset reached so far. */
  function LocLoop(p: string, i: nat, line: int, offset: int): (int, int)
    requires i <= |p|
    decreases |p| - i
  {
    if i == |p| then (line, offset)
    else if p[i] == '\n' then LocLoop(p, i + 1, line + 1, 1)
    else LocLoop(p, i + 1, line, offset + 1)
  }

  lemma {:induction false} LocLoopCounts(p: string, i: nat, line: int, offset: int)
    requires i <= |p|
    requires line == 1 + Count(p[..i], '\n') && offset == 1 + AfterLastNewline(p[..i])
    ensures LocLoop(p, i, line, offset) == (1 + Count(p, '\n'), 1 + AfterLastNewline(p))
    decreases |p| - i
  {
    if i == |p| {
      assert p[..i] == p;
    } else {
      assert p[..i + 1] == p[..i] + [p[i]];
      if p[i] == '\n' {
        LocLoopCounts(p, i + 1, line + 1, 1);
      } else {
        LocLoopCounts(p, i + 1, line, offset + 1);
      }
    }
  }

  /** Whitespace as C's `isspace` sees it, which `atoi` skips. */
  predicate IsCSpace(c: char)
  {
    c == ' ' || c == '\t' || c == '\n' || c == '\r' || c as int == 11 || c as int == 12
  }

  predicate IsDigit(c: char)
  {
    '0' <= c <= '9'
  }

  /** The leading run of decimal digits of `s`. */
  function DigitPrefix(s: string): (r: string)
    ensures |r| <= |s| && r == s[..|r|]
    ensures forall i :: 0 <= i < |r| ==> IsDigit(r[i])
    ensures |r| == |s| || !IsDigit(s[|r|])
  {
    if s != [] && IsDigit(s[0]) then [s[0]] + DigitPrefix(s[1..]) else []
  }

  /** The value of a string of decimal digits, most significant first. */
  function DigitsValue(d: string): nat
  {
    if d == [] then 0
    else DigitsValue(d[..|d| - 1]) * 10 + (if IsDigit(d[|d| - 1]) then (d[|d| - 1] as int - '0' as int) else 0)
  }

  /** Drop leading `isspace` characters. */
  function TrimCSpace(s: string): (r: string)
    ensures IsSuffix(r, s)
    ensures r == [] || !IsCSpace(r[0])
  {
    if s != [] && IsCSpace(s[0]) then TrimCSpace(s[1..]) else s
  }

  /** C's `atoi`: skip `isspace`, an optional sign, then the leading digits (0 when none). */
  function Atoi(s: string): int
  {
    var t := TrimCSpace(s);
    if t != [] && t[0] == '-' then -(DigitsValue(DigitPrefix(t[1..])) as int)
    else if t != [] && t[0] == '+' then DigitsValue(DigitPrefix(t[1..]))
    else DigitsValue(DigitPrefix(t))
  }

  /** Decimal spelling of `n`, as `%d` prints it. */
  function NatToDecimal(n: nat): (r: string)
    ensures r != [] && forall i :: 0 <= i < |r| ==> IsDigit(r[i])
  {
    var d := ['0' + (n % 10) as char];
    if n < 10 then d else NatToDecimal(n / 10) + d
  }

  /** `atoi` reads back what `%d` writes for every non-negative number. */
  lemma {:induction false} AtoiDecimal(n: nat)
    ensures Atoi(NatToDecimal(n)) == n
  {
    var s := NatToDecimal(n);
    assert TrimCSpace(s) == s by {
      assert IsDigit(s[0]);
    }
    assert DigitPrefix(s) == s;
    DecimalValue(n);
  }

  lemma {:induction false} DecimalValue(n: nat)
    ensures DigitsValue(NatToDecimal(n)) == n
  {
    var d := ['0' + (n % 10) as char];
    if n >= 10 {
      var s := NatToDecimal(n / 10) + d;
      assert s[..|s| - 1] == NatToDecimal(n / 10);
      DecimalValue(n / 10);
    }
  }
}
