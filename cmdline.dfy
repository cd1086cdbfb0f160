/**
 * bk.c's `parse_list`: take the next entry off a comma-separated command-line list. The C
 * function advances the caller's cursor `*src`; here the cursor is the text still to be read,
 * and the method returns the entry it found together with the text left after it.
 */
module CmdLine {

  import opened Util

  /**
   * One call of `parse_list(&src, sep, &len)`. No entry when the text is empty or starts with
   * `sep`; otherwise the entry runs up to the first ',' (which is consumed) or to the end.
   * The loop compares with ',' whatever `sep` is, as the source does.
   */
  method ParseList(src: string, sep: char) returns (entry: Option<string>, rest: string)
    ensures entry.None? <==> src == [] || src[0] == sep
    ensures entry.None? ==> rest == src
    ensures entry.Some? ==> ',' !in entry.value
    ensures entry.Some? ==> src == entry.value + [','] + rest || (src == entry.value && rest == [])
  {
    if src == [] || src[0] == sep {
      return None, src;
    }
    var p := 0;
    while p < |src|
      invariant 0 <= p <= |src|
      invariant ',' !in src[..p]
    {
      if src[p] == ',' {
        assert src == src[..p] + [','] + src[p + 1..];
        return Some(src[..p]), src[p + 1..];
      }
      p := p + 1;
    }
    assert src[..p] == src;
    return Some(src), [];
  }

  /** The entries the caller's loop `for (ent; (ent = parse_list(&cursor, ',', &len));)` visits. */
  function Entries(src: string): seq<string>
    decreases |src|
  {
    if src == [] || src[0] == ',' then []
    else
      var k := FindComma(src, 0);
      if k < |src| then [src[..k]] + Entries(src[k + 1..]) else [src]
  }

  function FindComma(s: string, i: nat): (k: nat)
    requires i <= |s|
    ensures i <= k <= |s|
    ensures ',' !in s[i..k]
    ensures k < |s| ==> s[k] == ','
    decreases |s| - i
  {
    if i == |s| || s[i] == ',' then i
    else
      assert s[i..i + 1] == [s[i]];
      var k := FindComma(s, i + 1);
      assert s[i..k] == [s[i]] + s[i + 1..k];
      k
  }

  /** Entries joined with ',' between them: the form the option's value is written in. */
  function Join(es: seq<string>): string
  {
    if es == [] then []
    else if |es| == 1 then es[0]
    else es[0] + [','] + Join(es[1..])
  }

  /** An entry can be listed: it is non-empty and holds no ','. */
  predicate Listable(e: string)
  {
    e != [] && ',' !in e
  }

  /** Splitting a joined list of listable entries gives the entries back. */
  lemma {:induction false} EntriesOfJoin(es: seq<string>)
    requires forall i :: 0 <= i < |es| ==> Listable(es[i])
    ensures Entries(Join(es)) == es
    decreases |es|
  {
    if es == [] {
    } else if |es| == 1 {
      var s := es[0];
      assert s[0] != ',' by { assert s[0] in s; }
      FindCommaAbsent(s);
    } else {
      var s := Join(es);
      var tail := Join(es[1..]);
      assert s == es[0] + [','] + tail;
      assert s[0] != ',' by { assert s[0] == es[0][0]; assert es[0][0] in es[0]; }
      FindCommaAt(es[0], tail);
      assert s[..|es[0]|] == es[0];
      assert s[|es[0]| + 1..] == tail;
      EntriesOfJoin(es[1..]);
    }
  }

  lemma FindCommaAbsent(s: string)
    requires ',' !in s
    ensures FindComma(s, 0) == |s|
  {
  }

  lemma FindCommaAt(e: string, tail: string)
    requires ',' !in e
    ensures FindComma(e + [','] + tail, 0) == |e|
  {
    var s := e + [','] + tail;
    assert s[..|e|] == e;
    FindCommaIs(s, |e|);
  }

  /** `FindComma` from 0 is the one position with no ',' before it and a ',' (or the end) at it. */
  lemma FindCommaIs(s: string, k: nat)
    requires k <= |s| && ',' !in s[..k] && (k < |s| ==> s[k] == ',')
    ensures FindComma(s, 0) == k
  {
  }

  /** The caller's loop sees exactly the entries the list names: repeated calls agree with `Entries`. */
  method ParseAll(src: string) returns (es: seq<string>)
    ensures es == Entries(src)
  {
    es := [];
    var cursor := src;
    while true
      invariant es + Entries(cursor) == Entries(src)
      decreases |cursor|
    {
      var entry, rest := ParseList(cursor, ',');
      if entry.None? {
        return;
      }
      if rest == [] && cursor == entry.value {
        FindCommaIs(cursor, |cursor|);
        assert Entries(cursor) == [entry.value];
      } else {
        FindCommaIs(cursor, |entry.value|);
        assert cursor[..|entry.value|] == entry.value;
        assert cursor[|entry.value| + 1..] == rest;
      }
      assert Entries(cursor) == [entry.value] + Entries(rest);
      es := es + [entry.value];
      cursor := rest;
    }
  }
}
