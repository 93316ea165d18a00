/** Parsing of the reference-data lines (`getInvestors`, `getVerticals`):
    split each line on ",", skip a line that has one field only, and keep its
    first field with surrounding white space trimmed. Strings are sequences
    of Unicode code points, as Go's `strings` functions see UTF-8 text. */
module ReferenceData {
  import opened Wrappers

  const Separator: char := ','

  /** `unicode.IsSpace`. */
  predicate IsSpace(c: char)
  {
    || c == '\t' || c == '\n' || c == '\U{000B}' || c == '\U{000C}' || c == '\r' || c == ' '
    || c == '\U{0085}' || c == '\U{00A0}' || c == '\U{1680}'
    || ('\U{2000}' <= c <= '\U{200A}')
    || c == '\U{2028}' || c == '\U{2029}' || c == '\U{202F}' || c == '\U{205F}' || c == '\U{3000}'
  }

  predicate AllSpace(s: string)
  {
    forall i :: 0 <= i < |s| ==> IsSpace(s[i])
  }

  /** Neither empty nor starting or ending with white space, or empty. */
  predicate Trimmed(s: string)
  {
    s == [] || (!IsSpace(s[0]) && !IsSpace(s[|s| - 1]))
  }

  function TrimLeft(s: string): (r: string)
    ensures |r| <= |s| && r == s[|s| - |r|..]
    ensures AllSpace(s[..|s| - |r|])
    ensures r == [] || !IsSpace(r[0])
    decreases |s|
  {
    if s != [] && IsSpace(s[0]) then TrimLeft(s[1..]) else s
  }

  function TrimRight(s: string): (r: string)
    ensures |r| <= |s| && r == s[..|r|]
    ensures AllSpace(s[|r|..])
    ensures r == [] || !IsSpace(r[|r| - 1])
    decreases |s|
  {
    if s != [] && IsSpace(s[|s| - 1]) then
      var r := TrimRight(s[..|s| - 1]);
      assert s[|r|..] == s[..|s| - 1][|r|..] + [s[|s| - 1]];
      r
    else s
  }

  /** `strings.TrimSpace`: the text between the leading and the trailing
      white space. */
  function TrimSpace(s: string): (r: string)
    ensures Trimmed(r)
    ensures |r| <= |s|
    ensures r == [] <==> AllSpace(s)
  {
    var l := TrimLeft(s);
    assert l != [] ==> l[0] == s[|s| - |l|];
    var r := TrimRight(l);
    assert r == [] ==> AllSpace(s) by {
      if r == [] {
        assert AllSpace(l);
        assert s == s[..|s| - |l|] + l;
      }
    }
    r
  }

  lemma {:induction false} TrimLeftPadded(pad: string, t: string)
    requires AllSpace(pad) && (t == [] || !IsSpace(t[0]))
    ensures TrimLeft(pad + t) == t
    decreases |pad|
  {
    if pad != [] {
      assert (pad + t)[1..] == pad[1..] + t;
      TrimLeftPadded(pad[1..], t);
    } else {
      assert pad + t == t;
    }
  }

  lemma {:induction false} TrimRightPadded(t: string, pad: string)
    requires AllSpace(pad) && (t == [] || !IsSpace(t[|t| - 1]))
    ensures TrimRight(t + pad) == t
    decreases |pad|
  {
    if pad != [] {
      assert (t + pad)[..|t + pad| - 1] == t + pad[..|pad| - 1];
      TrimRightPadded(t, pad[..|pad| - 1]);
    } else {
      assert t + pad == t;
    }
  }

  /** Surrounding white space is exactly what `TrimSpace` removes: padding
      trimmed text with white space on both sides and trimming gives the
      text back. */
  lemma TrimSpaceOfPadded(left: string, t: string, right: string)
    requires AllSpace(left) && AllSpace(right) && Trimmed(t) && t != []
    ensures TrimSpace(left + t + right) == t
  {
    assert left + t + right == left + (t + right);
    TrimLeftPadded(left, t + right);
    TrimRightPadded(t, right);
  }

  /** The text before the first `sep` of `s`, all of `s` if there is none. */
  function Before(s: string, sep: char): (r: string)
    ensures |r| <= |s| && r == s[..|r|]
    ensures sep !in r
    ensures |r| < |s| ==> s[|r|] == sep
    decreases |s|
  {
    if s == [] || s[0] == sep then [] else [s[0]] + Before(s[1..], sep)
  }

  /** `strings.Split(s, sep)` for a one-character separator. */
  function Split(s: string, sep: char): (parts: seq<string>)
    ensures |parts| >= 1
    ensures parts[0] == Before(s, sep)
    ensures |parts| > 1 <==> sep in s
    decreases |s|
  {
    var head := Before(s, sep);
    if |head| == |s| then [s] else [head] + Split(s[|head| + 1..], sep)
  }

  /** `strings.Join(parts, sep)`. */
  function Join(parts: seq<string>, sep: char): string
    decreases |parts|
  {
    if parts == [] then []
    else if |parts| == 1 then parts[0]
    else parts[0] + [sep] + Join(parts[1..], sep)
  }

  /** Joining the fields of a split line with the separator restores it. */
  lemma {:induction false} JoinSplit(s: string, sep: char)
    ensures Join(Split(s, sep), sep) == s
    decreases |s|
  {
    var head := Before(s, sep);
    var parts := Split(s, sep);
    if |head| < |s| {
      var rest := s[|head| + 1..];
      assert parts == [head] + Split(rest, sep);
      assert parts[1..] == Split(rest, sep);
      JoinSplit(rest, sep);
      assert Join(parts, sep) == head + [sep] + rest;
      assert s == s[..|head|] + [s[|head|]] + rest;
    } else {
      assert parts == [s];
    }
  }

  /** The identifier a line contributes: the trimmed first field when
      splitting it gives more than one field, nothing otherwise. */
  function LineId(line: string): Option<string>
  {
    var fields := Split(line, Separator);
    if |fields| > 1 then Some(TrimSpace(fields[0])) else None
  }

  /** A line contributes exactly when it holds a comma, and what it
      contributes is the trimmed text before the first comma: non-blank
      or empty, with no comma in it. */
  lemma LineIdOf(line: string)
    ensures LineId(line).Some? <==> Separator in line
    ensures LineId(line).Some? ==> LineId(line).value == TrimSpace(Before(line, Separator))
    ensures LineId(line).Some? ==> Separator !in LineId(line).value && Trimmed(LineId(line).value)
  {
    TrimSpaceKeepsOut(Before(line, Separator), Separator);
  }

  /** Trimming only removes characters. */
  lemma TrimSpaceKeepsOut(s: string, c: char)
    requires c !in s
    ensures c !in TrimSpace(s)
  {
    var l := TrimLeft(s);
    var r := TrimRight(l);
    forall i | 0 <= i < |r|
      ensures r[i] != c
    {
      assert r[i] == l[i] == s[|s| - |l| + i];
    }
  }

  /** The present results of `f` over `xs`, in order. */
  function Collect<T, U>(xs: seq<T>, f: T -> Option<U>): seq<U>
    decreases |xs|
  {
    if xs == [] then []
    else
      var init := Collect(xs[..|xs| - 1], f);
      match f(xs[|xs| - 1])
      case Some(y) => init + [y]
      case None => init
  }

  lemma {:induction false} CollectAppend<T, U>(a: seq<T>, b: seq<T>, f: T -> Option<U>)
    ensures Collect(a + b, f) == Collect(a, f) + Collect(b, f)
    decreases |b|
  {
    if b == [] {
      assert a + b == a;
    } else {
      CollectAppend(a, b[..|b| - 1], f);
      assert (a + b)[..|a + b| - 1] == a + b[..|b| - 1];
    }
  }

  /** Some element of `xs` gives `y`. */
  ghost predicate Yields<T, U>(xs: seq<T>, f: T -> Option<U>, y: U)
  {
    exists i :: 0 <= i < |xs| && f(xs[i]) == Some(y)
  }

  lemma {:induction false} CollectMembers<T, U>(xs: seq<T>, f: T -> Option<U>)
    ensures |Collect(xs, f)| <= |xs|
    ensures forall y :: y in Collect(xs, f) <==> Yields(xs, f, y)
    decreases |xs|
  {
    if xs != [] {
      var init := xs[..|xs| - 1];
      CollectMembers(init, f);
      forall y | y in Collect(xs, f)
        ensures Yields(xs, f, y)
      {
        if y in Collect(init, f) {
          assert Yields(init, f, y);
          var i :| 0 <= i < |init| && f(init[i]) == Some(y);
          assert xs[i] == init[i];
        } else {
          assert f(xs[|xs| - 1]) == Some(y);
        }
      }
      forall y | Yields(xs, f, y)
        ensures y in Collect(xs, f)
      {
        var i :| 0 <= i < |xs| && f(xs[i]) == Some(y);
        if i < |init| {
          assert init[i] == xs[i];
        }
      }
    }
  }

  /** The identifiers of `lines`, in order. */
  function IdsOf(lines: seq<string>): seq<string>
  {
    Collect(lines, LineId)
  }

  /** The parse distributes over concatenation, so it keeps the order of
      the lines. */
  lemma IdsOfAppend(a: seq<string>, b: seq<string>)
    ensures IdsOf(a + b) == IdsOf(a) + IdsOf(b)
  {
    CollectAppend(a, b, LineId);
  }

  /** A line without a comma contributes nothing and a line with one
      contributes the trimmed text before its first comma. */
  lemma IdsOfSingle(line: string)
    ensures IdsOf([line]) == if Separator in line then [TrimSpace(Before(line, Separator))] else []
  {
    var one := [line];
    assert one[..|one| - 1] == [] && one[|one| - 1] == line;
    assert Collect(one[..|one| - 1], LineId) == [];
    LineIdOf(line);
  }

  /** No more identifiers than lines; each identifier is the one a line
      contributes, and every contributing line gives one. */
  lemma IdsOfMembers(lines: seq<string>)
    ensures |IdsOf(lines)| <= |lines|
    ensures forall x :: x in IdsOf(lines) <==> Yields(lines, LineId, x)
  {
    CollectMembers(lines, LineId);
  }

  /** The loop shared by `getInvestors` and `getVerticals`: nil for no
      lines, otherwise the identifiers of the lines in order. */
  method ParseLines(lines: seq<string>) returns (ids: Option<seq<string>>)
    ensures |lines| == 0 <==> ids.None?
    ensures ids.Some? ==> ids.value == IdsOf(lines)
  {
    if |lines| <= 0 {
      return None;
    }
    var acc := [];
    var i := 0;
    while i < |lines|
      invariant 0 <= i <= |lines|
      invariant acc == IdsOf(lines[..i])
    {
      assert lines[..i + 1][..i] == lines[..i];
      var fields := Split(lines[i], Separator);
      if |fields| > 1 {
        acc := acc + [TrimSpace(fields[0])];
      }
      i := i + 1;
    }
    assert lines[..i] == lines;
    ids := Some(acc);
  }

  /** `getInvestors(lines)`. */
  method GetInvestors(lines: seq<string>) returns (investors: Option<seq<string>>)
    ensures |lines| == 0 <==> investors.None?
    ensures investors.Some? ==> investors.value == IdsOf(lines)
  {
    investors := ParseLines(lines);
  }

  /** `getVerticals(lines)`. */
  method GetVerticals(lines: seq<string>) returns (verticals: Option<seq<string>>)
    ensures |lines| == 0 <==> verticals.None?
    ensures verticals.Some? ==> verticals.value == IdsOf(lines)
  {
    verticals := ParseLines(lines);
  }
}
