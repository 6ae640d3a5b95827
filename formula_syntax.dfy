/**
 * The text side of the dice-formula roller in script.js: the two rewrites of
 * the formula (lines 2-3), the split into pieces on `+` (lines 4-5) and the
 * term pattern each piece must match (line 9), all written character by
 * character instead of through a regular-expression engine.
 */
module FormulaSyntax {
  import opened Wrappers
  import opened Decimal

  // ---------------------------------------------------------------------------
  // Rewriting (script.js:2-3)
  // ---------------------------------------------------------------------------

  predicate AllSpaces(s: string) {
    forall i :: 0 <= i < |s| ==> s[i] == ' '
  }

  /** The number of spaces `s` starts with. */
  function LeadingSpaceCount(s: string): (k: nat)
    ensures k <= |s| && AllSpaces(s[..k])
    ensures k < |s| ==> s[k] != ' '
  {
    if s != [] && s[0] == ' ' then 1 + LeadingSpaceCount(s[1..]) else 0
  }

  /** `s` without its leading spaces. */
  function DropSpaces(s: string): (r: string)
    ensures |r| <= |s| && r == s[|s| - |r|..]
    ensures AllSpaces(s[..|s| - |r|])
    ensures r == [] || r[0] != ' '
  {
    s[LeadingSpaceCount(s)..]
  }

  // `s.replace(/- */, '+ -')`: the first `-` and the spaces after it become
  // `+ -`; every later `-` is left alone.
  function ReplaceFirstMinus(s: string): string {
    if s == [] then []
    else if s[0] == '-' then "+ -" + DropSpaces(s[1..])
    else [s[0]] + ReplaceFirstMinus(s[1..])
  }

  /** `s.replace(/D/, 'd')`: only the first `D` is lowered. */
  function ReplaceFirstD(s: string): (r: string)
    ensures |r| == |s|
  {
    if s == [] then []
    else if s[0] == 'D' then "d" + s[1..]
    else [s[0]] + ReplaceFirstD(s[1..])
  }

  /** The formula after both rewrites of script.js:2-3. */
  function Normalize(dice: string): string {
    ReplaceFirstD(ReplaceFirstMinus(dice))
  }

  /**
   * The first `-` of a formula, with the spaces after it, becomes `+ -`; the part
   * before it and everything after the spaces (later `-` included) are kept.
   */
  lemma {:induction false} ReplaceFirstMinusAt(before: string, gap: string, after: string)
    requires '-' !in before
    requires AllSpaces(gap)
    requires after == [] || after[0] != ' '
    ensures ReplaceFirstMinus(before + "-" + gap + after) == before + "+ -" + after
  {
    if before == [] {
      assert before + "-" + gap + after == "-" + (gap + after);
      ReplaceMinusHere(gap + after);
      DropSpacesOf(gap, after);
    } else {
      var tail := before[1..] + "-" + gap + after;
      assert before + "-" + gap + after == [before[0]] + tail;
      assert before == [before[0]] + before[1..];
      ReplaceMinusCons(before[0], tail);
      ReplaceFirstMinusAt(before[1..], gap, after);
      assert [before[0]] + (before[1..] + "+ -" + after) == before + "+ -" + after;
    }
  }

  lemma ReplaceMinusHere(rest: string)
    ensures ReplaceFirstMinus("-" + rest) == "+ -" + DropSpaces(rest)
  {
    assert ("-" + rest)[1..] == rest;
  }

  lemma ReplaceMinusCons(c: char, rest: string)
    requires c != '-'
    ensures ReplaceFirstMinus([c] + rest) == [c] + ReplaceFirstMinus(rest)
  {
    assert ([c] + rest)[1..] == rest;
  }

  /** The first `D` becomes `d`; everything else is kept, later `D`s included. */
  lemma {:induction false} ReplaceFirstDAt(before: string, after: string)
    requires 'D' !in before
    ensures ReplaceFirstD(before + "D" + after) == before + "d" + after
  {
    var s := before + "D" + after;
    if before == [] {
      assert s[1..] == after;
    } else {
      assert s[0] == before[0];
      assert s[1..] == before[1..] + "D" + after;
      ReplaceFirstDAt(before[1..], after);
    }
  }

  /**
   * Both rewrites together on a formula without `D` whose first `-` is
   * followed by the spaces `gap`: the `-` and its spaces become `+ -`.
   */
  lemma NormalizeMinusAt(before: string, gap: string, after: string)
    requires '-' !in before && 'D' !in before && 'D' !in after
    requires AllSpaces(gap)
    requires after == [] || after[0] != ' '
    ensures Normalize(before + "-" + gap + after) == before + "+ -" + after
  {
    ReplaceFirstMinusAt(before, gap, after);
    assert 'D' !in before + "+ -" + after;
    ReplaceDAbsent(before + "+ -" + after);
  }

  /** Both rewrites together on a formula with no `-`: only its first `D` changes. */
  lemma NormalizeDAt(before: string, after: string)
    requires '-' !in before && '-' !in after && 'D' !in before
    ensures Normalize(before + "D" + after) == before + "d" + after
  {
    assert '-' !in before + "D" + after;
    ReplaceMinusAbsent(before + "D" + after);
    ReplaceFirstDAt(before, after);
  }

  /** A formula with neither `-` nor `D` is left as it is by both rewrites. */
  lemma NormalizePlain(s: string)
    requires '-' !in s && 'D' !in s
    ensures Normalize(s) == s
  {
    ReplaceMinusAbsent(s);
    ReplaceDAbsent(s);
  }

  /**
   * Lowering the first `D` after the first rewrite gives the first rewrite of
   * the lower-case spelling: the rewrite of the first `-` moves that `D` but
   * keeps it, and puts no `D` before it.
   */
  lemma {:induction false} NormalizeFirstD(before: string, after: string)
    requires 'D' !in before
    ensures Normalize(before + "D" + after) == ReplaceFirstMinus(before + "d" + after)
  {
    if before == [] {
      NormalizeFirstDHere(after);
    } else if before[0] == '-' {
      assert before == [before[0]] + before[1..];
      NormalizeFirstDMinus(before[1..], after);
    } else {
      assert before == [before[0]] + before[1..];
      NormalizeFirstD(before[1..], after);
      NormalizeFirstDCons(before[0], before[1..], after);
    }
  }

  lemma NormalizeFirstDHere(after: string)
    ensures Normalize("D" + after) == ReplaceFirstMinus("d" + after)
  {
    assert ("D" + after)[1..] == after && ("d" + after)[1..] == after;
    ReplaceFirstDAt([], ReplaceFirstMinus(after));
  }

  lemma NormalizeFirstDMinus(rest: string, after: string)
    requires 'D' !in rest
    ensures Normalize("-" + rest + "D" + after) == ReplaceFirstMinus("-" + rest + "d" + after)
  {
    assert ("-" + rest + "D" + after)[1..] == rest + "D" + after;
    assert ("-" + rest + "d" + after)[1..] == rest + "d" + after;
    DropSpacesLetter(rest, 'D', after);
    DropSpacesLetter(rest, 'd', after);
    var r := DropSpaces(rest);
    DropSpacesKeeps(rest, 'D');
    assert 'D' !in "+ -" + r;
    ReplaceFirstDAt("+ -" + r, after);
    assert "+ -" + (r + "D" + after) == "+ -" + r + "D" + after;
    assert "+ -" + (r + "d" + after) == "+ -" + r + "d" + after;
  }

  lemma NormalizeFirstDCons(c: char, rest: string, after: string)
    requires c != '-' && c != 'D'
    requires Normalize(rest + "D" + after) == ReplaceFirstMinus(rest + "d" + after)
    ensures Normalize([c] + rest + "D" + after) == ReplaceFirstMinus([c] + rest + "d" + after)
  {
    assert ([c] + rest + "D" + after)[1..] == rest + "D" + after;
    assert ([c] + rest + "d" + after)[1..] == rest + "d" + after;
  }

  /** Dropping leading spaces stops at a character that is not a space. */
  lemma DropSpacesLetter(x: string, c: char, y: string)
    requires c != ' '
    ensures DropSpaces(x + [c] + y) == DropSpaces(x) + [c] + y
  {
    var r := DropSpaces(x);
    var gap := x[..|x| - |r|];
    assert x == gap + r;
    assert x + [c] + y == gap + (r + [c] + y);
    DropSpacesOf(gap, r + [c] + y);
  }

  /** Dropping leading spaces adds no character. */
  lemma DropSpacesKeeps(s: string, c: char)
    requires c !in s
    ensures c !in DropSpaces(s)
  {
    var r := DropSpaces(s);
    assert forall i :: 0 <= i < |r| ==> r[i] == s[|s| - |r| + i];
  }

  /** The first rewrite adds no `D`. */
  lemma {:induction false} ReplaceMinusKeepsD(s: string)
    requires 'D' !in s
    ensures 'D' !in ReplaceFirstMinus(s)
  {
    if s != [] {
      assert s[0] != 'D' && 'D' !in s[1..];
      if s[0] == '-' {
        DropSpacesKeeps(s[1..], 'D');
      } else {
        ReplaceMinusKeepsD(s[1..]);
      }
    }
  }

  /** With no `-`, the first rewrite changes nothing. */
  lemma {:induction false} ReplaceMinusAbsent(s: string)
    requires '-' !in s
    ensures ReplaceFirstMinus(s) == s
  {
    if s != [] {
      assert s == [s[0]] + s[1..];
      ReplaceMinusCons(s[0], s[1..]);
      ReplaceMinusAbsent(s[1..]);
    }
  }

  /** With no `D`, the second rewrite changes nothing. */
  lemma {:induction false} ReplaceDAbsent(s: string)
    requires 'D' !in s
    ensures ReplaceFirstD(s) == s
  {
    if s != [] {
      assert s[0] != 'D';
      ReplaceDAbsent(s[1..]);
      assert [s[0]] + s[1..] == s;
    }
  }

  lemma DropSpacesOf(gap: string, after: string)
    requires AllSpaces(gap)
    requires after == [] || after[0] != ' '
    ensures DropSpaces(gap + after) == after
  {
    LeadingSpaceCountOf(gap, after);
    assert (gap + after)[|gap|..] == after;
  }

  lemma {:induction false} LeadingSpaceCountOf(gap: string, after: string)
    requires AllSpaces(gap)
    requires after == [] || after[0] != ' '
    ensures LeadingSpaceCount(gap + after) == |gap|
  {
    if gap == [] {
      assert gap + after == after;
    } else {
      assert (gap + after)[0] == ' ';
      assert (gap + after)[1..] == gap[1..] + after;
      LeadingSpaceCountOf(gap[1..], after);
    }
  }

  // ---------------------------------------------------------------------------
  // Splitting on `+` and the spaces around it (script.js:4-5)
  // ---------------------------------------------------------------------------

  /** The index of the first `c` in `s`, or `|s|` when there is none. */
  function IndexOf(s: string, c: char): (k: nat)
    ensures k <= |s| && c !in s[..k]
    ensures k < |s| ==> s[k] == c
  {
    if s == [] || s[0] == c then 0 else 1 + IndexOf(s[1..], c)
  }

  /** The number of spaces `s` ends with. */
  function TrailingSpaceCount(s: string): (k: nat)
    ensures k <= |s| && AllSpaces(s[|s| - k..])
    ensures k < |s| ==> s[|s| - k - 1] != ' '
  {
    if s != [] && s[|s| - 1] == ' ' then 1 + TrailingSpaceCount(s[..|s| - 1]) else 0
  }

  /** `s` without its trailing spaces. */
  function TrimTrailingSpaces(s: string): (r: string)
    ensures |r| <= |s| && r == s[..|r|]
    ensures AllSpaces(s[|r|..])
    ensures r == [] || r[|r| - 1] != ' '
  {
    s[..|s| - TrailingSpaceCount(s)]
  }

  // `s.split(/ *\+ */)`: every `+` together with the spaces on both sides of it
  // separates two pieces. A separator match starts at the first space of the
  // run before the `+` and swallows all spaces after it. Tabs are not spaces here.
  function Split(s: string): (items: seq<string>)
    ensures |items| > 0
    ensures forall i :: 0 <= i < |items| ==> '+' !in items[i]
    decreases |s|
  {
    var k := IndexOf(s, '+');
    if k == |s| then [s]
    else
      var piece := TrimTrailingSpaces(s[..k]);
      assert forall c :: c in piece ==> c in s[..k];
      [piece] + Split(DropSpaces(s[k + 1..]))
  }

  function Count(s: string, c: char): nat {
    if s == [] then 0 else (if s[0] == c then 1 else 0) + Count(s[1..], c)
  }

  lemma {:induction false} CountAppend(a: string, b: string, c: char)
    ensures Count(a + b, c) == Count(a, c) + Count(b, c)
  {
    if a == [] {
      assert a + b == b;
    } else {
      assert (a + b)[1..] == a[1..] + b;
      CountAppend(a[1..], b, c);
    }
  }

  lemma {:induction false} CountAbsent(s: string, c: char)
    requires c !in s
    ensures Count(s, c) == 0
  {
    if s != [] {
      assert s == [s[0]] + s[1..];
      CountAbsent(s[1..], c);
    }
  }

  /** A formula with `n` plus signs always splits into exactly `n + 1` pieces. */
  lemma {:induction false} SplitCount(s: string)
    ensures |Split(s)| == Count(s, '+') + 1
    decreases |s|
  {
    var k := IndexOf(s, '+');
    if k == |s| {
      assert s[..k] == s;
      CountAbsent(s, '+');
    } else {
      SplitUnfold(s, k);
      CountAt(s, k);
      CountDropSpaces(s[k + 1..]);
      SplitCount(DropSpaces(s[k + 1..]));
    }
  }

  /** The first `+` at index `k` is one `+`, and the rest are after it. */
  lemma CountAt(s: string, k: nat)
    requires k < |s| && s[k] == '+' && '+' !in s[..k]
    ensures Count(s, '+') == 1 + Count(s[k + 1..], '+')
  {
    var rest := s[k + 1..];
    assert s == s[..k] + [s[k]] + rest;
    CountAppend(s[..k] + [s[k]], rest, '+');
    CountAppend(s[..k], [s[k]], '+');
    CountAbsent(s[..k], '+');
    assert Count([s[k]], '+') == 1;
  }

  /** Dropping leading spaces drops no `+`. */
  lemma CountDropSpaces(s: string)
    ensures Count(DropSpaces(s), '+') == Count(s, '+')
  {
    var d := DropSpaces(s);
    var n := |s| - |d|;
    assert s == s[..n] + d;
    assert '+' !in s[..n] by {
      assert forall i :: 0 <= i < n ==> s[..n][i] == ' ';
    }
    CountAppend(s[..n], d, '+');
    CountAbsent(s[..n], '+');
  }

  /** A piece that survives a split untouched: no `+`, and no space at either end (it may be empty). */
  predicate PlainPiece(p: string) {
    '+' !in p && (p == [] || (p[0] != ' ' && p[|p| - 1] != ' '))
  }

  /** The pieces joined by `" + "`, the way a user writes a formula. */
  function Join(pieces: seq<string>): string
    requires |pieces| > 0
  {
    if |pieces| == 1 then pieces[0] else pieces[0] + " + " + Join(pieces[1..])
  }

  /**
   * A `+` with any spaces on either side ends the first piece, which keeps
   * everything before those spaces (it may be empty).
   */
  lemma SplitAt(p: string, before: string, after: string, rest: string)
    requires '+' !in p && (p == [] || p[|p| - 1] != ' ')
    requires AllSpaces(before) && AllSpaces(after)
    requires rest == [] || rest[0] != ' '
    ensures Split(p + (before + "+" + after) + rest) == [p] + Split(rest)
  {
    assert p + (before + "+" + after) + rest == p + (before + "+") + (after + rest);
    SplitHead(p, before, after + rest);
    DropSpacesOf(after, rest);
  }

  /** The first `+` and the spaces before it end the first piece; the split goes on after the spaces behind it. */
  lemma SplitHead(p: string, before: string, tail: string)
    requires '+' !in p && (p == [] || p[|p| - 1] != ' ')
    requires AllSpaces(before)
    ensures Split(p + (before + "+") + tail) == [p] + Split(DropSpaces(tail))
  {
    var s := p + (before + "+") + tail;
    var k := |p + before|;
    PlusAt(p, before, tail);
    IndexOfFirst(s, '+', k);
    SplitUnfold(s, k);
    TrimOf(p, before);
  }

  /** Where the `+` of `p + before + "+" + tail` sits, and what lies on each side. */
  lemma PlusAt(p: string, before: string, tail: string)
    requires '+' !in p && AllSpaces(before)
    ensures var s := p + (before + "+") + tail;
            var k := |p + before|;
            k < |s| && s[..k] == p + before && s[k] == '+' && '+' !in s[..k] &&
            s[k + 1..] == tail
  {
    var s := p + (before + "+") + tail;
    var head := p + before;
    assert s == head + ("+" + tail);
    assert forall i :: 0 <= i < |before| ==> before[i] == ' ';
    assert '+' !in head;
  }

  /** A space in front changes nothing once leading spaces are dropped. */
  lemma DropSpacesSpace(s: string)
    ensures DropSpaces(" " + s) == DropSpaces(s)
  {
    assert (" " + s)[1..] == s;
    assert LeadingSpaceCount(" " + s) == 1 + LeadingSpaceCount(s);
    assert (" " + s)[1 + LeadingSpaceCount(s)..] == s[LeadingSpaceCount(s)..];
  }

  /** One step of `Split` at the first `+`, found at index `k`. */
  lemma SplitUnfold(s: string, k: nat)
    requires k < |s| && IndexOf(s, '+') == k
    ensures Split(s) == [TrimTrailingSpaces(s[..k])] + Split(DropSpaces(s[k + 1..]))
  {
  }

  /** A formula with no `+` is a single piece, kept as it is. */
  lemma SplitNone(s: string)
    requires '+' !in s
    ensures Split(s) == [s]
  {
  }

  /**
   * Splitting pieces joined by `" + "` gives back the pieces, empty ones
   * included; so does splitting the join without its leading spaces.
   */
  lemma {:induction false} SplitJoin(pieces: seq<string>)
    requires |pieces| > 0
    requires forall i :: 0 <= i < |pieces| ==> PlainPiece(pieces[i])
    ensures Split(Join(pieces)) == pieces
    ensures Split(DropSpaces(Join(pieces))) == pieces
    decreases |pieces|
  {
    assert PlainPiece(pieces[0]);
    if |pieces| > 1 {
      forall i | 0 <= i < |pieces[1..]|
        ensures PlainPiece(pieces[1..][i])
      {
        assert pieces[1..][i] == pieces[i + 1];
      }
      SplitJoin(pieces[1..]);
      SplitJoinCons(pieces);
    } else {
      assert Join(pieces) == pieces[0];
      SplitNone(pieces[0]);
      DropSpacesStart(pieces[0]);
    }
  }

  lemma SplitJoinCons(pieces: seq<string>)
    requires |pieces| > 1 && PlainPiece(pieces[0])
    requires Split(DropSpaces(Join(pieces[1..]))) == pieces[1..]
    ensures Split(Join(pieces)) == pieces
    ensures Split(DropSpaces(Join(pieces))) == pieces
  {
    var first, others := pieces[0], pieces[1..];
    assert [first] + others == pieces;
    var rest := Join(others);
    assert Join(pieces) == first + " + " + rest;
    SplitJoinStep(first, rest, others);
  }

  /** One more piece in front of a join that splits back. */
  lemma SplitJoinStep(first: string, rest: string, others: seq<string>)
    requires PlainPiece(first)
    requires Split(DropSpaces(rest)) == others
    ensures Split(first + " + " + rest) == [first] + others
    ensures Split(DropSpaces(first + " + " + rest)) == [first] + others
  {
    SplitJoinHead(first, rest, others);
    if first == [] {
      SplitJoinEmpty(first, rest, others);
    } else {
      DropSpacesStart(first + " + " + rest);
    }
  }

  /** The step for an empty first piece: the join starts with its spaces. */
  lemma SplitJoinEmpty(first: string, rest: string, others: seq<string>)
    requires first == []
    requires Split(DropSpaces(rest)) == others
    ensures Split(DropSpaces(first + " + " + rest)) == [first] + others
  {
    assert [first] + others == [""] + others;
    assert first + " + " + rest == " + " + rest;
    SplitLeadingJoin(rest, others);
  }

  lemma SplitJoinHead(first: string, rest: string, others: seq<string>)
    requires '+' !in first && (first == [] || first[|first| - 1] != ' ')
    requires Split(DropSpaces(rest)) == others
    ensures Split(first + " + " + rest) == [first] + others
  {
    var t := " " + rest;
    assert first + " + " + rest == first + (" " + "+") + t;
    assert AllSpaces(" ");
    SplitHead(first, " ", t);
    DropSpacesSpace(rest);
  }

  /** An empty piece in front: the join starts with ` + `. */
  lemma SplitLeadingJoin(rest: string, others: seq<string>)
    requires Split(DropSpaces(rest)) == others
    ensures Split(DropSpaces(" + " + rest)) == [""] + others
  {
    var t := " " + rest;
    var u := "+" + t;
    assert " + " + rest == " " + u;
    DropSpacesOf(" ", u);
    assert u == "" + ("" + "+") + t;
    SplitHead("", "", t);
    DropSpacesSpace(rest);
  }

  /** A string that does not start with a space has none to drop. */
  lemma DropSpacesStart(s: string)
    requires s == [] || s[0] != ' '
    ensures DropSpaces(s) == s
  {
    DropSpacesOf("", s);
    assert "" + s == s;
  }

  lemma {:induction false} IndexOfFirst(s: string, c: char, k: nat)
    requires k < |s| && s[k] == c && c !in s[..k]
    ensures IndexOf(s, c) == k
  {
    if k > 0 {
      assert s[0] == s[..k][0];
      assert s[1..][..k - 1] == s[..k][1..];
      IndexOfFirst(s[1..], c, k - 1);
    }
  }

  lemma TrimOf(p: string, gap: string)
    requires p == [] || p[|p| - 1] != ' '
    requires AllSpaces(gap)
    ensures TrimTrailingSpaces(p + gap) == p
  {
    TrailingSpaceCountOf(p, gap);
    assert (p + gap)[..|p|] == p;
  }

  lemma {:induction false} TrailingSpaceCountOf(p: string, gap: string)
    requires p == [] || p[|p| - 1] != ' '
    requires AllSpaces(gap)
    ensures TrailingSpaceCount(p + gap) == |gap|
    decreases |gap|
  {
    if gap == [] {
      assert p + gap == p;
    } else {
      var s := p + gap;
      assert s[|s| - 1] == ' ';
      assert s[..|s| - 1] == p + gap[..|gap| - 1];
      TrailingSpaceCountOf(p, gap[..|gap| - 1]);
    }
  }

  /** The pieces of a formula, as the loop of script.js:8 sees them. */
  function Items(dice: string): (items: seq<string>)
    ensures |items| > 0
  {
    Split(Normalize(dice))
  }

  // ---------------------------------------------------------------------------
  // The term pattern of script.js:9: blanks, optional `-`, optional digits,
  // optional `d` with digits, blanks
  // ---------------------------------------------------------------------------

  predicate IsBlank(c: char) {
    c == ' ' || c == '\t'
  }

  predicate AllBlanks(s: string) {
    forall i :: 0 <= i < |s| ==> IsBlank(s[i])
  }

  /** The number of blanks `s` starts with. */
  function LeadingBlankCount(s: string): (k: nat)
    ensures k <= |s| && AllBlanks(s[..k])
    ensures k < |s| ==> !IsBlank(s[k])
  {
    if s != [] && IsBlank(s[0]) then 1 + LeadingBlankCount(s[1..]) else 0
  }

  /** `s` without its leading blanks. */
  function DropBlanks(s: string): string {
    s[LeadingBlankCount(s)..]
  }

  /** `s` without its trailing blanks. */
  function TrimTrailingBlanks(s: string): (r: string)
    ensures |r| <= |s| && r == s[..|r|]
    ensures AllBlanks(s[|r|..])
    ensures r == [] || !IsBlank(r[|r| - 1])
  {
    if s != [] && IsBlank(s[|s| - 1]) then TrimTrailingBlanks(s[..|s| - 1]) else s
  }

  /**
   * The groups a successful match captures: group 1 (`-`) as `minus`, group 2
   * (the count digits) as `count`, groups 3 and 4 (`d` and the die-size digits)
   * as `faces`. An absent group is `None`.
   */
  datatype Captures = Captures(minus: bool, count: Option<string>, faces: Option<string>)

  /** What the pattern allows a group to hold: `\d+`. */
  predicate WellFormed(m: Captures) {
    (m.count.Some? ==> m.count.value != [] && AllDigits(m.count.value)) &&
    (m.faces.Some? ==> m.faces.value != [] && AllDigits(m.faces.value))
  }

  /** The text between the blanks of a piece that yields captures `m`. */
  function Text(m: Captures): string {
    (if m.minus then "-" else "") +
    (if m.count.Some? then m.count.value else "") +
    (if m.faces.Some? then "d" + m.faces.value else "")
  }

  /** Matching one piece: the captures on success, `None` (JavaScript `null`) otherwise. */
  function Lex(piece: string): (r: Option<Captures>)
    ensures r.Some? ==> WellFormed(r.value)
  {
    LexCore(TrimTrailingBlanks(DropBlanks(piece)))
  }

  /** The pattern between the two blank runs: `(-)?(\d+)?(?:(d)(\d+))?`. */
  function LexCore(core: string): (r: Option<Captures>)
    ensures r.Some? ==> WellFormed(r.value)
  {
    if core != [] && core[0] == '-' then LexBody(true, core[1..]) else LexBody(false, core)
  }

  /** The pattern after the optional `-`: `(\d+)?(?:(d)(\d+))?`. */
  function LexBody(minus: bool, body: string): (r: Option<Captures>)
    ensures r.Some? ==> WellFormed(r.value)
  {
    var n := LeadingDigits(body);
    var count := if n == 0 then None else Some(body[..n]);
    var rest := body[n..];
    if rest == [] then Some(Captures(minus, count, None))
    else if rest[0] == 'd' && |rest| > 1 && AllDigits(rest[1..]) then Some(Captures(minus, count, Some(rest[1..])))
    else None
  }

  lemma LexCoreSound(core: string)
    requires LexCore(core).Some?
    ensures Text(LexCore(core).value) == core
  {
    if core != [] && core[0] == '-' {
      LexBodySound(true, core[1..]);
      assert core == "-" + core[1..];
    } else {
      LexBodySound(false, core);
    }
  }

  lemma LexBodySound(minus: bool, body: string)
    requires LexBody(minus, body).Some?
    ensures Text(LexBody(minus, body).value) == (if minus then "-" else "") + body
  {
    var m := LexBody(minus, body).value;
    var n := LeadingDigits(body);
    var digits := body[..n];
    var rest := body[n..];
    assert body == digits + rest;
    assert BodyText(m) == digits + rest by {
      if n == 0 {
        assert m.count == None && digits == [];
      } else {
        assert m.count == Some(digits);
      }
      if rest == [] {
        assert m.faces == None;
      } else {
        assert m.faces == Some(rest[1..]);
        assert rest == "d" + rest[1..];
      }
    }
    assert m.minus == minus;
    TextSplit(m);
  }

  lemma TextSplit(m: Captures)
    ensures Text(m) == (if m.minus then "-" else "") + BodyText(m)
  {
  }


  lemma LexCoreComplete(m: Captures)
    requires WellFormed(m)
    ensures LexCore(Text(m)) == Some(m)
  {
    var body := BodyText(m);
    LexBodyComplete(m);
    TextSplit(m);
    if m.minus {
      LexCoreMinus(body);
    } else {
      assert Text(m) == body;
      BodyTextStart(m);
    }
  }

  /** The text after the optional `-` starts with a digit or `d`, never with `-`. */
  lemma BodyTextStart(m: Captures)
    requires WellFormed(m)
    ensures BodyText(m) == [] || BodyText(m)[0] != '-'
  {
    if m.count.Some? {
      assert BodyText(m)[0] == m.count.value[0];
      assert IsDigit(m.count.value[0]);
    }
  }

  /** The captured text after the optional `-`. */
  function BodyText(m: Captures): string {
    (if m.count.Some? then m.count.value else "") +
    (if m.faces.Some? then "d" + m.faces.value else "")
  }

  lemma LexBodyComplete(m: Captures)
    requires WellFormed(m)
    ensures LexBody(m.minus, BodyText(m)) == Some(m)
  {
    var tail := (if m.faces.Some? then "d" + m.faces.value else "");
    var digits := (if m.count.Some? then m.count.value else "");
    var body := digits + tail;
    LeadingDigitsOf(digits, tail);
    assert body[..|digits|] == digits;
    assert body[|digits|..] == tail;
  }

  /** Every piece the pattern accepts is blanks, the captured text, and blanks. */
  lemma LexSound(piece: string)
    requires Lex(piece).Some?
    ensures exists lead, trail :: AllBlanks(lead) && AllBlanks(trail) &&
                                 piece == lead + Text(Lex(piece).value) + trail
  {
    var lead, trail := BlankFrame(piece);
    LexCoreSound(TrimTrailingBlanks(DropBlanks(piece)));
  }

  /** A piece is its blank-trimmed core between two runs of blanks. */
  lemma BlankFrame(piece: string) returns (lead: string, trail: string)
    ensures AllBlanks(lead) && AllBlanks(trail)
    ensures piece == lead + TrimTrailingBlanks(DropBlanks(piece)) + trail
  {
    lead := LeadingBlanks(piece);
    trail := TrailingBlanks(DropBlanks(piece));
  }

  lemma LeadingBlanks(s: string) returns (lead: string)
    ensures AllBlanks(lead) && s == lead + DropBlanks(s)
  {
    var k := LeadingBlankCount(s);
    lead := s[..k];
    assert s == s[..k] + s[k..];
  }

  lemma TrailingBlanks(s: string) returns (trail: string)
    ensures AllBlanks(trail) && s == TrimTrailingBlanks(s) + trail
  {
    var r := TrimTrailingBlanks(s);
    trail := s[|r|..];
    assert s == s[..|r|] + s[|r|..];
  }

  /** Every piece made of blanks, well-formed captured text, and blanks is accepted, with those captures. */
  lemma LexComplete(lead: string, m: Captures, trail: string)
    requires WellFormed(m) && AllBlanks(lead) && AllBlanks(trail)
    ensures Lex(lead + Text(m) + trail) == Some(m)
  {
    var t := Text(m);
    var piece := lead + t + trail;
    if t == [] {
      assert piece == lead + trail;
      DropAllBlanks(lead + trail);
      assert m == Captures(false, None, None);
    } else {
      assert !IsBlank(t[0]) && !IsBlank(t[|t| - 1]);
      assert piece == lead + (t + trail);
      DropBlanksOf(lead, t + trail);
      TrimBlanksOf(t, trail);
      LexCoreComplete(m);
    }
  }

  lemma {:induction false} DropAllBlanks(s: string)
    requires AllBlanks(s)
    ensures DropBlanks(s) == [] && TrimTrailingBlanks([]) == []
  {
    LeadingBlankCountOf(s, []);
    assert s + [] == s;
  }

  /** A piece with no blank at either end is matched as it stands. */
  lemma LexUnpadded(piece: string)
    requires piece == [] || (!IsBlank(piece[0]) && !IsBlank(piece[|piece| - 1]))
    ensures Lex(piece) == LexCore(piece)
  {
    DropBlanksOf("", piece);
    assert "" + piece == piece;
    TrimBlanksOf(piece, "");
    assert piece + "" == piece;
  }

  /** A leading `-` is group 1; the rest of the pattern applies to what follows it. */
  lemma LexCoreMinus(body: string)
    ensures LexCore("-" + body) == LexBody(true, body)
  {
    assert ("-" + body)[1..] == body;
  }

  /** After the optional `-`, something other than a digit or `d` ends the match in failure. */
  lemma LexBodyBadStart(minus: bool, body: string)
    requires body != [] && !IsDigit(body[0]) && body[0] != 'd'
    ensures LexBody(minus, body) == None
  {
    assert LeadingDigits(body) == 0;
  }

  /** After the count digits, if any, a `d` followed by anything but digits ends the match in failure. */
  lemma LexBodyBadFaces(minus: bool, count: string, faces: string)
    requires AllDigits(count)
    requires faces == [] || !AllDigits(faces)
    ensures LexBody(minus, count + "d" + faces) == None
  {
    var body := count + "d" + faces;
    assert body == count + ("d" + faces);
    LeadingDigitsOf(count, "d" + faces);
    assert body[|count|..] == "d" + faces;
    assert ("d" + faces)[1..] == faces;
  }

  /** After the count digits, a character other than `d` ends the match in failure. */
  lemma LexBodyBadTail(minus: bool, count: string, tail: string)
    requires count != [] && AllDigits(count)
    requires tail != [] && !IsDigit(tail[0]) && tail[0] != 'd'
    ensures LexBody(minus, count + tail) == None
  {
    LeadingDigitsOf(count, tail);
    assert (count + tail)[|count|..] == tail;
  }

  lemma {:induction false} DropBlanksOf(lead: string, s: string)
    requires AllBlanks(lead)
    requires s == [] || !IsBlank(s[0])
    ensures DropBlanks(lead + s) == s
  {
    LeadingBlankCountOf(lead, s);
    assert (lead + s)[|lead|..] == s;
  }

  lemma {:induction false} LeadingBlankCountOf(lead: string, s: string)
    requires AllBlanks(lead)
    requires s == [] || !IsBlank(s[0])
    ensures LeadingBlankCount(lead + s) == |lead|
  {
    if lead == [] {
      assert lead + s == s;
    } else {
      assert (lead + s)[1..] == lead[1..] + s;
      LeadingBlankCountOf(lead[1..], s);
    }
  }

  lemma {:induction false} TrimBlanksOf(s: string, trail: string)
    requires s == [] || !IsBlank(s[|s| - 1])
    requires AllBlanks(trail)
    ensures TrimTrailingBlanks(s + trail) == s
    decreases |trail|
  {
    if trail != [] {
      assert (s + trail)[..|s + trail| - 1] == s + trail[..|trail| - 1];
      TrimBlanksOf(s, trail[..|trail| - 1]);
    } else {
      assert s + trail == s;
    }
  }

  // ---------------------------------------------------------------------------
  // From captures to a term (script.js:11-14)
  // ---------------------------------------------------------------------------

  /**
   * A matched piece: a constant (group 3 absent; its value is `num`) or a
   * die group of `num` dice with `max` faces each. `sign` is -1 or 1.
   */
  datatype Term = Constant(sign: int, num: nat) | DieGroup(sign: int, num: nat, max: nat)

  /** `sign`, `num` and `max` as script.js:11-13 read them from the groups. */
  function Interpret(m: Captures): (t: Term)
    requires WellFormed(m)
    ensures t.sign == (if m.minus then -1 else 1)
    ensures t.DieGroup? <==> m.faces.Some?
    ensures m.count.None? ==> t.num == 1
    ensures m.count.Some? ==> t.num == DigitsValue(m.count.value)
    ensures t.DieGroup? ==> t.max == DigitsValue(m.faces.value)
  {
    var sign := if m.minus then -1 else 1;
    var num := DigitsValue(m.count.GetOr("1"));
    if m.faces.Some? then DieGroup(sign, num, DigitsValue(m.faces.value)) else Constant(sign, num)
  }

  function MatchTerm(piece: string): Option<Term> {
    match Lex(piece)
    case None => None
    case Some(m) => Some(Interpret(m))
  }
}
