/** White space as a trim sees it: the characters with Unicode's White_Space property,
    in UTF-8. */
module Spaces {
  import opened Bytes

  /** U+0009 to U+000D and U+0020; U+0085 and U+00A0; U+1680, U+2000 to U+200A, U+2028,
      U+2029, U+202F, U+205F and U+3000. */
  predicate IsSpace(s: Text)
  {
    if |s| == 1 then 0x09 <= s[0] <= 0x0D || s[0] == 0x20
    else if |s| == 2 then s[0] == 0xC2 && (s[1] == 0x85 || s[1] == 0xA0)
    else |s| == 3 && IsWideSpace(s[0], s[1], s[2])
  }

  predicate IsWideSpace(a: byte, b: byte, c: byte)
  {
    || (a == 0xE1 && b == 0x9A && c == 0x80)
    || (a == 0xE2 && b == 0x80 && (0x80 <= c <= 0x8A || c == 0xA8 || c == 0xA9 || c == 0xAF))
    || (a == 0xE2 && b == 0x81 && c == 0x9F)
    || (a == 0xE3 && b == 0x80 && c == 0x80)
  }

  /** The bytes of the space at an index, or none. */
  function SpaceAt(text: Text, i: nat): (n: nat)
    ensures n > 0 ==> i + n <= |text|
  {
    if i < |text| && (0x09 <= text[i] <= 0x0D || text[i] == 0x20) then 1
    else if i + 1 < |text| && text[i] == 0xC2 && (text[i + 1] == 0x85 || text[i + 1] == 0xA0) then 2
    else if i + 2 < |text| && IsWideSpace(text[i], text[i + 1], text[i + 2]) then 3
    else 0
  }

  /** The bytes of the space that ends before an index, or none. */
  function SpaceBefore(text: Text, j: nat): (n: nat)
    requires j <= |text|
    ensures n <= j
  {
    if j >= 1 && SpaceAt(text, j - 1) == 1 then 1
    else if j >= 2 && SpaceAt(text, j - 2) == 2 then 2
    else if j >= 3 && SpaceAt(text, j - 3) == 3 then 3
    else 0
  }

  /** Past the spaces from an index on. */
  function FirstInk(text: Text, i: nat): (k: nat)
    requires i <= |text|
    ensures i <= k <= |text|
    decreases |text| - i
  {
    if SpaceAt(text, i) > 0 then FirstInk(text, i + SpaceAt(text, i)) else i
  }

  /** Back over the spaces before an index. */
  function LastInk(text: Text, j: nat): (k: nat)
    requires j <= |text|
    ensures k <= j
    decreases j
  {
    if SpaceBefore(text, j) > 0 then LastInk(text, j - SpaceBefore(text, j)) else j
  }

  function TrimStart(text: Text): Text { text[FirstInk(text, 0)..] }

  function TrimEnd(text: Text): Text { text[..LastInk(text, |text|)] }

  function Trim(text: Text): Text { TrimEnd(TrimStart(text)) }

  predicate IsBlankFrom(text: Text, i: nat)
    decreases |text| - i
  {
    i >= |text| || (SpaceAt(text, i) > 0 && IsBlankFrom(text, i + SpaceAt(text, i)))
  }

  /** Nothing but white space. */
  predicate IsBlank(text: Text) { IsBlankFrom(text, 0) }

  // ---- one space at a time ---------------------------------------------

  lemma AtAShift(text: Text, n: nat, i: nat)
    requires n + i <= |text|
    ensures SpaceAt(text[n..], i) == SpaceAt(text, n + i)
  {
    var rest := text[n..];
    assert forall k :: 0 <= k < |rest| ==> rest[k] == text[n + k];
  }

  lemma {:induction false} FirstInkShifted(text: Text, n: nat, i: nat)
    requires n + i <= |text|
    ensures n + FirstInk(text[n..], i) == FirstInk(text, n + i)
    decreases |text| - i
  {
    AtAShift(text, n, i);
    var space := SpaceAt(text, n + i);
    if space > 0 {
      FirstInkShifted(text, n, i + space);
    }
  }

  /** Trimming the start drops the space it starts with, and goes on. */
  lemma TrimStartSteps(text: Text)
    ensures SpaceAt(text, 0) == 0 ==> TrimStart(text) == text
    ensures SpaceAt(text, 0) > 0 ==> TrimStart(text) == TrimStart(text[SpaceAt(text, 0)..])
  {
    var n := SpaceAt(text, 0);
    if n > 0 {
      FirstInkShifted(text, n, 0);
      assert text[n..][FirstInk(text[n..], 0)..] == text[FirstInk(text, n)..];
    }
  }

  lemma BeforeACut(text: Text, m: nat, j: nat)
    requires j <= m <= |text|
    ensures SpaceBefore(text[..m], j) == SpaceBefore(text, j)
  {
    AtBeforeACut(text, m, j, 1);
    AtBeforeACut(text, m, j, 2);
    AtBeforeACut(text, m, j, 3);
  }

  lemma AtBeforeACut(text: Text, m: nat, j: nat, n: nat)
    requires j <= m <= |text| && 1 <= n <= 3
    ensures n <= j ==> (SpaceAt(text[..m], j - n) == n <==> SpaceAt(text, j - n) == n)
  {
    var front := text[..m];
    assert forall k :: 0 <= k < |front| ==> front[k] == text[k];
  }

  lemma {:induction false} LastInkCut(text: Text, m: nat, j: nat)
    requires j <= m <= |text|
    ensures LastInk(text[..m], j) == LastInk(text, j)
    decreases j
  {
    BeforeACut(text, m, j);
    var space := SpaceBefore(text, j);
    if space > 0 {
      LastInkCut(text, m, j - space);
    }
  }

  /** Trimming the end drops the space it ends with, and goes on. */
  lemma TrimEndSteps(text: Text)
    ensures SpaceBefore(text, |text|) == 0 ==> TrimEnd(text) == text
    ensures SpaceBefore(text, |text|) > 0 ==> TrimEnd(text) == TrimEnd(text[..|text| - SpaceBefore(text, |text|)])
  {
    var n := SpaceBefore(text, |text|);
    if n > 0 {
      var m := |text| - n;
      LastInkCut(text, m, m);
      assert text[..m][..LastInk(text, m)] == text[..LastInk(text, m)];
    }
  }

  lemma WhatStandsAhead(text: Text)
    requires SpaceAt(text, 0) > 0
    ensures IsSpace(text[..SpaceAt(text, 0)])
  {
  }

  lemma WhatStandsBehind(text: Text)
    requires SpaceBefore(text, |text|) > 0
    ensures IsSpace(text[|text| - SpaceBefore(text, |text|)..])
  {
  }

  // ---- what a trim drops -----------------------------------------------

  function Joined(spaces: seq<Text>): Text
  {
    if spaces == [] then [] else Joined(spaces[..|spaces| - 1]) + spaces[|spaces| - 1]
  }

  ghost predicate AreSpaces(spaces: seq<Text>)
  {
    forall i :: 0 <= i < |spaces| ==> IsSpace(spaces[i])
  }

  /** A text of white-space characters only, however many. */
  ghost predicate AllSpaces(text: Text)
  {
    exists spaces :: AreSpaces(spaces) && text == Joined(spaces)
  }

  lemma NoSpaces()
    ensures AllSpaces([])
  {
    assert AreSpaces([]) && Joined([]) == [];
  }

  /** No space is the start of another, nor the end. */
  lemma ASpaceIsFoundAhead(space: Text, rest: Text)
    requires IsSpace(space)
    ensures SpaceAt(space + rest, 0) == |space| && (space + rest)[|space|..] == rest
  {
    var text := space + rest;
    assert forall k :: 0 <= k < |space| ==> text[k] == space[k];
  }

  lemma ASpaceIsFoundBehind(rest: Text, space: Text)
    requires IsSpace(space)
    ensures SpaceBefore(rest + space, |rest + space|) == |space| && (rest + space)[..|rest|] == rest
  {
    var text := rest + space;
    assert forall k :: 0 <= k < |space| ==> text[|rest| + k] == space[k];
  }

  lemma {:induction false} JoinedFromTheFront(spaces: seq<Text>)
    requires spaces != []
    ensures Joined(spaces) == spaces[0] + Joined(spaces[1..])
    decreases |spaces|
  {
    var n := |spaces| - 1;
    if n > 0 {
      JoinedFromTheFront(spaces[..n]);
      assert spaces[..n][1..] == spaces[1..][..n - 1] && spaces[1..][n - 1] == spaces[n];
      assert (spaces[0] + Joined(spaces[..n][1..])) + spaces[n] == spaces[0] + (Joined(spaces[..n][1..]) + spaces[n]);
    }
  }

  lemma {:induction false} TrimmingTheStart(spaces: seq<Text>, rest: Text)
    requires AreSpaces(spaces)
    ensures TrimStart(Joined(spaces) + rest) == TrimStart(rest)
    decreases |spaces|
  {
    if spaces == [] {
      assert Joined(spaces) + rest == rest;
    } else {
      JoinedFromTheFront(spaces);
      var more := Joined(spaces[1..]) + rest;
      assert Joined(spaces) + rest == spaces[0] + more;
      ASpaceIsFoundAhead(spaces[0], more);
      TrimStartSteps(spaces[0] + more);
      TrimmingTheStart(spaces[1..], rest);
    }
  }

  lemma {:induction false} TrimmingTheEnd(rest: Text, spaces: seq<Text>)
    requires AreSpaces(spaces)
    ensures TrimEnd(rest + Joined(spaces)) == TrimEnd(rest)
    decreases |spaces|
  {
    if spaces == [] {
      assert rest + Joined(spaces) == rest;
    } else {
      var n := |spaces| - 1;
      var more := rest + Joined(spaces[..n]);
      assert rest + Joined(spaces) == more + spaces[n];
      ASpaceIsFoundBehind(more, spaces[n]);
      TrimEndSteps(more + spaces[n]);
      TrimmingTheEnd(rest, spaces[..n]);
    }
  }

  lemma TrimmingBothEnds(before: seq<Text>, middle: Text, after: seq<Text>, tail: Text)
    requires AreSpaces(before) && AreSpaces(after) && tail == middle + Joined(after)
    requires SpaceAt(tail, 0) == 0 && SpaceBefore(middle, |middle|) == 0
    ensures Trim(Joined(before) + tail) == middle
  {
    TrimmingTheStart(before, tail);
    TrimStartSteps(tail);
    TrimmingTheEnd(middle, after);
    TrimEndSteps(middle);
  }

  lemma Associate(a: Text, b: Text, c: Text)
    ensures a + b + c == a + (b + c)
  {
  }

  /** However padded, a text that neither starts nor ends with a space is what is left. */
  lemma TrimmingDropsTheSpaces(left: Text, middle: Text, right: Text)
    requires AllSpaces(left) && AllSpaces(right)
    requires SpaceAt(middle + right, 0) == 0 && SpaceBefore(middle, |middle|) == 0
    ensures Trim(left + middle + right) == middle
  {
    var before :| AreSpaces(before) && left == Joined(before);
    var after :| AreSpaces(after) && right == Joined(after);
    Associate(left, middle, right);
    TrimmingBothEnds(before, middle, after, middle + right);
  }

  // ---- blank, exactly --------------------------------------------------

  lemma OneMoreAhead(text: Text, n: nat, spaces: seq<Text>, trimmed: Text) returns (more: seq<Text>)
    requires n <= |text| && IsSpace(text[..n]) && AreSpaces(spaces) && text[n..] == Joined(spaces) + trimmed
    ensures AreSpaces(more) && text == Joined(more) + trimmed
  {
    more := [text[..n]] + spaces;
    JoinedFromTheFront(more);
    assert more[1..] == spaces;
    assert text == text[..n] + text[n..];
    assert (text[..n] + Joined(spaces)) + trimmed == text[..n] + (Joined(spaces) + trimmed);
  }

  lemma {:induction false} WhatTrimStartDrops(text: Text) returns (spaces: seq<Text>)
    ensures AreSpaces(spaces) && text == Joined(spaces) + TrimStart(text)
    decreases |text|
  {
    var n := SpaceAt(text, 0);
    TrimStartSteps(text);
    if n == 0 {
      spaces := [];
      assert Joined([]) + text == text;
    } else {
      WhatStandsAhead(text);
      spaces := WhatTrimStartDrops(text[n..]);
      spaces := OneMoreAhead(text, n, spaces, TrimStart(text[n..]));
    }
  }

  lemma OneMoreBehind(text: Text, m: nat, trimmed: Text, spaces: seq<Text>) returns (more: seq<Text>)
    requires m <= |text| && IsSpace(text[m..]) && AreSpaces(spaces) && text[..m] == trimmed + Joined(spaces)
    ensures AreSpaces(more) && text == trimmed + Joined(more)
  {
    more := spaces + [text[m..]];
    assert more[..|spaces|] == spaces;
    assert text == text[..m] + text[m..];
    assert (trimmed + Joined(spaces)) + text[m..] == trimmed + (Joined(spaces) + text[m..]);
  }

  lemma {:induction false} WhatTrimEndDrops(text: Text) returns (spaces: seq<Text>)
    ensures AreSpaces(spaces) && text == TrimEnd(text) + Joined(spaces)
    decreases |text|
  {
    var n := SpaceBefore(text, |text|);
    TrimEndSteps(text);
    if n == 0 {
      spaces := [];
      assert text + Joined([]) == text;
    } else {
      var m := |text| - n;
      WhatStandsBehind(text);
      spaces := WhatTrimEndDrops(text[..m]);
      spaces := OneMoreBehind(text, m, TrimEnd(text[..m]), spaces);
    }
  }

  lemma {:induction false} JoinedConcat(first: seq<Text>, second: seq<Text>)
    ensures Joined(first + second) == Joined(first) + Joined(second)
    decreases |second|
  {
    if second == [] {
      assert first + second == first;
    } else {
      var n := |second| - 1;
      JoinedConcat(first, second[..n]);
      assert (first + second)[..|first| + n] == first + second[..n];
      assert (Joined(first) + Joined(second[..n])) + second[n] == Joined(first) + (Joined(second[..n]) + second[n]);
    }
  }

  /** A text trims to nothing if and only if it is white-space characters only. */
  lemma TrimmedAwayIsAllSpaces(text: Text)
    ensures Trim(text) == [] <==> AllSpaces(text)
  {
    if Trim(text) == [] {
      var before := WhatTrimStartDrops(text);
      var after := WhatTrimEndDrops(TrimStart(text));
      JoinedConcat(before, after);
      assert [] + Joined(after) == Joined(after);
      assert AreSpaces(before + after) && text == Joined(before + after);
    }
    if AllSpaces(text) {
      var spaces :| AreSpaces(spaces) && text == Joined(spaces);
      TrimmingTheStart(spaces, []);
      assert Joined(spaces) + [] == text;
    }
  }

  lemma {:induction false} BlankFromIsInkless(text: Text, i: nat)
    requires i <= |text|
    ensures IsBlankFrom(text, i) <==> FirstInk(text, i) == |text|
    decreases |text| - i
  {
    if SpaceAt(text, i) > 0 {
      BlankFromIsInkless(text, i + SpaceAt(text, i));
    }
  }

  /** A text is blank if and only if trimming it leaves nothing. */
  lemma BlankIsTrimmedAway(text: Text)
    ensures IsBlank(text) <==> Trim(text) == []
  {
    BlankFromIsInkless(text, 0);
    if Trim(text) == [] {
      TrimmedAwayIsAllSpaces(text);
      var spaces :| AreSpaces(spaces) && text == Joined(spaces);
      TrimmingTheStart(spaces, []);
      assert Joined(spaces) + [] == text;
    }
  }

  /** Printable ASCII is no space, and begins none. */
  lemma NotASpace(text: Text)
    requires text != [] && 0x20 < text[0] < 0x7F
    ensures SpaceAt(text, 0) == 0 && !IsBlank(text)
  {
  }

  lemma NotASpaceBehind(text: Text)
    requires text != [] && 0x20 < text[|text| - 1] < 0x7F
    ensures SpaceBefore(text, |text|) == 0
  {
  }
}
