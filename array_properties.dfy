/** What Array promises: the empty array, the elements in the order of the
    text with ',' between them and ']' after the last, and the error for a
    missing separator. */
module ArrayProperties {
  import opened Utf16
  import opened JsonModel
  import opened ParserSpec
  import opened ParserProperties

  /** Array returns the empty list exactly when the first non-whitespace
      code unit after '[' is ']'; the cursor then stands just after it. */
  lemma ArrayEmptyExactly(s: seq<CodeUnit>, pos: nat, e: nat)
    requires pos < |s|
    ensures ArrayAt(s, pos) == Next([], e) <==>
      pos + 1 < e && FirstNonWhitespace(s, pos + 1, e - 1) && s[e - 1] == RightBracket
  {
    var first := SkipWhitespaceAt(s, pos + 1);
    if first.Next? {
      UnitStep(first);
      SkipWhitespaceStopsAtFirstNonWhitespace(s, pos + 1, first.pos);
    }
    if e > 0 {
      SkipWhitespaceStopsAtFirstNonWhitespace(s, pos + 1, e - 1);
    }
  }

  /** The steps ElementsAt took when it returned a value: the element at
      p, then either ']' or ',' and the rest of the list from p'. */
  lemma ElementsSucceeded(s: seq<CodeUnit>, p: nat, acc: seq<Json>, r: seq<Json>, e: nat) returns (v: Json, q: nat, k: nat, p': nat)
    requires p <= |s| && ElementsAt(s, p, acc) == Next(r, e)
    ensures ReadsValue(s, p, v, q) && FirstNonWhitespace(s, q, k)
    ensures s[k] == RightBracket ==> r == acc + [v] && e == k + 1
    ensures s[k] != RightBracket ==>
      s[k] == Comma && FirstNonWhitespace(s, k + 1, p') && ElementsAt(s, p', acc + [v]) == Next(r, e)
  {
    v, q, k := ElementThenSeparator(s, p, acc, r, e);
    if s[k] != RightBracket {
      p' := ElementThenComma(s, p, acc, r, e, v, q, k);
    } else {
      p' := 0;
    }
  }

  /** The first step of ElementsSucceeded: the element and the code unit after it. */
  lemma ElementThenSeparator(s: seq<CodeUnit>, p: nat, acc: seq<Json>, r: seq<Json>, e: nat) returns (v: Json, q: nat, k: nat)
    requires p <= |s| && ElementsAt(s, p, acc) == Next(r, e)
    ensures ReadsValue(s, p, v, q) && FirstNonWhitespace(s, q, k) && SkipWhitespaceAt(s, q) == Next((), k)
    ensures s[k] == RightBracket ==> r == acc + [v] && e == k + 1
    ensures s[k] != RightBracket ==> s[k] == Comma
  {
    v, q := ValueAt(s, p).value, ValueAt(s, p).pos;
    SkippedToFirstNonWhitespace(s, q);
    k := SkipWhitespaceAt(s, q).pos;
    ElementsAfterValue(s, p, acc, v, q, k);
  }

  /** The second step of ElementsSucceeded: after ',' the list goes on at p'. */
  lemma ElementThenComma(s: seq<CodeUnit>, p: nat, acc: seq<Json>, r: seq<Json>, e: nat, v: Json, q: nat, k: nat) returns (p': nat)
    requires p <= |s| && ElementsAt(s, p, acc) == Next(r, e)
    requires ReadsValue(s, p, v, q) && SkipWhitespaceAt(s, q) == Next((), k) && s[k] == Comma
    ensures FirstNonWhitespace(s, k + 1, p') && ElementsAt(s, p', acc + [v]) == Next(r, e)
  {
    SkippedToFirstNonWhitespace(s, k + 1);
    p' := SkipWhitespaceAt(s, k + 1).pos;
    ElementsAfterComma(s, p, acc, v, q, k, p');
  }

  lemma SeparatedCons(s: seq<CodeUnit>, p: nat, q: nat, k: nat, starts: seq<nat>, ends: seq<nat>, seps: seq<nat>)
    requires FirstNonWhitespace(s, q, k) && s[k] == Comma
    requires Separated(s, starts, ends, seps) && FirstNonWhitespace(s, k + 1, starts[0])
    ensures Separated(s, [p] + starts, [q] + ends, [k] + seps)
  {
    var starts', ends', seps' := [p] + starts, [q] + ends, [k] + seps;
    forall i | 0 <= i < |ends'| ensures SeparatorAt(s, ends', seps', i) {
      if i > 0 {
        assert SeparatorAt(s, ends, seps, i - 1);
        assert ends'[i] == ends[i - 1] && seps'[i] == seps[i - 1];
      }
    }
    forall i | 0 <= i < |seps'| - 1 ensures GapAt(s, starts', seps', i) {
      if i > 0 {
        assert GapAt(s, starts, seps, i - 1);
        assert seps'[i] == seps[i - 1] && starts'[i + 1] == starts[i];
      }
    }
  }

  lemma ReadsValuesCons(s: seq<CodeUnit>, v: Json, p: nat, q: nat, vs: seq<Json>, starts: seq<nat>, ends: seq<nat>)
    requires ReadsValue(s, p, v, q)
    requires ReadsValues(s, vs, starts, ends)
    ensures ReadsValues(s, [v] + vs, [p] + starts, [q] + ends)
  {
    var vs', starts', ends' := [v] + vs, [p] + starts, [q] + ends;
    forall i | 0 <= i < |vs'| ensures ReadsValueAt(s, vs', starts', ends', i) {
      if i > 0 {
        assert ReadsValueAt(s, vs, starts, ends, i - 1);
        assert starts'[i] == starts[i - 1] && vs'[i] == vs[i - 1] && ends'[i] == ends[i - 1];
      }
    }
  }

  /** The layout of a list that closes after its one element v. */
  lemma LayoutOfLast(s: seq<CodeUnit>, acc: seq<Json>, r: seq<Json>, v: Json, p: nat, q: nat, k: nat)
    requires ReadsValue(s, p, v, q) && FirstNonWhitespace(s, q, k) && s[k] == RightBracket
    requires r == acc + [v]
    ensures |acc| < |r| && r[..|acc|] == acc
    ensures ElementLayout(s, r[|acc|..], [p], [q], [k])
  {
    assert r[|acc|..] == [v];
    assert ReadsValueAt(s, [v], [p], [q], 0);
    assert SeparatorAt(s, [q], [k], 0);
  }

  /** The layout of a list whose element v is followed by ',' and the layout of the rest. */
  lemma LayoutOfNext(s: seq<CodeUnit>, acc: seq<Json>, r: seq<Json>, v: Json, p: nat, q: nat, k: nat,
                     starts: seq<nat>, ends: seq<nat>, seps: seq<nat>)
    requires ReadsValue(s, p, v, q) && FirstNonWhitespace(s, q, k) && s[k] == Comma
    requires |acc + [v]| < |r| && r[..|acc| + 1] == acc + [v]
    requires ElementLayout(s, r[|acc| + 1..], starts, ends, seps) && FirstNonWhitespace(s, k + 1, starts[0])
    ensures |acc| < |r| && r[..|acc|] == acc
    ensures ElementLayout(s, r[|acc|..], [p] + starts, [q] + ends, [k] + seps)
  {
    assert r[..|acc|] == r[..|acc| + 1][..|acc|];
    assert r[|acc|..] == [v] + r[|acc| + 1..];
    ReadsValuesCons(s, v, p, q, r[|acc| + 1..], starts, ends);
    SeparatedCons(s, p, q, k, starts, ends, seps);
  }

  lemma {:induction false} ElementsLayoutOf(s: seq<CodeUnit>, p: nat, acc: seq<Json>, r: seq<Json>, e: nat)
    returns (starts: seq<nat>, ends: seq<nat>, seps: seq<nat>)
    requires p <= |s| && ElementsAt(s, p, acc) == Next(r, e)
    ensures |acc| < |r| && r[..|acc|] == acc
    ensures ElementLayout(s, r[|acc|..], starts, ends, seps) && starts[0] == p && e == seps[|seps| - 1] + 1
    decreases |s| - p
  {
    var v, q, k, p' := ElementsSucceeded(s, p, acc, r, e);
    if s[k] == RightBracket {
      LayoutOfLast(s, acc, r, v, p, q, k);
      starts, ends, seps := [p], [q], [k];
    } else {
      var starts', ends', seps' := ElementsLayoutOf(s, p', acc + [v], r, e);
      LayoutOfNext(s, acc, r, v, p, q, k, starts', ends', seps');
      starts, ends, seps := [p] + starts', [q] + ends', [k] + seps';
    }
  }

  /** What Array returns is the values read one after another, ',' between
      them and ']' after the last, in the order they appear in the text. */
  lemma ArrayElementsInSourceOrder(s: seq<CodeUnit>, pos: nat, vs: seq<Json>, e: nat)
    requires pos < |s| && ArrayAt(s, pos) == Next(vs, e) && vs != []
    ensures exists starts, ends, seps :: ArrayLayout(s, pos, vs, starts, ends, seps) && e == seps[|vs| - 1] + 1
  {
    var k := ArrayOpens(s, pos, vs, e);
    var starts, ends, seps := ElementsLayoutOf(s, k, [], vs, e);
    assert vs[0..] == vs;
    assert ArrayLayout(s, pos, vs, starts, ends, seps);
  }

  /** A non-empty array's elements begin at the first non-whitespace code unit after '['. */
  lemma ArrayOpens(s: seq<CodeUnit>, pos: nat, vs: seq<Json>, e: nat) returns (k: nat)
    requires pos < |s| && ArrayAt(s, pos) == Next(vs, e) && vs != []
    ensures FirstNonWhitespace(s, pos + 1, k) && s[k] != RightBracket && ElementsAt(s, k, []) == Next(vs, e)
  {
    SkippedToFirstNonWhitespace(s, pos + 1);
    k := SkipWhitespaceAt(s, pos + 1).pos;
  }

  /** What ElementsAt reads at element i of a layout, when i is not the last. */
  lemma CommaAt(s: seq<CodeUnit>, vs: seq<Json>, starts: seq<nat>, ends: seq<nat>, seps: seq<nat>, i: nat)
    requires ElementLayout(s, vs, starts, ends, seps) && i < |vs| - 1
    ensures ReadsValueAt(s, vs, starts, ends, i)
    ensures SkipWhitespaceAt(s, ends[i]) == Next((), seps[i]) && s[seps[i]] == Comma
    ensures SkipWhitespaceAt(s, seps[i] + 1) == Next((), starts[i + 1])
  {
    assert ReadsValueAt(s, vs, starts, ends, i);
    assert SeparatorAt(s, ends, seps, i);
    assert GapAt(s, starts, seps, i);
    SkipsToFirstNonWhitespace(s, ends[i], seps[i]);
    SkipsToFirstNonWhitespace(s, seps[i] + 1, starts[i + 1]);
  }

  /** What ElementsAt reads at the last element of a layout. */
  lemma BracketAt(s: seq<CodeUnit>, vs: seq<Json>, starts: seq<nat>, ends: seq<nat>, seps: seq<nat>, i: nat)
    requires ElementLayout(s, vs, starts, ends, seps) && i == |vs| - 1
    ensures ReadsValueAt(s, vs, starts, ends, i)
    ensures SkipWhitespaceAt(s, ends[i]) == Next((), seps[i]) && s[seps[i]] == RightBracket
  {
    assert ReadsValueAt(s, vs, starts, ends, i);
    assert SeparatorAt(s, ends, seps, i);
    SkipsToFirstNonWhitespace(s, ends[i], seps[i]);
  }

  /** The last element of a layout: Array reads it and closes the list. */
  lemma LastOfLayout(s: seq<CodeUnit>, acc: seq<Json>, vs: seq<Json>, starts: seq<nat>, ends: seq<nat>, seps: seq<nat>, i: nat)
    requires ElementLayout(s, vs, starts, ends, seps) && i == |vs| - 1
    ensures starts[i] <= |s| && ElementsAt(s, starts[i], acc) == Next(acc + [vs[i]], seps[i] + 1)
  {
    BracketAt(s, vs, starts, ends, seps, i);
    ElementsAfterValue(s, starts[i], acc, vs[i], ends[i], seps[i]);
  }

  /** An element of a layout before the last: Array reads it, steps over
      the ',' and goes on at the next one. */
  lemma NextOfLayout(s: seq<CodeUnit>, acc: seq<Json>, vs: seq<Json>, starts: seq<nat>, ends: seq<nat>, seps: seq<nat>, i: nat)
    requires ElementLayout(s, vs, starts, ends, seps) && i < |vs| - 1
    ensures starts[i] <= |s| && starts[i + 1] <= |s|
    ensures ElementsAt(s, starts[i], acc) == ElementsAt(s, starts[i + 1], acc + [vs[i]])
  {
    CommaAt(s, vs, starts, ends, seps, i);
    ElementsAfterComma(s, starts[i], acc, vs[i], ends[i], seps[i], starts[i + 1]);
  }

  /** Element i onwards of a layout, read after the elements acc. */
  lemma {:induction false} ElementsFromLayout(s: seq<CodeUnit>, acc: seq<Json>, vs: seq<Json>, starts: seq<nat>, ends: seq<nat>, seps: seq<nat>, i: nat)
    requires ElementLayout(s, vs, starts, ends, seps) && i < |vs|
    ensures starts[i] <= |s|
    ensures ElementsAt(s, starts[i], acc) == Next(acc + vs[i..], seps[|vs| - 1] + 1)
    decreases |vs| - i
  {
    AppendAt(acc, vs, i);
    if i == |vs| - 1 {
      LastOfLayout(s, acc, vs, starts, ends, seps, i);
    } else {
      NextOfLayout(s, acc, vs, starts, ends, seps, i);
      ElementsFromLayout(s, acc + [vs[i]], vs, starts, ends, seps, i + 1);
    }
  }

  /** Conversely, text laid out as an array's elements parses to exactly
      those elements, and the cursor stops after the ']'. */
  lemma ArrayLayoutParses(s: seq<CodeUnit>, pos: nat, vs: seq<Json>, starts: seq<nat>, ends: seq<nat>, seps: seq<nat>)
    requires ArrayLayout(s, pos, vs, starts, ends, seps)
    ensures ArrayAt(s, pos) == Next(vs, seps[|vs| - 1] + 1)
  {
    SkipsToFirstNonWhitespace(s, pos + 1, starts[0]);
    ElementsFromLayout(s, [], vs, starts, ends, seps, 0);
    assert [] + vs[0..] == vs;
  }

  /** After an element, a first non-whitespace code unit other than ',' or
      ']' is reported as a missing separator. */
  lemma ElementsNeedCommaBetween(s: seq<CodeUnit>, p: nat, acc: seq<Json>, v: Json, q: nat, k: nat)
    requires ReadsValue(s, p, v, q)
    requires FirstNonWhitespace(s, q, k) && s[k] != Comma && s[k] != RightBracket
    ensures ElementsAt(s, p, acc) == Halt(ParseError(ExpectedComma))
  {
    SkipsToFirstNonWhitespace(s, q, k);
    ElementsAfterValue(s, p, acc, v, q, k);
  }
}
