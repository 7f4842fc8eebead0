/**
 * `wrapText`: breaking a text into lines at word boundaries so that no line is
 * longer than a number of columns. The text is split at single spaces into
 * words; each line starts with the next word and greedily takes following
 * words while the line, a space and the word still fit. A word longer than the
 * columns gets a line to itself. Lengths are JavaScript string lengths, which
 * count UTF-16 code units (`Length`). The generator's yields are modelled as
 * the sequence of lines it yields.
 */
module WordWrap {
  import opened Text

  /** The code units one character takes in UTF-16, the encoding whose units JavaScript's
      `length` counts: two for a character outside the Basic Multilingual Plane, one otherwise. */
  function Units(c: char): (n: nat)
    ensures n == 1 || n == 2
  {
    if c as int < 0x1_0000 then 1 else 2
  }

  /** A string's `length` in JavaScript: the number of its UTF-16 code units. */
  function Length(s: string): (n: nat)
    ensures n >= |s|
  {
    if s == [] then 0 else Units(s[0]) + Length(s[1..])
  }

  /** The length of two strings one after the other is the sum of their lengths. */
  lemma {:induction false} LengthAppend(a: string, b: string)
    ensures Length(a + b) == Length(a) + Length(b)
    decreases |a|
  {
    if a == [] {
      assert a + b == b;
    } else {
      assert (a + b)[1..] == a[1..] + b;
      LengthAppend(a[1..], b);
    }
  }

  /** A string of characters of the Basic Multilingual Plane, each one code unit long. */
  predicate Plain(s: string) {
    forall i :: 0 <= i < |s| ==> s[i] as int < 0x1_0000
  }

  /** Only characters outside the Basic Multilingual Plane make the length exceed the number of
      characters: the two counts agree exactly on plain strings. */
  lemma {:induction false} LengthOfPlain(s: string)
    ensures Length(s) == |s| <==> Plain(s)
    decreases |s|
  {
    if s != [] {
      LengthOfPlain(s[1..]);
      if Length(s) == |s| {
        forall i | 0 <= i < |s| ensures s[i] as int < 0x1_0000 {
          if i > 0 {
            assert s[i] == s[1..][i - 1];
          }
        }
      } else if Plain(s) {
        forall i | 0 <= i < |s| - 1 ensures s[1..][i] as int < 0x1_0000 {
          assert s[1..][i] == s[i + 1];
        }
        assert false;
      }
    }
  }

  /** How many of the words `rest` the inner loop appends to `line`: it appends the next word
      while the line, one space and the word fit in `columns`, lengths counted in code units. */
  function Take(line: string, rest: seq<string>, columns: int): (n: nat)
    ensures n <= |rest|
    decreases |rest|
  {
    if rest != [] && Length(line) + 1 + Length(rest[0]) <= columns then
      1 + Take(line + " " + rest[0], rest[1..], columns)
    else 0
  }

  /** The words of each line, in order: a line holds its first word and the `Take` that follow. */
  function Groups(words: seq<string>, columns: int): seq<seq<string>>
    decreases |words|
  {
    if words == [] then []
    else
      var n := Take(words[0], words[1..], columns);
      [words[..n + 1]] + Groups(words[n + 1..], columns)
  }

  /** The lines of the groups: the words of each group joined by single spaces. */
  function Lines(groups: seq<seq<string>>): (lines: seq<string>)
    ensures |lines| == |groups|
    ensures forall k :: 0 <= k < |groups| ==> lines[k] == Join(groups[k], ' ')
  {
    if groups == [] then [] else [Join(groups[0], ' ')] + Lines(groups[1..])
  }

  /** Everything `wrapText(text, columns)` yields, in order. */
  function WrapText(text: string, columns: int): seq<string> {
    Lines(Groups(Split(text, ' '), columns))
  }

  /** The generator's loops: the outer one starts a line with the next word, the inner one
      appends words while they fit. */
  method Wrap(text: string, columns: int) returns (lines: seq<string>)
    ensures lines == WrapText(text, columns)
  {
    var words := Split(text, ' ');
    lines := [];
    while |words| > 0
      invariant lines + Lines(Groups(words, columns)) == WrapText(text, columns)
      decreases |words|
    {
      ghost var start := words;
      var line := words[0];
      words := words[1..];
      ghost var taken := 0;
      while |words| > 0 && Length(line) + 1 + Length(words[0]) <= columns
        invariant 0 <= taken <= |start| - 1
        invariant words == start[taken + 1..]
        invariant line == Join(start[..taken + 1], ' ')
        invariant Take(start[0], start[1..], columns) == taken + Take(line, words, columns)
        decreases |words|
      {
        LineGrows(start, taken);
        line := line + " " + words[0];
        words := words[1..];
        taken := taken + 1;
      }
      LineDone(lines, start, taken, columns);
      lines := lines + [line];
    }
  }

  /** The inner loop's step: appending a space and the next word joins one more word. */
  lemma LineGrows(start: seq<string>, taken: nat)
    requires taken + 1 < |start|
    ensures Join(start[..taken + 2], ' ') == Join(start[..taken + 1], ' ') + " " + start[taken + 1]
  {
    JoinSnoc(start[..taken + 1], start[taken + 1], ' ');
    assert start[..taken + 2] == start[..taken + 1] + [start[taken + 1]];
  }

  /** The outer loop's step: a finished line is the first group, and the rest is still to come. */
  lemma LineDone(done: seq<string>, start: seq<string>, taken: nat, columns: int)
    requires taken < |start| && Take(start[0], start[1..], columns) == taken
    ensures done + [Join(start[..taken + 1], ' ')] + Lines(Groups(start[taken + 1..], columns)) ==
      done + Lines(Groups(start, columns))
  {
    var rest := Groups(start[taken + 1..], columns);
    var G := Groups(start, columns);
    assert G == [start[..taken + 1]] + rest;
    assert G != [] && G[0] == start[..taken + 1] && G[1..] == rest;
    assert Lines(G) == [Join(G[0], ' ')] + Lines(rest);
    assert done + [Join(G[0], ' ')] + Lines(rest) == done + ([Join(G[0], ' ')] + Lines(rest));
  }

  // ---------------------------------------------------------------------
  // What the lines promise

  /** The words of a list of groups, one group after the other. */
  function Flatten(groups: seq<seq<string>>): seq<string> {
    if groups == [] then [] else groups[0] + Flatten(groups[1..])
  }

  /** What one line takes: its length never passes `columns` unless it is a single word, and the
      word after it does not fit. */
  lemma {:induction false} TakeFits(line: string, rest: seq<string>, columns: int)
    ensures var n := Take(line, rest, columns);
      (n > 0 ==> Length(Join([line] + rest[..n], ' ')) <= columns) &&
      (n < |rest| ==> Length(Join([line] + rest[..n], ' ')) + 1 + Length(rest[n]) > columns)
    decreases |rest|
  {
    var n := Take(line, rest, columns);
    if n > 0 {
      var next := line + " " + rest[0];
      TakeFits(next, rest[1..], columns);
      TakeJoin(line, rest, n);
      if n == 1 {
        LengthAppend(line, " ");
        LengthAppend(line + " ", rest[0]);
        assert [next] + rest[1..][..0] == [next];
      }
      if n < |rest| {
        assert rest[1..][n - 1] == rest[n];
      }
    } else {
      assert [line] + rest[..0] == [line];
    }
  }

  /** Appending the first of `rest` to the line is joining one more word. */
  lemma TakeJoin(line: string, rest: seq<string>, n: nat)
    requires 1 <= n <= |rest|
    ensures Join([line] + rest[..n], ' ') == Join([line + " " + rest[0]] + rest[1..][..n - 1], ' ')
  {
    assert [line] + rest[..n] == [line, rest[0]] + rest[1..][..n - 1];
    var tail := rest[1..][..n - 1];
    JoinCons(line, [rest[0]] + tail, ' ');
    JoinCons(rest[0], tail, ' ');
    JoinCons(line + " " + rest[0], tail, ' ');
  }

  /** A text's first group starts with its first word. */
  lemma GroupsStart(words: seq<string>, columns: int)
    requires words != []
    ensures Groups(words, columns) != [] && Groups(words, columns)[0] != [] && Groups(words, columns)[0][0] == words[0]
  {
  }

  /** No word is dropped, split, reordered or repeated: the groups hold the words in order. */
  lemma {:induction false} GroupsFlatten(words: seq<string>, columns: int)
    ensures Flatten(Groups(words, columns)) == words
    decreases |words|
  {
    if words != [] {
      var n := Take(words[0], words[1..], columns);
      GroupsFlatten(words[n + 1..], columns);
      var G := Groups(words, columns);
      assert G[1..] == Groups(words[n + 1..], columns);
      assert words[..n + 1] + words[n + 1..] == words;
    }
  }

  /** Every line holds at least one word, and a line of two or more words fits in `columns`. */
  lemma {:induction false} GroupsFit(words: seq<string>, columns: int)
    ensures forall k :: 0 <= k < |Groups(words, columns)| ==>
      |Groups(words, columns)[k]| >= 1 &&
      (|Groups(words, columns)[k]| == 1 || Length(Join(Groups(words, columns)[k], ' ')) <= columns)
    decreases |words|
  {
    if words != [] {
      var n := Take(words[0], words[1..], columns);
      var G := Groups(words, columns);
      var R := Groups(words[n + 1..], columns);
      assert G == [words[..n + 1]] + R;
      GroupsFit(words[n + 1..], columns);
      FirstFits(words, columns);
      forall k | 1 <= k < |G| ensures G[k] == R[k - 1] {
      }
    }
  }

  /** The first line fits, or is one word. */
  lemma FirstFits(words: seq<string>, columns: int)
    requires words != []
    ensures var n := Take(words[0], words[1..], columns);
      n == 0 || Length(Join(words[..n + 1], ' ')) <= columns
  {
    var n := Take(words[0], words[1..], columns);
    TakeFits(words[0], words[1..], columns);
    assert words[..n + 1] == [words[0]] + words[1..][..n];
  }

  /** The greedy rule: the first word of each line would not have fitted on the line before. */
  lemma {:induction false} GroupsGreedy(words: seq<string>, columns: int)
    ensures forall k :: 1 <= k < |Groups(words, columns)| ==>
      |Groups(words, columns)[k]| >= 1 &&
      Length(Join(Groups(words, columns)[k - 1], ' ')) + 1 + Length(Groups(words, columns)[k][0]) > columns
    decreases |words|
  {
    if words != [] {
      var n := Take(words[0], words[1..], columns);
      var rest := words[n + 1..];
      var G := Groups(words, columns);
      var R := Groups(rest, columns);
      assert G == [words[..n + 1]] + R;
      GroupsGreedy(rest, columns);
      if rest != [] {
        GreedyFirst(words, columns);
      }
      forall k | 1 <= k < |G|
        ensures |G[k]| >= 1 && Length(Join(G[k - 1], ' ')) + 1 + Length(G[k][0]) > columns
      {
        if k > 1 {
          assert G[k] == R[k - 1] && G[k - 1] == R[k - 2];
        }
      }
    }
  }

  /** The greedy rule between the first two lines. */
  lemma GreedyFirst(words: seq<string>, columns: int)
    requires words != [] && Take(words[0], words[1..], columns) + 1 < |words|
    ensures var n := Take(words[0], words[1..], columns);
      var G := Groups(words, columns);
      |G| >= 2 && G[0] == words[..n + 1] && |G[1]| >= 1 && G[1][0] == words[n + 1] &&
      Length(Join(G[0], ' ')) + 1 + Length(G[1][0]) > columns
  {
    var n := Take(words[0], words[1..], columns);
    var rest := words[n + 1..];
    GroupsStart(rest, columns);
    TakeFits(words[0], words[1..], columns);
    assert words[..n + 1] == [words[0]] + words[1..][..n];
    assert words[1..][n] == rest[0];
  }

  /** Joining the lines with single spaces gives the words joined with single spaces. */
  lemma {:induction false} LinesJoin(groups: seq<seq<string>>)
    requires forall k :: 0 <= k < |groups| ==> |groups[k]| >= 1
    ensures Join(Lines(groups), ' ') == Join(Flatten(groups), ' ')
    decreases |groups|
  {
    if |groups| > 1 {
      var rest := groups[1..];
      LinesJoin(rest);
      assert Lines(groups) == [Join(groups[0], ' ')] + Lines(rest);
      JoinCons(Join(groups[0], ' '), Lines(rest), ' ');
      FlattenNonEmpty(rest);
      JoinAppend(groups[0], Flatten(rest), ' ');
    } else if |groups| == 1 {
      assert Flatten(groups) == groups[0] + [];
      assert groups[0] + [] == groups[0];
    }
  }

  /** Non-empty groups flatten to a non-empty list. */
  lemma FlattenNonEmpty(groups: seq<seq<string>>)
    requires |groups| >= 1 && |groups[0]| >= 1
    ensures |Flatten(groups)| >= 1
  {
  }

  /** Joining the yielded lines with single spaces gives back the text: the wrapping only chooses
      which spaces become line breaks. */
  lemma WrapRestoresText(text: string, columns: int)
    ensures Join(WrapText(text, columns), ' ') == text
  {
    var words := Split(text, ' ');
    GroupsFit(words, columns);
    LinesJoin(Groups(words, columns));
    GroupsFlatten(words, columns);
    JoinSplit(text, ' ');
  }

  /** A yielded line is longer than `columns` only when it is a single word, holding no space. */
  lemma WrapFits(text: string, columns: int, k: int)
    requires 0 <= k < |WrapText(text, columns)|
    ensures Length(WrapText(text, columns)[k]) <= columns || ' ' !in WrapText(text, columns)[k]
  {
    var words := Split(text, ' ');
    var G := Groups(words, columns);
    GroupsFit(words, columns);
    if |G[k]| == 1 {
      GroupsFlatten(words, columns);
      GroupWord(G, k, words);
    }
  }

  /** A group's words are words of the flattening. */
  lemma {:induction false} GroupWord(groups: seq<seq<string>>, k: int, words: seq<string>)
    requires 0 <= k < |groups| && |groups[k]| == 1 && Flatten(groups) == words
    requires forall i :: 0 <= i < |words| ==> ' ' !in words[i]
    ensures ' ' !in Join(groups[k], ' ')
    decreases |groups|
  {
    if k == 0 {
      assert groups[0][0] == words[0];
    } else {
      var rest := Flatten(groups[1..]);
      assert words == groups[0] + rest;
      forall i | 0 <= i < |rest| ensures ' ' !in rest[i] {
        assert rest[i] == words[|groups[0]| + i];
      }
      GroupWord(groups[1..], k - 1, rest);
    }
  }

  /** Each line but the last is as full as the greedy rule makes it: adding a space and the
      first word of the following line would pass `columns`. */
  lemma WrapGreedy(text: string, columns: int, k: int)
    requires 1 <= k < |WrapText(text, columns)|
    ensures var G := Groups(Split(text, ' '), columns);
      |G[k]| >= 1 && Length(WrapText(text, columns)[k - 1]) + 1 + Length(G[k][0]) > columns
  {
    GroupsGreedy(Split(text, ' '), columns);
  }

  // ---------------------------------------------------------------------
  // Which lines the loops yield

  /** A line that fits in `columns` whole, followed by a word that would not fit, is taken run by
      run: the inner loop takes exactly its words. */
  lemma {:induction false} TakeRun(line: string, more: seq<string>, rest: seq<string>, columns: int)
    requires Length(Join([line] + more, ' ')) <= columns
    requires rest == [] || Length(Join([line] + more, ' ')) + 1 + Length(rest[0]) > columns
    ensures Take(line, more + rest, columns) == |more|
    decreases |more|
  {
    if more == [] {
      assert [line] + more == [line];
      assert more + rest == rest;
    } else {
      var next := line + " " + more[0];
      TakeJoin(line, more, |more|);
      assert more[..|more|] == more && more[1..][..|more| - 1] == more[1..];
      JoinLonger(next, more[1..]);
      LengthAppend(line, " ");
      LengthAppend(line + " ", more[0]);
      assert (more + rest)[0] == more[0] && (more + rest)[1..] == more[1..] + rest;
      TakeRun(next, more[1..], rest, columns);
    }
  }

  /** A join is at least as long as its first piece. */
  lemma JoinLonger(p: string, parts: seq<string>)
    ensures Length(p) <= Length(Join([p] + parts, ' '))
  {
    JoinCons(p, parts, ' ');
    if parts != [] {
      LengthAppend(p, [' '] + Join(parts, ' '));
      assert p + [' '] + Join(parts, ' ') == p + ([' '] + Join(parts, ' '));
    }
  }

  /** When the inner loop takes exactly the rest of `group`, the group is the first line. */
  lemma GroupsRun(group: seq<string>, rest: seq<string>, columns: int)
    requires |group| >= 1
    requires Take(group[0], group[1..] + rest, columns) == |group| - 1
    ensures Groups(group + rest, columns) == [group] + Groups(rest, columns)
  {
    var words := group + rest;
    assert words[0] == group[0] && words[1..] == group[1..] + rest;
    assert words[..|group|] == group && words[|group|..] == rest;
  }

  /** The length of plain words joined by single spaces, counted in characters. */
  function Chars(words: seq<string>): nat
    requires |words| >= 1
    decreases |words|
  {
    if |words| == 1 then |words[0]| else |words[0]| + 1 + Chars(words[1..])
  }

  /** Joining plain words with single spaces measures their characters and the spaces. */
  lemma {:induction false} JoinLength(words: seq<string>)
    requires |words| >= 1 && forall k :: 0 <= k < |words| ==> Plain(words[k])
    ensures Length(Join(words, ' ')) == Chars(words)
    decreases |words|
  {
    LengthOfPlain(words[0]);
    if |words| > 1 {
      JoinLength(words[1..]);
      LengthAppend(words[0], [' ']);
      LengthAppend(words[0] + [' '], Join(words[1..], ' '));
    }
  }

  /** The converse of `GroupsFit` and `GroupsGreedy`: lines that each fit (or are one word) and
      are each as full as the greedy rule makes them are the lines the loops produce. */
  lemma {:induction false} GreedyIsGroups(lines: seq<seq<string>>, columns: int)
    requires forall k :: 0 <= k < |lines| ==> |lines[k]| >= 1
    requires forall k :: 0 <= k < |lines| ==> |lines[k]| == 1 || Length(Join(lines[k], ' ')) <= columns
    requires forall k :: 1 <= k < |lines| ==>
      Length(Join(lines[k - 1], ' ')) + 1 + Length(lines[k][0]) > columns
    ensures Groups(Flatten(lines), columns) == lines
    decreases |lines|
  {
    if lines != [] {
      var g := lines[0];
      var rest := Flatten(lines[1..]);
      FlattenFirst(lines);
      TakeLine(g, rest, columns);
      GroupsRun(g, rest, columns);
      GreedyTail(lines, columns);
      GreedyIsGroups(lines[1..], columns);
    }
  }

  /** The words after the first line start with the second line's first word. */
  lemma FlattenFirst(lines: seq<seq<string>>)
    requires lines != [] && forall k :: 0 <= k < |lines| ==> |lines[k]| >= 1
    ensures Flatten(lines) == lines[0] + Flatten(lines[1..])
    ensures |lines| == 1 ==> Flatten(lines[1..]) == []
    ensures |lines| > 1 ==> Flatten(lines[1..]) != [] && Flatten(lines[1..])[0] == lines[1][0]
  {
    if |lines| > 1 {
      assert lines[1..][0] == lines[1];
      FlattenNonEmpty(lines[1..]);
    }
  }

  /** The greedy rule holds on the lines after the first. */
  lemma GreedyTail(lines: seq<seq<string>>, columns: int)
    requires lines != [] && forall k :: 0 <= k < |lines| ==> |lines[k]| >= 1
    requires forall k :: 1 <= k < |lines| ==>
      Length(Join(lines[k - 1], ' ')) + 1 + Length(lines[k][0]) > columns
    ensures forall k :: 1 <= k < |lines[1..]| ==>
      Length(Join(lines[1..][k - 1], ' ')) + 1 + Length(lines[1..][k][0]) > columns
  {
    forall k | 1 <= k < |lines[1..]|
      ensures Length(Join(lines[1..][k - 1], ' ')) + 1 + Length(lines[1..][k][0]) > columns
    {
      assert lines[1..][k - 1] == lines[k] && lines[1..][k] == lines[k + 1];
    }
  }

  /** A line that fits (or is one word) and is followed by a word that would not fit is taken whole. */
  lemma TakeLine(g: seq<string>, rest: seq<string>, columns: int)
    requires |g| >= 1 && (|g| == 1 || Length(Join(g, ' ')) <= columns)
    requires rest == [] || Length(Join(g, ' ')) + 1 + Length(rest[0]) > columns
    ensures Take(g[0], g[1..] + rest, columns) == |g| - 1
  {
    assert [g[0]] + g[1..] == g;
    if Length(Join(g, ' ')) <= columns {
      TakeRun(g[0], g[1..], rest, columns);
    } else {
      assert g[1..] == [] && g[1..] + rest == rest;
    }
  }

  /** Lines of plain words, each fitting in `columns` unless it has one word, and each as full as
      the greedy rule makes it, with lengths counted in characters. */
  predicate PlainLayout(lines: seq<seq<string>>, columns: int) {
    (forall k :: 0 <= k < |lines| ==> |lines[k]| >= 1) &&
    (forall k, i :: 0 <= k < |lines| && 0 <= i < |lines[k]| ==> Plain(lines[k][i])) &&
    (forall k :: 0 <= k < |lines| ==> |lines[k]| == 1 || Chars(lines[k]) <= columns) &&
    (forall k :: 1 <= k < |lines| ==> Chars(lines[k - 1]) + 1 + |lines[k][0]| > columns)
  }

  /** `GreedyIsGroups` for lines of plain words. */
  lemma PlainGreedyIsGroups(lines: seq<seq<string>>, columns: int)
    requires PlainLayout(lines, columns)
    ensures Groups(Flatten(lines), columns) == lines
  {
    forall k | 0 <= k < |lines|
      ensures Length(Join(lines[k], ' ')) == Chars(lines[k]) && Length(lines[k][0]) == |lines[k][0]|
    {
      JoinLength(lines[k]);
      LengthOfPlain(lines[k][0]);
    }
    GreedyIsGroups(lines, columns);
  }

  /** Lines laid out by the greedy rule, read back as text. */
  lemma LayoutLines(words: seq<string>, lines: seq<seq<string>>, columns: int, text: seq<string>)
    requires Flatten(lines) == words && PlainLayout(lines, columns) && Lines(lines) == text
    ensures Lines(Groups(words, columns)) == text
  {
    PlainGreedyIsGroups(lines, columns);
  }

  /** The lines of two lists of groups, one after the other. */
  lemma LinesAppend(a: seq<seq<string>>, b: seq<seq<string>>)
    ensures Lines(a + b) == Lines(a) + Lines(b)
  {
    var l := Lines(a + b);
    assert forall k :: 0 <= k < |a| ==> (a + b)[k] == a[k];
    assert forall k :: 0 <= k < |b| ==> (a + b)[|a| + k] == b[k];
    assert l == Lines(a) + Lines(b);
  }

  // ---------------------------------------------------------------------
  // Examples

  /** A character outside the Basic Multilingual Plane takes two code units: "ab" and the emoji
      U+1F600 need five columns together, so at four columns they go on separate lines. */
  lemma AstralExample()
    ensures WrapText("ab \U{1F600}", 4) == ["ab", "\U{1F600}"]
  {
    var words := Split("ab \U{1F600}", ' ');
    AstralWords("ab \U{1F600}");
    AstralGroups(words);
    var G := Groups(words, 4);
    assert Lines(G) == [Join(G[0], ' '), Join(G[1], ' ')];
  }

  /** The example's text is two words. */
  lemma AstralWords(text: string)
    requires text == "ab \U{1F600}"
    ensures Split(text, ' ') == ["ab", "\U{1F600}"]
  {
    var emoji := "\U{1F600}";
    assert text == "ab" + [' '] + emoji;
    SplitLine("ab", emoji, ' ');
    assert Split(emoji[1..], ' ') == [[]] by {
      assert emoji[1..] == [];
    }
    assert [emoji[0]] + [] == emoji;
  }

  /** At four columns the two words do not share a line. */
  lemma AstralGroups(words: seq<string>)
    requires words == ["ab", "\U{1F600}"]
    ensures Groups(words, 4) == [["ab"], ["\U{1F600}"]]
  {
    var emoji := "\U{1F600}";
    assert Length(emoji) == 2 by {
      assert emoji[1..] == [];
    }
    assert Take("ab", [emoji], 4) == 0;
    assert Take(emoji, [], 4) == 0;
    assert words[1..] == [emoji] && words[..1] == ["ab"];
    assert Groups([emoji], 4) == [[emoji]] by {
      var one: seq<string> := [emoji];
      assert one[1..] == [] && one[..1] == one;
    }
  }

  /** The words of the documented text "The String global object is a constructor for strings,
      or a sequence of characters.", as splitting it at spaces gives them. */
  function DocumentedWords(): seq<string> {
    ["The", "String", "global", "object", "is", "a", "constructor", "for", "strings,", "or", "a",
     "sequence", "of", "characters."]
  }

  /** The documented lines at 26 columns, as words. */
  function Lines26(): seq<seq<string>> {
    [["The", "String", "global", "object"], ["is", "a", "constructor", "for"],
     ["strings,", "or", "a", "sequence", "of"], ["characters."]]
  }

  /** The documented lines at 12 columns, as words. */
  function Lines12(): seq<seq<string>> {
    [["The", "String"], ["global"], ["object", "is", "a"], ["constructor"], ["for", "strings,"],
     ["or", "a"], ["sequence", "of"], ["characters."]]
  }

  /** The first documented example: at 26 columns the loops yield "The String global object",
      "is a constructor for", "strings, or a sequence of" and "characters.". */
  lemma Wrap26Example(words: seq<string>)
    requires words == DocumentedWords()
    ensures Lines(Groups(words, 26)) ==
      ["The String global object", "is a constructor for", "strings, or a sequence of", "characters."]
  {
    var lines := Lines26();
    Flatten26(words, lines);
    Layout26(lines);
    Text26(lines);
    LayoutLines(words, lines, 26,
      ["The String global object", "is a constructor for", "strings, or a sequence of", "characters."]);
  }

  /** The documented words are those of the 26-column lines. */
  lemma Flatten26(words: seq<string>, lines: seq<seq<string>>)
    requires words == DocumentedWords() && lines == Lines26()
    ensures Flatten(lines) == words
  {
  }

  /** The 26-column lines are greedy and fit. */
  lemma Layout26(lines: seq<seq<string>>)
    requires lines == Lines26()
    ensures PlainLayout(lines, 26)
  {
    Layout26Words(lines);
    Layout26Fits(lines);
    Layout26Full(lines);
  }

  /** Every 26-column line has plain words. */
  lemma Layout26Words(lines: seq<seq<string>>)
    requires lines == Lines26()
    ensures forall k :: 0 <= k < |lines| ==> |lines[k]| >= 1
    ensures forall k, i :: 0 <= k < |lines| && 0 <= i < |lines[k]| ==> Plain(lines[k][i])
  {
  }

  /** Every 26-column line fits. */
  lemma Layout26Fits(lines: seq<seq<string>>)
    requires lines == Lines26()
    ensures forall k :: 0 <= k < |lines| ==> |lines[k]| == 1 || Chars(lines[k]) <= 26
  {
  }

  /** The next word never fits on a 26-column line. */
  lemma Layout26Full(lines: seq<seq<string>>)
    requires lines == Lines26()
    ensures forall k :: 1 <= k < |lines| ==> Chars(lines[k - 1]) + 1 + |lines[k][0]| > 26
  {
  }

  /** The 26-column lines as text. */
  lemma Text26(lines: seq<seq<string>>)
    requires lines == Lines26()
    ensures Lines(lines) ==
      ["The String global object", "is a constructor for", "strings, or a sequence of", "characters."]
  {
    Join26a();
    Join26b();
    Join26c();
    assert lines[3] == ["characters."];
  }

  /** Each multi-word line at 26 columns, joined. */
  lemma Join26a()
    ensures Join(["The", "String", "global", "object"], ' ') == "The String global object"
  {
  }

  lemma Join26b()
    ensures Join(["is", "a", "constructor", "for"], ' ') == "is a constructor for"
  {
  }

  lemma Join26c()
    ensures Join(["strings,", "or", "a", "sequence", "of"], ' ') == "strings, or a sequence of"
  {
  }

  /** The second documented example: at 12 columns the loops yield "The String", "global",
      "object is a", "constructor", "for strings,", "or a", "sequence of" and "characters.". */
  lemma Wrap12Example(words: seq<string>)
    requires words == DocumentedWords()
    ensures Lines(Groups(words, 12)) ==
      ["The String", "global", "object is a", "constructor"] +
      ["for strings,", "or a", "sequence of", "characters."]
  {
    Wrap12Halves(words, [["The", "String"], ["global"], ["object", "is", "a"], ["constructor"]],
      [["for", "strings,"], ["or", "a"], ["sequence", "of"], ["characters."]]);
  }

  /** The 12-column example, one half of the lines at a time. */
  lemma Wrap12Halves(words: seq<string>, upper: seq<seq<string>>, lower: seq<seq<string>>)
    requires words == DocumentedWords()
    requires upper == [["The", "String"], ["global"], ["object", "is", "a"], ["constructor"]]
    requires lower == [["for", "strings,"], ["or", "a"], ["sequence", "of"], ["characters."]]
    ensures Lines(Groups(words, 12)) ==
      ["The String", "global", "object is a", "constructor"] +
      ["for strings,", "or a", "sequence of", "characters."]
  {
    assert upper + lower == Lines12();
    Flatten12(words, upper + lower);
    Layout12(upper + lower);
    Text12Upper(upper);
    Text12Lower(lower);
    LinesAppend(upper, lower);
    LayoutLines(words, upper + lower, 12,
      ["The String", "global", "object is a", "constructor"] +
      ["for strings,", "or a", "sequence of", "characters."]);
  }

  /** The documented words are those of the 12-column lines. */
  lemma Flatten12(words: seq<string>, lines: seq<seq<string>>)
    requires words == DocumentedWords() && lines == Lines12()
    ensures Flatten(lines) == words
  {
  }

  /** The 12-column lines are greedy and fit. */
  lemma Layout12(lines: seq<seq<string>>)
    requires lines == Lines12()
    ensures PlainLayout(lines, 12)
  {
    Layout12Words(lines);
    Layout12Fits(lines);
    Layout12Full(lines);
  }

  /** Every 12-column line has plain words. */
  lemma Layout12Words(lines: seq<seq<string>>)
    requires lines == Lines12()
    ensures forall k :: 0 <= k < |lines| ==> |lines[k]| >= 1
    ensures forall k, i :: 0 <= k < |lines| && 0 <= i < |lines[k]| ==> Plain(lines[k][i])
  {
  }

  /** Every 12-column line fits. */
  lemma Layout12Fits(lines: seq<seq<string>>)
    requires lines == Lines12()
    ensures forall k :: 0 <= k < |lines| ==> |lines[k]| == 1 || Chars(lines[k]) <= 12
  {
  }

  /** The next word never fits on a 12-column line. */
  lemma Layout12Full(lines: seq<seq<string>>)
    requires lines == Lines12()
    ensures forall k :: 1 <= k < |lines| ==> Chars(lines[k - 1]) + 1 + |lines[k][0]| > 12
  {
  }

  /** The first four 12-column lines as text. */
  lemma Text12Upper(lines: seq<seq<string>>)
    requires lines == [["The", "String"], ["global"], ["object", "is", "a"], ["constructor"]]
    ensures Lines(lines) == ["The String", "global", "object is a", "constructor"]
  {
    Join12();
    assert lines[1] == ["global"] && lines[3] == ["constructor"];
  }

  /** The last four 12-column lines as text. */
  lemma Text12Lower(lines: seq<seq<string>>)
    requires lines == [["for", "strings,"], ["or", "a"], ["sequence", "of"], ["characters."]]
    ensures Lines(lines) == ["for strings,", "or a", "sequence of", "characters."]
  {
    Join12();
    assert lines[3] == ["characters."];
  }

  /** Each multi-word line at 12 columns, joined. */
  lemma Join12()
    ensures Join(["The", "String"], ' ') == "The String"
    ensures Join(["object", "is", "a"], ' ') == "object is a"
    ensures Join(["for", "strings,"], ' ') == "for strings,"
    ensures Join(["or", "a"], ' ') == "or a"
    ensures Join(["sequence", "of"], ' ') == "sequence of"
  {
  }
}
