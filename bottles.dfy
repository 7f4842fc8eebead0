/**
 * `get99BottlesOfBeer`: the lines of the song "99 Bottles of Beer". A counter runs down from 99;
 * while it is above 2 each value gives a templated pair of lines, and the last six lines, with
 * their singular and "no more" wording, are written out. The generator's yields are modelled as
 * the sequence of lines it yields.
 */
module Bottles {
  import opened Text

  /** The first line of the pair for `n` bottles. */
  function Verse(n: nat): string {
    NatToString(n) + " bottles of beer on the wall, " + NatToString(n) + " bottles of beer."
  }

  /** The second line of the pair for `n` bottles: one fewer is left. */
  function TakeOne(n: nat): string
    requires n >= 1
  {
    "Take one down and pass it around, " + NatToString(n - 1) + " bottles of beer on the wall."
  }

  /** The six lines after the loop, from two bottles down to none and the store. */
  const Ending: seq<string> := [
    "2 bottles of beer on the wall, 2 bottles of beer.",
    "Take one down and pass it around, 1 bottle of beer on the wall.",
    "1 bottle of beer on the wall, 1 bottle of beer.",
    "Take one down and pass it around, no more bottles of beer on the wall.",
    "No more bottles of beer on the wall, no more bottles of beer.",
    "Go to the store and buy some more, 99 bottles of beer on the wall."
  ]

  /** The pairs the loop yields from `n` bottles down to three. */
  function Verses(n: nat): (lines: seq<string>)
    ensures |lines| == if n > 2 then 2 * (n - 2) else 0
    decreases n
  {
    if n > 2 then [Verse(n), TakeOne(n)] + Verses(n - 1) else []
  }

  /** Everything `get99BottlesOfBeer()` yields, in order. */
  function Song(): (lines: seq<string>)
    ensures |lines| == 200
  {
    Verses(99) + Ending
  }

  /** The generator: the counting-down loop, then the six fixed lines. */
  method Get99BottlesOfBeer() returns (lines: seq<string>)
    ensures lines == Song()
  {
    var bottles := 99;
    lines := [];
    while bottles > 2
      invariant 2 <= bottles <= 99
      invariant lines + Verses(bottles) == Verses(99)
      decreases bottles
    {
      YieldPair(lines, bottles);
      lines := lines + [Verse(bottles), TakeOne(bottles)];
      bottles := bottles - 1;
    }
    EndingPairs(lines);
    lines := lines + [Ending[0], Ending[1]];
    lines := lines + [Ending[2], Ending[3]];
    lines := lines + [Ending[4], Ending[5]];
  }

  /** Yielding the pair for `bottles` keeps the loop's invariant. */
  lemma YieldPair(lines: seq<string>, bottles: nat)
    requires bottles > 2 && lines + Verses(bottles) == Verses(99)
    ensures (lines + [Verse(bottles), TakeOne(bottles)]) + Verses(bottles - 1) == Verses(99)
  {
    var pair := [Verse(bottles), TakeOne(bottles)];
    assert Verses(bottles) == pair + Verses(bottles - 1);
    assert lines + (pair + Verses(bottles - 1)) == (lines + pair) + Verses(bottles - 1);
  }

  /** The six fixed lines, yielded two at a time after the loop's pairs, complete the song. */
  lemma EndingPairs(lines: seq<string>)
    ensures lines + [Ending[0], Ending[1]] + [Ending[2], Ending[3]] + [Ending[4], Ending[5]] == lines + Ending
  {
    assert [Ending[0], Ending[1]] + [Ending[2], Ending[3]] + [Ending[4], Ending[5]] == Ending;
  }

  // ---------------------------------------------------------------------
  // What the song is

  /** The loop's pairs: the pair for `m` bottles sits at positions `2 (n - m)` and `2 (n - m) + 1`. */
  lemma {:induction false} VersesAt(n: nat, m: nat)
    requires 2 < m <= n
    ensures Verses(n)[2 * (n - m)] == Verse(m) && Verses(n)[2 * (n - m) + 1] == TakeOne(m)
    decreases n
  {
    if m < n {
      VersesAt(n - 1, m);
      var pair := [Verse(n), TakeOne(n)];
      assert Verses(n) == pair + Verses(n - 1);
      assert 2 * (n - m) == |pair| + 2 * (n - 1 - m);
    }
  }

  /** Each count from 99 down to 3 has its templated pair, in descending order. */
  lemma SongVerses(n: nat)
    requires 3 <= n <= 99
    ensures Song()[2 * (99 - n)] == Verse(n)
    ensures Song()[2 * (99 - n) + 1] == TakeOne(n)
  {
    VersesAt(99, n);
  }

  /** The last six lines are the fixed ones. */
  lemma SongEnding()
    ensures Song()[194..] == Ending
  {
    assert |Verses(99)| == 194;
  }

  /** The song opens with the pair for 99 bottles, written "99", and closes with going to the store. */
  lemma SongFirstAndLast()
    ensures Song()[0] == "99" + " bottles of beer on the wall, " + "99" + " bottles of beer."
    ensures Song()[199] == "Go to the store and buy some more, 99 bottles of beer on the wall."
  {
    SongVerses(99);
    SongEnding();
    assert Song()[199] == Song()[194..][5];
    assert NatToString(99) == "99";
  }

  /** Each second line leaves as many bottles as the next first line starts with. */
  lemma SongCountsDown(n: nat)
    requires 4 <= n <= 99
    ensures Song()[2 * (99 - n) + 1] == "Take one down and pass it around, " + NatToString(n - 1) + " bottles of beer on the wall."
    ensures Song()[2 * (99 - n) + 2] == Verse(n - 1)
  {
    SongVerses(n);
    SongVerses(n - 1);
    assert 2 * (99 - (n - 1)) == 2 * (99 - n) + 2;
  }
}
