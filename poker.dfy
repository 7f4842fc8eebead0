/**
 * `getPokerHandRank`: the rank of a five-card poker hand. A card is a string whose first
 * character is its rank (`'1'` for a ten) and whose last character is its suit. The helper
 * `getRand` tallies the distinct ranks with their counts and the distinct suits, sorts the
 * distinct ranks by their position in `"A234567891JQKA"` and moves a leading ace to the end
 * unless a two follows it. The rank is the first test that holds, from straight flush (8)
 * down to high card (0).
 */
module Poker {

  /** `PokerRank`: the nine ranks of a hand. */
  const StraightFlush: nat := 8
  const FourOfKind: nat := 7
  const FullHouse: nat := 6
  const Flush: nat := 5
  const Straight: nat := 4
  const ThreeOfKind: nat := 3
  const TwoPairs: nat := 2
  const OnePair: nat := 1
  const HighCard: nat := 0

  /** The order of ranks `getRand` sorts by; the ace appears at both ends. */
  const Ranks: string := "A234567891JQKA"

  /** A card is a rank followed by a suit. */
  predicate IsCard(card: string) { |card| >= 1 }

  predicate IsHand(hand: seq<string>) { forall i :: 0 <= i < |hand| ==> IsCard(hand[i]) }

  /** `v[0]`: the rank character of a card. */
  function RankOf(card: string): char
    requires IsCard(card)
  {
    card[0]
  }

  /** `v.slice(-1)`: the suit character of a card. */
  function SuitOf(card: string): char
    requires IsCard(card)
  {
    card[|card| - 1]
  }

  // ---------------------------------------------------------------------
  // String and array searches

  /** `s.indexOf(c)`: the first position of `c`, or -1. */
  function IndexOf(s: seq<char>, c: char): (r: int)
    ensures -1 <= r < |s|
    ensures r >= 0 ==> s[r] == c && forall j :: 0 <= j < r ==> s[j] != c
    ensures r < 0 <==> c !in s
    decreases |s|
  {
    if s == [] then -1
    else if s[0] == c then 0
    else
      var r := IndexOf(s[1..], c);
      if r < 0 then -1 else r + 1
  }

  /** `s.lastIndexOf(c)`: the last position of `c`, or -1. */
  function LastIndexOf(s: seq<char>, c: char): (r: int)
    ensures -1 <= r < |s|
    ensures r >= 0 ==> s[r] == c && forall j :: r < j < |s| ==> s[j] != c
    ensures r < 0 <==> c !in s
    decreases |s|
  {
    if s == [] then -1
    else if s[|s| - 1] == c then |s| - 1
    else LastIndexOf(s[..|s| - 1], c)
  }

  /** The sort key of a rank, `RANKS.indexOf(c)`: its first position in `Ranks`, -1 for a character
      that is not a rank. */
  function Key(c: char): int {
    match c
    case 'A' => 0 case '2' => 1 case '3' => 2 case '4' => 3 case '5' => 4 case '6' => 5
    case '7' => 6 case '8' => 7 case '9' => 8 case '1' => 9 case 'J' => 10 case 'Q' => 11
    case 'K' => 12
    case _ => -1
  }

  /** `RANKS.lastIndexOf(c)`: the ace also sits at the high end. */
  function LastKey(c: char): int {
    if c == 'A' then 13 else Key(c)
  }

  /** `Key` and `LastKey` are the first and last positions in `Ranks`. */
  lemma KeyIsIndexOf(c: char)
    ensures Key(c) == IndexOf(Ranks, c) && LastKey(c) == LastIndexOf(Ranks, c)
  {
    KeyIn(Ranks, c);
  }

  /** The letters of `Ranks`, one by one. */
  predicate SpellsRanks(s: string) {
    |s| == 14 && s[0] == 'A' && s[1] == '2' && s[2] == '3' && s[3] == '4' && s[4] == '5'
    && s[5] == '6' && s[6] == '7' && s[7] == '8' && s[8] == '9' && s[9] == '1'
    && s[10] == 'J' && s[11] == 'Q' && s[12] == 'K' && s[13] == 'A'
  }

  lemma KeyIn(s: string, c: char)
    requires SpellsRanks(s)
    ensures Key(c) == IndexOf(s, c) && LastKey(c) == LastIndexOf(s, c)
  {
    if Key(c) < 0 {
      assert c !in s by {
        forall j | 0 <= j < |s| ensures s[j] != c {}
      }
    } else {
      IndexOfAt(s, c, Key(c));
      LastIndexOfAt(s, c, LastKey(c));
    }
  }

  lemma IndexOfAt(s: seq<char>, c: char, i: int)
    requires 0 <= i < |s| && s[i] == c && forall j :: 0 <= j < i ==> s[j] != c
    ensures IndexOf(s, c) == i
  {
  }

  lemma LastIndexOfAt(s: seq<char>, c: char, i: int)
    requires 0 <= i < |s| && s[i] == c && forall j :: i < j < |s| ==> s[j] != c
    ensures LastIndexOf(s, c) == i
  {
  }

  // ---------------------------------------------------------------------
  // `getRand`: the tally loop

  /** The arrays the loop of `getRand` builds: distinct ranks in order of appearance, how many cards
      have each, and the distinct suits in order of appearance. */
  datatype Tally = Tally(values: seq<char>, count: seq<nat>, fits: seq<char>)

  /** One iteration of the loop over the hand. */
  function AddCard(t: Tally, card: string): (u: Tally)
    requires IsCard(card) && |t.count| == |t.values|
    ensures |u.count| == |u.values|
  {
    var r := RankOf(card);
    var k := IndexOf(t.values, r);
    var t1 := if k < 0 then t.(values := t.values + [r], count := t.count + [1])
              else t.(count := t.count[k := t.count[k] + 1]);
    var s := SuitOf(card);
    if IndexOf(t1.fits, s) < 0 then t1.(fits := t1.fits + [s]) else t1
  }

  /** The tally of the cards `hand`, taken in order. */
  function TallyOf(hand: seq<string>): (t: Tally)
    requires IsHand(hand)
    ensures |t.count| == |t.values|
  {
    if hand == [] then Tally([], [], [])
    else AddCard(TallyOf(hand[..|hand| - 1]), hand[|hand| - 1])
  }

  /** `values.sort((a, b) => RANKS.indexOf(a) - RANKS.indexOf(b))`, as a stable insertion sort:
      each rank goes after every earlier-placed rank whose key is not greater. */
  function SortByRank(xs: seq<char>): (r: seq<char>)
    ensures |r| == |xs|
    decreases |xs|
  {
    if xs == [] then []
    else Insert(SortByRank(xs[..|xs| - 1]), xs[|xs| - 1])
  }

  predicate SortedByKey(s: seq<char>) {
    forall i, j :: 0 <= i < j < |s| ==> Key(s[i]) <= Key(s[j])
  }

  /** Puts `x` into `s` after the last element whose key is not greater than its own. */
  function Insert(s: seq<char>, x: char): (r: seq<char>)
    ensures |r| == |s| + 1
    decreases |s|
  {
    if s == [] then [x]
    else if Key(x) < Key(s[|s| - 1]) then Insert(s[..|s| - 1], x) + [s[|s| - 1]]
    else s + [x]
  }

  /** Inserting keeps the elements and adds `x`. */
  lemma {:induction false} InsertPermutes(s: seq<char>, x: char)
    ensures multiset(Insert(s, x)) == multiset(s) + multiset{x}
    decreases |s|
  {
    if s != [] {
      var init, last := s[..|s| - 1], s[|s| - 1];
      assert s == init + [last];
      if Key(x) < Key(last) {
        InsertPermutes(init, x);
      }
    }
  }

  /** Inserting into a sequence sorted by key keeps it sorted. */
  lemma {:induction false} InsertKeepsSorted(s: seq<char>, x: char)
    requires SortedByKey(s)
    ensures SortedByKey(Insert(s, x))
    decreases |s|
  {
    if s != [] {
      var init, last := s[..|s| - 1], s[|s| - 1];
      if Key(x) < Key(last) {
        assert SortedByKey(init);
        InsertKeepsSorted(init, x);
        InsertPermutes(init, x);
        KeysBounded(Insert(init, x), init, x, Key(last));
        SnocSorted(Insert(init, x), last);
      } else {
        SnocSorted(s, x);
      }
    }
  }

  /** Every key of `r` is at most `b` when `r` holds the elements of `s` and `x`, all of keys at
      most `b`. */
  lemma KeysBounded(r: seq<char>, s: seq<char>, x: char, b: int)
    requires multiset(r) == multiset(s) + multiset{x}
    requires forall k :: 0 <= k < |s| ==> Key(s[k]) <= b
    requires Key(x) <= b
    ensures forall i :: 0 <= i < |r| ==> Key(r[i]) <= b
  {
    forall i | 0 <= i < |r| ensures Key(r[i]) <= b {
      assert r[i] in multiset(r);
      if r[i] != x {
        assert r[i] in multiset(s);
        var k :| 0 <= k < |s| && s[k] == r[i];
      }
    }
  }

  /** A sorted sequence stays sorted when an element of key at least all of its keys is added. */
  lemma SnocSorted(s: seq<char>, x: char)
    requires SortedByKey(s)
    requires forall i :: 0 <= i < |s| ==> Key(s[i]) <= Key(x)
    ensures SortedByKey(s + [x])
  {
  }

  /** `SortByRank` keeps the ranks and orders them by key. */
  lemma {:induction false} SortByRankSorts(xs: seq<char>)
    ensures multiset(SortByRank(xs)) == multiset(xs)
    ensures SortedByKey(SortByRank(xs))
    decreases |xs|
  {
    if xs != [] {
      var init := xs[..|xs| - 1];
      SortByRankSorts(init);
      InsertPermutes(SortByRank(init), xs[|xs| - 1]);
      InsertKeepsSorted(SortByRank(init), xs[|xs| - 1]);
      assert xs == init + [xs[|xs| - 1]];
    }
  }

  /** Lines 165-169: a leading ace becomes high unless a two follows it. */
  function AceHigh(sorted: seq<char>): (r: seq<char>)
    ensures |r| == |sorted|
  {
    if |sorted| >= 1 && sorted[0] == 'A' && (|sorted| < 2 || sorted[1] != '2') then
      sorted[1..] + ['A']
    else sorted
  }

  /** The ace move keeps the ranks; a moved ace ends up last with the other ranks in their order,
      and otherwise nothing moves. */
  lemma AceHighMoves(sorted: seq<char>)
    ensures multiset(AceHigh(sorted)) == multiset(sorted)
    ensures |sorted| >= 1 && sorted[0] == 'A' && (|sorted| < 2 || sorted[1] != '2') ==>
      AceHigh(sorted)[|sorted| - 1] == 'A' &&
      forall i :: 0 <= i < |sorted| - 1 ==> AceHigh(sorted)[i] == sorted[i + 1]
    ensures !(|sorted| >= 1 && sorted[0] == 'A' && (|sorted| < 2 || sorted[1] != '2')) ==>
      AceHigh(sorted) == sorted
  {
    if |sorted| >= 1 {
      assert sorted == [sorted[0]] + sorted[1..];
    }
  }

  /** The state `getRand` leaves behind for its three tests. */
  datatype HandStats = HandStats(count: seq<nat>, fits: seq<char>, sorted: seq<char>)

  function Stats(hand: seq<string>): HandStats
    requires IsHand(hand)
  {
    var t := TallyOf(hand);
    HandStats(t.count, t.fits, AceHigh(SortByRank(t.values)))
  }

  /** The constructor `getRand`: the loop over the cards, then the sort and the ace move. */
  method GetRand(hand: seq<string>) returns (stats: HandStats)
    requires IsHand(hand)
    ensures stats == Stats(hand)
  {
    var values: seq<char> := [];
    var count: seq<nat> := [];
    var fits: seq<char> := [];
    var i := 0;
    while i < |hand|
      invariant 0 <= i <= |hand|
      invariant Tally(values, count, fits) == TallyOf(hand[..i])
    {
      assert hand[..i + 1][..i] == hand[..i];
      var v := hand[i];
      var k := IndexOf(values, v[0]);
      if k < 0 {
        values := values + [v[0]];
        count := count + [1];
      } else {
        count := count[k := count[k] + 1];
      }
      if IndexOf(fits, v[|v| - 1]) < 0 {
        fits := fits + [v[|v| - 1]];
      }
      i := i + 1;
    }
    assert hand[..|hand|] == hand;
    var sorted := AceHigh(SortByRank(values));
    stats := HandStats(count, fits, sorted);
  }

  // ---------------------------------------------------------------------
  // The three tests

  /** How many entries of `count` equal `cnt`. */
  function CountOf(count: seq<nat>, cnt: nat): (n: nat)
    ensures n <= |count|
    ensures n > 0 <==> exists k :: 0 <= k < |count| && count[k] == cnt
  {
    if count == [] then 0
    else
      CountOf(count[..|count| - 1], cnt) + (if count[|count| - 1] == cnt then 1 else 0)
  }

  /** A count that occurs at exactly one position is counted once. */
  lemma {:induction false} CountOfOne(count: seq<nat>, k: int, cnt: nat)
    requires 0 <= k < |count| && count[k] == cnt
    requires forall j :: 0 <= j < |count| && j != k ==> count[j] != cnt
    ensures CountOf(count, cnt) == 1
    decreases |count|
  {
    var init := count[..|count| - 1];
    if k == |count| - 1 {
      assert forall j :: 0 <= j < |init| ==> init[j] == count[j];
    } else {
      CountOfOne(init, k, cnt);
    }
  }

  /** `getCount(cnt)`: the loop counting the ranks that occur `cnt` times. */
  method GetCount(stats: HandStats, cnt: nat) returns (result: nat)
    ensures result == CountOf(stats.count, cnt)
  {
    result := 0;
    var i := 0;
    while i < |stats.count|
      invariant 0 <= i <= |stats.count|
      invariant result == CountOf(stats.count[..i], cnt)
    {
      assert stats.count[..i + 1][..i] == stats.count[..i];
      if stats.count[i] == cnt {
        result := result + 1;
      }
      i := i + 1;
    }
    assert stats.count[..i] == stats.count;
  }

  /** `isFlush()`: one suit only. */
  predicate IsFlush(stats: HandStats) {
    |stats.fits| == 1
  }

  /** Neighbouring ranks `prev`, `next` of the sorted ranks follow on in `Ranks`: the position after
      `prev`'s first one is `next`'s first or last position (an ace counts low or high). */
  predicate Follows(prev: char, next: char) {
    Key(prev) + 1 == Key(next) || Key(prev) + 1 == LastKey(next)
  }

  /** The first five sorted ranks follow on from one to the next. */
  predicate IsStraight(stats: HandStats) {
    |stats.sorted| >= 5 && forall i :: 1 <= i < 5 ==> Follows(stats.sorted[i - 1], stats.sorted[i])
  }

  /** `isStraight()`: the loop over the first five sorted ranks, with its early returns. */
  method CheckStraight(stats: HandStats) returns (r: bool)
    ensures r == IsStraight(stats)
  {
    if |stats.sorted| < 5 {
      return false;
    }
    var i := 1;
    while i < 5
      invariant 1 <= i <= 5
      invariant forall j :: 1 <= j < i ==> Follows(stats.sorted[j - 1], stats.sorted[j])
    {
      var prev := Key(stats.sorted[i - 1]);
      if prev + 1 != Key(stats.sorted[i]) && prev + 1 != LastKey(stats.sorted[i]) {
        return false;
      }
      i := i + 1;
    }
    return true;
  }

  // ---------------------------------------------------------------------
  // What the tally means

  /** How many cards of `hand` have rank `r`. */
  function Occurrences(hand: seq<string>, r: char): nat
    requires IsHand(hand)
  {
    if hand == [] then 0
    else Occurrences(hand[..|hand| - 1], r) + (if RankOf(hand[|hand| - 1]) == r then 1 else 0)
  }

  predicate Distinct(s: seq<char>) {
    forall i, j :: 0 <= i < j < |s| ==> s[i] != s[j]
  }

  /** Some card of `hand` has rank `r`. */
  predicate HasRank(hand: seq<string>, r: char)
    requires IsHand(hand)
  {
    exists i :: 0 <= i < |hand| && RankOf(hand[i]) == r
  }

  /** Some card of `hand` has suit `s`. */
  predicate HasSuit(hand: seq<string>, s: char)
    requires IsHand(hand)
  {
    exists i :: 0 <= i < |hand| && SuitOf(hand[i]) == s
  }

  /** A rank occurs in the hand exactly when some card has it. */
  lemma {:induction false} OccurrencesIff(hand: seq<string>, r: char)
    requires IsHand(hand)
    ensures Occurrences(hand, r) > 0 <==> HasRank(hand, r)
    decreases |hand|
  {
    if hand != [] {
      var init := hand[..|hand| - 1];
      OccurrencesIff(init, r);
      if HasRank(init, r) {
        var i :| 0 <= i < |init| && RankOf(init[i]) == r;
        assert hand[i] == init[i];
      }
      if HasRank(hand, r) && RankOf(hand[|hand| - 1]) != r {
        var i :| 0 <= i < |hand| && RankOf(hand[i]) == r;
        assert init[i] == hand[i];
      }
    }
  }

  /** The loop's arrays hold each rank of the hand once, with the number of cards of that rank,
      and each suit of the hand once. */
  lemma TallyCounts(hand: seq<string>)
    requires IsHand(hand)
    ensures var t := TallyOf(hand);
      Distinct(t.values) && Distinct(t.fits) &&
      (forall k :: 0 <= k < |t.values| ==> t.count[k] == Occurrences(hand, t.values[k])) &&
      (forall r :: r in t.values <==> HasRank(hand, r)) &&
      (forall s :: s in t.fits <==> HasSuit(hand, s))
  {
    TallyValues(hand);
    TallyRanks(hand);
    TallySuits(hand);
  }

  /** The tally's counts are the numbers of cards of its distinct ranks. */
  predicate CountsHand(t: Tally, hand: seq<string>)
    requires IsHand(hand)
  {
    |t.count| == |t.values| && Distinct(t.values) &&
    forall k :: 0 <= k < |t.values| ==> t.count[k] == Occurrences(hand, t.values[k])
  }

  lemma {:induction false} TallyValues(hand: seq<string>)
    requires IsHand(hand)
    ensures CountsHand(TallyOf(hand), hand)
    decreases |hand|
  {
    if hand != [] {
      var init, card := hand[..|hand| - 1], hand[|hand| - 1];
      TallyValues(init);
      TallyRanks(init);
      assert hand == init + [card];
      CountsStep(TallyOf(init), init, card);
    }
  }

  /** One card keeps the counts right: a new rank gets a count of one, a known one goes up. */
  lemma CountsStep(t: Tally, init: seq<string>, card: string)
    requires IsHand(init) && IsCard(card) && CountsHand(t, init)
    requires forall x :: x in t.values <==> HasRank(init, x)
    ensures IsHand(init + [card]) && CountsHand(AddCard(t, card), init + [card])
  {
    var hand := init + [card];
    assert hand[..|hand| - 1] == init;
    var u := AddCard(t, card);
    var r := RankOf(card);
    var idx := IndexOf(t.values, r);
    forall k | 0 <= k < |u.values| ensures u.count[k] == Occurrences(hand, u.values[k]) {
      if k < |t.values| {
        assert u.values[k] == t.values[k];
        if k != idx {
          assert t.values[k] != r;
        }
      } else {
        OccurrencesIff(init, r);
      }
    }
  }

  lemma {:induction false} TallyRanks(hand: seq<string>)
    requires IsHand(hand)
    ensures forall r :: r in TallyOf(hand).values <==> HasRank(hand, r)
    decreases |hand|
  {
    if hand != [] {
      var init, card := hand[..|hand| - 1], hand[|hand| - 1];
      TallyRanks(init);
      forall x ensures HasRank(hand, x) <==> HasRank(init, x) || x == RankOf(card) {
        if HasRank(hand, x) {
          var i :| 0 <= i < |hand| && RankOf(hand[i]) == x;
          if i < |init| {
            assert init[i] == hand[i];
          }
        }
        if HasRank(init, x) {
          var i :| 0 <= i < |init| && RankOf(init[i]) == x;
          assert hand[i] == init[i];
        }
        if x == RankOf(card) {
          assert RankOf(hand[|hand| - 1]) == x;
        }
      }
    }
  }

  lemma {:induction false} TallySuits(hand: seq<string>)
    requires IsHand(hand)
    ensures Distinct(TallyOf(hand).fits)
    ensures forall s :: s in TallyOf(hand).fits <==> HasSuit(hand, s)
    decreases |hand|
  {
    if hand != [] {
      var init, card := hand[..|hand| - 1], hand[|hand| - 1];
      TallySuits(init);
      forall x ensures HasSuit(hand, x) <==> HasSuit(init, x) || x == SuitOf(card) {
        if HasSuit(hand, x) {
          var i :| 0 <= i < |hand| && SuitOf(hand[i]) == x;
          if i < |init| {
            assert init[i] == hand[i];
          }
        }
        if HasSuit(init, x) {
          var i :| 0 <= i < |init| && SuitOf(init[i]) == x;
          assert hand[i] == init[i];
        }
        if x == SuitOf(card) {
          assert SuitOf(hand[|hand| - 1]) == x;
        }
      }
    }
  }

  /** The tally never has more ranks than cards; as many only when every rank has one card. */
  lemma {:induction false} TallyAllNew(hand: seq<string>)
    requires IsHand(hand)
    ensures |TallyOf(hand).values| <= |hand|
    ensures |TallyOf(hand).values| == |hand| ==>
      forall k :: 0 <= k < |TallyOf(hand).count| ==> TallyOf(hand).count[k] == 1
    decreases |hand|
  {
    if hand != [] {
      var init := hand[..|hand| - 1];
      TallyAllNew(init);
    }
  }

  /** The sorted ranks are the tally's ranks, reordered. */
  lemma StatsSorted(hand: seq<string>)
    requires IsHand(hand)
    ensures multiset(Stats(hand).sorted) == multiset(TallyOf(hand).values)
    ensures |Stats(hand).sorted| == |TallyOf(hand).values|
  {
    SortByRankSorts(TallyOf(hand).values);
    AceHighMoves(SortByRank(TallyOf(hand).values));
  }

  /** `isFlush()` holds exactly when the hand has cards and all of them have one suit. */
  lemma FlushIff(hand: seq<string>)
    requires IsHand(hand)
    ensures IsFlush(Stats(hand)) <==>
      |hand| >= 1 && forall i :: 0 <= i < |hand| ==> SuitOf(hand[i]) == SuitOf(hand[0])
  {
    assert Stats(hand).fits == TallyOf(hand).fits;
    if |TallyOf(hand).fits| == 1 {
      SuitsAgree(hand);
    }
    if |hand| >= 1 && forall i :: 0 <= i < |hand| ==> SuitOf(hand[i]) == SuitOf(hand[0]) {
      OneSuit(hand, SuitOf(hand[0]));
    }
  }

  /** A hand whose suits array holds one suit has cards, all of that suit. */
  lemma SuitsAgree(hand: seq<string>)
    requires IsHand(hand) && |TallyOf(hand).fits| == 1
    ensures |hand| >= 1 && forall i :: 0 <= i < |hand| ==> SuitOf(hand[i]) == SuitOf(hand[0])
  {
    TallySuits(hand);
    var fits := TallyOf(hand).fits;
    assert HasSuit(hand, fits[0]);
    forall i | 0 <= i < |hand| ensures SuitOf(hand[i]) == SuitOf(hand[0]) {
      assert HasSuit(hand, SuitOf(hand[i]));
      assert HasSuit(hand, SuitOf(hand[0]));
    }
  }

  /** A hand of one suit leaves that suit alone in the suits array. */
  lemma {:induction false} OneSuit(hand: seq<string>, s: char)
    requires IsHand(hand) && |hand| >= 1
    requires forall i :: 0 <= i < |hand| ==> SuitOf(hand[i]) == s
    ensures TallyOf(hand).fits == [s]
    decreases |hand|
  {
    var init := hand[..|hand| - 1];
    if init != [] {
      OneSuit(init, s);
    }
  }

  /** `getCount(n)` is non-zero exactly when some rank of the hand has `n` cards. */
  lemma CountDetects(hand: seq<string>, n: nat)
    requires IsHand(hand)
    ensures CountOf(Stats(hand).count, n) > 0 <==>
      exists i :: 0 <= i < |hand| && Occurrences(hand, RankOf(hand[i])) == n
  {
    TallyCounts(hand);
    var t := TallyOf(hand);
    if CountOf(t.count, n) > 0 {
      var k :| 0 <= k < |t.count| && t.count[k] == n;
      assert t.values[k] in t.values;
      var i :| 0 <= i < |hand| && RankOf(hand[i]) == t.values[k];
      assert Occurrences(hand, RankOf(hand[i])) == n;
    }
    if exists i :: 0 <= i < |hand| && Occurrences(hand, RankOf(hand[i])) == n {
      var i :| 0 <= i < |hand| && Occurrences(hand, RankOf(hand[i])) == n;
      assert HasRank(hand, RankOf(hand[i]));
      var k :| 0 <= k < |t.values| && t.values[k] == RankOf(hand[i]);
      assert t.count[k] == n;
    }
  }

  /** A five-card straight has five different ranks, so no count test fires and the hand ranks
      as a straight flush or a straight. */
  lemma StraightRanks(hand: seq<string>)
    requires |hand| == 5 && IsHand(hand)
    requires IsStraight(Stats(hand))
    ensures HandRank(hand) == if IsFlush(Stats(hand)) then StraightFlush else Straight
  {
    StatsSorted(hand);
    TallyAllNew(hand);
    var count := Stats(hand).count;
  }

  // ---------------------------------------------------------------------
  // The rank

  /** The rank `getPokerHandRank` returns for `hand`. */
  function HandRank(hand: seq<string>): (r: nat)
    requires IsHand(hand)
    ensures r <= StraightFlush
    ensures r == StraightFlush <==> IsFlush(Stats(hand)) && IsStraight(Stats(hand))
    ensures r == Flush ==> IsFlush(Stats(hand)) && !IsStraight(Stats(hand))
    ensures r == Straight ==> IsStraight(Stats(hand)) && !IsFlush(Stats(hand))
  {
    Classify(Stats(hand))
  }

  /** The chain of tests on what `getRand` leaves behind: the first one that holds gives the rank. */
  function Classify(st: HandStats): (r: nat)
    ensures r <= StraightFlush
    ensures r == StraightFlush <==> IsFlush(st) && IsStraight(st)
    ensures r == Flush ==> IsFlush(st) && !IsStraight(st)
    ensures r == Straight ==> IsStraight(st) && !IsFlush(st)
  {
    if IsFlush(st) && IsStraight(st) then StraightFlush
    else if CountOf(st.count, 4) > 0 then FourOfKind
    else if CountOf(st.count, 3) > 0 && CountOf(st.count, 2) > 0 then FullHouse
    else if IsFlush(st) then Flush
    else if IsStraight(st) then Straight
    else if CountOf(st.count, 3) > 0 then ThreeOfKind
    else if CountOf(st.count, 2) == 2 then TwoPairs
    else if CountOf(st.count, 2) > 0 then OnePair
    else HighCard
  }

  /** `getPokerHandRank(hand)`: builds the tally, then runs the tests in the source's order. */
  method GetPokerHandRank(hand: seq<string>) returns (rank: nat)
    requires IsHand(hand)
    ensures rank == HandRank(hand)
  {
    var st := GetRand(hand);
    var straight := CheckStraight(st);
    var four := GetCount(st, 4);
    var three := GetCount(st, 3);
    var two := GetCount(st, 2);
    if IsFlush(st) && straight {
      rank := StraightFlush;
    } else if four > 0 {
      rank := FourOfKind;
    } else if three > 0 && two > 0 {
      rank := FullHouse;
    } else if IsFlush(st) {
      rank := Flush;
    } else if straight {
      rank := Straight;
    } else if three > 0 {
      rank := ThreeOfKind;
    } else if two == 2 {
      rank := TwoPairs;
    } else if two > 0 {
      rank := OnePair;
    } else {
      rank := HighCard;
    }
  }

  // ---------------------------------------------------------------------
  // Straights

  /** Every card's rank is one of the thirteen ranks. */
  predicate ValidRanks(hand: seq<string>)
    requires IsHand(hand)
  {
    forall i :: 0 <= i < |hand| ==> Key(RankOf(hand[i])) >= 0
  }

  /** The hand holds the five ranks at positions `lo` to `lo + 4` of `Ranks`: 2 to 6 and so on up
      to 10 to ace, the ace also counting low at position 0. */
  predicate Run(hand: seq<string>, lo: int)
    requires IsHand(hand)
  {
    0 <= lo <= 9 && forall p :: lo <= p < lo + 5 ==> HasRank(hand, Ranks[p])
  }

  /** A rank sits in `Ranks` at its key; the ace also at 13. */
  lemma RanksAtKey(c: char)
    requires Key(c) >= 0
    ensures Ranks[Key(c)] == c && Ranks[LastKey(c)] == c
  {
  }

  /** The key of the rank at position `p` of `Ranks` below 13 is `p`. */
  lemma KeyOfRanks(p: int)
    requires 0 <= p < 13
    ensures Key(Ranks[p]) == p
  {
  }

  /** A rank of greater key comes later in a sequence sorted by key. */
  lemma SortedBefore(s: seq<char>, a: int, b: int)
    requires SortedByKey(s) && 0 <= a < |s| && 0 <= b < |s| && Key(s[a]) < Key(s[b])
    ensures a < b
  {
  }

  /** In sorted valid ranks none but the first can be an ace, so a straight step is a step of one
      in key. */
  lemma FollowsInSorted(s: seq<char>, i: int)
    requires SortedByKey(s) && 1 <= i < |s| && Key(s[i - 1]) >= 0
    requires Follows(s[i - 1], s[i])
    ensures Key(s[i]) == Key(s[i - 1]) + 1
  {
    assert Key(s[i - 1]) <= Key(s[i]);
  }

  /** The sorted ranks of a hand: its distinct ranks, ordered by key. */
  predicate SortedRanksOf(s: seq<char>, hand: seq<string>)
    requires IsHand(hand)
  {
    SortedByKey(s) && (forall c :: c in s <==> HasRank(hand, c))
  }

  lemma SortedRanksFacts(hand: seq<string>)
    requires IsHand(hand)
    ensures SortedRanksOf(SortByRank(TallyOf(hand).values), hand)
    ensures |SortByRank(TallyOf(hand).values)| <= |hand|
  {
    var values := TallyOf(hand).values;
    var s := SortByRank(values);
    TallyRanks(hand);
    TallyAllNew(hand);
    SortByRankSorts(values);
    forall c ensures c in s <==> HasRank(hand, c) {
      assert c in s <==> c in multiset(s);
      assert c in values <==> c in multiset(values);
    }
  }

  /** The straight test on sorted valid ranks, with the ace moved high, passes only on ranks that
      fill a run of `Ranks` from 10 to the ace. */
  lemma StraightIsRunHigh(s: seq<char>, st: HandStats)
    requires SortedByKey(s) && |s| <= 5 && forall i :: 0 <= i < |s| ==> Key(s[i]) >= 0
    requires |s| >= 1 && s[0] == 'A' && (|s| < 2 || s[1] != '2')
    requires st.sorted == s[1..] + ['A'] && IsStraight(st)
    ensures forall p :: 9 <= p < 14 ==> Ranks[p] in s
  {
    assert |s| >= 5 && st.sorted[4] == 'A' && st.sorted[3] == s[4];
    assert Follows(s[4], 'A');
    assert Key(s[4]) == 12;
    assert Follows(st.sorted[2], st.sorted[3]);
    FollowsInSorted(s, 4);
    assert Follows(st.sorted[1], st.sorted[2]);
    FollowsInSorted(s, 3);
    assert Follows(st.sorted[0], st.sorted[1]);
    FollowsInSorted(s, 2);
    forall p | 9 <= p < 14 ensures Ranks[p] in s {
      if p == 13 {
        assert Ranks[p] == s[0];
      } else {
        RanksAtKey(s[p - 8]);
      }
    }
  }

  /** The straight test on sorted valid ranks left in place passes only on ranks that fill a run
      of `Ranks` starting at the first one's key. */
  lemma StraightIsRunLow(s: seq<char>, st: HandStats)
    requires SortedByKey(s) && forall i :: 0 <= i < |s| ==> Key(s[i]) >= 0
    requires st.sorted == s && IsStraight(st)
    ensures 0 <= Key(s[0]) <= 8 && forall p :: Key(s[0]) <= p < Key(s[0]) + 5 ==> Ranks[p] in s
  {
    var lo := Key(s[0]);
    FollowsInSorted(s, 1);
    FollowsInSorted(s, 2);
    FollowsInSorted(s, 3);
    FollowsInSorted(s, 4);
    forall p | lo <= p < lo + 5 ensures Ranks[p] in s {
      RanksAtKey(s[p - lo]);
    }
  }

  /** Five sorted valid ranks that fill a run of `Ranks` below 13 are that run. */
  lemma RunLowIsSorted(s: seq<char>, lo: int)
    requires SortedByKey(s) && |s| <= 5
    requires 0 <= lo <= 8 && forall p :: lo <= p < lo + 5 ==> Ranks[p] in s
    ensures |s| == 5 && forall j :: 0 <= j < 5 ==> Key(s[j]) == lo + j
  {
    KeyOfRanks(lo);
    KeyOfRanks(lo + 1);
    KeyOfRanks(lo + 2);
    KeyOfRanks(lo + 3);
    KeyOfRanks(lo + 4);
    assert Ranks[lo] in s && Ranks[lo + 1] in s && Ranks[lo + 2] in s;
    assert Ranks[lo + 3] in s && Ranks[lo + 4] in s;
    var i0 :| 0 <= i0 < |s| && s[i0] == Ranks[lo];
    var i1 :| 0 <= i1 < |s| && s[i1] == Ranks[lo + 1];
    var i2 :| 0 <= i2 < |s| && s[i2] == Ranks[lo + 2];
    var i3 :| 0 <= i3 < |s| && s[i3] == Ranks[lo + 3];
    var i4 :| 0 <= i4 < |s| && s[i4] == Ranks[lo + 4];
    SortedBefore(s, i0, i1);
    SortedBefore(s, i1, i2);
    SortedBefore(s, i2, i3);
    SortedBefore(s, i3, i4);
    assert i0 == 0 && i1 == 1 && i2 == 2 && i3 == 3 && i4 == 4;
  }

  /** Five sorted valid ranks holding 10, J, Q, K and the ace are the ace followed by the others. */
  lemma RunHighIsSorted(s: seq<char>)
    requires SortedByKey(s) && |s| <= 5
    requires forall p :: 9 <= p < 14 ==> Ranks[p] in s
    ensures |s| == 5 && s[0] == 'A' && s[1] == '1' && s[2] == 'J' && s[3] == 'Q' && s[4] == 'K'
  {
    assert Ranks[9] == '1' && Ranks[10] == 'J' && Ranks[11] == 'Q' && Ranks[12] == 'K' && Ranks[13] == 'A';
    HighRanksInOrder(s);
  }

  lemma HighRanksInOrder(s: seq<char>)
    requires SortedByKey(s) && |s| <= 5
    requires '1' in s && 'J' in s && 'Q' in s && 'K' in s && 'A' in s
    ensures |s| == 5 && s[0] == 'A' && s[1] == '1' && s[2] == 'J' && s[3] == 'Q' && s[4] == 'K'
  {
    var i0 :| 0 <= i0 < |s| && s[i0] == '1';
    var i1 :| 0 <= i1 < |s| && s[i1] == 'J';
    var i2 :| 0 <= i2 < |s| && s[i2] == 'Q';
    var i3 :| 0 <= i3 < |s| && s[i3] == 'K';
    var ia :| 0 <= ia < |s| && s[ia] == 'A';
    HighRanksBefore(s, ia, i0, i1, i2, i3);
    FiveInOrder(s, ia, i0, i1, i2, i3);
  }

  lemma HighRanksBefore(s: seq<char>, ia: int, i0: int, i1: int, i2: int, i3: int)
    requires SortedByKey(s) && 0 <= ia < |s| && 0 <= i0 < |s| && 0 <= i1 < |s| && 0 <= i2 < |s| && 0 <= i3 < |s|
    requires s[ia] == 'A' && s[i0] == '1' && s[i1] == 'J' && s[i2] == 'Q' && s[i3] == 'K'
    ensures ia < i0 < i1 < i2 < i3
  {
    SortedBefore(s, ia, i0);
    SortedBefore(s, i0, i1);
    SortedBefore(s, i1, i2);
    SortedBefore(s, i2, i3);
  }

  /** Five increasing positions in at most five elements are the positions 0 to 4. */
  lemma FiveInOrder(s: seq<char>, ia: int, i0: int, i1: int, i2: int, i3: int)
    requires 0 <= ia < i0 < i1 < i2 < i3 < |s| <= 5
    requires s[ia] == 'A' && s[i0] == '1' && s[i1] == 'J' && s[i2] == 'Q' && s[i3] == 'K'
    ensures |s| == 5 && s[0] == 'A' && s[1] == '1' && s[2] == 'J' && s[3] == 'Q' && s[4] == 'K'
  {
    assert ia == 0 && i0 == 1 && i1 == 2 && i2 == 3 && i3 == 4;
  }

  /** Five sorted valid ranks that fill a run of `Ranks` pass the straight test. */
  lemma RunIsStraight(s: seq<char>, st: HandStats, lo: int)
    requires SortedByKey(s) && |s| <= 5
    requires 0 <= lo <= 9 && forall p :: lo <= p < lo + 5 ==> Ranks[p] in s
    requires st.sorted == AceHigh(s)
    ensures IsStraight(st)
  {
    if lo <= 8 {
      RunLowIsSorted(s, lo);
      RunLowIsStraight(s, st, lo);
    } else {
      RunHighIsSorted(s);
      RunHighIsStraight(s, st);
    }
  }

  lemma RunLowIsStraight(s: seq<char>, st: HandStats, lo: int)
    requires |s| == 5 && 0 <= lo <= 8 && forall j :: 0 <= j < 5 ==> Key(s[j]) == lo + j
    requires st.sorted == AceHigh(s)
    ensures IsStraight(st)
  {
    if s[0] == 'A' {
      assert Key(s[1]) == 1;
    }
    assert st.sorted == s;
    forall i | 1 <= i < 5 ensures Follows(st.sorted[i - 1], st.sorted[i]) {
      assert Key(s[i - 1]) + 1 == Key(s[i]);
    }
  }

  lemma RunHighIsStraight(s: seq<char>, st: HandStats)
    requires |s| == 5 && s[0] == 'A' && s[1] == '1' && s[2] == 'J' && s[3] == 'Q' && s[4] == 'K'
    requires st.sorted == AceHigh(s)
    ensures IsStraight(st)
  {
    assert st.sorted == s[1..] + ['A'];
    assert st.sorted[0] == '1' && st.sorted[1] == 'J' && st.sorted[2] == 'Q';
    assert st.sorted[3] == 'K' && st.sorted[4] == 'A';
  }

  /** For a hand of five cards of valid ranks, the straight test holds exactly when the hand's ranks
      fill five consecutive positions of `Ranks`, the ace at either end. */
  lemma StraightIff(hand: seq<string>)
    requires IsHand(hand) && |hand| == 5 && ValidRanks(hand)
    ensures IsStraight(Stats(hand)) <==> exists lo :: Run(hand, lo)
  {
    if IsStraight(Stats(hand)) {
      StraightRun(hand);
    }
    if exists lo :: Run(hand, lo) {
      var lo :| Run(hand, lo);
      RunStraight(hand, lo);
    }
  }

  lemma StraightRun(hand: seq<string>)
    requires IsHand(hand) && |hand| == 5 && ValidRanks(hand) && IsStraight(Stats(hand))
    ensures exists lo :: Run(hand, lo)
  {
    var s := SortByRank(TallyOf(hand).values);
    SortedRanksFacts(hand);
    forall i | 0 <= i < |s| ensures Key(s[i]) >= 0 {
      assert HasRank(hand, s[i]);
    }
    if |s| >= 1 && s[0] == 'A' && (|s| < 2 || s[1] != '2') {
      StraightIsRunHigh(s, Stats(hand));
      assert Run(hand, 9);
    } else {
      StraightIsRunLow(s, Stats(hand));
      assert Run(hand, Key(s[0]));
    }
  }

  lemma RunStraight(hand: seq<string>, lo: int)
    requires IsHand(hand) && |hand| == 5 && Run(hand, lo)
    ensures IsStraight(Stats(hand))
  {
    var s := SortByRank(TallyOf(hand).values);
    SortedRanksFacts(hand);
    RunIsStraight(s, Stats(hand), lo);
  }

  /** A five-card hand of valid ranks is a straight flush exactly when it has one suit and its ranks
      make a run, and a straight exactly when it makes a run in more than one suit. */
  lemma StraightHands(hand: seq<string>)
    requires IsHand(hand) && |hand| == 5 && ValidRanks(hand)
    ensures HandRank(hand) == StraightFlush <==>
      (forall i :: 0 <= i < |hand| ==> SuitOf(hand[i]) == SuitOf(hand[0])) && exists lo :: Run(hand, lo)
    ensures HandRank(hand) == Straight <==>
      (exists i :: 0 <= i < |hand| && SuitOf(hand[i]) != SuitOf(hand[0])) && exists lo :: Run(hand, lo)
  {
    StraightIff(hand);
    FlushIff(hand);
    if IsStraight(Stats(hand)) {
      StraightRanks(hand);
    }
  }

  // ---------------------------------------------------------------------
  // The documented hands

  /** Card `card` takes the tally from `t` to `u`: its rank is new when `k` is -1, or first listed
      at position `k`; its suit is added when new. */
  predicate Moves(t: Tally, card: string, k: int, u: Tally)
    requires IsCard(card)
  {
    var r, s := RankOf(card), SuitOf(card);
    |t.count| == |t.values| &&
    (if k < 0 then (r !in t.values && u.values == t.values + [r] && u.count == t.count + [1])
     else (k < |t.values| && t.values[k] == r && r !in t.values[..k] &&
           u.values == t.values && u.count == t.count[k := t.count[k] + 1])) &&
    u.fits == (if s in t.fits then t.fits else t.fits + [s])
  }

  lemma MovesAddCard(t: Tally, card: string, k: int, u: Tally)
    requires IsCard(card) && Moves(t, card, k, u)
    ensures AddCard(t, card) == u
  {
    var r := RankOf(card);
    if k >= 0 {
      forall j | 0 <= j < k ensures t.values[j] != r {
        assert t.values[j] == t.values[..k][j];
      }
      IndexOfAt(t.values, r, k);
    }
  }

  /** The tally of `hand` when each card moves the tally from `ts[i]` to `ts[i + 1]`. */
  lemma {:induction false} TallyOfSteps(hand: seq<string>, ks: seq<int>, ts: seq<Tally>)
    requires IsHand(hand) && |ks| == |hand| && |ts| == |hand| + 1 && ts[0] == Tally([], [], [])
    requires forall i :: 0 <= i < |hand| ==> Moves(ts[i], hand[i], ks[i], ts[i + 1])
    ensures TallyOf(hand) == ts[|hand|]
    decreases |hand|
  {
    if hand != [] {
      var n := |hand|;
      TallyOfSteps(hand[..n - 1], ks[..n - 1], ts[..n]);
      MovesAddCard(ts[n - 1], hand[n - 1], ks[n - 1], ts[n]);
    }
  }

  /** Inserting `x` into `s` puts it at position `p`, giving `r`. */
  predicate Places(s: seq<char>, x: char, p: int, r: seq<char>) {
    0 <= p <= |s| && (p > 0 ==> Key(s[p - 1]) <= Key(x)) &&
    (forall j :: p <= j < |s| ==> Key(x) < Key(s[j])) &&
    r == s[..p] + [x] + s[p..]
  }

  lemma {:induction false} InsertAt(s: seq<char>, x: char, p: int, r: seq<char>)
    requires Places(s, x, p, r)
    ensures Insert(s, x) == r
    decreases |s|
  {
    if p < |s| {
      var init, last := s[..|s| - 1], s[|s| - 1];
      assert init[..p] == s[..p] && s[p..] == init[p..] + [last];
      InsertAt(init, x, p, init[..p] + [x] + init[p..]);
    } else if s != [] {
      assert s[..p] == s;
    }
  }

  /** The sorted order of `xs` when each rank goes in at position `ps[i]`, from `ss[i]` to `ss[i + 1]`. */
  lemma {:induction false} SortSteps(xs: seq<char>, ps: seq<int>, ss: seq<seq<char>>)
    requires |ps| == |xs| && |ss| == |xs| + 1 && ss[0] == []
    requires forall i :: 0 <= i < |xs| ==> Places(ss[i], xs[i], ps[i], ss[i + 1])
    ensures SortByRank(xs) == ss[|xs|]
    decreases |xs|
  {
    if xs != [] {
      var n := |xs|;
      SortSteps(xs[..n - 1], ps[..n - 1], ss[..n]);
      InsertAt(ss[n - 1], xs[n - 1], ps[n - 1], ss[n]);
    }
  }

  // The hands documented at lines 112-122, each proved in three steps: the tally loop card by
  // card, the sort insertion by insertion with the tests on the result, and the rank.

  lemma StraightFlushTally()
    ensures IsHand(["4♥", "5♥", "6♥", "7♥", "8♥"])
    ensures TallyOf(["4♥", "5♥", "6♥", "7♥", "8♥"]) == Tally("45678", [1, 1, 1, 1, 1], "♥")
  {
    TallyOfSteps(["4♥", "5♥", "6♥", "7♥", "8♥"], [-1, -1, -1, -1, -1],
      [Tally([], [], []), Tally("4", [1], "♥"), Tally("45", [1, 1], "♥"),
       Tally("456", [1, 1, 1], "♥"), Tally("4567", [1, 1, 1, 1], "♥"), Tally("45678", [1, 1, 1, 1, 1], "♥")]);
  }

  lemma StraightFlushSort()
    ensures SortByRank("45678") == "45678"
  {
    SortSteps("45678", [0, 1, 2, 3, 4], ["", "4", "45", "456", "4567", "45678"]);
  }

  lemma StraightFlushTests()
    ensures Classify(HandStats([1, 1, 1, 1, 1], "♥", AceHigh("45678"))) == StraightFlush
  {
    var st := HandStats([1, 1, 1, 1, 1], "♥", AceHigh("45678"));
    assert st.sorted == "45678";
  }

  /** Line 112. */
  lemma StraightFlushExample()
    ensures HandRank(["4♥", "5♥", "6♥", "7♥", "8♥"]) == StraightFlush
  {
    StraightFlushTally();
    StraightFlushSort();
    StraightFlushTests();
  }

  lemma AceLowStraightFlushTally()
    ensures IsHand(["A♠", "4♠", "3♠", "5♠", "2♠"])
    ensures TallyOf(["A♠", "4♠", "3♠", "5♠", "2♠"]) == Tally("A4352", [1, 1, 1, 1, 1], "♠")
  {
    TallyOfSteps(["A♠", "4♠", "3♠", "5♠", "2♠"], [-1, -1, -1, -1, -1],
      [Tally([], [], []), Tally("A", [1], "♠"), Tally("A4", [1, 1], "♠"),
       Tally("A43", [1, 1, 1], "♠"), Tally("A435", [1, 1, 1, 1], "♠"), Tally("A4352", [1, 1, 1, 1, 1], "♠")]);
  }

  lemma AceLowStraightFlushSort()
    ensures SortByRank("A4352") == "A2345"
  {
    SortSteps("A4352", [0, 1, 1, 3, 1], ["", "A", "A4", "A34", "A345", "A2345"]);
  }

  lemma AceLowStraightFlushTests()
    ensures Classify(HandStats([1, 1, 1, 1, 1], "♠", AceHigh("A2345"))) == StraightFlush
  {
  }

  /** Line 113. */
  lemma AceLowStraightFlushExample()
    ensures HandRank(["A♠", "4♠", "3♠", "5♠", "2♠"]) == StraightFlush
  {
    AceLowStraightFlushTally();
    AceLowStraightFlushSort();
    AceLowStraightFlushTests();
  }

  lemma FourOfKindTally()
    ensures IsHand(["4♣", "4♦", "4♥", "4♠", "10♥"])
    ensures TallyOf(["4♣", "4♦", "4♥", "4♠", "10♥"]) == Tally("41", [4, 1], "♣♦♥♠")
  {
    TallyOfSteps(["4♣", "4♦", "4♥", "4♠", "10♥"], [-1, 0, 0, 0, -1],
      [Tally([], [], []), Tally("4", [1], "♣"), Tally("4", [2], "♣♦"),
       Tally("4", [3], "♣♦♥"), Tally("4", [4], "♣♦♥♠"), Tally("41", [4, 1], "♣♦♥♠")]);
  }

  lemma FourOfKindSort()
    ensures SortByRank("41") == "41"
  {
    SortSteps("41", [0, 1], ["", "4", "41"]);
  }

  lemma FourOfKindTests()
    ensures Classify(HandStats([4, 1], "♣♦♥♠", AceHigh("41"))) == FourOfKind
  {
  }

  /** Line 114. */
  lemma FourOfKindExample()
    ensures HandRank(["4♣", "4♦", "4♥", "4♠", "10♥"]) == FourOfKind
  {
    FourOfKindTally();
    FourOfKindSort();
    FourOfKindTests();
  }

  lemma FullHouseTally()
    ensures IsHand(["4♣", "4♦", "5♦", "5♠", "5♥"])
    ensures TallyOf(["4♣", "4♦", "5♦", "5♠", "5♥"]) == Tally("45", [2, 3], "♣♦♠♥")
  {
    TallyOfSteps(["4♣", "4♦", "5♦", "5♠", "5♥"], [-1, 0, -1, 1, 1],
      [Tally([], [], []), Tally("4", [1], "♣"), Tally("4", [2], "♣♦"),
       Tally("45", [2, 1], "♣♦"), Tally("45", [2, 2], "♣♦♠"), Tally("45", [2, 3], "♣♦♠♥")]);
  }

  lemma FullHouseSort()
    ensures SortByRank("45") == "45"
  {
    SortSteps("45", [0, 1], ["", "4", "45"]);
  }

  lemma FullHouseTests()
    ensures Classify(HandStats([2, 3], "♣♦♠♥", AceHigh("45"))) == FullHouse
  {
  }

  /** Line 115. */
  lemma FullHouseExample()
    ensures HandRank(["4♣", "4♦", "5♦", "5♠", "5♥"]) == FullHouse
  {
    FullHouseTally();
    FullHouseSort();
    FullHouseTests();
  }

  lemma FlushTally()
    ensures IsHand(["4♣", "5♣", "6♣", "7♣", "Q♣"])
    ensures TallyOf(["4♣", "5♣", "6♣", "7♣", "Q♣"]) == Tally("4567Q", [1, 1, 1, 1, 1], "♣")
  {
    TallyOfSteps(["4♣", "5♣", "6♣", "7♣", "Q♣"], [-1, -1, -1, -1, -1],
      [Tally([], [], []), Tally("4", [1], "♣"), Tally("45", [1, 1], "♣"),
       Tally("456", [1, 1, 1], "♣"), Tally("4567", [1, 1, 1, 1], "♣"), Tally("4567Q", [1, 1, 1, 1, 1], "♣")]);
  }

  lemma FlushSort()
    ensures SortByRank("4567Q") == "4567Q"
  {
    SortSteps("4567Q", [0, 1, 2, 3, 4], ["", "4", "45", "456", "4567", "4567Q"]);
  }

  lemma FlushTests()
    ensures Classify(HandStats([1, 1, 1, 1, 1], "♣", AceHigh("4567Q"))) == Flush
  {
    var st := HandStats([1, 1, 1, 1, 1], "♣", AceHigh("4567Q"));
    assert st.sorted == "4567Q";
    assert !Follows(st.sorted[3], st.sorted[4]);
    assert CountOf([1, 1, 1, 1, 1], 4) == 0 && CountOf([1, 1, 1, 1, 1], 3) == 0;
  }

  /** Line 116. */
  lemma FlushExample()
    ensures HandRank(["4♣", "5♣", "6♣", "7♣", "Q♣"]) == Flush
  {
    FlushTally();
    FlushSort();
    FlushTests();
  }

  lemma StraightTally()
    ensures IsHand(["2♠", "3♥", "4♥", "5♥", "6♥"])
    ensures TallyOf(["2♠", "3♥", "4♥", "5♥", "6♥"]) == Tally("23456", [1, 1, 1, 1, 1], "♠♥")
  {
    TallyOfSteps(["2♠", "3♥", "4♥", "5♥", "6♥"], [-1, -1, -1, -1, -1],
      [Tally([], [], []), Tally("2", [1], "♠"), Tally("23", [1, 1], "♠♥"),
       Tally("234", [1, 1, 1], "♠♥"), Tally("2345", [1, 1, 1, 1], "♠♥"), Tally("23456", [1, 1, 1, 1, 1], "♠♥")]);
  }

  lemma StraightSort()
    ensures SortByRank("23456") == "23456"
  {
    SortSteps("23456", [0, 1, 2, 3, 4], ["", "2", "23", "234", "2345", "23456"]);
  }

  lemma StraightTests()
    ensures Classify(HandStats([1, 1, 1, 1, 1], "♠♥", AceHigh("23456"))) == Straight
  {
  }

  /** Line 117. */
  lemma StraightExample()
    ensures HandRank(["2♠", "3♥", "4♥", "5♥", "6♥"]) == Straight
  {
    StraightTally();
    StraightSort();
    StraightTests();
  }

  lemma AceLowStraightTally()
    ensures IsHand(["2♥", "4♦", "5♥", "A♦", "3♠"])
    ensures TallyOf(["2♥", "4♦", "5♥", "A♦", "3♠"]) == Tally("245A3", [1, 1, 1, 1, 1], "♥♦♠")
  {
    TallyOfSteps(["2♥", "4♦", "5♥", "A♦", "3♠"], [-1, -1, -1, -1, -1],
      [Tally([], [], []), Tally("2", [1], "♥"), Tally("24", [1, 1], "♥♦"),
       Tally("245", [1, 1, 1], "♥♦"), Tally("245A", [1, 1, 1, 1], "♥♦"), Tally("245A3", [1, 1, 1, 1, 1], "♥♦♠")]);
  }

  lemma AceLowStraightSort()
    ensures SortByRank("245A3") == "A2345"
  {
    SortSteps("245A3", [0, 1, 2, 0, 2], ["", "2", "24", "245", "A245", "A2345"]);
  }

  lemma AceLowStraightTests()
    ensures Classify(HandStats([1, 1, 1, 1, 1], "♥♦♠", AceHigh("A2345"))) == Straight
  {
  }

  /** Line 118. */
  lemma AceLowStraightExample()
    ensures HandRank(["2♥", "4♦", "5♥", "A♦", "3♠"]) == Straight
  {
    AceLowStraightTally();
    AceLowStraightSort();
    AceLowStraightTests();
  }

  lemma ThreeOfKindTally()
    ensures IsHand(["2♥", "2♠", "2♦", "7♥", "A♥"])
    ensures TallyOf(["2♥", "2♠", "2♦", "7♥", "A♥"]) == Tally("27A", [3, 1, 1], "♥♠♦")
  {
    TallyOfSteps(["2♥", "2♠", "2♦", "7♥", "A♥"], [-1, 0, 0, -1, -1],
      [Tally([], [], []), Tally("2", [1], "♥"), Tally("2", [2], "♥♠"),
       Tally("2", [3], "♥♠♦"), Tally("27", [3, 1], "♥♠♦"), Tally("27A", [3, 1, 1], "♥♠♦")]);
  }

  lemma ThreeOfKindSort()
    ensures SortByRank("27A") == "A27"
  {
    SortSteps("27A", [0, 1, 0], ["", "2", "27", "A27"]);
  }

  lemma ThreeOfKindTests()
    ensures Classify(HandStats([3, 1, 1], "♥♠♦", AceHigh("A27"))) == ThreeOfKind
  {
    assert AceHigh("A27") == "A27";
    assert CountOf([3, 1, 1], 4) == 0 && CountOf([3, 1, 1], 3) == 1 && CountOf([3, 1, 1], 2) == 0;
  }

  /** Line 119. */
  lemma ThreeOfKindExample()
    ensures HandRank(["2♥", "2♠", "2♦", "7♥", "A♥"]) == ThreeOfKind
  {
    ThreeOfKindTally();
    ThreeOfKindSort();
    ThreeOfKindTests();
  }

  lemma TwoPairsTally()
    ensures IsHand(["2♥", "4♦", "4♥", "A♦", "A♠"])
    ensures TallyOf(["2♥", "4♦", "4♥", "A♦", "A♠"]) == Tally("24A", [1, 2, 2], "♥♦♠")
  {
    TallyOfSteps(["2♥", "4♦", "4♥", "A♦", "A♠"], [-1, -1, 1, -1, 2],
      [Tally([], [], []), Tally("2", [1], "♥"), Tally("24", [1, 1], "♥♦"),
       Tally("24", [1, 2], "♥♦"), Tally("24A", [1, 2, 1], "♥♦"), Tally("24A", [1, 2, 2], "♥♦♠")]);
  }

  lemma TwoPairsSort()
    ensures SortByRank("24A") == "A24"
  {
    SortSteps("24A", [0, 1, 0], ["", "2", "24", "A24"]);
  }

  lemma TwoPairsTests()
    ensures Classify(HandStats([1, 2, 2], "♥♦♠", AceHigh("A24"))) == TwoPairs
  {
  }

  /** Line 120. */
  lemma TwoPairsExample()
    ensures HandRank(["2♥", "4♦", "4♥", "A♦", "A♠"]) == TwoPairs
  {
    TwoPairsTally();
    TwoPairsSort();
    TwoPairsTests();
  }

  lemma OnePairTally()
    ensures IsHand(["3♥", "4♥", "10♥", "3♦", "A♠"])
    ensures TallyOf(["3♥", "4♥", "10♥", "3♦", "A♠"]) == Tally("341A", [2, 1, 1, 1], "♥♦♠")
  {
    TallyOfSteps(["3♥", "4♥", "10♥", "3♦", "A♠"], [-1, -1, -1, 0, -1],
      [Tally([], [], []), Tally("3", [1], "♥"), Tally("34", [1, 1], "♥"),
       Tally("341", [1, 1, 1], "♥"), Tally("341", [2, 1, 1], "♥♦"), Tally("341A", [2, 1, 1, 1], "♥♦♠")]);
  }

  lemma OnePairSort()
    ensures SortByRank("341A") == "A341"
  {
    SortSteps("341A", [0, 1, 2, 0], ["", "3", "34", "341", "A341"]);
  }

  lemma OnePairTests()
    ensures Classify(HandStats([2, 1, 1, 1], "♥♦♠", AceHigh("A341"))) == OnePair
  {
    var st := HandStats([2, 1, 1, 1], "♥♦♠", AceHigh("A341"));
    assert |st.sorted| == 4 && |st.fits| == 3;
    CountOfOne([2, 1, 1, 1], 0, 2);
  }

  /** Line 121. */
  lemma OnePairExample()
    ensures HandRank(["3♥", "4♥", "10♥", "3♦", "A♠"]) == OnePair
  {
    OnePairTally();
    OnePairSort();
    OnePairTests();
  }

  lemma HighCardTally()
    ensures IsHand(["A♥", "K♥", "Q♥", "2♦", "3♠"])
    ensures TallyOf(["A♥", "K♥", "Q♥", "2♦", "3♠"]) == Tally("AKQ23", [1, 1, 1, 1, 1], "♥♦♠")
  {
    TallyOfSteps(["A♥", "K♥", "Q♥", "2♦", "3♠"], [-1, -1, -1, -1, -1],
      [Tally([], [], []), Tally("A", [1], "♥"), Tally("AK", [1, 1], "♥"),
       Tally("AKQ", [1, 1, 1], "♥"), Tally("AKQ2", [1, 1, 1, 1], "♥♦"), Tally("AKQ23", [1, 1, 1, 1, 1], "♥♦♠")]);
  }

  lemma HighCardSort()
    ensures SortByRank("AKQ23") == "A23QK"
  {
    SortSteps("AKQ23", [0, 1, 1, 1, 2], ["", "A", "AK", "AQK", "A2QK", "A23QK"]);
  }

  lemma HighCardTests()
    ensures Classify(HandStats([1, 1, 1, 1, 1], "♥♦♠", AceHigh("A23QK"))) == HighCard
  {
    var st := HandStats([1, 1, 1, 1, 1], "♥♦♠", AceHigh("A23QK"));
    assert st.sorted == "A23QK";
    assert !Follows(st.sorted[2], st.sorted[3]);
    assert CountOf([1, 1, 1, 1, 1], 4) == 0 && CountOf([1, 1, 1, 1, 1], 3) == 0 && CountOf([1, 1, 1, 1, 1], 2) == 0;
  }

  /** Line 122. */
  lemma HighCardExample()
    ensures HandRank(["A♥", "K♥", "Q♥", "2♦", "3♠"]) == HighCard
  {
    HighCardTally();
    HighCardSort();
    HighCardTests();
  }
}
