/** The high-score board: the finished round's entry is appended, the list
    is sorted by score, highest first, with a stable sort, and only the
    first five entries are kept. */
module Leaderboard {
  import opened Round

  /** One leaderboard record (the locale date string is not modelled). */
  datatype Entry = Entry(score: int, mode: Mode)

  const MaxEntries := 5

  predicate SortedDesc(s: seq<Entry>) {
    forall i, j :: 0 <= i < j < |s| ==> s[i].score >= s[j].score
  }

  /** Inserts e into a list after every entry whose score is at least e's:
      one step of a stable insertion sort under `b.score - a.score`. */
  function InsertStable(sorted: seq<Entry>, e: Entry): seq<Entry>
  {
    if sorted == [] then [e]
    else if e.score > sorted[0].score then [e] + sorted
    else [sorted[0]] + InsertStable(sorted[1..], e)
  }

  /** The stable sort by descending score that `Array.prototype.sort`
      performs with the comparator `(a, b) => b.score - a.score`. */
  function SortByScore(s: seq<Entry>): seq<Entry>
  {
    if s == [] then [] else InsertStable(SortByScore(s[..|s| - 1]), s[|s| - 1])
  }

  /** `[...highScores, entry].sort(...).slice(0, 5)`. */
  function UpdateHighScores(board: seq<Entry>, e: Entry): seq<Entry>
  {
    TakeTop(SortByScore(board + [e]))
  }

  /** `.slice(0, 5)`. */
  function TakeTop(s: seq<Entry>): seq<Entry> {
    if |s| <= MaxEntries then s else s[..MaxEntries]
  }

  /** Number of entries whose score is at least v. */
  function CountAtLeast(s: seq<Entry>, v: int): nat
  {
    if s == [] then 0 else (if s[0].score >= v then 1 else 0) + CountAtLeast(s[1..], v)
  }

  /** Insertion adds exactly e to the list's contents. */
  lemma {:induction false} InsertStablePermutes(s: seq<Entry>, e: Entry)
    ensures multiset(InsertStable(s, e)) == multiset(s) + multiset{e}
    ensures |InsertStable(s, e)| == |s| + 1
  {
    if s != [] && e.score <= s[0].score {
      InsertStablePermutes(s[1..], e);
      assert s == [s[0]] + s[1..];
    }
  }

  /** Insertion into a list sorted by descending score keeps it sorted. */
  lemma {:induction false} InsertStableSorts(s: seq<Entry>, e: Entry)
    requires SortedDesc(s)
    ensures SortedDesc(InsertStable(s, e))
  {
    if s != [] && e.score <= s[0].score {
      var t := InsertStable(s[1..], e);
      InsertStableSorts(s[1..], e);
      InsertStablePermutes(s[1..], e);
      forall j | 0 <= j < |t|
        ensures t[j].score <= s[0].score
      {
        assert t[j] in multiset(s[1..]) + multiset{e};
        if t[j] != e {
          assert t[j] in s[1..];
        }
      }
      SortedCons(s[0], t);
    } else if s != [] {
      SortedCons(e, s);
    }
  }

  lemma SortedCons(x: Entry, t: seq<Entry>)
    requires SortedDesc(t)
    requires forall j :: 0 <= j < |t| ==> t[j].score <= x.score
    ensures SortedDesc([x] + t)
  {
    var r := [x] + t;
    forall i, j | 0 <= i < j < |r|
      ensures r[i].score >= r[j].score
    {
      if i > 0 {
        assert r[i] == t[i - 1] && r[j] == t[j - 1];
      } else {
        assert r[j] == t[j - 1];
      }
    }
  }

  /** The sort yields a list ordered by descending score that is a
      permutation of its input. */
  lemma {:induction false} SortByScoreSorts(s: seq<Entry>)
    ensures SortedDesc(SortByScore(s))
    ensures multiset(SortByScore(s)) == multiset(s)
    ensures |SortByScore(s)| == |s|
  {
    if s != [] {
      var init := s[..|s| - 1];
      SortByScoreSorts(init);
      InsertStableSorts(SortByScore(init), s[|s| - 1]);
      InsertStablePermutes(SortByScore(init), s[|s| - 1]);
      assert s == init + [s[|s| - 1]];
    }
  }

  /** Inserting into an already sorted list puts e right after the entries
      scoring at least as much: a tie places e after the existing entries. */
  lemma {:induction false} InsertStablePlacesAfterTies(s: seq<Entry>, e: Entry)
    requires SortedDesc(s)
    ensures CountAtLeast(s, e.score) <= |s|
    ensures InsertStable(s, e) == s[..CountAtLeast(s, e.score)] + [e] + s[CountAtLeast(s, e.score)..]
  {
    if s != [] {
      if e.score > s[0].score {
        CountAtLeastZero(s, e.score);
      } else {
        InsertStablePlacesAfterTies(s[1..], e);
      }
    }
  }

  lemma {:induction false} CountAtLeastZero(s: seq<Entry>, v: int)
    requires SortedDesc(s)
    requires s != [] ==> s[0].score < v
    ensures CountAtLeast(s, v) == 0
  {
    if s != [] {
      CountAtLeastZero(s[1..], v);
    }
  }

  /** Sorting a list that is already sorted changes nothing (stability). */
  lemma {:induction false} SortByScoreKeepsSorted(s: seq<Entry>)
    requires SortedDesc(s)
    ensures SortByScore(s) == s
  {
    if s != [] {
      var init := s[..|s| - 1];
      SortByScoreKeepsSorted(init);
      InsertStablePlacesAfterTies(init, s[|s| - 1]);
      CountAtLeastAll(init, s[|s| - 1].score);
      assert init + [s[|s| - 1]] == s;
    }
  }

  lemma {:induction false} CountAtLeastAll(s: seq<Entry>, v: int)
    requires forall i :: 0 <= i < |s| ==> s[i].score >= v
    ensures CountAtLeast(s, v) == |s|
  {
    if s != [] {
      CountAtLeastAll(s[1..], v);
    }
  }

  /** The board after an update: at most five entries, highest first, all
      drawn from the old board and the new entry, and every entry left out
      scores no more than any entry kept. */
  lemma UpdateHighScoresShape(board: seq<Entry>, e: Entry)
    ensures |UpdateHighScores(board, e)| == if |board| + 1 <= MaxEntries then |board| + 1 else MaxEntries
    ensures SortedDesc(UpdateHighScores(board, e))
    ensures multiset(UpdateHighScores(board, e)) <= multiset(board + [e])
    ensures forall i, j :: 0 <= i < |UpdateHighScores(board, e)| <= j < |SortByScore(board + [e])| ==>
              SortByScore(board + [e])[j].score <= UpdateHighScores(board, e)[i].score
  {
    var all := SortByScore(board + [e]);
    SortByScoreSorts(board + [e]);
    if |all| > MaxEntries {
      assert all == all[..MaxEntries] + all[MaxEntries..];
      assert multiset(all) == multiset(all[..MaxEntries]) + multiset(all[MaxEntries..]);
    }
  }

  /** When the old board is already sorted (as every board this function
      produced is), the update inserts the new entry after all entries with
      an equal or higher score and then truncates to five. */
  lemma UpdateOnSortedBoard(board: seq<Entry>, e: Entry)
    requires SortedDesc(board)
    ensures var k := CountAtLeast(board, e.score);
      k <= |board| &&
      UpdateHighScores(board, e) == TakeTop(board[..k] + [e] + board[k..])
  {
    assert (board + [e])[..|board|] == board;
    SortByScoreKeepsSorted(board);
    InsertStablePlacesAfterTies(board, e);
  }
}
