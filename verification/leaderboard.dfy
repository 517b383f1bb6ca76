/**
 * The leaderboard's `add_score`: append the new entry, then sort by score,
 * highest first. Python's sort is stable, also with `reverse=True`, so
 * entries with equal scores keep their previous order.
 */
module Leaderboard {
  datatype Entry = Entry(initials: string, score: int)

  predicate SortedDesc(xs: seq<Entry>) {
    forall i, j | 0 <= i < j < |xs| :: xs[i].score >= xs[j].score
  }

  /** An entry outscoring no one before it can head an ordered board. */
  lemma PrependKeepsSorted(h: Entry, t: seq<Entry>)
    ensures SortedDesc(t) && (forall x | x in t :: x.score <= h.score) ==> SortedDesc([h] + t)
  {
    if SortedDesc(t) && (forall x | x in t :: x.score <= h.score) {
      var s := [h] + t;
      forall i, j | 0 <= i < j < |s| ensures s[i].score >= s[j].score {
        assert s[j] == t[j - 1];
        if i == 0 { assert t[j - 1] in t; } else { assert s[i] == t[i - 1]; }
      }
    }
  }

  /** Puts e in front of the first entry that does not outscore it. */
  function Insert(e: Entry, ys: seq<Entry>): seq<Entry> {
    if |ys| == 0 then [e]
    else if ys[0].score <= e.score then [e] + ys
    else [ys[0]] + Insert(e, ys[1..])
  }

  /** Inserting adds exactly the one entry, and keeps an ordered board ordered. */
  lemma {:induction false} InsertCorrect(e: Entry, ys: seq<Entry>)
    ensures |Insert(e, ys)| == |ys| + 1
    ensures multiset(Insert(e, ys)) == multiset(ys) + multiset{e}
    ensures forall x | x in Insert(e, ys) :: x in ys || x == e
    ensures SortedDesc(ys) ==> SortedDesc(Insert(e, ys))
  {
    if |ys| == 0 {
    } else if ys[0].score <= e.score {
      if SortedDesc(ys) {
        forall x | x in ys ensures x.score <= e.score {
          var j :| 0 <= j < |ys| && ys[j] == x;
          assert j == 0 || ys[0].score >= ys[j].score;
        }
      }
      PrependKeepsSorted(e, ys);
    } else {
      assert ys == [ys[0]] + ys[1..];
      var rest := Insert(e, ys[1..]);
      InsertCorrect(e, ys[1..]);
      if SortedDesc(ys) {
        forall x | x in rest ensures x.score <= ys[0].score {
          if x != e {
            var j :| 0 <= j < |ys[1..]| && ys[1..][j] == x;
            assert ys[j + 1] == x;
          }
        }
      }
      PrependKeepsSorted(ys[0], rest);
    }
  }

  /** Stable sort by non-increasing score (insertion sort from the back). */
  function SortByScore(xs: seq<Entry>): seq<Entry> {
    if |xs| == 0 then []
    else Insert(xs[0], SortByScore(xs[1..]))
  }

  /** The sort permutes its input into non-increasing score order. */
  lemma {:induction false} SortByScoreCorrect(xs: seq<Entry>)
    ensures multiset(SortByScore(xs)) == multiset(xs)
    ensures SortedDesc(SortByScore(xs))
  {
    if |xs| > 0 {
      assert xs == [xs[0]] + xs[1..];
      SortByScoreCorrect(xs[1..]);
      InsertCorrect(xs[0], SortByScore(xs[1..]));
    }
  }

  /**
   * `add_score`: the board grows by exactly one entry, holds exactly the old
   * entries and the new one, and is ordered by non-increasing score.
   */
  function AddScore(board: seq<Entry>, initials: string, score: int): (r: seq<Entry>)
    ensures |r| == |board| + 1
    ensures multiset(r) == multiset(board) + multiset{Entry(initials, score)}
    ensures SortedDesc(r)
  {
    var r := SortByScore(board + [Entry(initials, score)]);
    SortByScoreCorrect(board + [Entry(initials, score)]);
    assert |r| == |multiset(r)|;
    r
  }

  /** How many leading entries score at least `score`. */
  function Rank(board: seq<Entry>, score: int): (k: nat)
    ensures k <= |board|
  {
    if |board| == 0 || board[0].score < score then 0
    else 1 + Rank(board[1..], score)
  }

  lemma {:induction false} RankSplitsSortedBoard(board: seq<Entry>, score: int)
    requires SortedDesc(board)
    ensures forall j | 0 <= j < Rank(board, score) :: board[j].score >= score
    ensures forall j | Rank(board, score) <= j < |board| :: board[j].score < score
  {
    if |board| > 0 && board[0].score >= score {
      RankSplitsSortedBoard(board[1..], score);
      assert forall j | 1 <= j < |board| :: board[j] == board[1..][j - 1];
    }
  }

  /** Sorting a board with an extra entry at the back peels off its head first. */
  lemma SortUnfolds(board: seq<Entry>, e: Entry)
    requires |board| > 0
    ensures SortByScore(board + [e]) == Insert(board[0], SortByScore(board[1..] + [e]))
  {
    assert (board + [e])[0] == board[0];
    assert (board + [e])[1..] == board[1..] + [e];
  }

  lemma InsertInFront(x: Entry, ys: seq<Entry>)
    requires |ys| > 0 && ys[0].score <= x.score
    ensures Insert(x, ys) == [x] + ys
  {
  }

  /** An entry that outscores (or ties) the new one keeps its place in front of it. */
  lemma InsertKeepsLeader(b0: Entry, rest: seq<Entry>, e: Entry, k: nat)
    requires k <= |rest| && e.score <= b0.score
    requires k > 0 ==> rest[0].score <= b0.score
    ensures Insert(b0, rest[..k] + [e] + rest[k..]) == [b0] + rest[..k] + [e] + rest[k..]
  {
    var tail := rest[..k] + [e] + rest[k..];
    assert tail[0].score <= b0.score by {
      if k > 0 { assert tail[0] == rest[0]; } else { assert tail[0] == e; }
    }
    InsertInFront(b0, tail);
    assert [b0] + tail == [b0] + rest[..k] + [e] + rest[k..];
  }

  /** A new entry that strictly outscores the leader goes in front of it. */
  lemma InsertBehindNewcomer(b0: Entry, rest: seq<Entry>, e: Entry)
    requires b0.score < e.score
    requires |rest| > 0 ==> rest[0].score <= b0.score
    ensures Insert(b0, [e] + rest) == [e, b0] + rest
  {
    assert ([e] + rest)[1..] == rest;
  }

  /** Splitting a board after its leader and k more entries. */
  lemma SplitBehindLeader(board: seq<Entry>, e: Entry, k: nat)
    requires k < |board|
    ensures board[..1 + k] + [e] + board[1 + k..] == [board[0]] + board[1..][..k] + [e] + board[1..][k..]
  {
  }

  lemma SplitAtFront(board: seq<Entry>, e: Entry)
    requires |board| > 0
    ensures [e, board[0]] + board[1..] == board[..0] + [e] + board[0..]
  {
  }

  /**
   * One step of the induction below: if the entries after the leader sort
   * with the newcomer placed at its rank, the whole board does too.
   */
  lemma AddScoreStep(board: seq<Entry>, e: Entry)
    requires |board| > 0
    requires |board| > 1 ==> board[1].score <= board[0].score
    requires var k' := Rank(board[1..], e.score);
             SortByScore(board[1..] + [e]) == board[1..][..k'] + [e] + board[1..][k'..]
    ensures var k := Rank(board, e.score);
            SortByScore(board + [e]) == board[..k] + [e] + board[k..]
  {
    var b0 := board[0];
    var rest := board[1..];
    var k' := Rank(rest, e.score);
    var tail := rest[..k'] + [e] + rest[k'..];
    SortUnfolds(board, e);
    assert SortByScore(board + [e]) == Insert(b0, tail);
    if b0.score >= e.score {
      assert Rank(board, e.score) == 1 + k';
      InsertKeepsLeader(b0, rest, e, k');
      SplitBehindLeader(board, e, k');
    } else {
      assert Rank(board, e.score) == 0;
      assert k' == 0;
      assert tail == [e] + rest;
      InsertBehindNewcomer(b0, rest, e);
      SplitAtFront(board, e);
    }
  }

  /**
   * On a board that is already ordered (every board `add_score` produced
   * is), the new entry lands right after every entry scoring at least as
   * much, so among equal scores the older entries stay first, and the rest
   * of the board keeps its order.
   */
  lemma {:induction false} AddScoreInsertsAfterEqualScores(board: seq<Entry>, initials: string, score: int)
    requires SortedDesc(board)
    ensures var k := Rank(board, score);
            AddScore(board, initials, score) == board[..k] + [Entry(initials, score)] + board[k..]
  {
    var e := Entry(initials, score);
    if |board| == 0 {
      assert board + [e] == [e];
    } else {
      assert SortedDesc(board[1..]);
      AddScoreInsertsAfterEqualScores(board[1..], initials, score);
      AddScoreStep(board, e);
    }
  }
}
