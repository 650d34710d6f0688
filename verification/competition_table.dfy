/** The round-robin table: every pair of players meets once, and the game is kept in
    two cells that mirror each other. */
module CompetitionTables {
  import opened Matches

  type Table = seq<seq<Match>>

  ghost predicate Square(t: Table, n: nat) {
    |t| == n && forall i :: 0 <= i < n ==> |t[i]| == n
  }

  type Pair = (nat, nat)

  /** The games to be played among n players. */
  ghost function Pairs(n: nat): set<Pair> {
    set i: nat, j: nat | i < j < n :: (i, j)
  }

  ghost function DonePairs(t: Table, n: nat): set<Pair>
    requires Square(t, n)
  {
    set p | p in Pairs(n) && t[p.0][p.1].isDone
  }

  /** The games that have a winner. */
  ghost function DecisivePairs(t: Table, n: nat): set<Pair>
    requires Square(t, n)
  {
    set p | p in Pairs(n) && t[p.0][p.1].isDone && t[p.0][p.1].scorePlayer1 != t[p.0][p.1].scorePlayer2
  }

  /** What holds of the cells in row i and column j. */
  ghost predicate CellsAgree(t: Table, players: seq<User>, i: nat, j: nat)
    requires Square(t, |players|) && i < |players| && j < |players|
  {
    var m := t[i][j];
    && m.player1 == players[i] && m.player2 == players[j] && m.matchIndex == MatchIndex(i, j)
    && t[j][i] == m.MakeMirrorMatch()
    && m.Truthful()
    && (i == j ==> !m.isDone)
    && (!m.isDone ==> m.scorePlayer1 == m.scorePlayer2 == 0)
  }

  ghost predicate Mirrored(t: Table, players: seq<User>) {
    && Square(t, |players|)
    && forall i: nat, j: nat :: i < |players| && j < |players| ==> CellsAgree(t, players, i, j)
  }

  datatype Standing = Standing(table: Table, qtyPlayers: int, qtyGames: int, qtyFinishedGames: int, isCompetitionFinished: bool)

  /** The table, its mirror image, the counter and the flag agree. */
  ghost predicate Sound(s: Standing, players: seq<User>) {
    && Mirrored(s.table, players)
    && s.qtyPlayers == |players|
    && s.qtyGames == |Pairs(|players|)|
    && s.qtyFinishedGames == |DonePairs(s.table, |players|)|
    && (s.isCompetitionFinished <==> DonePairs(s.table, |players|) == Pairs(|players|))
  }

  // ---------- Counting games ----------

  /** The first m games of player n. */
  ghost function Column(m: nat, n: nat): set<Pair> {
    set i: nat {:trigger (i, n)} | i < m :: (i, n)
  }

  lemma {:induction false} ColumnCount(m: nat, n: nat)
    ensures |Column(m, n)| == m
  {
    if m > 0 {
      ColumnCount(m - 1, n);
      assert Column(m, n) == Column(m - 1, n) + {(m - 1, n)};
    } else {
      assert Column(m, n) == {};
    }
  }

  /** n players play (n * n - n) / 2 games. */
  lemma {:induction false} GamesCount(n: nat)
    ensures |Pairs(n)| == (n * n - n) / 2
  {
    if n > 0 {
      GamesCount(n - 1);
      ColumnCount(n - 1, n - 1);
      assert Pairs(n) == Pairs(n - 1) + Column(n - 1, n - 1);
      assert Pairs(n - 1) !! Column(n - 1, n - 1);
      Triangle(n);
    } else {
      assert Pairs(0) == {};
    }
  }

  lemma Triangle(n: nat)
    requires n > 0
    ensures (n * n - n) / 2 == ((n - 1) * (n - 1) - (n - 1)) / 2 + (n - 1)
  {
    assert n * n - n == (n - 1) * (n - 1) - (n - 1) + 2 * (n - 1);
  }

  lemma DoneArePairs(t: Table, n: nat)
    requires Square(t, n)
    ensures DonePairs(t, n) <= Pairs(n)
  {
  }

  lemma SubsetCount<T>(a: set<T>, b: set<T>)
    requires a <= b
    ensures |a| <= |b| && (|a| == |b| <==> a == b)
  {
    assert |b| == |a| + |b - a| by {
      assert b == a + (b - a);
    }
    assert |b - a| == 0 ==> b - a == {};
  }

  // ---------- Finishing a match ----------

  /** Both cells of a match are written. */
  function Written(t: Table, m: Match): (r: Table)
    requires 0 <= m.matchIndex.indexOfPlayer < |t| && 0 <= m.matchIndex.indexOfMatch < |t|
    requires forall i :: 0 <= i < |t| ==> |t[i]| == |t|
    ensures Square(r, |t|)
  {
    var i, j := m.matchIndex.indexOfPlayer, m.matchIndex.indexOfMatch;
    var t1 := t[i := t[i][j := m]];
    t1[j := t1[j][i := m.MakeMirrorMatch()]]
  }

  function Finished(s: Standing, m: Match): Standing
    requires 0 <= m.matchIndex.indexOfPlayer < |s.table| && 0 <= m.matchIndex.indexOfMatch < |s.table|
    requires forall i :: 0 <= i < |s.table| ==> |s.table[i]| == |s.table|
  {
    var q := s.qtyFinishedGames + 1;
    Standing(Written(s.table, m), s.qtyPlayers, s.qtyGames, q, s.isCompetitionFinished || q == s.qtyGames)
  }

  /** A move of the app: the match in a cell is opened, scored and finished. */
  datatype Move = Move(i: nat, j: nat, score1: int, score2: int)

  ghost predicate InTable(mv: Move, n: nat) {
    mv.i < n && mv.j < n
  }

  ghost function Play(s: Standing, mv: Move, players: seq<User>): Standing
    requires Mirrored(s.table, players) && InTable(mv, |players|)
  {
    assert CellsAgree(s.table, players, mv.i, mv.j);
    Finished(s, s.table[mv.i][mv.j].MakeMatch(mv.score1, mv.score2))
  }

  /** The app offers only cells of two different players whose game is not done. */
  ghost predicate Fair(s: Standing, mv: Move, players: seq<User>) {
    Mirrored(s.table, players) && InTable(mv, |players|) && mv.i != mv.j && !s.table[mv.i][mv.j].isDone
  }

  ghost function Ordered(i: nat, j: nat): Pair {
    if i < j then (i, j) else (j, i)
  }

  lemma PlayKeepsMirror(s: Standing, mv: Move, players: seq<User>)
    requires Mirrored(s.table, players) && InTable(mv, |players|) && mv.i != mv.j
    ensures Mirrored(Play(s, mv, players).table, players)
  {
    var t, t' := s.table, Play(s, mv, players).table;
    forall i: nat, j: nat | i < |players| && j < |players| ensures CellsAgree(t', players, i, j) {
      assert CellsAgree(t, players, i, j) && CellsAgree(t, players, j, i) && CellsAgree(t, players, mv.i, mv.j);
    }
  }

  lemma PlayDonePairs(s: Standing, mv: Move, players: seq<User>)
    requires Mirrored(s.table, players) && InTable(mv, |players|) && mv.i != mv.j
    ensures Mirrored(Play(s, mv, players).table, players)
    ensures DonePairs(Play(s, mv, players).table, |players|) == DonePairs(s.table, |players|) + {Ordered(mv.i, mv.j)}
    ensures Ordered(mv.i, mv.j) in DonePairs(s.table, |players|) <==> s.table[mv.i][mv.j].isDone
  {
    PlayKeepsMirror(s, mv, players);
    assert CellsAgree(s.table, players, mv.i, mv.j);
  }

  /** What a move changes: the two cells of its game, which get its scores. */
  lemma PlayWrites(s: Standing, mv: Move, players: seq<User>)
    requires Fair(s, mv, players)
    ensures var t, t', i, j := s.table, Play(s, mv, players).table, mv.i, mv.j;
            && Square(t', |players|)
            && Scored(t'[i][j], mv.score1, mv.score2) && Scored(t'[j][i], mv.score2, mv.score1)
            && SameGame(t'[i][j], t[i][j]) && SameGame(t'[j][i], t[j][i])
            && forall k: nat, l: nat :: k < |players| && l < |players| && !SamePair(mv, k, l) ==> t'[k][l] == t[k][l]
  {
    assert CellsAgree(s.table, players, mv.i, mv.j) && CellsAgree(s.table, players, mv.j, mv.i);
  }

  /** The move is the game of this cell. */
  predicate SamePair(mv: Move, i: nat, j: nat) {
    (mv.i == i && mv.j == j) || (mv.i == j && mv.j == i)
  }

  /** The cell has the scores of the move, as its player sees them. */
  predicate HasScores(m: Match, mv: Move, i: nat) {
    if mv.i == i then Scored(m, mv.score1, mv.score2) else Scored(m, mv.score2, mv.score1)
  }

  /** The counter and the flag stay right exactly if the match was still to be played. */
  lemma PlayKeepsSound(s: Standing, mv: Move, players: seq<User>)
    requires Sound(s, players) && InTable(mv, |players|) && mv.i != mv.j
    ensures Sound(Play(s, mv, players), players) <==> Fair(s, mv, players)
  {
    var n, s' := |players|, Play(s, mv, players);
    PlayDonePairs(s, mv, players);
    SubsetCount(DonePairs(s'.table, n), Pairs(n));
    SubsetCount(DonePairs(s.table, n), Pairs(n));
  }

  /** A player's own cell is no game: finishing it breaks the table. */
  lemma OwnCellBreaks(s: Standing, mv: Move, players: seq<User>)
    requires Sound(s, players) && InTable(mv, |players|) && mv.i == mv.j
    ensures !Sound(Play(s, mv, players), players)
  {
    var t': Table := Play(s, mv, players).table;
    assert CellsAgree(s.table, players, mv.i, mv.i);
    assert !CellsAgree(t', players, mv.i, mv.i);
  }

  // ---------- Whole competitions ----------

  ghost predicate IsStart(s: Standing, players: seq<User>) {
    && Square(s.table, |players|)
    && (forall i: nat, j: nat :: i < |players| && j < |players| ==>
          s.table[i][j] == NewMatch(players[i], players[j], MatchIndex(i, j)))
    && s.qtyPlayers == |players| && s.qtyGames == (|players| * |players| - |players|) / 2
    && s.qtyFinishedGames == 0 && !s.isCompetitionFinished
  }

  lemma StartIsMirrored(s: Standing, players: seq<User>)
    requires IsStart(s, players)
    ensures Mirrored(s.table, players) && DonePairs(s.table, |players|) == {}
  {
    var n := |players|;
    forall i: nat, j: nat | i < n && j < n
      ensures CellsAgree(s.table, players, i, j) && !s.table[i][j].isDone
    {
      assert s.table[i][j] == NewMatch(players[i], players[j], MatchIndex(i, j));
    }
  }

  /** A new table is sound, except that with one player there is nothing to play and
      yet it is not finished. */
  lemma StartIsSound(s: Standing, players: seq<User>)
    requires IsStart(s, players) && |players| >= 1
    ensures Sound(s, players) <==> |players| >= 2
  {
    hide Mirrored, DonePairs;
    StartIsMirrored(s, players);
    GamesCount(|players|);
    assert |players| >= 2 ==> (0, 1) in Pairs(|players|);
    assert |players| == 1 ==> Pairs(|players|) == {};
  }

  /** The standing after a run of moves, each fair when it is made. */
  ghost predicate Run(s: Standing, moves: seq<Move>, players: seq<User>, s': Standing)
    decreases |moves|
  {
    if moves == [] then s' == s
    else Fair(s, moves[0], players) && Run(Play(s, moves[0], players), moves[1..], players, s')
  }

  lemma {:induction false} RunKeepsSound(s: Standing, moves: seq<Move>, players: seq<User>, s': Standing)
    requires Sound(s, players) && Run(s, moves, players, s')
    ensures Sound(s', players)
    ensures |DonePairs(s'.table, |players|)| == |DonePairs(s.table, |players|)| + |moves|
    decreases |moves|
  {
    if moves != [] {
      PlayKeepsSound(s, moves[0], players);
      RunKeepsSound(Play(s, moves[0], players), moves[1..], players, s');
    }
  }

  /** Along every run from a new table: the counter counts the games played, and the
      competition is finished when and only when all n(n-1)/2 are. */
  lemma WholeRun(s: Standing, moves: seq<Move>, players: seq<User>, s': Standing)
    requires |players| >= 2 && IsStart(s, players) && Run(s, moves, players, s')
    ensures Sound(s', players)
    ensures s'.qtyFinishedGames == |moves| <= (|players| * |players| - |players|) / 2
    ensures s'.isCompetitionFinished <==> |moves| == (|players| * |players| - |players|) / 2
  {
    hide CellsAgree, DonePairs, IsStart, Run, Square, Pairs;
    StartIsMirrored(s, players);
    StartIsSound(s, players);
    RunKeepsSound(s, moves, players, s');
    GamesCount(|players|);
    DoneArePairs(s'.table, |players|);
    SubsetCount(DonePairs(s'.table, |players|), Pairs(|players|));
  }

  /** Along a run a cell keeps what it holds until its game is played, if it was not done
      before, and then the scores of that game. */
  lemma {:induction false} CellAlongRun(s: Standing, moves: seq<Move>, players: seq<User>, s': Standing, i: nat, j: nat)
    requires Mirrored(s.table, players) && Run(s, moves, players, s') && i < |players| && j < |players| && i != j
    ensures Square(s'.table, |players|)
    ensures (forall k :: 0 <= k < |moves| ==> !SamePair(moves[k], i, j)) ==> s'.table[i][j] == s.table[i][j]
    ensures forall k :: 0 <= k < |moves| && SamePair(moves[k], i, j) ==>
              && !s.table[i][j].isDone && HasScores(s'.table[i][j], moves[k], i)
              && forall l :: 0 <= l < |moves| && SamePair(moves[l], i, j) ==> l == k
    decreases |moves|
  {
    if moves != [] {
      var mv, rest := moves[0], moves[1..];
      var s1 := Play(s, mv, players);
      PlayWrites(s, mv, players);
      PlayKeepsMirror(s, mv, players);
      CellAlongRun(s1, rest, players, s', i, j);
      SameCell(s, players, i, j, mv);
      hide Play, Run, Fair, Mirrored, Square, HasScores, Scored, SamePair;
      forall k | 0 <= k < |moves| && SamePair(moves[k], i, j)
        ensures !s.table[i][j].isDone && HasScores(s'.table[i][j], moves[k], i)
        ensures forall l :: 0 <= l < |moves| && SamePair(moves[l], i, j) ==> l == k
      {
        assert forall l :: 1 <= l < |moves| ==> moves[l] == rest[l - 1];
        if k > 0 {
          assert SamePair(rest[k - 1], i, j);
        }
      }
    }
  }

  /** Both cells of a game are done or neither is. */
  lemma SameCell(s: Standing, players: seq<User>, i: nat, j: nat, mv: Move)
    requires Fair(s, mv, players) && i < |players| && j < |players|
    ensures SamePair(mv, i, j) ==> !s.table[i][j].isDone
    ensures var t' := Play(s, mv, players).table;
            Square(t', |players|) && (SamePair(mv, i, j) ==> t'[i][j].isDone && HasScores(t'[i][j], mv, i))
  {
    assert CellsAgree(s.table, players, mv.i, mv.j);
    PlayWrites(s, mv, players);
  }

  /** Along every run from a new table: a cell holds exactly the scores of the one move that
      played its game, or is unplayed if none did. */
  lemma CellsOfRun(s: Standing, moves: seq<Move>, players: seq<User>, s': Standing, i: nat, j: nat)
    requires IsStart(s, players) && Run(s, moves, players, s') && i < |players| && j < |players| && i != j
    ensures Square(s'.table, |players|)
    ensures (forall k :: 0 <= k < |moves| ==> !SamePair(moves[k], i, j)) ==> Unplayed(s'.table[i][j])
    ensures forall k :: 0 <= k < |moves| && SamePair(moves[k], i, j) ==>
              && HasScores(s'.table[i][j], moves[k], i)
              && forall l :: 0 <= l < |moves| && SamePair(moves[l], i, j) ==> l == k
  {
    StartIsMirrored(s, players);
    CellAlongRun(s, moves, players, s', i, j);
    hide Run, HasScores, SamePair;
    assert s.table[i][j] == NewMatch(players[i], players[j], MatchIndex(i, j));
  }

  // ---------- Points ----------

  /** calculatePointsOfPlayer, over a row. */
  function Wins(row: seq<Match>): nat {
    if row == [] then 0 else Wins(row[..|row| - 1]) + if row[|row| - 1].isWinned then 1 else 0
  }

  function TotalWins(t: Table): nat {
    if t == [] then 0 else TotalWins(t[..|t| - 1]) + Wins(t[|t| - 1])
  }

  ghost function WonInRow(row: seq<Match>, i: nat): set<Pair> {
    set j: nat | j < |row| && row[j].isWinned :: (i, j)
  }

  ghost function WonCells(t: Table): set<Pair> {
    set i: nat, j: nat | i < |t| && j < |t[i]| && t[i][j].isWinned :: (i, j)
  }

  lemma {:induction false} WinsCount(row: seq<Match>, i: nat)
    ensures Wins(row) == |WonInRow(row, i)|
  {
    if row != [] {
      var k := |row| - 1;
      WinsCount(row[..k], i);
      assert WonInRow(row, i) == WonInRow(row[..k], i) + if row[k].isWinned then {(i, k)} else {};
    } else {
      assert WonInRow(row, i) == {};
    }
  }

  lemma {:induction false} TotalWinsCount(t: Table)
    ensures TotalWins(t) == |WonCells(t)|
  {
    if t != [] {
      var k := |t| - 1;
      TotalWinsCount(t[..k]);
      WinsCount(t[k], k);
      assert WonCells(t) == WonCells(t[..k]) + WonInRow(t[k], k);
      assert WonCells(t[..k]) !! WonInRow(t[k], k);
    } else {
      assert WonCells(t) == {};
    }
  }

  ghost function Flipped(s: set<Pair>): set<Pair> {
    set p | p in s :: (p.1, p.0)
  }

  lemma {:induction false} FlippedCount(s: set<Pair>)
    ensures |Flipped(s)| == |s|
  {
    if s != {} {
      var p :| p in s;
      FlippedCount(s - {p});
      assert Flipped(s) == Flipped(s - {p}) + {(p.1, p.0)};
    } else {
      assert Flipped(s) == {};
    }
  }

  /** A game with a winner is won in exactly one of its two cells. */
  lemma WonOnce(t: Table, players: seq<User>, i: nat, j: nat)
    requires Mirrored(t, players) && i < |players| && j < |players|
    ensures t[i][j].isWinned ==> i != j && !t[j][i].isWinned
    ensures i < j ==> (t[i][j].isWinned || t[j][i].isWinned <==> (i, j) in DecisivePairs(t, |players|))
  {
    assert CellsAgree(t, players, i, j) && CellsAgree(t, players, j, i);
  }

  ghost function Above(s: set<Pair>): set<Pair> {
    set p | p in s && p.0 < p.1
  }

  ghost function Below(s: set<Pair>): set<Pair> {
    set p | p in s && p.1 < p.0
  }

  lemma WonCellsSplit(t: Table, players: seq<User>)
    requires Mirrored(t, players)
    ensures WonCells(t) == Above(WonCells(t)) + Below(WonCells(t))
  {
    forall i: nat | i < |players| ensures !t[i][i].isWinned {
      WonOnce(t, players, i, i);
    }
  }

  lemma DecisiveSplit(t: Table, players: seq<User>)
    requires Mirrored(t, players)
    ensures DecisivePairs(t, |players|) == Above(WonCells(t)) + Flipped(Below(WonCells(t)))
    ensures Above(WonCells(t)) !! Flipped(Below(WonCells(t)))
  {
    var n, won := |players|, WonCells(t);
    var lower := Flipped(Below(won));
    forall i: nat, j: nat | i < n && j < n ensures (i, j) in won <==> t[i][j].isWinned {
    }
    forall i: nat, j: nat
      ensures (i, j) in lower <==> i < j < n && t[j][i].isWinned
      ensures (i, j) in DecisivePairs(t, n) <==> i < j < n && (t[i][j].isWinned || t[j][i].isWinned)
      ensures i < j < n ==> !(t[i][j].isWinned && t[j][i].isWinned)
    {
      if i < j < n {
        WonOnce(t, players, i, j);
        assert (j, i) in Below(won) <==> t[j][i].isWinned;
      }
    }
  }

  /** The points of all players add up to the games that had a winner. */
  lemma PointsAddUp(t: Table, players: seq<User>)
    requires Mirrored(t, players)
    ensures TotalWins(t) == |DecisivePairs(t, |players|)| <= |DonePairs(t, |players|)|
  {
    hide TotalWins, WonCells, Flipped, CellsAgree;
    var won := WonCells(t);
    TotalWinsCount(t);
    WonCellsSplit(t, players);
    DecisiveSplit(t, players);
    FlippedCount(Below(won));
    SubsetCount(DecisivePairs(t, |players|), DonePairs(t, |players|));
  }

  /** Along every run the points of all players never exceed the games played, and they
      are as many exactly if none of these was a draw. */
  lemma PointsOfRun(s: Standing, moves: seq<Move>, players: seq<User>, s': Standing)
    requires |players| >= 2 && IsStart(s, players) && Run(s, moves, players, s')
    ensures Mirrored(s'.table, players) && TotalWins(s'.table) <= s'.qtyFinishedGames
    ensures TotalWins(s'.table) == s'.qtyFinishedGames <==> DecisivePairs(s'.table, |players|) == DonePairs(s'.table, |players|)
  {
    WholeRun(s, moves, players, s');
    PointsAddUp(s'.table, players);
    DecisiveAreDone(s'.table, players);
    hide IsStart, Run, TotalWins, CellsAgree, DecisivePairs, DonePairs;
    ProperSubsetCount(DecisivePairs(s'.table, |players|), DonePairs(s'.table, |players|));
  }

  lemma ProperSubsetCount(a: set<Pair>, b: set<Pair>)
    requires a <= b
    ensures |a| == |b| <==> a == b
  {
    if |a| == |b| {
      SubsetCount(b - a, b);
      assert |b - a| == |b| - |a|;
      assert b - a == {};
    }
  }

  lemma DecisiveAreDone(t: Table, players: seq<User>)
    requires Mirrored(t, players)
    ensures DecisivePairs(t, |players|) <= DonePairs(t, |players|)
  {
    forall p | p in DecisivePairs(t, |players|) ensures p in DonePairs(t, |players|) {
      assert CellsAgree(t, players, p.0, p.1);
    }
  }

  ghost function Won(row: seq<Match>, i: nat): set<nat>
    requires i <= |row|
  {
    set j: nat | j < i && row[j].isWinned
  }

  lemma OneMoreCell(row: seq<Match>, i: nat)
    requires i < |row|
    ensures |Won(row, i + 1)| == |Won(row, i)| + (if row[i].isWinned then 1 else 0)
    ensures Wins(row[..i + 1]) == Wins(row[..i]) + (if row[i].isWinned then 1 else 0)
  {
    assert row[..i + 1][..i] == row[..i];
    assert Won(row, i + 1) == Won(row, i) + if row[i].isWinned then {i} else {};
  }

  // ---------- The table as the app updates it ----------

  class CompetitionTable {
    var competitionTable: Table
    var qtyPlayers: int
    var qtyGames: int
    var qtyFinishedGames: int
    var isCompetitionFinished: bool

    function Now(): Standing
      reads this
    {
      Standing(competitionTable, qtyPlayers, qtyGames, qtyFinishedGames, isCompetitionFinished)
    }

    /** init(playersArray:); the range 0...count - 1 needs a player. */
    constructor (players: seq<User>)
      requires |players| >= 1
      ensures IsStart(Now(), players)
    {
      qtyFinishedGames, isCompetitionFinished := 0, false;
      new;
      competitionTable := CreateCompetitionTable(players);
      qtyPlayers := |players|;
      qtyGames := (qtyPlayers * qtyPlayers - qtyPlayers) / 2;
    }

    static method CreateCompetitionTable(players: seq<User>) returns (t: Table)
      ensures Square(t, |players|)
      ensures forall i: nat, j: nat :: i < |players| && j < |players| ==>
                t[i][j] == NewMatch(players[i], players[j], MatchIndex(i, j))
    {
      t := [];
      for i := 0 to |players|
        invariant |t| == i
        invariant forall k :: 0 <= k < i ==> |t[k]| == |players|
        invariant forall k: nat, j: nat :: k < i && j < |players| ==>
                    t[k][j] == NewMatch(players[k], players[j], MatchIndex(k, j))
      {
        var player := players[i];
        var row := [];
        for j := 0 to |players|
          invariant |row| == j
          invariant forall k: nat :: k < j ==> row[k] == NewMatch(player, players[k], MatchIndex(i, k))
        {
          row := row + [NewMatch(player, players[j], MatchIndex(i, j))];
        }
        t := t + [row];
      }
    }

    /** finishMatch. */
    method FinishMatch(match': Match)
      requires 0 <= match'.matchIndex.indexOfPlayer < |competitionTable|
      requires 0 <= match'.matchIndex.indexOfMatch < |competitionTable|
      requires Square(competitionTable, |competitionTable|)
      modifies this
      ensures Now() == Finished(old(Now()), match')
    {
      var mirror := match'.MakeMirrorMatch();
      var i, j := match'.matchIndex.indexOfPlayer, match'.matchIndex.indexOfMatch;
      competitionTable := competitionTable[i := competitionTable[i][j := match']];
      var i', j' := mirror.matchIndex.indexOfPlayer, mirror.matchIndex.indexOfMatch;
      competitionTable := competitionTable[i' := competitionTable[i'][j' := mirror]];
      qtyFinishedGames := qtyFinishedGames + 1;
      CheckFinish(qtyFinishedGames);
    }

    method CheckFinish(qtyFinishedGames: int)
      modifies this`isCompetitionFinished
      ensures isCompetitionFinished == (old(isCompetitionFinished) || qtyFinishedGames == qtyGames)
    {
      if qtyFinishedGames == qtyGames {
        isCompetitionFinished := true;
      }
    }

    /** What the app does with a chosen cell: copy the match, score it, finish it. */
    method PlayMatch(i: nat, j: nat, score1: int, score2: int, ghost players: seq<User>)
      requires Mirrored(competitionTable, players) && i < |players| && j < |players|
      modifies this
      ensures Now() == Play(old(Now()), Move(i, j, score1, score2), players)
      ensures old(Sound(Now(), players)) && old(Fair(Now(), Move(i, j, score1, score2), players)) ==> Sound(Now(), players)
      ensures Square(competitionTable, |players|)
      ensures i != j && !old(competitionTable[i][j].isDone) ==>
        && Scored(competitionTable[i][j], score1, score2) && Scored(competitionTable[j][i], score2, score1)
        && SameGame(competitionTable[i][j], old(competitionTable[i][j]))
        && SameGame(competitionTable[j][i], old(competitionTable[j][i]))
        && forall k: nat, l: nat :: k < |players| && l < |players| && (k, l) != (i, j) && (k, l) != (j, i) ==>
             competitionTable[k][l] == old(competitionTable[k][l])
    {
      ghost var s := Now();
      assert CellsAgree(competitionTable, players, i, j);
      var m := competitionTable[i][j].MakeMatch(score1, score2);
      FinishMatch(m);
      if Sound(s, players) && Fair(s, Move(i, j, score1, score2), players) {
        PlayKeepsSound(s, Move(i, j, score1, score2), players);
      }
    }

    /** calculatePointsOfPlayer, when this is the table the app shows. */
    method CalculatePointsOfPlayer(playerNumber: nat) returns (points: nat)
      requires playerNumber < |competitionTable| && |competitionTable[playerNumber]| > 0
      ensures points == |set j: nat | j < |competitionTable[playerNumber]| && competitionTable[playerNumber][j].isWinned|
      ensures points == Wins(competitionTable[playerNumber])
    {
      points := 0;
      var row := competitionTable[playerNumber];
      for i := 0 to |row|
        invariant points == Wins(row[..i]) == |Won(row, i)|
      {
        hide Won, Wins;
        OneMoreCell(row, i);
        match row[i].isWinned {
          case true => points := points + 1;
          case false => points := points + 0;
        }
      }
      assert row[..|row|] == row;
    }
  }
}
