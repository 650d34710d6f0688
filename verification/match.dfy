/** One cell of a competition table. Swift structs are values, so a match is one too:
    a mutating method becomes a function to the changed value. */
module Matches {

  datatype User = User(firstName: string, lastName: string, nick: string)

  datatype MatchIndex = MatchIndex(indexOfPlayer: int, indexOfMatch: int)

  datatype Match = Match(player1: User, player2: User, isDone: bool, isWinned: bool,
                         scorePlayer1: int, scorePlayer2: int, matchIndex: MatchIndex)
  {
    /** makeMatch. */
    function MakeMatch(score1: int, score2: int): Match {
      if !isDone then
        this.(scorePlayer1 := score1, scorePlayer2 := score2, isDone := true, isWinned := score1 > score2)
      else
        this
    }

    /** makeMirrorMatch: the same game as the second player sees it. */
    function MakeMirrorMatch(): Match {
      Match(player2, player1, isDone, scorePlayer2 > scorePlayer1, scorePlayer2, scorePlayer1,
            MatchIndex(matchIndex.indexOfMatch, matchIndex.indexOfPlayer))
    }

    /** The flag says what the scores say. */
    ghost predicate Truthful() {
      isWinned <==> scorePlayer1 > scorePlayer2
    }
  }

  function NewMatch(player1: User, player2: User, matchIndex: MatchIndex): Match {
    Match(player1, player2, false, false, 0, 0, matchIndex)
  }

  /** The match is done with these scores, the first player's first. */
  predicate Scored(m: Match, a: int, b: int) {
    m.isDone && m.scorePlayer1 == a && m.scorePlayer2 == b && (m.isWinned <==> a > b)
  }

  /** Not played yet. */
  predicate Unplayed(m: Match) {
    !m.isDone && !m.isWinned && m.scorePlayer1 == 0 && m.scorePlayer2 == 0
  }

  /** The same players in the same cell. */
  predicate SameGame(m: Match, m': Match) {
    m.player1 == m'.player1 && m.player2 == m'.player2 && m.matchIndex == m'.matchIndex
  }

  /** Mirroring twice gives the match back exactly if its flag is truthful, which
      making it, or mirroring any match, establishes. */
  lemma MirrorTwice(m: Match)
    ensures m.MakeMirrorMatch().MakeMirrorMatch() == m <==> m.Truthful()
    ensures m.MakeMirrorMatch().Truthful()
  {
  }

  lemma MakeMatchOnce(m: Match, a: int, b: int, c: int, d: int)
    requires m.Truthful()
    ensures m.MakeMatch(a, b).Truthful() && m.MakeMatch(a, b).isDone
    ensures m.MakeMatch(a, b).MakeMatch(c, d) == m.MakeMatch(a, b)
    ensures !m.isDone ==> Scored(m.MakeMatch(a, b), a, b) && SameGame(m.MakeMatch(a, b), m)
    ensures !m.isDone ==> Scored(m.MakeMatch(a, b).MakeMirrorMatch(), b, a)
  {
  }
}
