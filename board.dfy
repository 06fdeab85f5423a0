/** The TicTacToe namespace: players, the 3x3 board and the name a match gives its board. */
module TicTacToe {

  /** A player: the number it plays under and its display name. */
  datatype Player = Player(number: int, name: string)

  /** The character an unplayed cell holds. */
  const EmptyCell: char := ' '

  /** Three cells per row and per column. */
  const Size: nat := 3

  class Board {
    /** The name a board gets when it is built without one. */
    const DefaultBoardName: string := "Unnamed Board"

    /** The 3x3 grid of cells; the array itself is never replaced, only its cells. */
    const board: array2<char>
    var boardName: string

    /** The grid has the fixed 3x3 shape. */
    predicate Valid()
    {
      board.Length0 == Size && board.Length1 == Size
    }

    /** Every one of the nine cells holds the empty mark. */
    predicate IsBlank()
      requires Valid()
      reads board
    {
      forall i, j :: 0 <= i < Size && 0 <= j < Size ==> board[i, j] == EmptyCell
    }

    /** The default constructor: a blank grid under the default name. */
    constructor ()
      ensures Valid() && fresh(board)
      ensures IsBlank()
      ensures boardName == "Unnamed Board"
    {
      board := new char[Size, Size]((i, j) => '\0');
      boardName := DefaultBoardName;
      new;
      InitializeBoard();
    }

    /** The named constructor: a blank grid under the name it is given. */
    constructor Named(name: string)
      ensures Valid() && fresh(board)
      ensures IsBlank()
      ensures boardName == name
    {
      board := new char[Size, Size]((i, j) => '\0');
      boardName := name;
      new;
      InitializeBoard();
    }

    /** Fills every cell with the empty mark, row by row; only the grid's cells change. */
    method InitializeBoard()
      requires Valid()
      modifies board
      ensures IsBlank()
      ensures boardName == old(boardName)
    {
      for i := 0 to Size
        invariant forall r, c :: 0 <= r < i && 0 <= c < Size ==> board[r, c] == EmptyCell
      {
        for j := 0 to Size
          invariant forall r, c :: 0 <= r < i && 0 <= c < Size ==> board[r, c] == EmptyCell
          invariant forall c :: 0 <= c < j ==> board[i, c] == EmptyCell
        {
          board[i, j] := EmptyCell;
        }
      }
    }

    /** Win detection is not written yet: no content of the grid is a win, and nothing is read. */
    function HasWinner(): (won: bool)
      ensures !won
    {
      false
    }
  }

  /** The name a match gives its board: player 1's name, " vs ", player 2's name. */
  function MatchBoardName(player1: Player, player2: Player): (name: string)
    ensures |name| == |player1.name| + 4 + |player2.name|
    ensures name[..|player1.name|] == player1.name
    ensures name[|player1.name|..|player1.name| + 4] == " vs "
    ensures name[|player1.name| + 4..] == player2.name
  {
    player1.name + " vs " + player2.name
  }

  /** The start of a match: a fresh blank board named after both players, on which nobody has won. */
  method StartMatch(player1: Player, player2: Player) returns (board: Board)
    ensures fresh(board) && fresh(board.board) && board.Valid()
    ensures board.IsBlank()
    ensures board.boardName == MatchBoardName(player1, player2)
    ensures !board.HasWinner()
  {
    var boardName := MatchBoardName(player1, player2);
    board := new Board.Named(boardName);
  }
}
