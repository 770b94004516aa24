/**
 * A user's garden (Garden/views.py, createGarden in Accounts/utils.py): a size-by-size grid
 * of squares, each empty or holding a card, stored as the squares with ids 0 .. size*size-1.
 * The 1-based (row, col) of a request addresses square (row-1)*size + (col-1).
 */
module Garden {
  import opened Basics
  import Wallet

  /** The square a 1-based (row, col) addresses. */
  function SquareIndex(row: int, col: int, size: int): int
  {
    (row - 1) * size + (col - 1)
  }

  /** The 1-based row and column of a square id, inverse to `SquareIndex`. */
  function RowOf(id: nat, size: nat): int
    requires size > 0
  {
    id / size + 1
  }

  function ColOf(id: nat, size: nat): int
    requires size > 0
  {
    id % size + 1
  }

  /** Every in-grid (row, col) addresses a square of the grid, and (row, col) is recovered from it. */
  lemma SquareIndexInGrid(row: int, col: int, size: nat)
    requires 1 <= row <= size && 1 <= col <= size
    ensures 0 <= SquareIndex(row, col, size) < size * size
    ensures RowOf(SquareIndex(row, col, size), size) == row
    ensures ColOf(SquareIndex(row, col, size), size) == col
  {
    var id := SquareIndex(row, col, size);
    assert (row - 1) * size <= (size - 1) * size by {
      MulMono(row - 1, size - 1, size);
    }
    assert (size - 1) * size + (size - 1) == size * size - 1;
    DivModUnique(id, size, row - 1, col - 1);
  }

  /** Every square of the grid is addressed by exactly the (row, col) `RowOf` and `ColOf` give. */
  lemma SquareIndexOnto(id: nat, size: nat)
    requires id < size * size
    ensures size > 0
    ensures 1 <= RowOf(id, size) <= size && 1 <= ColOf(id, size) <= size
    ensures SquareIndex(RowOf(id, size), ColOf(id, size), size) == id
  {
    var q, m := id / size, id % size;
    assert id == q * size + m;
    if q >= size {
      MulMono(size, q, size);
      assert false;
    }
  }

  /** A column one past the edge of row 1 addresses the first square of row 2: columns are not bounds-checked. */
  lemma ColumnOverflowWraps(size: nat)
    requires size >= 2
    ensures SquareIndex(1, size + 1, size) == SquareIndex(2, 1, size)
    ensures 0 <= SquareIndex(1, size + 1, size) < size * size
  {
    MulMono(2, size, size);
  }

  lemma MulMono(a: int, b: int, c: nat)
    requires a <= b
    ensures a * c <= b * c
  {
  }

  lemma MulStep(a: int, c: int)
    ensures (a + 1) * c == a * c + c
  {
  }

  lemma DivModUnique(id: int, size: nat, q: int, m: int)
    requires size > 0 && 0 <= m < size && 0 <= q && id == q * size + m
    ensures id / size == q && id % size == m
  {
    var q', m' := id / size, id % size;
    assert q' * size + m' == q * size + m;
    if q' < q {
      MulMono(q' + 1, q, size);
      MulStep(q', size);
      assert false;
    } else if q' > q {
      MulMono(q + 1, q', size);
      MulStep(q, size);
      assert false;
    }
  }

  /** Row-major grid of the squares: row i, column j is square i*size + j. */
  function Reshape<T>(s: seq<T>, size: nat): (grid: seq<seq<T>>)
    requires size * size <= |s|
    ensures |grid| == size
    ensures forall i :: 0 <= i < size ==> |grid[i]| == size
  {
    Chunks(s, size, size)
  }

  /** The first n rows of length size, cut from the front of s. */
  function Chunks<T>(s: seq<T>, size: nat, n: nat): (grid: seq<seq<T>>)
    requires n * size <= |s|
    ensures |grid| == n
    ensures forall i :: 0 <= i < n ==> |grid[i]| == size
    decreases n
  {
    if n == 0 then []
    else
      MulStep(n - 1, size);
      [s[..size]] + Chunks(s[size..], size, n - 1)
  }

  lemma {:induction false} ChunkCell<T>(s: seq<T>, size: nat, n: nat, i: nat, j: nat)
    requires n * size <= |s| && i < n && j < size
    ensures i * size + j < |s|
    ensures Chunks(s, size, n)[i][j] == s[i * size + j]
    decreases n
  {
    MulStep(n - 1, size);
    MulMono(i + 1, n, size);
    MulStep(i, size);
    if i > 0 {
      ChunkCell(s[size..], size, n - 1, i - 1, j);
      MulStep(i - 1, size);
    }
  }

  /** Concatenation of the rows of a grid. */
  function Flatten<T>(grid: seq<seq<T>>): seq<T>
  {
    if grid == [] then [] else grid[0] + Flatten(grid[1..])
  }

  /** Reading the grid row by row gives back the squares in id order. */
  lemma FlattenReshape<T>(s: seq<T>, size: nat)
    requires size * size <= |s|
    ensures Flatten(Reshape(s, size)) == s[..size * size]
  {
    FlattenChunks(s, size, size);
  }

  lemma {:induction false} FlattenChunks<T>(s: seq<T>, size: nat, n: nat)
    requires n * size <= |s|
    ensures Flatten(Chunks(s, size, n)) == s[..n * size]
    decreases n
  {
    if n > 0 {
      MulStep(n - 1, size);
      var rest := s[size..];
      FlattenChunks(rest, size, n - 1);
      var grid := Chunks(s, size, n);
      assert grid[1..] == Chunks(rest, size, n - 1);
      assert s[..n * size] == s[..size] + rest[..(n - 1) * size];
    }
  }

  /** The grid cell a request's (row, col) names is the square it addresses. */
  lemma CellIsAddressedSquare<T>(s: seq<T>, size: nat, row: int, col: int)
    requires size * size <= |s|
    requires 1 <= row <= size && 1 <= col <= size
    ensures 0 <= SquareIndex(row, col, size) < size * size
    ensures Reshape(s, size)[row - 1][col - 1] == s[SquareIndex(row, col, size)]
  {
    SquareIndexInGrid(row, col, size);
    var i: nat, j: nat := row - 1, col - 1;
    ChunkCell(s, size, size, i, j);
    assert SquareIndex(row, col, size) == i * size + j;
  }

  /**
   * `getAvailableCards`: the cards the user holds at least one of and that no square shows.
   * `show_garden` and the profile page list the same without the quantity condition.
   */
  function AvailableCards(owned: map<CardId, int>, squares: seq<Option<CardId>>, needQuantity: bool): set<CardId>
  {
    set c | c in owned && (!needQuantity || owned[c] > 0) && Some(c) !in squares
  }

  /** A card just placed on a square is no longer available. */
  lemma PlacedNotAvailable(owned: map<CardId, int>, squares: seq<Option<CardId>>, id: nat, c: CardId, needQuantity: bool)
    requires id < |squares|
    ensures c !in AvailableCards(owned, squares[id := Some(c)], needQuantity)
    ensures AvailableCards(owned, squares[id := Some(c)], needQuantity) <= AvailableCards(owned, squares, needQuantity) + (if squares[id].Some? then {squares[id].value} else {})
  {
    var after := squares[id := Some(c)];
    assert after[id] == Some(c);
    forall d | d in AvailableCards(owned, after, needQuantity) && (squares[id].None? || d != squares[id].value)
      ensures Some(d) !in squares
    {
      assert forall k :: 0 <= k < |squares| && k != id ==> after[k] == squares[k];
    }
  }

  /** Clearing the only square that shows a held card makes the card available again. */
  lemma RemovedAvailableAgain(owned: map<CardId, int>, squares: seq<Option<CardId>>, id: nat, c: CardId)
    requires id < |squares| && squares[id] == Some(c)
    requires forall k :: 0 <= k < |squares| && k != id ==> squares[k] != Some(c)
    requires c in owned && owned[c] > 0
    ensures c in AvailableCards(owned, squares[id := None], true)
  {
  }

  /** The quantity condition only narrows the list. */
  lemma QuantityFilterNarrows(owned: map<CardId, int>, squares: seq<Option<CardId>>)
    ensures AvailableCards(owned, squares, true) <= AvailableCards(owned, squares, false)
    ensures forall c :: c in AvailableCards(owned, squares, false) && owned[c] > 0 ==> c in AvailableCards(owned, squares, true)
  {
  }

  /** The responses of `addCard` and `remove_card`; `ServerError` is the 500 of a failed `get`. */
  datatype GardenReply = Success(message: string) | ServerError | NoResponse

  class GardenGrid {
    const owner: UserId
    const size: nat
    /** `gardenSquare.cardID` by `squareID`. */
    const squares: array<Option<CardId>>

    ghost predicate Valid()
      reads this
    {
      squares.Length == size * size
    }

    /** `createGarden`: a garden of the given size and one empty square per id. */
    constructor (user: UserId, gardenSize: nat)
      ensures Valid()
      ensures owner == user && size == gardenSize
      ensures fresh(squares)
      ensures forall i :: 0 <= i < squares.Length ==> squares[i] == None
    {
      owner, size := user, gardenSize;
      squares := new Option<CardId>[gardenSize * gardenSize];
      new;
      for i := 0 to gardenSize * gardenSize
        invariant forall k :: 0 <= k < i ==> squares[k] == None
      {
        squares[i] := None;
      }
    }

    /** `remove_card`: a POST empties the addressed square; every request reports success. */
    method RemoveCard(isPost: bool, row: int, col: int) returns (r: GardenReply)
      requires Valid()
      modifies squares
      ensures Valid()
      ensures !isPost ==> r == Success("Card removed!") && squares[..] == old(squares[..])
      ensures isPost && !(0 <= SquareIndex(row, col, size) < squares.Length) ==>
                r == ServerError && squares[..] == old(squares[..])
      ensures isPost && 0 <= SquareIndex(row, col, size) < squares.Length ==>
                r == Success("Card removed!") && squares[..] == old(squares[..])[SquareIndex(row, col, size) := None]
    {
      if isPost {
        var id := SquareIndex(row, col, size);
        if !(0 <= id < squares.Length) {
          return ServerError;
        }
        squares[id] := None;
      }
      r := Success("Card removed!");
    }

    /**
     * `addCard`: a POST puts the card on the addressed square, whatever it held. The card and the
     * user's ownership row must exist; the quantity decrement is made on an object that is never
     * saved, so the stored quantity does not change.
     */
    method AddCard(u: Wallet.Account, catalog: set<CardId>, isPost: bool, row: int, col: int, cardId: CardId)
      returns (r: GardenReply)
      requires Valid()
      modifies squares
      ensures Valid()
      ensures !isPost ==> r == NoResponse && squares[..] == old(squares[..])
      ensures isPost && (cardId !in catalog || !(0 <= SquareIndex(row, col, size) < squares.Length) || cardId !in u.owned) ==>
                r == ServerError && squares[..] == old(squares[..])
      ensures isPost && cardId in catalog && 0 <= SquareIndex(row, col, size) < squares.Length && cardId in u.owned ==>
                r == Success("Card added!") && squares[..] == old(squares[..])[SquareIndex(row, col, size) := Some(cardId)]
    {
      if !isPost {
        return NoResponse;
      }
      if cardId !in catalog {
        return ServerError;
      }
      var id := SquareIndex(row, col, size);
      if !(0 <= id < squares.Length) {
        return ServerError;
      }
      if cardId !in u.owned {
        return ServerError;
      }
      squares[id] := Some(cardId);
      r := Success("Card added!");
    }

    /** The `getAvailableCards` response: the cards held at least once that no square of this garden shows. */
    function Available(u: Wallet.Account): (cards: set<CardId>)
      reads this, squares, u
      ensures forall c :: c in cards <==>
                c in u.owned && u.owned[c] > 0 && forall k :: 0 <= k < squares.Length ==> squares[k] != Some(c)
    {
      AvailableCards(u.owned, squares[..], true)
    }

    /** The `show_garden` squares: `size` rows of `size`, which read row by row give every square in id order. */
    function Grid(): (grid: seq<seq<Option<CardId>>>)
      reads this, squares
      requires Valid()
      ensures |grid| == size && forall i :: 0 <= i < size ==> |grid[i]| == size
      ensures Flatten(grid) == squares[..]
    {
      FlattenReshape(squares[..], size);
      assert squares[..][..size * size] == squares[..];
      Reshape(squares[..], size)
    }
  }
}
