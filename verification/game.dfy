/**
 * The turn logic of web/src/game.ts: `update` dispatches a move request to the board
 * and flips the turn flag on success, or answers a highlight request with the legal
 * moves of a square. Drawing and the notifier are not modelled; what would be handed
 * to the display is returned instead.
 */
module Game {
  import opened Options
  import opened Pieces
  import opened Board
  import opened Moves

  datatype Game = Game(board: Board, whitesTurn: bool)

  /** The two `GameEventType`s `update` reacts to. */
  datatype Event = MovePieceEvent(move: Move) | HighlightLegalMoves(square: int)

  /**
   * What `update` leaves: the game, and the list handed to `highlightLegalMoves`, if
   * any; or the board's failure.
   */
  datatype Reaction = Reaction(game: Game, highlighted: Option<seq<int>>) | Halted(fault: Fault)

  /** The colour whose turn the flag says it is. */
  function TurnColor(whitesTurn: bool): (c: Color)
  {
    if whitesTurn then White else Black
  }

  /** The constructor: a new board, white to move. */
  function NewGame(): (g: Game)
    ensures g.whitesTurn && Valid(g.board) && g.board.prevStates == []
    ensures SamePieces(InitialState(), g.board.state)
  {
    Game(InitialBoard(), true)
  }

  /**
   * The colour of the piece an event moves, when the event is a move that the board
   * carries out; None for a highlight, a move onto its own square, or a refused move.
   * The board's gate makes it the colour whose turn it is.
   */
  function Mover(g: Game, e: Event): (c: Option<Color>)
    requires Valid(g.board)
    ensures c.Some? ==> c.value == TurnColor(g.whitesTurn)
  {
    match e
    case HighlightLegalMoves(_) => None
    case MovePieceEvent(m) =>
      if m.from != m.to && Succeeded(g.board, m, g.whitesTurn) then
        SucceededShape(g.board, m, g.whitesTurn);
        Some(g.board.state[m.from].value.color)
      else None
  }

  /**
   * `update(event)`: a highlight hands over the square's legal moves; a move onto another
   * square goes to the board, whose new position is kept and whose success flips the turn.
   */
  function Update(g: Game, e: Event): (r: Reaction)
    requires Valid(g.board)
    ensures r.Reaction? ==> Valid(r.game.board)
    ensures e.HighlightLegalMoves? ==> r == Reaction(g, Some(GetLegalMoves(g.board, e.square)))
    ensures e.MovePieceEvent? && e.move.from == e.move.to ==> r == Reaction(g, None)
    ensures e.MovePieceEvent? && !Accepts(g.board, e.move, g.whitesTurn) ==> r == Reaction(g, None)
    ensures r.Reaction? ==> (r.game.whitesTurn != g.whitesTurn <==> Mover(g, e).Some?)
    ensures r.Reaction? && Mover(g, e).None? ==> r.game == g
    ensures r.Halted? ==> e.MovePieceEvent? && Accepts(g.board, e.move, g.whitesTurn)
    ensures r.Reaction? && Mover(g, e).Some? ==>
      r.game.board == MovePiece(g.board, e.move, g.whitesTurn).board
    ensures e.MovePieceEvent? && e.move.from != e.move.to && MovePiece(g.board, e.move, g.whitesTurn).Crash? ==>
      r == Halted(MovePiece(g.board, e.move, g.whitesTurn).fault)
  {
    match e
    case HighlightLegalMoves(square) => Reaction(g, Some(GetLegalMoves(g.board, square)))
    case MovePieceEvent(m) =>
      if m.from == m.to then Reaction(g, None)
      else
        match MovePiece(g.board, m, g.whitesTurn)
        case Crash(f) => Halted(f)
        case Done(b, op) =>
          if op.success then Reaction(Game(b, !g.whitesTurn), None)
          else Reaction(g, None)
  }

  /** A sequence of events and the colours of the pieces moved, in order. */
  datatype Run = Run(game: Game, movers: seq<Color>) | RunHalted(fault: Fault)

  function Play(g: Game, events: seq<Event>): (r: Run)
    requires Valid(g.board)
    ensures r.Run? ==> Valid(r.game.board)
    ensures r.Run? ==> |r.movers| <= |events|
    decreases |events|
  {
    if events == [] then Run(g, [])
    else
      match Update(g, events[0])
      case Halted(f) => RunHalted(f)
      case Reaction(g1, _) =>
        var moved := Mover(g, events[0]);
        match Play(g1, events[1..])
        case RunHalted(f) => RunHalted(f)
        case Run(gn, ms) => Run(gn, (if moved.Some? then [moved.value] else []) + ms)
  }

  /** A colour sequence that starts with `c` and switches colour at every entry. */
  predicate Alternates(ms: seq<Color>, c: Color)
    decreases |ms|
  {
    ms == [] || (ms[0] == c && Alternates(ms[1..], Adversary(c)))
  }

  /** Alternation by position: entry i is `c` for even i and the other colour for odd i. */
  lemma {:induction false} AlternatesByIndex(ms: seq<Color>, c: Color, i: int)
    requires Alternates(ms, c) && 0 <= i < |ms|
    ensures ms[i] == (if i % 2 == 0 then c else Adversary(c))
    decreases i
  {
    if i > 0 {
      AlternatesByIndex(ms[1..], Adversary(c), i - 1);
      assert Adversary(Adversary(c)) == c;
    }
  }

  /** One step of a run: a move by the side to move, or no move and no turn change, keeps the alternation. */
  lemma StepAlternates(moved: Option<Color>, t0: bool, t1: bool, ms: seq<Color>, tn: bool)
    requires (t1 != t0) <==> moved.Some?
    requires moved.Some? ==> moved.value == TurnColor(t0)
    requires Alternates(ms, TurnColor(t1)) && tn == (t1 != (|ms| % 2 == 1))
    ensures var all := (if moved.Some? then [moved.value] else []) + ms;
      Alternates(all, TurnColor(t0)) && tn == (t0 != (|all| % 2 == 1))
  {
    var all := (if moved.Some? then [moved.value] else []) + ms;
    if moved.Some? {
      assert TurnColor(t1) == Adversary(TurnColor(t0));
      assert all[1..] == ms;
      assert |all| == |ms| + 1;
      ParityStep(|ms|);
    } else {
      assert all == ms;
    }
  }

  lemma ParityStep(n: nat)
    ensures ((n + 1) % 2 == 1) == !(n % 2 == 1)
  {
  }

  /**
   * Moves alternate colours, starting with the colour whose turn it is, and the final
   * turn flag is the starting one flipped once per move.
   */
  lemma {:induction false} PlayAlternates(g: Game, events: seq<Event>)
    requires Valid(g.board)
    ensures var r := Play(g, events);
      r.Run? ==> Alternates(r.movers, TurnColor(g.whitesTurn))
                 && r.game.whitesTurn == (g.whitesTurn != (|r.movers| % 2 == 1))
    decreases |events|
  {
    if events != [] {
      var u := Update(g, events[0]);
      if u.Reaction? {
        var g1 := u.game;
        var moved := Mover(g, events[0]);
        PlayAlternates(g1, events[1..]);
        var rest := Play(g1, events[1..]);
        if rest.Run? {
          var head := if moved.Some? then [moved.value] else [];
          assert Play(g, events) == Run(rest.game, head + rest.movers);
          StepAlternates(moved, g.whitesTurn, g1.whitesTurn, rest.movers, rest.game.whitesTurn);
        }
      }
    }
  }

  /** From a new game, the first piece moved is white and the colours alternate from there. */
  lemma NewGameAlternates(events: seq<Event>, i: int)
    requires var r := Play(NewGame(), events); r.Run? && 0 <= i < |r.movers|
    ensures Play(NewGame(), events).movers[i] == (if i % 2 == 0 then White else Black)
  {
    PlayAlternates(NewGame(), events);
    AlternatesByIndex(Play(NewGame(), events).movers, White, i);
  }
}
