# Stacked: a verified model of the puzzle engine

Stacked is a grid puzzle. Coloured pieces sit on a board with barrier cells.
A move pushes every piece one way: all pieces that can step one cell in that
direction do so at the same moment, and this repeats until none can. A piece
may step onto a free open cell, or onto a cell whose first other occupant has
its own colour, where the two stack and merge into one. The puzzle is solved
when no colour occurs on more than one piece. Three solvers search the states
reachable by the four moves: breadth-first with a queue, depth-first with a
stack, and a recursive depth-first search. All three identify states by a
text key made from the sorted pieces.

This project models that engine in Dafny, file by file in the shape of the
Java source:

- `pieces.dfy`: `ColoredPiece`, a class whose colour is fixed and whose
  coordinates change through setters. It also defines the value type `Piece`
  that the engine stores.
- `game_state.dfy`: `GameState`, a class holding the piece list, a
  `height x width` barrier array and an optional snapshot. Its methods are
  `canMove`, the two loops of `movePieces` and its recursion, `mergePieces`,
  `isGameComplete`, `copy`, `saveInitialState` and `reset`. Each method is
  proved against a function of the modules below.
- `rules.dfy` and `merging.dfy`: the transition rules as functions (the
  first-occupant scan of `canMove`, the synchronous step, the push as the code
  writes it, and the merge loop). The merge loop is checked against an
  independent reference definition (keep the first occurrence of each piece).
- `push_facts.dfy` and `completion.dfy`: what a push guarantees, and what
  "complete" means.
- `state_key.dfy`: `getStateHash` as a value. It covers the sort by
  (colour, x, y), the decimal text `color,x,y;`, and the proof that two
  duplicate-free piece lists have the same key exactly when they hold the same
  pieces.
- `universe.dfy`, `search.dfy` and `explore.dfy`: the finite set of keys a
  search can meet, replaying a move string, the set of keys reachable by
  some move string, and the bookkeeping shared by the search loops.
- `layers.dfy`: the level structure of the breadth-first queue, from which
  the first complete node it polls carries a shortest solution.
- `solver.dfy`: the three solvers as imperative methods over `GameState`
  objects. Each search proves that a returned move string replays to a
  complete state, and that a search finding nothing has shown that no move
  string completes the puzzle and has counted exactly the reachable keys.
  The breadth-first search also returns a shortest solution.

The preconditions on the starting state are the ones the board editor
establishes when it creates a game (`src/GameBoardDesign.java:187-205`):
every piece is in bounds and off barriers, a cell holds one colour, and no
piece is listed twice. Together these are `Rules.Sane`.

Three behaviours of the code are easy to miss; the model follows the code in
each:

- When nothing can move, `movePieces` returns before merging
  (`src/GameState.java:91-92`). `Merging.MergeOfNoDup` shows that this makes
  no difference on a duplicate-free list.
- The recursive search checks completeness before it counts the state. An
  already complete start therefore reports a count of 0, not 1
  (`src/GameSolver.java:152-154`).
- `copy` and `reset` copy the barrier array element by element rather than
  sharing it (`src/GameState.java:37-39`, `48-50`).

## Model

| member | source | states |
|---|---|---|
| Pieces.ColoredPiece.constructor | src/ColoredPiece.java:5-9 | the new piece holds exactly the given colour, x and y |
| Pieces.ColoredPiece.GetColor | src/ColoredPiece.java:11 | returns the colour and changes nothing |
| Pieces.ColoredPiece.GetX | src/ColoredPiece.java:12 | returns x and changes nothing |
| Pieces.ColoredPiece.GetY | src/ColoredPiece.java:13 | returns y and changes nothing |
| Pieces.ColoredPiece.SetX | src/ColoredPiece.java:14 | only x changes; colour and y stay |
| Pieces.ColoredPiece.SetY | src/ColoredPiece.java:15 | only y changes; colour and x stay |
| Pieces.ColoredPiece.Shift | src/GameState.java:88-89 | the two setter calls of a push move the piece by (dx, dy) and keep its colour |
| Merging.FindDup | src/GameState.java:102-115 | the nested scan finds the first identical pair (a, b), a < b, in scan order, or reports that the list has no duplicates |
| Merging.RemoveAt | src/GameState.java:109 | the list loses exactly one copy of the removed piece; the pieces before it keep their places and those after it move up by one |
| Merging.FirstDup | src/GameState.java:100-116 | the scan from the start finds an identical pair (a, b), a < b, with none before it in scan order, and finds none exactly when no piece is repeated |
| Merging.Merge | src/GameState.java:98-117 | the merge loop ends with no two identical pieces and the same set of pieces, and never lengthens the list |
| Merging.DedupRemoveRepeat | src/GameState.java:109 | deleting a later repeat of a piece does not change which first occurrences remain |
| Merging.DedupOfNoDup | src/GameState.java:98-117 | a list without repeats is its own deduplication |
| Merging.MergeIsDedup | src/GameState.java:98-117 | the merge loop keeps exactly the first occurrence of every piece, in order |
| Merging.MergeOfNoDup | src/GameState.java:98-117 | merging a duplicate-free list leaves it unchanged |
| Merging.MergeIdempotent | src/GameState.java:98-117 | merging twice is merging once |
| Rules.Blocker | src/GameState.java:66-74 | the scan returns the first index other than the moving piece whose piece is on the target cell, or reports there is none |
| Rules.CanMove | src/GameState.java:54-77 | a piece may step iff the target is in bounds, not a barrier, and the first other piece on it (if any) has its colour |
| Rules.Step | src/GameState.java:80-90 | one synchronous step keeps the number of pieces; each piece keeps its colour and either stays or moves by exactly (dx, dy); a piece that moved is on an open cell |
| Rules.AnyMovable | src/GameState.java:80-91 | for a unit move, some piece can move iff the step changes the list, which is when the recursion continues |
| Rules.NothingMoves | src/GameState.java:91-92 | when no piece can move, a step and a push leave the list exactly as it was (no merge) |
| Rules.StepProgress | src/GameState.java:79-94 | a step keeps pieces in bounds; when some piece moves, the total distance to the wall drops, so the recursion ends |
| Rules.DistanceCompare | src/GameState.java:87-90 | moving pieces forward never raises the termination measure, and strictly lowers it if one piece moved |
| Rules.Slide | src/GameState.java:79-94 | repeating steps ends in bounds with no piece movable, each piece keeping its colour and cross coordinate and only advancing |
| Rules.Move | src/GameState.java:79-96 | a push keeps every piece in bounds |
| Pushes.CanMoveEnterable | src/GameState.java:66-73 | with one colour per cell, "first other occupant has my colour" equals "no occupant of another colour" |
| Pushes.CanMoveThenEnterable | src/GameState.java:66-73 | a piece that can move finds only its own colour on an open target |
| Pushes.EnterableThenCanMove | src/GameState.java:58-76 | an open target holding only the piece's colour lets it move |
| Pushes.StepKeepsOpen | src/GameState.java:58-64 | a step never puts a piece out of bounds or on a barrier |
| Pushes.StepOpenAt | src/GameState.java:58-64 | each piece after a step is on an open cell |
| Pushes.StepKeepsOneColor | src/GameState.java:66-90 | a step keeps "pieces sharing a cell have one colour", because pieces move together from one snapshot |
| Pushes.StepColorsAt | src/GameState.java:66-90 | two pieces on one cell after a step have the same colour |
| Pushes.SlideKeepsInvariant | src/GameState.java:79-94 | the repeated steps keep pieces on open cells with one colour per cell |
| Pushes.MoveIsMergedSlide | src/GameState.java:79-96 | merging once per recursion level is the same as sliding to the end and merging once |
| Pushes.MovePreservesSane | src/GameState.java:79-117 | a push keeps pieces on open cells, one colour per cell, and no repeated piece |
| Pushes.AnyMovableByMembers | src/GameState.java:80-85 | whether anything can move depends only on which pieces are present |
| Pushes.EnterableByMembers | src/GameState.java:66-73 | whether a cell can be entered depends only on which pieces are present |
| Pushes.MoveFixedPoint | src/GameState.java:79-96 | after a push no piece can move in that direction |
| Pushes.SlideOneColor | src/GameState.java:79-94 | the repeated steps keep one colour per cell |
| Pushes.MoveTwice | src/GameState.java:79-96 | pushing twice in the same direction is pushing once |
| Pushes.TracksThroughMerge | src/GameState.java:87-117 | moving pieces forward and then merging relates the old and new pieces both ways |
| Pushes.MoveTracksPieces | src/GameState.java:79-117 | every piece ends up ahead of where it was, with its colour and cross coordinate, and every resulting piece came from one |
| Pushes.ColorsFromTracks | src/GameState.java:79-117 | pieces related that way have the same set of colours |
| Pushes.ColorsReached | src/GameState.java:79-117 | a push introduces no new colour |
| Pushes.ColorsKept | src/GameState.java:79-117 | a push loses no colour |
| Pushes.MoveKeepsColors | src/GameState.java:79-117 | a push never changes the set of colours present |
| Pushes.StepMembers | src/GameState.java:80-90 | steps of two lists with the same pieces give the same pieces |
| Pushes.StepMemberAt | src/GameState.java:80-90 | each piece of one list after a step is present after a step of the other |
| Pushes.MoveRespectsMembers | src/GameState.java:79-117 | a push gives the same pieces whatever the order of the list |
| Completion.Complete | src/GameState.java:119-130 | no two pieces share a colour; a board with at most one piece is complete (what "complete" means is tied to the counting by Completion.CompleteIffCountsAtMostOne) |
| Completion.ColorCount | src/GameState.java:120-124 | the count of a colour, taken piece by piece as the map is filled, never exceeds the number of pieces |
| Completion.ColorCountPositive | src/GameState.java:120-124 | a colour's count is positive iff some piece has that colour |
| Completion.CompleteIffCountsAtMostOne | src/GameState.java:119-130 | complete (no two pieces share a colour) iff every colour count is at most one; an empty list is complete |
| Completion.CompleteByMembers | src/GameState.java:119-130 | duplicate-free lists with the same pieces are complete together |
| States.GameState.constructor | src/GameState.java:12-17 | a state of the given size with no pieces, an all-zero barrier array and no snapshot |
| States.GameState.Copy | src/GameState.java:43-52 | new objects with equal pieces, equal barriers, the same size and no snapshot |
| States.GameState.SaveInitialState | src/GameState.java:27-29 | the snapshot is a new copy holding the current pieces and board, with no snapshot of its own |
| States.GameState.Reset | src/GameState.java:31-41 | restores the snapshot's pieces and barriers; without a snapshot nothing changes |
| States.GameState.CanMove | src/GameState.java:54-77 | returns the rule `Rules.CanMove` for the piece at index i |
| States.GameState.MovePieces | src/GameState.java:79-96 | the new piece list is `Rules.Move` of the old one; board and snapshot unchanged |
| States.GameState.MovableIndices | src/GameState.java:80-85 | returns, in increasing order, exactly the indices of the pieces that can move |
| States.GameState.StepAll | src/GameState.java:87-90 | moving the collected pieces one by one is one synchronous step |
| States.GameState.MergePieces | src/GameState.java:98-117 | the new piece list is `Merging.Merge` of the old one |
| States.GameState.IsGameComplete | src/GameState.java:119-130 | the answer is true iff no colour occurs twice |
| Keys.Insert | src/GameSolver.java:186-194 | inserting one piece lengthens the list by one (Keys.InsertMultiset says with which piece) |
| Keys.InsertMultiset | src/GameSolver.java:186-194 | inserting adds exactly one piece |
| Keys.InsertSorted | src/GameSolver.java:186-194 | inserting into a sorted list keeps it sorted by (colour, x, y) |
| Keys.SortPieces | src/GameSolver.java:186-194 | the sort keeps the length (Keys.SortPiecesSpec: it is a sorted rearrangement) |
| Keys.SortPiecesSpec | src/GameSolver.java:186-194 | the sort yields a sorted rearrangement of the same pieces |
| Keys.SortPiecesSorted | src/GameSolver.java:186-194 | the sorted list is in (colour, x, y) order |
| Keys.SortPiecesMultiset | src/GameSolver.java:186-194 | the sorted list holds the same pieces, each as often |
| Keys.SortedUnique | src/GameSolver.java:186-194 | a multiset of pieces has only one sorted arrangement |
| Keys.SortPermutationInvariant | src/GameSolver.java:186-194 | sorting any permutation gives the same list |
| Keys.NatStr | src/GameSolver.java:197-201 | a natural number's decimal text is non-empty and made of digits |
| Keys.IntStr | src/GameSolver.java:197-201 | an int's text is non-empty, made of digits and a minus sign, and starts with '-' iff it is negative |
| Keys.NatStrInjective | src/GameSolver.java:197-201 | different naturals have different texts |
| Keys.IntStrInjective | src/GameSolver.java:197-201 | different ints have different texts |
| Keys.NegativeStr | src/GameSolver.java:197-201 | after the minus sign, a negative number's text is that of its magnitude |
| Keys.PieceStr | src/GameSolver.java:197-202 | a piece's text is at least six characters and its only ';' is its last character, so the key splits into pieces at each ';' |
| Keys.Encode | src/GameSolver.java:196-205 | the text of a list is at least six characters per piece and is empty exactly when there are no pieces |
| Keys.EncodeAppend | src/GameSolver.java:196-203 | appending a piece appends its text `color,x,y;`, as the loop does |
| Keys.EncodePrefix | src/GameSolver.java:196-203 | the text of the first k + 1 pieces extends that of the first k |
| Keys.PieceStrPrefix | src/GameSolver.java:196-203 | a piece's text and what follows determine the piece and the rest |
| Keys.EncodeInjective | src/GameSolver.java:196-205 | different piece lists have different texts |
| Keys.Key | src/GameSolver.java:182-206 | the key of a state has at least six characters per piece and is empty exactly for an empty board |
| Keys.KeyCharacterises | src/GameSolver.java:182-206 | two lists have the same key iff they hold the same pieces, each as often |
| Keys.KeyOfSameMembers | src/GameSolver.java:182-206 | two duplicate-free lists have the same key iff they hold the same pieces |
| Universe.PieceUniverse | src/GameSolver.java:65-72 | the pieces a search can meet are exactly those of the given colours on cells of the board |
| Universe.KeyInUniverse | src/GameSolver.java:65-73 | a duplicate-free in-bounds list in the starting colours has its key in the finite universe |
| Search.DirectionIsUnit | src/GameSolver.java:5-6 | the tables DX and DY give, at each index, one of the four unit moves; the constants themselves are the Java tables, whose index order is up, down, left, right |
| Search.MoveIndex | src/GameSolver.java:5-7 | each letter of MOVE_CHARS names the table index i with MOVE_CHARS[i] equal to it, and so the direction (DX[i], DY[i]) |
| Search.Push | src/GameSolver.java:62-63 | pushing a copy in direction i keeps pieces in bounds |
| Search.Replay | src/GameSolver.java:67-68 | replaying a move string keeps pieces in bounds |
| Search.ReplayAppend | src/GameSolver.java:67-68 | extending the moves by MOVE_CHARS[i] pushes once more in direction i |
| Search.ReplaySane | src/GameSolver.java:62-63 | every reachable state keeps the board invariant |
| Search.ReplayColors | src/GameSolver.java:62-63 | every reachable state has the starting colours |
| Search.ReachedKeyInUniverse | src/GameSolver.java:65-71 | the key of a reachable state is in the finite universe |
| Search.ReachedSubset | src/GameSolver.java:66-71 | a set of keys each reached by some move string, within the universe, lies inside the reachable keys |
| Search.ReplayKeyReachable | src/GameSolver.java:62-71 | the key a move string reaches is a reachable key, and there are no more reachable keys than keys in the universe |
| Search.SortedSane | src/GameSolver.java:186-194 | sorting a state's pieces keeps the invariant and the pieces |
| Search.MoveKeysAgree | src/GameSolver.java:62-66 | states with the same key push to states with the same key |
| Search.CompleteKeysAgree | src/GameSolver.java:53 | states with the same key are complete together |
| Search.TracksStart | src/GameSolver.java:45-47 | the starting pieces are what the empty move list reaches |
| Search.TracksKey | src/GameSolver.java:53-58 | a node's state holds the pieces its moves reach, is complete exactly when they are, and its key is in the universe and reachable |
| Search.SuccessorTracks | src/GameSolver.java:62-70 | a pushed copy, sorted or not, holds what the extended move list reaches |
| Search.SortedTracks | src/GameSolver.java:156 | sorting a node's pieces to take its key keeps what it stands for |
| Search.PushVisited | src/GameSolver.java:65-73 | a state whose key was expanded pushes to a visited key |
| Search.ReachedIsVisited | src/GameSolver.java:50-75 | when every visited key is expanded, every reachable state's key was visited |
| Search.NoSolutionWhenClosed | src/GameSolver.java:77-80 | a search that expanded every visited key shows no move list completes the puzzle |
| Search.ClosedIsReachable | src/GameSolver.java:50-80 | when the start is visited, every visited key is reached and every visited key is expanded, the visited keys are exactly the reachable keys |
| Exploration.ExploredStart | src/GameSolver.java:45-48 | the search starts with the starting key visited, reachable and waiting |
| Exploration.GatherStart | src/GameSolver.java:61 | before the first push nothing has been added |
| Exploration.GatherSeen | src/GameSolver.java:66 | a push whose key was already visited adds nothing |
| Exploration.RecordNew | src/GameSolver.java:70-72 | a new key is both visited and waiting, the visited set grows by one, and only keys not visited before are appended |
| Exploration.RepsOkUpdate | src/GameSolver.java:71 | a state keeping the invariant may stand for its own key |
| Exploration.RepsOkNew | src/GameSolver.java:71 | a pushed state may stand for its key |
| Exploration.PushInUniverse | src/GameSolver.java:62-65 | the key of a push of a tracked state is in the universe and reachable |
| Exploration.PushesVisitedNew | src/GameSolver.java:71 | visiting a push's key extends the pushes already visited |
| Exploration.PushesVisitedUp | src/GameSolver.java:165-177 | in the recursive search, a visited push extends the visited directions upward |
| Exploration.GatherNew | src/GameSolver.java:66-73 | a push with a new key is recorded: visited, waiting, and one more in the count |
| Exploration.ExpandedNow | src/GameSolver.java:61-74 | an incomplete state whose four pushes have visited keys is expanded |
| Exploration.ExpandedGrows | src/GameSolver.java:71 | keys expanded before stay expanded as the visited set grows |
| Exploration.ExpandedAdd | src/GameSolver.java:61-74 | closing one more expanded key keeps all closed keys expanded |
| Exploration.WaitingAfterExpand | src/GameSolver.java:51 | taking a key from either end of the frontier and closing it keeps every visited key waiting or closed |
| Exploration.Expand | src/GameSolver.java:50-75 | one round of an iterative search keeps the search invariant |
| Exploration.ExpandedChild | src/GameSolver.java:172-176 | in the recursive search, keys added by a finished child are expanded |
| Exploration.ExpandedCall | src/GameSolver.java:162-179 | a recursive call that returns nothing has expanded its own key |
| Exploration.VisitSorted | src/GameSolver.java:156-163 | the sorted pieces of the current state track the same moves and may stand for its key |
| Exploration.ExpandedAll | src/GameSolver.java:133-138 | a recursive search from nothing visited that fails has expanded every key it visited |
| Exploration.ExploredClosed | src/GameSolver.java:50 | when the frontier is empty, every visited key is expanded |
| Exploration.RestShrinks | src/GameSolver.java:71-72 | what the visited set gains, the rest of the universe loses |
| Exploration.ExhaustedNoSolution | src/GameSolver.java:77-80 | an exhausted search proves no move list completes the puzzle, and its visited keys are exactly the reachable keys (at least one) |
| Layers.LayeredStart | src/GameSolver.java:45-48 | the queue holding the start with no moves is layered |
| Layers.PastExpanded | src/GameSolver.java:61-73 | a move string one push longer than one leading to an expanded key leads to a visited key |
| Layers.FrontShortest | src/GameSolver.java:51-58 | when every move string shorter than d leads to an expanded (hence incomplete) key, no move string shorter than d completes the puzzle |
| Layers.StepOrdered | src/GameSolver.java:51-70 | after polling the front and appending nodes one move longer, lengths in the queue still never decrease and differ by at most one |
| Layers.StepBelowClosed | src/GameSolver.java:51-74 | when the whole queue has the next length, every move string up to the front's length leads to an expanded key |
| Layers.StepBelowVisited | src/GameSolver.java:61-73 | once move strings shorter than d lead to expanded keys, those of length d lead to visited keys |
| Layers.LayerStep | src/GameSolver.java:50-74 | one breadth-first round (expand the front, append new keys one move longer) keeps the queue layered |
| Solver.SearchStats.constructor | src/GameSolver.java:9-11 | both counters start at zero |
| Solver.SearchStats.Reset | src/GameSolver.java:13-16 | both counters are zero again |
| Solver.JavaDiv | src/GameSolver.java:55 | Java's long division by a positive divisor truncates toward zero, for either sign |
| Solver.ElapsedMillis | src/GameSolver.java:55 | the elapsed time is the whole milliseconds between the two readings, rounded toward zero, and is never positive when the clock went backwards |
| Solver.GetStateHash | src/GameSolver.java:182-206 | the state's own list is sorted in place and the key is the text of the sorted pieces |
| Solver.PushedCopy | src/GameSolver.java:62-63 | a new state on the same board holding the push of the current pieces; the current state is untouched |
| Solver.Successor | src/GameSolver.java:62-65 | the pushed copy and its key; taking the key sorts the copy's list |
| Solver.Offer | src/GameSolver.java:66-73 | a successor with a new key is appended to the frontier with its moves extended by MOVE_CHARS[i]; its key is visited and the count grows by one |
| Solver.TryPush | src/GameSolver.java:62-73 | one pass of the successor loop: the count grows by exactly the number of new keys, and the frontier only grows, by nodes one move longer than the current one |
| Solver.PushSuccessors | src/GameSolver.java:61-74 | the successor loop records every push with a new key, keeps the count equal to the visited set's size, and only appends nodes one move longer than the current one |
| Solver.ExpandNode | src/GameSolver.java:61-74 | expanding an incomplete node closes its key, keeps the search invariant, shrinks the termination measure, keeps the rest of the frontier in order and appends only new keys one move longer |
| Solver.PollFront | src/GameSolver.java:51-74 | the front node's moves are returned iff its state is complete, with the count unchanged, and they are then a shortest solution; otherwise the round keeps the invariant and the layering |
| Solver.QueueRound | src/GameSolver.java:51-74 | removing the front and appending new keys one move longer keeps the queue layered |
| Solver.ExpandFront | src/GameSolver.java:61-74 | an incomplete front node leaves the queue, its new successors join the back, and the search invariant and the layering hold again |
| Solver.StartNode | src/GameSolver.java:41-46 | a zero counter and a node with a copy of the initial state and no moves |
| Solver.StartSearch | src/GameSolver.java:41-48 | exactly the initial key is visited, waiting and counted once; the caller's list is sorted in place and its snapshot is untouched |
| Solver.NodeComplete | src/GameSolver.java:53 | the check is true iff the node's state is complete, and then its moves solve the puzzle |
| Solver.BFSLoop | src/GameSolver.java:50-80 | a returned move list solves the puzzle and no move list is shorter; otherwise none does and the count is exactly the number of reachable keys; a complete front node is returned at once |
| Solver.SolveBFS | src/GameSolver.java:37-81 | a returned solution replays to a complete state and is a shortest one; none means no solution exists and the count equals the number of reachable keys; the count is at least 1 and at most that number; a complete start gives no moves and a count of 1; the caller's snapshot is untouched |
| Solver.PopBack | src/GameSolver.java:96-118 | the top node's moves are returned iff its state is complete, with the count unchanged; otherwise the round keeps the invariant |
| Solver.ExpandTop | src/GameSolver.java:105-118 | an incomplete top node is popped and its new successors are pushed |
| Solver.DFSLoop | src/GameSolver.java:95-124 | a returned move list solves the puzzle; otherwise none does and the count is exactly the number of reachable keys; a complete top node is returned at once |
| Solver.SolveDFS | src/GameSolver.java:83-125 | a returned solution replays to a complete state; none means no solution exists and the count equals the number of reachable keys; the count lies between 1 and that number; a complete start gives no moves and a count of 1; the caller's snapshot is untouched |
| Solver.RecursiveDFSHelper | src/GameSolver.java:146-180 | a complete state returns its own moves and is left as it was; a returned list solves the puzzle; a failure leaves the state's key visited and every key added expanded; the visited keys stay reachable; the count grows with the visited set; the snapshot is untouched |
| Solver.VisitState | src/GameSolver.java:156-179 | the state's pieces are sorted in place; the count grows by exactly the keys added, which stay reachable; a returned list solves the puzzle; on failure the state's key is visited and every key added is expanded |
| Solver.SearchChildren | src/GameSolver.java:162-179 | the four children of a newly visited state are searched; a returned list solves the puzzle; if none succeeds, the state's key and every key added since are expanded |
| Solver.ChildrenLoop | src/GameSolver.java:165-177 | after the loop over the four pushes the count grows by exactly the keys added, which stay reachable; a returned list solves the puzzle; if none is returned the state's key is visited and it and every key added since are expanded, so each of its pushes has a visited key |
| Solver.SearchChild | src/GameSolver.java:166-176 | one child search: on failure its push has a visited key and keys added stay expanded |
| Solver.SolveRecursiveDFS | src/GameSolver.java:127-144 | a complete start gives no moves, a count of 0 and an untouched list; a returned solution is valid; none means no solution exists and the count equals the number of reachable keys; the count never exceeds that number; the snapshot is untouched |

## Left out

- The Swing user interface, its background threads and dialogs (`src/GamePanel.java`, `src/GameFrame.java`). It is display code. The board editor (`src/GameBoardDesign.java`) is not part of this model: it only supplies the preconditions above.
- Piece objects inside `GameState`: the state holds pieces as values (`Piece`), not shared `ColoredPiece` references. `ColoredPiece` is modelled on its own. Aliasing between piece objects, and the reference test `other != piece` of `canMove`, become list indices.
- `getPieces` and `getBarriers` (`src/GameState.java:19-25`) are field reads in the model.
- Wall-clock readings are parameters (`startNanos`, `endNanos`). The printing of the elapsed time (`src/GameSolver.java:56`) is left out.
- Java collections become Dafny values: `LinkedList` and `Stack` are sequences, `HashSet` is a set, and the counting `HashMap` of `isGameComplete` is a map from colour to count plus the sequence of colours in the order first seen, which stands for the map's value iteration. `List.sort` is an insertion sort. Since equal pieces are identical values and a multiset has one sorted arrangement, any correct sort gives the same list. `StringBuilder` is string concatenation.
- Java's 32-bit `int`: colours, coordinates and counters are unbounded integers. The subtracting comparator of `getStateHash` (`src/GameSolver.java:186-194`) is modelled by its intended order; it would overflow only for values far outside a board.
- Solver.PushSuccessors: does not state the order in which successors are appended (right, left, down, up). The loop runs in that order, but the contract only says which keys are recorded and that the new nodes are one move longer.
- Solver.ChildrenLoop: does not state that the pushes are searched up first, then down, left and right, nor that it stops at the first push whose search returns moves. The loop does both, but the contract only says what a returned list and a failure guarantee.
- Solver.BFSLoop: does not state as an invariant of its own that no key is in the queue twice. It follows from Solver.Offer accepting only keys that are not yet visited (Exploration.RecordNew).
- Solver.DFSLoop: does not state as an invariant of its own that no key is on the stack twice, for the same reason as Solver.BFSLoop.
- Solver.RecursiveDFSHelper: the Java recursion is one call deep per move of the current path, so a long enough path ends in a `StackOverflowError`; the model has unbounded recursion and does not model that failure.
- Keys.Insert: its own contract states only the length. Which pieces the result holds is stated by Keys.InsertMultiset and its order by Keys.InsertSorted, kept apart because the key is compared in every search proof and a multiset postcondition there makes those proofs too costly.
- Keys.SortPieces: its own contract states only the length, for the same reason; Keys.SortPiecesSpec states that it is a sorted rearrangement.
- Completion.ColorCount: its own contract states only the bound; Completion.ColorCountPositive states which colours are counted.
- Completion.Complete: its own contract states only the one-piece case; Completion.CompleteIffCountsAtMostOne ties it to the counting of `isGameComplete`.
- `SearchStats.solutionNodes` is kept and reset, but no search ever increments it.
