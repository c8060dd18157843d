# Terimber 2.0: a verified model of the base library and its asynchronous ports

The Terimber library stands on a hand-written red-black tree, decimal numbers, dates and memory allocators, and on them
it builds a socket port, an asynchronous gate and a message port. This project models the parts of these that are hard
to get right and proves what they are for.

Code that changes things in place is a class with methods, proved against functions on values; protocols between threads
are state machines, one step for each stretch of code that runs under the mutex, and their results hold in every run.
`dafny verify dfyconfig.toml` verifies the project.

| files | about |
|---|---|
| `trees`, `balance`, `pool`, `insertfix`, `erasefix`, `unlink`, `order`, `basemap` | the red-black tree: links, balance, iteration |
| `keyorder`, `map` | maps and multi-maps over it: keys, searches, node reuse |
| `decimal`, `numeric`, `orcl` | decimal numbers and their base-100 wire form |
| `date` | calendar dates and ticks |
| `memory` | byte, node and array allocators |
| `keylocker` | the reader/writer gate |
| `socketport` | socket idents and accept blocks of the socket port |
| `sendqueue`, `pinlife` | the send queue and the life of a gate's pin |
| `msgqueue`, `handshake`, `asyncreplies`, `wire` | the message port: priority queue, handshake, asynchronous replies, blocks on the wire |
| `bytes`, `wrappers` | numbers as bytes; what several modules share |

## How the models read

- **Tree.** The nodes live in a pool of sequences `left`, `parent`, `right` and `red`; an index is a node's address and
  index 0 is the shared `_head`, so that the test for the node type of the head is the comparison with `HEAD`. A ghost
  `Tree` says what the links mean, and a ghost `Path` describes the tree around a subtree while a loop climbs. Keys and
  values belong to addresses; an operation that keeps an address, its key and its value keeps that node. `BaseMap.Valid`
  is the red-black invariant together with parent links that mirror child links, the head's root, first and last node,
  and the size.
- **Numbers.** A `Numeric` is `_vec`, `_scale` and `_precision` of one magnitude, lowest digit first; `Amount` is its
  value as a multiple of a power of ten.
- **Threads.** Where a class has a mutex, each of its sections is one method or one step. What a callback, the socket
  port or the clock does is a parameter of the step.

## What the models show about the code

Some statements one would expect do not hold of the code as it is. Each has its exact condition here.

- `--` on the first node goes to the root, and `++` on the end wraps to the first node: `Positions.DecUndoesInc` and
  `Positions.IncUndoesDec` say exactly where one undoes the other.
- `multiply` moves each row by a count kept in one byte, so the product is exact if and only if the second factor has no
  nonzero digit at place 256 or above (`Numerics.Numeric.Multiply`, `Numerics.TimesLong`). And since `cutjunk` steps out
  of its buffer on a zero without fraction, `multiply` fails exactly if the second factor has digits and either its
  lowest digit or the first factor is zero; a product with 10 is of this kind (`Numerics.TimesTen`). A zero that
  `cutjunk` has left without digits makes no rows: in a new result the product is zero, but its point stands outside
  its buffer, exactly if the first factor has more fraction digits than that buffer has places.
- `>>` by a negative count moves the point as far as by the positive one (`Numerics.Numeric.ShiftRight`).
- `persist_orcl` writes the exponent of a number below one too high by one, so that `parse_orcl` gives a hundred times
  the number; numbers with a whole part come back as they were (`Orcl.ThereAndBack`). It leaves its buffers exactly on a
  number below one with a single digit behind the zeros at an odd place (`Orcl.PersistOrcl`). 0.12 comes back as 12,
  and 0.1 is of the second kind (`Orcl.BelowOne`).
- `compare_orcl` compares what is encoded. On two positive encodings it is right about that if and only if neither is
  the other with zero pairs behind it (`Orcl.PositiveOrder`), and on two negative encodings if and only if neither goes
  on where the other, equal so far, has ended (`Orcl.NegativeOrder`). As a number below one is encoded as a hundred
  times that number, being right about the numbers is another matter. Two positive numbers come out in their order if
  and only if both or neither are below one, or a hundred times the one below one is still below the other
  (`Orcl.OrderIsDifference`). Two negative ones do, with both or neither below one, if and only if neither encoding goes
  on where the other has ended; with one below one, if and only if that one goes on, or a hundred times it is still
  nearer to zero than the other and the other does not go on (`Orcl.NegativeIsDifference`). -1 and -1.5 come out the
  wrong way round (`Orcl.MinusOneAndAHalf`), and so do -0.12 and -5, of which neither goes on (`Orcl.MinusFive`); -1 and
  -0.015 come out right, although one goes on (`Orcl.MinusOne`). `Orcl.WriteAndCompare` runs writing and comparing
  together on all numbers.
- The comment above `persist_orcl` gives three bytes for 100; the code writes four, and the two are not equal to
  `compare_orcl` (`Orcl.OneHundred`).
- `keylocker`: a writer that gives up just after the last reader has left leaves the can-close event set; a later writer
  then enters beside a reader. Without such a moment exclusion holds in every run, with or without timeouts
  (`KeyLocker.Exclusion`); with one it can be broken from there (`KeyLocker.LateBreaks`, `KeyLocker.LateHappens`).
- `aiosock::close` gives the mutex up between removing the socket and removing the listener. If the last callback
  returns the ident in between and it is assigned again, the accept count of the new socket goes wrong
  (`SocketPort.EarlyBreaks`, `SocketPort.EarlyHappens`), unless the old listener has an accept pool of 0 and this close
  alone is still under way; in every other run it is exact (`SocketPort.AcceptsCounted`).
- The receiver of a handshake is connected before its reply is queued; if its queue thread sends a waiting message in
  between, the initiator refuses it (`Handshake.EagerBreaks`, `Handshake.EagerHappens`); otherwise no message is ever
  refused (`Handshake.SessionsAgree`).
- A `send_bulk` that is refused may have taken some or all of the buffers, which are sent later all the same. Over TCP
  it takes as many bytes as there is space for, and is refused if and only if there is none for some, or the bulk has no
  buffers, or it is for this call to start a send and the port refuses. Over UDP the same holds with the first datagrams
  that find a place, except that a send which the port refuses has already passed the header of its datagram
  (`SendQueue.Pin.SendBulk`, `SendQueue.RefusedInTheMiddle`, `SendQueue.RefusedByThePort`).
- A bulk of empty buffers on an idle pin without a chain makes `send_bulk` follow a null pointer, and nothing else does;
  and the guard on long datagrams lets sizes pass that fit into no chunk, which uses up the allocator
  (`SendQueue.Pin.SendBulk`, `SendQueue.Pin.PutDatagram`, `SendQueue.RefusedAndDrained`).
- `convert_from` gives 0 as the day of the week of day 0 (`Dates.Weekday` and `Dates.ConvertFrom`). On negative ticks,
  which the header gives the meaning of days before, it is never right: it runs off the table of months or gives fields
  that `convert_to` refuses (`Dates.ConvertFrom`, `Dates.TicksReturn`).

## Model

| member | source | states |
|---|---|---|
| Trees.WholeOrder | ver3.0/src/base/map.h:289-320 | the in-order sequence of the whole tree is the order in front of a subtree, the subtree's own and the order behind it, for every subtree |
| Trees.OrderDistinct | ver3.0/src/base/map.h:289-320 | a tree without repeated addresses lists no address twice |
| Trees.FocusOn | ver3.0/src/base/map.hpp:324-383 | every node of the tree is the root of one subtree, and putting it back gives the tree |
| Trees.HoleEnds | ver3.0/src/base/map.hpp:245-262 | a new leaf is the first or the last node exactly when it hangs beside that end of the order |
| Balance.SplitBalanced | ver3.0/src/base/map.hpp:264-319 | in a red-black tree every subtree and the tree around it are balanced to one common black count |
| Balance.WholeBalanced | ver3.0/src/base/map.hpp:264-319 | a balanced subtree in a balanced surrounding of the same count, with no red pair where they meet, makes a red-black tree |
| Balance.InsertDone | ver3.0/src/base/map.hpp:266-318 | when the insert loop ends, painting the root black leaves a red-black tree |
| Balance.SiblingExists | ver3.0/src/base/map.hpp:389-452 | the delete fix-up always finds a sibling, with the black nodes it needs |
| Balance.EraseDone | ver3.0/src/base/map.hpp:389-452 | when the erase loop stops at a red node or the root, painting it black leaves a red-black tree |
| Balance.SettledDone | ver3.0/src/base/map.hpp:389-452 | when the erase loop is left by break nothing is missing any more |
| Balance.BlackHeight | ver3.0/src/base/map.hpp:460-485 | a tree with b black nodes on every path has at least 2^b - 1 nodes and is at most 2b (+1) high |
| Balance.HeightBound | ver3.0/src/base/map.hpp:460-485 | no search path is longer than twice the binary logarithm of size + 1 |
| NodePool.LRotateAt | ver3.0/src/base/map.hpp:554-569 | the links after a left rotation are those of the rotated tree, in any surrounding, with all parent links right |
| NodePool.RRotateAt | ver3.0/src/base/map.hpp:574-589 | the same for a right rotation |
| NodePool.SpliceAt | ver3.0/src/base/map.hpp:324-383 | linking an only child to the parent of its parent takes exactly that one node out of the tree |
| NodePool.ReplaceAt | ver3.0/src/base/map.hpp:324-383 | redirecting the links of one node's family to another puts that one in its place |
| NodePool.PaintAt | ver3.0/src/base/map.hpp:264-319 | painting a node changes its colour in the tree and nothing else |
| NodePool.AttachAt | ver3.0/src/base/map.hpp:245-262 | a fresh leaf linked below a missing child is that child |
| InsertFix.RecolourStep | ver3.0/src/base/map.hpp:266-318 | the red-uncle case keeps the order and moves the loop's state two levels up |
| InsertFix.InnerStep | ver3.0/src/base/map.hpp:266-318 | turning an inner grandchild outwards keeps the order and the loop's state |
| InsertFix.OuterStep | ver3.0/src/base/map.hpp:266-318 | the last rotation keeps the order and leaves no red node with a red parent |
| EraseFix.RedSiblingStep | ver3.0/src/base/map.hpp:389-452 | rotating a red sibling up keeps the order and the missing black count and brings a black sibling |
| EraseFix.BlackNephewsStep | ver3.0/src/base/map.hpp:389-452 | painting a sibling with black nephews moves the missing black node one level up |
| EraseFix.NearUpStep | ver3.0/src/base/map.hpp:389-452 | rotating the near nephew up makes the far nephew red and keeps order and state |
| EraseFix.FarStep | ver3.0/src/base/map.hpp:389-452 | with a red far nephew one rotation settles the black count and keeps the order |
| Unlink.RelinkedAt | ver3.0/src/base/map.hpp:324-383 | the two-child case of the delete relinks the successor, by address, into the place of the erased node |
| Unlink.RelinkedOrder | ver3.0/src/base/map.hpp:324-383 | after that relinking the order is the old one without the erased node, with the same ends |
| Unlink.SpliceState | ver3.0/src/base/map.hpp:324-383 | taking out a node with at most one child leaves a black node missing exactly when it was black |
| Unlink.RelinkState | ver3.0/src/base/map.hpp:324-383 | the same for the two-child case, by the colour of the successor |
| BaseMaps.BaseMap.LRotate | ver3.0/src/base/map.hpp:554-569 | the assignments of the left rotation are the rotation of the links |
| BaseMaps.BaseMap.RRotate | ver3.0/src/base/map.hpp:574-589 | the assignments of the right rotation are the mirrored rotation of the links |
| BaseMaps.BaseMap.InsertFix | ver3.0/src/base/map.hpp:264-319 | the insert loop ends with a red-black tree with the same order and ends, whatever the colours above the leaf |
| BaseMaps.BaseMap.InsertNode | ver3.0/src/base/map.hpp:245-319 | a node linked into any hole gives a valid map whose order has it there and is otherwise unchanged |
| BaseMaps.BaseMap.Relink | ver3.0/src/base/map.hpp:324-383 | the assignments of the two-child case give exactly the relinked links |
| BaseMaps.BaseMap.EraseFix | ver3.0/src/base/map.hpp:389-452 | the erase loop ends with a red-black tree with the same order |
| BaseMaps.BaseMap.EraseNode | ver3.0/src/base/map.hpp:324-455 | a valid map stays valid; exactly the given node goes, all others keep their addresses and order; the in-order successor is returned |
| BaseMaps.BaseMap.Min | ver3.0/src/base/map.h:158-163 | the leftmost node of a subtree is the first in its order |
| BaseMaps.BaseMap.Max | ver3.0/src/base/map.h:147-153 | the rightmost node of a subtree is the last in its order |
| BaseMaps.BaseMap.Inc | ver3.0/src/base/map.h:305-320 | ++ goes to the next node in order, from the last to the end and from the end to the first |
| BaseMaps.BaseMap.Dec | ver3.0/src/base/map.h:289-303 | -- goes to the node before in order, from the end to the last and from the first to the root |
| BaseMaps.BaseMap.BeforeHole | ver3.0/src/base/map.hpp:971-985 | the node in front of the place of insertion is the node above it, or the one -- finds from there |
| BaseMaps.BaseMap.Clear | ver3.0/src/base/map.hpp:234-240 | clear leaves a valid empty map |
| Positions.WalkVisitsAll | ver3.0/src/base/map.h:289-320 | ++ from begin stands on node i after i steps and is at the end after exactly size steps |
| Positions.DecUndoesInc | ver3.0/src/base/map.h:289-320 | -- undoes ++ if and only if the iterator is not at the end of a nonempty map |
| Positions.IncUndoesDec | ver3.0/src/base/map.h:289-320 | ++ undoes -- if and only if the iterator is not on the first node of a nonempty map |
| KeyOrder.DescendKeys | ver3.0/src/base/map.hpp:460-485 | one comparison on a search path settles all keys on one side of the node |
| KeyOrder.RangeOfEquals | ver3.0/src/base/map.hpp:218-221 | between the two bounds lie exactly the nodes with equivalent keys, in multi-maps too |
| KeyOrder.FoundOrNot | ver3.0/src/base/map.hpp:168-172 | at the lower bound stands an equivalent key unless there is none at all |
| KeyOrder.SortedInsert | ver3.0/src/base/map.hpp:958-986 | inserting at the upper bound keeps the keys sorted |
| KeyOrder.KeyedErase | ver3.0/src/base/map.hpp:991-1003 | erasing a node keeps the keys sorted and every other key and value with its node |
| KeyOrder.LastBelow | ver3.0/src/base/map.hpp:971-985 | in a map only the key just before the place of insertion can be equivalent to the new one |
| KeyOrder.StretchOfTwins | ver3.0/src/base/map.hpp:1008-1015 | the stretch between the bounds holds exactly the nodes with equivalent keys |
| Maps.Map.LowerBound | ver3.0/src/base/map.hpp:460-470 | the first node whose key is not below k, in at most twice the binary logarithm of size + 1 steps |
| Maps.Map.UpperBound | ver3.0/src/base/map.hpp:475-485 | the first node whose key is above k, in at most that many steps |
| Maps.Map.EqualRange | ver3.0/src/base/map.hpp:218-221 | exactly the nodes with keys equivalent to k lie between the results |
| Maps.Map.Find | ver3.0/src/base/map.hpp:168-172 | the first node with an equivalent key, or the end if and only if there is none |
| Maps.Map.InsertHole | ver3.0/src/base/map.hpp:960-969 | the descent ends at the upper bound of k, in at most that many steps |
| Maps.Map.Insert | ver3.0/src/base/map.hpp:958-986 | a new node at the upper bound, all else unchanged; or, in a map with an equivalent key, nothing changes and the node with that key is returned |
| Maps.Map.BuyNode | ver3.0/src/base/map.hpp:1084-1094 | a node that is in no tree and not free, with the parent and colour it needs; the last freed one if there is one, and no other free node is touched |
| Maps.Map.Erase | ver3.0/src/base/map.hpp:991-1003 | exactly the given node goes, with its key and value; the successor is returned |
| Maps.Map.EraseRange | ver3.0/src/base/map.hpp:1039-1052 | exactly the nodes from first up to last go, by either branch |
| Maps.Map.EraseKey | ver3.0/src/base/map.hpp:1008-1015 | exactly the nodes with equivalent keys go, one stretch of the order |
| Maps.Map.FreeAll | ver3.0/src/base/map.hpp:1057-1067 | recursion and loop free every node of a subtree once |
| Maps.Map.Clear | ver3.0/src/base/map.hpp:1022-1034 | no node, key, value or free node is left |
| Maps.Map.Assign | ver3.0/src/base/map.hpp:905-917 | the copy has the same keys and values in the same order, duplicates included |
| Decimal.AddDigitsVal | ver3.0/src/base/numeric.cpp:962-1012 | digit-wise addition with carry is addition of the values, with digits below ten |
| Decimal.SubDigitsVal | ver3.0/src/base/numeric.cpp:1016-1065 | digit-wise subtraction with borrow is subtraction of the values up to the last borrow |
| Decimal.BorrowMeansLess | ver3.0/src/base/numeric.cpp:1016-1065 | the last borrow is set exactly if the first number is smaller |
| Decimal.MulDigitVal | ver3.0/src/base/numeric.cpp:1069-1124 | a row times a digit is the product of the values |
| Decimal.FirstDifference | ver3.0/src/base/numeric.cpp:1228-1264 | the highest place in which two numbers differ decides |
| Numerics.NormalUnique | ver3.0/src/base/numeric.cpp:851-876 | a value has one normal form, across scales |
| Numerics.Numeric.Plus | ver3.0/src/base/numeric.cpp:962-1012 | the exact sum of numbers of any two scales |
| Numerics.Numeric.Minus | ver3.0/src/base/numeric.cpp:1016-1065 | the borrow is left over exactly if x < y, and otherwise the result is the exact difference |
| Numerics.Numeric.Compare | ver3.0/src/base/numeric.cpp:1228-1264 | on normal forms the sign of the difference |
| Numerics.Numeric.Cutjunk | ver3.0/src/base/numeric.cpp:851-876 | the value is kept and the form is normal; it leaves the buffer exactly on a zero without fraction |
| Numerics.Numeric.AddAssign | ver3.0/src/base/numeric.cpp:735-766 | the sum of magnitudes of the same sign, in normal form |
| Numerics.Numeric.Copy | ver3.0/src/base/numeric.cpp:838-848 | the copied digits, and zeros above them |
| Numerics.Numeric.ShiftLeft | ver3.0/src/base/numeric.cpp:879-899 | the number times the n-th power of ten: the fraction is used up first, and the digits move only by the rest; a negative count is a shift to the right |
| Numerics.Numeric.ShiftRight | ver3.0/src/base/numeric.cpp:901-920 | the point moves n places left for the count n and for -n; the digits keep their value if and only if the places it moves over hold zeros |
| Numerics.Numeric.FillRow | ver3.0/src/base/numeric.cpp:1069-1124 | the inner loop writes the digits of x times one digit and its carry |
| Numerics.Numeric.Multiply | ver3.0/src/base/numeric.cpp:1069-1124 | x times y with each digit of y weighed by its place modulo 256, which is the product if and only if y has no nonzero digit at place 256 or above; it fails exactly if y has digits and x or the lowest digit of y is zero; without digits in y, what the result holds and when its point is inside its buffer |
| Numerics.ByteShiftedExact | ver3.0/src/base/numeric.cpp:1069-1124 | that weight is the value of y if and only if y has no nonzero digit at place 256 or above |
| Numerics.TimesTen | ver3.0/src/base/numeric.cpp:1069-1124 | the product of any number with 10 fails |
| Numerics.TimesLong | ver3.0/src/base/numeric.cpp:1069-1124 | the product of any number but 0 with 10 to the power 256 plus 1 is too small |
| Orcl.PairUpVal | ver3.0/src/base/numeric.cpp:482-586 | pairing the digits keeps the value, base 100 |
| Orcl.PersistOrcl | ver3.0/src/base/numeric.cpp:482-586 | refused above 38 digits; out of its buffers exactly on a number below one with a single digit at an odd place; otherwise zero, or exponent byte, pairs from the top and tail, in either sign, with the exponent one too high below one |
| Orcl.NumberTrimmed | ver3.0/src/base/numeric.cpp:482-586 | the encoding of a normal number has no zero pair in front, and none behind the point at the end, and reaches down to the point |
| Orcl.GridAmount | ver3.0/src/base/numeric.cpp:352-450 | exponent and pairs, on a common grid, stand for exactly the number, or a hundred times the number if it is below one |
| Orcl.CompareOrcl | ver3.0/src/base/numeric.cpp:352-450 | signs first; then the order of what is encoded, reversed for negative numbers, except that one that goes on where the other ends is the larger |
| Orcl.PositiveOrder | ver3.0/src/base/numeric.cpp:352-450 | on positive encodings it is right about what is encoded if and only if neither is the other with zero pairs behind it |
| Orcl.OrderIsDifference | ver3.0/src/base/numeric.cpp:352-450 | on positive numbers of any scales the order of what is encoded, which is the sign of the difference if and only if both or neither are below one, or a hundred times the one below one is still below the other |
| Orcl.NegativeOrder | ver3.0/src/base/numeric.cpp:352-450 | on negative encodings it is right about what is encoded if and only if neither goes on where the other has ended |
| Orcl.NegativeIsDifference | ver3.0/src/base/numeric.cpp:352-450 | on negative numbers of any scales the result, and when it is the sign of the difference: with both or neither below one, if and only if neither encoding goes on; else if and only if the one below one goes on, or a hundred times it is still nearer to zero and the other does not go on |
| Orcl.WriteAndCompare | ver3.0/src/base/numeric.cpp:352-586 | with both running, on all numbers, signs and zeros: right if and only if that condition, or for positive numbers theirs, holds; different signs always come out right |
| Orcl.MinusOneAndAHalf | ver3.0/src/base/numeric.cpp:352-450 | -1 is found below -1.5 |
| Orcl.MinusFive | ver3.0/src/base/numeric.cpp:352-450 | -0.12 is found below -5, though neither encoding goes on |
| Orcl.MinusOne | ver3.0/src/base/numeric.cpp:352-450 | -1 is found below -0.015, as it is, though the second encoding goes on |
| Orcl.OneHundred | ver3.0/src/base/numeric.cpp:453-586 | the four bytes written for 100 are found above the three bytes of its shorter encoding |
| Orcl.ParseOrcl | ver3.0/src/base/numeric.cpp:276-348 | zero; an error on a first byte out of range or a bad byte behind the pairs; or sign, value and normal form of the encoded number, for every exponent |
| Orcl.RoundTrip | ver3.0/src/base/numeric.cpp:276-348 | digits and scale read back are those that were written, or a hundred times the number if it is below one |
| Orcl.ThereAndBack | ver3.0/src/base/numeric.cpp:276-586 | the same with both running, sign and zero included, for every number, and when nothing is written |
| Orcl.BelowOne | ver3.0/src/base/numeric.cpp:482-586 | 0.12 comes back as 12, and 0.1 leaves the buffers |
| Dates.ConvertToCounts | ver3.0/src/base/date.cpp:197-247 | exactly the valid fields up to year 1000000 are converted, to the days counted out year by year and month by month |
| Dates.YearFound | ver3.0/src/base/date.cpp:268-322 | the days before a year, from its 400-year cycle, century, block of four and place in it |
| Dates.SplitCycle | ver3.0/src/base/date.cpp:268-302 | century and block of a day in the cycle, leap blocks and short ones |
| Dates.SplitBlock | ver3.0/src/base/date.cpp:304-318 | year and day of a day in a block |
| Dates.SplitMonths | ver3.0/src/base/date.cpp:324-343 | month and day of a day of the year, by the loop from the estimated month; the loop leaves the table exactly below day -1 |
| Dates.SplitTime | ver3.0/src/base/date.cpp:345-357 | hour, minute, second and millisecond of the rest; of a negative rest at least one is out of range |
| Dates.ConvertFrom | ver3.0/src/base/date.cpp:251-360 | the valid fields with exactly these ticks, the day of the year and the day of the week, if and only if the ticks are not negative; on negative ones off the table of months or fields that convert_to refuses, and which of the two in the year before |
| Dates.WeekdaysFollow | ver3.0/src/base/date.cpp:265-267 | from day 1 on the days of the week follow one another, and January 1 of year 1 is a Monday |
| Dates.Epochs | ver3.0/src/base/date.cpp:35-43 | the library's epoch constants are the day numbers of December 30, 1899 and January 1, 1970 |
| Dates.TicksOrder | ver3.0/src/base/date.cpp:197-247 | ticks order is lexicographic field order, and equal ticks mean equal fields |
| Dates.ThereAndBack | ver3.0/src/base/date.cpp:251-360 | fields converted to ticks come back |
| Dates.BackAndThere | ver3.0/src/base/date.cpp:197-247 | ticks converted to fields come back if and only if they lie before year 1000001 |
| Dates.FieldsReturn | ver3.0/src/base/date.cpp:197-360 | running both, exactly the valid fields up to year 1000000 come back |
| Dates.TicksReturn | ver3.0/src/base/date.cpp:197-360 | running both, of all ticks exactly those from 0 up to that year come back |
| Memory.NewBlock | ver3.0/src/base/memory.hpp:107-125 | a block at the free position or in a later chunk is apart from all blocks given out |
| Memory.ByteAllocator.Allocate | ver3.0/src/base/memory.hpp:107-125 | a block of the aligned size inside one chunk, apart from all blocks given out since the last reset; the chain keeps all chunks |
| Memory.ByteAllocator.NextChunk | ver3.0/src/base/memory.cpp:79-98 | the same from the first later chunk with room, or a new one |
| Memory.ByteAllocator.NewChunk | ver3.0/src/base/memory.cpp:44-77 | the new chunk is linked behind the last one |
| Memory.ByteAllocator.Reset | ver3.0/src/base/memory.hpp:89-105 | the chunks stay and no block is given out |
| Memory.ByteAllocator.ClearExtra | ver3.0/src/base/memory.cpp:100-121 | only the first chunk stays |
| Memory.BlocksApart | ver3.0/src/base/memory.hpp:178-260 | any two blocks, in use or freed, are apart, and each lies in one chunk |
| Memory.ChainCut | ver3.0/src/base/memory.hpp:239-260 | redirecting one link takes exactly the next block out of the list |
| Memory.NodeAllocator.Allocate | ver3.0/src/base/memory.hpp:194-199 | the last freed node, or a new one apart from all others; never one in use |
| Memory.NodeAllocator.Deallocate | ver3.0/src/base/memory.hpp:176-181 | the node heads the list, which still runs through all freed nodes |
| Memory.NodeAllocator.Write | ver3.0/src/base/memory.hpp:52-61 | writing to a node in use breaks neither the list nor any other node |
| Memory.ArrayAllocator.Pop | ver3.0/src/base/memory.hpp:239-260 | exactly the first freed array with room for n is unlinked, or there is none |
| Memory.ArrayAllocator.Allocate | ver3.0/src/base/memory.hpp:219-236 | an array with room for n that was not in use; all arrays keep the size they were made for |
| Memory.ArrayAllocator.Deallocate | ver3.0/src/base/memory.hpp:176-181 | the array heads the list and every size header is intact |
| Memory.ArrayAllocator.Write | ver3.0/src/base/memory.hpp:219-236 | writing to an array in use breaks neither list nor headers |
| KeyLocker.StepKeeps | ver3.0/src/base/keymaker.cpp:44-143 | every step but a late reopening keeps: one writer closes the gate, it has it to itself only when it is empty, the can-close event is set only for it |
| KeyLocker.Exclusion | ver3.0/src/base/keymaker.cpp:44-143 | in every run without a late reopening a writer excludes readers and writers, readers stay within the maximum, can-open is set exactly while the gate is open |
| KeyLocker.LateBreaks | ver3.0/src/base/keymaker.cpp:93-132 | from every late reopening a run leads to a writer beside a reader |
| KeyLocker.LateHappens | ver3.0/src/base/keymaker.cpp:93-132 | a late reopening can be reached |
| SocketPort.StepKeeps | ver3.0/src/aiosock/aiosock.cpp:646-905 | every step keeps the count of callbacks, the one place of each ident and that only open sockets have blocks |
| SocketPort.CountersTell | ver3.0/src/aiosock/aiosock.cpp:875-900 | in every run the map counter, or else the delay entry, is the number of running callbacks |
| SocketPort.IdentsReturn | ver3.0/src/aiosock/aiosock.cpp:940-1039 | in every run an ident goes back only by its close or its last callback, with no other callback running |
| SocketPort.IdentsOnce | ver3.0/src/aiosock/aiosock.cpp:940-1039 | in every run it goes back once, and none is lost |
| SocketPort.TidyKept | ver3.0/src/aiosock/aiosock.cpp:1898-1928 | every step but an early assignment keeps the accept counts exact |
| SocketPort.AcceptsCounted | ver3.0/src/aiosock/aiosock.cpp:1898-1928 | in every run without an early assignment a listener counts exactly its accept blocks in the three lists, at most its maximum |
| SocketPort.EarlyBreaks | ver3.0/src/aiosock/aiosock.cpp:940-1039 | from every early assignment a run leads to a wrong count, with no condition besides |
| SocketPort.EarlyHappens | ver3.0/src/aiosock/aiosock.cpp:940-1039 | an early assignment can be reached |
| SendQueue.ParseAppend | ver3.0/src/aiogate/aiogate.cpp:952-966 | a header and payload written behind whole datagrams are read back as one more datagram |
| SendQueue.WaitingAfter | ver3.0/src/aiogate/aiogate.cpp:994-1005 | the header at the front describes the first datagram not yet given to the port |
| SendQueue.StreamSent | ver3.0/src/aiogate/aiogate.cpp:275-293 | what leaves the chain joins what was sent, byte for byte |
| SendQueue.Pin.PutStream | ver3.0/src/aiogate/aiogate.cpp:919-987 | the bytes follow in the chain, all of them if and only if they fit into the free bytes and chunks there are, or else exactly as many as do |
| SendQueue.Pin.PutDatagram | ver3.0/src/aiogate/aiogate.cpp:919-987 | the datagram follows whole in one chunk exactly if it fits and there is a chunk; one that fits nowhere uses up the allocator |
| SendQueue.Pin.PutAll | ver3.0/src/aiogate/aiogate.cpp:912-989 | all buffers taken in order, or the bulk does not fit and exactly the bytes, or the datagrams, are taken that do |
| SendQueue.Pin.Launch | ver3.0/src/aiogate/aiogate.cpp:990-1018 | the port gets the first waiting bytes, or the first waiting datagram as it was accepted |
| SendQueue.Pin.StartSend | ver3.0/src/aiogate/aiogate.cpp:990-1023 | refused if and only if no send is under way, there is a chain and the port refuses; a null chain is followed if and only if there is none |
| SendQueue.Pin.SendBulk | ver3.0/src/aiogate/aiogate.cpp:878-1023 | refused if and only if there are no buffers or no address, they do not fit, or the port refuses the send this call has to start; what exactly is taken in either case, when a refused call has taken nothing, when the allocator is used up, when a null chain is followed; no chunk is lost |
| SendQueue.Pin.OnSent | ver3.0/src/aiogate/aiogate.cpp:256-326 | sent bytes and chain together stay what was taken; exactly if something is left the next piece goes out, or else everything taken is sent and the callback may run; a used-up chunk goes back |
| SendQueue.Pin.AfterCallback | ver3.0/src/aiogate/aiogate.cpp:341-391 | what was taken during the callback is sent, and the send bit is clear exactly if nothing is waiting or the port refused |
| SendQueue.Pin.OnError | ver3.0/src/aiogate/aiogate.cpp:78-128 | no send is outstanding and the bytes of the chain are kept |
| SendQueue.RefusedInTheMiddle | ver3.0/src/aiogate/aiogate.cpp:913-989 | with one chunk left a first buffer that fills it is taken by a call that is refused, and the next call sends it |
| SendQueue.RefusedByThePort | ver3.0/src/aiogate/aiogate.cpp:1013-1018 | a buffer is taken whether the port accepts the send or not, if there is a chunk for it |
| SendQueue.RefusedAndDrained | ver3.0/src/aiogate/aiogate.cpp:921-989 | a datagram as long as a chunk uses up the allocator, and the one before it stays |
| PinLife.StepKeeps | ver3.0/src/aiogate/aiogate.cpp:541-589 | every step keeps masks, threads, port requests, close list and history in agreement |
| PinLife.NoOverlap | ver3.0/src/aiogate/aiogatefactory.h:33-37 | in every run two callbacks of one kind on one pin do not overlap |
| PinLife.LifeOfAPin | ver3.0/src/aiogate/aiogate.cpp:1161-1238 | in every run no callback starts on a dead pin; it leaves the map, gets on_close and is destroyed once each, in this order, with no callback running |
| PinLife.CallbacksInMap | ver3.0/src/aiogate/aiogate.cpp:541-589 | in every run a pin with a running callback is in the map |
| PinLife.NoneForgotten | ver3.0/src/aiogate/aiogate.cpp:552-589 | in every run, at rest, each pin ever made is alive in the map or destroyed |
| PinLife.AskedOnce | ver3.0/src/aiogate/aiogate.cpp:1031-1087 | in every run a clear progress bit means nothing of that kind is outstanding and no such callback runs |
| MsgQueue.MessageQueue.Push | ver3.0/src/aiomsg/msg_que.h:118-135 | behind all messages of the same or a more urgent priority, before all others; or refused, blocked or full |
| MsgQueue.MessageQueue.Pop | ver3.0/src/aiomsg/msg_que.h:137-157 | the first of what is left to come out, the rest unchanged |
| MsgQueue.MessageQueue.Touch | ver3.0/src/aiomsg/msg_que.h:175-192 | the list that is served next |
| MsgQueue.MessageQueue.Block | ver3.0/src/aiomsg/msg_que.h:194-202 | blocked, and whether that is new |
| MsgQueue.MessageQueue.Unblock | ver3.0/src/aiomsg/msg_que.h:204-212 | not blocked, and whether that is new |
| Handshake.StepKeeps | ver3.0/src/aiomsg/msg_conn.cpp:165-240 | every step but an eager send keeps the phases of the handshake |
| Handshake.SessionsAgree | ver3.0/src/aiomsg/msg_conn.cpp:165-240 | in every run without an eager send no message is refused, connected sides hold one session, and data carry the session of the side they go to |
| Handshake.HandshakeOnly | ver3.0/src/aiomsg/msg_sock.cpp:271-326 | in every such run a side that is not connected sends only the request, and the receiver's first message is the reply to it |
| Handshake.EagerBreaks | ver3.0/src/aiomsg/msg_conn.cpp:190-216 | after every eager send the initiator refuses the message |
| Handshake.EagerHappens | ver3.0/src/aiomsg/msg_comm.cpp:1055-1115 | an eager send can be reached |
| AsyncReplies.AsyncReplies.SendAsync | ver3.0/src/aiomsg/msg_user.cpp:306-330 | a new marker waits |
| AsyncReplies.AsyncReplies.PushReply | ver3.0/src/aiomsg/msg_user.cpp:162-187 | the wait moves to the list with its reply, or the reply is destroyed if nobody waits |
| AsyncReplies.AsyncReplies.PopAsync | ver3.0/src/aiomsg/msg_user.cpp:559-567 | the first reply goes to the callback, for a marker that had none before |
| AsyncReplies.AsyncReplies.PopTimeouted | ver3.0/src/aiomsg/msg_user.cpp:576-590 | the first expired wait, in the order of the markers, goes to the callback, for a marker that had none before; none if and only if none is expired |
| AsyncReplies.AsyncReplies.CallbackDone | ver3.0/src/aiomsg/msg_user.cpp:436-464 | the reply is handed over or destroyed, once |
| Wire.FieldsBack | ver3.0/src/aiomsg/msg_cpp.cpp:108-139 | every header field and the body of a packed block are read back |
| Wire.GuidBack | ver3.0/src/aiomsg/msg_cpp.h:316-352 | an address is read back |
| Wire.NumberOfLong | ver3.0/src/aiomsg/msg_cpp.h:354-379 | an eight-byte number, low half first, is read back |
| Wire.Message.Resize | ver3.0/src/aiomsg/msg_cpp.cpp:168-221 | the common body prefix is kept, a cut part is zeroed, and the stored block length is right |
| Wire.Message.PackMsg | ver3.0/src/aiomsg/msg_cpp.cpp:74-105 | the fields stand behind the length, in order; length and body are kept |
| Wire.Message.UnpackMsg | ver3.0/src/aiomsg/msg_cpp.cpp:108-163 | accepted if and only if the block length agrees with the body length, and then with the fields of the block |
| Wire.Receiver.OnLength | ver3.0/src/aiomsg/msg_sock.cpp:187-220 | accepted if and only if four bytes came and, as a signed number, reach over the header |
| Wire.Receiver.OnPart | ver3.0/src/aiomsg/msg_sock.cpp:222-259 | the parts received so far stand in the block in order; the block is complete with the last byte and not before |
| Wire.BlockBack | ver3.0/src/aiomsg/msg_sock.cpp:187-259 | a packed block cut into any parts comes back whole, with all fields and the body |
| Wire.Deliver | ver3.0/src/aiomsg/msg_sock.cpp:187-330 | a message that is packed, sent in parts of any sizes, received and unpacked arrives with its header and body |

## Left out

- Operating-system calls, file and RPC ports, encryption, configuration, logging, thread pools: not part of the claims; the socket port answers or fails a request at any moment.
- KeyLocker, SocketPort, PinLife and Handshake are machines on values, so that threads can interleave: updating in place and aliasing are not captured there.
- Real time: whether a wait or a block has expired is a parameter of the step.
- Shutdown (`off` in both ports), synchronous `send` of the message port, and creation of a pin that fails half way.
- Numeric: signed operators with mixed signs, `divide`, `format`, text, and arguments that are null pointers.
- Orcl.ParseOrcl: claims nothing about bytes whose first pair is zero or no pair, or with the bytes 0 and 1 as pairs of a negative number, which `persist_orcl` does not write for a number in normal form.
- Orcl.CompareOrcl: the same for both of its arguments when their signs agree.
- Memory.ByteAllocator.Allocate: malloc always succeeds in the model; after a failure the free position would belong to a chunk no longer in use.
- SendQueue.Pin.SendBulk: a UDP pin whose framing is lost, by a refused request or an oversized datagram, takes no further calls in the model; what other pins take from the allocator is a change of `room` between calls.
- PinLife.StepKeeps: an ident stands for one assignment of it, as the socket port gives an ident out again only when no callback for it runs; the look-up after a callback that ended by closing the pin is not modelled, as the pin is gone then.
- SocketPort.StepKeeps: the lists are counted without their order, and incoming blocks of a closed socket are dropped with it.
- Handshake.SessionsAgree: only handshake messages have the system priority, which user calls and pings never give; refusal of the peer by configuration and keys are left out.
- Wire.Message.Resize: block lengths stay below 2^32.
- Minimum spanning trees and the heap beside them (`alg/mst.hpp`), lists, bit sets and conversions of text: no claim is made.
