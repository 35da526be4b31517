# hetao: verification models

A Dafny project that models the algorithmic core of the hetao web server and proves what that core
promises. Run `dafny verify dfyconfig.toml` in this directory.

## What is modelled

* **The intrusive red-black tree** (`src/rbtree.c`): nodes with parent links on the heap, the
  iterative insert and delete fix-ups, linking, replacing, and walking in order. `RbTree` defines shapes
  and what it means for memory to hold one; `RbRotate`, `RbBalance`, `RbInsert`, `RbErase`, `RbSplice`,
  `RbShift` and `RbReplace` prove each step on memory; `RbHeap` has the operations on objects.
* **The ordered indexes on it**: `TimerQueue` (elapse and timeout queue), `LeastConnection`
  (scheduler), `HtmlCache` (path index and watch-descriptor index), with `RbIndex` and `KeyIndex` as
  their common part.
* **The JSON codec of the server configuration**, in three layers.
  Text and tokens: escapes (`JsonText`, and byte by byte `EscapeBytes`), tokens (`JsonToken`, `TokenBytes`).
  Traversal: `JsonTravel` as functions, `JsonTraveller` as the loops on a shared path buffer, `JsonMachine` as a stack
  machine; what it keeps (`JsonPath`, `JsonHold`), what a scan of the text tells about it (`JsonSurvey`, `JsonCalls`,
  `JsonLayout`, `JsonNested`), value trees and their printed form (`JsonPrint`, `JsonLines`, `JsonRead`).
  Configuration: the callback (`HetaoConf`), the meaning of a value tree (`ConfMeaning`, `ConfPaths`, `ConfLoads`,
  `ConfForms`), where the callback writes (`ConfSafety`, `ConfQuiet`, `ConfRuns`, `ConfSlash`, `ConfEarly`), what it keeps
  (`ConfGrows`, `ConfSized`), the growing serializer (`JsonOutput`, `ConfSerializer`) and the round trip across all
  layers (`Decimals`, `ConfRoundTrip`, `ConfExact`, `ConfReader`).
* **Heap lists**: circular lists (`LinkedList`), and hash chains with the per-address connection
  counter (`IpLimits`).

## How the model reads the source

* The packed word `rb_parent_color` is two fields; `container_of` is the field `record` of a node. Ghost
  fields give each node its position in the in-order sequence; `Sync` ties the objects to a ghost
  memory in which positions stand for pointers, and every write updates both.
* Integers are unbounded, except that `compress_enable` is a signed byte. "Now" is a parameter.
* A `char` stands for a byte, and a C string is the sequence of its bytes before the terminator. What
  lies beyond the terminator is not part of the model: where the source may run past the end of a text (a
  comment mark or a backslash at its very end), the model sees the end of the text.
* In `TOKENJSON` the multibyte groups are tested on `char`; where that type is signed the tests never
  hold. The bytes of a group have no other meaning there, so the model passes them one by one.
* A counted array of the configuration is two fields: the elements below the counter, and the element at
  the counter, which is the one being filled. The elements behind it are zero, as they are in a
  configuration that was initialised before reading. `wild` records that an element at or behind the cap was
  addressed.
* `Shape` in the traversal state records whether an array was visited at a path shorter than that of
  the array around it (`rooted` says no), and whether a key with a slash was used (`plain` says no). The main
  theorems are stated on the text instead: `JsonSurvey` defines both as a scan of its tokens (`NoEarlyArray`,
  `PlainKeys`) and proves that the scan foretells the records. An early array is one that is an item of an array below the top
  level, in front of that array's first scalar item.
* The source keeps neither of two things it seems to promise. The path in the shared buffer is right for every
  call in the texts without an early array, and, of the texts that are read without an error, in no others
  (`JsonCalls.CallsInPlace`). Writes stay below the caps of
  the arrays in every text without an early array and without a slash in a key (`ConfRuns.LoadIsSafe`); for each of
  the two conditions there is a family of documents that meets the other one and fails (`ConfSlash`, `ConfEarly`).
* Ending a session lowers a connection count in the record of a server but does not move the server in the
  tree of counts, so that tree is not always sorted; the theorems hold on every valid tree, and those on the order
  say so.
* The configuration is a slice of the record: two scalars, `listen` with `website` with `rewrite`, `redirect` and
  `forward` with `forward_server`, and `mime_types`; the other fields repeat these patterns.
* A callback is a function from the user's data and a call to new data and a return value. A positive
  return value leaves only the innermost loop, as in the source; `TravelReads` is about callbacks that go
  on or fail.
* The comment says that `list_cut_position` expects an entry of the list; the code also notices a foreign
  entry when the list has a single one, and the model follows the code.

## Model

| member | source | states |
|---|---|---|
| `RbHeap.RbRoot.Erase` | src/rbtree.c:234-299 | erasing any node of a valid red-black tree leaves a valid red-black tree whose in-order sequence is the old one without exactly that node; no key is looked at |
| `RbHeap.RbRoot.EraseSingle` | src/rbtree.c:239-299 | erasing a node with at most one child: afterwards the erased position is in no link and the red-black property holds |
| `RbHeap.RbRoot.EraseDouble` | src/rbtree.c:243-299 | erasing a node with two children: the in-order successor takes over its place, colour and children, and the red-black property holds |
| `RbHeap.RbRoot.EraseColor` | src/rbtree.c:154-232 | the delete fix-up ends with a red-black tree from every state with one short side; the measure is the depth of the short side, then whether it is black |
| `RbErase.SinkLeft` | src/rbtree.c:163-170 | red sibling on the right: the two paints and the rotation push the short side one level down below a red parent and keep order, links and all other black heights |
| `RbErase.SinkRight` | src/rbtree.c:197-204 | the mirror image of the red-sibling case |
| `RbErase.PassLeft` | src/rbtree.c:171-177 | black sibling with black children: painting it red moves the shortage up to the parent |
| `RbErase.PassRight` | src/rbtree.c:205-211 | the mirror image of the black-children case |
| `RbErase.TurnLeft` | src/rbtree.c:180-186 | black sibling whose outer child is black: one rotation makes the outer child red |
| `RbErase.TurnRight` | src/rbtree.c:214-220 | the mirror image of the inner-child case |
| `RbErase.RepairLeft` | src/rbtree.c:187-192 | black sibling whose outer child is red: one rotation ends the shortage |
| `RbErase.RepairRight` | src/rbtree.c:221-226 | the mirror image of the final rotation |
| `RbSplice.SpliceNearView` | src/rbtree.c:251-276 | the successor is the right child: after the splice memory holds the tree with the successor at the erased place |
| `RbSplice.SpliceFarView` | src/rbtree.c:251-276 | the successor lies deeper: its own right child stays behind, and memory holds the tree with the successor at the erased place |
| `RbSplice.SpliceBalance` | src/rbtree.c:259-298 | taking out a black successor leaves one position short by one black node; taking out a red one leaves a red-black tree |
| `RbHeap.RbRoot.InsertColor` | src/rbtree.c:89-152 | from a red leaf that may sit below a red parent the insert fix-up restores the red-black property and keeps the in-order sequence |
| `RbInsert.Recolour` | src/rbtree.c:99-109 | red uncle: three paints keep every black height and move the conflict two levels up |
| `RbInsert.TurnOutLeft` | src/rbtree.c:111-118 | an inner grandchild is turned outwards without changing order or black heights |
| `RbInsert.TurnOutRight` | src/rbtree.c:136-143 | the mirror image |
| `RbInsert.LiftLeft` | src/rbtree.c:120-122 | two paints and a rotation end the conflict |
| `RbInsert.LiftRight` | src/rbtree.c:145-147 | the mirror image |
| `RbHeap.RbRoot.RotateLeft` | src/rbtree.c:43-64 | the assignments of the left rotation, on nodes with parent links, are the rotation of the linked shape |
| `RbHeap.RbRoot.RotateRight` | src/rbtree.c:66-87 | the assignments of the right rotation |
| `RbRotate.RotateLeftView` | src/rbtree.c:43-64 | after a left rotation memory holds the rotated tree: every parent, child and root link agrees and the in-order sequence is the same |
| `RbRotate.RotateRightView` | src/rbtree.c:66-87 | after a right rotation memory holds the rotated tree |
| `RbHeap.RbRoot.Link` | src/rbtree.c:471-477 | linking at a hole makes the node a red leaf there: the in-order sequence has it exactly at the hole |
| `RbIndex.LinkAndRebalance` | src/rbtree.c:89-152 | linking a node at the hole a descent has found and rebalancing yields a valid red-black tree whose sequence is the old one with the node at the hole |
| `RbHeap.RbRoot.Replace` | src/rbtree.c:448-469 | replacing a node keeps shape, colours and order; the sequence has the new node in the place of the old one, and everything that pointed at the old node points at the new one |
| `RbReplace.OnlyNeighbours` | src/rbtree.c:448-469 | in a linked tree only the parent and the children of a node point at it |
| `RbHeap.RbRoot.First` | src/rbtree.c:372-382 | the first node of the in-order sequence, or nothing for the empty tree |
| `RbHeap.RbRoot.Last` | src/rbtree.c:384-394 | the last node of the in-order sequence |
| `RbHeap.RbRoot.Next` | src/rbtree.c:396-422 | the node behind the given one in the in-order sequence, or nothing behind the last |
| `RbHeap.RbRoot.Prev` | src/rbtree.c:424-446 | the node before the given one in the in-order sequence |
| `RbHeap.RbRoot.ThereAndBack` | src/rbtree.c:396-446 | rb_prev undoes rb_next and rb_next undoes rb_prev |
| `RbHeap.RbRoot.AllDifferent` | src/rbtree.c:234-299 | no node occurs twice in a linked tree |
| `RbBalance.HeightBound` | src/rbtree.c:89-299 | a red-black tree of n nodes has height at most 2*log2(n+1), stated as 2^height <= (n+1)^2 |
| `RbIndex.WalkLength` | src/HtmlCachePathfilenameTree.c:46-57 | every descent from the root of a valid tree of n nodes takes at most 2*log2(n+1) steps |
| `KeyIndex.FindHole` | src/LeastConnectionCountTree.c:17-30 | on every valid tree, in order or not, the descent ends at a hole within the height bound; in a sorted tree that is the hole in front of all nodes with an equal or greater key |
| `KeyIndex.LowerBoundUnique` | src/LeastConnectionCountTree.c:24-29 | in a sorted sequence there is only one such place |
| `KeyIndex.Add` | src/LeastConnectionCountTree.c:11-36 | adding to any valid tree yields a valid tree with the node at one place and the others in their order; a sorted tree stays sorted, and the new node comes in front of all nodes with an equal key |
| `KeyIndex.Remove` | src/LeastConnectionCountTree.c:38-42 | removing takes exactly this node out, whether or not the keys are sorted |
| `LeastConnection.Update` | src/LeastConnectionCountTree.c:44-53 | whatever the connection counts are, update yields a valid tree over the same servers, only this one moved; when the other counts are in order, the tree is sorted and the server in front of its equals |
| `LeastConnection.Release` | src/LeastConnectionCountTree.c:24-29 | the decrement at the end of a session (src/HttpSession.c:207), which does not touch the tree: valid as before, the same servers in the same places, one key smaller by one |
| `LeastConnection.ReleaseKeepsOrder` | src/LeastConnectionCountTree.c:24-29 | after that decrement a sorted tree is sorted if and only if the server was the first one or its count was above that of the server before it |
| `LeastConnection.StaleCounts` | src/LeastConnectionCountTree.c:24-29 | so the program itself does not keep the order: counts 1 and 2, and both sessions of the second server end |
| `LeastConnection.ChangedKey` | src/LeastConnectionCountTree.c:44-53 | changing one key leaves the others in order, which is all that update asks for |
| `LeastConnection.Travel` | src/LeastConnectionCountTree.c:55-73 | the first server of the sequence, or the one behind the given server |
| `LeastConnection.TravelAll` | src/LeastConnectionCountTree.c:55-73 | asking for the next server until there is none visits every server of any valid tree exactly once; in non-decreasing connection count when the tree is sorted |
| `LeastConnection.Select` | src/LeastConnectionCountTree.c:55-73 | the loop of `SelectForwardAddress` (src/OnConnectingForward.c:38-59) over these calls: the first server in tree order that is not suspended is chosen, none exactly when all are suspended; in a sorted tree it is a least loaded one of those that are not |
| `TimerQueue.Timers.Add` | src/HttpSessionElapseTree.c:11-36 | keeps the queue invariant: sorted by timestamp, and among equal timestamps the most recent addition first |
| `TimerQueue.Timers.Remove` | src/HttpSessionElapseTree.c:38-42 | takes exactly this session out and keeps the queue invariant |
| `TimerQueue.Timers.Update` | src/HttpSessionTimeoutTree.c:44-54 | the session moves to the place of its new timestamp; the others keep their order |
| `TimerQueue.Timers.GetExpired` | src/HttpSessionElapseTree.c:56-70 | nothing exactly when no queued session is due; otherwise the session with the smallest timestamp that was added last among those |
| `TimerQueue.SetUnused` | src/HttpSessionElapseTree.c:38-42 | ending a session takes it out of both queues (src/HttpSession.c:172-173): each loses exactly its own node of the session, and the queues hold the same sessions as before and stay valid |
| `TimerQueue.DrainExpired` | src/HttpSessionElapseTree.c:56-70 | one loop of the worker thread (src/WorkerThread.c:122-130 or 132-140) ends sessions in queue order until none is due: exactly the due ones have left, from both queues |
| `TimerQueue.DrainBoth` | src/HttpSessionElapseTree.c:56-70 | the two loops one after the other (src/WorkerThread.c:118-141): a session stays if and only if neither of its two timestamps is due, and both queues hold exactly the same sessions |
| `TimerQueue.LatestInsert` | src/HttpSessionElapseTree.c:24-29 | descending left on ties keeps later additions in front of earlier ones with the same timestamp |
| `HtmlCache.StrCmpTransitive` | src/HtmlCachePathfilenameTree.c:25-28 | the byte order of strcmp is transitive |
| `HtmlCache.StrCmpEqual` | src/HtmlCachePathfilenameTree.c:25-31 | strcmp is zero exactly for equal names |
| `HtmlCache.StrCmpFirst` | src/HtmlCachePathfilenameTree.c:25-31 | the first byte that differs decides, and a prefix comes first |
| `HtmlCache.Search` | src/HtmlCachePathfilenameTree.c:18-32 | the descent finds the node with the name, or the hole between smaller and greater names, within the height bound |
| `HtmlCache.PathIndex.Add` | src/HtmlCachePathfilenameTree.c:11-38 | fails and changes nothing exactly when the name is present; otherwise the finite map gains the entry |
| `HtmlCache.PathIndex.Query` | src/HtmlCachePathfilenameTree.c:40-60 | lookup in the finite map: the unique session with the name, or nothing |
| `HtmlCache.PathIndex.Remove` | src/HtmlCachePathfilenameTree.c:62-66 | the finite map loses the entry of this session |
| `HtmlCache.QueryWd` | src/HtmlCacheWdTree.c:38-55 | a session with the watch descriptor is found exactly when there is one, duplicates allowed |
| `JsonText.GroupIsHigh` | src/fasterjson.h:24-64 | a multibyte group consists of bytes above 127 and ends within the string |
| `EscapeBytes.EscapePlain` | src/fasterjson.h:89-139 | a string without the seven bytes quote, backslash, tab, CR, LF, backspace and form feed is its own escaped form; a slash is not escaped |
| `EscapeBytes.EscapeSeven` | src/fasterjson.h:94-133 | what each of the seven becomes, in bytes |
| `EscapeBytes.EscapeLength` | src/fasterjson.h:89-139 | the escaped form is longer by one byte for each of the seven that the string holds |
| `EscapeBytes.FoldPair` | src/fasterjson.h:168-254 | a backslash and any byte but u give one byte: that byte itself, or one of tab, CR, LF, backspace and form feed |
| `EscapeBytes.FoldByte` | src/fasterjson.h:203-221 | backslash, u, two zeros and two hexadecimal digits in either case give the byte with that value |
| `EscapeBytes.FoldBytes` | src/fasterjson.h:222-248 | four digits that do not begin with two zeros give two bytes |
| `EscapeBytes.FoldNoDigit` | src/fasterjson.h:208-234 | a byte that is no digit after backslash and u stops the loop with -1 |
| `EscapeBytes.FoldPastEnd` | src/fasterjson.h:203-221 | the search for a digit finds the terminator of its digit set as well: a text that ends behind backslash, u and two zeros gives the byte 16 |
| `EscapeBytes.FoldCharacter` | src/fasterjson.h:24-64 | a character of two to four bytes is copied whole or, without room for all of it, not at all |
| `EscapeBytes.FoldLongGroup` | src/fasterjson.h:24-64 | of a group of five or six bytes the first four are copied at once |
| `EscapeBytes.FoldLoneByte` | src/fasterjson.h:24-64 | a byte above 127 that begins no group is copied alone |
| `EscapeBytes.FoldTooLong` | src/fasterjson.h:155-271 | unescaping an escaped string that is longer than the room is reported |
| `JsonText.Expand` | src/fasterjson.h:82-153 | escapes into the buffer; reports -1 exactly when the escaped form is longer than the room, and writes nothing outside the room and the terminator slot |
| `JsonText.EscapeConcat` | src/fasterjson.h:89-139 | escaping works byte by byte, so groups are copied as they are |
| `JsonText.FoldInto` | src/fasterjson.h:155-271 | the unescaping loop writes what the step-wise definition says, the terminator behind it, and nothing beyond; it reports -1 exactly when the definition gets stuck or the room ends |
| `JsonText.FoldEscape` | src/fasterjson.h:82-271 | unescaping an escaped string gives back the original for every string, multibyte groups included, when it fits the room and what follows is not a byte above 127 |
| `JsonToken.Tokenize` | src/fasterjson.c:32-282 | the loops of the macro, over positions in the text, find the token that the suffix-wise definition names, and the position after it |
| `TokenBytes.MarkTokens` | src/fasterjson.c:83-133 | the six marks and their tags |
| `TokenBytes.BlanksSkipped` | src/fasterjson.c:44-52 | space, tab, CR and LF in any number and order are skipped; nothing else but comments is |
| `TokenBytes.WordToken` | src/fasterjson.c:193-282 | an unquoted word in front of any of space, the six marks, CR and LF is one token of exactly its bytes, with the rest from that byte on; the words true, false and null are literals, other words with their first letters are invalid |
| `TokenBytes.WordEnds` | src/fasterjson.c:230-257 | unquoted text ends at a byte if and only if that is the first of those nine and no backslash or parenthesis comes before; such a byte makes it invalid |
| `TokenBytes.WordRefused` | src/fasterjson.c:250-256 | a backslash or parenthesis in a word makes the text invalid |
| `TokenBytes.WordUnfinished` | src/fasterjson.c:258-261 | a word at the very end of the text is not a token |
| `TokenBytes.QuoteCloses` | src/fasterjson.c:137-186 | quoted text ends at a byte if and only if that is the quote and before it come only bytes other than tab, CR, LF and the quote, and backslashes in front of one of nine bytes |
| `TokenBytes.QuotedText` | src/fasterjson.c:134-190 | so the token is exactly what stands between two double or two single quotes |
| `TokenBytes.QuotedMalformed` | src/fasterjson.c:171-181 | a break in quoted text, or a backslash in front of another byte, is invalid |
| `TokenBytes.QuotedCut` | src/fasterjson.c:175-190 | a text that ends behind a backslash in quotes has no token left |
| `TokenBytes.CommentUnfinished` | src/fasterjson.c:53-80 | a comment or line comment that is not closed reaches to the end of the text |
| `JsonToken.TokenAfterBlank` | src/fasterjson.c:44-48 | white space in front of a token does not change it |
| `JsonToken.CommentIsBlank` | src/fasterjson.c:53-66 | a comment whose body has at least two bytes, without an end mark from its third byte on, is white space |
| `JsonToken.EmptyCommentRunsOn` | src/fasterjson.c:53-66 | an empty comment is not closed by its own end mark but by the next one in the text |
| `JsonToken.OneByteCommentRunsOn` | src/fasterjson.c:53-66 | a comment with a body of one byte is not closed by its own end mark either |
| `JsonToken.LineCommentIsBlank` | src/fasterjson.c:67-80 | a line comment of at least two bytes is white space up to the end of its line |
| `JsonToken.ShortLineCommentRunsOn` | src/fasterjson.c:67-80 | a line comment of one byte takes the next line with it |
| `JsonToken.LeadingZeroRefused` | src/fasterjson.c:198-203 | unquoted text with a leading zero followed by anything but a dot or a terminator is invalid |
| `JsonToken.QuotedToken` | src/fasterjson.c:134-190 | text that can stand between double quotes is read as one token with exactly these bytes |
| `JsonToken.EscapeQuotable` | src/fasterjson.c:171-189 | escaped text can always stand between double quotes |
| `JsonToken.BareToken` | src/fasterjson.c:196-241 | a number-like word in front of a terminator is read as one unquoted token; a tab inside does not end it |
| `JsonToken.NullToken` | src/fasterjson.c:272-279 | the literal null is reported as the one-byte marker |
| `JsonTravel.AppendExtends` | src/fasterjson.c:653-672 | appending a name keeps the enclosing path; the buffer then holds the path with the name, or with an abbreviation when the name does not fit, and every write is inside the buffer |
| `JsonTravel.AppendTerminates` | src/fasterjson.c:653-672 | the new path is terminated inside the buffer, nothing behind the terminator is written, and the name itself is used if and only if it leaves three bytes free |
| `JsonMachine.TravelRuns` | src/fasterjson.c:284-961 | for every text, every callback and every return value of it, the recursive traversal is a stack machine that reads one token after the other: a table says for each of seven places what each token does or which of the codes -121, -131 to -134, -141, -142, -150 and -160 it gives, and a positive return value closes the innermost object or array early |
| `JsonHold.TravelHolds` | src/fasterjson.c:284-961 | for every text and callback: what the calls that enter and leave, and the leaves with other names than k, keep, holds after traversing a text without the key k |
| `JsonTraveller.Traveller.AppendName` | src/fasterjson.c:341-359 | the writes into the shared buffer, in place, are those of the append function and stay inside the buffer |
| `JsonTraveller.Traveller.VisitMembers` | src/fasterjson.c:489-819 | the object loop, advancing the text position and overwriting the shared buffer, makes the calls and returns the code of the recursive definition |
| `JsonTraveller.Traveller.VisitItems` | src/fasterjson.c:306-487 | the array loop, likewise; the path length left over from the item before is what an array directly inside is visited at |
| `JsonTraveller.Traveller.VisitDocument` | src/fasterjson.c:821-915 | the top-level loop over the objects and arrays of a text |
| `JsonTraveller.TravelBuffer` | src/fasterjson.c:917-936 | the whole traversal from an empty path; reaching the end of the text is success |
| `JsonSurvey.MembersKeepPath` | src/fasterjson.c:653-795 | for every text without an early array and every callback that goes on or fails, traversing an object at path length n never changes the first n bytes of the shared path buffer, at any depth and with any key lengths |
| `JsonSurvey.ItemsKeepPath` | src/fasterjson.c:306-487 | the same for the items of an array |
| `JsonSurvey.TravelFollows` | src/fasterjson.c:306-961 | a scan of the tokens with a stack of the open brackets foretells the traversal of any text: no array is visited at a path shorter than that of the array around it, and no key with a slash is met, unless the scan finds one; without an error exactly what it finds |
| `JsonCalls.CallsInPlace` | src/fasterjson.c:306-961 | when no array other than a top-level one has an array in front of its first scalar item, every call carries a path that extends that of the structure around it, and leaving carries the path of entering; for a text traversed without an error this is an if and only if |
| `JsonLayout.PrintedShape` | src/fasterjson.c:306-961 | the text of every printed value tree has no early array, and a key with a slash exactly when the tree has one |
| `JsonLines.DocumentIsLines` | src/IDL_hetao_conf.dsc.c:622-1159 | the printed form of every value tree, line by line: one line for a scalar member, and for an object or array a line with the key, one with the opening mark, its members one tab further in, and one with the closing mark |
| `JsonNested.NestedDocument` | src/fasterjson.c:405-431 | the nine calls, in full, that the document {"key":[[1],{}]} makes for any key: the object is reported under what the inner array has left in the buffer |
| `JsonNested.LostExactly` | src/fasterjson.c:405-431 | the object keeps the path of the array around it exactly when the key is empty or a dot |
| `JsonNested.NestedExample` | src/fasterjson.c:405-431 | the document {"ab":[[1],{}]} is traversed without an error, and its object is entered under another path than /ab |
| `JsonRead.TravelReads` | src/fasterjson.c:306-961 | traversing a printed value tree makes exactly the calls of the tree, in order, with the path of each, until a call fails; the result of the failing call is returned |
| `JsonRead.TravelRecords` | src/fasterjson.c:306-961 | a callback that writes down its calls has the nested enter/leaf/leave sequence of the tree at the end, with array elements under the path of the array |
| `JsonRead.MembersRead` | src/fasterjson.c:489-819 | the members of an object make the calls of the tree; afterwards the text behind the closing brace is left and the path is kept |
| `JsonRead.ItemsRead` | src/fasterjson.c:306-487 | the items of an array make the calls of the tree |
| `Decimals.AtoiDecimal` | src/IDL_hetao_conf.dsc.h:75 | converting a printed number gives it back, whatever non-digit follows |
| `Decimals.AtoiSpelled` | src/IDL_hetao_conf.dsc.h:75 | white space, one sign or none, and digits up to the first other byte convert to that number |
| `Decimals.AtoiNothing` | src/IDL_hetao_conf.dsc.h:75 | text that begins with any other byte converts to zero |
| `Decimals.ReadBackExact` | src/IDL_hetao_conf.dsc.h:69-75 | a number survives the fixed-width conversion exactly when it prints in that many characters |
| `ConfPaths.Known` | src/IDL_hetao_conf.dsc.c:1181-1343 | the path of every field is told apart from all others |
| `ConfPaths.PathStep` | src/IDL_hetao_conf.dsc.c:1181-1343 | for every key without a slash: a member of an object leads to the field and the object that its key names, and any other key to a path through which no field can be reached |
| `ConfPaths.WildExactly` | src/IDL_hetao_conf.dsc.c:1181-1343 | a call addresses an element behind an array if and only if its path is that of a field and the array of an object around the field is full |
| `ConfSafety.InvReaches` | src/IDL_hetao_conf.dsc.c:1181-1343 | while the bracketing invariant holds, every element that a call addresses is below the cap of its array |
| `ConfSafety.EnterKeeps` | src/IDL_hetao_conf.dsc.c:1179-1193 | an element that is entered, and not refused, has its counter below the cap while it is open |
| `ConfSafety.LeaveKeeps` | src/IDL_hetao_conf.dsc.c:1194-1208 | counting an element never passes the cap |
| `ConfSafety.LeafKeeps` | src/IDL_hetao_conf.dsc.c:1210-1344 | a leaf changes no counter and writes below the caps |
| `ConfSafety.Descend` | src/IDL_hetao_conf.dsc.c:1181-1207 | a name without a slash leads into an array exactly when the path around it does |
| `ConfRuns.MembersStaySafe` | src/fasterjson.c:489-819 | in every text without early arrays and without slashes in keys, the members of an object keep the bracketing invariant at its path, and the path |
| `ConfQuiet.MembersQuiet` | src/fasterjson.c:489-819 | at a path that leads to no field nothing in the configuration changes, however deep the object is and whatever its keys are |
| `ConfRuns.LoadIsSafe` | src/IDL_hetao_conf.dsc.c:1177-1209 | for every text, well-formed or not, without an early array and without a slash in a key, read into any configuration within its caps: all counters end at or below 16/64/10/100/1000/256 and no element at or behind a cap was addressed |
| `ConfRuns.LoadMeets` | src/IDL_hetao_conf.dsc.c:1177-1209 | a load without an error meets an early array, or a key with a slash, exactly when the text holds one |
| `ConfSlash.PrintedIsSafe` | src/IDL_hetao_conf.dsc.c:1177-1209 | the printed text of every value tree without a slash in a key is read safely |
| `ConfSlash.SlashKeyDocument` | src/IDL_hetao_conf.dsc.c:1239-1241 | the condition on keys is needed: a document of a list of listen entries and a top-level key `listen/ip` has no early array, is read without an error, and addresses the element behind the array exactly when the list has 16 entries; with fewer it assigns to an entry that was never entered |
| `ConfEarly.EarlyDocument` | src/IDL_hetao_conf.dsc.c:1242-1244 | the condition on arrays is needed: a list of listen entries and a member {"y":[[{"listen":1}]],"port":1} has no slash in a key, is read without an error, and addresses the element behind the array exactly when the list has 16 entries |
| `ConfLoads.LoadMeans` | src/IDL_hetao_conf.dsc.c:1165-1359 | for every printed value tree without a slash in a key, with any members in any order and depth, and every configuration within its caps: loading does exactly what the tree means by a recursion over the tree that knows no paths and no calls (every object under a list key, repeated or in an array, fills the element at the counter and is counted; -8 for a full list, -7 for an overlong text), result code included, and no element behind an array is addressed |
| `ConfForms.SpreadMeans` | src/IDL_hetao_conf.dsc.c:1194-1208 | a tree and the one with every array replaced, at any depth, by object members with a repeated key mean the same from every start |
| `ConfForms.FormsLoadAlike` | src/IDL_hetao_conf.dsc.c:1194-1208 | so the two documents are loaded with the same code and leave the same configuration |
| `ConfGrows.NothingLost` | src/IDL_hetao_conf.dsc.c:1349-1359 | for every text, well-formed or not, and every configuration it is read into: all elements that were counted are still there, in front of what is read, at every level |
| `ConfGrows.FieldStays` | src/IDL_hetao_conf.dsc.c:1349-1359 | for every text: a field whose key does not occur in the text keeps its value, in the element that was being filled |
| `ConfGrows.EmptyObject` | src/IDL_hetao_conf.dsc.c:1349-1359 | reading {} or an empty text returns 0 and the given configuration |
| `ConfSized.LoadSized` | src/IDL_hetao_conf.dsc.c:1210-1344 | for every text, well-formed or not: every text field stays within its size (64, 15, 256, 1024, 16, 1, 50 or 100 bytes), terminated, and compress_enable within a signed byte |
| `ConfSized.PutCode` | src/IDL_hetao_conf.dsc.c:1210-1344 | a text is stored whole with code 0 if and only if it has at most the bytes of its field; otherwise -7 is reported |
| `ConfSized.UserCode` | src/IDL_hetao_conf.dsc.c:1227-1229 | the document with the one key user is loaded, into any configuration, if and only if the text has at most 64 bytes, and refused with -7 otherwise; nothing else changes |
| `ConfSized.ListensCode` | src/IDL_hetao_conf.dsc.c:1181-1182 | a document with a list of listen entries is loaded if and only if there are at most 16; otherwise the first 16 are kept and the code is -8 |
| `ConfRoundTrip.ServersMean` | src/IDL_hetao_conf.dsc.c:931-956 | the tree of a list of servers appends them one by one to the counted array, in order, behind those that were there |
| `ConfRoundTrip.WebsiteMeans` | src/IDL_hetao_conf.dsc.c:745-957 | the tree of a website fills exactly the element at the counter |
| `ConfExact.ConfReadsInto` | src/IDL_hetao_conf.dsc.c:1349-1359 | the text of every configuration that fits its record, with its lists as arrays or as object members with repeated keys, is read without an error into any configuration with room: one element for each, in order, with its fields, behind those that were there |
| `ConfExact.ConfReadsBack` | src/IDL_hetao_conf.dsc.c:1349-1359 | into a zeroed configuration this gives the normal form of the configuration, for both forms of the lists |
| `ConfExact.RoundTrip` | src/IDL_hetao_conf.dsc.c:1349-1359 | it is read back unchanged exactly when its numbers print in the bytes that are converted (10, or 3 for compress_enable) and no text starts with the marker byte 127 without being the one-byte marker |
| `ConfReader.Deserialize` | src/IDL_hetao_conf.dsc.c:1349-1359 | the traversal with the callback over the given configuration and a path buffer of 1025 bytes; what was counted stays, and it is safe for every text that meets the two conditions |
| `ConfReader.PrintAndRead` | src/IDL_hetao_conf.dsc.c:582-1359 | whatever the first buffer size, printing into the growing buffer and reading its contents gives the normal form, which is the configuration itself exactly under the condition above |
| `JsonOutput.Output.Grow` | src/IDL_hetao_conf.dsc.c:623 | every reallocation doubles the buffer below one gigabyte and adds ten megabytes above, keeps what was written and keeps offset + remaining + 1 equal to the size |
| `JsonOutput.Output.Emit` | src/IDL_hetao_conf.dsc.c:623 | the retry loop ends, and exactly the text was appended behind what was there before, with a terminator |
| `JsonOutput.Output.EmitEscaped` | src/IDL_hetao_conf.dsc.c:645 | the same for escaped text |
| `JsonOutput.Output.constructor` | src/IDL_hetao_conf.dsc.c:591-614 | a new buffer has the suggested size if it is positive and 1024 bytes otherwise |
| `JsonOutput.Output.Reuse` | src/IDL_hetao_conf.dsc.c:615-621 | a buffer of the caller is continued behind its occupied part |
| `ConfSerializer.Serialize` | src/IDL_hetao_conf.dsc.c:582-1159 | the contents and the reported length are the concatenation of all fragments behind the earlier contents, whatever the starting buffer size |
| `ConfExact.KeysInOrder` | src/IDL_hetao_conf.dsc.c:622-1159 | the members of every object in the order in which they are printed |
| `ConfSerializer.PutWebsites` | src/IDL_hetao_conf.dsc.c:743-963 | the loop over the websites appends the layout of the whole array, commas between the elements and none after the last |
| `LinkedList.Add` | src/list.c:33-36 | the entry becomes the first one; the ring stays linked in both directions |
| `LinkedList.AddTail` | src/list.c:47-50 | the entry becomes the last one |
| `LinkedList.Del` | src/list.c:76-81 | exactly this entry is gone and its links are poisoned |
| `LinkedList.Move` | src/list.c:119-123 | within one list the entry becomes the first one |
| `LinkedList.MoveTail` | src/list.c:130-134 | within one list the entry becomes the last one |
| `LinkedList.MoveAcross` | src/list.c:119-134 | from one list to another: the one loses the entry, the other gains it at the asked end |
| `LinkedList.RotateLeft` | src/list.c:178-186 | the first entry becomes the last one |
| `LinkedList.RotateTimes` | src/list.c:178-186 | a run of n rotations of a list exchanges its first n entries with the others, and as many as there are entries leave it as it was |
| `LinkedList.RotateAround` | src/list.c:178-186 | the sequence behind that: as many rotations as there are entries change nothing |
| `LinkedList.RotationsSplit` | src/list.c:178-186 | the sequence behind it: n rotations exchange the first n entries with the others |
| `LinkedList.Singular` | src/list.c:192-195 | the test for a single entry holds exactly for one entry |
| `LinkedList.CutPosition` | src/list.c:197-234 | cutting splits the entries into the prefix up to the given entry and the rest, with no node lost; an empty list, or a foreign entry with a single one, leaves everything as it is |
| `LinkedList.Splice` | src/list.c:255-259 | the entries of the other list come in front, none is lost; the spliced head is left dangling |
| `LinkedList.SpliceTail` | src/list.c:266-270 | the entries of the other list come behind |
| `LinkedList.SpliceInit` | src/list.c:279-301 | the same, and the other list is empty afterwards |
| `LinkedList.CutAndSplice` | src/list.c:197-285 | cutting a list anywhere and splicing the cut part back in front restores it |
| `IpLimits.AddHead` | src/list.c:344-352 | the node becomes the first of the chain and every back-link points at what points at the node |
| `IpLimits.Delete` | src/list.c:319-334 | exactly this node is gone and the back-links stay consistent |
| `IpLimits.Table.Increase` | src/IpLimitsHash.c:58-92 | refuses with 1 if and only if the address is counted and its counter is at least the limit, fails with -1 if and only if it is not counted and memory is out, and otherwise returns 0 with the counter one higher; one entry per address, in bucket ip mod 65536; all other chains are untouched and only a new entry is added |
| `IpLimits.Table.Decrease` | src/IpLimitsHash.c:94-122 | returns 1 if and only if the address is not counted; otherwise the counter is one lower, or the entry is gone with the last connection; all other chains are untouched and no entry is added |
| `IpLimits.Table.Find` | src/IpLimitsHash.c:66-81 | the loop over the chain finds the entry of the address exactly when it is counted |
| `IpLimits.Replay` | src/IpLimitsHash.c:58-122 | every run of calls on a new table ends with a valid table whose counters and return values are those of the finite map, and with exactly one entry for each counted address, in bucket ip mod 65536 |
| `IpLimits.ValidPlaces` | src/IpLimitsHash.c:58-122 | what validity means for the chains: every entry lies in the bucket of its address and holds its counter, no address occurs twice in a chain, and every counted address has an entry |
| `IpLimits.CountersBalance` | src/IpLimitsHash.c:58-122 | over every run of calls with a limit of at least one, an address is present exactly when more connections were admitted than released, with the difference as its counter, never above the limit |
| `IpLimits.RefusedAtLimit` | src/IpLimitsHash.c:58-122 | after every run of calls with a limit of at least one, the next connection is refused with 1 if and only if as many connections of the address are open as the limit allows, and a release is reported if and only if none is open |
| `IpLimits.ResultsAtLimit` | src/IpLimitsHash.c:58-122 | the same for every return value of a run, which a replayed table returns |
| `IpLimits.OpenedNext` | src/IpLimitsHash.c:58-122 | how each call changes the number of open connections |
| `IpLimits.FirstAlwaysAdmitted` | src/IpLimitsHash.c:83-91 | the first connection is admitted whatever the limit, which is why the limit must be at least one |

## Left out

- RbHeap.RbRoot.Erase: one record per node; a session that sits in several trees has one node in each, and a node object stands for one of them.
- ConfExact.RoundTrip: the slice leaves out the fields that repeat the patterns of the modelled ones (`ssl`, `index`, `access_log`, `limits`, `tcp_options`, `http_options`, `error_pages`, `cpu_affinity`, `accept_mutex`, `error_log`, `log_level`).
- ConfExact.ConfReadsInto: the same slice of the record; the elements at the counters are zero before.
- ConfExact.ConfReadsBack: the same slice of the record.
- ConfReader.PrintAndRead: the same slice of the record.
- ConfRoundTrip.WebsiteMeans: without the fields `index` and `access_log` and the object `ssl` of a website.
- ConfSerializer.Serialize: prints the fragments of the same slice.
- ConfSerializer.PutWebsites: prints a website without `index`, `access_log` and `ssl`.
- HetaoConf.OnNode: the traversal takes its callback as a function value, so the callback maps the record to a new record; that it assigns to `*pst` in place, and the elements behind the one at the counter, are not captured.
- ConfReader.Deserialize: the elements behind the counters of the given record are taken to be zero.
- ConfLoads.LoadMeans: quoted texts that end inside an escape, and unquoted numbers that begin with a vertical tab or form feed, are not in its trees, because what they store depends on the bytes behind them.
- ConfRuns.LoadIsSafe: sufficient, and not necessary: a text that breaks one of its two conditions fails only when a list is full or an element was never entered, which depends on all calls before. What is shown of the converse are the two families in ConfSlash and ConfEarly, for which the exact number of entries is given.
- TimerQueue.DrainBoth: of the end of a session, only the two queues; closing the socket and moving the session to the unused list are not modelled.
- IpLimits.Replay: runs in which memory does not run out; a single call of Increase covers the failure.
- JsonOutput.Output.Grow: failure of `malloc` and `realloc`, and overflow of the buffer size.
- IpLimits.Table.Increase: the release of memory when an entry or the whole table goes away.
- The fixed-buffer serializer `DSCSERIALIZE_JSON_hetao_conf`: it prints the same fragments; only its handling of a text that exactly fills the buffer differs.
- GB18030 mode. Single-quoted text and hexadecimal escapes are modelled, but nothing beyond the agreement of loop and definition is stated about them; the serializer never emits them.
- A traversal without a path buffer, and callbacks that differ for enter, leave and leaf (`TravelJsonBuffer4`): the same code with fewer calls.
- `rb_augment_*`: unused callbacks over opaque data.
- `list_replace`, `list_del_init`, `list_empty_careful` and the other `hlist_*` operations: single assignments beside the modelled ones.
- `MimeTypeHash.c`, `VirtualHostHash.c`, `RedirectDomain.c`: chains as in `IpLimits` over a hash function that is not part of this model.
- `RewriteUri.c`: it rests on regular-expression matches that are not part of this model.
- Sockets, TLS, logging, processes and threads, and everything under `expack/`.
