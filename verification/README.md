# A verified model of xxscreeps: schemas, pathfinder and three small state machines

This project models the parts of xxscreeps whose correctness rests on more than one function, and proves
what they promise. `dafny verify dfyconfig.toml` checks all of it.

**Schemas** (`packages/xxscreeps/schema`). A declared format is compiled into a layout with sizes, alignments
and greedily packed struct members; a writer serializes values of the format into a fixed slot and a growing
heap of one shared byte buffer; a scanner predicts the end of that heap; a reader follows the pointers back.
The model keeps the byte buffer as an array that all typed views share (`BufferViews`), writes and reads it by
methods with the loops of the source (`Writer`, `Reader`, `Blobs`), and proves these against functions on
values: where the heap ends (`Scanner.Scan`), what a buffer that holds a value looks like (`Wire.Encodes`) and
what comes back (`Values.ReadBack`). The main results: writing and reading any accepted value returns
`ReadBack` of it whatever the buffer held before, and that is the value itself if and only if it is `Exact`, which
speaks of the format alone (`Schemas.Survive`, `Exactness.FaithfulIffExact`, `Fidelity.ReadsBackIffFaithful`); the
writer ends exactly where the scanner says and touches nothing else (`Writer.Write`); so a buffer of the scanned
size never overflows (`Blobs.WriteBlob`). `Sizes` and `WireBytes` give layouts and wire format in numbers.

**The native pathfinder** (`packages/pathfinder`). A* and jump point search share a heap with lazy deletion, a
list of open and closed stamps, parents, scores, and a table of rooms that grows during the search. The class
`Pathfinder.Instance` holds these arrays for one search after another; a ghost `State` is the search graph they
stand for, and `Instance.Valid` says that they agree. Every operation is proved against that graph, including
the push that finds the heap full. The main results are about whole runs (`Search.Search`, `MakeSearch.Find`):
every run ends without any limit on operations; the completed path is a legal path of the move graph whose tile
costs add up to the reported cost, in either mode, whatever terrain, origin and weight; with weight 1 a complete
search returns a cheapest path within the rooms it admitted, and a search that runs dry has closed everything in
reach; the path ends at a popped node of least heuristic; no room is asked about twice; each way of ending has
its condition. What jump point search prunes is covered from the tile before (module `Pruning`).

**Three state machines.** The list of own messages that the Redis pubsub adapter ignores
(`packages/redis/pubsub.ts`), the bounded runner `spread` (`packages/xxscreeps/utility/async.ts`) and the mod
loader (`packages/xxscreeps/config/mods.ts`), each as a class whose methods are the steps that may interleave. The
order in which mods are loaded is determined (`ModOrder`).

What the proofs found out about the code. Where a property fails, the condition is one that can be checked
beforehand, and there is an input at which it fails:

- **Jump point searches may fail at an assertion.** Regular jumps that begin on a border tile violate the
  assertion in `translate`. `JumpPoints.LinksEnter`: this happens to exactly those tiles that are reached from a
  corner of a room, straight on along the border. So it takes a corner that is passable, or the origin, beside a
  passable tile (`Search.EnteredFromCorner`). Where corners are blocked, as terrain makes them, a search that
  neither finds a goal nor hits a limit fails if and only if its origin is unsafe (`Search.FailsIffUnsafe`,
  `JumpPoints.SafeOrigin`). `JumpPoints.OriginInCorner` is a room where it is. The model takes the failed
  assertion as the end of the search, without an answer.
- **Jump point searches may miss a goal.** They never turn on the border of a room (`CompletePath.WayIsForward`),
  so they miss goals that only such a path leads to, at any weight but 1 (`MissedGoals.NotAroundTheBorder`), as in
  the room of `MissedGoals.GoalIsMissed`, where A* needs two moves.
- **The pubsub adapter suppresses by text.** Each subscriber hears the right texts the right number of times
  (`PubSub.SubscriptionDelegate.Settled`), but not always in the order that suppressing by identity would give
  (`PubSub.OrderMayDiffer`). A delivery keeps the order for a listener unless a message from elsewhere is taken for
  one of the listener's own, and only then (`Suppression.DeliveryKeepsOrderIff`). All runs of a list of messages
  keep the order if and only if nowhere in it a message from elsewhere is followed by another one from elsewhere
  with a different text and then by an own one, with all own messages up to there repeating its text
  (`Suppression.AlwaysInOrderIff`). They keep it at every point, with the list as it should be, if and only if no
  message from elsewhere has the text of the next own one (`Suppression.AlwaysInStepIff`).
- **`spread` may await a running task while fewer than `concurrency` tasks are in flight.** All slots are busy
  while it waits if and only if the offset is 0 (`Spread.Run.SlotsFreeWhileWaiting`), and waiting in vain can
  happen if and only if the concurrency is at least 2 (`Spread.OnlyFromTwoOn`, `Spread.MayWaitWithFreeSlots`). It
  is safe, and never stuck.
- **Arrays of length 0.** As struct members they can be packed, and as elements of vectors they are scanned as they
  are written, if and only if their elements are aligned like bytes (`EmptyArrays.EmptyIsSafeIff`). Padded elements
  give them a negative size that pulls another member out of the struct (`EmptyArrays.EmptyMemberFitsIff`), and
  aligned ones make the scanner disagree with the writer (`EmptyArrays.EmptyElementsScanIff`,
  `EmptyArrays.NoWordsMisjudged`).
- **Variants store the index of the alternative in a byte**, and nothing limits their number. The slot holds the
  index if and only if it is below 256 (`Writer.StoreIndex`); values with such an index survive in any variant.
- **A package without a hash function has version -1**, and reading back what it wrote always fails: a version
  matches if and only if an unsigned word can hold it (`Blobs.VersionMatchesIff`).
- A falsy tag (`0` or the empty string) is lost on reading, integers wrap, arrays are cut to their declared
  length: `Exactness.Exact` lists all of it, and `Fidelity.NotAllSurvive` has two such values.
- The comment in `room.cc` on the terrain table names the order plain, swamp, wall; the code uses plain, wall,
  swamp, wall, and so does the model.

Assumptions. Addresses stay below 2 GiB. Terrain has 625 bytes a room, and no terrain is loaded for the rooms
on the edge of the world. The room callback is a function of the room. Weighted heuristics are computed over
reals and rounded down.

## Model

| member | source | states |
|---|---|---|
| Bytes.SignedOfWrap | packages/xxscreeps/schema/buffer-view.ts:16-26 | a number in the range of a signed word survives being stored modulo the word size and read as signed |
| Bytes.WordFrame | packages/xxscreeps/schema/buffer-view.ts:16-26 | a word of the buffer depends on its own bytes only: views that agree on these bytes read the same word |
| BufferViews.BufferView.constructor | packages/xxscreeps/schema/buffer-view.ts:16-26 | a fresh buffer of the given length |
| BufferViews.BufferView.FromTypedArray | packages/xxscreeps/schema/buffer-view.ts:28-32 | the view shares the array it is made from |
| BufferViews.BufferView.Set | packages/xxscreeps/schema/buffer-view.ts:16-26 | an element assignment of any width stores the value modulo the word size: reading the element gives it back, and all other elements of the width, and all other bytes, are as they were; past the end it is dropped |
| BufferViews.ElementFrame | packages/xxscreeps/schema/buffer-view.ts:16-26 | elements of one width do not overlap: an element reads the same while its own bytes do |
| Layouts.AlignTo | packages/xxscreeps/schema/layout.ts:12-15 | the least aligned address that is not below the given one |
| Layouts.ClearsLowBits | packages/xxscreeps/schema/layout.ts:12-15 | the mask expression of the source, on 32 bits, rounds up as AlignTo does while the sum fits a signed word |
| Layouts.TraitsAreSound | packages/xxscreeps/schema/layout.ts:118-382 | alignments of well-formed layouts are 1, 2, 4 or 8, and an empty value is unaligned |
| Layouts.AlignsWithin | packages/xxscreeps/schema/layout.ts:291-292 | an address aligned for a struct is aligned for every member of lesser alignment |
| Values.Selected | packages/xxscreeps/schema/write.ts:255-269 | a tag selects the last alternative that has it, as a Map built from the list does |
| Fidelity.ReadsBackIffFaithful | packages/xxscreeps/schema/read.ts:63-265 | reading what was written gives the same value if and only if the value is faithful: integers in range, constants as declared, arrays of the declared length, no extra properties, truthy tags |
| Fidelity.NotAllSurvive | packages/xxscreeps/schema/read.ts:63-265 | 300 in an unsigned byte comes back as 44, and a struct with the empty tag comes back without it |
| Fidelity.InheritedField | packages/xxscreeps/schema/read.ts:49-59 | an inherited field is read back unless an own field of the same name hides it |
| Fidelity.OwnField | packages/xxscreeps/schema/read.ts:19-46 | an own field is read back from its own slot whatever the other members are |
| Scanner.ScannerIffNotFixed | packages/xxscreeps/schema/scan.ts:61-167 | a layout has a scanner exactly if it has no defined stride |
| Scanner.FixedLeavesHeap | packages/xxscreeps/schema/scan.ts:61-167 | scanning a value of a layout with a defined stride leaves the heap where it is, so elements may be written with heap 0 |
| Scanner.HeapGrows | packages/xxscreeps/schema/scan.ts:61-167 | the scanned end is never below the heap it started from, for any layout and value |
| Scanner.MembersGrow | packages/xxscreeps/schema/scan.ts:13-59 | members use the heap one after another |
| Scanner.ListGrows | packages/xxscreeps/schema/scan.ts:95-101 | list elements use the heap one after another |
| Scanner.VectorEndIsExtent | packages/xxscreeps/schema/scan.ts:145-164 | the two ways of scanning a vector, by length and by iteration, end at the same address: one stride for each element but no padding after the last |
| Wire.EncodesFrame | packages/xxscreeps/schema/write.ts:99-295 | whether a buffer holds a value depends only on the slot and the heap that the scanner gives it |
| Wire.TextFrame | packages/xxscreeps/schema/write.ts:133-157 | the same for strings in either encoding |
| Wire.StructFrame | packages/xxscreeps/schema/write.ts:248-251 | the same for structs with inherited members |
| Wire.ListFrame | packages/xxscreeps/schema/write.ts:197-213 | the same for lists linked through the heap |
| Placement.MemberPlace | packages/xxscreeps/schema/layout.ts:264-296 | each struct member is aligned and inside the slot, apart from the heap it uses |
| Placement.ElementPlace | packages/xxscreeps/schema/write.ts:200-209 | each list element is aligned, behind its link, and inside the part of the heap scanned for it |
| Placement.PointerPlace | packages/xxscreeps/schema/write.ts:233-246 | a payload behind a pointer is aligned and lies in the heap |
| Writer.Write | packages/xxscreeps/schema/write.ts:99-295 | for every layout and value the writer returns the end that the scanner predicts, changes only the slot and the heap up to that end, and leaves an encoding of the value if that fits the buffer |
| Writer.WritePrimitive | packages/xxscreeps/schema/write.ts:102-123 | a number, double word or boolean is stored in its slot |
| Writer.WriteBuffer | packages/xxscreeps/schema/write.ts:125-131 | bytes are copied to the heap, and the slot holds their address and length |
| Writer.WriteText | packages/xxscreeps/schema/write.ts:133-157 | a string is stored as Latin-1, or as UTF-16 from the start with a negative length if any unit needs it, whatever was written before that unit was met |
| Writer.WriteArray | packages/xxscreeps/schema/write.ts:163-175 | array elements are written one stride apart without using the heap |
| Writer.WriteVector | packages/xxscreeps/schema/write.ts:271-291 | vector elements are written to the heap one stride apart, without padding after the last; an empty vector uses no heap |
| Writer.WriteOptional | packages/xxscreeps/schema/write.ts:219-231 | the flag behind the slot says whether the element was written |
| Writer.WritePointer | packages/xxscreeps/schema/write.ts:233-246 | a zero pointer for the uninitialized value, else the address of the payload, which is never zero |
| Writer.StoreIndex | packages/xxscreeps/schema/write.ts:264 | the byte holds the index of the alternative if and only if it is below 256, else the index modulo 256 |
| Writer.WriteVariant | packages/xxscreeps/schema/write.ts:253-269 | the payload goes to the heap, its address and the index of the alternative to the slot |
| Writer.WriteMembers | packages/xxscreeps/schema/write.ts:17-97 | inherited members first, then own members in order, each with the heap that the one before left; no member disturbs another |
| Writer.WriteList | packages/xxscreeps/schema/write.ts:197-213 | elements are linked in order through the words in front of them, and the last link is zero |
| Reader.Read | packages/xxscreeps/schema/read.ts:63-265 | a buffer that holds a value, at an aligned address, is read back as ReadBack of the value, for every layout |
| Reader.ReadBuffer | packages/xxscreeps/schema/read.ts:81-84 | the bytes come back from the heap |
| Reader.ReadText | packages/xxscreeps/schema/read.ts:86-97 | strings come back in either encoding, told apart by the sign of the length |
| Reader.ReadArray | packages/xxscreeps/schema/read.ts:103-116 | all elements come back in order |
| Reader.ReadVector | packages/xxscreeps/schema/read.ts:247-261 | as many elements as were written come back in order |
| Reader.ReadOptional | packages/xxscreeps/schema/read.ts:191-201 | the flag decides between the element and the uninitialized value |
| Reader.ReadPointer | packages/xxscreeps/schema/read.ts:203-214 | a zero pointer stands for the uninitialized value |
| Reader.ReadVariant | packages/xxscreeps/schema/read.ts:238-245 | the stored index leads to the alternative that was written |
| Reader.ReadStruct | packages/xxscreeps/schema/read.ts:216-236 | the fields come back, and the tag if it is truthy |
| Reader.ReadFields | packages/xxscreeps/schema/read.ts:16-61 | own fields are assigned over inherited ones |
| Reader.ReadList | packages/xxscreeps/schema/read.ts:173-185 | following links to the zero link gives all elements in order, and ends |
| Blobs.WriteHeader | packages/xxscreeps/schema/write.ts:313-316 | magic, version, length and zero, and nothing else changes |
| Blobs.WriteInto | packages/xxscreeps/schema/write.ts:302-316 | a whole blob, if the buffer is long enough; the length returned is known beforehand either way |
| Blobs.WriteBlob | packages/xxscreeps/schema/write.ts:297-331 | writing fails exactly if it goes through the shared buffer and the blob is longer; after a scan it cannot fail; the result is a blob of the value, and the shared buffer changes only within the length of the blob |
| Blobs.InitializeView | packages/xxscreeps/schema/read.ts:272-280 | corrupted, truncated or a version, by the header alone |
| Blobs.ReadBlob | packages/xxscreeps/schema/read.ts:282-306 | reading succeeds exactly on the header of this schema and this length, and returns the value written |
| Blobs.VersionMatchesIff | packages/xxscreeps/schema/build.ts:22-32 | the version in the header is that of the package if and only if it fits an unsigned word: -1 does not |
| Blobs.Reconstruct | packages/xxscreeps/test/schema.ts:5-9 | read(write(value)) succeeds if and only if there is room and the version can be stored, and is the value exactly for faithful values, whatever the shared buffer held |
| Packing.SortedIgnoresOrder | packages/xxscreeps/schema/layout.ts:256-261 | members with distinct keys are sorted the same however they were declared |
| Packing.Best | packages/xxscreeps/schema/layout.ts:266-275 | the first entry of least padding |
| Packing.Pack | packages/xxscreeps/schema/layout.ts:264-289 | the packing loop ends and places what the recursive greedy choice places |
| Packing.PackedIsPermutation | packages/xxscreeps/schema/layout.ts:267-289 | every member is placed exactly once, with its layout |
| Packing.PackedIsInOrder | packages/xxscreeps/schema/layout.ts:267-289 | placed members are aligned, follow one another without overlap, and lie between start and end |
| Packing.PackedIsTight | packages/xxscreeps/schema/layout.ts:267-289 | the end exceeds the start by at most the sizes of the members and, for each, one less than its alignment |
| Packing.PackedEnd | packages/xxscreeps/schema/layout.ts:289 | the end is the end of the last member placed |
| Packing.PackedKeepsKeysDistinct | packages/xxscreeps/schema/layout.ts:319-320 | packing keeps keys distinct |
| Compiler.CompileFailsIff | packages/xxscreeps/schema/layout.ts:161-164 | compiling fails if and only if somewhere in the format there is an array of elements without a stride |
| Compiler.CompileIsWellFormed | packages/xxscreeps/schema/layout.ts:118-382 | every compiled layout is well formed: sizes, alignments, strides and packed offsets are what writer, scanner and reader rely on, and a defined stride is the size rounded up |
| Compiler.DeclarationOrderIsIrrelevant | packages/xxscreeps/schema/layout.ts:241-330 | structs that declare the same members in different orders have the same layout |
| EmptyArrays.PlaceIsPacked | packages/xxscreeps/schema/layout.ts:264-289 | packing over integers, for sizes below zero, is the packing of the other modules where no size is |
| EmptyArrays.EmptyMemberFitsIff | packages/xxscreeps/schema/layout.ts:161-289 | a struct with an array of length 0 and a byte is packed without overlap behind any inherited struct if and only if elements are not padded; else the byte lies at a negative offset |
| EmptyArrays.EndsAreVectorEnds | packages/xxscreeps/schema/scan.ts:145-164 | for sizes that are not negative, the ends computed here are those of scanner and writer |
| EmptyArrays.EmptyElementsScanIff | packages/xxscreeps/schema/scan.ts:145-164 | scanner and writer agree on all vectors of such arrays, counted or iterated, if and only if elements are aligned like bytes |
| EmptyArrays.NoWordsMisjudged | packages/xxscreeps/schema/scan.ts:156-161 | a vector of one array of no 32-bit words, iterated, behind one byte: the scanner ends at 1, the writer at 4 |
| EmptyArrays.EmptyIsSafeIff | packages/xxscreeps/schema/layout.ts:161-176 | arrays of length 0 are safe in structs and vectors if and only if the declaration rules of the model admit them |
| Formats.CompilePreservesValues | packages/xxscreeps/schema/format.ts:17-37 | the compiled layout describes exactly the values of the format |
| Schemas.CompiledIsUsable | packages/xxscreeps/schema/build.ts:14-40 | every format that compiles makes a package that can be written and read |
| Schemas.Survive | packages/xxscreeps/test/schema.ts:5-9 | from declaration to value: an accepted value is written and read if there is room and the version can be stored, and comes back as it was if and only if it is what the format says, exactly |
| Exactness.FaithfulIffExact | packages/xxscreeps/schema/layout.ts:118-382 | after compiling, a value is faithful to its layout if and only if it is what the format says, by recursion on the format: numbers in the ranges of the eight primitives, constants as declared, arrays of the declared length, exactly the declared properties, the tag if truthy |
| Sizes.LeafSizes | packages/xxscreeps/schema/layout.ts:122-347 | size and alignment of primitives in bytes: 1, 1, 2, 4, 1, 2, 4 and 8; of strings and buffers 8 and 4, of constants 0 and 1, of enumerations 1 and 1, of variants 5 and 4 |
| Sizes.OptionalSizes | packages/xxscreeps/schema/layout.ts:211-239 | optional values of up to 8 bytes stay in place with a byte behind them, larger ones are behind a pointer of 4 bytes |
| Sizes.ArraySizes | packages/xxscreeps/schema/layout.ts:158-176 | an array of n elements takes n - 1 strides and an element; the stride is the least multiple of the alignment that holds one |
| Sizes.VectorSizes | packages/xxscreeps/schema/layout.ts:350-377 | a vector is laid out by stride if its elements take no heap, else linked; its slot has 8 or 4 bytes |
| Sizes.StructPlacement | packages/xxscreeps/schema/layout.ts:256-296 | of the members still to be placed, the next one needs the least padding, then is smaller, less aligned, or first by key; the struct ends with the last one and is aligned as its most aligned part |
| Sizes.ElementIsClosest | packages/xxscreeps/schema/write.ts:200-209 | a list element lies at the least address that leaves 4 bytes for its link and suits its alignment |
| Sizes.VectorEndInNumbers | packages/xxscreeps/schema/scan.ts:145-164 | a vector ends behind its last element, one stride for each before; an empty one takes nothing |
| Sizes.TextBytes | packages/xxscreeps/schema/scan.ts:71-81 | a string takes a byte for each unit if all are below 256, else two bytes for each, from the next even address on |
| WireBytes.BlobBytes | packages/xxscreeps/schema/write.ts:302-316 | byte by byte, lowest first: magic 0x00fff35a, version, length, zero, and the root from byte 16 on with its heap behind it |
| WireBytes.PrimitiveBytes | packages/xxscreeps/schema/write.ts:102-123 | integers and booleans are the bytes of their slot, modulo the range |
| WireBytes.BufferBytes | packages/xxscreeps/schema/write.ts:125-131 | the slot holds address and length, four bytes each, and the heap the bytes |
| WireBytes.TextIsStored | packages/xxscreeps/schema/write.ts:133-157 | the slot holds address and length, which is negated for two bytes a unit, and the heap the units |
| WireBytes.EnumBytes | packages/xxscreeps/schema/write.ts:192-195 | the byte is a place of the value in the list of values |
| WireBytes.OptionalBytes | packages/xxscreeps/schema/write.ts:219-231 | the byte behind the slot is 1 if the value is present, else 0 |
| WireBytes.PointerBytes | packages/xxscreeps/schema/write.ts:233-246 | the word is 0 for the uninitialized value, else the aligned address in the heap where the payload is |
| WireBytes.VariantBytes | packages/xxscreeps/schema/write.ts:253-269 | the slot holds the address of the payload and, in its fifth byte, the place of the alternative |
| WireBytes.VectorBytes | packages/xxscreeps/schema/write.ts:271-291 | the slot holds the address of the first element and the number of elements, which lie one stride apart |
| WireBytes.ListBytes | packages/xxscreeps/schema/write.ts:197-213 | the slot and the word in front of each element hold the address of the next element, or 0 behind the last |
| Positions.BorderCoords | packages/pathfinder/src/position.cc:16-22 | the two modulus tricks find coordinates 0 and 49, and those one further in |
| Positions.AroundInterior | packages/pathfinder/src/position.cc:145-148 | tiles around an inner tile are in its room |
| Positions.IndexRoundTrip | packages/pathfinder/src/position.cc:128-143 | position to index to position is the identity |
| Positions.PositionRoundTrip | packages/pathfinder/src/position.cc:128-143 | index to position to index is the identity |
| Positions.NoCollisions | packages/pathfinder/src/position.cc:128-143 | no two node indices stand for one tile |
| Positions.IndicesAreStable | packages/pathfinder/src/position.cc:128-143 | admitting a room changes no earlier index |
| Positions.DirectionsAreAll | packages/pathfinder/src/position.cc:68-82 | the eight directions are exactly the king moves |
| Positions.MovesByRooms | packages/pathfinder/src/astar.cc:13-42 | from an inner tile every step is a move; from a side of a room those off the side, straight if they leave the room |
| CostMatrices.CostMatrix.Set | packages/xxscreeps/game/pathfinder/cost-matrix.ts:11-13 | stores one entry modulo 256 and leaves all others as they were |
| CostMatrices.CostMatrix.Deserialize | packages/xxscreeps/game/pathfinder/cost-matrix.ts:6-9 | the matrix whose words are the numbers given |
| CostMatrices.CostMatrix.Serialize | packages/xxscreeps/game/pathfinder/cost-matrix.ts:24-26 | the words of the matrix |
| CostMatrices.RoundTrip | packages/xxscreeps/game/pathfinder/cost-matrix.ts:6-26 | a matrix is determined by its words, so one that was serialized comes back |
| CostMatrices.EntryDecides | packages/pathfinder/src/room.cc:55-78 | the entry of a tile decides what it costs: 255 is an obstacle, 1 to 254 the cost, and 0 leaves it to the terrain: the option for plain or swamp if that is from 1 to 254, else the nearer of the two, or an obstacle |
| TerrainWriters.TerrainWriter.Set | packages/xxscreeps/game/terrain.ts:91-99 | writes the type of one tile, and leaves the other tiles of its byte as they were; nothing happens outside the room |
| TerrainWriters.WithBitsSets | packages/xxscreeps/game/terrain.ts:97 | the expression of masks, complement and shifts, on the bits of a byte, replaces exactly one of its four fields |
| TerrainWriters.CostOfTypes | packages/pathfinder/src/pf.cc:165 | without a matrix of 2500 entries a tile of plain or swamp costs what the option says if that is from 1 to 254, 1 if it is below and 254 if above; walls are obstacles |
| TerrainWriters.EnteredUnlessRefused | packages/pathfinder/src/pf.cc:60-69 | a room may be entered if its terrain is loaded and the callback does not say no |
| Heuristics.Lipschitz | packages/pathfinder/src/heuristic.cc:54-74 | one step changes any heuristic by at most its length: each is consistent for costs of 1 or more |
| Heuristics.NeverNegative | packages/pathfinder/src/heuristic.cc:54-74 | no heuristic is negative |
| Heuristics.ZeroMeansDone | packages/pathfinder/src/heuristic.cc:54-74 | zero exactly where a goal is reached, or where all are fled |
| Heuristics.OneGoalIsFold | packages/pathfinder/src/heuristic.cc:43-51 | the form for a single goal gives what the fold gives |
| Heuristics.DoneMeans | packages/pathfinder/src/heuristic.cc:43-74 | whichever form is chosen, zero means done |
| Heuristics.HeuristicInNumbers | packages/pathfinder/src/heuristic.cc:54-74 | the heuristic of a goal is the larger distance along an axis less its range, or the reverse for fleeing, but not below 0; of several goals the least, at most 2147483647, or the largest for fleeing |
| Searches.WeightedInNumbers | packages/pathfinder/src/pf.cc:219 | the weighted heuristic is the product rounded down |
| Heaps.RootIsLeast | packages/pathfinder/src/heap.cc:75 | in an ordered heap no entry scores less than the top |
| Heaps.Heap.Top | packages/pathfinder/src/heap.cc:75 | the top is an entry of least score |
| Heaps.Heap.SiftUp | packages/pathfinder/src/heap.cc:9-21 | restores the order of a heap with one entry out of place, permuting it, and leaves the rest of the array alone |
| Heaps.Heap.SiftDown | packages/pathfinder/src/heap.cc:24-42 | moves lesser children up until a leaf is the hole; the order holds and the contents are those of before once the old root is put into the hole |
| Heaps.Heap.Pop | packages/pathfinder/src/heap.cc:45-53 | removes exactly the top entry and keeps the order, also if the hole ends in the last slot |
| Heaps.Heap.Push | packages/pathfinder/src/heap.cc:84-87 | adds exactly the entry, or rejects it unchanged when the heap is full |
| Heaps.LastIntoHole | packages/pathfinder/src/heap.cc:45-53 | the last entry put into the hole leaves one entry out of place and loses none |
| Heaps.HoleIsLast | packages/pathfinder/src/heap.cc:45-53 | the aliasing case: the copy of the parent in the last slot is dropped |
| OpenClosed.OpenClosedList.ClearAndMakeView | packages/pathfinder/src/open-closed.cc:38-47 | in a new view nothing is open or closed, after any number of searches and wrap-arounds, and its stamps fit |
| OpenClosed.OpenClosedList.Open | packages/pathfinder/src/open-closed.cc:21 | stamps one index open and keeps the list good for all views to come |
| OpenClosed.OpenClosedList.Close | packages/pathfinder/src/open-closed.cc:20 | stamps one index closed and keeps the list good for all views to come |
| RoomTables.RoomTable.Clear | packages/pathfinder/src/room.cc:102-107 | resetting the entries of the rooms in the table resets the whole reverse table |
| RoomTables.RoomTable.Find | packages/pathfinder/src/room.cc:109-111 | the number of a room, or the sentinel exactly if it is not in the table |
| RoomTables.RoomTable.Insert | packages/pathfinder/src/room.cc:113-118 | numbers a new room and leaves the others their numbers |
| Searches.LinksCost | packages/pathfinder/src/pf.cc:100-129 | every parent edge costs at least 1 and ends on a passable tile |
| Searches.StepLinks | packages/pathfinder/src/astar.cc:44-50 | a legal move onto a passable tile is an edge |
| Searches.PushIsSound | packages/pathfinder/src/pf.cc:100-129 | pushing keeps the graph sound: edges lead from closed nodes over legal moves and passable tiles, at the recorded cost |
| Searches.CloseIsSound | packages/pathfinder/src/pf.cc:214 | so does closing |
| Searches.AdmitIsSound | packages/pathfinder/src/pf.cc:76-77 | so does admitting a room |
| Searches.Trail | packages/pathfinder/src/pf.h.cc:66-92 | following parents from any seen node ends at the origin |
| Searches.TrailIsTrail | packages/pathfinder/src/pf.h.cc:66-92 | and passes only through closed nodes, by edges of the recorded cost |
| Searches.TrailIsStable | packages/pathfinder/src/pf.cc:100-129 | later steps leave the trail of a closed node as it is |
| Optimality.Consistent | packages/pathfinder/src/heuristic.cc:54-74 | a move never saves more than it costs |
| Optimality.PushTries | packages/pathfinder/src/astar.cc:44-50 | pushing a neighbour tries that move and opens nothing cheaper than the node expanded |
| Optimality.CloseKeepsFrontier | packages/pathfinder/src/pf.cc:206-214 | closed nodes are never dearer than open ones |
| Optimality.ExpandedIsStable | packages/pathfinder/src/astar.cc:8-52 | what was expanded stays expanded, since rooms keep their answers |
| Optimality.FirstOpen | packages/pathfinder/src/pf.cc:205-243 | every path leads through closed nodes, none dearer than the path so far, up to its first open node |
| Optimality.GoalIsCheapest | packages/pathfinder/src/pf.cc:222-227 | when the cheapest open node is a goal, no path to any goal within the admitted rooms costs less |
| Optimality.DrainedIsComplete | packages/pathfinder/src/pf.cc:205-243 | when nothing is open, every tile that a path reaches was closed |
| Storage.PushQueued | packages/pathfinder/src/pf.cc:110-128 | after a push every open node still has one live heap entry, and all others are stale |
| Storage.CloseQueued | packages/pathfinder/src/pf.cc:208-214 | closing the node of the popped entry leaves only stale entries for it |
| Storage.DiscardQueued | packages/pathfinder/src/pf.cc:211-213 | discarding a stale entry loses no open node |
| Storage.PushStamped | packages/pathfinder/src/pf.cc:104-128 | stamps tell open from closed from unseen after a push |
| Storage.PushStored | packages/pathfinder/src/pf.cc:110-128 | scores and parents are those of the graph after a push |
| Storage.AdmitStamped | packages/pathfinder/src/pf.cc:76-77 | a room just admitted has no open or closed tiles |
| Storage.AdmittedUnseen | packages/pathfinder/src/pf.cc:76-77 | no tile of a room just admitted was seen |
| Pathfinder.Instance.constructor | packages/pathfinder/src/pf.h.cc:119-136 | arrays of 2500 entries for each room of the capacity and a heap of an eighth of that, ready for a search |
| Pathfinder.Instance.PushNode | packages/pathfinder/src/pf.cc:100-129 | a push is Push on the graph, or, when the heap is full, changes nothing that closed nodes rely on; it fails only then |
| Pathfinder.Instance.StoreNode | packages/pathfinder/src/pf.cc:111-127 | score, heap entry, stamp and parent are stored; when the heap is full only the score is, as it comes first |
| Pathfinder.Instance.ResolveRoom | packages/pathfinder/src/pf.cc:48-81 | admits, blocks or refuses a room; asks the callback exactly about rooms that are new, loaded and fit, so at most once about any |
| Pathfinder.Instance.RoomIndexFromLocation | packages/pathfinder/src/pf.cc:48-81 | the same within a search, whose graph stays stored; a refused room is never admitted |
| Pathfinder.Instance.Look | packages/pathfinder/src/pf.cc:31-35 | the cost of a tile of an admitted room |
| Pathfinder.Instance.LookOpen | packages/pathfinder/src/pf.cc:37-46 | the cost of any tile of the world, or a refused room |
| AStar.RefusalLasts | packages/pathfinder/src/pf.cc:55-57 | a room refused once stays refused |
| AStar.NeighboursInWorld | packages/pathfinder/src/astar.cc:10-11 | moves from admitted rooms stay in the world |
| AStar.Expand | packages/pathfinder/src/astar.cc:8-52 | every legal move from the node is followed, unless its room was refused; new parents are reached by legal moves only; with weight 1 every move is relaxed and nothing cheaper is opened; it stops only when every slot of the heap is taken, and without harm |
| JumpPoints.MovesEnter | packages/pathfinder/src/astar.cc:13-42 | a legal move enters a tile head-on or inside a room if and only if it does not go straight on from a corner along the border |
| JumpPoints.LinksEnter | packages/pathfinder/src/jps.cc:155-228 | the same for jumps: the tiles at which translate asserts are exactly those reached along the border from a corner |
| JumpPoints.BlockedCornersAreSafe | packages/pathfinder/src/jps.cc:155-228 | where corners are blocked, nothing but the origin can lead along the border |
| JumpPoints.StraightIsForward | packages/pathfinder/src/jps.cc:164-212 | legal moves in one direction leave border tiles as the border code does |
| JumpPoints.OriginInCorner | packages/pathfinder/src/jps.cc:164-175 | a room with blocked corners and an unsafe origin |
| JumpPoints.OnwardIsForward | packages/pathfinder/src/jps.cc:164-212 | from a border tile, corners included, the successors are exactly the moves of A* that go on in the direction across the border |
| JumpPoints.JumpLands | packages/pathfinder/src/jps.cc:10-113 | a jump lands on a passable tile of the room it began in, over legal moves and tiles of one cost |
| JumpPoints.JumpStepLinks | packages/pathfinder/src/jps.cc:128-147 | the cost computed for a jump is the sum over the tiles it enters |
| JumpPoints.JumpStepIsSuccessor | packages/pathfinder/src/jps.cc:128-147 | jumps and steps are edges that stay in the room |
| Jps.LookBeside | packages/pathfinder/src/position.cc:145-148 | translate and look around an inner tile never leave the room that the index names |
| Jps.JumpX | packages/pathfinder/src/jps.cc:10-41 | with costs carried along, lands at the first jump point, the first tile of another cost, or nowhere |
| Jps.JumpY | packages/pathfinder/src/jps.cc:43-74 | the same along columns |
| Jps.JumpXY | packages/pathfinder/src/jps.cc:76-113 | the same diagonally, with jumps to either side at every tile |
| Jps.JumpNeighbor | packages/pathfinder/src/jps.cc:128-147 | adds exactly the step or the jump that JumpStep describes |
| Jps.BorderNeighbors | packages/pathfinder/src/jps.cc:164-212 | the branches for border tiles apply exactly if the tile was entered head-on, and give its onward moves |
| Jps.PushNeighbors | packages/pathfinder/src/jps.cc:156-163 | adds exactly the passable neighbours whose rooms are admitted |
| Jps.PushForced | packages/pathfinder/src/jps.cc:255-284 | adds exactly the forced neighbours, or stops with every slot of the heap taken |
| Pruning.SuccessorsAreNeeded | packages/pathfinder/src/jps.cc:230-284 | away from borders, a step is pushed if and only if it looks in a direction that the tile before does not cover: not back or beside that tile, and ahead, or where no way round over a tile of the same cost leads from there |
| Pruning.PruningLosesNothing | packages/pathfinder/src/jps.cc:214-284 | on any inner tile, every passable neighbour is the tile before, or that one leads there too, straight or round over another tile of the same cost, or it is stepped or jumped to; only from a border to the border beside are there others |
| Pruning.StepsAlongBorder | packages/pathfinder/src/jps.cc:233-253 | beside the border straight travel goes step by step |
| Pruning.JumpPassesOver | packages/pathfinder/src/jps.cc:10-113 | a jump passes over tiles of its cost that are no jump points, and ends at the first jump point, tile of another cost, or nowhere before an obstacle |
| Pruning.PassingLosesNothing | packages/pathfinder/src/jps.cc:10-113 | a tile that a jump passes over is no goal, and each passable neighbour of it is behind, ahead, led to from the tile before, straight or round, or on a row or column where nothing was found |
| Pruning.PassedAreInside | packages/pathfinder/src/jps.cc:230-253 | the tiles that an expansion passes over are apart from the border |
| Jps.Expand | packages/pathfinder/src/jps.cc:149-285 | fails at the assertion, with nothing changed, if and only if the node was reached along the border from a corner; stops if every slot of the heap is taken; else reaches exactly the successors of the node for its direction, and looks only inside the room of the node |
| Jps.HeadingIsDirection | packages/pathfinder/src/jps.cc:151-153 | every seen tile has a direction, and is on a border entered head-on or inside, if and only if it was not reached along the border from a corner |
| Search.Clear | packages/pathfinder/src/pf.cc:147-149 | whatever the previous search left, the new one starts with empty heap and table and a view without open or closed nodes |
| Search.Begin | packages/pathfinder/src/pf.cc:172-196 | the search begins exactly if the room of the origin is accessible, with the origin closed at cost 0 |
| Search.ExpandOrigin | packages/pathfinder/src/pf.cc:189-197 | the first expansion, outside the try block, cannot overflow the heap, and establishes what iterations keep; all tiles it leads to can be expanded if and only if the origin is safe |
| Search.TakeTop | packages/pathfinder/src/pf.cc:206-214 | an entry taken off is discarded or is the cheapest open node, which is closed; a closed node never comes back |
| Search.PoppedGoalIsOptimal | packages/pathfinder/src/pf.cc:222-227 | a goal popped by A* is as cheap as any path to a goal |
| Search.DrainedClosesAll | packages/pathfinder/src/pf.cc:206-243 | A* that runs dry has closed everything in reach |
| Jps.FollowedToTheEnd | packages/pathfinder/src/jps.cc:149-285 | when a jump point search runs dry, every successor of a closed node in an admitted room is closed |
| Search.FollowedClosesAll | packages/pathfinder/src/pf.cc:206-243 | the same for the whole search: nothing that jumps lead to was left out |
| Search.DrainedFromSafe | packages/pathfinder/src/pf.cc:206-243 | a jump point search does not run dry from an unsafe origin: it fails before |
| Search.EnteredFromCorner | packages/pathfinder/src/position.cc:145-148 | a search fails only where a passable tile lies beside a corner that is passable or the origin |
| Search.FailsIffUnsafe | packages/pathfinder/src/position.cc:145-148 | with blocked corners, a jump point search that nothing else ends fails if and only if its origin is unsafe |
| Search.Visit | packages/pathfinder/src/pf.cc:216-241 | a goal ends the search; else the node becomes the best if its heuristic is strictly less; it ends the search over budget if and only if its cost and heuristic exceed the limit; else it is expanded |
| Search.Iterate | packages/pathfinder/src/pf.cc:205-244 | each iteration closes one more node or ends the search; stale entries only shrink the heap |
| Search.Dispatch | packages/pathfinder/src/pf.cc:250-268 | every run ends, even without a limit on operations: found, over budget or failed at the node popped last, all others being affordable and no goals; with every slot of the heap taken; out of operations; or with nothing open |
| Search.StaysBudgeted | packages/pathfinder/src/pf.cc:222-237 | the status is found if and only if the node popped last is a goal, and over budget if and only if it is none and exceeds the limit; no node popped before did either |
| Search.PathOf | packages/pathfinder/src/pf.h.cc:66-92 | the iterator lists the trail of the best node and ends, also after a heap overflow |
| Search.Run | packages/pathfinder/src/pf.cc:131-279 | the result for any query and origin: empty, inaccessible, failed, or an answer with path, cost, operations and completeness; the arrays are ready for the next search |
| Search.Search | packages/pathfinder/src/pf.cc:131-279 | the same with options clamped |
| Search.LimitInNumbers | packages/pathfinder/src/pf.cc:153 | limits of cost and operations are the options, but at least 1 and at most 2147483647 |
| Search.QueryInNumbers | packages/pathfinder/src/pf.cc:153-165 | weights are clamped to 1 and 9, rooms to 1 and the capacity, and all else is passed on |
| CompletePath.PackRoundTrip | packages/pathfinder/src/position.cc:38-64 | packed positions are unpacked as they were |
| CompletePath.StepsArrive | packages/pathfinder/pathfinder.ts:119-125 | the stepping loop ends exactly if the next waypoint lies straight ahead |
| CompletePath.Complete | packages/pathfinder/pathfinder.ts:108-132 | all tiles between waypoints, reversed and without the origin |
| CompletePath.TrailIsWaypoints | packages/pathfinder/pathfinder.ts:108-132 | waypoints of a search are straight apart, and completing them gives the way without the origin |
| CompletePath.WayIsPath | packages/pathfinder/src/pf.cc:269-275 | from the origin to any seen tile the way is legal in the move graph of A*, in either mode, and costs what was recorded |
| CompletePath.WayIsForward | packages/pathfinder/src/jps.cc:164-212 | the way that a jump point search returns goes straight on from every border tile but the origin |
| MakeSearch.AnswerIsPromised | packages/pathfinder/pathfinder.ts:101-105 | an answer, completed, is what callers are promised |
| MakeSearch.Find | packages/pathfinder/pathfinder.ts:74-106 | for any terrain, goals, origin and options: with the origin in front the path is legal and as dear as reported, complete exactly if it ends at a goal, cheapest for weight 1 and straight on at borders for others; or the search failed at the assertion, which only other weights and an unsafe corner can cause; no goals give an empty path |
| MakeSearch.OptionsInNumbers | packages/pathfinder/pathfinder.ts:82-89 | options that are given are taken, but for a weight of zero; else the weight is 1.2, plain costs 1, swamp 5, rooms are 16 and cost and operations unlimited |
| MakeSearch.GoalsInNumbers | packages/pathfinder/pathfinder.ts:89-99 | a search is done where a goal is in range, or, fleeing, where all are out of range |
| MissedGoals.NotAroundTheBorder | packages/pathfinder/src/jps.cc:164-212 | a jump point search finds no goal that all legal paths lead to by a turn on the border |
| MissedGoals.GoalIsMissed | packages/pathfinder/src/jps.cc:164-212 | in a room of three tiles the goal is two legal moves away, and every jump point search is incomplete |
| PubSub.DeliveryKeepsSuffix | packages/redis/pubsub.ts:60-67 | the ignore list is a suffix of the own messages on their way, whatever is delivered |
| PubSub.OwnBalances | packages/redis/pubsub.ts:41-48 | publishing adds the message to what is to be kept back |
| PubSub.DeliveryBalances | packages/redis/pubsub.ts:60-73 | a delivery is heard, or kept back and taken off the list |
| PubSub.SubscriptionDelegate.PublishFromClient | packages/redis/pubsub.ts:41-48 | notes the message and sends it |
| PubSub.SubscriptionDelegate.Publish | packages/redis/pubsub.ts:36-39 | sends without noting |
| PubSub.SubscriptionDelegate.Deliver | packages/redis/pubsub.ts:60-73 | every listener but the ignored one is called once with the next message |
| PubSub.SubscriptionDelegate.Settled | packages/redis/pubsub.ts:41-73 | once all is delivered the list is empty, and each subscriber has the texts of all others as often as they were sent |
| PubSub.SubscriptionDelegate.SettledInOrder | packages/redis/pubsub.ts:41-73 | and in the order in which they were sent, if the messages keep their order |
| PubSub.OrderMayDiffer | packages/redis/pubsub.ts:60-73 | for any two texts, a run of the adapter in which a subscriber hears them in another order than suppressing by identity gives |
| Suppression.DeliveryKeepsOrderIff | packages/redis/pubsub.ts:60-73 | while the list holds the own messages on their way, the next delivery keeps the order for a client if and only if it is not a message from elsewhere taken for one of that client |
| Suppression.OrderIsKept | packages/redis/pubsub.ts:41-73 | messages that keep their order are heard in order by every client, in every run |
| Suppression.OrderBreaks | packages/redis/pubsub.ts:41-73 | all others have a run in which a client that publishes hears them in another order |
| Suppression.AlwaysInOrderIff | packages/redis/pubsub.ts:41-73 | the exact condition on a list of messages for all complete runs to keep the order |
| Suppression.RunStaysInStep | packages/redis/pubsub.ts:41-73 | at every point the list holds the own messages on their way and each client has heard what it should, if no message from elsewhere has the text of the next own one |
| Suppression.NoSharedTextsStayInStep | packages/redis/pubsub.ts:41-73 | this holds where messages from elsewhere share no text with own ones, and implies that the order is kept |
| Suppression.AlwaysInStepIff | packages/redis/pubsub.ts:41-73 | it is the exact condition for being in step at every point of every run |
| Spread.ReusedKeeps | packages/xxscreeps/utility/async.ts:113-115 | reusing a slot keeps the promises from the offset on distinct and unsettled |
| Spread.Begin | packages/xxscreeps/utility/async.ts:94-96 | only a concurrency of 1 or more is accepted |
| Spread.Run.Next | packages/xxscreeps/utility/async.ts:105-119 | a value starts its task at once while slots are free |
| Spread.Run.Resume | packages/xxscreeps/utility/async.ts:111-119 | a settled first promise frees a slot |
| Spread.Run.Complete | packages/xxscreeps/utility/async.ts:117-119 | each completion settles a promise that none has settled before |
| Spread.Run.Return | packages/xxscreeps/utility/async.ts:106-109 | when all promises are settled every task started has finished |
| Spread.Run.Bounded | packages/xxscreeps/utility/async.ts:101-120 | at any time at most `concurrency` tasks are in flight, as many as slots from the offset on |
| Spread.Run.NeverStuck | packages/xxscreeps/utility/async.ts:106-112 | whenever the loop waits, some task in flight will end the wait |
| Spread.Run.SlotsFreeWhileWaiting | packages/xxscreeps/utility/async.ts:101-120 | while the loop waits all slots are busy if and only if the offset is 0; it waits in vain if and only if the first slot repeats the promise of a running task |
| Spread.OnlyFromTwoOn | packages/xxscreeps/utility/async.ts:111-115 | waiting for a running task with a slot free takes a concurrency of at least 2 |
| Spread.MayWaitWithFreeSlots | packages/xxscreeps/utility/async.ts:111-115 | and for every concurrency of at least 2 there is a run that does |
| Mods.SortedIgnoresOrder | packages/xxscreeps/config/mods.ts:50 | sorting gives the same for specifiers listed in any order |
| ModOrder.SortedAscends | packages/xxscreeps/config/mods.ts:50 | sorted specifiers ascend |
| Mods.Loader.Load | packages/xxscreeps/config/mods.ts:48-107 | loads the specifiers in ascending order, each after all it depends on, as the listing says, or fails with a reason in the graph; ends for every graph |
| Mods.OrderedHasNoCycle | packages/xxscreeps/config/mods.ts:72-73 | mods can be ordered only where no cycle is in reach |
| Mods.LoadMods | packages/xxscreeps/config/mods.ts:42-110 | succeeds exactly if everything in reach is found and no cycle is in reach; then lists exactly what is in reach, each once, after its dependencies, and is the listing of the roots |
| ModOrder.RootsInOrder | packages/xxscreeps/config/mods.ts:50 | a root listed ahead of a lesser one is in reach of a root that is not greater than that |
| ModOrder.DependenciesInOrder | packages/xxscreeps/config/mods.ts:50 | so it is for the dependencies of every mod, but for those loaded before it was begun, for something listed before a mod on the way to it |
| ModOrder.ListingIgnoresOrder | packages/xxscreeps/config/mods.ts:50 | roots that are equal as multisets list the same mods in the same order |
| Strings.StringLessIsTotal | packages/xxscreeps/schema/layout.ts:260 | keys are totally ordered |
| Strings.FirstDifferenceDecides | packages/xxscreeps/schema/layout.ts:260 | the first unit that differs decides, or the end of the shorter string |

## Left out

- Union members of structs: they alias another member's bytes, are not written or scanned, and do not round-trip.
- Interceptors, named layouts, overlays, prototype getters, materialize mode and symbol keys: JavaScript object mechanics.
- `archive.ts`, `kaitai.ts` and the version hash in `build.ts`: the version is a given number.
- Layout caches and lazily resolved declarations: compiling is a function of the format.
- BufferViews.BufferView.constructor: a view of an existing buffer from an offset on is not modelled, only a fresh buffer.
- BufferViews.BufferView.FromTypedArray: a typed array with a byte offset, or shorter than its buffer, is not modelled.
- Blobs.InitializeView: nor is a blob inside a larger buffer.
- Compiler.CompileIsWellFormed: arrays of length 0 whose elements are aligned to more than a byte go wrong (EmptyArrays.EmptyIsSafeIff), so `Compiler.Sane` admits none.
- Schemas.Survive: the same, and values whose alternative has an index of 256 or more, which no byte can hold, are not typed.
- Struct members are walked in the order they are packed; keys that look like integers come first in JavaScript objects. Scanner and writer walk the same object, so they still agree.
- Numbers that are no integers in integer members, and undefined enumeration values: `Values.Typed` is the static type.
- Writer.Write: buffers of 2 GiB and more, where stored addresses wrap, are not modelled.
- Writer.WriteBuffer: past the end of the shared buffer the source throws a range error at once; the model drops the write and reports the overflow at the end.
- Reader.ReadBuffer: the source returns a live view of the bytes, not their values.
- Reader.Read: buffers that no writer of the same schema made are not modelled, apart from their headers.
- Search.Search: positions and loaded rooms on the outer edge of the world, integer overflow of costs and rounding of weighted heuristics are not modelled.
- Jps.Expand: that jumps lose no cheapest path is not claimed; the source says they may.
- Search.FollowedClosesAll: which of the goals that a path straight on at borders leads to are found depends on the order in which nodes are popped, and is not characterized.
- MakeSearch.Find: what a build without assertions does at a tile entered along the border is not modelled.
- Terrain changes during a search, the terrain mutex, the stack of pathfinders for nested searches, termination checks and the bindings to JavaScript.
- Casts of options in `pathfinder.ts` other than defaults.
- PubSub.SubscriptionDelegate.Deliver: subscribing and unsubscribing during delivery, and several connections, are not modelled.
- Spread.Run.Complete: tasks that reject, and closing the iterator, are not modelled.
- Mods.LoadMods: resolving specifiers and importing manifests is a map; the files that a mod provides are not modelled, nor are two specifiers of one file.
- `utility/astar.ts`, `utility/heap.ts`, `utility/open-closed.ts` and `utility/pack.ts`: a weaker copy of the search.
- Backend, client, command line, game logic and sample bots.
