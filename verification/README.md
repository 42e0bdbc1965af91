# Proofs about the allocator and the benchmark programs of V8's jni tree

This project models five programs of the repository and proves what they are for.

- **The allocator `jni/v8core/malloc.c`** (dlmalloc 2.8.6 as the file configures it: 32-bit words, no footers,
  no mspaces, memory by mmap only). The heap is a memory of words together with a ghost layout of its chunks.
  `Sound` says that heads, feet and in-use bits describe that layout, that chunks tile each segment, that no two
  free chunks touch, and that each free chunk is dv, top or in exactly its bin; `Accounted` ties footprint to the
  segments and mapped regions. Bins are circular lists and bitwise tries in memory that refine lists and trees as
  values. Malloc, free, realloc and memalign keep all of this, say who owns what afterwards and answer 0 only when
  there is no room and the kernel refuses; `Session` puts them together: any run of requests and user writes, against
  an ideal store of who asked for what and wrote which words.
- **The big integers of `crypto.js`**: digits in base 2^28 and a sign word, in two's complement style. Every
  `...To` method is proved against the number its digits stand for, in place and aliased where the source allows
  it, up to Knuth division, Montgomery and Barrett reduction, sliding-window exponentiation, gcd and inverse; and
  on top of them the RSA operations undo each other, by Fermat's little theorem and the primes taken together.
- **`earley-boyer.js`**: the Earley parser as a recogniser, with its state sets as embedded linked lists, the
  tables it builds, the backward pass, and the listing and counting of trees, which are exactly the derivations; and
  the Boyer prover, with one-way unification, rewriting by lemmas, the number of rewrites as the calls of a run, and
  the tautology checker.
- **`richards.js`**: the scheduler with its tasks and packets, for any idle count and any packets. A log of what was
  released, held, suspended and sent tells what each task has done over a whole run, without its code.
- **`splay.js`**: top-down splaying in place on linked nodes, which halves the depth of the nodes on its way, and the
  tree as a sorted map.

The files come in layers. For the allocator: `Tiling`, `Words`, `Ownership`, `Segments`, `Steps`, `Moves`,
`Swapping`, `Growth`, `Sealing`, `Mapping`, `Regrouping` and `Regions` are about states as values; `BinMaps`,
`SmallBins`, `Trie`, `TreeLinks`, `TreeUnlink`, `TreeBins`, `TreeSearch` and `Bins` about bins; `Heap` and the rest
are the operations, down to `Malloc`, `Free`, `Realloc`, `Memalign`, `ShiftedRealloc`, `Payloads`, `WholeMemory` and
`Session`. For the numbers: `Digits`, `BigInteger`, `Squaring`, `Division`, `Montgomery`, `Barrett`, `Reducers`,
`ExponentWindows`, `ModPow`, `Divisors`, `HeldNumbers`, `ModInverse`, `Gcd`, `Fermat` and `Rsa`. What rewriting,
parsing, the tasks and splaying do is stated apart from them in `BoyerRuns`, `EarleyNodes`, `RichardsHistory` and
`SplayDepth`.

Predicates that are large are hidden behind a quantifier with a trigger of its own (`Look`, `Peek`, `Unfold`):
`assert Look(0)` makes the definition available where it is needed.

## Model

| member | source | states |
|---|---|---|
| `Sessions.Session.Run` | jni/v8core/malloc.c:4623-5345 | each request of any sequence of malloc, memalign, realloc, free and user writes does to the store what it should, and answers 0 only if the heap has no room then and the kernel refuses; at the end the heap is in order, and every user finds its memory aligned, apart from all others, and holding exactly the words it wrote there |
| `Sessions.Session.Resize` | jni/v8core/malloc.c:5264-5307 | the store of what users asked for and wrote changes by the one loan that is moved or resized: words that still fit are kept from the start of the memory; 0 only to give back, for too many bytes, or if the heap has no room and the kernel refuses; the caller first checks that the kernel would not resize a shifted region too tightly |
| `Sessions.Session.Acquire` | jni/v8core/malloc.c:4623-4757 | a fresh address with the bytes asked for; or 0 and no change to anybody, only if neither dv nor top nor a chunk in a bin is big enough and the kernel refuses |
| `Sessions.Session.AcquireAligned` | jni/v8core/malloc.c:5340-5345 | the same at a multiple of the alignment, for the bytes and the room to align them |
| `Sessions.Session.GiveUp` | jni/v8core/malloc.c:4761-4868 | exactly one loan ends |
| `Sessions.Session.Put` | jni/v8core/malloc.c:2207-2211 | a user who writes inside the bytes it asked for changes its own loan and nothing else |
| `Sessions.Session.MayResize` | jni/v8core/malloc.c:3927-3955 | decides, from the words in memory, whether realloc is harmless and leaves room |
| `Sessions.Session.AllReliable` | jni/v8core/malloc.c:3354-3365 | what the invariant gives the user of a chunk, read in the memory as a whole with links and records in it |
| `Mallocs.Malloc` | jni/v8core/malloc.c:4623-4757 | aligned memory with room for the request that was nobody's, every other user untouched; where the heap has room the place is the one that serves best, and who owns what afterwards is told: the smallest chunk of a bin that fits, unless dv serves better, then dv, then top; else the system serves, in a region of its own or from a segment that is new or has grown; 0 leaves everything as it was and comes only if nothing in the heap is big enough and the kernel has refused all it could be asked for |
| `Mallocs.FromSmall` | jni/v8core/malloc.c:4654-4700 | takes the smallest held chunk that fits, unless dv is preferred; 0 only if none is |
| `Mallocs.FromLarge` | jni/v8core/malloc.c:4702-4712 | the same for large requests: a held chunk that leaves less than dv would |
| `Mallocs.FromRest` | jni/v8core/malloc.c:4714-4750 | dv if it is big enough, else top if it is bigger, else the system; when those have room nothing but their split changes |
| `Frees.Free` | jni/v8core/malloc.c:4761-4868 | the chunk at p leaves the users' set, all others keep their memory; what it and its free neighbours become is told; a top beyond the threshold is trimmed, the segments are looked at when the count of big free chunks has run down, and nothing else happens; a region goes back to the kernel unless it refuses |
| `Reallocs.Realloc` | jni/v8core/malloc.c:5264-5307 | 0 for a size that can be only if malloc would answer 0; the chunk stays exactly if it can be resized there: with the top, dv or free chunk behind it in a segment, or if its region is neither too small nor too big; memory that was moved was nobody's; moved or resized, it has room for the bytes and keeps the first min(old, new) of them; when the kernel moves a region, the heap stays in order if and only if the new payload is a legal chunk, and the room suffices if and only if it covers the offset too |
| `Reallocs.MmapResize` | jni/v8core/malloc.c:3927-3955 | both equivalences for a single call, stated on the memory itself as well as on the ghost layout |
| `Reallocs.TryRealloc` | jni/v8core/malloc.c:4890-4967 | 0 leaves everything as it was; otherwise the contents are kept, and the neighbours share with the chunk as it needs; it stays exactly if it can |
| `Reallocs.MoveOver` | jni/v8core/malloc.c:5297-5302 | a new chunk with the contents and the old one given back; 0 only if malloc had nothing |
| `Reallocs.HousedFits` | jni/v8core/malloc.c:3947-3953 | a mapped region that any layout can account for has room behind its offset for a least chunk |
| `Reallocs.RemapFitsUnshifted` | jni/v8core/malloc.c:3937-3938 | a region whose chunk was not shifted always gets enough room |
| `ShiftedReallocs.TooSmall` | jni/v8core/malloc.c:3927-3955 | a run of memalign and realloc, for any kernel that grants it, that ends with 298992 bytes where 300000 were promised |
| `ShiftedReallocs.OutOfOrder` | jni/v8core/malloc.c:3927-3955 | a run after which no layout explains the memory: the head was written outside its region |
| `Memaligns.Memalign` | jni/v8core/malloc.c:4969-5041 | aligned memory as malloc would give, lead and tail cut off and freed; the alignment is the least power of two that is at least the one asked, and the one asked if that is one; 0 only if the request is too big, or malloc has nothing for the bytes and the room to align them |
| `Memaligns.RoundUp` | jni/v8core/malloc.c:4971-4978 | the least power of two that is large enough, or the least chunk size |
| `Memaligns.NeverReached` | jni/v8core/malloc.c:4974-4977 | for more than 2^31 the doubling never reaches the alignment: 32-bit wrap-around makes the loop endless |
| `Resizing.TryInPlace` | jni/v8core/malloc.c:4900-4965 | true exactly if the chunk, with top, dv or the free chunk behind it, is large enough; then it has the new size, and what it took from its neighbour or left to it is told; else nothing has changed |
| `Freeing.Dispose` | jni/v8core/malloc.c:4442-4508 | the user's chunk is merged with its free neighbours: top takes all before it, and so does dv; the rest is in the bin of its size |
| `SystemMemory.MmapAlloc` | jni/v8core/malloc.c:3895-3924 | a chunk in a region of its own, accounted in footprint; or no change at all, only if the size wraps around or the kernel refuses |
| `SystemMemory.AddSegment` | jni/v8core/malloc.c:4051-4101 | the old top is sealed with fenceposts around the record of the old segment, what is left of it is binned, and the new segment, all top, comes first |
| `SystemAllocation.SysAlloc` | jni/v8core/malloc.c:4106-4322 | large requests get a region of their own if the kernel gives one; else new memory is the first segment, the end of top's, the front of another or a new one, and the chunk comes from top or from that front; 0 leaves everything as it was, and the kernel refused or the size is unrepresentable |
| `SystemAllocation.Join` | jni/v8core/malloc.c:4233-4300 | which of the four it is depends on where the new memory lies, and decides who owns what |
| `Prepending.PrependAlloc` | jni/v8core/malloc.c:4009-4048 | the front of new memory below a segment goes to the user, the rest joins top, dv or the free chunk there, or is binned |
| `Frees.SysTrim` | jni/v8core/malloc.c:4374-4437 | unless the kernel refuses, top loses all whole units beyond the padding and every segment that could go is gone; true exactly if footprint fell; if nothing went, a large top is not tried again |
| `Frees.ReleaseUnusedSegments` | jni/v8core/malloc.c:4327-4372 | what footprint lost is what was released; unless the kernel refuses, no segment is left that starts with a free chunk up to the place of a top's foot; the counter starts again |
| `Frees.ReleasableWhen` | jni/v8core/malloc.c:4339-4344 | a segment of one free chunk can go exactly if its record lies where a foot would; one whose top had 8 bytes when it was left never can |
| `Allocating.TmallocLarge` | jni/v8core/malloc.c:4513-4581 | takes the smallest tree-binned chunk that fits, and declines exactly when none fits better than dv |
| `Allocating.TmallocSmall` | jni/v8core/malloc.c:4584-4619 | the same without dv, when the tree map is not empty |
| `TreeSearching.LargeFit` | jni/v8core/malloc.c:4513-4552 | one path, the deepest subtree set aside and one later bin suffice: the result is the smallest fit of all bins, or there is none |
| `TreeSearching.SmallFit` | jni/v8core/malloc.c:4584-4600 | the leftmost path of the first tree holds the smallest chunk of all |
| `TreeBinning.TreeBins.Insert` | jni/v8core/malloc.c:3717-3762 | the tries in memory hold one chunk more, links, rings and map in order |
| `TreeBinning.TreeBins.Unlink` | jni/v8core/malloc.c:3785-3854 | the tries hold one chunk less, whether it was in a ring, a leaf or an inner node replaced by its rightmost leaf |
| `Trie.InsertHas` | jni/v8core/malloc.c:3717-3762 | insertion on the bit path adds exactly the chunk |
| `Trie.InsertOrdered` | jni/v8core/malloc.c:3368-3416 | and keeps each size on its path |
| `Trie.UnlinkHas` | jni/v8core/malloc.c:3785-3854 | removal, with replacement by the rightmost leaf, takes exactly the chunk |
| `Trie.UnlinkOrdered` | jni/v8core/malloc.c:3368-3416 | and keeps the order |
| `TreeUnlinking.Detach` | jni/v8core/malloc.c:3785-3854 | the pointer surgery does in memory what Trie.Unlink does to the tree |
| `SmallBinning.SmallBins.Insert` | jni/v8core/malloc.c:3639-3654 | the circular lists hold one chunk more, first in its list |
| `SmallBinning.SmallBins.Unlink` | jni/v8core/malloc.c:3658-3681 | one chunk less, the map bit cleared with the last |
| `Binning.Bins.Insert` | jni/v8core/malloc.c:3858-3864 | each free chunk is in the bin of its size |
| `Binning.Bins.Unlink` | jni/v8core/malloc.c:3858-3864 | and leaves exactly that |
| `BinMaps.ComputeTreeIndex` | jni/v8core/malloc.c:2933-2950 | the tree index is the one whose size range contains the size |
| `BinMaps.FirstBin` | jni/v8core/malloc.c:2982-3030 | least bit and its index by shifting: the first marked bin |
| `BinMaps.LaterBins` | jni/v8core/malloc.c:2989-2991 | left_bits of a bin's bit keeps exactly the marked bins after it |
| `Payloads.LiveApart` | jni/v8core/malloc.c:3354-3365 | user memory is aligned and no word belongs to two users |
| `Payloads.UserWrites` | jni/v8core/malloc.c:2207-2211 | a user who writes only its payload, the next chunk's prev_foot included, leaves the heap in order and the others alone |
| `Payloads.Exactly` | jni/v8core/malloc.c:3490-3520 | every address of a segment is in exactly one chunk, foot or fence |
| `Payloads.NoFreeNeighbours` | jni/v8core/malloc.c:3490-3520 | no two free chunks are adjacent, dv and top included; each free chunk is dv, top or in exactly its bin |
| `WholeMemories.ListsApart` | jni/v8core/malloc.c:2236-2243 | no word of a link or a segment record lies in a user's payload |
| `WholeMemories.HeadersApart` | jni/v8core/malloc.c:2236-2243 | nor is it a header |
| `WholeMemories.WordsKept` | jni/v8core/malloc.c:3354-3365 | with links and records in the memory too, no step changes a word of another user |
| `WholeMemories.UserWord` | jni/v8core/malloc.c:2207-2211 | and no user's write changes a link, a record or a header |
| `WholeMemories.BinsLinked` | jni/v8core/malloc.c:3430-3488 | the nodes of lists and tries are exactly the free chunks in bins |
| `Regions.FootprintFits` | jni/v8core/malloc.c:3522-3548 | footprint, the sum of segments and mapped regions, fits the address space |
| `BigIntegers.BigInteger.Am3` | jni/v8core/v8/benchmarks/crypto.js:108-122 | n digits times a number added into w from place j on, the carry returned; no bit operation leaves 32 bits |
| `BigIntegers.SplitProduct` | jni/v8core/v8/benchmarks/crypto.js:108-122 | the 14-bit split gives the whole product |
| `BigIntegers.BigInteger.SubTo` | jni/v8core/v8/benchmarks/crypto.js:378-411 | for all operands, aliased or not, the clamped difference |
| `BigIntegers.BigInteger.AddTo` | jni/v8core/v8/benchmarks/crypto.js:935-968 | the clamped sum |
| `BigIntegers.BigInteger.LShiftTo` | jni/v8core/v8/benchmarks/crypto.js:339-355 | times 2^n, signs and carries into the top digit included |
| `BigIntegers.BigInteger.RShiftTo` | jni/v8core/v8/benchmarks/crypto.js:358-375 | floor of the division by 2^n, negative numbers included |
| `BigIntegers.BigInteger.DlShiftTo` | jni/v8core/v8/benchmarks/crypto.js:319-327 | times B^n |
| `BigIntegers.BigInteger.DrShiftTo` | jni/v8core/v8/benchmarks/crypto.js:330-336 | floor of the division by B^n |
| `BigIntegers.BigInteger.CompareTo` | jni/v8core/v8/benchmarks/crypto.js:287-298 | the sign of the difference, except for two negatives of different length, where it is the opposite |
| `BigIntegers.BigInteger.FromInt` | jni/v8core/v8/benchmarks/crypto.js:190-197 | the number, or failure exactly below -1 |
| `BigIntegers.BigInteger.MultiplyTo` | jni/v8core/v8/benchmarks/crypto.js:415-428 | the signed product |
| `BigIntegers.NBits` | jni/v8core/v8/benchmarks/crypto.js:301-309 | the bit length |
| `Squaring.SquareTo` | jni/v8core/v8/benchmarks/crypto.js:431-448 | the square, with each cross product taken once and doubled |
| `Division.DivRemTo` | jni/v8core/v8/benchmarks/crypto.js:452-502 | truncated quotient and remainder for every nonzero divisor and any signs; what happens when the quotient overwrites the dividend is stated too |
| `Division.QuotientStep` | jni/v8core/v8/benchmarks/crypto.js:485-493 | the estimate is corrected to the true digit, and what is left is below the divisor |
| `Division.EstimateFits` | jni/v8core/v8/benchmarks/crypto.js:486-487 | the estimate of a digit is never too small |
| `Division.QuotRem` | jni/v8core/v8/benchmarks/crypto.js:452-502 | quotient and remainder recombine, the remainder below the divisor with the dividend's sign |
| `Montgomery.InvDigit` | jni/v8core/v8/benchmarks/crypto.js:539-553 | minus the inverse of the lowest digit modulo 2^28, by doubling precision; 0 for an even one |
| `Montgomery.Reducer.Reduce` | jni/v8core/v8/benchmarks/crypto.js:583-600 | the one residue in [0, m) congruent to x / B^t |
| `Montgomery.MontgomeryUnique` | jni/v8core/v8/benchmarks/crypto.js:583-600 | there is no other such residue |
| `Barrett.Reducer.Reduce` | jni/v8core/v8/benchmarks/crypto.js:1075-1083 | x mod m for every x of at most twice the digits |
| `Barrett.Reducer.EstimateQuotient` | jni/v8core/v8/benchmarks/crypto.js:1076-1078 | the estimated quotient is never too large and short by less than t + 3 |
| `Barrett.MultiplyUpperTo` | jni/v8core/v8/benchmarks/crypto.js:1043-1055 | the upper words of the product; what is lost is bounded by the rows left out |
| `Barrett.MultiplyLowerTo` | jni/v8core/v8/benchmarks/crypto.js:1028-1041 | the product modulo B^n |
| `Exponentiation.ModPow` | jni/v8core/v8/benchmarks/crypto.js:1098-1155 | b^e mod m for every e > 0, through whichever of the three reducers is chosen, on number objects with a table and two buffers that change places; 1 for e = 0 |
| `ExponentWindows.ZeroExponent` | jni/v8core/v8/benchmarks/crypto.js:1099-1101 | for e = 0 the answer 1 is right unless m is 1 |
| `Exponentiation.Power` | jni/v8core/v8/benchmarks/crypto.js:1113-1155 | the same for one reducer, with the buffers apart from the table and from what the reducer keeps |
| `Exponentiation.TakeWindow` | jni/v8core/v8/benchmarks/crypto.js:1129-1148 | the result is the base to the part of the exponent read so far, one window further |
| `Exponentiation.OddTable` | jni/v8core/v8/benchmarks/crypto.js:1116-1124 | the table holds the odd powers |
| `Exponentiation.MulTo` | jni/v8core/v8/benchmarks/crypto.js:521-521 | the product of residues, for classic, Barrett and Montgomery representation alike |
| `Exponentiation.Convert` | jni/v8core/v8/benchmarks/crypto.js:514-517 | the representative of a number, itself or a new object |
| `ExponentWindows.NextWindow` | jni/v8core/v8/benchmarks/crypto.js:1129-1138 | the window read across digits, without its trailing zeros, is the bits of the exponent from that place |
| `ExponentWindows.ReadWindow` | jni/v8core/v8/benchmarks/crypto.js:1130-1134 | k bits of the exponent, from one digit or two |
| `ModInverse.ModInverse` | jni/v8core/v8/benchmarks/crypto.js:1197-1236 | an inverse of x modulo m when they are coprime, else 0, in place on number objects, for odd and for even m; reduced if x or m is a power of two, and for odd m exactly if the last coefficient lies in [-2m, 2m) |
| `ModInverse.NotReduced` | jni/v8core/v8/benchmarks/crypto.js:1233-1235 | an input whose inverse comes out negative |
| `ModInverse.SettleIs` | jni/v8core/v8/benchmarks/crypto.js:1233-1235 | the corrections keep the residue, and reduce exactly the coefficients in [-2m, 2m) |
| `ModInverse.NarrowRound` | jni/v8core/v8/benchmarks/crypto.js:1202-1230 | for a power-of-two modulus every round keeps the coefficients from leaving the range |
| `ModInverse.PowerRounds` | jni/v8core/v8/benchmarks/crypto.js:1202-1230 | for a power of two the last coefficient is in that range |
| `GreatestDivisors.Gcd` | jni/v8core/v8/benchmarks/crypto.js:1158-1183 | the greatest common divisor of any two numbers, signed or zero, in place on copies |
| `GreatestDivisors.GetLowestSetBit` | jni/v8core/v8/benchmarks/crypto.js:888-894 | the place of the lowest one bit, also of negative numbers |
| `GreatestDivisors.LBit` | jni/v8core/v8/benchmarks/crypto.js:876-885 | the same in a digit, by halving |
| `RsaKeys.RoundTrip` | jni/v8core/v8/benchmarks/crypto.js:1521-1641 | decrypting what was encrypted gives back every number below the modulus, for keys of two different odd primes, whether the key keeps them or only d |
| `RsaKeys.RoundTripBack` | jni/v8core/v8/benchmarks/crypto.js:1521-1641 | so does encrypting what was decrypted |
| `RsaKeys.RsaKey.DoPrivate` | jni/v8core/v8/benchmarks/crypto.js:1628-1641 | the e-th root of x modulo n, put together from a power modulo each prime or raised to d modulo n |
| `RsaKeys.RsaKey.DoPublic` | jni/v8core/v8/benchmarks/crypto.js:1521-1523 | x^e mod n |
| `RsaKeys.Raise` | jni/v8core/v8/benchmarks/crypto.js:621-631 | the power under a reducer, by squaring and multiplying with two buffers that change places; 1 for an exponent out of range |
| `RsaKeys.ModPowInt` | jni/v8core/v8/benchmarks/crypto.js:634-638 | x^e mod m, under the classic or the Montgomery reducer |
| `RsaKeys.OneRoot` | jni/v8core/v8/benchmarks/crypto.js:1521-1523 | two numbers below n with the same e-th power are the same |
| `RsaKeys.Joined` | jni/v8core/v8/benchmarks/crypto.js:1637-1640 | the number put together has the residue it should have modulo each prime, and is below n |
| `Fermat.LittleTheorem` | jni/v8core/v8/benchmarks/crypto.js:1521-1641 | x^p is x modulo a prime p, by the binomial formula |
| `Fermat.PowersUndo` | jni/v8core/v8/benchmarks/crypto.js:1521-1641 | raising to e and then to d gives x back modulo a prime p, if e * d is 1 modulo p - 1 |
| `EarleyTheorem.Recognise` | jni/v8core/v8/benchmarks/earley-boyer.js:4438-4598 | for every grammar and token list, empty and left-recursive rules included, the answer is whether the grammar derives the tokens from the goal; it always ends |
| `EarleyTheorem.Parse` | jni/v8core/v8/benchmarks/earley-boyer.js:4438-4588 | tables, forward and backward pass together leave exactly what the theorem needs |
| `EarleyTheorem.Forest` | jni/v8core/v8/benchmarks/earley-boyer.js:4254-4436 | a category is reported exactly if some derivation tree of the goal over all tokens has a node for it over the span; then the trees listed are exactly its derivations, each once if no category is defined twice, and the number counted is their number; if it is not, the list is empty and the number 0; both recursions end within a depth exactly if no derivation is deeper; a category the grammar does not mention has an answer of its own |
| `EarleyNodes.UsedIsNode` | jni/v8core/v8/benchmarks/earley-boyer.js:4225-4253 | a parse of the goal uses a category there if and only if a derivation tree of the goal has such a node |
| `EarleyAllTrees.ExactlyDerivations` | jni/v8core/v8/benchmarks/earley-boyer.js:4254-4356 | a tree is in the list of a category if and only if it derives it and a parse of the goal uses the category there |
| `EarleyAllTrees.TreeListed` | jni/v8core/v8/benchmarks/earley-boyer.js:4254-4323 | no tree of a configuration is missed |
| `EarleyDistinct.CategoryOnce` | jni/v8core/v8/benchmarks/earley-boyer.js:4254-4356 | no tree is listed twice, if no two rules have the same name |
| `EarleyEnding.EndsExactly` | jni/v8core/v8/benchmarks/earley-boyer.js:4254-4356 | how deep the recursion must go is the depth of the deepest derivation, so that it never ends if there is none |
| `EarleyEnding.DeepTree` | jni/v8core/v8/benchmarks/earley-boyer.js:4254-4323 | a recursion that has not ended at a depth has a deeper tree |
| `EarleyParsing.Forw` | jni/v8core/v8/benchmarks/earley-boyer.js:4115-4224 | all elements that follow in one state, each taken once; it ends since configurations and positions are finite |
| `EarleyParsing.GoalFound` | jni/v8core/v8/benchmarks/earley-boyer.js:4474-4499 | an ender of the goal is in the last state exactly when the grammar derives all tokens |
| `EarleyRecognising.Forward` | jni/v8core/v8/benchmarks/earley-boyer.js:4474-4486 | the states hold exactly the chart |
| `EarleyParses.Backward` | jni/v8core/v8/benchmarks/earley-boyer.js:4487-4586 | the states kept hold the used elements |
| `EarleyParses.KeptExactly` | jni/v8core/v8/benchmarks/earley-boyer.js:4487-4586 | an element is kept if and only if a parse of the goal uses it |
| `EarleyParses.IsParsed` | jni/v8core/v8/benchmarks/earley-boyer.js:4225-4253 | a category is reported over a span exactly when a parse of the goal has it there |
| `EarleyParses.GoalParsed` | jni/v8core/v8/benchmarks/earley-boyer.js:4225-4253 | for the goal over all tokens that is being derived |
| `EarleyBuilding.MakeTables` | jni/v8core/v8/benchmarks/earley-boyer.js:3851-3965 | the tables made for a grammar describe its rules and nothing else |
| `EarleyBuilding.Categories` | jni/v8core/v8/benchmarks/earley-boyer.js:3851-3877 | exactly the symbols of the grammar, each once, the goal first |
| `EarleySets.State.Adjoin` | jni/v8core/v8/benchmarks/earley-boyer.js:4064-4067 | one element more in a set, the links of the list in order |
| `EarleySets.State.Pop` | jni/v8core/v8/benchmarks/earley-boyer.js:4143-4149 | the next set to deal with, its new elements merged |
| `EarleySets.State.Union` | jni/v8core/v8/benchmarks/earley-boyer.js:4099-4113 | the elements of one set in another |
| `EarleyForests.CountIsLength` | jni/v8core/v8/benchmarks/earley-boyer.js:4254-4436 | whenever both come to an end the count is the length of the list, and they come to an end together |
| `EarleyForests.TreesDerive` | jni/v8core/v8/benchmarks/earley-boyer.js:4254-4323 | every tree listed is a derivation of its configuration over its span |
| `EarleyForests.DeeperTrees` | jni/v8core/v8/benchmarks/earley-boyer.js:4254-4323 | with more fuel the same list |
| `EarleyListing.DerivTrees` | jni/v8core/v8/benchmarks/earley-boyer.js:4254-4323 | the loops over enders and positions list those trees |
| `EarleyListing.NbDerivTrees` | jni/v8core/v8/benchmarks/earley-boyer.js:4357-4402 | and count them |
| `BoyerProving.ProverSound` | jni/v8core/v8/benchmarks/earley-boyer.js:3564-3634 | answered true, the instance is not false in any interpretation that satisfies the lemmas and gives if, true and false their meaning |
| `BoyerProving.ProverDecides` | jni/v8core/v8/benchmarks/earley-boyer.js:3564-3634 | with the lemma that lifts a nested if among them, the answer is true exactly when the rewritten term is a tautology |
| `BoyerProving.Prover.TestBoyer` | jni/v8core/v8/benchmarks/earley-boyer.js:3767-3799 | the answer for the theorem, wrapped and instantiated, and the number of calls of a run of the rewriter |
| `BoyerProving.Prover.OneWayUnify1` | jni/v8core/v8/benchmarks/earley-boyer.js:3635-3681 | the answer and the bindings it leaves, also on failure |
| `BoyerProving.Prover.Rewrite` | jni/v8core/v8/benchmarks/earley-boyer.js:3604-3634 | the rewritten term, and a count that has grown by the calls of a run |
| `BoyerRuns.RewriteIsRun` | jni/v8core/v8/benchmarks/earley-boyer.js:3604-3634 | rewriting answers a term and a number if and only if there is a tree of calls with that result and that many nodes, in which each call rewrites the operands, turns the result by the first lemma whose left-hand side matches, and starts again |
| `BoyerRuns.ReduceIs` | jni/v8core/v8/benchmarks/earley-boyer.js:3604-3634 | the first lemma that matches is used, and its variables stand for what the match made them |
| `BoyerRuns.NormalCount` | jni/v8core/v8/benchmarks/earley-boyer.js:3604-3634 | for a term no lemma matches, the count is the number of its subterms |
| `BoyerRuns.AtLeastSize` | jni/v8core/v8/benchmarks/earley-boyer.js:3604-3634 | it is never less |
| `BoyerProving.Prover.Tautologyp` | jni/v8core/v8/benchmarks/earley-boyer.js:3564-3601 | the loop gives what the recursive definition gives |
| `BoyerProving.Prover.Setup` | jni/v8core/v8/benchmarks/earley-boyer.js:3733-3766 | the lemmas by operator; failure exactly if one has not the form |
| `BoyerProving.NewestFirst` | jni/v8core/v8/benchmarks/earley-boyer.js:3733-3766 | the lemmas of an operator are those listed for it, the newest first |
| `BoyerProving.WrappedTruth` | jni/v8core/v8/benchmarks/earley-boyer.js:3767-3799 | where or is disjunction and f is false, the wrapped theorem has the truth of the theorem |
| `BoyerProving.TheoremProved` | jni/v8core/v8/benchmarks/earley-boyer.js:3767-3799 | answered true, the theorem itself, instantiated, is not false there, where the lemmas hold |
| `BoyerProving.WrappedSize` | jni/v8core/v8/benchmarks/earley-boyer.js:3767-3799 | wrapping n times makes 3 n more subterms |
| `BoyerMatching.MatchExact` | jni/v8core/v8/benchmarks/earley-boyer.js:3635-3681 | true exactly if some substitution makes the pattern the term, and applying the one found does |
| `BoyerRewriting.RewriteSound` | jni/v8core/v8/benchmarks/earley-boyer.js:3604-3634 | rewriting keeps the meaning wherever the lemmas hold |
| `BoyerRewriting.RewriteNormal` | jni/v8core/v8/benchmarks/earley-boyer.js:3604-3634 | no subterm of the result is an instance of a left-hand side |
| `BoyerRewriting.MoreFuel` | jni/v8core/v8/benchmarks/earley-boyer.js:3604-3634 | an answer does not depend on the fuel |
| `BoyerTautologies.TautDecides` | jni/v8core/v8/benchmarks/earley-boyer.js:3564-3601 | for terms whose tests are not ifs, true exactly for tautologies |
| `BoyerTautologies.TautSound` | jni/v8core/v8/benchmarks/earley-boyer.js:3564-3601 | true means true under every valuation of the assumptions |
| `BoyerTautologies.TautComplete` | jni/v8core/v8/benchmarks/earley-boyer.js:3564-3601 | false comes with a valuation that makes it false |
| `BoyerTerms.ApplyIsSubst` | jni/v8core/v8/benchmarks/earley-boyer.js:3555-3563 | apply_subst is simultaneous substitution |
| `BoyerTerms.IsTermEqual` | jni/v8core/v8/benchmarks/earley-boyer.js:3686-3719 | equality of terms |
| `Richards.RunRichards` | jni/v8core/v8/benchmarks/richards.js:47-78 | for every idle count but 0 and any packets, scheduling ends with the idle task held and nothing to do, every packet still in exactly one place; what happened on the way is told in full by a log: who was released and held, and what each task took and sent; the two counters are the numbers of packets sent and tasks held |
| `RichardsTraces.AllHistory` | jni/v8core/v8/benchmarks/richards.js:374-491 | over a run: A and B are released by the turns of a shift register, one for each count but the last; the packets of the worker go to the two handlers in turn, lettered on through the alphabet; a device sends back what it took; a handler sends each device packet in the order it came, with the next letter of the oldest work packet, and each work packet back once its letters are out |
| `RichardsHistories.TurnsRecur` | jni/v8core/v8/benchmarks/richards.js:374-384 | the turn of device B obeys the recurrence of a shift register with taps 4, 13, 15 and 16 |
| `RichardsHistories.HandlerSendsDevice` | jni/v8core/v8/benchmarks/richards.js:474-483 | a device packet leaves with letter i of a work packet, the i-th for it |
| `RichardsHistories.WorkerSends` | jni/v8core/v8/benchmarks/richards.js:434-446 | the worker sends its packets alternately, each with the next four letters |
| `Richards.Scheduler.Schedule` | jni/v8core/v8/benchmarks/richards.js:188-198 | the invariant at every loop head, the packets kept, and the end by a lexicographic measure |
| `Richards.Scheduler.Run` | jni/v8core/v8/benchmarks/richards.js:309-338 | one step: everything before the next block has nothing to do, RUNNABLE says there are packets, and the measure goes down |
| `Richards.Scheduler.RunHandler` | jni/v8core/v8/benchmarks/richards.js:465-491 | a packet received is the last of its kind; then a device packet leaves with the next letter, or the work packet with all letters out, or the task is suspended; each is in the log |
| `Richards.Scheduler.RunDevice` | jni/v8core/v8/benchmarks/richards.js:401-411 | a packet in hand goes back to its task, a packet received is held, or the task is suspended; it never overwrites a packet |
| `Richards.Scheduler.RunWorker` | jni/v8core/v8/benchmarks/richards.js:430-448 | the packet received goes on to the other handler with the next letters, or the task is suspended |
| `Richards.Scheduler.RunIdle` | jni/v8core/v8/benchmarks/richards.js:374-384 | one turn: the device of the lowest bit is released and the register shifts, or the task is held at the end of the count |
| `Richards.Scheduler.Queue` | jni/v8core/v8/benchmarks/richards.js:241-248 | the packet at the end of the list of its task, marked with its sender |
| `Richards.TwoBlocks` | jni/v8core/v8/benchmarks/richards.js:345-354 | a packet sent keeps invariant and packets, and lowers the measure if the two tasks do |
| `RichardsTasks.MeasureUpdate` | jni/v8core/v8/benchmarks/richards.js:188-198 | how one task enters the measure |
| `RichardsLinks.Packet.AddTo` | jni/v8core/v8/benchmarks/richards.js:527-535 | in linked memory, the packet at the end of the chain, the rest as it was |
| `RichardsLinks.TakeFirst` | jni/v8core/v8/benchmarks/richards.js:324-334 | the first packet of a chain taken off |
| `Splaying.Splay` | jni/v8core/v8/benchmarks/splay.js:293-352 | in place, the same nodes in the same order, the root the key's node or a neighbour of its place; a node met at depth k lies at depth k / 2 + 2 at most; it ends |
| `SplayDepths.ThenHalved` | jni/v8core/v8/benchmarks/splay.js:293-352 | so do the nodes of the two chains and the tree between them once they are put together |
| `Splaying.BetweenApart` | jni/v8core/v8/benchmarks/splay.js:298-352 | in order, the two chains and the tree between them stay apart |
| `SplayTrees.SplayTree.Insert` | jni/v8core/v8/benchmarks/splay.js:160-182 | the map gets the key unless it has it |
| `SplayTrees.SplayTree.Remove` | jni/v8core/v8/benchmarks/splay.js:193-214 | the map loses the key, or the error is reported exactly when it is not there |
| `SplayTrees.SplayTree.Find` | jni/v8core/v8/benchmarks/splay.js:224-230 | the node of the key, or null |
| `SplayTrees.SplayTree.FindMax` | jni/v8core/v8/benchmarks/splay.js:236-245 | the largest key |
| `SplayTrees.SplayTree.FindGreatestLessThan` | jni/v8core/v8/benchmarks/splay.js:252-268 | the largest key below, or null if there is none |
| `SplayTrees.SplayTree.ExportKeys` | jni/v8core/v8/benchmarks/splay.js:274-280 | the keys in increasing order, all of them |
| `SplayTrees.JoinedMap` | jni/v8core/v8/benchmarks/splay.js:203-213 | the left subtree splayed at a larger key has no right child, so the right one may go there |

## Findings

Where the code does not do what its documentation says, the model follows the code.

- `mmap_resize` (malloc.c:3927-3955) computes the new size without the chunk's offset in its region, which
  memalign may have made large. If the kernel grants the new region, the heap stays in order exactly if
  `RemapLegal(offset, nb)`: a least chunk is left behind the offset. There is room for the bytes asked for exactly
  if `RemapRoom(offset, nb, bytes)`. Both failures can be reached: memalign(8192, 270000) and realloc to 300000 leave
  298992 bytes (`ShiftedReallocs.TooSmall`); memalign(16384, 300000) and realloc to 1000 write the head outside the
  4096 bytes that are left, and no layout explains the memory any more (`ShiftedReallocs.OutOfOrder`).
- `internal_memalign` (malloc.c:4976-4978) doubles until the alignment is reached; for an alignment above 2^31 that
  is not a power of two the 32-bit product becomes 0 and the loop never ends (`Memaligns.NeverReached`).
- `bnModInverse` (crypto.js:1233-1235) corrects its coefficient at most twice, which is not always enough: 1748
  modulo 3659 gives -651 (`ModInverse.NotReduced`). The answer is always an inverse; it lies in [0, m) whenever x
  or m is a power of two, and for odd m exactly when the last coefficient lies in [-2m, 2m).
- `release_unused_segments` (malloc.c:4342) looks for a free chunk up to the place of a top's foot, but the record of
  a segment whose top had 8 bytes left lies 8 bytes lower: such a segment is never given back
  (`Frees.ReleasableWhen`).
- `bnpFromInt` (crypto.js:190-197) reads an undefined name for x < -1 and throws; `FromInt` then is not ok.
- `bnCompareTo` (crypto.js:287-298) orders two negative numbers of different length the wrong way round.
- `bnpDivRemTo` (crypto.js:452-502) with the quotient object also the dividend, and a dividend shorter than the
  divisor, overwrites the dividend before it copies it: the remainder becomes 0.
- `barrettReduce` (crypto.js:1075-1083) drops low partial products, so that its estimate can fall short by up to
  t + 2 for a modulus of t digits, not by a constant; the fix-up loops make up for it.
- `bnModPow` (crypto.js:1098-1101) answers 1 for e = 0 before it looks at m, which is not reduced for m = 1.
- `tautologyp_nboyer` (earley-boyer.js:3564-3601) does not look at an operand it does not need, so an `if` with two
  operands may be proved; interpretations must give such an `if` its second operand when the first is true.

## Left out

- Barrett.Reducer.Reduce: needs t + 3 <= 2^28 for a modulus of t digits. The estimate is short by less than t + 3,
  and the difference taken modulo B^(t+1) is the true one only while (t + 3) * m < B^(t+1). A modulus beyond that
  would have 2^28 - 2 digits or more.
- Exponentiation.ModPow: the same for an even modulus, for which the source takes Barrett reduction; and e >= 0.
- ModInverse.ModInverse: for x > 0, as the source promises it; that the result is reduced is proved if x or m is a
  power of two and refuted in general; the exact condition, for odd m, is on the last coefficient and not on x and m
  themselves.
- RsaKeys.RoundTrip: for keys of two different odd primes, with an exponent in range; a prime 2 would make dmp1 0,
  for which `bnModPow` answers 1. Padding, text and the making of keys are not modelled.
- Memaligns.Memalign: for alignments up to 2^31, beyond which the source does not return.
- Sessions.Session.Resize: not called for a shifted region that fails RoomBehind, which MayResize decides; what
  happens there is stated by Reallocs.Realloc.
- Reallocs.MmapResize: the kernel is a parameter that refuses or gives a region apart from all others; addresses do
  not wrap beyond 2^32.
- EarleyTheorem.Recognise: a grammar with at least one definition, since the goal is the first one; the lexer is a
  parameter that gives each token its categories.
- EarleyParses.IsParsed: for i <= j; it says that a parse of the goal uses the category there, not that the
  category alone derives the tokens.
- EarleyTheorem.Forest: the depth is a parameter and `Deeper` stands for a recursion that goes deeper; where the
  derivations have no greatest depth, as with cyclic grammars, the source recurses without end.
- BoyerProving.Prover.Rewrite: rewriting need not end, so it has fuel; `MoreFuel` shows that an answer does not
  depend on it. Symbol records are identified by their names, and the lemmas are a parameter.
- Richards.RunRichards: blocks, packets and tasks are values in the scheduler's fields, so that aliasing of packets
  is not modelled; worklists are sequences. `RichardsLinks` shows what `addTo` does to linked packets. The counters
  are the numbers of packets sent and tasks held in the log; what they come to for the one benchmark run is not
  computed.
- Splaying.Splay: the depth of each node on the way is halved; the amortised cost of a sequence of operations is not
  derived from that. Keys are integers.
- Frees.Free: what sys_trim and release_unused_segments leave is told by what is no longer there; which refusals of
  the kernel there were is a ghost result.
- Words of the memory in malloc.c: links and segment records are kept in maps and sequences beside the memory of
  heads, feet and user words. `WholeMemory` lays them all out in one memory and shows that they never share a word.
  The index word of a tree node is derived from its size.
- Copying in realloc is in whole words. In `add_segment` the old top is sealed before the new one is made, where the
  source makes the new one first.
- malloc.c's calloc, independent_calloc and independent_comalloc, bulk_free, realloc_in_place as an entry of its own,
  footprint limits, statistics, inspection, locks, errno, mspaces, footers and other platforms.
- The corruption checks of malloc.c, which valid pointers never trip.
- crypto.js: radix conversion, bit operations, the making of RSA keys, random numbers, ARC4 and primality tests. The
  quotient estimate of division is taken in exact rationals, not floating point.
- earley-boyer.js: the Scheme library, the printer, the lexer and the benchmark's own grammar and lemmas.
- deltablue.js, navier-stokes.js, raytrace.js, regexp.js, run.js, base.js, the JNI bridge and the V8 headers.
