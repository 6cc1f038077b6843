# Verified models of jxlpy and libjxl

This project models parts of the repository and proves what they promise.
Each module follows one component:

| module | component |
|---|---|
| `AnsAlias`, `AnsCoding`, `HybridUint`, `BitFields` | the ANS alias table (ISO/IEC 18181-1, Annex C) and its two lookups, the coder and reader built on it, hybrid integers, and the bits that carry them |
| `Lehmer`, `ZigZag`, `CoeffOrders` | Lehmer codes, natural coefficient orders, and the decoding of coefficient orders (ISO/IEC 18181-1, Annex I) |
| `AcTiling`, `AcMetadata`, `AcContext` | the map of block transforms, the decoding loop that fills it, and the numbering of AC contexts |
| `FrameDiff`, `Multiframe`, `Analyzer` | jxlpy's multi-frame encoder: frame differences, the plan for each frame, the layer headers, and the analyzer that repeats the plan |
| `Blending`, `Layers` | libjxl's blending of rows, and the replay of the layers on a decoder with four reference slots |
| `TrackingMemory` | the counting memory manager under concurrent calls |
| `GaussRow`, `GaussColumns`, `GaussKernel` | the recursive Gaussian: unrolled rows, columns with a ring buffer, and the window that it amounts to |
| `GainMap`, `BoxStream` | gain-map bundles, and streamed box contents with jxltran's extraction of the codestream |
| `Bits`, `Samples`, `Wrappers` | the unsigned bit operations, products of samples, and optional values that the others use |

`dafny verify dfyconfig.toml` checks everything.

## How the models are set up

- Loops and updates in place stay loops, arrays and objects. Each such method is
  proved against a specification function or predicate, and the promises are
  lemmas about that specification.
- Samples, blur and blending are over exact reals. Integer widths are explicit
  where they matter: 8- and 16-bit table fields, 32- and 64-bit states, packed
  words, the 64-bit counters and cursors.
- A pixel of a frame holds the samples of the main image and of all extra
  channels at that place. `Layers` maps it to the planes of the decoder: three
  colour planes (equal for gray), the alpha channel of a two- or four-channel
  image first among the extra channels, and the mask of mode blend_mask last.
- The memory manager is a state machine. A step is one critical section, or one
  call of the inner allocator; every interleaving of any number of threads is a
  run. The inner allocator never returns an address that is in use, and clients
  free only what they hold. The state has a log of what became of every call of
  Alloc since the last reset.
- Sources of data whose implementation is not modelled are parameters: the token
  stream behind coefficient orders, the tokens and sharpness of AC metadata, the
  outcome of histogram decoding, the codec of colour encodings (assumed to
  round-trip where this is stated), the filter coefficients n2 and d1, the bytes
  that follow a box, and the answers of the Brotli library.

## Assumptions about the decoder

The replay in `Layers` rests on the following, which stage_blending.cc,
blending.cc and frame_header.h show only in part: a layer is composed over its
source slot, or over zeros when the slot was never set; pixels outside the layer
keep the background; a layer is stored when it is not the last one and either
names a slot or has no duration; the public blend mode "blend" is kBlendAbove,
"muladd" is kAlphaWeightedAddAbove; extra channels are blended like the colour.

## Findings

Where the code does not meet a promise, the exact condition is proved:

- **blend_mask without an alpha channel.** `PerformBlending` then copies the
  colour of the layer, so every unchanged pixel inside the layer's rectangle
  comes out black. The replay is exact if and only if all those pixels were black
  (`Layers.ReplayIsExact`). A repeated frame breaks it unless its first pixel is
  black, since its layer holds that unchanged pixel (`Layers.RepeatedFrame`, and
  `Layers.GrayPixelIsLost` with concrete frames). docs/JXLPY_API.md, lines 228 to
  232, promises that unchanged pixels come from the reference and that the main
  image stays exact; that holds for images with alpha (`Layers.AlphaImageIsExact`).
- **Total cap of 0.** A failed allocation uses up the total cap for good exactly
  if there is one. Without one, a 64-bit overflow of the total sets it to 0, and
  the next allocation is granted exactly when the bytes in use allow it, as if
  nothing had failed (`TrackingMemory.TotalFailure`, and
  `TrackingMemory.FailureForgotten` with a concrete run).
- **Failed sets.** A checked `SetNoBoundsCheck` that fails has already written
  the cells before the first taken one. It leaves the map as it was
  (`AcTiling.FailedSetKeeps`), and it leaves a tiling
  (`AcTiling.FailedSetBreaks`), if and only if the first cell of the rectangle
  was taken; `AcTiling.OverlapLeavesMark` is a concrete overlap. The decoder
  gives up after a failed set.
- **Short jxlp boxes.** jxltran erases the four index bytes of every jxlp box,
  past the end if the box has fewer. The extraction stays within bounds if and
  only if every jxlp box has four bytes (`BoxStream.Extract`).
- **Boxes until the end of the file.** Their contents are reported complete
  exactly when the window is used up, whether or not more of the box follows
  (`BoxStream.Stream`).
- **Too long a buffer for a gain map.** It gets the whole layout, with the answer
  no (`GainMap.WriteBundle`).
- **Comments.** The context count 458 is described for x + y < 64; the proof
  covers x + y <= 64, which the callers need, and both bounds are reached
  (`AcContext.DensityLimits`). The comment on non-zero buckets speaks of 11, the
  code has 37.

Two facts are about functions for arbitrary arguments, not about what the rest of
the repository hands them:

- **Radius 0.** `CreateRecursiveGaussian` divides by the radius (gauss_blur.cc,
  lines 440 and 455), so it makes no filter of radius 0, and the statement is one
  about arbitrary coefficients.
  The horizontal pass then starts at column 1 and leaves column 0 as the buffer
  had it; and its unrolled loop stores one sample past a row of `xsize` samples
  if and only if `xsize` is at least 7 and leaves the remainder 3 by 4
  (`GaussRow.FastGaussian1D`).
- **Large colour encodings.** For a codec of colour encodings that is not the
  library's, the size of a bundle is reported also for encodings of more than
  255 bytes, which the writer then refuses. The library's own encodings are a few
  enums and coordinates and stay far below that (color_encoding_internal.cc,
  lines 101 to 190).

## Model

| member | source | states |
|---|---|---|
| AnsAlias.PackFields | libjxl/lib/jxl/ans_common.h:83-96 | the 64-bit word of an entry gives back every field by the reader's shifts and masks |
| AnsAlias.PackedLookupAgrees | libjxl/lib/jxl/ans_common.h:102-142 | the packed and the field-wise lookup return the same symbol for every table and value |
| AnsAlias.TrimDistribution | libjxl/lib/jxl/ans_common.cc:48-56 | trailing zeros go, and an empty alphabet becomes one symbol of full weight |
| AnsAlias.TrimIsPrefix | libjxl/lib/jxl/ans_common.cc:48-50 | trimming keeps every symbol's weight and the sum |
| AnsAlias.FindSingleSymbol | libjxl/lib/jxl/ans_common.cc:59-73 | finds the sum and a symbol of full weight; two such symbols are refused only when the sum is wrong anyway |
| AnsAlias.FillSingleSymbol | libjxl/lib/jxl/ans_common.cc:74-85 | the special table of a single symbol is the one table of its distribution: it leaves every number as the offset |
| AnsAlias.SingleSymbolTable | libjxl/lib/jxl/ans_common.cc:74-85 | such a table maps the range one-to-one onto the symbol's slots |
| AnsAlias.InitStacks | libjxl/lib/jxl/ans_common.cc:87-98 | the stacks hold exactly the positions above and below the entry size, both in increasing order |
| AnsAlias.PadStacks | libjxl/lib/jxl/ans_common.cc:99-102 | missing symbols are empty entries on the underfull stack |
| AnsAlias.UnderfullLeft | libjxl/lib/jxl/ans_common.cc:104-109 | when weights sum to the entries' room, an overfull entry always has an underfull partner |
| AnsAlias.RoundIsUnique | libjxl/lib/jxl/ans_common.cc:104-121 | a round, which takes from the greatest position in excess and fills what the round before left short, else the greatest unfilled position, has one outcome |
| AnsAlias.RoundsEndOnce | libjxl/lib/jxl/ans_common.cc:103-122 | however many there are, the rounds from one distribution end in one stage |
| AnsAlias.OneTable | libjxl/lib/jxl/ans_common.cc:87-145 | the rounds determine every lookup: a distribution has one table |
| AnsAlias.TurnIsRound | libjxl/lib/jxl/ans_common.cc:105-121 | what the two stacks lead a turn of the loop to do is a round, and the stacks stay as the rounds need them |
| AnsAlias.FourPositions | libjxl/lib/jxl/ans_common.cc:87-145 | the order on a concrete distribution, by three lookups |
| AnsAlias.StepStacks | libjxl/lib/jxl/ans_common.cc:105-121 | one round keeps both stacks exact and the unfinished weights equal to the unfinished room |
| AnsAlias.StepHosted | libjxl/lib/jxl/ans_common.cc:107-121 | one round keeps every slot of every symbol in exactly one place |
| AnsAlias.Redistribute | libjxl/lib/jxl/ans_common.cc:103-122 | the loop ends, its check never fails, every entry is full at the end and every slot has one host; its turns are rounds, from the distribution to a stage with no excess |
| AnsAlias.LookupFinal | libjxl/lib/jxl/ans_common.cc:123-144 | a lookup in the final table finds the slot that sits at that position, with its symbol's weight |
| AnsAlias.FinalShowsStage | libjxl/lib/jxl/ans_common.cc:123-144 | the entries that are written show what the last stage holds, at every position |
| AnsAlias.WriteEntries | libjxl/lib/jxl/ans_common.cc:123-144 | the subtraction of cutoffs never goes below zero, fields fit, and the result is an alias table made of the finished entries |
| AnsAlias.FillGeneral | libjxl/lib/jxl/ans_common.cc:87-145 | weights that fill the table exactly are turned into an alias table, the one that the rounds lead to |
| AnsAlias.FinalIsAliasTable | libjxl/lib/jxl/ans_common.cc:87-145 | over the whole range every pair (symbol, offset below its weight) is hit exactly once |
| AnsAlias.InitAliasTable | libjxl/lib/jxl/ans_common.cc:42-146 | succeeds exactly on accepted distributions and then builds an exact bijection, and no other than the one that the rounds determine; on failure the table is untouched |
| AnsAlias.CreateFlatHistogram | libjxl/lib/jxl/ans_common.h:35-50 | adds up to the total, with positive counts that differ by at most one, larger ones first |
| AnsAlias.FlatIsAccepted | libjxl/lib/jxl/ans_common.h:35-50 | a flat histogram over the range gives an alias table for all its symbols |
| AnsCoding.BuildInfoTable | libjxl/lib/jxl/enc_ans.cc:329-353 | each symbol gets its weight, rounded-up reciprocal, and a reverse map that inverts the lookup |
| AnsCoding.ReciprocalDivides | libjxl/lib/jxl/enc_ans.h:61-65 | multiplying by the reciprocal is exact division for every state that occurs, without 64-bit overflow |
| AnsCoding.AnsCoder.constructor | libjxl/lib/jxl/enc_ans.h:51 | starts from the signature |
| AnsCoding.AnsCoder.PutSymbol | libjxl/lib/jxl/enc_ans.h:53-71 | stays in the valid range of states and emits the low 16 bits exactly when the state is too large |
| AnsCoding.AnsSymbolReader.ReadSymbol | libjxl/lib/jxl/dec_ans.h:170-197 | reads the symbol of the current slot, and 16 bits exactly when the state falls below 1 << 16 |
| AnsCoding.AnsSymbolReader.constructor | libjxl/lib/jxl/dec_ans.cc:401-402 | the reader takes the 32 bits of the state first |
| AnsCoding.AnsSymbolReader.ReadHybridUintConfig | libjxl/lib/jxl/dec_ans.h:225-260 | takes as many extra bits as the token asks for and puts the value together |
| AnsCoding.AnsSymbolReader.ReadHybridUint | libjxl/lib/jxl/dec_ans.h:170-260 | one symbol and its extra bits, as the round trip speaks of it |
| AnsCoding.GetUndoesPut | libjxl/lib/jxl/enc_ans.h:53-71 | reading undoes writing: symbol, state and number of bits |
| AnsCoding.EmitsWhenNeeded | libjxl/lib/jxl/enc_ans.h:53-60 | 16 bits leave the state exactly when the next state would need more than 32 bits |
| AnsCoding.PutKeepsOrder | libjxl/lib/jxl/enc_ans.h:61-71 | coding a symbol counts through the states of its slots in order, by what is above the slot and then by the offset |
| AnsCoding.FullWeightIsFree | libjxl/lib/jxl/enc_ans.h:53-71 | a symbol of full weight leaves the state alone |
| AnsCoding.ReadUndoesWrite | libjxl/lib/jxl/enc_ans.cc:1282-1298 | reading a value undoes writing it: value, state, and every bit of both fields |
| AnsCoding.StateComesFirst | libjxl/lib/jxl/dec_ans.h:170-260 | token and next state depend on no more than the next 16 bits: the extra bits come after |
| AnsCoding.TokensInOrder | libjxl/lib/jxl/enc_ans.cc:1281-1319 | what is read is in the order of the message |
| AnsCoding.RoundTrip | libjxl/lib/jxl/enc_ans.cc:1281-1319 | any message of 32-bit values over any valid codes is decoded back from its bits, extra bits included, leaves what follows alone, and ends in the signature state |
| AnsCoding.WriteValue | libjxl/lib/jxl/enc_ans.cc:1282-1298 | one turn of the backward loop adds the coder's field in front of the extra bits |
| AnsCoding.WriteTokens | libjxl/lib/jxl/enc_ans.cc:1253-1319 | writes the final state and then all fields in reading order, whatever words they were collected in, and counts the extra bits |
| AnsCoding.ReadTokens | libjxl/lib/jxl/dec_ans.h:170-260 | the reader's loop computes the decoding that the round trip speaks of |
| AnsCoding.WriteAndRead | libjxl/lib/jxl/dec_ans.h:219-223 | what the writer wrote, bit for bit, the reader reads; the check of the final state passes, and what follows is untouched |
| AnsCoding.StateBound | libjxl/lib/jxl/enc_ans.h:53-71 | state and emitted bits together grow by at most 13 bits for each symbol |
| AnsCoding.FreeMessage | libjxl/lib/jxl/enc_ans.cc:1281-1319 | a message of such symbols is its extra bits behind the state 0x130000 |
| AnsCoding.FitsAllotment | libjxl/lib/jxl/enc_ans.cc:1322-1337 | the bits written never exceed the 46 for each token and the reserve that the writer asks for |
| AnsCoding.AliasTableOfCounts | libjxl/lib/jxl/enc_ans.cc:680-682 | a table for the trimmed counts serves the counts themselves |
| AnsCoding.BuildCode | libjxl/lib/jxl/enc_ans.cc:678-682 | normalized counts that fit the alphabet give a code for which the round trip holds, with the one table of the counts |
| HybridUint.RoundTrip | libjxl/lib/jxl/dec_ans.h:73-90 | every 32-bit value comes back from token and extra bits under every configuration, and the reader takes exactly the bits that were written |
| HybridUint.OneForm | libjxl/lib/jxl/dec_ans.h:225-260 | a token with its extra bits is the one form in which its value is coded |
| HybridUint.SmallTokens | libjxl/lib/jxl/dec_ans.h:76-80 | tokens are below the split exactly for values below it, and those are their own tokens, without extra bits, for writer and reader |
| HybridUint.TokenFields | libjxl/lib/jxl/dec_ans.h:81-89 | a token tells how long its value is and how many extra bits follow, and ends with the value's last bits |
| HybridUint.LongerLater | libjxl/lib/jxl/dec_ans.h:81-89 | above the split, a value of more bits has a greater token, under every configuration |
| HybridUint.TokensKeepOrder | libjxl/lib/jxl/dec_ans.h:73-90 | values with the same last bits are ordered as their tokens and then as their extra bits; without last bits in the token those are all values |
| HybridUint.DefaultCode | libjxl/lib/jxl/dec_ans.h:49-67 | the default configuration: four tokens for each length from 16 on, by the two bits after the first |
| HybridUint.ExtraBitsWrap | libjxl/lib/jxl/dec_ans.h:231-244 | the reader takes fewer than 32 extra bits, however large the token |
| BitFields.FieldIsRead | libjxl/lib/jxl/enc_bit_writer.cc:183-207 | a field that was written is read, and nothing after it is touched |
| BitFields.BitIsWritten | libjxl/lib/jxl/enc_bit_writer.cc:183-207 | the bits of a field are those of the number, lowest first |
| BitFields.ReversedBits.AddBits | libjxl/lib/jxl/enc_ans.cc:1278-1290 | a field that is added comes before all fields added earlier, also when the word is full |
| BitFields.ReversedBits.Flush | libjxl/lib/jxl/enc_ans.cc:1315-1318 | the collected words are written in reading order |
| Lehmer.ComputeLehmerCode | libjxl/lib/jxl/lehmer_code.h:30-56 | digit k counts the unused elements below the k-th one |
| Lehmer.CountUsed | libjxl/lib/jxl/lehmer_code.h:39-45 | the Fenwick sum is the number of used elements up to s |
| Lehmer.AddUsed | libjxl/lib/jxl/lehmer_code.h:48-53 | the Fenwick update marks exactly one element |
| Lehmer.BuildTree | libjxl/lib/jxl/lehmer_code.h:68-71 | the initial tree counts all elements as free |
| Lehmer.Select | libjxl/lib/jxl/lehmer_code.h:77-90 | the descent finds the element with exactly `rank - 1` free ones before it |
| Lehmer.MarkUsed | libjxl/lib/jxl/lehmer_code.h:92-97 | the update takes one element from the tree |
| Lehmer.DecodeLehmerCode | libjxl/lib/jxl/lehmer_code.h:58-100 | succeeds exactly on valid codes and picks the k-th digit's element of those left |
| Lehmer.LehmerIsPermutation | libjxl/lib/jxl/lehmer_code.h:58-100 | what picking produces is a permutation |
| Lehmer.PermutationUnique | libjxl/lib/jxl/lehmer_code.h:58-100 | a code stands for one permutation |
| Lehmer.CodeUnique | libjxl/lib/jxl/lehmer_code.h:27-56 | a permutation has one code |
| Lehmer.LehmerIsValid | libjxl/lib/jxl/lehmer_code.h:73-75 | the code of a permutation passes the decoder's check |
| Lehmer.ZeroPrefix | libjxl/lib/jxl/lehmer_code.h:73-90 | leading zero digits leave the first elements in place |
| Lehmer.RoundTrip | libjxl/lib/jxl/lehmer_code.h:27-100 | decoding the computed code gives the permutation back |
| ZigZag.CoeffOrderAndLut | libjxl/lib/jxl/ac_strategy.cc:24-79 | in both forms the two half walks write each cell once, at its rank in the zig-zag order, and nothing beyond |
| ZigZag.FirstDiagonal | libjxl/lib/jxl/ac_strategy.cc:42-61 | one diagonal of the first half takes the walk to the next diagonal |
| ZigZag.SecondDiagonal | libjxl/lib/jxl/ac_strategy.cc:63-78 | one diagonal of the second half takes the walk to the next diagonal |
| ZigZag.VisitPoint | libjxl/lib/jxl/ac_strategy.cc:44-59 | a visited point is skipped exactly when it is no cell of the block |
| ZigZag.RankInjective | libjxl/lib/jxl/ac_strategy.cc:24-79 | no two cells share a rank |
| ZigZag.RankIsZigZag | libjxl/lib/jxl/ac_strategy.cc:40-78 | beyond the lowest frequencies, cells come by diagonals of the stretched block, to the right on even ones and to the left on odd ones |
| ZigZag.RowByRow | libjxl/lib/jxl/ac_strategy.cc:24-79 | the array holds the cells row by row, and the lowest frequencies are ranked in the same way |
| ZigZag.RankBound | libjxl/lib/jxl/ac_strategy.cc:50-54 | ranks stay below the size, and exactly the lowest frequencies come first |
| ZigZag.RankSurjective | libjxl/lib/jxl/ac_strategy.cc:24-79 | every rank is taken |
| ZigZag.NaturalOrderIsPermutation | libjxl/lib/jxl/ac_strategy.cc:81-83 | the natural order is a permutation that begins with the lowest frequencies in raster order |
| ZigZag.OrderAndLutAreInverse | libjxl/lib/jxl/ac_strategy.cc:81-86 | order and lookup table undo each other, both ways |
| CoeffOrders.StrategyFits | libjxl/lib/jxl/coeff_order.h:42-47 | all strategies of a bucket have the bucket's shape, up to transposition |
| CoeffOrders.SharedBucket | libjxl/lib/jxl/coeff_order.h:42-47 | strategies share a bucket exactly if they cover the same shape, up to transposition; among those of one block, the plain transform is on its own |
| CoeffOrders.BucketsInOrder | libjxl/lib/jxl/coeff_order.h:42-47 | buckets are numbered in the order in which the strategies first need them |
| CoeffOrders.RegionsDisjoint | libjxl/lib/jxl/coeff_order.h:26-40 | the regions of different buckets or channels never overlap |
| CoeffOrders.ReadPermutation | libjxl/lib/jxl/coeff_order.cc:37-62 | fails exactly on bad tokens; else gives the permutation that the tokens code, which fixes the skipped prefix, and uses up exactly its tokens; without a destination nothing is written |
| CoeffOrders.DigitsFollow | libjxl/lib/jxl/coeff_order.cc:42-57 | after the token of the end, each token is one digit from the skipped prefix on, and all other digits are 0 |
| CoeffOrders.TokensAreCode | libjxl/lib/jxl/coeff_order.cc:42-57 | tokens are good exactly if the end is not past the size and the digits are a valid Lehmer code |
| CoeffOrders.ComposeInPlace | libjxl/lib/jxl/coeff_order.cc:94-96 | overwriting entries one by one composes the natural order with the whole permutation |
| CoeffOrders.RegionRanks | libjxl/lib/jxl/coeff_order.cc:94-96 | position k of an order holds the cell whose zig-zag rank is the k-th element of the coded permutation |
| CoeffOrders.OrderReadOnce | libjxl/lib/jxl/coeff_order.cc:84-98 | the tokens of a channel determine its order |
| CoeffOrders.ComposedOrder | libjxl/lib/jxl/coeff_order.cc:91-96 | composing the natural order with such a permutation is again an order with the lowest frequencies first |
| CoeffOrders.NaturalIsCoeffOrder | libjxl/lib/jxl/coeff_order.cc:136-143 | so is the natural order itself |
| CoeffOrders.UnsignalledRegion | libjxl/lib/jxl/coeff_order.cc:136-143 | a bucket that the stream does not carry has each cell at its zig-zag rank |
| CoeffOrders.DecodeCoeffOrder | libjxl/lib/jxl/coeff_order.cc:84-98 | succeeds exactly on good tokens; the region then holds the natural order in the coded order, a permutation with the lowest frequencies first; nothing else changes |
| CoeffOrders.OrderMask | libjxl/lib/jxl/coeff_order.cc:116-120 | a bucket's bit is set exactly when a used strategy belongs to it |
| CoeffOrders.DecodeBucket | libjxl/lib/jxl/coeff_order.cc:131-150 | reads three channels one after the other, fills the regions of a used bucket and leaves all others alone |
| CoeffOrders.FirstIsLeast | libjxl/lib/jxl/coeff_order.cc:121-124 | every bucket comes up, first with the strategy that stands for it |
| CoeffOrders.NewTokens | libjxl/lib/jxl/coeff_order.cc:121-150 | a bucket's tokens follow those of the buckets before it, and none is read twice |
| CoeffOrders.DecodeCoeffOrders | libjxl/lib/jxl/coeff_order.cc:102-156 | succeeds exactly when all tokens are good and the entropy decoder agrees; then every used bucket and channel holds the order that its own tokens code, or the natural one; unused regions are untouched |
| AcTiling.AcStrategyImage.FillInvalid | libjxl/lib/jxl/ac_strategy.h:215 | no cell is taken afterwards |
| AcTiling.AcStrategyImage.SetNoBoundsCheck | libjxl/lib/jxl/ac_strategy.h:227-243 | a checked set succeeds exactly on a free rectangle, writes its cells only, and on failure stops at the first taken cell |
| AcTiling.GetAfterSet | libjxl/lib/jxl/ac_strategy.h:232-237 | distinct cells have distinct positions in the strided buffer |
| AcTiling.FailedSetKeeps | libjxl/lib/jxl/ac_strategy.h:227-243 | a failed set leaves the map as it was if and only if its first cell was taken |
| AcTiling.TilingStep | libjxl/lib/jxl/ac_strategy.h:227-243 | a successful set keeps the tiling disjoint |
| AcTiling.FailedSetBreaks | libjxl/lib/jxl/ac_strategy.h:227-243 | after a failed set on a tiling the map is a tiling if and only if the first cell was taken |
| AcTiling.OverlapLeavesMark | libjxl/lib/jxl/ac_strategy.h:233-237 | a concrete overlap that leaves the first block of a transform marked |
| AcTiling.RunTiles | libjxl/lib/jxl/ac_strategy.h:215-243 | after any run of successful checked sets the taken cells are a disjoint union of the placements, each cell with its placement's mark |
| AcTiling.OneFirstBlock | libjxl/lib/jxl/ac_strategy.h:236-238 | a placement has exactly one first block, its top-left cell |
| AcTiling.CountBlocks | libjxl/lib/jxl/ac_strategy.cc:104-113 | counts the first blocks of a strategy |
| AcTiling.RunCounts | libjxl/lib/jxl/ac_strategy.cc:104-113 | that is the number of placements of the strategy |
| AcTiling.RunConserves | libjxl/lib/jxl/ac_strategy.cc:104-113 | counts times covered blocks, over all strategies, add up to the taken cells |
| AcMetadata.DecodeStrategies | libjxl/lib/jxl/dec_modular.cc:505-560 | succeeds exactly when the sharpness is in range and the tokens fill the rectangle; then each block bears the mark of its transform and exactly the strategies used are recorded |
| AcMetadata.PlaceNext | libjxl/lib/jxl/dec_modular.cc:527-557 | a token is placed exactly when it is a strategy that fits its AC group, the rectangle, the subsampling and the blocks still open |
| AcMetadata.AllowedMeans | libjxl/lib/jxl/dec_modular.cc:533-549 | a transform may lie exactly where all its blocks are in one group of 256 by 256 pixels and inside the rectangle, and with subsampling it is one block |
| AcMetadata.SharpHasThreeBits | libjxl/lib/jxl/dec_modular.cc:518-521 | a sharpness is accepted exactly if it has at most three bits |
| AcMetadata.Stuck | libjxl/lib/jxl/dec_modular.cc:523-557 | when a token cannot be placed, no reading of the tokens fills the rectangle |
| AcMetadata.BeforeInBuffer | libjxl/lib/jxl/dec_modular.cc:509-517 | the order in which blocks are visited is that of the buffer |
| AcMetadata.FillsOnce | libjxl/lib/jxl/dec_modular.cc:510-557 | the tokens fill the rectangle in one way only |
| AcMetadata.FilledIsTiled | libjxl/lib/jxl/dec_modular.cc:510-557 | from an empty map the rectangle is tiled without gaps, and no transform leaves it |
| AcContext.BucketFits | libjxl/lib/jxl/ac_context.h:29-47 | the contexts of one non-zero bucket end before those of the next begin |
| AcContext.ZeroDensityIsInjective | libjxl/lib/jxl/ac_context.h:63-83 | below 458, and shared exactly by cases with the same two buckets and the same flag |
| AcContext.ZeroDensityIsSorted | libjxl/lib/jxl/ac_context.h:63-83 | contexts are numbered by the bucket of what is left, then by that of the position, then by the flag, which is the lowest bit |
| AcContext.ReducedRange | libjxl/lib/jxl/ac_context.h:69-80 | the reduced numbers are in range exactly for what the decoder's loop lets pass; their sum is at most 64 when no more coefficients are left than positions |
| AcContext.DensityLimits | libjxl/lib/jxl/ac_context.h:44-47 | 474 bounds all contexts and 458 those of valid pairs, and both bounds are reached |
| AcContext.ZeroDensityContext | libjxl/lib/jxl/ac_context.h:63-83 | for every transform size and every pair that the source accepts, the context of the reduced numbers; below 474, and below 458 for valid pairs |
| AcContext.NonZeroContext | libjxl/lib/jxl/ac_context.h:134-143 | below the offset of the zero-density contexts, without 32-bit overflow |
| AcContext.NonZeroIsInjective | libjxl/lib/jxl/ac_context.h:134-143 | shared exactly by the same bucket and block context |
| AcContext.SharedCountBucket | libjxl/lib/jxl/ac_context.h:134-143 | numbers of non-zeros share a bucket exactly if they are equal, neighbours from 8 on, or at least 64; buckets grow in steps of one |
| AcContext.RangesAreDisjoint | libjxl/lib/jxl/ac_context.h:114-130 | the two kinds and different block contexts never meet, and all stay below the number of contexts |
| AcContext.PaddingSuffices | libjxl/lib/jxl/dec_frame.cc:404-411 | the padding of the context map is just enough for pairs that no valid file has |
| AcContext.Context | libjxl/lib/jxl/ac_context.h:101-111 | the lookup stays inside the map and yields a block context |
| AcContext.MapIndexIsInjective | libjxl/lib/jxl/ac_context.h:106-110 | different channel, order, quantization or DC index look up different places |
| AcContext.MapIsSorted | libjxl/lib/jxl/ac_context.h:106-110 | the map is sorted by channel, the second one first, then by order bucket, quantization and DC context |
| AcContext.CountBelowIs | libjxl/lib/jxl/ac_context.h:102-105 | the quantization index is the number of thresholds below the value |
| FrameDiff.ChangedMask | jxlpy/multiframe.py:18-39 | marks exactly the pixels with a difference in any channel; refuses arrays or planes of different sizes |
| FrameDiff.JoinedIsFrame | jxlpy/multiframe.py:31-38 | the arrays of a frame, put together again, are the frame |
| FrameDiff.FlatnonzeroIs | jxlpy/multiframe.py:51-52 | lists the true positions in order |
| FrameDiff.CountZero | jxlpy/multiframe.py:47-50 | the count is zero exactly when nothing changed |
| FrameDiff.CountIs | jxlpy/multiframe.py:47 | the count is the number of changed positions of the mask |
| FrameDiff.StatsCount | jxlpy/multiframe.py:42-67 | the changed pixels of two frames are the positions where they differ, as a count and in percent of the canvas, and at most as many as the box has |
| FrameDiff.BoxIsTight | jxlpy/multiframe.py:42-59 | the box holds every change, lies on the canvas, and is the least such box |
| FrameDiff.AreaIs | jxlpy/multiframe.py:60-61 | the area of a box is the number of its positions |
| FrameDiff.AreaFits | jxlpy/multiframe.py:60-61 | on a canvas with pixels no box is larger than the canvas |
| Multiframe.PackedIsWord | jxlpy/api.py:166-187 | the four packed fields do not overlap |
| Multiframe.PackedNumber | jxlpy/api.py:166-187 | the packed number, byte by byte, with the modes numbered as in the public enumeration |
| Multiframe.PackRoundTrip | jxlpy/api.py:166-187 | the native code unpacks what was packed, and takes a bare slot number as a replacing source |
| Multiframe.PackedOnlyInRange | jxlpy/api.py:174-181 | packing is refused exactly out of range |
| Multiframe.MakeFrameHeader | native/jxlpy_native.cc:627-661 | without a crop the header covers the canvas, whatever position the frame carries; unknown blend modes become replace |
| Multiframe.MinOfTwo | jxlpy/multiframe.py:113 | a tie between candidates goes to the previous frame |
| Multiframe.BestOfBoth | jxlpy/multiframe.py:82-113 | with both references at hand the smaller box wins, then the smaller number of changed pixels, then the previous frame |
| Multiframe.SelectReferenceBbox | jxlpy/multiframe.py:82-113 | picks the least candidate among the slots that are set |
| Multiframe.SelectionFollowsPlan | jxlpy/multiframe.py:93-112 | while the dictionary mirrors the plan, the fallback is never taken and the best reference is chosen |
| Multiframe.CropFits | jxlpy/api.py:1596-1602 | a chosen crop lies on the canvas, also for repeated frames |
| Multiframe.CropsByShare | jxlpy/api.py:1596-1597 | a box is cropped to exactly if its share of the canvas is below the ratio: at ratio 1 every smaller box, at ratio 0 none |
| Multiframe.AdditivePayloads | jxlpy/api.py:1264-1269 | the first frame and then the differences |
| Multiframe.MaskedIsPayload | jxlpy/api.py:1574-1583 | zero and mask 0 exactly on unchanged pixels |
| Multiframe.MaskedCropIsPayload | jxlpy/api.py:1566-1573 | the same inside a crop |
| Multiframe.MaskedPixelIs | jxlpy/api.py:1554-1583 | an unchanged pixel is sent as zeros, its mask too, and a changed one as it is, with a full mask |
| Multiframe.DraftSelected | jxlpy/api.py:1584-1608 | follows the plan; the box of an uncropped frame stays behind in x0 and y0 |
| Multiframe.DraftMasked | jxlpy/api.py:1554-1583 | follows the plan, and fails exactly when the mask's index needs more than a byte |
| Multiframe.DraftFrame | jxlpy/api.py:1523-1608 | every mode follows the plan |
| Multiframe.RefsStep | jxlpy/api.py:1625-1629 | storing a frame keeps the dictionary in step with the plan |
| Multiframe.CheckFrames | jxlpy/api.py:1224-1239 | accepts exactly non-empty lists of frames of one shape and one sample type |
| Multiframe.Ticks | jxlpy/api.py:1242-1253 | none, one or a list of durations becomes one 32-bit tick count for each frame |
| Multiframe.TicksOfFrame | jxlpy/api.py:1242-1253 | the duration of each frame, for all three forms of the argument |
| Multiframe.TicksFit | jxlpy/api.py:1242-1253 | of as many durations as frames, all are accepted exactly if each fits 32 bits |
| Multiframe.MaskIsFullScale | jxlpy/api.py:1283-1293 | a full mask has all bits that the samples use, and no others; other types and widths are refused |
| Multiframe.EncodeMultiframe | jxlpy/api.py:1394-1629 | one planned frame for each input, for every mode and crop ratio; refuses exactly bad frames, types, durations, mask bits and mask indices |
| Multiframe.PackFrames | native/jxlpy_native.cc:876-894 | the layer headers are the planned ones, with no trace of stale positions |
| Multiframe.EncodeLayers | jxlpy/api.py:1394-1670 | succeeds exactly on encodable input and gives the planned layers |
| Analyzer.AnalyzeFrameArrays | jxlpy/multiframe.py:116-274 | accepts the five replacing modes; each record says what the plan does, with the changed pixels and all percentages, and the averages are those of the planned records |
| Analyzer.RecordsMatchLayers | jxlpy/multiframe.py:143-245 | on every frame of every run the record equals the layer: source, crop flag, rectangle, slot, number of pixels |
| Analyzer.BoxPercentIsShare | jxlpy/multiframe.py:143-245 | on a canvas with pixels every box is reported as its share of the canvas, also where the code writes 100 |
| Analyzer.MeanIs | jxlpy/multiframe.py:247-254 | an average, times the number of values, is their sum |
| Analyzer.MeanOfEqual | jxlpy/multiframe.py:247-254 | equal values have themselves as average |
| Analyzer.StillSummary | jxlpy/multiframe.py:247-254 | a still image is sent whole, and its averages are 100 percent |
| Analyzer.AnalyzeAndEncode | jxlpy/multiframe.py:116-245 | analyzer and encoder, run on the same frames, agree and fail together |
| Analyzer.SentIsMonotone | jxlpy/multiframe.py:205-215 | a smaller box never leads to a larger encoded area |
| Analyzer.AutoIsLeast | jxlpy/multiframe.py:93-113 | on every frame auto sends no more than any other mode, and no mode more than the canvas |
| Analyzer.Summarize | jxlpy/multiframe.py:295-303 | the summary is that of the planned areas and differences |
| Analyzer.CompareReferenceModes | jxlpy/multiframe.py:277-311 | each mode's summary follows from the frames; the winner is least by total and then by change, and all modes named before it have greater keys; fails exactly on bad frames, bad modes or no mode |
| Analyzer.FirstLeast | jxlpy/multiframe.py:304-310 | among equals the key inserted first wins |
| Analyzer.WinnerSendsAsAuto | jxlpy/multiframe.py:304-311 | whenever auto is compared, the winner's total is that of auto |
| Blending.AssociatedAgrees | libjxl/lib/jxl/alpha.cc:22-38 | the two forms of "over" agree up to multiplication by opacity |
| Blending.OverIsAssociative | libjxl/lib/jxl/alpha.cc:22-29 | flattening layers first, or laying them one by one, gives the same colour and opacity |
| Blending.OverExtremes | libjxl/lib/jxl/alpha.cc:30-38 | transparent keeps, opaque replaces |
| Blending.KeptOrReplaced | libjxl/lib/jxl/blending.cc:105-112 | mode none shows the background, replace the layer; adding zero changes nothing |
| Blending.Multiplied | libjxl/lib/jxl/blending.cc:100-103 | multiplying by 1 keeps and by 0 clears the background, also where a clamp makes it so; it grows with the background, and without a clamp the two are alike |
| Blending.WeightedAddition | libjxl/lib/jxl/alpha.cc:67-80 | a weighted addition adds the layer in proportion to its opacity, nothing at 0 and all at 1, and leaves the opacity itself alone |
| Blending.LaidOver | libjxl/lib/jxl/alpha.cc:18-65 | an opaque sample hides the background and a transparent one shows it, in both forms of colour |
| Blending.Mirrored | libjxl/lib/jxl/blending.cc:57-184 | each mode "below" is the mode "above" with background and layer exchanged, none and replace likewise, for all planes at once |
| Blending.NoAlphaChannel | libjxl/lib/jxl/blending.cc:155-169 | without an alpha channel weighted additions of colour are plain ones and blends show the layer |
| Blending.ColorOpacity | libjxl/lib/jxl/blending.cc:125-134 | a blended colour composes its opacity, in its alpha channel and nowhere else |
| Blending.PerformAlphaBlending | libjxl/lib/jxl/alpha.cc:42-65 | composes every sample; blends opacity instead when both rows are the alpha rows |
| Blending.PerformAlphaBlendingColor | libjxl/lib/jxl/alpha.cc:18-41 | composes three planes and their opacity |
| Blending.PerformAlphaWeightedAdd | libjxl/lib/jxl/alpha.cc:67-80 | adds the weighted layer; leaves the alpha channel as it was |
| Blending.PerformMulBlending | libjxl/lib/jxl/alpha.cc:82-93 | multiplies by the clamped layer |
| Blending.FindAlpha | libjxl/lib/jxl/blending.cc:47-54 | whether any extra channel is alpha |
| Blending.BlendExtras | libjxl/lib/jxl/blending.cc:57-113 | extra channels use the opacity from before the blending |
| Blending.BlendColors | libjxl/lib/jxl/blending.cc:114-184 | colour falls back to copy or add without alpha, and else writes its alpha channel too |
| Blending.PerformBlending | libjxl/lib/jxl/blending.cc:42-190 | each output pixel is the blend of the two input pixels from before the call, even when output and layer are the same rows |
| Layers.ReplacedPixel | libjxl/lib/jxl/blending.cc:178-180 | replacing shows the layer |
| Layers.PlanesTellPixels | libjxl/lib/jxl/blending.cc:42-56 | the planes of the decoder tell any two pixels apart, with the mask or without, so an exact replay is one of the pixels |
| Layers.AddedPixel | jxlpy/api.py:1264-1269 | adding the difference shows the new pixel, with all channels |
| Layers.MaskedPixel | libjxl/lib/jxl/blending.cc:57-73 | over an opaque mask the masked layer shows the new pixel and keeps the mask opaque; without alpha exactly if an unchanged pixel is black |
| Layers.EncodedFileFits | jxlpy/api.py:1432 | every layer fits the canvas and has all channels, the mask at the index that the header names |
| Layers.OutsideUnchanged | jxlpy/multiframe.py:47-59 | outside the box a frame equals its reference |
| Layers.SlotsFollow | libjxl/lib/jxl/frame_header.h:371-379 | the decoder's slots hold what the encoder's dictionary holds |
| Layers.SlotHoldsLast | libjxl/lib/jxl/frame_header.h:371-379 | a slot holds what the viewer saw with the last layer stored in it: one that is not the last of the file and names the slot, or, for slot 0, has no duration |
| Layers.SlotIsUnset | libjxl/lib/jxl/frame_header.h:371-379 | a slot is unset before the first such layer |
| Layers.AddedOverUnset | libjxl/lib/jxl/render_pipeline/stage_blending.cc:134-181 | a slot that was never set is blank: a layer added to it is shown as it is |
| Layers.FrameExact | jxlpy/api.py:1523-1629 | a frame is shown exactly if all its pixels are reproducible |
| Layers.ReplayIsExact | jxlpy/api.py:1523-1629 | the replay reproduces every frame and extra channel in every mode, if and only if blend_mask without alpha finds only black unchanged pixels in its rectangles |
| Layers.AlphaImageIsExact | jxlpy/api.py:1554-1583 | images of two or four channels are reproduced in every mode |
| Layers.NoUnsetSlotIsRead | libjxl/lib/jxl/render_pipeline/stage_blending.cc:134-181 | in every mode, no cropped or blended layer reads a slot that was never set |
| Layers.SlotsAreSet | libjxl/lib/jxl/frame_header.h:371-379 | the slots that the plan counts on are set, whether or not the replay is exact |
| Layers.EncodeFile | jxlpy/api.py:1523-1670 | from frames to a file that shows these frames |
| Layers.RepeatedFrame | libjxl/lib/jxl/blending.cc:163-165 | a repeated frame fails in blend_mask without alpha unless its first pixel is black |
| Layers.GrayPixelIsLost | libjxl/lib/jxl/blending.cc:163-165 | a concrete input on which blend_mask loses the image |
| Layers.NeedsBlending | libjxl/lib/jxl/blending.cc:23-40 | blending is skipped exactly for full-size frames that replace everything |
| Layers.SkippingIsSafe | libjxl/lib/jxl/blending.cc:36-38 | such a frame shows the same whatever the slots hold |
| TrackingMemory.AccountIsExact | libjxl/tools/tracking_memory_manager.cc:41-64 | a call is granted exactly if the total and the bytes in use stay within 64 bits and their caps; then all counts grow, without wrap-around; a refusal sets the flag, leaves the bytes in use alone, and sets the total to its cap exactly if it was the total that failed |
| TrackingMemory.TrackingMemoryManager.constructor | libjxl/tools/tracking_memory_manager.cc:21-31 | starts empty with the given caps |
| TrackingMemory.TrackingMemoryManager.AllocAccount | libjxl/tools/tracking_memory_manager.cc:41-64 | the object takes exactly the accounting step of the runs, for every size and state, and says whether it was granted |
| TrackingMemory.TrackingMemoryManager.AllocInsert | libjxl/tools/tracking_memory_manager.cc:65-68 | the object takes exactly the insertion step of the runs |
| TrackingMemory.TrackingMemoryManager.AllocRollback | libjxl/tools/tracking_memory_manager.cc:69-75 | the object takes exactly the rollback step: bytes and count go back, the running total does not |
| TrackingMemory.TrackingMemoryManager.FreeErase | libjxl/tools/tracking_memory_manager.cc:88-98 | the object takes exactly the erasing step, and finds the recorded size exactly for mapped addresses |
| TrackingMemory.TrackingMemoryManager.FreeDeaccount | libjxl/tools/tracking_memory_manager.cc:100-104 | the object takes exactly the de-accounting step of the runs |
| TrackingMemory.TrackingMemoryManager.Reset | libjxl/tools/tracking_memory_manager.cc:107-122 | clears the statistics exactly when nothing is counted or mapped |
| TrackingMemory.EnoughToTake | libjxl/tools/tracking_memory_manager.cc:100-104 | no subtraction ever wraps |
| TrackingMemory.ConservedKept | libjxl/tools/tracking_memory_manager.cc:33-105 | every step keeps bytes and allocations equal to the map plus what threads have in flight |
| TrackingMemory.SeparateKept | libjxl/tools/tracking_memory_manager.cc:33-105 | every step keeps addresses apart: with one client in the map, or with one thread |
| TrackingMemory.InsertIsFresh | libjxl/tools/tracking_memory_manager.cc:66-68 | an insertion never overwrites an entry |
| TrackingMemory.FreeFinds | libjxl/tools/tracking_memory_manager.cc:88-98 | a free of a held result finds its entry |
| TrackingMemory.BoundedKept | libjxl/tools/tracking_memory_manager.cc:41-64 | every step keeps the caps and the running maximum |
| TrackingMemory.CountedKept | libjxl/tools/tracking_memory_manager.cc:33-122 | every step keeps the statistics true to the log of calls: the flag is set exactly if a call since the last reset was refused or undone, the allocations are the grants, and the total is the bytes granted since the last refusal by the total |
| TrackingMemory.TotalIsKnown | libjxl/tools/tracking_memory_manager.cc:43-64 | in every such state the total is known: the cap if a call was refused by the total, and the grants since |
| TrackingMemory.TotalIsGranted | libjxl/tools/tracking_memory_manager.cc:43-64 | with no such refusal the total is the bytes granted since the last reset |
| TrackingMemory.RunInvariant | libjxl/tools/tracking_memory_manager.cc:33-122 | all of this after any run |
| TrackingMemory.ReachableInvariant | libjxl/tools/tracking_memory_manager.cc:33-122 | all of this in every reachable state, for all caps: counters, addresses, caps, running maximum and statistics |
| TrackingMemory.ResetWhenQuiet | libjxl/tools/tracking_memory_manager.cc:107-122 | with no call in progress a reset succeeds exactly when clients hold nothing |
| TrackingMemory.OutOfMemoryStays | libjxl/tools/tracking_memory_manager.cc:43-50 | after a total-cap failure every allocation of positive size fails until a reset, whatever is freed |
| TrackingMemory.TotalFailure | libjxl/tools/tracking_memory_manager.cc:43-56 | a total failure uses the total cap up exactly if there is one; without one, the next call is granted exactly when the bytes in use allow it |
| TrackingMemory.FailureForgotten | libjxl/tools/tracking_memory_manager.cc:41-64 | a run that gets there: one byte, then the largest size, then one byte more |
| GaussRow.ExpandCoefficients | libjxl/tools/gauss_blur.cc:490-522 | the twelve multipliers are those of the unrolled recurrence |
| GaussRow.VectorStepIs | libjxl/tools/gauss_blur.cc:128-158 | one vector step is four steps of the scalar recurrence |
| GaussRow.ScalarOutput | libjxl/tools/gauss_blur.cc:74-105 | a bounds-checked step continues the recurrence |
| GaussRow.VectorOutput | libjxl/tools/gauss_blur.cc:119-173 | an unrolled step reads in bounds and continues it by four |
| GaussRow.BoundsChecked | libjxl/tools/gauss_blur.cc:74-105 | the bounds-checked loop continues the recurrence and writes its outputs, from any start to any end |
| GaussRow.Unrolled | libjxl/tools/gauss_blur.cc:119-173 | the unrolled loop continues it up to the end of the row; it leaves the buffer exactly when one sample past the row is stored and there is no room |
| GaussRow.FastGaussian1D | libjxl/tools/gauss_blur.cc:46-207 | head, body and remainder write exactly the recurrence and keep all other samples; no store leaves the buffer, except at radius 0 from some sizes; the row is blurred if and only if the radius is positive, the row is empty, or column 0 already held 0 |
| GaussRow.BlurredAll | libjxl/tools/gauss_blur.cc:103-105 | which column radius 0 leaves out |
| GaussKernel.ShortResponse | libjxl/tools/gauss_blur.cc:488-493 | a filter whose response closes after 2 N steps, as its d1 makes it, is a weighted window of 2 N - 1 samples, with zeros outside the row |
| GaussKernel.BlurIsWindow | libjxl/tools/gauss_blur.h:48-51 | the blur of a sample is a weighted sum of the samples around it, with the weights of all three filters |
| GaussKernel.SymmetricWindow | libjxl/tools/gauss_blur.h:48-51 | the window is symmetric |
| GaussColumns.VerticalLane | libjxl/tools/gauss_blur.cc:280-297 | one lane of a block advances three filters in the masked ring |
| GaussColumns.StoreLane | libjxl/tools/gauss_blur.cc:280-297 | a lane is overwritten in one row of each filter, and nowhere else |
| GaussColumns.VerticalBlock | libjxl/tools/gauss_blur.cc:263-300 | the ring holds rows n and n - 1 of the recurrence afterwards |
| GaussColumns.WarmUp | libjxl/tools/gauss_blur.cc:334-342 | brings the ring to row -1 without writing output |
| GaussColumns.TopRows | libjxl/tools/gauss_blur.cc:344-350 | writes the rows above which there is no input |
| GaussColumns.InteriorRows | libjxl/tools/gauss_blur.cc:352-362 | writes interior rows; all rows read or prefetched exist |
| GaussColumns.BottomRows | libjxl/tools/gauss_blur.cc:364-372 | writes the rest |
| GaussColumns.VerticalStrip | libjxl/tools/gauss_blur.cc:303-373 | each output row is written exactly once with the recurrence on its columns, for every height and radius |
| GaussColumns.FastGaussianVertical | libjxl/tools/gauss_blur.cc:375-412 | the strips cover all columns; three lanes are the one vector size that is refused |
| GaussColumns.FastGaussianHorizontal | libjxl/tools/gauss_blur.cc:528-542 | every row is passed over, for every radius; no store leaves a row, exactly when there is room for the pass |
| GaussColumns.FastGaussian | libjxl/tools/gauss_blur.cc:546-555 | the two passes give the separable blur at each pixel, but for column 0 at radius 0, which is the column filter of what the temporary image held there |
| GainMap.BeRoundTrip | libjxl/lib/extras/gain_map.cc:122-139 | big-endian sizes are read back |
| GainMap.LayoutPlaces | libjxl/lib/extras/gain_map.cc:84-154 | where each part of a bundle lies, and the three sizes byte by byte |
| GainMap.GetBundleSize | libjxl/lib/extras/gain_map.cc:56-82 | is the length of what the writer produces |
| GainMap.BytesOfBits | libjxl/lib/extras/gain_map.cc:73-78 | the number of bytes is the least that holds the bits |
| GainMap.SizeFitsByte | libjxl/lib/extras/gain_map.cc:127-131 | a colour encoding can be written exactly if its size fits a byte |
| GainMap.PutSection | libjxl/lib/extras/gain_map.cc:109-116 | a section is written exactly when it fits the buffer |
| GainMap.WriteBundle | libjxl/lib/extras/gain_map.cc:84-154 | succeeds exactly for encodable colours on a buffer of exactly the bundle's size, which then holds the layout |
| GainMap.SplitOfLayout | libjxl/lib/extras/gain_map.cc:178-224 | the sizes make the layout unambiguous |
| GainMap.SplitIsLayout | libjxl/lib/extras/gain_map.cc:178-224 | what is split is the layout of its parts |
| GainMap.ReadHead | libjxl/lib/extras/gain_map.cc:164-186 | reads version and metadata exactly if they are there |
| GainMap.ReadColor | libjxl/lib/extras/gain_map.cc:188-208 | reads a colour encoding exactly if it is there and can be decoded |
| GainMap.ReadTail | libjxl/lib/extras/gain_map.cc:210-229 | reads profile and gain map exactly if they are there and the rest has a 32-bit size |
| GainMap.ReadBundle | libjxl/lib/extras/gain_map.cc:156-238 | reads the one bundle that the buffer stands for, if there is one, and consumes every byte |
| GainMap.StandsForOne | libjxl/lib/extras/gain_map.cc:156-238 | a buffer stands for at most one bundle |
| GainMap.WrittenIsRead | libjxl/lib/extras/gain_map.cc:84-238 | what was written stands for the bundle |
| GainMap.RoundTrip | libjxl/lib/extras/gain_map.cc:56-238 | size, write and read give the bundle back |
| BoxStream.JxlBoxContentDecoder.StartBox | libjxl/lib/jxl/box_content_decoder.cc:28-39 | a new box begins at position 0 |
| BoxStream.JxlBoxContentDecoder.Process | libjxl/lib/jxl/box_content_decoder.cc:41-123 | plain boxes: the next bytes in order, complete exactly at the end, more output wanted only with a full buffer; compressed boxes: a step of the library on the next compressed bytes |
| BoxStream.JxlBoxContentDecoder.CallBrotli | libjxl/lib/jxl/box_content_decoder.cc:73-104 | the answer of the library for every result, and an error when a box of known size ends before or after the compressed data |
| BoxStream.Stream | libjxl/lib/jxl/box_content_decoder.cc:28-123 | however a box is cut into windows and buffers, its contents come out once and in order; a box of known size is complete with its last byte, one until the end of the file whenever its window is used up |
| BoxStream.StreamCompressed | libjxl/lib/jxl/box_content_decoder.cc:57-104 | however a compressed box is cut, the library gets the bytes after the header once and in order, and what it produces is delivered; a box of known size is complete only with its last byte |
| BoxStream.JxlDecoder.ProcessInput | libjxl/lib/jxl/decode.cc:1679-1712 | on a complete file, fills the buffer of the current box, or moves on to the next one |
| BoxStream.JxlDecoder.SetBoxBuffer | libjxl/lib/jxl/decode.cc:2889-2904 | a buffer is accepted once for each box event |
| BoxStream.JxlDecoder.ReleaseBoxBuffer | libjxl/lib/jxl/decode.cc:2906-2921 | answers the room that was left |
| BoxStream.FillStep | libjxl/tools/jxltran.cc:164-175 | consecutive buffers join to a prefix of the contents |
| BoxStream.OnMoreOutput | libjxl/tools/jxltran.cc:164-175 | the chunk accounting puts the next buffer right after the last byte |
| BoxStream.OnComplete | libjxl/tools/jxltran.cc:176-190 | drops the unused room and the four index bytes; the erasure is in bounds exactly if they are there |
| BoxStream.PayloadIsRest | libjxl/tools/jxltran.cc:176-190 | a part has its index exactly if it is four bytes and then its payload; a codestream box is all payload |
| BoxStream.PayloadsJoin | libjxl/tools/jxltran.cc:140-206 | boxes one after the other have their payloads one after the other |
| BoxStream.PayloadsSize | libjxl/tools/jxltran.cc:176-190 | the codestream has all bytes of its boxes but four for each part |
| BoxStream.Extract | libjxl/tools/jxltran.cc:140-206 | the loop ends, without erasing past the end exactly if every jxlp box has its index, and then with exactly the jxlc and jxlp payloads in order, less four bytes for each jxlp box |

## Left out

- The JPEG XL encoder and decoder themselves, the Brotli library, colour management and file I/O: not part of this model; what is assumed of the decoder is listed above.
- `DecodeHistograms` and `GetPopulationCountPrecision`: any outcome is allowed instead; the contexts that select the histogram are not modelled.
- AnsCoding.WriteTokens: LZ77 and prefix codes are not modelled; the stream is a sequence of bits, which a file holds eight to a byte, low bit first.
- AnsAlias.InitAliasTable: weights are between 0 and the table size and entries at most 256 wide, which both callers guarantee (dec_ans.cc, lines 183 to 188 and 367; enc_ans.cc, lines 897 to 902); with negative weights or wider entries the 8-bit cutoff cannot hold what the loop computes, and nothing is claimed.
- TrackingMemory.TrackingMemoryManager.AllocAccount: the two counters of allocations are unbounded integers, because only the byte counters are compared with caps.
- `Free` of a null pointer: returns at once, no step of the model.
- GaussRow.FastGaussian1D: four-lane vectors only; IEEE rounding is not modelled, so float results are not claimed bit for bit; a store past the buffer stops the model.
- `CreateRecursiveGaussian` before its expansion loop: n2, d1 and the radius are parameters.
- GaussKernel.BlurIsWindow: that a response with d1 == -2 cos(k pi / 2 N) and odd k closes after 2 N steps is trigonometry, and a condition here; the shape of the window beyond its width and symmetry is not modelled.
- GaussColumns.VerticalStrip: image sizes are below 2 to the 63, and a row of the ring or of an image is a sequence inside an array.
- CoeffOrders.DecodeCoeffOrders: what the histograms and the final state of the entropy decoder say is a parameter.
- AcTiling.AcStrategyImage.SetNoBoundsCheck: rectangles lie on the image, as the source demands of its callers.
- AcTiling.CountBlocks: takes the image as a parameter instead of being a method of it.
- AcMetadata.DecodeStrategies: the quantization field, the colour maps and the sharpness plane that the same loop fills are not modelled; the rectangle lies on the image.
- AcContext.NonZeroContext: at most 256 block contexts, as they are bytes of the context map.
- FrameDiff.ChangedMask: an exception is one answer, whatever its type; a canvas is not assumed to have pixels.
- Multiframe.EncodeMultiframe: options, names of modes, layouts and buffers are left out; samples are reals in the decoder's scale, a full-scale mask is 1, and mask samples below the storage width (blend_mask8) are not modelled.
- Analyzer.AnalyzeFrameArrays: percentages are exact reals; the recommendation text is left out.
- Layers.ReplayIsExact: lossless payloads; colour transforms, and patches on top of layers, are not modelled.
- Blending.PerformBlending: rows of an unset slot share one blank row, as the source lays them out; other sharing between background rows is excluded.
- BoxStream.JxlBoxContentDecoder.Process: the Brotli library is a function of the calls made to an instance; that it decompresses is not modelled.
- BoxStream.JxlDecoder.ProcessInput: the whole file is given at once, as jxltran does; box headers are already parsed, and boxes are not decompressed.
- BoxStream.Extract: the erasure past the end stops the model; the warning about the level is not modelled.
- GainMap.RoundTrip: colour encodings go through an abstract codec that is assumed to round-trip; pointers in the public structure are views of the buffer, here slices.
- Image heuristics, metrics, tone mapping, command-line handling and packaging: thresholds, transcendental functions or glue, without a crisp property.
