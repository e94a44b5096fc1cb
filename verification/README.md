# XWebQL: a verified model

This project models seven parts of XWebQL, the web viewer for X-ray event files, and proves what they promise.
Check the project with `dafny verify dfyconfig.toml`.

**The bzip2 decoder** (`Bits` to `Encoder`). The decoder of `bzip2.js` is modelled method by method over the arrays and
counters it updates, and each method is proved to compute, for *every* input including malformed ones, a function of the
bytes and the bit position. Against these functions stand independent encoders: run-length code, Burrows-Wheeler
transform by sorting rotations, recency ranks with bijective base-2 run lengths, canonical Huffman codes, selectors,
symbol map and file framing. Symbols and selectors are written by counting what was used more recently, without the list
that the decoder moves (`Recency`, `SelectorRecency`). Whatever choices an encoder makes, decoding its bits gives back
the text and leaves the reader right behind the block *if and only if* the block fits the buffer (`BlockRoundTrip`), and
reading the file gives back all texts *if and only if* no block's text is loosely equal to -1 (`ArchiveRoundTrip`).
Every byte string has such a file (`EveryTextHasAnArchive`).

**Contours** (`Bresenham` to `Masking`, with `Walks` and `Tracing`). CONREC's case table is proved to draw, in every
triangle, exactly the zero set of the linear interpolant; its range tests to skip nothing for increasing levels; its
contours to have no loose ends inside the grid, for every level, and to close or to run from border to border where the
level meets no vertex; the line drawer to stop after exactly the right number of steps, within half a step of the true
line; and `apply_contour` to change only the pixels of those lines, all of them on the canvas.

**Condition variable and once** (`CondVar`, `Once`). The three semaphore operations are atomic steps of any number of
threads. A broadcast that finds n waiters returns after exactly 7n + 1 steps of any interleaving, having released
exactly those n, and a wait comes back holding the mutex.

**Mouse tracker** (`Kalman`), **down-sampling** (`Lttb`, `LttbHalf`, `TriangleAreas`), **video worker** (`VideoWorker`)
and **FITS table reader** (`Fits` to `FitsWriter`): whole-run semidefiniteness of the covariance, buckets that tile the
data, bytes conserved over every run of messages, and exactly when a table is read back value by value.

Findings about the code, each stated exactly:

- The tables of a prefix code decode every symbol if and only if no code has 20 bits and at most 255 symbols share a
  length, or all symbols are 256 of one length (`HuffmanExact.DecodesExactlyWhenTablesFit`). The index guard of line 188
  fires on some input if and only if 256 symbols share the shortest length, of 9 to 19 bits (`HuffmanCodes.IndexCheckFires`).
- A final run that would fill the buffer exactly is refused although it would fit (`Mtf.Flush`, `MtfRoundTrip.SymbolRoundTrip`).
- A run of exactly 32 RUNA and RUNB symbols vanishes: `runPos <<= 1` has become 0 and line 200 skips the run
  (`MtfRoundTrip.VanishingRun`). A symbol list the loop accepts is the encoding of its result if and only if no run has 32
  symbols or more (`MtfRoundTrip.AcceptedExactlyWhenShort`). The loop `while (t--)` is never entered with a negative `t`
  (`Mtf.Counting`), so the symbol loop ends on every input.
- The comment at line 5900 of `xwebql.js` says A and H take dt into account; only A does, and the proofs follow the code.
- Half-integer sample counts, which the caller of line 3450 can pass, make the last bucket run into the last point exactly
  when h is odd and at most n + 2, for h / 2 samples of n points (`Lttb.HalfThreshold`). Below 2 h - 6 points its range to
  average is empty, and the last turn repeats the sample before it, or leaves it undefined when h is 5; from there on it
  compares triangles with the origin (`LttbHalf.HalfSampleProperties`).
- Frames pending when a new video is initialised are not dropped: they begin its first chunk (`VideoWorker.EverySession`).
- Bytes are lost to the decoder if and only if a non-empty frame that makes a chunk comes while the decoder is closed
  (`VideoWorker.AllGiven`).
- PI columns are signed in the standard but read unsigned: a value is read back if and only if it is not negative
  (`FitsRoundTrip.PiReads`).
- The size of a column is read from the last character of its format. It is the width of the standard if and only if that
  character is a type code of the same size and the repeat count is not 0, or it is none and the count is 0
  (`FitsCards.TypeSizeIsWidth`). So the descriptor `1PE(100)` is taken for 0 bytes (`FitsCards.DescriptorSize`) and a
  column of repeat count 0 for one element. A table of the eleven types L, X, B, I, J, K, A, E, D, C and M without further
  characters is read if and only if every repeat count is at least 1 (`FitsNames.PlainTableReadBack`); one descriptor with
  an array and a largest size is enough that a table otherwise understood is not read (`FitsRoundTrip.DescriptorTableRead`).
- Of a column name the first word is read, up to a space. It is the name if and only if it has no space before or in it
  and no quote (but one at its end, before padding), and a space follows it or its closing quote (`FitsNames.TextIsRead`).
  `'X OFFSET'` is taken for X (`FitsNames.FirstWordTaken`) and displaces an earlier column X (`FitsNames.OffsetDisplaces`);
  `'X'/ comment` is read as `X'/` (`FitsNames.SlashTaken`).

Floating point is modelled by exact real numbers throughout. JavaScript numbers that the code shifts or masks are 32-bit,
with the wrap-around written out (`Bits.ToInt32`, `Huffman.Uint32`).

## Model

| member | source | states |
|---|---|---|
| Bits.BitReader.Bits | htdocs/xwebql/bzip2.js:34-51 | `bits(n)` returns the big-endian value of the next n bits for n up to 31, its 32-bit wrap beyond, and advances by exactly n |
| Bits.ValueSplit | htdocs/xwebql/bzip2.js:34-51 | reading a bits and then b bits is reading a + b bits: the values combine as high and low part |
| Bits.ReadBack | htdocs/xwebql/bzip2.js:34-51 | a number written big-endian in n bits, followed by anything, is what the next n bits read as |
| Bits.ReadPrefix | htdocs/xwebql/bzip2.js:34-51 | the first n bits of a longer written number are its high part |
| Bits.ExactUpTo31 | htdocs/xwebql/bzip2.js:38-48 | the shifting loop is exact up to 31 bits: no intermediate result wraps |
| Bits.PackedAt | htdocs/xwebql/bzip2.js:31-52 | every list of bits is what some bytes hold from the start |
| HuffmanBuild.ReadLengthArray | htdocs/xwebql/bzip2.js:125-134 | the array of code lengths holds what the unary steps spell, or the error at the first length outside 1 to 20 |
| HuffmanBuild.LengthsRoundTrip | htdocs/xwebql/bzip2.js:125-134 | code lengths written as steps from a start value are read back, and the reader stands right behind them |
| HuffmanBuild.Extremes | htdocs/xwebql/bzip2.js:135-140 | the loop finds the shortest and the longest code length |
| Huffman.Extremal | htdocs/xwebql/bzip2.js:135-140 | both are lengths that occur, and every length lies between them |
| HuffmanBuild.FillPermute | htdocs/xwebql/bzip2.js:150-153 | `permute` lists the symbols by length and, within a length, in order |
| Huffman.PermuteSorts | htdocs/xwebql/bzip2.js:150-153 | for every length vector `permute` is the stable sort of the symbols by (length, symbol), a permutation |
| Huffman.PlaceOrder | htdocs/xwebql/bzip2.js:150-153 | a symbol with a smaller (length, symbol) stands before another |
| HuffmanBuild.CountLengths | htdocs/xwebql/bzip2.js:155-155 | `temp` counts each length modulo 256 |
| HuffmanBuild.FillSlots | htdocs/xwebql/bzip2.js:156-164 | `limit` and `base` hold the last code of each length and the offset of its codes, as 32-bit values, through views that start at slot 1 and drop stores past slot 20 |
| HuffmanBuild.BuildTable | htdocs/xwebql/bzip2.js:142-164 | the built table is the table of the canonical code of the lengths, for every length vector |
| HuffmanDecode.ReadSymbol | htdocs/xwebql/bzip2.js:179-189 | the loop returns the symbol, error and bit position that the code table determines |
| HuffmanDecode.SymbolStops | htdocs/xwebql/bzip2.js:181-186 | the search stops at the first length whose limit the bits read so far do not exceed |
| HuffmanCodes.CodeFits | htdocs/xwebql/bzip2.js:151-164 | with a Kraft sum of at most 1 every canonical code is a number of its length |
| HuffmanCodes.NextCode | htdocs/xwebql/bzip2.js:151-164 | the code is the canonical one: in the order of length and number the first symbol has code 0, and each next one more, filled up with zeros to its length |
| HuffmanCodes.DecodeIffCode | htdocs/xwebql/bzip2.js:179-189 | for fitting counts, a symbol is decoded if and only if the input continues with its canonical code, and exactly its length is consumed |
| HuffmanCodes.DecodeSound | htdocs/xwebql/bzip2.js:179-189 | what is decoded has its code at the reading position |
| HuffmanCodes.DecodeComplete | htdocs/xwebql/bzip2.js:179-189 | the code of a symbol, whatever follows, decodes to that symbol |
| HuffmanCodes.PrefixFree | htdocs/xwebql/bzip2.js:179-189 | no two codes begin at the same place |
| HuffmanCodes.IndexCheckFires | htdocs/xwebql/bzip2.js:187-188 | the guard "moo" fires on some input if and only if 256 symbols share the shortest length, and that length is 9 to 19 |
| HuffmanCodes.IndexCheckNeedsWrap | htdocs/xwebql/bzip2.js:187-188 | for over-subscribed vectors too, an index out of range needs a wrapped count at the shortest length, which is 9 to 19 |
| HuffmanExact.DecodesExactlyWhenTablesFit | htdocs/xwebql/bzip2.js:124-189 | for a prefix code, every symbol decodes from its code wherever it stands if and only if no length is 20 and at most 255 symbols share a length, or all symbols are 256 of one length |
| HuffmanExact.FittingTablesDecode | htdocs/xwebql/bzip2.js:144-189 | the code of a symbol decodes whenever the tables fit |
| HuffmanExact.TwentyBitCodesAreLost | htdocs/xwebql/bzip2.js:148-186 | when at most 255 symbols share a length, a symbol with a 20-bit code is never decoded: slot 20 lies outside the view |
| Mtf.MoveKeepsOrder | htdocs/xwebql/bzip2.js:209-212 | moving to front keeps the first symTotal entries a permutation of 0 to symTotal - 1 |
| Mtf.StepKeepsOrder | htdocs/xwebql/bzip2.js:190-215 | so does every symbol of a block |
| Recency.StepKeepsRecency | htdocs/xwebql/bzip2.js:190-215 | after every symbol the list stands by recency: the bytes in the buffer by their last occurrence, then the others in ascending order |
| Recency.EncodeIsRecency | htdocs/xwebql/bzip2.js:209-212 | so the position of a byte is how many distinct bytes are ahead of it by recency, which the encoder can count without a list |
| Mtf.DigitsOfLength | htdocs/xwebql/bzip2.js:190-199 | every positive run length is the value of its digits 1 and 2 |
| Mtf.LengthOfDigits | htdocs/xwebql/bzip2.js:190-199 | every list of digits 1 and 2 is the digit list of its value, a positive number |
| Mtf.FoldRun | htdocs/xwebql/bzip2.js:190-206 | the RUNA/RUNB symbols of a run of up to 31 digits add up to its length |
| Mtf.NextDigit | htdocs/xwebql/bzip2.js:190-199 | every digit keeps the 32-bit weight and the length of a run in step: a negative weight comes only with a length of at least 2^31 - 1, so no run is copied with a negative length |
| Mtf.RunOf32Dropped | htdocs/xwebql/bzip2.js:190-206 | after 31 digits the next makes the weight 0: the run is dropped, with whatever length it has |
| MtfRoundTrip.SymbolRoundTrip | htdocs/xwebql/bzip2.js:171-216 | the symbols a moved list gives for a text decode to the text if and only if it fits the buffer by the tests of lines 202 and 208; otherwise to an error |
| Recency.RecencyRoundTrip | htdocs/xwebql/bzip2.js:171-216 | the same for symbols made of these counted positions and of runs, without any list that is moved |
| MtfRoundTrip.EncodedDecodes | htdocs/xwebql/bzip2.js:190-216 | the same from every state of the list, pending run and buffer |
| MtfRoundTrip.AcceptedIsEncoded | htdocs/xwebql/bzip2.js:190-216 | conversely every symbol list the loop accepts, with runs of at most 31 digits, is the encoding of its result |
| MtfRoundTrip.AcceptedExactlyWhenShort | htdocs/xwebql/bzip2.js:190-216 | an accepted symbol list is the encoding of its result if and only if none of its runs has 32 digits or more |
| MtfRoundTrip.VanishingRun | htdocs/xwebql/bzip2.js:194-206 | the failing input: 32 RUNA symbols and the end of block decode to nothing |
| Symbols.AppendRun | htdocs/xwebql/bzip2.js:204-205 | a run is appended to the buffer and added to the byte count |
| Symbols.Apply | htdocs/xwebql/bzip2.js:190-215 | one symbol updates list, buffer, counts and run state as the pure step says, in place; `byteCount[v]` stays the number of v in `buf` |
| Symbols.NextSymbol | htdocs/xwebql/bzip2.js:172-189 | symbol k is read with table `selectors[k / 50]`, or the error when the selectors run out |
| Symbols.DecodeSymbols | htdocs/xwebql/bzip2.js:166-216 | the symbol loop ends on every input, with the buffer, the counts and the position the symbols determine |
| SymbolsRoundTrip.WrittenSymbolsDecode | htdocs/xwebql/bzip2.js:171-216 | symbols written with usable codes are read back one by one up to the end of block |
| Fields.ReadMagic | htdocs/xwebql/bzip2.js:83-83 | the six magic bytes are read as their hexadecimal text |
| Fields.MagicNames | htdocs/xwebql/bzip2.js:83-85 | although the digits are not padded, the two texts compared name exactly the two magic byte sequences |
| Fields.ReadSymbolMap | htdocs/xwebql/bzip2.js:90-102 | the two-level map yields the used bytes in ascending order |
| MapRoundTrip.MapReadBack | htdocs/xwebql/bzip2.js:90-102 | the map of every ascending byte list is read back |
| Selectors.ReadSelectorArray | htdocs/xwebql/bzip2.js:108-118 | each selector is its unary number taken from the move-to-front list of tables, or the error of line 113 |
| Selectors.SelectorsReadBack | htdocs/xwebql/bzip2.js:108-118 | selectors written by their place in a moved list are read back |
| SelectorRecency.RanksReadBack | htdocs/xwebql/bzip2.js:108-118 | selectors written as the number of tables used more recently, or unused with a smaller number, are read back: no list is moved |
| Selectors.PastTheTables | htdocs/xwebql/bzip2.js:110-117 | as many ones as there are tables are read as selector 0 and put an undefined entry in front; one more is the error of line 113 |
| Selectors.SelectorsBelow | htdocs/xwebql/bzip2.js:108-118 | every selector read names a table, even when an undefined entry was met |
| Selectors.ReadTables | htdocs/xwebql/bzip2.js:120-165 | all tables are built in order |
| Selectors.TablesReadBack | htdocs/xwebql/bzip2.js:120-165 | written tables are read back as the canonical tables of their lengths |
| Bwt.SortPointers | htdocs/xwebql/bzip2.js:218-228 | the counting sort leaves in each slot its byte below and the stable-sort pointer above, for every buffer |
| Bwt.PlacePointer | htdocs/xwebql/bzip2.js:225-227 | one turn changes the upper 24 bits of one slot only |
| Bwt.Accumulate | htdocs/xwebql/bzip2.js:218-223 | the counts become the number of smaller bytes |
| Bwt.PointersSortStably | htdocs/xwebql/bzip2.js:218-228 | the pointers are a permutation that sorts the bytes stably, so every later index is inside the buffer |
| Bwt.RankOrder | htdocs/xwebql/bzip2.js:218-228 | ranks order positions by byte and then by position |
| Bwt.PointerTurnsLeft | htdocs/xwebql/bzip2.js:218-245 | for every text, periodic ones with equal rotations included, following a pointer turns a row of the sorted rotations left by one |
| Bwt.InverseTransform | htdocs/xwebql/bzip2.js:229-245 | the pointer walk from a row equal to the text visits the bytes of the text in order |
| Bwt.EveryTextHasATransform | htdocs/xwebql/bzip2.js:218-245 | every non-empty text has a last column and a row |
| Rle.RunLengthRoundTrip | htdocs/xwebql/bzip2.js:229-259 | from the start state, whatever byte `current` begins with, the automaton inverts every encoding of four equal bytes and a count 0 to 255 |
| Rle.EveryTextHasRuns | htdocs/xwebql/bzip2.js:229-259 | every text has such an encoding |
| Rle.ExpansionBound | htdocs/xwebql/bzip2.js:246-259 | five times the output never exceeds 259 times the input |
| Output.Emit | htdocs/xwebql/bzip2.js:254-257 | copies are appended until the length limit is reached |
| Output.NextSlot | htdocs/xwebql/bzip2.js:241-258 | one slot of the walk: position, byte and run state |
| Output.Unwind | htdocs/xwebql/bzip2.js:229-260 | walk and automaton together give the text of the block, cut at the length limit |
| Output.DecodedInverts | htdocs/xwebql/bzip2.js:229-260 | the transform of a run-length code decodes to the text |
| Decoder.ReadHeaderFields | htdocs/xwebql/bzip2.js:86-109 | CRC skipped, then origin, symbol map and group count with their error tests |
| Decoder.ReadCodingFields | htdocs/xwebql/bzip2.js:106-165 | selector count, selectors and tables |
| Decoder.FinishBlock | htdocs/xwebql/bzip2.js:217-260 | the origin test and the output |
| Decoder.DecompressBody | htdocs/xwebql/bzip2.js:86-260 | a block body gives the text or the error, and the position, that its bits determine |
| Decoder.Decompress | htdocs/xwebql/bzip2.js:75-261 | so does a block; the end mark is a result of its own |
| Decoder.LimitCuts | htdocs/xwebql/bzip2.js:239-256 | with a limit a block reads as without one, but of its text only that many first bytes are left |
| Refusals.OtherBlocksRefused | htdocs/xwebql/bzip2.js:83-85 | six bytes other than the two magic numbers are refused |
| Refusals.FieldsRefused | htdocs/xwebql/bzip2.js:86-109 | which error a set obsolete bit, an origin beyond the buffer, a number of tables other than 2 to 6 and no selectors give, tested in this order |
| Decoder.LoopFillsBuffer | htdocs/xwebql/bzip2.js:200-217 | a decoded block never holds more than the buffer |
| BlockRoundTrip.BlockRoundTrip | htdocs/xwebql/bzip2.js:75-261 | whatever blocks, codes, selectors and run splits an encoder chooses, its symbols and selectors counted by recency, `decompress` returns the text and stands right behind the block if and only if the block fits; otherwise an error |
| BlockRoundTrip.BodyRoundTrip | htdocs/xwebql/bzip2.js:86-261 | the same after the magic number |
| Archive.ReadFileHeader | htdocs/xwebql/bzip2.js:64-69 | the file header gives the block size 1 to 9 or its error |
| Refusals.FileAccepted | htdocs/xwebql/bzip2.js:64-69 | a file is taken if and only if its first four bytes are BZh and a digit 1 to 9, the block size |
| Refusals.OtherFilesRefused | htdocs/xwebql/bzip2.js:54-69 | any other file is refused with the error of line 66 or 68 |
| Archive.BlockAdvances | htdocs/xwebql/bzip2.js:54-62 | every block read ends further on and begins inside the input, so the block loop ends on every input |
| Archive.Simple | htdocs/xwebql/bzip2.js:54-62 | the loop returns the texts of all blocks up to the end mark or the first text loosely equal to -1 |
| ArchiveRoundTrip.ArchiveRoundTrip | htdocs/xwebql/bzip2.js:54-69 | `simple` returns the concatenation of all block texts, and stands behind the end mark, if and only if no text stops the loop |
| ArchiveRoundTrip.BlocksRead | htdocs/xwebql/bzip2.js:54-62 | in general it returns the texts before the first that stops it |
| Encoder.EveryTextHasABlock | htdocs/xwebql/bzip2.js:75-261 | every text below 80000 bytes has a block that fits |
| Encoder.EveryTextHasAnArchive | htdocs/xwebql/bzip2.js:54-69 | every byte string is the text of some file |
| Bresenham.SetPixel | WebAssembly/conrec.c:41-55 | a pixel on the canvas gets its four bytes; one off it changes nothing |
| Bresenham.PutPixelBytes | WebAssembly/conrec.c:41-55 | these are the bytes from 4 (y width + x) on, red, green, blue and alpha |
| Bresenham.DrawLine | WebAssembly/conrec.c:58-83 | the loop ends and leaves the canvas with every point of the line plotted in order |
| Bresenham.EndsAtCorner | WebAssembly/conrec.c:64-82 | the end point is reached after exactly max(dx, dy) steps and not before |
| Bresenham.StaysOnCourse | WebAssembly/conrec.c:72-81 | the longer direction moves at every step and `err` stays in a window of its size |
| Bresenham.ClosedForm | WebAssembly/conrec.c:64-82 | step k is at k in the longer direction and at the nearest whole number to the slope times k in the other, halves down: one formula for every point |
| Bresenham.ErrorBound | WebAssembly/conrec.c:72-81 | after a steps in x and b in y, twice the distance of b dx from a dy is at most max(dx, dy) |
| Bresenham.InsideBox | WebAssembly/conrec.c:64-82 | every point lies in the bounding box |
| Bresenham.Connected | WebAssembly/conrec.c:72-81 | neighbouring points touch and differ |
| Bresenham.AtEnd | WebAssembly/conrec.c:68-69 | the exit test holds at the last point only |
| Triangles.TableMeans | WebAssembly/conrec.c:209-214 | each of the 27 sign patterns gets its case: which vertices lie on the level and which sides cross it |
| Triangles.EndsAreZeros | WebAssembly/conrec.c:301-388 | both ends of every piece lie in the triangle, the interpolant equals the level there, and no section divides by zero |
| ApplyContour.CellVertices | WebAssembly/conrec.c:244-260 | the five vertices of a cell: corners anticlockwise, and a centre with the mean of their positions and heights |
| ApplyContour.EndPosition | WebAssembly/conrec.c:304-388 | the coordinates of an end are those of a zero of the interpolant in the triangle: the same weights applied to the positions of the vertices |
| Triangles.PieceIsZeroSet | WebAssembly/conrec.c:293-390 | unless the whole triangle lies on the level, the points where the interpolant equals the level are exactly those of the drawn piece; when none is drawn, at most one vertex |
| Triangles.DrawsExactly | WebAssembly/conrec.c:293-390 | what is drawn in a triangle is the zero set of the interpolant if and only if the triangle is not wholly on the level, where one side is drawn |
| Triangles.ZeroOnPiece | WebAssembly/conrec.c:304-388 | where on the piece each such point lies |
| Pruning.CellTestLossless | WebAssembly/conrec.c:219-230 | for increasing levels the two range tests of a cell drop no piece |
| Pruning.PruningLossless | WebAssembly/conrec.c:215-230 | nor does the whole scan, and the order is kept |
| Pruning.UnorderedLevelsLosePieces | WebAssembly/conrec.c:226-226 | for levels out of order pieces are lost: a concrete grid |
| Watertight.TriangleEnds | WebAssembly/conrec.c:209-390 | in every triangle, for every level, exactly the edges whose ends lie on opposite sides of the level are met inside, once each |
| Watertight.CellEnds | WebAssembly/conrec.c:293-401 | the number of pieces of a cell that end on an edge is the number of its triangles with that edge, if it changes sign |
| Watertight.SpokeMeetsTwo | WebAssembly/conrec.c:215-401 | over the whole scan, for every level, a sign-changing spoke is met by exactly two pieces of its level, any other by none |
| Watertight.FlatSideMeets | WebAssembly/conrec.c:215-401 | a sign-changing side along x by one piece per neighbouring cell: two inside, one on the border |
| Watertight.UprightSideMeets | WebAssembly/conrec.c:215-401 | the same along y |
| EndCounts.ScanEnds | WebAssembly/conrec.c:215-401 | the pieces of the whole scan that end at a place only the four cells at a grid point can reach are those of these cells |
| Watertight.CrossingGoesOn | WebAssembly/conrec.c:215-401 | where a piece crosses an edge exactly one more piece of its contour does, or the edge is on the border |
| Junctions.TriangleVertexEnds | WebAssembly/conrec.c:209-390 | a piece of a triangle ends at a vertex if and only if the vertex is on the level and the other two are not strictly on the same side of it, save the centre of a triangle wholly on the level |
| Junctions.CornerEnds | WebAssembly/conrec.c:215-401 | the pieces that end at an inner grid point are those of the eight triangles around it, one for each whose other two vertices are not strictly on the same side, if the point is on the level |
| Junctions.CentreEnds | WebAssembly/conrec.c:215-401 | the pieces that end at the centre of a cell are those of its four triangles |
| Junctions.CornerNotAlone | WebAssembly/conrec.c:215-401 | that number is never one |
| Junctions.NoLooseEnds | WebAssembly/conrec.c:215-401 | for every level and every end of every piece: on an edge exactly one more piece of the contour ends there, at a vertex at least one more, unless the place is on the border |
| Walks.ClosedOrOpen | WebAssembly/conrec.c:215-401 | a walk along a map that can be walked backwards comes back to its start if and only if it never stops, and stops in one direction if and only if in the other |
| Tracing.ContoursCloseOrCross | WebAssembly/conrec.c:215-401 | for a level that meets no vertex, following any piece to the only one that goes on either comes back to it, or ends on the border in both directions |
| Pieces.RowsOfGrid | WebAssembly/conrec.c:215-401 | every piece of the scan belongs to a triangle of a cell |
| Pieces.PieceDrawable | WebAssembly/conrec.c:326-388 | every piece has coordinates: no section divides by zero |
| ConrecScan.FillVertices | WebAssembly/conrec.c:232-260 | the work arrays hold height, sign and coordinates of the four corners and the centre |
| ConrecScan.TriangleLine | WebAssembly/conrec.c:304-388 | the switch yields the two ends of the piece of the triangle |
| ConrecScan.ScanTriangle | WebAssembly/conrec.c:293-400 | one triangle draws its piece |
| ConrecScan.ScanCell | WebAssembly/conrec.c:219-403 | one cell draws its pieces level by level, past both range tests |
| ConrecScan.DrawContours | WebAssembly/conrec.c:174-409 | `conrec` draws every piece of every contour, in order, and counts them |
| Pixels.OnlyLinesChange | WebAssembly/conrec.c:41-83 | after drawing, a pixel is black if it is on one of the lines and unchanged otherwise; no byte beyond the canvas changes |
| ApplyContour.SectionBetween | WebAssembly/conrec.c:6-7 | a section lies between the ends of its side |
| ApplyContour.RoundIsNearest | WebAssembly/conrec.c:399-399 | an end is drawn at the nearest whole coordinates, halves away from zero |
| ApplyContour.LitOnCanvas | WebAssembly/hevc_decoder.c:293-309 | every pixel of every contour passes the bounds test of `set_pixel` |
| ApplyContour.SharedEndSharedPixel | WebAssembly/conrec.c:399-399 | pieces that share an end, met from either side, share a pixel |
| ApplyContour.LevelsIncrease | WebAssembly/hevc_decoder.c:305-306 | the levels increase strictly, the first is above 0 and the last is 255 |
| ApplyContour.LevelsEven | WebAssembly/hevc_decoder.c:305-306 | they are evenly spaced: level k times nc is 255 (k + 1) |
| ApplyContour.CopyRow | WebAssembly/hevc_decoder.c:273-286 | the bytes of row h - 1 - i: in column j the luma if the mask is at least 128, and else 0 |
| Masking.HeightsInBytes | WebAssembly/hevc_decoder.c:273-286 | so the height at (i, j) is byte (h - 1 - i) stride + j of the luma where that of the mask is at least 128, and else 0 |
| ApplyContour.ApplyContour | WebAssembly/hevc_decoder.c:261-309 | null planes change nothing; otherwise the canvas is drawn with the contours of the image |
| ApplyContour.ContouredCanvas | WebAssembly/hevc_decoder.c:261-309 | for every image and nc > 0: exactly the pixels on contour lines turn black, all on the canvas, no other byte changes, and the scan skips nothing |
| Masking.MaskedImage | WebAssembly/hevc_decoder.c:261-309 | an image masked everywhere leaves the canvas as it was |
| Masking.LumaUnderMask | WebAssembly/hevc_decoder.c:261-309 | luma under a closed mask has no effect |
| CondVar.StepInv | WebAssembly/FFmpeg/compat/os2threads.h:148-182 | every step of every thread keeps the invariant: mutual exclusion, the waiter count, and at most one signal in flight |
| CondVar.Protocol | WebAssembly/FFmpeg/compat/os2threads.h:148-182 | in every run wait_count is the number of threads between increment and decrement, both semaphores are clear unless a signal awaits its answer, and no post meets a posted semaphore |
| CondVar.RunsGrow | WebAssembly/FFmpeg/compat/os2threads.h:148-182 | the runs these results speak of are all that grow step by step from any state |
| CondVar.WaitRun | WebAssembly/FFmpeg/compat/os2threads.h:166-182 | over every run, whatever the other threads do: from the moment it is counted a waiter gives up the mutex, takes one event, leaves the count, gives one answer and takes the free mutex, in this order and once each, and comes back holding it |
| CondVar.StepRank | WebAssembly/FFmpeg/compat/os2threads.h:148-182 | during a call every step of any thread brings its return exactly one step nearer |
| CondVar.Progress | WebAssembly/FFmpeg/compat/os2threads.h:148-182 | a call in progress is never stuck |
| CondVar.SignalReleasesOne | WebAssembly/FFmpeg/compat/os2threads.h:148-156 | a signal that finds a waiter returns after exactly six steps, having released exactly one and touched no other thread; one that finds none changes nothing |
| CondVar.BroadcastReleasesAll | WebAssembly/FFmpeg/compat/os2threads.h:158-164 | a broadcast that finds n waiters returns after exactly 7n + 1 steps, having released exactly those |
| Once.RunsOnce | WebAssembly/FFmpeg/compat/os2threads.h:184-204 | the routine starts at most once and has run to its end, once, before any caller returns; every run ends within 6n steps |
| Once.RunsGrow | WebAssembly/FFmpeg/compat/os2threads.h:184-204 | the runs are all that grow step by step from an initial state |
| Once.ReturnsAtOnce | WebAssembly/FFmpeg/compat/os2threads.h:186-187 | once done, a call returns in one step and never touches the mutex |
| Once.RunsEnd | WebAssembly/FFmpeg/compat/os2threads.h:184-204 | a run that can go no further has all callers returned and the routine run |
| Once.Progress | WebAssembly/FFmpeg/compat/os2threads.h:184-204 | nobody waits for ever |
| Kalman.Tracker.constructor | htdocs/xwebql/xwebql.js:5840-5886 | the filter starts with zero covariance at the mouse position |
| Kalman.Tracker.Reset | htdocs/xwebql/xwebql.js:5830-5838 | a reset moves the estimate and keeps the covariance |
| Kalman.Tracker.Update | htdocs/xwebql/xwebql.js:5888-5935 | the matrix products of an update are, for every state, the closed per-axis formulas; S is at least 100; nothing changes when dt is 0 |
| Kalman.RunSemidefinite | htdocs/xwebql/xwebql.js:5830-5936 | over every run of resets and updates the covariance recurrence stays positive semidefinite and S is at least 100; after an update the observed variance is below 100 |
| Kalman.Replay | htdocs/xwebql/xwebql.js:5830-5936 | a tracker driven through any list of calls ends with equal x and y blocks, no cross terms, and the covariance of that recurrence |
| Kalman.CovarianceSemidefinite | htdocs/xwebql/xwebql.js:5878-5883 | that shape is a symmetric positive semidefinite matrix |
| Kalman.PredictedSemidefinite | htdocs/xwebql/xwebql.js:5924-5924 | prediction keeps the covariance semidefinite for every dt |
| Kalman.PredictComposes | htdocs/xwebql/xwebql.js:5901-5923 | a prediction moves the position by dt times the velocity and keeps the velocity; two predictions are one over the sum of their times |
| Kalman.PropagationComposes | htdocs/xwebql/xwebql.js:5924-5924 | so are two covariance predictions, but for the noise added to the velocity |
| Kalman.CorrectedSemidefinite | htdocs/xwebql/xwebql.js:5932-5932 | so does correction |
| Kalman.InnovationDiagonal | htdocs/xwebql/xwebql.js:5927-5927 | S is diagonal with both position entries equal |
| Kalman.InnovationInverse | htdocs/xwebql/xwebql.js:5928-5928 | S has exactly one inverse |
| Kalman.GainShape | htdocs/xwebql/xwebql.js:5928-5928 | the measured-velocity columns of the gain are zero |
| Kalman.CorrectionVector | htdocs/xwebql/xwebql.js:5929-5931 | measured velocities do not reach the estimate |
| Kalman.ResidualShrinks | htdocs/xwebql/xwebql.js:5927-5931 | correction scales the position residual by exactly 100 / S, so it never grows and never changes sign |
| Kalman.CorrectedVariance | htdocs/xwebql/xwebql.js:5927-5932 | after correction the variance of the observed position is below that of the measurement |
| Lttb.BucketsTile | htdocs/xwebql/xwebql.js:3787-3821 | the buckets are not empty and each of the points 1 to n - 2 is in exactly one |
| Lttb.EvenBuckets | htdocs/xwebql/xwebql.js:3787-3821 | point r of n is in bucket i if and only if i (n - 2) < r (t - 2) <= (i + 1) (n - 2), and the points averaged for bucket i are those of the next such stretch |
| Lttb.AverageRange | htdocs/xwebql/xwebql.js:3800-3806 | the averaging range of every bucket is not empty and inside the data |
| Lttb.SampleProperties | htdocs/xwebql/xwebql.js:3795-3840 | first and last point are kept, each other sample makes the largest triangle in its bucket, indices increase strictly |
| Lttb.Average | htdocs/xwebql/xwebql.js:3798-3815 | the averaging loop yields the middle of the range and the mean of its data |
| TriangleAreas.AreaOverBase | htdocs/xwebql/xwebql.js:3827-3829 | what the loop maximises is half base times height over a horizontal base |
| TriangleAreas.AreaSheared | htdocs/xwebql/xwebql.js:3827-3829 | it does not change when a vertex moves along the opposite side |
| TriangleAreas.AreaMoved | htdocs/xwebql/xwebql.js:3827-3829 | nor when the triangle is moved |
| TriangleAreas.AreaPermuted | htdocs/xwebql/xwebql.js:3827-3829 | nor when its vertices change places |
| TriangleAreas.AreaZero | htdocs/xwebql/xwebql.js:3827-3829 | and is 0 if and only if the three points are on one line |
| Lttb.Search | htdocs/xwebql/xwebql.js:3817-3836 | the search finds the first point of the bucket with the largest triangle |
| Lttb.Downsample | htdocs/xwebql/xwebql.js:3771-3844 | few samples return the data, one or two the end points, more exactly the sample described above |
| Lttb.HalfThreshold | htdocs/xwebql/xwebql.js:3787-3819 | for h / 2 samples the last bucket stops before the last point if and only if h is even or above n + 2 |
| Lttb.WholeThreshold | htdocs/xwebql/xwebql.js:3787-3800 | for even h the half-sample offsets are those of the whole-number arithmetic |
| LttbHalf.HalfDownsample | htdocs/xwebql/xwebql.js:3771-3844 | for h / 2 samples, whole or not, the loops return the sample below, with missing points and means as in the source |
| LttbHalf.HalfBuckets | htdocs/xwebql/xwebql.js:3787-3821 | the same stretches for h / 2 samples, with 2 (n - 2) and h - 4 |
| LttbHalf.HalfSampleProperties | htdocs/xwebql/xwebql.js:3795-3840 | every sample lies in its own bucket, except that for odd h up to n + 2 the last turn repeats the sample before it (none for h = 5) below 2 h - 6 points, and else takes the largest triangle with the origin among all points from the start of its bucket |
| LttbHalf.EvenSample | htdocs/xwebql/xwebql.js:3771-3844 | for even h this is the sample of a whole number |
| VideoWorker.Demux | htdocs/xwebql/video_worker.js:16-36 | the two loops cut the buffer at the positions where the search stops |
| VideoWorker.DemuxCutsAtCodes | htdocs/xwebql/video_worker.js:16-36 | the pieces joined are the buffer; each after the first begins with 00 00 00 01, save a last one of at most three bytes; and they begin exactly at the start codes from position 100 on and where that last one may |
| VideoWorker.Worker.OnMessage | htdocs/xwebql/video_worker.js:44-152 | the handler updates timestamp, first and frame buffer and makes the chunks that the pure step says |
| VideoWorker.Merge | htdocs/xwebql/video_worker.js:125-132 | the merged buffer is the concatenation of the pending frames |
| VideoWorker.KeyByte | htdocs/xwebql/video_worker.js:13-13 | a frame 00 00 01 b or 00 00 00 01 b is a key frame if and only if b without its top bit is 0x26 to 0x29 |
| VideoWorker.KeyWithoutCode | htdocs/xwebql/video_worker.js:104-106 | a frame without a start code is judged by its first byte, and an empty one is no key frame |
| VideoWorker.ChunkKeys | htdocs/xwebql/video_worker.js:104-149 | so the first chunk waits for such a byte, and every later chunk is a key chunk exactly with one |
| VideoWorker.BytesConserved | htdocs/xwebql/video_worker.js:104-149 | over every run the bytes of all chunks followed by the pending ones are all bytes received, in order |
| VideoWorker.AllGiven | htdocs/xwebql/video_worker.js:88-149 | over every run the bytes of the chunks the decoder takes, followed by the pending ones, are all bytes received if and only if no non-empty frame makes a chunk while the decoder is closed |
| VideoWorker.TakenWhenOpen | htdocs/xwebql/video_worker.js:88-149 | after any run a frame makes at most one chunk, taken if and only if a decoder was opened and not closed since |
| VideoWorker.EverySession | htdocs/xwebql/video_worker.js:49-149 | between two inits timestamps are 0, 1, 2, ..., the first chunk is a key chunk made when the first key frame comes, and the bytes are those pending at the init followed by those received since |
| VideoWorker.FirstSession | htdocs/xwebql/video_worker.js:40-149 | the same from the start of the worker to the first init, with nothing pending at first |
| Fits.ScanTableHeader | C/sxs.c:107-185 | one block is a pass over its 36 cards up to END |
| Fits.BlocksAreCards | C/sxs.c:283-293 | scanning block by block equals one pass over all the cards up to END |
| Fits.GetColumnOffset | C/sxs.c:187-195 | the offset of a column is the sum of the sizes before it, up to the end of the row |
| Fits.ReadRows | C/sxs.c:349-377 | row i yields the bytes at its three offsets, X and Y signed, PI unsigned |
| Fits.ReadEvents | C/sxs.c:197-397 | the whole reader: its events, its failures, and where C leaves its arrays |
| FitsCards.NumberReads | C/sxs.c:15-19 | a number is read back behind any white space, with or without a plus sign and leading zeros, whatever follows that is not a digit |
| FitsCards.StringReads | C/sxs.c:21-33 | of a string value the first word is read, up to a space, and loses a quote at its end; without a space there is no value |
| FitsCards.WordSaid | C/sxs.c:21-33 | a string value is read as v if and only if it spells v: a quote, white space, v or v with a quote, and a space |
| FitsCards.TypeSizeIsWidth | C/sxs.c:35-96 | for every format of Table 18 of the FITS Standard 4.0, the repeat count written or not and any characters behind the code, the size read is the width of section 7.3 if and only if the last character is a code of the same size and the count is not 0, or is none and the count is 0 |
| FitsCards.DescriptorSize | C/sxs.c:35-96 | the failing input `1PE(100)`: 8 bytes are taken for 0 |
| FitsCards.CardScanned | C/sxs.c:107-185 | however a card is spelled, it is not END and the scan takes from it what it says to the reader |
| FitsTable.CardsTaken | C/sxs.c:107-185 | scanning any cards is taking in their statements one by one |
| FitsTable.StatedHolds | C/sxs.c:107-185 | what a card says and no later card takes back is what the scan holds at the end |
| FitsTable.PositionStated | C/sxs.c:134-157 | the reader takes column k for X, Y or PI if and only if the last card with that name is of column k |
| FitsTable.HeaderScanned | C/sxs.c:107-185 | the cards of a table, in any spelling and order and among any others, scan to its description with the sizes as they are read |
| FitsTable.ScanFindsEnd | C/sxs.c:283-296 | the scan stops in the block that holds END, so the data begins right behind it |
| FitsRoundTrip.CellsTile | C/sxs.c:301-343 | the column ranges follow one another and fill the row |
| FitsRoundTrip.CellInFile | C/sxs.c:353-358 | column p of row i of the file is the cell that was written |
| FitsRoundTrip.Int16Reads | C/sxs.c:357-358 | every signed 16-bit X and Y is read back |
| FitsRoundTrip.PiReads | C/sxs.c:362-365 | a 16-bit or 32-bit PI is read back if and only if it is not negative |
| Fits.OtherPiIsZero | C/sxs.c:366-370 | a PI column of any other width than 2 or 4 is read as 0 |
| FitsRoundTrip.TableRead | C/sxs.c:197-397 | what is read of any such table: no events unless the sizes as they are read add up to the row, and else the rows at the offsets of these sizes |
| FitsRoundTrip.ShortFileFails | C/sxs.c:320-325 | a file that ends before its last row is refused |
| FitsRoundTrip.OneSidedRead | C/sxs.c:197-397 | unless one column is taken for too narrow and another for too wide, the table is read back value by value if and only if all formats are understood; otherwise the reader fails |
| FitsRoundTrip.PlainTableRead | C/sxs.c:35-96 | for the eleven types without further characters that is if and only if every repeat count is at least 1 |
| FitsRoundTrip.DescriptorTableRead | C/sxs.c:35-96 | in a table otherwise understood, a descriptor of an array with its largest size makes the reader fail |
| FitsNames.LabelReads | C/sxs.c:21-33 | exactly what is read of a string value of the standard, with doubled quotes, padding and anything behind it |
| FitsNames.TextIsRead | C/sxs.c:21-33 | the text of a string value is read if and only if it is one word without doubled quotes and a space follows it or its closing quote |
| FitsNames.NameIsRead | C/sxs.c:134-157 | a string value is read as X, Y or PI if and only if its first word is that and a space follows the word or its closing quote |
| FitsNames.FirstWordTaken | C/sxs.c:134-157 | `'X OFFSET'` is read as X |
| FitsNames.SlashTaken | C/sxs.c:21-33 | `'X'/ comment` is read as `X'/` |
| FitsNames.FormatIsRead | C/sxs.c:160-179 | a format is read with what stands right behind its closing quote, as one of further characters |
| FitsNames.PositionsFound | C/sxs.c:134-157 | the columns called X, Y and PI are those the reader takes for them if and only if on their cards a space follows the name and no later name begins with it as a word |
| FitsNames.OffsetDisplaces | C/sxs.c:134-157 | a later column called X OFFSET displaces the column called X |
| FitsNames.TableReadBack | C/sxs.c:197-397 | every table of Table 18 with these columns among any others, its cards in any spelling and order among any others and the formats behind TFIELDS: when the names are found, it is read back value by value, all reads inside the file, if and only if all formats are understood, and the reader fails otherwise; left to TableRead are tables with one column taken for too narrow and another for too wide |
| FitsNames.PlainTableReadBack | C/sxs.c:197-397 | with different one-word names and the eleven types: if and only if every repeat count is at least 1 |
| FitsWriter.EveryTableHasAFile | C/sxs.c:107-185 | every table of Table 18 whose sizes and formats fit their cards has such a file, with its names found |

## Left out

- ArchiveRoundTrip.ArchiveRoundTrip: which strings JavaScript finds loosely equal to -1 is a parameter (`stops`), because string-to-number conversion is not modelled; the output is a sequence of bytes.
- Symbols.DecodeSymbols: the reader's position after an error is not specified.
- Selectors.ReadSelectorArray: after an undefined entry has entered the list of tables only the entries that can be read again are modelled.
- ConrecScan.DrawContours: rows of the matrix are sequences, not pointers; `line_count` is returned instead of printed, and the messages of `set_pixel` are left out. Canvas indices are unbounded integers.
- CondVar.Protocol: mutex and semaphores are atomic (a post on an auto-reset semaphore stays until one thread takes it), callers hold the mutex when waiting or signalling, and fewer than 2^32 threads wait.
- Once.RunsOnce: the routine itself does not call `pthread_once` on the same control.
- Kalman.Tracker.Update: the matrix library is not part of this model; its products are written out, and its inverse is any matrix that is one (there is exactly one).
- LttbHalf.HalfDownsample: `floor(i * every)` is exact, and a number of samples is half a whole number.
- VideoWorker.Worker.OnMessage: creating and closing the decoder is a message that opens or closes it; chunks made while none is open are recorded as not taken.
- Fits.ReadEvents: the file is a string of bytes in memory; `mmap`, `stat` and allocation failures are left out, sums of column sizes and parsed numbers do not overflow, numbers and strings are read within their card, and PI is not rounded to a float. Where the C code reads outside an array or an uninitialised size the outcome is `Undefined`.
- CRC fields of bzip2 are skipped, as the code skips them.
- `draw_line`, the colour maps and the buffer set-up of the video decoder: unused or pointwise.
- User interface, network code, decoding of HEVC and ZFP: not part of this model.
