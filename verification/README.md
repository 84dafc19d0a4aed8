# Verified models of the payment system

These modules model four parts of the payment system and prove what they are for.

**The QR symbol encoder** of the front end, which turns the payment address into a matrix of modules. The modules follow
the program: the field of 256 elements (`GaloisField`), polynomials and the Reed-Solomon encoder (`Polynomial`,
`ReedSolomon`, `ErrorCorrection`), shortest paths and the choice of modes (`Sorting`, `Dijkstra`, `QrMode`,
`Segmentation`, `SegmentGraph`, `Segments`, `ModeChoice`), the bit buffer and the writers (`Bits`, `Buffers`, `Writers`,
`Utf8`), version choice and padding (`VersionTables`, `DataStream`, `VersionCheck`, `TextVersions`), interleaving
(`Interleaving`), the matrix with its function patterns and the zig-zag (`Matrix`, `FunctionPatterns`, `Placement`,
`SymbolCapacity`, `PatternCount`), penalties and masks (`Penalties`, `Masking`), and the whole (`SymbolModules`,
`QrSymbol`). The main result, `QrSymbol.CreateSymbol`, is that a reader who undoes the mask, follows the zig-zag,
de-interleaves the codewords and decodes the segments gets the input text back, for every text without lone surrogates
that the requested version, or some version if none is requested, holds; on all others it fails. The standard is ISO/IEC
18004:2015.

**The payment protocol** (`PaymentTables`, `PaymentProtocol`, `PaymentSafety`, `PaymentHistory`, `PaymentOutcomes`,
`PaymentEntitlement`, `PaymentRequests`, `PaymentAlone`, `PaymentScenario`, `PaymentProgress`, `PaymentDatabase`). The
four tables are maps, every request being served is a program counter with local variables, and every database call is
one step; the final transaction is divided into its locking reads, its updates and its commit or rollback. Any number of
requests interleave with each other and with the rest of the business system, and any database call but a rollback may
throw. The main results are that every interleaving acts like transactions run in one piece, that committed payments are
one-to-one on order, account, session and request, that the paid rows add up, that a positive answer is sound, that a
refusal has changed nothing, and that no transactions wait for each other in a circle: under every schedule requests
make finitely many steps, and where none can step all are answered.

**The wire formats** (`Decimal`, `HttpText`, `Chunks`, `HttpWire`, `Base64`, `Jwt`): what the gateway prints the backend
reads, and the other way round, however the stream is cut into pieces unless a header comes within one piece of the size
cap; tokens are accepted exactly during their lifetime.

**The worker pool and the connection counter** (`WorkerPool`): tasks run once and in order, none is forgotten, and the
destructor returns only when all of them have run.

Where the code changes things step by step the model does too: tables, encoders, priority queue, bit buffer, matrix,
sockets and pool are classes, and the loops are loops, each tied by its contract to a function whose properties are
proved beside it. What a function computes is also stated without it: lemmas named `...Shown` say in numbers, or by the
literal tables of the standards, what its results are. `PaymentDatabase` gives the database calls, the final transaction
and the payment handler in that form, run without interruption; the promise about interleavings is proved for the same
transaction as a state machine, and `PaymentAlone` proves that the machine, undisturbed, is that handler.

What the model takes from the outside:

- The rest of the business system may close waiting sessions, cancel or expire pending orders, move accounts among the
  states other than sold, add orders and accounts, and change users, but never a row that is locked; it never undoes a
  payment and does not touch account versions. A commit applies all four updates or none, a rollback does not throw, and
  a single statement that throws has no effect.
- Whether a session found by its order has run out is a free choice of the model, and an expiry that changes many rows
  is many steps, one for each row.
- Keyed hashing and JSON are functions of the model: hashes are not empty, and parsing undoes dumping. The nonce and the
  clock are parameters.
- The fifteen format bits for each mask and the eighteen version bits are parameters of the drawing.
- The size tables are given per version in one function instead of three arrays. The quotients that the program computes
  in floating point (capacities, spacing of alignment patterns, share of dark modules) are exact or too far from an
  integer for rounding to matter, and are integer quotients here.

Where the code and its comments differ, the model follows the code:

- The optimised segments are said to give the shortest possible bit stream. The weights depend on counts that change
  while the graph is built, so only a shortest path of the graph as built is claimed.
- A requested version is compared with the smallest one that fits, and a larger one is taken to fit as well, although
  its count indicators may be wider. For texts this is true: `QrSymbol.TextVersionsHold`. For arrays of segments it is
  not: `QrSymbol.VersionCheckTooWeak` gives an array that fits version 9-L but not version 10-L. The data then overflows
  the buffer. Without a change of the widths in between the comparison is right for arrays as well:
  `VersionCheck.SameWidthsFit`. `DataStream.FillBuffer` shows the exact condition: the buffer is filled to its capacity
  if and only if the bits of the segments in that very version do not exceed it, which a caller can compute beforehand.
- The cap on headers is compared with all that has arrived, so whether a header close below the cap is accepted may
  depend on how the stream is cut: `Chunks.TakenOrNot`. `Chunks.AlwaysTaken`, `Chunks.NeverTaken` and
  `HttpWire.RequestIndependent` say exactly which streams are decided by their bytes alone.
- The last check of the transaction reads the buyer's profile without a lock, so a payment may commit although its buyer
  has just lost the right to pay: `PaymentScenario.ProfileMayChange`. `PaymentOutcomes.CommitWouldPass` says exactly
  when the transaction run in one piece at the commit agrees.
- An exception after the commit is answered like one before it: `PaymentScenario.ErrorAfterCommit`.
  `PaymentOutcomes.ServerErrorHasCommitted` says exactly when a request answered with a server error has paid: if and
  only if the exception came from the mark of success or the announcement, the two calls behind the commit.

## Model

| member | source | states |
|---|---|---|
| `GaloisField.Tables.constructor` | frontend/common/qrcode.bundle.js:794-816 | After the two loops, entry i of the power table is the i-th power of 2 for every i below 512, and the logarithm of every nonzero byte is an exponent below 255 that gives the byte back |
| `GaloisField.Tables.Log` | frontend/common/qrcode.bundle.js:824-827 | Fails exactly on 0; otherwise the result is the exponent, below 255, of its argument |
| `GaloisField.Tables.Mul` | frontend/common/qrcode.bundle.js:846-852 | The table lookup computes the product of the two bytes as polynomials modulo 0x11D, zero operands included |
| `GaloisField.EveryByteIsAPower` | frontend/common/qrcode.bundle.js:794-805 | 2 generates the multiplicative group: every nonzero byte is one of its first 255 powers |
| `GaloisField.ExpInjective` | frontend/common/qrcode.bundle.js:794-805 | The first 255 powers are all different |
| `GaloisField.ExpPeriod` | frontend/common/qrcode.bundle.js:807-813 | The powers repeat with period 255, which is what the doubled table relies on |
| `GaloisField.Distributive` | frontend/common/qrcode.bundle.js:846-852 | Multiplication distributes over exclusive or |
| `GaloisField.TimesExp` | frontend/common/qrcode.bundle.js:850-852 | The product of two powers is the power of the summed exponents |
| `GaloisField.Commutative` | frontend/common/qrcode.bundle.js:846-852 | Multiplication is commutative on all bytes |
| `GaloisField.Associative` | frontend/common/qrcode.bundle.js:846-852 | Multiplication is associative on all bytes |
| `GaloisField.NoZeroDivisor` | frontend/common/qrcode.bundle.js:846-852 | A product is zero only if a factor is |
| `Polynomial.Mul` | frontend/common/qrcode.bundle.js:1370-1380 | The nested loops leave the coefficients of the polynomial product in the buffer |
| `Polynomial.EvalProduct` | frontend/common/qrcode.bundle.js:1370-1380 | The value of a product at any point is the product of the values |
| `Polynomial.Mod` | frontend/common/qrcode.bundle.js:1389-1407 | For every monic divisor the loop ends with a remainder shorter than the divisor that differs from the dividend by a multiple of the divisor, at every point of the field |
| `Polynomial.GenerateECPolynomial` | frontend/common/qrcode.bundle.js:1415-1422 | The result is the generator polynomial of the degree |
| `Polynomial.GeneratorRoots` | frontend/common/qrcode.bundle.js:1415-1422 | The generator vanishes at the first `degree` powers of 2 |
| `Polynomial.GeneratorOnlyRoots` | frontend/common/qrcode.bundle.js:1415-1422 | The generator vanishes nowhere else |
| `Polynomial.GeneratorMonic` | frontend/common/qrcode.bundle.js:1415-1422 | The generator has leading coefficient 1 and `degree` + 1 coefficients |
| `Polynomial.TooManyRoots` | frontend/common/qrcode.bundle.js:1389-1407 | A polynomial with at least as many different roots as coefficients is zero |
| `ReedSolomon.Encoder.constructor` | frontend/common/qrcode.bundle.js:1924-1929 | A nonzero degree leaves the encoder initialised with the generator of that degree, degree 0 leaves it without one |
| `ReedSolomon.Encoder.Initialize` | frontend/common/qrcode.bundle.js:1937-1941 | The encoder holds the generator of the degree |
| `ReedSolomon.Encoder.Encode` | frontend/common/qrcode.bundle.js:1949-1975 | For every block, the empty one included, the result has exactly `degree` bytes and block plus result vanishes at the first `degree` powers of 2; fails exactly when not initialised |
| `ReedSolomon.RemainderIsErrorCorrection` | frontend/common/qrcode.bundle.js:1958-1974 | The left-padded remainder completes the data to a codeword |
| `ReedSolomon.ErrorCorrectionUnique` | frontend/common/qrcode.bundle.js:1949-1975 | No other bytes complete the data to a codeword |
| `ErrorCorrection.SparseCodewordIsZero` | frontend/common/qrcode.bundle.js:1949-1975 | A codeword of at most 255 bytes with no more than `degree` nonzero bytes is zero |
| `ErrorCorrection.MinimumDistance` | frontend/common/qrcode.bundle.js:1949-1975 | Different codewords differ in more than `degree` places |
| `ErrorCorrection.UniqueDecoding` | frontend/common/qrcode.bundle.js:1949-1975 | At most one codeword lies within half of `degree` errors of what was received |
| `Sorting.SortSorts` | frontend/common/qrcode.bundle.js:136-147 | Sorting by a key orders the elements and keeps them: the queue by cost, the matches by position |
| `Sorting.SortIsStable` | frontend/common/qrcode.bundle.js:136-147 | Elements with the same key keep their order |
| `Dijkstra.PriorityQueue.Push` | frontend/common/qrcode.bundle.js:143-147 | The queue stays sorted and gains exactly the new item |
| `Dijkstra.PriorityQueue.Pop` | frontend/common/qrcode.bundle.js:152-154 | Removes an item of least cost and nothing else |
| `Dijkstra.PopIsFinal` | frontend/common/qrcode.bundle.js:48-54 | When an item is popped, the known cost of its node is already least among what is still open |
| `Dijkstra.SingleSourceShortestPaths` | frontend/common/qrcode.bundle.js:26-95 | For every finite graph with non-negative weights the loop ends; it fails exactly when a wanted target is unreachable; otherwise the predecessors form a tree of shortest paths over exactly the reachable nodes |
| `Dijkstra.CostsAreLowerBounds` | frontend/common/qrcode.bundle.js:71-86 | No path is cheaper than the recorded cost of its end |
| `Dijkstra.CostsAreReached` | frontend/common/qrcode.bundle.js:71-86 | Every recorded cost is the cost of some path |
| `Dijkstra.ExtractShortestPath` | frontend/common/qrcode.bundle.js:97-108 | Following predecessors ends at the source without a cycle and gives a path of the recorded cost |
| `Dijkstra.FindPath` | frontend/common/qrcode.bundle.js:110-114 | The result is a path of minimum total weight, or an error exactly when there is none |
| `QrMode.BitsLengthSubadditive` | frontend/common/qrcode.bundle.js:1323-1325 | In every mode a run joined to another never takes more bits than the two apart, which is why the weight of staying in a mode is bounded |
| `QrMode.BitsLengthMonotone` | frontend/common/qrcode.bundle.js:1323-1325 | In every mode longer data never takes fewer bits, so edge weights are not negative |
| `Segmentation.GetSegments` | frontend/common/qrcode.bundle.js:2040-2054 | Repeated matching finds exactly the maximal runs of one character class, in order |
| `Segmentation.GetSegmentsFromString` | frontend/common/qrcode.bundle.js:2063-2090 | The three lists of matches sorted by position are the maximal runs of the whole text |
| `Segmentation.RunsJoin` | frontend/common/qrcode.bundle.js:2063-2090 | The runs join to the text |
| `Segmentation.RunsShown` | frontend/common/qrcode.bundle.js:2063-2090 | No run is empty, each holds characters of its own class only, and neighbours differ in class |
| `Segmentation.ClassShown` | frontend/common/qrcode.bundle.js:1990-1994 | Numeric class is the ten digits; alphanumeric class is the twenty-six capital letters and nine signs; everything else is byte class |
| `Segmentation.GetStringByteLength` | frontend/common/qrcode.bundle.js:2028-2030 | Fails exactly on a lone surrogate, otherwise counts the bytes of the UTF-8 form |
| `Segmentation.RunsWellFormed` | frontend/common/qrcode.bundle.js:2028-2030 | A text is free of lone surrogates exactly when each of its byte runs is: runs never part a surrogate pair |
| `SegmentGraph.BuildNodes` | frontend/common/qrcode.bundle.js:2148-2177 | Each run is offered in exactly its own mode and the modes with more characters, with its length; fails exactly when a byte run has a lone surrogate |
| `SegmentGraph.ChoicesCarry` | frontend/common/qrcode.bundle.js:2148-2177 | Every offered mode can carry the characters of the run |
| `SegmentGraph.ChoicesComplete` | frontend/common/qrcode.bundle.js:2148-2177 | The modes offered for a run are exactly those that can carry its characters, each once |
| `SegmentGraph.KeyInjective` | frontend/common/qrcode.bundle.js:2203 | Node names written as two numbers one after the other are never confused |
| `SegmentGraph.EdgeWeight` | frontend/common/qrcode.bundle.js:2213-2226 | Whatever was counted before, the weight is not negative, a change of mode costs the header and all bits of the run, and staying in a mode costs at most the bits of the run |
| `SegmentGraph.LinkNode` | frontend/common/qrcode.bundle.js:2206-2228 | Adds exactly the edges from the layer before to the node, each with the exact weight given by the count of the node it leaves, counts that node on, and changes no other edge or entry |
| `SegmentGraph.BuildGraph` | frontend/common/qrcode.bundle.js:2192-2235 | Edges lead from each layer to the next and all of them are there; each has exactly the weight that follows from the counts of the edges added before it, those to the end weigh nothing, and the table holds the node of every name |
| `SegmentGraph.NodeCounted` | frontend/common/qrcode.bundle.js:2212-2222 | The counts in the table are those computed from the groups, edge by edge |
| `SegmentGraph.CountedShown` | frontend/common/qrcode.bundle.js:2212-2222 | The count in closed form: the length of the node before, and of the one before that if the mode stayed |
| `SegmentGraph.PathLength` | frontend/common/qrcode.bundle.js:2192-2235 | Every path from start to end takes exactly one node of each layer |
| `SegmentGraph.EndIsReachable` | frontend/common/qrcode.bundle.js:2230-2232 | The end can always be reached |
| `Segments.MergeSegments` | frontend/common/qrcode.bundle.js:2119-2131 | No character changes its place or mode, and no two neighbours share a mode |
| `Segments.MergedIsUnique` | frontend/common/qrcode.bundle.js:2119-2131 | No other list of non-empty segments without equal neighbours gives the same characters the same modes |
| `Segments.BuildSingleSegment` | frontend/common/qrcode.bundle.js:2245-2276 | Throws exactly on a numeric or alphanumeric hint that cannot carry the data; without a hint the mode is the narrowest that carries the data; otherwise the segment can carry it, and the hint is honoured unless it is Kanji |
| `Segments.FromArray` | frontend/common/qrcode.bundle.js:2293-2303 | Throws exactly on an item with data whose hint cannot carry it; otherwise the segments join to the data of the items and each can carry its part |
| `Segments.Choose` | frontend/common/qrcode.bundle.js:2316-2323 | The modes are read off a shortest path of the graph with these weights |
| `Segments.FromString` | frontend/common/qrcode.bundle.js:2313-2326 | Fails exactly on a lone surrogate; otherwise the segments join to the text, no two neighbours share a mode, each can carry its characters, and the modes are those along a shortest path of the graph as built, whose weights are exact |
| `ModeChoice.ShortestIsCheapest` | frontend/common/qrcode.bundle.js:2316-2323 | The modes along a shortest path have the least sum of weights of all ways to choose one mode for each run |
| `ModeChoice.NoGain` | frontend/common/qrcode.bundle.js:2192-2235 | Exchanging the modes of a stretch of runs changes only their own weights and the next one, and gains nothing |
| `TextVersions.DigitsPay` | frontend/common/qrcode.bundle.js:2192-2235 | A chosen run of digits in numeric mode pays for its header, compared with the mode of either neighbour |
| `TextVersions.StretchPays` | frontend/common/qrcode.bundle.js:2192-2235 | A chosen stretch in alphanumeric mode between byte mode pays for both headers |
| `TextVersions.MergedRanges` | frontend/common/qrcode.bundle.js:2119-2131 | Each merged segment consists of a stretch of consecutive runs, and all stretches together are the list of runs |
| `TextVersions.ChosenIsEconomical` | frontend/common/qrcode.bundle.js:2313-2326 | In the segments of a text none would be cheaper in the mode of its neighbours |
| `Buffers.BitBuffer.PutBit` | frontend/common/qrcode.bundle.js:424-435 | Appends one bit, keeps the earlier ones, and leaves zero bits behind the end |
| `Buffers.BitBuffer.Put` | frontend/common/qrcode.bundle.js:414-418 | Appends the lowest bits of the number, most significant first |
| `Buffers.BitBuffer.Get` | frontend/common/qrcode.bundle.js:409-412 | Reads back the bit that was put |
| `Bits.NumberRoundTrip` | frontend/common/qrcode.bundle.js:414-418 | A number that fits its field is read back from its bits |
| `Bits.NumBitsAt` | frontend/common/qrcode.bundle.js:414-418 | Shifting right finds each bit of the number |
| `Bits.ByteShown` | frontend/common/qrcode.bundle.js:403-418 | In the stream each byte shows its bits from 0x80 down to 0x01 |
| `Writers.WriteNumeric` | frontend/common/qrcode.bundle.js:1335-1356 | Appends the groups of three, two or one digits as 10, 7 or 4 bits |
| `Writers.NumericRoundTrip` | frontend/common/qrcode.bundle.js:1323-1356 | The digits take exactly getBitsLength bits and are read back, for every length |
| `Writers.NumericShown` | frontend/common/qrcode.bundle.js:1335-1356 | Three digits stand as the number they spell in ten bits, two in seven, one in four |
| `Writers.IndexFound` | frontend/common/qrcode.bundle.js:352-357 | Exactly the forty-five alphanumeric characters have a place in the table, and the place gives the character back |
| `Writers.WriteAlphanumeric` | frontend/common/qrcode.bundle.js:376-396 | Appends pairs as 11 bits and a last single character as 6 |
| `Writers.AlphanumericRoundTrip` | frontend/common/qrcode.bundle.js:364-396 | The characters take exactly getBitsLength bits and are read back, for every length |
| `Writers.CharactersShown` | frontend/common/qrcode.bundle.js:352-357 | The values 0 to 44 are the digits, the capital letters and the nine signs in this order |
| `Writers.AlphanumericShown` | frontend/common/qrcode.bundle.js:376-396 | Two characters stand as forty-five times the first value plus the second in eleven bits, a last one in six |
| `Writers.WriteBytes` | frontend/common/qrcode.bundle.js:531-535 | Appends each byte as 8 bits |
| `Writers.BytesRoundTrip` | frontend/common/qrcode.bundle.js:519-535 | The bytes take exactly getBitsLength bits and are read back |
| `Utf8.RoundTrip` | frontend/common/qrcode.bundle.js:510-517 | The byte form of a text without lone surrogates is read back |
| `Utf8.EncodeSize` | frontend/common/qrcode.bundle.js:510-517 | The byte form has the length that getStringByteLength announced |
| `Utf8.UnitShown` | frontend/common/qrcode.bundle.js:510-517 | One to three bytes whose leading bits tell their number, and whose remaining bits spell the code point |
| `Utf8.PairShown` | frontend/common/qrcode.bundle.js:510-517 | A surrogate pair becomes four bytes that spell its code point |
| `VersionTables.TablesAgree` | frontend/common/qrcode.bundle.js:542-628 | In all 160 entries the error correction total is a multiple of the block count, each block gets 7 to 30 error correction bytes and stays below 255 bytes |
| `DataStream.StorableExact` | frontend/common/qrcode.bundle.js:2510-2527 | The capacity formulas are exact for every number of usable bits: n characters are within capacity if and only if their bits fit |
| `DataStream.CapacityExact` | frontend/common/qrcode.bundle.js:2493-2528 | One segment is within getCapacity if and only if header and data fit the data bits of the symbol |
| `DataStream.GetTotalBitsFromDataArray` | frontend/common/qrcode.bundle.js:2446-2455 | The sum of the headers and data of all segments |
| `DataStream.GetBestVersionForData` | frontend/common/qrcode.bundle.js:2539-2559 | The smallest version that holds the segments, none exactly when no version does; one segment, several and no segment alike |
| `DataStream.FillBuffer` | frontend/common/qrcode.bundle.js:1655-1707 | The bits of the segments, then terminator, zero bits and alternating pads; they fill the data capacity exactly if and only if the segments fit the version |
| `DataStream.Terminate` | frontend/common/qrcode.bundle.js:1687-1700 | Zero bits up to a byte, at least four of them when there is room |
| `DataStream.Pad` | frontend/common/qrcode.bundle.js:1687-1707 | Exactly the terminator, the zero bits and the pad codewords are appended |
| `DataStream.PaddingFills` | frontend/common/qrcode.bundle.js:1687-1707 | The padding ends exactly at the capacity if and only if the segments did not exceed it, with at least four zero bits when there was room |
| `DataStream.CountFits` | frontend/common/qrcode.bundle.js:1665-1673 | If a segment fits the symbol, its length fits the character count indicator |
| `DataStream.StreamRoundTrip` | frontend/common/qrcode.bundle.js:1655-1707 | A reader that follows mode indicators, counts and data, and stops at the terminator, gets back exactly the segments that were written |
| `DataStream.HeaderShown` | frontend/common/qrcode.bundle.js:1157-1231 | A segment begins with the bits 0001, 0010 or 0100 of its mode and a count of 10, 12 or 14, of 9, 11 or 13, or of 8 or 16 bits, changing at versions 10 and 27 |
| `DataStream.PaddingShown` | frontend/common/qrcode.bundle.js:1687-1707 | Bit by bit: zeros up to the computed byte boundary, then 11101100 and 00010001 in turn |
| `DataStream.ReadTakesBits` | frontend/common/qrcode.bundle.js:1655-1707 | Whatever a reader finds in some bits takes no more bits than there were |
| `VersionCheck.LargerVersionFits` | frontend/common/qrcode.bundle.js:1838-1846 | Economical segments that fit a version fit every larger one, for every level, although its count indicators may be wider |
| `VersionCheck.SameWidthsFit` | frontend/common/qrcode.bundle.js:1838-1846 | Any segments, economical or not, that fit a version fit every larger one whose count indicators have the same widths; the comparison can go wrong only across version 10 or 27 |
| `QrSymbol.TextVersionsHold` | frontend/common/qrcode.bundle.js:1838-1846 | Segments chosen for a version that fit a smaller one fit that version as well |
| `QrSymbol.CheckIsExact` | frontend/common/qrcode.bundle.js:1828-1846 | For texts the comparison of a requested version with the smallest fitting one succeeds exactly if the segments fit the requested version |
| `QrSymbol.VersionCheckTooWeak` | frontend/common/qrcode.bundle.js:1838-1846 | For arrays the comparison is not enough: from an array of forty-eight one-byte and forty-eight one-digit items come segments that fit version 9-L but not 10-L |
| `Interleaving.SizesAddUp` | frontend/common/qrcode.bundle.js:1734-1745 | When the error correction total is a multiple of the block count, the block sizes sum to the data size and every block gets the same number of error correction bytes |
| `Interleaving.CutBlocks` | frontend/common/qrcode.bundle.js:1750-1766 | The blocks join to the data and each has its error correction bytes |
| `Interleaving.CreateCodewords` | frontend/common/qrcode.bundle.js:1720-1791 | The write index ends exactly at the total, and the buffer holds the interleaved data blocks followed by the interleaved error correction blocks |
| `Interleaving.InterleaveRoundTrip` | frontend/common/qrcode.bundle.js:1774-1788 | De-interleaving recovers the blocks, whatever their sizes |
| `Interleaving.CodewordsReadable` | frontend/common/qrcode.bundle.js:1720-1791 | From the codewords of a symbol the data bytes are recovered in order |
| `Interleaving.CorrectionReadable` | frontend/common/qrcode.bundle.js:1783-1788 | So is every error correction block |
| `Interleaving.DataPlaces` | frontend/common/qrcode.bundle.js:1734-1780 | In numbers: codeword i times the number of blocks plus r is byte i of block r of the data, and the extra bytes of the longer last blocks come behind all others |
| `Interleaving.CorrectionPlaces` | frontend/common/qrcode.bundle.js:1783-1788 | Behind the data, byte i of error correction block r is codeword i times the number of blocks plus r |
| `Matrix.IndexInjective` | frontend/common/qrcode.bundle.js:465-469 | Different modules never share a place in the flat buffer |
| `Matrix.BitMatrix.constructor` | frontend/common/qrcode.bundle.js:446-454 | All modules light and unreserved |
| `Matrix.BitMatrix.Set` | frontend/common/qrcode.bundle.js:465-469 | Changes one module, and reserves it if asked |
| `Matrix.BitMatrix.Xor` | frontend/common/qrcode.bundle.js:490-492 | Inverts one module if the value is set |
| `Matrix.PutChangesOne` | frontend/common/qrcode.bundle.js:465-469 | A write to the flat buffer changes exactly the module at that row and column |
| `Placement.VisitsOnce` | frontend/common/qrcode.bundle.js:1607-1645 | The zig-zag visits every module outside column 6 exactly once and no other, for every odd size from 21 |
| `Placement.ZigZag` | frontend/common/qrcode.bundle.js:1607-1645 | In numbers: pairs of columns from the right without column 6, upwards and downwards in turn, of each row the right module before the left |
| `Placement.FirstBits` | frontend/common/qrcode.bundle.js:1607-1645 | While no module is reserved, the first bits fill the bottom right corner from the bottom row up, right before left |
| `Placement.SetupData` | frontend/common/qrcode.bundle.js:1607-1645 | Reading the unreserved modules back in visiting order gives the bits of the data and then zeros; reserved modules and column 6 are untouched |
| `FunctionPatterns.FinderShape` | frontend/common/qrcode.bundle.js:1485-1492 | The drawn condition is that of concentric rings: dark core, light ring, dark ring, light frame |
| `FunctionPatterns.SetupFinderPattern` | frontend/common/qrcode.bundle.js:1471-1496 | The three patterns with their frames are drawn and reserved, nothing else changes |
| `FunctionPatterns.SetupTimingPattern` | frontend/common/qrcode.bundle.js:1504-1512 | The two alternating lines are drawn and reserved, nothing else changes |
| `FunctionPatterns.ColumnSixReserved` | frontend/common/qrcode.bundle.js:1471-1512 | Finder and timing patterns together fill column 6 |
| `FunctionPatterns.GetRowColCoords` | frontend/common/qrcode.bundle.js:282-296 | The row of the version in Table E.1 of the standard; the coordinates start at 6, end at size minus 7, are even, at least 12 and at most 28 apart, and equally spaced but for the first gap |
| `FunctionPatterns.CoordinatesAreAnnexE` | frontend/common/qrcode.bundle.js:282-296 | Coordinates with the least even spacing that reaches, 26 in version 32, are the literal row of the table, so there is only one such list |
| `FunctionPatterns.GetPositions` | frontend/common/qrcode.bundle.js:319-338 | Exactly the pairs of coordinates other than the three finder corners |
| `FunctionPatterns.CentresApart` | frontend/common/qrcode.bundle.js:319-338 | No module belongs to two alignment patterns |
| `FunctionPatterns.AlignmentApart` | frontend/common/qrcode.bundle.js:1522-1540 | Alignment patterns lie inside the symbol, off the finder patterns and off the format information |
| `FunctionPatterns.AlignmentOnTiming` | frontend/common/qrcode.bundle.js:1522-1540 | Where an alignment pattern covers a timing line, both want the same module |
| `FunctionPatterns.SetupAlignmentPattern` | frontend/common/qrcode.bundle.js:1522-1540 | Every alignment pattern is drawn and reserved, nothing else changes |
| `FunctionPatterns.AlignmentsKeep` | frontend/common/qrcode.bundle.js:1522-1540 | Finder patterns, timing lines and the place of the format information survive the alignment patterns |
| `FunctionPatterns.SetupFormatInfo` | frontend/common/qrcode.bundle.js:1570-1600 | Every format bit is written to the same two modules whatever the bits are, and they are reserved |
| `FunctionPatterns.FormatReadable` | frontend/common/qrcode.bundle.js:1570-1600 | A reader that knows only the size finds all fifteen format bits in order at their places in column 8, and again in row 8, and the dark module |
| `FunctionPatterns.FormatPlaces` | frontend/common/qrcode.bundle.js:1570-1600 | Each format bit has exactly these two places, and they differ |
| `FunctionPatterns.SetupVersionInfo` | frontend/common/qrcode.bundle.js:1548-1561 | The eighteen bits go to two mirrored blocks |
| `SymbolCapacity.RoomForCodewords` | frontend/common/qrcode.bundle.js:2346-2362 | For each of the forty versions the modules left by the function patterns hold all codewords of the table, with fewer than eight to spare |
| `SymbolCapacity.PatternArea` | frontend/common/qrcode.bundle.js:1471-1600 | The area of the list of rectangles that make up the function patterns |
| `PatternCount.PatternsExact` | frontend/common/qrcode.bundle.js:1471-1600 | The rectangles cover exactly the modules of the function patterns |
| `PatternCount.RectanglesApart` | frontend/common/qrcode.bundle.js:1471-1600 | No two of the rectangles overlap |
| `PatternCount.PatternsCounted` | frontend/common/qrcode.bundle.js:1471-1600 | The function patterns of a version take exactly the computed number of modules |
| `SymbolCapacity.SymbolHoldsCodewords` | frontend/common/qrcode.bundle.js:1607-1645 | The zig-zag passes enough unreserved modules for every bit of every codeword |
| `Penalties.GetPenaltyN1` | frontend/common/qrcode.bundle.js:965-1002 | The running counters give the sum over all maximal runs of at least five modules of length minus two, in every row and column |
| `Penalties.RunAtEnd` | frontend/common/qrcode.bundle.js:981-998 | A run of another colour at the end of a line adds its length minus two if it has at least five modules, and nothing otherwise |
| `Penalties.LinesMirrored` | frontend/common/qrcode.bundle.js:965-1051 | Rows and columns count alike: mirroring the picture at its diagonal changes neither the first nor the third penalty |
| `Penalties.GetPenaltyN2` | frontend/common/qrcode.bundle.js:1009-1025 | Three points for each two by two block of one colour |
| `Penalties.GetPenaltyN3` | frontend/common/qrcode.bundle.js:1033-1051 | Forty points for each eleven-module window of a row or column that shows either finder-like pattern, and for nothing else |
| `Penalties.RegisterWindow` | frontend/common/qrcode.bundle.js:1042-1047 | The shift register equals one of the two constants exactly when the last eleven modules show the pattern |
| `SymbolModules.FinderScored` | frontend/common/qrcode.bundle.js:1042-1047 | The two patterns are the middle row of a finder pattern with four light modules before or behind it |
| `Penalties.GetPenaltyN4` | frontend/common/qrcode.bundle.js:1061-1070 | Ten points per five per cent step between the share of dark modules and one half |
| `Penalties.StepsShown` | frontend/common/qrcode.bundle.js:1061-1070 | The steps are the distance from ten of the share of dark modules in twentieths, rounded up |
| `Masking.ApplyMask` | frontend/common/qrcode.bundle.js:1101-1110 | Inverts exactly the unreserved modules that the tiles of the pattern mark |
| `Masking.MaskIsTiled` | frontend/common/qrcode.bundle.js:1080-1092 | The formula of each pattern draws the literal tile of the standard, for every module |
| `Masking.TilesShown` | frontend/common/qrcode.bundle.js:1080-1092 | Pattern 0 is a chessboard, 1 every second row, 2 every third column, 3 every third antidiagonal, 4 blocks of two by three in turn; all invert the top left module, and all but 4 repeat after six modules both ways |
| `Masking.MaskInvolution` | frontend/common/qrcode.bundle.js:1101-1110 | Masking twice changes nothing |
| `Masking.FormatOverwrites` | frontend/common/qrcode.bundle.js:1570-1600 | Writing format information again leaves no trace of the earlier bits |
| `Masking.MaskThenFormat` | frontend/common/qrcode.bundle.js:1868-1878 | Masking and writing format information into reserved modules commute |
| `Masking.GetBestMask` | frontend/common/qrcode.bundle.js:1118-1144 | The lowest-numbered pattern of least penalty; every unreserved module is left as it was |
| `SymbolModules.UnreservedVisitedOnce` | frontend/common/qrcode.bundle.js:1607-1645 | With the function patterns reserved, each unreserved module is visited exactly once |
| `SymbolModules.CreateModules` | frontend/common/qrcode.bundle.js:1848-1878 | In the finished symbol all function patterns of the version, the format information of the chosen mask and the version information are whole, and exactly their modules are reserved; unmasked and read along the zig-zag it gives the codewords; a mask not given is the lowest-numbered one and the finished symbol has exactly the least of the eight penalties; there is room for all codewords |
| `SymbolModules.FinishedWhole` | frontend/common/qrcode.bundle.js:1848-1878 | Placing data, masking and writing the format again leave every alignment pattern and both copies of the version information as drawn |
| `SymbolModules.FinderShown` | frontend/common/qrcode.bundle.js:1471-1496 | Three corners of the finished symbol show the literal finder pattern with its light frame |
| `SymbolModules.TimingShown` | frontend/common/qrcode.bundle.js:1504-1512 | Between them row 6 and column 6 alternate, dark at even places |
| `SymbolModules.AlignmentShown` | frontend/common/qrcode.bundle.js:1522-1540 | Around each pair of coordinates of the table, but three corners, the finished symbol shows the literal alignment pattern |
| `SymbolModules.FormatShown` | frontend/common/qrcode.bundle.js:1570-1600 | Every format bit stands at its two places in column 8 and row 8, given in numbers, and the dark module is dark |
| `SymbolModules.VersionShown` | frontend/common/qrcode.bundle.js:1548-1561 | From version 7 on, version bit i stands in row i / 3 and, mirrored, in column i / 3 |
| `SymbolModules.FirstCodewordShown` | frontend/common/qrcode.bundle.js:1607-1645 | The first codeword stands in the bottom right corner, most significant bit first, inverted where the pattern says so |
| `QrSymbol.CreateData` | frontend/common/qrcode.bundle.js:1655-1791 | De-interleaved, the codewords carry the padded stream of the segments, cut off at the data capacity; a reader of it gets the segments back if and only if they fit, and then they spell the same input |
| `QrSymbol.SymbolBitsRead` | frontend/common/qrcode.bundle.js:1655-1707 | What the symbol carries of the stream reads back as the segments if and only if they fit the version |
| `QrSymbol.EstimateVersion` | frontend/common/qrcode.bundle.js:1812-1822 | The smallest version that holds the runs of the text, each in its own mode; none exactly when no version does |
| `QrSymbol.BytesWellFormed` | frontend/common/qrcode.bundle.js:2119-2131 | Merging never parts a surrogate pair |
| `QrSymbol.Prepare` | frontend/common/qrcode.bundle.js:1802-1846 | Fails exactly on a lone surrogate and when the requested version, or every version if none was requested, cannot hold the segments, whose modes are chosen for the requested version, else for the smallest that holds the runs, else for 40; otherwise they spell the text and fit the version, which is the requested one or the smallest |
| `QrSymbol.CreateSymbol` | frontend/common/qrcode.bundle.js:1802-1887 | From text to modules and back: it succeeds exactly on a text without lone surrogates whose segments, with modes chosen for the version named under Prepare, the requested version, or some version, holds; and then the finished symbol has all its function patterns and, unmasked, read along the zig-zag, de-interleaved and decoded, spells the input text |
| `PaymentSafety.KnowledgeIsStable` | backend/common/mysql_pool.hpp:522-604 | What a transaction knows about its locked rows survives any step of others that respects the locks |
| `PaymentSafety.UpdatesAffectOne` | backend/common/mysql_pool.hpp:639-656 | Under the locks and checks each of the four updates affects exactly one row |
| `PaymentSafety.CommitIsSettle` | backend/common/mysql_pool.hpp:639-658 | At the commit the pending updates are those of the whole payment |
| `PaymentSafety.SettleConsistent` | backend/common/mysql_pool.hpp:639-658 | A payment made in one piece keeps the tables consistent |
| `PaymentSafety.StepKeepsExclusive` | backend/common/mysql_pool.hpp:522-604 | No row is ever locked by two transactions |
| `PaymentSafety.ActionKeepsInv` | backend/payment_impl.hpp:536-646 | Every action of any client or of the outside keeps the whole invariant |
| `PaymentSafety.RunKeepsInv` | backend/common/mysql_pool.hpp:605-619 | In every reachable state a successful attempt has a paid session, whose order is paid and whose account is sold, and every client's knowledge holds |
| `PaymentHistory.CommitIsNew` | backend/common/mysql_pool.hpp:546-595 | Rows that pass the checks belong to no earlier committed payment |
| `PaymentHistory.RunOneToOne` | backend/common/mysql_pool.hpp:567-658 | Over every run committed payments differ pairwise in order, account, session and request, and all of them stay fulfilled |
| `PaymentHistory.RunAnnouncesOnce` | backend/payment_impl.hpp:629-645 | Over every run each session is announced to the gateway at most once, and only when paid |
| `PaymentHistory.PaidAnswersAreSound` | backend/payment_impl.hpp:561-564 | Whoever is told that payment succeeded has a paid session, a paid order and a sold account |
| `PaymentHistory.DeadBranches` | backend/common/mysql_pool.hpp:606-609 | The shortcut for an attempt that already succeeded and the branch for an unexpected number of affected rows are never reached |
| `PaymentHistory.SettleCounts` | backend/common/mysql_pool.hpp:639-649 | One payment moves one order, one account and one session and raises the versions by one |
| `PaymentHistory.RunConserves` | backend/common/mysql_pool.hpp:639-658 | Over every run the number of commits equals the growth of paid orders, of sold accounts, of paid sessions and of account versions |
| `PaymentHistory.ActionIsAtomic` | backend/common/mysql_pool.hpp:515-665 | Every step changes the tables either not at all or like one whole finalize, insert, mark or outside change |
| `PaymentOutcomes.AuthWasRead` | backend/common/mysql_pool.hpp:621-637 | In every run a client that updates or commits has read its buyer's profile at an earlier moment of the same transaction, and has kept it |
| `PaymentOutcomes.RunIsAtomic` | backend/common/mysql_pool.hpp:515-665 | Every interleaving has the effect of running each finalize in one piece at its commit, in the order of the commits, with the profile of the buyer as it was at an earlier moment of the same transaction |
| `PaymentOutcomes.CommitsAreFinalizes` | backend/common/mysql_pool.hpp:515-665 | Over every run the tables after a commit are those of the whole finalize on the tables at the commit, with the profile read earlier in the same transaction |
| `PaymentOutcomes.CommitWouldPass` | backend/common/mysql_pool.hpp:621-658 | With the profile as it is at the commit, the finalize run in one piece there commits if and only if that profile may pay, and then with the same effect; otherwise it is refused for the profile |
| `PaymentOutcomes.FullyAtomic` | backend/common/mysql_pool.hpp:515-665 | If no profile changes between the read of the profile and the commit, the commit acts exactly like the whole finalize run at that moment |
| `PaymentEntitlement.CommitsAreEntitled` | backend/common/mysql_pool.hpp:546-649 | Over every run, before a commit the account is on sale or in trade, the order pending, the session waiting and the attempt processing, all bound to each other, and the profile read had all four marks; afterwards exactly these rows have moved, in full |
| `PaymentEntitlement.SoldFromSale` | backend/common/mysql_pool.hpp:590-594 | Over every run an account becomes sold only by the commit of a payment for it, from sale or trade |
| `PaymentEntitlement.FinalizeCommitsExactly` | backend/common/mysql_pool.hpp:522-658 | The transaction run in one piece commits exactly if the four rows and the profile have these values, and leaves exactly these rows |
| `PaymentEntitlement.RefusalMarks` | backend/common/mysql_pool.hpp:528-594 | Each mark about session, order or account is left exactly in its case |
| `PaymentEntitlement.LaterRefusalMarks` | backend/common/mysql_pool.hpp:597-637 | With session, order and account in place, each outcome about the attempt or the profile comes exactly in its case |
| `PaymentScenario.ProfileMayChange` | backend/common/mysql_pool.hpp:621-637 | A reachable state in which a payment is about to commit although its buyer may no longer pay: the profile is read without a lock |
| `PaymentHistory.RefusalIsAtomic` | backend/common/mysql_pool.hpp:528-637 | The transaction turns to its rollback exactly when the check of this step fails, and the finalize run in one piece at that moment would be refused with the same mark |
| `PaymentOutcomes.RefusedChangedNothing` | backend/common/mysql_pool.hpp:528-665 | Over every run a request that was refused, or ended in a server error that does not come from the two calls behind the commit, never changed a session, an order or an account and never committed |
| `PaymentOutcomes.CommittedIsAnswered` | backend/payment_impl.hpp:622-645 | Over every run a request that has committed can only be answered that it was paid, or with a server error |
| `PaymentOutcomes.ServerErrorHasCommitted` | backend/payment_impl.hpp:629-645 | Over every run a request answered with a server error has committed its payment if and only if the exception came from one of the two calls behind the commit, the mark of success or the announcement |
| `PaymentScenario.ErrorAfterCommit` | backend/payment_impl.hpp:629-645 | A request answered with a server error may have paid: a reachable state in which its payment has committed |
| `PaymentRequests.NewAttemptsAreBound` | backend/payment_impl.hpp:477-534 | Over every run a new attempt names the session of the token and repeats its order, account and buyer; a taken identifier is a server error |
| `PaymentRequests.NewSessionsAreBound` | backend/payment_impl.hpp:292-432 | Over every run a new session is for an order of the user who confirms and for the account of that order, and no other session has that order |
| `PaymentRequests.AttemptInitDecides` | backend/payment_impl.hpp:477-534 | Each refusal code, and the inserted row, in exactly its case |
| `PaymentRequests.ConfirmDecides` | backend/payment_impl.hpp:292-345 | Each refusal code of the first checks in exactly its case |
| `PaymentProgress.WaitingRises` | backend/common/mysql_pool.hpp:522-599 | A client that waits for another wants a row of a later table than the other wants |
| `PaymentProgress.NoCycle` | backend/common/mysql_pool.hpp:522-604 | The waits-for relation has no cycle in any reachable state |
| `PaymentProgress.SomeoneCanStep` | backend/common/mysql_pool.hpp:522-604 | While any request is unfinished, some client can step |
| `PaymentProgress.StepFinishes` | backend/payment_impl.hpp:536-646 | Every step brings its client nearer to an answer |
| `PaymentProgress.EveryoneCanBeAnswered` | backend/payment_impl.hpp:536-646 | From every reachable state all open requests can be brought to an answer |
| `PaymentProgress.NoEndlessRun` | backend/payment_impl.hpp:536-646 | Under every schedule the open requests make only so many steps, whatever happens in between |
| `PaymentProgress.StuckIsAnswered` | backend/payment_impl.hpp:536-646 | Where no request can step any more, all have been answered |
| `PaymentDatabase.Database.UpdatePaymentAttemptResult` | backend/common/mysql_pool.hpp:494-501 | Overwrites the result of an existing attempt, whatever it was, and nothing else |
| `PaymentDatabase.Database.CreatePaymentSession` | backend/common/mysql_pool.hpp:444-460 | Fails exactly on a lifetime that is not positive or a session name or order already present, and then changes nothing; otherwise adds exactly the session |
| `PaymentDatabase.Database.CreatePaymentAttemptProcessing` | backend/common/mysql_pool.hpp:477-490 | Fails exactly on a request already present; otherwise adds exactly one attempt in progress |
| `PaymentDatabase.Database.ExpireTimeoutPaymentSessions` | backend/common/mysql_pool.hpp:505-512 | Expires exactly the waiting sessions that are due and keeps the tables consistent |
| `PaymentDatabase.ExpiryKeepsConsistent` | backend/common/mysql_pool.hpp:505-512 | Expiry of any set of sessions touches no paid one and keeps the tables consistent |
| `PaymentDatabase.Database.SettleRows` | backend/common/mysql_pool.hpp:639-656 | The four updates succeed exactly if each finds its row waiting, and then settle all four; otherwise only the attempt is marked as failed |
| `PaymentDatabase.Database.FinalizePaymentSuccess` | backend/common/mysql_pool.hpp:515-665 | The reads, updates, rollbacks and marks done in place leave exactly the tables of the one-piece finalize that the interleavings are proved to agree with, and the answer is true unless that finalize refuses |
| `PaymentDatabase.HandlerFinalizes` | backend/payment_impl.hpp:566-646 | After the checks of the handler the transaction commits exactly if everything a payment needs holds, and otherwise leaves sessions, orders and accounts alone |
| `PaymentDatabase.Database.HandlePay` | backend/payment_impl.hpp:536-646 | Each refusal code and mark comes exactly in its case; success is answered exactly if the attempt had succeeded or everything a payment needs holds, it is announced exactly in the second case, the tables then are those of the settled payment, and otherwise sessions, orders and accounts stay; no other attempt changes and a refused attempt in progress has failed |
| `PaymentAlone.AloneIsHandled` | backend/payment_impl.hpp:536-646 | The protocol, taken step by step without disturbance, gives the same answer, tables and announcement as the handler run in one piece, for every request |
| `PaymentAlone.TransactionAlone` | backend/common/mysql_pool.hpp:515-665 | The steps of the transaction, undisturbed, are the whole finalize |
| `HttpText.FindBlank` | backend/main.cpp:66 | The first empty line of a printed message is the one behind its header, even if the body contains others |
| `HttpText.FindPrefix` | backend/main.cpp:57-66 | A text that is still arriving shows the empty line exactly when it has fully arrived, at the final place |
| `HttpText.LinesBack` | backend/main.cpp:67-74 | Reading line by line gives the printed lines back |
| `HttpText.StoulDigits` | backend/main.cpp:107 | Decimal digits up to the largest unsigned 64-bit number are read back |
| `HttpWire.SendAll` | gateway/common/http_forwarder.hpp:72-82 | Succeeds exactly if the connection has room for all the data before a write fails or takes nothing, and otherwise what there is room for has arrived |
| `HttpWire.ReadHeader` | backend/main.cpp:57-64 | Succeeds exactly if the stream has an empty line and the first piece that reaches behind it ends within the cap; the header then ends at the same place for every chunking |
| `Chunks.AlwaysTaken` | backend/main.cpp:57-65 | Every way to cut a stream is accepted if and only if it has an empty line and the smaller of its length and the end of the header plus 4095 is within the cap |
| `Chunks.NeverTaken` | backend/main.cpp:57-65 | Every way to cut a stream is refused if and only if it has no empty line or the header alone exceeds the cap |
| `Chunks.TakenOrNot` | backend/main.cpp:57-65 | For every stream in between, one way to cut it that is accepted and one that is refused |
| `HttpWire.ReadBody` | backend/main.cpp:118-128 | The announced number of bytes, or failure exactly when the stream ends before |
| `HttpWire.ReadHttpRequest` | backend/main.cpp:54-130 | The result is the meaning of the bytes if the header is accepted, as ReadHeader says exactly, and a refusal if not |
| `HttpWire.RequestIndependent` | backend/main.cpp:54-130 | The result does not depend on how the bytes are cut if and only if the request is refused anyway or its header is not within one piece of the cap; then it is the meaning of the bytes, or a refusal if the header exceeds the cap |
| `HttpWire.PrintRequest` | gateway/common/http_forwarder.hpp:170-206 | The printed text is the request line, the wanted header fields in order, an empty line and the body |
| `HttpWire.RequestTextShown` | gateway/common/http_forwarder.hpp:170-206 | The printed text written out: line, header lines in order with their conditions and defaults, empty line, body |
| `HttpWire.FieldsBack` | backend/main.cpp:91-109 | Printed header fields are read back in order, a later field of the same name winning |
| `HttpWire.RequestArrives` | gateway/common/http_forwarder.hpp:170-206 | Parsing what the gateway prints gives back method, path, query, headers, user and body |
| `HttpWire.RequestReceived` | gateway/common/http_forwarder.hpp:170-206 | However the printed request is cut into pieces, reading it gives the request that was sent, if and only if no piece that ends the header can reach beyond the cap; a request within the cap always arrives |
| `HttpWire.HeadersArrive` | gateway/common/http_forwarder.hpp:171-203 | Each header reaches the backend exactly under its condition and with its value |
| `HttpWire.ReadHttpResponse` | gateway/common/http_forwarder.hpp:86-158 | The result is the meaning of the bytes if the header is accepted, as ReadHeader says exactly, and a refusal if not |
| `HttpWire.ResponseIndependent` | gateway/common/http_forwarder.hpp:86-158 | Responses do not depend on how the bytes are cut under the same condition, with the larger cap |
| `HttpWire.WriteHttpResponse` | backend/main.cpp:133-146 | The printed text is the status line, the fixed and extra fields, an empty line and the body |
| `HttpWire.ResponseTextShown` | backend/main.cpp:133-146 | The printed text written out |
| `HttpWire.ResponseArrives` | backend/main.cpp:133-146 | Parsing what the backend prints gives back status, body and the list of cookies |
| `HttpWire.ResponseReceived` | backend/main.cpp:133-146 | However the printed response is cut into pieces, reading it gives status, body and cookies back, under the same condition with the larger cap |
| `Base64.Base64Encode` | gateway/common/ws_registry.hpp:80-95 | The loop over groups of three bytes gives the base64 text, with pads for missing bytes |
| `Base64.DecodeEncoded` | gateway/common/ws_registry.hpp:80-95 | Decoding base64 text gives the bytes back, with one zero byte for each pad |
| `Base64.Base64UrlEncode` | backend/common/jwt.hpp:453-474 | The in-place edits give the URL-safe form without pads |
| `Base64.Base64UrlDecode` | backend/common/jwt.hpp:478-504 | The in-place edits restore symbols and pads and cut the zero bytes off |
| `Base64.PadsRestored` | backend/common/jwt.hpp:453-486 | Stripping and restoring the pads is lossless |
| `Base64.UrlRoundTrip` | backend/common/jwt.hpp:453-504 | For every string of bytes decoding undoes encoding |
| `Base64.UrlInjective` | backend/common/jwt.hpp:453-474 | Different bytes have different encodings |
| `Base64.UrlAlphabet` | backend/common/jwt.hpp:453-474 | Encoded text contains no dot and no pad, and only nothing encodes to nothing |
| `Base64.UrlSymbols` | backend/common/jwt.hpp:453-474 | Symbol k of the encoded text is the letter of the literal alphabet at the k-th six bits of the bytes, and the length is what the bits need |
| `Jwt.Split` | backend/common/jwt.hpp:549-562 | The parts contain no delimiter and join to the text |
| `Jwt.SplitUnique` | backend/common/jwt.hpp:549-562 | Only one list of parts does that |
| `Jwt.JwtService.IssueToken` | backend/common/jwt.hpp:319-329 | The token is header, payload and the signature of both: its third part is the encoded hash of everything before the last dot |
| `Jwt.JwtService.VerifyToken` | backend/common/jwt.hpp:334-384 | Accepts a token exactly when it has three non-empty parts, the right header, a payload, and as third part the signature of the first two |
| `Jwt.JwtService.IssuePaymentQrToken` | backend/common/jwt.hpp:240-256 | Refuses exactly a session without a name; otherwise the token lasts from now for the configured time |
| `Jwt.JwtService.VerifyPaymentQrToken` | backend/common/jwt.hpp:260-293 | The payload exactly when the token is genuine, complete and not past its end plus the skew |
| `Jwt.FromConfig` | backend/common/jwt.hpp:302-313 | A service exists exactly for a non-empty secret, a known algorithm and a positive lifetime |
| `Jwt.IssuedIsGenuine` | backend/common/jwt.hpp:319-384 | An issued token is genuine and carries its own payload and no other |
| `Jwt.IssuedTokenLifetime` | backend/common/jwt.hpp:240-293 | A token issued at t0 is accepted at t exactly when t0 is positive and t is before t0 plus lifetime plus skew, and it gives the same payload back |
| `Jwt.GenuineIsSigned` | backend/common/jwt.hpp:365-368 | The third part of an accepted token is the encoded hash of everything before the last dot, and the payload stands in what was hashed |
| `Jwt.SameSignatureSameHash` | backend/common/jwt.hpp:365-368 | Two accepted tokens with the same third part have fronts with the same hash, so under a hash that tells texts apart they are the same token |
| `Jwt.AcceptedIsSigned` | backend/common/jwt.hpp:260-293 | The payload of an accepted payment token stands in the signed front, names session and nonce, spans a positive time and has not run out |
| `Jwt.SameSignatureSamePayload` | backend/common/jwt.hpp:260-293 | No payload can be exchanged under a signature unless the hash takes two texts for one |
| `WorkerPool.Pool.Init` | backend/common/thread_pool.hpp:32-46 | Starts at least four workers, and only once |
| `WorkerPool.Pool.Submit` | backend/common/thread_pool.hpp:58-68 | Queues at the end unless stopped or not initialised |
| `WorkerPool.Pool.TakeTask` | backend/common/thread_pool.hpp:93-104 | Takes the first task, leaves only when stopped and empty, sleeps only when empty |
| `WorkerPool.RunKeepsInv` | backend/common/thread_pool.hpp:58-109 | In every run tasks leave in the order of acceptance, each is accounted for, and a queued task is attended to |
| `WorkerPool.EveryTaskRuns` | backend/common/thread_pool.hpp:74-84 | The dequeued tasks are always a prefix of the accepted ones, and when the destructor has returned all accepted tasks have run |
| `WorkerPool.NoTaskForgotten` | backend/common/thread_pool.hpp:58-104 | While a task is queued some worker is awake or a notification is on its way |
| `WorkerPool.Draining` | backend/common/thread_pool.hpp:74-84 | While the destructor waits every worker step brings the end nearer and no submission delays it |
| `WorkerPool.CanClose` | backend/common/thread_pool.hpp:74-84 | The destructor can always finish, within a bound on the worker steps |
| `WorkerPool.AdmittedBounded` | backend/common/http_server.hpp:163-175 | With any number of callers no more connections are admitted than allowed |
| `WorkerPool.TurnedAwayWhenFull` | backend/common/http_server.hpp:91-95 | With one accepting thread a connection is turned away exactly when the limit is reached, and the counter is as before |

## Left out

- Kanji mode, which the front end never enables; its bit length and its characters are modelled, its writer is not.
- The BCH codes of format and version information: finite tables of bits that the model takes as given.
- Rendering to canvas, SVG or terminal, option parsing, and segments given as arrays by a caller of the library beyond
  what `Segments.FromArray` and `QrSymbol.VersionCheckTooWeak` state.
- Sockets, epoll, Redis, the MySQL client, configuration, logging and HTML pages: input and output.
- The JSON bodies of the handlers and the rejection of incomplete ones, which happens before any call to the database.
- A partial write of a response: the backend calls write once and ignores the result; `HttpWire.WriteHttpResponse` stops
  at the text that is handed over.
- A commit whose outcome stays unknown, gap locks on missing rows, and lock timeouts of the database.
- Payment of sessions past their expiry time: neither the handler nor the transaction checks it.
- Finality of an attempt: an attempt marked successful may later be marked failed, since the update has no condition.
- The gateway's own copies of the pool, the server and the request reader, its WebSocket registry and its cookie lookup.
- HttpWire.RequestArrives: assumes a method, path and query without white space, a path without question mark, and
  header values without line breaks or white space at their ends, since the format cannot carry others.
- HttpWire.ResponseArrives: assumes extra headers without line breaks, outer spaces or a length of their own, for the
  same reason.
- ReedSolomon.Encoder.constructor: degrees above 512 are not modelled, because the table of powers ends there.
- ReedSolomon.Encoder.Initialize: the same bound on the degree.
- Interleaving.CreateCodewords: assumes a multiple of the block count and 1 to 255 error correction bytes for each
  block, which `VersionTables.TablesAgree` shows for all versions and levels.
- Jwt.JwtService.VerifyToken: that no other party can produce a signature is a property of the hash and not claimed.
- WorkerPool.EveryTaskRuns: a critical section under the mutex is one step; the body of a task is assumed to end.
- PaymentDatabase.Database.UpdatePaymentAttemptResult: whether one row was changed is not returned, since the database
  counts a row that keeps its values as unchanged and no caller looks at the answer;
  `PaymentDatabase.Database.HandlePay` runs without exceptions, which `PaymentProtocol` has at every step.
- PaymentProgress.SomeoneCanStep: the connections of the pool are taken to be enough. markAttemptFailedNoThrow takes a
  second connection while the one of the transaction is still held (mysql_pool.hpp:496, 516), and with too few of them
  the wait for one ends in a timeout (307-313); the model has that as an exception, which may come at any call.
